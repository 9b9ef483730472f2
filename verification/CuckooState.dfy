/** What a cuckoo hash table stores (ckh.h): cells in buckets of four, each
    item in one of the two buckets that its key hashes to. */
module CuckooState {
  import opened Wrappers
  import opened PowersOfTwo

  datatype Cell<K, V> = Empty | Item(key: K, data: V)

  /** The two buckets of a key in a table of 2^lg buckets. */
  function First<K>(hash: (K, nat) -> (nat, nat), lg: nat, key: K): nat {
    hash(key, lg).0
  }

  function Second<K>(hash: (K, nat) -> (nat, nat), lg: nat, key: K): nat {
    hash(key, lg).1
  }

  ghost predicate InRange<K(!new)>(hash: (K, nat) -> (nat, nat)) {
    forall key, lg :: First(hash, lg, key) < Pow2(lg) && Second(hash, lg, key) < Pow2(lg)
  }

  /** The lowest bits of two hashes. */
  function Masked<K>(hash: (K, nat) -> (nat, nat)): (K, nat) -> (nat, nat) {
    (key: K, lg: nat) => Mask(hash(key, lg), lg)
  }

  function Mask(h: (nat, nat), lg: nat): (nat, nat) {
    (h.0 % Pow2(lg), h.1 % Pow2(lg))
  }

  lemma MaskedInRange<K(!new)>(hash: (K, nat) -> (nat, nat))
    ensures InRange(Masked(hash))
    ensures forall key, lg :: First(Masked(hash), lg, key) == hash(key, lg).0 % Pow2(lg)
  {
    forall key: K, lg: nat
      ensures First(Masked(hash), lg, key) == hash(key, lg).0 % Pow2(lg) < Pow2(lg) && Second(Masked(hash), lg, key) < Pow2(lg)
    {
      assert Masked(hash)(key, lg) == Mask(hash(key, lg), lg);
    }
  }

  /** The items of a table, with multiplicity. */
  ghost function Stored<K, V>(s: seq<Cell<K, V>>): multiset<Cell<K, V>> {
    multiset(s)[Empty := 0]
  }

  /** The items of a map: each key once. */
  ghost function Bag<K(!new), V(!new)>(m: map<K, V>): multiset<Cell<K, V>> {
    multiset(set k | k in m :: Item(k, m[k]))
  }

  ghost predicate InBucket<K(!new), V>(hash: (K, nat) -> (nat, nat), lg: nat, key: K, bucket: nat) {
    bucket == First(hash, lg, key) || bucket == Second(hash, lg, key)
  }

  /** Every item lies in one of its two buckets. */
  ghost predicate Placed<K(!new), V(!new)>(s: seq<Cell<K, V>>, hash: (K, nat) -> (nat, nat), lg: nat) {
    forall i :: 0 <= i < |s| && s[i].Item? ==> InBucket<K, V>(hash, lg, s[i].key, i / 4)
  }

  /** The two buckets of a key. */
  ghost predicate Within<K(!new)>(hash: (K, nat) -> (nat, nat), lg: nat, key: K, shut: set<nat>) {
    First(hash, lg, key) in shut && Second(hash, lg, key) in shut
  }

  /** Buckets that are full of items which have nowhere else to go. */
  ghost predicate Closed<K(!new), V(!new)>(s: seq<Cell<K, V>>, hash: (K, nat) -> (nat, nat), lg: nat, shut: set<nat>) {
    forall i :: 0 <= i < |s| && i / 4 in shut ==> s[i].Item? && Within<K>(hash, lg, s[i].key, shut)
  }

  /** A key at home in such buckets. */
  ghost predicate Shut<K(!new), V(!new)>(s: seq<Cell<K, V>>, hash: (K, nat) -> (nat, nat), lg: nat, shut: set<nat>, key: K) {
    Closed(s, hash, lg, shut) && Within<K>(hash, lg, key, shut)
  }

  /** Exchanging an item leaves the buckets closed, and it is one of them that
      the other item goes to next. */
  lemma ShutSwap<K(!new), V(!new)>(s: seq<Cell<K, V>>, hash: (K, nat) -> (nat, nat), lg: nat, shut: set<nat>, c: nat, item: Cell<K, V>)
    requires c < |s| && c / 4 in shut && item.Item? && Shut(s, hash, lg, shut, item.key)
    ensures s[c].Item? && Shut(s[c := item], hash, lg, shut, s[c].key)
  {
  }

  lemma ShutFull<K(!new), V(!new)>(s: seq<Cell<K, V>>, hash: (K, nat) -> (nat, nat), lg: nat, shut: set<nat>, key: K, bucket: nat)
    requires Shut(s, hash, lg, shut, key) && InBucket<K, V>(hash, lg, key, bucket)
    ensures bucket in shut
    ensures forall c :: 4 * bucket <= c < 4 * bucket + 4 && c < |s| ==> s[c].Item?
  {
    forall c | 4 * bucket <= c < 4 * bucket + 4 && c < |s| ensures s[c].Item? {
      assert c / 4 == bucket;
    }
  }

  /** The other bucket of an item. */
  function Other<K(!new)>(hash: (K, nat) -> (nat, nat), lg: nat, key: K, bucket: nat): (b: nat)
    ensures InBucket<K, ()>(hash, lg, key, b)
    ensures b == bucket ==> First(hash, lg, key) == Second(hash, lg, key) == bucket
  {
    if Second(hash, lg, key) == bucket then First(hash, lg, key) else Second(hash, lg, key)
  }

  /** A bucket with an empty cell. */
  ghost predicate Open<K, V>(s: seq<Cell<K, V>>, bucket: nat) {
    exists c :: 4 * bucket <= c < 4 * bucket + 4 && c < |s| && s[c] == Empty
  }

  // ----- where an attempt leads to -----

  /** What an attempt to place an item leads to; `NoFuel` stands for a chain of
      evictions that has not ended yet. */
  datatype Tried<K, V> = Done | Cycle(carried: Cell<K, V>) | NoFuel

  /** The chain of evictions that begins when `item` comes to the full bucket, told
      by the numbers drawn: it ends with an empty cell, or in the bucket `first`. */
  ghost function Chase<K(!new), V(!new)>(s: seq<Cell<K, V>>, hash: (K, nat) -> (nat, nat), lg: nat, first: nat, bucket: nat,
                                         item: Cell<K, V>, cs: seq<nat>): Tried<K, V>
    requires InRange(hash) && |s| == 4 * Pow2(lg) && bucket < Pow2(lg) && item.Item? && !Open(s, bucket)
    decreases |cs|
  {
    if cs == [] then NoFuel
    else
      var c := 4 * bucket + cs[0] % 4;
      assert s[c] != Empty;
      var t, next := s[c := item], Other<K>(hash, lg, s[c].key, bucket);
      if next == first then Cycle(s[c])
      else if Open(t, next) then Done
      else Chase(t, hash, lg, first, next, s[c], cs[1..])
  }

  /** The same for a whole attempt to place an item: its two buckets, and then the
      chain from the second one. */
  ghost function Attempt<K(!new), V(!new)>(s: seq<Cell<K, V>>, hash: (K, nat) -> (nat, nat), lg: nat, item: Cell<K, V>, cs: seq<nat>): Tried<K, V>
    requires InRange(hash) && |s| == 4 * Pow2(lg) && item.Item?
  {
    var b := Second(hash, lg, item.key);
    if Open(s, First(hash, lg, item.key)) || Open(s, b) then Done
    else Chase(s, hash, lg, b, b, item, cs)
  }

  /** Where one link leads to, if the chain ends with it. */
  ghost function LinkEnds<K(!new), V(!new)>(t: seq<Cell<K, V>>, first: nat, next: nat, out: Cell<K, V>): Option<Tried<K, V>> {
    if next == first then Some(Cycle(out)) else if Open(t, next) then Some(Done) else None
  }

  /** After the choices `cs` the chain that began in table `s0` has come to table `s`. */
  ghost predicate Reached<K(!new), V(!new)>(s0: seq<Cell<K, V>>, hash: (K, nat) -> (nat, nat), lg: nat, first: nat, item0: Cell<K, V>, cs: seq<nat>,
                                            s: seq<Cell<K, V>>, bucket: nat, item: Cell<K, V>) {
    && InRange(hash) && |s0| == |s| == 4 * Pow2(lg) && bucket < Pow2(lg) && first < Pow2(lg) && item0.Item? && item.Item?
    && !Open(s0, first) && !Open(s, bucket)
    && forall more: seq<nat> :: Chase(s0, hash, lg, first, first, item0, cs + more) == Chase(s, hash, lg, first, bucket, item, more)
  }

  lemma ReachedStart<K(!new), V(!new)>(s: seq<Cell<K, V>>, hash: (K, nat) -> (nat, nat), lg: nat, first: nat, item: Cell<K, V>)
    requires InRange(hash) && |s| == 4 * Pow2(lg) && first < Pow2(lg) && item.Item? && !Open(s, first)
    ensures Reached(s, hash, lg, first, item, [], s, first, item)
  {
    forall more: seq<nat>
      ensures Chase(s, hash, lg, first, first, item, [] + more) == Chase(s, hash, lg, first, first, item, more)
    {
      assert [] + more == more;
    }
  }

  lemma ReachedEnd<K(!new), V(!new)>(s0: seq<Cell<K, V>>, hash: (K, nat) -> (nat, nat), lg: nat, first: nat, item0: Cell<K, V>, cs: seq<nat>,
                                     s: seq<Cell<K, V>>, bucket: nat, item: Cell<K, V>)
    requires Reached(s0, hash, lg, first, item0, cs, s, bucket, item)
    ensures Chase(s0, hash, lg, first, first, item0, cs) == NoFuel
  {
    assert cs + [] == cs;
    assert Chase(s0, hash, lg, first, first, item0, cs + []) == Chase(s, hash, lg, first, bucket, item, []);
  }

  lemma ReachedNext<K(!new), V(!new)>(s0: seq<Cell<K, V>>, hash: (K, nat) -> (nat, nat), lg: nat, first: nat, item0: Cell<K, V>, cs: seq<nat>,
                                      s: seq<Cell<K, V>>, bucket: nat, item: Cell<K, V>, i: nat, out: Cell<K, V>, next: nat)
    requires Reached(s0, hash, lg, first, item0, cs, s, bucket, item) && i < 4
    requires out == s[4 * bucket + i] && out.Item? && next == Other<K>(hash, lg, out.key, bucket)
    ensures var t := s[4 * bucket + i := item];
            match LinkEnds(t, first, next, out)
            case None => Reached(s0, hash, lg, first, item0, cs + [i], t, next, out)
            case Some(r) => Chase(s0, hash, lg, first, first, item0, cs + [i]) == r
  {
    var t := s[4 * bucket + i := item];
    ChaseLink(s, hash, lg, first, bucket, item, i, []);
    assert [i] + [] == [i];
    if LinkEnds(t, first, next, out) == None {
      forall more: seq<nat>
        ensures Chase(s0, hash, lg, first, first, item0, cs + [i] + more) == Chase(t, hash, lg, first, next, out, more)
      {
        assert cs + [i] + more == cs + ([i] + more);
        ChaseLink(s, hash, lg, first, bucket, item, i, more);
      }
    }
  }

  lemma ChaseLink<K(!new), V(!new)>(s: seq<Cell<K, V>>, hash: (K, nat) -> (nat, nat), lg: nat, first: nat, bucket: nat, item: Cell<K, V>, i: nat, more: seq<nat>)
    requires InRange(hash) && |s| == 4 * Pow2(lg) && bucket < Pow2(lg) && item.Item? && !Open(s, bucket) && i < 4
    ensures s[4 * bucket + i].Item?
    ensures var out := s[4 * bucket + i]; var t, next := s[4 * bucket + i := item], Other<K>(hash, lg, out.key, bucket);
            Chase(s, hash, lg, first, bucket, item, [i] + more) ==
            match LinkEnds(t, first, next, out)
            case Some(r) => r
            case None => Chase(t, hash, lg, first, next, out, more)
  {
    assert ([i] + more)[1..] == more;
    assert s[4 * bucket + i] != Empty;
  }

  /** Items of closed buckets never find a place. */
  lemma {:induction false} ChaseShut<K(!new), V(!new)>(s: seq<Cell<K, V>>, hash: (K, nat) -> (nat, nat), lg: nat, first: nat, bucket: nat,
                                                       item: Cell<K, V>, cs: seq<nat>, shut: set<nat>)
    requires InRange(hash) && |s| == 4 * Pow2(lg) && bucket < Pow2(lg) && item.Item? && !Open(s, bucket)
    requires Shut(s, hash, lg, shut, item.key) && InBucket<K, V>(hash, lg, item.key, bucket)
    ensures !Chase(s, hash, lg, first, bucket, item, cs).Done?
    decreases |cs|
  {
    if cs != [] {
      var c := 4 * bucket + cs[0] % 4;
      assert c / 4 == bucket;
      ShutFull(s, hash, lg, shut, item.key, bucket);
      ShutSwap(s, hash, lg, shut, c, item);
      var t, next := s[c := item], Other<K>(hash, lg, s[c].key, bucket);
      assert InBucket<K, ()>(hash, lg, s[c].key, next);
      ShutFull(t, hash, lg, shut, s[c].key, next);
      if next != first { ChaseShut(t, hash, lg, first, next, s[c], cs[1..], shut); }
    }
  }

  lemma AttemptShut<K(!new), V(!new)>(s: seq<Cell<K, V>>, hash: (K, nat) -> (nat, nat), lg: nat, item: Cell<K, V>, cs: seq<nat>, shut: set<nat>)
    requires InRange(hash) && |s| == 4 * Pow2(lg) && item.Item? && Shut(s, hash, lg, shut, item.key)
    ensures !Attempt(s, hash, lg, item, cs).Done?
  {
    var b := Second(hash, lg, item.key);
    ShutFull(s, hash, lg, shut, item.key, First(hash, lg, item.key));
    ShutFull(s, hash, lg, shut, item.key, b);
    ChaseShut(s, hash, lg, b, b, item, cs, shut);
  }

  /** Where every item of the second bucket has somewhere else to go, one link is enough. */
  lemma AttemptLeads<K(!new), V(!new)>(s: seq<Cell<K, V>>, hash: (K, nat) -> (nat, nat), lg: nat, item: Cell<K, V>, cs: seq<nat>)
    requires InRange(hash) && |s| == 4 * Pow2(lg) && item.Item? && cs != [] && LeadsOut(s, hash, lg, Second(hash, lg, item.key))
    ensures Attempt(s, hash, lg, item, cs).Done?
  {
    var b := Second(hash, lg, item.key);
    if !Open(s, b) {
      var c := 4 * b + cs[0] % 4;
      assert s[c] != Empty;
      OutLeads(s, hash, lg, b, c, item);
    }
  }

  /** In a table of one bucket every chain comes back at once. */
  lemma AttemptOne<K(!new), V(!new)>(s: seq<Cell<K, V>>, hash: (K, nat) -> (nat, nat), item: Cell<K, V>, cs: seq<nat>)
    requires InRange(hash) && |s| == 4 && item.Item? && cs != []
    ensures if Open(s, 0) then Attempt(s, hash, 0, item, cs).Done? else Attempt(s, hash, 0, item, cs).Cycle?
  {
    assert Pow2(0) == 1;
  }

  /** The choices of a chain that was broken off after `fuel` links, or ended. */
  ghost predicate Chosen<K, V>(cs: seq<nat>, fuel: nat, r: Tried<K, V>) {
    |cs| <= fuel && (r.NoFuel? ==> |cs| == fuel)
  }

  datatype Status = Ok | Failed | Diverged

  /** With some of the items of a map in the table `t`, the attempt with another one
      comes to `r`. */
  ghost predicate ComesTo<K(!new), V(!new)>(m: map<K, V>, hash: (K, nat) -> (nat, nat), lg: nat, fuel: nat,
                                            t: seq<Cell<K, V>>, item: Cell<K, V>, cs: seq<nat>, r: Tried<K, V>) {
    && InRange(hash) && item.Item? && |t| == 4 * Pow2(lg) && Placed(t, hash, lg) && Stored(t) + multiset{item} <= Bag(m)
    && r == Attempt(t, hash, lg, item, cs) && Chosen(cs, fuel, r)
  }

  /** Why a rebuild with 2^lg buckets failed: one of the items ended in a cycle; or
      why it did not end: a chain of evictions did not, within `fuel` links. */
  ghost predicate Because<K(!new), V(!new)>(m: map<K, V>, hash: (K, nat) -> (nat, nat), lg: nat, fuel: nat, status: Status) {
    match status
    case Ok => true
    case Failed => exists t, item, cs, x :: ComesTo(m, hash, lg, fuel, t, item, cs, Cycle(x))
    case Diverged => exists t, item, cs :: ComesTo(m, hash, lg, fuel, t, item, cs, NoFuel)
  }

  // ----- when a table is large enough -----

  /** The keys whose first bucket it is. */
  ghost function Homes<K(!new), V(!new)>(m: map<K, V>, hash: (K, nat) -> (nat, nat), lg: nat, bucket: nat): set<K> {
    set k | k in m && First(hash, lg, k) == bucket
  }

  /** No bucket is the first one of more than four keys. */
  ghost predicate Roomy<K(!new), V(!new)>(m: map<K, V>, hash: (K, nat) -> (nat, nat), lg: nat) {
    forall b :: 0 <= b < Pow2(lg) ==> |Homes(m, hash, lg, b)| <= 4
  }

  /** Four items have room in any table. */
  lemma FourAreFew<K(!new), V(!new)>(m: map<K, V>, hash: (K, nat) -> (nat, nat), lg: nat)
    requires |m| <= 4
    ensures Roomy(m, hash, lg)
  {
    forall b | 0 <= b < Pow2(lg) ensures |Homes(m, hash, lg, b)| <= 4 {
      Fewer(Homes(m, hash, lg, b), m.Keys);
    }
  }

  lemma {:induction false} Fewer<K>(a: set<K>, b: set<K>)
    requires a <= b
    ensures |a| <= |b|
    decreases a
  {
    if a != {} {
      var k :| k in a;
      Fewer(a - {k}, b - {k});
    }
  }

  lemma RoomyLess<K(!new), V(!new)>(m: map<K, V>, hash: (K, nat) -> (nat, nat), lg: nat, k: K)
    requires Roomy(m, hash, lg)
    ensures Roomy(m - {k}, hash, lg)
  {
    forall b | 0 <= b < Pow2(lg) ensures |Homes(m - {k}, hash, lg, b)| <= 4 {
      Fewer(Homes(m - {k}, hash, lg, b), Homes(m, hash, lg, b));
    }
  }

  /** Every item lies in its first bucket. */
  ghost predicate AtHome<K(!new), V(!new)>(s: seq<Cell<K, V>>, hash: (K, nat) -> (nat, nat), lg: nat) {
    forall i :: 0 <= i < |s| && s[i].Item? ==> First(hash, lg, s[i].key) == i / 4
  }

  /** While that is so there is room in the first bucket of every further item. */
  lemma RoomAtHome<K(!new), V(!new)>(m: map<K, V>, s: seq<Cell<K, V>>, hash: (K, nat) -> (nat, nat), lg: nat, item: Cell<K, V>)
    requires InRange(hash) && |s| == 4 * Pow2(lg) && AtHome(s, hash, lg) && Roomy(m, hash, lg)
    requires item.Item? && Stored(s) + multiset{item} <= Bag(m)
    ensures Open(s, First(hash, lg, item.key))
  {
    var b := First(hash, lg, item.key);
    if !Open(s, b) {
      var keys := {s[4 * b].key, s[4 * b + 1].key, s[4 * b + 2].key, s[4 * b + 3].key, item.key};
      FiveKeys(m, s, item, 4 * b);
      forall k | k in keys ensures k in Homes(m, hash, lg, b) {
        InBag(m, s, item, 4 * b);
      }
      Fewer(keys, Homes(m, hash, lg, b));
    }
  }

  lemma InBag<K(!new), V(!new)>(m: map<K, V>, s: seq<Cell<K, V>>, item: Cell<K, V>, c: nat)
    requires c + 4 <= |s| && Stored(s) + multiset{item} <= Bag(m) && item.Item? && forall i :: c <= i < c + 4 ==> s[i].Item?
    ensures item.key in m && forall i :: c <= i < c + 4 ==> s[i].key in m
  {
    BagHas(m, item);
    assert item in Stored(s) + multiset{item};
    forall i | c <= i < c + 4 ensures s[i].key in m {
      assert s[i] in multiset(s) && s[i] in Stored(s) + multiset{item};
      BagHas(m, s[i]);
    }
  }

  /** They are five different keys. */
  lemma FiveKeys<K(!new), V(!new)>(m: map<K, V>, s: seq<Cell<K, V>>, item: Cell<K, V>, c: nat)
    requires c + 4 <= |s| && Stored(s) + multiset{item} <= Bag(m) && item.Item? && forall i :: c <= i < c + 4 ==> s[i].Item?
    ensures forall i, j :: c <= i < j < c + 4 ==> s[i].key != s[j].key
    ensures forall i :: c <= i < c + 4 ==> s[i].key != item.key
  {
    forall i, j | c <= i < j < c + 4 ensures s[i].key != s[j].key {
      TwoCells(m, s, item, i, j);
    }
    forall i | c <= i < c + 4 ensures s[i].key != item.key {
      BagHas(m, item);
      BagHas(m, s[i]);
      assert s[i] in multiset(s);
      assert (Stored(s) + multiset{item})[item] <= 1 && s[i] in Stored(s) + multiset{item} && item in Stored(s) + multiset{item};
    }
  }

  lemma TwoCells<K(!new), V(!new)>(m: map<K, V>, s: seq<Cell<K, V>>, item: Cell<K, V>, i: nat, j: nat)
    requires i < j < |s| && s[i].Item? && s[j].Item? && Stored(s) + multiset{item} <= Bag(m)
    ensures s[i].key != s[j].key
  {
    BagHas(m, s[i]);
    BagHas(m, s[j]);
    var t := s[..i] + s[i + 1..];
    assert s == s[..i] + [s[i]] + s[i + 1..];
    assert multiset(s) == multiset(t) + multiset{s[i]};
    assert s[j] == t[j - 1] && s[j] in multiset(t) && s[i] in multiset(s);
    assert s[i] in Stored(s) + multiset{item} && s[j] in Stored(s) + multiset{item};
  }

  /** An item put into its first bucket. */
  lemma OneMoreAtHome<K(!new), V(!new)>(s: seq<Cell<K, V>>, hash: (K, nat) -> (nat, nat), lg: nat, c: nat, item: Cell<K, V>)
    requires AtHome(s, hash, lg) && c < |s| && item.Item? && c / 4 == First(hash, lg, item.key)
    ensures AtHome(s[c := item], hash, lg)
  {
  }

  /** Whichever item of a bucket is pushed out, its other bucket has an empty cell. */
  ghost predicate LeadsOut<K(!new), V(!new)>(s: seq<Cell<K, V>>, hash: (K, nat) -> (nat, nat), lg: nat, bucket: nat) {
    forall c :: 4 * bucket <= c < 4 * bucket + 4 && c < |s| && s[c].Item? ==>
      Other<K>(hash, lg, s[c].key, bucket) != bucket && Open(s, Other<K>(hash, lg, s[c].key, bucket))
  }

  /** So it is still after the exchange. */
  lemma OutLeads<K(!new), V(!new)>(s: seq<Cell<K, V>>, hash: (K, nat) -> (nat, nat), lg: nat, bucket: nat, c: nat, item: Cell<K, V>)
    requires 4 * bucket <= c < 4 * bucket + 4 && c < |s| && s[c].Item?
    ensures LeadsOut(s, hash, lg, bucket) ==>
      Other<K>(hash, lg, s[c].key, bucket) != bucket && Open(s[c := item], Other<K>(hash, lg, s[c].key, bucket))
  {
    if LeadsOut(s, hash, lg, bucket) {
      var other := Other<K>(hash, lg, s[c].key, bucket);
      var d :| 4 * other <= d < 4 * other + 4 && d < |s| && s[d] == Empty;
      assert s[c := item][d] == Empty;
    }
  }

  function Buckets(n: nat): (r: set<nat>)
    ensures forall b :: b in r <==> 0 <= b < n
  {
    if n == 0 then {} else Buckets(n - 1) + {n - 1}
  }

  /** A table that is full all over is closed. */
  lemma FullShut<K(!new), V(!new)>(s: seq<Cell<K, V>>, hash: (K, nat) -> (nat, nat), lg: nat, key: K)
    requires InRange(hash) && |Stored(s)| == |s|
    ensures Shut(s, hash, lg, Buckets(Pow2(lg)), key)
  {
    forall i | 0 <= i < |s| ensures s[i].Item? {
      if s[i] == Empty {
        StoredLess(s, i);
      }
    }
  }

  lemma StoredLess<K, V>(s: seq<Cell<K, V>>, i: nat)
    requires i < |s| && s[i] == Empty
    ensures |Stored(s)| < |s|
  {
    var t := s[..i] + s[i + 1..];
    assert s == s[..i] + [s[i]] + s[i + 1..];
    assert Stored(s) == Stored(t);
    StoredBound(t);
  }

  lemma FullCount<K, V>(s: seq<Cell<K, V>>)
    requires forall i :: 0 <= i < |s| ==> s[i].Item?
    ensures |Stored(s)| == |s|
  {
    assert Empty !in s;
    assert Stored(s) == multiset(s);
  }

  lemma StoredLessSome<K, V>(s: seq<Cell<K, V>>)
    requires exists i :: 0 <= i < |s| && s[i] == Empty
    ensures |Stored(s)| < |s|
  {
    var i :| 0 <= i < |s| && s[i] == Empty;
    StoredLess(s, i);
  }

  lemma StoredNone<K, V>(s: seq<Cell<K, V>>)
    requires |Stored(s)| == 0
    ensures Stored(s) == Stored<K, V>([])
  {
    var none: seq<Cell<K, V>> := [];
    assert Stored(none) == multiset{};
  }

  lemma StoredEmpty<K, V>(s: seq<Cell<K, V>>)
    requires forall i :: 0 <= i < |s| ==> s[i] == Empty
    ensures Stored(s) == multiset{}
  {
    forall x | x in multiset(s) ensures x == Empty {
    }
  }

  lemma StoredSet<K, V>(s: seq<Cell<K, V>>, i: nat, x: Cell<K, V>)
    requires i < |s|
    ensures s[i] == Empty && x.Item? ==> Stored(s[i := x]) == Stored(s) + multiset{x}
    ensures s[i].Item? && x == Empty ==> Stored(s[i := x]) == Stored(s) - multiset{s[i]}
    ensures s[i].Item? && x.Item? ==> Stored(s[i := x]) + multiset{s[i]} == Stored(s) + multiset{x}
    ensures s[i].Item? ==> s[i] in Stored(s)
  {
    SplitAt(s, i);
    var t := s[i := x];
    SplitAt(t, i);
    assert t[..i] == s[..i] && t[i + 1..] == s[i + 1..];
  }

  lemma SplitAt<T>(s: seq<T>, i: nat)
    requires i < |s|
    ensures multiset(s) == multiset(s[..i]) + multiset{s[i]} + multiset(s[i + 1..])
  {
    assert s == s[..i] + [s[i]] + s[i + 1..];
  }

  lemma StoredNext<K, V>(s: seq<Cell<K, V>>, i: nat)
    requires i < |s|
    ensures Stored(s[..i + 1]) == if s[i] == Empty then Stored(s[..i]) else Stored(s[..i]) + multiset{s[i]}
  {
    assert s[..i + 1] == s[..i] + [s[i]];
  }

  lemma StoredPart<K, V>(s: seq<Cell<K, V>>, i: nat)
    requires i <= |s| && |Stored(s[..i])| == |Stored(s)|
    ensures Stored(s[..i]) == Stored(s)
  {
    assert s == s[..i] + s[i..];
    var a, b := Stored(s[..i]), Stored(s[i..]);
    assert Stored(s) == a + b;
  }

  lemma StoredPrefix<K, V>(s: seq<Cell<K, V>>, i: nat)
    requires i <= |s|
    ensures |Stored(s[..i])| <= |Stored(s)|
  {
    assert s == s[..i] + s[i..];
    assert Stored(s) == Stored(s[..i]) + Stored(s[i..]);
  }

  // ----- tables and maps -----

  lemma BagHas<K(!new), V(!new)>(m: map<K, V>, x: Cell<K, V>)
    ensures x in Bag(m) <==> x.Item? && x.key in m && m[x.key] == x.data
    ensures Bag(m)[x] <= 1
  {
  }

  lemma BagAdd<K(!new), V(!new)>(m: map<K, V>, k: K, v: V)
    requires k !in m
    ensures Bag(m[k := v]) == Bag(m) + multiset{Item(k, v)}
  {
    var a, b := Bag(m[k := v]), Bag(m) + multiset{Item(k, v)};
    forall x ensures a[x] == b[x] {
      BagHas(m, x);
      BagHas(m[k := v], x);
    }
  }

  lemma BagRemove<K(!new), V(!new)>(m: map<K, V>, k: K)
    requires k in m
    ensures Bag(m - {k}) == Bag(m) - multiset{Item(k, m[k])}
  {
    var n := m - {k};
    assert n[k := m[k]] == m;
    BagAdd(n, k, m[k]);
  }

  lemma {:induction false} BagSize<K(!new), V(!new)>(m: map<K, V>)
    ensures |Bag(m)| == |m|
    decreases |m|
  {
    if m.Keys == {} {
      assert m == map[];
    } else {
      var k :| k in m.Keys;
      BagSize(m - {k});
      BagRemove(m, k);
      BagHas(m, Item(k, m[k]));
      assert (m - {k}).Keys == m.Keys - {k};
    }
  }

  lemma StoredBound<K, V>(s: seq<Cell<K, V>>)
    ensures |Stored(s)| <= |s|
  {
    assert |multiset(s)| == |s|;
    assert Stored(s) <= multiset(s);
  }

  /** Taking one item of a map out of its bag. */
  lemma BagCarried<K(!new), V(!new)>(m: map<K, V>, stored: multiset<Cell<K, V>>, x: Cell<K, V>)
    requires stored + multiset{x} == Bag(m)
    ensures x.Item? && x.key in m && x.data == m[x.key] && stored == Bag(m - {x.key}) && x !in stored
  {
    BagHas(m, x);
    assert x in stored + multiset{x};
    BagRemove(m, x.key);
    assert stored == Bag(m) - multiset{x};
  }

  /** The item carried is not one that lies in the table. */
  lemma AnotherCarried<K(!new), V(!new)>(m: map<K, V>, s: seq<Cell<K, V>>, x: Cell<K, V>, k: K, v: V)
    requires Stored(s) + multiset{x} == Bag(m) && Item(k, v) in s
    ensures x.Item? && x.key in m && x.key != k
  {
    BagCarried(m, Stored(s), x);
    assert Item(k, v) in Stored(s);
    BagHas(m, Item(k, v));
  }

  /** An item of a table, with those before it. */
  lemma CellFits<K(!new), V(!new)>(m: map<K, V>, s: seq<Cell<K, V>>, i: nat)
    requires Stored(s) == Bag(m) && i < |s| && s[i].Item?
    ensures Stored(s[..i]) + multiset{s[i]} <= Bag(m)
  {
    assert s == s[..i] + [s[i]] + s[i + 1..];
    assert multiset(s) == multiset(s[..i]) + multiset{s[i]} + multiset(s[i + 1..]);
  }

  // ----- growing -----

  /** All sizes from above `lg` to below `n` were tried with these items, and
      one of them ended in a cycle each time. */
  ghost predicate TriedAll<K(!new), V(!new)>(m: map<K, V>, hash: (K, nat) -> (nat, nat), alloc: set<nat>, fuel: nat, lg: nat, n: nat) {
    forall k :: lg < k < n ==> TriedSize(m, hash, alloc, fuel, k)
  }

  ghost predicate TriedSize<K(!new), V(!new)>(m: map<K, V>, hash: (K, nat) -> (nat, nat), alloc: set<nat>, fuel: nat, k: nat) {
    k + 2 in alloc && Because(m, hash, k, fuel, Failed) && !Roomy(m, hash, k)
  }

  lemma TriedMore<K(!new), V(!new)>(m: map<K, V>, hash: (K, nat) -> (nat, nat), alloc: set<nat>, fuel: nat, lg: nat, n: nat)
    requires TriedAll(m, hash, alloc, fuel, lg, n) && TriedSize(m, hash, alloc, fuel, n)
    ensures TriedAll(m, hash, alloc, fuel, lg, n + 1)
  {
  }

  /** Memory was granted for all sizes from above `lg` to below `n`, and in none of
      them have the items surely room. */
  ghost predicate TooSmall<K(!new), V(!new)>(m: map<K, V>, hash: (K, nat) -> (nat, nat), alloc: set<nat>, lg: nat, n: nat) {
    forall k :: lg < k < n ==> SmallSize(m, hash, alloc, k)
  }

  ghost predicate SmallSize<K(!new), V(!new)>(m: map<K, V>, hash: (K, nat) -> (nat, nat), alloc: set<nat>, k: nat) {
    k + 2 in alloc && !Roomy(m, hash, k)
  }

  lemma TriedTooSmall<K(!new), V(!new)>(m: map<K, V>, key: K, hash: (K, nat) -> (nat, nat), alloc: set<nat>, fuel: nat, lg: nat, n: nat)
    requires TriedAll(m - {key}, hash, alloc, fuel, lg, n)
    ensures TooSmall(m, hash, alloc, lg, n)
  {
    forall k | lg < k < n ensures SmallSize(m, hash, alloc, k) {
      assert TriedSize(m - {key}, hash, alloc, fuel, k);
      if Roomy(m, hash, k) { RoomyLess(m, hash, k, key); }
    }
  }

  lemma TooSmallOn<K(!new), V(!new)>(m: map<K, V>, hash: (K, nat) -> (nat, nat), alloc: set<nat>, lg: nat, mid: nat, n: nat)
    requires TooSmall(m, hash, alloc, lg, mid) && TooSmall(m, hash, alloc, mid, n) && (lg < mid < n ==> SmallSize(m, hash, alloc, mid))
    ensures TooSmall(m, hash, alloc, lg, n)
  {
    forall k | lg < k < n ensures SmallSize(m, hash, alloc, k) {
    }
  }

  /** Why a table could not grow: memory was refused, and all smaller sizes are too
      small for the items to have room surely. */
  ghost predicate Refused<K(!new), V(!new)>(m: map<K, V>, hash: (K, nat) -> (nat, nat), alloc: set<nat>, lg: nat) {
    exists n :: lg < n && n + 2 !in alloc && TooSmall(m, hash, alloc, lg, n)
  }

  /** Five keys have room in two buckets, unless all of them have the same first one. */
  lemma FiveInTwo<K(!new), V(!new)>(m: map<K, V>, hash: (K, nat) -> (nat, nat), keys: seq<K>, i: nat)
    requires |keys| == 5 && (forall k :: k in m <==> k in keys) && i < 5 && First(hash, 1, keys[0]) != First(hash, 1, keys[i])
    ensures Roomy(m, hash, 1)
  {
    assert Pow2(1) == 2 * Pow2(0) == 2;
    forall b | 0 <= b < Pow2(1) ensures |Homes(m, hash, 1, b)| <= 4 {
      var out := if First(hash, 1, keys[0]) == b then keys[i] else keys[0];
      assert out in keys && out !in Homes(m, hash, 1, b);
      var all := {keys[0], keys[1], keys[2], keys[3], keys[4]};
      assert Homes(m, hash, 1, b) <= all - {out};
      Fewer(Homes(m, hash, 1, b), all - {out});
    }
  }
}
