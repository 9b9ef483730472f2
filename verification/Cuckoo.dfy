/** Cuckoo hash tables (ckh.c). */
module Cuckoo {
  import opened Wrappers
  import opened PowersOfTwo
  import opened CuckooState

  class Table<K(!new, ==), V(!new)> {
    /** The two buckets of a key, given the number of bits needed. */
    const hash: (K, nat) -> (nat, nat)
    const lgMin: nat

    var tab: array<Cell<K, V>>
    var lgCur: nat
    var count: nat
    var prn: nat

    /** The map that the table stands for. */
    ghost var model: map<K, V>

    ghost predicate Shaped()
      reads this, tab
    {
      InRange(hash) && tab.Length == 4 * Pow2(lgCur) && Placed(tab[..], hash, lgCur) && count == |Stored(tab[..])|
    }

    ghost predicate Valid()
      reads this, tab
    {
      Shaped() && lgMin <= lgCur && Stored(tab[..]) == Bag(model)
    }

    /** The table size for a number of items: a power of two of cells, the
        least one (but for a whole bucket) that they fill to three quarters. */
    static method LgMinCells(minitems: nat) returns (lg: nat)
      requires minitems > 0
      ensures lg >= 2 && 3 * Pow2(lg) > 4 * minitems
      ensures lg > 2 ==> Pow2(lg - 1) < 4 * (minitems / 3 + 1) <= Pow2(lg)
    {
      var mincells := (minitems + (3 - minitems % 3)) / 3 * 4;
      lg := 2;
      while Pow2(lg) < mincells
        invariant lg >= 2 && (lg > 2 ==> Pow2(lg - 1) < mincells)
        decreases mincells - Pow2(lg)
      {
        lg := lg + 1;
      }
    }

    /** ckh_new, with memory for the table. */
    constructor (minitems: nat, hash: (K, nat) -> (nat, nat))
      requires minitems > 0
      ensures Valid() && model == map[] && fresh(tab) && this.hash == Masked(hash) && lgCur == lgMin && prn == 42
      ensures 3 * Pow2(lgMin + 2) > 4 * minitems && 4 * (minitems / 3 + 1) <= Pow2(lgMin + 2)
      ensures lgMin > 0 ==> Pow2(lgMin + 1) < 4 * (minitems / 3 + 1)
    {
      var lg := LgMinCells(minitems);
      this.hash := Masked(hash);
      lgMin, lgCur, count, prn, model := lg - 2, lg - 2, 0, 42, map[];
      tab := new Cell<K, V>[4 * Pow2(lg - 2)](_ => Empty);
      new;
      StoredEmpty(tab[..]);
      MaskedInRange(hash);
      assert Bag(model) == multiset{};
    }

    /** ckh_iter: the next item, from cell `tabind` on. */
    method Iter(tabind: nat) returns (r: Option<(K, V)>, next: nat)
      requires Valid()
      ensures r == None ==> forall i :: tabind <= i < tab.Length ==> tab[i] == Empty
      ensures r.Some? ==> tabind < next <= tab.Length && tab[next - 1] == Item(r.value.0, r.value.1)
                          && (forall i :: tabind <= i < next - 1 ==> tab[i] == Empty)
                          && r.value.0 in model && model[r.value.0] == r.value.1
    {
      var i := tabind;
      while i < tab.Length
        invariant tabind <= i && forall j :: tabind <= j < i && j < tab.Length ==> tab[j] == Empty
      {
        if tab[i].Item? {
          BagHas(model, tab[i]);
          assert tab[i] in multiset(tab[..]);
          return Some((tab[i].key, tab[i].data)), i + 1;
        }
        i := i + 1;
      }
      return None, tabind;
    }

    /** ckh_bucket_search. */
    method BucketSearch(bucket: nat, key: K) returns (cell: Option<nat>)
      requires 4 * bucket + 4 <= tab.Length
      ensures cell == None ==> forall i :: 4 * bucket <= i < 4 * bucket + 4 ==> !(tab[i].Item? && tab[i].key == key)
      ensures cell.Some? ==> cell.value < tab.Length && tab[cell.value].Item? && tab[cell.value].key == key
    {
      var i := 0;
      while i < 4
        invariant 0 <= i <= 4
        invariant forall j :: 4 * bucket <= j < 4 * bucket + i ==> !(tab[j].Item? && tab[j].key == key)
      {
        var c := tab[4 * bucket + i];
        if c.Item? && c.key == key {
          return Some(4 * bucket + i);
        }
        i := i + 1;
      }
      return None;
    }

    /** ckh_isearch: looking into the two buckets is enough. */
    method ISearch(key: K) returns (cell: Option<nat>)
      requires Valid()
      ensures cell == None <==> key !in model
      ensures cell.Some? ==> cell.value < tab.Length && key in model && tab[cell.value] == Item(key, model[key])
    {
      var b1, b2 := First(hash, lgCur, key), Second(hash, lgCur, key);
      cell := BucketSearch(b1, key);
      if cell == None {
        cell := BucketSearch(b2, key);
      }
      if cell.Some? {
        BagHas(model, tab[cell.value]);
        assert tab[cell.value] in multiset(tab[..]);
      } else if key in model {
        BagHas(model, Item(key, model[key]));
      }
    }

    /** prn32 with two bits: x' = a x + c modulo 2^32, highest bits first. */
    method Random() returns (r: nat)
      modifies this`prn
      ensures r == prn / 0x4000_0000 < 4 && prn == (old(prn) * 1103515241 + 12347) % 0x1_0000_0000
    {
      prn := (prn * 1103515241 + 12347) % 0x1_0000_0000;
      r := prn / 0x4000_0000;
    }

    /** An item is written to an empty cell of one of its buckets. */
    method Fill(c: nat, key: K, data: V)
      requires Shaped() && c < tab.Length && tab[c] == Empty && InBucket<K, V>(hash, lgCur, key, c / 4)
      modifies this`count, tab
      ensures Shaped() && count == old(count) + 1
      ensures tab[..] == old(tab[..])[c := Item(key, data)]
      ensures Stored(tab[..]) == Stored(old(tab[..])) + multiset{Item(key, data)}
    {
      StoredSet(tab[..], c, Item(key, data));
      ghost var s := tab[..];
      tab[c] := Item(key, data);
      count := count + 1;
      assert tab[..] == s[c := Item(key, data)];
    }

    static function Slot(bucket: nat, offset: nat, i: nat): (c: nat)
      ensures 4 * bucket <= c < 4 * bucket + 4
    {
      4 * bucket + (i + offset) % 4
    }

    static lemma AllSlots(bucket: nat, offset: nat, c: nat) returns (j: nat)
      requires 4 * bucket <= c < 4 * bucket + 4
      ensures j < 4 && Slot(bucket, offset, j) == c
    {
      j := (c - 4 * bucket + 3 * offset) % 4;
    }

    /** The cell is the first empty one of its bucket, from `offset` on. */
    static ghost predicate FirstFrom(s: seq<Cell<K, V>>, bucket: nat, offset: nat, c: nat) {
      exists i :: 0 <= i < 4 && Slot(bucket, offset, i) == c && EmptyFrom(s, bucket, offset, i)
    }

    static ghost predicate EmptyFrom(s: seq<Cell<K, V>>, bucket: nat, offset: nat, i: nat) {
      && 4 * bucket + 4 <= |s| && s[Slot(bucket, offset, i)] == Empty
      && forall j :: 0 <= j < i ==> s[Slot(bucket, offset, j)].Item?
    }

    /** The first empty cell of the bucket, from a random one on, or none. */
    method FirstEmpty(bucket: nat) returns (cell: Option<nat>)
      requires Shaped() && bucket < Pow2(lgCur)
      modifies this`prn
      ensures (cell == None <==> Full(bucket)) && (Full(bucket) <==> !Opens(bucket))
      ensures cell.Some? ==> 4 * bucket <= cell.value < 4 * bucket + 4 && tab[cell.value] == Empty
                             && FirstFrom(tab[..], bucket, prn / 0x4000_0000, cell.value)
    {
      FullIsNotOpen(bucket);
      var offset := Random();
      var i := 0;
      while i < 4
        invariant 0 <= i <= 4
        invariant forall j :: 0 <= j < i ==> tab[Slot(bucket, offset, j)].Item?
      {
        var c := Slot(bucket, offset, i);
        if tab[c] == Empty {
          assert EmptyFrom(tab[..], bucket, offset, i);
          return Some(c);
        }
        i := i + 1;
      }
      forall c | 4 * bucket <= c < 4 * bucket + 4 ensures tab[c].Item? {
        var j := AllSlots(bucket, offset, c);
      }
      return None;
    }

    /** From the cells `s`: the item was put into an empty cell of the bucket. */
    ghost predicate Put(s: seq<Cell<K, V>>, bucket: nat, c: nat, key: K, data: V)
      reads this`tab, tab
    {
      4 * bucket <= c < 4 * bucket + 4 && c < |s| && s[c] == Empty && tab[..] == s[c := Item(key, data)]
    }

    /** ckh_try_bucket_insert: the item goes into that cell, if there is one. */
    method TryBucketInsert(bucket: nat, key: K, data: V) returns (full: bool)
      requires Shaped() && bucket < Pow2(lgCur) && InBucket<K, V>(hash, lgCur, key, bucket)
      modifies this`prn, this`count, tab
      ensures Shaped() && (full <==> !old(Opens(bucket)))
      ensures full ==> tab[..] == old(tab[..]) && count == old(count) && Full(bucket)
      ensures !full ==> exists c :: Put(old(tab[..]), bucket, c, key, data)
      ensures !full ==> count == old(count) + 1 && Stored(tab[..]) == Stored(old(tab[..])) + multiset{Item(key, data)}
    {
      var cell := FirstEmpty(bucket);
      if cell == None {
        return true;
      }
      ghost var s := tab[..];
      Fill(cell.value, key, data);
      assert Put(s, bucket, cell.value, key, data);
      return false;
    }

    ghost predicate Full(bucket: nat)
      requires 4 * bucket + 4 <= tab.Length
      reads this, tab
    {
      forall c :: 4 * bucket <= c < 4 * bucket + 4 ==> tab[c].Item?
    }

    /** One of the two buckets of a key has an empty cell. */
    ghost predicate Room(key: K)
      requires Shaped()
      reads this, tab
    {
      !Full(First(hash, lgCur, key)) || !Full(Second(hash, lgCur, key))
    }

    /** Whichever item of a bucket is pushed out, its other bucket has an empty cell. */
    ghost predicate Leads(bucket: nat)
      reads this`lgCur, this`tab, tab
    {
      LeadsOut(tab[..], hash, lgCur, bucket)
    }

    ghost predicate Opens(bucket: nat)
      reads this`tab, tab
    {
      Open(tab[..], bucket)
    }

    /** The key is at home in buckets that no chain of evictions leads out of. */
    ghost predicate Trapped(key: K)
      reads this`lgCur, this`tab, tab
    {
      exists shut :: ShutHere(shut, key)
    }

    /** That is so at the latest when every cell is taken. */
    lemma FullTraps(key: K)
      requires Shaped() && count == tab.Length
      ensures Trapped(key)
    {
      FullShut(tab[..], hash, lgCur, key);
      assert ShutHere(Buckets(Pow2(lgCur)), key);
    }

    /** An item takes the place of another one in a full bucket. */
    method Swap(c: nat, key: K, data: V) returns (out: Cell<K, V>)
      requires Shaped() && c < tab.Length && tab[c].Item? && InBucket<K, V>(hash, lgCur, key, c / 4)
      modifies tab
      ensures Shaped() && out.Item? && out == old(tab[c]) && tab[..] == old(tab[..])[c := Item(key, data)]
      ensures InBucket<K, V>(hash, lgCur, out.key, c / 4)
      ensures Stored(tab[..]) + multiset{out} == Stored(old(tab[..])) + multiset{Item(key, data)}
    {
      ghost var s := tab[..];
      StoredSet(s, c, Item(key, data));
      out := tab[c];
      assert InBucket<K, V>(hash, lgCur, s[c].key, c / 4);
      tab[c] := Item(key, data);
      assert tab[..] == s[c := Item(key, data)];
      SameSize(Stored(tab[..]), Stored(s), out, Item(key, data));
    }

    static lemma SameSize<T>(a: multiset<T>, b: multiset<T>, x: T, y: T)
      requires a + multiset{x} == b + multiset{y}
      ensures |a| == |b|
    {
      assert |a + multiset{x}| == |a| + 1;
      assert |b + multiset{y}| == |b| + 1;
    }

    /** From the cells `s`: the item in cell `i` of the bucket has given way, and goes
        to its other bucket. */
    ghost predicate Linked(s: seq<Cell<K, V>>, bucket: nat, item: Cell<K, V>, i: nat, out: Cell<K, V>, next: nat)
      reads this`lgCur, this`tab, tab
    {
      && i < 4 && 4 * bucket + 4 <= |s| && out == s[4 * bucket + i] && tab[..] == s[4 * bucket + i := item]
      && out.Item? && next == Other<K>(hash, lgCur, out.key, bucket)
    }

    /** A random item of a full bucket makes room for the one carried. */
    method Evict(bucket: nat, item: Cell<K, V>) returns (out: Cell<K, V>, next: nat, ghost i: nat)
      requires Shaped() && bucket < Pow2(lgCur) && Full(bucket) && item.Item? && InBucket<K, V>(hash, lgCur, item.key, bucket)
      modifies this`prn, tab
      ensures Shaped() && out.Item? && next < Pow2(lgCur) && InBucket<K, V>(hash, lgCur, out.key, next)
      ensures Stored(tab[..]) + multiset{out} == Stored(old(tab[..])) + multiset{item}
      ensures Linked(old(tab[..]), bucket, item, i, out, next) && i == prn / 0x4000_0000
    {
      var n := Random();
      i := n;
      out, next := EvictFrom(bucket, n, item);
    }

    method EvictFrom(bucket: nat, i: nat, item: Cell<K, V>) returns (out: Cell<K, V>, next: nat)
      requires Shaped() && bucket < Pow2(lgCur) && Full(bucket) && item.Item? && InBucket<K, V>(hash, lgCur, item.key, bucket) && i < 4
      modifies tab
      ensures Shaped() && out.Item? && next < Pow2(lgCur) && InBucket<K, V>(hash, lgCur, out.key, next)
      ensures Stored(tab[..]) + multiset{out} == Stored(old(tab[..])) + multiset{item}
      ensures Linked(old(tab[..]), bucket, item, i, out, next)
    {
      assert (4 * bucket + i) / 4 == bucket;
      out := Swap(4 * bucket + i, item.key, item.data);
      next := Other<K>(hash, lgCur, out.key, bucket);
    }

    ghost predicate ShutHere(shut: set<nat>, key: K)
      reads this`lgCur, this`tab, tab
    {
      Shut(tab[..], hash, lgCur, shut, key)
    }

    /** The chain has just begun, or the new item lies where it did. */
    ghost predicate Began(argbucket: nat, bucket: nat, item: Cell<K, V>, key: K, data: V)
      requires 4 * argbucket + 4 <= tab.Length
      reads this`tab, tab
    {
      if bucket == argbucket then item == Item(key, data) else Arrived(argbucket, key, data)
    }

    /** One link of the chain. */
    method Push(ghost argbucket: nat, bucket: nat, item: Cell<K, V>, ghost key: K, ghost data: V, ghost all: multiset<Cell<K, V>>)
      returns (out: Cell<K, V>, next: nat, ghost i: nat)
      requires Shaped() && bucket < Pow2(lgCur) && Full(bucket) && item.Item? && InBucket<K, V>(hash, lgCur, item.key, bucket)
      requires Stored(tab[..]) + multiset{item} == all && argbucket < Pow2(lgCur) && Began(argbucket, bucket, item, key, data)
      modifies this`prn, tab
      ensures Shaped() && out.Item? && next < Pow2(lgCur) && InBucket<K, V>(hash, lgCur, out.key, next)
      ensures Stored(tab[..]) + multiset{out} == all && Arrived(argbucket, key, data)
      ensures Linked(old(tab[..]), bucket, item, i, out, next)
    {
      ghost var s := tab[..];
      out, next, i := Evict(bucket, item);
      ArrivedNow(s, 4 * bucket + i, argbucket, bucket, item, key, data);
    }

    lemma ArrivedNow(s: seq<Cell<K, V>>, c: nat, argbucket: nat, bucket: nat, item: Cell<K, V>, key: K, data: V)
      requires 4 * argbucket + 4 <= tab.Length == |s| && 4 * bucket + 4 <= |s|
      requires 4 * bucket <= c < 4 * bucket + 4 && tab[..] == s[c := item]
      requires if bucket == argbucket then item == Item(key, data)
               else exists c :: 4 * argbucket <= c < 4 * argbucket + 4 && s[c] == Item(key, data)
      ensures Arrived(argbucket, key, data)
    {
      if bucket == argbucket {
        assert tab[..][c] == tab[c];
      } else {
        var d :| 4 * argbucket <= d < 4 * argbucket + 4 && s[d] == Item(key, data);
        assert tab[..][d] == tab[d] == s[d];
      }
    }

    /** In the midst of a chain that began in `argbucket`. */
    ghost predicate Chasing(argbucket: nat, bucket: nat, item: Cell<K, V>, key: K, data: V, all: multiset<Cell<K, V>>)
      reads this, tab
    {
      match item
      case Empty => false
      case Item(k, d) =>
        && Shaped() && bucket < Pow2(lgCur) && Full(bucket) && InBucket<K, V>(hash, lgCur, k, bucket)
        && Stored(tab[..]) + multiset{item} == all && argbucket < Pow2(lgCur) && Began(argbucket, bucket, item, key, data)
    }

    /** What the chain comes to. */
    ghost predicate Ended(r: Tried<K, V>, key: K, data: V, all: multiset<Cell<K, V>>)
      reads this, tab
    {
      match r
      case Done => Shaped() && Stored(tab[..]) == all
      case Cycle(x) => Shaped() && x.Item? && Stored(tab[..]) + multiset{x} == all && Item(key, data) in tab[..]
      case NoFuel => Shaped()
    }

    /** ckh_evict_reloc_insert: items are pushed from bucket to bucket until one
        finds room, or the chain comes back to where it began.  Whatever happens
        no item is lost: those of the table and the one carried are the same. */
    method EvictRelocInsert(argbucket: nat, key: K, data: V, fuel: nat) returns (r: Tried<K, V>, ghost cs: seq<nat>)
      requires Shaped() && argbucket < Pow2(lgCur) && Full(argbucket) && InBucket<K, V>(hash, lgCur, key, argbucket)
      modifies this`prn, this`count, tab
      ensures Ended(r, key, data, Stored(old(tab[..])) + multiset{Item(key, data)}) && Chosen(cs, fuel, r)
      ensures !old(Opens(argbucket)) && r == Chase(old(tab[..]), hash, lgCur, argbucket, argbucket, Item(key, data), cs)
    {
      ghost var all, s0 := Stored(tab[..]) + multiset{Item(key, data)}, tab[..];
      var item := Item(key, data);
      var bucket: nat, left := argbucket, fuel;
      FullIsNotOpen(argbucket);
      ReachedStart(s0, hash, lgCur, argbucket, item);
      cs := [];
      while left > 0
        invariant Chasing(argbucket, bucket, item, key, data, all) && |cs| + left == fuel
        invariant Reached(s0, hash, lgCur, argbucket, Item(key, data), cs, tab[..], bucket, item)
        decreases left
      {
        ghost var s, b, x := tab[..], bucket, item;
        var next; ghost var i;
        item, next, i := Push(argbucket, bucket, item, key, data, all);
        ReachedNext(s0, hash, lgCur, argbucket, Item(key, data), cs, s, b, x, i, item, next);
        cs := cs + [i];
        left := left - 1;
        if next == argbucket {
          return Cycle(item), cs;
        }
        bucket := next;
        var full := TryBucketInsert(bucket, item.key, item.data);
        if !full {
          return Done, cs;
        }
      }
      ReachedEnd(s0, hash, lgCur, argbucket, Item(key, data), cs, tab[..], bucket, item);
      return NoFuel, cs;
    }

    /** The item has come to lie in the bucket where the chain began. */
    ghost predicate Arrived(bucket: nat, key: K, data: V)
      requires 4 * bucket + 4 <= tab.Length
      reads this`tab, tab
    {
      exists c :: 4 * bucket <= c < 4 * bucket + 4 && tab[c] == Item(key, data)
    }

    /** The two buckets of a key. */
    method TryBoth(key: K, data: V) returns (full: bool)
      requires Shaped()
      modifies this`prn, this`count, tab
      ensures Shaped() && (full <==> !old(Room(key)))
      ensures full <==> !old(Opens(First(hash, lgCur, key))) && !old(Opens(Second(hash, lgCur, key)))
      ensures !full ==> Stored(tab[..]) == Stored(old(tab[..])) + multiset{Item(key, data)}
      ensures full ==> tab[..] == old(tab[..]) && Full(Second(hash, lgCur, key))
      ensures old(Opens(First(hash, lgCur, key))) && AtHome(old(tab[..]), hash, lgCur) ==> AtHome(tab[..], hash, lgCur)
    {
      ghost var s := tab[..];
      var bucket := First(hash, lgCur, key);
      FullIsNotOpen(bucket);
      FullIsNotOpen(Second(hash, lgCur, key));
      full := TryBucketInsert(bucket, key, data);
      if full {
        bucket := Second(hash, lgCur, key);
        full := TryBucketInsert(bucket, key, data);
      } else if AtHome(s, hash, lgCur) {
        var c :| Put(s, bucket, c, key, data);
        OneMoreAtHome(s, hash, lgCur, c, Item(key, data));
      }
    }

    lemma FullIsNotOpen(bucket: nat)
      requires 4 * bucket + 4 <= tab.Length
      ensures Full(bucket) <==> !Opens(bucket)
    {
      if !Full(bucket) {
        var c :| 4 * bucket <= c < 4 * bucket + 4 && tab[c] == Empty;
        assert tab[..][c] == Empty;
      }
    }

    /** ckh_try_insert. */
    method TryInsert(key: K, data: V, fuel: nat) returns (r: Tried<K, V>, ghost cs: seq<nat>)
      requires Shaped()
      modifies this`prn, this`count, tab
      ensures Ended(r, key, data, Stored(old(tab[..])) + multiset{Item(key, data)}) && Chosen(cs, fuel, r)
      ensures r == Attempt(old(tab[..]), hash, lgCur, Item(key, data), cs)
      ensures old(Opens(First(hash, lgCur, key))) && AtHome(old(tab[..]), hash, lgCur) ==> AtHome(tab[..], hash, lgCur)
    {
      var full := TryBoth(key, data);
      if !full {
        return Done, [];
      }
      r, cs := EvictRelocInsert(Second(hash, lgCur, key), key, data, fuel);
    }

    /** When the item surely finds a place, and when it surely does not, whatever
        numbers are drawn. */
    lemma Foretold(key: K, data: V, fuel: nat)
      requires Shaped()
      ensures forall cs :: Chosen(cs, fuel, Attempt(tab[..], hash, lgCur, Item(key, data), cs)) ==>
                Fate(key, fuel, Attempt(tab[..], hash, lgCur, Item(key, data), cs))
    {
      forall cs | Chosen(cs, fuel, Attempt(tab[..], hash, lgCur, Item(key, data), cs))
        ensures Fate(key, fuel, Attempt(tab[..], hash, lgCur, Item(key, data), cs))
      {
        ForetoldBy(key, data, fuel, cs);
      }
    }

    ghost predicate Fate(key: K, fuel: nat, r: Tried<K, V>)
      requires Shaped()
      reads this, tab
    {
      && (Room(key) ==> r.Done?)
      && (Trapped(key) ==> !r.Done?)
      && (Leads(Second(hash, lgCur, key)) && fuel > 0 ==> r.Done?)
      && (lgCur == 0 && fuel > 0 ==> if count == 4 then r.Cycle? else r.Done?)
    }

    lemma ForetoldBy(key: K, data: V, fuel: nat, cs: seq<nat>)
      requires Shaped() && Chosen(cs, fuel, Attempt(tab[..], hash, lgCur, Item(key, data), cs))
      ensures Fate(key, fuel, Attempt(tab[..], hash, lgCur, Item(key, data), cs))
    {
      FullIsNotOpen(First(hash, lgCur, key));
      FullIsNotOpen(Second(hash, lgCur, key));
      if Trapped(key) {
        var shut :| ShutHere(shut, key);
        AttemptShut(tab[..], hash, lgCur, Item(key, data), cs, shut);
      }
      if Leads(Second(hash, lgCur, key)) && cs != [] {
        AttemptLeads(tab[..], hash, lgCur, Item(key, data), cs);
      }
      if lgCur == 0 && cs != [] {
        OneBucket(key);
        StoredBound(tab[..]);
        AttemptOne(tab[..], hash, Item(key, data), cs);
      }
    }

    /** One step of ckh_rebuild: the item in cell `i`, if any, goes into the new table. */
    method RebuildCell(old_: array<Cell<K, V>>, ghost s: seq<Cell<K, V>>, i: nat, fuel: nat, ghost m: map<K, V>) returns (r: Status)
      requires old_ != tab && Shaped() && s == old_[..] && i < old_.Length && Stored(tab[..]) == Stored(s[..i]) && Stored(s) == Bag(m)
      modifies this`prn, this`count, tab
      ensures r == Ok ==> Shaped() && Stored(tab[..]) == Stored(s[..i + 1]) && count == old(count) + if s[i].Item? then 1 else 0
      ensures Because(m, hash, lgCur, fuel, r)
      ensures Roomy(m, hash, lgCur) && AtHome(old(tab[..]), hash, lgCur) ==> r == Ok && AtHome(tab[..], hash, lgCur)
    {
      StoredNext(s, i);
      r := Ok;
      if old_[i].Item? {
        ghost var t := tab[..];
        CellRoom(t, s, i, m);
        var tried; ghost var cs;
        tried, cs := TryInsert(old_[i].key, old_[i].data, fuel);
        assert ComesTo(m, hash, lgCur, fuel, t, s[i], cs, tried);
        r := if tried.Done? then Ok else if tried.Cycle? then Failed else Diverged;
      }
    }

    lemma CellRoom(t: seq<Cell<K, V>>, s: seq<Cell<K, V>>, i: nat, m: map<K, V>)
      requires InRange(hash) && |t| == 4 * Pow2(lgCur) && i < |s| && s[i].Item? && Stored(t) == Stored(s[..i]) && Stored(s) == Bag(m)
      ensures Stored(t) + multiset{s[i]} <= Bag(m)
      ensures Roomy(m, hash, lgCur) && AtHome(t, hash, lgCur) ==> Open(t, First(hash, lgCur, s[i].key))
    {
      CellFits(m, s, i);
      if Roomy(m, hash, lgCur) && AtHome(t, hash, lgCur) { RoomAtHome(m, t, hash, lgCur, s[i]); }
    }

    /** The loop of ckh_rebuild. */
    method RebuildCells(old_: array<Cell<K, V>>, ghost s: seq<Cell<K, V>>, total: nat, fuel: nat, ghost m: map<K, V>) returns (r: Status)
      requires old_ != tab && s == old_[..] && Shaped() && count == 0 && total == |Stored(s)| && Stored(s) == Bag(m)
      modifies this`prn, this`count, tab
      ensures r == Ok ==> Shaped() && Stored(tab[..]) == Stored(s)
      ensures Because(m, hash, lgCur, fuel, r)
      ensures Roomy(m, hash, lgCur) && AtHome(old(tab[..]), hash, lgCur) ==> r == Ok && AtHome(tab[..], hash, lgCur)
    {
      var i, nins := 0, 0;
      assert s[..0] == [] && s[..|s|] == s;
      StoredNone(tab[..]);
      while nins < total
        invariant 0 <= i <= |s| && nins <= total && s == old_[..]
        invariant Shaped() && Stored(tab[..]) == Stored(s[..i]) && count == nins
        invariant Roomy(m, hash, lgCur) && AtHome(old(tab[..]), hash, lgCur) ==> AtHome(tab[..], hash, lgCur)
        decreases |s| - i
      {
        StoredPrefix(s, i + 1);
        r := RebuildCell(old_, s, i, fuel, m);
        if r != Ok {
          return;
        }
        nins := nins + if old_[i].Item? then 1 else 0;
        i := i + 1;
      }
      StoredPart(s, i);
      return Ok;
    }

    /** ckh_rebuild: the items of an old table go into the new, empty one.  It fails
        if one of them ends in a cycle, and then the count is as before. */
    method Rebuild(old_: array<Cell<K, V>>, fuel: nat, ghost m: map<K, V>) returns (r: Status)
      requires InRange(hash) && old_ != tab && tab.Length == 4 * Pow2(lgCur) && (forall i :: 0 <= i < tab.Length ==> tab[i] == Empty)
      requires count == |Stored(old_[..])| && Stored(old_[..]) == Bag(m)
      modifies this`prn, this`count, tab
      ensures r == Ok ==> Shaped() && Stored(tab[..]) == Stored(old_[..])
      ensures r == Failed ==> count == old(count)
      ensures Because(m, hash, lgCur, fuel, r)
      ensures Roomy(m, hash, lgCur) ==> r == Ok && AtHome(tab[..], hash, lgCur)
    {
      var total := count;
      count := 0;
      StoredEmpty(tab[..]);
      r := RebuildCells(old_, old_[..], total, fuel, m);
      if r == Failed {
        count := total;
      }
    }

    /** A new table, and the old one back if the items do not fit in it. */
    method Replace(lg: nat, fuel: nat) returns (r: Status)
      requires Valid() && lgMin <= lg
      modifies this`tab, this`lgCur, this`prn, this`count
      ensures r == Ok ==> Valid() && lgCur == lg && fresh(tab)
      ensures r == Failed ==> Valid() && lgCur == old(lgCur) && tab == old(tab) && tab[..] == old(tab[..]) && count == old(count)
      ensures Because(model, hash, lg, fuel, r)
      ensures Roomy(model, hash, lg) ==> r == Ok && AtHome(tab[..], hash, lg)
    {
      var was, lgWas := tab, lgCur;
      ghost var s := tab[..];
      tab := new Cell<K, V>[4 * Pow2(lg)](_ => Empty);
      lgCur := lg;
      r := Rebuild(was, fuel, model);
      assert was[..] == s;
      if r == Failed {
        tab, lgCur := was, lgWas;
      }
    }

    /** How growing ends: with the least size in which the rebuild does not end in a
        cycle, or at the first one for which memory is refused. */
    ghost predicate GrownFrom(lg: nat, alloc: set<nat>, fuel: nat, n: nat, r: Status)
      reads this, tab
    {
      match r
      case Failed => lg < n && TriedAll(model, hash, alloc, fuel, lg, n) && n + 2 !in alloc
      case Diverged => lg < n && TriedAll(model, hash, alloc, fuel, lg, n) && n + 2 in alloc && Because(model, hash, n, fuel, r) && !Roomy(model, hash, n)
      case Ok => lg < n && TriedAll(model, hash, alloc, fuel, lg, n) && n + 2 in alloc && lgCur == n && (Roomy(model, hash, n) ==> AtHome(tab[..], hash, n))
    }

    /** ckh_grow: twice as many buckets, or more if that is not enough.  The
        system may refuse memory, and does for more than 2^59 cells. */
    method Grow(alloc: set<nat>, fuel: nat) returns (r: Status, ghost n: nat)
      requires Valid() && forall n :: n in alloc ==> n <= 59
      modifies this`tab, this`lgCur, this`prn, this`count
      ensures r == Ok ==> Valid() && old(lgCur) < lgCur <= 57 && fresh(tab)
      ensures r == Failed ==> Valid() && lgCur == old(lgCur) && tab == old(tab) && tab[..] == old(tab[..]) && count == old(count)
      ensures GrownFrom(old(lgCur), alloc, fuel, n, r) && (old(lgCur) + 3 !in alloc ==> r == Failed)
    {
      var lgCells := lgCur + 2;
      while true
        invariant Valid() && lgCur == old(lgCur) && tab == old(tab) && tab[..] == old(tab[..]) && count == old(count)
        invariant lgCells >= lgCur + 2 && TriedAll(model, hash, alloc, fuel, lgCur, lgCells - 1)
        invariant lgCur + 3 !in alloc ==> lgCells == lgCur + 2
        decreases 60 - lgCells
      {
        lgCells := lgCells + 1;
        n := lgCells - 2;
        if lgCells !in alloc {
          return Failed, n;
        }
        r := GrowTo(lgCells - 2, alloc, fuel);
        if r != Failed {
          return;
        }
      }
    }

    /** One turn of the loop, with memory for 2^lg buckets. */
    method GrowTo(lg: nat, ghost alloc: set<nat>, fuel: nat) returns (r: Status)
      requires Valid() && lgCur < lg && lg + 2 in alloc && TriedAll(model, hash, alloc, fuel, lgCur, lg)
      modifies this`tab, this`lgCur, this`prn, this`count
      ensures r == Ok ==> Valid() && lgCur == lg && fresh(tab)
      ensures r == Failed ==> Valid() && lgCur == old(lgCur) && tab == old(tab) && count == old(count)
      ensures if r == Failed then TriedAll(model, hash, alloc, fuel, lgCur, lg + 1) else GrownFrom(old(lgCur), alloc, fuel, lg, r)
    {
      ghost var was := lgCur;
      r := Replace(lg, fuel);
      if r == Failed { TriedMore(model, hash, alloc, fuel, was, lg); }
    }

    /** Where the next size has room surely, and memory is granted, that is it. */
    lemma NextSize(lg: nat, alloc: set<nat>, fuel: nat, n: nat, r: Status)
      requires GrownFrom(lg, alloc, fuel, n, r) && Roomy(model, hash, lg + 1) && lg + 3 in alloc
      ensures r == Ok && lgCur == lg + 1 && AtHome(tab[..], hash, lgCur)
    {
      assert n > lg + 1 ==> TriedSize(model, hash, alloc, fuel, lg + 1);
    }

    /** ckh_shrink: half as many buckets, if the items fit. */
    method Shrink(alloc: set<nat>, fuel: nat) returns (r: Status)
      requires Valid() && lgMin < lgCur
      modifies this`tab, this`lgCur, this`prn, this`count
      ensures r == Ok ==> Valid() && lgCur == old(lgCur) - 1 && fresh(tab)
      ensures r == Failed ==> Valid() && lgCur == old(lgCur) && tab == old(tab) && tab[..] == old(tab[..]) && count == old(count)
      ensures old(lgCur) + 1 !in alloc || Because(model, hash, old(lgCur) - 1, fuel, r)
      ensures old(lgCur) + 1 !in alloc ==> r == Failed
      ensures old(lgCur) + 1 in alloc && Roomy(model, hash, old(lgCur) - 1) ==> r == Ok
    {
      if lgCur + 1 !in alloc {
        return Failed;
      }
      r := Replace(lgCur - 1, fuel);
    }

    /** ckh_search. */
    method Search(key: K) returns (r: Option<(K, V)>)
      requires Valid()
      ensures r == if key in model then Some((key, model[key])) else None
    {
      var cell := ISearch(key);
      r := if cell.Some? then Some((tab[cell.value].key, tab[cell.value].data)) else None;
    }

    /** The item in a cell is taken out. */
    method Clear(c: nat)
      requires Valid() && c < tab.Length && tab[c].Item? && tab[c].key in model && tab[c].data == model[tab[c].key]
      modifies this`count, this`model, tab
      ensures Valid() && model == old(model) - {old(tab[c].key)} && count == old(count) - 1
    {
      ghost var s := tab[..];
      StoredSet(s, c, Empty);
      BagRemove(model, tab[c].key);
      model := model - {tab[c].key};
      tab[c] := Empty;
      assert tab[..] == s[c := Empty];
      count := count - 1;
    }

    /** ckh_remove. */
    method Remove(key: K, alloc: set<nat>, fuel: nat) returns (r: Option<(K, V)>, done: Status)
      requires Valid()
      modifies this, tab
      ensures r == if key in old(model) then Some((key, old(model)[key])) else None
      ensures done != Diverged ==> Valid() && model == old(model) - {key}
      ensures done == Failed || key !in old(model) ==> tab == old(tab)
      ensures done != Diverged ==> tab == old(tab) || fresh(tab)
      ensures var sparse := key in old(model) && old(count) - 1 < Pow2(old(lgCur)) && old(lgCur) > lgMin;
              && (!sparse ==> done == Ok && tab == old(tab) && lgCur == old(lgCur))
              && (sparse ==> (done == Ok ==> lgCur == old(lgCur) - 1) && (done == Failed ==> lgCur == old(lgCur)))
              && (sparse && old(lgCur) + 1 !in alloc ==> done == Failed)
              && (sparse && old(lgCur) + 1 in alloc && Roomy(old(model) - {key}, hash, old(lgCur) - 1) ==> done == Ok)
    {
      var cell := ISearch(key);
      if cell == None {
        return None, Ok;
      }
      r := Some((tab[cell.value].key, tab[cell.value].data));
      Clear(cell.value);
      done := Ok;
      if count < Pow2(lgCur) && lgCur > lgMin {
        done := Shrink(alloc, fuel);
      }
    }

    /** The table and the item carried make up the map wanted. */
    ghost predicate Carrying(all: map<K, V>, carried: Cell<K, V>)
      reads this, tab
    {
      Shaped() && lgMin <= lgCur && Stored(tab[..]) + multiset{carried} == Bag(all)
    }

    /** One round of ckh_insert: a larger table, and the carried item again. */
    method GrowAndTry(item: Cell<K, V>, ghost all: map<K, V>, alloc: set<nat>, fuel: nat) returns (r: Status, tried: Tried<K, V>)
      requires Carrying(all, item) && forall n :: n in alloc ==> n <= 59
      modifies this, tab
      ensures item.Item? && item.key in all
      ensures r == Failed ==> Valid() && model == all - {item.key} && lgCur == old(lgCur) && tab == old(tab)
      ensures r == Ok ==> old(lgCur) < lgCur <= 57 && fresh(tab) && Shaped() && lgMin <= lgCur
      ensures r == Ok && tried.Done? ==> Stored(tab[..]) == Bag(all)
      ensures r == Ok && tried.Cycle? ==> Carrying(all, tried.carried)
      ensures (old(lgCur) + 3 !in alloc ==> r == Failed) && (r == Failed ==> Refused(all, hash, alloc, old(lgCur)))
      ensures r == Ok ==> TooSmall(all, hash, alloc, old(lgCur), lgCur) && (tried.Done? || SmallSize(all, hash, alloc, lgCur))
      ensures Roomy(all, hash, old(lgCur) + 1) && old(lgCur) + 3 in alloc ==> r == Ok && tried.Done? && lgCur == old(lgCur) + 1
    {
      BagCarried(all, Stored(tab[..]), item);
      model := all - {item.key};
      tried := NoFuel;
      ghost var lg, n := lgCur, 0;
      r, n := Grow(alloc, fuel);
      TriedTooSmall(all, item.key, hash, alloc, fuel, lg, n);
      if Roomy(all, hash, lg + 1) && lg + 3 in alloc {
        RoomyLess(all, hash, lg + 1, item.key);
        NextSize(lg, alloc, fuel, n, r);
      }
      if r == Ok {
        CarriedRoom(all, item);
        ghost var cs;
        tried, cs := TryInsert(item.key, item.data, fuel);
      }
    }

    /** In a table with room for all items there is some for the one carried. */
    lemma CarriedRoom(all: map<K, V>, item: Cell<K, V>)
      requires Shaped() && item.Item? && Stored(tab[..]) + multiset{item} == Bag(all)
      requires Roomy(all - {item.key}, hash, lgCur) ==> AtHome(tab[..], hash, lgCur)
      ensures Roomy(all, hash, lgCur) ==> Opens(First(hash, lgCur, item.key))
    {
      if Roomy(all, hash, lgCur) {
        RoomyLess(all, hash, lgCur, item.key);
        RoomAtHome(all, tab[..], hash, lgCur, item);
      }
    }

    /** The loop of ckh_insert, after a first try has left `carried` over. */
    method GrowInsert(carried: Cell<K, V>, ghost all: map<K, V>, alloc: set<nat>, fuel: nat) returns (r: Status, ghost lost: Option<K>)
      requires Carrying(all, carried) && carried.Item? && forall n :: n in alloc ==> n <= 59
      modifies this, tab
      ensures r == Ok ==> Valid() && model == all && fresh(tab) && lgCur > old(lgCur)
      ensures r == Failed ==> Valid() && lost.Some? && lost.value in all && model == all - {lost.value} && (tab == old(tab) || fresh(tab))
      ensures r == Failed && lgCur == old(lgCur) ==> lost == Some(carried.key)
      ensures old(lgCur) + 3 !in alloc ==> r == Failed && lgCur == old(lgCur)
      ensures r == Failed ==> Refused(all, hash, alloc, old(lgCur))
      ensures Roomy(all, hash, old(lgCur) + 1) && old(lgCur) + 3 in alloc ==> r == Ok && lgCur == old(lgCur) + 1
    {
      lost := None;
      ghost var lg := lgCur;
      var tried := Cycle(carried);
      ghost var first := true;
      while tried.Cycle?
        invariant tried.Cycle? ==> Carrying(all, tried.carried)
        invariant tried.Done? ==> Shaped() && lgMin <= lgCur && Stored(tab[..]) == Bag(all)
        invariant if first then tab == old(tab) && lgCur == lg && tried == Cycle(carried)
                  else fresh(tab) && lgCur > lg && lg + 3 in alloc
        invariant TooSmall(all, hash, alloc, lg, lgCur) && (first || tried.Done? || SmallSize(all, hash, alloc, lgCur))
        invariant !first && Roomy(all, hash, lg + 1) && lg + 3 in alloc ==> tried.Done? && lgCur == lg + 1
        decreases 60 - lgCur
      {
        var item := tried.carried;
        ghost var mid := lgCur;
        r, tried := GrowAndTry(item, all, alloc, fuel);
        if r != Ok {
          lost := Some(item.key);
          if r == Failed { RefusedLater(all, alloc, lg, mid); }
          return;
        }
        TooSmallOn(all, hash, alloc, lg, mid, lgCur);
        first := false;
      }
      model := all;
      r := if tried.Done? then Ok else Diverged;
    }

    lemma RefusedLater(all: map<K, V>, alloc: set<nat>, lg: nat, mid: nat)
      requires TooSmall(all, hash, alloc, lg, mid) && (lg < mid ==> SmallSize(all, hash, alloc, mid)) && lg <= mid && Refused(all, hash, alloc, mid)
      ensures Refused(all, hash, alloc, lg)
    {
      var n :| mid < n && n + 2 !in alloc && TooSmall(all, hash, alloc, mid, n);
      TooSmallOn(all, hash, alloc, lg, mid, n);
    }

    /** ckh_insert.  The first attempt decides, if it ends with an empty cell; when
        it ends in a cycle the table grows.  With an empty cell in one of its
        buckets, or one in the other bucket of every item of its second bucket, the
        item finds a place at once.  When the call fails one item is missing: the
        last one that was carried.  If there is no memory to grow, that is an older
        one, and the new item is in the table; so it always ends for a trapped key
        (but for a chain that has not ended), and in particular in a full table. */
    method Insert(key: K, data: V, alloc: set<nat>, fuel: nat) returns (r: Status, ghost lost: Option<K>, ghost cs: seq<nat>)
      requires Valid() && key !in model && forall n :: n in alloc ==> n <= 59
      modifies this, tab
      ensures r == Ok ==> Valid() && model == old(model)[key := data]
      ensures r == Failed ==> Valid() && lost.Some? && lost.value in old(model)[key := data] && model == old(model)[key := data] - {lost.value}
      ensures r == Failed && (lgCur == old(lgCur) || old(lgCur) + 3 !in alloc) ==> lost.value in old(model) && key in model
      ensures var first := Attempt(old(tab[..]), hash, old(lgCur), Item(key, data), cs);
              Chosen(cs, fuel, first) && Outcome(first, old(model)[key := data], alloc, old(lgCur), r)
      ensures var first := Attempt(old(tab[..]), hash, old(lgCur), Item(key, data), cs);
              old(lgCur) == 0 && fuel > 0 ==> if old(count) == 4 then first.Cycle? else first.Done?
      ensures old(Room(key)) || (old(Leads(Second(hash, lgCur, key))) && fuel > 0) ==> r == Ok
      ensures (old(Trapped(key)) || old(count) == old(tab.Length)) && old(lgCur) + 3 !in alloc ==> r != Ok
      ensures old(lgCur) == 0 && fuel > 0 && 3 !in alloc ==> if old(count) == 4 then r == Failed else r == Ok
      ensures old(Room(key)) || old(lgCur) + 3 !in alloc ==> lgCur == old(lgCur)
      ensures r != Diverged ==> tab == old(tab) || fresh(tab)
    {
      if count == tab.Length { FullTraps(key); }
      Foretold(key, data, fuel);
      r, lost, cs := InsertItem(key, data, alloc, fuel);
    }

    method InsertItem(key: K, data: V, alloc: set<nat>, fuel: nat) returns (r: Status, ghost lost: Option<K>, ghost cs: seq<nat>)
      requires Valid() && key !in model && forall n :: n in alloc ==> n <= 59
      modifies this, tab
      ensures r == Ok ==> Valid() && model == old(model)[key := data]
      ensures r == Failed ==> Valid() && lost.Some? && lost.value in old(model)[key := data] && model == old(model)[key := data] - {lost.value}
      ensures r == Failed && (lgCur == old(lgCur) || old(lgCur) + 3 !in alloc) ==> lost.value in old(model) && key in model
      ensures var first := Attempt(old(tab[..]), hash, old(lgCur), Item(key, data), cs);
              Chosen(cs, fuel, first) && Outcome(first, old(model)[key := data], alloc, old(lgCur), r)
      ensures r != Diverged ==> tab == old(tab) || fresh(tab)
    {
      ghost var all := model[key := data];
      lost := None;
      BagAdd(model, key, data);
      var tried;
      tried, cs := TryInsert(key, data, fuel);
      if tried.Cycle? {
        AnotherCarried(all, tab[..], tried.carried, key, data);
        r, lost := GrowInsert(tried.carried, all, alloc, fuel);
      } else {
        model := all;
        r := if tried.Done? then Ok else Diverged;
      }
    }

    /** What an insertion comes to after its first attempt: the table stays if that
        was enough.  If it ended in a cycle the table grows, and fails to only if
        memory is refused before there is room surely. */
    ghost predicate Outcome(first: Tried<K, V>, all: map<K, V>, alloc: set<nat>, lg: nat, r: Status)
      reads this`lgCur
    {
      match first
      case Done => r == Ok && lgCur == lg
      case NoFuel => r == Diverged && lgCur == lg
      case Cycle(_) =>
        && (r == Ok ==> lgCur > lg) && (r == Failed ==> Refused(all, hash, alloc, lg))
        && (lg + 3 !in alloc ==> r == Failed && lgCur == lg)
        && (Roomy(all, hash, lg + 1) && lg + 3 in alloc ==> r == Ok && lgCur == lg + 1)
    }

    /** In a table of one bucket there is room exactly if it is not full. */
    lemma OneBucket(key: K)
      requires Shaped()
      ensures lgCur == 0 ==> (Room(key) <==> count < 4)
    {
      if lgCur == 0 {
        StoredBound(tab[..]);
        if Full(0) {
          FullCount(tab[..]);
        } else {
          StoredLessSome(tab[..]);
        }
      }
    }

    /** A system that has no memory for another table. */
    static const NoMemory: set<nat> := {}

    static method FourItems(hash: (K, nat) -> (nat, nat), keys: seq<K>, data: V, fuel: nat) returns (t: Table<K, V>)
      requires |keys| == 5 && (forall i, j :: 0 <= i < j < 5 ==> keys[i] != keys[j]) && fuel > 0
      ensures t.Valid() && fresh(t) && fresh(t.tab) && t.lgCur == 0 && t.count == 4 && t.hash == Masked(hash)
      ensures forall k :: k in t.model <==> k in keys[..4]
    {
      t := new Table<K, V>(1, hash);
      var n := 0;
      while n < 4
        invariant 0 <= n <= 4 && t.Valid() && fresh(t) && fresh(t.tab) && t.lgCur == 0 && t.count == n && t.hash == Masked(hash)
        invariant forall k :: k in t.model <==> k in keys[..n]
      {
        assert keys[..n + 1] == keys[..n] + [keys[n]];
        t.OneMore(keys[n], data, fuel);
        n := n + 1;
      }
    }

    /** An item for a table of one bucket that is not full. */
    method OneMore(key: K, data: V, fuel: nat)
      requires Valid() && lgCur == 0 && count < 4 && key !in model && fuel > 0
      modifies this, tab
      ensures Valid() && lgCur == 0 && count == old(count) + 1 && model == old(model)[key := data] && (tab == old(tab) || fresh(tab))
    {
      var r; ghost var lost, cs;
      CountIs();
      OneBucket(key);
      r, lost, cs := Insert(key, data, NoMemory, fuel);
      CountIs();
    }

    /** A failure: five items for a table that was made for one, and no memory.
        The fifth is stored, one of the others is gone. */
    static method FifthItem(hash: (K, nat) -> (nat, nat), keys: seq<K>, data: V, fuel: nat) returns (t: Table<K, V>, r: Status, ghost lost: Option<K>)
      requires |keys| == 5 && (forall i, j :: 0 <= i < j < 5 ==> keys[i] != keys[j]) && fuel > 0
      ensures r == Failed && lost.Some? && lost.value in keys[..4] && keys[4] in t.model && lost.value !in t.model
    {
      t := FourItems(hash, keys, data, fuel);
      ghost var cs;
      r, lost, cs := t.Insert(keys[4], data, NoMemory, fuel);
    }

    /** The same with memory: all five are stored, if not all of them have the same
        first bucket in a table of two. */
    static method FifthItemFits(hash: (K, nat) -> (nat, nat), keys: seq<K>, data: V, alloc: set<nat>, fuel: nat) returns (t: Table<K, V>, r: Status)
      requires |keys| == 5 && (forall i, j :: 0 <= i < j < 5 ==> keys[i] != keys[j]) && fuel > 0
      requires 3 in alloc && (forall n :: n in alloc ==> n <= 59) && exists i :: 0 <= i < 5 && hash(keys[i], 1).0 % 2 != hash(keys[0], 1).0 % 2
      ensures r == Ok && t.Valid() && t.lgCur == 1 && forall k :: k in t.model <==> k in keys
    {
      t := FourItems(hash, keys, data, fuel);
      ghost var lost, cs;
      MaskedInRange(hash);
      assert Pow2(1) == 2 * Pow2(0) == 2;
      assert keys == keys[..4] + [keys[4]];
      ghost var i :| 0 <= i < 5 && hash(keys[i], 1).0 % 2 != hash(keys[0], 1).0 % 2;
      FiveInTwo(t.model[keys[4] := data], t.hash, keys, i);
      r, lost, cs := t.Insert(keys[4], data, alloc, fuel);
    }

    lemma CountIs()
      requires Valid()
      ensures count == |model|
    {
      BagSize(model);
    }
  }
}
