/** How free extents, allocated addresses and lost addresses share the region
    of the swap files (chunk_swap.c). */
module SwapLayout {

  datatype Extent = Extent(addr: nat, size: nat)

  ghost function End(e: Extent): nat {
    e.addr + e.size
  }

  ghost predicate Covers(e: Extent, x: int) {
    e.addr <= x < End(e)
  }

  ghost predicate FreeAt(s: seq<Extent>, x: int) {
    exists i :: 0 <= i < |s| && Covers(s[i], x)
  }

  /** Extents by address, one after the other. */
  ghost predicate Apart(s: seq<Extent>) {
    && (forall i :: 0 <= i < |s| ==> s[i].size > 0)
    && (forall i, j :: 0 <= i < j < |s| ==> End(s[i]) <= s[j].addr)
  }

  /** No extent begins where the one before ends, but for the one at `but`. */
  ghost predicate Coalesced(s: seq<Extent>, but: int) {
    forall i, j :: 0 <= i < j < |s| && j != but ==> End(s[i]) < s[j].addr
  }

  /** Each address below `end` is free, or allocated, or lost. */
  ghost predicate Shared(s: seq<Extent>, base: int, end: int, used: iset<int>, lost: iset<int>) {
    && (forall x :: x in used ==> base <= x < end && x !in lost)
    && (forall x :: x in lost ==> base <= x < end)
    && (forall x :: FreeAt(s, x) <==> base <= x < end && x !in used && x !in lost)
  }

  ghost predicate Layout(s: seq<Extent>, base: int, end: int, used: iset<int>, lost: iset<int>, but: int) {
    Apart(s) && Coalesced(s, but) && Shared(s, base, end, used, lost)
  }

  ghost predicate Within(x: int, addr: int, size: int) {
    addr <= x < addr + size
  }

  /** No extent reaches `end`. */
  ghost predicate AllBelow(s: seq<Extent>, end: int) {
    forall i :: 0 <= i < |s| ==> End(s[i]) < end
  }

  ghost predicate OthersBelow(s: seq<Extent>, k: int, end: int) {
    forall i :: 0 <= i < |s| && i != k ==> End(s[i]) < end
  }

  ghost function Range(addr: int, size: int): iset<int> {
    iset x | Within(x, addr, size)
  }

  function Remove<T>(s: seq<T>, k: nat): seq<T>
    requires k < |s|
  {
    s[..k] + s[k + 1..]
  }

  function Insert<T>(s: seq<T>, k: nat, x: T): seq<T>
    requires k <= |s|
  {
    s[..k] + [x] + s[k..]
  }

  lemma InRegion(s: seq<Extent>, base: int, end: int, used: iset<int>, lost: iset<int>, but: int, k: nat)
    requires Layout(s, base, end, used, lost, but) && k < |s|
    ensures base <= s[k].addr < End(s[k]) <= end
    ensures Range(s[k].addr, s[k].size) !! used + lost
  {
    forall x | s[k].addr <= x < End(s[k]) ensures base <= x < end && x !in used && x !in lost {
      assert Covers(s[k], x);
      assert FreeAt(s, x);
    }
    assert Covers(s[k], s[k].addr) && FreeAt(s, s[k].addr) && FreeAt(s, End(s[k]) - 1);
  }

  /** The front of a free extent is allocated. */
  lemma BelowShrunk(s: seq<Extent>, k: nat, size: nat, end: int)
    requires AllBelow(s, end) && k < |s| && size <= s[k].size
    ensures AllBelow(s[k := Extent(s[k].addr + size, s[k].size - size)], end)
  {
  }

  lemma TakeFront(s: seq<Extent>, base: int, end: int, used: iset<int>, lost: iset<int>, k: nat, n: nat)
    requires Layout(s, base, end, used, lost, -1) && k < |s| && 0 < n < s[k].size
    ensures var e := s[k];
            Layout(s[k := Extent(e.addr + n, e.size - n)], base, end, used + Range(e.addr, n), lost, -1)
  {
    InRegion(s, base, end, used, lost, -1, k);
    var e := s[k];
    var t := s[k := Extent(e.addr + n, e.size - n)];
    forall x ensures FreeAt(t, x) <==> FreeAt(s, x) && !Within(x, e.addr, n) {
      FrontCovers(s, k, n, x);
    }
  }

  lemma FrontCovers(s: seq<Extent>, k: nat, n: nat, x: int)
    requires Apart(s) && k < |s| && n < s[k].size
    ensures FreeAt(s[k := Extent(s[k].addr + n, s[k].size - n)], x) <==> FreeAt(s, x) && !Within(x, s[k].addr, n)
  {
    var t := s[k := Extent(s[k].addr + n, s[k].size - n)];
    assert Covers(t[k], x) <==> Covers(s[k], x) && !Within(x, s[k].addr, n);
    if FreeAt(s, x) && !Within(x, s[k].addr, n) {
      var i :| 0 <= i < |s| && Covers(s[i], x);
      assert i != k ==> t[i] == s[i];
    }
    if FreeAt(t, x) {
      var i :| 0 <= i < |t| && Covers(t[i], x);
      assert i != k ==> t[i] == s[i];
      assert Covers(s[i], x);
    }
  }

  lemma Removed<T>(s: seq<T>, k: nat)
    requires k < |s|
    ensures |Remove(s, k)| == |s| - 1
    ensures forall i :: 0 <= i < |s| - 1 ==> Remove(s, k)[i] == s[if i < k then i else i + 1]
    ensures forall i :: 0 <= i < |s| && i != k ==> s[i] == Remove(s, k)[if i < k then i else i - 1]
  {
  }

  lemma Inserted<T>(s: seq<T>, k: nat, x: T)
    requires k <= |s|
    ensures |Insert(s, k, x)| == |s| + 1 && Insert(s, k, x)[k] == x
    ensures forall i :: 0 <= i <= |s| && i != k ==> Insert(s, k, x)[i] == s[if i < k then i else i - 1]
    ensures forall i :: 0 <= i < |s| ==> s[i] == Insert(s, k, x)[if i < k then i else i + 1]
  {
  }

  /** Without one of the extents. */
  lemma FreeWithout(s: seq<Extent>, k: nat)
    requires Apart(s) && k < |s|
    ensures forall x :: FreeAt(Remove(s, k), x) <==> FreeAt(s, x) && !Covers(s[k], x)
  {
    Removed(s, k);
    forall x ensures FreeAt(Remove(s, k), x) <==> FreeAt(s, x) && !Covers(s[k], x) {
      CoverWithout(s, k, Remove(s, k), x);
    }
  }

  lemma CoverWithout(s: seq<Extent>, k: nat, t: seq<Extent>, x: int)
    requires Apart(s) && k < |s| && |t| == |s| - 1
    requires forall i :: 0 <= i < |t| ==> t[i] == s[if i < k then i else i + 1]
    ensures FreeAt(t, x) <==> FreeAt(s, x) && !Covers(s[k], x)
  {
    if FreeAt(t, x) {
      var i :| 0 <= i < |t| && Covers(t[i], x);
      assert Covers(s[if i < k then i else i + 1], x);
    }
    if FreeAt(s, x) && !Covers(s[k], x) {
      var j :| 0 <= j < |s| && Covers(s[j], x);
      assert t[if j < k then j else j - 1] == s[j];
    }
  }

  lemma ApartWithout(s: seq<Extent>, k: nat)
    requires Apart(s) && k < |s|
    ensures Apart(Remove(s, k)) && (Coalesced(s, -1) ==> Coalesced(Remove(s, k), -1))
  {
    Removed(s, k);
    var t := Remove(s, k);
    forall i, j | 0 <= i < j < |t| ensures End(t[i]) <= t[j].addr && (Coalesced(s, -1) ==> End(t[i]) < t[j].addr) {
      assert t[i] == s[if i < k then i else i + 1] && t[j] == s[if j < k then j else j + 1];
    }
  }

  /** A whole free extent is allocated. */
  lemma TakeAll(s: seq<Extent>, base: int, end: int, used: iset<int>, lost: iset<int>, k: nat)
    requires Layout(s, base, end, used, lost, -1) && k < |s|
    ensures Layout(Remove(s, k), base, end, used + Range(s[k].addr, s[k].size), lost, -1)
  {
    InRegion(s, base, end, used, lost, -1, k);
    FreeWithout(s, k);
    ApartWithout(s, k);
  }

  /** Fresh memory at the end is allocated. */
  lemma TakeEnd(s: seq<Extent>, base: int, end: int, used: iset<int>, lost: iset<int>, n: nat)
    requires Layout(s, base, end, used, lost, -1) && base <= end
    ensures Layout(s, base, end + n, used + Range(end, n), lost, -1)
  {
  }

  // ----- giving back -----

  /** Addresses given back join the free extent that follows them. */
  lemma JoinNext(s: seq<Extent>, base: int, end: int, used: iset<int>, lost: iset<int>, k: nat, a: nat, n: nat)
    requires Layout(s, base, end, used, lost, -1) && k < |s| && n > 0 && a + n == s[k].addr && Range(a, n) <= used
    ensures Layout(s[k := Extent(a, n + s[k].size)], base, end, used - Range(a, n), lost, k)
  {
    var t := s[k := Extent(a, n + s[k].size)];
    forall x ensures FreeAt(t, x) <==> FreeAt(s, x) || Within(x, a, n) {
      GrownCovers(s, k, a, n, x);
    }
    forall i | 0 <= i < k ensures End(s[i]) <= a {
      Before(s, base, end, used, lost, i, a, n);
    }
    forall x | Within(x, a, n) ensures x in used && !FreeAt(s, x) {
      assert x in Range(a, n);
    }
  }

  lemma GrownCovers(s: seq<Extent>, k: nat, a: nat, n: nat, x: int)
    requires k < |s| && a + n == s[k].addr
    ensures FreeAt(s[k := Extent(a, n + s[k].size)], x) <==> FreeAt(s, x) || Within(x, a, n)
  {
    var t := s[k := Extent(a, n + s[k].size)];
    assert Covers(t[k], x) <==> Covers(s[k], x) || Within(x, a, n);
    if FreeAt(s, x) {
      var i :| 0 <= i < |s| && Covers(s[i], x);
      assert Covers(t[i], x);
    }
    if FreeAt(t, x) && !Covers(t[k], x) {
      var i :| 0 <= i < |t| && Covers(t[i], x);
      assert s[i] == t[i];
    }
  }

  /** A free extent that does not start after the given addresses ends before
      they begin. */
  lemma Before(s: seq<Extent>, base: int, end: int, used: iset<int>, lost: iset<int>, i: nat, a: nat, n: nat)
    requires Layout(s, base, end, used, lost, -1) && i < |s| && n > 0 && s[i].addr < a + n && Range(a, n) <= used
    ensures End(s[i]) <= a
  {
    InRegion(s, base, end, used, lost, -1, i);
    var x := if s[i].addr <= a then a else s[i].addr;
    assert x in Range(a, n);
    assert x !in Range(s[i].addr, s[i].size);
  }

  /** Addresses given back become an extent of their own. */
  lemma NewExtent(s: seq<Extent>, base: int, end: int, used: iset<int>, lost: iset<int>, k: nat, a: nat, n: nat)
    requires Layout(s, base, end, used, lost, -1) && k <= |s| && n > 0 && Range(a, n) <= used
    requires forall i :: 0 <= i < k ==> s[i].addr < a + n
    requires forall i :: k <= i < |s| ==> s[i].addr > a + n
    ensures Layout(Insert(s, k, Extent(a, n)), base, end, used - Range(a, n), lost, k)
  {
    var t := Insert(s, k, Extent(a, n));
    forall i | 0 <= i < k ensures End(s[i]) <= a {
      Before(s, base, end, used, lost, i, a, n);
    }
    forall x ensures FreeAt(t, x) <==> FreeAt(s, x) || Within(x, a, n) {
      InsertedCovers(s, k, a, n, x);
    }
    forall x | Within(x, a, n) ensures x in used && !FreeAt(s, x) {
      assert x in Range(a, n);
    }
    NewApart(s, k, a, n);
  }

  lemma InsertedCovers(s: seq<Extent>, k: nat, a: nat, n: nat, x: int)
    requires k <= |s|
    ensures FreeAt(Insert(s, k, Extent(a, n)), x) <==> FreeAt(s, x) || Within(x, a, n)
  {
    var t := Insert(s, k, Extent(a, n));
    Inserted(s, k, Extent(a, n));
    assert Covers(t[k], x) <==> Within(x, a, n);
    if FreeAt(s, x) {
      var i :| 0 <= i < |s| && Covers(s[i], x);
      assert Covers(t[if i < k then i else i + 1], x);
    }
    if FreeAt(t, x) && !Covers(t[k], x) {
      var i :| 0 <= i < |t| && Covers(t[i], x);
      assert t[i] == s[if i < k then i else i - 1];
    }
  }

  lemma NewApart(s: seq<Extent>, k: nat, a: nat, n: nat)
    requires Apart(s) && Coalesced(s, -1) && k <= |s| && n > 0
    requires forall i :: 0 <= i < k ==> End(s[i]) <= a
    requires forall i :: k <= i < |s| ==> s[i].addr > a + n
    ensures Apart(Insert(s, k, Extent(a, n))) && Coalesced(Insert(s, k, Extent(a, n)), k)
  {
    Inserted(s, k, Extent(a, n));
    var t := Insert(s, k, Extent(a, n));
    forall i, j | 0 <= i < j < |t| ensures if j == k then End(t[i]) <= t[j].addr else End(t[i]) < t[j].addr {
      NewPair(s, k, a, n, t, i, j);
    }
  }

  lemma NewPair(s: seq<Extent>, k: nat, a: nat, n: nat, t: seq<Extent>, i: nat, j: nat)
    requires Coalesced(s, -1) && k <= |s| && |t| == |s| + 1 && t[k] == Extent(a, n) && i < j < |t|
    requires forall l :: 0 <= l < |t| && l != k ==> t[l] == s[if l < k then l else l - 1]
    requires forall l :: 0 <= l < k ==> End(s[l]) <= a
    requires forall l :: k <= l < |s| ==> s[l].addr > a + n
    ensures if j == k then End(t[i]) <= t[j].addr else End(t[i]) < t[j].addr
  {
    if i != k { assert t[i] == s[if i < k then i else i - 1]; }
    if j != k { assert t[j] == s[if j < k then j else j - 1]; }
  }

  /** Two touching extents become one. */
  lemma JoinPrevious(s: seq<Extent>, base: int, end: int, used: iset<int>, lost: iset<int>, k: nat)
    requires Layout(s, base, end, used, lost, k) && 1 <= k < |s| && End(s[k - 1]) == s[k].addr
    ensures Layout(Remove(s[k := Extent(s[k - 1].addr, s[k - 1].size + s[k].size)], k - 1), base, end, used, lost, -1)
  {
    var r := s[k := Extent(s[k - 1].addr, s[k - 1].size + s[k].size)];
    var t := Remove(r, k - 1);
    forall x ensures FreeAt(t, x) <==> FreeAt(s, x) {
      JoinedCovers(s, k, x);
    }
    JoinedApart(s, k, t);
  }

  lemma JoinedApart(s: seq<Extent>, k: nat, t: seq<Extent>)
    requires Apart(s) && Coalesced(s, k) && 1 <= k < |s| && End(s[k - 1]) == s[k].addr && |t| == |s| - 1
    requires t[k - 1] == Extent(s[k - 1].addr, s[k - 1].size + s[k].size)
    requires forall i :: 0 <= i < |t| && i != k - 1 ==> t[i] == s[if i < k - 1 then i else i + 1]
    ensures Apart(t) && Coalesced(t, -1)
  {
    forall i, j | 0 <= i < j < |t| ensures End(t[i]) < t[j].addr {
      var p, q := if i < k then i else i + 1, if j < k - 1 then j else if j == k - 1 then k - 1 else j + 1;
      assert i != k - 1 ==> t[i] == s[p];
      assert t[j].addr == s[q].addr;
      assert End(t[i]) == End(s[if i == k - 1 then k else p]);
    }
  }

  lemma JoinedCovers(s: seq<Extent>, k: nat, x: int)
    requires 1 <= k < |s| && End(s[k - 1]) == s[k].addr
    ensures FreeAt(Remove(s[k := Extent(s[k - 1].addr, s[k - 1].size + s[k].size)], k - 1), x) <==> FreeAt(s, x)
  {
    var r := s[k := Extent(s[k - 1].addr, s[k - 1].size + s[k].size)];
    var t := Remove(r, k - 1);
    assert t[k - 1] == r[k];
    assert Covers(t[k - 1], x) <==> Covers(s[k - 1], x) || Covers(s[k], x);
    if FreeAt(s, x) && !Covers(t[k - 1], x) {
      var i :| 0 <= i < |s| && Covers(s[i], x);
      assert t[if i < k then i else i - 1] == s[i];
    }
    if FreeAt(t, x) && !Covers(t[k - 1], x) {
      var i :| 0 <= i < |t| && Covers(t[i], x);
      assert s[if i < k - 1 then i else i + 1] == t[i];
    }
  }

  /** The extent does not touch the one before after all. */
  lemma NotTouching(s: seq<Extent>, base: int, end: int, used: iset<int>, lost: iset<int>, k: nat)
    requires Layout(s, base, end, used, lost, k) && k < |s| && (k >= 1 ==> End(s[k - 1]) != s[k].addr)
    ensures Layout(s, base, end, used, lost, -1)
  {
    forall i | 0 <= i < k ensures End(s[i]) < s[k].addr {
      assert End(s[i]) <= End(s[k - 1]);
    }
  }

  /** The last extent reaches the end, which moves down. */
  lemma DropTail(s: seq<Extent>, base: int, end: int, used: iset<int>, lost: iset<int>, k: nat)
    requires Layout(s, base, end, used, lost, -1) && k < |s| && End(s[k]) == end
    ensures k == |s| - 1
    ensures Layout(Remove(s, k), base, s[k].addr, used, lost, -1)
    ensures k >= 1 ==> End(s[k - 1]) < s[k].addr
  {
    if k < |s| - 1 {
      InRegion(s, base, end, used, lost, -1, |s| - 1);
    }
    InRegion(s, base, end, used, lost, -1, k);
    FreeWithout(s, k);
    ApartWithout(s, k);
    forall x | x in used + lost ensures x < s[k].addr {
      assert x !in Range(s[k].addr, s[k].size);
    }
  }

  /** The same, with the first of the two taken out before the second grows. */
  lemma JoinedBack(s: seq<Extent>, base: int, end: int, used: iset<int>, lost: iset<int>, k: nat, t: seq<Extent>)
    requires Layout(s, base, end, used, lost, k) && 1 <= k < |s| && End(s[k - 1]) == s[k].addr
    requires t == Remove(s, k - 1)[k - 1 := Extent(s[k - 1].addr, s[k - 1].size + s[k].size)]
    ensures Layout(t, base, end, used, lost, -1)
    ensures OthersBelow(s, k, end) ==> OthersBelow(t, k - 1, end)
  {
    JoinPrevious(s, base, end, used, lost, k);
    assert t == Remove(s[k := Extent(s[k - 1].addr, s[k - 1].size + s[k].size)], k - 1);
    Removed(s, k - 1);
  }

  lemma BelowInserted(s: seq<Extent>, k: nat, e: Extent, end: int)
    requires k <= |s| && AllBelow(s, end)
    ensures OthersBelow(Insert(s, k, e), k, end)
  {
    Inserted(s, k, e);
  }

  lemma BelowRemoved(s: seq<Extent>, k: nat, end: int)
    requires k < |s| && Apart(s) && Coalesced(s, -1) && k == |s| - 1
    ensures AllBelow(Remove(s, k), s[k].addr)
  {
    Removed(s, k);
  }

  lemma AllBelowTail(s: seq<Extent>, k: nat, end: int)
    requires OthersBelow(s, k, end) && k < |s| && End(s[k]) < end
    ensures AllBelow(s, end)
  {
  }

  /** The last addresses in use are given back without a node. */
  lemma GiveTail(s: seq<Extent>, base: int, end: int, used: iset<int>, lost: iset<int>, a: nat)
    requires Layout(s, base, end, used, lost, -1) && a <= end && Range(a, end - a) <= used && base <= a
    ensures Layout(s, base, a, used - Range(a, end - a), lost, -1)
  {
    forall x | a <= x < end ensures x in used && !FreeAt(s, x) && x !in lost {
      assert x in Range(a, end - a);
    }
  }

  /** Addresses are given back without a node, and lost. */
  lemma Lose(s: seq<Extent>, base: int, end: int, used: iset<int>, lost: iset<int>, a: nat, n: nat)
    requires Layout(s, base, end, used, lost, -1) && Range(a, n) <= used
    ensures Layout(s, base, end, used - Range(a, n), lost + Range(a, n), -1)
  {
  }
}
