/** The page map of one chunk (arena.h, arena_chunk_map_t) and the tiling of
    the chunk into runs that it encodes. */
module PageTiles {
  import opened Wrappers

  /** One page-map entry.  `num` is the upper part of the bits: the size in
      pages, or the page offset inside a small run. */
  datatype Entry = Entry(num: nat, dirty: bool, large: bool, alloc: bool)

  datatype Kind = Free | Large | Small

  /** A run: what it is used for, its dirty flag, and its length in pages. */
  datatype Tile = Tile(kind: Kind, dirty: bool, n: nat)

  ghost function Pages(ts: seq<Tile>): nat {
    if ts == [] then 0 else ts[0].n + Pages(ts[1..])
  }

  /** Pages in allocated runs (`what` is false) or in dirty free runs. */
  ghost function Count(ts: seq<Tile>, dirtyFree: bool): nat {
    if ts == [] then 0
    else (if Counts(ts[0], dirtyFree) then ts[0].n else 0) + Count(ts[1..], dirtyFree)
  }

  ghost predicate Counts(t: Tile, dirtyFree: bool) {
    if dirtyFree then t.kind == Free && t.dirty else t.kind != Free
  }

  /** The entries from page `i` describe the single run `t` as the table in
      arena.h demands.  Entries inside a free or large run are don't-cares,
      except that a clean run holds no stale dirty flag. */
  ghost predicate TileOk(t: Tile, m: seq<Entry>, i: int) {
    && 0 <= i && t.n >= 1 && i + t.n <= |m|
    && m[i].dirty == t.dirty && m[i + t.n - 1].dirty == t.dirty
    && (!t.dirty ==> forall k :: i <= k < i + t.n ==> !m[k].dirty)
    && match t.kind
       case Free => m[i] == m[i + t.n - 1] == Entry(t.n, t.dirty, false, false)
       case Large => && m[i].num == t.n && m[i].large && m[i].alloc && m[i + t.n - 1].large && m[i + t.n - 1].alloc
                     && (t.n > 1 ==> m[i + t.n - 1].num == 0)
       case Small => forall k :: i <= k < i + t.n ==> m[k].num == k - i && !m[k].large && m[k].alloc
  }

  /** Reading the runs `ts` off the page map from page `i` on, with no gap:
      the page where they end, or -1 if the entries say otherwise. */
  ghost function EndOf(ts: seq<Tile>, m: seq<Entry>, i: nat): int {
    if ts == [] then i
    else if TileOk(ts[0], m, i) then EndOf(ts[1..], m, i + ts[0].n)
    else -1
  }

  ghost predicate EncodesFrom(ts: seq<Tile>, m: seq<Entry>, i: nat) {
    EndOf(ts, m, i) == i + Pages(ts)
  }

  /** The page map encodes exactly the runs `ts`. */
  ghost predicate Encodes(ts: seq<Tile>, m: seq<Entry>) {
    EncodesFrom(ts, m, 0) && Pages(ts) == |m|
  }

  ghost predicate Positive(ts: seq<Tile>) {
    forall k :: 0 <= k < |ts| ==> ts[k].n >= 1
  }

  /** No two neighbouring free runs have the same dirty flag. */
  ghost predicate Coalesced(ts: seq<Tile>) {
    forall i :: 0 <= i < |ts| - 1 ==> !Mergeable(ts[i], ts[i + 1])
  }

  ghost predicate Mergeable(t: Tile, u: Tile) {
    t.kind == Free && u.kind == Free && t.dirty == u.dirty
  }

  /** The run that starts at page `i`, if one does. */
  ghost function At(ts: seq<Tile>, i: int): Option<Tile> {
    if ts == [] || i < 0 then None
    else if i == 0 then Some(ts[0])
    else At(ts[1..], i - ts[0].n)
  }

  // ----- concatenation -----

  lemma {:induction false} PagesAppend(a: seq<Tile>, b: seq<Tile>)
    ensures Pages(a + b) == Pages(a) + Pages(b)
  {
    if a == [] { assert a + b == b; } else { assert (a + b)[1..] == a[1..] + b; PagesAppend(a[1..], b); }
  }

  lemma {:induction false} CountAppend(a: seq<Tile>, b: seq<Tile>, what: bool)
    ensures Count(a + b, what) == Count(a, what) + Count(b, what)
  {
    if a == [] { assert a + b == b; } else { assert (a + b)[1..] == a[1..] + b; CountAppend(a[1..], b, what); }
  }

  lemma {:induction false} EncodesLengths(ts: seq<Tile>, m: seq<Entry>, i: nat)
    requires EncodesFrom(ts, m, i)
    ensures Positive(ts)
  {
    if ts != [] {
      EncodesLengths(ts[1..], m, i + ts[0].n);
      assert forall k :: 1 <= k < |ts| ==> ts[k] == ts[1..][k - 1];
    }
  }

  lemma {:induction false} EncodesAppend(a: seq<Tile>, b: seq<Tile>, m: seq<Entry>, i: nat)
    ensures EncodesFrom(a + b, m, i) <==> EncodesFrom(a, m, i) && EncodesFrom(b, m, i + Pages(a))
  {
    if a == [] {
      assert a + b == b;
    } else {
      assert (a + b)[1..] == a[1..] + b;
      EncodesAppend(a[1..], b, m, i + a[0].n);
    }
  }

  /** Only the entries of a run matter to it. */
  lemma {:induction false} EncodesFrame(ts: seq<Tile>, m: seq<Entry>, m': seq<Entry>, i: nat)
    requires EncodesFrom(ts, m, i) && |m'| == |m|
    requires forall k :: 0 <= k < |m| && i <= k < i + Pages(ts) ==> m'[k] == m[k]
    ensures EncodesFrom(ts, m', i)
  {
    if ts != [] {
      EncodesFrame(ts[1..], m, m', i + ts[0].n);
    }
  }

  lemma {:induction false} AtAppend(a: seq<Tile>, b: seq<Tile>, i: int)
    requires Positive(a)
    ensures At(a + b, i) == if i < Pages(a) then At(a, i) else At(b, i - Pages(a))
  {
    if a == [] {
      assert a + b == b;
    } else if i > 0 {
      assert (a + b)[1..] == a[1..] + b;
      AtAppend(a[1..], b, i - a[0].n);
    }
  }

  /** The runs before and after the one that starts at page `i`. */
  lemma {:induction false} Locate(ts: seq<Tile>, i: int) returns (a: seq<Tile>, b: seq<Tile>)
    requires At(ts, i).Some?
    ensures ts == a + [At(ts, i).value] + b && Pages(a) == i
  {
    if i == 0 {
      a, b := [], ts[1..];
    } else {
      a, b := Locate(ts[1..], i - ts[0].n);
      a := [ts[0]] + a;
    }
  }

  /** Cutting the tiling at some of its runs. */
  lemma Around(a: seq<Tile>, x: seq<Tile>, b: seq<Tile>, m: seq<Entry>)
    ensures Pages(a + x + b) == Pages(a) + Pages(x) + Pages(b)
    ensures var i := Pages(a);
            EncodesFrom(a + x + b, m, 0) <==>
            EncodesFrom(a, m, 0) && EncodesFrom(x, m, i) && EncodesFrom(b, m, i + Pages(x))
  {
    PagesAppend(a + x, b);
    PagesAppend(a, x);
    EncodesAppend(a + x, b, m, 0);
    EncodesAppend(a, x, m, 0);
  }

  ghost predicate SameOutside(m: seq<Entry>, m': seq<Entry>, i: int, j: int) {
    |m| == |m'| && forall k :: 0 <= k < |m| && !(i <= k < j) ==> m'[k] == m[k]
  }

  /** The runs before and after the rewritten entries stay encoded. */
  lemma OthersEncoded(a: seq<Tile>, b: seq<Tile>, m: seq<Entry>, m': seq<Entry>, j: nat)
    requires EncodesFrom(a, m, 0) && EncodesFrom(b, m, j) && Pages(a) <= j
    requires SameOutside(m, m', Pages(a), j)
    ensures EncodesFrom(a, m', 0) && EncodesFrom(b, m', j)
  {
    EncodesFrame(a, m, m', 0);
    EncodesFrame(b, m, m', j);
  }

  /** Once the entries of the runs `x` are rewritten, the page map encodes `y`
      in their place iff those entries do. */
  lemma Replaced(a: seq<Tile>, x: seq<Tile>, y: seq<Tile>, b: seq<Tile>, m: seq<Entry>, m': seq<Entry>)
    requires Encodes(a + x + b, m) && Pages(x) == Pages(y)
    requires SameOutside(m, m', Pages(a), Pages(a) + Pages(x))
    ensures Encodes(a + y + b, m') <==> EncodesFrom(y, m', Pages(a))
  {
    Around(a, x, b, m);
    Around(a, y, b, m');
    OthersEncoded(a, b, m, m', Pages(a) + Pages(x));
  }

  lemma OneTile(t: Tile, m: seq<Entry>, i: nat)
    ensures Pages([t]) == t.n
    ensures EncodesFrom([t], m, i) <==> TileOk(t, m, i)
  {
    assert [t][1..] == [];
    if TileOk(t, m, i) {
      assert EndOf([t][1..], m, i + t.n) == i + t.n;
    }
  }

  lemma TwoTiles(t: Tile, u: Tile, m: seq<Entry>, i: nat)
    ensures Pages([t, u]) == t.n + u.n
    ensures EncodesFrom([t, u], m, i) <==> TileOk(t, m, i) && TileOk(u, m, i + t.n)
  {
    assert [t, u][1..] == [u];
    OneTile(u, m, i + t.n);
  }

  lemma OneToOne(a: seq<Tile>, t: Tile, u: Tile, b: seq<Tile>, m: seq<Entry>, m': seq<Entry>)
    requires Encodes(a + [t] + b, m) && t.n == u.n
    requires SameOutside(m, m', Pages(a), Pages(a) + t.n) && TileOk(u, m', Pages(a))
    ensures Encodes(a + [u] + b, m')
  {
    OneTile(t, m, Pages(a));
    OneTile(u, m', Pages(a));
    Replaced(a, [t], [u], b, m, m');
  }

  lemma OneToTwo(a: seq<Tile>, t: Tile, u: Tile, v: Tile, b: seq<Tile>, m: seq<Entry>, m': seq<Entry>)
    requires Encodes(a + [t] + b, m) && t.n == u.n + v.n
    requires SameOutside(m, m', Pages(a), Pages(a) + t.n) && TileOk(u, m', Pages(a)) && TileOk(v, m', Pages(a) + u.n)
    ensures Encodes(a + [u, v] + b, m')
  {
    OneTile(t, m, Pages(a));
    TwoTiles(u, v, m', Pages(a));
    Replaced(a, [t], [u, v], b, m, m');
  }

  lemma TwoToOne(a: seq<Tile>, t: Tile, u: Tile, v: Tile, b: seq<Tile>, m: seq<Entry>, m': seq<Entry>)
    requires Encodes(a + [t, u] + b, m) && t.n + u.n == v.n
    requires SameOutside(m, m', Pages(a), Pages(a) + v.n) && TileOk(v, m', Pages(a))
    ensures Encodes(a + [v] + b, m')
  {
    TwoTiles(t, u, m, Pages(a));
    OneTile(v, m', Pages(a));
    Replaced(a, [t, u], [v], b, m, m');
  }

  /** The entries of two neighbouring runs in the middle. */
  lemma TheTiles(a: seq<Tile>, t: Tile, u: Tile, b: seq<Tile>, m: seq<Entry>)
    requires Encodes(a + [t, u] + b, m)
    ensures TileOk(t, m, Pages(a)) && TileOk(u, m, Pages(a) + t.n) && Pages(a) + t.n + u.n + Pages(b) == |m|
  {
    Around(a, [t, u], b, m);
    TwoTiles(t, u, m, Pages(a));
  }

  lemma TheTilesAt(a: seq<Tile>, t: Tile, u: Tile, b: seq<Tile>, m: seq<Entry>, i: nat)
    requires Encodes(a + [t, u] + b, m) && i == Pages(a)
    ensures TileOk(t, m, i) && TileOk(u, m, i + t.n)
  {
    TheTiles(a, t, u, b, m);
  }

  lemma TwoToOneAt(a: seq<Tile>, t: Tile, u: Tile, v: Tile, b: seq<Tile>, m: seq<Entry>, m': seq<Entry>, i: nat)
    requires Encodes(a + [t, u] + b, m) && t.n + u.n == v.n && i == Pages(a)
    requires SameOutside(m, m', i, i + v.n) && TileOk(v, m', i)
    ensures Encodes(a + [v] + b, m')
  {
    TwoToOne(a, t, u, v, b, m, m');
  }

  /** The entries of the run in the middle. */
  lemma TheTile(a: seq<Tile>, t: Tile, b: seq<Tile>, m: seq<Entry>)
    requires Encodes(a + [t] + b, m)
    ensures TileOk(t, m, Pages(a)) && Pages(a) + t.n + Pages(b) == |m|
  {
    Around(a, [t], b, m);
    OneTile(t, m, Pages(a));
  }

  /** What the first entry after some runs says about the run that follows. */
  lemma NextEntry(a: seq<Tile>, b: seq<Tile>, m: seq<Entry>)
    requires Encodes(a + b, m) && b != []
    ensures var e := Pages(a);
            && e + b[0].n <= |m| && b[0].n >= 1
            && (m[e].alloc <==> b[0].kind != Free) && m[e].dirty == b[0].dirty
            && (b[0].kind == Free ==> m[e].num == b[0].n)
  {
    EncodesAppend(a, b, m, 0);
  }

  /** What the entry before some runs says about the run that precedes them. */
  lemma PreviousEntry(a: seq<Tile>, b: seq<Tile>, m: seq<Entry>)
    requires Encodes(a + b, m) && a != []
    ensures var p := a[|a| - 1]; var i := Pages(a);
            && 1 <= p.n <= i <= |m| && i == Pages(a[..|a| - 1]) + p.n
            && (m[i - 1].alloc <==> p.kind != Free) && m[i - 1].dirty == p.dirty
            && (p.kind == Free ==> m[i - 1].num == p.n)
  {
    var p := a[|a| - 1];
    var front := a[..|a| - 1];
    assert front + [p] == a;
    TheTile(front, p, b, m);
    PagesAppend(front, [p]);
    OneTile(p, m, Pages(front));
  }

  // ----- the rewrites of arena.c -----

  function Set(m: seq<Entry>, k: int, e: Entry): seq<Entry>
    requires 0 <= k < |m|
  {
    m[k := e]
  }

  /** A run becomes free (arena_run_dalloc): first and last entry. */
  function MarkFree(m: seq<Entry>, i: nat, n: nat, dirty: bool): (r: seq<Entry>)
    requires 1 <= n && i + n <= |m|
  {
    m[i := Entry(n, dirty, false, false)][i + n - 1 := Entry(n, dirty, false, false)]
  }

  /** Two free runs become one: only the sizes at both ends change. */
  function MarkMerged(m: seq<Entry>, i: nat, n: nat): (r: seq<Entry>)
    requires 1 <= n && i + n <= |m|
  {
    var m1 := m[i := m[i].(num := n)];
    m1[i + n - 1 := m1[i + n - 1].(num := n)]
  }

  /** A large run: last entry first, in case it is also the first. */
  function MarkLarge(m: seq<Entry>, i: nat, n: nat, dirty: bool): (r: seq<Entry>)
    requires 1 <= n && i + n <= |m|
  {
    m[i + n - 1 := Entry(0, dirty, true, true)][i := Entry(n, dirty, true, true)]
  }

  lemma MarkFreeOk(a: seq<Tile>, t: Tile, b: seq<Tile>, m: seq<Entry>, dirty: bool)
    requires Encodes(a + [t] + b, m) && (t.dirty ==> dirty)
    ensures Pages(a) + t.n <= |m| && t.n >= 1
    ensures Encodes(a + [Tile(Free, dirty, t.n)] + b, MarkFree(m, Pages(a), t.n, dirty))
  {
    TheTile(a, t, b, m);
    OneToOne(a, t, Tile(Free, dirty, t.n), b, m, MarkFree(m, Pages(a), t.n, dirty));
  }

  lemma MergedTile(t: Tile, u: Tile, m: seq<Entry>, i: nat)
    requires TileOk(t, m, i) && TileOk(u, m, i + t.n) && Mergeable(t, u)
    ensures var m' := MarkMerged(m, i, t.n + u.n);
            TileOk(Tile(Free, t.dirty, t.n + u.n), m', i) && SameOutside(m, m', i, i + t.n + u.n)
  {
  }

  lemma MarkMergedOk(a: seq<Tile>, t: Tile, u: Tile, b: seq<Tile>, m: seq<Entry>)
    requires Encodes(a + [t, u] + b, m) && Mergeable(t, u)
    ensures Pages(a) + t.n + u.n <= |m| && t.n >= 1 && u.n >= 1
    ensures Encodes(a + [Tile(Free, t.dirty, t.n + u.n)] + b, MarkMerged(m, Pages(a), t.n + u.n))
  {
    TheTiles(a, t, u, b, m);
    MergedTile(t, u, m, Pages(a));
    TwoToOne(a, t, u, Tile(Free, t.dirty, t.n + u.n), b, m, MarkMerged(m, Pages(a), t.n + u.n));
  }

  /** Entries of a small run: the page offset everywhere, the dirty flag at
      both ends only. */
  method MarkSmall(m: seq<Entry>, i: nat, n: nat, dirty: bool) returns (r: seq<Entry>)
    requires 1 <= n && i + n <= |m|
    ensures SameOutside(m, r, i, i + n)
    ensures TileOk(Tile(Small, dirty, n), r, i)
  {
    r := m[i := Entry(0, dirty, false, true)];
    var k := 1;
    while k < n - 1
      invariant 1 <= k && (n > 1 ==> k <= n - 1) && |r| == |m|
      invariant SameOutside(m, r, i, i + n)
      invariant r[i] == Entry(0, dirty, false, true)
      invariant forall j :: 1 <= j < k && j < n - 1 ==> r[i + j] == Entry(j, false, false, true)
    {
      r := r[i + k := Entry(k, false, false, true)];
      k := k + 1;
    }
    r := r[i + n - 1 := Entry(n - 1, dirty, false, true)];
    forall j | i <= j < i + n ensures r[j].num == j - i && !r[j].large && r[j].alloc && (!dirty ==> !r[j].dirty) {
      if i < j < i + n - 1 {
        assert r[i + (j - i)] == Entry(j - i, false, false, true);
      }
    }
  }

  /** The rest of a split free run: its first and last entry. */
  function MarkRest(m: seq<Entry>, i: nat, need: nat, total: nat, dirty: bool): (r: seq<Entry>)
    requires 1 <= need <= total && i + total <= |m|
  {
    if need < total then
      m[i + need := Entry(total - need, dirty, false, false)][i + total - 1 := Entry(total - need, dirty, false, false)]
    else m
  }

  /** The runs a free run splits into. */
  ghost function SplitTiles(kind: Kind, dirty: bool, need: nat, total: nat): seq<Tile>
    requires need <= total
  {
    if need < total then [Tile(kind, dirty, need), Tile(Free, dirty, total - need)] else [Tile(kind, dirty, need)]
  }

  lemma SplitOk(a: seq<Tile>, t: Tile, b: seq<Tile>, m: seq<Entry>, r1: seq<Entry>, r: seq<Entry>, head: Tile)
    requires Encodes(a + [t] + b, m) && TileOk(t, m, Pages(a)) && t.kind == Free && 1 <= head.n <= t.n && head.dirty == t.dirty
    requires r1 == MarkRest(m, Pages(a), head.n, t.n, t.dirty) && SameOutside(r1, r, Pages(a), Pages(a) + head.n)
    requires TileOk(head, r, Pages(a))
    ensures Encodes(a + SplitTiles(head.kind, t.dirty, head.n, t.n) + b, r)
  {
    if head.n < t.n {
      RestTile(m, r1, r, Pages(a), head.n, t.n, t.dirty);
      OneToTwo(a, t, head, Tile(Free, t.dirty, t.n - head.n), b, m, r);
    } else {
      OneToOne(a, t, head, b, m, r);
    }
  }

  lemma RestTile(m: seq<Entry>, r1: seq<Entry>, r: seq<Entry>, i: nat, need: nat, total: nat, dirty: bool)
    requires TileOk(Tile(Free, dirty, total), m, i) && 1 <= need < total
    requires r1 == MarkRest(m, i, need, total, dirty) && SameOutside(r1, r, i, i + need)
    ensures TileOk(Tile(Free, dirty, total - need), r, i + need)
    ensures SameOutside(m, r, i, i + total)
  {
  }

  /** Cutting a large run in two (arena_run_trim_head): the new head run, and
      the first entry of what remains, which keeps its old flags. */
  function MarkTrimHead(m: seq<Entry>, i: nat, head: nat, total: nat, dirty: bool): (r: seq<Entry>)
    requires 1 <= head < total && i + total <= |m|
  {
    var m1 := m[i + head - 1 := Entry(0, dirty, true, true)][i := Entry(head, dirty, true, true)];
    m1[i + head := Entry(total - head, dirty || m1[i + head].dirty, true, true)]
  }

  /** Cutting a large run in two (arena_run_trim_tail). */
  function MarkTrimTail(m: seq<Entry>, i: nat, head: nat, total: nat, dirty: bool): (r: seq<Entry>)
    requires 1 <= head < total && i + total <= |m|
  {
    var m1 := m[i + head - 1 := Entry(0, dirty, true, true)][i := Entry(head, dirty, true, true)];
    m1[i + total - 1 := Entry(0, dirty, true, true)][i + head := Entry(total - head, dirty, true, true)]
  }

  ghost function TrimTiles(dirty: bool, head: nat, total: nat): seq<Tile>
    requires head <= total
  {
    [Tile(Large, dirty, head), Tile(Large, dirty, total - head)]
  }

  lemma TrimmedTiles(t: Tile, m: seq<Entry>, i: nat, head: nat, m': seq<Entry>)
    requires TileOk(t, m, i) && t.kind == Large && 1 <= head < t.n
    requires m' == MarkTrimHead(m, i, head, t.n, t.dirty) || m' == MarkTrimTail(m, i, head, t.n, t.dirty)
    ensures TileOk(Tile(Large, t.dirty, head), m', i) && TileOk(Tile(Large, t.dirty, t.n - head), m', i + head)
    ensures SameOutside(m, m', i, i + t.n)
  {
  }

  lemma MarkTrimOk(a: seq<Tile>, t: Tile, b: seq<Tile>, m: seq<Entry>, head: nat, m': seq<Entry>)
    requires Encodes(a + [t] + b, m) && t.kind == Large && 1 <= head < t.n && Pages(a) + t.n <= |m|
    requires m' == MarkTrimHead(m, Pages(a), head, t.n, t.dirty) || m' == MarkTrimTail(m, Pages(a), head, t.n, t.dirty)
    ensures Encodes(a + TrimTiles(t.dirty, head, t.n) + b, m')
  {
    TheTile(a, t, b, m);
    var i := Pages(a);
    TrimmedTiles(t, m, i, head, m');
    TrimmedOk(a, t, b, m, head, m', i);
  }

  lemma TrimmedOk(a: seq<Tile>, t: Tile, b: seq<Tile>, m: seq<Entry>, head: nat, m': seq<Entry>, i: nat)
    requires Encodes(a + [t] + b, m) && 1 <= head < t.n && i == Pages(a) && SameOutside(m, m', i, i + t.n)
    requires TileOk(Tile(Large, t.dirty, head), m', i) && TileOk(Tile(Large, t.dirty, t.n - head), m', i + head)
    ensures Encodes(a + TrimTiles(t.dirty, head, t.n) + b, m')
  {
    OneToTwo(a, t, Tile(Large, t.dirty, head), Tile(Large, t.dirty, t.n - head), b, m, m');
  }

  /** The entries of a large run that grows over its right neighbour. */
  function MarkGrown(m: seq<Entry>, i: nat, n: nat, dirty: bool): (r: seq<Entry>)
    requires 1 <= n && i + n <= |m|
  {
    m[i := Entry(n, dirty, true, true)][i + n - 1 := Entry(0, dirty, true, true)]
  }

  lemma GrownTile(t: Tile, u: Tile, m: seq<Entry>, i: nat)
    requires TileOk(t, m, i) && TileOk(u, m, i + t.n) && t.kind == Large && u.kind == Large
    ensures var d := t.dirty || u.dirty; var m' := MarkGrown(m, i, t.n + u.n, d);
            TileOk(Tile(Large, d, t.n + u.n), m', i) && SameOutside(m, m', i, i + t.n + u.n)
  {
  }

  lemma GrownEnds(t: Tile, u: Tile, m: seq<Entry>, i: nat)
    requires TileOk(t, m, i) && TileOk(u, m, i + t.n)
    ensures t.n >= 1 && u.n >= 1 && i + t.n + u.n <= |m|
    ensures m[i].dirty == t.dirty && m[i + t.n + u.n - 1].dirty == u.dirty
  {
  }

  /** Two neighbouring large runs become one (arena_ralloc_large_grow). */
  lemma MarkGrownOk(a: seq<Tile>, t: Tile, u: Tile, b: seq<Tile>, m: seq<Entry>, i: nat)
    requires Encodes(a + [t, u] + b, m) && t.kind == Large && u.kind == Large && i == Pages(a)
    ensures t.n >= 1 && u.n >= 1 && i + t.n + u.n <= |m|
    ensures m[i].dirty == t.dirty && m[i + t.n + u.n - 1].dirty == u.dirty
    ensures var d := t.dirty || u.dirty;
            Encodes(a + [Tile(Large, d, t.n + u.n)] + b, MarkGrown(m, i, t.n + u.n, d))
  {
    TheTilesAt(a, t, u, b, m, i);
    GrownEnds(t, u, m, i);
    GrownTile(t, u, m, i);
    var d := t.dirty || u.dirty;
    TwoToOneAt(a, t, u, Tile(Large, d, t.n + u.n), b, m, MarkGrown(m, i, t.n + u.n, d), i);
  }

  /** A small run turned into a large one before its clean tail is trimmed
      (arena_dalloc_bin_run): sizes and large flags, other flags kept. */
  function MarkConverted(m: seq<Entry>, i: nat, n: nat): (r: seq<Entry>)
    requires 1 <= n && i + n <= |m|
  {
    var m1 := m[i + n - 1 := Entry(0, m[i + n - 1].dirty, true, m[i + n - 1].alloc)];
    m1[i := Entry(n, m1[i].dirty, true, m1[i].alloc)]
  }

  lemma MarkConvertedOk(a: seq<Tile>, t: Tile, b: seq<Tile>, m: seq<Entry>)
    requires Encodes(a + [t] + b, m) && t.kind == Small
    ensures Pages(a) + t.n <= |m| && t.n >= 1
    ensures Encodes(a + [Tile(Large, t.dirty, t.n)] + b, MarkConverted(m, Pages(a), t.n))
  {
    TheTile(a, t, b, m);
    OneToOne(a, t, Tile(Large, t.dirty, t.n), b, m, MarkConverted(m, Pages(a), t.n));
  }

  /** A dirty free run is allocated while it is purged (arena_chunk_purge):
      every entry is rewritten without the dirty flag. */
  method MarkPurging(m: seq<Entry>, i: nat, n: nat) returns (r: seq<Entry>)
    requires 1 <= n && i + n <= |m|
    ensures SameOutside(m, r, i, i + n)
    ensures TileOk(Tile(Large, false, n), r, i)
  {
    r := m[i := Entry(n, false, true, true)];
    var k := 1;
    while k < n - 1
      invariant 1 <= k <= n && (n > 1 ==> k <= n - 1) && |r| == |m|
      invariant SameOutside(m, r, i, i + n)
      invariant r[i] == Entry(n, false, true, true)
      invariant forall j :: i <= j < i + k ==> !r[j].dirty
    {
      r := r[i + k := Entry(0, false, false, false)];
      k := k + 1;
    }
    if n > 1 {
      r := r[i + n - 1 := Entry(0, false, true, true)];
    }
  }

  // ----- substitution of one run -----

  /** The tiling with the run at page `i` replaced by the runs `y`. */
  ghost function Subst(ts: seq<Tile>, i: int, y: seq<Tile>): seq<Tile>
    requires At(ts, i).Some?
  {
    if i == 0 then y + ts[1..] else [ts[0]] + Subst(ts[1..], i - ts[0].n, y)
  }

  lemma {:induction false} SubstAround(a: seq<Tile>, t: Tile, b: seq<Tile>, y: seq<Tile>)
    requires Positive(a)
    ensures At(a + [t] + b, Pages(a)) == Some(t)
    ensures Subst(a + [t] + b, Pages(a), y) == a + y + b
  {
    var ts := a + [t] + b;
    if a == [] {
      assert ts[1..] == b;
      assert a + y + b == y + b;
    } else {
      assert ts[1..] == a[1..] + [t] + b;
      SubstAround(a[1..], t, b, y);
      assert a + y + b == [a[0]] + (a[1..] + y + b);
    }
  }

  /** Where runs start after a substitution of the same length. */
  lemma {:induction false} AtSubst(ts: seq<Tile>, i: int, y: seq<Tile>, j: int)
    requires At(ts, i).Some? && Pages(y) == At(ts, i).value.n
    requires Positive(ts)
    requires Positive(y)
    ensures At(Subst(ts, i, y), j) == if i <= j < i + Pages(y) then At(y, j - i) else At(ts, j)
  {
    if i == 0 {
      AtAppend(y, ts[1..], j);
    } else if j > 0 {
      AtSubst(ts[1..], i - ts[0].n, y, j - ts[0].n);
    } else if j == 0 {
      AtPositive(ts, i);
    }
  }

  lemma AtPositive(ts: seq<Tile>, i: int)
    requires At(ts, i).Some?
    ensures i >= 0
  {
  }

  lemma {:induction false} CountSubst(ts: seq<Tile>, i: int, y: seq<Tile>, what: bool)
    requires At(ts, i).Some?
    ensures Count(Subst(ts, i, y), what) == Count(ts, what) - Count([At(ts, i).value], what) + Count(y, what)
  {
    if i == 0 {
      CountAppend(y, ts[1..], what);
      assert [ts[0]][1..] == [];
    } else {
      CountSubst(ts[1..], i - ts[0].n, y, what);
      assert ([ts[0]] + Subst(ts[1..], i - ts[0].n, y))[1..] == Subst(ts[1..], i - ts[0].n, y);
    }
  }

  /** No run starts inside another one. */
  lemma {:induction false} AtInside(ts: seq<Tile>, i: int, j: int)
    requires Positive(ts)
    requires At(ts, i).Some? && At(ts, j).Some? && i < j
    ensures i + At(ts, i).value.n <= j
  {
    if i > 0 {
      AtInside(ts[1..], i - ts[0].n, j - ts[0].n);
    } else {
      AtPositive(ts, i);
      AtPositive(ts[1..], j - ts[0].n);
    }
  }

  lemma {:induction false} AtBounds(ts: seq<Tile>, i: int)
    requires At(ts, i).Some? && Positive(ts)
    ensures 0 <= i && At(ts, i).value.n >= 1 && i + At(ts, i).value.n <= Pages(ts)
    ensures At(ts, i).value in ts
  {
    AtPositive(ts, i);
    if i > 0 {
      AtBounds(ts[1..], i - ts[0].n);
    }
  }

  /** One run replaced by another: only the run at page `i` changes. */
  lemma SubstOne(ts: seq<Tile>, i: int, u: Tile)
    requires At(ts, i).Some? && At(ts, i).value.n == u.n
    requires Positive(ts)
    ensures forall j :: At(Subst(ts, i, [u]), j) == if j == i then Some(u) else At(ts, j)
    ensures Pages(Subst(ts, i, [u])) == Pages(ts)
  {
    SubstPages(ts, i, [u]);
    assert [u][1..] == [];
    AtBounds(ts, i);
    forall j ensures At(Subst(ts, i, [u]), j) == if j == i then Some(u) else At(ts, j) {
      AtSubst(ts, i, [u], j);
      if i < j < i + u.n && At(ts, j).Some? { AtInside(ts, i, j); }
    }
  }

  /** One run replaced by two: the second starts where the first one ends. */
  lemma SubstTwo(ts: seq<Tile>, i: int, u: Tile, v: Tile)
    requires At(ts, i).Some? && At(ts, i).value.n == u.n + v.n && u.n >= 1 && v.n >= 1
    requires Positive(ts)
    ensures forall j :: At(Subst(ts, i, [u, v]), j) ==
                        if j == i then Some(u) else if j == i + u.n then Some(v) else At(ts, j)
    ensures At(ts, i + u.n) == None
    ensures Pages(Subst(ts, i, [u, v])) == Pages(ts)
  {
    PairAt(u, v);
    SubstPages(ts, i, [u, v]);
    AtBounds(ts, i);
    forall j ensures At(Subst(ts, i, [u, v]), j) == if j == i then Some(u) else if j == i + u.n then Some(v) else At(ts, j) {
      AtSubst(ts, i, [u, v], j);
      if i < j < i + u.n + v.n && At(ts, j).Some? { AtInside(ts, i, j); }
    }
    if At(ts, i + u.n).Some? { AtInside(ts, i, i + u.n); }
  }

  lemma PairAt(u: Tile, v: Tile)
    requires u.n >= 1 && v.n >= 1
    ensures Pages([u, v]) == u.n + v.n && Positive([u, v])
    ensures forall j :: At([u, v], j) == if j == 0 then Some(u) else if j == u.n then Some(v) else None
  {
    SingleAt(v);
    assert [u, v][1..] == [v];
    forall j ensures At([u, v], j) == if j == 0 then Some(u) else if j == u.n then Some(v) else None {
      assert j > 0 ==> At([u, v], j) == At([v], j - u.n);
    }
  }

  lemma SingleAt(u: Tile)
    ensures Pages([u]) == u.n && forall j :: At([u], j) == if j == 0 then Some(u) else None
  {
    assert [u][1..] == [];
  }

  lemma {:induction false} SubstPages(ts: seq<Tile>, i: int, y: seq<Tile>)
    requires At(ts, i).Some? && Pages(y) == At(ts, i).value.n
    ensures Pages(Subst(ts, i, y)) == Pages(ts)
  {
    if i == 0 { PagesAppend(y, ts[1..]); } else { SubstPages(ts[1..], i - ts[0].n, y); }
  }

  /** Two runs merged into one: the second one is gone. */
  lemma MergedAt(a: seq<Tile>, t: Tile, u: Tile, b: seq<Tile>, v: Tile)
    requires v.n == t.n + u.n && t.n >= 1 && u.n >= 1
    requires Positive(a)
    requires Positive(b)
    ensures forall j :: At(a + [v] + b, j) ==
                        if j == Pages(a) then Some(v) else if j == Pages(a) + t.n then None else At(a + [t, u] + b, j)
    ensures At(a + [t, u] + b, Pages(a)) == Some(t) && At(a + [t, u] + b, Pages(a) + t.n) == Some(u)
  {
    SubstAround(a, v, b, [t, u]);
    SubstTwo(a + [v] + b, Pages(a), t, u);
  }

  /** Another run starts outside a given one. */
  lemma Elsewhere(ts: seq<Tile>, i: int, j: int)
    requires Positive(ts) && At(ts, i).Some? && At(ts, j).Some? && i != j
    ensures j < i || j >= i + At(ts, i).value.n
  {
    if i < j { AtInside(ts, i, j); }
  }

  /** What the page map says where a run starts. */
  lemma StartEntry(ts: seq<Tile>, m: seq<Entry>, i: int)
    requires Encodes(ts, m) && At(ts, i).Some?
    ensures TileOk(At(ts, i).value, m, i) && Positive(ts)
  {
    var a, b := Locate(ts, i);
    TheTile(a, At(ts, i).value, b, m);
    EncodesLengths(ts, m, 0);
  }

  /** Splitting a free run, in terms of where it starts. */
  method SplitAt(m: seq<Entry>, rest: seq<Entry>, i: int, need: nat, large: bool, ghost ts: seq<Tile>) returns (r: seq<Entry>)
    requires Encodes(ts, m) && At(ts, i).Some? && At(ts, i).value.kind == Free && 1 <= need <= At(ts, i).value.n
    requires var t := At(ts, i).value; i >= 0 && i + t.n <= |m| && rest == MarkRest(m, i, need, t.n, t.dirty)
    ensures |r| == |m|
    ensures var t := At(ts, i).value;
            Encodes(Subst(ts, i, SplitTiles(if large then Large else Small, t.dirty, need, t.n)), r)
  {
    ghost var t := At(ts, i).value;
    ghost var a, b := Locate(ts, i);
    StartEntry(ts, m, i);
    var dirty := m[i].dirty;
    if large {
      r := MarkLarge(rest, i, need, dirty);
    } else {
      r := MarkSmall(rest, i, need, dirty);
    }
    ghost var head := Tile(if large then Large else Small, dirty, need);
    SplitOk(a, t, b, m, rest, r, head);
    PositiveParts(a, t, b);
    SubstAround(a, t, b, SplitTiles(head.kind, dirty, need, t.n));
  }

  lemma PositiveParts(a: seq<Tile>, t: Tile, b: seq<Tile>)
    requires Positive(a + [t] + b)
    ensures Positive(a) && Positive(b)
  {
    var ts := a + [t] + b;
    assert forall k :: 0 <= k < |a| ==> a[k] == ts[k];
    assert forall k :: 0 <= k < |b| ==> b[k] == ts[|a| + 1 + k];
  }

  /** The runs that start where in `ts` are those of `ts'`, except at page `i`
      and, if there is one, at the page `j` of a second new run. */
  ghost predicate Differs(ts: seq<Tile>, ts': seq<Tile>, i: int, u: Option<Tile>, j: int, v: Option<Tile>) {
    forall k :: At(ts', k) == if k == i then u else if k == j then v else At(ts, k)
  }

  /** Where runs start after a split. */
  lemma TwoStarts(ts: seq<Tile>, i: int, t: Tile, kind: Kind, need: nat, ts': seq<Tile>)
    requires Positive(ts) && At(ts, i) == Some(t) && 1 <= need < t.n && ts' == Subst(ts, i, SplitTiles(kind, t.dirty, need, t.n))
    ensures At(ts, i + need) == None
    ensures Differs(ts, ts', i, Some(Tile(kind, t.dirty, need)), i + need, Some(Tile(Free, t.dirty, t.n - need)))
  {
    SubstTwo(ts, i, Tile(kind, t.dirty, need), Tile(Free, t.dirty, t.n - need));
  }

  lemma OneStart(ts: seq<Tile>, i: int, t: Tile, kind: Kind, ts': seq<Tile>)
    requires Positive(ts) && At(ts, i) == Some(t) && t.n >= 1 && ts' == Subst(ts, i, SplitTiles(kind, t.dirty, t.n, t.n))
    ensures Differs(ts, ts', i, Some(Tile(kind, t.dirty, t.n)), i, None)
  {
    SubstOne(ts, i, Tile(kind, t.dirty, t.n));
  }

  lemma SplitCounts(ts: seq<Tile>, i: int, kind: Kind, need: nat)
    requires At(ts, i).Some? && At(ts, i).value.kind == Free && kind != Free && 1 <= need <= At(ts, i).value.n
    ensures var t := At(ts, i).value; var ts' := Subst(ts, i, SplitTiles(kind, t.dirty, need, t.n));
            && Count(ts', false) == Count(ts, false) + need
            && Count(ts', true) == Count(ts, true) - if t.dirty then need else 0
  {
    var t := At(ts, i).value;
    var y := SplitTiles(kind, t.dirty, need, t.n);
    CountSubst(ts, i, y, false);
    CountSubst(ts, i, y, true);
    CountOne(t);
    if need < t.n {
      CountTwo(y[0], y[1]);
    } else {
      CountOne(y[0]);
    }
  }

  lemma CountOne(t: Tile)
    ensures forall w :: Count([t], w) == if Counts(t, w) then t.n else 0
  {
    assert [t][1..] == [];
  }

  lemma CountTwo(t: Tile, u: Tile)
    ensures forall w :: Count([t, u], w) == Count([t], w) + Count([u], w)
  {
    assert [t, u][1..] == [u];
    CountOne(t);
  }
}
