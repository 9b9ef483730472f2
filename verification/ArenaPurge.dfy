/** Purging the dirty free pages of a chunk (arena.c, arena_chunk_purge): its
    dirty free runs are allocated for a while and given back as clean ones. */
module ArenaPurge {
  import opened Wrappers
  import opened PowersOfTwo
  import opened PageTiles
  import opened ArenaTotals
  import opened ArenaState
  import opened ArenaDirty
  import opened ArenaList
  import opened ArenaCoalesce
  import opened ArenaAlloc

  /** The counters are exact, except that `k` pages of chunk `c` which are not
      dirty any more are still counted as such. */
  ghost predicate CountedBut(s: State, c: int, k: nat) {
    && s.chunks.Keys == s.tiles.Keys && c in s.chunks
    && s.nactive == Total(s.tiles, false) && s.ndirty == Total(s.tiles, true) + k
    && (forall d :: d in s.tiles ==> s.chunks[d].ndirty == Count(s.tiles[d], true) + if d == c then k else 0)
  }

  ghost predicate DirtyRun(s: State, c: int, i: int, n: nat) {
    c in s.tiles && c in s.chunks && At(s.tiles[c], i) == Some(Tile(Free, true, n))
  }

  /** A dirty free run is allocated for the time of the purge. */
  ghost predicate MarkStep(s: State, s': State, c: int, i: int, n: nat)
    requires DirtyRun(s, c, i, n)
  {
    && s'.npages == s.npages && s'.spare == s.spare && s'.chunksDirty == s.chunksDirty
    && s'.clean == s.clean && s'.dirty == s.dirty - {Run(n, c, i)} && s'.smallPages == s.smallPages
    && c in s'.chunks && s'.chunks == s.chunks[c := s'.chunks[c]]
    && s'.chunks[c].ndirty == s.chunks[c].ndirty && s'.chunks[c].dirtied == s.chunks[c].dirtied
    && s'.nactive == s.nactive + n && s'.ndirty == s.ndirty
    && s'.tiles == s.tiles[c := Subst(s.tiles[c], i, [Tile(Large, false, n)])]
  }

  lemma MarkAgrees(s: State, s': State, c: int, i: int, n: nat)
    requires Agree(s, None) && s.spare != Some(c) && DirtyRun(s, c, i, n) && MarkStep(s, s', c, i, n)
    requires ChunkOk(s'.chunks[c], s'.tiles[c], s.npages)
    ensures Agree(s', None)
  {
    var u := Tile(Large, false, n);
    StartEntry(s.tiles[c], s.chunks[c].pages, i);
    SubstOne(s.tiles[c], i, u);
    assert Differs(s.tiles[c], s'.tiles[c], i, Some(u), i, None);
    forall r: Run | r.c == c && r.i == i ensures r in s.dirty ==> r == Run(n, c, i) {
      assert r in s.dirty ==> ShouldHold(r, s, true, None);
    }
    forall r: Run | r.c == c && r.i == i ensures r !in s.clean {
      assert r in s.clean ==> ShouldHold(r, s, false, None);
    }
    Retiled(s, s', None, None, c, i, Some(u), i, None);
  }

  lemma MarkCounted(s: State, s': State, c: int, i: int, n: nat, k: nat)
    requires CountedBut(s, c, k) && Listed(s, None) && DirtyRun(s, c, i, n) && MarkStep(s, s', c, i, n)
    ensures CountedBut(s', c, k + n) && Listed(s', None)
  {
    var t, u := Tile(Free, true, n), Tile(Large, false, n);
    CountSubst(s.tiles[c], i, [u], false);
    CountSubst(s.tiles[c], i, [u], true);
    CountOne(t);
    CountOne(u);
    TotalSet(s.tiles, c, s'.tiles[c], false);
    TotalSet(s.tiles, c, s'.tiles[c], true);
  }

  lemma MarkAllocs(s: State, s': State, c: int, i: int, n: nat)
    requires MapsOk(s) && DirtyRun(s, c, i, n) && MarkStep(s, s', c, i, n)
    ensures OneMore(s, s', c, i, Tile(Large, false, n))
  {
    EncodesLengths(s.tiles[c], s.chunks[c].pages, 0);
    SubstOne(s.tiles[c], i, Tile(Large, false, n));
  }

  // ----- the list of runs to purge -----

  ghost function Sum(elms: seq<Run>): nat {
    if elms == [] then 0 else elms[0].n + Sum(elms[1..])
  }

  lemma {:induction false} SumAppend(elms: seq<Run>, r: Run)
    ensures Sum(elms + [r]) == Sum(elms) + r.n
  {
    if elms != [] {
      assert (elms + [r])[1..] == elms[1..] + [r];
      SumAppend(elms[1..], r);
    } else {
      assert [r][1..] == [];
    }
  }

  /** The list holds exactly the runs `held`, by page, of chunk `c`. */
  ghost predicate Elements(elms: seq<Run>, c: int, held: map<int, nat>) {
    && |elms| == |held|
    && (forall k :: 0 <= k < |elms| ==> elms[k].c == c && elms[k].i in held && held[elms[k].i] == elms[k].n)
    && (forall k, l :: 0 <= k < l < |elms| ==> elms[k].i != elms[l].i)
  }

  lemma ElementsAppend(elms: seq<Run>, c: int, held: map<int, nat>, r: Run)
    requires Elements(elms, c, held) && r.c == c && r.i !in held
    ensures Elements(elms + [r], c, held[r.i := r.n])
  {
    assert held[r.i := r.n].Keys == held.Keys + {r.i};
  }

  lemma ElementsRest(elms: seq<Run>, c: int, held: map<int, nat>)
    requires Elements(elms, c, held) && elms != []
    ensures Elements(elms[1..], c, held - {elms[0].i})
  {
    assert (held - {elms[0].i}).Keys == held.Keys - {elms[0].i};
    assert |held.Keys| == |held|;
  }

  /** Besides the allocated runs of `s`, the runs `held` of chunk `c` are. */
  ghost predicate HoldsAlso(s: State, s': State, c: int, held: map<int, nat>) {
    && (forall j :: j in held ==> AllocAt(s, c, j) == None)
    && (forall d, j :: AllocAt(s', d, j) == if d == c && j in held then Some(Tile(Large, false, held[j])) else AllocAt(s, d, j))
  }

  lemma HoldsMore(s: State, s1: State, s2: State, c: int, held: map<int, nat>, i: int, n: nat)
    requires HoldsAlso(s, s1, c, held) && OneMore(s1, s2, c, i, Tile(Large, false, n))
    ensures HoldsAlso(s, s2, c, held[i := n]) && i !in held
  {
  }

  lemma HoldsLess(s: State, s1: State, s2: State, c: int, held: map<int, nat>, i: int)
    requires HoldsAlso(s, s1, c, held) && i in held && OneLess(s1, s2, c, i)
    ensures HoldsAlso(s, s2, c, held - {i})
  {
  }

  // ----- the walk over the page map -----

  lemma {:induction false} NoDirtyCount(ts: seq<Tile>)
    requires NoDirty(ts)
    ensures Count(ts, true) == 0
  {
    if ts != [] {
      assert forall k :: 0 <= k < |ts[1..]| ==> ts[1..][k] == ts[k + 1];
      NoDirtyCount(ts[1..]);
    }
  }

  /** The walk has come to the end of the runs `front`. */
  ghost predicate Walked(s: State, s': State, c: int, elms: seq<Run>, held: map<int, nat>, front: seq<Tile>, back: seq<Tile>) {
    && Agree(s', None) && CountedBut(s', c, Sum(elms)) && Listed(s', None)
    && s'.nactive == s.nactive + Sum(elms) && s'.spare == s.spare != Some(c) && s'.npages == s.npages
    && c in s'.tiles && s'.tiles == s.tiles[c := front + back] && Coalesced(front + back)
    && NoDirty(front) && Pages(front) + Pages(back) == s.npages
    && c in s.chunks && c in s'.chunks && s'.chunks[c].ndirty == s.chunks[c].ndirty && s'.chunks[c].dirtied == s.chunks[c].dirtied
    && Elements(elms, c, held) && HoldsAlso(s, s', c, held)
  }

  /** One step of the walk: a dirty free run is allocated and listed, any other
      run is passed over. */
  ghost predicate MarkedNext(s: State, s': State, c: int, p: nat, n: nat, elms: seq<Run>, elms': seq<Run>, front: seq<Tile>, back: seq<Tile>, v: Tile) {
    && back != [] && Agree(s', None) && CountedBut(s', c, Sum(elms')) && Listed(s', None) && s'.nactive - s.nactive == Sum(elms') - Sum(elms)
    && s'.npages == s.npages && s'.spare == s.spare
    && c in s.tiles && c in s'.tiles && s'.tiles == s.tiles[c := s'.tiles[c]] && s'.tiles[c] == front + [v] + back[1..] && Coalesced(s'.tiles[c])
    && Pages(front + [v]) == p + n && p + n + Pages(back[1..]) == s.npages && !(v.kind == Free && v.dirty) && n >= 1
    && c in s.chunks && c in s'.chunks && s'.chunks == s.chunks[c := s'.chunks[c]]
    && s'.chunks[c].ndirty == s.chunks[c].ndirty && s'.chunks[c].dirtied == s.chunks[c].dirtied
    && if elms' == elms then s' == s else elms' == elms + [Run(n, c, p)] && OneMore(s, s', c, p, Tile(Large, false, n))
  }

  lemma WalkedNext(s: State, s1: State, s2: State, c: int, p: nat, n: nat, elms: seq<Run>, elms': seq<Run>, held: map<int, nat>,
                   front: seq<Tile>, back: seq<Tile>, v: Tile)
    requires Walked(s, s1, c, elms, held, front, back) && MarkedNext(s1, s2, c, p, n, elms, elms', front, back, v)
    ensures Walked(s, s2, c, elms', if elms' == elms then held else held[p := n], front + [v], back[1..])
  {
    if elms' != elms {
      HoldsMore(s, s1, s2, c, held, p, n);
      ElementsAppend(elms, c, held, Run(n, c, p));
    }
  }

  /** What the walk finds at the page it has come to. */
  lemma RunAt(front: seq<Tile>, back: seq<Tile>, m: seq<Entry>)
    requires Encodes(front + back, m) && back != []
    ensures At(front + back, Pages(front)) == Some(back[0]) && TileOk(back[0], m, Pages(front))
    ensures Pages(front) + back[0].n + Pages(back[1..]) == |m|
    ensures Pages(front + [back[0]]) == Pages(front) + back[0].n
    ensures front + back == front + [back[0]] + back[1..] && Positive(front)
  {
    var t, b := back[0], back[1..];
    assert front + back == front + [t] + b;
    TheTile(front, t, b, m);
    EncodesLengths(front + back, m, 0);
    PositiveParts(front, t, b);
    PagesAppend(front, [t]);
    OneTile(t, m, Pages(front));
    SubstAround(front, t, b, []);
  }

  lemma PositiveTail(a: seq<Tile>, b: seq<Tile>)
    requires Positive(a + b)
    ensures Positive(b)
  {
    assert forall k :: 0 <= k < |b| ==> b[k] == (a + b)[|a| + k];
  }

  lemma WalkDone(front: seq<Tile>, back: seq<Tile>, m: seq<Entry>)
    requires Encodes(front + back, m) && Pages(back) == 0 && NoDirty(front)
    ensures Count(front + back, true) == 0 && back == [] && front + back == front
  {
    EncodesLengths(front + back, m, 0);
    PositiveTail(front, back);
    PagesZero(back);
    assert front + back == front;
    NoDirtyCount(front);
  }

  lemma ReplacedCoalesced(front: seq<Tile>, t: Tile, v: Tile, back: seq<Tile>)
    requires Coalesced(front + [t] + back) && v.kind != Free
    ensures Coalesced(front + [v] + back)
  {
    CoalescedParts(front, t, back);
    CoalescedAround(front, v, back);
  }

  lemma NotWhole(ts: seq<Tile>, i: int)
    requires At(ts, i).Some? && At(ts, i).value.kind != Free
    ensures !WholeFree(ts)
  {
    if WholeFree(ts) { SingleRun(ts); }
  }

  /** A clean run given back leaves the dirty pages of its chunk as they were, and
      it is never its own chunk that goes back to the system. */
  lemma FreedClean(s: State, s': State, c: int, i: int)
    requires Counted(s) && Counted(s') && AllocRun(s, c, i) && Freed(s, s', c, i, false)
    ensures c in s.chunks && c in s'.chunks && s'.chunks[c].ndirty == s.chunks[c].ndirty
  {
    var a, b := s.tiles, s'.tiles;
    var gone := if s'.spare != s.spare && s.spare.Some? then {s.spare.value} else {};
    assert b.Keys == a.Keys - gone && c !in gone;
    Others(a, b, c, gone);
    TotalAt(a, c, true);
    TotalAt(b, c, true);
    if gone != {} { TotalAt(a - {c}, s.spare.value, true); }
  }

  lemma Others(a: map<int, seq<Tile>>, b: map<int, seq<Tile>>, c: int, gone: set<int>)
    requires c in a && c !in gone && b.Keys == a.Keys - gone && forall d :: d in b && d != c ==> b[d] == a[d]
    ensures b - {c} == a - {c} - gone
    ensures gone == {} ==> b - {c} == a - {c}
  {
    var x, y := b - {c}, a - {c} - gone;
    forall d ensures d in x <==> d in y {
      assert d in b <==> d in a && d !in gone;
    }
    forall d | d in x ensures x[d] == y[d] {
      assert d in b && d != c;
    }
    assert x == y;
    if gone == {} { assert y == a - {c}; }
  }

  // ----- the counters -----

  /** The chunk has no dirty free pages, and leaves the list. */
  ghost predicate ClearStep(s: State, s': State, c: int)
    requires c in s.chunks
  {
    && s'.npages == s.npages && s'.spare == s.spare && s'.nactive == s.nactive && s'.smallPages == s.smallPages
    && s'.clean == s.clean && s'.dirty == s.dirty && s'.tiles == s.tiles
    && s'.ndirty == s.ndirty - s.chunks[c].ndirty
    && s'.chunks == s.chunks[c := Chunk(s.chunks[c].pages, 0, false)]
    && s'.chunksDirty == Without(s.chunksDirty, c)
  }

  lemma ClearKeeps(s: State, s': State, c: int, k: nat)
    requires Agree(s, None) && CountedBut(s, c, k) && Listed(s, None) && Count(s.tiles[c], true) == 0 && ClearStep(s, s', c)
    ensures Agree(s', None) && Counted(s') && Listed(s', None)
    ensures c in s.chunksDirty ==> |s'.chunksDirty| == |s.chunksDirty| - 1
  {
    WithoutOk(s.chunksDirty, c);
    TreesKept(s, s');
    forall d ensures d in s'.chunksDirty <==> d in s'.chunks && s'.chunks[d].dirtied {
      assert d in s.chunksDirty <==> d in s.chunks && s.chunks[d].dirtied;
    }
  }

  lemma CountedIsBut(s: State, c: int)
    requires Counted(s) && c in s.chunks
    ensures CountedBut(s, c, 0)
  {
  }

  /** A chunk that is listed although it has no dirty free pages. */
  lemma ClearedSettles(s: State, s': State, c: int)
    requires Settled(s) && c in s.chunks && ClearStep(s, s', c)
    ensures Settled(s')
  {
  }

  lemma WalkSettles(s: State, s1: State, s2: State, c: int, elms: seq<Run>, held: map<int, nat>)
    requires SettledBut(s, c) && s.spare != Some(c) && c in s1.tiles && Walked(s, s1, c, elms, held, s1.tiles[c], [])
    requires c in s1.chunks && ClearStep(s1, s2, c) && Sum(elms) > 0
    ensures Settled(s2) && HoldsAlso(s, s2, c, held)
  {
    assert s1.tiles[c] + [] == s1.tiles[c];
    assert AllocAt(s1, c, elms[0].i).Some?;
    NotWhole(s1.tiles[c], elms[0].i);
  }

  lemma WalkDirty(s: State, s1: State, s2: State, c: int, elms: seq<Run>, held: map<int, nat>)
    requires c in s1.tiles && Walked(s, s1, c, elms, held, s1.tiles[c], []) && c in s1.chunks && ClearStep(s1, s2, c)
    ensures NotDirtier(s, s2)
  {
    forall d, p | DirtyAt(s2, d, p) ensures DirtyAt(s, d, p) {
      if d == c { NoneDirty(s1.tiles[c], p); }
    }
  }

  lemma NothingDirty(s: State)
    requires Counted(s) && Listed(s, None) && ListOk(s) && s.chunksDirty == []
    ensures s.ndirty == 0
  {
    forall c | c in s.tiles ensures Count(s.tiles[c], true) == 0 {
      assert c !in s.chunksDirty;
    }
    TotalZero(s.tiles, true);
  }

  lemma NdirtyNat(s: State, c: int)
    requires Counted(s) && c in s.chunks
    ensures s.chunks[c].ndirty >= 0
  {
    assert c in s.tiles.Keys;
  }

  lemma HeadListed(s: State)
    requires ListOk(s) && Counted(s)
    ensures s.chunksDirty != [] ==> s.chunksDirty[0] in s.chunks && s.chunks[s.chunksDirty[0]].ndirty >= 0
  {
    if s.chunksDirty != [] {
      assert s.chunksDirty[0] in s.chunksDirty;
      NdirtyNat(s, s.chunksDirty[0]);
    }
  }

  lemma TotalNat(s: State)
    requires Counted(s)
    ensures s.ndirty >= 0 && s.nactive >= 0
  {
  }

  /** n >> k. */
  function Shift(n: int, k: nat): (r: int)
    ensures n >= 0 ==> 0 <= r <= n
    decreases k
  {
    if k == 0 then n else Shift(n / 2, k - 1)
  }

  lemma {:induction false} ShiftIs(n: nat, k: nat)
    ensures Shift(n, k) * Pow2(k) <= n < (Shift(n, k) + 1) * Pow2(k)
    decreases k
  {
    if k > 0 {
      ShiftIs(n / 2, k - 1);
      Halved(Shift(n, k), Pow2(k - 1), n);
    }
  }

  lemma {:induction false} ShiftMonotone(m: int, n: int, k: nat)
    requires m <= n
    ensures Shift(m, k) <= Shift(n, k)
    decreases k
  {
    if k > 0 { ShiftMonotone(m / 2, n / 2, k - 1); }
  }
}
