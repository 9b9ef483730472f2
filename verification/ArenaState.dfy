/** What it means that the parts of an arena's page-run layer agree (arena.c):
    the page maps, the two trees of free runs, the list of dirtied chunks, the
    spare chunk, and the page counters.

    A tree of free runs is the set of its elements; looking up the lowest best
    fit is what the nsearch of a red-black tree returns. */
module ArenaState {
  import opened Wrappers
  import opened PageTiles
  import opened ArenaTotals

  /** An element of runs_avail_clean or runs_avail_dirty: length, chunk, page. */
  datatype Run = Run(n: nat, c: int, i: int)

  /** Chunk header.  `dirtied` says that the chunk is on the chunks_dirty list. */
  datatype Chunk = Chunk(pages: seq<Entry>, ndirty: int, dirtied: bool)

  /** A snapshot of an arena; `tiles` holds the runs that each page map encodes,
      `pend` the free run that is not in its tree at the moment, if any. */
  datatype State = State(
    npages: nat,
    chunks: map<int, Chunk>,
    chunksDirty: seq<int>,
    spare: Option<int>,
    nactive: int,
    ndirty: int,
    clean: set<Run>,
    dirty: set<Run>,
    smallPages: map<(int, int), nat>,
    tiles: map<int, seq<Tile>>)

  /** The order of arena_avail_comp: by size, then by address. */
  predicate Before(a: Run, b: Run) {
    a.n < b.n || (a.n == b.n && (a.c < b.c || (a.c == b.c && a.i < b.i)))
  }

  ghost predicate WholeFree(ts: seq<Tile>) {
    |ts| == 1 && ts[0].kind == Free
  }

  ghost predicate NoDup(s: seq<int>) {
    forall i, j :: 0 <= i < j < |s| ==> s[i] != s[j]
  }

  ghost predicate ChunkOk(ch: Chunk, ts: seq<Tile>, npages: nat) {
    |ch.pages| == npages && Encodes(ts, ch.pages)
  }

  /** A tree of free runs holds exactly the free runs, with one dirty flag, of
      the chunks in use. */
  ghost predicate AvailOk(avail: set<Run>, s: State, dirty: bool, pend: Option<(int, int)>) {
    forall r: Run :: r in avail <==> ShouldHold(r, s, dirty, pend)
  }

  ghost predicate ShouldHold(r: Run, s: State, dirty: bool, pend: Option<(int, int)>) {
    && r.c in s.tiles && s.spare != Some(r.c) && pend != Some((r.c, r.i))
    && At(s.tiles[r.c], r.i) == Some(Tile(Free, dirty, r.n))
  }

  /** Page maps and tilings. */
  ghost predicate MapsOk(s: State) {
    && s.npages >= 1
    && s.chunks.Keys == s.tiles.Keys
    && (forall c :: c in s.tiles ==> ChunkOk(s.chunks[c], s.tiles[c], s.npages))
  }

  ghost predicate TreesOk(s: State, pend: Option<(int, int)>) {
    AvailOk(s.clean, s, false, pend) && AvailOk(s.dirty, s, true, pend)
  }

  ghost predicate ListOk(s: State) {
    NoDup(s.chunksDirty) && forall c :: c in s.chunksDirty <==> c in s.chunks && s.chunks[c].dirtied
  }

  ghost predicate SpareOk(s: State) {
    s.spare.Some? ==> s.spare.value in s.tiles && WholeFree(s.tiles[s.spare.value])
  }

  /** The header of each small run names a bin with the run's length. */
  ghost predicate SmallOk(s: State) {
    forall c, i :: c in s.tiles ==> SmallAt(s, c, i)
  }

  ghost predicate SmallAt(s: State, c: int, i: int)
    requires c in s.tiles
  {
    At(s.tiles[c], i).Some? && At(s.tiles[c], i).value.kind == Small ==>
      (c, i) in s.smallPages && s.smallPages[(c, i)] == At(s.tiles[c], i).value.n
  }

  ghost predicate Agree(s: State, pend: Option<(int, int)>) {
    MapsOk(s) && TreesOk(s, pend) && ListOk(s) && SpareOk(s) && SmallOk(s)
  }

  /** The page counters are exact. */
  ghost predicate Counted(s: State) {
    && s.chunks.Keys == s.tiles.Keys
    && s.nactive == Total(s.tiles, false) && s.ndirty == Total(s.tiles, true)
    && (forall c :: c in s.tiles ==> s.chunks[c].ndirty == Count(s.tiles[c], true))
  }

  /** Every chunk with dirty free pages is on the list, but for `late`. */
  ghost predicate Listed(s: State, late: Option<int>) {
    forall c :: c in s.tiles && c in s.chunks && Count(s.tiles[c], true) > 0 && late != Some(c) ==> s.chunks[c].dirtied
  }

  /** Neighbouring free runs differ in their dirty flag, and a chunk without
      any allocated run is the spare. */
  ghost predicate Settled(s: State) {
    forall c :: c in s.tiles ==> Coalesced(s.tiles[c]) && (WholeFree(s.tiles[c]) ==> s.spare == Some(c))
  }

  /** The allocated run that starts at page `i` of chunk `c`, if any. */
  ghost function AllocAt(s: State, c: int, i: int): Option<Tile> {
    if c in s.tiles && At(s.tiles[c], i).Some? && At(s.tiles[c], i).value.kind != Free then At(s.tiles[c], i) else None
  }

  ghost predicate FreeRun(s: State, c: int, i: int) {
    c in s.tiles && At(s.tiles[c], i).Some? && At(s.tiles[c], i).value.kind == Free
  }

  // ----- trees in order -----

  /** The entries that the order of a tree looks at are those its elements were
      inserted with, so the tree is still in order. */
  ghost predicate Ordered(avail: set<Run>, chunks: map<int, Chunk>, dirty: bool) {
    forall r: Run :: r in avail ==> OrderedAt(r, chunks, dirty)
  }

  ghost predicate OrderedAt(r: Run, chunks: map<int, Chunk>, dirty: bool) {
    && r.c in chunks && 0 <= r.i < |chunks[r.c].pages|
    && chunks[r.c].pages[r.i].num == r.n && chunks[r.c].pages[r.i].dirty == dirty
  }

  ghost predicate InOrder(s: State) {
    Ordered(s.clean, s.chunks, false) && Ordered(s.dirty, s.chunks, true)
  }

  lemma AgreeInOrder(s: State, pend: Option<(int, int)>)
    requires Agree(s, pend)
    ensures InOrder(s)
  {
    forall r: Run | r in s.clean ensures OrderedAt(r, s.chunks, false) {
      assert ShouldHold(r, s, false, pend);
      StartEntry(s.tiles[r.c], s.chunks[r.c].pages, r.i);
    }
    forall r: Run | r in s.dirty ensures OrderedAt(r, s.chunks, true) {
      assert ShouldHold(r, s, true, pend);
      StartEntry(s.tiles[r.c], s.chunks[r.c].pages, r.i);
    }
  }

  /** Entries may change where no element of a tree starts. */
  lemma OrderedElsewhere(avail: set<Run>, chunks: map<int, Chunk>, dirty: bool, c: int, ch: Chunk, i: int, j: int)
    requires Ordered(avail, chunks, dirty) && c in chunks && SameOutside(chunks[c].pages, ch.pages, i, j)
    requires forall r: Run :: r in avail && r.c == c ==> r.i < i || r.i >= j
    ensures Ordered(avail, chunks[c := ch], dirty)
  {
    forall r: Run | r in avail ensures OrderedAt(r, chunks[c := ch], dirty) {
      assert OrderedAt(r, chunks, dirty);
    }
  }

  /** The elements of the trees start outside any other run. */
  lemma TreesElsewhere(s: State, pend: Option<(int, int)>, c: int, i: int)
    requires Agree(s, pend) && c in s.tiles && At(s.tiles[c], i).Some?
    ensures forall r: Run :: r in s.clean + s.dirty && r.c == c && r.i != i ==> r.i < i || r.i >= i + At(s.tiles[c], i).value.n
  {
    StartEntry(s.tiles[c], s.chunks[c].pages, i);
    forall r: Run | r in s.clean + s.dirty && r.c == c && r.i != i ensures r.i < i || r.i >= i + At(s.tiles[c], i).value.n {
      assert ShouldHold(r, s, false, pend) || ShouldHold(r, s, true, pend);
      Elsewhere(s.tiles[c], i, r.i);
    }
  }

  // ----- changing the runs of one chunk -----

  /** Whether the tree must hold a run with these data once chunk `c` has the
      new run `u` at page `i` and `v` at page `j`. */
  ghost predicate HoldsAfter(r: Run, avail: set<Run>, dirty: bool, pend: Option<(int, int)>, c: int, i: int, u: Option<Tile>, j: int, v: Option<Tile>) {
    if r.c == c && r.i == i then u == Some(Tile(Free, dirty, r.n)) && pend != Some((c, i))
    else if r.c == c && r.i == j then v == Some(Tile(Free, dirty, r.n)) && pend != Some((c, j))
    else r in avail
  }

  lemma AvailRetiled(s: State, s': State, avail: set<Run>, avail': set<Run>, dirty: bool, pend: Option<(int, int)>, pend': Option<(int, int)>,
                     c: int, i: int, u: Option<Tile>, j: int, v: Option<Tile>)
    requires AvailOk(avail, s, dirty, pend)
    requires c in s.tiles && s.spare != Some(c) && s'.spare == s.spare
    requires c in s'.tiles && s'.tiles == s.tiles[c := s'.tiles[c]] && Differs(s.tiles[c], s'.tiles[c], i, u, j, v)
    requires pend == pend' || ((pend == None || pend.value == (c, i) || pend.value == (c, j)) && (pend' == None || pend'.value == (c, i) || pend'.value == (c, j)))
    requires forall r: Run :: r in avail' <==> HoldsAfter(r, avail, dirty, pend', c, i, u, j, v)
    ensures AvailOk(avail', s', dirty, pend')
  {
    forall r: Run ensures r in avail' <==> ShouldHold(r, s', dirty, pend') {
      assert r in avail <==> ShouldHold(r, s, dirty, pend);
    }
  }

  /** One chunk gets new runs; trees, headers and list have followed suit. */
  lemma Retiled(s: State, s': State, pend: Option<(int, int)>, pend': Option<(int, int)>,
                c: int, i: int, u: Option<Tile>, j: int, v: Option<Tile>)
    requires Agree(s, pend) && c in s.tiles && s.spare != Some(c)
    requires c in s'.tiles && c in s'.chunks && ChunkOk(s'.chunks[c], s'.tiles[c], s.npages)
    requires s'.tiles == s.tiles[c := s'.tiles[c]] && s'.chunks == s.chunks[c := s'.chunks[c]]
    requires s'.npages == s.npages && s'.spare == s.spare
    requires s'.chunksDirty == s.chunksDirty && s'.chunks[c].dirtied == s.chunks[c].dirtied
    requires Differs(s.tiles[c], s'.tiles[c], i, u, j, v)
    requires pend == pend' || ((pend == None || pend.value == (c, i) || pend.value == (c, j)) && (pend' == None || pend'.value == (c, i) || pend'.value == (c, j)))
    requires forall r: Run :: r in s'.clean <==> HoldsAfter(r, s.clean, false, pend', c, i, u, j, v)
    requires forall r: Run :: r in s'.dirty <==> HoldsAfter(r, s.dirty, true, pend', c, i, u, j, v)
    requires s'.smallPages == s.smallPages || (u.Some? && s'.smallPages == s.smallPages[(c, i) := u.value.n])
    requires u.Some? && u.value.kind == Small ==> (c, i) in s'.smallPages && s'.smallPages[(c, i)] == u.value.n
    requires v.Some? && v.value.kind == Small ==> false
    ensures Agree(s', pend')
  {
    AvailRetiled(s, s', s.clean, s'.clean, false, pend, pend', c, i, u, j, v);
    AvailRetiled(s, s', s.dirty, s'.dirty, true, pend, pend', c, i, u, j, v);
    forall d, k | d in s'.tiles ensures SmallAt(s', d, k) {
      assert SmallAt(s, d, k);
    }
  }

  /** The counters follow the runs of the one chunk that changed. */
  lemma Recounted(s: State, s': State, c: int)
    requires Counted(s) && c in s.tiles && c in s'.tiles && c in s'.chunks
    requires s'.tiles == s.tiles[c := s'.tiles[c]] && s'.chunks == s.chunks[c := s'.chunks[c]]
    requires s'.nactive - s.nactive == Count(s'.tiles[c], false) - Count(s.tiles[c], false)
    requires s'.ndirty - s.ndirty == Count(s'.tiles[c], true) - Count(s.tiles[c], true)
    requires s'.chunks[c].ndirty == Count(s'.tiles[c], true)
    ensures Counted(s')
  {
    TotalSet(s.tiles, c, s'.tiles[c], false);
    TotalSet(s.tiles, c, s'.tiles[c], true);
  }

  /** The state after a split (arena_run_split), from the parts it touches. */
  ghost predicate SplitStep(s: State, s': State, c: int, i: int, need: nat, kind: Kind)
    requires FreeRun(s, c, i) && 1 <= need <= At(s.tiles[c], i).value.n && c in s.chunks
  {
    var t := At(s.tiles[c], i).value;
    var gone, rest := Run(t.n, c, i), if need < t.n then {Run(t.n - need, c, i + need)} else {};
    && s'.npages == s.npages && s'.spare == s.spare && s'.chunksDirty == s.chunksDirty
    && c in s'.chunks && s'.chunks == s.chunks[c := s'.chunks[c]]
    && s'.chunks[c].ndirty == s.chunks[c].ndirty - (if t.dirty then need else 0)
    && s'.chunks[c].dirtied == s.chunks[c].dirtied
    && s'.nactive == s.nactive + need
    && s'.ndirty == s.ndirty - (if t.dirty then need else 0)
    && s'.dirty == (if t.dirty then s.dirty - {gone} + rest else s.dirty)
    && s'.clean == (if t.dirty then s.clean else s.clean - {gone} + rest)
    && s'.smallPages == (if kind == Small then s.smallPages[(c, i) := need] else s.smallPages)
    && s'.tiles == s.tiles[c := Subst(s.tiles[c], i, SplitTiles(kind, t.dirty, need, t.n))]
  }

  lemma SplitAgrees(s: State, s': State, c: int, i: int, need: nat, kind: Kind)
    requires Agree(s, None) && FreeRun(s, c, i) && s.spare != Some(c) && kind != Free
    requires 1 <= need <= At(s.tiles[c], i).value.n && SplitStep(s, s', c, i, need, kind)
    requires ChunkOk(s'.chunks[c], s'.tiles[c], s.npages)
    ensures Agree(s', None)
  {
    var t := At(s.tiles[c], i).value;
    StartEntry(s.tiles[c], s.chunks[c].pages, i);
    if need < t.n {
      SplitAgreesTwo(s, s', c, i, need, kind, t);
    } else {
      SplitAgreesOne(s, s', c, i, kind, t);
    }
  }

  lemma SplitAgreesTwo(s: State, s': State, c: int, i: int, need: nat, kind: Kind, t: Tile)
    requires Agree(s, None) && FreeRun(s, c, i) && s.spare != Some(c) && kind != Free && At(s.tiles[c], i) == Some(t)
    requires Positive(s.tiles[c]) && 1 <= need < t.n && SplitStep(s, s', c, i, need, kind)
    requires ChunkOk(s'.chunks[c], s'.tiles[c], s.npages)
    ensures Agree(s', None)
  {
    TwoStarts(s.tiles[c], i, t, kind, need, s'.tiles[c]);
    Retiled(s, s', None, None, c, i, Some(Tile(kind, t.dirty, need)), i + need, Some(Tile(Free, t.dirty, t.n - need)));
  }

  lemma SplitAgreesOne(s: State, s': State, c: int, i: int, kind: Kind, t: Tile)
    requires Agree(s, None) && FreeRun(s, c, i) && s.spare != Some(c) && kind != Free && At(s.tiles[c], i) == Some(t)
    requires Positive(s.tiles[c]) && 1 <= t.n && SplitStep(s, s', c, i, t.n, kind)
    requires ChunkOk(s'.chunks[c], s'.tiles[c], s.npages)
    ensures Agree(s', None)
  {
    OneStart(s.tiles[c], i, t, kind, s'.tiles[c]);
    Retiled(s, s', None, None, c, i, Some(Tile(kind, t.dirty, t.n)), i, None);
  }

  lemma SplitCounted(s: State, s': State, c: int, i: int, need: nat, kind: Kind)
    requires Counted(s) && Listed(s, None) && FreeRun(s, c, i) && kind != Free
    requires 1 <= need <= At(s.tiles[c], i).value.n && SplitStep(s, s', c, i, need, kind)
    ensures Counted(s') && Listed(s', None)
  {
    SplitCounts(s.tiles[c], i, kind, need);
    Recounted(s, s', c);
  }

  // ----- giving a run back -----

  ghost predicate AllocRun(s: State, c: int, i: int) {
    c in s.tiles && At(s.tiles[c], i).Some? && At(s.tiles[c], i).value.kind != Free
  }

  /** An allocated run becomes free, but is not in a tree yet. */
  ghost predicate FreeStep(s: State, s': State, c: int, i: int, dirty: bool)
    requires AllocRun(s, c, i) && c in s.chunks
  {
    var n := At(s.tiles[c], i).value.n;
    && s'.npages == s.npages && s'.spare == s.spare && s'.chunksDirty == s.chunksDirty
    && s'.clean == s.clean && s'.dirty == s.dirty && s'.smallPages == s.smallPages
    && c in s'.chunks && s'.chunks == s.chunks[c := s'.chunks[c]]
    && s'.chunks[c].ndirty == s.chunks[c].ndirty + (if dirty then n else 0)
    && s'.chunks[c].dirtied == s.chunks[c].dirtied
    && s'.nactive == s.nactive - n
    && s'.ndirty == s.ndirty + (if dirty then n else 0)
    && s'.tiles == s.tiles[c := Subst(s.tiles[c], i, [Tile(Free, dirty, n)])]
  }

  lemma FreeAgrees(s: State, s': State, c: int, i: int, dirty: bool)
    requires Agree(s, None) && AllocRun(s, c, i) && s.spare != Some(c) && FreeStep(s, s', c, i, dirty)
    requires ChunkOk(s'.chunks[c], s'.tiles[c], s.npages)
    ensures Agree(s', Some((c, i)))
  {
    var t := At(s.tiles[c], i).value;
    var u := Tile(Free, dirty, t.n);
    StartEntry(s.tiles[c], s.chunks[c].pages, i);
    SubstOne(s.tiles[c], i, u);
    assert Differs(s.tiles[c], s'.tiles[c], i, Some(u), i, None);
    forall r: Run | r.c == c && r.i == i ensures r !in s.clean && r !in s.dirty {
      assert !ShouldHold(r, s, false, None) && !ShouldHold(r, s, true, None);
    }
    Retiled(s, s', None, Some((c, i)), c, i, Some(u), i, None);
  }

  lemma FreeCounted(s: State, s': State, c: int, i: int, dirty: bool)
    requires Counted(s) && Listed(s, None) && AllocRun(s, c, i) && FreeStep(s, s', c, i, dirty)
    ensures Counted(s') && Listed(s', if dirty then Some(c) else None)
  {
    var t := At(s.tiles[c], i).value;
    var u := Tile(Free, dirty, t.n);
    CountSubst(s.tiles[c], i, [u], false);
    CountSubst(s.tiles[c], i, [u], true);
    CountOne(t);
    CountOne(u);
    Recounted(s, s', c);
  }

  /** Two neighbouring free runs become one, in the map, in the tiling, and
      with the second one taken out of its tree. */
  ghost predicate MergeStep(s: State, s': State, c: int, a: seq<Tile>, t: Tile, u: Tile, b: seq<Tile>, gone: Run)
    requires c in s.tiles && c in s.chunks
  {
    && s.tiles[c] == a + [t, u] + b && Mergeable(t, u)
    && s'.npages == s.npages && s'.spare == s.spare && s'.chunksDirty == s.chunksDirty
    && s'.nactive == s.nactive && s'.ndirty == s.ndirty && s'.smallPages == s.smallPages
    && c in s'.chunks && s'.chunks == s.chunks[c := s'.chunks[c]]
    && s'.chunks[c].ndirty == s.chunks[c].ndirty && s'.chunks[c].dirtied == s.chunks[c].dirtied
    && s'.dirty == (if t.dirty then s.dirty - {gone} else s.dirty)
    && s'.clean == (if t.dirty then s.clean else s.clean - {gone})
    && s'.tiles == s.tiles[c := a + [Tile(Free, t.dirty, t.n + u.n)] + b]
  }

  lemma MergedDiffers(s: State, s': State, c: int, a: seq<Tile>, t: Tile, u: Tile, b: seq<Tile>, v: Tile, i: int)
    requires MapsOk(s) && c in s.tiles && c in s.chunks && c in s'.tiles && s.tiles[c] == a + [t, u] + b && s'.tiles[c] == a + [v] + b
    requires v.n == t.n + u.n && i == Pages(a)
    ensures At(s.tiles[c], i) == Some(t) && At(s.tiles[c], i + t.n) == Some(u) && u.n >= 1
    ensures Differs(s.tiles[c], s'.tiles[c], i, Some(v), i + t.n, None)
  {
    EncodesLengths(s.tiles[c], s.chunks[c].pages, 0);
    PairParts(a, t, u, b);
    MergedAt(a, t, u, b, v);
  }

  /** Merging keeps the agreement; the pending run is one of the two before,
      and the merged one after. */
  lemma MergeAgrees(s: State, s': State, c: int, a: seq<Tile>, t: Tile, u: Tile, b: seq<Tile>, first: bool, i: int)
    requires c in s.tiles && c in s.chunks && i == Pages(a)
    requires Agree(s, Some((c, if first then i else i + t.n))) && s.spare != Some(c)
    requires MergeStep(s, s', c, a, t, u, b, if first then Run(u.n, c, i + t.n) else Run(t.n, c, i))
    requires ChunkOk(s'.chunks[c], s'.tiles[c], s.npages)
    ensures Agree(s', Some((c, i)))
  {
    if first {
      MergeFirst(s, s', c, a, t, u, b, i);
    } else {
      MergeSecond(s, s', c, a, t, u, b, i);
    }
  }

  lemma MergeFirst(s: State, s': State, c: int, a: seq<Tile>, t: Tile, u: Tile, b: seq<Tile>, i: int)
    requires c in s.tiles && c in s.chunks && i == Pages(a) && Agree(s, Some((c, i))) && s.spare != Some(c)
    requires MergeStep(s, s', c, a, t, u, b, Run(u.n, c, i + t.n)) && ChunkOk(s'.chunks[c], s'.tiles[c], s.npages)
    ensures Agree(s', Some((c, i)))
  {
    var v := Tile(Free, t.dirty, t.n + u.n);
    MergedDiffers(s, s', c, a, t, u, b, v, i);
    OnlyPending(s, c, i, Run(u.n, c, i + t.n));
    Retiled(s, s', Some((c, i)), Some((c, i)), c, i, Some(v), i + t.n, None);
  }

  lemma MergeSecond(s: State, s': State, c: int, a: seq<Tile>, t: Tile, u: Tile, b: seq<Tile>, i: int)
    requires c in s.tiles && c in s.chunks && i == Pages(a) && Agree(s, Some((c, i + t.n))) && s.spare != Some(c)
    requires MergeStep(s, s', c, a, t, u, b, Run(t.n, c, i)) && ChunkOk(s'.chunks[c], s'.tiles[c], s.npages)
    ensures Agree(s', Some((c, i)))
  {
    var v := Tile(Free, t.dirty, t.n + u.n);
    MergedDiffers(s, s', c, a, t, u, b, v, i);
    OnlyPending(s, c, i + t.n, Run(t.n, c, i));
    Retiled(s, s', Some((c, i + t.n)), Some((c, i)), c, i, Some(v), i + t.n, None);
  }

  /** Of two runs, one of which is pending, the trees can only hold the other. */
  lemma OnlyPending(s: State, c: int, i: int, other: Run)
    requires Agree(s, Some((c, i))) && other.c == c && c in s.tiles && At(s.tiles[c], other.i).Some? && At(s.tiles[c], other.i).value.n == other.n
    ensures forall r: Run :: r.c == c && (r.i == i || r.i == other.i) && (r in s.clean || r in s.dirty) ==> r == other
  {
    forall r: Run | r.c == c && (r.i == i || r.i == other.i) && (r in s.clean || r in s.dirty) ensures r == other {
      assert ShouldHold(r, s, false, Some((c, i))) || ShouldHold(r, s, true, Some((c, i)));
    }
  }

  lemma PairParts(a: seq<Tile>, t: Tile, u: Tile, b: seq<Tile>)
    requires Positive(a + [t, u] + b)
    ensures Positive(a) && Positive(b) && t.n >= 1 && u.n >= 1
  {
    var ts := a + [t, u] + b;
    assert forall k :: 0 <= k < |a| ==> a[k] == ts[k];
    assert forall k :: 0 <= k < |b| ==> b[k] == ts[|a| + 2 + k];
    assert ts[|a|] == t && ts[|a| + 1] == u;
  }

  lemma MergeCounted(s: State, s': State, c: int, a: seq<Tile>, t: Tile, u: Tile, b: seq<Tile>, gone: Run, late: Option<int>)
    requires c in s.tiles && c in s.chunks && Counted(s) && Listed(s, late) && MergeStep(s, s', c, a, t, u, b, gone)
    ensures Counted(s') && Listed(s', late)
  {
    var v := Tile(Free, t.dirty, t.n + u.n);
    forall w ensures Count(a + [v] + b, w) == Count(a + [t, u] + b, w) {
      CountAppend(a + [v], b, w);
      CountAppend(a, [v], w);
      CountAppend(a + [t, u], b, w);
      CountAppend(a, [t, u], w);
      CountOne(v);
      CountOne(t);
      CountOne(u);
      CountTwo(t, u);
    }
    Recounted(s, s', c);
  }
}
