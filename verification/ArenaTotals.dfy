/** Page counts summed over all chunks of an arena. */
module ArenaTotals {
  import opened PageTiles

  ghost function AnyOf<T>(s: set<T>): (c: T)
    requires s != {}
    ensures c in s
  {
    var c :| c in s; c
  }

  /** Allocated pages, or dirty free pages, over all chunks. */
  ghost function Total(tiles: map<int, seq<Tile>>, dirtyFree: bool): nat
    decreases |tiles|
  {
    if tiles.Keys == {} then 0
    else var c := AnyOf(tiles.Keys); Count(tiles[c], dirtyFree) + Total(tiles - {c}, dirtyFree)
  }

  /** Any chunk may be counted first. */
  lemma {:induction false} TotalAt(tiles: map<int, seq<Tile>>, c: int, what: bool)
    requires c in tiles
    ensures Total(tiles, what) == Count(tiles[c], what) + Total(tiles - {c}, what)
    decreases |tiles|
  {
    var d := AnyOf(tiles.Keys);
    if c != d {
      TotalAt(tiles - {d}, c, what);
      TotalAt(tiles - {c}, d, what);
      assert tiles - {c} - {d} == tiles - {d} - {c};
    }
  }

  lemma TotalSet(tiles: map<int, seq<Tile>>, c: int, ts: seq<Tile>, what: bool)
    ensures Total(tiles[c := ts], what) == Total(tiles, what) - (if c in tiles then Count(tiles[c], what) else 0) + Count(ts, what)
  {
    var u := tiles[c := ts];
    TotalAt(u, c, what);
    assert u - {c} == tiles - {c};
    if c in tiles {
      TotalAt(tiles, c, what);
    } else {
      assert tiles - {c} == tiles;
    }
  }

  lemma {:induction false} TotalZero(tiles: map<int, seq<Tile>>, what: bool)
    requires forall c :: c in tiles ==> Count(tiles[c], what) == 0
    ensures Total(tiles, what) == 0
    decreases |tiles|
  {
    if tiles.Keys != {} {
      var c := AnyOf(tiles.Keys);
      TotalAt(tiles, c, what);
      TotalZero(tiles - {c}, what);
    }
  }
}
