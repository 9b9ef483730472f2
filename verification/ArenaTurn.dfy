/** In what order chunks are purged, and when that ends (arena.c, arena_purge). */
module ArenaTurn {
  import opened Wrappers
  import opened PageTiles
  import opened ArenaState
  import opened ArenaDirty
  import opened ArenaList
  import opened ArenaCoalesce
  import opened ArenaPurge

  /** Only the runs of chunk `c` have changed.  The spare chunk may have gone back
      to the system, and what is gone or in `off` has left the list. */
  ghost predicate OnlyChunk(s: State, s': State, c: int, off: set<int>) {
    && c in s.tiles && c in s'.tiles && s'.tiles.Keys <= s.tiles.Keys
    && (forall d :: d in s'.tiles && d != c ==> s'.tiles[d] == s.tiles[d])
    && (forall d :: d in s.tiles && d !in s'.tiles ==> s.spare == Some(d))
    && (s'.spare == None || s'.spare == s.spare || s'.spare == Some(c))
    && s'.chunksDirty == Kept(s.chunksDirty, s.tiles.Keys - s'.tiles.Keys + off)
  }

  lemma FreedOnly(s: State, s': State, c: int, i: int)
    requires AllocRun(s, c, i) && Freed(s, s', c, i, false) && Relisted(s, s', c, false)
    ensures OnlyChunk(s, s', c, {})
  {
    assert s.tiles.Keys - s'.tiles.Keys + {} == s.tiles.Keys - s'.tiles.Keys;
  }

  lemma OnlyTwice(s: State, s1: State, s2: State, c: int, off1: set<int>, off2: set<int>)
    requires OnlyChunk(s, s1, c, off1) && OnlyChunk(s1, s2, c, off2)
    ensures OnlyChunk(s, s2, c, off1 + off2)
  {
    var a, b := s.tiles.Keys - s1.tiles.Keys + off1, s1.tiles.Keys - s2.tiles.Keys + off2;
    KeptTwice(s.chunksDirty, a, b);
    assert a + b == s.tiles.Keys - s2.tiles.Keys + (off1 + off2);
  }

  lemma OnlyThen(s: State, s1: State, s2: State, c: int, off: set<int>)
    requires OnlyChunk(s, s1, c, off) && OnlyChunk(s1, s2, c, {})
    ensures OnlyChunk(s, s2, c, off)
  {
    OnlyTwice(s, s1, s2, c, off, {});
    assert off + {} == off;
  }

  /** The chunk is not the spare any more, or its page map was rewritten. */
  lemma OnlyRewritten(s: State, s': State, c: int)
    requires c in s.tiles && c in s'.tiles && s'.tiles == s.tiles[c := s'.tiles[c]] && s'.chunksDirty == s.chunksDirty
    requires s'.spare == None || s'.spare == s.spare
    ensures OnlyChunk(s, s', c, {})
  {
    assert s.tiles.Keys - s'.tiles.Keys + {} == {};
    KeptAll(s.chunksDirty, {});
  }

  lemma OnlyCleared(s: State, s1: State, s2: State, c: int)
    requires NoDup(s.chunksDirty) && s1.chunksDirty == s.chunksDirty && s1.spare == s.spare && c in s1.chunks && ClearStep(s1, s2, c)
    requires c in s.tiles && c in s1.tiles && s1.tiles == s.tiles[c := s1.tiles[c]]
    ensures OnlyChunk(s, s2, c, {c})
  {
    assert s.tiles.Keys - s2.tiles.Keys + {c} == {c};
    WithoutKept(s.chunksDirty, c);
  }

  // ----- several chunks in turn -----

  /** The chunk had dirty free pages, and what was in front of it on the list is
      not there any more. */
  ghost predicate HadTurn(s: State, s': State, c: int, gone: set<int>) {
    && c in s.chunks && s.chunks[c].ndirty > 0 && c in s.chunksDirty && Front(s.chunksDirty, c) <= gone && c in gone
    && (c in s'.tiles ==> Count(s'.tiles[c], true) == 0)
  }

  /** Purged, without dirty pages anyhow, or given back to the system. */
  ghost predicate Passed(s: State, s': State, purged: seq<int>, d: int) {
    d in purged || (d in s.chunks && s.chunks[d].ndirty == 0) || (s.spare == Some(d) && d !in s'.tiles)
  }

  /** The chunks `purged`, and no others, were purged in the order of the list, each
      when those in front of it had been; all other chunks are as they were, but
      the spare may have gone back to the system. */
  ghost predicate InTurn(s: State, s': State, purged: seq<int>, gone: set<int>) {
    && s'.chunksDirty == Kept(s.chunksDirty, gone) && s'.tiles.Keys <= s.tiles.Keys
    && (forall d :: d in s'.tiles && d !in purged ==> s'.tiles[d] == s.tiles[d])
    && (forall d :: d in s.tiles && d !in s'.tiles ==> d in purged || s.spare == Some(d))
    && (s'.spare.Some? ==> s'.spare == s.spare || s'.spare.value in purged)
    && (forall c :: c in purged ==> HadTurn(s, s', c, gone))
    && (forall d :: d in gone ==> Passed(s, s', purged, d))
    && Ordered(s.chunksDirty, purged)
  }

  ghost predicate Ordered(l: seq<int>, purged: seq<int>) {
    forall a, b :: 0 <= a < b < |purged| ==> purged[a] != purged[b] && purged[b] !in Front(l, purged[a])
  }

  lemma NoTurn(s: State)
    ensures InTurn(s, s, [], {})
  {
    KeptAll(s.chunksDirty, {});
  }

  /** Chunks without dirty pages left the list. */
  ghost predicate Dropped(s: State, s': State, off: set<int>) {
    && s'.tiles == s.tiles && s'.spare == s.spare && s'.chunksDirty == Kept(s.chunksDirty, off)
    && (forall d :: d in off ==> d in s.chunks && s.chunks[d].ndirty == 0)
  }

  lemma DroppedNone(s: State)
    ensures Dropped(s, s, {})
  {
    KeptAll(s.chunksDirty, {});
  }

  lemma DroppedMore(s: State, s1: State, s2: State, off: set<int>, d: int)
    requires Dropped(s, s1, off) && Counted(s) && Counted(s1) && NoDup(s1.chunksDirty)
    requires d in s1.chunks && s1.chunks[d].ndirty == 0 && ClearStep(s1, s2, d)
    ensures Dropped(s, s2, off + {d})
  {
    WithoutKept(s1.chunksDirty, d);
    KeptTwice(s.chunksDirty, off, {d});
    assert d in s1.tiles.Keys;
  }

  lemma TurnDropped(s: State, s1: State, s2: State, purged: seq<int>, gone: set<int>, off: set<int>)
    requires InTurn(s, s1, purged, gone) && Dropped(s1, s2, off) && Counted(s) && Counted(s1)
    ensures InTurn(s, s2, purged, gone + off)
  {
    KeptTwice(s.chunksDirty, gone, off);
    forall d | d in gone + off ensures Passed(s, s2, purged, d) {
      if d in gone {
        assert Passed(s, s1, purged, d);
      } else if d !in purged {
        assert d in s1.tiles && d in s.tiles;
        assert s1.tiles[d] == s.tiles[d];
      }
    }
    forall c | c in purged ensures HadTurn(s, s2, c, gone + off) {
      assert HadTurn(s, s1, c, gone);
    }
  }

  lemma TurnNext(s: State, s1: State, s2: State, purged: seq<int>, gone: set<int>, c: int)
    requires InTurn(s, s1, purged, gone) && Counted(s) && Counted(s1) && Counted(s2) && OnlyChunk(s1, s2, c, {c})
    requires s1.chunksDirty != [] && s1.chunksDirty[0] == c && c in s1.chunks && s1.chunks[c].ndirty > 0
    requires c in s2.chunks && s2.chunks[c].ndirty == 0
    ensures c in s.chunks && s1.chunks[c].ndirty == s.chunks[c].ndirty && c !in purged
    ensures InTurn(s, s2, purged + [c], gone + (s1.tiles.Keys - s2.tiles.Keys + {c}))
  {
    var off := s1.tiles.Keys - s2.tiles.Keys + {c};
    var more := purged + [c];
    KeptTwice(s.chunksDirty, gone, off);
    KeptHead(s.chunksDirty, gone);
    assert c in s1.tiles && s1.tiles[c] == s.tiles[c];
    TurnPassed(s, s1, s2, purged, gone, c);
    forall d | d in more ensures HadTurn(s, s2, d, gone + off) {
      if d != c { assert HadTurn(s, s1, d, gone); }
    }
    forall a, b | 0 <= a < b < |more| ensures more[a] != more[b] && more[b] !in Front(s.chunksDirty, more[a]) {
      assert more[a] == purged[a];
      assert HadTurn(s, s1, purged[a], gone);
      if b < |purged| { assert more[b] == purged[b]; }
    }
  }

  lemma TurnPassed(s: State, s1: State, s2: State, purged: seq<int>, gone: set<int>, c: int)
    requires InTurn(s, s1, purged, gone) && OnlyChunk(s1, s2, c, {c})
    ensures forall d :: d in gone + (s1.tiles.Keys - s2.tiles.Keys + {c}) ==> Passed(s, s2, purged + [c], d)
  {
    forall d | d in gone + (s1.tiles.Keys - s2.tiles.Keys + {c}) ensures Passed(s, s2, purged + [c], d) {
      if d in gone {
        assert Passed(s, s1, purged, d);
      } else if d != c {
        assert s1.spare == Some(d);
      }
    }
  }

  /** The dirty pages of some chunks. */
  ghost function Amount(s: State, cs: seq<int>): int {
    if cs == [] then 0
    else Amount(s, cs[..|cs| - 1]) + if cs[|cs| - 1] in s.chunks then s.chunks[cs[|cs| - 1]].ndirty else 0
  }

  lemma AmountNext(s: State, cs: seq<int>, c: int)
    requires c in s.chunks
    ensures Amount(s, cs + [c]) == Amount(s, cs) + s.chunks[c].ndirty && (cs + [c])[..|cs|] == cs
  {
    assert (cs + [c])[..|cs|] == cs;
  }

  /** As many chunks were purged, in turn, as it takes to have no more than `target`
      of the dirty pages left, and not one more; or all that had any. */
  ghost predicate PurgedTo(s: State, s': State, purged: seq<int>, target: int) {
    && (exists gone :: InTurn(s, s', purged, gone))
    && (purged != [] ==> s.ndirty - Amount(s, purged[..|purged| - 1]) > target)
    && (s.ndirty - Amount(s, purged) <= target || s'.ndirty == 0)
  }

  /** What a purge still has to do, after some chunks. */
  ghost predicate StillToDo(s: State, purged: seq<int>, goal: int, target: int) {
    && goal == (if s.ndirty - Amount(s, purged) - target > 0 then s.ndirty - Amount(s, purged) - target else 0)
    && (purged != [] ==> s.ndirty - Amount(s, purged[..|purged| - 1]) > target)
  }

  lemma LessToDo(s: State, purged: seq<int>, more: seq<int>, goal: nat, rest: nat, target: int)
    requires StillToDo(s, purged, goal, target) && goal > 0
    requires more != [] && more[..|more| - 1] == purged && more[|more| - 1] in s.chunks
    requires var n := s.chunks[more[|more| - 1]].ndirty; rest == if n > goal then 0 else goal - n
    ensures StillToDo(s, more, rest, target)
  {
    AmountNext(s, purged, more[|more| - 1]);
    assert more == purged + [more[|more| - 1]];
  }

  lemma PurgedEnough(s: State, s': State, purged: seq<int>, gone: set<int>, target: int)
    requires InTurn(s, s', purged, gone) && StillToDo(s, purged, 0, target)
    ensures PurgedTo(s, s', purged, target)
  {
  }

  lemma PurgedAll(s: State, s': State, purged: seq<int>, gone: set<int>, goal: int, target: int)
    requires InTurn(s, s', purged, gone) && StillToDo(s, purged, goal, target) && s'.ndirty == 0
    ensures PurgedTo(s, s', purged, target)
  {
  }
}
