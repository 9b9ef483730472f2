/** Thread caches (tcache.c, tcache.h): a stack of objects for each bin, and the
    flush that gives the lowest ones back to the arenas they came from. */
module ThreadCache {
  import opened Wrappers
  import opened PowersOfTwo

  /** The objects that came from arena `a`, in order; and the others. */
  function Of<P>(s: seq<P>, arenaOf: P -> int, a: int): (r: seq<P>)
    ensures |r| <= |s|
  {
    if s == [] then [] else if arenaOf(s[|s| - 1]) == a then Of(s[..|s| - 1], arenaOf, a) + [s[|s| - 1]] else Of(s[..|s| - 1], arenaOf, a)
  }

  function NotOf<P>(s: seq<P>, arenaOf: P -> int, a: int): (r: seq<P>)
    ensures |r| <= |s|
  {
    if s == [] then [] else if arenaOf(s[|s| - 1]) != a then NotOf(s[..|s| - 1], arenaOf, a) + [s[|s| - 1]] else NotOf(s[..|s| - 1], arenaOf, a)
  }

  lemma OneFurther<P>(s: seq<P>, i: nat, arenaOf: P -> int, a: int)
    requires i < |s|
    ensures Of(s[..i + 1], arenaOf, a) == Of(s[..i], arenaOf, a) + if arenaOf(s[i]) == a then [s[i]] else []
    ensures NotOf(s[..i + 1], arenaOf, a) == NotOf(s[..i], arenaOf, a) + if arenaOf(s[i]) == a then [] else [s[i]]
  {
    assert s[..i + 1][..i] == s[..i];
  }

  lemma {:induction false} FirstIsOf<P>(s: seq<P>, arenaOf: P -> int)
    requires s != []
    ensures |NotOf(s, arenaOf, arenaOf(s[0]))| < |s|
  {
    var a := arenaOf(s[0]);
    if |s| > 1 {
      assert s[..|s| - 1][0] == s[0];
      FirstIsOf(s[..|s| - 1], arenaOf);
    } else {
      assert s[..|s| - 1] == [];
    }
  }

  /** The order in which a flush frees objects: those of the first one's arena,
      then those of the arena of the first one left, and so on. */
  function FlushOrder<P>(s: seq<P>, arenaOf: P -> int): seq<P>
    decreases |s|
  {
    if s == [] then []
    else
      var a := arenaOf(s[0]);
      FirstIsOf(s, arenaOf);
      Of(s, arenaOf, a) + FlushOrder(NotOf(s, arenaOf, a), arenaOf)
  }

  lemma FlushNext<P>(done: seq<P>, s: seq<P>, arenaOf: P -> int)
    requires s != []
    ensures var a := arenaOf(s[0]);
            done + FlushOrder(s, arenaOf) == done + Of(s, arenaOf, a) + FlushOrder(NotOf(s, arenaOf, a), arenaOf)
  {
  }

  lemma {:induction false} Parts<P>(s: seq<P>, arenaOf: P -> int, a: int)
    ensures multiset(Of(s, arenaOf, a)) + multiset(NotOf(s, arenaOf, a)) == multiset(s)
  {
    if s != [] {
      var k := |s| - 1;
      Parts(s[..k], arenaOf, a);
      assert s == s[..k] + [s[k]];
    }
  }

  /** Every object is freed exactly once. */
  lemma {:induction false} FlushAll<P>(s: seq<P>, arenaOf: P -> int)
    ensures multiset(FlushOrder(s, arenaOf)) == multiset(s)
    decreases |s|
  {
    if s != [] {
      var a := arenaOf(s[0]);
      FirstIsOf(s, arenaOf);
      Parts(s, arenaOf, a);
      FlushAll(NotOf(s, arenaOf, a), arenaOf);
    }
  }

  function Min(a: int, b: int): int {
    if a < b then a else b
  }

  /** The least of the levels seen. */
  function Least(levels: seq<int>): int
    requires levels != []
  {
    if |levels| == 1 then levels[0] else Min(Least(levels[..|levels| - 1]), levels[|levels| - 1])
  }

  lemma LeastNext(levels: seq<int>, l: int)
    requires levels != []
    ensures Least(levels + [l]) == Min(Least(levels), l)
  {
    assert (levels + [l])[..|levels|] == levels;
  }

  /** One bin of a thread cache (tcache_bin_t). */
  class CacheBin<P(==,0)> {
    const arenaOf: P -> int
    const avail: array<P>
    var ncached: nat
    var lowWater: int
    var lgFillDiv: nat

    /** What was freed, to which arena, in order. */
    ghost var freed: seq<(int, P)>

    /** The numbers of cached objects since the last collection; -1 stands for an
        allocation that found none. */
    ghost var levels: seq<int>

    ghost predicate Valid()
      reads this
    {
      ncached <= avail.Length && levels != [] && -1 <= lowWater == Least(levels) && lowWater <= ncached && lgFillDiv >= 1
    }

    ghost function Cached(): seq<P>
      requires ncached <= avail.Length
      reads this, avail
    {
      avail[..ncached]
    }

    constructor (ncachedMax: nat, arenaOf: P -> int)
      ensures Valid() && fresh(avail) && avail.Length == ncachedMax && ncached == 0 && freed == [] && this.arenaOf == arenaOf
    {
      this.arenaOf := arenaOf;
      avail := new P[ncachedMax];
      ncached, lowWater, lgFillDiv, freed, levels := 0, 0, 1, [], [0];
    }

    /** tcache_alloc_easy: the object cached last. */
    method AllocEasy() returns (r: Option<P>)
      requires Valid()
      modifies this`ncached, this`lowWater, this`levels
      ensures Valid() && (r == None <==> old(ncached) == 0)
      ensures r.Some? ==> old(Cached()) == Cached() + [r.value]
      ensures r == None ==> ncached == 0
      ensures var level := if r == None then -1 else ncached;
              levels == old(levels) + [level] && lowWater == Min(old(lowWater), level)
    {
      if ncached == 0 {
        LeastNext(levels, -1);
        lowWater := -1;
        levels := levels + [-1];
        return None;
      }
      ncached := ncached - 1;
      LeastNext(levels, ncached);
      if ncached < lowWater {
        lowWater := ncached;
      }
      levels := levels + [ncached];
      r := Some(avail[ncached]);
    }

    ghost function Freed(s: seq<P>): (r: seq<(int, P)>)
      ensures |r| == |s| && forall k :: 0 <= k < |s| ==> r[k] == (arenaOf(s[k]), s[k])
    {
      seq(|s|, k requires 0 <= k < |s| => (arenaOf(s[k]), s[k]))
    }

    /** One pass of a flush: the pending objects of the first one's arena are
        freed, the others move to the bottom of the stack. */
    method FlushPass(nflush: nat) returns (ndeferred: nat)
      requires 0 < nflush <= avail.Length
      modifies this`freed, avail
      ensures var s := old(avail[..nflush]); var a := arenaOf(s[0]);
              && ndeferred == |NotOf(s, arenaOf, a)| < nflush && avail[..ndeferred] == NotOf(s, arenaOf, a)
              && freed == old(freed) + Freed(Of(s, arenaOf, a))
      ensures forall k :: nflush <= k < avail.Length ==> avail[k] == old(avail[k])
    {
      ghost var s := avail[..nflush];
      var a := arenaOf(avail[0]);
      FirstIsOf(s, arenaOf);
      ndeferred := 0;
      var i := 0;
      assert Freed([]) == [];
      while i < nflush
        invariant 0 <= ndeferred <= i <= nflush
        invariant avail[..ndeferred] == NotOf(s[..i], arenaOf, a)
        invariant forall k :: i <= k < nflush ==> avail[k] == s[k]
        invariant forall k :: nflush <= k < avail.Length ==> avail[k] == old(avail[k])
        invariant freed == old(freed) + Freed(Of(s[..i], arenaOf, a))
      {
        var ptr := avail[i];
        assert ptr == s[i];
        OneFurther(s, i, arenaOf, a);
        if arenaOf(ptr) == a {
          freed := freed + [(a, ptr)];
          FreedOne(Of(s[..i], arenaOf, a), ptr);
        } else {
          ghost var kept := avail[..ndeferred];
          avail[ndeferred] := ptr;
          assert avail[..ndeferred + 1] == kept + [ptr];
          ndeferred := ndeferred + 1;
        }
        i := i + 1;
      }
      assert s[..nflush] == s;
    }

    lemma FreedOne(s: seq<P>, ptr: P)
      ensures Freed(s + [ptr]) == Freed(s) + [(arenaOf(ptr), ptr)]
    {
    }

    /** memmove of the top of the stack to its bottom. */
    method MoveDown(from: nat, n: nat)
      requires from + n <= avail.Length
      modifies avail
      ensures avail[..n] == old(avail[from..from + n])
    {
      var i := 0;
      while i < n
        invariant 0 <= i <= n
        invariant forall k :: 0 <= k < i ==> avail[k] == old(avail[from + k])
        invariant forall k :: i <= k < avail.Length ==> avail[k] == old(avail[k])
      {
        avail[i] := avail[from + i];
        i := i + 1;
      }
    }

    /** tcache_bin_flush_small and tcache_bin_flush_large: all but the top `rem`
        objects are freed, each once and to its own arena; those stay in order. */
    method Flush(rem: nat)
      requires Valid() && rem <= ncached
      modifies this`freed, this`ncached, this`lowWater, this`levels, avail
      ensures Valid() && ncached == rem && Cached() == old(Cached())[old(ncached) - rem..]
      ensures freed == old(freed) + Freed(FlushOrder(old(Cached())[..old(ncached) - rem], arenaOf))
      ensures levels == old(levels) + [rem] && lowWater == Min(old(lowWater), rem)
    {
      var n := ncached - rem;
      ghost var cached := Cached();
      assert cached[..n] == avail[..n];
      FlushPasses(n);
      assert avail[n..n + rem] == cached[n..];
      MoveDown(n, rem);
      ncached := rem;
      assert Cached() == cached[n..];
      LeastNext(levels, rem);
      if ncached < lowWater {
        lowWater := ncached;
      }
      levels := levels + [rem];
    }

    lemma FreedAppend(log: seq<(int, P)>, s: seq<P>, t: seq<P>)
      ensures log + Freed(s) + Freed(t) == log + Freed(s + t)
    {
      assert Freed(s + t) == Freed(s) + Freed(t);
    }

    /** The passes of a flush. */
    method FlushPasses(n: nat)
      requires n <= avail.Length
      modifies this`freed, avail
      ensures forall k :: n <= k < avail.Length ==> avail[k] == old(avail[k])
      ensures freed == old(freed) + Freed(FlushOrder(old(avail[..n]), arenaOf))
    {
      var nflush := n;
      ghost var pending := avail[..n];
      ghost var done: seq<P> := [];
      while nflush > 0
        invariant nflush == |pending| <= n && avail[..nflush] == pending
        invariant forall k :: n <= k < avail.Length ==> avail[k] == old(avail[k])
        invariant freed == old(freed) + Freed(done) && done + FlushOrder(pending, arenaOf) == FlushOrder(old(avail[..n]), arenaOf)
        decreases nflush
      {
        ghost var mine := Of(pending, arenaOf, arenaOf(pending[0]));
        nflush := FlushPass(nflush);
        FreedAppend(old(freed), done, mine);
        FlushNext(done, pending, arenaOf);
        pending := NotOf(pending, arenaOf, arenaOf(pending[0]));
        done := done + mine;
      }
      assert done + [] == done;
    }

    /** tcache_dalloc_small: the object is cached; a full stack is cut to half. */
    method Dalloc(ptr: P)
      requires Valid() && avail.Length >= 1
      modifies this`freed, this`ncached, this`lowWater, this`levels, avail
      ensures Valid() && ncached >= 1 && Cached()[ncached - 1] == ptr
      ensures old(ncached) < avail.Length ==> Cached() == old(Cached()) + [ptr] && freed == old(freed)
                                              && levels == old(levels) + [ncached] && lowWater == old(lowWater)
      ensures old(ncached) == avail.Length ==>
                var half := avail.Length / 2;
                && Cached() == old(Cached())[avail.Length - half..] + [ptr]
                && freed == old(freed) + Freed(FlushOrder(old(Cached())[..avail.Length - half], arenaOf))
                && levels == old(levels) + [half, ncached] && lowWater == Min(old(lowWater), half)
    {
      if ncached == avail.Length {
        Flush(avail.Length / 2);
      }
      avail[ncached] := ptr;
      ncached := ncached + 1;
      LeastNext(levels, ncached);
      levels := levels + [ncached];
    }

    /** The collection in tcache_event: three quarters, rounded up, of the objects
        that were never needed since the last one are freed. */
    method Collect()
      requires Valid()
      modifies this`freed, this`ncached, this`lowWater, this`lgFillDiv, this`levels, avail
      ensures Valid() && lowWater == ncached && levels == [ncached]
      ensures var low := old(lowWater);
              if low <= 0 then Cached() == old(Cached()) && freed == old(freed)
              else ncached == old(ncached) - (low - low / 4) && Cached() == old(Cached())[low - low / 4..]
                   && freed == old(freed) + Freed(FlushOrder(old(Cached())[..low - low / 4], arenaOf))
      ensures old(Shr(avail.Length, lgFillDiv)) >= 1 ==> Shr(avail.Length, lgFillDiv) >= 1
      ensures var low, lg := old(lowWater), old(lgFillDiv);
              && (low > 0 ==> lgFillDiv == if Pow2(lg + 1) <= avail.Length then lg + 1 else lg)
              && (low == 0 ==> lgFillDiv == lg)
              && (low < 0 ==> lgFillDiv == if lg > 1 then lg - 1 else lg)
    {
      ShrIs(avail.Length, lgFillDiv + 1);
      if lowWater > 0 {
        Flush(ncached - lowWater + lowWater / 4);
        if Shr(avail.Length, lgFillDiv + 1) >= 1 {
          lgFillDiv := lgFillDiv + 1;
        }
      } else if lowWater < 0 {
        if lgFillDiv > 1 {
          ShrGrows(avail.Length, lgFillDiv - 1);
          lgFillDiv := lgFillDiv - 1;
        }
      }
      lowWater := ncached;
      levels := [ncached];
    }

    /** How many objects a fill asks for: the capacity divided by a power of two. */
    function Wanted(): (nfill: nat)
      reads this`lgFillDiv
      ensures nfill <= avail.Length
    {
      ShrBelow(avail.Length, lgFillDiv);
      Shr(avail.Length, lgFillDiv)
    }

    lemma WantedIs()
      ensures Wanted() * Pow2(lgFillDiv) <= avail.Length < (Wanted() + 1) * Pow2(lgFillDiv)
    {
      ShrIs(avail.Length, lgFillDiv);
    }

    /** arena_tcache_fill_small: objects from the arena, the first one on top.  If
        memory runs out in between, `got` is shorter than what is asked for, and
        the slots at the bottom are left as they were. */
    method Fill(got: seq<P>) returns (nfill: nat)
      requires Valid() && ncached == 0 && |got| <= Wanted()
      modifies this`ncached, this`levels, avail
      ensures nfill == old(Wanted()) && Valid() && ncached == |got| <= nfill <= avail.Length
      ensures lowWater == old(lowWater) && levels == old(levels) + [|got|]
      ensures Cached() == Filled(old(avail[..]), got, nfill)
      ensures forall k :: 0 <= k < avail.Length ==> avail[k] == if nfill - |got| <= k < nfill then got[nfill - 1 - k] else old(avail[k])
    {
      nfill := Wanted();
      FillSlots(got, nfill);
    }

    method FillSlots(got: seq<P>, nfill: nat)
      requires Valid() && ncached == 0 && |got| <= nfill <= avail.Length
      modifies this`ncached, this`levels, avail
      ensures Valid() && ncached == |got| && lowWater == old(lowWater) && levels == old(levels) + [|got|]
      ensures Cached() == Filled(old(avail[..]), got, nfill)
      ensures forall k :: 0 <= k < avail.Length ==> avail[k] == if nfill - |got| <= k < nfill then got[nfill - 1 - k] else old(avail[k])
    {
      var i := 0;
      while i < |got|
        invariant 0 <= i <= |got| && Valid() && levels == old(levels) && lowWater == old(lowWater)
        invariant forall k :: 0 <= k < avail.Length ==> avail[k] == if nfill - i <= k < nfill then got[nfill - 1 - k] else old(avail[k])
      {
        avail[nfill - 1 - i] := got[i];
        i := i + 1;
      }
      ncached := i;
      LeastNext(levels, i);
      levels := levels + [i];
    }
  }

  // ----- what a fill caches -----

  /** The cached objects after a fill: the lowest slots up to the number of
      objects, of which the bottom ones may not have been written. */
  ghost function Filled<P>(was: seq<P>, got: seq<P>, nfill: nat): (r: seq<P>)
    requires |got| <= nfill <= |was|
    ensures |r| == |got|
  {
    seq(|got|, k requires 0 <= k < |got| => if k < nfill - |got| then was[k] else got[nfill - 1 - k])
  }

  ghost function Reverse<P>(s: seq<P>): (r: seq<P>)
    ensures |r| == |s| && forall k :: 0 <= k < |s| ==> r[k] == s[|s| - 1 - k]
    ensures multiset(r) == multiset(s)
  {
    if s == [] then []
    else
      assert s == [s[0]] + s[1..];
      Reverse(s[1..]) + [s[0]]
  }

  /** As many of the cached slots were not written. */
  function Unwritten(got: nat, nfill: nat): nat
    requires got <= nfill
  {
    if got <= nfill - got then got else nfill - got
  }

  /** The cache holds exactly the objects allocated if and only if the slots that
      were not written happen to hold those that ended up above the cached part. */
  lemma FillWhole<P>(was: seq<P>, got: seq<P>, nfill: nat)
    requires |got| <= nfill <= |was|
    ensures var m := Unwritten(|got|, nfill);
            multiset(Filled(was, got, nfill)) == multiset(got) <==> multiset(was[..m]) == multiset(got[..m])
  {
    var m := Unwritten(|got|, nfill);
    var a, b, c := was[..m], got[..m], got[m..];
    FillParts(was, got, nfill, m);
    assert got == b + c;
    assert multiset(got) == multiset(b) + multiset(c);
    Cancel(multiset(a), multiset(b), multiset(c));
  }

  lemma FillParts<P>(was: seq<P>, got: seq<P>, nfill: nat, m: nat)
    requires |got| <= nfill <= |was| && m == Unwritten(|got|, nfill)
    ensures multiset(Filled(was, got, nfill)) == multiset(was[..m]) + multiset(got[m..])
  {
    assert Filled(was, got, nfill) == was[..m] + Reverse(got[m..]);
  }

  lemma Cancel<T>(a: multiset<T>, b: multiset<T>, c: multiset<T>)
    ensures a + c == b + c <==> a == b
  {
    if a + c == b + c {
      forall x ensures a[x] == b[x] {
        assert (a + c)[x] == (b + c)[x];
      }
    }
  }

  /** So where the objects allocated are not those that lay in the slots before,
      this is so only if all that were wanted were allocated, or none; otherwise
      the first one is in no cached slot, and what lay in the lowest slot is. */
  lemma FillFresh<P>(was: seq<P>, got: seq<P>, nfill: nat)
    requires |got| <= nfill <= |was|
    requires forall j, k :: 0 <= j < k < |got| ==> got[j] != got[k]
    requires forall k :: 0 <= k < nfill ==> was[k] !in got
    ensures multiset(Filled(was, got, nfill)) == multiset(got) <==> |got| == nfill || got == []
    ensures 0 < |got| < nfill ==> got[0] !in Filled(was, got, nfill) && was[0] in Filled(was, got, nfill)
  {
    var m := Unwritten(|got|, nfill);
    FillWhole(was, got, nfill);
    if m > 0 {
      assert was[..m][0] == was[0] && was[0] in multiset(was[..m]);
      assert multiset(got[..m]) <= multiset(got) by { assert got == got[..m] + got[m..]; }
      FillPart(was, got, nfill);
    }
  }

  lemma FillPart<P>(was: seq<P>, got: seq<P>, nfill: nat)
    requires 0 < |got| < nfill <= |was|
    requires forall j, k :: 0 <= j < k < |got| ==> got[j] != got[k]
    requires forall k :: 0 <= k < nfill ==> was[k] !in got
    ensures got[0] !in Filled(was, got, nfill) && was[0] in Filled(was, got, nfill)
  {
    var r := Filled(was, got, nfill);
    assert r[0] == was[0];
    forall k | 0 <= k < |r| ensures r[k] != got[0] {
      if k >= nfill - |got| { assert r[k] == got[nfill - 1 - k] && nfill - 1 - k > 0; }
    }
  }

  /** A partial fill that is right by chance: the one object is what lay there. */
  lemma StaleButRight<P>(x: P, y: P)
    ensures multiset(Filled([x, y], [x], 2)) == multiset([x])
  {
    FillWhole([x, y], [x], 2);
  }

  lemma {:induction false} ShrBelow(n: nat, k: nat)
    ensures Shr(n, k) <= n
    decreases k
  {
    if k > 0 { ShrBelow(n / 2, k - 1); }
  }

  lemma {:induction false} ShrGrows(n: nat, k: nat)
    ensures Shr(n, k + 1) <= Shr(n, k)
  {
    if k > 0 { ShrGrows(n / 2, k - 1); }
  }
}
