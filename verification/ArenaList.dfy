/** The list of chunks that may have dirty pages (arena.c, chunks_dirty). */
module ArenaList {
  import opened ArenaState

  ghost function Without(l: seq<int>, c: int): (r: seq<int>)
    ensures |r| <= |l|
  {
    if l == [] then [] else if l[0] == c then l[1..] else [l[0]] + Without(l[1..], c)
  }

  /** Taking out the first occurrence, if there is one. */
  lemma {:induction false} WithoutAt(l: seq<int>, c: int, k: nat)
    requires k <= |l| && (forall j :: 0 <= j < k ==> l[j] != c) && (k < |l| ==> l[k] == c)
    ensures Without(l, c) == if k < |l| then l[..k] + l[k + 1..] else l
  {
    if k > 0 {
      var t := l[1..];
      forall j | 0 <= j < k - 1 ensures t[j] != c {
        assert t[j] == l[j + 1];
      }
      WithoutAt(t, c, k - 1);
      if k < |l| {
        assert t[..k - 1] == l[1..k] && t[k..] == l[k + 1..];
        assert l[..k] == [l[0]] + l[1..k];
      } else {
        assert l == [l[0]] + t;
      }
    }
  }

  lemma {:induction false} WithoutOk(l: seq<int>, c: int)
    requires NoDup(l)
    ensures NoDup(Without(l, c)) && (forall d :: d in Without(l, c) <==> d in l && d != c)
    ensures c in l ==> |Without(l, c)| == |l| - 1
  {
    if l != [] {
      assert forall i, j :: 0 <= i < j < |l[1..]| ==> l[1..][i] == l[i + 1] && l[1..][j] == l[j + 1];
      WithoutOk(l[1..], c);
      var r := Without(l, c);
      assert forall d :: d in l <==> d == l[0] || d in l[1..];
      assert l[0] !in l[1..];
      if l[0] != c {
        var w := Without(l[1..], c);
        assert r == [l[0]] + w;
        assert forall d :: d in r <==> d == l[0] || d in w;
        assert forall i :: 0 < i < |r| ==> r[i] == w[i - 1];
        forall i, j | 0 <= i < j < |r| ensures r[i] != r[j] {
          if i == 0 { assert r[j] in w; }
        }
      }
    }
  }

  /** A list without some of its elements. */
  ghost function Kept(l: seq<int>, gone: set<int>): seq<int> {
    if l == [] then [] else if l[0] in gone then Kept(l[1..], gone) else [l[0]] + Kept(l[1..], gone)
  }

  /** What is in front of an element. */
  ghost function Front(l: seq<int>, c: int): set<int> {
    if l == [] || l[0] == c then {} else {l[0]} + Front(l[1..], c)
  }

  lemma {:induction false} KeptHas(l: seq<int>, gone: set<int>)
    ensures forall d :: d in Kept(l, gone) <==> d in l && d !in gone
  {
    if l != [] { KeptHas(l[1..], gone); }
  }

  /** Only what is on the list matters. */
  lemma {:induction false} KeptSame(l: seq<int>, a: set<int>, b: set<int>)
    requires forall d :: d in l ==> (d in a <==> d in b)
    ensures Kept(l, a) == Kept(l, b)
  {
    if l != [] {
      KeptSame(l[1..], a, b);
      var d := l[0];
      assert d in l;
    }
  }

  lemma {:induction false} KeptAll(l: seq<int>, gone: set<int>)
    requires forall d :: d in l ==> d !in gone
    ensures Kept(l, gone) == l
  {
    if l != [] {
      KeptAll(l[1..], gone);
      var d := l[0];
      assert d in l;
    }
  }

  lemma {:induction false} KeptTwice(l: seq<int>, a: set<int>, b: set<int>)
    ensures Kept(Kept(l, a), b) == Kept(l, a + b)
  {
    if l != [] {
      KeptTwice(l[1..], a, b);
      if l[0] !in a { assert ([l[0]] + Kept(l[1..], a))[1..] == Kept(l[1..], a); }
    }
  }

  lemma {:induction false} WithoutKept(l: seq<int>, c: int)
    requires NoDup(l)
    ensures Without(l, c) == Kept(l, {c})
  {
    if l != [] {
      var t := l[1..];
      forall i, j | 0 <= i < j < |t| ensures t[i] != t[j] {
        assert l[i + 1] != l[j + 1];
      }
      WithoutKept(t, c);
      if l[0] == c {
        forall d | d in t ensures d != c {
          var k :| 0 <= k < |t| && t[k] == d;
          assert l[0] != l[k + 1];
        }
        KeptAll(t, {c});
      }
    }
  }

  /** All in front of the first one kept is gone. */
  lemma {:induction false} KeptHead(l: seq<int>, gone: set<int>)
    requires Kept(l, gone) != []
    ensures Kept(l, gone)[0] in l && Kept(l, gone)[0] !in gone && Front(l, Kept(l, gone)[0]) <= gone
  {
    if l[0] in gone { KeptHead(l[1..], gone); }
  }
}
