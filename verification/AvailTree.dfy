/** A tree of free runs (arena.c, arena_avail_tree) kept in a red-black tree of
    linked nodes: it does what the arena asks of its trees. */
module AvailTree {
  import opened Wrappers
  import opened PowersOfTwo
  import opened RbTreeShape
  import opened RbTreeSpec
  import opened RbTreeLinks
  import opened RbTreeHeap
  import ArenaState
  import ArenaAlloc

  type Run = ArenaState.Run

  /** Addresses and pages are words. */
  predicate InRange(r: Run) {
    0 <= r.c < 0x1_0000_0000_0000_0000 && 0 <= r.i < 0x1_0000_0000_0000_0000
  }

  /** A number that orders runs as arena_avail_comp does. */
  function Key(r: Run): int {
    (r.n * 0x1_0000_0000_0000_0000 + r.c) * 0x1_0000_0000_0000_0000 + r.i
  }

  lemma KeyOrder(a: Run, b: Run)
    requires InRange(a) && InRange(b)
    ensures Key(a) < Key(b) <==> a.n < b.n || (a.n == b.n && (a.c < b.c || (a.c == b.c && a.i < b.i)))
    ensures Key(a) == Key(b) <==> a == b
  {
  }

  /** Each node stands for one run, by its key. */
  ghost predicate Indexed(runs: map<Node, Run>) {
    && (forall m :: m in runs ==> InRange(runs[m]) && m.key == Key(runs[m]))
    && forall m, k :: m in runs && k in runs && m != k ==> runs[m] != runs[k]
  }

  lemma NewKey(runs: map<Node, Run>, r: Run, m: Node)
    requires Indexed(runs) && InRange(r) && r !in runs.Values && m in runs
    ensures m.key != Key(r)
  {
    KeyOrder(runs[m], r);
  }

  lemma Added(runs: map<Node, Run>, node: Node, r: Run)
    requires Indexed(runs) && node !in runs && r !in runs.Values && InRange(r) && node.key == Key(r)
    ensures Indexed(runs[node := r]) && runs[node := r].Values == runs.Values + {r}
  {
    var more := runs[node := r];
    forall x | x in runs.Values ensures x in more.Values {
      var m: Node :| m in runs && runs[m] == x;
      assert more[m] == x;
    }
    assert more[node] == r;
    forall m | m in runs ensures runs[m] != r {
      assert runs[m] in runs.Values;
    }
  }

  lemma Dropped(runs: map<Node, Run>, node: Node)
    requires Indexed(runs) && node in runs
    ensures Indexed(runs - {node}) && (runs - {node}).Values == runs.Values - {runs[node]}
  {
    var less := runs - {node};
    forall x | x in runs.Values && x != runs[node] ensures x in less.Values {
      var m: Node :| m in runs && runs[m] == x;
      assert less[m] == x;
    }
  }

  lemma KeyOf(runs: map<Node, Run>, node: Node, r: Run)
    requires Indexed(runs) && node in runs && r in runs.Values && node.key == Key(r)
    ensures runs[node] == r
  {
    var m: Node :| m in runs && runs[m] == r;
    KeyOrder(runs[node], r);
  }

  class Avail {
    const tree: RbTree
    var runs: map<Node, Run>

    ghost predicate Valid()
      reads this, tree, tree.nil, Nodes(tree.tree)
    {
      && tree.Valid() && runs.Keys == tree.nodes
      && Indexed(runs)
    }

    ghost function Contents(): set<Run>
      reads this
    {
      runs.Values
    }

    constructor ()
      ensures Valid() && fresh(tree) && Contents() == {} && Inorder(tree.tree) == []
    {
      tree := new RbTree();
      runs := map[];
    }

    lemma NodeOf(r: Run) returns (node: Node)
      requires r in Contents()
      ensures node in runs && runs[node] == r
    {
      node :| node in runs && runs[node] == r;
    }

    /** arena_avail_tree_insert. */
    method Insert(r: Run)
      requires Valid() && InRange(r) && r !in Contents() && |Inorder(tree.tree)| + 2 < Pow2(64)
      modifies this, tree, tree.nodes
      ensures Valid() && Contents() == old(Contents()) + {r}
    {
      var node := new Node(Key(r), true);
      forall m | m in tree.nodes ensures m.key != node.key {
        NewKey(runs, r, m);
      }
      tree.Insert(node);
      Added(runs, node, r);
      runs := runs[node := r];
    }

    /** arena_avail_tree_remove. */
    method Remove(r: Run)
      requires Valid() && r in Contents()
      modifies this, tree, tree.nodes
      ensures Valid() && Contents() == old(Contents()) - {r}
    {
      var node := tree.Search(Key(r));
      ghost var own := NodeOf(r);
      assert own.key == Key(r);
      KeyOf(runs, node, r);
      Dropped(runs, node);
      tree.Remove(node);
      runs := runs - {node};
    }

    /** arena_avail_tree_nsearch: the lowest best fit. */
    method NSearch(n: nat) returns (r: Option<Run>)
      requires Valid()
      ensures r == None <==> ArenaAlloc.NoFit(Contents(), n)
      ensures r.Some? ==> ArenaAlloc.BestFit(Contents(), n, r.value)
    {
      var low := ArenaState.Run(n, 0, 0);
      var node := tree.NSearch(Key(low));
      forall x | x in Contents() && x.n >= n
        ensures node != null && node in runs && (x == runs[node] || ArenaState.Before(runs[node], x))
      {
        var m := NodeOf(x);
        KeyOrder(x, low);
        KeyOrder(runs[node], x);
      }
      if node == null {
        r := None;
      } else {
        KeyOrder(runs[node], low);
        r := Some(runs[node]);
      }
    }
  }
}
