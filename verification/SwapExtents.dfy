/** The allocator of chunks in the swap files (chunk_swap.c, extent.c).  Free
    extents are nodes of two trees, one by address and one by size and address;
    the address and size of a node change while it stays in the first.

    A tree is the sequence of its nodes in order; what its operations ask for is
    that the nodes are in order with the keys they have now. */
module SwapExtents {
  import opened Wrappers
  import opened SwapLayout

  const WORD: nat := 0x1_0000_0000_0000_0000

  class Node {
    var addr: nat
    var size: nat

    constructor (addr: nat, size: nat)
      ensures this.addr == addr && this.size == size
    {
      this.addr, this.size := addr, size;
    }
  }

  ghost function Ext(n: Node): Extent
    reads n
  {
    Extent(n.addr, n.size)
  }

  /** What the nodes of a tree say. */
  ghost predicate Mirrors(s: seq<Node>, exts: seq<Extent>)
    reads s
  {
    |s| == |exts| && forall i :: 0 <= i < |s| ==> Ext(s[i]) == exts[i]
  }

  /** extent_szad_comp: by size, then by address. */
  predicate SizeBefore(a: Extent, b: Extent) {
    a.size < b.size || (a.size == b.size && a.addr < b.addr)
  }

  ghost predicate BySize(s: seq<Node>)
    reads s
  {
    forall i, j :: 0 <= i < j < |s| ==> SizeBefore(Ext(s[i]), Ext(s[j]))
  }

  /** extent_ad_comp: by address. */
  ghost predicate ByAddress(s: seq<Node>)
    reads s
  {
    forall i, j :: 0 <= i < j < |s| ==> s[i].addr < s[j].addr
  }

  /** extent_tree_ad_nsearch: the first node not below an address. */
  method AdNSearch(ad: seq<Node>, addr: nat) returns (k: nat)
    requires ByAddress(ad)
    ensures k <= |ad|
    ensures forall i :: 0 <= i < k ==> ad[i].addr < addr
    ensures forall i :: k <= i < |ad| ==> ad[i].addr >= addr
  {
    k := 0;
    while k < |ad| && ad[k].addr < addr
      invariant 0 <= k <= |ad|
      invariant forall i :: 0 <= i < k ==> ad[i].addr < addr
    {
      k := k + 1;
    }
  }

  /** The place of a node in the tree by address. */
  method AdFind(ad: seq<Node>, n: Node) returns (k: nat)
    requires ByAddress(ad) && n in ad
    ensures k < |ad| && ad[k] == n
  {
    k := AdNSearch(ad, n.addr);
  }

  /** extent_tree_szad_nsearch with a null address: the lowest best fit. */
  method SzNSearch(sz: seq<Node>, size: nat) returns (k: nat)
    requires BySize(sz)
    ensures k <= |sz|
    ensures forall i :: 0 <= i < k ==> sz[i].size < size
    ensures forall i :: k <= i < |sz| ==> sz[i].size >= size
  {
    k := 0;
    while k < |sz| && sz[k].size < size
      invariant 0 <= k <= |sz|
      invariant forall i :: 0 <= i < k ==> sz[i].size < size
    {
      k := k + 1;
    }
  }

  method SzRemove(sz: seq<Node>, n: Node) returns (r: seq<Node>)
    requires BySize(sz) && n in sz
    ensures BySize(r) && (forall m :: m in r ==> m in sz && m != n) && (forall m :: m in sz && m != n ==> m in r)
  {
    var k := 0;
    while sz[k] != n
      invariant 0 <= k < |sz| && n !in sz[..k]
      decreases |sz| - k
    {
      k := k + 1;
    }
    r := Remove(sz, k);
    SizeOrderWithout(sz, k);
    MembersWithout(sz, k, n);
  }

  lemma SizeOrderWithout(sz: seq<Node>, k: nat)
    requires BySize(sz) && k < |sz|
    ensures BySize(Remove(sz, k))
  {
    Removed(sz, k);
  }

  lemma MembersWithout(sz: seq<Node>, k: nat, n: Node)
    requires BySize(sz) && k < |sz| && sz[k] == n
    ensures (forall m :: m in Remove(sz, k) ==> m in sz && m != n) && (forall m :: m in sz && m != n ==> m in Remove(sz, k))
  {
    forall i, j | 0 <= i < j < |sz| ensures sz[i] != sz[j] {
      assert SizeBefore(Ext(sz[i]), Ext(sz[j]));
    }
    RemoveMembers(sz, k);
  }

  method SzInsert(sz: seq<Node>, n: Node) returns (r: seq<Node>)
    requires BySize(sz) && forall m :: m in sz ==> m.addr != n.addr
    ensures BySize(r) && (forall m :: m in r ==> m in sz || m == n) && (forall m :: m in sz ==> m in r) && n in r
  {
    var k := 0;
    while k < |sz| && (sz[k].size < n.size || (sz[k].size == n.size && sz[k].addr < n.addr))
      invariant 0 <= k <= |sz|
      invariant forall i :: 0 <= i < k ==> SizeBefore(Ext(sz[i]), Ext(n))
    {
      k := k + 1;
    }
    r := Insert(sz, k, n);
    if k < |sz| {
      assert sz[k] in sz;
      assert SizeBefore(Ext(n), Ext(sz[k]));
    }
    InsertedBySize(sz, k, n);
    InsertMembers(sz, k, n);
  }

  lemma InsertedBySize(sz: seq<Node>, k: nat, n: Node)
    requires BySize(sz) && k <= |sz| && (forall i :: 0 <= i < k ==> SizeBefore(Ext(sz[i]), Ext(n)))
    requires k < |sz| ==> SizeBefore(Ext(n), Ext(sz[k]))
    ensures BySize(Insert(sz, k, n))
  {
    Inserted(sz, k, n);
    var r := Insert(sz, k, n);
    forall i | k <= i < |sz| ensures SizeBefore(Ext(n), Ext(sz[i])) {
      if i > k { assert SizeBefore(Ext(sz[k]), Ext(sz[i])); }
    }
  }

  lemma InsertMembers<T>(s: seq<T>, k: nat, x: T)
    requires k <= |s|
    ensures forall y :: y in Insert(s, k, x) <==> y in s || y == x
  {
    assert s == s[..k] + s[k..];
  }

  ghost predicate NoDup(s: seq<Node>) {
    forall i, j :: 0 <= i < j < |s| ==> s[i] != s[j]
  }

  lemma Ordered(ad: seq<Node>, exts: seq<Extent>)
    requires Mirrors(ad, exts) && Apart(exts)
    ensures ByAddress(ad) && NoDup(ad)
  {
    forall i, j | 0 <= i < j < |ad| ensures ad[i].addr < ad[j].addr {
      assert End(exts[i]) <= exts[j].addr && exts[i].size > 0;
      assert Ext(ad[i]) == exts[i] && Ext(ad[j]) == exts[j];
    }
  }

  lemma NodesApart(ad: seq<Node>, exts: seq<Extent>, node: Node)
    requires Mirrors(ad, exts) && Apart(exts) && node in ad
    ensures forall m :: m in ad && m != node ==> m.addr != node.addr
  {
    Ordered(ad, exts);
  }

  lemma RemoveMembers(s: seq<Node>, k: nat)
    requires k < |s| && NoDup(s)
    ensures forall x :: x in Remove(s, k) ==> x in s && x != s[k]
    ensures forall x :: x in s && x != s[k] ==> x in Remove(s, k)
  {
    Removed(s, k);
    var r := Remove(s, k);
    forall x | x in r ensures x in s && x != s[k] {
      var i :| 0 <= i < |r| && r[i] == x;
      assert s[if i < k then i else i + 1] == x;
    }
    forall x | x in s && x != s[k] ensures x in r {
      var i :| 0 <= i < |s| && s[i] == x;
      assert r[if i < k then i else i - 1] == x;
    }
  }

  lemma MirrorRemove(s: seq<Node>, exts: seq<Extent>, k: nat)
    requires Mirrors(s, exts) && k < |s|
    ensures Mirrors(Remove(s, k), Remove(exts, k))
  {
    Removed(s, k);
    Removed(exts, k);
  }

  lemma MirrorInsert(s: seq<Node>, exts: seq<Extent>, k: nat, n: Node)
    requires Mirrors(s, exts) && k <= |s|
    ensures Mirrors(Insert(s, k, n), Insert(exts, k, Ext(n)))
  {
    Inserted(s, k, n);
    Inserted(exts, k, Ext(n));
  }

  class Swap {
    const base: nat
    const max: nat
    var end: nat
    var ad: seq<Node>
    var sz: seq<Node>

    /** What the nodes of the tree by address say. */
    ghost var exts: seq<Extent>

    /** Addresses handed out, and those lost for want of a node; whether a node
        was ever wanting. */
    ghost var used: iset<int>
    ghost var lost: iset<int>
    ghost var failed: bool

    /** Both trees are in order and hold the same nodes. */
    ghost predicate Trees()
      reads this`ad, this`sz, this`exts, ad, sz
    {
      Mirrors(ad, exts) && Apart(exts) && BySize(sz) && (forall n :: n in sz ==> n in ad) && (forall n :: n in ad ==> n in sz)
    }

    ghost predicate Laid(but: int)
      reads this`exts, this`end, this`used, this`lost
    {
      Layout(exts, base, end, used, lost, but)
    }

    ghost predicate Valid()
      reads this, ad, sz
    {
      && base <= end <= max < WORD && Trees() && Laid(-1)
      && (!failed ==> AllBelow(exts, end) && lost == iset{})
    }

    /** chunk_swap_enable, once the region is mapped. */
    constructor (base: nat, max: nat)
      requires base <= max < WORD
      ensures Valid() && used == iset{} && exts == [] && !failed && end == base && this.base == base && this.max == max
    {
      this.base, this.max, end, ad, sz, exts := base, max, base, [], [], [];
      used, lost, failed := iset{}, iset{}, false;
    }

    /** A node gets a new address and size while it is in the tree by address;
        it leaves the tree by size before and comes back to it after. */
    method Move(ghost k: nat, node: Node, addr: nat, size: nat)
      requires Trees() && k < |ad| && ad[k] == node
      requires Apart(exts[k := Extent(addr, size)])
      modifies this`sz, this`exts, node
      ensures Trees() && exts == old(exts)[k := Extent(addr, size)] && node.addr == addr && node.size == size
    {
      Ordered(ad, exts);
      sz := SzRemove(sz, node);
      node.addr, node.size := addr, size;
      exts := exts[k := Extent(addr, size)];
      Ordered(ad, exts);
      forall m | m in sz ensures m.addr != node.addr {
        var i :| 0 <= i < |ad| && ad[i] == m;
      }
      sz := SzInsert(sz, node);
    }

    /** A node leaves both trees. */
    method Drop(ghost k: nat, node: Node)
      requires Trees() && k < |ad| && ad[k] == node
      modifies this`sz, this`ad, this`exts
      ensures Trees() && exts == Remove(old(exts), k) && ad == Remove(old(ad), k)
    {
      Ordered(ad, exts);
      sz := SzRemove(sz, node);
      var i := AdFind(ad, node);
      assert i == k;
      ApartWithout(exts, k);
      RemoveMembers(ad, k);
      MirrorRemove(ad, exts, k);
      ad := Remove(ad, i);
      exts := Remove(exts, k);
    }

    // ----- allocating -----

    /** The lowest of the smallest free extents that are large enough. */
    ghost predicate BestFit(e: Extent, size: nat)
      reads this
    {
      e in exts && e.size >= size
      && forall f :: f in exts && f.size >= size && f != e ==> f.size > e.size || (f.size == e.size && f.addr > e.addr)
    }

    ghost predicate NoFit(size: nat)
      reads this
    {
      forall e :: e in exts ==> e.size < size
    }

    lemma FoundFit(k: nat, size: nat)
      requires Trees() && k <= |sz|
      requires (forall i :: 0 <= i < k ==> sz[i].size < size) && (forall i :: k <= i < |sz| ==> sz[i].size >= size)
      ensures if k < |sz| then BestFit(Ext(sz[k]), size) else NoFit(size)
    {
      forall f | f in exts && f.size >= size ensures k < |sz| && (f == Ext(sz[k]) || SizeBefore(Ext(sz[k]), f)) {
        var j :| 0 <= j < |exts| && exts[j] == f;
        assert ad[j] in sz;
        var i :| 0 <= i < |sz| && sz[i] == ad[j];
        assert i >= k;
      }
      if k < |sz| {
        assert sz[k] in ad;
        var j :| 0 <= j < |ad| && ad[j] == sz[k];
        assert exts[j] == Ext(sz[k]);
      }
    }

    method TakeWhole(ghost k: nat, node: Node)
      requires Valid() && k < |ad| && ad[k] == node
      modifies this`sz, this`ad, this`exts, this`used
      ensures Valid() && used == old(used) + Range(node.addr, node.size)
    {
      TakeAll(exts, base, end, used, lost, k);
      Removed(exts, k);
      assert exts[k] == Ext(node);
      used := used + Range(node.addr, node.size);
      Drop(k, node);
    }

    /** A free extent that is larger shrinks where it is in the tree by address. */
    method TakePart(ghost k: nat, node: Node, size: nat)
      requires Valid() && k < |ad| && ad[k] == node && 0 < size < node.size
      modifies this`sz, this`exts, this`used, node
      ensures Valid() && used == old(used) + Range(old(node.addr), size)
    {
      ghost var s, e := exts, exts[k];
      assert e == Ext(node);
      ghost var t := s[k := Extent(e.addr + size, e.size - size)];
      ghost var now := used + Range(e.addr, size);
      TakeFront(s, base, end, used, lost, k, size);
      if !failed { BelowShrunk(s, k, size, end); }
      Shrink(k, node, size, t, now);
    }

    /** The node now stands for its extent without the first `size` bytes. */
    method Shrink(ghost k: nat, node: Node, size: nat, ghost t: seq<Extent>, ghost now: iset<int>)
      requires Trees() && k < |ad| && ad[k] == node && 0 < size < node.size
      requires t == exts[k := Extent(exts[k].addr + size, exts[k].size - size)] && Layout(t, base, end, now, lost, -1)
      requires base <= end <= max < WORD && (!failed ==> AllBelow(t, end) && lost == iset{})
      modifies this`sz, this`exts, this`used, node
      ensures Valid() && exts == t && used == now
    {
      assert exts[k] == Ext(node);
      used := now;
      Move(k, node, node.addr + size, node.size - size);
      assert exts == t;
    }

    method TakeFrom(node: Node, size: nat)
      requires Valid() && node in ad && 0 < size <= node.size
      modifies this`sz, this`ad, this`exts, this`used, node
      ensures Valid() && used == old(used) + Range(old(node.addr), size) && Range(old(node.addr), size) !! old(used)
    {
      ghost var k :| 0 <= k < |ad| && ad[k] == node;
      assert exts[k] == Ext(node);
      InRegion(exts, base, end, used, lost, -1, k);
      if node.size == size {
        TakeWhole(k, node);
      } else {
        TakePart(k, node, size);
      }
    }

    /** chunk_recycle_swap: the front of the best fit. */
    method Recycle(size: nat) returns (r: Option<nat>)
      requires Valid() && size > 0
      modifies this`sz, this`ad, this`exts, this`used, ad
      ensures Valid()
      ensures r == None <==> old(NoFit(size))
      ensures r == None ==> used == old(used) && exts == old(exts)
      ensures r.Some? ==> used == old(used) + Range(r.value, size) && Range(r.value, size) !! old(used)
                          && exists n :: old(BestFit(Extent(r.value, n), size))
    {
      var k := SzNSearch(sz, size);
      FoundFit(k, size);
      if k == |sz| {
        return None;
      }
      var node := sz[k];
      assert node in sz;
      r := Some(node.addr);
      ghost var n := node.size;
      assert BestFit(Extent(r.value, n), size);
      TakeFrom(node, size);
      assert old(BestFit(Extent(r.value, n), size));
    }

    /** The second half of chunk_alloc_swap: memory at the end. */
    method Bump(size: nat) returns (r: Option<nat>)
      requires Valid() && 0 < size < WORD
      modifies this`end, this`used
      ensures r.Some? <==> old(end) + size <= max || old(end) + size >= WORD
      ensures r == None ==> used == old(used) && end == old(end)
      ensures r.Some? ==> r.value == old(end) && used == old(used) + Range(r.value, size)
      ensures r.Some? ==> end == old(end) + size - if old(end) + size < WORD then 0 else WORD
      ensures r.Some? && old(end) + size < WORD ==> Valid()
      ensures r.Some? && old(end) + size >= WORD ==> !Valid()
    {
      if (end + size) % WORD > max {
        return None;
      }
      r := Some(end);
      TakeEnd(exts, base, end, used, lost, size);
      used := used + Range(end, size);
      assert end in used;
      end := (end + size) % WORD;
    }

    /** chunk_alloc_swap: a recycled extent, or memory at the end.  The check
        against swap_max adds modulo 2^64, so it grants a size that runs over the
        end of the address space: if no free extent is large enough then, and only
        then, the result is bad. */
    method Alloc(size: nat) returns (r: Option<nat>, ghost recycled: bool)
      requires Valid() && 0 < size < WORD
      modifies this`end, this`sz, this`ad, this`exts, this`used, ad
      ensures recycled <==> !old(NoFit(size))
      ensures r.Some? <==> recycled || old(end) + size <= max || old(end) + size >= WORD
      ensures Valid() <==> recycled || old(end) + size < WORD
      ensures r == None ==> used == old(used) && end == old(end)
      ensures r.Some? ==> used == old(used) + Range(r.value, size)
      ensures recycled ==> end == old(end) && Range(r.value, size) !! old(used) && exists n :: old(BestFit(Extent(r.value, n), size))
      ensures !recycled && r.Some? ==> r.value == old(end) && end == old(end) + size - if old(end) + size < WORD then 0 else WORD
    {
      r := Recycle(size);
      recycled := r.Some?;
      if r == None {
        r := Bump(size);
      }
    }

    /** Such a request: in an unused region of 4 MB, all that is above its start. */
    static method WrappedRequest() returns (swap: Swap, r: Option<nat>)
      ensures swap.base == 0x40_0000 && swap.max == 0x80_0000 && r == Some(0x40_0000)
      ensures swap.end == 0 && swap.max + 1 in swap.used && !swap.Valid()
    {
      swap := new Swap(0x40_0000, 0x80_0000);
      ghost var recycled;
      r, recycled := swap.Alloc(0xffff_ffff_ffc0_0000);
    }

    // ----- giving back -----

    ghost predicate Region()
      reads this, ad, sz
    {
      base <= end <= max && Trees() && (!failed ==> lost == iset{})
    }

    /** The addresses given back join the free extent that follows them, which
        keeps its place in the tree by address. */
    method JoinForward(ghost k: nat, node: Node, chunk: nat, size: nat)
      requires Valid() && size > 0 && Range(chunk, size) <= used
      requires k < |ad| && ad[k] == node && node.addr == chunk + size
      modifies this`sz, this`exts, this`used, node
      ensures Region() && Laid(k) && used == old(used) - Range(chunk, size) && (!failed ==> OthersBelow(exts, k, end))
      ensures exts == old(exts)[k := Extent(chunk, size + old(exts[k].size))]
    {
      assert exts[k] == Ext(node);
      JoinNext(exts, base, end, used, lost, k, chunk, size);
      used := used - Range(chunk, size);
      Move(k, node, chunk, node.size + size);
    }

    /** The addresses given back get a node of their own. */
    method AddNode(k: nat, chunk: nat, size: nat) returns (node: Node)
      requires Valid() && size > 0 && Range(chunk, size) <= used && k <= |ad|
      requires forall i :: 0 <= i < k ==> ad[i].addr < chunk + size
      requires forall i :: k <= i < |ad| ==> ad[i].addr > chunk + size
      modifies this`sz, this`ad, this`exts, this`used
      ensures Region() && Laid(k) && used == old(used) - Range(chunk, size) && (!failed ==> OthersBelow(exts, k, end))
      ensures exts == Insert(old(exts), k, Extent(chunk, size)) && k < |ad| && ad[k] == node && fresh(node) && ad == Insert(old(ad), k, node)
    {
      forall i | 0 <= i < |ad| ensures exts[i].addr == ad[i].addr {
        assert exts[i] == Ext(ad[i]);
      }
      NewExtent(exts, base, end, used, lost, k, chunk, size);
      used := used - Range(chunk, size);
      if !failed { BelowInserted(exts, k, Extent(chunk, size), end); }
      node := new Node(chunk, size);
      Enter(k, node);
    }

    /** A node comes into both trees. */
    method Enter(k: nat, node: Node)
      requires Trees() && k <= |ad| && node !in ad && Apart(Insert(exts, k, Ext(node)))
      modifies this`sz, this`ad, this`exts
      ensures Trees() && exts == Insert(old(exts), k, Ext(node)) && ad == Insert(old(ad), k, node)
    {
      MirrorInsert(ad, exts, k, node);
      InsertMembers(ad, k, node);
      ad := Insert(ad, k, node);
      exts := Insert(exts, k, Ext(node));
      NodesApart(ad, exts, node);
      sz := SzInsert(sz, node);
    }

    /** Two neighbours that touch become one, which keeps its place. */
    method JoinBackward(k: nat, node: Node)
      requires Region() && 1 <= k < |ad| && ad[k] == node && Laid(k) && End(exts[k - 1]) == exts[k].addr
      requires !failed ==> OthersBelow(exts, k, end)
      modifies this`sz, this`ad, this`exts, node
      ensures Region() && Laid(-1) && k - 1 < |ad| && ad[k - 1] == node && (!failed ==> OthersBelow(exts, k - 1, end))
      ensures exts[k - 1] == Extent(old(exts[k - 1].addr), old(exts[k - 1].size + exts[k].size))
    {
      ghost var t := Remove(exts, k - 1)[k - 1 := Extent(exts[k - 1].addr, exts[k - 1].size + exts[k].size)];
      JoinedBack(exts, base, end, used, lost, k, t);
      Absorb(k, node, t);
    }

    /** A node takes the extent before it into its own. */
    method Absorb(k: nat, node: Node, ghost t: seq<Extent>)
      requires Trees() && 1 <= k < |ad| && ad[k] == node && Apart(t)
      requires t == Remove(exts, k - 1)[k - 1 := Extent(exts[k - 1].addr, exts[k - 1].size + exts[k].size)]
      modifies this`sz, this`ad, this`exts, node
      ensures Trees() && exts == t && ad == Remove(old(ad), k - 1)
    {
      var prev := ad[k - 1];
      assert exts[k - 1] == Ext(prev) && exts[k] == Ext(node);
      Drop(k - 1, prev);
      Move(k - 1, node, prev.addr, node.size + prev.size);
    }

    /** Whether a free extent starts at an address. */
    ghost predicate FreeFrom(addr: nat)
      reads this
    {
      exists i :: 0 <= i < |exts| && exts[i].addr == addr
    }

    /** chunk_dealloc_swap_record, first half: the addresses join the extent that
        follows, or get a new one; null if there is no memory for its node. */
    method JoinOrAdd(chunk: nat, size: nat, nodeOk: bool) returns (node: Node?, k: nat)
      requires Valid() && size > 0 && Range(chunk, size) <= used
      modifies this`sz, this`ad, this`exts, this`used, ad
      ensures node == null <==> !nodeOk && !old(FreeFrom(chunk + size))
      ensures node == null ==> Valid() && used == old(used) && exts == old(exts)
      ensures node != null ==> Region() && Laid(k) && used == old(used) - Range(chunk, size) && (!failed ==> OthersBelow(exts, k, end))
      ensures node != null ==> k < |ad| && ad[k] == node && exts[k].addr == chunk && chunk + size <= End(exts[k])
      ensures node != null ==> node in old(ad) || fresh(node)
    {
      Ordered(ad, exts);
      k := AdNSearch(ad, chunk + size);
      forall i | 0 <= i < |ad| ensures exts[i].addr == ad[i].addr {
        assert exts[i] == Ext(ad[i]);
      }
      if k < |ad| && ad[k].addr == chunk + size {
        node := ad[k];
        JoinForward(k, node, chunk, size);
      } else if !nodeOk {
        Strictly(k, chunk + size);
        node := null;
      } else {
        Strictly(k, chunk + size);
        Inserted(exts, k, Extent(chunk, size));
        node := AddNode(k, chunk, size);
      }
    }

    /** chunk_dealloc_swap_record, second half: the extent before it, if it
        touches, joins in. */
    method JoinBefore(j: nat, node: Node) returns (k: nat)
      requires Region() && Laid(j) && j < |ad| && ad[j] == node && (!failed ==> OthersBelow(exts, j, end))
      modifies this`sz, this`ad, this`exts, node
      ensures Region() && Laid(-1) && (!failed ==> OthersBelow(exts, k, end)) && k < |ad| && ad[k] == node
      ensures exts[k].addr <= old(exts[j].addr) && End(exts[k]) == old(End(exts[j]))
    {
      assert exts[j] == Ext(node);
      if j > 0 { assert exts[j - 1] == Ext(ad[j - 1]); }
      k := j;
      if j > 0 && ad[j - 1].addr + ad[j - 1].size == node.addr {
        JoinBackward(j, node);
        k := j - 1;
      } else {
        NotTouching(exts, base, end, used, lost, j);
      }
    }

    /** chunk_dealloc_swap_record: the node of the free extent, coalesced on both
        sides, that now holds the addresses; or null, with nothing changed, if a
        node was needed and there was no memory for it. */
    method Record(chunk: nat, size: nat, nodeOk: bool) returns (node: Node?, k: nat)
      requires Valid() && size > 0 && Range(chunk, size) <= used
      modifies this`sz, this`ad, this`exts, this`used, ad
      ensures node == null <==> !nodeOk && !old(FreeFrom(chunk + size))
      ensures node == null ==> Valid() && used == old(used) && exts == old(exts)
      ensures node != null ==> Region() && Laid(-1) && used == old(used) - Range(chunk, size) && (!failed ==> OthersBelow(exts, k, end))
      ensures node != null ==> k < |ad| && ad[k] == node && exts[k].addr <= chunk && chunk + size <= End(exts[k])
    {
      node, k := JoinOrAdd(chunk, size, nodeOk);
      if node != null {
        k := JoinBefore(k, node);
      }
    }

    lemma Strictly(j: nat, a: nat)
      requires ByAddress(ad) && j <= |ad| && (j < |ad| ==> ad[j].addr > a)
      ensures forall i :: j <= i < |ad| ==> ad[i].addr > a
    {
    }

    /** The extent reaches the end of the memory in use: the end moves down. */
    method ShrinkEnd(ghost k: nat, node: Node)
      requires Region() && max < WORD && Laid(-1) && k < |ad| && ad[k] == node && End(exts[k]) == end && (!failed ==> OthersBelow(exts, k, end))
      modifies this`sz, this`ad, this`exts, this`end
      ensures Valid() && end == old(exts[k].addr) && exts == Remove(old(exts), k)
    {
      ghost var s, e := exts, exts[k];
      assert e == Ext(node);
      InRegion(s, base, end, used, lost, -1, k);
      DropTail(s, base, end, used, lost, k);
      BelowRemoved(s, k, end);
      end := end - node.size;
      assert end == e.addr;
      Drop(k, node);
      assert exts == Remove(s, k);
    }

    /** The free extent that covers the address does not reach the end of the memory
        in use. */
    ghost predicate OffTheEnd(x: int)
      reads this`exts, this`end
    {
      forall i :: 0 <= i < |exts| && Covers(exts[i], x) ==> End(exts[i]) < end
    }

    /** Without a node the last addresses go back to the end, others are lost. */
    ghost predicate ToTheEndOrLost(before: int, gone: iset<int>, chunk: int, size: int)
      reads this`end, this`lost
    {
      if chunk + size == before then end == chunk && lost == gone
      else end == before && lost == gone + Range(chunk, size)
    }

    /** chunk_dealloc_swap.  As long as there was memory for every node wanted,
        nothing is lost, free extents are coalesced and none reaches the end. */
    method Dealloc(chunk: nat, size: nat, nodeOk: bool) returns (outside: bool)
      requires Valid() && size > 0 && (base <= chunk < max ==> Range(chunk, size) <= used)
      modifies this`end, this`sz, this`ad, this`exts, this`used, this`lost, this`failed, ad
      ensures Valid() && end <= old(end)
      ensures outside <==> !(base <= chunk < max)
      ensures outside ==> end == old(end) && used == old(used) && exts == old(exts)
      ensures !outside ==> used == old(used) - Range(chunk, size)
      ensures outside || nodeOk || old(FreeFrom(chunk + size)) ==> lost == old(lost) && failed == old(failed)
      ensures !outside && (nodeOk || old(FreeFrom(chunk + size))) ==> OffTheEnd(chunk)
      ensures !outside && !nodeOk && !old(FreeFrom(chunk + size)) ==> exts == old(exts) && ToTheEndOrLost(old(end), old(lost), chunk, size)
    {
      outside := !(base <= chunk && chunk < max);
      if outside {
        return;
      }
      var node; ghost var k;
      node, k := Record(chunk, size, nodeOk);
      if node == null {
        DeallocWithout(chunk, size);
      } else {
        Settle(k, node, chunk);
      }
    }

    /** The rest of chunk_dealloc_swap when there is a node. */
    method Settle(ghost k: nat, node: Node, ghost chunk: nat)
      requires Region() && max < WORD && Laid(-1) && k < |ad| && ad[k] == node && Covers(exts[k], chunk) && (!failed ==> OthersBelow(exts, k, end))
      modifies this`sz, this`ad, this`exts, this`end
      ensures Valid() && end <= old(end) && OffTheEnd(chunk)
    {
      assert exts[k] == Ext(node);
      InRegion(exts, base, end, used, lost, -1, k);
      if node.addr + node.size == end {
        WithoutCover(exts, k, chunk);
        ShrinkEnd(k, node);
      } else {
        if !failed { AllBelowTail(exts, k, end); }
      }
    }

    lemma WithoutCover(s: seq<Extent>, k: nat, x: int)
      requires Apart(s) && k < |s| && Covers(s[k], x)
      ensures forall i :: 0 <= i < |s| - 1 ==> !Covers(Remove(s, k)[i], x)
    {
      Removed(s, k);
    }

    /** The rest of chunk_dealloc_swap when there is no node. */
    method DeallocWithout(chunk: nat, size: nat)
      requires Valid() && size > 0 && Range(chunk, size) <= used && base <= chunk < max
      modifies this`end, this`used, this`lost, this`failed
      ensures Valid() && failed && used == old(used) - Range(chunk, size)
      ensures if chunk + size == old(end) then end == chunk && lost == old(lost) else end == old(end) && lost == old(lost) + Range(chunk, size)
    {
      assert chunk in Range(chunk, size);
      failed := true;
      if chunk + size == end {
        GiveTail(exts, base, end, used, lost, chunk);
        end := end - size;
      } else {
        Lose(exts, base, end, used, lost, chunk, size);
        lost := lost + Range(chunk, size);
      }
      used := used - Range(chunk, size);
    }
  }
}
