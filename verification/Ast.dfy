/** Nodes in a pool: every child is checked against the pool before its parent is built. */
module Ast {
  import opened Wrappers
  import opened Search
  import opened Pool

  /** What a field holds besides its children. */
  datatype Slot = NodeSlot | ListSlot(n: nat) | TextSlot(text: string) | ValueSlot(value: nat)

  /** What a constructor is given: its class, its fields, and all the children in them in order. */
  datatype Shape = Shape(class_: string, slots: seq<Slot>, kids: seq<nat>)

  datatype AstError = InvalidPointer(addr: nat) | NoSpace(why: BadAlloc) | Thrown

  /** The nodes of an AST by ordinal, and their addresses. */
  datatype Graph = Graph(addrs: seq<nat>, nodes: seq<Shape>) {

    /** Children are live, not null, and older than their parents. */
    predicate Ordered() {
      && |addrs| == |nodes|
      && (forall i, j :: 0 <= i < j < |addrs| ==> addrs[i] < addrs[j])
      && (forall k :: 0 <= k < |nodes| ==> KidsBelow(nodes[k].kids, k))
    }

    predicate KidsBelow(kids: seq<nat>, k: nat)
      requires k <= |addrs|
    {
      forall c :: 0 <= c < |kids| ==> kids[c] != 0 && kids[c] in addrs[..k]
    }

    /** The ordinal of a live address. */
    function Ordinal(a: nat): (k: nat)
      requires a in addrs
      ensures k < |addrs| && addrs[k] == a
    {
      LinearFind(addrs, a).value
    }

    lemma OrdinalIs(a: nat, k: nat)
      requires Ordered() && k < |addrs| && addrs[k] == a
      ensures Ordinal(a) == k
    {
    }
  }

  datatype Tree = Node(class_: string, slots: seq<Slot>, kids: seq<Tree>)

  /** What a visitor sees from node `k`: the walk is well-founded because children are older. */
  function Unfold(g: Graph, k: nat): Tree
    requires g.Ordered() && k < |g.nodes|
    decreases k
  {
    Node(g.nodes[k].class_, g.nodes[k].slots, UnfoldAll(g, k, g.nodes[k].kids))
  }

  function UnfoldAll(g: Graph, k: nat, kids: seq<nat>): seq<Tree>
    requires g.Ordered() && k < |g.nodes| && g.KidsBelow(kids, k)
    decreases k, |kids|
  {
    if kids == [] then []
    else
      KidIsOlder(g, k, kids, |kids| - 1);
      UnfoldAll(g, k, kids[..|kids| - 1]) + [Unfold(g, g.Ordinal(kids[|kids| - 1]))]
  }

  lemma KidIsOlder(g: Graph, k: nat, kids: seq<nat>, c: nat)
    requires g.Ordered() && k < |g.nodes| && g.KidsBelow(kids, k) && c < |kids|
    ensures kids[c] in g.addrs && g.Ordinal(kids[c]) < k
  {
    assert kids[c] in g.addrs[..k];
    var j :| 0 <= j < k && g.addrs[..k][j] == kids[c];
    g.OrdinalIs(kids[c], j);
  }

  function Depth(t: Tree): nat
    decreases t, 0
  {
    1 + DepthAll(t.kids, |t.kids|)
  }

  function DepthAll(ts: seq<Tree>, n: nat): nat
    requires n <= |ts|
    decreases ts, n
  {
    if n == 0 then 0
    else
      var a, b := DepthAll(ts, n - 1), Depth(ts[n - 1]);
      if a > b then a else b
  }

  /** A walk never nests deeper than the ordinal of the node it starts from, plus one. */
  lemma {:induction false} WalksAreShallow(g: Graph, k: nat)
    requires g.Ordered() && k < |g.nodes|
    ensures Depth(Unfold(g, k)) <= k + 1
    decreases k
  {
    WalksAreShallowAll(g, k, g.nodes[k].kids);
  }

  lemma {:induction false} WalksAreShallowAll(g: Graph, k: nat, kids: seq<nat>)
    requires g.Ordered() && k < |g.nodes| && g.KidsBelow(kids, k)
    ensures var ts := UnfoldAll(g, k, kids); DepthAll(ts, |ts|) <= k
    decreases k, |kids|
  {
    hide Unfold, Depth, Graph.Ordinal, Graph.Ordered, DepthAll;
    if kids != [] {
      var last := |kids| - 1;
      KidIsOlder(g, k, kids, last);
      var j := g.Ordinal(kids[last]);
      WalksAreShallow(g, j);
      WalksAreShallowAll(g, k, kids[..last]);
      DepthOfPush(UnfoldAll(g, k, kids[..last]), Unfold(g, j));
    } else {
      DepthOfNone();
    }
  }

  lemma DepthOfNone()
    ensures DepthAll([], 0) == 0
  {
  }

  lemma DepthOfPush(ts: seq<Tree>, t: Tree)
    ensures var a := DepthAll(ts, |ts|); DepthAll(ts + [t], |ts| + 1) == if a > Depth(t) then a else Depth(t)
  {
    hide Depth;
    DepthOfPrefix(ts, ts + [t], |ts|);
  }

  lemma {:induction false} DepthOfPrefix(a: seq<Tree>, b: seq<Tree>, n: nat)
    requires n <= |a| && a <= b
    ensures DepthAll(a, n) == DepthAll(b, n)
  {
    if n > 0 {
      DepthOfPrefix(a, b, n - 1);
    }
  }

  /** The tree at a node does not change when younger nodes come and go. */
  lemma {:induction false} UnfoldIsStable(g: Graph, h: Graph, k: nat)
    requires g.Ordered() && h.Ordered() && g.nodes <= h.nodes && g.addrs <= h.addrs && k < |g.nodes|
    ensures Unfold(h, k) == Unfold(g, k)
    decreases k
  {
    assert h.nodes[k] == g.nodes[k];
    UnfoldAllIsStable(g, h, k, g.nodes[k].kids);
  }

  lemma {:induction false} UnfoldAllIsStable(g: Graph, h: Graph, k: nat, kids: seq<nat>)
    requires g.Ordered() && h.Ordered() && g.nodes <= h.nodes && g.addrs <= h.addrs && k < |g.nodes|
    requires g.KidsBelow(kids, k)
    ensures h.KidsBelow(kids, k) && UnfoldAll(h, k, kids) == UnfoldAll(g, k, kids)
    decreases k, |kids|
  {
    assert h.addrs[..k] == g.addrs[..k];
    if kids != [] {
      var last := |kids| - 1;
      KidIsOlder(g, k, kids, last);
      var j := g.Ordinal(kids[last]);
      assert h.addrs[j] == g.addrs[j];
      h.OrdinalIs(kids[last], j);
      UnfoldIsStable(g, h, j);
      UnfoldAllIsStable(g, h, k, kids[..last]);
    }
  }

  /** The destructor runs from the youngest node to the oldest, so that no node is destroyed
      while a node that refers to it lives. */
  lemma ParentsGoFirst(g: Graph, order: seq<nat>, i: nat, j: nat, c: nat)
    requires g.Ordered() && |order| == |g.addrs|
    requires forall k :: 0 <= k < |order| ==> order[k] == g.addrs[|order| - 1 - k]
    requires i < |order| && j < |order| && c < |g.nodes[|order| - 1 - i].kids|
    requires g.nodes[|order| - 1 - i].kids[c] == order[j]
    ensures i < j
  {
    var k := |order| - 1 - i;
    KidIsOlder(g, k, g.nodes[k].kids, c);
    g.OrdinalIs(order[j], |order| - 1 - j);
  }

  /** An AST as a value: its two pools and its nodes. */
  datatype Heap = Heap(pools: Pools, nodes: seq<Shape>) {

    function Addrs(): seq<nat> {
      pools.node.Addrs()
    }

    function TheGraph(): Graph {
      Graph(Addrs(), nodes)
    }

    predicate Ok() {
      pools.node.Ok() && pools.raw.Ok() && TheGraph().Ordered()
    }

    /** The argument checks of a `new_*` call: each child pointer must be live. */
    function CheckKids(kids: seq<nat>): (r: Outcome<AstError>)
      ensures r.Pass? <==> forall c :: 0 <= c < |kids| ==> kids[c] in Addrs()
      ensures r.Fail? ==> r.error.InvalidPointer?
    {
      if kids == [] then Pass
      else if kids[0] !in Addrs() then Fail(AstError.InvalidPointer(kids[0]))
      else CheckKids(kids[1..])
    }

    /** `new_node`: check the children and allocate. */
    function NewNode(shape: Shape, size: nat, align: nat): (r: Result<(nat, Heap), AstError>)
      requires align > 0
      ensures r.Failure? ==> !r.error.Thrown?
    {
      match CheckKids(shape.kids)
      case Fail(e) => Failure(e)
      case Pass =>
        match pools.node.Allocate(size, align)
        case Failure(why) => Failure(NoSpace(why))
        case Success(node) =>
          Success((pools.node.ptr + pools.node.Pad(align), Heap(pools.(node := node), nodes + [shape])))
    }

    /** Nodes are only added. */
    predicate GrowsTo(h: Heap) {
      nodes <= h.nodes && Addrs() <= h.Addrs()
    }
  }

  /** A new node is live, is the youngest, and leaves the AST in order. */
  lemma NewNodeIsOk(h: Heap, shape: Shape, size: nat, align: nat)
    requires h.Ok() && align > 0 && h.NewNode(shape, size, align).Success?
    ensures var (a, h1) := h.NewNode(shape, size, align).value;
            h1.Ok() && h.GrowsTo(h1) && h1.Addrs() == h.Addrs() + [a] && h1.nodes == h.nodes + [shape]
  {
    hide PoolState.Ok, Graph.Ordered, PoolState.Addrs;
    var before, after := h.pools.node, h.pools.node.Allocate(size, align).value;
    StepKeepsOk(before, Alloc(size, align));
    LiveIsPositive(before);
    AllocateAppends(before, size, align);
    AddrsGrow(before, after);
    AddedIsOrdered(h.TheGraph(), before, after, shape);
  }

  function AsNats(kids: seq<SizeT>): seq<nat> {
    seq(|kids|, c requires 0 <= c < |kids| => kids[c] as nat)
  }

  class BaseAst {
    const nodeAlloc: PoolAllocator
    const rawAlloc: PoolAllocator
    var nodes: seq<Shape>
    var root: SizeT
    var treeNodes: nat

    ghost function Repr(): set<object>
      reads this
    {
      {this, nodeAlloc, nodeAlloc.ptrs, rawAlloc, rawAlloc.ptrs}
    }

    ghost function TheHeap(): Heap
      reads this, nodeAlloc, rawAlloc
    {
      Heap(Pools(nodeAlloc.State(), rawAlloc.State()), nodes)
    }

    ghost predicate Valid()
      reads this, nodeAlloc, nodeAlloc.ptrs, rawAlloc, rawAlloc.ptrs
    {
      && nodeAlloc.Valid() && rawAlloc.Valid() && nodeAlloc != rawAlloc && nodeAlloc.ptrs != rawAlloc.ptrs
      && TheHeap().Ok() && (root != 0 ==> root as nat in TheHeap().Addrs())
    }

    constructor (nobjs: SizeT, poolSz: SizeT, pool: SizeT, rawObjs: SizeT, rawSz: SizeT, raw: SizeT)
      requires pool as int + poolSz as int < SIZE_LIMIT && raw as int + rawSz as int < SIZE_LIMIT
      ensures Valid() && fresh(Repr()) && root == 0
      ensures TheHeap() == Heap(Pools(
                PoolState(pool as nat, poolSz as nat, nobjs as nat, pool as nat, []),
                PoolState(raw as nat, rawSz as nat, rawObjs as nat, raw as nat, [])), [])
    {
      nodeAlloc := new PoolAllocator(nobjs, poolSz, pool);
      rawAlloc := new PoolAllocator(rawObjs, rawSz, raw);
      nodes := [];
      root := 0;
      treeNodes := 0;
    }

    /** The argument checks of a `new_*` call. */
    method CheckKids(kids: seq<SizeT>) returns (r: Outcome<AstError>)
      requires Valid()
      ensures r == TheHeap().CheckKids(AsNats(kids))
    {
      var c := 0;
      assert AsNats(kids)[0..] == AsNats(kids);
      while c < |kids|
        invariant 0 <= c <= |kids|
        invariant TheHeap().CheckKids(AsNats(kids)) == TheHeap().CheckKids(AsNats(kids)[c..])
      {
        assert AsNats(kids)[c..][1..] == AsNats(kids)[c + 1..];
        var found := nodeAlloc.Find(kids[c]);
        if found.None? {
          return Fail(AstError.InvalidPointer(kids[c] as nat));
        }
        c := c + 1;
      }
      return Pass;
    }

    /** Memory for a string (`Arg<const char*>::alloc`) or for a list (`new_list`). */
    method NewRaw(nbytes: SizeT, align: SizeT) returns (r: Result<SizeT, AstError>)
      requires Valid() && align > 0
      modifies rawAlloc, rawAlloc.ptrs
      ensures Valid()
      ensures match old(TheHeap()).pools.raw.Allocate(nbytes as nat, align as nat)
              case Success(raw) =>
                r.Success? && TheHeap() == old(TheHeap()).(pools := old(TheHeap()).pools.(raw := raw))
              case Failure(why) => r == Failure(NoSpace(why)) && TheHeap() == old(TheHeap())
    {
      var p := rawAlloc.Allocate(nbytes, align);
      if p.Failure? {
        return Failure(NoSpace(p.error));
      }
      return Success(p.value);
    }

    /** `new_node`: check the children, allocate, construct, and roll the allocation back if
        the constructor throws. */
    method NewNode(class_: string, slots: seq<Slot>, kids: seq<SizeT>, size: SizeT, align: SizeT, throws: bool)
      returns (r: Result<SizeT, AstError>)
      requires Valid() && align > 0
      modifies this, nodeAlloc, nodeAlloc.ptrs
      ensures Valid() && root == old(root)
      ensures match old(TheHeap()).NewNode(Shape(class_, slots, AsNats(kids)), size as nat, align as nat)
              case Failure(e) => r == Failure(e) && TheHeap() == old(TheHeap())
              case Success((a, h)) =>
                if throws then r == Failure(Thrown) && TheHeap().TheGraph() == old(TheHeap()).TheGraph()
                else r.Success? && r.value as nat == a && TheHeap() == h
    {
      hide PoolState.Allocate, PoolState.Rollback, PoolState.Ok, Graph.Ordered;
      ghost var h := TheHeap();
      var shape := Shape(class_, slots, AsNats(kids));
      var checked := CheckKids(kids);
      if checked.Fail? {
        return Failure(checked.error);
      }
      var p := nodeAlloc.Allocate(size, align);
      if p.Failure? {
        return Failure(NoSpace(p.error));
      }
      AllocatesAt(h.pools.node, size as nat, align as nat);
      AllocateAppends(h.pools.node, size as nat, align as nat);
      NewNodeIsOk(h, shape, size as nat, align as nat);
      if throws {
        var ok := nodeAlloc.Rollback(p.value);
        return Failure(Thrown);
      }
      nodes := nodes + [shape];
      return Success(p.value);
    }

    /** `root_node`: a live node becomes the root, and the tree nodes are counted. */
    method SetRoot(node: SizeT) returns (r: Outcome<AstError>)
      requires Valid()
      modifies this
      ensures Valid() && nodes == old(nodes)
      ensures r.Pass? <==> node as nat in TheHeap().Addrs()
      ensures if r.Pass? then root == node && treeNodes == multiset(Classes(nodes))["TreeNode"]
              else r == Fail(AstError.InvalidPointer(node as nat)) && root == old(root) && treeNodes == old(treeNodes)
    {
      var found := nodeAlloc.Find(node);
      if found.None? {
        return Fail(AstError.InvalidPointer(node as nat));
      }
      root := node;
      treeNodes := CountClass(nodes, "TreeNode");
      return Pass;
    }
  }

  lemma AllocatesAt(p: PoolState, nbytes: nat, align: nat)
    requires align > 0 && p.Allocate(nbytes, align).Success?
    ensures var q := p.Allocate(nbytes, align).value;
            |q.blocks| > 0 && q.blocks[|q.blocks| - 1].addr == p.ptr + p.Pad(align)
  {
  }

  /** `std::count_if` over the nodes. */
  method CountClass(nodes: seq<Shape>, class_: string) returns (n: nat)
    ensures n == multiset(Classes(nodes))[class_]
  {
    n := 0;
    for k := 0 to |nodes|
      invariant n == multiset(Classes(nodes)[..k])[class_]
    {
      assert Classes(nodes)[..k + 1] == Classes(nodes)[..k] + [nodes[k].class_];
      if nodes[k].class_ == class_ {
        n := n + 1;
      }
    }
    assert Classes(nodes)[..|nodes|] == Classes(nodes);
  }

  function Classes(nodes: seq<Shape>): seq<string> {
    seq(|nodes|, k requires 0 <= k < |nodes| => nodes[k].class_)
  }

  lemma LiveIsPositive(p: PoolState)
    requires p.Ok()
    ensures forall a | a in p.Addrs() :: a > 0
  {
    forall i | 0 <= i < |p.blocks| ensures p.Addrs()[i] > 0 {
      assert p.BlockOk(p.blocks[i]);
    }
  }

  lemma AddrsGrow(p: PoolState, q: PoolState)
    requires |q.blocks| == |p.blocks| + 1 && q.blocks[..|p.blocks|] == p.blocks
    ensures q.Addrs() == p.Addrs() + [q.blocks[|p.blocks|].addr]
  {
    assert forall i :: 0 <= i < |p.blocks| ==> q.blocks[i] == q.blocks[..|p.blocks|][i];
  }

  lemma AddedIsOrdered(g: Graph, p: PoolState, q: PoolState, shape: Shape)
    requires g.Ordered() && g.addrs == p.Addrs() && q.Ok() && |q.blocks| == |p.blocks| + 1
    requires q.Addrs() == p.Addrs() + [q.blocks[|p.blocks|].addr]
    requires forall c :: 0 <= c < |shape.kids| ==> shape.kids[c] in g.addrs && shape.kids[c] != 0
    ensures Graph(q.Addrs(), g.nodes + [shape]).Ordered()
  {
    var h := Graph(q.Addrs(), g.nodes + [shape]);
    forall i, j | 0 <= i < j < |h.addrs| ensures h.addrs[i] < h.addrs[j] {
      assert q.BlockOk(q.blocks[i]) && q.blocks[i].addr + q.blocks[i].bytes <= q.blocks[j].addr;
    }
    forall k | 0 <= k < |h.nodes| ensures h.KidsBelow(h.nodes[k].kids, k) {
      assert h.addrs[..k] == g.addrs[..k];
      if k < |g.nodes| {
        assert g.KidsBelow(g.nodes[k].kids, k);
      } else {
        assert g.addrs[..k] == g.addrs;
      }
    }
  }
}
