/** Evaluation with addresses: the values are pointers to nodes of an AST, each `new_*` call
    checks the pointers that it is given, and what a pointer leads to is read off the graph. */
module Addresses {
  import opened Wrappers
  import opened Search
  import opened Syntax
  import opened Pool
  import opened Ast
  import opened Types
  import opened Eval
  import opened EvalProofs
  import opened Elaboration

  datatype Pointer = AtNode(addr: nat) | AtList(addrs: seq<nat>) | AtText(text: string)
  datatype AddrVal = AddrVal(ty: ObjType, at: Pointer)

  /** What the type checks see of a value. */
  function Plain(v: AddrVal): Val {
    Val(v.ty, NoData)
  }

  function Plains(vs: seq<AddrVal>): (ps: seq<Val>)
    ensures |ps| == |vs|
  {
    seq(|vs|, k requires 0 <= k < |vs| => Plain(vs[k]))
  }

  predicate TypesOk(tt: Table, vs: seq<AddrVal>) {
    forall k :: 0 <= k < |vs| ==> tt.ArgOk(vs[k].ty)
  }

  // `node_arg`, `list_arg` and `cptr_arg`: a field, and the child pointers in it.

  function SlotOf(f: Field): Slot {
    match f
    case NodeF(_) => NodeSlot
    case ListF(objs) => ListSlot(|objs|)
    case StrF(s) => TextSlot(s)
    case EnumF(v) => ValueSlot(v)
  }

  function SlotsOf(fields: seq<Field>): seq<Slot> {
    seq(|fields|, k requires 0 <= k < |fields| => SlotOf(fields[k]))
  }

  function ArgAt(ty: ObjType, v: AddrVal): Result<(Slot, seq<nat>), EvalError> {
    match ty
    case NodeT(_) => if v.at.AtNode? then Success((NodeSlot, [v.at.addr])) else Failure(TypeMismatch)
    case ListT(_) => if v.at.AtList? then Success((ListSlot(|v.at.addrs|), v.at.addrs)) else Failure(TypeMismatch)
    case CptrT(cptr) =>
      if !v.at.AtText? then Failure(TypeMismatch)
      else
        var f :- CptrCast(cptr, v.at.text);
        Success((SlotOf(f), []))
  }

  function ArgsAtFrom(defs: seq<ArgDef>, vs: seq<AddrVal>, k: nat): Result<(seq<Slot>, seq<nat>), EvalError>
    requires k <= |vs| == |defs|
    decreases |vs| - k
  {
    if k == |vs| then Success(([], []))
    else
      var (slot, kids) :- ArgAt(defs[k].ty, vs[k]);
      var (slots, more) :- ArgsAtFrom(defs, vs, k + 1);
      Success(([slot] + slots, kids + more))
  }

  /** Strings are copied before their node is allocated. */
  function CopyTexts(slots: seq<Slot>, p: Pools): Result<Pools, EvalError>
    decreases |slots|
  {
    if slots == [] then Success(p)
    else if slots[0].TextSlot? then
      var p1 :- RawAlloc(p, |slots[0].text| + 1, 1);
      CopyTexts(slots[1..], p1)
    else CopyTexts(slots[1..], p)
  }

  function ErrorOf(e: AstError): EvalError
    requires !e.Thrown?
  {
    match e
    case InvalidPointer(a) => EvalError.InvalidPointer(a)
    case NoSpace(why) => PoolExhausted(why)
  }

  /** A `new_*` call: copy the strings, check the children, allocate the node. */
  function NewAt(ty: AstType, slots: seq<Slot>, kids: seq<nat>, h: Heap): Result<(nat, Heap), EvalError>
    requires ty.align > 0
  {
    var p :- CopyTexts(slots, h.pools);
    match h.(pools := p).NewNode(Shape(ty.name, slots, kids), ty.size, ty.align)
    case Success(made) => Success(made)
    case Failure(e) => Failure(ErrorOf(e))
  }

  predicate FitsSizeT(ty: AstType, slots: seq<Slot>) {
    && ty.size < SIZE_LIMIT && ty.align < SIZE_LIMIT
    && forall k :: 0 <= k < |slots| ==> (slots[k].TextSlot? ==> |slots[k].text| + 1 < SIZE_LIMIT)
  }

  /** The `new_*` call of the AST itself. */
  method New(ast: BaseAst, ty: AstType, slots: seq<Slot>, kids: seq<SizeT>) returns (r: Result<SizeT, EvalError>)
    requires ast.Valid() && ty.align > 0 && FitsSizeT(ty, slots)
    modifies ast.Repr()
    ensures ast.Valid()
    ensures match NewAt(ty, slots, AsNats(kids), old(ast.TheHeap()))
            case Success((a, h)) => r.Success? && r.value as nat == a && ast.TheHeap() == h
            case Failure(e) => r == Failure(e)
  {
    hide Heap.NewNode, Heap.Ok, PoolState.Allocate;
    ghost var h := ast.TheHeap();
    var k := 0;
    assert slots[0..] == slots;
    while k < |slots|
      invariant 0 <= k <= |slots| && ast.Valid()
      invariant ast.TheHeap() == h.(pools := ast.TheHeap().pools)
      invariant CopyTexts(slots, h.pools) == CopyTexts(slots[k..], ast.TheHeap().pools)
    {
      assert slots[k..][0] == slots[k] && slots[k..][1..] == slots[k + 1..];
      if slots[k].TextSlot? {
        var copy := ast.NewRaw((|slots[k].text| + 1) as SizeT, 1);
        if copy.Failure? {
          return Failure(ErrorOf(copy.error));
        }
      }
      k := k + 1;
    }
    var made := ast.NewNode(ty.name, slots, kids, ty.size as SizeT, ty.align as SizeT, false);
    if made.Failure? {
      return Failure(ErrorOf(made.error));
    }
    return Success(made.value);
  }

  function AddrsFrom(vs: seq<AddrVal>, k: nat): Result<seq<nat>, EvalError>
    requires k <= |vs|
    decreases |vs| - k
  {
    if k == |vs| then Success([])
    else if !vs[k].at.AtNode? then Failure(TypeMismatch)
    else
      var more :- AddrsFrom(vs, k + 1);
      Success([vs[k].at.addr] + more)
  }

  // The makers and the evaluator, as in `Eval` but on pointers.

  function MakeNodeAt(c: Ctx, name: string, a: NodeArgs, vs: seq<AddrVal>,
                      h: Heap): (r: Result<(AddrVal, Heap), EvalError>)
    requires CtxOk(c) && |vs| == Arity(a) && TypesOk(c.tt, vs)
    ensures r.Success? ==> c.tt.ArgOk(r.value.0.ty)
  {
    match c.tt.Lookup(name)
    case None => Failure(UnknownType(name))
    case Some(t) =>
      match CheckNode(c, t, a, Plains(vs))
      case Fail(e) => Failure(e)
      case Pass =>
        var (slots, kids) :- ArgsAtFrom(c.tt.types[t].args, vs, 0);
        var (at, h1) :- NewAt(c.tt.types[t], slots, kids, h);
        Success((AddrVal(NodeT(t), AtNode(at)), h1))
  }

  function MakeListAt(c: Ctx, base: string, vs: seq<AddrVal>, h: Heap): (r: Result<(AddrVal, Heap), EvalError>)
    requires CtxOk(c) && TypesOk(c.tt, vs)
    ensures r.Success? ==> c.tt.ArgOk(r.value.0.ty)
  {
    match c.tt.Lookup(base)
    case None => Failure(UnknownType(base))
    case Some(t) =>
      match CheckElemsFrom(c, t, Plains(vs), 0)
      case Fail(e) => Failure(e)
      case Pass =>
        var p :- AllocList(|vs|, h.pools);
        var addrs :- AddrsFrom(vs, 0);
        Success((AddrVal(ListT(t), AtList(addrs)), h.(pools := p)))
  }

  function MakeTextAt(s: string): AddrVal {
    AddrVal(CptrT(CharPtr), AtText(s))
  }

  function EvNodeAt(c: Ctx, n: TreeNode, h: Heap): (r: Result<(AddrVal, Heap), EvalError>)
    requires CtxOk(c)
    ensures r.Success? ==> c.tt.ArgOk(r.value.0.ty)
    decreases n, 0
  {
    match n.args
    case LiteralArgs(s) => MakeNodeAt(c, n.name, n.args, [MakeTextAt(s)], h)
    case ListArgs(list) =>
      var (vs, h1) :- EvArgsAt(c, list, 0, [], h);
      MakeNodeAt(c, n.name, n.args, vs, h1)
  }

  function EvArgsAt(c: Ctx, list: seq<NodeArg>, k: nat, acc: seq<AddrVal>, h: Heap)
    : (r: Result<(seq<AddrVal>, Heap), EvalError>)
    requires CtxOk(c) && k <= |list| && |acc| == k && TypesOk(c.tt, acc)
    ensures r.Success? ==> |r.value.0| == |list| && TypesOk(c.tt, r.value.0)
    decreases list, |list| - k
  {
    if k == |list| then Success((acc, h))
    else
      var (v, h1) :- EvArgAt(c, list[k], h);
      EvArgsAt(c, list, k + 1, acc + [v], h1)
  }

  function EvArgAt(c: Ctx, a: NodeArg, h: Heap): (r: Result<(AddrVal, Heap), EvalError>)
    requires CtxOk(c)
    ensures r.Success? ==> c.tt.ArgOk(r.value.0.ty)
    decreases a, 0
  {
    match a.value
    case NodeValue(n) => EvNodeAt(c, n, h)
    case ListValue(base, elems) =>
      var (vs, h1) :- EvElemsAt(c, elems, 0, [], h);
      MakeListAt(c, base, vs, h1)
    case LiteralValue(s) => Success((MakeTextAt(s), h))
  }

  function EvElemsAt(c: Ctx, elems: seq<ListElem>, k: nat, acc: seq<AddrVal>, h: Heap)
    : (r: Result<(seq<AddrVal>, Heap), EvalError>)
    requires CtxOk(c) && k <= |elems| && |acc| == k && TypesOk(c.tt, acc)
    ensures r.Success? ==> |r.value.0| == |elems| && TypesOk(c.tt, r.value.0)
    decreases elems, |elems| - k
  {
    if k == |elems| then Success((acc, h))
    else
      var (v, h1) :- EvElemAt(c, elems[k], k, h);
      EvElemsAt(c, elems, k + 1, acc + [v], h1)
  }

  function EvElemAt(c: Ctx, e: ListElem, k: nat, h: Heap): (r: Result<(AddrVal, Heap), EvalError>)
    requires CtxOk(c)
    ensures r.Success? ==> c.tt.ArgOk(r.value.0.ty)
    decreases e, 0
  {
    if e.index != k then Failure(InvalidListIndex(e.index, k)) else EvNodeAt(c, e.node, h)
  }

  // What a pointer leads to.

  /** An object as a visitor of the graph sees it. */
  function TreeShape(tt: Table, o: Obj): Tree
    decreases o, 0
  {
    Node(if o.id < |tt.types| then tt.types[o.id].name else "",
         SlotsOf(o.fields),
         KidShapes(tt, o.fields, 0))
  }

  function KidShapes(tt: Table, fields: seq<Field>, k: nat): seq<Tree>
    requires k <= |fields|
    decreases fields, |fields| - k
  {
    if k == |fields| then [] else FieldShapes(tt, fields[k]) + KidShapes(tt, fields, k + 1)
  }

  function FieldShapes(tt: Table, f: Field): seq<Tree>
    decreases f, 0
  {
    match f
    case NodeF(o) => [TreeShape(tt, o)]
    case ListF(objs) => seq(|objs|, k requires 0 <= k < |objs| => TreeShape(tt, objs[k]))
    case _ => []
  }

  /** Live pointers that lead to the given trees. */
  predicate Lead(g: Graph, addrs: seq<nat>, ts: seq<Tree>)
    requires g.Ordered()
  {
    |addrs| == |ts| && forall i :: 0 <= i < |addrs| ==> LeadsTo(g, addrs[i], ts[i])
  }

  predicate LeadsTo(g: Graph, a: nat, t: Tree)
    requires g.Ordered()
  {
    a in g.addrs && Unfold(g, g.Ordinal(a)) == t
  }

  /** A pointer value that stands for a value of `Eval`. */
  predicate StandsFor(tt: Table, h: Heap, v: AddrVal, w: Val)
    requires h.Ok()
  {
    && v.ty == w.ty
    && match v.at
       case AtNode(a) => w.data.NodeD? && LeadsTo(h.TheGraph(), a, TreeShape(tt, w.data.obj))
       case AtList(addrs) => w.data.ListD? && Lead(h.TheGraph(), addrs, FieldShapes(tt, ListF(w.data.objs)))
       case AtText(s) => w.data == CptrD(s)
  }

  predicate StandForAll(tt: Table, h: Heap, vs: seq<AddrVal>, ws: seq<Val>)
    requires h.Ok()
  {
    |vs| == |ws| && forall k :: 0 <= k < |vs| ==> StandsFor(tt, h, vs[k], ws[k])
  }

  /** The same result: the same error, or values that stand for each other and equal pools. */
  predicate Agree(tt: Table, h: Heap, ra: Result<(AddrVal, Heap), EvalError>, r: Result<(Val, Pools), EvalError>) {
    match r
    case Success((w, p)) =>
      && ra.Success? && ra.value.1.Ok() && h.GrowsTo(ra.value.1) && ra.value.1.pools == p
      && StandsFor(tt, ra.value.1, ra.value.0, w)
    case Failure(e) => ra == Failure(e)
  }

  predicate AgreeAll(tt: Table, h: Heap, ra: Result<(seq<AddrVal>, Heap), EvalError>,
                     r: Result<(seq<Val>, Pools), EvalError>) {
    match r
    case Success((ws, p)) =>
      && ra.Success? && ra.value.1.Ok() && h.GrowsTo(ra.value.1) && ra.value.1.pools == p
      && StandForAll(tt, ra.value.1, ra.value.0, ws)
    case Failure(e) => ra == Failure(e)
  }

  predicate FieldAgrees(tt: Table, h: Heap, ra: Result<(Slot, seq<nat>), EvalError>, r: Result<Field, EvalError>)
    requires h.Ok()
  {
    match r
    case Success(f) =>
      ra.Success? && ra.value.0 == SlotOf(f) && Lead(h.TheGraph(), ra.value.1, FieldShapes(tt, f))
    case Failure(e) => ra == Failure(e)
  }

  predicate FieldsAgree(tt: Table, h: Heap, ra: Result<(seq<Slot>, seq<nat>), EvalError>,
                        r: Result<seq<Field>, EvalError>)
    requires h.Ok()
  {
    match r
    case Success(fields) =>
      ra.Success? && ra.value.0 == SlotsOf(fields) && Lead(h.TheGraph(), ra.value.1, KidShapes(tt, fields, 0))
    case Failure(e) => ra == Failure(e)
  }

  predicate NewAgrees(tt: Table, h: Heap, ra: Result<(nat, Heap), EvalError>, r: Result<Pools, EvalError>, o: Obj) {
    match r
    case Success(p) =>
      && ra.Success? && ra.value.1.Ok() && h.GrowsTo(ra.value.1) && ra.value.1.pools == p
      && LeadsTo(ra.value.1.TheGraph(), ra.value.0, TreeShape(tt, o))
    case Failure(e) => ra == Failure(e)
  }

  // Pointers keep leading where they led.

  lemma LeadsOn(g: Graph, h: Graph, a: nat, t: Tree)
    requires g.Ordered() && h.Ordered() && g.nodes <= h.nodes && g.addrs <= h.addrs && LeadsTo(g, a, t)
    ensures LeadsTo(h, a, t)
  {
    hide Unfold;
    var k := g.Ordinal(a);
    assert h.addrs[k] == a;
    h.OrdinalIs(a, k);
    UnfoldIsStable(g, h, k);
  }

  lemma StandsOn(tt: Table, h: Heap, h1: Heap, v: AddrVal, w: Val)
    requires h.Ok() && h1.Ok() && h.GrowsTo(h1) && StandsFor(tt, h, v, w)
    ensures StandsFor(tt, h1, v, w)
  {
    hide LeadsTo, TreeShape, FieldShapes, Heap.Ok;
    var g, g1 := h.TheGraph(), h1.TheGraph();
    assert g.Ordered() && g1.Ordered() by {
      OkIsOrdered(h);
      OkIsOrdered(h1);
    }
    match v.at
    case AtNode(a) => LeadsOn(g, g1, a, TreeShape(tt, w.data.obj));
    case AtList(addrs) =>
      var ts := FieldShapes(tt, ListF(w.data.objs));
      forall i | 0 <= i < |addrs| ensures LeadsTo(g1, addrs[i], ts[i]) {
        LeadsOn(g, g1, addrs[i], ts[i]);
      }
    case AtText(_) =>
  }

  lemma OkIsOrdered(h: Heap)
    requires h.Ok()
    ensures h.TheGraph().Ordered()
  {
  }

  lemma AllStandOn(tt: Table, h: Heap, h1: Heap, vs: seq<AddrVal>, ws: seq<Val>)
    requires h.Ok() && h1.Ok() && h.GrowsTo(h1) && StandForAll(tt, h, vs, ws)
    ensures StandForAll(tt, h1, vs, ws)
  {
    hide StandsFor, Heap.Ok;
    forall k | 0 <= k < |vs| ensures StandsFor(tt, h1, vs[k], ws[k]) {
      StandsOn(tt, h, h1, vs[k], ws[k]);
    }
  }

  /** The children of a node, through pointers that lead to them. */
  lemma {:induction false} KidsLead(g: Graph, k: nat, kids: seq<nat>, ts: seq<Tree>)
    requires g.Ordered() && k < |g.nodes| && g.KidsBelow(kids, k) && Lead(g, kids, ts)
    ensures UnfoldAll(g, k, kids) == ts
    decreases |kids|
  {
    hide Unfold, Graph.Ordinal, Graph.Ordered, LeadsTo;
    if kids != [] {
      var last := |kids| - 1;
      KidIsOlder(g, k, kids, last);
      KidsLead(g, k, kids[..last], ts[..last]);
      assert LeadsTo(g, kids[last], ts[last]);
      UnfoldOf(g, kids[last], ts[last]);
      assert ts == ts[..last] + [ts[last]];
    }
  }

  lemma UnfoldOf(g: Graph, a: nat, t: Tree)
    requires g.Ordered() && LeadsTo(g, a, t)
    ensures a in g.addrs && Unfold(g, g.Ordinal(a)) == t
  {
  }

  // Step by step, both evaluations agree.

  lemma ArgMatches(tt: Table, h: Heap, ty: ObjType, v: AddrVal, w: Val)
    requires h.Ok() && StandsFor(tt, h, v, w)
    ensures FieldAgrees(tt, h, ArgAt(ty, v), FieldOf(ty, w))
  {
    hide LeadsTo, TreeShape, Heap.Ok;
    OkIsOrdered(h);
  }

  lemma {:induction false} KidsShift(tt: Table, f: Field, fields: seq<Field>, k: nat)
    requires k <= |fields|
    ensures KidShapes(tt, [f] + fields, k + 1) == KidShapes(tt, fields, k)
    decreases |fields| - k
  {
    hide FieldShapes;
    if k < |fields| {
      KidsShift(tt, f, fields, k + 1);
    }
  }

  lemma LeadBoth(g: Graph, a: seq<nat>, b: seq<nat>, ts: seq<Tree>, us: seq<Tree>)
    requires g.Ordered() && Lead(g, a, ts) && Lead(g, b, us)
    ensures Lead(g, a + b, ts + us)
  {
    hide LeadsTo;
  }

  lemma {:induction false} ArgsMatch(tt: Table, h: Heap, defs: seq<ArgDef>, vs: seq<AddrVal>, ws: seq<Val>, k: nat)
    requires h.Ok() && StandForAll(tt, h, vs, ws) && k <= |vs| == |defs|
    ensures FieldsAgree(tt, h, ArgsAtFrom(defs, vs, k), FieldsFrom(defs, ws, k))
    decreases |vs| - k
  {
    hide StandsFor, FieldOf, ArgAt, FieldShapes, LeadsTo, Heap.Ok;
    OkIsOrdered(h);
    if k < |vs| {
      ArgMatches(tt, h, defs[k].ty, vs[k], ws[k]);
      ArgsMatch(tt, h, defs, vs, ws, k + 1);
      var f, rest := FieldOf(defs[k].ty, ws[k]), FieldsFrom(defs, ws, k + 1);
      if f.Success? && rest.Success? {
        var (slot, kids) := ArgAt(defs[k].ty, vs[k]).value;
        var (slots, more) := ArgsAtFrom(defs, vs, k + 1).value;
        assert SlotsOf([f.value] + rest.value) == [slot] + slots;
        KidsShift(tt, f.value, rest.value, 0);
        assert ([f.value] + rest.value)[0] == f.value;
        LeadBoth(h.TheGraph(), kids, more, FieldShapes(tt, f.value), KidShapes(tt, rest.value, 0));
      }
    }
  }

  lemma {:induction false} TextsMatch(fields: seq<Field>, k: nat, p: Pools)
    requires k <= |fields|
    ensures CopyTexts(SlotsOf(fields)[k..], p) == AllocStrings(fields, k, p)
    decreases |fields| - k
  {
    hide RawAlloc;
    if k < |fields| {
      var slots := SlotsOf(fields);
      assert slots[k..][0] == SlotOf(fields[k]) && slots[k..][1..] == slots[k + 1..];
      if fields[k].StrF? {
        var r := RawAlloc(p, |fields[k].str| + 1, 1);
        if r.Success? {
          TextsMatch(fields, k + 1, r.value);
        }
      } else {
        TextsMatch(fields, k + 1, p);
      }
    }
  }

  /** Raw memory is apart from the nodes. */
  lemma RawIsApart(p: Pools, nbytes: nat, align: nat)
    requires align > 0 && p.raw.Ok() && RawAlloc(p, nbytes, align).Success?
    ensures var p1 := RawAlloc(p, nbytes, align).value; p1.node == p.node && p1.raw.Ok()
  {
    hide PoolState.Ok, PoolState.Allocate;
    StepKeepsOk(p.raw, Alloc(nbytes, align));
  }

  lemma {:induction false} TextsAreApart(fields: seq<Field>, k: nat, p: Pools)
    requires k <= |fields| && p.raw.Ok() && AllocStrings(fields, k, p).Success?
    ensures var p1 := AllocStrings(fields, k, p).value; p1.node == p.node && p1.raw.Ok()
    decreases |fields| - k
  {
    hide RawAlloc, PoolState.Ok;
    if k < |fields| {
      if fields[k].StrF? {
        RawIsApart(p, |fields[k].str| + 1, 1);
        TextsAreApart(fields, k + 1, RawAlloc(p, |fields[k].str| + 1, 1).value);
      } else {
        TextsAreApart(fields, k + 1, p);
      }
    }
  }

  lemma SameGraph(h: Heap, p: Pools)
    requires h.Ok() && p.node == h.pools.node && p.raw.Ok()
    ensures h.(pools := p).Ok() && h.GrowsTo(h.(pools := p)) && h.(pools := p).TheGraph() == h.TheGraph()
  {
    hide PoolState.Ok, Graph.Ordered;
  }

  /** A new node leads to its class, its fields and the trees of its children. */
  lemma NewLeads(h: Heap, shape: Shape, size: nat, align: nat, ts: seq<Tree>)
    requires h.Ok() && align > 0 && h.NewNode(shape, size, align).Success? && Lead(h.TheGraph(), shape.kids, ts)
    ensures var (a, h1) := h.NewNode(shape, size, align).value;
            && h1.Ok() && h.GrowsTo(h1)
            && LeadsTo(h1.TheGraph(), a, Node(shape.class_, shape.slots, ts))
  {
    hide Heap.Ok, Heap.NewNode, UnfoldAll, LeadsTo, Graph.Ordinal;
    var (a, h1) := h.NewNode(shape, size, align).value;
    NewNodeIsOk(h, shape, size, align);
    OkIsOrdered(h);
    OkIsOrdered(h1);
    var g, g1, n := h.TheGraph(), h1.TheGraph(), |h.nodes|;
    assert g1.addrs[n] == a && g1.nodes[n] == shape;
    forall i | 0 <= i < |shape.kids| ensures LeadsTo(g1, shape.kids[i], ts[i]) {
      LeadsOn(g, g1, shape.kids[i], ts[i]);
    }
    assert g1.KidsBelow(shape.kids, n);
    KidsLead(g1, n, shape.kids, ts);
    g1.OrdinalIs(a, n);
    NewIs(g1, a, n, shape, ts);
  }

  lemma NewIs(g: Graph, a: nat, n: nat, shape: Shape, ts: seq<Tree>)
    requires g.Ordered() && n < |g.nodes| && g.nodes[n] == shape && g.addrs[n] == a && g.Ordinal(a) == n
    requires UnfoldAll(g, n, shape.kids) == ts
    ensures LeadsTo(g, a, Node(shape.class_, shape.slots, ts))
  {
    hide UnfoldAll, Graph.Ordinal;
    assert a in g.addrs;
  }

  lemma NewMatches(tt: Table, t: TypeId, fields: seq<Field>, kids: seq<nat>, h: Heap)
    requires h.Ok() && t < |tt.types| && tt.types[t].align > 0
    requires Lead(h.TheGraph(), kids, KidShapes(tt, fields, 0))
    ensures NewAgrees(tt, h, NewAt(tt.types[t], SlotsOf(fields), kids, h),
                      AllocNode(tt.types[t], fields, h.pools), Obj(t, fields))
  {
    hide CopyTexts, AllocStrings, KidShapes, SlotsOf, LeadsTo, Graph.Ordered, PoolState.Ok, PoolState.Allocate;
    TextsMatch(fields, 0, h.pools);
    assert SlotsOf(fields)[0..] == SlotsOf(fields);
    var copied := AllocStrings(fields, 0, h.pools);
    if copied.Success? {
      TextsAreApart(fields, 0, h.pools);
      SameGraph(h, copied.value);
      var h1, shape := h.(pools := copied.value), Shape(tt.types[t].name, SlotsOf(fields), kids);
      KidsAreLive(h1, kids, KidShapes(tt, fields, 0));
      if h1.NewNode(shape, tt.types[t].size, tt.types[t].align).Success? {
        NewLeads(h1, shape, tt.types[t].size, tt.types[t].align, KidShapes(tt, fields, 0));
      }
    }
  }

  /** Pointers that lead somewhere pass the check of a `new_*` call. */
  lemma KidsAreLive(h: Heap, kids: seq<nat>, ts: seq<Tree>)
    requires h.Ok() && Lead(h.TheGraph(), kids, ts)
    ensures h.CheckKids(kids).Pass?
  {
    hide Unfold, Heap.Ok;
    OkIsOrdered(h);
    forall c | 0 <= c < |kids| ensures kids[c] in h.Addrs() {
      assert LeadsTo(h.TheGraph(), kids[c], ts[c]);
    }
  }

  lemma SameChecks(c: Ctx, h: Heap, t: TypeId, a: NodeArgs, vs: seq<AddrVal>, ws: seq<Val>)
    requires CtxOk(c) && h.Ok() && t < |c.tt.types| && |vs| == Arity(a)
    requires TypesOk(c.tt, vs) && AllOk(c.tt, ws) && StandForAll(c.tt, h, vs, ws)
    ensures CheckNode(c, t, a, Plains(vs)) == CheckNode(c, t, a, ws)
  {
    hide Table.ObjCasts, CheckArgsFrom, Heap.Ok, LeadsTo, FieldShapes, TreeShape;
    AllTypes(c.tt, h, vs, ws);
    if a.ListArgs? && |c.tt.types[t].args| == Arity(a) {
      ChecksSeeTypesOnly(c, c, t, a.list, Plains(vs), ws, 0);
    }
  }

  lemma AllTypes(tt: Table, h: Heap, vs: seq<AddrVal>, ws: seq<Val>)
    requires h.Ok() && StandForAll(tt, h, vs, ws)
    ensures SameTypes(Plains(vs), ws)
  {
    hide Heap.Ok, LeadsTo, FieldShapes, TreeShape;
    forall k | 0 <= k < |vs| ensures Plains(vs)[k].ty == ws[k].ty {
      assert StandsFor(tt, h, vs[k], ws[k]);
    }
  }

  lemma MakeNodeMatches(c: Ctx, name: string, a: NodeArgs, vs: seq<AddrVal>, ws: seq<Val>, h: Heap)
    requires CtxOk(c) && c.mode == BuildMode && h.Ok() && |vs| == Arity(a)
    requires TypesOk(c.tt, vs) && AllOk(c.tt, ws) && StandForAll(c.tt, h, vs, ws)
    ensures Agree(c.tt, h, MakeNodeAt(c, name, a, vs, h), MakeNode(c, name, a, ws, h.pools))
  {
    hide Table.Lookup, CheckNode, FieldsFrom, ArgsAtFrom, AllocNode, NewAt, StandForAll, LeadsTo, TreeShape, Heap.Ok,
         Lead;
    if c.tt.Lookup(name).Some? {
      var t := c.tt.Lookup(name).value;
      StandCount(c.tt, h, vs, ws);
      SameChecks(c, h, t, a, vs, ws);
      if CheckNode(c, t, a, ws).Pass? {
        CountIsRight(c, t, a, ws);
        ArgsMatch(c.tt, h, c.tt.types[t].args, vs, ws, 0);
        var fields := FieldsFrom(c.tt.types[t].args, ws, 0);
        if fields.Success? {
          NewMatches(c.tt, t, fields.value, ArgsAtFrom(c.tt.types[t].args, vs, 0).value.1, h);
        }
      }
    }
  }

  lemma CountIsRight(c: Ctx, t: TypeId, a: NodeArgs, ws: seq<Val>)
    requires CtxOk(c) && t < |c.tt.types| && |ws| == Arity(a) && AllOk(c.tt, ws) && CheckNode(c, t, a, ws).Pass?
    ensures |c.tt.types[t].args| == |ws|
  {
  }

  lemma StandCount(tt: Table, h: Heap, vs: seq<AddrVal>, ws: seq<Val>)
    requires h.Ok() && StandForAll(tt, h, vs, ws)
    ensures |vs| == |ws|
  {
  }

  lemma {:induction false} AddrsMatch(tt: Table, h: Heap, vs: seq<AddrVal>, ws: seq<Val>, k: nat)
    requires h.Ok() && StandForAll(tt, h, vs, ws) && k <= |vs|
    ensures AddrsAgree(tt, h, AddrsFrom(vs, k), ObjsFrom(ws, k))
    decreases |vs| - k
  {
    hide LeadsTo, TreeShape, Heap.Ok;
    OkIsOrdered(h);
    if k < |vs| {
      assert StandsFor(tt, h, vs[k], ws[k]);
      AddrsMatch(tt, h, vs, ws, k + 1);
    }
  }

  predicate AddrsAgree(tt: Table, h: Heap, ra: Result<seq<nat>, EvalError>, r: Result<seq<Obj>, EvalError>)
    requires h.Ok()
  {
    match r
    case Success(objs) => ra.Success? && Lead(h.TheGraph(), ra.value, FieldShapes(tt, ListF(objs)))
    case Failure(e) => ra == Failure(e)
  }

  lemma MakeListMatches(c: Ctx, base: string, vs: seq<AddrVal>, ws: seq<Val>, h: Heap)
    requires CtxOk(c) && c.mode == BuildMode && h.Ok()
    requires TypesOk(c.tt, vs) && AllOk(c.tt, ws) && StandForAll(c.tt, h, vs, ws)
    ensures Agree(c.tt, h, MakeListAt(c, base, vs, h), MakeList(c, base, ws, h.pools))
  {
    hide Table.Lookup, Table.Casts, CheckElemsFrom, ObjsFrom, AddrsFrom, StandForAll, LeadsTo, RawAlloc,
         Graph.Ordered, PoolState.Ok, FieldShapes;
    if c.tt.Lookup(base).Some? {
      var t := c.tt.Lookup(base).value;
      AllTypes(c.tt, h, vs, ws);
      StandCount(c.tt, h, vs, ws);
      ElemChecksSeeTypesOnly(c, c, t, Plains(vs), ws, 0);
      AddrsMatch(c.tt, h, vs, ws, 0);
      var p := AllocList(|ws|, h.pools);
      if p.Success? {
        if |ws| > 0 {
          RawIsApart(h.pools, |ws| * PTR_SIZE, PTR_SIZE);
        }
        SameGraph(h, p.value);
      }
    }
  }

  /** Evaluation with addresses, in any AST that is in order, gives what `Eval` gives: the same
      errors, the same pools, and pointers that lead to the objects. */
  lemma {:induction false} AddressesAgree(c: Ctx, n: TreeNode, h: Heap)
    requires CtxOk(c) && c.mode == BuildMode && h.Ok()
    ensures Agree(c.tt, h, EvNodeAt(c, n, h), EvNode(c, n, h.pools))
    decreases n, 0
  {
    hide MakeNode, MakeNodeAt, EvArgsFrom, EvArgsAt, Heap.Ok, LeadsTo, Agree;
    match n.args
    case LiteralArgs(s) =>
      MakeNodeMatches(c, n.name, n.args, [MakeTextAt(s)], [MakeCptr(c, s)], h);
    case ListArgs(list) =>
      ArgsAgree(c, list, 0, [], [], h);
      var ra, r := EvArgsAt(c, list, 0, [], h), EvArgsFrom(c, list, 0, [], h.pools);
      if r.Success? {
        MakeNodeMatches(c, n.name, n.args, ra.value.0, r.value.0, ra.value.1);
        AgreeLater(c.tt, h, ra.value.1, MakeNodeAt(c, n.name, n.args, ra.value.0, ra.value.1),
                   MakeNode(c, n.name, n.args, r.value.0, r.value.1));
      } else {
        FailuresAgree(c.tt, h, r.error);
      }
  }

  lemma AgreeLater(tt: Table, h: Heap, h1: Heap, ra: Result<(AddrVal, Heap), EvalError>,
                   r: Result<(Val, Pools), EvalError>)
    requires h.GrowsTo(h1) && Agree(tt, h1, ra, r)
    ensures Agree(tt, h, ra, r)
  {
    hide Heap.Ok, StandsFor;
  }

  lemma FailuresAgree(tt: Table, h: Heap, e: EvalError)
    ensures Agree(tt, h, Failure(e), Failure(e))
  {
  }

  lemma {:induction false} ArgsAgree(c: Ctx, list: seq<NodeArg>, k: nat, vs: seq<AddrVal>, ws: seq<Val>, h: Heap)
    requires CtxOk(c) && c.mode == BuildMode && h.Ok() && k <= |list| && |vs| == k
    requires TypesOk(c.tt, vs) && AllOk(c.tt, ws) && StandForAll(c.tt, h, vs, ws)
    ensures AgreeAll(c.tt, h, EvArgsAt(c, list, k, vs, h), EvArgsFrom(c, list, k, ws, h.pools))
    decreases list, |list| - k
  {
    hide EvArg, EvArgAt, StandsFor, Heap.Ok;
    if k < |list| {
      ArgAgrees(c, list[k], h);
      var ra, r := EvArgAt(c, list[k], h), EvArg(c, list[k], h.pools);
      if r.Success? {
        AllStandOn(c.tt, h, ra.value.1, vs, ws);
        ArgsAgree(c, list, k + 1, vs + [ra.value.0], ws + [r.value.0], ra.value.1);
      }
    }
  }

  lemma {:induction false} ArgAgrees(c: Ctx, a: NodeArg, h: Heap)
    requires CtxOk(c) && c.mode == BuildMode && h.Ok()
    ensures Agree(c.tt, h, EvArgAt(c, a, h), EvArg(c, a, h.pools))
    decreases a, 0
  {
    hide MakeList, MakeListAt, EvElemsFrom, EvElemsAt, EvNode, EvNodeAt, Heap.Ok, LeadsTo;
    match a.value
    case NodeValue(n) => AddressesAgree(c, n, h);
    case LiteralValue(_) =>
    case ListValue(base, elems) =>
      ElemsAgree(c, elems, 0, [], [], h);
      var ra, r := EvElemsAt(c, elems, 0, [], h), EvElemsFrom(c, elems, 0, [], h.pools);
      if r.Success? {
        MakeListMatches(c, base, ra.value.0, r.value.0, ra.value.1);
        AgreeLater(c.tt, h, ra.value.1, MakeListAt(c, base, ra.value.0, ra.value.1),
                   MakeList(c, base, r.value.0, r.value.1));
      }
  }

  lemma {:induction false} ElemsAgree(c: Ctx, elems: seq<ListElem>, k: nat, vs: seq<AddrVal>, ws: seq<Val>, h: Heap)
    requires CtxOk(c) && c.mode == BuildMode && h.Ok() && k <= |elems| && |vs| == k
    requires TypesOk(c.tt, vs) && AllOk(c.tt, ws) && StandForAll(c.tt, h, vs, ws)
    ensures AgreeAll(c.tt, h, EvElemsAt(c, elems, k, vs, h), EvElemsFrom(c, elems, k, ws, h.pools))
    decreases elems, |elems| - k
  {
    hide EvElem, EvElemAt, StandsFor, Heap.Ok;
    if k < |elems| {
      ElemAgrees(c, elems[k], k, h);
      var ra, r := EvElemAt(c, elems[k], k, h), EvElem(c, elems[k], k, h.pools);
      if r.Success? {
        AllStandOn(c.tt, h, ra.value.1, vs, ws);
        ElemsAgree(c, elems, k + 1, vs + [ra.value.0], ws + [r.value.0], ra.value.1);
      }
    }
  }

  lemma {:induction false} ElemAgrees(c: Ctx, e: ListElem, k: nat, h: Heap)
    requires CtxOk(c) && c.mode == BuildMode && h.Ok()
    ensures Agree(c.tt, h, EvElemAt(c, e, k, h), EvElem(c, e, k, h.pools))
    decreases e, 0
  {
    hide EvNode, EvNodeAt, StandsFor, Heap.Ok;
    AddressesAgree(c, e.node, h);
  }

  /** Building in an AST never meets an invalid pointer. When it succeeds with an object, the
      root is a live pointer, the graph unfolds from it to that object, and the pools of the AST
      are those that `Eval` computes. */
  lemma BuiltInTheGraph(c: Ctx, n: TreeNode, h: Heap)
    requires CtxOk(c) && c.mode == BuildMode && h.Ok()
    ensures var ra, r := EvNodeAt(c, n, h), EvNode(c, n, h.pools);
            match r
            case Failure(e) => ra == Failure(e) && !e.InvalidPointer?
            case Success((w, p)) =>
              && w.data.NodeD? && ra.Success? && ra.value.1.Ok() && ra.value.1.pools == p
              && ra.value.0.at.AtNode?
              && LeadsTo(ra.value.1.TheGraph(), ra.value.0.at.addr, TreeShape(c.tt, w.data.obj))
  {
    hide EvNode, EvNodeAt, Heap.Ok, LeadsTo, TreeShape, FieldShapes;
    AddressesAgree(c, n, h);
    EvaluationIsProper(c, n, h.pools);
    NodesAreAtNodes(c, n, h);
  }

  lemma NodesAreAtNodes(c: Ctx, n: TreeNode, h: Heap)
    requires CtxOk(c)
    ensures var ra := EvNodeAt(c, n, h); ra.Success? ==> ra.value.0.ty.NodeT? && ra.value.0.at.AtNode?
  {
    hide EvArgsAt, CheckNode, ArgsAtFrom, NewAt, Table.Lookup;
  }

  // The tree of an object determines the object.

  ghost predicate NamesDiffer(tt: Table) {
    forall t, u :: 0 <= t < |tt.types| && 0 <= u < |tt.types| && tt.types[t].name == tt.types[u].name ==> t == u
  }

  lemma {:induction false} ShapesDiffer(tt: Table, o1: Obj, o2: Obj)
    requires tt.Chained() && NamesDiffer(tt) && WellTyped(tt, false, o1) && WellTyped(tt, false, o2)
    requires TreeShape(tt, o1) == TreeShape(tt, o2)
    ensures o1 == o2
    decreases o1
  {
    hide KidShapes, FieldTyped;
    var f1, f2 := o1.fields, o2.fields;
    assert |SlotsOf(f1)| == |f1| && |SlotsOf(f2)| == |f2|;
    forall k | 0 <= k < |f1| ensures SlotOf(f1[k]) == SlotOf(f2[k]) {
      assert SlotsOf(f1)[k] == SlotsOf(f2)[k];
    }
    FieldShapesDiffer(tt, tt.types[o1.id].args, f1, f2, 0);
    assert f1[0..] == f1 && f2[0..] == f2;
  }

  lemma {:induction false} FieldShapesDiffer(tt: Table, defs: seq<ArgDef>, f1: seq<Field>, f2: seq<Field>, k: nat)
    requires tt.Chained() && NamesDiffer(tt) && k <= |f1| == |f2| == |defs|
    requires forall i :: 0 <= i < |f1| ==>
                 FieldTyped(tt, false, defs[i].ty, f1[i]) && FieldTyped(tt, false, defs[i].ty, f2[i])
    requires forall i :: 0 <= i < |f1| ==> SlotOf(f1[i]) == SlotOf(f2[i])
    requires KidShapes(tt, f1, k) == KidShapes(tt, f2, k)
    ensures f1[k..] == f2[k..]
    decreases f1, |f1| - k
  {
    hide FieldShapes, FieldTyped;
    if k < |f1| {
      ShapeCount(tt, f1[k], f2[k]);
      var a, b := FieldShapes(tt, f1[k]), FieldShapes(tt, f2[k]);
      assert a == (a + KidShapes(tt, f1, k + 1))[..|a|] && b == (b + KidShapes(tt, f2, k + 1))[..|b|];
      assert KidShapes(tt, f1, k + 1) == (a + KidShapes(tt, f1, k + 1))[|a|..];
      assert KidShapes(tt, f2, k + 1) == (b + KidShapes(tt, f2, k + 1))[|b|..];
      FieldShapeDiffers(tt, defs[k].ty, f1[k], f2[k]);
      FieldShapesDiffer(tt, defs, f1, f2, k + 1);
      assert f1[k..] == [f1[k]] + f1[k + 1..] && f2[k..] == [f2[k]] + f2[k + 1..];
    } else {
      assert f1[k..] == [] && f2[k..] == [];
    }
  }

  lemma ShapeCount(tt: Table, f: Field, g: Field)
    requires SlotOf(f) == SlotOf(g)
    ensures |FieldShapes(tt, f)| == |FieldShapes(tt, g)|
  {
    hide TreeShape;
  }

  lemma {:induction false} FieldShapeDiffers(tt: Table, ty: ObjType, f: Field, g: Field)
    requires tt.Chained() && NamesDiffer(tt) && FieldTyped(tt, false, ty, f) && FieldTyped(tt, false, ty, g)
    requires SlotOf(f) == SlotOf(g) && FieldShapes(tt, f) == FieldShapes(tt, g)
    ensures f == g
    decreases f
  {
    hide TreeShape, WellTyped, NamesDiffer;
    var a, b := FieldShapes(tt, f), FieldShapes(tt, g);
    match f
    case NodeF(o) =>
      assert a[0] == b[0];
      ShapesDiffer(tt, o, g.obj);
    case ListF(objs) =>
      forall i | 0 <= i < |objs| ensures objs[i] == g.objs[i] {
        assert a[i] == b[i];
        ShapesDiffer(tt, objs[i], g.objs[i]);
      }
      assert objs == g.objs;
    case StrF(_) =>
    case EnumF(_) =>
  }
}
