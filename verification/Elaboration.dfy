/** Which object a tree denotes, as a relation without evaluation, and the proof that
    building finds exactly that object. */
module Elaboration {
  import opened Wrappers
  import opened Search
  import opened Bases
  import opened Syntax
  import opened Pool
  import opened Types
  import opened Eval
  import opened EvalProofs

  // The relation: names resolve, arguments come in the order of the class and under its
  // names, list indices count from zero, and every value casts to what it is stored as.

  ghost predicate Elab(tt: Table, strict: bool, n: TreeNode, o: Obj)
    requires CtxOk(Ctx(tt, strict, BuildMode))
    decreases n
  {
    && tt.Lookup(n.name) == Some(o.id)
    && var defs := tt.types[o.id].args;
       |o.fields| == |defs| == Arity(n.args)
       && match n.args
          case LiteralArgs(s) => ElabLiteral(s, defs[0].ty, o.fields[0])
          case ListArgs(list) =>
            forall k :: 0 <= k < |list| ==>
                list[k].name == defs[k].name && ElabArg(tt, strict, list[k], defs[k].ty, o.fields[k])
  }

  predicate ElabLiteral(s: string, ty: ObjType, f: Field) {
    ty.CptrT? && CptrCast(ty.cptr, s) == Success(f)
  }

  ghost predicate ElabArg(tt: Table, strict: bool, a: NodeArg, ty: ObjType, f: Field)
    requires CtxOk(Ctx(tt, strict, BuildMode))
    decreases a
  {
    match a.value
    case NodeValue(m) =>
      ty.NodeT? && f.NodeF? && Elab(tt, strict, m, f.obj) && tt.IsA(strict, ty.id, f.obj.id)
    case ListValue(base, elems) =>
      var l := tt.Lookup(base);
      && ty.ListT? && f.ListF? && l.Some? && tt.IsA(strict, ty.id, l.value)
      && |elems| == |f.objs|
      && forall k :: 0 <= k < |elems| ==> ElabElem(tt, strict, elems[k], k, l.value, f.objs[k])
    case LiteralValue(s) => ElabLiteral(s, ty, f)
  }

  ghost predicate ElabElem(tt: Table, strict: bool, e: ListElem, k: nat, l: TypeId, o: Obj)
    requires CtxOk(Ctx(tt, strict, BuildMode))
    decreases e
  {
    e.index == k && Elab(tt, strict, e.node, o) && tt.IsA(strict, l, o.id)
  }

  // What building an object takes from the pools. It depends on the object alone.

  function CostObj(tt: Table, o: Obj, p: Pools): Result<Pools, EvalError>
    decreases o, 0
  {
    var p1 :- CostFieldsFrom(tt, o.fields, 0, p);
    if o.id < |tt.types| && tt.types[o.id].align > 0 then AllocNode(tt.types[o.id], o.fields, p1)
    else Failure(TypeMismatch)
  }

  function CostFieldsFrom(tt: Table, fields: seq<Field>, k: nat, p: Pools): Result<Pools, EvalError>
    requires k <= |fields|
    decreases fields, |fields| - k
  {
    if k == |fields| then Success(p)
    else
      var p1 :- CostField(tt, fields[k], p);
      CostFieldsFrom(tt, fields, k + 1, p1)
  }

  function CostField(tt: Table, f: Field, p: Pools): Result<Pools, EvalError>
    decreases f, 0
  {
    match f
    case NodeF(o) => CostObj(tt, o, p)
    case ListF(objs) =>
      var p1 :- CostObjsFrom(tt, objs, 0, p);
      AllocList(|objs|, p1)
    case _ => Success(p)
  }

  function CostObjsFrom(tt: Table, objs: seq<Obj>, k: nat, p: Pools): Result<Pools, EvalError>
    requires k <= |objs|
    decreases objs, |objs| - k
  {
    if k == |objs| then Success(p)
    else
      var p1 :- CostObj(tt, objs[k], p);
      CostObjsFrom(tt, objs, k + 1, p1)
  }

  // Building finds the object.

  function Build(tt: Table, strict: bool): Ctx {
    Ctx(tt, strict, BuildMode)
  }

  lemma {:induction false} FieldsAre(defs: seq<ArgDef>, vs: seq<Val>, fields: seq<Field>, k: nat)
    requires k <= |vs| == |defs| == |fields|
    ensures FieldsFrom(defs, vs, k) == Success(fields[k..])
       <==> forall i :: k <= i < |vs| ==> FieldOf(defs[i].ty, vs[i]) == Success(fields[i])
    decreases |vs| - k
  {
    hide FieldOf;
    if k < |vs| {
      FieldsAre(defs, vs, fields, k + 1);
      assert fields[k..] == [fields[k]] + fields[k + 1..];
      var r := FieldsFrom(defs, vs, k);
      if r == Success(fields[k..]) {
        assert r.value[0] == fields[k] && r.value[1..] == fields[k + 1..];
      }
    } else {
      assert fields[k..] == [];
    }
  }

  /** Checked arguments, in both directions. */
  lemma {:induction false} CheckPasses(c: Ctx, t: TypeId, list: seq<NodeArg>, vs: seq<Val>, k: nat)
    requires c.tt.Chained() && t < |c.tt.types| && k <= |vs| == |list| == |c.tt.types[t].args| && AllOk(c.tt, vs)
    ensures CheckArgsFrom(c, t, list, vs, k).Pass?
       <==> forall i :: k <= i < |vs| ==>
              c.tt.types[t].args[i].name == list[i].name && c.tt.ObjCasts(c.strict, c.tt.types[t].args[i].ty, vs[i].ty)
    decreases |list| - k
  {
    hide Table.ObjCasts;
    if k < |list| {
      CheckPasses(c, t, list, vs, k + 1);
    }
  }

  /** What a cast to a declared type asks of the type of a value. */
  ghost predicate Suits(tt: Table, strict: bool, dst: ObjType, src: ObjType) {
    match dst
    case NodeT(d) => src.NodeT? && tt.IsA(strict, d, src.id)
    case ListT(d) => src.ListT? && tt.IsA(strict, d, src.id)
    case CptrT(_) => src.CptrT?
  }

  lemma ObjCastsSuit(tt: Table, strict: bool, dst: ObjType, src: ObjType)
    requires tt.Chained() && tt.ArgOk(src)
    ensures tt.ObjCasts(strict, dst, src) <==> Suits(tt, strict, dst, src)
  {
    hide Table.Casts, Table.IsA;
    tt.AllCastsAreIsA(strict);
  }

  /** The `i`-th argument has the name that the class wants, and its value suits. */
  ghost predicate ArgPasses(c: Ctx, t: TypeId, list: seq<NodeArg>, vs: seq<Val>, i: nat)
    requires t < |c.tt.types| && i < |vs| == |list| == |c.tt.types[t].args|
  {
    var def := c.tt.types[t].args[i];
    def.name == list[i].name && Suits(c.tt, c.strict, def.ty, vs[i].ty)
  }

  /** What is wrong with the `i`-th argument: its name comes first. Arguments count from 1. */
  ghost predicate ArgError(c: Ctx, t: TypeId, list: seq<NodeArg>, vs: seq<Val>, i: nat, e: EvalError)
    requires t < |c.tt.types| && i < |vs| == |list| == |c.tt.types[t].args|
  {
    var def := c.tt.types[t].args[i];
    e == if def.name != list[i].name then WrongName(t, i + 1, def.name, list[i].name)
         else CannotCast(t, i + 1, vs[i].ty, def.ty)
  }

  /** The check of arguments reports the first that is wrong. */
  lemma {:induction false} FirstBadArg(c: Ctx, t: TypeId, list: seq<NodeArg>, vs: seq<Val>, k: nat, e: EvalError)
    requires c.tt.Chained() && t < |c.tt.types| && k <= |vs| == |list| == |c.tt.types[t].args| && AllOk(c.tt, vs)
    ensures CheckArgsFrom(c, t, list, vs, k) == Fail(e)
       <==> exists i ::
              && k <= i < |vs| && !ArgPasses(c, t, list, vs, i) && ArgError(c, t, list, vs, i, e)
              && forall j :: k <= j < i ==> ArgPasses(c, t, list, vs, j)
    decreases |list| - k
  {
    hide Table.ObjCasts, Suits;
    if k < |list| {
      ObjCastsSuit(c.tt, c.strict, c.tt.types[t].args[k].ty, vs[k].ty);
      if ArgPasses(c, t, list, vs, k) {
        FirstBadArg(c, t, list, vs, k + 1, e);
      }
    }
  }

  /** And the check of elements the first that is no node of the base; elements count from 0. */
  lemma {:induction false} FirstBadElem(c: Ctx, t: TypeId, vs: seq<Val>, k: nat, e: EvalError)
    requires c.tt.Chained() && k <= |vs| && AllOk(c.tt, vs)
    ensures CheckElemsFrom(c, t, vs, k) == Fail(e)
       <==> exists i ::
              && k <= i < |vs| && !Suits(c.tt, c.strict, NodeT(t), vs[i].ty) && e == CannotCastElem(t, i, vs[i].ty)
              && forall j :: k <= j < i ==> Suits(c.tt, c.strict, NodeT(t), vs[j].ty)
    decreases |vs| - k
  {
    hide Suits;
    if k < |vs| {
      ObjCastsSuit(c.tt, c.strict, NodeT(t), vs[k].ty);
      if Suits(c.tt, c.strict, NodeT(t), vs[k].ty) {
        FirstBadElem(c, t, vs, k + 1, e);
      }
    }
  }

  lemma {:induction false} ElemCheckPasses(c: Ctx, t: TypeId, vs: seq<Val>, k: nat)
    requires c.tt.Chained() && k <= |vs| && AllOk(c.tt, vs)
    ensures CheckElemsFrom(c, t, vs, k).Pass?
       <==> forall i :: k <= i < |vs| ==> vs[i].ty.NodeT? && c.tt.Casts(c.strict, t, vs[i].ty.id)
    decreases |vs| - k
  {
    hide Table.Casts;
    if k < |vs| {
      ElemCheckPasses(c, t, vs, k + 1);
    }
  }

  function NodeVal(o: Obj): Val {
    Val(NodeT(o.id), NodeD(o))
  }

  /** What a proper value stores when it is checked and converted to field type `ty`. */
  predicate Stores(tt: Table, strict: bool, ty: ObjType, v: Val, f: Field)
    requires tt.Chained() && tt.ArgOk(v.ty)
  {
    tt.ObjCasts(strict, ty, v.ty) && FieldOf(ty, v) == Success(f)
  }

  lemma MakeNodeIs(tt: Table, strict: bool, name: string, a: NodeArgs, vs: seq<Val>, p: Pools, t: TypeId,
                   fields: seq<Field>, q: Pools)
    requires CtxOk(Build(tt, strict)) && |vs| == Arity(a) && AllOk(tt, vs)
    ensures MakeNode(Build(tt, strict), name, a, vs, p) == Success((NodeVal(Obj(t, fields)), q))
       <==> && tt.Lookup(name) == Some(t) && |tt.types[t].args| == Arity(a) == |fields|
            && (a.ListArgs? ==> forall i :: 0 <= i < |vs| ==> tt.types[t].args[i].name == a.list[i].name)
            && (forall i :: 0 <= i < |vs| ==> Stores(tt, strict, tt.types[t].args[i].ty, vs[i], fields[i]))
            && AllocNode(tt.types[t], fields, p) == Success(q)
  {
    hide Table.ObjCasts, Table.Lookup, AllocNode, CheckArgsFrom, FieldsFrom, FieldOf;
    var c := Build(tt, strict);
    if tt.Lookup(name) == Some(t) && |tt.types[t].args| == Arity(a) {
      if a.ListArgs? {
        CheckPasses(c, t, a.list, vs, 0);
      }
      if |fields| == Arity(a) {
        FieldsAre(tt.types[t].args, vs, fields, 0);
        assert fields[0..] == fields;
      }
    }
  }

  lemma ObjsAre(vs: seq<Val>, objs: seq<Obj>)
    requires ValsOk(BuildMode, vs) && forall i :: 0 <= i < |vs| ==> vs[i].ty.NodeT?
    ensures ObjsFrom(vs, 0).Success?
    ensures ObjsFrom(vs, 0).value == objs <==> |vs| == |objs| && forall i :: 0 <= i < |vs| ==> vs[i] == NodeVal(objs[i])
  {
    hide ObjsFrom;
    ProperObjs(vs, 0);
    var built := ObjsFrom(vs, 0).value;
    forall i | 0 <= i < |vs| ensures vs[i] == NodeVal(built[i]) {
      assert ValOk(BuildMode, vs[i]);
    }
    if |vs| == |objs| && forall i :: 0 <= i < |vs| ==> vs[i] == NodeVal(objs[i]) {
      assert forall i :: 0 <= i < |vs| ==> NodeVal(built[i]) == NodeVal(objs[i]);
      assert built == objs;
    }
  }

  lemma MakeListIs(tt: Table, strict: bool, base: string, vs: seq<Val>, p: Pools, l: TypeId, objs: seq<Obj>, q: Pools)
    requires CtxOk(Build(tt, strict)) && AllOk(tt, vs) && ValsOk(BuildMode, vs)
    ensures MakeList(Build(tt, strict), base, vs, p) == Success((Val(ListT(l), ListD(objs)), q))
       <==> && tt.Lookup(base) == Some(l) && |vs| == |objs|
            && (forall i :: 0 <= i < |vs| ==> vs[i] == NodeVal(objs[i]) && tt.IsA(strict, l, objs[i].id))
            && AllocList(|objs|, p) == Success(q)
  {
    hide Table.IsA, Table.Casts, Table.Lookup, AllocList, CheckElemsFrom, ObjsFrom;
    var c := Build(tt, strict);
    tt.AllCastsAreIsA(strict);
    if tt.Lookup(base) == Some(l) {
      ElemCheckPasses(c, l, vs, 0);
      if CheckElemsFrom(c, l, vs, 0).Pass? {
        ObjsAre(vs, objs);
      }
    }
  }

  /** Building a tree succeeds with an object exactly when the tree denotes the object and
      the pools hold what the object takes. */
  lemma {:induction false} BuildIsElaboration(tt: Table, strict: bool, n: TreeNode, p: Pools, o: Obj, q: Pools)
    requires CtxOk(Build(tt, strict))
    ensures EvNode(Build(tt, strict), n, p) == Success((NodeVal(o), q))
       <==> Elab(tt, strict, n, o) && CostObj(tt, o, p) == Success(q)
    decreases n, 0
  {
    hide MakeNode, EvArgsFrom, AllocNode, Stores, ElabLiteral, ElabArg, CostFieldsFrom, Table.Lookup;
    var c := Build(tt, strict);
    match n.args
    case LiteralArgs(s) =>
      LiteralNode(tt, strict, n.name, s, p, o, q);
    case ListArgs(list) =>
      var r := EvArgsFrom(c, list, 0, [], p);
      if r.Success? {
        var (vs, p1) := r.value;
        MakeNodeIs(tt, strict, n.name, n.args, vs, p1, o.id, o.fields, q);
        if EvNode(c, n, p) == Success((NodeVal(o), q)) {
          ArgsElaborate(tt, strict, list, 0, [], p, tt.types[o.id].args, o.fields);
        }
      }
      if Elab(tt, strict, n, o) && CostObj(tt, o, p) == Success(q) {
        ElaboratedArgs(tt, strict, list, 0, [], p, tt.types[o.id].args, o.fields);
      }
  }

  lemma LiteralNode(tt: Table, strict: bool, name: string, s: string, p: Pools, o: Obj, q: Pools)
    requires CtxOk(Build(tt, strict))
    ensures EvNode(Build(tt, strict), TreeNode(name, LiteralArgs(s)), p) == Success((NodeVal(o), q))
       <==> Elab(tt, strict, TreeNode(name, LiteralArgs(s)), o) && CostObj(tt, o, p) == Success(q)
  {
    hide MakeNode, AllocNode, Table.Lookup, CptrCast;
    MakeNodeIs(tt, strict, name, LiteralArgs(s), [MakeCptr(Build(tt, strict), s)], p, o.id, o.fields, q);
    if |o.fields| == 1 && tt.Lookup(name) == Some(o.id) && |tt.types[o.id].args| == 1 {
      StoresLiteral(tt, strict, tt.types[o.id].args[0].ty, s, o.fields[0]);
      if o.fields[0].StrF? || o.fields[0].EnumF? {
        CostOfString(tt, o.fields, p);
      }
      LiteralIsNotNode(s, tt.types[o.id].args[0].ty, o.fields[0]);
    }
  }

  lemma LiteralIsNotNode(s: string, ty: ObjType, f: Field)
    ensures ElabLiteral(s, ty, f) ==> f.StrF? || f.EnumF?
  {
  }

  lemma CostOfString(tt: Table, fields: seq<Field>, p: Pools)
    requires |fields| == 1 && (fields[0].StrF? || fields[0].EnumF?)
    ensures CostFieldsFrom(tt, fields, 0, p) == Success(p)
  {
    assert CostFieldsFrom(tt, fields, 1, p) == Success(p);
  }

  lemma StoresLiteral(tt: Table, strict: bool, ty: ObjType, s: string, f: Field)
    requires tt.Chained()
    ensures Stores(tt, strict, ty, MakeCptr(Build(tt, strict), s), f) <==> ElabLiteral(s, ty, f)
  {
  }

  lemma {:induction false} ArgsElaborate(tt: Table, strict: bool, list: seq<NodeArg>, k: nat, acc: seq<Val>,
                                         p: Pools, defs: seq<ArgDef>, fields: seq<Field>)
    requires CtxOk(Build(tt, strict)) && k <= |list| == |defs| == |fields| && |acc| == k && AllOk(tt, acc)
    requires EvArgsFrom(Build(tt, strict), list, k, acc, p).Success?
    requires var vs := EvArgsFrom(Build(tt, strict), list, k, acc, p).value.0;
             forall i :: k <= i < |list| ==> Stores(tt, strict, defs[i].ty, vs[i], fields[i])
    ensures acc <= EvArgsFrom(Build(tt, strict), list, k, acc, p).value.0
    ensures forall i :: k <= i < |list| ==> ElabArg(tt, strict, list[i], defs[i].ty, fields[i])
    ensures CostFieldsFrom(tt, fields, k, p) == Success(EvArgsFrom(Build(tt, strict), list, k, acc, p).value.1)
    decreases list, |list| - k
  {
    hide EvArg, Stores, ElabArg, CostField;
    var c := Build(tt, strict);
    if k < |list| {
      var (v, p1) := EvArg(c, list[k], p).value;
      ArgsElaborate(tt, strict, list, k + 1, acc + [v], p1, defs, fields);
      assert (acc + [v])[k] == v;
      ArgElaborates(tt, strict, list[k], p, defs[k].ty, fields[k]);
    }
  }

  lemma {:induction false} ArgElaborates(tt: Table, strict: bool, a: NodeArg, p: Pools, ty: ObjType, f: Field)
    requires CtxOk(Build(tt, strict)) && EvArg(Build(tt, strict), a, p).Success?
    requires Stores(tt, strict, ty, EvArg(Build(tt, strict), a, p).value.0, f)
    ensures ElabArg(tt, strict, a, ty, f)
    ensures CostField(tt, f, p) == Success(EvArg(Build(tt, strict), a, p).value.1)
    decreases a, 0
  {
    hide MakeList, EvElemsFrom, EvNode, Elab, CostObj, CostObjsFrom, AllocList, Table.Lookup, Table.IsA, Table.Casts;
    var c := Build(tt, strict);
    tt.AllCastsAreIsA(strict);
    var (v, q) := EvArg(c, a, p).value;
    EvArgIsProper(c, a, p);
    match a.value
    case NodeValue(m) =>
      BuildIsElaboration(tt, strict, m, p, v.data.obj, q);
    case LiteralValue(s) =>
    case ListValue(base, elems) =>
      var (vs, p1) := EvElemsFrom(c, elems, 0, [], p).value;
      ProperElems(c, elems, 0, [], p);
      assert v.ty.ListT? && v.data.ListD?;
      MakeListIs(tt, strict, base, vs, p1, v.ty.id, v.data.objs, q);
      ElemsElaborate(tt, strict, elems, 0, [], p, v.ty.id, v.data.objs);
  }

  lemma EvArgIsProper(c: Ctx, a: NodeArg, p: Pools)
    requires CtxOk(c) && c.mode == BuildMode && EvArg(c, a, p).Success?
    ensures ValOk(BuildMode, EvArg(c, a, p).value.0)
    ensures a.value.NodeValue? ==> EvArg(c, a, p).value.0.ty.NodeT?
    ensures a.value.ListValue? ==> EvArg(c, a, p).value.0.ty.ListT?
  {
    hide EvArgsFrom, EvElemsFrom, CheckNode, CheckElemsFrom, AllocNode, AllocList, ObjsFrom, FieldsFrom, Table.Lookup;
    ProperArg(c, a, p);
  }

  lemma {:induction false} ElemsElaborate(tt: Table, strict: bool, elems: seq<ListElem>, k: nat, acc: seq<Val>,
                                          p: Pools, l: TypeId, objs: seq<Obj>)
    requires CtxOk(Build(tt, strict)) && k <= |elems| == |objs| && |acc| == k && AllOk(tt, acc)
    requires EvElemsFrom(Build(tt, strict), elems, k, acc, p).Success?
    requires var vs := EvElemsFrom(Build(tt, strict), elems, k, acc, p).value.0;
             forall i :: k <= i < |elems| ==> vs[i] == NodeVal(objs[i]) && tt.IsA(strict, l, objs[i].id)
    ensures acc <= EvElemsFrom(Build(tt, strict), elems, k, acc, p).value.0
    ensures forall i :: k <= i < |elems| ==> ElabElem(tt, strict, elems[i], i, l, objs[i])
    ensures CostObjsFrom(tt, objs, k, p) == Success(EvElemsFrom(Build(tt, strict), elems, k, acc, p).value.1)
    decreases elems, |elems| - k
  {
    hide EvNode, Elab, CostObj, Table.IsA;
    var c := Build(tt, strict);
    if k < |elems| {
      var (v, p1) := EvElem(c, elems[k], k, p).value;
      ElemsElaborate(tt, strict, elems, k + 1, acc + [v], p1, l, objs);
      assert (acc + [v])[k] == v;
      ElemBuilds(tt, strict, elems[k], k, p, objs[k], p1);
    }
  }

  lemma {:induction false} ElemBuilds(tt: Table, strict: bool, e: ListElem, k: nat, p: Pools, o: Obj, q: Pools)
    requires CtxOk(Build(tt, strict))
    ensures EvElem(Build(tt, strict), e, k, p) == Success((NodeVal(o), q))
       <==> e.index == k && Elab(tt, strict, e.node, o) && CostObj(tt, o, p) == Success(q)
    decreases e, 0
  {
    hide EvNode, Elab, CostObj;
    BuildIsElaboration(tt, strict, e.node, p, o, q);
  }

  lemma {:induction false} ElaboratedArgs(tt: Table, strict: bool, list: seq<NodeArg>, k: nat, acc: seq<Val>,
                                          p: Pools, defs: seq<ArgDef>, fields: seq<Field>)
    requires CtxOk(Build(tt, strict)) && k <= |list| == |defs| == |fields| && |acc| == k && AllOk(tt, acc)
    requires forall i :: k <= i < |list| ==> ElabArg(tt, strict, list[i], defs[i].ty, fields[i])
    requires CostFieldsFrom(tt, fields, k, p).Success?
    ensures EvArgsFrom(Build(tt, strict), list, k, acc, p).Success?
    ensures var (vs, q) := EvArgsFrom(Build(tt, strict), list, k, acc, p).value;
            && acc <= vs && CostFieldsFrom(tt, fields, k, p) == Success(q)
            && forall i :: k <= i < |list| ==> Stores(tt, strict, defs[i].ty, vs[i], fields[i])
    decreases list, |list| - k
  {
    hide EvArg, Stores, ElabArg, CostField;
    var c := Build(tt, strict);
    if k < |list| {
      ElaboratedArg(tt, strict, list[k], p, defs[k].ty, fields[k]);
      var (v, p1) := EvArg(c, list[k], p).value;
      ElaboratedArgs(tt, strict, list, k + 1, acc + [v], p1, defs, fields);
      assert (acc + [v])[k] == v;
    }
  }

  lemma {:induction false} ElaboratedArg(tt: Table, strict: bool, a: NodeArg, p: Pools, ty: ObjType, f: Field)
    requires CtxOk(Build(tt, strict)) && ElabArg(tt, strict, a, ty, f) && CostField(tt, f, p).Success?
    ensures EvArg(Build(tt, strict), a, p).Success?
    ensures var (v, q) := EvArg(Build(tt, strict), a, p).value;
            Stores(tt, strict, ty, v, f) && CostField(tt, f, p) == Success(q)
    decreases a, 0
  {
    hide MakeList, EvElemsFrom, EvNode, Elab, CostObj, CostObjsFrom, AllocList, Table.Lookup, Table.IsA, Table.Casts;
    var c := Build(tt, strict);
    tt.AllCastsAreIsA(strict);
    match a.value
    case NodeValue(m) =>
      BuildIsElaboration(tt, strict, m, p, f.obj, CostField(tt, f, p).value);
    case LiteralValue(s) =>
      LiteralIsNotNode(s, ty, f);
    case ListValue(base, elems) =>
      var l := tt.Lookup(base).value;
      ElaboratedElems(tt, strict, elems, 0, [], p, l, f.objs);
      var (vs, p1) := EvElemsFrom(c, elems, 0, [], p).value;
      ProperElems(c, elems, 0, [], p);
      MakeListIs(tt, strict, base, vs, p1, l, f.objs, CostField(tt, f, p).value);
  }

  lemma {:induction false} ElaboratedElems(tt: Table, strict: bool, elems: seq<ListElem>, k: nat, acc: seq<Val>,
                                           p: Pools, l: TypeId, objs: seq<Obj>)
    requires CtxOk(Build(tt, strict)) && k <= |elems| == |objs| && |acc| == k && AllOk(tt, acc)
    requires forall i :: k <= i < |elems| ==> ElabElem(tt, strict, elems[i], i, l, objs[i])
    requires CostObjsFrom(tt, objs, k, p).Success?
    ensures EvElemsFrom(Build(tt, strict), elems, k, acc, p).Success?
    ensures var (vs, q) := EvElemsFrom(Build(tt, strict), elems, k, acc, p).value;
            && acc <= vs && CostObjsFrom(tt, objs, k, p) == Success(q)
            && forall i :: k <= i < |elems| ==> vs[i] == NodeVal(objs[i]) && tt.IsA(strict, l, objs[i].id)
    decreases elems, |elems| - k
  {
    hide EvElem, Elab, CostObj, Table.IsA;
    var c := Build(tt, strict);
    if k < |elems| {
      assert ElabElem(tt, strict, elems[k], k, l, objs[k]);
      ElemBuilds(tt, strict, elems[k], k, p, objs[k], CostObj(tt, objs[k], p).value);
      var (v, p1) := EvElem(c, elems[k], k, p).value;
      ElaboratedElems(tt, strict, elems, k + 1, acc + [v], p1, l, objs);
      assert (acc + [v])[k] == v;
    }
  }

  // Consequences.

  /** A tree denotes at most one object. */
  lemma {:induction false} DenotesOne(tt: Table, strict: bool, n: TreeNode, o1: Obj, o2: Obj)
    requires CtxOk(Build(tt, strict)) && Elab(tt, strict, n, o1) && Elab(tt, strict, n, o2)
    ensures o1 == o2
    decreases n
  {
    hide CptrCast, Table.Lookup;
    if n.args.ListArgs? {
      forall k | 0 <= k < |o1.fields| ensures o1.fields[k] == o2.fields[k] {
        ArgDenotesOne(tt, strict, n.args.list[k], tt.types[o1.id].args[k].ty, o1.fields[k], o2.fields[k]);
      }
    }
  }

  lemma {:induction false} ArgDenotesOne(tt: Table, strict: bool, a: NodeArg, ty: ObjType, f1: Field, f2: Field)
    requires CtxOk(Build(tt, strict)) && ElabArg(tt, strict, a, ty, f1) && ElabArg(tt, strict, a, ty, f2)
    ensures f1 == f2
    decreases a
  {
    hide CptrCast, Table.Lookup, Table.IsA, Elab;
    match a.value
    case NodeValue(m) => DenotesOne(tt, strict, m, f1.obj, f2.obj);
    case LiteralValue(_) =>
    case ListValue(_, elems) =>
      forall k | 0 <= k < |elems| ensures f1.objs[k] == f2.objs[k] {
        DenotesOne(tt, strict, elems[k].node, f1.objs[k], f2.objs[k]);
      }
  }

  /** Every field holds what its declaration says, at its declared type (strictly) or at a
      type that extends it, all the way down, and no list has more than 256 elements. */
  ghost predicate WellTyped(tt: Table, strict: bool, o: Obj): (b: bool)
    requires tt.Chained()
    ensures b ==> o.id < |tt.types|
    decreases o
  {
    && o.id < |tt.types| && |o.fields| == |tt.types[o.id].args|
    && forall k :: 0 <= k < |o.fields| ==> FieldTyped(tt, strict, tt.types[o.id].args[k].ty, o.fields[k])
  }

  ghost predicate FieldTyped(tt: Table, strict: bool, ty: ObjType, f: Field)
    requires tt.Chained()
    decreases f
  {
    match f
    case NodeF(o) => ty.NodeT? && WellTyped(tt, strict, o) && tt.IsA(strict, ty.id, o.id)
    case ListF(objs) =>
      && ty.ListT? && |objs| <= 256
      && forall k :: 0 <= k < |objs| ==> WellTyped(tt, strict, objs[k]) && tt.IsA(strict, ty.id, objs[k].id)
    case StrF(_) => ty == CptrT(CharPtr)
    case EnumF(v) =>
      ty.CptrT? && ty.cptr.Enum? && v < |ty.cptr.values| && LinearFind(ty.cptr.values, ty.cptr.values[v]) == Some(v)
  }

  /** Every object that evaluation builds is well typed: through the covariance of lists and
      the transitivity of extension, elements of a list have the type its field declares. */
  lemma {:induction false} BuiltIsWellTyped(tt: Table, strict: bool, n: TreeNode, o: Obj)
    requires CtxOk(Build(tt, strict)) && Elab(tt, strict, n, o)
    ensures WellTyped(tt, strict, o)
    decreases n
  {
    hide Table.IsA, ElabLiteral, FieldTyped;
    if n.args.LiteralArgs? {
      LiteralIsTyped(tt, strict, n.args.literal, tt.types[o.id].args[0].ty, o.fields[0]);
    } else {
      forall k | 0 <= k < |o.fields| ensures FieldTyped(tt, strict, tt.types[o.id].args[k].ty, o.fields[k]) {
        StoredIsTyped(tt, strict, n.args.list[k], tt.types[o.id].args[k].ty, o.fields[k]);
      }
    }
  }

  lemma LiteralIsTyped(tt: Table, strict: bool, s: string, ty: ObjType, f: Field)
    requires tt.Chained() && ElabLiteral(s, ty, f)
    ensures FieldTyped(tt, strict, ty, f)
  {
  }

  lemma {:induction false} StoredIsTyped(tt: Table, strict: bool, a: NodeArg, ty: ObjType, f: Field)
    requires CtxOk(Build(tt, strict)) && ElabArg(tt, strict, a, ty, f)
    ensures FieldTyped(tt, strict, ty, f)
    decreases a
  {
    hide Table.Lookup, Elab, WellTyped;
    match a.value
    case NodeValue(m) => BuiltIsWellTyped(tt, strict, m, f.obj);
    case LiteralValue(s) => LiteralIsTyped(tt, strict, s, ty, f);
    case ListValue(base, elems) =>
      if elems != [] {
        var last := |elems| - 1;
        assert ElabElem(tt, strict, elems[last], last, tt.Lookup(base).value, f.objs[last]);
      }
      forall k | 0 <= k < |f.objs| ensures WellTyped(tt, strict, f.objs[k]) && tt.IsA(strict, ty.id, f.objs[k].id) {
        var l := tt.Lookup(base).value;
        assert ElabElem(tt, strict, elems[k], k, l, f.objs[k]);
        BuiltIsWellTyped(tt, strict, elems[k].node, f.objs[k]);
        CastsCompose(tt, strict, ty.id, l, f.objs[k].id);
      }
  }

  lemma CastsCompose(tt: Table, strict: bool, a: TypeId, b: TypeId, c: TypeId)
    requires tt.Chained() && b < |tt.types| && c < |tt.types| && tt.IsA(strict, a, b) && tt.IsA(strict, b, c)
    ensures tt.IsA(strict, a, c)
  {
    if !strict {
      var i: nat :| Up(tt.Bases(), c, i) == Some(b);
      var j: nat :| Up(tt.Bases(), b, j) == Some(a);
      UpAdds(tt.Bases(), c, i, j);
    }
  }

  /** A list evaluates only when its indices are written 0, 1, 2, ... in order; an index is
      a byte, so at most 256 elements ever evaluate. In both modes, with both casts. */
  lemma {:induction false} ListIndicesCount(c: Ctx, elems: seq<ListElem>, k: nat, acc: seq<Val>, p: Pools)
    requires CtxOk(c) && k <= |elems| && |acc| == k && AllOk(c.tt, acc)
    requires forall i :: 0 <= i < k ==> elems[i].index == i
    requires EvElemsFrom(c, elems, k, acc, p).Success?
    ensures forall i :: 0 <= i < |elems| ==> elems[i].index == i
    ensures |elems| <= 256
    decreases |elems| - k
  {
    hide EvNode;
    if k < |elems| {
      var (v, p1) := EvElem(c, elems[k], k, p).value;
      ListIndicesCount(c, elems, k + 1, acc + [v], p1);
    } else if k > 0 {
      assert elems[k - 1].index == k - 1;
    }
  }
}
