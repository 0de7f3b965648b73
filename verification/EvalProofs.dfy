/** What evaluation guarantees, for every tree, every type table and both cast modes. */
module EvalProofs {
  import opened Wrappers
  import opened Search
  import opened Syntax
  import opened Pool
  import opened Types
  import opened Eval

  // Every value carries what its type says.

  predicate ValOk(mode: Mode, v: Val) {
    if mode == TypeMode then v.data.NoData?
    else match v.ty
      case NodeT(id) => v.data.NodeD? && v.data.obj.id == id
      case ListT(_) => v.data.ListD?
      case CptrT(_) => v.data.CptrD?
  }

  predicate ValsOk(mode: Mode, vs: seq<Val>) {
    forall i :: 0 <= i < |vs| ==> ValOk(mode, vs[i])
  }

  /** A result that is a proper value, or an error that evaluation is meant to report. */
  predicate Proper(mode: Mode, r: Result<(Val, Pools), EvalError>) {
    match r
    case Success((v, _)) => ValOk(mode, v)
    case Failure(e) => !IsMachineError(e) && (IsBuildError(e) ==> mode == BuildMode)
  }

  predicate ProperAll(mode: Mode, r: Result<(seq<Val>, Pools), EvalError>) {
    match r
    case Success((vs, _)) => ValsOk(mode, vs)
    case Failure(e) => !IsMachineError(e) && (IsBuildError(e) ==> mode == BuildMode)
  }

  lemma {:induction false} CheckedArgs(c: Ctx, t: TypeId, list: seq<NodeArg>, vs: seq<Val>, k: nat)
    requires c.tt.Chained() && t < |c.tt.types| && k <= |vs| == |list| == |c.tt.types[t].args| && AllOk(c.tt, vs)
    ensures match CheckArgsFrom(c, t, list, vs, k)
            case Pass => forall i :: k <= i < |vs| ==>
              c.tt.types[t].args[i].name == list[i].name && c.tt.ObjCasts(c.strict, c.tt.types[t].args[i].ty, vs[i].ty)
            case Fail(e) => e.WrongName? || e.CannotCast?
    decreases |list| - k
  {
    hide Table.ObjCasts;
    if k < |list| {
      CheckedArgs(c, t, list, vs, k + 1);
    }
  }

  lemma {:induction false} CheckedElems(c: Ctx, t: TypeId, vs: seq<Val>, k: nat)
    requires c.tt.Chained() && k <= |vs| && AllOk(c.tt, vs)
    ensures match CheckElemsFrom(c, t, vs, k)
            case Pass => forall i :: k <= i < |vs| ==> vs[i].ty.NodeT? && c.tt.Casts(c.strict, t, vs[i].ty.id)
            case Fail(e) => e.CannotCastElem?
    decreases |vs| - k
  {
    hide Table.Casts;
    if k < |vs| {
      CheckedElems(c, t, vs, k + 1);
    }
  }

  lemma {:induction false} ProperFields(c: Ctx, defs: seq<ArgDef>, vs: seq<Val>, k: nat)
    requires c.tt.Chained() && k <= |vs| == |defs| && AllOk(c.tt, vs) && ValsOk(BuildMode, vs)
    requires forall i :: k <= i < |vs| ==> c.tt.ObjCasts(c.strict, defs[i].ty, vs[i].ty)
    ensures FieldsFrom(defs, vs, k).Failure? ==> FieldsFrom(defs, vs, k).error.InvalidValue?
    decreases |vs| - k
  {
    hide Table.Casts;
    if k < |vs| {
      assert c.tt.ObjCasts(c.strict, defs[k].ty, vs[k].ty) && ValOk(BuildMode, vs[k]);
      ProperFields(c, defs, vs, k + 1);
    }
  }

  lemma {:induction false} ProperObjs(vs: seq<Val>, k: nat)
    requires k <= |vs| && ValsOk(BuildMode, vs) && forall i :: k <= i < |vs| ==> vs[i].ty.NodeT?
    ensures ObjsFrom(vs, k).Success?
    ensures forall i :: k <= i < |vs| ==> ObjsFrom(vs, k).value[i - k] == vs[i].data.obj
    decreases |vs| - k
  {
    if k < |vs| {
      assert ValOk(BuildMode, vs[k]);
      ProperObjs(vs, k + 1);
    }
  }

  lemma {:induction false} AllocStringsFails(fields: seq<Field>, k: nat, p: Pools)
    requires k <= |fields|
    ensures AllocStrings(fields, k, p).Failure? ==> AllocStrings(fields, k, p).error.PoolExhausted?
    decreases |fields| - k
  {
    hide PoolState.Allocate;
    if k < |fields| {
      if fields[k].StrF? {
        var r := RawAlloc(p, |fields[k].str| + 1, 1);
        if r.Success? {
          AllocStringsFails(fields, k + 1, r.value);
        }
      } else {
        AllocStringsFails(fields, k + 1, p);
      }
    }
  }

  lemma ProperNode(c: Ctx, name: string, a: NodeArgs, vs: seq<Val>, p: Pools)
    requires CtxOk(c) && |vs| == Arity(a) && AllOk(c.tt, vs) && ValsOk(c.mode, vs)
    ensures Proper(c.mode, MakeNode(c, name, a, vs, p))
  {
    hide Table.ObjCasts, Table.Lookup, PoolState.Allocate, AllocStrings, CheckArgsFrom, FieldsFrom;
    if c.tt.Lookup(name).Some? {
      var t := c.tt.Lookup(name).value;
      if a.ListArgs? && |c.tt.types[t].args| == Arity(a) {
        CheckedArgs(c, t, a.list, vs, 0);
      }
      if c.mode == BuildMode && CheckNode(c, t, a, vs).Pass? {
        ProperFields(c, c.tt.types[t].args, vs, 0);
        var fields := FieldsFrom(c.tt.types[t].args, vs, 0);
        if fields.Success? {
          AllocStringsFails(fields.value, 0, p);
        }
      }
    }
  }

  lemma ProperList(c: Ctx, base: string, vs: seq<Val>, p: Pools)
    requires CtxOk(c) && AllOk(c.tt, vs) && ValsOk(c.mode, vs)
    ensures Proper(c.mode, MakeList(c, base, vs, p))
  {
    hide Table.Casts, Table.Lookup, PoolState.Allocate, CheckElemsFrom, ObjsFrom;
    if c.tt.Lookup(base).Some? {
      CheckedElems(c, c.tt.Lookup(base).value, vs, 0);
      if c.mode == BuildMode && CheckElemsFrom(c, c.tt.Lookup(base).value, vs, 0).Pass? {
        ProperObjs(vs, 0);
      }
    }
  }

  /** No evaluation meets an error of the stack machine ("type mismatch" included), only
      building meets errors of building, and every value carries what its type says. */
  lemma {:induction false} EvaluationIsProper(c: Ctx, n: TreeNode, p: Pools)
    requires CtxOk(c)
    ensures Proper(c.mode, EvNode(c, n, p))
    decreases n, 0
  {
    hide MakeNode, EvArgsFrom, Proper;
    match n.args
    case LiteralArgs(s) =>
      ProperNode(c, n.name, n.args, [MakeCptr(c, s)], p);
    case ListArgs(list) =>
      ProperArgs(c, list, 0, [], p);
      var r := EvArgsFrom(c, list, 0, [], p);
      if r.Success? {
        ProperNode(c, n.name, n.args, r.value.0, r.value.1);
      } else {
        ProperFailure(c.mode, r.error);
      }
  }

  lemma ProperFailure(mode: Mode, e: EvalError)
    requires !IsMachineError(e) && (IsBuildError(e) ==> mode == BuildMode)
    ensures Proper(mode, Failure(e))
  {
  }

  lemma {:induction false} ProperArgs(c: Ctx, list: seq<NodeArg>, k: nat, acc: seq<Val>, p: Pools)
    requires CtxOk(c) && k <= |list| && |acc| == k && AllOk(c.tt, acc) && ValsOk(c.mode, acc)
    ensures ProperAll(c.mode, EvArgsFrom(c, list, k, acc, p))
    decreases list, |list| - k
  {
    hide EvArg, ValOk;
    if k < |list| {
      ProperArg(c, list[k], p);
      var r := EvArg(c, list[k], p);
      if r.Success? {
        ProperArgs(c, list, k + 1, acc + [r.value.0], r.value.1);
      }
    }
  }

  lemma {:induction false} ProperArg(c: Ctx, a: NodeArg, p: Pools)
    requires CtxOk(c)
    ensures Proper(c.mode, EvArg(c, a, p))
    decreases a, 0
  {
    hide MakeList, EvElemsFrom, EvNode;
    match a.value
    case NodeValue(n) => EvaluationIsProper(c, n, p);
    case ListValue(base, elems) =>
      ProperElems(c, elems, 0, [], p);
      var r := EvElemsFrom(c, elems, 0, [], p);
      if r.Success? {
        ProperList(c, base, r.value.0, r.value.1);
      }
    case LiteralValue(_) =>
  }

  lemma {:induction false} ProperElems(c: Ctx, elems: seq<ListElem>, k: nat, acc: seq<Val>, p: Pools)
    requires CtxOk(c) && k <= |elems| && |acc| == k && AllOk(c.tt, acc) && ValsOk(c.mode, acc)
    ensures ProperAll(c.mode, EvElemsFrom(c, elems, k, acc, p))
    decreases elems, |elems| - k
  {
    hide EvElem, ValOk;
    if k < |elems| {
      ProperElem(c, elems[k], k, p);
      var r := EvElem(c, elems[k], k, p);
      if r.Success? {
        ProperElems(c, elems, k + 1, acc + [r.value.0], r.value.1);
      }
    }
  }

  lemma {:induction false} ProperElem(c: Ctx, e: ListElem, k: nat, p: Pools)
    requires CtxOk(c)
    ensures Proper(c.mode, EvElem(c, e, k, p))
    decreases e, 0
  {
    hide EvNode;
    EvaluationIsProper(c, e.node, p);
  }

  // Type checking simulates building.

  /** The type-check result `rt` foretells the build result `rb`: the same type or the same
      error, unless building meets an error of its own. */
  predicate Foretells(rt: Result<(Val, Pools), EvalError>, rb: Result<(Val, Pools), EvalError>) {
    match rb
    case Success((w, _)) => rt.Success? && rt.value.0.ty == w.ty
    case Failure(e) => IsBuildError(e) || rt == Failure(e)
  }

  predicate SameTypes(vs: seq<Val>, ws: seq<Val>) {
    |vs| == |ws| && forall i :: 0 <= i < |vs| ==> vs[i].ty == ws[i].ty
  }

  predicate ForetellsAll(rt: Result<(seq<Val>, Pools), EvalError>, rb: Result<(seq<Val>, Pools), EvalError>) {
    match rb
    case Success((ws, _)) => rt.Success? && SameTypes(rt.value.0, ws)
    case Failure(e) => IsBuildError(e) || rt == Failure(e)
  }

  lemma {:induction false} ChecksSeeTypesOnly(c: Ctx, d: Ctx, t: TypeId, list: seq<NodeArg>, vs: seq<Val>,
                                              ws: seq<Val>, k: nat)
    requires c.tt == d.tt && c.strict == d.strict && c.tt.Chained() && t < |c.tt.types|
    requires k <= |vs| == |list| == |c.tt.types[t].args| && SameTypes(vs, ws) && AllOk(c.tt, vs) && AllOk(c.tt, ws)
    ensures CheckArgsFrom(c, t, list, vs, k) == CheckArgsFrom(d, t, list, ws, k)
    decreases |list| - k
  {
    hide Table.ObjCasts;
    if k < |list| {
      ChecksSeeTypesOnly(c, d, t, list, vs, ws, k + 1);
    }
  }

  lemma {:induction false} ElemChecksSeeTypesOnly(c: Ctx, d: Ctx, t: TypeId, vs: seq<Val>, ws: seq<Val>, k: nat)
    requires c.tt == d.tt && c.strict == d.strict && c.tt.Chained()
    requires k <= |vs| && SameTypes(vs, ws) && AllOk(c.tt, vs) && AllOk(c.tt, ws)
    ensures CheckElemsFrom(c, t, vs, k) == CheckElemsFrom(d, t, ws, k)
    decreases |vs| - k
  {
    hide Table.Casts;
    if k < |vs| {
      ElemChecksSeeTypesOnly(c, d, t, vs, ws, k + 1);
    }
  }

  function AsMode(c: Ctx, mode: Mode): Ctx {
    c.(mode := mode)
  }

  lemma MakeNodeForetells(c: Ctx, name: string, a: NodeArgs, vs: seq<Val>, ws: seq<Val>, p: Pools, q: Pools)
    requires CtxOk(c) && |vs| == Arity(a) && SameTypes(vs, ws)
    requires AllOk(c.tt, vs) && AllOk(c.tt, ws) && ValsOk(BuildMode, ws)
    ensures Foretells(MakeNode(AsMode(c, TypeMode), name, a, vs, p), MakeNode(AsMode(c, BuildMode), name, a, ws, q))
  {
    hide Table.ObjCasts, Table.Lookup, PoolState.Allocate, AllocStrings, CheckArgsFrom, FieldsFrom;
    var ct, cb := AsMode(c, TypeMode), AsMode(c, BuildMode);
    ProperNode(cb, name, a, ws, q);
    if c.tt.Lookup(name).Some? {
      var t := c.tt.Lookup(name).value;
      if a.ListArgs? && |c.tt.types[t].args| == Arity(a) {
        ChecksSeeTypesOnly(ct, cb, t, a.list, vs, ws, 0);
      }
      assert CheckNode(ct, t, a, vs) == CheckNode(cb, t, a, ws);
      if CheckNode(cb, t, a, ws).Pass? {
        BuildOnlyFailsInBuilding(cb, t, name, a, ws, q);
      }
    }
  }

  lemma BuildOnlyFailsInBuilding(c: Ctx, t: TypeId, name: string, a: NodeArgs, ws: seq<Val>, q: Pools)
    requires CtxOk(c) && c.mode == BuildMode && |ws| == Arity(a) && AllOk(c.tt, ws) && ValsOk(BuildMode, ws)
    requires c.tt.Lookup(name) == Some(t) && CheckNode(c, t, a, ws).Pass?
    ensures match MakeNode(c, name, a, ws, q)
            case Success((w, _)) => w.ty == NodeT(t)
            case Failure(e) => IsBuildError(e)
  {
    hide Table.ObjCasts, Table.Lookup, PoolState.Allocate, AllocStrings, CheckArgsFrom, FieldsFrom;
    if a.ListArgs? {
      CheckedArgs(c, t, a.list, ws, 0);
    }
    ProperFields(c, c.tt.types[t].args, ws, 0);
    var fields := FieldsFrom(c.tt.types[t].args, ws, 0);
    if fields.Success? {
      AllocStringsFails(fields.value, 0, q);
    }
  }

  lemma MakeListForetells(c: Ctx, base: string, vs: seq<Val>, ws: seq<Val>, p: Pools, q: Pools)
    requires CtxOk(c) && SameTypes(vs, ws) && AllOk(c.tt, vs) && AllOk(c.tt, ws) && ValsOk(BuildMode, ws)
    ensures Foretells(MakeList(AsMode(c, TypeMode), base, vs, p), MakeList(AsMode(c, BuildMode), base, ws, q))
  {
    hide Table.Casts, Table.Lookup, PoolState.Allocate, CheckElemsFrom, ObjsFrom;
    var ct, cb := AsMode(c, TypeMode), AsMode(c, BuildMode);
    if c.tt.Lookup(base).Some? {
      var t := c.tt.Lookup(base).value;
      ElemChecksSeeTypesOnly(ct, cb, t, vs, ws, 0);
      CheckedElems(cb, t, ws, 0);
      if CheckElemsFrom(cb, t, ws, 0).Pass? {
        ProperObjs(ws, 0);
      }
    }
  }

  /** If building succeeds, type checking succeeds with the same type; if type checking
      succeeds, building can only fail on a C string value or on an exhausted pool; and
      apart from these, both fail with the same error. */
  lemma {:induction false} TypeCheckForetellsBuild(c: Ctx, n: TreeNode, p: Pools, q: Pools)
    requires CtxOk(c)
    ensures Foretells(EvNode(AsMode(c, TypeMode), n, p), EvNode(AsMode(c, BuildMode), n, q))
    decreases n, 0
  {
    hide MakeNode, EvArgsFrom;
    var ct, cb := AsMode(c, TypeMode), AsMode(c, BuildMode);
    match n.args
    case LiteralArgs(s) =>
      MakeNodeForetells(c, n.name, n.args, [MakeCptr(ct, s)], [MakeCptr(cb, s)], p, q);
    case ListArgs(list) =>
      ArgsForetell(c, list, 0, [], [], p, q);
      var rt, rb := EvArgsFrom(ct, list, 0, [], p), EvArgsFrom(cb, list, 0, [], q);
      if rb.Success? {
        ProperArgs(cb, list, 0, [], q);
        MakeNodeForetells(c, n.name, n.args, rt.value.0, rb.value.0, rt.value.1, rb.value.1);
      }
  }

  lemma {:induction false} ArgsForetell(c: Ctx, list: seq<NodeArg>, k: nat, vs: seq<Val>, ws: seq<Val>, p: Pools,
                                        q: Pools)
    requires CtxOk(c) && k <= |list| && |vs| == k && SameTypes(vs, ws) && AllOk(c.tt, vs) && AllOk(c.tt, ws)
    ensures ForetellsAll(EvArgsFrom(AsMode(c, TypeMode), list, k, vs, p),
                         EvArgsFrom(AsMode(c, BuildMode), list, k, ws, q))
    decreases list, |list| - k
  {
    hide EvArg;
    var ct, cb := AsMode(c, TypeMode), AsMode(c, BuildMode);
    if k < |list| {
      ArgForetells(c, list[k], p, q);
      var rt, rb := EvArg(ct, list[k], p), EvArg(cb, list[k], q);
      if rb.Success? {
        ArgsForetell(c, list, k + 1, vs + [rt.value.0], ws + [rb.value.0], rt.value.1, rb.value.1);
      }
    }
  }

  lemma {:induction false} ArgForetells(c: Ctx, a: NodeArg, p: Pools, q: Pools)
    requires CtxOk(c)
    ensures Foretells(EvArg(AsMode(c, TypeMode), a, p), EvArg(AsMode(c, BuildMode), a, q))
    decreases a, 0
  {
    hide MakeList, EvElemsFrom, EvNode;
    var ct, cb := AsMode(c, TypeMode), AsMode(c, BuildMode);
    match a.value
    case NodeValue(n) => TypeCheckForetellsBuild(c, n, p, q);
    case LiteralValue(_) =>
    case ListValue(base, elems) =>
      ElemsForetell(c, elems, 0, [], [], p, q);
      var rt, rb := EvElemsFrom(ct, elems, 0, [], p), EvElemsFrom(cb, elems, 0, [], q);
      if rb.Success? {
        ProperElems(cb, elems, 0, [], q);
        MakeListForetells(c, base, rt.value.0, rb.value.0, rt.value.1, rb.value.1);
      }
  }

  lemma {:induction false} ElemsForetell(c: Ctx, elems: seq<ListElem>, k: nat, vs: seq<Val>, ws: seq<Val>, p: Pools,
                                         q: Pools)
    requires CtxOk(c) && k <= |elems| && |vs| == k && SameTypes(vs, ws) && AllOk(c.tt, vs) && AllOk(c.tt, ws)
    ensures ForetellsAll(EvElemsFrom(AsMode(c, TypeMode), elems, k, vs, p),
                         EvElemsFrom(AsMode(c, BuildMode), elems, k, ws, q))
    decreases elems, |elems| - k
  {
    hide EvElem;
    var ct, cb := AsMode(c, TypeMode), AsMode(c, BuildMode);
    if k < |elems| {
      ElemForetells(c, elems[k], k, p, q);
      var rt, rb := EvElem(ct, elems[k], k, p), EvElem(cb, elems[k], k, q);
      if rb.Success? {
        ElemsForetell(c, elems, k + 1, vs + [rt.value.0], ws + [rb.value.0], rt.value.1, rb.value.1);
      }
    }
  }

  lemma {:induction false} ElemForetells(c: Ctx, e: ListElem, k: nat, p: Pools, q: Pools)
    requires CtxOk(c)
    ensures Foretells(EvElem(AsMode(c, TypeMode), e, k, p), EvElem(AsMode(c, BuildMode), e, k, q))
    decreases e, 0
  {
    hide EvNode;
    TypeCheckForetellsBuild(c, e.node, p, q);
  }

  // Strict casts accept less than relaxed ones.

  function WithCasts(c: Ctx, strict: bool): Ctx {
    c.(strict := strict)
  }

  lemma CastIsRelaxed(tt: Table, dst: ObjType, src: ObjType)
    requires tt.Chained() && tt.ArgOk(src)
    ensures tt.ObjCasts(true, dst, src) ==> tt.ObjCasts(false, dst, src)
  {
  }

  lemma {:induction false} RelaxedArgs(c: Ctx, t: TypeId, list: seq<NodeArg>, vs: seq<Val>, k: nat)
    requires c.tt.Chained() && t < |c.tt.types| && k <= |vs| == |list| == |c.tt.types[t].args| && AllOk(c.tt, vs)
    ensures CheckArgsFrom(WithCasts(c, true), t, list, vs, k).Pass? ==>
                CheckArgsFrom(WithCasts(c, false), t, list, vs, k).Pass?
    decreases |list| - k
  {
    hide Table.ObjCasts;
    if k < |list| {
      CastIsRelaxed(c.tt, c.tt.types[t].args[k].ty, vs[k].ty);
      RelaxedArgs(c, t, list, vs, k + 1);
    }
  }

  lemma {:induction false} RelaxedElems(c: Ctx, t: TypeId, vs: seq<Val>, k: nat)
    requires c.tt.Chained() && k <= |vs| && AllOk(c.tt, vs)
    ensures CheckElemsFrom(WithCasts(c, true), t, vs, k).Pass? ==> CheckElemsFrom(WithCasts(c, false), t, vs, k).Pass?
    decreases |vs| - k
  {
    if k < |vs| {
      RelaxedElems(c, t, vs, k + 1);
    }
  }

  lemma RelaxedNode(c: Ctx, name: string, a: NodeArgs, vs: seq<Val>, p: Pools)
    requires CtxOk(c) && |vs| == Arity(a) && AllOk(c.tt, vs)
    ensures var r := MakeNode(WithCasts(c, true), name, a, vs, p); r.Success? ==>
                MakeNode(WithCasts(c, false), name, a, vs, p) == r
  {
    hide Table.ObjCasts, Table.Lookup, AllocNode, CheckArgsFrom, FieldsFrom;
    if c.tt.Lookup(name).Some? {
      var t := c.tt.Lookup(name).value;
      if |c.tt.types[t].args| == Arity(a) {
        if a.ListArgs? {
          RelaxedArgs(c, t, a.list, vs, 0);
        } else {
          CastIsRelaxed(c.tt, c.tt.types[t].args[0].ty, vs[0].ty);
        }
      }
    }
  }

  lemma RelaxedList(c: Ctx, base: string, vs: seq<Val>, p: Pools)
    requires CtxOk(c) && AllOk(c.tt, vs)
    ensures var r := MakeList(WithCasts(c, true), base, vs, p); r.Success? ==>
                MakeList(WithCasts(c, false), base, vs, p) == r
  {
    hide Table.Casts, Table.Lookup, AllocList, CheckElemsFrom, ObjsFrom;
    if c.tt.Lookup(base).Some? {
      RelaxedElems(c, c.tt.Lookup(base).value, vs, 0);
    }
  }

  /** Every tree that strict casts accept, relaxed casts accept with the same result and
      the same use of the pools, in both modes. */
  lemma {:induction false} StrictResultIsRelaxed(c: Ctx, n: TreeNode, p: Pools)
    requires CtxOk(c)
    ensures var r := EvNode(WithCasts(c, true), n, p); r.Success? ==> EvNode(WithCasts(c, false), n, p) == r
    decreases n, 0
  {
    hide MakeNode, EvArgsFrom;
    match n.args
    case LiteralArgs(s) => RelaxedNode(c, n.name, n.args, [MakeCptr(c, s)], p);
    case ListArgs(list) =>
      StrictArgsAreRelaxed(c, list, 0, [], p);
      var r := EvArgsFrom(WithCasts(c, true), list, 0, [], p);
      if r.Success? {
        RelaxedNode(c, n.name, n.args, r.value.0, r.value.1);
      }
  }

  lemma {:induction false} StrictArgsAreRelaxed(c: Ctx, list: seq<NodeArg>, k: nat, acc: seq<Val>, p: Pools)
    requires CtxOk(c) && k <= |list| && |acc| == k && AllOk(c.tt, acc)
    ensures var r := EvArgsFrom(WithCasts(c, true), list, k, acc, p); r.Success? ==>
                EvArgsFrom(WithCasts(c, false), list, k, acc, p) == r
    decreases list, |list| - k
  {
    hide EvArg;
    if k < |list| {
      StrictArgIsRelaxed(c, list[k], p);
      var r := EvArg(WithCasts(c, true), list[k], p);
      if r.Success? {
        StrictArgsAreRelaxed(c, list, k + 1, acc + [r.value.0], r.value.1);
      }
    }
  }

  lemma {:induction false} StrictArgIsRelaxed(c: Ctx, a: NodeArg, p: Pools)
    requires CtxOk(c)
    ensures var r := EvArg(WithCasts(c, true), a, p); r.Success? ==> EvArg(WithCasts(c, false), a, p) == r
    decreases a, 0
  {
    hide MakeList, EvElemsFrom, EvNode;
    match a.value
    case NodeValue(n) => StrictResultIsRelaxed(c, n, p);
    case LiteralValue(_) =>
    case ListValue(base, elems) =>
      StrictElemsAreRelaxed(c, elems, 0, [], p);
      var r := EvElemsFrom(WithCasts(c, true), elems, 0, [], p);
      if r.Success? {
        RelaxedList(c, base, r.value.0, r.value.1);
      }
  }

  lemma {:induction false} StrictElemsAreRelaxed(c: Ctx, elems: seq<ListElem>, k: nat, acc: seq<Val>, p: Pools)
    requires CtxOk(c) && k <= |elems| && |acc| == k && AllOk(c.tt, acc)
    ensures var r := EvElemsFrom(WithCasts(c, true), elems, k, acc, p); r.Success? ==>
                EvElemsFrom(WithCasts(c, false), elems, k, acc, p) == r
    decreases elems, |elems| - k
  {
    hide EvElem;
    if k < |elems| {
      StrictElemIsRelaxed(c, elems[k], k, p);
      var r := EvElem(WithCasts(c, true), elems[k], k, p);
      if r.Success? {
        StrictElemsAreRelaxed(c, elems, k + 1, acc + [r.value.0], r.value.1);
      }
    }
  }

  lemma {:induction false} StrictElemIsRelaxed(c: Ctx, e: ListElem, k: nat, p: Pools)
    requires CtxOk(c)
    ensures var r := EvElem(WithCasts(c, true), e, k, p); r.Success? ==> EvElem(WithCasts(c, false), e, k, p) == r
    decreases e, 0
  {
    hide EvNode;
    StrictResultIsRelaxed(c, e.node, p);
  }

  // Errors come in order.

  /** The arguments before the `k`-th evaluate, and that one fails. */
  predicate ArgFailsAt(c: Ctx, list: seq<NodeArg>, j: nat, acc: seq<Val>, p: Pools, k: nat, e: EvalError)
    requires CtxOk(c) && j <= k < |list| && |acc| == j && AllOk(c.tt, acc)
  {
    var r := EvArgsFrom(c, list[..k], j, acc, p);
    r.Success? && EvArg(c, list[k], r.value.1) == Failure(e)
  }

  lemma {:induction false} ArgsFailInOrder(c: Ctx, list: seq<NodeArg>, j: nat, acc: seq<Val>, p: Pools, e: EvalError)
    requires CtxOk(c) && j <= |list| && |acc| == j && AllOk(c.tt, acc)
    ensures EvArgsFrom(c, list, j, acc, p) == Failure(e)
       <==> exists k :: j <= k < |list| && ArgFailsAt(c, list, j, acc, p, k, e)
    decreases |list| - j
  {
    hide EvArg;
    if j < |list| {
      var r := EvArg(c, list[j], p);
      assert EvArgsFrom(c, list[..j], j, acc, p) == Success((acc, p));
      if r.Success? {
        var i, more, q := j + 1, acc + [r.value.0], r.value.1;
        ArgsFailInOrder(c, list, i, more, q, e);
        assert !ArgFailsAt(c, list, j, acc, p, j, e);
        forall k | j < k < |list|
          ensures ArgFailsAt(c, list, j, acc, p, k, e) <==> ArgFailsAt(c, list, i, more, q, k, e)
        {
          assert list[..k][j] == list[j];
        }
      } else {
        forall k | j < k < |list| ensures !ArgFailsAt(c, list, j, acc, p, k, e) {
          assert list[..k][j] == list[j];
        }
        assert r == Failure(e) ==> ArgFailsAt(c, list, j, acc, p, j, e);
      }
    }
  }

  /** A node fails with the error of its first argument that fails; only when all arguments
      evaluate is its own name looked up and the arguments are checked. */
  lemma NodeErrorsComeInOrder(c: Ctx, name: string, list: seq<NodeArg>, p: Pools, e: EvalError)
    requires CtxOk(c)
    ensures EvNode(c, TreeNode(name, ListArgs(list)), p) == Failure(e)
       <==> || (exists k :: 0 <= k < |list| && ArgFailsAt(c, list, 0, [], p, k, e))
            || (EvArgsFrom(c, list, 0, [], p).Success?
                && var (vs, q) := EvArgsFrom(c, list, 0, [], p).value;
                   MakeNode(c, name, ListArgs(list), vs, q) == Failure(e))
  {
    hide EvArgsFrom, MakeNode;
    ArgsFailInOrder(c, list, 0, [], p, e);
  }

  predicate ElemFailsAt(c: Ctx, elems: seq<ListElem>, j: nat, acc: seq<Val>, p: Pools, k: nat, e: EvalError)
    requires CtxOk(c) && j <= k < |elems| && |acc| == j && AllOk(c.tt, acc)
  {
    var r := EvElemsFrom(c, elems[..k], j, acc, p);
    && r.Success?
    && if elems[k].index != k then e == InvalidListIndex(elems[k].index, k)
       else EvNode(c, elems[k].node, r.value.1) == Failure(e)
  }

  lemma {:induction false} ElemsFailInOrder(c: Ctx, elems: seq<ListElem>, j: nat, acc: seq<Val>, p: Pools, e: EvalError)
    requires CtxOk(c) && j <= |elems| && |acc| == j && AllOk(c.tt, acc)
    ensures EvElemsFrom(c, elems, j, acc, p) == Failure(e)
       <==> exists k :: j <= k < |elems| && ElemFailsAt(c, elems, j, acc, p, k, e)
    decreases |elems| - j
  {
    hide EvNode;
    if j < |elems| {
      var r := EvElem(c, elems[j], j, p);
      assert EvElemsFrom(c, elems[..j], j, acc, p) == Success((acc, p));
      if r.Success? {
        var i, more, q := j + 1, acc + [r.value.0], r.value.1;
        ElemsFailInOrder(c, elems, i, more, q, e);
        assert !ElemFailsAt(c, elems, j, acc, p, j, e);
        forall k | j < k < |elems|
          ensures ElemFailsAt(c, elems, j, acc, p, k, e) <==> ElemFailsAt(c, elems, i, more, q, k, e)
        {
          assert elems[..k][j] == elems[j];
        }
      } else {
        forall k | j < k < |elems| ensures !ElemFailsAt(c, elems, j, acc, p, k, e) {
          assert elems[..k][j] == elems[j];
        }
        assert r == Failure(e) ==> ElemFailsAt(c, elems, j, acc, p, j, e);
      }
    }
  }

  /** A list fails with the error of its first element that fails, an element out of order
      before it is evaluated; only then is the base looked up and the elements are checked. */
  lemma ListErrorsComeInOrder(c: Ctx, name: string, base: string, elems: seq<ListElem>, p: Pools, e: EvalError)
    requires CtxOk(c)
    ensures EvArg(c, NodeArg(name, ListValue(base, elems)), p) == Failure(e)
       <==> || (exists k :: 0 <= k < |elems| && ElemFailsAt(c, elems, 0, [], p, k, e))
            || (EvElemsFrom(c, elems, 0, [], p).Success?
                && var (vs, q) := EvElemsFrom(c, elems, 0, [], p).value;
                   MakeList(c, base, vs, q) == Failure(e))
  {
    hide EvElemsFrom, MakeList;
    ElemsFailInOrder(c, elems, 0, [], p, e);
  }
}
