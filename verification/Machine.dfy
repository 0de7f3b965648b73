/** The stack machine: a stack of named values, a maker that checks and consumes them, and
    the visitor that drives both. It computes what the evaluation functions compute. */
module Machine {
  import opened Wrappers
  import opened Search
  import opened Syntax
  import opened Pool
  import opened Types
  import opened Eval
  import opened EvalProofs

  datatype StackObj = StackObj(name: Option<string>, value: Val)

  /** The stack; its top is at index 0. */
  class ObjStack {
    var objs: seq<StackObj>

    constructor ()
      ensures objs == []
    {
      objs := [];
    }

    method At(k: nat) returns (r: Result<StackObj, EvalError>)
      ensures r == if k < |objs| then Success(objs[k]) else Failure(IndexOutOfRange(k))
    {
      if k >= |objs| {
        return Failure(IndexOutOfRange(k));
      }
      return Success(objs[k]);
    }

    method Top() returns (r: Result<StackObj, EvalError>)
      ensures r == if objs != [] then Success(objs[0]) else Failure(StackEmpty)
    {
      if objs == [] {
        return Failure(StackEmpty);
      }
      return Success(objs[0]);
    }

    method Pop(n: nat) returns (r: Outcome<EvalError>)
      modifies this
      ensures if 0 < n <= |old(objs)| then r.Pass? && objs == old(objs)[n..]
              else r == Fail(SizeOutOfRange(n)) && objs == old(objs)
    {
      if n == 0 || n > |objs| {
        return Fail(SizeOutOfRange(n));
      }
      objs := objs[n..];
      return Pass;
    }

    method Push(v: Val)
      modifies this
      ensures objs == [StackObj(None, v)] + old(objs)
    {
      objs := [StackObj(None, v)] + objs;
    }

    /** `visit(ArgName*)`: name the top entry, which must have no name yet. */
    method NameTop(name: string) returns (r: Outcome<EvalError>)
      modifies this
      ensures if old(objs) == [] then r == Fail(StackEmpty) && objs == old(objs)
              else if old(objs)[0].name.Some? then r == Fail(NameNotNull) && objs == old(objs)
              else r.Pass? && objs == [StackObj(Some(name), old(objs)[0].value)] + old(objs)[1..]
    {
      if objs == [] {
        return Fail(StackEmpty);
      }
      if objs[0].name.Some? {
        return Fail(NameNotNull);
      }
      objs := [objs[0].(name := Some(name))] + objs[1..];
      return Pass;
    }

    /** What `eval(tree)` makes of the stack that the visitor leaves. */
    method Result() returns (r: Result<Val, EvalError>)
      ensures r == if |objs| != 1 then Failure(InvalidStackSize(|objs|))
                   else if !objs[0].value.ty.NodeT? then Failure(TopIsNotNode)
                   else Success(objs[0].value)
    {
      if |objs| != 1 {
        return Failure(InvalidStackSize(|objs|));
      }
      var top := Top();
      if !top.value.value.ty.NodeT? {
        return Failure(TopIsNotNode);
      }
      return Success(top.value.value);
    }
  }

  /** The entries that `vs` leave on the stack, the last one on top. */
  function Stacked(names: seq<Option<string>>, vs: seq<Val>): (objs: seq<StackObj>)
    requires |vs| <= |names|
    ensures |objs| == |vs|
  {
    if vs == [] then []
    else
      var last := |vs| - 1;
      [StackObj(names[last], vs[last])] + Stacked(names, vs[..last])
  }

  /** Indexing from the top reverses the order of the source. */
  lemma {:induction false} StackedAt(names: seq<Option<string>>, vs: seq<Val>, k: nat)
    requires |vs| <= |names| && k < |vs|
    ensures Stacked(names, vs)[|vs| - 1 - k] == StackObj(names[k], vs[k])
    decreases |vs|
  {
    if k < |vs| - 1 {
      StackedAt(names, vs[..|vs| - 1], k);
    }
  }

  lemma StackedNone(names: seq<Option<string>>, base: seq<StackObj>)
    ensures Stacked(names, []) + base == base
  {
  }

  lemma StackedPush(names: seq<Option<string>>, vs: seq<Val>, v: Val)
    requires |vs| < |names|
    ensures Stacked(names, vs + [v]) == [StackObj(names[|vs|], v)] + Stacked(names, vs)
  {
    assert (vs + [v])[..|vs|] == vs;
  }

  function NamesOf(a: NodeArgs): seq<Option<string>> {
    match a
    case LiteralArgs(_) => [None]
    case ListArgs(list) => seq(|list|, i requires 0 <= i < |list| => Some(list[i].name))
  }

  function NoNames(n: nat): seq<Option<string>> {
    seq(n, _ => None)
  }

  /** The values of some arguments are on top of the stack. */
  predicate OnTop(objs: seq<StackObj>, names: seq<Option<string>>, vs: seq<Val>) {
    |vs| <= |names| && |vs| <= |objs| && objs[..|vs|] == Stacked(names, vs)
  }

  lemma OnTopAt(objs: seq<StackObj>, names: seq<Option<string>>, vs: seq<Val>, k: nat)
    requires OnTop(objs, names, vs) && k < |vs|
    ensures objs[|vs| - 1 - k] == StackObj(names[k], vs[k])
  {
    StackedAt(names, vs, k);
    assert objs[..|vs|][|vs| - 1 - k] == objs[|vs| - 1 - k];
  }

  /** A maker: `TypeMaker` in type mode, `NodeMaker` in build mode. */
  class Maker {
    const tt: Table
    const strict: bool
    const mode: Mode
    const finder: Finder
    var nargError: bool
    var pools: Pools

    ghost predicate Valid()
      reads this, finder
    {
      finder.Valid() && finder.tt == tt
    }

    function TheCtx(): Ctx {
      Ctx(tt, strict, mode)
    }

    constructor (tt: Table, strict: bool, mode: Mode, pools: Pools)
      requires tt.Valid()
      ensures Valid() && !nargError && this.pools == pools && TheCtx() == Ctx(tt, strict, mode) && fresh(finder)
    {
      this.tt, this.strict, this.mode, this.pools := tt, strict, mode, pools;
      finder := new Finder(tt);
      nargError := false;
    }

    /** `check_node_arg_value`. */
    method CheckArgValue(t: TypeId, k: nat, def: ArgDef, obj: StackObj) returns (r: Outcome<EvalError>)
      requires CtxOk(TheCtx()) && tt.ArgOk(obj.value.ty)
      ensures r == CheckArg(TheCtx(), t, k, def, obj.value)
    {
      var casts := ObjTypeCast(tt, def.ty, obj.value.ty, strict);
      if !casts {
        return Fail(CannotCast(t, k, obj.value.ty, def.ty));
      }
      return Pass;
    }

    /** `check_node_args`: the first argument is the deepest of the `narg` top entries. */
    method CheckNodeArgs(t: TypeId, a: NodeArgs, args: ObjStack, ghost vs: seq<Val>) returns (r: Outcome<EvalError>)
      requires CtxOk(TheCtx()) && t < |tt.types|
      requires |vs| == Arity(a) && AllOk(tt, vs) && OnTop(args.objs, NamesOf(a), vs)
      modifies `nargError
      ensures r == CheckNode(TheCtx(), t, a, vs)
      ensures nargError == (old(nargError) || (r.Fail? && r.error.WrongArity?))
    {
      hide Table.ObjCasts, Stacked;
      var defs := tt.types[t].args;
      match a
      case LiteralArgs(_) =>
        if |defs| != 1 {
          nargError := true;
          return Fail(WrongArity(t, |defs|, 1));
        }
        OnTopAt(args.objs, NamesOf(a), vs, 0);
        var obj := args.At(0);
        r := CheckArgValue(t, 1, defs[0], obj.value);
      case ListArgs(list) =>
        if |defs| != |list| {
          nargError := true;
          return Fail(WrongArity(t, |defs|, |list|));
        }
        var narg := |defs|;
        var k, ptr := narg - 1, 0;
        while ptr != narg
          invariant 0 <= ptr <= narg && k == narg - 1 - ptr
          invariant nargError == old(nargError)
          invariant CheckArgsFrom(TheCtx(), t, list, vs, 0) == CheckArgsFrom(TheCtx(), t, list, vs, ptr)
          decreases narg - ptr
        {
          OnTopAt(args.objs, NamesOf(a), vs, ptr);
          var obj := args.At(k);
          if Some(defs[ptr].name) != obj.value.name {
            return Fail(WrongName(t, narg - k, defs[ptr].name, list[ptr].name));
          }
          r := CheckArgValue(t, narg - k, defs[ptr], obj.value);
          if r.Fail? {
            return r;
          }
          ptr, k := ptr + 1, k - 1;
        }
        return Pass;
    }

    /** `check_list_args`. */
    method CheckListArgs(t: TypeId, n: nat, args: ObjStack, ghost vs: seq<Val>) returns (r: Outcome<EvalError>)
      requires CtxOk(TheCtx()) && t < |tt.types|
      requires |vs| == n && AllOk(tt, vs) && OnTop(args.objs, NoNames(n), vs)
      ensures r == CheckElemsFrom(TheCtx(), t, vs, 0)
    {
      hide Table.Casts, Stacked;
      var k := n;
      while k > 0
        invariant 0 <= k <= n
        invariant CheckElemsFrom(TheCtx(), t, vs, 0) == CheckElemsFrom(TheCtx(), t, vs, n - k)
      {
        OnTopAt(args.objs, NoNames(n), vs, n - k);
        var obj := args.At(k - 1);
        var ty := obj.value.value.ty;
        var casts := ListTypeCast(tt, t, ty, strict);
        if !casts {
          return Fail(CannotCastElem(t, n - k, ty));
        }
        k := k - 1;
      }
      return Pass;
    }

    /** `pop_args`, run when a guard is destroyed: after a miscount it only clears the flag. */
    method PopArgs(n: nat, args: ObjStack) returns (r: Outcome<EvalError>)
      requires n <= |args.objs|
      modifies `nargError, args
      ensures r.Pass? && !nargError
      ensures args.objs == if old(nargError) then old(args.objs) else old(args.objs)[n..]
    {
      r := Pass;
      if !nargError {
        if n > 0 {
          r := args.Pop(n);
        }
      } else {
        nargError := false;
      }
    }

    /** The arguments of a constructor, read off the stack in the order of the class. */
    method NodeFields(t: TypeId, args: ObjStack, ghost names: seq<Option<string>>, ghost vs: seq<Val>)
      returns (r: Result<seq<Field>, EvalError>)
      requires t < |tt.types| && |vs| == |tt.types[t].args| && OnTop(args.objs, names, vs)
      ensures r == FieldsFrom(tt.types[t].args, vs, 0)
    {
      hide FieldOf, Stacked;
      var narg := |tt.types[t].args|;
      var fields: seq<Field> := [];
      ghost var all := FieldsFrom(tt.types[t].args, vs, 0);
      assert all.Success? ==> fields + all.value == all.value;
      for k := 0 to narg
        invariant |fields| == k
        invariant match FieldsFrom(tt.types[t].args, vs, k)
                  case Success(fs) => FieldsFrom(tt.types[t].args, vs, 0) == Success(fields + fs)
                  case Failure(e) => FieldsFrom(tt.types[t].args, vs, 0) == Failure(e)
      {
        OnTopAt(args.objs, names, vs, k);
        var obj := args.At(narg - k - 1);
        var f := FieldOf(tt.types[t].args[k].ty, obj.value.value);
        if f.Failure? {
          return Failure(f.error);
        }
        ghost var more := FieldsFrom(tt.types[t].args, vs, k + 1);
        if more.Success? {
          assert fields + ([f.value] + more.value) == fields + [f.value] + more.value;
        }
        fields := fields + [f.value];
      }
      assert fields + [] == fields;
      return Success(fields);
    }

    /** `new_node<T>` after its checks. */
    method NewNode(t: TypeId, args: ObjStack, ghost names: seq<Option<string>>, ghost vs: seq<Val>)
      returns (r: Result<Val, EvalError>)
      requires CtxOk(TheCtx()) && t < |tt.types| && |vs| == |tt.types[t].args| && OnTop(args.objs, names, vs)
      modifies `pools
      ensures match NodeResult(t, vs, old(pools))
              case Success((v, p)) => r == Success(v) && pools == p
              case Failure(e) => r == Failure(e)
    {
      hide AllocNode, FieldsFrom, OnTop;
      if mode == TypeMode {
        return Success(Val(NodeT(t), NoData));
      }
      var fields :- NodeFields(t, args, names, vs);
      var p :- AllocNode(tt.types[t], fields, pools);
      pools := p;
      return Success(Val(NodeT(t), NodeD(Obj(t, fields))));
    }

    function NodeResult(t: TypeId, vs: seq<Val>, p: Pools): Result<(Val, Pools), EvalError>
      requires CtxOk(TheCtx()) && t < |tt.types| && |vs| == |tt.types[t].args|
    {
      if mode == TypeMode then Success((Val(NodeT(t), NoData), p))
      else
        var fields :- FieldsFrom(tt.types[t].args, vs, 0);
        var p1 :- AllocNode(tt.types[t], fields, p);
        Success((Val(NodeT(t), NodeD(Obj(t, fields))), p1))
    }

    /** `make_node`: find the type, check, build, and consume the arguments. A stale
        miscount flag keeps the arguments on the stack. */
    method MakeNode(name: string, a: NodeArgs, args: ObjStack, ghost vs: seq<Val>) returns (r: Result<Val, EvalError>)
      requires Valid() && CtxOk(TheCtx())
      requires |vs| == Arity(a) && AllOk(tt, vs) && OnTop(args.objs, NamesOf(a), vs)
      modifies this, finder, args
      ensures Valid()
      ensures match Eval.MakeNode(TheCtx(), name, a, vs, old(pools))
              case Success((v, p)) =>
                && r == Success(v) && pools == p && !nargError
                && args.objs == if old(nargError) then old(args.objs) else old(args.objs)[|vs|..]
              case Failure(e) => r == Failure(e) && (!old(nargError) ==> nargError == e.WrongArity?)
      ensures r.Failure? ==> args.objs == if !old(nargError) && NodeChecked(TheCtx(), name, a, vs)
                                          then old(args.objs)[|vs|..] else old(args.objs)
    {
      hide AllocNode, FieldsFrom, CheckArgsFrom, Table.ObjCasts, OnTop, Table.Lookup, Table.Valid;
      var found := finder.Find(name);
      if found.None? {
        return Failure(UnknownType(name));
      }
      var t := found.value;
      FoundIsType(TheCtx(), name, t);
      var checked := CheckNodeArgs(t, a, args, vs);
      if checked.Fail? {
        return Failure(checked.error);
      }
      r := NewNode(t, args, NamesOf(a), vs);
      ArityOfTop(args.objs, NamesOf(a), vs);
      BuildErrors(TheCtx(), t, name, a, vs, old(pools));
      var popped := PopArgs(|tt.types[t].args|, args);
    }

    /** `new_list<R, V>`: an array filled from the deepest entry up. */
    method ListObjs(n: nat, args: ObjStack, ghost vs: seq<Val>) returns (r: Result<seq<Obj>, EvalError>)
      requires |vs| == n && OnTop(args.objs, NoNames(n), vs)
      ensures r == ObjsFrom(vs, 0)
    {
      hide Stacked;
      var objs: seq<Obj> := [];
      ghost var all := ObjsFrom(vs, 0);
      assert all.Success? ==> objs + all.value == all.value;
      var k: int := n - 1;
      for ptr := 0 to n
        invariant k == n - 1 - ptr
        invariant match ObjsFrom(vs, ptr)
                  case Success(os) => ObjsFrom(vs, 0) == Success(objs + os)
                  case Failure(e) => ObjsFrom(vs, 0) == Failure(e)
      {
        OnTopAt(args.objs, NoNames(n), vs, ptr);
        var obj := args.At(k);
        if !obj.value.value.data.NodeD? {
          return Failure(TypeMismatch);
        }
        ghost var more := ObjsFrom(vs, ptr + 1);
        if more.Success? {
          assert objs + ([obj.value.value.data.obj] + more.value) == objs + [obj.value.value.data.obj] + more.value;
        }
        objs := objs + [obj.value.value.data.obj];
        k := k - 1;
      }
      assert objs + [] == objs;
      return Success(objs);
    }

    method NewList(t: TypeId, n: nat, args: ObjStack, ghost vs: seq<Val>) returns (r: Result<Val, EvalError>)
      requires |vs| == n && OnTop(args.objs, NoNames(n), vs)
      modifies `pools
      ensures match ListResult(t, vs, old(pools))
              case Success((v, p)) => r == Success(v) && pools == p
              case Failure(e) => r == Failure(e)
    {
      hide AllocList, ObjsFrom, OnTop;
      if mode == TypeMode {
        return Success(Val(ListT(t), NoData));
      }
      var p :- AllocList(n, pools);
      pools := p;
      var objs :- ListObjs(n, args, vs);
      return Success(Val(ListT(t), ListD(objs)));
    }

    function ListResult(t: TypeId, vs: seq<Val>, p: Pools): Result<(Val, Pools), EvalError> {
      if mode == TypeMode then Success((Val(ListT(t), NoData), p))
      else
        var p1 :- AllocList(|vs|, p);
        var objs :- ObjsFrom(vs, 0);
        Success((Val(ListT(t), ListD(objs)), p1))
    }

    /** `make_list`. */
    method MakeList(base: string, n: nat, args: ObjStack, ghost vs: seq<Val>) returns (r: Result<Val, EvalError>)
      requires Valid() && CtxOk(TheCtx()) && !nargError
      requires |vs| == n && AllOk(tt, vs) && OnTop(args.objs, NoNames(n), vs)
      modifies this, finder, args
      ensures Valid() && !nargError
      ensures match Eval.MakeList(TheCtx(), base, vs, old(pools))
              case Success((v, p)) => r == Success(v) && pools == p && args.objs == old(args.objs)[|vs|..]
              case Failure(e) => r == Failure(e)
      ensures r.Failure? ==> args.objs == if ListChecked(TheCtx(), base, vs) then old(args.objs)[|vs|..]
                                          else old(args.objs)
    {
      hide AllocList, ObjsFrom, CheckElemsFrom, Table.Casts, OnTop, Table.Lookup, Table.Valid;
      var found := finder.Find(base);
      if found.None? {
        return Failure(UnknownType(base));
      }
      var t := found.value;
      FoundIsType(TheCtx(), base, t);
      var checked := CheckListArgs(t, n, args, vs);
      if checked.Fail? {
        return Failure(checked.error);
      }
      r := NewList(t, n, args, vs);
      ArityOfTop(args.objs, NoNames(n), vs);
      var popped := PopArgs(n, args);
    }
  }

  /** The guard that pops the arguments was set up: the type was found and its checks passed. */
  predicate NodeChecked(c: Ctx, name: string, a: NodeArgs, vs: seq<Val>)
    requires CtxOk(c) && |vs| == Arity(a) && AllOk(c.tt, vs)
  {
    c.tt.Lookup(name).Some? && CheckNode(c, c.tt.Lookup(name).value, a, vs).Pass?
  }

  predicate ListChecked(c: Ctx, base: string, vs: seq<Val>)
    requires CtxOk(c) && AllOk(c.tt, vs)
  {
    c.tt.Lookup(base).Some? && CheckElemsFrom(c, c.tt.Lookup(base).value, vs, 0).Pass?
  }

  lemma FoundIsType(c: Ctx, name: string, t: TypeId)
    requires CtxOk(c) && c.tt.Lookup(name) == Some(t)
    ensures t < |c.tt.types|
  {
  }

  lemma ArityOfTop(objs: seq<StackObj>, names: seq<Option<string>>, vs: seq<Val>)
    requires OnTop(objs, names, vs)
    ensures |vs| <= |objs|
  {
  }

  /** Past its checks, making a node no longer miscounts. */
  lemma BuildErrors(c: Ctx, t: TypeId, name: string, a: NodeArgs, vs: seq<Val>, p: Pools)
    requires CtxOk(c) && c.tt.Lookup(name) == Some(t) && |vs| == Arity(a) && AllOk(c.tt, vs)
    requires CheckNode(c, t, a, vs).Pass?
    ensures var r := Eval.MakeNode(c, name, a, vs, p); r.Failure? ==> !r.error.WrongArity?
  {
    hide AllocStrings, CheckArgsFrom, Table.ObjCasts, Table.Lookup, PoolState.Allocate;
    var fields := FieldsFrom(c.tt.types[t].args, vs, 0);
    FieldErrors(c.tt.types[t].args, vs, 0);
    if fields.Success? {
      AllocStringsFails(fields.value, 0, p);
    }
  }

  lemma {:induction false} FieldErrors(defs: seq<ArgDef>, vs: seq<Val>, k: nat)
    requires k <= |vs| == |defs|
    ensures var r := FieldsFrom(defs, vs, k); r.Failure? ==> r.error.TypeMismatch? || r.error.InvalidValue?
    decreases |vs| - k
  {
    if k < |vs| {
      FieldErrors(defs, vs, k + 1);
    }
  }

  /** The visitor. */
  class Evaluator {
    const maker: Maker
    const stack: ObjStack

    ghost predicate Valid()
      reads this, maker, maker.finder
    {
      maker.Valid() && CtxOk(maker.TheCtx()) && !maker.nargError
    }

    constructor (maker: Maker)
      requires maker.Valid() && CtxOk(maker.TheCtx()) && !maker.nargError
      ensures Valid() && this.maker == maker && fresh(stack) && stack.objs == []
    {
      this.maker := maker;
      stack := new ObjStack();
    }

    /** Evaluation added one unnamed value and left the rest of the stack alone; or it
        failed, and left the miscount flag set if that was the failure. */
    ghost predicate Added(spec: Result<(Val, Pools), EvalError>, r: Outcome<EvalError>, base: seq<StackObj>)
      reads this, maker, maker.finder, stack
    {
      match spec
      case Success((v, p)) => r.Pass? && Valid() && maker.pools == p && stack.objs == [StackObj(None, v)] + base
      case Failure(e) => r == Fail(e) && maker.nargError == e.WrongArity?
    }

    method VisitLiteral(s: string)
      modifies stack
      ensures stack.objs == [StackObj(None, MakeCptr(maker.TheCtx(), s))] + old(stack.objs)
    {
      stack.Push(MakeCptr(maker.TheCtx(), s));
    }

    method VisitTreeNode(n: TreeNode) returns (r: Outcome<EvalError>)
      requires Valid()
      modifies maker, maker.finder, stack
      ensures Added(EvNode(maker.TheCtx(), n, old(maker.pools)), r, old(stack.objs))
      decreases n, 1
    {
      hide Eval.MakeNode, Stacked, CtxOk;
      ghost var c, base := maker.TheCtx(), stack.objs;
      ghost var vs: seq<Val>;
      match n.args {
        case LiteralArgs(s) =>
          VisitLiteral(s);
          vs := [MakeCptr(c, s)];
          StackedOne(stack.objs, base, vs[0]);
        case ListArgs(list) =>
          var done := VisitListArgs(list);
          if done.Fail? {
            return done;
          }
          vs := EvArgsFrom(c, list, 0, [], old(maker.pools)).value.0;
      }
      StackedOnTop(stack.objs, base, NamesOf(n.args), vs);
      var v := maker.MakeNode(n.name, n.args, stack, vs);
      if v.Failure? {
        return Fail(v.error);
      }
      stack.Push(v.value);
      return Pass;
    }

    method VisitListArgs(list: seq<NodeArg>) returns (r: Outcome<EvalError>)
      requires Valid()
      modifies maker, maker.finder, stack
      ensures match EvArgsFrom(maker.TheCtx(), list, 0, [], old(maker.pools))
              case Success((vs, p)) =>
                && r.Pass? && Valid() && maker.pools == p
                && stack.objs == Stacked(NamesOf(ListArgs(list)), vs) + old(stack.objs)
              case Failure(e) => r == Fail(e) && maker.nargError == e.WrongArity?
      decreases list, 0
    {
      hide EvArg, CtxOk, Stacked;
      ghost var c, base, names := maker.TheCtx(), stack.objs, NamesOf(ListArgs(list));
      ghost var vs: seq<Val> := [];
      StackedNone(names, base);
      for k := 0 to |list|
        invariant Valid() && |vs| == k && AllOk(maker.tt, vs)
        invariant stack.objs == Stacked(names, vs) + base
        invariant EvArgsFrom(c, list, 0, [], old(maker.pools)) == EvArgsFrom(c, list, k, vs, maker.pools)
      {
        ghost var v := EvArg(c, list[k], maker.pools);
        var done := VisitNodeArg(list[k]);
        if done.Fail? {
          return done;
        }
        StackedPush(names, vs, v.value.0);
        Assoc([StackObj(names[k], v.value.0)], Stacked(names, vs), base);
        vs := vs + [v.value.0];
      }
      return Pass;
    }

    /** The value, then its name. */
    method VisitNodeArg(a: NodeArg) returns (r: Outcome<EvalError>)
      requires Valid()
      modifies maker, maker.finder, stack
      ensures match EvArg(maker.TheCtx(), a, old(maker.pools))
              case Success((v, p)) =>
                r.Pass? && Valid() && maker.pools == p && stack.objs == [StackObj(Some(a.name), v)] + old(stack.objs)
              case Failure(e) => r == Fail(e) && maker.nargError == e.WrongArity?
      decreases a, 1
    {
      r := VisitArgValue(a);
      if r.Pass? {
        ghost var v := EvArg(maker.TheCtx(), a, old(maker.pools)).value.0;
        assert stack.objs[0] == StackObj(None, v) && stack.objs[1..] == old(stack.objs);
        r := stack.NameTop(a.name);
      }
    }

    method VisitArgValue(a: NodeArg) returns (r: Outcome<EvalError>)
      requires Valid()
      modifies maker, maker.finder, stack
      ensures Added(EvArg(maker.TheCtx(), a, old(maker.pools)), r, old(stack.objs))
      decreases a, 0
    {
      hide EvNode, EvElemsFrom, Eval.MakeList, CtxOk;
      match a.value {
        case NodeValue(n) =>
          r := VisitTreeNode(n);
        case ListValue(base, elems) =>
          r := VisitNodeList(base, elems);
        case LiteralValue(s) =>
          VisitLiteral(s);
          r := Pass;
      }
    }

    function ListSpec(base: string, elems: seq<ListElem>, p: Pools): Result<(Val, Pools), EvalError>
      requires CtxOk(maker.TheCtx())
    {
      var (vs, p1) :- EvElemsFrom(maker.TheCtx(), elems, 0, [], p);
      Eval.MakeList(maker.TheCtx(), base, vs, p1)
    }

    method VisitNodeList(base: string, elems: seq<ListElem>) returns (r: Outcome<EvalError>)
      requires Valid()
      modifies maker, maker.finder, stack
      ensures Added(ListSpec(base, elems, old(maker.pools)), r, old(stack.objs))
      decreases elems, 1
    {
      hide EvElemsFrom, Eval.MakeList, Stacked, CtxOk;
      ghost var c, bottom := maker.TheCtx(), stack.objs;
      r := VisitElems(elems);
      if r.Fail? {
        return;
      }
      ghost var vs := EvElemsFrom(c, elems, 0, [], old(maker.pools)).value.0;
      StackedOnTop(stack.objs, bottom, NoNames(|elems|), vs);
      ListErrors(c, base, vs, maker.pools);
      var v := maker.MakeList(base, |elems|, stack, vs);
      if v.Failure? {
        return Fail(v.error);
      }
      stack.Push(v.value);
    }

    /** The elements of a list, whose indices must count from zero. */
    method VisitElems(elems: seq<ListElem>) returns (r: Outcome<EvalError>)
      requires Valid()
      modifies maker, maker.finder, stack
      ensures match EvElemsFrom(maker.TheCtx(), elems, 0, [], old(maker.pools))
              case Success((vs, p)) =>
                r.Pass? && Valid() && maker.pools == p && stack.objs == Stacked(NoNames(|elems|), vs) + old(stack.objs)
              case Failure(e) => r == Fail(e) && maker.nargError == e.WrongArity?
      decreases elems, 0
    {
      hide EvNode, CtxOk, Stacked;
      ghost var c, base, names := maker.TheCtx(), stack.objs, NoNames(|elems|);
      ghost var vs: seq<Val> := [];
      StackedNone(names, base);
      for k := 0 to |elems|
        invariant Valid() && |vs| == k && AllOk(maker.tt, vs)
        invariant stack.objs == Stacked(names, vs) + base
        invariant EvElemsFrom(c, elems, 0, [], old(maker.pools)) == EvElemsFrom(c, elems, k, vs, maker.pools)
      {
        if elems[k].index != k {
          return Fail(InvalidListIndex(elems[k].index, k));
        }
        ghost var v := EvNode(c, elems[k].node, maker.pools);
        var done := VisitListElem(elems[k]);
        if done.Fail? {
          return done;
        }
        StackedPush(names, vs, v.value.0);
        Assoc([StackObj(names[k], v.value.0)], Stacked(names, vs), base);
        vs := vs + [v.value.0];
      }
      return Pass;
    }

    method VisitListElem(e: ListElem) returns (r: Outcome<EvalError>)
      requires Valid()
      modifies maker, maker.finder, stack
      ensures Added(EvNode(maker.TheCtx(), e.node, old(maker.pools)), r, old(stack.objs))
      decreases e, 1
    {
      r := VisitTreeNode(e.node);
    }

    /** `eval(tree)` of a fresh evaluator: the value of the root, or the first error. */
    method EvalTree(root: TreeNode) returns (r: Result<Val, EvalError>)
      requires Valid() && stack.objs == []
      modifies maker, maker.finder, stack
      ensures match EvNode(maker.TheCtx(), root, old(maker.pools))
              case Success((v, p)) => r == Success(v) && v.ty.NodeT? && maker.pools == p && !maker.nargError
              case Failure(e) => r == Failure(e) && !IsMachineError(e)
    {
      EvaluationIsProper(maker.TheCtx(), root, maker.pools);
      RootIsNode(maker.TheCtx(), root, maker.pools);
      var done := VisitTreeNode(root);
      if done.Fail? {
        return Failure(done.error);
      }
      r := stack.Result();
    }
  }

  lemma StackedOne(objs: seq<StackObj>, base: seq<StackObj>, v: Val)
    requires objs == [StackObj(None, v)] + base
    ensures objs == Stacked([None], [v]) + base
  {
    assert Stacked([None], [v]) == [StackObj(None, v)] + Stacked([None], []);
  }

  lemma StackedOnTop(objs: seq<StackObj>, base: seq<StackObj>, names: seq<Option<string>>, vs: seq<Val>)
    requires |vs| <= |names| && objs == Stacked(names, vs) + base
    ensures OnTop(objs, names, vs) && objs[|vs|..] == base
  {
  }

  lemma RootIsNode(c: Ctx, n: TreeNode, p: Pools)
    requires CtxOk(c)
    ensures var r := EvNode(c, n, p); r.Success? ==> r.value.0.ty.NodeT?
  {
    hide EvArgsFrom, CheckNode, FieldsFrom, AllocNode, Table.Lookup;
  }

  /** Making a list never miscounts. */
  lemma ListErrors(c: Ctx, base: string, vs: seq<Val>, p: Pools)
    requires CtxOk(c) && AllOk(c.tt, vs)
    ensures var r := Eval.MakeList(c, base, vs, p); r.Failure? ==> !r.error.WrongArity?
  {
    hide Table.Lookup, Table.Casts, PoolState.Allocate;
    if c.tt.Lookup(base).Some? {
      CheckedElems(c, c.tt.Lookup(base).value, vs, 0);
      ObjErrors(vs, 0);
    }
  }

  lemma {:induction false} ObjErrors(vs: seq<Val>, k: nat)
    requires k <= |vs|
    ensures var r := ObjsFrom(vs, k); r.Failure? ==> r.error.TypeMismatch?
    decreases |vs| - k
  {
    if k < |vs| {
      ObjErrors(vs, k + 1);
    }
  }
}
