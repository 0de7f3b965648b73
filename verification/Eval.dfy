/** Evaluation of tree expressions without a stack: the reference that the stack machine
    is proved against. */
module Eval {
  import opened Wrappers
  import opened Search
  import opened Syntax
  import opened Pool
  import opened Types

  /** A built object, with its fields in the order of its class. */
  datatype Obj = Obj(id: TypeId, fields: seq<Field>)
  datatype Field = NodeF(obj: Obj) | ListF(objs: seq<Obj>) | StrF(str: string) | EnumF(value: nat)

  /** What a value carries besides its type: nothing when only types are checked. */
  datatype Data = NoData | NodeD(obj: Obj) | ListD(objs: seq<Obj>) | CptrD(str: string)
  datatype Val = Val(ty: ObjType, data: Data)

  datatype Mode = TypeMode | BuildMode

  datatype Ctx = Ctx(tt: Table, strict: bool, mode: Mode)

  datatype EvalError =
    | InvalidListIndex(index: nat, expected: nat)
    | UnknownType(name: string)
    | WrongArity(id: TypeId, expected: nat, got: nat)
    | WrongName(id: TypeId, k: nat, wanted: string, found: string)
    | CannotCast(id: TypeId, k: nat, from: ObjType, to: ObjType)
    | CannotCastElem(id: TypeId, k: nat, from: ObjType)
    | InvalidValue(cptr: CptrType, value: string)
    | PoolExhausted(why: BadAlloc)
    // errors of the machine itself
    | InvalidPointer(addr: nat)
    | TypeMismatch
    | StackEmpty
    | IndexOutOfRange(k: nat)
    | SizeOutOfRange(n: nat)
    | NameNotNull
    | InvalidStackSize(n: nat)
    | TopIsNotNode

  /** An error that only building can meet. */
  predicate IsBuildError(e: EvalError) {
    e.InvalidValue? || e.PoolExhausted?
  }

  /** An error that the source guards against and that no evaluation meets. */
  predicate IsMachineError(e: EvalError) {
    e.InvalidPointer? || e.TypeMismatch? || e.StackEmpty? || e.IndexOutOfRange? || e.SizeOutOfRange?
    || e.NameNotNull? || e.InvalidStackSize? || e.TopIsNotNode?
  }

  const PTR_SIZE: nat := 8

  /** The types of values are types of the table. */
  predicate AllOk(tt: Table, vs: seq<Val>) {
    forall i :: 0 <= i < |vs| ==> tt.ArgOk(vs[i].ty)
  }

  // Type checks.

  function CheckArg(c: Ctx, t: TypeId, k: nat, def: ArgDef, v: Val): Outcome<EvalError>
    requires c.tt.Chained() && c.tt.ArgOk(v.ty)
  {
    if c.tt.ObjCasts(c.strict, def.ty, v.ty) then Pass else Fail(CannotCast(t, k, v.ty, def.ty))
  }

  function CheckArgsFrom(c: Ctx, t: TypeId, list: seq<NodeArg>, vs: seq<Val>, k: nat): Outcome<EvalError>
    requires c.tt.Chained() && t < |c.tt.types| && k <= |vs| == |list| == |c.tt.types[t].args|
    requires AllOk(c.tt, vs)
    decreases |list| - k
  {
    if k == |list| then Pass
    else
      var def := c.tt.types[t].args[k];
      if def.name != list[k].name then Fail(WrongName(t, k + 1, def.name, list[k].name))
      else
        var r := CheckArg(c, t, k + 1, def, vs[k]);
        if r.Fail? then r else CheckArgsFrom(c, t, list, vs, k + 1)
  }

  /** The number of values that a node's arguments leave. */
  function Arity(a: NodeArgs): nat {
    if a.LiteralArgs? then 1 else |a.list|
  }

  /** `check_node_args`: the number of arguments, then each name and value in order. */
  function CheckNode(c: Ctx, t: TypeId, a: NodeArgs, vs: seq<Val>): Outcome<EvalError>
    requires c.tt.Chained() && t < |c.tt.types| && |vs| == Arity(a)
    requires AllOk(c.tt, vs)
  {
    var defs := c.tt.types[t].args;
    if |defs| != Arity(a) then Fail(WrongArity(t, |defs|, Arity(a)))
    else if a.LiteralArgs? then CheckArg(c, t, 1, defs[0], vs[0])
    else CheckArgsFrom(c, t, a.list, vs, 0)
  }

  /** `check_list_args`. */
  function CheckElemsFrom(c: Ctx, t: TypeId, vs: seq<Val>, k: nat): Outcome<EvalError>
    requires c.tt.Chained() && k <= |vs| && AllOk(c.tt, vs)
    decreases |vs| - k
  {
    if k == |vs| then Pass
    else if !(vs[k].ty.NodeT? && c.tt.Casts(c.strict, t, vs[k].ty.id)) then Fail(CannotCastElem(t, k, vs[k].ty))
    else CheckElemsFrom(c, t, vs, k + 1)
  }

  // Building.

  /** `node_arg`, `list_arg` and `cptr_arg`. */
  function FieldOf(ty: ObjType, v: Val): Result<Field, EvalError> {
    match ty
    case NodeT(_) => if v.data.NodeD? then Success(NodeF(v.data.obj)) else Failure(TypeMismatch)
    case ListT(_) => if v.data.ListD? then Success(ListF(v.data.objs)) else Failure(TypeMismatch)
    case CptrT(cptr) => if v.data.CptrD? then CptrCast(cptr, v.data.str) else Failure(TypeMismatch)
  }

  /** `cptr_def_t<T>::cast`. */
  function CptrCast(cptr: CptrType, s: string): Result<Field, EvalError> {
    match cptr
    case CharPtr => Success(StrF(s))
    case Enum(_, values) =>
      match LinearFind(values, s)
      case None => Failure(InvalidValue(cptr, s))
      case Some(k) => Success(EnumF(k))
  }

  function FieldsFrom(defs: seq<ArgDef>, vs: seq<Val>, k: nat): (r: Result<seq<Field>, EvalError>)
    requires k <= |vs| == |defs|
    ensures r.Success? ==> |r.value| == |vs| - k
    decreases |vs| - k
  {
    if k == |vs| then Success([])
    else
      var f :- FieldOf(defs[k].ty, vs[k]);
      var fs :- FieldsFrom(defs, vs, k + 1);
      Success([f] + fs)
  }

  function RawAlloc(p: Pools, nbytes: nat, align: nat): Result<Pools, EvalError>
    requires align > 0
  {
    match p.raw.Allocate(nbytes, align)
    case Success(raw) => Success(p.(raw := raw))
    case Failure(e) => Failure(PoolExhausted(e))
  }

  /** Strings are copied, with their terminator, before their node is allocated. */
  function AllocStrings(fields: seq<Field>, k: nat, p: Pools): Result<Pools, EvalError>
    requires k <= |fields|
    decreases |fields| - k
  {
    if k == |fields| then Success(p)
    else if fields[k].StrF? then
      var p1 :- RawAlloc(p, |fields[k].str| + 1, 1);
      AllocStrings(fields, k + 1, p1)
    else AllocStrings(fields, k + 1, p)
  }

  function AllocNode(ty: AstType, fields: seq<Field>, p: Pools): Result<Pools, EvalError>
    requires ty.align > 0
  {
    var p1 :- AllocStrings(fields, 0, p);
    match p1.node.Allocate(ty.size, ty.align)
    case Success(node) => Success(p1.(node := node))
    case Failure(e) => Failure(PoolExhausted(e))
  }

  /** `new_list`: an array of pointers, unless the list is empty. */
  function AllocList(n: nat, p: Pools): Result<Pools, EvalError> {
    if n == 0 then Success(p) else RawAlloc(p, n * PTR_SIZE, PTR_SIZE)
  }

  function ObjsFrom(vs: seq<Val>, k: nat): (r: Result<seq<Obj>, EvalError>)
    requires k <= |vs|
    ensures r.Success? ==> |r.value| == |vs| - k
    decreases |vs| - k
  {
    if k == |vs| then Success([])
    else if !vs[k].data.NodeD? then Failure(TypeMismatch)
    else
      var os :- ObjsFrom(vs, k + 1);
      Success([vs[k].data.obj] + os)
  }

  // The makers, on argument values in source order.

  predicate CtxOk(c: Ctx) {
    && c.tt.Chained()
    && (forall t :: 0 <= t < |c.tt.types| ==> c.tt.types[t].align > 0)
    && forall i :: 0 <= i < |c.tt.funcs| ==> c.tt.funcs[i].id < |c.tt.types|
  }

  function MakeCptr(c: Ctx, s: string): Val {
    Val(CptrT(CharPtr), if c.mode == BuildMode then CptrD(s) else NoData)
  }

  function MakeNode(c: Ctx, name: string, a: NodeArgs, vs: seq<Val>, p: Pools): (r: Result<(Val, Pools), EvalError>)
    requires CtxOk(c) && |vs| == Arity(a) && AllOk(c.tt, vs)
    ensures r.Success? ==> c.tt.ArgOk(r.value.0.ty)
  {
    match c.tt.Lookup(name)
    case None => Failure(UnknownType(name))
    case Some(t) =>
      match CheckNode(c, t, a, vs)
      case Fail(e) => Failure(e)
      case Pass =>
        if c.mode == TypeMode then Success((Val(NodeT(t), NoData), p))
        else
          var fields :- FieldsFrom(c.tt.types[t].args, vs, 0);
          var p1 :- AllocNode(c.tt.types[t], fields, p);
          Success((Val(NodeT(t), NodeD(Obj(t, fields))), p1))
  }

  function MakeList(c: Ctx, base: string, vs: seq<Val>, p: Pools): (r: Result<(Val, Pools), EvalError>)
    requires CtxOk(c) && AllOk(c.tt, vs)
    ensures r.Success? ==> c.tt.ArgOk(r.value.0.ty)
  {
    match c.tt.Lookup(base)
    case None => Failure(UnknownType(base))
    case Some(t) =>
      match CheckElemsFrom(c, t, vs, 0)
      case Fail(e) => Failure(e)
      case Pass =>
        if c.mode == TypeMode then Success((Val(ListT(t), NoData), p))
        else
          var p1 :- AllocList(|vs|, p);
          var objs :- ObjsFrom(vs, 0);
          Success((Val(ListT(t), ListD(objs)), p1))
  }

  // The evaluator.

  function EvNode(c: Ctx, n: TreeNode, p: Pools): (r: Result<(Val, Pools), EvalError>)
    requires CtxOk(c)
    ensures r.Success? ==> c.tt.ArgOk(r.value.0.ty)
    decreases n, 0
  {
    match n.args
    case LiteralArgs(s) => MakeNode(c, n.name, n.args, [MakeCptr(c, s)], p)
    case ListArgs(list) =>
      var (vs, p1) :- EvArgsFrom(c, list, 0, [], p);
      MakeNode(c, n.name, n.args, vs, p1)
  }

  function EvArgsFrom(c: Ctx, list: seq<NodeArg>, k: nat, acc: seq<Val>, p: Pools)
    : (r: Result<(seq<Val>, Pools), EvalError>)
    requires CtxOk(c) && k <= |list| && |acc| == k && AllOk(c.tt, acc)
    ensures r.Success? ==> |r.value.0| == |list| && AllOk(c.tt, r.value.0)
    decreases list, |list| - k
  {
    if k == |list| then Success((acc, p))
    else
      var (v, p1) :- EvArg(c, list[k], p);
      EvArgsFrom(c, list, k + 1, acc + [v], p1)
  }

  function EvArg(c: Ctx, a: NodeArg, p: Pools): (r: Result<(Val, Pools), EvalError>)
    requires CtxOk(c)
    ensures r.Success? ==> c.tt.ArgOk(r.value.0.ty)
    decreases a, 0
  {
    match a.value
    case NodeValue(n) => EvNode(c, n, p)
    case ListValue(base, elems) =>
      var (vs, p1) :- EvElemsFrom(c, elems, 0, [], p);
      MakeList(c, base, vs, p1)
    case LiteralValue(s) => Success((MakeCptr(c, s), p))
  }

  function EvElemsFrom(c: Ctx, elems: seq<ListElem>, k: nat, acc: seq<Val>, p: Pools)
    : (r: Result<(seq<Val>, Pools), EvalError>)
    requires CtxOk(c) && k <= |elems| && |acc| == k && AllOk(c.tt, acc)
    ensures r.Success? ==> |r.value.0| == |elems| && AllOk(c.tt, r.value.0)
    decreases elems, |elems| - k
  {
    if k == |elems| then Success((acc, p))
    else
      var (v, p1) :- EvElem(c, elems[k], k, p);
      EvElemsFrom(c, elems, k + 1, acc + [v], p1)
  }

  function EvElem(c: Ctx, e: ListElem, k: nat, p: Pools): (r: Result<(Val, Pools), EvalError>)
    requires CtxOk(c)
    ensures r.Success? ==> c.tt.ArgOk(r.value.0.ty)
    decreases e, 0
  {
    if e.index != k then Failure(InvalidListIndex(e.index, k)) else EvNode(c, e.node, p)
  }
}
