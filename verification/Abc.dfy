/** The abc library: its type tables, its object printer, and the round trip end to end. */
module Abc {
  import opened Wrappers
  import opened Search
  import opened Bases
  import opened Syntax
  import opened Numbers
  import opened Grammar
  import opened Pool
  import opened Types
  import opened Eval
  import opened EvalProofs
  import opened Elaboration
  import opened Objects
  import opened Addresses

  // Types, by their place in the table.

  const NODE: TypeId := 0
  const A: TypeId := 1
  const B: TypeId := 2
  const C: TypeId := 3
  const D: TypeId := 4
  const N: TypeId := 5
  const M: TypeId := 6
  const P: TypeId := 7
  const Q: TypeId := 8
  const R: TypeId := 9
  const L: TypeId := 10
  const S: TypeId := 11

  const NAMES := ["Node", "A", "B", "C", "D", "N", "M", "P", "Q", "R", "L", "S"]

  const BOOL := Enum("bool", ["0", "1"])

  /** `cptr_def_t<bool>::cast` reads two spellings: "0" is false (value 0), "1" is true. */
  lemma BoolReads(s: string, v: nat)
    ensures CptrCast(BOOL, s) == Success(EnumF(v)) <==> (s == "0" && v == 0) || (s == "1" && v == 1)
    ensures CptrCast(BOOL, s).Success? <==> s == "0" || s == "1"
  {
    assert LinearFind(["1"], s) == if s == "1" then Some(0) else None;
    assert BOOL.values[1..] == ["1"];
  }

  /** The sizes of the classes, and their alignment: the compiler's choice. */
  datatype Layout = Layout(sizes: seq<nat>, align: nat) {
    predicate Ok() {
      |sizes| == |NAMES| && align > 0
    }
  }

  function Base(t: TypeId): Option<TypeId> {
    if t == NODE then None
    else if t == Q then Some(A)
    else if t == R || t == S then Some(Q)
    else Some(NODE)
  }

  function Args(t: TypeId): seq<ArgDef> {
    if t == B then [ArgDef("a", NodeT(A))]
    else if t == C then [ArgDef("b", ListT(B))]
    else if t == D then [ArgDef("c", CptrT(CharPtr))]
    else if t == N then [ArgDef("x", NodeT(B)), ArgDef("y", NodeT(C)), ArgDef("z", NodeT(D))]
    else if t == M then [ArgDef("a", NodeT(A)), ArgDef("b", ListT(B)), ArgDef("c", CptrT(CharPtr))]
    else if t == P then [ArgDef("x", NodeT(A)), ArgDef("y", NodeT(A))]
    else if t == L then [ArgDef("q", ListT(Q))]
    else if t == S then [ArgDef("b", CptrT(BOOL))]
    else []
  }

  const FUNCS := [
    Func("A", A), Func("B", B), Func("C", C), Func("D", D), Func("L", L), Func("M", M),
    Func("N", N), Func("Node", NODE), Func("P", P), Func("Q", Q), Func("R", R), Func("S", S)]

  function Library(layout: Layout): (tt: Table)
    requires layout.Ok()
    ensures CtxOk(Build(tt, true)) && CtxOk(Build(tt, false))
  {
    Table(seq(|NAMES|, t requires 0 <= t < |NAMES| =>
      AstType(NAMES[t], Base(t), Args(t), layout.sizes[t], layout.align)), FUNCS)
  }

  // The tables are in order.

  lemma FuncsAreSorted(layout: Layout)
    requires layout.Ok()
    ensures Sorted(Library(layout).Names(), StrLess)
  {
    var names := Library(layout).Names();
    assert names == ["A", "B", "C", "D", "L", "M", "N", "Node", "P", "Q", "R", "S"];
    assert StrLess("N", "Node") by {
      assert "N"[1..] == "" && "Node"[1..] == "ode";
    }
    StrLessIsStrictTotal();
    StepsAreSorted(names, StrLess);
  }

  lemma TypesAreOk(layout: Layout, t: TypeId)
    requires layout.Ok() && t < |NAMES|
    ensures Library(layout).TypeOk(t)
  {
  }

  lemma LibraryIsValid(layout: Layout)
    requires layout.Ok()
    ensures Library(layout).Valid()
  {
    hide Sorted, Args;
    var tt := Library(layout);
    FuncsAreSorted(layout);
    forall t | 0 <= t < |tt.types| ensures tt.TypeOk(t) {
      TypesAreOk(layout, t);
    }
  }

  /** Each name finds the type of that name. */
  lemma NamesFindTypes(layout: Layout, t: TypeId)
    requires layout.Ok() && t < |NAMES|
    ensures Library(layout).Lookup(NAMES[t]) == Some(t)
  {
    hide Args, Base, Table.Lookup, Table.Valid;
    var tt := Library(layout);
    LibraryIsValid(layout);
    var k := [7, 0, 1, 2, 3, 6, 5, 8, 9, 10, 4, 11][t];
    assert tt.funcs[k] == Func(NAMES[t], t);
    CacheIsRight(tt, k);
  }

  /** No two classes share a name, so the graph of an AST determines the object built in it. */
  lemma ClassesDiffer(layout: Layout)
    requires layout.Ok()
    ensures NamesDiffer(Library(layout))
  {
    hide Table.Lookup;
    var tt := Library(layout);
    forall t | 0 <= t < |tt.types| ensures tt.Lookup(tt.types[t].name) == Some(t) {
      NamesFindTypes(layout, t);
    }
  }

  lemma {:induction false} Extending(layout: Layout, t: TypeId, d: TypeId)
    requires layout.Ok() && t < |NAMES|
    ensures Library(layout).Extends(t, d)
       <==> t == d || d == NODE || (d == A && t in {Q, R, S}) || (d == Q && t in {R, S})
    decreases t
  {
    if t != d && t != NODE {
      Extending(layout, Base(t).value, d);
    }
  }

  /** Which class is which with relaxed casts, in full. */
  lemma Kinds(layout: Layout, t: TypeId, d: TypeId)
    requires layout.Ok() && t < |NAMES|
    ensures Library(layout).IsA(true, d, t) <==> t == d
    ensures Library(layout).IsA(false, d, t)
       <==> t == d || d == NODE || (d == A && t in {Q, R, S}) || (d == Q && t in {R, S})
  {
    hide Table.Extends, OnChain;
    Extending(layout, t, d);
    Library(layout).ExtendsIsReachability(t, d);
  }

  lemma TypeWords(t: TypeId)
    requires t < |NAMES|
    ensures IsIdentWord(NAMES[t])
  {
    assert NAMES[t][0] in NAMES[t];
  }

  lemma DefWords(t: TypeId, k: nat)
    requires k < |Args(t)|
    ensures DefReads(Args(t)[k])
  {
  }

  lemma LibraryIsCoherent(layout: Layout)
    requires layout.Ok()
    ensures Coherent(Library(layout))
  {
    hide Args, Base, Table.Lookup, Table.Valid, IsIdentWord, DefReads;
    var tt := Library(layout);
    LibraryIsValid(layout);
    forall t | 0 <= t < |tt.types| ensures TypeReads(tt, t) {
      NamesFindTypes(layout, t);
      TypeWords(t);
      forall k | 0 <= k < |tt.types[t].args| ensures DefReads(tt.types[t].args[k]) {
        DefWords(t, k);
      }
    }
  }

  // When an object of the library reads back.

  /** It holds no `M`, and every string in it can stand between single quotes. */
  predicate Quotable(o: Obj)
    decreases o, 0
  {
    o.id != M && forall k :: 0 <= k < |o.fields| ==> FieldQuotable(o.fields[k])
  }

  predicate FieldQuotable(f: Field)
    decreases f, 0
  {
    match f
    case NodeF(o) => Quotable(o)
    case ListF(objs) => forall k :: 0 <= k < |objs| ==> Quotable(objs[k])
    case StrF(s) => IsBody(s, '\'')
    case EnumF(_) => true
  }

  lemma {:induction false} SayableIsQuotable(layout: Layout, o: Obj)
    requires layout.Ok() && WellTyped(Library(layout), false, o)
    ensures Sayable(o) <==> Quotable(o)
    decreases o
  {
    hide FieldSayable, FieldQuotable, Args, FieldTyped;
    var tt := Library(layout);
    forall k | 0 <= k < |o.fields| ensures FieldSayable(o.fields[k]) <==> FieldQuotable(o.fields[k]) {
      FieldSayableIsQuotable(layout, Args(o.id)[k].ty, o.fields[k]);
    }
    StringsBesideOthers(layout, o);
  }

  /** `M` is the only class with a string beside other fields. */
  lemma StringsBesideOthers(layout: Layout, o: Obj)
    requires layout.Ok() && WellTyped(Library(layout), false, o)
    ensures o.id == M <==> |o.fields| != 1 && exists k :: 0 <= k < |o.fields| && o.fields[k].StrF?
  {
    hide WellTyped;
    var tt, defs := Library(layout), Args(o.id);
    TypedFields(layout, o);
    if o.id == M {
      assert o.fields[2].StrF?;
    }
  }

  lemma TypedFields(layout: Layout, o: Obj)
    requires layout.Ok() && WellTyped(Library(layout), false, o)
    ensures o.id < |NAMES| && FieldsTyped(Library(layout), Args(o.id), o.fields)
    ensures forall k :: 0 <= k < |o.fields| ==> (o.fields[k].StrF? <==> Args(o.id)[k].ty == CptrT(CharPtr))
  {
    hide Args;
    forall k | 0 <= k < |o.fields| ensures o.fields[k].StrF? <==> Args(o.id)[k].ty == CptrT(CharPtr) {
      assert FieldTyped(Library(layout), false, Args(o.id)[k].ty, o.fields[k]);
    }
  }

  lemma {:induction false} FieldSayableIsQuotable(layout: Layout, ty: ObjType, f: Field)
    requires layout.Ok() && FieldTyped(Library(layout), false, ty, f)
    ensures FieldSayable(f) <==> FieldQuotable(f)
    decreases f
  {
    hide WellTyped, Sayable, Quotable, Args;
    match f
    case NodeF(o) => SayableIsQuotable(layout, o);
    case ListF(objs) =>
      forall k | 0 <= k < |objs| ensures Sayable(objs[k]) <==> Quotable(objs[k]) {
        SayableIsQuotable(layout, objs[k]);
      }
    case StrF(_) =>
    case EnumF(_) =>
  }

  /** End to end: any abc object that evaluation builds, with either casts, is built again by
      the parser and the evaluator with relaxed casts from what the printer prints, in a
      fresh AST of the same size, exactly when it holds no `M` and no string that a single
      quoted literal cannot hold. */
  lemma AbcRoundTrip(layout: Layout, strict: bool, n: TreeNode, p: Pools, o: Obj, q: Pools)
    requires layout.Ok()
    requires EvNode(Build(Library(layout), strict), n, p) == Success((NodeVal(o), q))
    ensures WellTyped(Library(layout), false, o)
    ensures Quotable(o)
       <==> exists m :: Parse(ShowTree(Library(layout), o)) == Success(m)
                     && EvNode(Build(Library(layout), false), m, p) == Success((NodeVal(o), q))
  {
    hide ShowTree, Library, Sayable, Quotable, WellTyped, Grammar.Parse, EvNode, Table.Valid;
    LibraryIsCoherent(layout);
    BuiltObjectsRoundTrip(Library(layout), strict, n, p, o, q);
    SayableIsQuotable(layout, o);
  }

  // The printer, class by class.

  /** The texts of up to three fields, and the text of an object around them. */
  lemma FieldTexts(tt: Table, defs: seq<ArgDef>, fields: seq<Field>)
    requires tt.Chained() && FieldsTyped(tt, defs, fields) && |fields| <= 3
    ensures |fields| == 0 ==> ShowFieldsFrom(tt, defs, fields, 0) == ""
    ensures |fields| == 1 ==> ShowFieldsFrom(tt, defs, fields, 0) == ShowField(tt, defs[0], fields[0])
    ensures |fields| == 2 ==>
              ShowFieldsFrom(tt, defs, fields, 0)
              == ShowField(tt, defs[0], fields[0]) + ShowField(tt, defs[1], fields[1])
    ensures |fields| == 3 ==>
              ShowFieldsFrom(tt, defs, fields, 0) == ShowField(tt, defs[0], fields[0])
                + (ShowField(tt, defs[1], fields[1]) + ShowField(tt, defs[2], fields[2]))
  {
    hide ShowField, FieldTyped;
    var n := |fields|;
    assert ShowFieldsFrom(tt, defs, fields, n) == "";
    if n > 0 {
      assert ShowFieldsFrom(tt, defs, fields, n - 1) == ShowField(tt, defs[n - 1], fields[n - 1]) + "";
    }
    if n > 1 {
      assert ShowFieldsFrom(tt, defs, fields, n - 2)
          == ShowField(tt, defs[n - 2], fields[n - 2]) + ShowField(tt, defs[n - 1], fields[n - 1]);
    }
  }

  /** What stands on the stream once a visitor has written a name, the fields and the
      parentheses. */
  lemma Written(layout: Layout, o: Obj, ost: string)
    requires layout.Ok() && WellTyped(Library(layout), false, o)
    ensures o.id < |NAMES| && FieldsTyped(Library(layout), Args(o.id), o.fields)
    ensures var tt, defs, fs, open := Library(layout), Args(o.id), o.fields, ost + NAMES[o.id] + "(";
            var shown := ost + Show(tt, o);
            && (|fs| == 0 ==> shown == open + ")")
            && (|fs| == 1 ==> shown == open + ShowField(tt, defs[0], fs[0]) + ")")
            && (|fs| == 2 ==> shown == open + ShowField(tt, defs[0], fs[0]) + ShowField(tt, defs[1], fs[1]) + ")")
            && (|fs| == 3 ==>
                  shown == open + ShowField(tt, defs[0], fs[0]) + ShowField(tt, defs[1], fs[1])
                    + ShowField(tt, defs[2], fs[2]) + ")")
  {
    hide Show, ShowField, ShowFieldsFrom, Library, WellTyped, FieldTyped, Args;
    var tt, defs, fields := Library(layout), Args(o.id), o.fields;
    TypedFields(layout, o);
    ShowIs(layout, o);
    if |fields| <= 3 {
      FieldTexts(tt, defs, fields);
      Joined(ost, NAMES[o.id], if |fields| > 0 then ShowField(tt, defs[0], fields[0]) else "",
        if |fields| > 1 then ShowField(tt, defs[1], fields[1]) else "",
        if |fields| > 2 then ShowField(tt, defs[2], fields[2]) else "");
    }
  }

  /** The printing visitor of abc objects: an output stream and the level of `Level`. */
  class ObjectPrinter {
    const layout: Layout
    var ost: string
    var indentLevel: int

    ghost predicate Typed(o: Obj)
    {
      layout.Ok() && WellTyped(Library(layout), false, o)
    }

    constructor (layout: Layout)
      ensures this.layout == layout && ost == "" && indentLevel == -1
    {
      this.layout := layout;
      ost := "";
      indentLevel := -1;
    }

    method PrintAttr(attr: string)
      modifies `ost
      ensures ost == old(ost) + ("." + attr + "=")
    {
      ost := ost + "." + attr + "=";
    }

    /** `node(arg)`: one level deeper, by the class of the object. */
    method PrintNode(o: Obj)
      requires Typed(o)
      modifies `ost, `indentLevel
      ensures indentLevel == old(indentLevel) && ost == old(ost) + Show(Library(layout), o)
      decreases o, 2
    {
      hide Show, Library, WellTyped;
      indentLevel := indentLevel + 1;
      TypedFields(layout, o);
      match o.id {
        case B => VisitB(o);
        case C => VisitC(o);
        case D => VisitD(o);
        case N => VisitN(o);
        case M => VisitM(o);
        case P => VisitP(o);
        case L => VisitL(o);
        case S => VisitS(o);
        case _ => VisitEmpty(o);
      }
      indentLevel := indentLevel - 1;
    }

    /** `attr(name) << node(arg)`. */
    method AttrNode(name: string, t: TypeId, f: Field)
      requires FieldIs(NodeT(t), f)
      modifies `ost, `indentLevel
      ensures indentLevel == old(indentLevel) && ost == old(ost) + ShowField(Library(layout), ArgDef(name, NodeT(t)), f)
      decreases f, 3
    {
      hide Show, Library, WellTyped;
      PrintAttr(name);
      PrintNode(f.obj);
    }

    /** `attr(name) << list(arg)`; the list is named by its static type. */
    method AttrList(name: string, t: TypeId, f: Field)
      requires FieldIs(ListT(t), f) && t < |NAMES|
      modifies `ost, `indentLevel
      ensures indentLevel == old(indentLevel) && ost == old(ost) + ShowField(Library(layout), ArgDef(name, ListT(t)), f)
      decreases f, 3
    {
      hide Show, ShowElemsFrom, WellTyped;
      ghost var o, body := ost, ShowElemsFrom(Library(layout), f.objs, 0);
      PrintAttr(name);
      ghost var o1 := ost;
      PrintList(t, f.objs);
      Assoc(o, "." + name + "=", "list<" + NAMES[t] + ">[" + body + "]");
    }

    method PrintList(t: TypeId, objs: seq<Obj>)
      requires layout.Ok() && ObjsTyped(Library(layout), objs) && t < |NAMES|
      modifies `ost, `indentLevel
      ensures indentLevel == old(indentLevel)
      ensures ost == old(ost) + ("list<" + NAMES[t] + ">[" + ShowElemsFrom(Library(layout), objs, 0) + "]")
      decreases objs, 3
    {
      hide Show, WellTyped, Library, Dec;
      ghost var tt := Library(layout);
      indentLevel := indentLevel + 1;
      ost := ost + ("list<" + NAMES[t] + ">[");
      ghost var o, all := ost, ShowElemsFrom(tt, objs, 0);
      for k := 0 to |objs|
        invariant indentLevel == old(indentLevel) + 1
        invariant ost + ShowElemsFrom(tt, objs, k) == o + all
      {
        ghost var o1 := ost;
        ost := ost + ("[" + Dec(k) + "]=");
        PrintNode(objs[k]);
        Chain(o1, "[" + Dec(k) + "]=", Show(tt, objs[k]), ShowElemsFrom(tt, objs, k + 1));
      }
      assert ost + "" == ost;
      ost := ost + "]";
      Chain(old(ost), "list<" + NAMES[t] + ">[", all, "]");
      indentLevel := indentLevel - 1;
    }

    ghost predicate FieldIs(ty: ObjType, f: Field) {
      layout.Ok() && FieldTyped(Library(layout), false, ty, f)
    }

    /** `repr(arg)`: the text alone, between quotes. */
    method Repr(ghost name: string, f: Field)
      requires FieldIs(CptrT(CharPtr), f)
      modifies `ost
      ensures ost == old(ost) + ShowField(Library(layout), ArgDef(name, CptrT(CharPtr)), f)
    {
      ost := ost + "'" + f.str + "'";
    }

    /** `attr(name) << type(arg)`, for a `bool`. */
    method AttrBool(name: string, f: Field)
      requires FieldIs(CptrT(BOOL), f)
      modifies `ost
      ensures ost == old(ost) + ShowField(Library(layout), ArgDef(name, CptrT(BOOL)), f)
    {
      PrintAttr(name);
      ghost var o := ost;
      ost := ost + "'" + (if f.value == 1 then "1" else "0") + "'";
    }

    /** `Node`, `A`, `Q` and `R`. */
    method VisitEmpty(o: Obj)
      requires Typed(o) && Args(o.id) == []
      modifies `ost
      ensures ost == old(ost) + Show(Library(layout), o)
      decreases o, 1
    {
      hide Show, Library, WellTyped;
      Written(layout, o, ost);
      assert ost + NAMES[o.id] + "()" == ost + NAMES[o.id] + "(" + ")";
      ost := ost + NAMES[o.id] + "()";
    }

    method VisitB(o: Obj)
      requires Typed(o) && o.id == B
      modifies `ost, `indentLevel
      ensures indentLevel == old(indentLevel) && ost == old(ost) + Show(Library(layout), o)
      decreases o, 1
    {
      hide Show, ShowField, Library, WellTyped, FieldTyped;
      Written(layout, o, ost);
      ost := ost + NAMES[o.id] + "(";
      AttrNode("a", A, o.fields[0]);
      ost := ost + ")";
    }

    method VisitC(o: Obj)
      requires Typed(o) && o.id == C
      modifies `ost, `indentLevel
      ensures indentLevel == old(indentLevel) && ost == old(ost) + Show(Library(layout), o)
      decreases o, 1
    {
      hide Show, ShowField, Library, WellTyped, FieldTyped;
      Written(layout, o, ost);
      ost := ost + NAMES[o.id] + "(";
      AttrList("b", B, o.fields[0]);
      ost := ost + ")";
    }

    method VisitD(o: Obj)
      requires Typed(o) && o.id == D
      modifies `ost, `indentLevel
      ensures indentLevel == old(indentLevel) && ost == old(ost) + Show(Library(layout), o)
      decreases o, 1
    {
      hide Show, ShowField, Library, WellTyped, FieldTyped;
      Written(layout, o, ost);
      ost := ost + NAMES[o.id] + "(";
      Repr("c", o.fields[0]);
      ost := ost + ")";
    }

    method VisitN(o: Obj)
      requires Typed(o) && o.id == N
      modifies `ost, `indentLevel
      ensures indentLevel == old(indentLevel) && ost == old(ost) + Show(Library(layout), o)
      decreases o, 1
    {
      hide Show, ShowField, Library, WellTyped, FieldTyped;
      Written(layout, o, ost);
      ost := ost + NAMES[o.id] + "(";
      AttrNode("x", B, o.fields[0]);
      AttrNode("y", C, o.fields[1]);
      AttrNode("z", D, o.fields[2]);
      ost := ost + ")";
    }

    method VisitM(o: Obj)
      requires Typed(o) && o.id == M
      modifies `ost, `indentLevel
      ensures indentLevel == old(indentLevel) && ost == old(ost) + Show(Library(layout), o)
      decreases o, 1
    {
      hide Show, ShowField, Library, WellTyped, FieldTyped;
      Written(layout, o, ost);
      ost := ost + NAMES[o.id] + "(";
      AttrNode("a", A, o.fields[0]);
      AttrList("b", B, o.fields[1]);
      Repr("c", o.fields[2]);
      ost := ost + ")";
    }

    method VisitP(o: Obj)
      requires Typed(o) && o.id == P
      modifies `ost, `indentLevel
      ensures indentLevel == old(indentLevel) && ost == old(ost) + Show(Library(layout), o)
      decreases o, 1
    {
      hide Show, ShowField, Library, WellTyped, FieldTyped;
      Written(layout, o, ost);
      ost := ost + NAMES[o.id] + "(";
      AttrNode("x", A, o.fields[0]);
      AttrNode("y", A, o.fields[1]);
      ost := ost + ")";
    }

    method VisitL(o: Obj)
      requires Typed(o) && o.id == L
      modifies `ost, `indentLevel
      ensures indentLevel == old(indentLevel) && ost == old(ost) + Show(Library(layout), o)
      decreases o, 1
    {
      hide Show, ShowField, Library, WellTyped, FieldTyped;
      Written(layout, o, ost);
      ost := ost + NAMES[o.id] + "(";
      AttrList("q", Q, o.fields[0]);
      ost := ost + ")";
    }

    method VisitS(o: Obj)
      requires Typed(o) && o.id == S
      modifies `ost, `indentLevel
      ensures indentLevel == old(indentLevel) && ost == old(ost) + Show(Library(layout), o)
      decreases o, 1
    {
      hide Show, ShowField, Library, WellTyped, FieldTyped;
      Written(layout, o, ost);
      ost := ost + NAMES[o.id] + "(";
      AttrBool("b", o.fields[0]);
      ost := ost + ")";
    }

    /** A fresh printer on a whole object. */
    method PrintRoot(o: Obj)
      requires Typed(o) && ost == "" && indentLevel == -1
      modifies `ost, `indentLevel
      ensures indentLevel == -1 && ost == ShowTree(Library(layout), o)
    {
      hide Show, Library, WellTyped;
      PrintNode(o);
      ost := ost + "\n";
    }
  }

  lemma Joined(text: string, name: string, f0: string, f1: string, f2: string)
    ensures text + name + "(" + f0 + f1 + f2 + ")" == text + (name + "(" + (f0 + (f1 + f2)) + ")")
    ensures text + name + "(" + f0 + f1 + ")" == text + (name + "(" + (f0 + f1) + ")")
    ensures text + name + "(" + f0 + ")" == text + (name + "(" + f0 + ")")
    ensures text + name + "(" + ")" == text + (name + "(" + "" + ")")
  {
    Chain(text, name + "(" + (f0 + (f1 + f2)), ")", "");
    assert text + name + "(" + f0 + f1 + f2 == text + (name + "(" + (f0 + (f1 + f2)));
    assert text + name + "(" + f0 + f1 == text + (name + "(" + (f0 + f1));
  }

  lemma ShowIs(layout: Layout, o: Obj)
    requires layout.Ok() && WellTyped(Library(layout), false, o)
    ensures o.id < |NAMES| && FieldsTyped(Library(layout), Args(o.id), o.fields)
    ensures Show(Library(layout), o)
         == NAMES[o.id] + "(" + ShowFieldsFrom(Library(layout), Args(o.id), o.fields, 0) + ")"
  {
    hide Args, FieldTyped, ShowFieldsFrom;
  }
}
