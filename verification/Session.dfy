/** The session recorded in test/test-abc.sh: what each text evaluates to in a fresh AST, with
    either casts. */
module Session {
  import opened Wrappers
  import opened Syntax
  import opened Numbers
  import G = Grammar
  import opened Printer
  import opened RoundTrip
  import opened Pool
  import opened Types
  import opened Eval
  import opened Elaboration
  import opened Objects
  import opened Abc
  import opened Pipeline
  import opened Inputs

  /** The value of a text, when types are checked and when objects are built. */
  function Evaluated(raw: string, strict: bool, mode: Mode, p: Pools): Result<Val, RunError> {
    match G.Parse(raw)
    case Failure(e) => Failure(NotParsed(e))
    case Success(n) =>
      match EvNode(Ctx(Library(LP64), strict, mode), n, p)
      case Failure(e) => Failure(NotBuilt(e))
      case Success((v, _)) => Success(v)
  }

  /** The text fails with the error, whether types are checked or objects are built. */
  ghost predicate Fails(raw: string, strict: bool, e: EvalError) {
    forall mode, nodes, space :: Evaluated(raw, strict, mode, FreshPools(nodes, space)) == Failure(NotBuilt(e))
  }

  /** The text builds an object, which prints as `text`. */
  ghost predicate Prints(raw: string, strict: bool, text: string) {
    forall nodes, space :: Output(LP64, raw, strict, FreshPools(nodes, space)) == Success(text)
  }

  // Trees, and their texts.

  function Leaf(t: TypeId): TreeNode
    requires t < |NAMES|
  {
    TreeNode(NAMES[t], ListArgs([]))
  }

  function With(t: TypeId, list: seq<NodeArg>): TreeNode
    requires t < |NAMES|
  {
    TreeNode(NAMES[t], ListArgs(list))
  }

  lemma LeafText(t: TypeId, level: nat)
    requires t < |NAMES|
    ensures Print(Leaf(t), Terse, level) == NAMES[t] + "()" && Fits(Leaf(t), Words) && Fits(Leaf(t), Literals)
  {
    hide IsIdentWord;
    TypeWords(t);
    assert PrintArgs(ListArgs([]), Terse, level) == "";
  }

  lemma NoArgText(list: seq<NodeArg>)
    ensures PrintArgsFrom(list, |list|, Terse, 1) == "" && forall w: Wanted :: ArgsFitFrom(list, |list|, w)
  {
  }

  lemma ArgFirst(list: seq<NodeArg>, k: nat, rest: string)
    requires k < |list| && PrintArgsFrom(list, k + 1, Terse, 1) == rest
    ensures PrintArgsFrom(list, k, Terse, 1) == PrintArg(list[k], Terse, 1) + rest
  {
    hide PrintArg;
    assert "" + PrintArg(list[k], Terse, 1) == PrintArg(list[k], Terse, 1);
  }

  lemma WithText(t: TypeId, list: seq<NodeArg>, body: string)
    requires t < |NAMES| && PrintArgsFrom(list, 0, Terse, 1) == body
    requires ArgsFitFrom(list, 0, Words) && ArgsFitFrom(list, 0, Literals)
    ensures Print(With(t, list), Terse, 0) == NAMES[t] + "(" + body + ")"
    ensures Fits(With(t, list), Words) && Fits(With(t, list), Literals)
  {
    hide IsIdentWord, PrintArgsFrom, ArgsFitFrom;
    TypeWords(t);
    assert body + "" == body;
  }

  lemma OneArgText(t: TypeId, a: NodeArg)
    requires t < |NAMES| && ArgFits(a, Words) && ArgFits(a, Literals)
    ensures Print(With(t, [a]), Terse, 0) == NAMES[t] + "(" + PrintArg(a, Terse, 1) + ")"
    ensures Fits(With(t, [a]), Words) && Fits(With(t, [a]), Literals)
  {
    hide Fits, Print, PrintArg, ArgFits;
    var s := PrintArg(a, Terse, 1);
    NoArgText([a]);
    ArgFirst([a], 0, "");
    assert s + "" == s;
    WithText(t, [a], s);
  }

  lemma TwoArgText(t: TypeId, a: NodeArg, b: NodeArg)
    requires t < |NAMES| && ArgFits(a, Words) && ArgFits(a, Literals) && ArgFits(b, Words) && ArgFits(b, Literals)
    ensures Print(With(t, [a, b]), Terse, 0)
         == NAMES[t] + "(" + (PrintArg(a, Terse, 1) + PrintArg(b, Terse, 1)) + ")"
    ensures Fits(With(t, [a, b]), Words) && Fits(With(t, [a, b]), Literals)
  {
    hide Fits, Print, PrintArg, ArgFits, PrintArgsFrom;
    var list, s, u := [a, b], PrintArg(a, Terse, 1), PrintArg(b, Terse, 1);
    NoArgText(list);
    ArgFirst(list, 1, "");
    assert u + "" == u;
    ArgFirst(list, 0, u);
    assert ArgsFitFrom(list, 1, Words) && ArgsFitFrom(list, 1, Literals);
    WithText(t, list, s + u);
  }

  /** Tersely printed text parses as its tree. */
  lemma Reads(n: TreeNode)
    requires Fits(n, Words) && Fits(n, Literals)
    ensures G.Parse(Print(n, Terse, 0)) == Success(n)
  {
    hide Fits, G.Parse;
    PrintThenParse(n, Terse);
    var text := Print(n, Terse, 0);
    assert text[|text| - 1] == ')';
    NewlineIsFolded(text);
  }

  lemma Names()
    ensures IsNameWord("a") && IsNameWord("b") && IsNameWord("x") && IsNameWord("y") && IsNameWord("q")
    ensures IsBody("0", '\'')
  {
    assert "0"[0] == '0' && !Escaped("0", 0) && !Escaped("0", 1);
  }

  function NoElems(t: TypeId): ArgValue
    requires t < |NAMES|
  {
    ListValue(NAMES[t], [])
  }

  function OneElem(t: TypeId, u: TypeId): ArgValue
    requires t < |NAMES| && u < |NAMES|
  {
    ListValue(NAMES[t], [ListElem(0, Leaf(u))])
  }

  lemma NoElemsText(t: TypeId)
    requires t < |NAMES|
    ensures PrintValue(NoElems(t), Terse, 1) == "list<" + NAMES[t] + ">[]"
    ensures ValueFits(NoElems(t), Words) && ValueFits(NoElems(t), Literals)
  {
    hide IsIdentWord;
    TypeWords(t);
    assert PrintElemsFrom([], 0, Terse, 2) == "";
  }

  lemma OneElemText(t: TypeId, u: TypeId)
    requires t < |NAMES| && u < |NAMES|
    ensures PrintValue(OneElem(t, u), Terse, 1) == "list<" + NAMES[t] + ">[" + ("[0]=" + (NAMES[u] + "()")) + "]"
    ensures ValueFits(OneElem(t, u), Words) && ValueFits(OneElem(t, u), Literals)
  {
    hide IsIdentWord, PrintElemsFrom, ElemsFitFrom;
    TypeWords(t);
    ElemText(u);
    var body := "[0]=" + (NAMES[u] + "()");
    assert "list<" + NAMES[t] + ">" + "" + "[" == "list<" + NAMES[t] + ">[";
    assert body + "" == body;
  }

  lemma ElemText(u: TypeId)
    requires u < |NAMES|
    ensures var list := [ListElem(0, Leaf(u))];
            && PrintElemsFrom(list, 0, Terse, 2) == "[0]=" + (NAMES[u] + "()")
            && ElemsFitFrom(list, 0, Words) && ElemsFitFrom(list, 0, Literals)
  {
    hide Print, Fits;
    LeafText(u, 2);
    var e := ListElem(0, Leaf(u));
    var s := PrintElem(e, Terse, 2);
    assert "[" + Dec(0) + "]" + "=" == "[0]=";
    assert s == "[0]=" + (NAMES[u] + "()");
    assert PrintElemsFrom([e], 1, Terse, 2) == "";
    assert "" + s + "" == s;
  }

  const NO_R := "list<R>[]"
  const ONE_R := "list<R>[[0]=R()]"
  const ONE_A := "list<R>[[0]=A()]"

  lemma ListTexts()
    ensures PrintValue(NoElems(R), Terse, 1) == NO_R
    ensures PrintValue(OneElem(R, R), Terse, 1) == ONE_R && PrintValue(OneElem(R, A), Terse, 1) == ONE_A
    ensures ValueFits(NoElems(R), Words) && ValueFits(NoElems(R), Literals)
    ensures ValueFits(OneElem(R, R), Words) && ValueFits(OneElem(R, R), Literals)
    ensures ValueFits(OneElem(R, A), Words) && ValueFits(OneElem(R, A), Literals)
  {
    hide PrintValue, ValueFits;
    NoElemsText(R);
    OneElemText(R, R);
    OneElemText(R, A);
    ListStrings();
  }

  lemma ListStrings()
    ensures "list<" + NAMES[R] + ">[]" == NO_R
    ensures "list<" + NAMES[R] + ">[" + ("[0]=" + (NAMES[R] + "()")) + "]" == ONE_R
    ensures "list<" + NAMES[R] + ">[" + ("[0]=" + (NAMES[A] + "()")) + "]" == ONE_A
  {
  }

  function LText(list: string): string {
    "L(.q=" + list + ")"
  }

  lemma LTexts()
    ensures LText(NO_R) == "L(.q=list<R>[])"
    ensures LText(ONE_R) == "L(.q=list<R>[[0]=R()])" && LText(ONE_A) == "L(.q=list<R>[[0]=A()])"
  {
  }

  // What the trees evaluate to.

  lemma LeafValue(t: TypeId, c: Ctx, p: Pools)
    requires t in {A, Q, R} && c.tt == Library(LP64)
    requires c.mode == BuildMode ==> AllocNode(c.tt.types[t], [], p).Success?
    ensures EvNode(c, Leaf(t), p).Success?
    ensures var (v, q) := EvNode(c, Leaf(t), p).value;
            && v == Val(NodeT(t), if c.mode == TypeMode then NoData else NodeD(Obj(t, [])))
            && q == if c.mode == TypeMode then p else AllocNode(c.tt.types[t], [], p).value
  {
    hide Table.Lookup, AllocNode;
    NamesFindTypes(LP64, t);
    assert EvArgsFrom(c, [], 0, [], p) == Success(([], p));
  }

  lemma Fresh(nodes: nat, space: nat)
    ensures var tt, p := Library(LP64), FreshPools(nodes, space);
            forall t | t in {A, Q, R} :: AllocNode(tt.types[t], [], p).Success?
              && forall u | u in {A, Q, R} :: AllocNode(tt.types[u], [], AllocNode(tt.types[t], [], p).value).Success?
  {
    var tt, p := Library(LP64), FreshPools(nodes, space);
    assert tt.types[A].size == 16 && tt.types[Q].size == 16 && tt.types[R].size == 16;
    assert forall p1: Pools :: AllocStrings([], 0, p1) == Success(p1);
  }

  // The session.

  lemma NoArgs(strict: bool)
    ensures Fails("S()", strict, WrongArity(S, 1, 0))
  {
    hide Fits, G.Parse, Table.Lookup, Print;
    LeafText(S, 0);
    Reads(Leaf(S));
    NamesFindTypes(LP64, S);
    assert NAMES[S] + "()" == "S()";
    forall mode: Mode, nodes, space
      ensures Evaluated("S()", strict, mode, FreshPools(nodes, space)) == Failure(NotBuilt(WrongArity(S, 1, 0)))
    {
      var c, p := Ctx(Library(LP64), strict, mode), FreshPools(nodes, space);
      assert EvArgsFrom(c, [], 0, [], p) == Success(([], p));
    }
  }

  lemma WrongField(strict: bool)
    ensures Fails("S(.a='0')", strict, WrongName(S, 1, "b", "a"))
  {
    hide Fits, G.Parse, Table.Lookup, Print;
    var a := NodeArg("a", LiteralValue("0"));
    var n := With(S, [a]);
    Names();
    OneArgText(S, a);
    assert PrintArg(a, Terse, 1) == ".a='0'";
    assert Print(n, Terse, 0) == "S(.a='0')";
    Reads(n);
    NamesFindTypes(LP64, S);
    forall mode: Mode, nodes, space
      ensures Evaluated("S(.a='0')", strict, mode, FreshPools(nodes, space))
           == Failure(NotBuilt(WrongName(S, 1, "b", "a")))
    {
      hide EvNode, EvArgsFrom;
      var c, p := Ctx(Library(LP64), strict, mode), FreshPools(nodes, space);
      OneLiteral(c, a, "0", p);
      EvWith(c, S, [a], p);
      assert Library(LP64).types[S].args[0].name == "b";
    }
  }

  lemma OneLiteral(c: Ctx, a: NodeArg, s: string, p: Pools)
    requires CtxOk(c) && a.value == LiteralValue(s)
    ensures EvArgsFrom(c, [a], 0, [], p) == Success(([MakeCptr(c, s)], p))
  {
    var v := MakeCptr(c, s);
    assert [] + [v] == [v];
    assert EvArgsFrom(c, [a], 1, [v], p) == Success(([v], p));
  }

  lemma NodeForBool(strict: bool)
    ensures Fails("S(.b=A())", strict, CannotCast(S, 1, NodeT(A), CptrT(BOOL)))
  {
    hide Fits, G.Parse, Table.Lookup, Print;
    var a := NodeArg("b", NodeValue(Leaf(A)));
    var n := With(S, [a]);
    Names();
    LeafText(A, 1);
    OneArgText(S, a);
    assert PrintArg(a, Terse, 1) == ".b=A()";
    assert Print(n, Terse, 0) == "S(.b=A())";
    Reads(n);
    NamesFindTypes(LP64, S);
    forall mode: Mode, nodes, space
      ensures Evaluated("S(.b=A())", strict, mode, FreshPools(nodes, space))
           == Failure(NotBuilt(CannotCast(S, 1, NodeT(A), CptrT(BOOL))))
    {
      hide EvNode, AllocNode;
      var c, p := Ctx(Library(LP64), strict, mode), FreshPools(nodes, space);
      OneValue(c, a, A, p);
      EvWith(c, S, [a], p);
    }
  }

  lemma EvWith(c: Ctx, t: TypeId, list: seq<NodeArg>, p: Pools)
    requires t < |NAMES| && c.tt == Library(LP64)
    ensures EvNode(c, With(t, list), p)
         == match EvArgsFrom(c, list, 0, [], p)
            case Failure(e) => Failure(e)
            case Success((vs, q)) => MakeNode(c, NAMES[t], ListArgs(list), vs, q)
  {
  }

  lemma OneValue(c: Ctx, a: NodeArg, t: TypeId, p: Pools)
    requires t in {A, Q, R} && a.value == NodeValue(Leaf(t)) && c.tt == Library(LP64)
    requires exists i, j :: p == FreshPools(i, j)
    ensures var r := EvArgsFrom(c, [a], 0, [], p); r.Success? && |r.value.0| == 1 && r.value.0[0].ty == NodeT(t)
  {
    hide EvNode, AllocNode;
    var i, j :| p == FreshPools(i, j);
    Fresh(i, j);
    LeafValue(t, c, p);
    var (v, q) := EvNode(c, Leaf(t), p).value;
    assert [] + [v] == [v];
    assert EvArgsFrom(c, [a], 1, [v], q) == Success(([v], q));
  }

  function PTree(): TreeNode {
    With(Abc.P, [NodeArg("x", NodeValue(Leaf(A))), NodeArg("y", NodeValue(Leaf(Q)))])
  }

  lemma PReads()
    ensures G.Parse("P(.x=A().y=Q())") == Success(PTree())
  {
    hide Fits, G.Parse, Print;
    var x, y := NodeArg("x", NodeValue(Leaf(A))), NodeArg("y", NodeValue(Leaf(Q)));
    Names();
    LeafText(A, 1);
    LeafText(Q, 1);
    TwoArgText(Abc.P, x, y);
    assert PrintArg(x, Terse, 1) == ".x=A()" && PrintArg(y, Terse, 1) == ".y=Q()";
    assert "P" + "(" + (".x=A()" + ".y=Q()") + ")" == "P(.x=A().y=Q())";
    Reads(PTree());
  }

  /** With strict casts, a `Q` is no `A`. */
  lemma StrictNode()
    ensures Fails("P(.x=A().y=Q())", true, CannotCast(Abc.P, 2, NodeT(Q), NodeT(A)))
  {
    hide G.Parse, Table.Lookup;
    PReads();
    NamesFindTypes(LP64, Abc.P);
    forall mode: Mode, nodes, space
      ensures Evaluated("P(.x=A().y=Q())", true, mode, FreshPools(nodes, space))
           == Failure(NotBuilt(CannotCast(Abc.P, 2, NodeT(Q), NodeT(A))))
    {
      hide EvNode, EvArgsFrom, AllocNode, CheckNode;
      var c, p := Ctx(Library(LP64), true, mode), FreshPools(nodes, space);
      TwoValues(c, p);
      EvWith(c, Abc.P, PTree().args.list, p);
      SecondIsNoA(c, EvArgsFrom(c, PTree().args.list, 0, [], p).value.0);
    }
  }

  lemma SecondIsNoA(c: Ctx, vs: seq<Val>)
    requires c.tt == Library(LP64) && c.strict && AllOk(c.tt, vs)
    requires |vs| == 2 && vs[0].ty == NodeT(A) && vs[1].ty == NodeT(Q)
    ensures CheckNode(c, Abc.P, ListArgs(PTree().args.list), vs) == Fail(CannotCast(Abc.P, 2, NodeT(Q), NodeT(A)))
  {
    var defs := Args(Abc.P);
    assert defs[0].name == "x" && defs[1].name == "y";
  }

  lemma TwoValues(c: Ctx, p: Pools)
    requires c.tt == Library(LP64) && exists i, j :: p == FreshPools(i, j)
    ensures var r := EvArgsFrom(c, PTree().args.list, 0, [], p);
            r.Success? && |r.value.0| == 2 && r.value.0[0].ty == NodeT(A) && r.value.0[1].ty == NodeT(Q)
  {
    hide EvNode, AllocNode;
    var i, j :| p == FreshPools(i, j);
    var list := PTree().args.list;
    Fresh(i, j);
    LeafValue(A, c, p);
    var (v, q) := EvNode(c, Leaf(A), p).value;
    LeafValue(Q, c, q);
    var (u, z) := EvNode(c, Leaf(Q), q).value;
    assert [] + [v] == [v] && [v] + [u] == [v, u];
    assert EvArgsFrom(c, list, 2, [v, u], z) == Success(([v, u], z));
    assert EvArgsFrom(c, list, 1, [v], q) == Success(([v, u], z));
  }

  // Lists.

  function LeafOf(t: TypeId): Obj {
    Obj(t, [])
  }

  lemma LReads(v: ArgValue, text: string)
    requires ValueFits(v, Words) && ValueFits(v, Literals) && PrintValue(v, Terse, 1) == text
    ensures G.Parse(LText(text)) == Success(With(L, [NodeArg("q", v)]))
  {
    hide Fits, ValueFits, G.Parse, Print, PrintValue;
    var a := NodeArg("q", v);
    Names();
    OneArgText(L, a);
    assert PrintArg(a, Terse, 1) == ".q=" + text;
    assert "L" + "(" + (".q=" + text) + ")" == LText(text);
    Reads(With(L, [a]));
  }

  /** The value of a list of `R`, empty or with one element. */
  lemma ListOfR(c: Ctx, v: ArgValue, p: Pools)
    requires c.tt == Library(LP64) && (v == NoElems(R) || v == OneElem(R, R)) && exists i, j :: p == FreshPools(i, j)
    ensures var r := EvArgsFrom(c, [NodeArg("q", v)], 0, [], p);
            r.Success? && |r.value.0| == 1 && r.value.0[0].ty == ListT(R)
  {
    hide EvNode, AllocNode, Table.Lookup;
    var a := NodeArg("q", v);
    NamesFindTypes(LP64, R);
    ElemOfR(c, v, p);
    var (u, q) := EvArg(c, a, p).value;
    assert [] + [u] == [u];
    assert EvArgsFrom(c, [a], 1, [u], q) == Success(([u], q));
  }

  lemma ElemOfR(c: Ctx, v: ArgValue, p: Pools)
    requires c.tt == Library(LP64) && (v == NoElems(R) || v == OneElem(R, R)) && exists i, j :: p == FreshPools(i, j)
    ensures var r := EvArg(c, NodeArg("q", v), p); r.Success? && r.value.0.ty == ListT(R)
  {
    hide EvNode, AllocNode, Table.Lookup, MakeList;
    var i, j :| p == FreshPools(i, j);
    if v == NoElems(R) {
      assert EvElemsFrom(c, [], 0, [], p) == Success(([], p));
      RawIsFresh(i, j, p);
      MakesList(c, [], p);
    } else {
      Fresh(i, j);
      LeafValue(R, c, p);
      var (u, q) := EvNode(c, Leaf(R), p).value;
      assert [] + [u] == [u];
      assert EvElemsFrom(c, v.elems, 1, [u], q) == Success(([u], q));
      assert EvElemsFrom(c, v.elems, 0, [], p) == Success(([u], q));
      RawIsFresh(i, j, q);
      MakesList(c, [u], q);
    }
  }

  lemma MakesList(c: Ctx, vs: seq<Val>, p: Pools)
    requires c.tt == Library(LP64) && AllocList(1, p).Success?
    requires vs == [] || vs == [Val(NodeT(R), if c.mode == TypeMode then NoData else NodeD(LeafOf(R)))]
    ensures AllOk(c.tt, vs)
    ensures MakeList(c, "R", vs, p).Success? && MakeList(c, "R", vs, p).value.0.ty == ListT(R)
  {
    hide Table.Lookup, RawAlloc;
    NamesFindTypes(LP64, R);
    assert CheckElemsFrom(c, R, vs, |vs|).Pass? && CheckElemsFrom(c, R, vs, 0).Pass?;
    assert ObjsFrom(vs, |vs|) == Success([]);
    assert c.mode == BuildMode ==> ObjsFrom(vs, 0).Success?;
  }

  lemma RawIsFresh(nodes: nat, space: nat, q: Pools)
    requires || q == FreshPools(nodes, space)
             || AllocNode(Library(LP64).types[R], [], FreshPools(nodes, space)) == Success(q)
    ensures AllocList(1, q).Success?
  {
    assert AllocStrings([], 0, FreshPools(nodes, space)) == Success(FreshPools(nodes, space));
  }

  /** With strict casts, no list of `R` is a list of `Q`. */
  lemma StrictList()
    ensures Fails("L(.q=list<R>[])", true, CannotCast(L, 1, ListT(R), ListT(Q)))
    ensures Fails("L(.q=list<R>[[0]=R()])", true, CannotCast(L, 1, ListT(R), ListT(Q)))
  {
    hide Fails, PrintValue, ValueFits, LText;
    ListTexts();
    LTexts();
    StrictListOf(NoElems(R), NO_R);
    StrictListOf(OneElem(R, R), ONE_R);
  }

  lemma StrictListOf(v: ArgValue, text: string)
    requires v == NoElems(R) || v == OneElem(R, R)
    requires ValueFits(v, Words) && ValueFits(v, Literals) && PrintValue(v, Terse, 1) == text
    ensures Fails(LText(text), true, CannotCast(L, 1, ListT(R), ListT(Q)))
  {
    hide ValueFits, PrintValue, G.Parse, Table.Lookup;
    LReads(v, text);
    NamesFindTypes(LP64, L);
    forall mode: Mode, nodes, space
      ensures Evaluated(LText(text), true, mode, FreshPools(nodes, space))
           == Failure(NotBuilt(CannotCast(L, 1, ListT(R), ListT(Q))))
    {
      hide EvNode, EvArgsFrom, AllocNode;
      var c, p := Ctx(Library(LP64), true, mode), FreshPools(nodes, space);
      ListOfR(c, v, p);
      EvWith(c, L, [NodeArg("q", v)], p);
    }
  }

  /** With either casts, an `A` is no element of a list of `R`. */
  lemma WrongElem(strict: bool)
    ensures Fails("L(.q=list<R>[[0]=A()])", strict, CannotCastElem(R, 0, NodeT(A)))
  {
    hide Fits, G.Parse, Table.Lookup, Print;
    var v := OneElem(R, A);
    ListTexts();
    LTexts();
    LReads(v, ONE_A);
    forall mode: Mode, nodes, space
      ensures Evaluated("L(.q=list<R>[[0]=A()])", strict, mode, FreshPools(nodes, space))
           == Failure(NotBuilt(CannotCastElem(R, 0, NodeT(A))))
    {
      hide EvNode, AllocNode;
      var c, p := Ctx(Library(LP64), strict, mode), FreshPools(nodes, space);
      ElemFails(c, p);
      EvWith(c, L, [NodeArg("q", v)], p);
    }
  }

  lemma ElemFails(c: Ctx, p: Pools)
    requires c.tt == Library(LP64) && exists i, j :: p == FreshPools(i, j)
    ensures EvArg(c, NodeArg("q", OneElem(R, A)), p) == Failure(CannotCastElem(R, 0, NodeT(A)))
  {
    hide EvNode, AllocNode, Table.Lookup;
    var i, j :| p == FreshPools(i, j);
    var elems := OneElem(R, A).elems;
    NamesFindTypes(LP64, R);
    Fresh(i, j);
    LeafValue(A, c, p);
    var (u, q) := EvNode(c, Leaf(A), p).value;
    assert [] + [u] == [u];
    assert EvElemsFrom(c, elems, 1, [u], q) == Success(([u], q));
    assert EvElemsFrom(c, elems, 0, [], p) == Success(([u], q));
    Extending(LP64, A, R);
  }

  // What builds, and what it prints.

  lemma Shown(raw: string, strict: bool, n: TreeNode, o: Obj, text: string)
    requires G.Parse(raw) == Success(n) && Elab(Library(LP64), strict, n, o) && WellTyped(Library(LP64), false, o)
    requires forall nodes, space :: CostObj(Library(LP64), o, FreshPools(nodes, space)).Success?
    requires ShowTree(Library(LP64), o) == text
    ensures Prints(raw, strict, text)
  {
    hide G.Parse, Library, Elab, WellTyped, CostObj, ShowTree, Made;
    forall nodes, space ensures Output(LP64, raw, strict, FreshPools(nodes, space)) == Success(text) {
      var p := FreshPools(nodes, space);
      MadeIs(LP64, raw, strict, p, o, CostObj(Library(LP64), o, p).value);
    }
  }

  lemma AllKinds()
    ensures forall strict :: Library(LP64).IsA(strict, A, A) && Library(LP64).IsA(strict, R, R)
    ensures Library(LP64).IsA(false, A, Q) && Library(LP64).IsA(false, Q, R)
  {
    hide Library, Table.IsA;
    forall strict ensures Library(LP64).IsA(strict, A, A) && Library(LP64).IsA(strict, R, R) {
      Library(LP64).IsAItself(strict, A);
      Library(LP64).IsAItself(strict, R);
    }
    Kinds(LP64, Q, A);
    Kinds(LP64, R, Q);
  }

  lemma LeafIs(strict: bool, t: TypeId)
    requires t in {A, Q, R}
    ensures Elab(Library(LP64), strict, Leaf(t), LeafOf(t)) && WellTyped(Library(LP64), false, LeafOf(t))
    ensures Show(Library(LP64), LeafOf(t)) == NAMES[t] + "()"
  {
    hide Table.Lookup;
    NamesFindTypes(LP64, t);
    assert ShowFieldsFrom(Library(LP64), [], [], 0) == "";
  }

  /** A literal between the parentheses is the one argument, and prints under its name. */
  lemma BoolPrints(strict: bool)
    ensures Prints("S('0')", strict, "S(.b='0')\n")
  {
    hide G.Parse, Fits, Print, Table.Lookup, CostObj;
    var n, o := TreeNode("S", LiteralArgs("0")), Obj(S, [EnumF(0)]);
    BoolText();
    Reads(n);
    NamesFindTypes(LP64, S);
    BoolReads("0", 0);
    BoolShown();
    forall nodes, space ensures CostObj(Library(LP64), o, FreshPools(nodes, space)).Success? {
      BoolCost(nodes, space);
    }
    Shown("S('0')", strict, n, o, "S(.b='0')\n");
  }

  lemma BoolText()
    ensures var n := TreeNode("S", LiteralArgs("0"));
            Print(n, Terse, 0) == "S('0')" && Fits(n, Words) && Fits(n, Literals)
  {
    hide IsIdentWord, IsBody;
    TypeWords(S);
    Names();
    assert NAMES[S] == "S";
  }

  lemma BoolShown()
    ensures var tt, o := Library(LP64), Obj(S, [EnumF(0)]);
            WellTyped(tt, false, o) && ShowTree(tt, o) == "S(.b='0')\n"
  {
    var tt, o := Library(LP64), Obj(S, [EnumF(0)]);
    var defs := tt.types[S].args;
    assert ShowField(tt, defs[0], o.fields[0]) == ".b='0'";
    assert ShowFieldsFrom(tt, defs, o.fields, 1) == "";
    assert ShowFieldsFrom(tt, defs, o.fields, 0) == ".b='0'" + "" == ".b='0'";
  }

  lemma BoolCost(nodes: nat, space: nat)
    ensures CostObj(Library(LP64), Obj(S, [EnumF(0)]), FreshPools(nodes, space)).Success?
  {
    var tt, fields, p := Library(LP64), [EnumF(0)], FreshPools(nodes, space);
    assert tt.types[S].size == 16;
    assert CostFieldsFrom(tt, fields, 1, p) == Success(p);
    assert AllocStrings(fields, 1, p) == Success(p);
  }

  function POf(): Obj {
    Obj(Abc.P, [NodeF(LeafOf(A)), NodeF(LeafOf(Q))])
  }

  /** With relaxed casts, a `Q` is an `A`. */
  lemma RelaxedNode()
    ensures Prints("P(.x=A().y=Q())", false, "P(.x=A().y=Q())\n")
  {
    hide G.Parse, Table.Lookup, Table.IsA, CostObj, ShowTree;
    PReads();
    NamesFindTypes(LP64, Abc.P);
    AllKinds();
    LeafIs(false, A);
    LeafIs(false, Q);
    PShown();
    forall nodes, space ensures CostObj(Library(LP64), POf(), FreshPools(nodes, space)).Success? {
      PCost(nodes, space);
    }
    assert Elab(Library(LP64), false, PTree(), POf());
    Shown("P(.x=A().y=Q())", false, PTree(), POf(), "P(.x=A().y=Q())\n");
  }

  lemma PShown()
    ensures WellTyped(Library(LP64), false, POf()) && ShowTree(Library(LP64), POf()) == "P(.x=A().y=Q())\n"
  {
    hide Show, ShowField, Table.IsA;
    AllKinds();
    LeafIs(false, A);
    LeafIs(false, Q);
    var tt, o := Library(LP64), POf();
    var defs := Args(Abc.P);
    assert FieldTyped(tt, false, defs[0].ty, o.fields[0]) && FieldTyped(tt, false, defs[1].ty, o.fields[1]);
    ShowIs(LP64, o);
    FieldTexts(tt, defs, o.fields);
    PFields();
    PString();
  }

  lemma PFields()
    requires WellTyped(Library(LP64), false, POf())
    ensures var tt, defs := Library(LP64), Args(Abc.P);
            && FieldsTyped(tt, defs, POf().fields)
            && ShowField(tt, defs[0], POf().fields[0]) == ".x=A()"
            && ShowField(tt, defs[1], POf().fields[1]) == ".y=Q()"
  {
    hide Show;
    LeafIs(false, A);
    LeafIs(false, Q);
  }

  lemma PString()
    ensures "P" + "(" + (".x=A()" + ".y=Q()") + ")" + "\n" == "P(.x=A().y=Q())\n"
  {
  }

  lemma PCost(nodes: nat, space: nat)
    ensures CostObj(Library(LP64), POf(), FreshPools(nodes, space)).Success?
  {
    var tt, fields, p := Library(LP64), POf().fields, FreshPools(nodes, space);
    assert tt.types[A].size == 16 && tt.types[Q].size == 16 && tt.types[Abc.P].size == 32;
    assert forall p1: Pools :: CostFieldsFrom(tt, [], 0, p1) == Success(p1) && AllocStrings([], 0, p1) == Success(p1);
    var p1 := CostObj(tt, LeafOf(A), p).value;
    var p2 := CostObj(tt, LeafOf(Q), p1).value;
    assert CostFieldsFrom(tt, fields, 2, p2) == Success(p2);
    assert CostFieldsFrom(tt, fields, 1, p1) == Success(p2);
    assert AllocStrings(fields, 2, p2) == Success(p2);
    assert AllocStrings(fields, 1, p2) == Success(p2);
  }

  function LOf(objs: seq<Obj>): Obj {
    Obj(L, [ListF(objs)])
  }

  /** With relaxed casts, a list of `R` is a list of `Q`, and prints as one. */
  lemma RelaxedList()
    ensures Prints("L(.q=list<R>[])", false, "L(.q=list<Q>[])\n")
    ensures Prints("L(.q=list<R>[[0]=R()])", false, "L(.q=list<Q>[[0]=R()])\n")
  {
    hide Prints, PrintValue, ValueFits, LText, WellTyped, ShowTree;
    ListTexts();
    LTexts();
    ListShown([]);
    ListShown([LeafOf(R)]);
    RelaxedListOf(NoElems(R), [], NO_R, "L(.q=list<Q>[])\n");
    RelaxedListOf(OneElem(R, R), [LeafOf(R)], ONE_R, "L(.q=list<Q>[[0]=R()])\n");
  }

  lemma ListShown(objs: seq<Obj>)
    requires objs == [] || objs == [LeafOf(R)]
    ensures WellTyped(Library(LP64), false, LOf(objs))
    ensures ShowTree(Library(LP64), LOf(objs))
         == if objs == [] then "L(.q=list<Q>[])\n" else "L(.q=list<Q>[[0]=R()])\n"
  {
    hide Show, ShowField, Table.IsA;
    AllKinds();
    LeafIs(false, R);
    var tt, o := Library(LP64), LOf(objs);
    var defs := Args(L);
    assert FieldTyped(tt, false, defs[0].ty, o.fields[0]);
    ShowIs(LP64, o);
    FieldTexts(tt, defs, o.fields);
    ListField(objs);
    ListShownStrings();
  }

  lemma ListShownStrings()
    ensures "L" + "(" + ".q=list<Q>[]" + ")" + "\n" == "L(.q=list<Q>[])\n"
    ensures "L" + "(" + ".q=list<Q>[[0]=R()]" + ")" + "\n" == "L(.q=list<Q>[[0]=R()])\n"
    ensures ".q=" + ("list<" + "Q" + ">[" + "" + "]") == ".q=list<Q>[]"
    ensures ".q=" + ("list<" + "Q" + ">[" + "[0]=R()" + "]") == ".q=list<Q>[[0]=R()]"
  {
  }

  lemma ListField(objs: seq<Obj>)
    requires objs == [] || objs == [LeafOf(R)]
    requires FieldTyped(Library(LP64), false, ListT(Q), ListF(objs))
    ensures ShowField(Library(LP64), ArgDef("q", ListT(Q)), ListF(objs))
         == if objs == [] then ".q=list<Q>[]" else ".q=list<Q>[[0]=R()]"
  {
    hide Show;
    var tt := Library(LP64);
    LeafIs(false, R);
    ListShownStrings();
    assert ShowElemsFrom(tt, objs, |objs|) == "";
    if objs != [] {
      assert "[" + Dec(0) + "]=" == "[0]=";
      assert ShowElemsFrom(tt, objs, 0) == "[0]=" + "R()" + "" == "[0]=R()";
    }
    assert "." + "q" + "=" == ".q=";
  }

  lemma RelaxedListOf(v: ArgValue, objs: seq<Obj>, list: string, text: string)
    requires (v == NoElems(R) && objs == []) || (v == OneElem(R, R) && objs == [LeafOf(R)])
    requires ValueFits(v, Words) && ValueFits(v, Literals) && PrintValue(v, Terse, 1) == list
    requires WellTyped(Library(LP64), false, LOf(objs)) && ShowTree(Library(LP64), LOf(objs)) == text
    ensures Prints(LText(list), false, text)
  {
    hide ValueFits, PrintValue, G.Parse, Table.Lookup, Table.IsA, CostObj, ShowTree, WellTyped;
    LReads(v, list);
    NamesFindTypes(LP64, L);
    NamesFindTypes(LP64, R);
    AllKinds();
    LeafIs(false, R);
    var n := With(L, [NodeArg("q", v)]);
    assert Elab(Library(LP64), false, n, LOf(objs)) by {
      hide Show;
      assert ElabArg(Library(LP64), false, NodeArg("q", v), ListT(Q), ListF(objs));
    }
    forall nodes, space ensures CostObj(Library(LP64), LOf(objs), FreshPools(nodes, space)).Success? {
      LCost(objs, nodes, space);
    }
    Shown(LText(list), false, n, LOf(objs), text);
  }

  lemma LCost(objs: seq<Obj>, nodes: nat, space: nat)
    requires objs == [] || objs == [LeafOf(R)]
    ensures CostObj(Library(LP64), LOf(objs), FreshPools(nodes, space)).Success?
  {
    var tt, fields, p := Library(LP64), LOf(objs).fields, FreshPools(nodes, space);
    assert tt.types[R].size == 16 && tt.types[L].size == 32;
    assert forall p1: Pools :: CostFieldsFrom(tt, fields, 1, p1) == Success(p1);
    assert forall p1: Pools :: AllocStrings(fields, 1, p1) == Success(p1);
    assert forall p1: Pools :: AllocStrings(fields, 0, p1) == Success(p1);
    if objs == [] {
      assert CostObjsFrom(tt, objs, 0, p) == Success(p);
      assert CostFieldsFrom(tt, fields, 0, p) == Success(p);
    } else {
      var p1 := CostObj(tt, LeafOf(R), p).value;
      ElemCost(nodes, space);
      assert CostObjsFrom(tt, objs, 1, p1) == Success(p1);
      assert CostObjsFrom(tt, objs, 0, p) == Success(p1);
      assert CostFieldsFrom(tt, fields, 0, p) == AllocList(1, p1);
    }
  }

  lemma ElemCost(nodes: nat, space: nat)
    ensures var r := CostObj(Library(LP64), LeafOf(R), FreshPools(nodes, space));
            && r.Success? && r == AllocNode(Library(LP64).types[R], [], FreshPools(nodes, space))
  {
    var tt, p := Library(LP64), FreshPools(nodes, space);
    assert tt.types[R].size == 16 && AllocStrings([], 0, p) == Success(p) && CostFieldsFrom(tt, [], 0, p) == Success(p);
  }
}
