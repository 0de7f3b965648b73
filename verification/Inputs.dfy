/** Texts that the program accepts, and that do not survive a second run. */
module Inputs {
  import opened Wrappers
  import opened Search
  import opened Syntax
  import opened Lexer
  import G = Grammar
  import opened Printer
  import opened RoundTrip
  import opened Pool
  import opened Types
  import opened Eval
  import opened Elaboration
  import opened Objects
  import opened Abc
  import opened Pipeline

  // The pools of a fresh AST, wherever the system put them, and the classes of a 64-bit build.

  const LP64 := Layout([16, 16, 24, 32, 24, 40, 48, 32, 16, 16, 32, 16], 8)

  function FreshPool(at: nat): PoolState {
    PoolState(at, 16384, 256, at, [])
  }

  function FreshPools(nodes: nat, raw: nat): Pools {
    Pools(FreshPool(nodes), FreshPool(raw))
  }

  /** A `D` that holds the string `s`. */
  function DOf(s: string): Obj {
    Obj(D, [StrF(s)])
  }

  lemma DText(layout: Layout, s: string)
    requires layout.Ok()
    ensures WellTyped(Library(layout), false, DOf(s))
    ensures ShowTree(Library(layout), DOf(s)) == "D('" + s + "')\n"
  {
    var o := DOf(s);
    DIsTyped(layout, s);
    hide WellTyped, Library, ShowFieldsFrom;
    TypedFields(layout, o);
    OneString(Library(layout), Args(D), o.fields);
    ShowIs(layout, o);
    assert "D" + "(" + ("'" + s + "'") + ")" + "\n" == "D('" + s + "')\n";
  }

  lemma DIsTyped(layout: Layout, s: string)
    requires layout.Ok()
    ensures WellTyped(Library(layout), false, DOf(s))
  {
  }

  lemma DIsDenoted(layout: Layout, strict: bool, s: string)
    requires layout.Ok()
    ensures Elab(Library(layout), strict, TreeNode("D", LiteralArgs(s)), DOf(s))
  {
    hide Table.Lookup;
    NamesFindTypes(layout, D);
  }

  /** What a `D` takes: the copy of its string, then the node. */
  lemma CostOfD(layout: Layout, s: string, p: Pools)
    requires layout.Ok()
    ensures CostObj(Library(layout), DOf(s), p) == AllocNode(Library(layout).types[D], DOf(s).fields, p)
  {
    hide AllocNode;
    CostOfString(Library(layout), DOf(s).fields, p);
  }

  /** A shorter string takes no more. */
  lemma ShorterFits(layout: Layout, s: string, u: string, p: Pools)
    requires layout.Ok() && |s| <= |u| && CostObj(Library(layout), DOf(u), p).Success?
    ensures CostObj(Library(layout), DOf(s), p).Success?
  {
    hide CostObj, Library;
    CostOfD(layout, s, p);
    CostOfD(layout, u, p);
    OneStringCost(DOf(s).fields, s, p);
    OneStringCost(DOf(u).fields, u, p);
  }

  lemma OneStringCost(fields: seq<Field>, s: string, p: Pools)
    requires fields == [StrF(s)]
    ensures AllocStrings(fields, 0, p) == RawAlloc(p, |s| + 1, 1)
  {
    hide RawAlloc;
    assert forall p1 :: AllocStrings(fields, 1, p1) == Success(p1);
  }

  /** A text that makes a `D` of any string that can stand between double quotes. */
  lemma DoubleQuotedMakes(layout: Layout, strict: bool, s: string, p: Pools, q: Pools)
    requires layout.Ok() && IsBody(s, '"') && CostObj(Library(layout), DOf(s), p) == Success(q)
    ensures Made(layout, "D(\"" + s + "\")", strict, p) == Success((DOf(s), q))
  {
    hide G.Parse, Library, IsBody, Elab, CostObj, Made;
    TypeWords(D);
    DoubleQuotedParses("D", s);
    assert "D" + "(\"" + s + "\")" == "D(\"" + s + "\")";
    DIsDenoted(layout, strict, s);
    MadeIs(layout, "D(\"" + s + "\")", strict, p, DOf(s), q);
  }

  /** If the string holds an unescaped single quote, what that run prints is not a fixed
      point: no second run makes the object again. */
  lemma UnsafeInput(layout: Layout, strict: bool, s: string, p: Pools, q: Pools)
    requires layout.Ok() && IsBody(s, '"') && !IsBody(s, '\'') && CostObj(Library(layout), DOf(s), p) == Success(q)
    ensures var raw, text := "D(\"" + s + "\")", "D('" + s + "')\n";
            && Output(layout, raw, strict, p) == Success(text)
            && Output(layout, text, false, p) != Success(text)
  {
    hide G.Parse, Library, IsBody, Elab, CostObj, Made, ShowTree, WellTyped;
    DoubleQuotedMakes(layout, strict, s, p, q);
    DText(layout, s);
    OutputIsFixed(layout, "D(\"" + s + "\")", strict, p, DOf(s), q);
    assert FieldQuotable(DOf(s).fields[0]) <==> IsBody(s, '\'');
  }

  // A string that closes its literal and opens a comment.

  /** Between double quotes such a string is a literal like any other; the run on what is
      printed for it builds, without an error, the object of what stands before. */
  lemma CommentSwallowsText(layout: Layout, strict: bool, s: string, more: string, p: Pools)
    requires layout.Ok() && IsBody(s, '\'') && IsBody(s + "') #" + more, '"')
    requires CostObj(Library(layout), DOf(s + "') #" + more), p).Success?
    ensures var u := s + "') #" + more;
            var raw, text := "D(\"" + u + "\")", "D('" + u + "')\n";
            && Made(layout, raw, strict, p).Success? && Made(layout, raw, strict, p).value.0 == DOf(u)
            && Output(layout, raw, strict, p) == Success(text)
            && Made(layout, text, false, p).Success? && Made(layout, text, false, p).value.0 == DOf(s) != DOf(u)
  {
    var u := s + "') #" + more;
    assert '\n' !in more by {
      assert forall k :: 0 <= k < |more| ==> more[k] == u[|s| + 4 + k];
    }
    hide G.Parse, Library, IsBody, Elab, CostObj, Made, ShowTree, WellTyped;
    var tt, q := Library(layout), CostObj(Library(layout), DOf(u), p).value;
    var text := "D('" + u + "')\n";
    DoubleQuotedMakes(layout, strict, u, p, q);
    DText(layout, u);
    SwallowedParses(s, more);
    DIsDenoted(layout, false, s);
    ShorterFits(layout, s, u, p);
    MadeIs(layout, text, false, p, DOf(s), CostObj(tt, DOf(s), p).value);
    assert DOf(s).fields[0].str != DOf(u).fields[0].str;
  }

  lemma SwallowedParses(s: string, more: string)
    requires IsBody(s, '\'') && '\n' !in more
    ensures G.Parse("D('" + (s + "') #" + more) + "')\n") == Success(TreeNode("D", LiteralArgs(s)))
  {
    hide IsBody, LexSyms, G.Parse, Yield;
    SwallowedText(s, more);
    SwallowedSyms(s, "#" + (more + "')"));
    YieldOfLiteral("D", s);
    G.ParserIsTheGrammar("D('" + (s + "') #" + more) + "')\n", TreeNode("D", LiteralArgs(s)));
  }

  lemma SwallowedText(s: string, more: string)
    ensures G.Folded("D('" + (s + "') #" + more) + "')\n")
         == "D" + ("(" + ("'" + s + "'" + (")" + (" " + ("#" + (more + "')"))))))
  {
    var end := "#" + (more + "')");
    assert "D('" + (s + "') #" + more) + "')" == "D('" + (s + "') " + end);
    assert "D('" + (s + "') " + end) == "D" + ("(" + ("'" + s + "'" + (")" + (" " + end))));
  }

  lemma SwallowedSyms(s: string, end: string)
    requires IsBody(s, '\'') && end != "" && end[0] == '#' && '\n' !in end
    ensures LexSyms("D" + ("(" + ("'" + s + "'" + (")" + (" " + end)))), false)
         == [IdentSym("D")] + ([Mark(OpenParen)] + ([StrSym(s)] + ([Mark(CloseParen)] + [EosSym])))
  {
    hide IsBody, LexSyms;
    var lit := "'" + s + "'" + (")" + (" " + end));
    CommentsRunToTheEnd(end, false);
    LexBlanks(" ", end, false);
    LexMark(')', " " + end, false, [EosSym]);
    LexLiteral(s, ")" + (" " + end), false, [Mark(CloseParen)] + [EosSym]);
    LexMark('(', lit, false, [StrSym(s)] + ([Mark(CloseParen)] + [EosSym]));
    TypeWords(D);
    IdentKind("D");
    LexWord("D", "(" + lit, false, [Mark(OpenParen)] + ([StrSym(s)] + ([Mark(CloseParen)] + [EosSym])));
  }

  // A text that makes an `M`.

  function MTree(s: string): TreeNode {
    TreeNode("M", ListArgs([
      NodeArg("a", NodeValue(TreeNode("A", ListArgs([])))),
      NodeArg("b", ListValue("B", [])),
      NodeArg("c", LiteralValue(s))]))
  }

  function MText(s: string): string {
    "M(.a=A().b=list<B>[].c='" + s + "')"
  }

  function MOf(s: string): Obj {
    Obj(M, [NodeF(Obj(A, [])), ListF([]), StrF(s)])
  }

  lemma ThreeArgs(list: seq<NodeArg>, level: nat, w: Wanted)
    requires |list| == 3
    ensures PrintArgsFrom(list, 0, Terse, level)
         == PrintArg(list[0], Terse, level) + (PrintArg(list[1], Terse, level) + PrintArg(list[2], Terse, level))
    ensures ArgsFitFrom(list, 0, w) <==> ArgFits(list[0], w) && ArgFits(list[1], w) && ArgFits(list[2], w)
  {
    hide PrintArg, ArgFits;
    var t := PrintArg(list[2], Terse, level);
    assert PrintArgsFrom(list, 3, Terse, level) == "" && ArgsFitFrom(list, 3, w);
    assert PrintArgsFrom(list, 2, Terse, level) == "" + t + "" == t;
    assert PrintArgsFrom(list, 1, Terse, level) == "" + PrintArg(list[1], Terse, level) + t;
    assert ArgsFitFrom(list, 2, w) <==> ArgFits(list[2], w);
    assert ArgsFitFrom(list, 1, w) <==> ArgFits(list[1], w) && ArgFits(list[2], w);
  }

  lemma MPrints(s: string)
    ensures Print(MTree(s), Terse, 0) == MText(s)
  {
    hide PrintArgsFrom, PrintArg;
    var list := MTree(s).args.list;
    ThreeArgs(list, 1, Words);
    MArgs(s);
    assert PrintArgs(ListArgs(list), Terse, 0) == ".a=A()" + (".b=list<B>[]" + (".c='" + s + "'")) + "";
    MTextIs(s);
  }

  lemma MTextIs(s: string)
    ensures "M" + "(" + (".a=A()" + (".b=list<B>[]" + (".c='" + s + "'")) + "") + ")" == MText(s)
  {
  }

  lemma MArgs(s: string)
    ensures var list := MTree(s).args.list;
            && PrintArg(list[0], Terse, 1) == ".a=A()"
            && PrintArg(list[1], Terse, 1) == ".b=list<B>[]"
            && PrintArg(list[2], Terse, 1) == ".c='" + s + "'"
  {
    var list := MTree(s).args.list;
    assert PrintArgs(ListArgs([]), Terse, 1) == "";
    assert Print(TreeNode("A", ListArgs([])), Terse, 1) == "A()";
    assert PrintValue(list[1].value, Terse, 1) == "list<B>[]";
    assert "." + "c" + "=" + ("'" + s + "'") == ".c='" + s + "'";
  }

  lemma MFits(s: string)
    ensures Fits(MTree(s), Words) && (Fits(MTree(s), Literals) <==> IsBody(s, '\''))
  {
    hide IsBody, IsIdentWord, IsNameWord, ArgsFitFrom;
    var list := MTree(s).args.list;
    TypeWords(A);
    TypeWords(B);
    TypeWords(M);
    ArgNames();
    NoArgsFit();
    forall w: Wanted ensures ArgsFitFrom(list, 0, w) <==> w == Words || IsBody(s, '\'') {
      ThreeArgs(list, 1, w);
      assert ArgFits(list[0], w) && ArgFits(list[1], w);
      assert ArgFits(list[2], w) <==> w == Words || IsBody(s, '\'');
    }
    var n := MTree(s);
    assert n.args == ListArgs(list) && NAMES[M] == n.name;
    assert ArgsFit(n.args, Words) && (ArgsFit(n.args, Literals) <==> IsBody(s, '\''));
  }

  lemma NoArgsFit()
    ensures forall w: Wanted :: ArgsFitFrom([], 0, w) && ElemsFitFrom([], 0, w)
  {
  }

  lemma ArgNames()
    ensures IsNameWord("a") && IsNameWord("b") && IsNameWord("c")
  {
  }

  lemma MIsDenoted(layout: Layout, strict: bool, s: string)
    requires layout.Ok()
    ensures Elab(Library(layout), strict, MTree(s), MOf(s))
  {
    hide Table.Lookup, Table.IsA;
    NamesFindTypes(layout, A);
    NamesFindTypes(layout, B);
    NamesFindTypes(layout, M);
    Library(layout).IsAItself(strict, A);
    Library(layout).IsAItself(strict, B);
    assert Elab(Library(layout), strict, TreeNode("A", ListArgs([])), Obj(A, []));
  }

  /** Given pools that hold it, the text makes an `M`; what is printed for it is no fixed
      point, and no text read from it makes the `M` again. */
  lemma MInput(layout: Layout, strict: bool, s: string, p: Pools, q: Pools)
    requires layout.Ok() && IsBody(s, '\'') && CostObj(Library(layout), MOf(s), p) == Success(q)
    ensures Made(layout, MText(s), strict, p) == Success((MOf(s), q))
    ensures WellTyped(Library(layout), false, MOf(s)) && !ReadsBack(Library(layout), MOf(s))
    ensures var text := ShowTree(Library(layout), MOf(s)); Output(layout, text, false, p) != Success(text)
  {
    hide G.Parse, Library, IsBody, Elab, CostObj, Made, ShowTree, WellTyped, Print, Sayable, Fits;
    var n := MTree(s);
    MPrints(s);
    MFits(s);
    PrintThenParse(n, Terse);
    NewlineIsFolded(MText(s));
    MIsDenoted(layout, strict, s);
    MadeIs(layout, MText(s), strict, p, MOf(s), q);
    OutputIsFixed(layout, MText(s), strict, p, MOf(s), q);
    LibraryIsCoherent(layout);
    ShowThenRead(Library(layout), MOf(s));
    SayableIsQuotable(layout, MOf(s));
  }

  /** A newline at the end of a text makes no difference. */
  lemma NewlineIsFolded(text: string)
    requires text != "" && text[|text| - 1] != '\n'
    ensures G.Parse(text) == G.Parse(text + "\n")
  {
    hide G.ParseTokens, G.Tokens;
    assert G.Folded(text + "\n") == text;
  }

  /** In a fresh AST, `M(.a=A().b=list<B>[].c='s')` and `D("a'b")` are such inputs. */
  lemma FreshInputs(strict: bool, nodes: nat, raw: nat)
    ensures exists q :: Made(LP64, MText("s"), strict, FreshPools(nodes, raw)) == Success((MOf("s"), q))
    ensures exists q :: Made(LP64, "D(\"a'b\")", strict, FreshPools(nodes, raw)) == Success((DOf("a'b"), q))
  {
    hide G.Parse, Library, Elab, CostObj, Made;
    var p := FreshPools(nodes, raw);
    MCost("s", p);
    DCost("a'b", p);
    PlainBodies();
    MInput(LP64, strict, "s", p, CostObj(Library(LP64), MOf("s"), p).value);
    DoubleQuotedMakes(LP64, strict, "a'b", p, CostObj(Library(LP64), DOf("a'b"), p).value);
    assert "D(\"" + "a'b" + "\")" == "D(\"a'b\")";
  }

  /** And so is `D("x') #")`, of which a second run makes `D('x')`. */
  lemma FreshSwallow(strict: bool, nodes: nat, raw: nat)
    ensures var p := FreshPools(nodes, raw);
            && Output(LP64, "D(\"x') #\")", strict, p) == Success("D('x') #')\n")
            && Made(LP64, "D('x') #')\n", false, p).Success? && Made(LP64, "D('x') #')\n", false, p).value.0 == DOf("x")
  {
    hide G.Parse, Library, Elab, CostObj, Made, Output, IsBody;
    var p, u := FreshPools(nodes, raw), "x') #";
    assert "x" + "') #" + "" == u;
    DCost(u, p);
    SwallowBodies();
    CommentSwallowsText(LP64, strict, "x", "", p);
    assert "D(\"" + u + "\")" == "D(\"x') #\")" && "D('" + u + "')\n" == "D('x') #')\n";
  }

  lemma SwallowBodies()
    ensures IsBody("x", '\'') && IsBody("x') #", '"')
  {
    var s, t := "x", "x') #";
    assert s[0] == 'x' && t[0] == 'x' && t[1] == '\'' && t[2] == ')' && t[3] == ' ' && t[4] == '#';
    assert !Escaped(s, 0) && !Escaped(s, 1);
    assert !Escaped(t, 0) && !Escaped(t, 1) && !Escaped(t, 2) && !Escaped(t, 3) && !Escaped(t, 4) && !Escaped(t, 5);
  }

  lemma PlainBodies()
    ensures IsBody("s", '\'') && IsBody("a'b", '"')
  {
    var s, t := "s", "a'b";
    assert s[0] == 's' && t[0] == 'a' && t[1] == '\'' && t[2] == 'b';
    assert !Escaped(s, 0) && !Escaped(s, 1);
    assert !Escaped(t, 0) && !Escaped(t, 1) && !Escaped(t, 2) && !Escaped(t, 3);
  }

  lemma DCost(s: string, p: Pools)
    requires |s| < 256 && exists a, b :: p == FreshPools(a, b)
    ensures CostObj(Library(LP64), DOf(s), p).Success?
  {
    CostOfD(LP64, s, p);
    OneStringCost(DOf(s).fields, s, p);
  }

  lemma MCost(s: string, p: Pools)
    requires |s| < 256 && exists a, b :: p == FreshPools(a, b)
    ensures CostObj(Library(LP64), MOf(s), p).Success?
  {
    var tt, fields := Library(LP64), MOf(s).fields;
    assert tt.types[A].size == 16 && tt.types[M].size == 48;
    assert CostFieldsFrom(tt, [], 0, p) == Success(p);
    assert AllocStrings([], 0, p) == Success(p);
    var p1 := CostObj(tt, Obj(A, []), p).value;
    assert forall p2 :: CostFieldsFrom(tt, fields, 3, p2) == Success(p2);
    assert CostFieldsFrom(tt, fields, 2, p1) == Success(p1);
    assert CostFieldsFrom(tt, fields, 1, p1) == Success(p1);
    assert CostFieldsFrom(tt, fields, 0, p) == Success(p1);
    assert forall p2 :: AllocStrings(fields, 3, p2) == Success(p2);
    assert AllocStrings(fields, 2, p1) == RawAlloc(p1, |s| + 1, 1);
    assert AllocStrings(fields, 1, p1) == RawAlloc(p1, |s| + 1, 1);
  }
}
