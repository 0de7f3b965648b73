/** Scanning printed text gives back the symbols of the tree, exactly when every literal
    can stand between single quotes. */
module RoundTrip {
  import opened Wrappers
  import opened Chars
  import opened Syntax
  import opened Numbers
  import opened Lexer
  import opened Grammar
  import opened Printer

  // One symbol at a time: text that starts with a token scans as its symbol followed by
  // `x` exactly when what comes after the token scans as `x`.

  lemma LexFront(u: string, argCtxt: bool, len: nat, x: seq<Sym>)
    requires u != [] && !IsSpace(u[0]) && u[0] != '#' && 0 < len <= |u|
    requires ScanToken(u, argCtxt).Lexeme? && ScanToken(u, argCtxt).len == len
    ensures var t := ScanToken(u, argCtxt);
            LexSyms(u, argCtxt) == [SymOf(t.kind, t.lex)] + x <==> LexSyms(u[len..], t.kind == Dot) == x
  {
    hide ScanToken;
    assert Skipped(u) == 0;
    assert u[0..] == u;
    var t := ScanToken(u, argCtxt);
    var y := LexSyms(u[len..], t.kind == Dot);
    assert LexSyms(u, argCtxt) == [SymOf(t.kind, t.lex)] + y;
    assert ([SymOf(t.kind, t.lex)] + y)[1..] == y && ([SymOf(t.kind, t.lex)] + x)[1..] == x;
  }

  lemma LexMark(c: char, r: string, argCtxt: bool, x: seq<Sym>)
    requires IsMarkChar(c)
    ensures LexSyms([c] + r, argCtxt) == [Mark(MarkOf(c))] + x <==> LexSyms(r, c == '.') == x
  {
    hide LexSyms;
    LexFront([c] + r, argCtxt, 1, x);
    assert ([c] + r)[1..] == r;
  }

  lemma LexWord(w: string, r: string, argCtxt: bool, x: seq<Sym>)
    requires IsIdentWord(w) || IsNameWord(w)
    requires r == [] || !IsIdent(r[0])
    ensures LexSyms(w + r, argCtxt) == [SymOf(WordKind(w, argCtxt), w)] + x <==> LexSyms(r, false) == x
  {
    hide LexSyms;
    var u := w + r;
    forall k | 0 <= k < |w| - 1 ensures IsIdent(u[1..][k]) {
      assert w[k + 1] in w;
    }
    SpanIs(IsIdent, u[1..], |w| - 1);
    assert u[..|w|] == w && u[|w|..] == r;
    LexFront(u, argCtxt, |w|, x);
  }

  lemma LexDigits(w: string, r: string, argCtxt: bool, x: seq<Sym>)
    requires AllDigits(w) && (r == [] || !IsDigit(r[0]))
    ensures LexSyms(w + r, argCtxt) == [NumSym(DecValue(w))] + x <==> LexSyms(r, false) == x
  {
    hide LexSyms, DecValue;
    var u := w + r;
    SpanIs(IsDigit, u, |w|);
    assert u[..|w|] == w && u[|w|..] == r;
    assert IsDigit(w[0]) && u[0] == w[0];
    assert ScanToken(u, argCtxt) == Lexeme(Num, w, |w|);
    LexFront(u, argCtxt, |w|, x);
  }

  lemma LexNumber(n: nat, r: string, argCtxt: bool, x: seq<Sym>)
    requires r == [] || !IsDigit(r[0])
    ensures LexSyms(Dec(n) + r, argCtxt) == [NumSym(n)] + x <==> LexSyms(r, false) == x
  {
    hide LexSyms, Dec, DecValue;
    LexDigits(Dec(n), r, argCtxt, x);
    DecValueOfDec(n);
  }

  /** A string between two quotes scans as itself exactly when it is a literal body. */
  lemma LexQuoted(q: char, s: string, r: string, argCtxt: bool, x: seq<Sym>)
    requires IsQuote(q)
    ensures LexSyms([q] + s + [q] + r, argCtxt) == [StrSym(s)] + x <==> IsBody(s, q) && LexSyms(r, false) == x
  {
    hide LexSyms, ScanToken, IsBody;
    var u := [q] + s + [q] + r;
    var t := ScanToken(u, argCtxt);
    QuotedLexeme(u, argCtxt);
    assert u[1..1 + |s|] == s && u[1 + |s|] == q && u[|s| + 2..] == r;
    if t.Fault? {
      assert !IsBody(s, q);
      FaultyFront(u, argCtxt);
    } else {
      if IsBody(s, q) {
        FirstQuoteIsUnique(u, q, t.lex, s);
      }
      LexFront(u, argCtxt, t.len, x);
      LexHead(u, argCtxt);
      assert ([StrSym(s)] + x)[0] == StrSym(s);
    }
  }

  /** The same between single quotes, as the printers write it. */
  lemma LexLiteral(s: string, r: string, argCtxt: bool, x: seq<Sym>)
    ensures LexSyms("'" + s + "'" + r, argCtxt) == [StrSym(s)] + x <==> IsBody(s, '\'') && LexSyms(r, false) == x
  {
    hide LexSyms, IsBody;
    LexQuoted('\'', s, r, argCtxt, x);
  }

  lemma FaultyFront(u: string, argCtxt: bool)
    requires u != [] && !IsSpace(u[0]) && u[0] != '#' && ScanToken(u, argCtxt).Fault?
    ensures LexSyms(u, argCtxt)[0] == FaultSym
  {
    hide ScanToken;
    assert Skipped(u) == 0;
    assert u[0..] == u;
  }

  lemma LexHead(u: string, argCtxt: bool)
    requires u != [] && !IsSpace(u[0]) && u[0] != '#' && ScanToken(u, argCtxt).Lexeme?
    ensures var t := ScanToken(u, argCtxt);
            LexSyms(u, argCtxt)[0] == SymOf(t.kind, t.lex)
  {
    hide ScanToken;
    assert Skipped(u) == 0;
    assert u[0..] == u;
  }

  /** Two bodies that both end at a quote of the same text are the same body. */
  lemma FirstQuoteIsUnique(u: string, q: char, a: string, b: string)
    requires |u| >= 2 + |a| && |u| >= 2 + |b| && IsQuote(q)
    requires u[1..1 + |a|] == a && u[1 + |a|] == q && IsBody(a, q)
    requires u[1..1 + |b|] == b && u[1 + |b|] == q && IsBody(b, q)
    ensures a == b
  {
    var t := u[1..];
    ClosesAtIsBody(t, |a|, q);
    ClosesAtIsBody(t, |b|, q);
    assert t[..|a|] == a && t[..|b|] == b;
  }

  lemma LexBlanks(ws: string, r: string, argCtxt: bool)
    requires forall c | c in ws :: IsSpace(c)
    ensures LexSyms(ws + r, argCtxt) == LexSyms(r, argCtxt)
  {
    hide ScanToken, IsSpace, Skipped;
    SkipBlanks(ws, r);
    Suffix(ws + r, |ws|, Skipped(r));
    assert (ws + r)[|ws|..] == r;
  }

  lemma SkipBlanks(ws: string, r: string)
    requires forall c | c in ws :: IsSpace(c)
    ensures Skipped(ws + r) == |ws| + Skipped(r)
  {
    var n := Span(IsSpace, r);
    SpanIs(IsSpace, ws + r, |ws| + n);
    if n < |r| {
      Suffix(ws + r, |ws|, n + 1);
      assert (ws + r)[|ws|..] == r;
    }
  }

  lemma {:induction false} EndlBlank(style: Style, level: nat)
    requires style != Pretty(true)
    ensures forall c | c in Endl(style, level) :: IsSpace(c)
  {
    if style.Pretty? && level > 0 {
      EndlBlank(style, level - 1);
      assert Indent(style, level) == "    " + Indent(style, level - 1);
      forall c | c in Indent(style, level - 1) ensures IsSpace(c) {
        assert c in Endl(style, level - 1);
      }
    }
  }

  lemma LexEndl(style: Style, level: nat, r: string, argCtxt: bool)
    requires style != Pretty(true)
    ensures LexSyms(Endl(style, level) + r, argCtxt) == LexSyms(r, argCtxt)
  {
    hide LexSyms;
    EndlBlank(style, level);
    LexBlanks(Endl(style, level), r, argCtxt);
  }

  lemma LexAssign(style: Style, r: string, x: seq<Sym>)
    ensures LexSyms(Assign(style) + r, false) == [Mark(Equal)] + x <==> LexSyms(r, false) == x
  {
    hide LexSyms;
    var ws := if style.Pretty? then " " else "";
    assert Assign(style) + r == ws + ("=" + (ws + r));
    LexBlanks(ws, "=" + (ws + r), false);
    LexMark('=', ws + r, false, x);
    LexBlanks(ws, r, false);
  }

  // Whole trees. The printed text followed by `rest` scans as the yield followed by `x`
  // exactly when the literals fit and `rest` scans as `x`.

  lemma {:induction false} LexPrint(n: TreeNode, style: Style, level: nat, rest: string, x: seq<Sym>)
    requires style != Pretty(true) && Fits(n, Words)
    ensures LexSyms(Print(n, style, level) + rest, false) == Yield(n) + x
       <==> Fits(n, Literals) && LexSyms(rest, false) == x
    decreases n, 0
  {
    hide LexSyms, PrintArgs, YieldArgs, ArgsFit;
    var r2 := ")" + rest;
    var r1 := PrintArgs(n.args, style, level) + r2;
    var y2 := [Mark(CloseParen)] + x;
    var y1 := YieldArgs(n.args) + y2;
    assert Print(n, style, level) + rest == n.name + ("(" + r1);
    assert Yield(n) + x == [IdentSym(n.name)] + ([Mark(OpenParen)] + y1);
    LexWord(n.name, "(" + r1, false, [Mark(OpenParen)] + y1);
    LexMark('(', r1, false, y1);
    LexPrintArgs(n.args, style, level, r2, y2);
    LexMark(')', rest, false, x);
  }

  lemma {:induction false} LexPrintArgs(a: NodeArgs, style: Style, level: nat, rest: string, x: seq<Sym>)
    requires style != Pretty(true) && ArgsFit(a, Words)
    ensures LexSyms(PrintArgs(a, style, level) + rest, false) == YieldArgs(a) + x
       <==> ArgsFit(a, Literals) && LexSyms(rest, false) == x
    decreases a, 0
  {
    hide LexSyms, PrintArgsFrom, YieldArgsFrom, ArgsFitFrom, Endl, IsBody;
    match a
    case LiteralArgs(s) =>
      LexLiteral(s, rest, false, x);
    case ListArgs(list) =>
      var r := (if list == [] then "" else Endl(style, level)) + rest;
      assert PrintArgs(a, style, level) + rest == PrintArgsFrom(list, 0, style, level + 1) + r;
      LexEndl(style, level, rest, false);
      assert "" + rest == rest;
      LexPrintArgsFrom(list, 0, style, level + 1, r, x);
  }

  lemma {:induction false} LexPrintArgsFrom(list: seq<NodeArg>, k: nat, style: Style, level: nat, rest: string,
                                            x: seq<Sym>)
    requires style != Pretty(true) && k <= |list| && ArgsFitFrom(list, k, Words)
    ensures LexSyms(PrintArgsFrom(list, k, style, level) + rest, false) == YieldArgsFrom(list, k) + x
       <==> ArgsFitFrom(list, k, Literals) && LexSyms(rest, false) == x
    decreases list, |list| - k
  {
    hide LexSyms, PrintArg, YieldArg, ArgFits, Endl;
    if k == |list| {
      assert "" + rest == rest && [] + x == x;
    } else {
      var r := PrintArgsFrom(list, k + 1, style, level) + rest;
      var y := YieldArgsFrom(list, k + 1) + x;
      Assoc4(Endl(style, level), PrintArg(list[k], style, level), PrintArgsFrom(list, k + 1, style, level), rest);
      Assoc(YieldArg(list[k]), YieldArgsFrom(list, k + 1), x);
      LexEndl(style, level, PrintArg(list[k], style, level) + r, false);
      LexPrintArg(list[k], style, level, r, y);
      LexPrintArgsFrom(list, k + 1, style, level, rest, x);
    }
  }

  lemma {:induction false} LexPrintArg(a: NodeArg, style: Style, level: nat, rest: string, x: seq<Sym>)
    requires style != Pretty(true) && ArgFits(a, Words)
    ensures LexSyms(PrintArg(a, style, level) + rest, false) == YieldArg(a) + x
       <==> ArgFits(a, Literals) && LexSyms(rest, false) == x
    decreases a, 0
  {
    hide LexSyms, PrintValue, YieldValue, ValueFits;
    var r2 := PrintValue(a.value, style, level) + rest;
    var r1 := Assign(style) + r2;
    var y2 := YieldValue(a.value) + x;
    var y1 := [Mark(Equal)] + y2;
    assert PrintArg(a, style, level) + rest == "." + (a.name + r1);
    assert YieldArg(a) + x == [Mark(Dot)] + ([NameSym(a.name)] + y1);
    LexMark('.', a.name + r1, false, [NameSym(a.name)] + y1);
    LexWord(a.name, r1, true, y1);
    LexAssign(style, r2, y2);
    LexPrintValue(a.value, style, level, rest, x);
  }

  lemma {:induction false} LexPrintValue(v: ArgValue, style: Style, level: nat, rest: string, x: seq<Sym>)
    requires style != Pretty(true) && ValueFits(v, Words)
    ensures LexSyms(PrintValue(v, style, level) + rest, false) == YieldValue(v) + x
       <==> ValueFits(v, Literals) && LexSyms(rest, false) == x
    decreases v, 0
  {
    hide LexSyms, Print, Yield, Fits, PrintElemsFrom, YieldElemsFrom, ElemsFitFrom, Endl, IsBody;
    match v
    case NodeValue(n) =>
      LexPrint(n, style, level, rest, x);
    case LiteralValue(s) =>
      LexLiteral(s, rest, false, x);
    case ListValue(base, elems) =>
      LexPrintList(base, elems, style, level, rest, x);
  }

  lemma Reassociate(base: string, ws: string, body: string, end: string, rest: string)
    ensures "list<" + base + ">" + ws + "[" + body + end + "]" + rest
         == "list" + ("<" + (base + (">" + (ws + ("[" + (body + (end + ("]" + rest))))))))
  {
    var a := end + ("]" + rest);
    assert "list<" + base + ">" + ws + "[" + body + end + "]" + rest == "list<" + base + ">" + ws + "[" + body + a;
    var b := "[" + (body + a);
    assert "list<" + base + ">" + ws + "[" + body + a == "list<" + base + ">" + ws + b;
    assert "list<" + base + ">" + ws + b == "list<" + (base + (">" + (ws + b)));
  }

  lemma LexListOpen(base: string, ws: string, r: string, x: seq<Sym>)
    requires IsIdentWord(base) && forall c | c in ws :: IsSpace(c)
    ensures LexSyms("list" + ("<" + (base + (">" + (ws + ("[" + r))))), false)
         == [Mark(KwList)] + ([Mark(OpenAngBrk)] + ([IdentSym(base)] + ([Mark(CloseAngBrk)] + ([Mark(OpenSqBrk)] + x))))
       <==> LexSyms(r, false) == x
  {
    hide LexSyms, IsIdentWord;
    var r3 := ws + ("[" + r);
    var y3 := [Mark(OpenSqBrk)] + x;
    var y2 := [IdentSym(base)] + ([Mark(CloseAngBrk)] + y3);
    assert IsNameWord("list") && WordKind("list", false) == KwList;
    IdentKind(base);
    LexWord("list", "<" + (base + (">" + r3)), false, [Mark(OpenAngBrk)] + y2);
    LexMark('<', base + (">" + r3), false, y2);
    LexWord(base, ">" + r3, false, [Mark(CloseAngBrk)] + y3);
    LexMark('>', r3, false, y3);
    LexBlanks(ws, "[" + r, false);
    LexMark('[', r, false, x);
  }

  lemma IdentKind(w: string)
    requires IsIdentWord(w)
    ensures SymOf(WordKind(w, false), w) == IdentSym(w)
  {
  }

  lemma {:induction false} LexPrintList(base: string, elems: seq<ListElem>, style: Style, level: nat, rest: string,
                                        x: seq<Sym>)
    requires style != Pretty(true) && IsIdentWord(base) && ElemsFitFrom(elems, 0, Words)
    ensures LexSyms(PrintValue(ListValue(base, elems), style, level) + rest, false)
         == YieldValue(ListValue(base, elems)) + x
       <==> ElemsFitFrom(elems, 0, Literals) && LexSyms(rest, false) == x
    decreases elems, |elems| + 1
  {
    hide LexSyms, PrintElemsFrom, YieldElemsFrom, ElemsFitFrom, Endl, IsIdentWord;
    var ws := if style.Pretty? then " " else "";
    var end := if elems == [] then "" else Endl(style, level);
    var r5 := end + ("]" + rest);
    var r4 := PrintElemsFrom(elems, 0, style, level + 1) + r5;
    var y5 := [Mark(CloseSqBrk)] + x;
    var y4 := YieldElemsFrom(elems, 0) + y5;
    Reassociate(base, ws, PrintElemsFrom(elems, 0, style, level + 1), end, rest);
    assert [Mark(KwList), Mark(OpenAngBrk), IdentSym(base), Mark(CloseAngBrk), Mark(OpenSqBrk)] + y4
      == [Mark(KwList)] + ([Mark(OpenAngBrk)] + ([IdentSym(base)] + ([Mark(CloseAngBrk)] + ([Mark(OpenSqBrk)] + y4))));
    LexListOpen(base, ws, r4, y4);
    LexPrintElemsFrom(elems, 0, style, level + 1, r5, y5);
    LexEndl(style, level, "]" + rest, false);
    assert "" + ("]" + rest) == "]" + rest;
    LexMark(']', rest, false, x);
  }

  lemma {:induction false} LexPrintElemsFrom(elems: seq<ListElem>, k: nat, style: Style, level: nat, rest: string,
                                             x: seq<Sym>)
    requires style != Pretty(true) && k <= |elems| && ElemsFitFrom(elems, k, Words)
    ensures LexSyms(PrintElemsFrom(elems, k, style, level) + rest, false) == YieldElemsFrom(elems, k) + x
       <==> ElemsFitFrom(elems, k, Literals) && LexSyms(rest, false) == x
    decreases elems, |elems| - k
  {
    hide LexSyms, PrintElem, YieldElem, ElemFits, Endl;
    if k == |elems| {
      assert "" + rest == rest && [] + x == x;
    } else {
      var r := PrintElemsFrom(elems, k + 1, style, level) + rest;
      var y := YieldElemsFrom(elems, k + 1) + x;
      Assoc4(Endl(style, level), PrintElem(elems[k], style, level), PrintElemsFrom(elems, k + 1, style, level), rest);
      Assoc(YieldElem(elems[k]), YieldElemsFrom(elems, k + 1), x);
      LexEndl(style, level, PrintElem(elems[k], style, level) + r, false);
      LexPrintElem(elems[k], style, level, r, y);
      LexPrintElemsFrom(elems, k + 1, style, level, rest, x);
    }
  }

  lemma {:induction false} LexPrintElem(e: ListElem, style: Style, level: nat, rest: string, x: seq<Sym>)
    requires style != Pretty(true) && ElemFits(e, Words)
    ensures LexSyms(PrintElem(e, style, level) + rest, false) == YieldElem(e) + x
       <==> ElemFits(e, Literals) && LexSyms(rest, false) == x
    decreases e, 0
  {
    hide LexSyms, Print, Yield, Fits, Dec;
    var r3 := Print(e.node, style, level) + rest;
    var r2 := Assign(style) + r3;
    var r1 := Dec(e.index) + ("]" + r2);
    var y3 := Yield(e.node) + x;
    var y2 := [Mark(Equal)] + y3;
    var y1 := [NumSym(e.index)] + ([Mark(CloseSqBrk)] + y2);
    assert PrintElem(e, style, level) + rest == "[" + r1;
    assert YieldElem(e) + x == [Mark(OpenSqBrk)] + y1;
    LexMark('[', r1, false, y1);
    LexNumber(e.index, "]" + r2, false, [Mark(CloseSqBrk)] + y2);
    LexMark(']', r2, false, y2);
    LexAssign(style, r3, y3);
    LexPrint(e.node, style, level, rest, x);
  }

  // What a scanner can produce, and so what a parsed tree is made of.

  predicate ScannedSym(y: Sym) {
    match y
    case IdentSym(w) => IsIdentWord(w)
    case NameSym(w) => IsNameWord(w)
    case StrSym(s) => IsBody(s, '\'') || IsBody(s, '"')
    case _ => true
  }

  lemma ScannedToken(u: string, argCtxt: bool)
    ensures var t := ScanToken(u, argCtxt); t.Lexeme? ==> ScannedSym(SymOf(t.kind, t.lex))
  {
    hide IsBody, ScanBody;
    if u != [] && IsQuote(u[0]) {
      QuotedLexeme(u, argCtxt);
    } else if u != [] && !IsMarkChar(u[0]) && IsIdent0(u[0]) {
      var n := 1 + Span(IsIdent, u[1..]);
      ScanWord(u, n, argCtxt);
      assert forall k :: 1 <= k < n ==> u[k] == u[1..][k - 1];
      assert u[..n][0] == u[0];
    }
  }

  lemma {:induction false} ScannedSyms(t: string, argCtxt: bool)
    ensures forall y | y in LexSyms(t, argCtxt) :: ScannedSym(y)
    decreases |t|
  {
    hide ScanToken, Skipped, ScannedSym;
    var u := t[Skipped(t)..];
    var r := ScanToken(u, argCtxt);
    assert ScannedSym(EosSym) && ScannedSym(FaultSym) by {
      ScannedEnds();
    }
    ScannedToken(u, argCtxt);
    if r.Lexeme? && r.kind != Eos {
      ScannedSyms(u[r.len..], r.kind == Dot);
    }
  }

  lemma ScannedEnds()
    ensures ScannedSym(EosSym) && ScannedSym(FaultSym)
  {
  }

  lemma {:induction false} WordsFit(n: TreeNode)
    requires forall y | y in Yield(n) :: ScannedSym(y)
    ensures Fits(n, Words)
    decreases n, 0
  {
    hide IsIdentWord, YieldArgs, ArgsFit;
    assert IdentSym(n.name) in Yield(n);
    ArgWordsFit(n.args);
  }

  lemma {:induction false} ArgWordsFit(a: NodeArgs)
    requires forall y | y in YieldArgs(a) :: ScannedSym(y)
    ensures ArgsFit(a, Words)
    decreases a, 0
  {
    hide ScannedSym;
    if a.ListArgs? {
      ArgWordsFitFrom(a.list, 0);
    }
  }

  lemma {:induction false} ArgWordsFitFrom(list: seq<NodeArg>, k: nat)
    requires k <= |list| && forall y | y in YieldArgsFrom(list, k) :: ScannedSym(y)
    ensures ArgsFitFrom(list, k, Words)
    decreases list, |list| - k
  {
    hide ScannedSym, YieldArg, ArgFits;
    if k < |list| {
      assert YieldArgsFrom(list, k) == YieldArg(list[k]) + YieldArgsFrom(list, k + 1);
      ArgWordFits(list[k]);
      ArgWordsFitFrom(list, k + 1);
    }
  }

  lemma {:induction false} ArgWordFits(a: NodeArg)
    requires forall y | y in YieldArg(a) :: ScannedSym(y)
    ensures ArgFits(a, Words)
    decreases a, 0
  {
    hide IsNameWord, YieldValue, ValueFits;
    assert NameSym(a.name) in YieldArg(a);
    assert forall y | y in YieldValue(a.value) :: y in YieldArg(a);
    ValueWordsFit(a.value);
  }

  lemma {:induction false} ValueWordsFit(v: ArgValue)
    requires forall y | y in YieldValue(v) :: ScannedSym(y)
    ensures ValueFits(v, Words)
    decreases v, 0
  {
    hide IsIdentWord, YieldElemsFrom, Yield, Fits;
    match v
    case NodeValue(n) => WordsFit(n);
    case ListValue(base, elems) =>
      assert IdentSym(base) in YieldValue(v);
      ElemWordsFitFrom(elems, 0);
    case LiteralValue(_) =>
  }

  lemma {:induction false} ElemWordsFitFrom(elems: seq<ListElem>, k: nat)
    requires k <= |elems| && forall y | y in YieldElemsFrom(elems, k) :: ScannedSym(y)
    ensures ElemsFitFrom(elems, k, Words)
    decreases elems, |elems| - k
  {
    hide ScannedSym, YieldElem, ElemFits;
    if k < |elems| {
      assert YieldElemsFrom(elems, k) == YieldElem(elems[k]) + YieldElemsFrom(elems, k + 1);
      ElemWordFits(elems[k]);
      ElemWordsFitFrom(elems, k + 1);
    }
  }

  lemma {:induction false} ElemWordFits(e: ListElem)
    requires forall y | y in YieldElem(e) :: ScannedSym(y)
    ensures ElemFits(e, Words)
    decreases e, 0
  {
    hide ScannedSym, Yield, Fits;
    assert forall y | y in Yield(e.node) :: y in YieldElem(e);
    WordsFit(e.node);
  }

  // The main results on source text.

  /** A tree that was parsed is made of valid words. */
  lemma ParsedWordsFit(raw: string, n: TreeNode)
    requires Parse(raw) == Success(n)
    ensures Fits(n, Words)
  {
    hide Fits, Yield, LexSyms, Grammar.Parse, ScannedSym;
    ParserIsTheGrammar(raw, n);
    ScannedSyms(Folded(raw), false);
    assert forall y | y in Yield(n) :: y in Yield(n) + [EosSym];
    WordsFit(n);
  }

  lemma LexPrintTree(n: TreeNode, style: Style)
    requires style != Pretty(true) && Fits(n, Words)
    ensures LexSyms(Folded(PrintTree(n, style)), false) == Yield(n) + [EosSym] <==> Fits(n, Literals)
  {
    hide Fits, Yield, Print, LexSyms;
    var text := Print(n, style, 0);
    assert Folded(PrintTree(n, style)) == text && text + "" == text;
    LexPrint(n, style, 0, "", [EosSym]);
    LexNothing();
  }

  lemma LexNothing()
    ensures LexSyms("", false) == [EosSym]
  {
  }

  /** Printing and parsing are inverse: a tree of valid words, printed tersely or prettily
      without dots, parses back as itself exactly when each of its literals can stand
      between single quotes. */
  lemma PrintThenParse(n: TreeNode, style: Style)
    requires style != Pretty(true) && Fits(n, Words)
    ensures Parse(PrintTree(n, style)) == Success(n) <==> Fits(n, Literals)
  {
    hide Fits, Yield, PrintTree, LexSyms, Grammar.Parse;
    LexPrintTree(n, style);
    ParserIsTheGrammar(PrintTree(n, style), n);
  }

  /** Printing what was parsed gives text of the same symbols (the same tokens, up to the
      quote kind and the leading zeros of numbers), exactly when the literals fit. */
  lemma ReprintKeepsTokens(raw: string, n: TreeNode, style: Style)
    requires style != Pretty(true) && Parse(raw) == Success(n)
    ensures LexSyms(Folded(PrintTree(n, style)), false) == LexSyms(Folded(raw), false) <==> Fits(n, Literals)
  {
    hide Fits, Yield, PrintTree, LexSyms, Grammar.Parse;
    ParsedWordsFit(raw, n);
    LexPrintTree(n, style);
    ParserIsTheGrammar(raw, n);
  }

  /** With dots in the indentation, the pretty output parses back only when nothing is
      indented. */
  lemma DotsDoNotParse(n: TreeNode)
    requires Fits(n, Words)
    ensures Parse(PrintTree(n, Pretty(true))) == Success(n)
       <==> Fits(n, Literals) && (n.args == ListArgs([]) || n.args.LiteralArgs?)
  {
    hide Fits, Yield, PrintTree, LexSyms, Grammar.Parse;
    var dots, text := Pretty(true), PrintTree(n, Pretty(true));
    if n.args == ListArgs([]) || n.args.LiteralArgs? {
      assert text == PrintTree(n, Pretty(false)) by {
        UnindentedIsUndotted(n);
      }
      PrintThenParse(n, Pretty(false));
    } else {
      DottedSyms(n);
      IndentedYield(n);
      assert (Yield(n) + [EosSym])[3] != Mark(Dot);
      ParserIsTheGrammar(text, n);
    }
  }

  lemma UnindentedIsUndotted(n: TreeNode)
    requires n.args == ListArgs([]) || n.args.LiteralArgs?
    ensures PrintTree(n, Pretty(true)) == PrintTree(n, Pretty(false))
  {
    assert PrintArgs(n.args, Pretty(true), 0) == PrintArgs(n.args, Pretty(false), 0);
  }

  lemma IndentedYield(n: TreeNode)
    requires n.args.ListArgs? && n.args.list != []
    ensures |Yield(n)| > 3 && Yield(n)[3] == NameSym(n.args.list[0].name)
  {
    hide YieldValue;
    assert YieldArgs(n.args) == YieldArg(n.args.list[0]) + YieldArgsFrom(n.args.list, 1);
  }

  /** The dotted text of an indented tree after the dot of its first argument. */
  function DottedRest(n: TreeNode): string
    requires n.args.ListArgs? && n.args.list != []
  {
    var dots, a := Pretty(true), n.args.list[0];
    a.name + Assign(dots) + PrintValue(a.value, dots, 1)
    + (PrintArgsFrom(n.args.list, 1, dots, 1) + Endl(dots, 0) + ")")
  }

  lemma DottedText(n: TreeNode)
    requires n.args.ListArgs? && n.args.list != []
    ensures Folded(PrintTree(n, Pretty(true))) == n.name + ("(" + ("\n" + ("." + ("   " + ("." + DottedRest(n))))))
  {
    hide PrintValue, Endl, Assign;
    var dots, list := Pretty(true), n.args.list;
    var first, tail := PrintArg(list[0], dots, 1), PrintArgsFrom(list, 1, dots, 1);
    var r := tail + Endl(dots, 0) + ")";
    assert PrintArgsFrom(list, 0, dots, 1) == Endl(dots, 1) + first + tail;
    assert PrintArgs(n.args, dots, 0) == Endl(dots, 1) + first + tail + Endl(dots, 0);
    assert first + r == "." + DottedRest(n);
    assert Endl(dots, 1) + first + tail + Endl(dots, 0) + ")" == Endl(dots, 1) + (first + r);
    assert Folded(PrintTree(n, dots)) == n.name + ("(" + (Endl(dots, 1) + ("." + DottedRest(n))));
    FirstDots();
    assert "\n.   " + ("." + DottedRest(n)) == "\n" + ("." + ("   " + ("." + DottedRest(n))));
  }

  lemma FirstDots()
    ensures Endl(Pretty(true), 1) == "\n.   "
  {
    assert Indent(Pretty(true), 1) == ".   " + Indent(Pretty(true), 0);
  }

  lemma DottedSyms(n: TreeNode)
    requires Fits(n, Words) && n.args.ListArgs? && n.args.list != []
    ensures var ss := LexSyms(Folded(PrintTree(n, Pretty(true))), false);
            |ss| > 3 && ss[3] == Mark(Dot)
  {
    hide LexSyms, DottedRest, PrintTree;
    var a := DottedRest(n);
    DottedText(n);
    var x3 := LexSyms(a, true);
    var x2 := [Mark(Dot)] + x3;
    var x1 := [Mark(Dot)] + x2;
    LexMark('.', a, true, x3);
    LexBlanks("   ", "." + a, true);
    LexMark('.', "   " + ("." + a), false, x2);
    LexBlanks("\n", "." + ("   " + ("." + a)), false);
    LexMark('(', "\n" + ("." + ("   " + ("." + a))), false, x1);
    LexWord(n.name, "(" + ("\n" + ("." + ("   " + ("." + a)))), false, [Mark(OpenParen)] + x1);
  }

  /** A comment may follow, if it is the last line: the newline that ends the input is no
      part of it, and any other is refused. */
  lemma LastComment(n: TreeNode, s: string)
    requires Fits(n, Words) && Fits(n, Literals)
    ensures Parse(Print(n, Terse, 0) + ("#" + s)) == Success(n)
       <==> '\n' !in s || (s[|s| - 1] == '\n' && '\n' !in s[..|s| - 1])
  {
    hide Fits, Yield, Print, LexSyms, Grammar.Parse;
    var text, end := Print(n, Terse, 0), "#" + s;
    var rest := Folded(end);
    assert Folded(text + end) == text + rest;
    assert rest == end || rest == "#" + s[..|s| - 1];
    CommentsRunToTheEnd(rest, false);
    LexPrint(n, Terse, 0, rest, [EosSym]);
    ParserIsTheGrammar(text + end, n);
  }

  // Inputs on which printing does not parse back.

  /** A literal may also be written between double quotes; then its text is kept. */
  lemma DoubleQuotedParses(name: string, s: string)
    requires IsIdentWord(name)
    ensures Parse(name + "(\"" + s + "\")") == Success(TreeNode(name, LiteralArgs(s))) <==> IsBody(s, '"')
  {
    hide LexSyms, IsIdentWord, IsBody, Grammar.Parse, Yield;
    var n := TreeNode(name, LiteralArgs(s));
    var text := name + "(\"" + s + "\")";
    var lit := ['"'] + s + ['"'] + ")";
    var y := [StrSym(s)] + ([Mark(CloseParen)] + [EosSym]);
    assert Folded(text) == text && text == name + ("(" + lit);
    assert Yield(n) + [EosSym] == [IdentSym(name)] + ([Mark(OpenParen)] + y) by {
      YieldOfLiteral(name, s);
    }
    IdentKind(name);
    LexWord(name, "(" + lit, false, [Mark(OpenParen)] + y);
    LexMark('(', lit, false, y);
    LexQuoted('"', s, ")", false, [Mark(CloseParen)] + [EosSym]);
    LexNothing();
    assert [')'] + "" == ")";
    LexMark(')', "", false, [EosSym]);
    ParserIsTheGrammar(text, n);
  }

  lemma YieldOfLiteral(name: string, s: string)
    ensures Yield(TreeNode(name, LiteralArgs(s))) + [EosSym]
         == [IdentSym(name)] + ([Mark(OpenParen)] + ([StrSym(s)] + ([Mark(CloseParen)] + [EosSym])))
  {
  }

  /** So an input whose literal holds an unescaped single quote parses to a tree that
      neither printer writes back. */
  lemma QuoteIsLost(name: string, s: string, style: Style)
    requires IsIdentWord(name) && IsBody(s, '"') && !IsBody(s, '\'') && style != Pretty(true)
    ensures var n := TreeNode(name, LiteralArgs(s));
            Parse(name + "(\"" + s + "\")") == Success(n) && Parse(PrintTree(n, style)) != Success(n)
  {
    hide PrintTree, IsIdentWord, IsBody, Grammar.Parse;
    DoubleQuotedParses(name, s);
    PrintThenParse(TreeNode(name, LiteralArgs(s)), style);
  }

  /** An input of this kind: `D("a'b")`. */
  lemma QuoteIsLostInput(style: Style)
    requires style != Pretty(true)
    ensures var n := TreeNode("D", LiteralArgs("a'b"));
            Parse("D(\"a'b\")") == Success(n) && Parse(PrintTree(n, style)) != Success(n)
  {
    hide PrintTree, Grammar.Parse;
    var s := "a'b";
    assert s[0] == 'a' && s[1] == '\'' && s[2] == 'b';
    assert !Escaped(s, 0) && !Escaped(s, 1) && !Escaped(s, 2) && !Escaped(s, 3);
    assert "D"[0] == 'D' && 'D' in "D";
    QuoteIsLost("D", s, style);
    assert "D" + "(\"" + s + "\")" == "D(\"a'b\")";
  }
}
