/** How symbols are spelled, and the language of tree expressions character by character,
    without the scanner. */
module Spelling {
  import opened Wrappers
  import opened Chars
  import opened Syntax
  import opened Numbers
  import opened Lexer
  import G = Grammar
  import opened Printer
  import opened RoundTrip

  /** `w` is a spelling of the symbol. */
  predicate Spells(y: Sym, w: string) {
    match y
    case Mark(OpenParen) => w == "("
    case Mark(CloseParen) => w == ")"
    case Mark(OpenSqBrk) => w == "["
    case Mark(CloseSqBrk) => w == "]"
    case Mark(OpenAngBrk) => w == "<"
    case Mark(CloseAngBrk) => w == ">"
    case Mark(Dot) => w == "."
    case Mark(Equal) => w == "="
    case Mark(KwList) => w == "list"
    case Mark(_) => false
    case IdentSym(x) => w == x && IsIdentWord(w)
    case NameSym(x) => w == x && IsNameWord(w)
    case StrSym(b) => (w == "'" + b + "'" && IsBody(b, '\'')) || (w == "\"" + b + "\"" && IsBody(b, '"'))
    case NumSym(v) => AllDigits(w) && DecValue(w) == v
    case EosSym => false
    case FaultSym => false
  }

  /** Blanks, and then nothing or a comment. */
  predicate EndsHere(t: string) {
    var n := Span(IsSpace, t);
    n == |t| || (t[n] == '#' && '\n' !in t[n..])
  }

  /** The text spells the symbols in order, with blanks between them where one likes. */
  ghost predicate Written(t: string, ss: seq<Sym>)
    decreases |ss|, 1
  {
    && ss != []
    && if ss[0] == EosSym then ss == [EosSym] && EndsHere(t)
       else exists i, j :: 0 <= i <= j <= |t| && WrittenAt(t, ss, i, j)
  }

  ghost predicate WrittenAt(t: string, ss: seq<Sym>, i: nat, j: nat)
    requires ss != [] && i <= j <= |t|
    decreases |ss|, 0
  {
    (forall k :: 0 <= k < i ==> IsSpace(t[k])) && Spells(ss[0], t[i..j]) && Written(t[j..], ss[1..])
  }

  // What is scanned is written.

  /** The scanner takes off the front of a text a spelling of the symbol that it reports. */
  lemma ScanSpells(u: string, argCtxt: bool)
    ensures var t := ScanToken(u, argCtxt);
            t.Lexeme? && t.kind != Eos ==>
              SymOf(t.kind, t.lex) != EosSym && Spells(SymOf(t.kind, t.lex), u[..t.len])
  {
    hide ScanToken, IsBody, DecValue;
    var t := ScanToken(u, argCtxt);
    if u == [] {
      ScanEnd(u, argCtxt);
    } else if IsMarkChar(u[0]) {
      ScanMark(u, argCtxt);
      assert u[..1] == [u[0]];
    } else if IsIdent0(u[0]) {
      WordSpells(u, argCtxt);
    } else if IsQuote(u[0]) {
      QuotedLexeme(u, argCtxt);
      if t.Lexeme? {
        assert u[..t.len] == [u[0]] + t.lex + [u[0]];
      }
    } else if IsDigit(u[0]) {
      var n := Span(IsDigit, u);
      ScanNumber(u, n, argCtxt);
      assert forall k :: 0 <= k < n ==> u[..n][k] == u[k];
    } else {
      ScanNothing(u, argCtxt);
    }
  }

  lemma WordSpells(u: string, argCtxt: bool)
    requires u != [] && IsIdent0(u[0])
    ensures var t := ScanToken(u, argCtxt);
            t.Lexeme? && SymOf(t.kind, t.lex) != EosSym && Spells(SymOf(t.kind, t.lex), u[..t.len])
  {
    hide ScanToken;
    var n := 1 + Span(IsIdent, u[1..]);
    ScanWord(u, n, argCtxt);
    var w := u[..n];
    assert w[0] == u[0];
    forall c | c in w ensures IsIdent(c) {
      var k :| 0 <= k < n && w[k] == c;
      assert k > 0 ==> u[k] == u[1..][k - 1];
    }
  }

  lemma LexStep(t: string, argCtxt: bool)
    ensures var i := Skipped(t);
            var s := ScanToken(t[i..], argCtxt);
            if s.Fault? then LexSyms(t, argCtxt) == [FaultSym]
            else if s.kind == Eos then t[i..] == [] && LexSyms(t, argCtxt) == [EosSym]
            else LexSyms(t, argCtxt) == [SymOf(s.kind, s.lex)] + LexSyms(t[i + s.len..], s.kind == Dot) && s.len > 0
  {
    hide ScanToken, Skipped;
    var i := Skipped(t);
    var s := ScanToken(t[i..], argCtxt);
    ScanEnd(t[i..], argCtxt);
    if s.Lexeme? {
      Suffix(t, i, s.len);
    }
  }

  /** The words of a scanned text are spelled in it one after the other. */
  lemma {:induction false} ScannedIsWritten(t: string, argCtxt: bool)
    requires FaultSym !in LexSyms(t, argCtxt)
    ensures Written(t, LexSyms(t, argCtxt))
    decreases |t|
  {
    hide ScanToken, Spells, IsSpace, LexSyms, Skipped, SymOf;
    var i, ss := Skipped(t), LexSyms(t, argCtxt);
    var s := ScanToken(t[i..], argCtxt);
    LexStep(t, argCtxt);
    if s.Lexeme? && s.kind == Eos {
      NothingMore(t);
    } else if s.Lexeme? {
      var rest := LexSyms(t[i + s.len..], s.kind == Dot);
      assert ss[0] == SymOf(s.kind, s.lex) && ss[1..] == rest;
      assert forall y | y in rest :: y in ss;
      ScannedIsWritten(t[i + s.len..], s.kind == Dot);
      BlanksBefore(t, argCtxt);
      ScanSpells(t[i..], argCtxt);
      Window(t, i, 0, s.len);
      assert WrittenAt(t, ss, i, i + s.len);
    }
  }

  lemma NothingMore(t: string)
    requires t[Skipped(t)..] == []
    ensures EndsHere(t)
  {
    var n := Span(IsSpace, t);
    assert |t| == Skipped(t);
    if n < |t| {
      forall k | 0 <= k < |t| - n ensures t[n..][k] != '\n' {
        if k > 0 {
          assert t[n + k] == t[n + 1..][k - 1];
        }
      }
    }
  }

  /** Whatever follows a comment is no token. */
  lemma AfterComment(t: string, argCtxt: bool)
    ensures Skipped(t) > Span(IsSpace, t) ==>
              var s := ScanToken(t[Skipped(t)..], argCtxt); s.Fault? || s.kind == Eos
  {
    hide ScanToken;
    var n, i := Span(IsSpace, t), Skipped(t);
    if i > n {
      if i == |t| {
        ScanEnd(t[i..], argCtxt);
      } else {
        assert t[i] == t[n + 1..][i - n - 1];
        ScanNothing(t[i..], argCtxt);
      }
    }
  }

  lemma BlanksBefore(t: string, argCtxt: bool)
    requires var s := ScanToken(t[Skipped(t)..], argCtxt); s.Lexeme? && s.kind != Eos
    ensures forall k :: 0 <= k < Skipped(t) ==> IsSpace(t[k])
  {
    hide ScanToken;
    AfterComment(t, argCtxt);
  }

  // What is written is scanned, if words that would run together are kept apart.

  predicate WordLike(y: Sym) {
    y.IdentSym? || y.NameSym? || y.NumSym? || y == Mark(KwList)
  }

  /** No word follows a word, and "list" is a name exactly after a dot. */
  predicate Apart(ss: seq<Sym>, afterDot: bool)
    decreases |ss|
  {
    && ss != []
    && (ss[0] == EosSym ==> ss == [EosSym])
    && (ss[0] != EosSym ==>
          && (ss[0] == Mark(KwList) ==> !afterDot) && (ss[0] == NameSym("list") ==> afterDot)
          && |ss| > 1 && !(WordLike(ss[0]) && WordLike(ss[1]))
          && Apart(ss[1..], ss[0] == Mark(Dot)))
  }

  lemma {:induction false} FirstIsApart(t: string, ss: seq<Sym>)
    requires Written(t, ss) && !WordLike(ss[0])
    ensures t == [] || !IsIdent(t[0])
  {
    if ss[0] != EosSym {
      var i, j :| 0 <= i <= j <= |t| && WrittenAt(t, ss, i, j);
      MarkFront(ss[0], t[i..j]);
      assert i == 0 ==> t[i..j][0] == t[0];
    }
  }

  lemma MarkFront(y: Sym, w: string)
    requires Spells(y, w) && !WordLike(y)
    ensures w != "" && !IsIdent(w[0])
  {
  }

  lemma {:induction false} WrittenIsScanned(t: string, ss: seq<Sym>, argCtxt: bool)
    requires Written(t, ss) && Apart(ss, argCtxt)
    ensures LexSyms(t, argCtxt) == ss
    decreases |ss|
  {
    hide LexSyms, Spells, IsSpace;
    if ss[0] == EosSym {
      EndIsScanned(t, argCtxt);
    } else {
      var i, j :| 0 <= i <= j <= |t| && WrittenAt(t, ss, i, j);
      var ws, w, r := t[..i], t[i..j], t[j..];
      assert t == ws + (w + r);
      LexBlanks(ws, w + r, argCtxt);
      if WordLike(ss[0]) {
        FirstIsApart(r, ss[1..]);
      }
      SpelledIsScanned(ss[0], w, r, argCtxt, ss[1..]);
      WrittenIsScanned(r, ss[1..], ss[0] == Mark(Dot));
      assert ss == [ss[0]] + ss[1..];
    }
  }

  lemma EndIsScanned(t: string, argCtxt: bool)
    requires EndsHere(t)
    ensures LexSyms(t, argCtxt) == [EosSym]
  {
    hide LexSyms;
    var n := Span(IsSpace, t);
    assert t == t[..n] + t[n..];
    LexBlanks(t[..n], t[n..], argCtxt);
    if n == |t| {
      assert t[n..] == "";
      LexStep("", argCtxt);
      ScanEnd("", argCtxt);
    } else {
      CommentsRunToTheEnd(t[n..], argCtxt);
    }
  }

  lemma SpelledIsScanned(y: Sym, w: string, r: string, argCtxt: bool, x: seq<Sym>)
    requires Spells(y, w) && (y == Mark(KwList) ==> !argCtxt) && (y == NameSym("list") ==> argCtxt)
    requires WordLike(y) ==> r == [] || !IsIdent(r[0])
    ensures LexSyms(w + r, argCtxt) == [y] + x <==> LexSyms(r, y == Mark(Dot)) == x
  {
    hide LexSyms, IsBody;
    if y == Mark(KwList) {
      assert IsNameWord("list");
      LexWord(w, r, argCtxt, x);
    } else if y.Mark? {
      MarkSpelling(y, w);
      LexMark(w[0], r, argCtxt, x);
    } else if y.IdentSym? || y.NameSym? {
      LexWord(w, r, argCtxt, x);
    } else if y.NumSym? {
      LexDigits(w, r, argCtxt, x);
    } else if w == "'" + y.body + "'" && IsBody(y.body, '\'') {
      LexQuoted('\'', y.body, r, argCtxt, x);
    } else {
      LexQuoted('"', y.body, r, argCtxt, x);
    }
  }

  lemma MarkSpelling(y: Sym, w: string)
    requires Spells(y, w) && y.Mark? && y != Mark(KwList)
    ensures |w| == 1 && w == [w[0]] && IsMarkChar(w[0]) && MarkOf(w[0]) == y.kind
  {
  }

  // The symbols of a tree stand apart.

  lemma {:induction false} NodeApart(n: TreeNode, x: seq<Sym>)
    requires Apart(x, false)
    ensures Apart(Yield(n) + x, false)
    decreases n, 0
  {
    hide YieldArgs, Apart, Yield;
    var z := YieldArgs(n.args) + ([Mark(CloseParen)] + x);
    NodeArgsApart(n.args, x);
    ApartFront(Mark(OpenParen), z, false);
    ApartFront(IdentSym(n.name), [Mark(OpenParen)] + z, false);
    NodeSyms(n, x);
  }

  lemma NodeSyms(n: TreeNode, x: seq<Sym>)
    ensures Yield(n) + x == [IdentSym(n.name)] + ([Mark(OpenParen)] + (YieldArgs(n.args) + ([Mark(CloseParen)] + x)))
    ensures Yield(n) == [IdentSym(n.name)] + ([Mark(OpenParen)] + (YieldArgs(n.args) + [Mark(CloseParen)]))
  {
    hide YieldArgs;
    Assoc4([IdentSym(n.name), Mark(OpenParen)], YieldArgs(n.args), [Mark(CloseParen)], x);
  }

  lemma {:induction false} NodeArgsApart(a: NodeArgs, x: seq<Sym>)
    requires Apart(x, false)
    ensures var z := YieldArgs(a) + ([Mark(CloseParen)] + x); Apart(z, false) && z != []
    decreases a, 0
  {
    hide YieldArgsFrom, Apart;
    var y := [Mark(CloseParen)] + x;
    NotEmpty(x);
    ApartFront(Mark(CloseParen), x, false);
    match a
    case LiteralArgs(s) => ApartFront(StrSym(s), y, false);
    case ListArgs(list) => ArgsApart(list, 0, y);
  }

  lemma ApartFront(y: Sym, x: seq<Sym>, afterDot: bool)
    requires y != EosSym && (y == Mark(KwList) ==> !afterDot) && (y == NameSym("list") ==> afterDot)
    requires x != [] && !(WordLike(y) && WordLike(x[0])) && Apart(x, y == Mark(Dot))
    ensures Apart([y] + x, afterDot)
  {
    assert ([y] + x)[1..] == x;
  }

  lemma {:induction false} ArgsApart(list: seq<NodeArg>, k: nat, x: seq<Sym>)
    requires k <= |list| && Apart(x, false) && !WordLike(x[0])
    ensures Apart(YieldArgsFrom(list, k) + x, false) && !WordLike((YieldArgsFrom(list, k) + x)[0])
    decreases list, |list| - k
  {
    hide YieldArg, Apart;
    if k == |list| {
      assert [] + x == x;
    } else {
      ArgsApart(list, k + 1, x);
      NotEmpty(YieldArgsFrom(list, k + 1) + x);
      ArgApart(list[k], YieldArgsFrom(list, k + 1) + x);
      Assoc(YieldArg(list[k]), YieldArgsFrom(list, k + 1), x);
    }
  }

  lemma {:induction false} ArgApart(a: NodeArg, x: seq<Sym>)
    requires Apart(x, false) && x != [] && !WordLike(x[0])
    ensures Apart(YieldArg(a) + x, false) && !WordLike((YieldArg(a) + x)[0])
    decreases a, 0
  {
    hide Apart, YieldValue;
    var z := YieldValue(a.value) + x;
    ValueApart(a.value, x);
    ApartFront(Mark(Equal), z, false);
    ApartFront(NameSym(a.name), [Mark(Equal)] + z, true);
    ApartFront(Mark(Dot), [NameSym(a.name)] + ([Mark(Equal)] + z), false);
    assert YieldArg(a) + x == [Mark(Dot)] + ([NameSym(a.name)] + ([Mark(Equal)] + z));
  }

  lemma {:induction false} ValueApart(v: ArgValue, x: seq<Sym>)
    requires Apart(x, false) && x != [] && !WordLike(x[0])
    ensures Apart(YieldValue(v) + x, false) && YieldValue(v) + x != []
    decreases v, 0
  {
    hide Apart, Yield, YieldElemsFrom;
    match v
    case NodeValue(n) => NodeApart(n, x);
    case LiteralValue(s) => ApartFront(StrSym(s), x, false);
    case ListValue(base, elems) => ListApart(base, elems, x);
  }

  lemma {:induction false} ListApart(base: string, elems: seq<ListElem>, x: seq<Sym>)
    requires Apart(x, false) && x != []
    ensures Apart(YieldValue(ListValue(base, elems)) + x, false)
    decreases elems, |elems| + 1
  {
    hide Apart, YieldElemsFrom, YieldValue;
    var y := [Mark(CloseSqBrk)] + x;
    ApartFront(Mark(CloseSqBrk), x, false);
    ElemsApart(elems, 0, y);
    NotEmpty(YieldElemsFrom(elems, 0) + y);
    HeadApart(base, YieldElemsFrom(elems, 0) + y);
    ListSyms(base, elems, x);
  }

  /** A list after the keyword, up to its elements. */
  function ListTail(base: string, z: seq<Sym>): seq<Sym> {
    [Mark(OpenAngBrk)] + ([IdentSym(base)] + ([Mark(CloseAngBrk)] + ([Mark(OpenSqBrk)] + z)))
  }

  function ListFront(base: string, z: seq<Sym>): seq<Sym> {
    [Mark(KwList)] + ListTail(base, z)
  }

  lemma ListSyms(base: string, elems: seq<ListElem>, x: seq<Sym>)
    ensures YieldValue(ListValue(base, elems)) + x
         == ListFront(base, YieldElemsFrom(elems, 0) + ([Mark(CloseSqBrk)] + x))
  {
    hide YieldElemsFrom;
    var front := [Mark(KwList), Mark(OpenAngBrk), IdentSym(base), Mark(CloseAngBrk), Mark(OpenSqBrk)];
    Assoc4(front, YieldElemsFrom(elems, 0), [Mark(CloseSqBrk)], x);
  }

  lemma HeadApart(base: string, z: seq<Sym>)
    requires Apart(z, false) && z != []
    ensures Apart(ListFront(base, z), false)
  {
    hide Apart;
    var y1 := [Mark(OpenSqBrk)] + z;
    ApartFront(Mark(OpenSqBrk), z, false);
    var y2 := [Mark(CloseAngBrk)] + y1;
    ApartFront(Mark(CloseAngBrk), y1, false);
    var y3 := [IdentSym(base)] + y2;
    ApartFront(IdentSym(base), y2, false);
    ApartFront(Mark(OpenAngBrk), y3, false);
    ApartFront(Mark(KwList), [Mark(OpenAngBrk)] + y3, false);
  }

  lemma {:induction false} ElemsApart(elems: seq<ListElem>, k: nat, x: seq<Sym>)
    requires k <= |elems| && Apart(x, false)
    ensures Apart(YieldElemsFrom(elems, k) + x, false)
    decreases elems, |elems| - k
  {
    hide Apart, YieldElem;
    if k == |elems| {
      assert [] + x == x;
    } else {
      ElemsApart(elems, k + 1, x);
      ElemApart(elems[k], YieldElemsFrom(elems, k + 1) + x);
      Assoc(YieldElem(elems[k]), YieldElemsFrom(elems, k + 1), x);
    }
  }

  lemma {:induction false} ElemApart(e: ListElem, x: seq<Sym>)
    requires Apart(x, false)
    ensures Apart(YieldElem(e) + x, false)
    decreases e, 0
  {
    hide Apart, Yield;
    var z := Yield(e.node) + x;
    NodeApart(e.node, x);
    ElemSyms(e, x);
    NotEmpty(z);
    ApartFront(Mark(Equal), z, false);
    ApartFront(Mark(CloseSqBrk), [Mark(Equal)] + z, false);
    ApartFront(NumSym(e.index), [Mark(CloseSqBrk)] + ([Mark(Equal)] + z), false);
    ApartFront(Mark(OpenSqBrk), [NumSym(e.index)] + ([Mark(CloseSqBrk)] + ([Mark(Equal)] + z)), false);
  }

  lemma ElemSyms(e: ListElem, x: seq<Sym>)
    ensures YieldElem(e) + x
         == [Mark(OpenSqBrk)] + ([NumSym(e.index)] + ([Mark(CloseSqBrk)] + ([Mark(Equal)] + (Yield(e.node) + x))))
  {
    hide Yield;
    Assoc([Mark(OpenSqBrk), NumSym(e.index), Mark(CloseSqBrk), Mark(Equal)], Yield(e.node), x);
  }

  lemma NotEmpty(x: seq<Sym>)
    requires Apart(x, false)
    ensures x != []
  {
  }

  // The language, and the terse text of a tree, by spelling.

  /** The parser accepts exactly the texts in which the symbols of a tree are spelled in
      order, with blanks between them where one likes and nothing or a comment at the end;
      and it returns that tree. */
  lemma ParserIsTheLanguage(raw: string, n: TreeNode)
    ensures G.Parse(raw) == Success(n) <==> Written(G.Folded(raw), Yield(n) + [EosSym])
  {
    hide G.Parse, LexSyms, Yield, Written, Apart;
    var text, ss := G.Folded(raw), Yield(n) + [EosSym];
    G.ParserIsTheGrammar(raw, n);
    NoFault(n);
    if LexSyms(text, false) == ss {
      ScannedIsWritten(text, false);
    }
    EosIsApart();
    NodeApart(n, [EosSym]);
    if Written(text, ss) {
      WrittenIsScanned(text, ss, false);
    }
  }

  lemma EosIsApart()
    ensures Apart([EosSym], false)
  {
  }

  /** A symbol that a sentence may hold before its end. */
  predicate Solid(y: Sym) {
    y != EosSym && y != FaultSym && (y.Mark? ==> y.kind in MARKS) && (y.NumSym? ==> y.value < 256)
  }

  const MARKS := {OpenParen, CloseParen, OpenSqBrk, CloseSqBrk, OpenAngBrk, CloseAngBrk, Dot, Equal, KwList}

  lemma NoFault(n: TreeNode)
    ensures FaultSym !in Yield(n) + [EosSym]
  {
    hide Yield;
    NodeIsSolid(n);
  }

  lemma {:induction false} NodeIsSolid(n: TreeNode)
    ensures forall y | y in Yield(n) :: Solid(y)
    decreases n, 0
  {
    hide YieldArgsFrom;
    if n.args.ListArgs? {
      ArgsAreSolid(n.args.list, 0);
    }
  }

  lemma {:induction false} ArgsAreSolid(list: seq<NodeArg>, k: nat)
    requires k <= |list|
    ensures forall y | y in YieldArgsFrom(list, k) :: Solid(y)
    decreases list, |list| - k
  {
    hide YieldArg, Solid;
    if k < |list| {
      ArgIsSolid(list[k]);
      ArgsAreSolid(list, k + 1);
    }
  }

  lemma {:induction false} ArgIsSolid(a: NodeArg)
    ensures forall y | y in YieldArg(a) :: Solid(y)
    decreases a, 0
  {
    hide Yield, YieldElemsFrom;
    match a.value
    case NodeValue(n) => NodeIsSolid(n);
    case LiteralValue(_) =>
    case ListValue(_, elems) => ElemsAreSolid(elems, 0);
  }

  lemma {:induction false} ElemsAreSolid(elems: seq<ListElem>, k: nat)
    requires k <= |elems|
    ensures forall y | y in YieldElemsFrom(elems, k) :: Solid(y)
    decreases elems, |elems| - k
  {
    hide YieldElem, Solid;
    if k < |elems| {
      ElemIsSolid(elems[k]);
      ElemsAreSolid(elems, k + 1);
    }
  }

  lemma {:induction false} ElemIsSolid(e: ListElem)
    ensures forall y | y in YieldElem(e) :: Solid(y)
    decreases e, 0
  {
    hide Yield;
    NodeIsSolid(e.node);
  }

  // The terse text of a tree.

  /** The spelling that the printers choose: single quotes, no leading zeros. */
  function Chosen(y: Sym): string {
    match y
    case Mark(OpenParen) => "("
    case Mark(CloseParen) => ")"
    case Mark(OpenSqBrk) => "["
    case Mark(CloseSqBrk) => "]"
    case Mark(OpenAngBrk) => "<"
    case Mark(CloseAngBrk) => ">"
    case Mark(Dot) => "."
    case Mark(Equal) => "="
    case Mark(KwList) => "list"
    case Mark(_) => ""
    case IdentSym(x) => x
    case NameSym(x) => x
    case StrSym(b) => "'" + b + "'"
    case NumSym(v) => Dec(v)
    case EosSym => ""
    case FaultSym => ""
  }

  function Spelled(ss: seq<Sym>): string {
    if ss == [] then "" else Chosen(ss[0]) + Spelled(ss[1..])
  }

  lemma {:induction false} SpelledBoth(a: seq<Sym>, b: seq<Sym>)
    ensures Spelled(a + b) == Spelled(a) + Spelled(b)
    decreases |a|
  {
    hide Chosen;
    if a == [] {
      assert a + b == b;
    } else {
      SpelledBoth(a[1..], b);
      assert (a + b)[0] == a[0] && (a + b)[1..] == a[1..] + b;
    }
  }

  lemma SpelledFront(y: Sym, x: seq<Sym>)
    ensures Spelled([y] + x) == Chosen(y) + Spelled(x)
  {
    hide Chosen;
    assert ([y] + x)[1..] == x;
  }

  lemma SpelledNone()
    ensures Spelled([]) == ""
  {
  }

  lemma SpelledOne(y: Sym)
    ensures Spelled([y]) == Chosen(y)
  {
    hide Chosen;
    assert [y][1..] == [];
  }

  /** The terse text of a tree is its symbols in their chosen spelling, with nothing between
      them. */
  lemma {:induction false} TerseIsSpelled(n: TreeNode, level: nat)
    ensures Print(n, Terse, level) == Spelled(Yield(n))
    decreases n, 0
  {
    hide Spelled, PrintArgsFrom, YieldArgsFrom;
    var y := YieldArgs(n.args);
    match n.args {
      case LiteralArgs(s) => SpelledOne(StrSym(s));
      case ListArgs(list) => ArgsAreSpelled(list, 0, level + 1);
    }
    assert Yield(n) == [IdentSym(n.name)] + ([Mark(OpenParen)] + (y + [Mark(CloseParen)]));
    SpelledFront(IdentSym(n.name), [Mark(OpenParen)] + (y + [Mark(CloseParen)]));
    SpelledFront(Mark(OpenParen), y + [Mark(CloseParen)]);
    SpelledBoth(y, [Mark(CloseParen)]);
    SpelledOne(Mark(CloseParen));
    assert PrintArgs(n.args, Terse, level) == Spelled(y);
  }

  lemma {:induction false} ArgsAreSpelled(list: seq<NodeArg>, k: nat, level: nat)
    requires k <= |list|
    ensures PrintArgsFrom(list, k, Terse, level) == Spelled(YieldArgsFrom(list, k))
    decreases list, |list| - k
  {
    hide PrintArg, YieldArg, Spelled;
    if k == |list| {
      SpelledNone();
    } else {
      ArgIsSpelled(list[k], level);
      ArgsAreSpelled(list, k + 1, level);
      SpelledBoth(YieldArg(list[k]), YieldArgsFrom(list, k + 1));
      assert "" + PrintArg(list[k], Terse, level) == PrintArg(list[k], Terse, level);
    }
  }

  lemma {:induction false} ArgIsSpelled(a: NodeArg, level: nat)
    ensures PrintArg(a, Terse, level) == Spelled(YieldArg(a))
    decreases a, 0
  {
    hide Spelled, Print, Yield;
    var y := YieldValue(a.value);
    match a.value {
      case NodeValue(n) => TerseIsSpelled(n, level);
      case LiteralValue(s) => SpelledOne(StrSym(s));
      case ListValue(base, elems) => ListIsSpelled(base, elems, level);
    }
    assert YieldArg(a) == [Mark(Dot)] + ([NameSym(a.name)] + ([Mark(Equal)] + y));
    SpelledFront(Mark(Dot), [NameSym(a.name)] + ([Mark(Equal)] + y));
    SpelledFront(NameSym(a.name), [Mark(Equal)] + y);
    SpelledFront(Mark(Equal), y);
    assert PrintValue(a.value, Terse, level) == Spelled(y);
  }

  lemma {:induction false} ListIsSpelled(base: string, elems: seq<ListElem>, level: nat)
    ensures PrintValue(ListValue(base, elems), Terse, level) == Spelled(YieldValue(ListValue(base, elems)))
    decreases elems, |elems| + 1
  {
    hide Spelled, PrintElemsFrom, YieldElemsFrom, YieldValue;
    var z := YieldElemsFrom(elems, 0) + [Mark(CloseSqBrk)];
    ElemsAreSpelled(elems, 0, level + 1);
    SpelledBoth(YieldElemsFrom(elems, 0), [Mark(CloseSqBrk)]);
    SpelledOne(Mark(CloseSqBrk));
    ListSyms(base, elems, []);
    assert [Mark(CloseSqBrk)] + [] == [Mark(CloseSqBrk)];
    assert YieldValue(ListValue(base, elems)) + [] == YieldValue(ListValue(base, elems));
    FrontIsSpelled(base, z);
    ListEnds(base, PrintElemsFrom(elems, 0, Terse, level + 1));
  }

  lemma FrontIsSpelled(base: string, z: seq<Sym>)
    ensures Spelled(ListFront(base, z)) == "list" + ("<" + (base + (">" + ("[" + Spelled(z)))))
  {
    hide Spelled;
    SpelledFront(Mark(OpenSqBrk), z);
    SpelledFront(Mark(CloseAngBrk), [Mark(OpenSqBrk)] + z);
    SpelledFront(IdentSym(base), [Mark(CloseAngBrk)] + ([Mark(OpenSqBrk)] + z));
    SpelledFront(Mark(OpenAngBrk), [IdentSym(base)] + ([Mark(CloseAngBrk)] + ([Mark(OpenSqBrk)] + z)));
    SpelledFront(Mark(KwList), ListTail(base, z));
  }

  lemma ListEnds(base: string, body: string)
    ensures "list<" + base + ">" + "" + "[" + body + "" + "]" == "list" + ("<" + (base + (">" + ("[" + (body + "]")))))
  {
    Reassociate(base, "", body, "", "");
    assert "]" + "" == "]" && "" + "]" == "]" && "" + ("[" + (body + "]")) == "[" + (body + "]");
    var t := "list<" + base + ">" + "" + "[" + body + "" + "]";
    assert t + "" == t;
  }

  lemma {:induction false} ElemsAreSpelled(elems: seq<ListElem>, k: nat, level: nat)
    requires k <= |elems|
    ensures PrintElemsFrom(elems, k, Terse, level) == Spelled(YieldElemsFrom(elems, k))
    decreases elems, |elems| - k
  {
    hide PrintElem, YieldElem, Spelled;
    if k == |elems| {
      SpelledNone();
    } else {
      ElemIsSpelled(elems[k], level);
      ElemsAreSpelled(elems, k + 1, level);
      SpelledBoth(YieldElem(elems[k]), YieldElemsFrom(elems, k + 1));
      assert "" + PrintElem(elems[k], Terse, level) == PrintElem(elems[k], Terse, level);
    }
  }

  lemma {:induction false} ElemIsSpelled(e: ListElem, level: nat)
    ensures PrintElem(e, Terse, level) == Spelled(YieldElem(e))
    decreases e, 0
  {
    hide Spelled, Print, Yield, Dec;
    var y := Yield(e.node);
    TerseIsSpelled(e.node, level);
    assert YieldElem(e) == [Mark(OpenSqBrk)] + ([NumSym(e.index)] + ([Mark(CloseSqBrk)] + ([Mark(Equal)] + y)));
    SpelledFront(Mark(OpenSqBrk), [NumSym(e.index)] + ([Mark(CloseSqBrk)] + ([Mark(Equal)] + y)));
    SpelledFront(NumSym(e.index), [Mark(CloseSqBrk)] + ([Mark(Equal)] + y));
    SpelledFront(Mark(CloseSqBrk), [Mark(Equal)] + y);
    SpelledFront(Mark(Equal), y);
  }

  /** Every accepted text spells, symbol by symbol, what the terse print of its tree spells:
      the two differ in the blanks between symbols, a last comment, the quotes of literals
      and the leading zeros of numbers. */
  lemma AcceptedTextIsTheTersePrint(raw: string, n: TreeNode)
    requires G.Parse(raw) == Success(n)
    ensures Written(G.Folded(raw), Yield(n) + [EosSym]) && Print(n, Terse, 0) == Spelled(Yield(n))
  {
    hide Written, Yield, Print, Spelled, G.Parse;
    ParserIsTheLanguage(raw, n);
    TerseIsSpelled(n, 0);
  }
}
