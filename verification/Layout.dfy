/** How pretty output is laid out, read off its characters alone. */
module Layout {
  import opened Wrappers
  import opened Chars
  import opened Syntax
  import opened Numbers
  import opened Lexer
  import opened Printer

  /** Where a reader of pretty output is: between words (`Word`); after a blank that comes
      before a sign or a bracket; after a sign; in a literal, perhaps after a backslash; or
      after `n` characters of a new line. */
  datatype Mode = Word | Gap | Sign | Literal(escape: bool) | Margin(n: nat)

  /** The brackets that are open, each with whether a line was broken inside it. */
  datatype Reader = Reader(open: seq<bool>, mode: Mode)

  /** The indentation repeats four blanks, or a dot and three blanks. */
  function MarginChar(dots: bool, n: nat): char {
    if dots && n % 4 == 0 then '.' else ' '
  }

  predicate Closes(c: char) {
    c == ')' || c == ']'
  }

  /** What may come next. A new line is indented by four characters for each open bracket,
      and starts with an argument or a list element, which start nowhere else; or it is
      indented by four less, and starts with the bracket that closes the innermost one. A
      bracket is closed on a new line exactly when a line was broken inside it. A sign stands
      between two blanks, and a list bracket after one. */
  function Read(r: Reader, c: char, dots: bool): Option<Reader> {
    var depth := |r.open|;
    match r.mode
    case Word =>
      if c == '(' then Some(Reader(r.open + [false], Word))
      else if Closes(c) then
        if depth > 0 && !r.open[depth - 1] then Some(Reader(r.open[..depth - 1], Word)) else None
      else if c == '\n' then
        if depth > 0 then Some(Reader(r.open[..depth - 1] + [true], Margin(0))) else None
      else if c == ' ' then Some(r.(mode := Gap))
      else if c == '\'' then Some(r.(mode := Literal(false)))
      else if c == '.' || c == '[' || c == '=' then None
      else Some(r)
    case Gap =>
      if c == '=' then Some(r.(mode := Sign))
      else if c == '[' then Some(Reader(r.open + [false], Word))
      else None
    case Sign => if c == ' ' then Some(r.(mode := Word)) else None
    case Literal(escape) =>
      if c == '\n' then None
      else if escape then Some(r.(mode := Literal(false)))
      else if c == '\'' then Some(r.(mode := Word))
      else Some(r.(mode := Literal(c == '\\')))
    case Margin(n) =>
      if n == 4 * (depth - 1) && Closes(c) then Some(Reader(r.open[..depth - 1], Word))
      else if n < 4 * depth then
        if c == MarginChar(dots, n) then Some(r.(mode := Margin(n + 1))) else None
      else if c == '.' then Some(r.(mode := Word))
      else if c == '[' then Some(Reader(r.open + [false], Word))
      else None
  }

  function ReadAll(r: Reader, t: string, dots: bool): Option<Reader>
    decreases |t|
  {
    if t == "" then Some(r)
    else
      match Read(r, t[0], dots)
      case None => None
      case Some(q) => ReadAll(q, t[1..], dots)
  }

  lemma {:induction false} ReadBoth(r: Reader, a: string, b: string, dots: bool)
    ensures ReadAll(r, a + b, dots)
         == match ReadAll(r, a, dots) case None => None case Some(q) => ReadAll(q, b, dots)
    decreases |a|
  {
    hide Read;
    if a == "" {
      assert a + b == b;
    } else {
      assert (a + b)[0] == a[0] && (a + b)[1..] == a[1..] + b;
      if Read(r, a[0], dots).Some? {
        ReadBoth(Read(r, a[0], dots).value, a[1..], b, dots);
      }
    }
  }

  /** `a` leads from `r` to `q`, and `b` on to `z`. */
  lemma Then(r: Reader, a: string, q: Reader, b: string, z: Reader, dots: bool)
    requires ReadAll(r, a, dots) == Some(q) && ReadAll(q, b, dots) == Some(z)
    ensures ReadAll(r, a + b, dots) == Some(z)
  {
    hide Read, ReadAll;
    ReadBoth(r, a, b, dots);
  }

  lemma One(r: Reader, c: char, dots: bool)
    ensures ReadAll(r, [c], dots) == Read(r, c, dots)
  {
    hide Read;
    assert [c][1..] == "";
    if Read(r, c, dots).Some? {
      assert ReadAll(Read(r, c, dots).value, "", dots) == Read(r, c, dots);
    }
  }

  /** Reading `t` leads from `r` to `q`, for either form of indentation. */
  predicate Leads(r: Reader, t: string, q: Reader, dots: bool) {
    ReadAll(r, t, dots) == Some(q)
  }

  // Words, signs and literals.

  predicate Wordy(w: string) {
    forall c | c in w :: IsIdent(c) || c == '<' || c == '>'
  }

  lemma {:induction false} WordsRead(open: seq<bool>, w: string, dots: bool)
    requires Wordy(w)
    ensures Leads(Reader(open, Word), w, Reader(open, Word), dots)
    decreases |w|
  {
    if w != "" {
      assert w[0] in w && forall c | c in w[1..] :: c in w;
      WordsRead(open, w[1..], dots);
    }
  }

  lemma SignReads(open: seq<bool>, dots: bool)
    ensures Leads(Reader(open, Word), " = ", Reader(open, Word), dots)
  {
    var t := " = ";
    assert t[1..] == "= " && t[1..][1..] == " " && t[1..][1..][1..] == "";
  }

  lemma {:induction false} BodyReads(open: seq<bool>, s: string, dots: bool)
    requires IsBody(s, '\'')
    ensures Leads(Reader(open, Literal(false)), s, Reader(open, Literal(false)), dots)
    decreases |s|
  {
    hide IsBody, Read, ReadAll;
    var r := Reader(open, Literal(false));
    if s == "" {
      NothingReads(r, dots);
    } else {
      BodyPiece(s);
      var n := if s[0] == '\\' then 2 else 1;
      BodyFront(s, '\'', n);
      BodyReads(open, s[n..], dots);
      PieceReads(open, s[..n], dots);
      Then(r, s[..n], r, s[n..], r, dots);
      assert s[..n] + s[n..] == s;
    }
  }

  lemma NothingReads(r: Reader, dots: bool)
    ensures Leads(r, "", r, dots)
  {
  }

  lemma BodyPiece(s: string)
    requires s != "" && IsBody(s, '\'')
    ensures s[0] == '\\' ==> |s| > 1
  {
    assert !Escaped(s, 0);
    assert s[0] == '\\' ==> Escaped(s, 1);
  }

  lemma PieceReads(open: seq<bool>, p: string, dots: bool)
    requires (|p| == 1 && IsInner(p[0], '\'')) || (|p| == 2 && p[0] == '\\' && p[1] != '\n')
    ensures Leads(Reader(open, Literal(false)), p, Reader(open, Literal(false)), dots)
  {
    hide ReadAll;
    var r, q := Reader(open, Literal(false)), Reader(open, Literal(true));
    One(r, p[0], dots);
    if |p| == 1 {
      assert p == [p[0]];
    } else {
      One(q, p[1], dots);
      Then(r, [p[0]], q, [p[1]], r, dots);
      assert p == [p[0]] + [p[1]];
    }
  }

  lemma LiteralReads(open: seq<bool>, s: string, dots: bool)
    requires IsBody(s, '\'')
    ensures Leads(Reader(open, Word), "'" + s + "'", Reader(open, Word), dots)
  {
    hide IsBody, ReadAll;
    var r, q := Reader(open, Word), Reader(open, Literal(false));
    One(r, '\'', dots);
    One(q, '\'', dots);
    BodyReads(open, s, dots);
    Then(r, "'", q, s, q, dots);
    Then(r, "'" + s, q, "'", r, dots);
  }

  // Line breaks.

  lemma {:induction false} IndentReads(open: seq<bool>, i: nat, level: nat, dots: bool)
    requires i + level <= |open|
    ensures Leads(Reader(open, Margin(4 * i)), Indent(Pretty(dots), level), Reader(open, Margin(4 * (i + level))), dots)
    decreases level
  {
    hide ReadAll;
    var r := Reader(open, Margin(4 * i));
    if level == 0 {
      NothingReads(r, dots);
    } else {
      var q := Reader(open, Margin(4 * (i + 1)));
      IndentReads(open, i + 1, level - 1, dots);
      UnitReads(open, i, dots);
      Then(r, if dots then ".   " else "    ", q, Indent(Pretty(dots), level - 1),
           Reader(open, Margin(4 * (i + level))), dots);
    }
  }

  lemma UnitReads(open: seq<bool>, i: nat, dots: bool)
    requires i < |open|
    ensures Leads(Reader(open, Margin(4 * i)), if dots then ".   " else "    ", Reader(open, Margin(4 * (i + 1))), dots)
  {
    var t := if dots then ".   " else "    ";
    var t1 := t[1..];
    var t2 := t1[1..];
    var t3 := t2[1..];
    assert t[0] == MarginChar(dots, 4 * i) && t1 == "   " && t2 == "  " && t3 == " " && t3[1..] == "";
    assert Read(Reader(open, Margin(4 * i + 3)), ' ', dots) == Some(Reader(open, Margin(4 * i + 4)));
    assert ReadAll(Reader(open, Margin(4 * i + 3)), t3, dots) == Some(Reader(open, Margin(4 * i + 4)));
    assert ReadAll(Reader(open, Margin(4 * i + 2)), t2, dots) == Some(Reader(open, Margin(4 * i + 4)));
    assert ReadAll(Reader(open, Margin(4 * i + 1)), t1, dots) == Some(Reader(open, Margin(4 * i + 4)));
  }

  /** A break before an argument, an element or the closing bracket. */
  lemma BreakReads(open: seq<bool>, b: bool, level: nat, dots: bool)
    requires level <= |open| + 1
    ensures Leads(Reader(open + [b], Word), Endl(Pretty(dots), level), Reader(open + [true], Margin(4 * level)), dots)
  {
    hide ReadAll, Indent;
    var r, q := Reader(open + [b], Word), Reader(open + [true], Margin(0));
    assert (open + [b])[..|open|] == open;
    One(r, '\n', dots);
    IndentReads(open + [true], 0, level, dots);
    Then(r, "\n", q, Indent(Pretty(dots), level), Reader(open + [true], Margin(4 * level)), dots);
  }

  // Whole trees.

  lemma {:induction false} NodeReads(n: TreeNode, open: seq<bool>, dots: bool)
    requires Fits(n, Words) && Fits(n, Literals)
    ensures Leads(Reader(open, Word), Print(n, Pretty(dots), |open|), Reader(open, Word), dots)
    decreases n, 0
  {
    hide ReadAll, Read, IsBody, IsIdentWord, ArgsFit, PrintArgs;
    var r, q, style := Reader(open, Word), Reader(open + [false], Word), Pretty(dots);
    NameIsWordy(n.name);
    WordsRead(open, n.name, dots);
    OpenReads(open, dots);
    Then(r, n.name, r, "(", q, dots);
    ArgsRead(n.args, open, dots);
    Then(r, n.name + "(", q, PrintArgs(n.args, style, |open|) + ")", r, dots);
    Assoc(n.name + "(", PrintArgs(n.args, style, |open|), ")");
  }

  lemma NameIsWordy(w: string)
    requires IsIdentWord(w) || IsNameWord(w)
    ensures Wordy(w)
  {
  }

  lemma OpenReads(open: seq<bool>, dots: bool)
    ensures Leads(Reader(open, Word), "(", Reader(open + [false], Word), dots)
  {
    One(Reader(open, Word), '(', dots);
  }

  /** A bracket closes on its own line when a line was broken, and else where it is. */
  lemma CloseReads(open: seq<bool>, c: char, broken: bool, dots: bool)
    requires Closes(c)
    ensures var mode := if broken then Margin(4 * |open|) else Word;
            Leads(Reader(open + [broken], mode), [c], Reader(open, Word), dots)
  {
    assert (open + [broken])[..|open|] == open;
    One(Reader(open + [broken], if broken then Margin(4 * |open|) else Word), c, dots);
  }

  lemma {:induction false} ArgsRead(a: NodeArgs, open: seq<bool>, dots: bool)
    requires ArgsFit(a, Words) && ArgsFit(a, Literals)
    ensures Leads(Reader(open + [false], Word), PrintArgs(a, Pretty(dots), |open|) + ")", Reader(open, Word), dots)
    decreases a, 0
  {
    hide ReadAll, Read, IsBody, ArgsFitFrom, PrintArgsFrom, Endl;
    var r, z := Reader(open + [false], Word), Reader(open, Word);
    match a
    case LiteralArgs(s) =>
      LiteralReads(open + [false], s, dots);
      CloseReads(open, ')', false, dots);
      Then(r, "'" + s + "'", r, ")", z, dots);
    case ListArgs(list) =>
      ArgListReads(list, 0, open, false, dots);
      ClosingReads(open, PrintArgsFrom(list, 0, Pretty(dots), |open| + 1), ')', list != [], dots);
  }

  /** Contents, with a break before the bracket when there are any. */
  lemma ClosingReads(open: seq<bool>, body: string, c: char, broken: bool, dots: bool)
    requires Closes(c)
    requires Leads(Reader(open + [false], Word), body, Reader(open + [broken], Word), dots)
    ensures var end := if broken then Endl(Pretty(dots), |open|) else "";
            Leads(Reader(open + [false], Word), body + end + [c], Reader(open, Word), dots)
  {
    hide ReadAll, Read, Endl;
    var r, q, z := Reader(open + [false], Word), Reader(open + [broken], Word), Reader(open, Word);
    CloseReads(open, c, broken, dots);
    if broken {
      var end, m := Endl(Pretty(dots), |open|), Reader(open + [true], Margin(4 * |open|));
      BreakReads(open, true, |open|, dots);
      Then(r, body, q, end, m, dots);
      Then(r, body + end, m, [c], z, dots);
    } else {
      assert body + "" == body;
      Then(r, body, q, [c], z, dots);
    }
  }

  lemma {:induction false} ArgListReads(list: seq<NodeArg>, k: nat, open: seq<bool>, b: bool, dots: bool)
    requires k <= |list| && ArgsFitFrom(list, k, Words) && ArgsFitFrom(list, k, Literals)
    ensures Leads(Reader(open + [b], Word), PrintArgsFrom(list, k, Pretty(dots), |open| + 1),
                  Reader(open + [b || k < |list|], Word), dots)
    decreases list, |list| - k
  {
    hide ReadAll, Read, ArgFits, PrintArg, Endl;
    var r := Reader(open + [b], Word);
    if k == |list| {
      NothingReads(r, dots);
    } else {
      var style, level := Pretty(dots), |open| + 1;
      var m, q := Reader(open + [true], Margin(4 * level)), Reader(open + [true], Word);
      BreakReads(open, b, level, dots);
      ArgReads(list[k], open + [true], dots);
      ArgListReads(list, k + 1, open, true, dots);
      Then(r, Endl(style, level), m, PrintArg(list[k], style, level), q, dots);
      Then(r, Endl(style, level) + PrintArg(list[k], style, level), q, PrintArgsFrom(list, k + 1, style, level), q,
           dots);
    }
  }

  lemma {:induction false} ArgReads(a: NodeArg, open: seq<bool>, dots: bool)
    requires ArgFits(a, Words) && ArgFits(a, Literals)
    ensures Leads(Reader(open, Margin(4 * |open|)), PrintArg(a, Pretty(dots), |open|), Reader(open, Word), dots)
    decreases a, 0
  {
    hide ReadAll, IsNameWord, ValueFits, PrintValue;
    var r, q := Reader(open, Margin(4 * |open|)), Reader(open, Word);
    One(r, '.', dots);
    NameIsWordy(a.name);
    WordsRead(open, a.name, dots);
    SignReads(open, dots);
    ValueReads(a.value, open, dots);
    Then(r, ".", q, a.name, q, dots);
    Then(r, "." + a.name, q, " = ", q, dots);
    Then(r, "." + a.name + " = ", q, PrintValue(a.value, Pretty(dots), |open|), q, dots);
  }

  lemma {:induction false} ValueReads(v: ArgValue, open: seq<bool>, dots: bool)
    requires ValueFits(v, Words) && ValueFits(v, Literals)
    ensures Leads(Reader(open, Word), PrintValue(v, Pretty(dots), |open|), Reader(open, Word), dots)
    decreases v, 0
  {
    hide ReadAll, IsBody, Fits, ElemsFitFrom, Print, PrintElemsFrom, Endl, IsIdentWord;
    match v
    case NodeValue(n) => NodeReads(n, open, dots);
    case LiteralValue(s) => LiteralReads(open, s, dots);
    case ListValue(base, elems) =>
      var body := PrintElemsFrom(elems, 0, Pretty(dots), |open| + 1);
      var end := if elems == [] then "" else Endl(Pretty(dots), |open|);
      ListOpens(base, open, dots);
      ElemListReads(elems, 0, open, false, dots);
      ClosingReads(open, body, ']', elems != [], dots);
      Then(Reader(open, Word), "list<" + base + "> [", Reader(open + [false], Word), body + end + "]",
           Reader(open, Word), dots);
      ListIs(base, body, end);
  }

  lemma ListIs(base: string, body: string, end: string)
    ensures "list<" + base + ">" + " " + "[" + body + end + "]" == "list<" + base + "> [" + (body + end + "]")
  {
    assert "list<" + base + ">" + " " + "[" == "list<" + base + "> [";
    Assoc("list<" + base + "> [", body, end);
    Assoc("list<" + base + "> [", body + end, "]");
  }

  lemma ListOpens(base: string, open: seq<bool>, dots: bool)
    requires IsIdentWord(base)
    ensures Leads(Reader(open, Word), "list<" + base + "> [", Reader(open + [false], Word), dots)
  {
    hide ReadAll;
    var r := Reader(open, Word);
    NameIsWordy(base);
    assert Wordy("list<" + base + ">");
    WordsRead(open, "list<" + base + ">", dots);
    One(r, ' ', dots);
    One(Reader(open, Gap), '[', dots);
    Then(r, " ", Reader(open, Gap), "[", Reader(open + [false], Word), dots);
    Then(r, "list<" + base + ">", r, " " + "[", Reader(open + [false], Word), dots);
    assert "list<" + base + ">" + (" " + "[") == "list<" + base + "> [";
  }

  lemma {:induction false} ElemListReads(elems: seq<ListElem>, k: nat, open: seq<bool>, b: bool, dots: bool)
    requires k <= |elems| && ElemsFitFrom(elems, k, Words) && ElemsFitFrom(elems, k, Literals)
    ensures Leads(Reader(open + [b], Word), PrintElemsFrom(elems, k, Pretty(dots), |open| + 1),
                  Reader(open + [b || k < |elems|], Word), dots)
    decreases elems, |elems| - k
  {
    hide ReadAll, Read, ElemFits, PrintElem, Endl;
    var r := Reader(open + [b], Word);
    if k == |elems| {
      NothingReads(r, dots);
    } else {
      var style, level := Pretty(dots), |open| + 1;
      var m, q := Reader(open + [true], Margin(4 * level)), Reader(open + [true], Word);
      BreakReads(open, b, level, dots);
      ElemReads(elems[k], open + [true], dots);
      ElemListReads(elems, k + 1, open, true, dots);
      Then(r, Endl(style, level), m, PrintElem(elems[k], style, level), q, dots);
      Then(r, Endl(style, level) + PrintElem(elems[k], style, level), q, PrintElemsFrom(elems, k + 1, style, level), q,
           dots);
    }
  }

  lemma {:induction false} ElemReads(e: ListElem, open: seq<bool>, dots: bool)
    requires ElemFits(e, Words) && ElemFits(e, Literals)
    ensures Leads(Reader(open, Margin(4 * |open|)), PrintElem(e, Pretty(dots), |open|), Reader(open, Word), dots)
    decreases e, 0
  {
    hide ReadAll, Fits, Print, Dec;
    var r, i, q := Reader(open, Margin(4 * |open|)), Reader(open + [false], Word), Reader(open, Word);
    One(r, '[', dots);
    DecIsWordy(e.index);
    WordsRead(open + [false], Dec(e.index), dots);
    CloseReads(open, ']', false, dots);
    SignReads(open, dots);
    NodeReads(e.node, open, dots);
    Then(r, "[", i, Dec(e.index), i, dots);
    Then(r, "[" + Dec(e.index), i, "]", q, dots);
    Then(r, "[" + Dec(e.index) + "]", q, " = ", q, dots);
    Then(r, "[" + Dec(e.index) + "]" + " = ", q, Print(e.node, Pretty(dots), |open|), q, dots);
  }

  lemma DecIsWordy(n: nat)
    ensures Wordy(Dec(n))
  {
    hide Dec;
    DecValueOfDec(n);
  }

  // What this says of the text.

  /** Outside literals, in one, or in one after a backslash. */
  datatype Side = Outside | Inside | Escape

  function Passes(side: Side, c: char): Side {
    match side
    case Outside => if c == '\'' then Inside else Outside
    case Inside => if c == '\'' then Outside else if c == '\\' then Escape else Inside
    case Escape => Inside
  }

  /** How many more brackets are opened than closed, outside literals. */
  function Net(t: string, side: Side): int {
    if t == "" then 0
    else
      (if side != Outside then 0 else if t[0] == '(' || t[0] == '[' then 1 else if Closes(t[0]) then -1 else 0)
      + Net(t[1..], Passes(side, t[0]))
  }

  function SideOf(m: Mode): Side {
    if m.Literal? then (if m.escape then Escape else Inside) else Outside
  }

  lemma {:induction false} OpenIsNet(r: Reader, t: string, dots: bool)
    ensures match ReadAll(r, t, dots)
            case None => true
            case Some(q) => |q.open| == |r.open| + Net(t, SideOf(r.mode))
    decreases |t|
  {
    hide Read, Passes, SideOf;
    if t != "" && Read(r, t[0], dots).Some? {
      OneStep(r, t[0], dots);
      OpenIsNet(Read(r, t[0], dots).value, t[1..], dots);
    }
  }

  lemma OneStep(r: Reader, c: char, dots: bool)
    requires Read(r, c, dots).Some?
    ensures var q := Read(r, c, dots).value;
            && SideOf(q.mode) == Passes(SideOf(r.mode), c)
            && |q.open| == |r.open| + (if SideOf(r.mode) != Outside then 0
                                       else if c == '(' || c == '[' then 1 else if Closes(c) then -1 else 0)
  {
  }

  /** `t` begins with the indentation of `n` levels from its `j`-th character on, and then
      with what starts a line there. */
  predicate Margins(t: string, j: nat, n: nat, dots: bool) {
    && j <= 4 * n < |t| + j
    && forall i :: j <= i < 4 * n ==> t[i - j] == MarginChar(dots, i)
  }

  lemma {:induction false} MarginIs(open: seq<bool>, j: nat, t: string, dots: bool)
    requires j <= 4 * |open| && open != []
    requires match ReadAll(Reader(open, Margin(j)), t, dots) case None => false case Some(q) => !q.mode.Margin?
    ensures || (Margins(t, j, |open|, dots) && (t[4 * |open| - j] == '.' || t[4 * |open| - j] == '['))
            || (Margins(t, j, |open| - 1, dots) && Closes(t[4 * (|open| - 1) - j]))
    decreases 4 * |open| - j
  {
    if j == 4 * (|open| - 1) && Closes(t[0]) {
    } else if j < 4 * |open| {
      MarginIs(open, j + 1, t[1..], dots);
    }
  }

  /** After every newline of pretty output comes the indentation of as many levels as
      brackets are open there, and an argument or an element; or that of one level less, and
      the bracket that closes. */
  lemma LinesAreIndented(n: TreeNode, level: nat, dots: bool, k: nat)
    requires Fits(n, Words) && Fits(n, Literals)
    requires k < |Print(n, Pretty(dots), level)| && Print(n, Pretty(dots), level)[k] == '\n'
    ensures var t := Print(n, Pretty(dots), level);
            var d, u := level + Net(t[..k], Outside), t[k + 1..];
            && d > 0
            && (|| (Margins(u, 0, d, dots) && (u[4 * d] == '.' || u[4 * d] == '['))
                || (Margins(u, 0, d - 1, dots) && Closes(u[4 * (d - 1)])))
  {
    hide ReadAll, Print, Fits, Net;
    var t, open := Print(n, Pretty(dots), level), seq(level, _ => true);
    var r := Reader(open, Word);
    NodeReads(n, open, dots);
    assert t == t[..k] + ([t[k]] + t[k + 1..]);
    ReadBoth(r, t[..k], [t[k]] + t[k + 1..], dots);
    var q := ReadAll(r, t[..k], dots).value;
    OpenIsNet(r, t[..k], dots);
    ReadBoth(q, [t[k]], t[k + 1..], dots);
    One(q, t[k], dots);
    MarginIs(Read(q, t[k], dots).value.open, 0, t[k + 1..], dots);
  }

  // An example.

  function Empty(name: string): TreeNode {
    TreeNode(name, ListArgs([]))
  }

  /** `P(.x=B(.a=A()).l=list<R>[[0]=R()])`. */
  function Example(): TreeNode {
    TreeNode("P", ListArgs([NodeArg("x", ExampleNode()), NodeArg("l", ExampleList())]))
  }

  function ExampleNode(): ArgValue {
    NodeValue(TreeNode("B", ListArgs([NodeArg("a", NodeValue(Empty("A")))])))
  }

  function ExampleList(): ArgValue {
    ListValue("R", [ListElem(0, Empty("R"))])
  }

  lemma ExampleEnds(dots: bool)
    ensures var unit := if dots then ".   " else "    ";
            && Endl(Pretty(dots), 0) == "\n" && Endl(Pretty(dots), 1) == "\n" + unit
            && Endl(Pretty(dots), 2) == "\n" + unit + unit
  {
    var style := Pretty(dots);
    assert Indent(style, 1) == (if dots then ".   " else "    ") + Indent(style, 0);
    assert Indent(style, 2) == (if dots then ".   " else "    ") + Indent(style, 1);
  }

  lemma EmptyPrints(name: string, style: Style, level: nat)
    ensures Print(Empty(name), style, level) == name + "()"
  {
    assert PrintArgs(ListArgs([]), style, level) == "";
  }

  lemma ExampleNodePrints(dots: bool)
    ensures var unit := if dots then ".   " else "    ";
            PrintValue(ExampleNode(), Pretty(dots), 1) == "B(\n" + unit + unit + ".a = A()\n" + unit + ")"
  {
    hide Print, Endl;
    var style := Pretty(dots);
    var a := NodeArg("a", NodeValue(Empty("A")));
    ExampleEnds(dots);
    EmptyPrints("A", style, 2);
    assert PrintArg(a, style, 2) == ".a = A()";
    assert PrintArgsFrom([a], 1, style, 2) == "";
    assert PrintArgsFrom([a], 0, style, 2) == Endl(style, 2) + ".a = A()" + "";
    assert PrintArgs(ListArgs([a]), style, 1) == Endl(style, 2) + ".a = A()" + "" + Endl(style, 1);
    OnePrints("B", ListArgs([a]), style, 1);
  }

  lemma OnePrints(name: string, a: NodeArgs, style: Style, level: nat)
    ensures Print(TreeNode(name, a), style, level) == name + "(" + PrintArgs(a, style, level) + ")"
  {
  }

  lemma ExampleListPrints(dots: bool)
    ensures var unit := if dots then ".   " else "    ";
            PrintValue(ExampleList(), Pretty(dots), 1) == "list<R> [\n" + unit + unit + "[0] = R()\n" + unit + "]"
  {
    hide Print, Endl, PrintElemsFrom;
    var style := Pretty(dots);
    var e := ListElem(0, Empty("R"));
    ExampleEnds(dots);
    EmptyPrints("R", style, 2);
    assert PrintElem(e, style, 2) == "[0] = R()";
    OneElem(e, style, 2);
  }

  lemma OneElem(e: ListElem, style: Style, level: nat)
    ensures PrintElemsFrom([e], 0, style, level) == Endl(style, level) + PrintElem(e, style, level)
  {
    hide PrintElem, Endl;
    assert PrintElemsFrom([e], 1, style, level) == "";
    assert Endl(style, level) + PrintElem(e, style, level) + "" == Endl(style, level) + PrintElem(e, style, level);
  }

  /** It is printed on eight lines, each level by four characters to the right. */
  lemma ExamplePrints(dots: bool)
    ensures var unit := if dots then ".   " else "    ";
            var x := "B(\n" + unit + unit + ".a = A()\n" + unit + ")";
            var l := "list<R> [\n" + unit + unit + "[0] = R()\n" + unit + "]";
            PrintTree(Example(), Pretty(dots))
            == "P(" + ("\n" + unit + (".x = " + x) + ("\n" + unit + (".l = " + l)) + "\n") + ")" + "\n"
  {
    hide Print, PrintValue, PrintArgs, Endl;
    ExampleNodePrints(dots);
    ExampleListPrints(dots);
    ExampleEnds(dots);
    ExampleArgsPrint(dots);
    OnePrints("P", Example().args, Pretty(dots), 0);
  }

  lemma ExampleArgsPrint(dots: bool)
    ensures var style := Pretty(dots);
            PrintArgs(Example().args, style, 0)
            == Endl(style, 1) + (".x = " + PrintValue(ExampleNode(), style, 1))
               + (Endl(style, 1) + (".l = " + PrintValue(ExampleList(), style, 1))) + Endl(style, 0)
  {
    hide PrintValue, PrintArgsFrom, Endl;
    var style := Pretty(dots);
    var x, l := NodeArg("x", ExampleNode()), NodeArg("l", ExampleList());
    TwoArgs(x, l, style, 1);
    assert "." + "x" + Assign(style) == ".x = " && "." + "l" + Assign(style) == ".l = ";
  }

  lemma TwoArgs(x: NodeArg, l: NodeArg, style: Style, level: nat)
    ensures PrintArgsFrom([x, l], 0, style, level)
         == Endl(style, level) + PrintArg(x, style, level) + (Endl(style, level) + PrintArg(l, style, level))
  {
    hide PrintArg, Endl;
    assert PrintArgsFrom([x, l], 2, style, level) == "";
    var last := Endl(style, level) + PrintArg(l, style, level);
    assert last + "" == last;
    assert PrintArgsFrom([x, l], 1, style, level) == last;
  }
}
