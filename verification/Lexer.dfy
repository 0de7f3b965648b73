/** What the scanner reads next, as functions of the unread input. */
module Lexer {
  import opened Chars
  import opened Syntax
  import opened Numbers

  datatype Why = UnexpectedChar(c: char) | EndOfInput | EndOfLine

  datatype LiteralScan = Closed(end: nat) | Broken(at: nat, why: Why)

  /** `scan_literal` from offset `i` of `t`, for a literal opened by `q`. */
  function ScanBody(t: string, i: nat, q: char): (r: LiteralScan)
    requires i <= |t|
    ensures r.Closed? ==> i <= r.end < |t| && t[r.end] == q
    ensures r.Closed? ==> forall k :: i <= k < r.end ==> t[k] != '\n'
    ensures r.Broken? ==> i <= r.at <= |t| && forall k :: i <= k < r.at ==> t[k] != '\n'
    decreases |t| - i
  {
    if i == |t| then Broken(i, EndOfInput)
    else if t[i] == '\n' then Broken(i, EndOfLine)
    else if t[i] == '\\' then
      if i + 1 == |t| then Broken(i + 1, EndOfInput)
      else if t[i + 1] == '\n' then Broken(i + 1, EndOfLine)
      else ScanBody(t, i + 2, q)
    else if !IsPlain(t[i]) then Broken(i, UnexpectedChar(t[i]))
    else if t[i] == q then Closed(i)
    else ScanBody(t, i + 1, q)
  }

  /** What a literal opened by `q` passes over one character at a time. */
  predicate IsInner(c: char, q: char) {
    IsPlain(c) && c != '\\' && c != '\n' && c != q
  }

  lemma {:induction false} ScanBodySkips(t: string, i: nat, j: nat, q: char)
    requires i <= j <= |t|
    requires forall k :: i <= k < j ==> IsInner(t[k], q)
    ensures ScanBody(t, i, q) == ScanBody(t, j, q)
    decreases j - i
  {
    if i < j {
      ScanBodySkips(t, i + 1, j, q);
    }
  }

  /** What a scan reports at a character that it does not pass over. */
  function StopAt(t: string, i: nat): LiteralScan
    requires i <= |t|
  {
    if i == |t| then Broken(i, EndOfInput)
    else if t[i] == '\n' then Broken(i, EndOfLine)
    else if !IsPlain(t[i]) then Broken(i, UnexpectedChar(t[i]))
    else Closed(i)
  }

  lemma ScanBodyStops(t: string, i: nat, q: char)
    requires i <= |t| && (i < |t| ==> !IsInner(t[i], q))
    ensures i == |t| || t[i] != '\\' ==> ScanBody(t, i, q) == StopAt(t, i)
    ensures i < |t| && t[i] == '\\' && (i + 1 == |t| || t[i + 1] == '\n') ==> ScanBody(t, i, q) == StopAt(t, i + 1)
    ensures i + 1 < |t| && t[i] == '\\' && t[i + 1] != '\n' ==> ScanBody(t, i, q) == ScanBody(t, i + 2, q)
  {
  }

  datatype Scan =
    | Lexeme(kind: Kind, lex: string, len: nat)
    | Fault(why: Why, at: nat)

  /** The blanks before the next token, and at most one comment without its newline. */
  function Skipped(t: string): (n: nat)
    ensures n <= |t|
  {
    var n := Span(IsSpace, t);
    if n < |t| && t[n] == '#' then n + 1 + Span(NotNewline, t[n + 1..]) else n
  }

  predicate IsMarkChar(c: char) {
    c in "()[]<>.="
  }

  function MarkOf(c: char): Kind
    requires IsMarkChar(c)
  {
    if c == '(' then OpenParen
    else if c == ')' then CloseParen
    else if c == '[' then OpenSqBrk
    else if c == ']' then CloseSqBrk
    else if c == '<' then OpenAngBrk
    else if c == '>' then CloseAngBrk
    else if c == '.' then Dot
    else Equal
  }

  function WordKind(w: string, argCtxt: bool): Kind {
    if !(forall c | c in w :: IsName(c)) then Ident
    else if !argCtxt && w == "list" then KwList
    else Name
  }

  /** The token at the front of `u`, after the blanks. */
  function ScanToken(u: string, argCtxt: bool): (r: Scan)
    ensures r.Lexeme? ==> r.len <= |u| && (r.kind == Eos <==> r.len == 0)
    ensures r.Lexeme? ==> forall k :: 0 <= k < r.len ==> u[k] != '\n'
    ensures r.Fault? ==> r.at <= |u| && forall k :: 0 <= k < r.at ==> u[k] != '\n'
  {
    if u == [] then Lexeme(Eos, "", 0)
    else if IsMarkChar(u[0]) then Lexeme(MarkOf(u[0]), [u[0]], 1)
    else if IsIdent0(u[0]) then
      var n := 1 + Span(IsIdent, u[1..]);
      assert forall k :: 1 <= k < n ==> IsIdent(u[k]) by {
        assert forall k :: 1 <= k < n ==> u[k] == u[1..][k - 1];
      }
      Lexeme(WordKind(u[..n], argCtxt), u[..n], n)
    else if IsQuote(u[0]) then
      match ScanBody(u, 1, u[0])
      case Closed(e) => Lexeme(Str, u[1..e], e + 1)
      case Broken(at, why) => Fault(why, at)
    else if IsDigit(u[0]) then
      var n := Span(IsDigit, u);
      Lexeme(Num, u[..n], n)
    else Fault(UnexpectedChar(u[0]), 0)
  }

  // The branches of the scanner, one at a time.

  lemma ScanEnd(u: string, argCtxt: bool)
    ensures u == [] <==> ScanToken(u, argCtxt) == Lexeme(Eos, "", 0)
    ensures u != [] && ScanToken(u, argCtxt).Lexeme? ==> ScanToken(u, argCtxt).kind != Eos
  {
  }

  lemma ScanMark(u: string, argCtxt: bool)
    requires u != [] && IsMarkChar(u[0])
    ensures ScanToken(u, argCtxt) == Lexeme(MarkOf(u[0]), [u[0]], 1)
  {
  }

  lemma ScanWord(u: string, n: nat, argCtxt: bool)
    requires u != [] && IsIdent0(u[0]) && n == 1 + Span(IsIdent, u[1..])
    ensures ScanToken(u, argCtxt) == Lexeme(WordKind(u[..n], argCtxt), u[..n], n)
  {
  }

  lemma ScanQuoted(u: string, argCtxt: bool)
    requires u != [] && IsQuote(u[0])
    ensures var b, t := ScanBody(u, 1, u[0]), ScanToken(u, argCtxt);
            t == if b.Closed? then Lexeme(Str, u[1..b.end], b.end + 1) else Fault(b.why, b.at)
  {
  }

  lemma ScanNumber(u: string, n: nat, argCtxt: bool)
    requires u != [] && IsDigit(u[0]) && n == Span(IsDigit, u)
    ensures ScanToken(u, argCtxt) == Lexeme(Num, u[..n], n)
  {
  }

  lemma ScanNothing(u: string, argCtxt: bool)
    requires u != [] && !IsMarkChar(u[0]) && !IsIdent0(u[0]) && !IsQuote(u[0]) && !IsDigit(u[0])
    ensures ScanToken(u, argCtxt) == Fault(UnexpectedChar(u[0]), 0)
  {
  }

  function SymOf(kind: Kind, lex: string): Sym {
    match kind
    case Ident => IdentSym(lex)
    case Name => NameSym(lex)
    case Str => StrSym(lex)
    case Num => if AllDigits(lex) then NumSym(DecValue(lex)) else FaultSym
    case Eos => EosSym
    case _ => Mark(kind)
  }

  /** All the symbols of a text. A token is scanned in argument context exactly when it
      follows a dot. */
  function LexSyms(t: string, argCtxt: bool): (ss: seq<Sym>)
    ensures |ss| > 0
    decreases |t|
  {
    var u := t[Skipped(t)..];
    match ScanToken(u, argCtxt)
    case Fault(_, _) => [FaultSym]
    case Lexeme(kind, lex, len) =>
      if kind == Eos then [EosSym] else [SymOf(kind, lex)] + LexSyms(u[len..], kind == Dot)
  }

  // The literal scanner and its declarative reading.

  /** Escaping inside a window does not look before the window. */
  lemma {:induction false} EscapedInside(t: string, i: nat, k: nat)
    requires i <= k <= |t| && !Escaped(t, i)
    ensures Escaped(t, k) == Escaped(t[i..], k - i)
    decreases k
  {
    if i < k {
      EscapedInside(t, i, k - 1);
    }
  }

  lemma {:induction false} EscapedPrefix(s: string, t: string, k: nat)
    requires k <= |s| <= |t| && s == t[..|s|]
    ensures Escaped(s, k) == Escaped(t, k)
    decreases k
  {
    if k > 0 {
      EscapedPrefix(s, t, k - 1);
    }
  }

  /** The first unescaped `q` of `b`, with nothing before it that a literal refuses. */
  predicate ClosesAt(b: string, e: nat, q: char) {
    && e < |b| && b[e] == q && !Escaped(b, e)
    && forall k :: 0 <= k < e ==> b[k] != '\n' && (Escaped(b, k) || (IsPlain(b[k]) && b[k] != q))
  }

  lemma {:induction false} ScanBodyFrom(b: string, i: nat, q: char, e: nat)
    requires IsQuote(q) && i <= |b| && !Escaped(b, i)
    requires forall k :: 0 <= k < i ==> b[k] != '\n' && (Escaped(b, k) || (IsPlain(b[k]) && b[k] != q))
    ensures ScanBody(b, i, q) == Closed(e) <==> ClosesAt(b, e, q)
    decreases |b| - i
  {
    if i == |b| || b[i] == '\n' {
    } else if b[i] == '\\' {
      assert Escaped(b, i + 1);
      if i + 1 < |b| && b[i + 1] != '\n' {
        ScanBodyFrom(b, i + 2, q, e);
      }
    } else if IsPlain(b[i]) && b[i] != q {
      ScanBodyFrom(b, i + 1, q, e);
    }
  }

  /** `scan_literal` succeeds exactly at the first unescaped matching quote, when no
      newline and no unescaped character that is not plain comes before it. */
  lemma ScanLiteralClosesAtFirstQuote(b: string, q: char, e: nat)
    requires IsQuote(q)
    ensures ScanBody(b, 0, q) == Closed(e) <==> ClosesAt(b, e, q)
  {
    ScanBodyFrom(b, 0, q, e);
  }

  /** The first character of `b`, or its end, that a literal opened by `q` cannot hold. */
  predicate BreaksAt(b: string, e: nat, q: char, why: Why) {
    && e <= |b|
    && (forall k :: 0 <= k < e ==> b[k] != '\n' && (Escaped(b, k) || (IsPlain(b[k]) && b[k] != q)))
    && match why
       case EndOfInput => e == |b|
       case EndOfLine => e < |b| && b[e] == '\n'
       case UnexpectedChar(c) => e < |b| && b[e] == c && c != '\n' && !IsPlain(c) && !Escaped(b, e)
  }

  lemma {:induction false} ScanBodyBreaks(b: string, i: nat, q: char, e: nat, why: Why)
    requires IsQuote(q) && i <= |b| && !Escaped(b, i)
    requires forall k :: 0 <= k < i ==> b[k] != '\n' && (Escaped(b, k) || (IsPlain(b[k]) && b[k] != q))
    ensures ScanBody(b, i, q) == Broken(e, why) <==> BreaksAt(b, e, q, why)
    decreases |b| - i
  {
    if i == |b| || b[i] == '\n' {
    } else if b[i] == '\\' {
      assert Escaped(b, i + 1);
      if i + 1 < |b| && b[i + 1] != '\n' {
        ScanBodyBreaks(b, i + 2, q, e, why);
      }
    } else if IsPlain(b[i]) && b[i] != q {
      ScanBodyBreaks(b, i + 1, q, e, why);
    }
  }

  /** `scan_literal` fails exactly where a literal cannot go on: at the end of the input, at
      a newline, escaped or not, or at an unescaped character that is not plain. */
  lemma ScanLiteralBreaksAtFirstFault(b: string, q: char, e: nat, why: Why)
    requires IsQuote(q)
    ensures ScanBody(b, 0, q) == Broken(e, why) <==> BreaksAt(b, e, q, why)
  {
    ScanBodyBreaks(b, 0, q, e, why);
  }

  lemma {:induction false} ScanBodyShift(t: string, b: string, i: nat, q: char)
    requires |t| == 1 + |b| && t[1..] == b && i <= |b|
    ensures ScanBody(t, 1 + i, q)
         == match ScanBody(b, i, q)
            case Closed(e) => Closed(1 + e)
            case Broken(at, why) => Broken(1 + at, why)
    decreases |b| - i
  {
    assert forall k :: 0 <= k < |b| ==> t[1 + k] == b[k];
    if i == |b| {
    } else if b[i] == '\\' {
      if i + 1 < |b| && b[i + 1] != '\n' {
        ScanBodyShift(t, b, i + 2, q);
      }
    } else if IsPlain(b[i]) && b[i] != q {
      ScanBodyShift(t, b, i + 1, q);
    }
  }

  /** A body closed by an unescaped quote is exactly the text before that quote. */
  lemma ClosesAtIsBody(b: string, e: nat, q: char)
    requires e < |b| && b[e] == q
    ensures ClosesAt(b, e, q) <==> IsBody(b[..e], q)
  {
    forall k | 0 <= k <= e ensures Escaped(b[..e], k) == Escaped(b, k) {
      EscapedPrefix(b[..e], b, k);
    }
    assert forall k :: 0 <= k < e ==> b[..e][k] == b[k];
  }

  /** What a quoted lexeme at the front of a text is. */
  lemma QuotedLexeme(u: string, argCtxt: bool)
    requires |u| > 0 && IsQuote(u[0])
    ensures match ScanToken(u, argCtxt)
            case Lexeme(kind, lex, len) =>
              && kind == Str && len == |lex| + 2 <= |u|
              && lex == u[1..1 + |lex|] && u[1 + |lex|] == u[0] && IsBody(lex, u[0])
            case Fault(_, _) => forall e :: 1 <= e < |u| && u[e] == u[0] ==> !IsBody(u[1..e], u[0])
  {
    var b, q := u[1..], u[0];
    ScanBodyShift(u, b, 0, q);
    forall e | 1 <= e < |u| && u[e] == q
      ensures ScanBody(b, 0, q) == Closed(e - 1) <==> IsBody(u[1..e], q)
    {
      ScanLiteralClosesAtFirstQuote(b, q, e - 1);
      ClosesAtIsBody(b, e - 1, q);
      assert b[..e - 1] == u[1..e];
    }
  }

  /** A comment is accepted only when nothing but its own text follows: the scanner stops
      at the newline that ends it, and refuses that newline. */
  lemma CommentsRunToTheEnd(u: string, argCtxt: bool)
    requires u != [] && u[0] == '#'
    ensures LexSyms(u, argCtxt) == if '\n' in u then [FaultSym] else [EosSym]
  {
    assert Span(IsSpace, u) == 0;
    var n := 1 + Span(NotNewline, u[1..]);
    assert Skipped(u) == n;
    assert forall k :: 1 <= k < |u| ==> u[k] == u[1..][k - 1];
    if n < |u| {
      assert u[n..][0] == '\n';
      ScanNothing(u[n..], argCtxt);
    } else {
      ScanEnd(u[n..], argCtxt);
    }
  }

  // A literal body is a string of plain characters and escape pairs.

  datatype Piece = Plain(c: char) | Pair(c: char)

  predicate PieceOk(p: Piece, q: char) {
    match p
    case Plain(c) => IsInner(c, q)
    case Pair(c) => c != '\n'
  }

  function Text(ps: seq<Piece>): string {
    if ps == [] then ""
    else (match ps[0]
          case Plain(c) => [c]
          case Pair(c) => ['\\', c]) + Text(ps[1..])
  }

  predicate Pieces(ps: seq<Piece>, q: char) {
    forall p | p in ps :: PieceOk(p, q)
  }

  /** The pieces of the text from `k` on, when there are any. */
  function Split(s: string, q: char): (r: seq<Piece>)
    decreases |s|
  {
    if s == "" then []
    else if s[0] != '\\' then [Plain(s[0])] + Split(s[1..], q)
    else if |s| == 1 then [Plain(s[0])]
    else [Pair(s[1])] + Split(s[2..], q)
  }

  /** Pieces are read off their text in one way only. */
  lemma {:induction false} SplitOfText(ps: seq<Piece>, q: char)
    requires Pieces(ps, q)
    ensures Split(Text(ps), q) == ps
    decreases |ps|
  {
    if ps != [] {
      SplitOfText(ps[1..], q);
      assert ps == [ps[0]] + ps[1..];
      var t, more := Text(ps), Text(ps[1..]);
      assert PieceOk(ps[0], q);
      match ps[0]
      case Plain(_) => assert t[1..] == more;
      case Pair(_) => assert t[2..] == more;
    }
  }

  /** A text is a literal body exactly when it splits into pieces, and then in one way. */
  lemma BodySplitsUniquely(s: string, q: char, ps: seq<Piece>)
    requires IsQuote(q)
    ensures Pieces(ps, q) && Text(ps) == s ==> IsBody(s, q) && ps == Split(s, q)
    ensures IsBody(s, q) ==> Pieces(Split(s, q), q) && Text(Split(s, q)) == s
  {
    if Pieces(ps, q) && Text(ps) == s {
      TextIsBody(ps, q);
      SplitOfText(ps, q);
    }
    if IsBody(s, q) {
      BodySplits(s, q);
    }
  }

  /** A body is one piece and a body. */
  lemma BodyFront(s: string, q: char, n: nat)
    requires IsQuote(q) && n <= |s|
    requires (n == 1 && s[0] != '\\') || (n == 2 && s[0] == '\\')
    ensures IsBody(s, q) <==> (if n == 1 then IsInner(s[0], q) else s[1] != '\n') && IsBody(s[n..], q)
  {
    assert !Escaped(s, 0) && !Escaped(s, n) && (n == 2 ==> Escaped(s, 1));
    forall k | n <= k <= |s| ensures Escaped(s, k) == Escaped(s[n..], k - n) {
      EscapedInside(s, n, k);
    }
    if IsBody(s[n..], q) {
      assert forall k :: n <= k < |s| ==> s[k] == s[n..][k - n];
    }
    if IsBody(s, q) {
      assert forall k :: 0 <= k < |s| - n ==> s[n..][k] == s[n + k];
    }
  }

  lemma {:induction false} TextIsBody(ps: seq<Piece>, q: char)
    requires IsQuote(q) && Pieces(ps, q)
    ensures IsBody(Text(ps), q)
    decreases |ps|
  {
    hide IsBody;
    if ps == [] {
      EmptyBody(q);
    } else {
      TextIsBody(ps[1..], q);
      assert PieceOk(ps[0], q);
      var n := if ps[0].Plain? then 1 else 2;
      assert Text(ps)[n..] == Text(ps[1..]);
      BodyFront(Text(ps), q, n);
    }
  }

  lemma EmptyBody(q: char)
    ensures IsBody("", q)
  {
  }

  lemma {:induction false} BodySplits(s: string, q: char)
    requires IsQuote(q) && IsBody(s, q)
    ensures Pieces(Split(s, q), q) && Text(Split(s, q)) == s
    decreases |s|
  {
    if s != "" {
      if s[0] == '\\' && |s| == 1 {
        assert Escaped(s, 1);
        assert false;
      }
      var n := if s[0] == '\\' then 2 else 1;
      BodyFront(s, q, n);
      BodySplits(s[n..], q);
      SplitFront(s, q, n);
    }
  }

  lemma SplitFront(s: string, q: char, n: nat)
    requires 0 < n <= |s| && n == (if s[0] == '\\' then 2 else 1)
    requires Pieces(Split(s[n..], q), q) && Text(Split(s[n..], q)) == s[n..]
    requires if n == 1 then IsInner(s[0], q) else s[1] != '\n'
    ensures Pieces(Split(s, q), q) && Text(Split(s, q)) == s
  {
    var p, rest := if n == 1 then Plain(s[0]) else Pair(s[1]), Split(s[n..], q);
    assert Split(s, q) == [p] + rest;
    hide Split;
    PieceFront(p, rest, q);
    assert s == s[..n] + s[n..];
    assert s[..n] == if n == 1 then [s[0]] else ['\\', s[1]];
  }

  lemma PieceFront(p: Piece, rest: seq<Piece>, q: char)
    requires PieceOk(p, q) && Pieces(rest, q)
    ensures Pieces([p] + rest, q)
    ensures Text([p] + rest) == (if p.Plain? then [p.c] else ['\\', p.c]) + Text(rest)
  {
    assert ([p] + rest)[1..] == rest;
  }
}
