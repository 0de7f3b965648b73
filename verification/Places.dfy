/** Where the tokens of a text stand. */
module Places {
  import opened Wrappers
  import opened Chars
  import opened Position
  import opened Syntax
  import opened Numbers
  import opened Lexer
  import opened Grammar
  import opened RoundTrip
  import opened Spelling

  // Tokens stand where their text begins.

  predicate AllBlank(t: string) {
    forall c | c in t :: IsSpace(c)
  }

  /** The token is spelled by `s[q..e]`, after blanks only, and no longer word or number
      begins at `q`. */
  predicate Stands(s: string, i: nat, afterDot: bool, tok: Token, q: nat, e: nat)
    requires i <= q <= e <= |s|
  {
    && AllBlank(s[i..q])
    && tok.kind != Bos && tok.kind != Eos && Spells(SymOf(tok.kind, tok.lex), s[q..e])
    && (tok.kind == KwList ==> !afterDot) && (tok.kind == Name && tok.lex == "list" ==> afterDot)
    && (tok.kind in {Ident, Name, KwList} ==> e == |s| || !IsIdent(s[e]))
    && (tok.kind == Num ==> e == |s| || !IsDigit(s[e]))
    && tok.lex == (if tok.kind == Str then s[q..e][1..e - q - 1] else s[q..e])
    && tok.pos == PosAt(s, q)
  }

  predicate BeginsToken(c: char) {
    IsMarkChar(c) || IsIdent0(c) || IsQuote(c) || IsDigit(c)
  }

  /** Nothing that stands at `q` is a token, and `at` is the offset to blame: `q` itself when
      no token begins there, and otherwise the place where a literal cannot go on. */
  predicate NoToken(s: string, i: nat, why: Why, q: nat, at: nat)
    requires i <= q <= at <= |s|
  {
    && q < |s|
    && if IsQuote(s[q]) then AllBlank(s[i..q]) && at > q && BreaksAt(s[q + 1..], at - q - 1, s[q], why)
       else
         && at == q && why == UnexpectedChar(s[q]) && !BeginsToken(s[q])
         && (s[q] == '\n' ==> EndsHere(s[i..q]) && !AllBlank(s[i..q]))
         && (s[q] != '\n' ==> AllBlank(s[i..q]) && !IsSpace(s[q]) && s[q] != '#')
  }

  /** Every token of the stream stands in the text where its position says. */
  ghost predicate Placed(s: string, i: nat, afterDot: bool, ts: Stream)
    requires i <= |s|
    decreases ts
  {
    match ts
    case Cons(tok, rest) =>
      exists q, e ::
        i <= q <= e <= |s| && Stands(s, i, afterDot, tok, q, e) && Placed(s, e, tok.kind == Dot, rest)
    case End(tok) => tok == Token(Eos, "", PosAt(s, |s|)) && EndsHere(s[i..])
    case Torn(err) =>
      exists q, at ::
        i <= q <= at <= |s| && err.what.Scanning? && err.pos == PosAt(s, at) && NoToken(s, i, err.what.why, q, at)
  }

  /** The branches of the scanner, with what follows the lexeme. */
  lemma ScanStops(u: string, argCtxt: bool)
    ensures var t := ScanToken(u, argCtxt);
            t.Lexeme? && t.kind != Eos ==>
              && t.kind != Bos
              && (t.kind == KwList ==> !argCtxt) && (t.kind == Name && t.lex == "list" ==> argCtxt)
              && (t.kind in {Ident, Name, KwList} ==> t.len == |u| || !IsIdent(u[t.len]))
              && (t.kind == Num ==> t.len == |u| || !IsDigit(u[t.len]))
              && t.lex == (if t.kind == Str then u[..t.len][1..t.len - 1] else u[..t.len])
  {
    hide ScanToken, IsBody;
    var t := ScanToken(u, argCtxt);
    if u == [] {
      ScanEnd(u, argCtxt);
    } else if IsMarkChar(u[0]) {
      ScanMark(u, argCtxt);
    } else if IsIdent0(u[0]) {
      var n := 1 + Span(IsIdent, u[1..]);
      ScanWord(u, n, argCtxt);
      assert n < |u| ==> u[n] == u[1..][n - 1];
    } else if IsQuote(u[0]) {
      QuotedLexeme(u, argCtxt);
    } else if IsDigit(u[0]) {
      ScanNumber(u, Span(IsDigit, u), argCtxt);
    } else {
      ScanNothing(u, argCtxt);
    }
  }

  lemma ScanFails(u: string, argCtxt: bool)
    ensures var t := ScanToken(u, argCtxt);
            t.Fault? ==>
              && u != []
              && if IsQuote(u[0]) then t.at > 0 && BreaksAt(u[1..], t.at - 1, u[0], t.why)
                 else t.at == 0 && t.why == UnexpectedChar(u[0]) && !BeginsToken(u[0])
  {
    hide ScanToken, ScanBody, BreaksAt;
    if u == [] {
      ScanEnd(u, argCtxt);
    } else if IsMarkChar(u[0]) {
      ScanMark(u, argCtxt);
    } else if IsIdent0(u[0]) {
      ScanWord(u, 1 + Span(IsIdent, u[1..]), argCtxt);
    } else if IsQuote(u[0]) {
      ScanQuoted(u, argCtxt);
      ScanBodyShift(u, u[1..], 0, u[0]);
      var b := ScanBody(u[1..], 0, u[0]);
      if b.Broken? {
        ScanLiteralBreaksAtFirstFault(u[1..], u[0], b.at, b.why);
      }
    } else if IsDigit(u[0]) {
      ScanNumber(u, Span(IsDigit, u), argCtxt);
    } else {
      ScanNothing(u, argCtxt);
    }
  }

  /** What lies between a token, or the end, and the token before it. */
  lemma GapIs(s: string, i: nat, argCtxt: bool)
    requires i <= |s|
    ensures var j := i + Skipped(s[i..]);
            var t := ScanToken(s[j..], argCtxt);
            if t.Fault? then if s[j] == '\n' then EndsHere(s[i..j]) && !AllBlank(s[i..j])
                             else AllBlank(s[i..j]) && !IsSpace(s[j]) && s[j] != '#'
            else if t.kind == Eos then j == |s| && EndsHere(s[i..])
            else AllBlank(s[i..j])
  {
    hide ScanToken, IsSpace, Skipped, EndsHere, AllBlank;
    var u := s[i..];
    var m := Skipped(u);
    var j := i + m;
    Suffix(s, i, m);
    ScanEnd(u[m..], argCtxt);
    AfterComment(u, argCtxt);
    BlankIsNewline();
    SpacesAreSkipped(u);
    if m == Span(IsSpace, u) {
      BlankGap(s, i);
    } else {
      CommentGap(s, i);
      if j == |s| {
        assert s[i..j] == u;
      }
    }
  }

  lemma SpacesAreSkipped(t: string)
    ensures Span(IsSpace, t) <= Skipped(t)
  {
  }

  lemma BlankGap(s: string, i: nat)
    requires i <= |s| && Skipped(s[i..]) == Span(IsSpace, s[i..])
    ensures var j := i + Skipped(s[i..]);
            && AllBlank(s[i..j])
            && if j == |s| then EndsHere(s[i..]) else !IsSpace(s[j]) && s[j] != '#'
  {
    hide IsSpace;
    var u := s[i..];
    var m := Skipped(u);
    assert forall k :: 0 <= k < m ==> s[i..i + m][k] == u[k];
    assert i + m < |s| ==> s[i + m] == u[m];
  }

  lemma BlankIsNewline()
    ensures IsSpace('\n') && !IsSpace('#')
  {
  }

  lemma CommentGap(s: string, i: nat)
    requires i <= |s| && Skipped(s[i..]) > Span(IsSpace, s[i..])
    ensures var j := i + Skipped(s[i..]);
            && EndsHere(s[i..j]) && !AllBlank(s[i..j]) && (j < |s| ==> s[j] == '\n')
  {
    hide IsSpace;
    var u := s[i..];
    var n, j := Span(IsSpace, u), i + Skipped(u);
    var w := s[i..j];
    assert forall k :: 0 <= k < |w| ==> w[k] == u[k];
    SpanIs(IsSpace, w, n);
    assert w[n] == '#';
    BlankIsNewline();
    forall k | 0 <= k < |w| - n ensures w[n..][k] != '\n' {
      if k > 0 {
        assert u[n + 1..][k - 1] == w[n + k];
      }
    }
    assert j < |s| ==> s[j] == u[n + 1..][j - i - n - 1];
  }

  lemma FaultIsPlaced(s: string, i: nat, argCtxt: bool)
    requires i <= |s| && ScanToken(s[i + Skipped(s[i..])..], argCtxt).Fault?
    ensures var j := i + Skipped(s[i..]);
            var t := ScanToken(s[j..], argCtxt);
            j + t.at <= |s| && NoToken(s, i, t.why, j, j + t.at)
  {
    hide ScanToken, Skipped, EndsHere, AllBlank, BreaksAt, BeginsToken;
    var j := i + Skipped(s[i..]);
    GapIs(s, i, argCtxt);
    ScanFails(s[j..], argCtxt);
    assert s[j..][0] == s[j] && s[j..][1..] == s[j + 1..];
    NewlineIsNoQuote();
  }

  lemma TokenIsPlaced(s: string, i: nat, argCtxt: bool)
    requires i <= |s|
    ensures var j := i + Skipped(s[i..]);
            var t := ScanToken(s[j..], argCtxt);
            t.Lexeme? && t.kind != Eos ==> Stands(s, i, argCtxt, Token(t.kind, t.lex, PosAt(s, j)), j, j + t.len)
  {
    hide ScanToken, Skipped, PosAt, Spells, EndsHere, AllBlank, SymOf;
    var j := i + Skipped(s[i..]);
    var u := s[j..];
    var t := ScanToken(u, argCtxt);
    GapIs(s, i, argCtxt);
    if t.Lexeme? && t.kind != Eos {
      ScanStops(u, argCtxt);
      ScanSpells(u, argCtxt);
      Window(s, j, 0, t.len);
      assert t.len < |u| ==> u[t.len] == s[j + t.len];
    }
  }

  /** Each token stands, after blanks only, where its position says, is as long as can be,
      and is spelled there; the stream ends where only blanks or a comment are left, and is
      torn where no token stands. */
  lemma {:induction false} TokensArePlaced(s: string, i: nat, argCtxt: bool)
    requires i <= |s|
    ensures Placed(s, i, argCtxt, Tokens(s, i, argCtxt))
    decreases |s| - i
  {
    hide ScanToken, Skipped, PosAt, EndsHere, Stands, NoToken;
    var j := i + Skipped(s[i..]);
    var t := ScanToken(s[j..], argCtxt);
    if t.Fault? {
      FaultIsPlaced(s, i, argCtxt);
      assert NoToken(s, i, t.why, j, j + t.at);
    } else if t.kind == Eos {
      GapIs(s, i, argCtxt);
    } else {
      TokenIsPlaced(s, i, argCtxt);
      assert Stands(s, i, argCtxt, Token(t.kind, t.lex, PosAt(s, j)), j, j + t.len);
      TokensArePlaced(s, j + t.len, t.kind == Dot);
    }
  }

  lemma NewlineIsNoQuote()
    ensures !IsQuote('\n')
  {
  }

  // And no other stream is placed in the text.

  lemma BlanksAreSkipped(s: string, i: nat, q: nat)
    requires i <= q < |s| && AllBlank(s[i..q]) && !IsSpace(s[q]) && s[q] != '#'
    ensures Skipped(s[i..]) == q - i
  {
    hide IsSpace;
    var u := s[i..];
    forall k | 0 <= k < q - i ensures IsSpace(u[k]) {
      assert s[i..q][k] in s[i..q] && s[i..q][k] == u[k];
    }
    SpanIs(IsSpace, u, q - i);
  }

  /** A token is scanned where it stands. */
  lemma StandsIsScanned(s: string, i: nat, afterDot: bool, tok: Token, q: nat, e: nat)
    requires i <= q <= e <= |s| && Stands(s, i, afterDot, tok, q, e)
    ensures Skipped(s[i..]) == q - i && e > q
    ensures ScanToken(s[q..], afterDot) == Lexeme(tok.kind, tok.lex, e - q)
  {
    hide ScanToken, Skipped, PosAt, IsBody, DecValue;
    var u, w := s[q..], s[q..e];
    assert u[..e - q] == w;
    assert e < |s| ==> u[e - q] == s[e];
    SpelledFirst(SymOf(tok.kind, tok.lex), w);
    assert u[0] == w[0] == s[q];
    BlanksAreSkipped(s, i, q);
    if tok.kind in {Ident, Name, KwList} {
      WordScanned(u, w, tok.kind, afterDot);
    } else if tok.kind == Str {
      QuotedScanned(u, w, tok.lex, afterDot);
    } else if tok.kind == Num {
      SpanIs(IsDigit, u, |w|);
      ScanNumber(u, |w|, afterDot);
    } else {
      MarkSpelling(SymOf(tok.kind, tok.lex), w);
      ScanMark(u, afterDot);
    }
  }

  lemma SpelledFirst(y: Sym, w: string)
    requires Spells(y, w)
    ensures w != "" && !IsSpace(w[0]) && w[0] != '#'
  {
    hide IsBody, DecValue;
  }

  lemma WordScanned(u: string, w: string, kind: Kind, afterDot: bool)
    requires kind in {Ident, Name, KwList} && Spells(SymOf(kind, w), w) && w <= u
    requires (kind == KwList ==> !afterDot) && (kind == Name && w == "list" ==> afterDot)
    requires |w| == |u| || !IsIdent(u[|w|])
    ensures ScanToken(u, afterDot) == Lexeme(kind, w, |w|)
  {
    hide ScanToken;
    ListIsName();
    assert u[..|w|] == w;
    forall k | 0 <= k < |w| - 1 ensures IsIdent(u[1..][k]) {
      assert w[k + 1] in w;
    }
    SpanIs(IsIdent, u[1..], |w| - 1);
    assert u[0] == w[0];
    ScanWord(u, |w|, afterDot);
  }

  lemma ListIsName()
    ensures IsNameWord("list") && forall c | c in "list" :: IsIdent(c)
  {
  }

  lemma QuotedScanned(u: string, w: string, b: string, afterDot: bool)
    requires Spells(StrSym(b), w) && w <= u
    ensures ScanToken(u, afterDot) == Lexeme(Str, b, |w|)
  {
    hide ScanToken, IsBody;
    var q := u[0];
    assert w[0] == q && |w| == |b| + 2 && w[1..1 + |b|] == b && w[1 + |b|] == q;
    assert u[1..1 + |b|] == b && u[1 + |b|] == q;
    QuotedLexeme(u, afterDot);
    if ScanToken(u, afterDot).Lexeme? {
      FirstQuoteIsUnique(u, q, ScanToken(u, afterDot).lex, b);
    }
  }

  /** A fault is met where no token stands. */
  lemma NoTokenIsScanned(s: string, i: nat, why: Why, q: nat, at: nat, argCtxt: bool)
    requires i <= q <= at <= |s| && NoToken(s, i, why, q, at)
    ensures Skipped(s[i..]) == q - i && ScanToken(s[q..], argCtxt) == Fault(why, at - q)
  {
    hide ScanToken, ScanBody, BreaksAt, Skipped, IsSpace;
    var u := s[q..];
    assert u[0] == s[q] && u[1..] == s[q + 1..];
    if IsQuote(s[q]) {
      QuotesAreNoBlanks();
      BlanksAreSkipped(s, i, q);
      ScanQuoted(u, argCtxt);
      ScanBodyShift(u, u[1..], 0, u[0]);
      ScanLiteralBreaksAtFirstFault(u[1..], u[0], at - q - 1, why);
    } else {
      ScanNothing(u, argCtxt);
      if s[q] == '\n' {
        CommentIsSkipped(s, i, q);
      } else {
        BlanksAreSkipped(s, i, q);
      }
    }
  }

  lemma QuotesAreNoBlanks()
    ensures forall c :: IsQuote(c) ==> !IsSpace(c) && c != '#'
  {
  }

  lemma CommentIsSkipped(s: string, i: nat, q: nat)
    requires i <= q < |s| && s[q] == '\n' && EndsHere(s[i..q]) && !AllBlank(s[i..q])
    ensures Skipped(s[i..]) == q - i
  {
    hide IsSpace;
    var u, w := s[i..], s[i..q];
    var n := Span(IsSpace, w);
    assert forall k :: 0 <= k < |w| ==> u[k] == w[k];
    SpanIs(IsSpace, u, n);
    var v := u[n + 1..];
    forall k | 0 <= k < |w| - n - 1 ensures NotNewline(v[k]) {
      assert v[k] == w[n..][k + 1];
    }
    assert v[|w| - n - 1] == s[q];
    SpanIs(NotNewline, v, |w| - n - 1);
  }

  lemma EndIsSkipped(t: string)
    requires EndsHere(t)
    ensures Skipped(t) == |t|
  {
    var n := Span(IsSpace, t);
    if n < |t| {
      var v := t[n + 1..];
      forall k | 0 <= k < |v| ensures NotNewline(v[k]) {
        assert v[k] == t[n..][k + 1];
      }
      SpanIs(NotNewline, v, |v|);
    }
  }

  /** The tokens of a text are the one stream that is placed in it. */
  lemma {:induction false} OnlyTokensArePlaced(s: string, i: nat, argCtxt: bool, ts: Stream)
    requires i <= |s|
    ensures Placed(s, i, argCtxt, ts) <==> ts == Tokens(s, i, argCtxt)
    decreases |s| - i
  {
    hide ScanToken, Skipped, PosAt, EndsHere, Stands, NoToken;
    TokensArePlaced(s, i, argCtxt);
    if Placed(s, i, argCtxt, ts) {
      match ts
      case Cons(tok, rest) =>
        var q, e :| i <= q <= e <= |s| && Stands(s, i, argCtxt, tok, q, e) && Placed(s, e, tok.kind == Dot, rest);
        StandsIsScanned(s, i, argCtxt, tok, q, e);
        StandsAt(s, i, argCtxt, tok, q, e);
        OnlyTokensArePlaced(s, e, tok.kind == Dot, rest);
      case End(_) =>
        EndIsSkipped(s[i..]);
        ScanEnd(s[|s|..], argCtxt);
      case Torn(err) =>
        var q, at :| i <= q <= at <= |s| && err.what.Scanning? && err.pos == PosAt(s, at)
                     && NoToken(s, i, err.what.why, q, at);
        NoTokenIsScanned(s, i, err.what.why, q, at, argCtxt);
    }
  }

  lemma StandsAt(s: string, i: nat, afterDot: bool, tok: Token, q: nat, e: nat)
    requires i <= q <= e <= |s| && Stands(s, i, afterDot, tok, q, e)
    ensures tok.pos == PosAt(s, q) && tok.kind != Eos
  {
    hide Spells, PosAt;
  }
}
