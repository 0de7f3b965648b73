/** The parser object: a cursor into the input, its position, and one token of lookahead. */
module Parser {
  import opened Chars
  import opened Wrappers
  import opened Position
  import opened Syntax
  import opened Numbers
  import opened Lexer
  import opened Grammar

  /** One round of the scanning loop: a run of inner characters, and what follows it. */
  lemma ScanRound(s: string, start: nat, i: nat, j: nat, q: char)
    requires start <= i <= j <= |s|
    requires forall k :: i <= k < j ==> IsInner(s[k], q)
    requires j < |s| ==> !IsInner(s[j], q)
    ensures var u, now := s[start..], ScanBody(s[start..], i - start, q);
      if j == |s| || s[j] != '\\' then now == StopAt(u, j - start)
      else if j + 1 == |s| || s[j + 1] == '\n' then now == StopAt(u, j + 1 - start)
      else now == ScanBody(u, j + 2 - start, q)
  {
    hide ScanBody, StopAt;
    assert forall k :: 0 <= k < |s| - start ==> s[start..][k] == s[start + k];
    ScanBodySkips(s[start..], i - start, j - start, q);
    ScanBodyStops(s[start..], j - start, q);
  }

  lemma StopAtEnd(s: string, start: nat, i: nat)
    requires start <= i <= |s|
    ensures StopAt(s[start..], i - start) ==
      if i == |s| then Broken(i - start, EndOfInput)
      else if s[i] == '\n' then Broken(i - start, EndOfLine)
      else if !IsPlain(s[i]) then Broken(i - start, UnexpectedChar(s[i]))
      else Closed(i - start)
  {
  }

  /** Where a literal ends, or breaks, is on the line where it starts. */
  lemma StopIsWithinLine(input: string, start: nat, ptr: nat)
    requires start < ptr <= |input| && IsQuote(input[start])
    requires ScanBody(input[start..], 1, input[start]) == StopAt(input[start..], ptr - start)
    ensures PosAt(input, ptr) == Pos(PosAt(input, start).line, PosAt(input, start).col + (ptr - start))
  {
    hide PosAt;
    var u := input[start..];
    assert forall k :: start <= k < ptr ==> input[k] == u[k - start];
    PosWithin(input, start, ptr);
  }

  /** What the scan that stopped at `ptr` reports. */
  method StopLiteral(input: string, pos: Pos, start: nat, ptr: nat) returns (r: Result<nat, Error>)
    requires start < ptr <= |input| && IsQuote(input[start]) && pos == PosAt(input, start)
    requires ScanBody(input[start..], 1, input[start]) == StopAt(input[start..], ptr - start)
    ensures match ScanBody(input[start..], 1, input[start])
            case Closed(end) => r == Success(start + end)
            case Broken(at, why) => r == Failure(Error(Scanning(why), PosAt(input, start + at)))
  {
    hide PosAt, ScanBody, StopAt, IsPlain;
    StopAtEnd(input, start, ptr);
    StopIsWithinLine(input, start, ptr);
    var here := Pos(pos.line, pos.col + (ptr - start));
    if ptr == |input| {
      return Failure(Error(Scanning(EndOfInput), here));
    }
    if input[ptr] == '\n' {
      return Failure(Error(Scanning(EndOfLine), here));
    }
    if !IsPlain(input[ptr]) {
      return Failure(Error(Scanning(UnexpectedChar(input[ptr])), here));
    }
    return Success(ptr);
  }

  /** `scan_literal`, which reads the input, its end and the position, and changes none. */
  method ScanLiteral(input: string, pos: Pos, start: nat) returns (r: Result<nat, Error>)
    requires start < |input| && IsQuote(input[start]) && pos == PosAt(input, start)
    ensures match ScanBody(input[start..], 1, input[start])
            case Closed(end) => r == Success(start + end)
            case Broken(at, why) => r == Failure(Error(Scanning(why), PosAt(input, start + at)))
  {
    hide PosAt, ScanBody, StopAt, IsPlain;
    var ch, ptr := input[start], start + 1;
    ghost var u := input[start..];
    ghost var whole := ScanBody(u, 1, ch);
    while ptr < |input|
      invariant start < ptr <= |input|
      invariant ScanBody(u, ptr - start, ch) == whole
    {
      var inside := ptr;
      ptr := FindIfNot(input, inside, c => IsInner(c, ch));
      ScanRound(input, start, inside, ptr, ch);
      if ptr == |input| || input[ptr] != '\\' {
        break;
      }
      ptr := ptr + 1;
      if ptr == |input| || input[ptr] == '\n' {
        break;
      }
      ptr := ptr + 1;
    }
    if ptr == |input| {
      ScanRound(input, start, ptr, ptr, ch);
    }
    r := StopLiteral(input, pos, start, ptr);
  }

  method ScanRun(input: string, ptr: nat, from: nat, p: char -> bool) returns (end: nat)
    requires ptr <= from <= ptr + 1 <= |input|
    ensures from <= end <= |input| && end == from + Span(p, input[ptr..][from - ptr..])
    ensures input[ptr..end] == input[ptr..][..end - ptr]
  {
    end := FindIfNot(input, from, p);
    Suffix(input, ptr, from - ptr);
    Window(input, ptr, 0, end - ptr);
  }

  method ScanString(input: string, pos: Pos, ptr: nat, argCtxt: bool) returns (r: Result<(Kind, string, nat), Error>)
    requires ptr < |input| && IsQuote(input[ptr]) && pos == PosAt(input, ptr)
    ensures var t := ScanToken(input[ptr..], argCtxt);
            r == if t.Lexeme? then Success((t.kind, t.lex, ptr + t.len))
                 else Failure(Error(Scanning(t.why), PosAt(input, ptr + t.at)))
  {
    hide PosAt, ScanToken, ScanBody;
    ScanQuoted(input[ptr..], argCtxt);
    var close :- ScanLiteral(input, pos, ptr);
    Window(input, ptr, 1, close - ptr);
    return Success((Str, input[ptr + 1..close], close + 1));
  }

  method ScanIdent(input: string, ptr: nat, argCtxt: bool) returns (kind: Kind, lex: string, end: nat)
    requires ptr < |input| && IsIdent0(input[ptr])
    ensures ptr < end <= |input| && ScanToken(input[ptr..], argCtxt) == Lexeme(kind, lex, end - ptr)
  {
    hide ScanToken, Span, WordKind, IsIdent, IsIdent0;
    end := ScanRun(input, ptr, ptr + 1, IsIdent);
    ScanWord(input[ptr..], end - ptr, argCtxt);
    kind, lex := WordKind(input[ptr..end], argCtxt), input[ptr..end];
  }

  method ScanNumeral(input: string, ptr: nat, argCtxt: bool) returns (kind: Kind, lex: string, end: nat)
    requires ptr < |input| && IsDigit(input[ptr])
    ensures ptr <= end <= |input| && ScanToken(input[ptr..], argCtxt) == Lexeme(kind, lex, end - ptr)
  {
    hide ScanToken, Span, IsDigit;
    end := ScanRun(input, ptr, ptr, IsDigit);
    assert input[ptr..][0..] == input[ptr..];
    ScanNumber(input[ptr..], end - ptr, argCtxt);
    kind, lex := Num, input[ptr..end];
  }

  /** The lexeme at `ptr`: its kind, its text, and where it ends. */
  method ScanLexeme(input: string, pos: Pos, ptr: nat, argCtxt: bool) returns (r: Result<(Kind, string, nat), Error>)
    requires ptr < |input| && pos == PosAt(input, ptr)
    ensures var t := ScanToken(input[ptr..], argCtxt);
            r == if t.Lexeme? then Success((t.kind, t.lex, ptr + t.len))
                 else Failure(Error(Scanning(t.why), PosAt(input, ptr + t.at)))
  {
    assert IsIdent0(input[ptr]) ==> IsAscii(input[ptr]);
    hide PosAt, ScanToken, Span, WordKind, MarkOf, IsDigit, IsIdent0, IsIdent, IsMarkChar, IsQuote;
    ghost var u := input[ptr..];
    assert u[0] == input[ptr];
    if IsMarkChar(input[ptr]) {
      ScanMark(u, argCtxt);
      return Success((MarkOf(input[ptr]), [input[ptr]], ptr + 1));
    } else if IsAscii(input[ptr]) && IsIdent0(input[ptr]) {
      var kind, lex, end := ScanIdent(input, ptr, argCtxt);
      return Success((kind, lex, end));
    } else if IsQuote(input[ptr]) {
      r := ScanString(input, pos, ptr, argCtxt);
    } else if IsDigit(input[ptr]) {
      var kind, lex, end := ScanNumeral(input, ptr, argCtxt);
      return Success((kind, lex, end));
    } else {
      ScanNothing(u, argCtxt);
      return Failure(Error(Scanning(UnexpectedChar(input[ptr])), pos));
    }
  }

  class Parser {
    const input: string
    var inputPtr: nat
    var pos: Pos
    var tok: Token
    var prevTok: Token
    var argCtxt: bool

    /** The position kept so far is the true position of the cursor. */
    ghost predicate Valid()
      reads this
    {
      inputPtr <= |input| && pos == PosAt(input, inputPtr)
    }

    /** The tokens from the current one on. They are scanned later, each in the context
        that the token before it calls for. */
    ghost function Ahead(): (ts: Stream)
      reads this
      requires Valid()
      ensures !ts.Torn? && Head(ts) == tok.kind && ts.tok == tok
    {
      if tok.kind == Eos then End(tok) else Cons(tok, Tokens(input, inputPtr, tok.kind == Dot))
    }

    constructor (raw: string)
      ensures Valid() && input == Folded(raw) && inputPtr == 0 && !argCtxt
    {
      var end := |raw|;
      if end > 0 && raw[end - 1] == '\n' {
        end := end - 1;
      }
      input := raw[..end];
      inputPtr := 0;
      pos := Pos(1, 1);
      tok := Token(Bos, "", Pos(1, 1));
      prevTok := Token(Bos, "", Pos(1, 1));
      argCtxt := false;
    }

    method SkipSpaces()
      requires Valid()
      modifies `inputPtr, `pos
      ensures Valid() && inputPtr == old(inputPtr) + Skipped(input[old(inputPtr)..])
    {
      var ptr := FindIfNot(input, inputPtr, IsSpace);
      if ptr < |input| && input[ptr] == '#' {
        assert input[inputPtr..][ptr - inputPtr + 1..] == input[ptr + 1..];
        ptr := FindIfNot(input, ptr + 1, NotNewline);
      }
      pos := Advance(pos, input, inputPtr, ptr);
      inputPtr := ptr;
    }

    method NextToken() returns (r: Outcome<Error>)
      requires Valid()
      modifies `inputPtr, `pos, `tok
      ensures var ts := Tokens(input, old(inputPtr), argCtxt);
              if ts.Torn? then r == Fail(ts.err) else r.Pass? && Valid() && Ahead() == ts
    {
      hide ScanToken, Skipped, PosAt;
      SkipSpaces();
      if inputPtr >= |input| {
        ScanEnd(input[inputPtr..], argCtxt);
        tok := Token(Eos, "", pos);
        return Pass;
      }
      var next := ScanLexeme(input, pos, inputPtr, argCtxt);
      if next.Failure? {
        return Fail(next.error);
      }
      var (kind, lex, end) := next.value;
      ghost var u := input[inputPtr..];
      assert u != [] && u[0] == input[inputPtr];
      ScanEnd(u, argCtxt);
      assert PosAt(input, end) == Pos(pos.line, pos.col + (end - inputPtr)) by {
        assert forall k :: inputPtr <= k < end ==> input[k] == u[k - inputPtr];
        PosWithin(input, inputPtr, end);
      }
      tok := Token(kind, lex, pos);
      pos := Pos(pos.line, pos.col + (end - inputPtr));
      inputPtr := end;
      return Pass;
    }

    method EatToken() returns (r: Outcome<Error>)
      requires Valid() && tok.kind != Eos && argCtxt == (tok.kind == Dot)
      modifies `inputPtr, `pos, `tok, `prevTok
      ensures prevTok == old(tok)
      ensures match Next(old(Ahead()))
              case Failure(e) => r == Fail(e)
              case Success(rest) => r.Pass? && Valid() && Ahead() == rest
    {
      prevTok := tok;
      r := NextToken();
    }

    /** A token of the wanted kind is needed, and consumed unless it is the last (`!next`). */
    method NeedToken(kind: Kind, next: bool := true) returns (r: Outcome<Error>)
      requires Valid() && (next ==> kind != Eos && argCtxt == (kind == Dot))
      modifies `inputPtr, `pos, `tok, `prevTok
      ensures next ==> match Need(kind, old(Ahead()))
                       case Failure(e) => r == Fail(e)
                       case Success((lex, rest)) => r.Pass? && Valid() && Ahead() == rest && prevTok == old(tok)
      ensures !next ==> unchanged(this)
      ensures !next ==> r == if tok.kind == kind then Pass else Fail(Error(Expected(kind, tok.kind), tok.pos))
    {
      if tok.kind != kind {
        return Fail(Error(Expected(kind, tok.kind), tok.pos));
      }
      r := Pass;
      if next {
        r := EatToken();
      }
    }

    // The parse methods do to the object what the parse functions do to the tokens ahead.

    ghost predicate Yields<T>(spec: Result<(T, Stream), Error>, r: Result<T, Error>)
      reads this
    {
      && !argCtxt
      && match spec
         case Failure(e) => r == Failure(e)
         case Success((v, rest)) => r == Success(v) && Valid() && Ahead() == rest
    }

    method ParseTreeNode() returns (r: Result<TreeNode, Error>)
      requires Valid() && !argCtxt
      modifies this
      ensures Yields(Grammar.ParseTreeNode(old(Ahead())), r)
      decreases Size(Ahead()), 1
    {
      hide Ahead, Valid, Grammar.ParseNodeArgs, Need, Next;
      :- NeedToken(Ident);
      var name := prevTok.lex;
      :- NeedToken(OpenParen);
      var args :- ParseNodeArgs();
      :- NeedToken(CloseParen);
      return Success(TreeNode(name, args));
    }

    method ParseNodeArgs() returns (r: Result<NodeArgs, Error>)
      requires Valid() && !argCtxt
      modifies this
      ensures Yields(Grammar.ParseNodeArgs(old(Ahead())), r)
      decreases Size(Ahead()), 3
    {
      hide Ahead, Valid, Grammar.ParseNodeArg;
      if tok.kind == CloseParen || tok.kind == Dot {
        var list: seq<NodeArg> := [];
        while tok.kind == Dot
          invariant Valid() && !argCtxt && Size(Ahead()) <= old(Size(Ahead()))
          invariant ParseArgList([], old(Ahead())) == ParseArgList(list, Ahead())
          decreases Size(Ahead())
        {
          var arg :- ParseNodeArg();
          list := list + [arg];
        }
        return Success(ListArgs(list));
      } else if tok.kind == Str {
        :- NeedToken(Str);
        return Success(LiteralArgs(prevTok.lex));
      } else {
        return Failure(Error(Unexpected(tok.kind, NodeArgsRule), tok.pos));
      }
    }

    method ParseNodeArg() returns (r: Result<NodeArg, Error>)
      requires Valid() && !argCtxt
      modifies this
      ensures Yields(Grammar.ParseNodeArg(old(Ahead())), r)
      decreases Size(Ahead()), 1
    {
      hide Grammar.ParseArgValue, Tokens;
      argCtxt := true;
      var dot := NeedToken(Dot);
      argCtxt := false;
      :- dot;
      :- NeedToken(Name);
      var name := prevTok.lex;
      :- NeedToken(Equal);
      var value :- ParseArgValue();
      return Success(NodeArg(name, value));
    }

    method ParseArgValue() returns (r: Result<ArgValue, Error>)
      requires Valid() && !argCtxt
      modifies this
      ensures Yields(Grammar.ParseArgValue(old(Ahead())), r)
      decreases Size(Ahead()), 2
    {
      hide Ahead, Valid, Grammar.ParseTreeNode, Grammar.ParseNodeList;
      if tok.kind == Ident {
        var node :- ParseTreeNode();
        return Success(NodeValue(node));
      } else if tok.kind == KwList {
        :- EatToken();
        r := ParseNodeList();
      } else if tok.kind == Str {
        :- NeedToken(Str);
        return Success(LiteralValue(prevTok.lex));
      } else {
        return Failure(Error(Unexpected(tok.kind, ArgValueRule), tok.pos));
      }
    }

    method ParseNodeList() returns (r: Result<ArgValue, Error>)
      requires Valid() && !argCtxt
      modifies this
      ensures Yields(Grammar.ParseNodeList(old(Ahead())), r)
      decreases Size(Ahead()), 3
    {
      hide Ahead, Valid, ParseElemList, Need, Next;
      :- NeedToken(OpenAngBrk);
      :- NeedToken(Ident);
      var base := prevTok.lex;
      :- NeedToken(CloseAngBrk);
      :- NeedToken(OpenSqBrk);
      var elems :- ParseElems();
      :- NeedToken(CloseSqBrk);
      return Success(ListValue(base, elems));
    }

    method ParseElems() returns (r: Result<seq<ListElem>, Error>)
      requires Valid() && !argCtxt
      modifies this
      ensures Yields(ParseElemList([], old(Ahead())), r)
      decreases Size(Ahead()), 2
    {
      hide Ahead, Valid, Grammar.ParseListElem;
      var elems: seq<ListElem> := [];
      while tok.kind == OpenSqBrk
        invariant Valid() && !argCtxt && Size(Ahead()) <= old(Size(Ahead()))
        invariant ParseElemList([], old(Ahead())) == ParseElemList(elems, Ahead())
        decreases Size(Ahead())
      {
        var elem :- ParseListElem();
        elems := elems + [elem];
      }
      return Success(elems);
    }

    method ParseListElem() returns (r: Result<ListElem, Error>)
      requires Valid() && !argCtxt
      modifies this
      ensures Yields(Grammar.ParseListElem(old(Ahead())), r)
      decreases Size(Ahead()), 1
    {
      hide Ahead, Valid, Grammar.ParseTreeNode, IndexOf, Need, Next;
      :- NeedToken(OpenSqBrk);
      :- NeedToken(Num);
      var index :- ListElemIndex(prevTok.lex, prevTok.pos);
      :- NeedToken(CloseSqBrk);
      :- NeedToken(Equal);
      var node :- ParseTreeNode();
      return Success(ListElem(index, node));
    }

    /** `parse`: of a fresh parser, the tree of the whole input or the first error. */
    method Parse() returns (r: Result<TreeNode, Error>)
      requires Valid() && inputPtr == 0 && !argCtxt
      modifies this
      ensures r == ParseTokens(Tokens(input, 0, false))
    {
      var first := NextToken();
      :- first;
      var root :- ParseTreeNode();
      :- NeedToken(Eos, false);
      return Success(root);
    }
  }

  /** `list_elem_idx`. */
  method ListElemIndex(lex: string, pos: Pos) returns (r: Result<ElemIndex, Error>)
    ensures r == if IndexOf(lex).Some? then Success(IndexOf(lex).value) else Failure(Error(BadIndex(lex), pos))
  {
    assert Pow2(8) == 256 && lex[0..] == lex;
    var num := ParseNum(lex, UCHAR);
    if num.Failure? {
      return Failure(Error(BadIndex(lex), pos));
    }
    return Success(num.value);
  }
}
