/** The parser as functions on a token stream, and the proof that it accepts exactly the
    symbol strings of the grammar, each with its one derivation. */
module Grammar {
  import opened Chars
  import opened Wrappers
  import opened Position
  import opened Syntax
  import opened Numbers
  import opened Lexer

  datatype Rule = NodeArgsRule | ArgValueRule

  datatype What =
    | Scanning(why: Why)
    | Expected(want: Kind, got: Kind)
    | Unexpected(got: Kind, rule: Rule)
    | BadIndex(lex: string)

  datatype Error = Error(what: What, pos: Pos)

  datatype Token = Token(kind: Kind, lex: string, pos: Pos)

  /** The tokens of an input: up to its end, or up to the first text that is no token. */
  datatype Stream = Cons(tok: Token, rest: Stream) | End(tok: Token) | Torn(err: Error)

  function Tokens(s: string, i: nat, argCtxt: bool): Stream
    requires i <= |s|
    decreases |s| - i
  {
    var j := i + Skipped(s[i..]);
    match ScanToken(s[j..], argCtxt)
    case Fault(why, at) => Torn(Error(Scanning(why), PosAt(s, j + at)))
    case Lexeme(kind, lex, len) =>
      if kind == Eos then End(Token(Eos, "", PosAt(s, j)))
      else Cons(Token(kind, lex, PosAt(s, j)), Tokens(s, j + len, kind == Dot))
  }

  function Size(ts: Stream): nat {
    if ts.Cons? then 1 + Size(ts.rest) else 0
  }

  function Syms(ts: Stream): (ss: seq<Sym>)
    ensures |ss| == Size(ts) + 1
  {
    match ts
    case Cons(tok, rest) => [SymOf(tok.kind, tok.lex)] + Syms(rest)
    case End(_) => [EosSym]
    case Torn(_) => [FaultSym]
  }

  lemma SymsUnfold(s: string, i: nat, argCtxt: bool)
    requires i <= |s|
    ensures var j := i + Skipped(s[i..]);
            match ScanToken(s[j..], argCtxt)
            case Fault(_, _) => Syms(Tokens(s, i, argCtxt)) == [FaultSym]
            case Lexeme(kind, lex, len) =>
              Syms(Tokens(s, i, argCtxt))
              == if kind == Eos then [EosSym] else [SymOf(kind, lex)] + Syms(Tokens(s, j + len, kind == Dot))
  {
    hide ScanToken, Skipped, PosAt, SymOf;
  }

  /** The token stream carries the symbols of the text, whatever the positions. */
  lemma {:induction false} SymsOfTokens(s: string, i: nat, argCtxt: bool)
    requires i <= |s|
    ensures Syms(Tokens(s, i, argCtxt)) == LexSyms(s[i..], argCtxt)
    decreases |s| - i
  {
    hide ScanToken, Skipped, PosAt, SymOf, Tokens, Syms;
    var u := s[i..];
    var j := i + Skipped(u);
    SymsUnfold(s, i, argCtxt);
    assert s[j..] == u[Skipped(u)..];
    match ScanToken(s[j..], argCtxt)
    case Fault(_, _) =>
    case Lexeme(kind, _, len) =>
      if kind != Eos {
        assert u[Skipped(u)..][len..] == s[j + len..];
        SymsOfTokens(s, j + len, kind == Dot);
      }
  }

  // The parser. A stream that is not torn has a current token.

  function Head(ts: Stream): Kind
    requires !ts.Torn?
  {
    if ts.End? then Eos else ts.tok.kind
  }

  /** `eat_token`: the next token is scanned now, so its scanning error comes now. */
  function Next(ts: Stream): (r: Result<Stream, Error>)
    requires ts.Cons?
    ensures r.Success? ==> r.value == ts.rest && !ts.rest.Torn? && Size(ts.rest) < Size(ts)
  {
    if ts.rest.Torn? then Failure(ts.rest.err) else Success(ts.rest)
  }

  /** `need_token`. */
  function Need(kind: Kind, ts: Stream): (r: Result<(string, Stream), Error>)
    requires !ts.Torn? && kind != Eos
    ensures r.Success? ==> ts.Cons? && ts.tok.kind == kind && r.value == (ts.tok.lex, ts.rest) && !ts.rest.Torn?
    ensures r.Success? ==> Size(ts.rest) < Size(ts)
  {
    if Head(ts) != kind then Failure(Error(Expected(kind, Head(ts)), ts.tok.pos))
    else
      var rest :- Next(ts);
      Success((ts.tok.lex, rest))
  }

  /** `list_elem_idx`: the value of a NUM lexeme, when it fits an `unsigned char`. */
  function IndexOf(lex: string): (r: Option<ElemIndex>) {
    if AllDigits(lex) && DecValue(lex) < 256 then Some(DecValue(lex)) else None
  }

  function ParseTreeNode(ts: Stream): (r: Result<(TreeNode, Stream), Error>)
    requires !ts.Torn?
    ensures r.Success? ==> !r.value.1.Torn? && Size(r.value.1) < Size(ts)
    decreases Size(ts), 1
  {
    var (name, ts1) :- Need(Ident, ts);
    var (_, ts2) :- Need(OpenParen, ts1);
    var (args, ts3) :- ParseNodeArgs(ts2);
    var (_, ts4) :- Need(CloseParen, ts3);
    Success((TreeNode(name, args), ts4))
  }

  function ParseNodeArgs(ts: Stream): (r: Result<(NodeArgs, Stream), Error>)
    requires !ts.Torn?
    ensures r.Success? ==> !r.value.1.Torn? && Size(r.value.1) <= Size(ts)
    decreases Size(ts), 3
  {
    if Head(ts) == CloseParen || Head(ts) == Dot then
      var (list, ts1) :- ParseArgList([], ts);
      Success((ListArgs(list), ts1))
    else if Head(ts) == Str then
      var (s, ts1) :- Need(Str, ts);
      Success((LiteralArgs(s), ts1))
    else Failure(Error(Unexpected(Head(ts), NodeArgsRule), ts.tok.pos))
  }

  function ParseArgList(acc: seq<NodeArg>, ts: Stream): (r: Result<(seq<NodeArg>, Stream), Error>)
    requires !ts.Torn?
    ensures r.Success? ==> !r.value.1.Torn? && Size(r.value.1) <= Size(ts)
    decreases Size(ts), 2
  {
    if Head(ts) == Dot then
      var (a, ts1) :- ParseNodeArg(ts);
      ParseArgList(acc + [a], ts1)
    else Success((acc, ts))
  }

  function ParseNodeArg(ts: Stream): (r: Result<(NodeArg, Stream), Error>)
    requires !ts.Torn?
    ensures r.Success? ==> !r.value.1.Torn? && Size(r.value.1) < Size(ts)
    decreases Size(ts), 1
  {
    var (_, ts1) :- Need(Dot, ts);
    var (name, ts2) :- Need(Name, ts1);
    var (_, ts3) :- Need(Equal, ts2);
    var (value, ts4) :- ParseArgValue(ts3);
    Success((NodeArg(name, value), ts4))
  }

  function ParseArgValue(ts: Stream): (r: Result<(ArgValue, Stream), Error>)
    requires !ts.Torn?
    ensures r.Success? ==> !r.value.1.Torn? && Size(r.value.1) < Size(ts)
    decreases Size(ts), 2
  {
    if Head(ts) == Ident then
      var (n, ts1) :- ParseTreeNode(ts);
      Success((NodeValue(n), ts1))
    else if Head(ts) == KwList then
      var ts1 :- Next(ts);
      ParseNodeList(ts1)
    else if Head(ts) == Str then
      var (s, ts1) :- Need(Str, ts);
      Success((LiteralValue(s), ts1))
    else Failure(Error(Unexpected(Head(ts), ArgValueRule), ts.tok.pos))
  }

  function ParseNodeList(ts: Stream): (r: Result<(ArgValue, Stream), Error>)
    requires !ts.Torn?
    ensures r.Success? ==> !r.value.1.Torn? && Size(r.value.1) < Size(ts)
    decreases Size(ts), 3
  {
    var (_, ts1) :- Need(OpenAngBrk, ts);
    var (base, ts2) :- Need(Ident, ts1);
    var (_, ts3) :- Need(CloseAngBrk, ts2);
    var (_, ts4) :- Need(OpenSqBrk, ts3);
    var (elems, ts5) :- ParseElemList([], ts4);
    var (_, ts6) :- Need(CloseSqBrk, ts5);
    Success((ListValue(base, elems), ts6))
  }

  function ParseElemList(acc: seq<ListElem>, ts: Stream): (r: Result<(seq<ListElem>, Stream), Error>)
    requires !ts.Torn?
    ensures r.Success? ==> !r.value.1.Torn? && Size(r.value.1) <= Size(ts)
    decreases Size(ts), 2
  {
    if Head(ts) == OpenSqBrk then
      var (e, ts1) :- ParseListElem(ts);
      ParseElemList(acc + [e], ts1)
    else Success((acc, ts))
  }

  function ParseListElem(ts: Stream): (r: Result<(ListElem, Stream), Error>)
    requires !ts.Torn?
    ensures r.Success? ==> !r.value.1.Torn? && Size(r.value.1) < Size(ts)
    decreases Size(ts), 1
  {
    var (_, ts1) :- Need(OpenSqBrk, ts);
    var (num, ts2) :- Need(Num, ts1);
    if IndexOf(num).None? then Failure(Error(BadIndex(num), ts1.tok.pos))
    else
      var (_, ts3) :- Need(CloseSqBrk, ts2);
      var (_, ts4) :- Need(Equal, ts3);
      var (n, ts5) :- ParseTreeNode(ts4);
      Success((ListElem(IndexOf(num).value, n), ts5))
  }

  /** A newline that ends the input is part of the end of input. */
  function Folded(raw: string): string {
    if raw != "" && raw[|raw| - 1] == '\n' then raw[..|raw| - 1] else raw
  }

  function ParseTokens(ts: Stream): Result<TreeNode, Error> {
    if ts.Torn? then Failure(ts.err)
    else
      var (n, rest) :- ParseTreeNode(ts);
      if rest.End? then Success(n) else Failure(Error(Expected(Eos, Head(rest)), rest.tok.pos))
  }

  /** The whole parser: from an input to its tree, or to the first error. */
  function Parse(raw: string): Result<TreeNode, Error> {
    ParseTokens(Tokens(Folded(raw), 0, false))
  }

  // Soundness: what was parsed is a derivation of the symbols that were consumed.

  lemma SymsCons(ts: Stream)
    requires ts.Cons?
    ensures Syms(ts) == [SymOf(ts.tok.kind, ts.tok.lex)] + Syms(ts.rest)
  {
  }

  lemma {:induction false} SoundNode(ts: Stream)
    requires !ts.Torn? && ParseTreeNode(ts).Success?
    ensures var (n, rest) := ParseTreeNode(ts).value; Syms(ts) == Yield(n) + Syms(rest)
    decreases Size(ts), 1
  {
    hide ParseNodeArgs, YieldArgs;
    var (n, rest) := ParseTreeNode(ts).value;
    SoundArgs(ts.rest.rest);
    var (_, ts3) := ParseNodeArgs(ts.rest.rest).value;
    assert Syms(ts) == [IdentSym(n.name)] + ([Mark(OpenParen)] + Syms(ts.rest.rest));
    assert Syms(ts3) == [Mark(CloseParen)] + Syms(rest);
  }

  lemma {:induction false} SoundArgs(ts: Stream)
    requires !ts.Torn? && ParseNodeArgs(ts).Success?
    ensures var (a, rest) := ParseNodeArgs(ts).value; Syms(ts) == YieldArgs(a) + Syms(rest)
    decreases Size(ts), 3
  {
    hide ParseArgList, YieldArgsFrom;
    if Head(ts) != Str {
      SoundArgList([], ts);
    }
  }

  lemma {:induction false} SoundArgList(acc: seq<NodeArg>, ts: Stream)
    requires !ts.Torn? && ParseArgList(acc, ts).Success?
    ensures var (list, rest) := ParseArgList(acc, ts).value;
            acc <= list && Syms(ts) == YieldArgsFrom(list, |acc|) + Syms(rest)
    decreases Size(ts), 2
  {
    hide ParseNodeArg, YieldArg, Syms;
    if Head(ts) == Dot {
      var (a, ts1) := ParseNodeArg(ts).value;
      SoundArg(ts);
      SoundArgList(acc + [a], ts1);
      var (list, rest) := ParseArgList(acc, ts).value;
      assert list[|acc|] == (acc + [a])[|acc|];
      assert Syms(ts) == YieldArg(a) + YieldArgsFrom(list, |acc| + 1) + Syms(rest);
    }
  }

  lemma {:induction false} SoundArg(ts: Stream)
    requires !ts.Torn? && ParseNodeArg(ts).Success?
    ensures var (a, rest) := ParseNodeArg(ts).value; Syms(ts) == YieldArg(a) + Syms(rest)
    decreases Size(ts), 1
  {
    hide ParseArgValue, YieldValue, Syms;
    var (a, rest) := ParseNodeArg(ts).value;
    var ts3 := ts.rest.rest.rest;
    SymsCons(ts);
    SymsCons(ts.rest);
    SymsCons(ts.rest.rest);
    SoundValue(ts3);
    assert Syms(ts) == [Mark(Dot)] + ([NameSym(a.name)] + ([Mark(Equal)] + Syms(ts3)));
  }

  lemma {:induction false} SoundValue(ts: Stream)
    requires !ts.Torn? && ParseArgValue(ts).Success?
    ensures var (v, rest) := ParseArgValue(ts).value; Syms(ts) == YieldValue(v) + Syms(rest)
    decreases Size(ts), 2
  {
    hide ParseTreeNode, ParseNodeList, Yield;
    if Head(ts) == Ident {
      SoundNode(ts);
    } else if Head(ts) == KwList {
      SoundList(ts.rest);
    }
  }

  lemma {:induction false} SoundList(ts: Stream)
    requires !ts.Torn? && ParseNodeList(ts).Success?
    ensures var (v, rest) := ParseNodeList(ts).value;
            v.ListValue? && [Mark(KwList)] + Syms(ts) == YieldValue(v) + Syms(rest)
    decreases Size(ts), 3
  {
    hide ParseElemList, YieldElemsFrom, Syms, Size;
    var (v, rest) := ParseNodeList(ts).value;
    var ts4 := ts.rest.rest.rest.rest;
    SoundElemList([], ts4);
    var (elems, ts5) := ParseElemList([], ts4).value;
    var y := YieldElemsFrom(elems, 0) + Syms(ts5);
    SymsCons(ts);
    SymsCons(ts.rest);
    SymsCons(ts.rest.rest);
    SymsCons(ts.rest.rest.rest);
    SymsCons(ts5);
    assert [Mark(KwList)] + Syms(ts)
        == [Mark(KwList), Mark(OpenAngBrk), IdentSym(v.base), Mark(CloseAngBrk), Mark(OpenSqBrk)] + y;
  }

  lemma {:induction false} SoundElemList(acc: seq<ListElem>, ts: Stream)
    requires !ts.Torn? && ParseElemList(acc, ts).Success?
    ensures var (elems, rest) := ParseElemList(acc, ts).value;
            acc <= elems && Syms(ts) == YieldElemsFrom(elems, |acc|) + Syms(rest)
    decreases Size(ts), 2
  {
    hide ParseListElem, YieldElem, Syms;
    if Head(ts) == OpenSqBrk {
      var (e, ts1) := ParseListElem(ts).value;
      SoundElem(ts);
      SoundElemList(acc + [e], ts1);
      var (elems, rest) := ParseElemList(acc, ts).value;
      assert elems[|acc|] == (acc + [e])[|acc|];
      assert Syms(ts) == YieldElem(e) + YieldElemsFrom(elems, |acc| + 1) + Syms(rest);
    }
  }

  lemma {:induction false} SoundElem(ts: Stream)
    requires !ts.Torn? && ParseListElem(ts).Success?
    ensures var (e, rest) := ParseListElem(ts).value; Syms(ts) == YieldElem(e) + Syms(rest)
    decreases Size(ts), 1
  {
    hide ParseTreeNode, Yield, DecValue, Syms;
    var (e, rest) := ParseListElem(ts).value;
    var ts4 := ts.rest.rest.rest.rest;
    SymsCons(ts);
    SymsCons(ts.rest);
    SymsCons(ts.rest.rest);
    SymsCons(ts.rest.rest.rest);
    SoundNode(ts4);
    assert Syms(ts.rest.rest) == [Mark(CloseSqBrk)] + ([Mark(Equal)] + Syms(ts4));
    assert Syms(ts) == [Mark(OpenSqBrk)] + ([NumSym(e.index)] + Syms(ts.rest.rest));
  }

  // Completeness: a derivation of the symbols ahead is found, and nothing more is consumed.

  /** Something follows, and it can be scanned. */
  predicate Follows(x: seq<Sym>) {
    |x| > 0 && x[0] != FaultSym
  }

  lemma Eat(ts: Stream, a: Sym, x: seq<Sym>)
    requires Syms(ts) == [a] + x && Follows(x) && a != FaultSym
    ensures ts.Cons? && SymOf(ts.tok.kind, ts.tok.lex) == a && !ts.rest.Torn? && Syms(ts.rest) == x
  {
    assert Syms(ts)[1..] == x && Syms(ts)[0] == a;
    if ts.Cons? {
      assert Syms(ts)[1..] == Syms(ts.rest);
    }
  }

  lemma HeadIs(ts: Stream)
    requires !ts.Torn?
    ensures Syms(ts)[0] == if ts.End? then EosSym else SymOf(ts.tok.kind, ts.tok.lex)
  {
  }

  lemma {:induction false} CompleteNode(n: TreeNode, ts: Stream, x: seq<Sym>)
    requires !ts.Torn? && Syms(ts) == Yield(n) + x && Follows(x)
    ensures ParseTreeNode(ts).Success?
    ensures var (m, rest) := ParseTreeNode(ts).value; m == n && Syms(rest) == x
    decreases n, 0
  {
    hide ParseNodeArgs, YieldArgs, Syms;
    var y := YieldArgs(n.args) + ([Mark(CloseParen)] + x);
    assert Yield(n) + x == [IdentSym(n.name)] + ([Mark(OpenParen)] + y);
    YieldArgsFollow(n.args, [Mark(CloseParen)] + x);
    Eat(ts, IdentSym(n.name), [Mark(OpenParen)] + y);
    Eat(ts.rest, Mark(OpenParen), y);
    CompleteArgs(n.args, ts.rest.rest, [Mark(CloseParen)] + x);
    var (_, ts3) := ParseNodeArgs(ts.rest.rest).value;
    Eat(ts3, Mark(CloseParen), x);
  }

  lemma YieldArgsFollow(a: NodeArgs, x: seq<Sym>)
    requires Follows(x)
    ensures Follows(YieldArgs(a) + x)
  {
    hide YieldValue;
    if a.ListArgs? && a.list != [] {
      assert YieldArgsFrom(a.list, 0) == YieldArg(a.list[0]) + YieldArgsFrom(a.list, 1);
    }
  }

  lemma YieldValueFollows(v: ArgValue, x: seq<Sym>)
    ensures Follows(YieldValue(v) + x)
  {
    hide YieldArgs, YieldElemsFrom;
  }

  lemma {:induction false} CompleteArgs(a: NodeArgs, ts: Stream, x: seq<Sym>)
    requires !ts.Torn? && Syms(ts) == YieldArgs(a) + x
    requires Follows(x) && x[0] == Mark(CloseParen)
    ensures ParseNodeArgs(ts).Success?
    ensures var (b, rest) := ParseNodeArgs(ts).value; b == a && Syms(rest) == x
    decreases a, 0
  {
    hide ParseArgList, YieldArg, Syms;
    HeadIs(ts);
    match a
    case LiteralArgs(s) =>
      Eat(ts, StrSym(s), x);
    case ListArgs(list) =>
      YieldArgsHead(list, 0, x);
      CompleteArgList(list, 0, ts, x);
      assert list[..0] == [];
  }

  lemma YieldArgsHead(list: seq<NodeArg>, k: nat, x: seq<Sym>)
    requires k <= |list| && Follows(x)
    ensures Follows(YieldArgsFrom(list, k) + x)
    ensures (YieldArgsFrom(list, k) + x)[0] == if k < |list| then Mark(Dot) else x[0]
  {
    hide YieldValue;
  }

  lemma {:induction false} CompleteArgList(list: seq<NodeArg>, k: nat, ts: Stream, x: seq<Sym>)
    requires !ts.Torn? && k <= |list| && Syms(ts) == YieldArgsFrom(list, k) + x
    requires Follows(x) && x[0] == Mark(CloseParen)
    ensures ParseArgList(list[..k], ts).Success?
    ensures var (all, rest) := ParseArgList(list[..k], ts).value; all == list && Syms(rest) == x
    decreases list, |list| - k
  {
    hide ParseNodeArg, YieldArg, Syms;
    HeadIs(ts);
    YieldArgsHead(list, k, x);
    if k < |list| {
      var y := YieldArgsFrom(list, k + 1) + x;
      YieldArgsHead(list, k + 1, x);
      assert Syms(ts) == YieldArg(list[k]) + y;
      CompleteArg(list[k], ts, y);
      assert list[..k] + [list[k]] == list[..k + 1];
      CompleteArgList(list, k + 1, ParseNodeArg(ts).value.1, x);
    } else {
      assert list[..k] == list;
    }
  }

  lemma {:induction false} CompleteArg(a: NodeArg, ts: Stream, x: seq<Sym>)
    requires !ts.Torn? && Syms(ts) == YieldArg(a) + x && Follows(x)
    ensures ParseNodeArg(ts).Success?
    ensures var (b, rest) := ParseNodeArg(ts).value; b == a && Syms(rest) == x
    decreases a, 0
  {
    hide ParseArgValue, YieldValue, Syms;
    var y := YieldValue(a.value) + x;
    assert YieldArg(a) + x == [Mark(Dot)] + ([NameSym(a.name)] + ([Mark(Equal)] + y));
    YieldValueFollows(a.value, x);
    Eat(ts, Mark(Dot), [NameSym(a.name)] + ([Mark(Equal)] + y));
    Eat(ts.rest, NameSym(a.name), [Mark(Equal)] + y);
    Eat(ts.rest.rest, Mark(Equal), y);
    CompleteValue(a.value, ts.rest.rest.rest, x);
  }

  lemma {:induction false} CompleteValue(v: ArgValue, ts: Stream, x: seq<Sym>)
    requires !ts.Torn? && Syms(ts) == YieldValue(v) + x && Follows(x)
    ensures ParseArgValue(ts).Success?
    ensures var (w, rest) := ParseArgValue(ts).value; w == v && Syms(rest) == x
    decreases v, 0
  {
    hide ParseTreeNode, ParseNodeList, YieldArgs, YieldElemsFrom, Syms;
    HeadIs(ts);
    match v
    case NodeValue(n) =>
      CompleteNode(n, ts, x);
    case LiteralValue(s) =>
      Eat(ts, StrSym(s), x);
    case ListValue(base, elems) =>
      var y2 := YieldElemsFrom(elems, 0) + ([Mark(CloseSqBrk)] + x);
      var y1 := [IdentSym(base)] + ([Mark(CloseAngBrk)] + ([Mark(OpenSqBrk)] + y2));
      assert Syms(ts) == [Mark(KwList)] + ([Mark(OpenAngBrk)] + y1);
      Eat(ts, Mark(KwList), [Mark(OpenAngBrk)] + y1);
      CompleteList(base, elems, ts.rest, x);
  }

  /** The tokens of a list before its elements. */
  lemma ListOpens(base: string, ts: Stream, y: seq<Sym>)
    requires !ts.Torn? && Follows(y)
    requires Syms(ts) == [Mark(OpenAngBrk)] + ([IdentSym(base)] + ([Mark(CloseAngBrk)] + ([Mark(OpenSqBrk)] + y)))
    ensures Need(OpenAngBrk, ts).Success? && Need(Ident, ts.rest).Success? && ts.rest.tok.lex == base
    ensures Need(CloseAngBrk, ts.rest.rest).Success? && Need(OpenSqBrk, ts.rest.rest.rest).Success?
    ensures Syms(ts.rest.rest.rest.rest) == y
  {
    hide Syms, Size;
    Eat(ts, Mark(OpenAngBrk), [IdentSym(base)] + ([Mark(CloseAngBrk)] + ([Mark(OpenSqBrk)] + y)));
    Eat(ts.rest, IdentSym(base), [Mark(CloseAngBrk)] + ([Mark(OpenSqBrk)] + y));
    Eat(ts.rest.rest, Mark(CloseAngBrk), [Mark(OpenSqBrk)] + y);
    Eat(ts.rest.rest.rest, Mark(OpenSqBrk), y);
  }

  lemma {:induction false} CompleteList(base: string, elems: seq<ListElem>, ts: Stream, x: seq<Sym>)
    requires !ts.Torn? && Follows(x)
    requires Syms(ts) == [Mark(OpenAngBrk)] + ([IdentSym(base)] + ([Mark(CloseAngBrk)]
                       + ([Mark(OpenSqBrk)] + (YieldElemsFrom(elems, 0) + ([Mark(CloseSqBrk)] + x)))))
    ensures ParseNodeList(ts).Success?
    ensures var (w, rest) := ParseNodeList(ts).value; w == ListValue(base, elems) && Syms(rest) == x
    decreases elems, |elems| + 1
  {
    hide ParseElemList, YieldElemsFrom, Syms, Size;
    var z := [Mark(CloseSqBrk)] + x;
    YieldElemsHead(elems, 0, z);
    ListOpens(base, ts, YieldElemsFrom(elems, 0) + z);
    var ts4 := ts.rest.rest.rest.rest;
    CompleteElemList(elems, 0, ts4, z);
    assert elems[..0] == [];
    Eat(ParseElemList([], ts4).value.1, Mark(CloseSqBrk), x);
  }

  lemma YieldElemsHead(elems: seq<ListElem>, k: nat, x: seq<Sym>)
    requires k <= |elems| && Follows(x)
    ensures Follows(YieldElemsFrom(elems, k) + x)
    ensures (YieldElemsFrom(elems, k) + x)[0] == if k < |elems| then Mark(OpenSqBrk) else x[0]
  {
    hide Yield;
  }

  lemma {:induction false} CompleteElemList(elems: seq<ListElem>, k: nat, ts: Stream, x: seq<Sym>)
    requires !ts.Torn? && k <= |elems| && Syms(ts) == YieldElemsFrom(elems, k) + x
    requires Follows(x) && x[0] == Mark(CloseSqBrk)
    ensures ParseElemList(elems[..k], ts).Success?
    ensures var (all, rest) := ParseElemList(elems[..k], ts).value; all == elems && Syms(rest) == x
    decreases elems, |elems| - k
  {
    hide ParseListElem, YieldElem, Syms;
    HeadIs(ts);
    YieldElemsHead(elems, k, x);
    if k < |elems| {
      var y := YieldElemsFrom(elems, k + 1) + x;
      YieldElemsHead(elems, k + 1, x);
      assert Syms(ts) == YieldElem(elems[k]) + y;
      CompleteElem(elems[k], ts, y);
      assert elems[..k] + [elems[k]] == elems[..k + 1];
      CompleteElemList(elems, k + 1, ParseListElem(ts).value.1, x);
    } else {
      assert elems[..k] == elems;
    }
  }

  lemma {:induction false} CompleteElem(e: ListElem, ts: Stream, x: seq<Sym>)
    requires !ts.Torn? && Syms(ts) == YieldElem(e) + x && Follows(x)
    ensures ParseListElem(ts).Success?
    ensures var (f, rest) := ParseListElem(ts).value; f == e && Syms(rest) == x
    decreases e, 0
  {
    hide ParseTreeNode, YieldArgs, Syms, DecValue, Size;
    var y := Yield(e.node) + x;
    assert YieldElem(e) + x == [Mark(OpenSqBrk)] + ([NumSym(e.index)] + ([Mark(CloseSqBrk)] + ([Mark(Equal)] + y)));
    Eat(ts, Mark(OpenSqBrk), [NumSym(e.index)] + ([Mark(CloseSqBrk)] + ([Mark(Equal)] + y)));
    Eat(ts.rest, NumSym(e.index), [Mark(CloseSqBrk)] + ([Mark(Equal)] + y));
    Eat(ts.rest.rest, Mark(CloseSqBrk), [Mark(Equal)] + y);
    Eat(ts.rest.rest.rest, Mark(Equal), y);
    CompleteNode(e.node, ts.rest.rest.rest.rest, x);
  }

  /** The parser accepts exactly the symbol strings that the grammar derives from `tree`,
      and returns the derivation. */
  lemma ParserIsTheGrammar(raw: string, n: TreeNode)
    ensures Parse(raw) == Success(n) <==> LexSyms(Folded(raw), false) == Yield(n) + [EosSym]
  {
    hide ParseTreeNode, Yield, Syms, LexSyms, Tokens;
    var s := Folded(raw);
    var ts := Tokens(s, 0, false);
    SymsOfTokens(s, 0, false);
    assert s[0..] == s;
    if Parse(raw) == Success(n) {
      SoundNode(ts);
      OnlyEos(ParseTreeNode(ts).value.1);
    }
    if LexSyms(s, false) == Yield(n) + [EosSym] {
      NotTorn(n, ts);
      CompleteNode(n, ts, [EosSym]);
      OnlyEos(ParseTreeNode(ts).value.1);
    }
  }

  lemma NotTorn(n: TreeNode, ts: Stream)
    requires Syms(ts) == Yield(n) + [EosSym]
    ensures !ts.Torn?
  {
    hide YieldArgs;
    assert Syms(ts)[0] == IdentSym(n.name);
  }

  lemma OnlyEos(ts: Stream)
    requires !ts.Torn?
    ensures ts.End? <==> Syms(ts) == [EosSym]
  {
  }

  /** The grammar is unambiguous. */
  lemma GrammarIsUnambiguous(raw: string, m: TreeNode, n: TreeNode)
    requires LexSyms(Folded(raw), false) == Yield(m) + [EosSym] == Yield(n) + [EosSym]
    ensures m == n
  {
    ParserIsTheGrammar(raw, m);
    ParserIsTheGrammar(raw, n);
  }
}
