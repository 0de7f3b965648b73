/** Which token an error names. */
module Errors {
  import opened Wrappers
  import opened Chars
  import opened Position
  import opened Syntax
  import opened Numbers
  import opened Lexer
  import opened Grammar
  import opened Spelling
  import opened Places

  // What an error is about.

  /** The error is about the `k`-th symbol of the stream, and is reported at its position. */
  predicate About(e: Error, ts: Stream, k: nat)
    decreases k
  {
    if k > 0 then ts.Cons? && About(e, ts.rest, k - 1)
    else if ts.Torn? then e == ts.err
    else
      && e.pos == ts.tok.pos
      && match e.what
         case Scanning(_) => false
         case Expected(want, got) => got == Head(ts) != want
         case Unexpected(got, _) => got == Head(ts)
         case BadIndex(lex) => Head(ts) == Num && ts.tok.lex == lex && IndexOf(lex).None?
  }

  /** The two streams carry the same first `k` symbols. */
  predicate Alike(ts: Stream, us: Stream, k: nat)
    decreases k
  {
    k > 0 ==>
      match ts
      case Torn(_) => us.Torn?
      case End(_) => us.End?
      case Cons(t, r) =>
        us.Cons? && us.tok.kind == t.kind && SymOf(us.tok.kind, us.tok.lex) == SymOf(t.kind, t.lex)
        && Alike(r, us.rest, k - 1)
  }

  // A parse that succeeds depends on what it consumes and on one more token.

  function Drop(ts: Stream, n: nat): (r: Stream)
    requires n <= Size(ts)
    ensures Size(r) == Size(ts) - n
    decreases n
  {
    if n == 0 then ts else Drop(ts.rest, n - 1)
  }

  lemma {:induction false} DropMore(ts: Stream, m: nat, n: nat)
    requires m + n <= Size(ts)
    ensures Drop(Drop(ts, m), n) == Drop(ts, m + n)
    decreases m
  {
    if m > 0 {
      DropMore(ts.rest, m - 1, n);
    }
  }

  lemma DropNone(ts: Stream)
    ensures Drop(ts, 0) == ts
  {
  }

  lemma DropRest(ts: Stream, m: nat)
    requires m < Size(ts)
    ensures Drop(ts, m).Cons? && Drop(ts, m).rest == Drop(ts, m + 1)
  {
    DropMore(ts, m, 1);
    assert Drop(Drop(ts, m), 1) == Drop(ts, m).rest;
  }

  lemma DropFew(ts: Stream)
    requires ts.Cons?
    ensures Drop(ts, 1) == ts.rest
    ensures ts.rest.Cons? ==> Drop(ts, 2) == ts.rest.rest
    ensures ts.rest.Cons? && ts.rest.rest.Cons? ==> Drop(ts, 3) == ts.rest.rest.rest
    ensures ts.rest.Cons? && ts.rest.rest.Cons? && ts.rest.rest.rest.Cons? ==> Drop(ts, 4) == ts.rest.rest.rest.rest
  {
    if ts.rest.Cons? {
      assert Drop(ts, 2) == Drop(ts.rest, 1);
    }
  }

  /** Parsing `us` gives what parsing `ts` gave, and leaves symbols alike; what is left of
      `ts` is a later part of it. */
  predicate Same<T(==)>(ts: Stream, r: Result<(T, Stream), Error>, q: Result<(T, Stream), Error>, k: nat) {
    r.Success? && Size(r.value.1) <= Size(ts) ==>
      var n := Size(ts) - Size(r.value.1);
      && r.value.1 == Drop(ts, n)
      && q.Success? && q.value.0 == r.value.0 && (n < k ==> Alike(r.value.1, q.value.1, k - n))
  }

  lemma SameNeed(kind: Kind, ts: Stream, us: Stream, k: nat)
    requires !ts.Torn? && kind != Eos && Need(kind, ts).Success? && Alike(ts, us, k) && k > 1
    ensures !us.Torn? && Need(kind, us).Success? && Alike(ts.rest, us.rest, k - 1)
    ensures kind in {Ident, Name, Str} ==> Need(kind, us).value.0 == Need(kind, ts).value.0
    ensures kind == Num ==> IndexOf(us.tok.lex) == IndexOf(ts.tok.lex)
  {
  }

  lemma {:induction false} SameNode(ts: Stream, us: Stream, k: nat)
    requires !ts.Torn? && !us.Torn? && ParseTreeNode(ts).Success? && Alike(ts, us, k)
    requires Size(ts) - Size(ParseTreeNode(ts).value.1) < k
    ensures Same(ts, ParseTreeNode(ts), ParseTreeNode(us), k)
    decreases Size(ts), 1
  {
    hide ParseNodeArgs, Alike, IndexOf;
    SameNeed(Ident, ts, us, k);
    SameNeed(OpenParen, ts.rest, us.rest, k - 1);
    SameArgs(ts.rest.rest, us.rest.rest, k - 2);
    var (_, ts3) := ParseNodeArgs(ts.rest.rest).value;
    var (_, us3) := ParseNodeArgs(us.rest.rest).value;
    SameNeed(CloseParen, ts3, us3, k - (Size(ts) - Size(ts3)));
    DropFew(ts);
    DropMore(ts, 2, Size(ts) - 2 - Size(ts3));
    DropRest(ts, Size(ts) - Size(ts3));
  }

  lemma {:induction false} SameArgs(ts: Stream, us: Stream, k: nat)
    requires !ts.Torn? && !us.Torn? && ParseNodeArgs(ts).Success? && Alike(ts, us, k)
    requires Size(ts) - Size(ParseNodeArgs(ts).value.1) < k
    ensures Same(ts, ParseNodeArgs(ts), ParseNodeArgs(us), k)
    decreases Size(ts), 3
  {
    hide ParseArgList, IndexOf;
    if Head(ts) == Str {
      SameNeed(Str, ts, us, k);
      DropFew(ts);
    } else {
      SameArgList([], ts, us, k);
    }
  }

  lemma {:induction false} SameArgList(acc: seq<NodeArg>, ts: Stream, us: Stream, k: nat)
    requires !ts.Torn? && !us.Torn? && ParseArgList(acc, ts).Success? && Alike(ts, us, k)
    requires Size(ts) - Size(ParseArgList(acc, ts).value.1) < k
    ensures Same(ts, ParseArgList(acc, ts), ParseArgList(acc, us), k)
    decreases Size(ts), 2
  {
    hide ParseNodeArg, IndexOf, Alike, Drop;
    HeadsAlike(ts, us, k);
    DropNone(ts);
    if Head(ts) == Dot {
      var (a, ts1) := ParseNodeArg(ts).value;
      SameArg(ts, us, k);
      SameArgList(acc + [a], ts1, ParseNodeArg(us).value.1, k - (Size(ts) - Size(ts1)));
      var rest := ParseArgList(acc, ts).value.1;
      DropMore(ts, Size(ts) - Size(ts1), Size(ts1) - Size(rest));
    }
  }

  lemma {:induction false} SameArg(ts: Stream, us: Stream, k: nat)
    requires !ts.Torn? && !us.Torn? && ParseNodeArg(ts).Success? && Alike(ts, us, k)
    requires Size(ts) - Size(ParseNodeArg(ts).value.1) < k
    ensures Same(ts, ParseNodeArg(ts), ParseNodeArg(us), k)
    decreases Size(ts), 1
  {
    hide ParseArgValue, Alike, IndexOf;
    SameNeed(Dot, ts, us, k);
    SameNeed(Name, ts.rest, us.rest, k - 1);
    SameNeed(Equal, ts.rest.rest, us.rest.rest, k - 2);
    SameValue(ts.rest.rest.rest, us.rest.rest.rest, k - 3);
    DropFew(ts);
    DropMore(ts, 3, Size(ts) - 3 - Size(ParseNodeArg(ts).value.1));
  }

  lemma {:induction false} SameValue(ts: Stream, us: Stream, k: nat)
    requires !ts.Torn? && !us.Torn? && ParseArgValue(ts).Success? && Alike(ts, us, k)
    requires Size(ts) - Size(ParseArgValue(ts).value.1) < k
    ensures Same(ts, ParseArgValue(ts), ParseArgValue(us), k)
    decreases Size(ts), 2
  {
    hide ParseTreeNode, ParseNodeList, IndexOf, Alike, Drop;
    HeadsAlike(ts, us, k);
    if Head(ts) == Ident {
      SameNode(ts, us, k);
    } else if Head(ts) == KwList {
      AlikeRest(ts, us, k);
      TornAlike(ts.rest, us.rest, k - 1);
      SameList(ts.rest, us.rest, k - 1);
      DropFew(ts);
      DropMore(ts, 1, Size(ts) - 1 - Size(ParseArgValue(ts).value.1));
    } else {
      SameNeed(Str, ts, us, k);
      DropFew(ts);
    }
  }

  lemma SameBeforeElems(ts: Stream, us: Stream, k: nat)
    requires !ts.Torn? && !us.Torn? && Alike(ts, us, k) && k > 4
    requires Need(OpenAngBrk, ts).Success? && Need(Ident, ts.rest).Success?
    requires Need(CloseAngBrk, ts.rest.rest).Success? && Need(OpenSqBrk, ts.rest.rest.rest).Success?
    ensures Need(OpenAngBrk, us).Success? && Need(Ident, us.rest).Success? && us.rest.tok.lex == ts.rest.tok.lex
    ensures Need(CloseAngBrk, us.rest.rest).Success? && Need(OpenSqBrk, us.rest.rest.rest).Success?
    ensures Alike(ts.rest.rest.rest.rest, us.rest.rest.rest.rest, k - 4)
  {
    hide Alike, IndexOf, Size;
    SameNeed(OpenAngBrk, ts, us, k);
    SameNeed(Ident, ts.rest, us.rest, k - 1);
    SameNeed(CloseAngBrk, ts.rest.rest, us.rest.rest, k - 2);
    SameNeed(OpenSqBrk, ts.rest.rest.rest, us.rest.rest.rest, k - 3);
  }

  lemma {:induction false} SameList(ts: Stream, us: Stream, k: nat)
    requires !ts.Torn? && !us.Torn? && ParseNodeList(ts).Success? && Alike(ts, us, k)
    requires Size(ts) - Size(ParseNodeList(ts).value.1) < k
    ensures Same(ts, ParseNodeList(ts), ParseNodeList(us), k)
    decreases Size(ts), 3
  {
    hide ParseElemList, Alike, IndexOf;
    SameBeforeElems(ts, us, k);
    var ts4, us4 := ts.rest.rest.rest.rest, us.rest.rest.rest.rest;
    SameElemList([], ts4, us4, k - 4);
    var (_, ts5) := ParseElemList([], ts4).value;
    var (_, us5) := ParseElemList([], us4).value;
    SameNeed(CloseSqBrk, ts5, us5, k - (Size(ts) - Size(ts5)));
    DropFew(ts);
    DropMore(ts, 4, Size(ts) - 4 - Size(ts5));
    DropRest(ts, Size(ts) - Size(ts5));
  }

  lemma {:induction false} SameElemList(acc: seq<ListElem>, ts: Stream, us: Stream, k: nat)
    requires !ts.Torn? && !us.Torn? && ParseElemList(acc, ts).Success? && Alike(ts, us, k)
    requires Size(ts) - Size(ParseElemList(acc, ts).value.1) < k
    ensures Same(ts, ParseElemList(acc, ts), ParseElemList(acc, us), k)
    decreases Size(ts), 2
  {
    hide ParseListElem, IndexOf, Alike, Drop;
    HeadsAlike(ts, us, k);
    DropNone(ts);
    if Head(ts) == OpenSqBrk {
      var (e, ts1) := ParseListElem(ts).value;
      SameElem(ts, us, k);
      SameElemList(acc + [e], ts1, ParseListElem(us).value.1, k - (Size(ts) - Size(ts1)));
      var rest := ParseElemList(acc, ts).value.1;
      DropMore(ts, Size(ts) - Size(ts1), Size(ts1) - Size(rest));
    }
  }

  lemma {:induction false} SameElem(ts: Stream, us: Stream, k: nat)
    requires !ts.Torn? && !us.Torn? && ParseListElem(ts).Success? && Alike(ts, us, k)
    requires Size(ts) - Size(ParseListElem(ts).value.1) < k
    ensures Same(ts, ParseListElem(ts), ParseListElem(us), k)
    decreases Size(ts), 1
  {
    hide ParseTreeNode, Alike, IndexOf;
    SameNeed(OpenSqBrk, ts, us, k);
    SameNeed(Num, ts.rest, us.rest, k - 1);
    SameNeed(CloseSqBrk, ts.rest.rest, us.rest.rest, k - 2);
    SameNeed(Equal, ts.rest.rest.rest, us.rest.rest.rest, k - 3);
    SameNode(ts.rest.rest.rest.rest, us.rest.rest.rest.rest, k - 4);
    DropFew(ts);
    DropMore(ts, 4, Size(ts) - 4 - Size(ParseListElem(ts).value.1));
  }

  // A parse that fails: the symbols before the one to blame can be completed, and no stream
  // with the same symbols up to that one parses.

  function KindOf(y: Sym): Kind {
    match y
    case Mark(k) => k
    case IdentSym(_) => Ident
    case NameSym(_) => Name
    case StrSym(_) => Str
    case NumSym(_) => Num
    case EosSym => Eos
    case FaultSym => Bos
  }

  predicate TornAt(ts: Stream, k: nat) {
    k <= Size(ts) && Drop(ts, k).Torn?
  }

  /** The `j`-th symbol is a number too large for an index, and no token follows it. */
  predicate LateAt(ts: Stream, j: nat) {
    && j < Size(ts) && Drop(ts, j).tok.kind == Num && IndexOf(Drop(ts, j).tok.lex).None? && Drop(ts, j).rest.Torn?
  }

  /** The error is about the `k`-th symbol, and `w` completes the first `j` to `y`, going on
      with `alt` where the error leaves the choice; `j` is `k`, unless the error comes late. */
  predicate Blamed(e: Error, ts: Stream, k: nat, j: nat, y: seq<Sym>, w: seq<Sym>, alt: Kind) {
    Pinned(e, ts, k, j, w, alt) && Completes(Syms(ts), j, y, w)
  }

  predicate Pinned(e: Error, ts: Stream, k: nat, j: nat, w: seq<Sym>, alt: Kind) {
    && About(e, ts, k) && k <= Size(ts)
    && (j == k || (j + 1 == k && LateAt(ts, j) && TornAt(ts, k)))
    && if w == [] then j == k && TornAt(ts, k) else NextIs(e, ts, k, j, KindOf(w[0]), alt)
  }

  /** The kinds of token that a rule may begin with, or that may stand in its place. */
  function Choices(rule: Rule): set<Kind> {
    match rule
    case NodeArgsRule => {CloseParen, Dot, Str}
    case ArgValueRule => {Ident, KwList, Str}
  }

  /** The completion goes on with a kind of token that the error asks for. */
  predicate NextIs(e: Error, ts: Stream, k: nat, j: nat, next: Kind, alt: Kind) {
    && (j < k ==> next == Num)
    && (j == k && !TornAt(ts, k) ==>
          match e.what
          case Scanning(_) => true
          case Expected(want, _) => next == want
          case Unexpected(_, rule) => alt in Choices(rule) ==> next == alt
          case BadIndex(_) => next == Num && !TornAt(ts, k + 1))
  }

  /** One symbol earlier. */
  lemma Earlier(e: Error, ts: Stream, k: nat, j: nat, y: seq<Sym>, w: seq<Sym>, alt: Kind)
    requires ts.Cons? && Blamed(e, ts.rest, k, j, y, w, alt)
    ensures Blamed(e, ts, k + 1, j + 1, [SymOf(ts.tok.kind, ts.tok.lex)] + y, w, alt)
  {
    hide SymOf, IndexOf;
    assert Syms(ts)[..j + 1] == [SymOf(ts.tok.kind, ts.tok.lex)] + Syms(ts.rest)[..j];
    assert j < Size(ts.rest) ==> Drop(ts, j + 1) == Drop(ts.rest, j);
    assert Drop(ts, k + 1) == Drop(ts.rest, k);
  }

  lemma {:induction false} LaterAbout(e: Error, ts: Stream, n: nat, k: nat)
    requires n + k <= Size(ts) && About(e, Drop(ts, n), k)
    ensures About(e, ts, n + k)
    decreases n
  {
    if n > 0 {
      LaterAbout(e, ts.rest, n - 1, k);
    }
  }

  /** The symbols `a` were consumed, and `rest` is left. */
  predicate Consumed(ts: Stream, a: seq<Sym>, rest: Stream) {
    Syms(ts) == a + Syms(rest) && |a| <= Size(ts) && rest == Drop(ts, |a|)
  }

  lemma Consumes(ts: Stream, a: seq<Sym>, rest: Stream)
    requires Syms(ts) == a + Syms(rest) && Size(rest) <= Size(ts) && rest == Drop(ts, Size(ts) - Size(rest))
    ensures Consumed(ts, a, rest) && |a| == Size(ts) - Size(rest)
  {
    hide Syms, Drop;
    assert |Syms(ts)| == |a| + |Syms(rest)|;
  }

  /** After symbols that were parsed as `a`. */
  lemma After(e: Error, ts: Stream, a: seq<Sym>, rest: Stream, k: nat, j: nat, y: seq<Sym>, w: seq<Sym>, alt: Kind)
    requires Consumed(ts, a, rest) && Blamed(e, rest, k, j, y, w, alt)
    ensures Blamed(e, ts, |a| + k, |a| + j, a + y, w, alt)
  {
    hide Syms, Drop, Pinned, Completes, Consumed;
    Leaves(ts, a, rest);
    AfterPinned(e, ts, |a|, k, j, w, alt);
    Spliced(ts, a, rest, j, y, w);
  }

  lemma Leaves(ts: Stream, a: seq<Sym>, rest: Stream)
    requires Consumed(ts, a, rest)
    ensures |a| <= Size(ts) && rest == Drop(ts, |a|)
  {
  }

  lemma AfterPinned(e: Error, ts: Stream, n: nat, k: nat, j: nat, w: seq<Sym>, alt: Kind)
    requires n <= Size(ts) && Pinned(e, Drop(ts, n), k, j, w, alt)
    ensures Pinned(e, ts, n + k, n + j, w, alt)
  {
    hide About, KindOf, Drop, NextIs, LateAt, TornAt;
    LaterAbout(e, ts, n, k);
    LaterTorn(ts, n, k);
    LaterLate(ts, n, j);
    if w != [] {
      NextIsLater(e, ts, n, k, j, KindOf(w[0]), alt);
    }
  }

  lemma LaterTorn(ts: Stream, n: nat, k: nat)
    requires n <= Size(ts)
    ensures TornAt(Drop(ts, n), k) <==> TornAt(ts, n + k)
  {
    if n + k <= Size(ts) {
      DropMore(ts, n, k);
    }
  }

  lemma LaterLate(ts: Stream, n: nat, k: nat)
    requires n <= Size(ts)
    ensures LateAt(Drop(ts, n), k) <==> LateAt(ts, n + k)
  {
    if n + k <= Size(ts) {
      DropMore(ts, n, k);
    }
  }

  lemma NextIsLater(e: Error, ts: Stream, n: nat, k: nat, j: nat, next: Kind, alt: Kind)
    requires n + k <= Size(ts) && NextIs(e, Drop(ts, n), k, j, next, alt)
    ensures NextIs(e, ts, n + k, n + j, next, alt)
  {
    hide Drop, TornAt;
    LaterTorn(ts, n, k);
    LaterTorn(ts, n, k + 1);
  }

  /** `w` completes the first `j` symbols to `y`. */
  predicate Completes(ss: seq<Sym>, j: nat, y: seq<Sym>, w: seq<Sym>) {
    j <= |ss| && y == ss[..j] + w
  }

  lemma Spliced(ts: Stream, a: seq<Sym>, rest: Stream, j: nat, y: seq<Sym>, w: seq<Sym>)
    requires Consumed(ts, a, rest) && Completes(Syms(rest), j, y, w)
    ensures Completes(Syms(ts), |a| + j, a + y, w)
  {
    hide Syms, Drop;
    var b := Syms(rest);
    assert Syms(ts)[..|a| + j] == a + b[..j];
    Assoc(a, b[..j], w);
  }

  /** More symbols complete more. */
  lemma Further(e: Error, ts: Stream, k: nat, j: nat, y: seq<Sym>, w: seq<Sym>, z: seq<Sym>, alt: Kind)
    requires Blamed(e, ts, k, j, y, w, alt)
    ensures Blamed(e, ts, k, j, y + z, w + z, alt)
  {
    hide Syms, IndexOf, About, KindOf, Drop;
    Assoc(Syms(ts)[..j], w, z);
  }

  /** The symbol that is there, if it is of the wanted kind, and `y` otherwise. */
  function Filled(kind: Kind, ts: Stream, y: Sym): Sym
    requires !ts.Torn?
  {
    if Head(ts) == kind && ts.Cons? then SymOf(ts.tok.kind, ts.tok.lex) else y
  }

  lemma NeedFails(kind: Kind, ts: Stream, y: Sym, x: seq<Sym>, alt: Kind) returns (k: nat, w: seq<Sym>)
    requires !ts.Torn? && kind != Eos && Need(kind, ts).Failure? && KindOf(y) == kind
    ensures Blamed(Need(kind, ts).error, ts, k, k, [Filled(kind, ts, y)] + x, w, alt)
    ensures forall us: Stream :: Alike(ts, us, k + 1) ==> !us.Torn? && Need(kind, us).Failure?
  {
    hide KindOf, IndexOf;
    if Head(ts) != kind {
      k, w := 0, [y] + x;
      assert Syms(ts)[..0] + w == w;
    } else {
      k, w := 1, x;
      assert Drop(ts, 1) == ts.rest;
      assert Syms(ts)[..1] == [SymOf(ts.tok.kind, ts.tok.lex)];
      forall us: Stream | Alike(ts, us, 2) ensures !us.Torn? && Need(kind, us).Failure? {
        assert Alike(ts.rest, us.rest, 1);
      }
    }
  }

  // The parse functions.

  ghost predicate NodeRefused(ts: Stream, k: nat) {
    forall us: Stream :: Alike(ts, us, k + 1) && !us.Torn? ==> ParseTreeNode(us).Failure?
  }

  ghost predicate ArgsRefused(ts: Stream, k: nat) {
    forall us: Stream :: Alike(ts, us, k + 1) && !us.Torn? ==> ParseNodeArgs(us).Failure?
  }

  ghost predicate ArgListRefused(ts: Stream, k: nat) {
    forall us: Stream, acc ::
      Alike(ts, us, k + 1) && !us.Torn? ==> ParseArgList(acc, us).Failure?
  }

  ghost predicate ArgRefused(ts: Stream, k: nat) {
    forall us: Stream :: Alike(ts, us, k + 1) && !us.Torn? ==> ParseNodeArg(us).Failure?
  }

  ghost predicate ValueRefused(ts: Stream, k: nat) {
    forall us: Stream :: Alike(ts, us, k + 1) && !us.Torn? ==> ParseArgValue(us).Failure?
  }

  ghost predicate ListRefused(ts: Stream, k: nat) {
    forall us: Stream :: Alike(ts, us, k + 1) && !us.Torn? ==> ParseNodeList(us).Failure?
  }

  ghost predicate ElemListRefused(ts: Stream, k: nat) {
    forall us: Stream, acc ::
      Alike(ts, us, k + 1) && !us.Torn? ==> ParseElemList(acc, us).Failure?
  }

  ghost predicate ElemRefused(ts: Stream, k: nat) {
    forall us: Stream :: Alike(ts, us, k + 1) && !us.Torn? ==> ParseListElem(us).Failure?
  }

  const SOME_NODE := TreeNode("A", ListArgs([]))

  lemma AlikeRest(ts: Stream, us: Stream, k: nat)
    requires ts.Cons? && Alike(ts, us, k) && k > 0
    ensures us.Cons? && us.tok.kind == ts.tok.kind && Alike(ts.rest, us.rest, k - 1)
    ensures !ts.rest.Torn? && k > 1 ==> !us.rest.Torn?
  {
  }

  lemma {:induction false} NodeFails(ts: Stream, alt: Kind) returns (k: nat, j: nat, n: TreeNode, w: seq<Sym>)
    requires !ts.Torn? && ParseTreeNode(ts).Failure?
    ensures Blamed(ParseTreeNode(ts).error, ts, k, j, Yield(n), w, alt) && NodeRefused(ts, k)
    decreases Size(ts), 1
  {
    hide ParseNodeArgs, Blamed, Alike, YieldArgs, Yield, Syms;
    var e := ParseTreeNode(ts).error;
    if Need(Ident, ts).Failure? {
      var name := if Head(ts) == Ident then ts.tok.lex else "A";
      n := TreeNode(name, ListArgs([]));
      NodeSyms(n, []);
      k, w := NeedFails(Ident, ts, IdentSym("A"), [Mark(OpenParen)] + (YieldArgs(n.args) + [Mark(CloseParen)]), alt);
      j := k;
    } else {
      var k1, j1, args, w1 := NodeFailsAfterName(ts, alt);
      k, j, n, w := k1 + 1, j1 + 1, TreeNode(ts.tok.lex, args), w1;
      NodeSyms(n, []);
      Earlier(e, ts, k1, j1, [Mark(OpenParen)] + (YieldArgs(args) + [Mark(CloseParen)]), w, alt);
      forall us: Stream | Alike(ts, us, k + 1) && !us.Torn? ensures ParseTreeNode(us).Failure? {
        AlikeRest(ts, us, k + 1);
      }
    }
  }

  /** Arguments that begin with the kind, if arguments may. */
  function SomeArgs(alt: Kind): NodeArgs {
    if alt == CloseParen then ListArgs([])
    else if alt == Dot then ListArgs([NodeArg("a", LiteralValue(""))])
    else LiteralArgs("")
  }

  lemma ArgsUnexpected(ts: Stream, alt: Kind)
    requires !ts.Torn? && Head(ts) !in Choices(NodeArgsRule)
    ensures ParseNodeArgs(ts).Failure? && ArgsRefused(ts, 0)
    ensures var w := YieldArgs(SomeArgs(alt)) + [Mark(CloseParen)];
            Blamed(ParseNodeArgs(ts).error, ts, 0, 0, w, w, alt)
  {
    hide ParseArgList, Syms, YieldArgs, KindOf, IndexOf, SomeArgs;
    var w := YieldArgs(SomeArgs(alt)) + [Mark(CloseParen)];
    SomeArgsBegin(alt);
    assert Syms(ts)[..0] + w == w;
  }

  lemma SomeArgsBegin(alt: Kind)
    ensures alt in Choices(NodeArgsRule) ==> KindOf((YieldArgs(SomeArgs(alt)) + [Mark(CloseParen)])[0]) == alt
  {
    var args := SomeArgs(alt);
    if alt == Dot {
      assert YieldArgs(args) == YieldArg(args.list[0]) + YieldArgsFrom(args.list, 1);
    }
  }

  function SomeValue(alt: Kind): ArgValue {
    if alt == Ident then NodeValue(SOME_NODE)
    else if alt == KwList then ListValue("A", [])
    else LiteralValue("")
  }

  lemma ValueUnexpected(ts: Stream, alt: Kind)
    requires !ts.Torn? && Head(ts) !in Choices(ArgValueRule)
    ensures ParseArgValue(ts).Failure? && ValueRefused(ts, 0)
    ensures var w := YieldValue(SomeValue(alt)); Blamed(ParseArgValue(ts).error, ts, 0, 0, w, w, alt)
  {
    hide ParseTreeNode, ParseNodeList, Syms, YieldElemsFrom, YieldArgs;
    var w := YieldValue(SomeValue(alt));
    assert Syms(ts)[..0] + w == w;
  }

  ghost predicate AfterNameRefused(ts: Stream, k: nat) {
    forall us: Stream ::
      Alike(ts, us, k + 1) && !us.Torn? && Need(OpenParen, us).Success? && ParseNodeArgs(us.rest).Success? ==>
        Need(CloseParen, ParseNodeArgs(us.rest).value.1).Failure?
  }

  lemma {:induction false} NodeFailsAfterName(ts: Stream, alt: Kind)
    returns (k: nat, j: nat, args: NodeArgs, w: seq<Sym>)
    requires ts.Cons? && Need(Ident, ts).Success? && ParseTreeNode(ts).Failure?
    ensures var y := [Mark(OpenParen)] + (YieldArgs(args) + [Mark(CloseParen)]);
            Blamed(ParseTreeNode(ts).error, ts.rest, k, j, y, w, alt)
    ensures AfterNameRefused(ts.rest, k)
    decreases Size(ts), 0
  {
    hide ParseNodeArgs, Blamed, Alike, YieldArgs, Yield, Syms;
    var e, ts1 := ParseTreeNode(ts).error, ts.rest;
    if Need(OpenParen, ts1).Failure? {
      args := ListArgs([]);
      k, w := NeedFails(OpenParen, ts1, Mark(OpenParen), YieldArgs(args) + [Mark(CloseParen)], alt);
      j := k;
    } else if ParseNodeArgs(ts1.rest).Failure? {
      var k2, j2;
      if Head(ts1.rest) in Choices(NodeArgsRule) {
        var a, w2;
        k2, j2, a, w2 := ArgsFail(ts1.rest, alt);
        Further(e, ts1.rest, k2, j2, YieldArgs(a), w2, [Mark(CloseParen)], alt);
        args, w := a, w2 + [Mark(CloseParen)];
      } else {
        k2, j2, args, w := 0, 0, SomeArgs(alt), YieldArgs(SomeArgs(alt)) + [Mark(CloseParen)];
        ArgsUnexpected(ts1.rest, alt);
      }
      k, j := k2 + 1, j2 + 1;
      Earlier(e, ts1, k2, j2, YieldArgs(args) + [Mark(CloseParen)], w, alt);
      forall us: Stream | Alike(ts1, us, k + 1) && !us.Torn? && Need(OpenParen, us).Success?
        ensures ParseNodeArgs(us.rest).Failure?
      {
        AlikeRest(ts1, us, k + 1);
      }
    } else {
      var (a, ts3) := ParseNodeArgs(ts1.rest).value;
      var k3, w3 := NeedFails(CloseParen, ts3, Mark(CloseParen), [], alt);
      assert [Mark(CloseParen)] + [] == [Mark(CloseParen)];
      AlikeItself(ts1.rest, Size(ts1));
      SameArgs(ts1.rest, ts1.rest, Size(ts1));
      SoundArgs(ts1.rest);
      Consumes(ts1.rest, YieldArgs(a), ts3);
      After(e, ts1.rest, YieldArgs(a), ts3, k3, k3, [Mark(CloseParen)], w3, alt);
      k, j, args, w := |YieldArgs(a)| + k3 + 1, |YieldArgs(a)| + k3 + 1, a, w3;
      Earlier(e, ts1, k - 1, j - 1, YieldArgs(a) + [Mark(CloseParen)], w, alt);
      forall us: Stream
        | && Alike(ts1, us, k + 1) && !us.Torn?
          && Need(OpenParen, us).Success? && ParseNodeArgs(us.rest).Success?
        ensures Need(CloseParen, ParseNodeArgs(us.rest).value.1).Failure?
      {
        AlikeRest(ts1, us, k + 1);
        SameArgs(ts1.rest, us.rest, k);
      }
    }
  }

  lemma {:induction false} AlikeItself(ts: Stream, k: nat)
    ensures Alike(ts, ts, k)
    decreases k
  {
    if k > 0 && ts.Cons? {
      AlikeItself(ts.rest, k - 1);
    }
  }

  lemma {:induction false} ArgsFail(ts: Stream, alt: Kind) returns (k: nat, j: nat, a: NodeArgs, w: seq<Sym>)
    requires !ts.Torn? && ParseNodeArgs(ts).Failure? && Head(ts) in Choices(NodeArgsRule)
    ensures Blamed(ParseNodeArgs(ts).error, ts, k, j, YieldArgs(a), w, alt) && ArgsRefused(ts, k)
    decreases Size(ts), 3
  {
    hide ParseArgList, YieldArgsFrom;
    if Head(ts) == CloseParen || Head(ts) == Dot {
      assert ParseArgList([], ts).Failure?;
      var k1, j1, list, w1 := ArgListFails([], ts, alt);
      k, j, a, w := k1, j1, ListArgs(list), w1;
      forall us: Stream | Alike(ts, us, k + 1) && !us.Torn? ensures ParseNodeArgs(us).Failure? {
        HeadsAlike(ts, us, k + 1);
        assert ParseArgList([], us).Failure?;
      }
    } else {
      var lex := ts.tok.lex;
      var k1, w1 := NeedFails(Str, ts, StrSym(""), [], alt);
      k, j, a, w := k1, k1, LiteralArgs(lex), w1;
      assert [StrSym(lex)] + [] == [StrSym(lex)];
      forall us: Stream | Alike(ts, us, k + 1) && !us.Torn? ensures ParseNodeArgs(us).Failure? {
        HeadsAlike(ts, us, k + 1);
      }
    }
  }

  lemma {:induction false} ArgListFails(acc: seq<NodeArg>, ts: Stream, alt: Kind)
    returns (k: nat, j: nat, list: seq<NodeArg>, w: seq<Sym>)
    requires !ts.Torn? && ParseArgList(acc, ts).Failure?
    ensures |acc| <= |list| && acc <= list
    ensures Blamed(ParseArgList(acc, ts).error, ts, k, j, YieldArgsFrom(list, |acc|), w, alt) && ArgListRefused(ts, k)
    decreases Size(ts), 2
  {
    hide ParseNodeArg, YieldArg, Blamed, Alike, Syms;
    var e := ParseArgList(acc, ts).error;
    if ParseNodeArg(ts).Failure? {
      var k1, j1, a, w1 := ArgFails(ts, alt);
      k, j, list, w := k1, j1, acc + [a], w1;
      assert YieldArgsFrom(list, |acc|) == YieldArg(a) + [] == YieldArg(a);
      forall us: Stream, b | Alike(ts, us, k + 1) && !us.Torn? ensures ParseArgList(b, us).Failure? {
        HeadsAlike(ts, us, k + 1);
      }
    } else {
      var (a, ts1) := ParseNodeArg(ts).value;
      var k1, j1, l1, w1 := ArgListFails(acc + [a], ts1, alt);
      var y := YieldArg(a);
      AlikeItself(ts, Size(ts) + 1);
      SameArg(ts, ts, Size(ts) + 1);
      SoundArg(ts);
      Consumes(ts, y, ts1);
      After(e, ts, y, ts1, k1, j1, YieldArgsFrom(l1, |acc| + 1), w1, alt);
      k, j, list, w := |y| + k1, |y| + j1, l1, w1;
      assert list[|acc|] == (acc + [a])[|acc|];
      forall us: Stream, b | Alike(ts, us, k + 1) && !us.Torn? ensures ParseArgList(b, us).Failure? {
        SameArg(ts, us, k + 1);
        HeadsAlike(ts, us, k + 1);
      }
    }
  }

  lemma HeadsAlike(ts: Stream, us: Stream, k: nat)
    requires !ts.Torn? && k > 0 && Alike(ts, us, k)
    ensures !us.Torn? && Head(us) == Head(ts)
  {
  }

  lemma {:induction false} ArgFails(ts: Stream, alt: Kind) returns (k: nat, j: nat, a: NodeArg, w: seq<Sym>)
    requires !ts.Torn? && ParseNodeArg(ts).Failure?
    ensures Blamed(ParseNodeArg(ts).error, ts, k, j, YieldArg(a), w, alt) && ArgRefused(ts, k)
    decreases Size(ts), 1
  {
    hide ParseArgValue, Blamed, Alike, YieldValue, Syms;
    var e := ParseNodeArg(ts).error;
    var some := LiteralValue("");
    if Need(Dot, ts).Failure? {
      a := NodeArg("a", some);
      k, w := NeedFails(Dot, ts, Mark(Dot), [NameSym("a")] + ([Mark(Equal)] + YieldValue(some)), alt);
      j := k;
      ArgSyms(a);
    } else {
      var k1, j1, b, w1 := ArgFailsAfterDot(ts, alt);
      k, j, a, w := k1 + 1, j1 + 1, b, w1;
      ArgSyms(a);
      Earlier(e, ts, k1, j1, [NameSym(a.name)] + ([Mark(Equal)] + YieldValue(a.value)), w, alt);
      forall us: Stream | Alike(ts, us, k + 1) && !us.Torn? ensures ParseNodeArg(us).Failure? {
        AlikeRest(ts, us, k + 1);
      }
    }
  }

  lemma ArgSyms(a: NodeArg)
    ensures YieldArg(a) == [Mark(Dot)] + ([NameSym(a.name)] + ([Mark(Equal)] + YieldValue(a.value)))
  {
  }

  ghost predicate AfterDotRefused(ts: Stream, k: nat) {
    forall us: Stream ::
      Alike(ts, us, k + 1) && !us.Torn? && Need(Name, us).Success? && Need(Equal, us.rest).Success? ==>
        ParseArgValue(us.rest.rest).Failure?
  }

  lemma {:induction false} ArgFailsAfterDot(ts: Stream, alt: Kind) returns (k: nat, j: nat, a: NodeArg, w: seq<Sym>)
    requires ts.Cons? && Need(Dot, ts).Success? && ParseNodeArg(ts).Failure?
    ensures var y := [NameSym(a.name)] + ([Mark(Equal)] + YieldValue(a.value));
            Blamed(ParseNodeArg(ts).error, ts.rest, k, j, y, w, alt)
    ensures AfterDotRefused(ts.rest, k)
    decreases Size(ts), 0
  {
    hide ParseArgValue, Blamed, Alike, YieldValue, Syms;
    var e, ts1 := ParseNodeArg(ts).error, ts.rest;
    var some := LiteralValue("");
    if Need(Name, ts1).Failure? {
      var name := if Head(ts1) == Name then ts1.tok.lex else "a";
      a := NodeArg(name, some);
      k, w := NeedFails(Name, ts1, NameSym("a"), [Mark(Equal)] + YieldValue(some), alt);
      j := k;
    } else if Need(Equal, ts1.rest).Failure? {
      a := NodeArg(ts1.tok.lex, some);
      var k1, w1 := NeedFails(Equal, ts1.rest, Mark(Equal), YieldValue(some), alt);
      Earlier(e, ts1, k1, k1, [Mark(Equal)] + YieldValue(some), w1, alt);
      k, j, w := k1 + 1, k1 + 1, w1;
      forall us: Stream | Alike(ts1, us, k + 1) && !us.Torn? && Need(Name, us).Success?
        ensures Need(Equal, us.rest).Failure?
      {
        AlikeRest(ts1, us, k + 1);
      }
    } else {
      var k1, j1, v, w1 := ValueFails(ts1.rest.rest, alt);
      Earlier(e, ts1.rest, k1, j1, YieldValue(v), w1, alt);
      Earlier(e, ts1, k1 + 1, j1 + 1, [Mark(Equal)] + YieldValue(v), w1, alt);
      k, j, a, w := k1 + 2, j1 + 2, NodeArg(ts1.tok.lex, v), w1;
      forall us: Stream
        | Alike(ts1, us, k + 1) && !us.Torn? && Need(Name, us).Success? && Need(Equal, us.rest).Success?
        ensures ParseArgValue(us.rest.rest).Failure?
      {
        AlikeRest(ts1, us, k + 1);
        AlikeRest(ts1.rest, us.rest, k);
      }
    }
  }

  lemma {:induction false} ValueFails(ts: Stream, alt: Kind) returns (k: nat, j: nat, v: ArgValue, w: seq<Sym>)
    requires !ts.Torn? && ParseArgValue(ts).Failure?
    ensures Blamed(ParseArgValue(ts).error, ts, k, j, YieldValue(v), w, alt) && ValueRefused(ts, k)
    decreases Size(ts), 2
  {
    hide ParseTreeNode, ParseNodeList, Yield, YieldElemsFrom;
    var e := ParseArgValue(ts).error;
    if Head(ts) == Ident {
      var k1, j1, n, w1 := NodeFails(ts, alt);
      k, j, v, w := k1, j1, NodeValue(n), w1;
      forall us: Stream | Alike(ts, us, k + 1) && !us.Torn? ensures ParseArgValue(us).Failure? {
        HeadsAlike(ts, us, k + 1);
      }
    } else if Head(ts) == KwList {
      k, j, v, w := KeywordFails(ts, alt);
    } else if Head(ts) == Str {
      var lex := ts.tok.lex;
      var k1, w1 := NeedFails(Str, ts, StrSym(""), [], alt);
      k, j, v, w := k1, k1, LiteralValue(lex), w1;
      assert [StrSym(lex)] + [] == [StrSym(lex)];
      forall us: Stream | Alike(ts, us, k + 1) && !us.Torn? ensures ParseArgValue(us).Failure? {
        HeadsAlike(ts, us, k + 1);
      }
    } else {
      k, j, v, w := 0, 0, SomeValue(alt), YieldValue(SomeValue(alt));
      ValueUnexpected(ts, alt);
    }
  }

  lemma {:induction false} KeywordFails(ts: Stream, alt: Kind) returns (k: nat, j: nat, v: ArgValue, w: seq<Sym>)
    requires !ts.Torn? && ParseArgValue(ts).Failure? && Head(ts) == KwList
    ensures Blamed(ParseArgValue(ts).error, ts, k, j, YieldValue(v), w, alt) && ValueRefused(ts, k)
    decreases Size(ts), 1
  {
    hide ParseNodeList, Blamed, Alike, Syms, YieldElemsFrom, YieldValue;
    var e, ts1 := ParseArgValue(ts).error, ts.rest;
    if ts1.Torn? {
      v := ListValue("A", []);
      k, j, w := 1, 1, ListTail("A", YieldElemsFrom([], 0) + [Mark(CloseSqBrk)]);
      ListValueSyms("A", []);
      TornNext(ts, Mark(KwList), w, alt);
    } else {
      var k1, j1, base, elems, w1 := ListFails(ts1, alt);
      k, j, v, w := k1 + 1, j1 + 1, ListValue(base, elems), w1;
      ListValueSyms(base, elems);
      Earlier(e, ts, k1, j1, ListTail(base, YieldElemsFrom(elems, 0) + [Mark(CloseSqBrk)]), w, alt);
    }
    forall us: Stream | Alike(ts, us, k + 1) && !us.Torn? ensures ParseArgValue(us).Failure? {
      AlikeRest(ts, us, k + 1);
      TornAlike(ts1, us.rest, k);
      HeadsAlike(ts, us, k + 1);
    }
  }

  lemma TornAlike(ts: Stream, us: Stream, k: nat)
    requires Alike(ts, us, k) && k > 0
    ensures ts.Torn? <==> us.Torn?
  {
  }

  lemma TornNext(ts: Stream, y: Sym, w: seq<Sym>, alt: Kind)
    requires ts.Cons? && ts.rest.Torn? && y == SymOf(ts.tok.kind, ts.tok.lex)
    ensures Blamed(ts.rest.err, ts, 1, 1, [y] + w, w, alt)
  {
    assert Drop(ts, 1) == ts.rest;
    assert Syms(ts)[..1] == [y];
  }

  lemma ListValueSyms(base: string, elems: seq<ListElem>)
    ensures YieldValue(ListValue(base, elems)) == ListFront(base, YieldElemsFrom(elems, 0) + [Mark(CloseSqBrk)])
  {
    hide YieldElemsFrom, YieldValue;
    ListSyms(base, elems, []);
    assert [Mark(CloseSqBrk)] + [] == [Mark(CloseSqBrk)];
    assert YieldValue(ListValue(base, elems)) + [] == YieldValue(ListValue(base, elems));
  }

  lemma {:induction false} ListFails(ts: Stream, alt: Kind)
    returns (k: nat, j: nat, base: string, elems: seq<ListElem>, w: seq<Sym>)
    requires !ts.Torn? && ParseNodeList(ts).Failure?
    ensures var y := ListTail(base, YieldElemsFrom(elems, 0) + [Mark(CloseSqBrk)]);
            Blamed(ParseNodeList(ts).error, ts, k, j, y, w, alt)
    ensures ListRefused(ts, k)
    decreases Size(ts), 3
  {
    hide ParseElemList, Blamed, Alike, Syms, YieldElemsFrom;
    if Need(OpenAngBrk, ts).Failure? || Need(Ident, ts.rest).Failure? || Need(CloseAngBrk, ts.rest.rest).Failure?
      || Need(OpenSqBrk, ts.rest.rest.rest).Failure?
    {
      elems := [];
      k, base, w := ListFrontFails(ts, YieldElemsFrom(elems, 0) + [Mark(CloseSqBrk)], alt);
      j := k;
    } else {
      var e, ts4 := ParseNodeList(ts).error, ts.rest.rest.rest.rest;
      var k1, j1, all, w1 := ElemsFail(e, ts4, alt);
      k, j, base, elems, w := k1 + 4, j1 + 4, ts.rest.tok.lex, all, w1;
      BeforeElems(e, ts, k1, j1, YieldElemsFrom(elems, 0) + [Mark(CloseSqBrk)], w, alt);
      forall us: Stream | Alike(ts, us, k + 1) && !us.Torn? ensures ParseNodeList(us).Failure? {
        SameBeforeElems(ts, us, k + 1);
      }
    }
  }

  lemma BeforeElems(e: Error, ts: Stream, k: nat, j: nat, y: seq<Sym>, w: seq<Sym>, alt: Kind)
    requires !ts.Torn? && Need(OpenAngBrk, ts).Success? && Need(Ident, ts.rest).Success?
    requires Need(CloseAngBrk, ts.rest.rest).Success? && Need(OpenSqBrk, ts.rest.rest.rest).Success?
    requires Blamed(e, ts.rest.rest.rest.rest, k, j, y, w, alt)
    ensures Blamed(e, ts, k + 4, j + 4, ListTail(ts.rest.tok.lex, y), w, alt)
  {
    hide Blamed;
    var y1 := [Mark(OpenSqBrk)] + y;
    var y2 := [Mark(CloseAngBrk)] + y1;
    Earlier(e, ts.rest.rest.rest, k, j, y, w, alt);
    Earlier(e, ts.rest.rest, k + 1, j + 1, y1, w, alt);
    Earlier(e, ts.rest, k + 2, j + 2, y2, w, alt);
    Earlier(e, ts, k + 3, j + 3, [IdentSym(ts.rest.tok.lex)] + y2, w, alt);
  }

  lemma ListFrontFails(ts: Stream, x: seq<Sym>, alt: Kind) returns (k: nat, base: string, w: seq<Sym>)
    requires !ts.Torn?
    requires Need(OpenAngBrk, ts).Failure? || Need(Ident, ts.rest).Failure? || Need(CloseAngBrk, ts.rest.rest).Failure?
          || Need(OpenSqBrk, ts.rest.rest.rest).Failure?
    ensures ParseNodeList(ts).Failure? && Blamed(ParseNodeList(ts).error, ts, k, k, ListTail(base, x), w, alt)
    ensures ListRefused(ts, k)
  {
    hide ParseElemList, Blamed, Alike, Syms;
    var e := ParseNodeList(ts).error;
    var y3 := [Mark(OpenSqBrk)] + x;
    if Need(OpenAngBrk, ts).Failure? {
      base := "A";
      k, w := NeedFails(OpenAngBrk, ts, Mark(OpenAngBrk), [IdentSym(base)] + ([Mark(CloseAngBrk)] + y3), alt);
    } else if Need(Ident, ts.rest).Failure? {
      base := if Head(ts.rest) == Ident then ts.rest.tok.lex else "A";
      k, w := NeedFails(Ident, ts.rest, IdentSym("A"), [Mark(CloseAngBrk)] + y3, alt);
      Earlier(e, ts, k, k, [IdentSym(base)] + ([Mark(CloseAngBrk)] + y3), w, alt);
      k := k + 1;
      forall us: Stream | Alike(ts, us, k + 1) && !us.Torn? ensures ParseNodeList(us).Failure? {
        AlikeRest(ts, us, k + 1);
      }
    } else {
      base := ts.rest.tok.lex;
      k, w := ListBracketFails(ts, x, alt);
    }
  }

  lemma ListBracketFails(ts: Stream, x: seq<Sym>, alt: Kind) returns (k: nat, w: seq<Sym>)
    requires !ts.Torn? && Need(OpenAngBrk, ts).Success? && Need(Ident, ts.rest).Success?
    requires Need(CloseAngBrk, ts.rest.rest).Failure? || Need(OpenSqBrk, ts.rest.rest.rest).Failure?
    ensures ParseNodeList(ts).Failure?
    ensures Blamed(ParseNodeList(ts).error, ts, k, k, ListTail(ts.rest.tok.lex, x), w, alt)
    ensures ListRefused(ts, k)
  {
    hide ParseElemList, Blamed, Alike, Syms;
    var e := ParseNodeList(ts).error;
    var base, y3 := ts.rest.tok.lex, [Mark(OpenSqBrk)] + x;
    if Need(CloseAngBrk, ts.rest.rest).Failure? {
      k, w := NeedFails(CloseAngBrk, ts.rest.rest, Mark(CloseAngBrk), y3, alt);
    } else {
      k, w := NeedFails(OpenSqBrk, ts.rest.rest.rest, Mark(OpenSqBrk), x, alt);
      Earlier(e, ts.rest.rest, k, k, y3, w, alt);
      k := k + 1;
    }
    Earlier(e, ts.rest, k, k, [Mark(CloseAngBrk)] + y3, w, alt);
    Earlier(e, ts, k + 1, k + 1, [IdentSym(base)] + ([Mark(CloseAngBrk)] + y3), w, alt);
    k := k + 2;
    forall us: Stream | Alike(ts, us, k + 1) && !us.Torn? ensures ParseNodeList(us).Failure? {
      AlikeRest(ts, us, k + 1);
      AlikeRest(ts.rest, us.rest, k);
      if Need(CloseAngBrk, ts.rest.rest).Success? {
        AlikeRest(ts.rest.rest, us.rest.rest, k - 1);
      }
    }
  }

  ghost predicate ElemsRefused(ts: Stream, k: nat) {
    forall us: Stream ::
      Alike(ts, us, k + 1) && !us.Torn? && ParseElemList([], us).Success? ==>
        Need(CloseSqBrk, ParseElemList([], us).value.1).Failure?
  }

  lemma {:induction false} ElemsFail(e: Error, ts: Stream, alt: Kind)
    returns (k: nat, j: nat, elems: seq<ListElem>, w: seq<Sym>)
    requires !ts.Torn?
    requires ParseElemList([], ts) == Failure(e)
          || (ParseElemList([], ts).Success? && Need(CloseSqBrk, ParseElemList([], ts).value.1) == Failure(e))
    ensures Blamed(e, ts, k, j, YieldElemsFrom(elems, 0) + [Mark(CloseSqBrk)], w, alt) && ElemsRefused(ts, k)
    decreases Size(ts), 3
  {
    hide ParseElemList, Blamed, Alike, Syms, YieldElemsFrom;
    if ParseElemList([], ts).Failure? {
      var k1, j1, all, w1 := ElemListFails([], ts, alt);
      k, j, elems, w := k1, j1, all, w1 + [Mark(CloseSqBrk)];
      Further(e, ts, k, j, YieldElemsFrom(elems, 0), w1, [Mark(CloseSqBrk)], alt);
    } else {
      var (all, ts5) := ParseElemList([], ts).value;
      var y := YieldElemsFrom(all, 0);
      var k1, w1 := NeedFails(CloseSqBrk, ts5, Mark(CloseSqBrk), [], alt);
      assert [Mark(CloseSqBrk)] + [] == [Mark(CloseSqBrk)];
      AlikeItself(ts, Size(ts) + 1);
      SameElemList([], ts, ts, Size(ts) + 1);
      SoundElemList([], ts);
      Consumes(ts, y, ts5);
      After(e, ts, y, ts5, k1, k1, [Mark(CloseSqBrk)], w1, alt);
      k, j, elems, w := |y| + k1, |y| + k1, all, w1;
      forall us: Stream | Alike(ts, us, k + 1) && !us.Torn? && ParseElemList([], us).Success?
        ensures Need(CloseSqBrk, ParseElemList([], us).value.1).Failure?
      {
        SameElemList([], ts, us, k + 1);
      }
    }
  }

  lemma {:induction false} ElemListFails(acc: seq<ListElem>, ts: Stream, alt: Kind)
    returns (k: nat, j: nat, elems: seq<ListElem>, w: seq<Sym>)
    requires !ts.Torn? && ParseElemList(acc, ts).Failure?
    ensures |acc| <= |elems| && acc <= elems
    ensures Blamed(ParseElemList(acc, ts).error, ts, k, j, YieldElemsFrom(elems, |acc|), w, alt)
    ensures ElemListRefused(ts, k)
    decreases Size(ts), 2
  {
    hide ParseListElem, YieldElem, Blamed, Alike, Syms;
    var e := ParseElemList(acc, ts).error;
    if ParseListElem(ts).Failure? {
      var k1, j1, a, w1 := ElemFails(ts, alt);
      k, j, elems, w := k1, j1, acc + [a], w1;
      assert YieldElemsFrom(elems, |acc|) == YieldElem(a) + [] == YieldElem(a);
      forall us: Stream, b | Alike(ts, us, k + 1) && !us.Torn? ensures ParseElemList(b, us).Failure? {
        HeadsAlike(ts, us, k + 1);
      }
    } else {
      var (a, ts1) := ParseListElem(ts).value;
      var k1, j1, l1, w1 := ElemListFails(acc + [a], ts1, alt);
      var y := YieldElem(a);
      AlikeItself(ts, Size(ts) + 1);
      SameElem(ts, ts, Size(ts) + 1);
      SoundElem(ts);
      Consumes(ts, y, ts1);
      After(e, ts, y, ts1, k1, j1, YieldElemsFrom(l1, |acc| + 1), w1, alt);
      k, j, elems, w := |y| + k1, |y| + j1, l1, w1;
      assert elems[|acc|] == (acc + [a])[|acc|];
      forall us: Stream, b | Alike(ts, us, k + 1) && !us.Torn? ensures ParseElemList(b, us).Failure? {
        SameElem(ts, us, k + 1);
        HeadsAlike(ts, us, k + 1);
      }
    }
  }

  lemma ElemIs(e: ListElem)
    ensures YieldElem(e)
         == [Mark(OpenSqBrk)] + ([NumSym(e.index)] + ([Mark(CloseSqBrk)] + ([Mark(Equal)] + Yield(e.node))))
  {
    hide Yield;
  }

  lemma {:induction false} ElemFails(ts: Stream, alt: Kind) returns (k: nat, j: nat, d: ListElem, w: seq<Sym>)
    requires !ts.Torn? && ParseListElem(ts).Failure?
    ensures Blamed(ParseListElem(ts).error, ts, k, j, YieldElem(d), w, alt) && ElemRefused(ts, k)
    decreases Size(ts), 1
  {
    hide ParseTreeNode, Blamed, Alike, Yield, Syms, IndexOf;
    var e := ParseListElem(ts).error;
    if Need(OpenSqBrk, ts).Failure? {
      d := ListElem(0, SOME_NODE);
      ElemIs(d);
      k, w := NeedFails(OpenSqBrk, ts, Mark(OpenSqBrk),
                        [NumSym(0)] + ([Mark(CloseSqBrk)] + ([Mark(Equal)] + Yield(d.node))), alt);
      j := k;
    } else if Need(Num, ts.rest).Failure? || IndexOf(ts.rest.tok.lex).None? {
      var k1, j1, i, w1 := IndexFails(ts.rest, alt);
      k, j, d, w := k1 + 1, j1 + 1, ListElem(i, SOME_NODE), w1;
      ElemIs(d);
      Earlier(e, ts, k1, j1, [NumSym(i)] + ([Mark(CloseSqBrk)] + ([Mark(Equal)] + Yield(d.node))), w, alt);
      forall us: Stream | Alike(ts, us, k + 1) && !us.Torn? ensures ParseListElem(us).Failure? {
        AlikeRest(ts, us, k + 1);
      }
    } else {
      k, j, d, w := ElemFailsAfterIndex(ts, alt);
    }
  }

  /** No index stands here: the number is too large, or there is none. */
  lemma IndexFails(ts: Stream, alt: Kind) returns (k: nat, j: nat, i: ElemIndex, w: seq<Sym>)
    requires !ts.Torn? && (Need(Num, ts).Failure? || IndexOf(ts.tok.lex).None?)
    ensures var e := if Need(Num, ts).Failure? then Need(Num, ts).error else Error(BadIndex(ts.tok.lex), ts.tok.pos);
            Blamed(e, ts, k, j, [NumSym(i)] + ([Mark(CloseSqBrk)] + ([Mark(Equal)] + Yield(SOME_NODE))), w, alt)
    ensures forall us: Stream ::
              Alike(ts, us, k + 1) ==> !us.Torn? && (Need(Num, us).Failure? || IndexOf(us.tok.lex).None?)
  {
    hide Yield, AllDigits, DecValue;
    var x := [Mark(CloseSqBrk)] + ([Mark(Equal)] + Yield(SOME_NODE));
    if Head(ts) != Num {
      i := 0;
      k, w := NeedFails(Num, ts, NumSym(0), x, alt);
      j := k;
    } else if IndexOf(ts.tok.lex).Some? {
      i := IndexOf(ts.tok.lex).value;
      k, w := NeedFails(Num, ts, NumSym(0), x, alt);
      j := k;
    } else {
      i, j, w := 0, 0, [NumSym(0)] + x;
      k := if ts.rest.Torn? then 1 else 0;
      assert Drop(ts, 1) == ts.rest;
      assert Syms(ts)[..0] + w == w;
    }
  }

  lemma {:induction false} ElemFailsAfterIndex(ts: Stream, alt: Kind) returns (k: nat, j: nat, d: ListElem, w: seq<Sym>)
    requires !ts.Torn? && ParseListElem(ts).Failure? && Need(OpenSqBrk, ts).Success?
    requires Need(Num, ts.rest).Success? && IndexOf(ts.rest.tok.lex).Some?
    ensures Blamed(ParseListElem(ts).error, ts, k, j, YieldElem(d), w, alt) && ElemRefused(ts, k)
    decreases Size(ts), 0
  {
    hide ParseTreeNode, Blamed, Alike, Yield, Syms, IndexOf;
    var e, i, ts2 := ParseListElem(ts).error, IndexOf(ts.rest.tok.lex).value, ts.rest.rest;
    var k1, j1, n, w1 := ElemTailFails(e, ts2, alt);
    k, j, d, w := k1 + 2, j1 + 2, ListElem(i, n), w1;
    ElemIs(d);
    IndexSym(ts.rest);
    Earlier(e, ts.rest, k1, j1, [Mark(CloseSqBrk)] + ([Mark(Equal)] + Yield(n)), w, alt);
    Earlier(e, ts, k1 + 1, j1 + 1, [NumSym(i)] + ([Mark(CloseSqBrk)] + ([Mark(Equal)] + Yield(n))), w, alt);
    forall us: Stream | Alike(ts, us, k + 1) && !us.Torn? ensures ParseListElem(us).Failure? {
      AlikeRest(ts, us, k + 1);
      AlikeRest(ts.rest, us.rest, k);
    }
  }

  lemma IndexSym(ts: Stream)
    requires ts.Cons? && ts.tok.kind == Num && IndexOf(ts.tok.lex).Some?
    ensures SymOf(ts.tok.kind, ts.tok.lex) == NumSym(IndexOf(ts.tok.lex).value)
  {
  }

  ghost predicate ElemTailRefused(ts: Stream, k: nat) {
    forall us: Stream ::
      Alike(ts, us, k + 1) && !us.Torn? && Need(CloseSqBrk, us).Success? && Need(Equal, us.rest).Success? ==>
        ParseTreeNode(us.rest.rest).Failure?
  }

  lemma {:induction false} ElemTailFails(e: Error, ts: Stream, alt: Kind)
    returns (k: nat, j: nat, n: TreeNode, w: seq<Sym>)
    requires !ts.Torn?
    requires || Need(CloseSqBrk, ts) == Failure(e)
             || (Need(CloseSqBrk, ts).Success? && Need(Equal, ts.rest) == Failure(e))
             || (Need(CloseSqBrk, ts).Success? && Need(Equal, ts.rest).Success?
                 && ParseTreeNode(ts.rest.rest) == Failure(e))
    ensures Blamed(e, ts, k, j, [Mark(CloseSqBrk)] + ([Mark(Equal)] + Yield(n)), w, alt) && ElemTailRefused(ts, k)
    decreases Size(ts), 2
  {
    hide ParseTreeNode, Blamed, Alike, Yield, Syms;
    if Need(CloseSqBrk, ts).Failure? {
      n := SOME_NODE;
      k, w := NeedFails(CloseSqBrk, ts, Mark(CloseSqBrk), [Mark(Equal)] + Yield(n), alt);
      j := k;
    } else {
      var k1, j1;
      if Need(Equal, ts.rest).Failure? {
        n := SOME_NODE;
        k1, w := NeedFails(Equal, ts.rest, Mark(Equal), Yield(n), alt);
        j1 := k1;
      } else {
        var k2, j2, m, w2 := NodeFails(ts.rest.rest, alt);
        k1, j1, n, w := k2 + 1, j2 + 1, m, w2;
        Earlier(e, ts.rest, k2, j2, Yield(n), w, alt);
      }
      k, j := k1 + 1, j1 + 1;
      Earlier(e, ts, k1, j1, [Mark(Equal)] + Yield(n), w, alt);
      forall us: Stream
        | Alike(ts, us, k + 1) && !us.Torn? && Need(CloseSqBrk, us).Success? && Need(Equal, us.rest).Success?
        ensures ParseTreeNode(us.rest.rest).Failure?
      {
        AlikeRest(ts, us, k + 1);
        if Need(Equal, ts.rest).Success? {
          AlikeRest(ts.rest, us.rest, k);
        }
      }
    }
  }

  // Whole inputs.

  /** A stream as the scanner makes it. */
  predicate Regular(ts: Stream) {
    match ts
    case Cons(tok, rest) => tok.kind != Bos && tok.kind != Eos && SymOf(tok.kind, tok.lex) != FaultSym && Regular(rest)
    case End(_) => true
    case Torn(err) => err.what.Scanning?
  }

  lemma {:induction false} TokensAreRegular(s: string, i: nat, argCtxt: bool)
    requires i <= |s|
    ensures Regular(Tokens(s, i, argCtxt))
    decreases |s| - i
  {
    hide ScanToken, Skipped, PosAt, Spells, SymOf;
    var j := i + Skipped(s[i..]);
    var t := ScanToken(s[j..], argCtxt);
    if t.Lexeme? && t.kind != Eos {
      TokenIsRegular(s[j..], argCtxt);
      TokensAreRegular(s, j + t.len, t.kind == Dot);
    }
  }

  lemma TokenIsRegular(u: string, argCtxt: bool)
    ensures var t := ScanToken(u, argCtxt);
            t.Lexeme? && t.kind != Eos ==> t.kind != Bos && SymOf(t.kind, t.lex) != FaultSym
  {
    hide ScanToken, Spells, SymOf;
    var t := ScanToken(u, argCtxt);
    ScanStops(u, argCtxt);
    ScanSpells(u, argCtxt);
    if t.Lexeme? && t.kind != Eos {
      FaultsAreNotSpelled(u[..t.len]);
    }
  }

  lemma FaultsAreNotSpelled(w: string)
    ensures !Spells(FaultSym, w)
  {
  }

  lemma {:induction false} RegularDrop(ts: Stream, n: nat)
    requires Regular(ts) && n <= Size(ts)
    ensures Regular(Drop(ts, n))
    decreases n
  {
    hide SymOf;
    if n > 0 {
      RegularDrop(ts.rest, n - 1);
    }
  }

  lemma TreeFails(ts: Stream, alt: Kind) returns (k: nat, j: nat, n: TreeNode, w: seq<Sym>)
    requires Regular(ts) && ParseTokens(ts).Failure?
    ensures Blamed(ParseTokens(ts).error, ts, k, j, Yield(n) + [EosSym], w, alt) && w != []
    ensures forall us: Stream :: Alike(ts, us, k + 1) ==> ParseTokens(us).Failure?
  {
    hide ParseTreeNode, Alike, Yield, Syms, IndexOf;
    var e := ParseTokens(ts).error;
    if ts.Torn? {
      k, j, n, w := 0, 0, SOME_NODE, Yield(SOME_NODE) + [EosSym];
      assert Syms(ts)[..0] + w == w;
      forall us: Stream | Alike(ts, us, 1) ensures us.Torn? {
        TornAlike(ts, us, 1);
      }
    } else if ParseTreeNode(ts).Failure? {
      var w1;
      k, j, n, w1 := NodeFails(ts, alt);
      Further(e, ts, k, j, Yield(n), w1, [EosSym], alt);
      w := w1 + [EosSym];
    } else {
      var (m, rest) := ParseTreeNode(ts).value;
      AlikeItself(ts, Size(ts) + 1);
      SameNode(ts, ts, Size(ts) + 1);
      SoundNode(ts);
      Consumes(ts, Yield(m), rest);
      k, j, n, w := |Yield(m)|, |Yield(m)|, m, [EosSym];
      RegularDrop(ts, k);
      LastToken(e, rest, alt);
      After(e, ts, Yield(m), rest, 0, 0, [EosSym], w, alt);
      forall us: Stream | Alike(ts, us, k + 1) ensures ParseTokens(us).Failure? {
        TornAlike(ts, us, k + 1);
        SameNode(ts, us, k + 1);
        HeadsAlike(rest, ParseTreeNode(us).value.1, 1);
      }
    }
  }

  lemma LastToken(e: Error, rest: Stream, alt: Kind)
    requires rest.Cons? && e == Error(Expected(Eos, Head(rest)), rest.tok.pos) && Head(rest) != Eos
    ensures Blamed(e, rest, 0, 0, [EosSym], [EosSym], alt)
  {
    assert Syms(rest)[..0] + [EosSym] == [EosSym];
  }

  /** Some sentence of the grammar begins with these symbols. */
  ghost predicate Viable(p: seq<Sym>) {
    exists n, w :: Yield(n) + [EosSym] == p + w
  }

  /** And in one of those a symbol of the wanted kind comes next. */
  ghost predicate CanFollow(p: seq<Sym>, want: Kind) {
    exists n, w :: Yield(n) + [EosSym] == p + w && w != [] && KindOf(w[0]) == want
  }

  // The symbols of a stream determine how it parses.

  /** A stream that carries the symbols. */
  function StreamOf(ss: seq<Sym>): Stream {
    if ss == [] || ss[0] == EosSym then End(Token(Eos, "", Pos(1, 1)))
    else Cons(Token(KindOf(ss[0]), LexOf(ss[0]), Pos(1, 1)), StreamOf(ss[1..]))
  }

  function LexOf(y: Sym): string {
    match y
    case IdentSym(x) => x
    case NameSym(x) => x
    case StrSym(b) => b
    case NumSym(v) => Dec(v)
    case _ => ""
  }

  lemma TokenOfSym(y: Sym)
    requires Solid(y)
    ensures SymOf(KindOf(y), LexOf(y)) == y && KindOf(y) != Eos && KindOf(y) != Bos
  {
    hide AllDigits, DecValue, Dec;
    if y.NumSym? {
      DecValueOfDec(y.value);
    }
  }

  lemma {:induction false} SymsOfStream(ss: seq<Sym>)
    requires forall y | y in ss :: Solid(y)
    ensures Syms(StreamOf(ss + [EosSym])) == ss + [EosSym] && Regular(StreamOf(ss + [EosSym]))
    decreases |ss|
  {
    hide SymOf, KindOf, LexOf, Solid;
    if ss != [] {
      var s1 := ss[1..];
      assert (ss + [EosSym])[1..] == s1 + [EosSym] && ss + [EosSym] == [ss[0]] + (s1 + [EosSym]);
      SolidIsToken(ss[0]);
      TokenOfSym(ss[0]);
      SymsOfStream(s1);
    }
  }

  lemma SolidIsToken(y: Sym)
    requires Solid(y)
    ensures y != EosSym && y != FaultSym
  {
  }

  lemma {:induction false} AlikeBySyms(ts: Stream, us: Stream, k: nat)
    requires Regular(ts) && Regular(us) && !us.Torn?
    requires k <= |Syms(ts)| && k <= |Syms(us)| && Syms(ts)[..k] == Syms(us)[..k] && FaultSym !in Syms(us)
    ensures Alike(ts, us, k)
    decreases k
  {
    hide SymOf, KindOf;
    if k > 0 {
      HeadSym(ts);
      HeadSym(us);
      assert Syms(ts)[..k][0] == Syms(ts)[0] && Syms(us)[..k][0] == Syms(us)[0];
      assert Syms(us)[0] in Syms(us);
      if ts.Cons? && us.Cons? {
        KindOfToken(ts.tok);
        KindOfToken(us.tok);
        assert Syms(ts)[1..] == Syms(ts.rest) && Syms(us)[1..] == Syms(us.rest);
        assert Syms(ts.rest)[..k - 1] == Syms(ts)[..k][1..] && Syms(us.rest)[..k - 1] == Syms(us)[..k][1..];
        assert forall y | y in Syms(us.rest) :: y in Syms(us);
        AlikeBySyms(ts.rest, us.rest, k - 1);
      }
    }
  }

  lemma HeadSym(ts: Stream)
    requires Regular(ts)
    ensures Syms(ts)[0] == if ts.Cons? then SymOf(ts.tok.kind, ts.tok.lex) else if ts.End? then EosSym else FaultSym
    ensures ts.Cons? ==> Syms(ts)[0] != EosSym && Syms(ts)[0] != FaultSym
  {
    hide AllDigits, DecValue;
  }

  lemma KindOfToken(t: Token)
    requires t.kind != Bos && t.kind != Eos && SymOf(t.kind, t.lex) != FaultSym
    ensures KindOf(SymOf(t.kind, t.lex)) == t.kind
  {
    hide AllDigits, DecValue;
  }

  /** No sentence begins with symbols on which no stream parses. */
  lemma NotViable(ts: Stream, k: nat)
    requires Regular(ts) && k <= |Syms(ts)| && forall us: Stream :: Alike(ts, us, k) ==> ParseTokens(us).Failure?
    ensures !Viable(Syms(ts)[..k])
  {
    hide Alike, Syms, Yield, ParseTreeNode, Solid;
    forall n, w | Yield(n) + [EosSym] == Syms(ts)[..k] + w ensures false {
      var us := StreamOf(Yield(n) + [EosSym]);
      NodeIsSolid(n);
      SymsOfStream(Yield(n));
      NoFault(n);
      assert Syms(us)[..k] == Syms(ts)[..k];
      YieldIsNoEnd(n);
      AlikeBySyms(ts, us, k);
      EosFollows();
      CompleteNode(n, us, [EosSym]);
      OnlyEos(ParseTreeNode(us).value.1);
    }
  }

  lemma EosFollows()
    ensures Follows([EosSym])
  {
  }

  lemma YieldIsNoEnd(n: TreeNode)
    ensures StreamOf(Yield(n) + [EosSym]).Cons?
  {
    hide YieldArgs;
    assert (Yield(n) + [EosSym])[0] == IdentSym(n.name);
  }

  // The theorem.

  lemma ViablePrefix(p: seq<Sym>, q: seq<Sym>)
    requires p <= q && Viable(q)
    ensures Viable(p)
  {
    hide Yield;
    var n, w :| Yield(n) + [EosSym] == q + w;
    assert q + w == p + (q[|p|..] + w);
  }

  /** There is one first symbol with which no sentence goes on. */
  lemma FirstBadIsUnique(ss: seq<Sym>, i: nat, k: nat)
    requires i < |ss| && k < |ss| && Viable(ss[..i]) && !Viable(ss[..i + 1]) && Viable(ss[..k]) && !Viable(ss[..k + 1])
    ensures i == k
  {
    hide Viable;
    if i < k {
      ViablePrefix(ss[..i + 1], ss[..k]);
    }
    if k < i {
      ViablePrefix(ss[..k + 1], ss[..i]);
    }
  }

  /** What the error says of the `k`-th symbol, the first with which no sentence goes on: it
      is no token; or it is not of the kind that has to come next, or of one of the kinds
      that may; or a number has to come next, and this one is too large for an index. Then,
      if what comes after the number is no token, that is what the error is about: it is
      scanned before the number is read. */
  ghost predicate Explains(e: Error, ts: Stream, k: nat)
    requires k <= Size(ts)
  {
    var p := Syms(ts)[..k];
    || (About(e, ts, k) && match e.what
                           case Scanning(_) => TornAt(ts, k)
                           case Expected(want, _) => CanFollow(p, want)
                           case Unexpected(_, rule) => forall kind | kind in Choices(rule) :: CanFollow(p, kind)
                           case BadIndex(_) => CanFollow(p, Num) && !TornAt(ts, k + 1))
    || (CanFollow(p, Num) && LateAt(ts, k) && About(e, ts, k + 1))
  }

  /** An error names the first of the tokens placed in the text with which no sentence of
      the grammar goes on. */
  lemma FirstBadToken(raw: string)
    requires Parse(raw).Failure?
    ensures exists ts ::
              && Placed(Folded(raw), 0, false, ts)
              && exists k ::
                && 0 <= k <= Size(ts) && Viable(Syms(ts)[..k]) && !Viable(Syms(ts)[..k + 1])
                && Explains(Parse(raw).error, ts, k)
  {
    hide Tokens, Syms, LexSyms, ParseTokens, Viable, Explains, Placed;
    var s := Folded(raw);
    var ts := Tokens(s, 0, false);
    TokensArePlaced(s, 0, false);
    TokensAreRegular(s, 0, false);
    FirstBadSymbol(ts);
  }

  lemma {:induction false} AboutDrop(e: Error, ts: Stream, k: nat)
    requires About(e, ts, k)
    ensures k <= Size(ts) && About(e, Drop(ts, k), 0)
    decreases k
  {
    if k > 0 {
      AboutDrop(e, ts.rest, k - 1);
    }
  }

  lemma {:induction false} SymAt(ts: Stream, k: nat)
    requires k < Size(ts)
    ensures Syms(ts)[k] == SymOf(Drop(ts, k).tok.kind, Drop(ts, k).tok.lex)
    decreases k
  {
    hide SymOf;
    if k > 0 {
      SymAt(ts.rest, k - 1);
      assert Syms(ts)[k] == Syms(ts.rest)[k - 1];
    }
  }

  /** No sentence holds a number too large for an index. */
  lemma LateIsBad(ts: Stream, k: nat)
    requires Regular(ts) && LateAt(ts, k)
    ensures !Viable(Syms(ts)[..k + 1])
  {
    hide Syms, Yield, DecValue, AllDigits;
    SymAt(ts, k);
    RegularDrop(ts, k);
    if Viable(Syms(ts)[..k + 1]) {
      var n, w :| Yield(n) + [EosSym] == Syms(ts)[..k + 1] + w;
      assert (Yield(n) + [EosSym])[k] == Syms(ts)[k];
      SentenceSyms(n, k);
    }
  }

  lemma SentenceSyms(n: TreeNode, k: nat)
    ensures k <= |Yield(n)| ==> (Yield(n) + [EosSym])[k] == EosSym || Solid((Yield(n) + [EosSym])[k])
  {
    hide Yield, Solid;
    NodeIsSolid(n);
  }

  /** The first symbol to blame, and a kind of token that can stand in its place. */
  lemma BadSymbol(ts: Stream, alt: Kind) returns (k: nat, at: nat, next: Kind)
    requires Regular(ts) && ParseTokens(ts).Failure?
    ensures k < |Syms(ts)| && Viable(Syms(ts)[..k]) && !Viable(Syms(ts)[..k + 1]) && CanFollow(Syms(ts)[..k], next)
    ensures var e := ParseTokens(ts).error;
            && About(e, ts, at) && (at == k || (at == k + 1 && LateAt(ts, k) && TornAt(ts, at)))
            && NextIs(e, ts, at, k, next, alt)
  {
    hide Syms, Yield, ParseTokens, About, NextIs;
    var n, w;
    at, k, n, w := TreeFails(ts, alt);
    next := KindOf(w[0]);
    assert CanFollow(Syms(ts)[..k], next);
    if at == k {
      NotViable(ts, k + 1);
    } else {
      LateIsBad(ts, k);
    }
  }

  lemma FirstBadSymbol(ts: Stream)
    requires Regular(ts) && ParseTokens(ts).Failure?
    ensures exists k ::
              && 0 <= k < |Syms(ts)| && Viable(Syms(ts)[..k]) && !Viable(Syms(ts)[..k + 1])
              && Explains(ParseTokens(ts).error, ts, k)
  {
    hide Syms, Viable, ParseTokens, CanFollow, LateAt, IndexOf, Drop, TornAt;
    var k, at, next := BadSymbol(ts, Str);
    var e := ParseTokens(ts).error;
    if at == k {
      AboutDrop(e, ts, k);
      TornIsScanning(e, ts, k);
      forall kind: Kind | e.what.Unexpected? && kind in Choices(e.what.rule)
        ensures CanFollow(Syms(ts)[..k], kind)
      {
        var i, again, other := BadSymbol(ts, kind);
        FirstBadIsUnique(Syms(ts), i, k);
        AboutDrop(e, ts, again);
        TornIsScanning(e, ts, again);
      }
    }
    assert Explains(e, ts, k);
  }

  /** Of an error about no token, and of no other, the scanner is the origin. */
  lemma TornIsScanning(e: Error, ts: Stream, k: nat)
    requires Regular(ts) && About(e, ts, k)
    ensures TornAt(ts, k) <==> e.what.Scanning?
  {
    AboutDrop(e, ts, k);
    RegularDrop(ts, k);
  }

  // An input with an error on its second line.

  const LATE_NAME := "N(\n  x)"

  lemma LateNamePositions()
    ensures var s := LATE_NAME;
            && |s| == 7 && PosAt(s, 0) == Pos(1, 1) && PosAt(s, 1) == Pos(1, 2) && PosAt(s, 5) == Pos(2, 3)
            && PosAt(s, 6) == Pos(2, 4) && PosAt(s, 7) == Pos(2, 5)
  {
    var s := LATE_NAME;
    assert s[0] == 'N' && s[1] == '(' && s[2] == '\n' && s[3] == ' ' && s[4] == ' ' && s[5] == 'x' && s[6] == ')';
    assert LineStart(s, 0) == LineStart(s, 1) == LineStart(s, 2) == 0;
    assert LineStart(s, 3) == LineStart(s, 4) == LineStart(s, 5) == 3;
    assert LineStart(s, 6) == LineStart(s, 7) == 3;
    assert Line(s, 0) == Line(s, 1) == Line(s, 2) == 1;
    assert Line(s, 3) == Line(s, 4) == Line(s, 5) == 2;
    assert Line(s, 6) == Line(s, 7) == 2;
  }

  function LateNameTokens(): Stream {
    Cons(Token(Ident, "N", Pos(1, 1)), Cons(Token(OpenParen, "(", Pos(1, 2)), Cons(Token(Name, "x", Pos(2, 3)),
      Cons(Token(CloseParen, ")", Pos(2, 4)), End(Token(Eos, "", Pos(2, 5)))))))
  }

  lemma FirstStands()
    ensures Stands(LATE_NAME, 0, false, LateNameTokens().tok, 0, 1)
    ensures Stands(LATE_NAME, 1, false, LateNameTokens().rest.tok, 1, 2)
  {
    hide PosAt;
    var s := LATE_NAME;
    LateNamePositions();
    assert s[0..1] == "N" && s[1..2] == "(" && s[0..0] == "" && s[1..1] == "";
    assert 'N' in "N" && s[1] == '(';
  }

  lemma LastStands()
    ensures Stands(LATE_NAME, 2, false, LateNameTokens().rest.rest.tok, 5, 6)
    ensures Stands(LATE_NAME, 6, false, LateNameTokens().rest.rest.rest.tok, 6, 7)
    ensures EndsHere(LATE_NAME[7..])
  {
    hide PosAt;
    var s := LATE_NAME;
    LateNamePositions();
    assert s[2..5] == "\n  " && s[5..6] == "x" && s[6..7] == ")" && s[6..6] == "" && s[7..] == "";
    assert s[6] == ')';
  }

  lemma PlacedCons(s: string, i: nat, afterDot: bool, tok: Token, q: nat, e: nat, rest: Stream)
    requires i <= q <= e <= |s| && Stands(s, i, afterDot, tok, q, e) && Placed(s, e, tok.kind == Dot, rest)
    ensures Placed(s, i, afterDot, Cons(tok, rest))
  {
    hide Stands;
  }

  lemma PlacedEnd(s: string, i: nat, afterDot: bool)
    requires i <= |s| && EndsHere(s[i..])
    ensures Placed(s, i, afterDot, End(Token(Eos, "", PosAt(s, |s|))))
  {
  }

  lemma LateNamePlaced()
    ensures Placed(LATE_NAME, 0, false, LateNameTokens())
  {
    hide PosAt, Stands, EndsHere, Placed;
    var s, ts := LATE_NAME, LateNameTokens();
    LateNamePositions();
    FirstStands();
    LastStands();
    var ts3 := ts.rest.rest.rest;
    PlacedEnd(s, 7, false);
    PlacedCons(s, 6, false, ts3.tok, 6, 7, ts3.rest);
    PlacedCons(s, 2, false, ts.rest.rest.tok, 5, 6, ts3);
    PlacedCons(s, 1, false, ts.rest.tok, 1, 2, ts.rest.rest);
    PlacedCons(s, 0, false, ts.tok, 0, 1, ts.rest);
  }

  /** The error in it is the name, on line 2 in column 3. */
  lemma LateNameIsBlamed()
    ensures Parse(LATE_NAME) == Failure(Error(Unexpected(Name, NodeArgsRule), Pos(2, 3)))
  {
    hide Tokens, Placed;
    LateNamePlaced();
    OnlyTokensArePlaced(LATE_NAME, 0, false, LateNameTokens());
    assert Folded(LATE_NAME) == LATE_NAME;
  }
}
