/** The syntax tree of tree expressions, the tokens, and the grammar that relates them. */
module Syntax {
  import opened Chars

  /** List indices are stored in an `unsigned char`. */
  type ElemIndex = n: nat | n < 256

  datatype TreeNode = TreeNode(name: string, args: NodeArgs)
  datatype NodeArgs = ListArgs(list: seq<NodeArg>) | LiteralArgs(literal: string)
  datatype NodeArg = NodeArg(name: string, value: ArgValue)
  datatype ArgValue =
    | NodeValue(node: TreeNode)
    | ListValue(base: string, elems: seq<ListElem>)
    | LiteralValue(literal: string)
  datatype ListElem = ListElem(index: ElemIndex, node: TreeNode)

  datatype Kind =
    | OpenParen | CloseParen | OpenSqBrk | CloseSqBrk | OpenAngBrk | CloseAngBrk
    | Dot | Equal | Name | Ident | Str | Num | KwList | Bos | Eos

  /** A token up to its quote kind, its position and the leading zeros of a number. */
  datatype Sym =
    | Mark(kind: Kind)
    | IdentSym(ident: string)
    | NameSym(name: string)
    | StrSym(body: string)
    | NumSym(value: nat)
    | EosSym
    | FaultSym

  // The grammar: `Yield*` is the string of symbols that a derivation derives,
  // one function for each production.

  // tree_node : node_name "(" node_args ")"
  function Yield(n: TreeNode): seq<Sym>
    decreases n, 0
  {
    [IdentSym(n.name), Mark(OpenParen)] + YieldArgs(n.args) + [Mark(CloseParen)]
  }

  // node_args : node_arg * | literal
  function YieldArgs(a: NodeArgs): seq<Sym>
    decreases a, 0
  {
    match a
    case LiteralArgs(s) => [StrSym(s)]
    case ListArgs(list) => YieldArgsFrom(list, 0)
  }

  function YieldArgsFrom(list: seq<NodeArg>, k: nat): seq<Sym>
    requires k <= |list|
    decreases list, |list| - k
  {
    if k == |list| then [] else YieldArg(list[k]) + YieldArgsFrom(list, k + 1)
  }

  // node_arg : "." arg_name "=" arg_value
  function YieldArg(a: NodeArg): seq<Sym>
    decreases a, 0
  {
    [Mark(Dot), NameSym(a.name), Mark(Equal)] + YieldValue(a.value)
  }

  // arg_value : tree_node | "list" "<" node_name ">" "[" list_elem * "]" | literal
  function YieldValue(v: ArgValue): seq<Sym>
    decreases v, 0
  {
    match v
    case NodeValue(n) => Yield(n)
    case ListValue(base, elems) =>
      [Mark(KwList), Mark(OpenAngBrk), IdentSym(base), Mark(CloseAngBrk), Mark(OpenSqBrk)]
      + YieldElemsFrom(elems, 0) + [Mark(CloseSqBrk)]
    case LiteralValue(s) => [StrSym(s)]
  }

  function YieldElemsFrom(elems: seq<ListElem>, k: nat): seq<Sym>
    requires k <= |elems|
    decreases elems, |elems| - k
  {
    if k == |elems| then [] else YieldElem(elems[k]) + YieldElemsFrom(elems, k + 1)
  }

  // list_elem : "[" NUM "]" "=" tree_node
  function YieldElem(e: ListElem): seq<Sym>
    decreases e, 0
  {
    [Mark(OpenSqBrk), NumSym(e.index), Mark(CloseSqBrk), Mark(Equal)] + Yield(e.node)
  }

  // Lexical validity of the strings of a tree.

  /** An identifier: a word with at least one character no name may hold. */
  predicate IsIdentWord(w: string) {
    && |w| > 0 && IsIdent0(w[0])
    && (forall c | c in w :: IsIdent(c))
    && !(forall c | c in w :: IsName(c))
  }

  /** A name: a word of lower case letters, digits and underscores. */
  predicate IsNameWord(w: string) {
    && |w| > 0 && IsIdent0(w[0])
    && (forall c | c in w :: IsName(c))
  }

  /** Whether the character at `k` follows an odd run of backslashes. */
  predicate Escaped(s: string, k: nat)
    requires k <= |s|
  {
    k > 0 && s[k - 1] == '\\' && !Escaped(s, k - 1)
  }

  /** Text that may stand between two `q` quotes: no newline, nothing unescaped that is
      not plain, no unescaped `q`, no dangling backslash. */
  predicate IsBody(s: string, q: char) {
    && (forall k :: 0 <= k < |s| ==> s[k] != '\n' && (Escaped(s, k) || (IsPlain(s[k]) && s[k] != q)))
    && !Escaped(s, |s|)
  }

  /** Which strings of a tree a predicate is asked of. */
  datatype Wanted = Words | Literals

  /** All words of the tree are lexically valid (`Words`), or all its literals can
      stand between single quotes (`Literals`). */
  predicate Fits(n: TreeNode, w: Wanted)
    decreases n, 0
  {
    (w == Words ==> IsIdentWord(n.name)) && ArgsFit(n.args, w)
  }

  predicate ArgsFit(a: NodeArgs, w: Wanted)
    decreases a, 0
  {
    match a
    case LiteralArgs(s) => w == Literals ==> IsBody(s, '\'')
    case ListArgs(list) => ArgsFitFrom(list, 0, w)
  }

  predicate ArgsFitFrom(list: seq<NodeArg>, k: nat, w: Wanted)
    requires k <= |list|
    decreases list, |list| - k
  {
    k < |list| ==> ArgFits(list[k], w) && ArgsFitFrom(list, k + 1, w)
  }

  predicate ArgFits(a: NodeArg, w: Wanted)
    decreases a, 0
  {
    (w == Words ==> IsNameWord(a.name)) && ValueFits(a.value, w)
  }

  predicate ValueFits(v: ArgValue, w: Wanted)
    decreases v, 0
  {
    match v
    case NodeValue(n) => Fits(n, w)
    case ListValue(base, elems) => (w == Words ==> IsIdentWord(base)) && ElemsFitFrom(elems, 0, w)
    case LiteralValue(s) => w == Literals ==> IsBody(s, '\'')
  }

  predicate ElemsFitFrom(elems: seq<ListElem>, k: nat, w: Wanted)
    requires k <= |elems|
    decreases elems, |elems| - k
  {
    k < |elems| ==> ElemFits(elems[k], w) && ElemsFitFrom(elems, k + 1, w)
  }

  predicate ElemFits(e: ListElem, w: Wanted)
    decreases e, 0
  {
    Fits(e.node, w)
  }
}
