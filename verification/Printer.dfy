/** The source printers: a tree expression printed tersely or prettily. */
module Printer {
  import opened Wrappers
  import opened Syntax
  import opened Numbers

  /** `dots` is the option that draws dots in the indentation. */
  datatype Style = Terse | Pretty(dots: bool)

  function Indent(style: Style, level: nat): string
    requires style.Pretty?
  {
    if level == 0 then "" else (if style.dots then ".   " else "    ") + Indent(style, level - 1)
  }

  /** A line break with its indentation; terse printing has none. */
  function Endl(style: Style, level: nat): string {
    if style.Pretty? then "\n" + Indent(style, level) else ""
  }

  function Assign(style: Style): string {
    if style.Pretty? then " = " else "="
  }

  function Print(n: TreeNode, style: Style, level: nat): string
    decreases n, 0
  {
    n.name + "(" + PrintArgs(n.args, style, level) + ")"
  }

  function PrintArgs(a: NodeArgs, style: Style, level: nat): string
    decreases a, 0
  {
    match a
    case LiteralArgs(s) => "'" + s + "'"
    case ListArgs(list) =>
      PrintArgsFrom(list, 0, style, level + 1) + (if list == [] then "" else Endl(style, level))
  }

  function PrintArgsFrom(list: seq<NodeArg>, k: nat, style: Style, level: nat): string
    requires k <= |list|
    decreases list, |list| - k
  {
    if k == |list| then ""
    else Endl(style, level) + PrintArg(list[k], style, level) + PrintArgsFrom(list, k + 1, style, level)
  }

  function PrintArg(a: NodeArg, style: Style, level: nat): string
    decreases a, 0
  {
    "." + a.name + Assign(style) + PrintValue(a.value, style, level)
  }

  function PrintValue(v: ArgValue, style: Style, level: nat): string
    decreases v, 0
  {
    match v
    case NodeValue(n) => Print(n, style, level)
    case ListValue(base, elems) =>
      "list<" + base + ">" + (if style.Pretty? then " " else "") + "["
      + PrintElemsFrom(elems, 0, style, level + 1) + (if elems == [] then "" else Endl(style, level)) + "]"
    case LiteralValue(s) => "'" + s + "'"
  }

  function PrintElemsFrom(elems: seq<ListElem>, k: nat, style: Style, level: nat): string
    requires k <= |elems|
    decreases elems, |elems| - k
  {
    if k == |elems| then ""
    else Endl(style, level) + PrintElem(elems[k], style, level) + PrintElemsFrom(elems, k + 1, style, level)
  }

  function PrintElem(e: ListElem, style: Style, level: nat): string
    decreases e, 0
  {
    "[" + Dec(e.index) + "]" + Assign(style) + Print(e.node, style, level)
  }

  /** What the printer writes for a whole tree. */
  function PrintTree(n: TreeNode, style: Style): string {
    Print(n, style, 0) + "\n"
  }

  lemma ListText(o: string, base: string, ws: string, body: string, end: string)
    ensures o + "list<" + base + ">" + ws + "[" + (body + end) + "]"
         == o + ("list<" + base + ">" + ws + "[" + body + end + "]")
  {
    var open := "list<" + base + ">" + ws + "[";
    assert o + "list<" + base + ">" + ws + "[" == o + open;
    Chain(o, open, body + end, "]");
    Assoc(open, body, end);
  }

  /** The printing visitor: an output stream and an indentation level. */
  class SourcePrinter {
    const style: Style
    var ost: string
    var indentLevel: int

    constructor (style: Style)
      ensures this.style == style && ost == "" && indentLevel == -1
    {
      this.style := style;
      ost := "";
      indentLevel := -1;
    }

    /** A line break and `indentLevel + inc` levels of indentation, when printing prettily. */
    method PrintEndl(inc: int)
      requires 0 <= indentLevel + inc
      modifies `ost
      ensures ost == old(ost) + Endl(style, indentLevel + inc)
    {
      if style.Pretty? {
        ost := ost + "\n";
        var level := indentLevel + inc;
        while level > 0
          invariant level >= 0
          invariant ost + Indent(style, level) == old(ost) + Endl(style, indentLevel + inc)
        {
          Assoc(ost, if style.dots then ".   " else "    ", Indent(style, level - 1));
          ost := ost + (if style.dots then ".   " else "    ");
          level := level - 1;
        }
      }
    }

    method VisitTreeNode(n: TreeNode)
      requires indentLevel >= 0
      modifies `ost, `indentLevel
      ensures indentLevel == old(indentLevel) && ost == old(ost) + Print(n, style, indentLevel)
      decreases n, 1
    {
      hide PrintArgsFrom, Endl;
      ghost var o, args := ost, PrintArgs(n.args, style, indentLevel);
      ost := ost + n.name;
      ost := ost + "(";
      match n.args {
        case LiteralArgs(s) => VisitLiteral(s);
        case ListArgs(list) => VisitListArgs(list);
      }
      ost := ost + ")";
      Chain(o, n.name, "(", args);
      Assoc(o, n.name + "(" + args, ")");
    }

    method VisitLiteral(s: string)
      modifies `ost
      ensures ost == old(ost) + ("'" + s + "'")
    {
      ost := ost + "'" + s + "'";
    }

    method VisitListArgs(list: seq<NodeArg>)
      requires indentLevel >= 0
      modifies `ost, `indentLevel
      ensures indentLevel == old(indentLevel) && ost == old(ost) + PrintArgs(ListArgs(list), style, indentLevel)
      decreases list
    {
      hide PrintArg, Endl;
      indentLevel := indentLevel + 1;
      ghost var o, all := ost, PrintArgsFrom(list, 0, style, indentLevel);
      for k := 0 to |list|
        invariant indentLevel == old(indentLevel) + 1
        invariant ost + PrintArgsFrom(list, k, style, indentLevel) == o + all
      {
        Chain(ost, Endl(style, indentLevel), PrintArg(list[k], style, indentLevel),
              PrintArgsFrom(list, k + 1, style, indentLevel));
        PrintEndl(0);
        VisitNodeArg(list[k]);
      }
      assert ost + "" == ost;
      if list != [] {
        Assoc(o, all, Endl(style, indentLevel - 1));
        PrintEndl(-1);
      } else {
        assert all + "" == all;
      }
      indentLevel := indentLevel - 1;
    }

    method VisitNodeArg(a: NodeArg)
      requires indentLevel >= 0
      modifies `ost, `indentLevel
      ensures indentLevel == old(indentLevel) && ost == old(ost) + PrintArg(a, style, indentLevel)
      decreases a, 1
    {
      ost := ost + "." + a.name + Assign(style);
      match a.value {
        case NodeValue(n) => VisitTreeNode(n);
        case ListValue(base, elems) => VisitNodeList(base, elems);
        case LiteralValue(s) => VisitLiteral(s);
      }
    }

    method VisitNodeList(base: string, elems: seq<ListElem>)
      requires indentLevel >= 0
      modifies `ost, `indentLevel
      ensures indentLevel == old(indentLevel)
      ensures ost == old(ost) + PrintValue(ListValue(base, elems), style, indentLevel)
      decreases elems, 1
    {
      hide PrintElemsFrom, Endl;
      ost := ost + "list<" + base + ">" + (if style.Pretty? then " " else "") + "[";
      VisitElems(elems);
      ost := ost + "]";
      ghost var body := PrintElemsFrom(elems, 0, style, indentLevel + 1);
      ghost var end := if elems == [] then "" else Endl(style, indentLevel);
      ListText(old(ost), base, if style.Pretty? then " " else "", body, end);
    }

    method VisitElems(elems: seq<ListElem>)
      requires indentLevel >= 0
      modifies `ost, `indentLevel
      ensures indentLevel == old(indentLevel)
      ensures var body := PrintElemsFrom(elems, 0, style, indentLevel + 1);
              ost == old(ost) + (body + (if elems == [] then "" else Endl(style, indentLevel)))
      decreases elems, 0
    {
      hide PrintElem, Endl;
      indentLevel := indentLevel + 1;
      ghost var o, all := ost, PrintElemsFrom(elems, 0, style, indentLevel);
      for k := 0 to |elems|
        invariant indentLevel == old(indentLevel) + 1
        invariant ost + PrintElemsFrom(elems, k, style, indentLevel) == o + all
      {
        Chain(ost, Endl(style, indentLevel), PrintElem(elems[k], style, indentLevel),
              PrintElemsFrom(elems, k + 1, style, indentLevel));
        PrintEndl(0);
        VisitListElem(elems[k]);
      }
      assert ost + "" == ost;
      if elems != [] {
        Assoc(o, all, Endl(style, indentLevel - 1));
        PrintEndl(-1);
      } else {
        assert all + "" == all;
      }
      indentLevel := indentLevel - 1;
    }

    method VisitListElem(e: ListElem)
      requires indentLevel >= 0
      modifies `ost, `indentLevel
      ensures indentLevel == old(indentLevel) && ost == old(ost) + PrintElem(e, style, indentLevel)
      decreases e, 1
    {
      ost := ost + "[" + Dec(e.index) + "]" + Assign(style);
      VisitTreeNode(e.node);
    }

    /** A fresh printer on a whole tree. */
    method PrintAst(root: TreeNode)
      requires ost == "" && indentLevel == -1
      modifies `ost, `indentLevel
      ensures indentLevel == -1 && ost == PrintTree(root, style)
    {
      indentLevel := indentLevel + 1;
      VisitTreeNode(root);
      indentLevel := indentLevel - 1;
      ost := ost + "\n";
    }
  }
}
