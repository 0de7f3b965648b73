/** The listing of a type table (`--print-types`), and that of abc. */
module Listing {
  import opened Wrappers
  import opened Types
  import opened Objects
  import opened Abc

  function CptrName(cptr: CptrType): string {
    if cptr.CharPtr? then "char*" else cptr.name
  }

  function ArgText(tt: Table, def: ArgDef): string {
    (match def.ty
     case NodeT(t) => "<" + NameOf(tt, t) + ">*"
     case ListT(t) => "list<" + NameOf(tt, t) + ">"
     case CptrT(cptr) => "<" + CptrName(cptr) + ">") + " [" + def.name + "]"
  }

  function ArgTexts(tt: Table, args: seq<ArgDef>, k: nat): string
    requires k <= |args|
    decreases |args| - k
  {
    if k == |args| then ""
    else (if k > 0 then ", " else "") + ArgText(tt, args[k]) + ArgTexts(tt, args, k + 1)
  }

  /** A type, its base, and its arguments if it has a base. */
  function TypeText(tt: Table, ty: AstType): string {
    "<" + ty.name + ">"
    + (if ty.base.None? then ""
       else " : " + NameOf(tt, ty.base.value) + (if |ty.args| > 0 then " @ " else "") + ArgTexts(tt, ty.args, 0))
    + ";\n"
  }

  function TypesText(tt: Table, k: nat): string
    requires k <= |tt.types|
    decreases |tt.types| - k
  {
    if k == |tt.types| then "" else TypeText(tt, tt.types[k]) + TypesText(tt, k + 1)
  }

  /** `ast_type_t::print_types`. */
  method PrintTypes(tt: Table) returns (ost: string)
    ensures ost == TypesText(tt, 0)
  {
    hide TypeText;
    ost := "";
    for t := 0 to |tt.types|
      invariant ost + TypesText(tt, t) == TypesText(tt, 0)
    {
      Assoc(ost, TypeText(tt, tt.types[t]), TypesText(tt, t + 1));
      ost := PrintType(tt, tt.types[t], ost);
    }
    assert ost + "" == ost;
  }

  method PrintType(tt: Table, ty: AstType, before: string) returns (ost: string)
    ensures ost == before + TypeText(tt, ty)
  {
    hide ArgTexts;
    ost := before + "<" + ty.name + ">";
    ghost var head, more := ost, "";
    if ty.base.Some? {
      ost := ost + " : " + NameOf(tt, ty.base.value);
      if |ty.args| > 0 {
        ost := ost + " @ ";
      }
      more := " : " + NameOf(tt, ty.base.value) + (if |ty.args| > 0 then " @ " else "");
      assert ost == head + more;
      Assoc(head, more, ArgTexts(tt, ty.args, 0));
      more := more + ArgTexts(tt, ty.args, 0);
      ost := PrintArgs(tt, ty.args, ost);
    }
    assert ost == head + more;
    ost := ost + ";\n";
    JoinType(before, "<" + ty.name + ">", more, ";\n");
    assert head == before + ("<" + ty.name + ">");
  }

  lemma JoinType(o: string, a: string, b: string, c: string)
    ensures o + a + b + c == o + (a + b + c)
  {
    Chain(o, a, b, c);
  }

  method PrintArgs(tt: Table, args: seq<ArgDef>, before: string) returns (ost: string)
    ensures ost == before + ArgTexts(tt, args, 0)
  {
    hide ArgText;
    ost := before;
    for k := 0 to |args|
      invariant ost + ArgTexts(tt, args, k) == before + ArgTexts(tt, args, 0)
    {
      Chain(ost, if k > 0 then ", " else "", ArgText(tt, args[k]), ArgTexts(tt, args, k + 1));
      if k > 0 {
        ost := ost + ", ";
      } else {
        assert ost + "" == ost;
      }
      ost := ost + ArgText(tt, args[k]);
    }
    assert ost + "" == ost;
  }

  lemma FewArgs(tt: Table, args: seq<ArgDef>)
    ensures |args| == 0 ==> ArgTexts(tt, args, 0) == ""
    ensures |args| == 1 ==> ArgTexts(tt, args, 0) == ArgText(tt, args[0])
    ensures |args| == 2 ==> ArgTexts(tt, args, 0) == ArgText(tt, args[0]) + (", " + ArgText(tt, args[1]))
    ensures |args| == 3 ==>
              ArgTexts(tt, args, 0)
              == ArgText(tt, args[0]) + (", " + ArgText(tt, args[1]) + (", " + ArgText(tt, args[2])))
  {
    hide ArgText;
    var n := |args|;
    assert ArgTexts(tt, args, n) == "";
    if 0 < n <= 3 {
      LastArg(tt, args);
      if n > 1 {
        assert ArgTexts(tt, args, n - 2)
            == (if n > 2 then ", " else "") + ArgText(tt, args[n - 2]) + (", " + ArgText(tt, args[n - 1]));
      }
      assert forall s: string :: "" + s == s;
    }
  }

  lemma LastArg(tt: Table, args: seq<ArgDef>)
    requires args != []
    ensures ArgTexts(tt, args, |args| - 1) == (if |args| > 1 then ", " else "") + ArgText(tt, args[|args| - 1])
  {
    hide ArgText;
    var s := (if |args| > 1 then ", " else "") + ArgText(tt, args[|args| - 1]);
    assert ArgTexts(tt, args, |args|) == "" && s + "" == s;
  }

  lemma ArgStrings()
    ensures "<" + "A" + ">*" + " [" + "a" + "]" == "<A>* [a]"
    ensures "<" + "A" + ">*" + " [" + "x" + "]" == "<A>* [x]" && "<" + "A" + ">*" + " [" + "y" + "]" == "<A>* [y]"
    ensures "<" + "B" + ">*" + " [" + "x" + "]" == "<B>* [x]" && "<" + "C" + ">*" + " [" + "y" + "]" == "<C>* [y]"
    ensures "<" + "D" + ">*" + " [" + "z" + "]" == "<D>* [z]"
    ensures "list<" + "B" + ">" + " [" + "b" + "]" == "list<B> [b]"
    ensures "list<" + "Q" + ">" + " [" + "q" + "]" == "list<Q> [q]"
    ensures "<" + "char*" + ">" + " [" + "c" + "]" == "<char*> [c]"
    ensures "<" + "bool" + ">" + " [" + "b" + "]" == "<bool> [b]"
  {
  }

  /** The text of the arguments of each type. */
  function Arguments(t: TypeId): string {
    if t == B then "<A>* [a]"
    else if t == C then "list<B> [b]"
    else if t == D then "<char*> [c]"
    else if t == N then "<B>* [x]" + (", " + "<C>* [y]" + (", " + "<D>* [z]"))
    else if t == M then "<A>* [a]" + (", " + "list<B> [b]" + (", " + "<char*> [c]"))
    else if t == P then "<A>* [x]" + (", " + "<A>* [y]")
    else if t == L then "list<Q> [q]"
    else if t == S then "<bool> [b]"
    else ""
  }

  lemma ArgumentsAre(layout: Layout, t: TypeId)
    requires layout.Ok() && t < |NAMES|
    ensures ArgTexts(Library(layout), Args(t), 0) == Arguments(t)
  {
    hide ArgTexts;
    FewArgs(Library(layout), Args(t));
    ArgStrings();
  }

  /** A type and its base. */
  function Head(t: TypeId): string {
    if t == NODE then "<Node>"
    else if t == A then "<A> : Node"
    else if t == B then "<B> : Node @ "
    else if t == C then "<C> : Node @ "
    else if t == D then "<D> : Node @ "
    else if t == N then "<N> : Node @ "
    else if t == M then "<M> : Node @ "
    else if t == P then "<P> : Node @ "
    else if t == Q then "<Q> : A"
    else if t == R then "<R> : Q"
    else if t == L then "<L> : Node @ "
    else "<S> : Q @ "
  }

  function HeadText(t: TypeId): string
    requires t < |NAMES|
  {
    "<" + NAMES[t] + ">"
    + (if Base(t).None? then "" else " : " + NAMES[Base(t).value] + (if |Args(t)| > 0 then " @ " else ""))
  }

  lemma BareHeads(t: TypeId)
    requires t in {NODE, A, Q, R}
    ensures Head(t) == HeadText(t) && Arguments(t) == ""
  {
  }

  lemma ShortHeads(t: TypeId)
    requires t in {B, C, D, S}
    ensures Head(t) == HeadText(t)
  {
  }

  lemma MoreHeads(t: TypeId)
    requires t in {N, M}
    ensures Head(t) == HeadText(t)
  {
  }

  lemma OtherHeads(t: TypeId)
    requires t in {P, L}
    ensures Head(t) == HeadText(t)
  {
  }

  /** The table of abc is listed line by line as test/test-abc.sh records it. */
  lemma AbcTypes(layout: Layout, t: TypeId)
    requires layout.Ok() && t < |NAMES|
    ensures TypeText(Library(layout), Library(layout).types[t]) == Head(t) + Arguments(t) + ";\n"
  {
    hide ArgTexts, Arguments, Args, Head;
    ArgumentsAre(layout, t);
    if t in {NODE, A, Q, R} {
      BareHeads(t);
    } else if t in {B, C, D, S} {
      ShortHeads(t);
    } else if t in {N, M} {
      MoreHeads(t);
    } else {
      OtherHeads(t);
    }
  }
}
