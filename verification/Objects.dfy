/** How built objects print, and the proof that what they print builds them again. */
module Objects {
  import opened Wrappers
  import opened Search
  import opened Syntax
  import opened Numbers
  import opened Lexer
  import opened Grammar
  import opened Printer
  import opened RoundTrip
  import opened Pool
  import opened Types
  import opened Eval
  import opened EvalProofs
  import opened Elaboration

  /** A library whose function table and type table agree on names, and whose names and
      spellings are lexically valid. */
  ghost predicate Coherent(tt: Table) {
    && tt.Valid()
    && (forall t :: 0 <= t < |tt.types| ==> TypeReads(tt, t))
    && (forall i :: 0 <= i < |tt.funcs| ==> tt.types[tt.funcs[i].id].name == tt.funcs[i].name)
  }

  predicate TypeReads(tt: Table, t: TypeId)
    requires t < |tt.types|
  {
    && tt.Lookup(tt.types[t].name) == Some(t) && IsIdentWord(tt.types[t].name)
    && forall k :: 0 <= k < |tt.types[t].args| ==> DefReads(tt.types[t].args[k])
  }

  predicate DefReads(def: ArgDef) {
    && IsNameWord(def.name)
    && (def.ty.CptrT? && def.ty.cptr.Enum? ==>
          forall v :: 0 <= v < |def.ty.cptr.values| ==> IsBody(def.ty.cptr.values[v], '\''))
  }

  // The text of an object. A string field prints its text alone, any other its name too.

  function Show(tt: Table, o: Obj): string
    requires tt.Chained() && WellTyped(tt, false, o)
    decreases o, 0
  {
    tt.types[o.id].name + "(" + ShowFieldsFrom(tt, tt.types[o.id].args, o.fields, 0) + ")"
  }

  ghost predicate FieldsTyped(tt: Table, defs: seq<ArgDef>, fields: seq<Field>)
    requires tt.Chained()
  {
    |defs| == |fields| && forall k :: 0 <= k < |fields| ==> FieldTyped(tt, false, defs[k].ty, fields[k])
  }

  function ShowFieldsFrom(tt: Table, defs: seq<ArgDef>, fields: seq<Field>, k: nat): string
    requires tt.Chained() && k <= |fields| && FieldsTyped(tt, defs, fields)
    decreases fields, |fields| - k
  {
    if k == |fields| then "" else ShowField(tt, defs[k], fields[k]) + ShowFieldsFrom(tt, defs, fields, k + 1)
  }

  function ShowField(tt: Table, def: ArgDef, f: Field): string
    requires tt.Chained() && FieldTyped(tt, false, def.ty, f)
    decreases f, 1
  {
    if f.StrF? then "'" + f.str + "'" else "." + def.name + "=" + ShowValue(tt, def.ty, f)
  }

  function ShowValue(tt: Table, ty: ObjType, f: Field): string
    requires tt.Chained() && FieldTyped(tt, false, ty, f)
    decreases f, 0
  {
    match f
    case NodeF(o) => Show(tt, o)
    case ListF(objs) => "list<" + NameOf(tt, ty.id) + ">[" + ShowElemsFrom(tt, objs, 0) + "]"
    case StrF(s) => "'" + s + "'"
    case EnumF(v) => "'" + ty.cptr.values[v] + "'"
  }

  ghost predicate ObjsTyped(tt: Table, objs: seq<Obj>)
    requires tt.Chained()
  {
    forall k :: 0 <= k < |objs| ==> WellTyped(tt, false, objs[k])
  }

  function ShowElemsFrom(tt: Table, objs: seq<Obj>, k: nat): string
    requires tt.Chained() && k <= |objs| && ObjsTyped(tt, objs)
    decreases objs, |objs| - k
  {
    if k == |objs| then "" else "[" + Dec(k) + "]=" + Show(tt, objs[k]) + ShowElemsFrom(tt, objs, k + 1)
  }

  function NameOf(tt: Table, t: TypeId): string {
    if t < |tt.types| then tt.types[t].name else ""
  }

  /** What the printer writes for a whole object. */
  function ShowTree(tt: Table, o: Obj): string
    requires tt.Chained() && WellTyped(tt, false, o)
  {
    Show(tt, o) + "\n"
  }

  // The tree that an object should read as.

  function TreeOf(tt: Table, o: Obj): TreeNode
    requires tt.Chained() && WellTyped(tt, false, o)
    decreases o
  {
    var defs := tt.types[o.id].args;
    TreeNode(tt.types[o.id].name,
      if |o.fields| == 1 && o.fields[0].StrF? then LiteralArgs(o.fields[0].str)
      else ListArgs(seq(|o.fields|, k requires 0 <= k < |o.fields| =>
        NodeArg(defs[k].name, ValueOf(tt, defs[k].ty, o.fields[k])))))
  }

  function ValueOf(tt: Table, ty: ObjType, f: Field): ArgValue
    requires tt.Chained() && FieldTyped(tt, false, ty, f)
    decreases f
  {
    match f
    case NodeF(o) => NodeValue(TreeOf(tt, o))
    case ListF(objs) =>
      ListValue(NameOf(tt, ty.id), seq(|objs|, k requires 0 <= k < |objs| => ListElem(k, TreeOf(tt, objs[k]))))
    case StrF(s) => LiteralValue(s)
    case EnumF(v) => LiteralValue(ty.cptr.values[v])
  }

  // When an object reads back: its strings can stand between single quotes, and no class
  // has a string field beside other fields, for such a field prints without its name.

  predicate Sayable(o: Obj)
    decreases o, 0
  {
    && (|o.fields| != 1 ==> forall k :: 0 <= k < |o.fields| ==> !o.fields[k].StrF?)
    && forall k :: 0 <= k < |o.fields| ==> FieldSayable(o.fields[k])
  }

  predicate FieldSayable(f: Field)
    decreases f, 0
  {
    match f
    case NodeF(o) => Sayable(o)
    case ListF(objs) => forall k :: 0 <= k < |objs| ==> Sayable(objs[k])
    case StrF(s) => IsBody(s, '\'')
    case EnumF(_) => true
  }

  // The object printer agrees with the terse printer of trees.

  lemma {:induction false} ShowIsPrint(tt: Table, o: Obj, level: nat)
    requires tt.Chained() && WellTyped(tt, false, o) && Sayable(o)
    ensures Show(tt, o) == Print(TreeOf(tt, o), Terse, level)
    decreases o, 0
  {
    hide ShowFieldsFrom, PrintArgsFrom, FieldTyped, FieldSayable, TypeReads;
    var n, defs := TreeOf(tt, o), tt.types[o.id].args;
    if n.args.LiteralArgs? {
      OneString(tt, defs, o.fields);
    } else {
      FieldsArePrinted(tt, defs, o.fields, n.args.list, 0, level + 1);
    }
  }

  lemma OneString(tt: Table, defs: seq<ArgDef>, fields: seq<Field>)
    requires tt.Chained() && FieldsTyped(tt, defs, fields) && |fields| == 1 && fields[0].StrF?
    ensures ShowFieldsFrom(tt, defs, fields, 0) == "'" + fields[0].str + "'"
  {
    assert ShowFieldsFrom(tt, defs, fields, 1) == "";
  }

  lemma {:induction false} FieldsArePrinted(tt: Table, defs: seq<ArgDef>, fields: seq<Field>,
                                            list: seq<NodeArg>, k: nat, level: nat)
    requires tt.Chained() && FieldsTyped(tt, defs, fields) && k <= |fields| == |list|
    requires forall i :: 0 <= i < |fields| ==> !fields[i].StrF? && FieldSayable(fields[i])
    requires forall i :: 0 <= i < |fields| ==> list[i] == NodeArg(defs[i].name, ValueOf(tt, defs[i].ty, fields[i]))
    ensures ShowFieldsFrom(tt, defs, fields, k) == PrintArgsFrom(list, k, Terse, level)
    decreases fields, |fields| - k
  {
    hide ShowValue, PrintValue, ValueOf, FieldTyped, FieldSayable;
    if k < |fields| {
      ValueIsPrinted(tt, defs[k].ty, fields[k], level);
      FieldsArePrinted(tt, defs, fields, list, k + 1, level);
    }
  }

  lemma {:induction false} ValueIsPrinted(tt: Table, ty: ObjType, f: Field, level: nat)
    requires tt.Chained() && FieldTyped(tt, false, ty, f) && FieldSayable(f)
    ensures ShowValue(tt, ty, f) == PrintValue(ValueOf(tt, ty, f), Terse, level)
    decreases f, 0
  {
    hide Show, Print, TreeOf, ShowElemsFrom, PrintElemsFrom, WellTyped;
    match f
    case NodeF(o) => ShowIsPrint(tt, o, level);
    case ListF(objs) =>
      var v := ValueOf(tt, ty, f);
      ElemsArePrinted(tt, objs, v.elems, 0, level + 1);
    case StrF(_) =>
    case EnumF(_) =>
  }

  lemma {:induction false} ElemsArePrinted(tt: Table, objs: seq<Obj>, elems: seq<ListElem>, k: nat, level: nat)
    requires tt.Chained() && ObjsTyped(tt, objs) && k <= |objs| == |elems| && |objs| <= 256
    requires forall i :: 0 <= i < |objs| ==> Sayable(objs[i]) && elems[i] == ListElem(i, TreeOf(tt, objs[i]))
    ensures ShowElemsFrom(tt, objs, k) == PrintElemsFrom(elems, k, Terse, level)
    decreases objs, |objs| - k
  {
    hide Show, Print, TreeOf, WellTyped, Sayable, Dec;
    if k < |objs| {
      ShowIsPrint(tt, objs[k], level);
      ElemsArePrinted(tt, objs, elems, k + 1, level);
    }
  }

  // The tree of an object is lexically valid, and denotes the object.

  lemma {:induction false} TreeDenotes(tt: Table, o: Obj)
    requires Coherent(tt) && CtxOk(Build(tt, false)) && WellTyped(tt, false, o)
    ensures Elab(tt, false, TreeOf(tt, o), o)
    decreases o, 0
  {
    hide FieldTyped, ElabArg, ValueOf, Table.Valid, Table.Lookup;
    var n, defs := TreeOf(tt, o), tt.types[o.id].args;
    assert TypeReads(tt, o.id);
    forall k | 0 <= k < |o.fields|
      ensures ElabArg(tt, false, NodeArg(defs[k].name, ValueOf(tt, defs[k].ty, o.fields[k])), defs[k].ty, o.fields[k])
    {
      DefIsOk(tt, o.id, k);
      ValueDenotes(tt, defs[k], o.fields[k]);
    }
    if n.args.LiteralArgs? {
      StringIsText(tt, defs[0].ty, o.fields[0]);
    }
  }

  lemma DefIsOk(tt: Table, t: TypeId, k: nat)
    requires tt.Valid() && t < |tt.types| && k < |tt.types[t].args|
    ensures tt.ArgOk(tt.types[t].args[k].ty)
  {
    assert tt.TypeOk(t);
  }

  lemma StringIsText(tt: Table, ty: ObjType, f: Field)
    requires tt.Chained() && FieldTyped(tt, false, ty, f) && f.StrF?
    ensures ty == CptrT(CharPtr) && ElabLiteral(f.str, ty, f)
  {
  }

  lemma {:induction false} ValueDenotes(tt: Table, def: ArgDef, f: Field)
    requires Coherent(tt) && CtxOk(Build(tt, false)) && FieldTyped(tt, false, def.ty, f) && tt.ArgOk(def.ty)
    ensures ElabArg(tt, false, NodeArg(def.name, ValueOf(tt, def.ty, f)), def.ty, f)
    decreases f, 0
  {
    hide WellTyped, Elab, TreeOf, Table.Valid, Table.Lookup;
    match f
    case NodeF(o) => TreeDenotes(tt, o);
    case StrF(_) =>
    case EnumF(_) =>
    case ListF(objs) =>
      var l := def.ty.id;
      assert TypeReads(tt, l);
      tt.IsAItself(false, l);
      forall k | 0 <= k < |objs| ensures ElabElem(tt, false, ListElem(k, TreeOf(tt, objs[k])), k, l, objs[k]) {
        TreeDenotes(tt, objs[k]);
      }
  }

  lemma {:induction false} TreeFits(tt: Table, o: Obj)
    requires Coherent(tt) && tt.Chained() && WellTyped(tt, false, o)
    ensures Fits(TreeOf(tt, o), Words)
    ensures Sayable(o) ==> Fits(TreeOf(tt, o), Literals)
    decreases o, 0
  {
    hide FieldTyped, FieldSayable, ValueOf, ArgsFitFrom, Table.Valid, Table.Lookup, IsIdentWord, IsBody;
    var n, defs := TreeOf(tt, o), tt.types[o.id].args;
    assert TypeReads(tt, o.id);
    if n.args.LiteralArgs? {
      StringFits(o.fields[0]);
    } else {
      forall k | 0 <= k < |o.fields|
        ensures ArgFits(n.args.list[k], Words) && (FieldSayable(o.fields[k]) ==> ArgFits(n.args.list[k], Literals))
      {
        assert DefReads(defs[k]);
        DefIsOk(tt, o.id, k);
        FieldFits(tt, defs[k], o.fields[k]);
      }
      EachArgFits(n.args.list, 0);
    }
  }

  lemma StringFits(f: Field)
    requires f.StrF?
    ensures FieldSayable(f) ==> IsBody(f.str, '\'')
  {
  }

  lemma {:induction false} EachArgFits(list: seq<NodeArg>, k: nat)
    requires k <= |list|
    ensures (forall i :: k <= i < |list| ==> ArgFits(list[i], Words)) ==> ArgsFitFrom(list, k, Words)
    ensures (forall i :: k <= i < |list| ==> ArgFits(list[i], Literals)) ==> ArgsFitFrom(list, k, Literals)
    decreases |list| - k
  {
    hide ArgFits;
    if k < |list| {
      EachArgFits(list, k + 1);
    }
  }

  lemma {:induction false} EachElemFits(elems: seq<ListElem>, k: nat)
    requires k <= |elems|
    ensures (forall i :: k <= i < |elems| ==> Fits(elems[i].node, Words)) ==> ElemsFitFrom(elems, k, Words)
    ensures (forall i :: k <= i < |elems| ==> Fits(elems[i].node, Literals)) ==> ElemsFitFrom(elems, k, Literals)
    decreases |elems| - k
  {
    hide Fits;
    if k < |elems| {
      EachElemFits(elems, k + 1);
    }
  }

  lemma {:induction false} FieldFits(tt: Table, def: ArgDef, f: Field)
    requires Coherent(tt) && tt.Chained() && DefReads(def) && FieldTyped(tt, false, def.ty, f) && tt.ArgOk(def.ty)
    ensures var a := NodeArg(def.name, ValueOf(tt, def.ty, f));
            ArgFits(a, Words) && (FieldSayable(f) ==> ArgFits(a, Literals))
    decreases f, 0
  {
    hide WellTyped, Sayable, Fits, TreeOf, ElemsFitFrom, Table.Valid, Table.Lookup, IsIdentWord, IsNameWord, IsBody;
    match f
    case NodeF(o) => TreeFits(tt, o);
    case StrF(_) =>
    case EnumF(v) =>
    case ListF(objs) =>
      assert TypeReads(tt, def.ty.id);
      var v := ValueOf(tt, def.ty, f);
      forall k | 0 <= k < |objs|
        ensures Fits(v.elems[k].node, Words) && (Sayable(objs[k]) ==> Fits(v.elems[k].node, Literals))
      {
        TreeFits(tt, objs[k]);
      }
      EachElemFits(v.elems, 0);
  }

  // Whatever reads the printed text as the object proves the object sayable: scanning the
  // text is compared, symbol by symbol, with the yield of a tree that denotes the object.

  lemma Drop1(a: Sym, b: Sym, x: seq<Sym>, y: seq<Sym>)
    requires [a] + x == [b] + y
    ensures a == b && x == y
  {
    assert ([a] + x)[0] == ([b] + y)[0] && ([a] + x)[1..] == ([b] + y)[1..];
  }

  /** A single quote never scans as a mark. */
  lemma QuoteIsNoMark(r: string, argCtxt: bool, k: Kind, x: seq<Sym>)
    ensures LexSyms("'" + r, argCtxt) != [Mark(k)] + x
  {
    hide ScanToken;
    var u := "'" + r;
    QuotedLexeme(u, argCtxt);
    if ScanToken(u, argCtxt).Fault? {
      FaultyFront(u, argCtxt);
    } else {
      LexHead(u, argCtxt);
    }
  }

  lemma {:induction false} ReadObj(tt: Table, n: TreeNode, o: Obj, rest: string, x: seq<Sym>)
    requires Coherent(tt) && CtxOk(Build(tt, false)) && WellTyped(tt, false, o) && Elab(tt, false, n, o)
    requires LexSyms(Show(tt, o) + rest, false) == Yield(n) + x
    ensures Sayable(o) && LexSyms(rest, false) == x
    decreases o, 0
  {
    hide LexSyms, ShowFieldsFrom, YieldArgsFrom, FieldTyped, ElabArg, ElabLiteral, FieldSayable,
         Table.Lookup, Table.Valid, IsIdentWord, IsBody;
    var defs := tt.types[o.id].args;
    NameIs(tt, n.name, o.id);
    var text := ShowFieldsFrom(tt, defs, o.fields, 0);
    var r2 := ")" + rest;
    var y2 := [Mark(CloseParen)] + x;
    var y1 := YieldArgs(n.args) + y2;
    assert Show(tt, o) + rest == n.name + ("(" + (text + r2));
    assert Yield(n) + x == [IdentSym(n.name)] + ([Mark(OpenParen)] + y1);
    IdentKind(n.name);
    LexWord(n.name, "(" + (text + r2), false, [Mark(OpenParen)] + y1);
    LexMark('(', text + r2, false, y1);
    match n.args {
      case LiteralArgs(s) =>
        ReadOnlyField(tt, s, defs, o.fields, r2, y2);
      case ListArgs(list) =>
        ReadFieldsFrom(tt, list, defs, o.fields, 0, r2, y2);
    }
    LexMark(')', rest, false, x);
  }

  lemma NameIs(tt: Table, name: string, t: TypeId)
    requires Coherent(tt) && tt.Lookup(name) == Some(t)
    ensures t < |tt.types| && tt.types[t].name == name && TypeReads(tt, t)
  {
  }

  lemma ReadOnlyField(tt: Table, s: string, defs: seq<ArgDef>, fields: seq<Field>, rest: string, x: seq<Sym>)
    requires tt.Chained() && FieldsTyped(tt, defs, fields) && |fields| == 1 && ElabLiteral(s, defs[0].ty, fields[0])
    requires LexSyms(ShowFieldsFrom(tt, defs, fields, 0) + rest, false) == [StrSym(s)] + x
    ensures fields[0].StrF? && FieldSayable(fields[0]) && LexSyms(rest, false) == x
  {
    hide LexSyms, IsBody;
    var text := ShowField(tt, defs[0], fields[0]);
    assert ShowFieldsFrom(tt, defs, fields, 1) == "";
    assert ShowFieldsFrom(tt, defs, fields, 0) + rest == text + rest;
    if fields[0].StrF? {
      LexLiteral(s, rest, false, x);
    } else {
      var r := text[1..] + rest;
      assert text + rest == "." + r;
      LexMark('.', r, false, LexSyms(r, true));
      Drop1(Mark(Dot), StrSym(s), LexSyms(r, true), x);
    }
  }

  lemma {:induction false} ReadFieldsFrom(tt: Table, list: seq<NodeArg>, defs: seq<ArgDef>, fields: seq<Field>,
                                          k: nat, rest: string, x: seq<Sym>)
    requires Coherent(tt) && CtxOk(Build(tt, false)) && FieldsTyped(tt, defs, fields) && k <= |fields| == |list|
    requires forall i :: 0 <= i < |list| ==> list[i].name == defs[i].name && DefReads(defs[i])
    requires forall i :: 0 <= i < |list| ==> ElabArg(tt, false, list[i], defs[i].ty, fields[i])
    requires LexSyms(ShowFieldsFrom(tt, defs, fields, k) + rest, false) == YieldArgsFrom(list, k) + x
    ensures forall i :: k <= i < |fields| ==> !fields[i].StrF? && FieldSayable(fields[i])
    ensures LexSyms(rest, false) == x
    decreases fields, |fields| - k
  {
    hide LexSyms, ShowField, YieldArg, FieldTyped, ElabArg, FieldSayable, DefReads, Table.Lookup, Table.Valid;
    if k == |fields| {
      assert "" + rest == rest && [] + x == x;
    } else {
      var r := ShowFieldsFrom(tt, defs, fields, k + 1) + rest;
      var y := YieldArgsFrom(list, k + 1) + x;
      Assoc(ShowField(tt, defs[k], fields[k]), ShowFieldsFrom(tt, defs, fields, k + 1), rest);
      Assoc(YieldArg(list[k]), YieldArgsFrom(list, k + 1), x);
      ReadField(tt, list[k], defs[k], fields[k], r, y);
      ReadFieldsFrom(tt, list, defs, fields, k + 1, rest, x);
    }
  }

  lemma {:induction false} ReadField(tt: Table, a: NodeArg, def: ArgDef, f: Field, rest: string, x: seq<Sym>)
    requires Coherent(tt) && CtxOk(Build(tt, false)) && FieldTyped(tt, false, def.ty, f)
    requires a.name == def.name && DefReads(def) && ElabArg(tt, false, a, def.ty, f)
    requires LexSyms(ShowField(tt, def, f) + rest, false) == YieldArg(a) + x
    ensures !f.StrF? && FieldSayable(f) && LexSyms(rest, false) == x
    decreases f, 1
  {
    hide LexSyms, ShowValue, YieldValue, FieldTyped, ElabArg, FieldSayable, Table.Lookup, Table.Valid, IsNameWord;
    var y2 := YieldValue(a.value) + x;
    var y1 := [NameSym(a.name)] + ([Mark(Equal)] + y2);
    assert YieldArg(a) + x == [Mark(Dot)] + y1;
    if f.StrF? {
      var r := f.str + "'" + rest;
      assert ShowField(tt, def, f) + rest == "'" + r;
      QuoteIsNoMark(r, false, Dot, y1);
      assert false;
    }
    var r2 := ShowValue(tt, def.ty, f) + rest;
    assert ShowField(tt, def, f) + rest == "." + (a.name + ("=" + r2));
    LexMark('.', a.name + ("=" + r2), false, y1);
    NameKind(a.name);
    LexWord(a.name, "=" + r2, true, [Mark(Equal)] + y2);
    LexMark('=', r2, false, y2);
    ReadValue(tt, a, def.ty, f, rest, x);
  }

  lemma NameKind(w: string)
    requires IsNameWord(w)
    ensures SymOf(WordKind(w, true), w) == NameSym(w)
  {
  }

  lemma {:induction false} ReadValue(tt: Table, a: NodeArg, ty: ObjType, f: Field, rest: string, x: seq<Sym>)
    requires Coherent(tt) && CtxOk(Build(tt, false)) && FieldTyped(tt, false, ty, f) && !f.StrF?
    requires ElabArg(tt, false, a, ty, f)
    requires LexSyms(ShowValue(tt, ty, f) + rest, false) == YieldValue(a.value) + x
    ensures FieldSayable(f) && LexSyms(rest, false) == x
    decreases f, 0
  {
    hide LexSyms, Show, Yield, Sayable, WellTyped, Elab, ShowElemsFrom, YieldElemsFrom,
         Table.Lookup, Table.Valid, IsBody;
    match a.value
    case NodeValue(m) => ReadObj(tt, m, f.obj, rest, x);
    case LiteralValue(s) => LexLiteral(s, rest, false, x);
    case ListValue(base, elems) => ReadList(tt, base, elems, ty, f.objs, rest, x);
  }

  lemma {:induction false} ReadList(tt: Table, base: string, elems: seq<ListElem>, ty: ObjType, objs: seq<Obj>,
                                    rest: string, x: seq<Sym>)
    requires Coherent(tt) && CtxOk(Build(tt, false)) && FieldTyped(tt, false, ty, ListF(objs))
    requires ElabArg(tt, false, NodeArg("", ListValue(base, elems)), ty, ListF(objs))
    requires LexSyms(ShowValue(tt, ty, ListF(objs)) + rest, false) == YieldValue(ListValue(base, elems)) + x
    ensures LexSyms(rest, false) == x && forall k :: 0 <= k < |objs| ==> Sayable(objs[k])
    decreases objs, |objs| + 1
  {
    hide LexSyms, Sayable, WellTyped, Elab, ShowElemsFrom, YieldElemsFrom, Table.Lookup, Table.Valid, IsIdentWord;
    var l := tt.Lookup(base).value;
    var name := NameOf(tt, ty.id);
    NameIs(tt, base, l);
    tt.ExtendsIsReachability(l, ty.id);
    tt.ExtendsGoesDown(l, ty.id);
    assert TypeReads(tt, ty.id);
    var r5 := "]" + rest;
    var r4 := ShowElemsFrom(tt, objs, 0) + r5;
    var y5 := [Mark(CloseSqBrk)] + x;
    var y4 := YieldElemsFrom(elems, 0) + y5;
    ListReads(name, ShowElemsFrom(tt, objs, 0), rest);
    Assoc(ListHead(base), YieldElemsFrom(elems, 0), y5);
    assert ListHead(base) + YieldElemsFrom(elems, 0) + [Mark(CloseSqBrk)] + x == ListHead(base) + y4;
    SameHead(name, base, r4, y4);
    ReadElemsFrom(tt, elems, l, objs, 0, r5, y5);
    LexMark(']', rest, false, x);
  }

  function ListHead(base: string): seq<Sym> {
    [Mark(KwList), Mark(OpenAngBrk), IdentSym(base), Mark(CloseAngBrk), Mark(OpenSqBrk)]
  }

  lemma ListReads(name: string, body: string, rest: string)
    ensures "list<" + name + ">[" + body + "]" + rest
         == "list" + ("<" + (name + (">" + ("" + ("[" + (body + ("]" + rest)))))))
  {
    var r := "[" + (body + ("]" + rest));
    assert "list<" + name + ">[" + body + "]" + rest == "list<" + name + (">" + r);
    assert "list<" + name + (">" + r) == "list" + ("<" + (name + (">" + r)));
    assert "" + r == r;
  }

  /** The head of a list scans as the head of a list, whatever type the two name. */
  lemma SameHead(name: string, base: string, r: string, y: seq<Sym>)
    requires IsIdentWord(name)
    requires LexSyms("list" + ("<" + (name + (">" + ("" + ("[" + r))))), false) == ListHead(base) + y
    ensures LexSyms(r, false) == y
  {
    hide LexSyms, IsIdentWord;
    var x := LexSyms(r, false);
    LexListOpen(name, "", r, x);
    assert [Mark(KwList)] + ([Mark(OpenAngBrk)] + ([IdentSym(name)] + ([Mark(CloseAngBrk)] + ([Mark(OpenSqBrk)] + x))))
        == ListHead(name) + x;
    assert (ListHead(name) + x)[5..] == x && (ListHead(base) + y)[5..] == y;
  }

  lemma {:induction false} ReadElemsFrom(tt: Table, elems: seq<ListElem>, l: TypeId, objs: seq<Obj>,
                                         k: nat, rest: string, x: seq<Sym>)
    requires Coherent(tt) && CtxOk(Build(tt, false)) && ObjsTyped(tt, objs) && k <= |objs| == |elems|
    requires forall i :: 0 <= i < |elems| ==> ElabElem(tt, false, elems[i], i, l, objs[i])
    requires LexSyms(ShowElemsFrom(tt, objs, k) + rest, false) == YieldElemsFrom(elems, k) + x
    ensures forall i :: k <= i < |objs| ==> Sayable(objs[i])
    ensures LexSyms(rest, false) == x
    decreases objs, |objs| - k
  {
    hide LexSyms, Show, Yield, Sayable, WellTyped, Elab, Dec, Table.Lookup, Table.Valid;
    if k == |objs| {
      assert "" + rest == rest && [] + x == x;
    } else {
      assert ElabElem(tt, false, elems[k], k, l, objs[k]);
      var r1 := ShowElemsFrom(tt, objs, k + 1) + rest;
      var r0 := Show(tt, objs[k]) + r1;
      var y1 := YieldElemsFrom(elems, k + 1) + x;
      var y0 := Yield(elems[k].node) + y1;
      ElemText(Dec(k), Show(tt, objs[k]), ShowElemsFrom(tt, objs, k + 1), rest);
      assert YieldElemsFrom(elems, k) + x
          == [Mark(OpenSqBrk)] + ([NumSym(k)] + ([Mark(CloseSqBrk)] + ([Mark(Equal)] + y0)));
      LexMark('[', Dec(k) + ("]" + ("=" + r0)), false, [NumSym(k)] + ([Mark(CloseSqBrk)] + ([Mark(Equal)] + y0)));
      LexNumber(k, "]" + ("=" + r0), false, [Mark(CloseSqBrk)] + ([Mark(Equal)] + y0));
      LexMark(']', "=" + r0, false, [Mark(Equal)] + y0);
      LexMark('=', r0, false, y0);
      ReadObj(tt, elems[k].node, objs[k], r1, y1);
      ReadElemsFrom(tt, elems, l, objs, k + 1, rest, x);
    }
  }

  lemma ElemText(k: string, o: string, more: string, rest: string)
    ensures "[" + k + "]=" + o + more + rest == "[" + (k + ("]" + ("=" + (o + (more + rest)))))
  {
    var r := o + (more + rest);
    assert "[" + k + "]=" + o + more + rest == "[" + k + "]=" + r;
    assert "[" + k + "]=" + r == "[" + (k + ("]" + ("=" + r)));
  }

  // The main results.

  /** The printed text is read back, by some tree, as the object. */
  ghost predicate ReadsBack(tt: Table, o: Obj)
    requires CtxOk(Build(tt, false)) && WellTyped(tt, false, o)
  {
    exists n :: Parse(ShowTree(tt, o)) == Success(n) && Elab(tt, false, n, o)
  }

  /** Printing an object, parsing the text and evaluating with relaxed casts gives the
      object exactly when it is sayable. */
  lemma ShowThenRead(tt: Table, o: Obj)
    requires Coherent(tt) && CtxOk(Build(tt, false)) && WellTyped(tt, false, o)
    ensures Sayable(o) ==> Parse(ShowTree(tt, o)) == Success(TreeOf(tt, o)) && Elab(tt, false, TreeOf(tt, o), o)
    ensures ReadsBack(tt, o) <==> Sayable(o)
  {
    hide Show, TreeOf, Print, Elab, Sayable, WellTyped, Fits, Yield, LexSyms, Grammar.Parse, Table.Lookup, Table.Valid;
    if Sayable(o) {
      ShowIsPrint(tt, o, 0);
      TreeFits(tt, o);
      PrintThenParse(TreeOf(tt, o), Terse);
      TreeDenotes(tt, o);
    }
    if ReadsBack(tt, o) {
      var n :| Parse(ShowTree(tt, o)) == Success(n) && Elab(tt, false, n, o);
      ParserIsTheGrammar(ShowTree(tt, o), n);
      assert Folded(ShowTree(tt, o)) == Show(tt, o) && Show(tt, o) + "" == Show(tt, o);
      ReadObj(tt, n, o, "", [EosSym]);
    }
  }

  /** End to end: any object that was built, with either casts and from any tree, is built
      again by what it prints, from as much pool space, exactly when it is sayable. */
  lemma BuiltObjectsRoundTrip(tt: Table, strict: bool, n: TreeNode, p: Pools, o: Obj, q: Pools)
    requires Coherent(tt) && CtxOk(Build(tt, strict))
    requires EvNode(Build(tt, strict), n, p) == Success((NodeVal(o), q))
    ensures WellTyped(tt, false, o)
    ensures Sayable(o)
       <==> exists m :: Parse(ShowTree(tt, o)) == Success(m)
                     && EvNode(Build(tt, false), m, p) == Success((NodeVal(o), q))
  {
    hide ShowTree, TreeOf, Elab, Sayable, WellTyped, Grammar.Parse, Table.Lookup, Table.Valid, EvNode, CostObj;
    BuildIsElaboration(tt, strict, n, p, o, q);
    StrictResultIsRelaxed(Build(tt, false), n, p);
    BuildIsElaboration(tt, false, n, p, o, q);
    BuiltIsWellTyped(tt, false, n, o);
    ShowThenRead(tt, o);
    if Sayable(o) {
      BuildIsElaboration(tt, false, TreeOf(tt, o), p, o, q);
    }
    if m :| Parse(ShowTree(tt, o)) == Success(m) && EvNode(Build(tt, false), m, p) == Success((NodeVal(o), q)) {
      BuildIsElaboration(tt, false, m, p, o, q);
    }
  }
}
