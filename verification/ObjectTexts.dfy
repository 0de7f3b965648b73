/** Two objects of the abc library that print the same text are the same object. */
module ObjectTexts {
  import opened Wrappers
  import opened Chars
  import opened Search
  import opened Syntax
  import opened Numbers
  import opened RoundTrip
  import opened Types
  import opened Eval
  import opened Elaboration
  import opened Objects
  import opened Abc

  // Texts without strings need no end: where one of them stops can be told from the text.

  predicate NoStrings(o: Obj)
    decreases o, 0
  {
    forall k :: 0 <= k < |o.fields| ==> FieldHasNone(o.fields[k])
  }

  predicate FieldHasNone(f: Field)
    decreases f, 0
  {
    match f
    case NodeF(o) => NoStrings(o)
    case ListF(objs) => forall k :: 0 <= k < |objs| ==> NoStrings(objs[k])
    case StrF(_) => false
    case EnumF(_) => true
  }

  lemma SplitAt(c: char, a: string, b: string, r: string, s: string)
    requires a + ([c] + r) == b + ([c] + s) && c !in a && c !in b
    ensures a == b && r == s
  {
    var t, u := a + ([c] + r), b + ([c] + s);
    FirstAt(c, a, r);
    FirstAt(c, b, s);
    assert a == t[..|a|] && b == u[..|b|];
    assert r == t[|a| + 1..] && s == u[|b| + 1..];
  }

  lemma FirstAt(c: char, a: string, r: string)
    requires c !in a
    ensures var t := a + ([c] + r); t[|a|] == c && forall i :: 0 <= i < |a| ==> t[i] != c
  {
    assert forall i :: 0 <= i < |a| ==> a[i] in a;
  }

  lemma Strip(a: string, r: string, s: string)
    requires a + r == a + s
    ensures r == s
  {
    assert (a + r)[|a|..] == r && (a + s)[|a|..] == s;
  }

  lemma NoParen(w: string)
    requires IsIdentWord(w)
    ensures '(' !in w
  {
  }

  /** Objects whose texts are the fronts of one text are of one class. */
  lemma SameClass(tt: Table, o1: Obj, o2: Obj, r1: string, r2: string)
    requires Coherent(tt) && tt.Chained() && WellTyped(tt, false, o1) && WellTyped(tt, false, o2)
    requires Show(tt, o1) + r1 == Show(tt, o2) + r2
    ensures o1.id == o2.id
    ensures ShowFieldsFrom(tt, tt.types[o1.id].args, o1.fields, 0) + (")" + r1)
         == ShowFieldsFrom(tt, tt.types[o2.id].args, o2.fields, 0) + (")" + r2)
  {
    hide Table.Lookup, Table.Valid, IsIdentWord, ShowFieldsFrom;
    assert TypeReads(tt, o1.id) && TypeReads(tt, o2.id);
    var n1, n2 := tt.types[o1.id].name, tt.types[o2.id].name;
    var t1 := ShowFieldsFrom(tt, tt.types[o1.id].args, o1.fields, 0);
    var t2 := ShowFieldsFrom(tt, tt.types[o2.id].args, o2.fields, 0);
    assert Show(tt, o1) + r1 == n1 + ("(" + (t1 + (")" + r1)));
    assert Show(tt, o2) + r2 == n2 + ("(" + (t2 + (")" + r2)));
    NoParen(n1);
    NoParen(n2);
    SplitAt('(', n1, n2, t1 + (")" + r1), t2 + (")" + r2));
  }

  lemma {:induction false} SameObj(tt: Table, o1: Obj, o2: Obj, r1: string, r2: string)
    requires Coherent(tt) && tt.Chained() && WellTyped(tt, false, o1) && WellTyped(tt, false, o2)
    requires NoStrings(o1) && NoStrings(o2) && Show(tt, o1) + r1 == Show(tt, o2) + r2
    ensures o1 == o2 && r1 == r2
    decreases o1, 0
  {
    hide Show, ShowFieldsFrom, FieldTyped, FieldHasNone, Table.Lookup, Table.Valid;
    SameClass(tt, o1, o2, r1, r2);
    var defs := tt.types[o1.id].args;
    forall i | 0 <= i < |defs| ensures DefReads(defs[i]) && tt.ArgOk(defs[i].ty) {
      assert TypeReads(tt, o1.id);
      DefIsOk(tt, o1.id, i);
    }
    SameFields(tt, defs, o1.fields, o2.fields, 0, |defs|, ")" + r1, ")" + r2);
    NothingLeft(tt, defs, o1.fields, ")" + r1);
    NothingLeft(tt, defs, o2.fields, ")" + r2);
    Strip(")", r1, r2);
  }

  lemma NothingLeft(tt: Table, defs: seq<ArgDef>, fields: seq<Field>, r: string)
    requires tt.Chained() && FieldsTyped(tt, defs, fields)
    ensures ShowFieldsFrom(tt, defs, fields, |fields|) + r == r
  {
    assert "" + r == r;
  }

  /** The fields from `k` to `m` of two objects of a class, when these hold no strings. */
  lemma {:induction false} SameFields(tt: Table, defs: seq<ArgDef>, f1: seq<Field>, f2: seq<Field>,
                                      k: nat, m: nat, r1: string, r2: string)
    requires Coherent(tt) && tt.Chained() && FieldsTyped(tt, defs, f1) && FieldsTyped(tt, defs, f2) && k <= m <= |f1|
    requires forall i :: k <= i < m ==> FieldHasNone(f1[i]) && FieldHasNone(f2[i])
    requires forall i :: 0 <= i < |defs| ==> DefReads(defs[i]) && tt.ArgOk(defs[i].ty)
    requires ShowFieldsFrom(tt, defs, f1, k) + r1 == ShowFieldsFrom(tt, defs, f2, k) + r2
    ensures forall i :: k <= i < m ==> f1[i] == f2[i]
    ensures ShowFieldsFrom(tt, defs, f1, m) + r1 == ShowFieldsFrom(tt, defs, f2, m) + r2
    decreases f1, m - k
  {
    hide ShowField, FieldTyped, FieldHasNone, DefReads, Table.Lookup, Table.Valid;
    if k < m {
      var t1, t2 := ShowFieldsFrom(tt, defs, f1, k + 1) + r1, ShowFieldsFrom(tt, defs, f2, k + 1) + r2;
      Assoc(ShowField(tt, defs[k], f1[k]), ShowFieldsFrom(tt, defs, f1, k + 1), r1);
      Assoc(ShowField(tt, defs[k], f2[k]), ShowFieldsFrom(tt, defs, f2, k + 1), r2);
      SameField(tt, defs[k], f1[k], f2[k], t1, t2);
      SameFields(tt, defs, f1, f2, k + 1, m, r1, r2);
    }
  }

  lemma {:induction false} SameField(tt: Table, def: ArgDef, f1: Field, f2: Field, r1: string, r2: string)
    requires Coherent(tt) && tt.Chained() && DefReads(def) && tt.ArgOk(def.ty)
    requires FieldTyped(tt, false, def.ty, f1) && FieldTyped(tt, false, def.ty, f2)
    requires FieldHasNone(f1) && FieldHasNone(f2) && ShowField(tt, def, f1) + r1 == ShowField(tt, def, f2) + r2
    ensures f1 == f2 && r1 == r2
    decreases f1, 1
  {
    hide Show, ShowElemsFrom, WellTyped, NoStrings, Table.Lookup, Table.Valid, IsNameWord, IsBody;
    var pre := "." + def.name + "=";
    Assoc(pre, ShowValue(tt, def.ty, f1), r1);
    Assoc(pre, ShowValue(tt, def.ty, f2), r2);
    Strip(pre, ShowValue(tt, def.ty, f1) + r1, ShowValue(tt, def.ty, f2) + r2);
    match f1
    case NodeF(o) => SameObj(tt, o, f2.obj, r1, r2);
    case EnumF(v) => SameValue(def.ty.cptr.values, v, f2.value, r1, r2);
    case ListF(objs) =>
      var open := "list<" + NameOf(tt, def.ty.id) + ">[";
      ListTail(open, ShowElemsFrom(tt, objs, 0), r1);
      ListTail(open, ShowElemsFrom(tt, f2.objs, 0), r2);
      Strip(open, ShowElemsFrom(tt, objs, 0) + ("]" + r1), ShowElemsFrom(tt, f2.objs, 0) + ("]" + r2));
      SameElems(tt, objs, f2.objs, 0, r1, r2);
  }

  lemma ListTail(open: string, body: string, r: string)
    ensures open + body + "]" + r == open + (body + ("]" + r))
  {
    Assoc4(open, body, "]", r);
  }

  lemma SameValue(values: seq<string>, v1: nat, v2: nat, r1: string, r2: string)
    requires v1 < |values| && v2 < |values| && IsBody(values[v1], '\'') && IsBody(values[v2], '\'')
    requires LinearFind(values, values[v1]) == Some(v1) && LinearFind(values, values[v2]) == Some(v2)
    requires "'" + values[v1] + "'" + r1 == "'" + values[v2] + "'" + r2
    ensures v1 == v2 && r1 == r2
  {
    hide IsBody, LinearFind;
    var a, b, u := values[v1], values[v2], "'" + values[v1] + "'" + r1;
    assert u[1..1 + |a|] == a && u[1 + |a|] == '\'' && u[|a| + 2..] == r1;
    assert u == "'" + b + "'" + r2;
    assert u[1..1 + |b|] == b && u[1 + |b|] == '\'' && u[|b| + 2..] == r2;
    FirstQuoteIsUnique(u, '\'', a, b);
  }

  lemma {:induction false} SameElems(tt: Table, a: seq<Obj>, b: seq<Obj>, k: nat, r1: string, r2: string)
    requires Coherent(tt) && tt.Chained() && ObjsTyped(tt, a) && ObjsTyped(tt, b) && k <= |a| && k <= |b|
    requires (forall i :: 0 <= i < |a| ==> NoStrings(a[i])) && (forall i :: 0 <= i < |b| ==> NoStrings(b[i]))
    requires ShowElemsFrom(tt, a, k) + ("]" + r1) == ShowElemsFrom(tt, b, k) + ("]" + r2)
    ensures a[k..] == b[k..] && r1 == r2
    decreases a, |a| - k
  {
    hide Show, WellTyped, NoStrings, Dec, Table.Lookup, Table.Valid;
    if k < |a| && k < |b| {
      var pre := "[" + Dec(k) + "]=";
      var t1, t2 := ShowElemsFrom(tt, a, k + 1) + ("]" + r1), ShowElemsFrom(tt, b, k + 1) + ("]" + r2);
      Assoc4(pre, Show(tt, a[k]), ShowElemsFrom(tt, a, k + 1), "]" + r1);
      Assoc4(pre, Show(tt, b[k]), ShowElemsFrom(tt, b, k + 1), "]" + r2);
      Strip(pre, Show(tt, a[k]) + t1, Show(tt, b[k]) + t2);
      SameObj(tt, a[k], b[k], t1, t2);
      SameElems(tt, a, b, k + 1, r1, r2);
      assert a[k..] == [a[k]] + a[k + 1..] && b[k..] == [b[k]] + b[k + 1..];
    } else {
      ElemsStart(tt, a, k, r1);
      ElemsStart(tt, b, k, r2);
      Strip("]", r1, r2);
    }
  }

  lemma ElemsStart(tt: Table, objs: seq<Obj>, k: nat, r: string)
    requires tt.Chained() && ObjsTyped(tt, objs) && k <= |objs|
    ensures var t := ShowElemsFrom(tt, objs, k) + ("]" + r);
            |t| > 0 && (if k == |objs| then t == "]" + r else t[0] == '[')
  {
    hide Show, WellTyped, Dec;
    assert "" + ("]" + r) == "]" + r;
  }

  // In abc, strings come last: only `D` and `M` hold one, as their last field, and only `N`
  // holds a `D`, as its last field.

  /** Fields of these types hold no string, at any depth. */
  predicate Stringless(ty: ObjType) {
    ty in {NodeT(A), NodeT(B), NodeT(C), ListT(B), ListT(Q), CptrT(BOOL)}
  }

  lemma {:induction false} HoldsNoStrings(layout: Layout, o: Obj)
    requires layout.Ok() && WellTyped(Library(layout), false, o) && o.id !in {D, N, M}
    ensures NoStrings(o)
    decreases o, 0
  {
    hide FieldHasNone, WellTyped, FieldTyped;
    TypedFields(layout, o);
    forall k | 0 <= k < |o.fields| ensures FieldHasNone(o.fields[k]) {
      FieldHoldsNoStrings(layout, Args(o.id)[k].ty, o.fields[k]);
    }
  }

  lemma {:induction false} FieldHoldsNoStrings(layout: Layout, ty: ObjType, f: Field)
    requires layout.Ok() && FieldTyped(Library(layout), false, ty, f) && Stringless(ty)
    ensures FieldHasNone(f)
    decreases f, 0
  {
    hide WellTyped, NoStrings;
    match f
    case NodeF(o) =>
      TypedFields(layout, o);
      Kinds(layout, o.id, ty.id);
      HoldsNoStrings(layout, o);
    case ListF(objs) =>
      forall k | 0 <= k < |objs| ensures NoStrings(objs[k]) {
        TypedFields(layout, objs[k]);
        Kinds(layout, objs[k].id, ty.id);
        HoldsNoStrings(layout, objs[k]);
      }
    case EnumF(_) =>
  }

  /** The only difference left is in the last field. */
  lemma SameLastField(layout: Layout, o1: Obj, o2: Obj, m: nat)
    requires layout.Ok() && WellTyped(Library(layout), false, o1) && WellTyped(Library(layout), false, o2)
    requires Show(Library(layout), o1) == Show(Library(layout), o2)
    requires |o1.fields| == m + 1 && forall i :: 0 <= i < m ==> Stringless(Args(o1.id)[i].ty)
    ensures o1.id == o2.id && |o2.fields| == m + 1 && o1.fields[..m] == o2.fields[..m]
    ensures var def := Args(o1.id)[m];
            && FieldTyped(Library(layout), false, def.ty, o1.fields[m])
            && FieldTyped(Library(layout), false, def.ty, o2.fields[m])
            && ShowField(Library(layout), def, o1.fields[m]) == ShowField(Library(layout), def, o2.fields[m])
  {
    hide WellTyped, FieldTyped, FieldHasNone, Show, ShowField, Library, Table.Lookup, Table.Valid;
    var tt := Library(layout);
    LibraryIsCoherent(layout);
    assert Show(tt, o1) + "" == Show(tt, o2) + "";
    SameClass(tt, o1, o2, "", "");
    TypedFields(layout, o1);
    TypedFields(layout, o2);
    ArgsOf(layout, o1.id);
    var defs := Args(o1.id);
    forall i | 0 <= i < m ensures FieldHasNone(o1.fields[i]) && FieldHasNone(o2.fields[i]) {
      FieldHoldsNoStrings(layout, defs[i].ty, o1.fields[i]);
      FieldHoldsNoStrings(layout, defs[i].ty, o2.fields[i]);
    }
    assert ")" + "" == ")";
    SameFields(tt, defs, o1.fields, o2.fields, 0, m, ")", ")");
    LastText(tt, defs, o1.fields, m);
    LastText(tt, defs, o2.fields, m);
    Shorten(ShowField(tt, defs[m], o1.fields[m]), ShowField(tt, defs[m], o2.fields[m]), ")");
  }

  lemma ArgsOf(layout: Layout, t: TypeId)
    requires layout.Ok() && t < |NAMES|
    ensures Library(layout).types[t].args == Args(t)
    ensures forall i :: 0 <= i < |Args(t)| ==> DefReads(Args(t)[i]) && Library(layout).ArgOk(Args(t)[i].ty)
  {
    forall i | 0 <= i < |Args(t)| ensures DefReads(Args(t)[i]) {
      DefWords(t, i);
    }
  }

  lemma LastText(tt: Table, defs: seq<ArgDef>, fields: seq<Field>, m: nat)
    requires tt.Chained() && FieldsTyped(tt, defs, fields) && |fields| == m + 1
    ensures ShowFieldsFrom(tt, defs, fields, m) == ShowField(tt, defs[m], fields[m])
  {
    hide ShowField, FieldTyped;
    assert ShowFieldsFrom(tt, defs, fields, m + 1) == "";
  }

  lemma Shorten(a: string, b: string, end: string)
    requires a + end == b + end
    ensures a == b
  {
    assert a == (a + end)[..|a + end| - |end|];
    assert b == (b + end)[..|b + end| - |end|];
  }

  /** Well-typed objects of abc that print the same text are the same object, whatever their
      strings hold. */
  lemma {:induction false} TextsAreDistinct(layout: Layout, o1: Obj, o2: Obj)
    requires layout.Ok() && WellTyped(Library(layout), false, o1) && WellTyped(Library(layout), false, o2)
    requires Show(Library(layout), o1) == Show(Library(layout), o2)
    ensures o1 == o2
    decreases o1
  {
    hide WellTyped, Show, Library, NoStrings, Table.Lookup, Table.Valid;
    var tt := Library(layout);
    LibraryIsCoherent(layout);
    TypedFields(layout, o1);
    TypedFields(layout, o2);
    assert Show(tt, o1) + "" == Show(tt, o2) + "";
    SameClass(tt, o1, o2, "", "");
    if o1.id in {D, N, M} {
      var m := |o1.fields| - 1;
      SameLastField(layout, o1, o2, m);
      SameLast(layout, Args(o1.id)[m], o1.fields[m], o2.fields[m]);
      assert o1.fields == o1.fields[..m] + [o1.fields[m]] && o2.fields == o2.fields[..m] + [o2.fields[m]];
    } else {
      HoldsNoStrings(layout, o1);
      HoldsNoStrings(layout, o2);
      SameObj(tt, o1, o2, "", "");
    }
  }

  lemma {:induction false} SameLast(layout: Layout, def: ArgDef, f1: Field, f2: Field)
    requires layout.Ok() && (def.ty == CptrT(CharPtr) || def.ty == NodeT(D))
    requires FieldTyped(Library(layout), false, def.ty, f1) && FieldTyped(Library(layout), false, def.ty, f2)
    requires ShowField(Library(layout), def, f1) == ShowField(Library(layout), def, f2)
    ensures f1 == f2
    decreases f1
  {
    hide WellTyped, Show, Library;
    if f1.StrF? {
      Shorten("'" + f1.str, "'" + f2.str, "'");
      Strip("'", f1.str, f2.str);
    } else {
      var tt, pre := Library(layout), "." + def.name + "=";
      Strip(pre, Show(tt, f1.obj), Show(tt, f2.obj));
      TextsAreDistinct(layout, f1.obj, f2.obj);
    }
  }
}
