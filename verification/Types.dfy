/** The type table of an AST library, and its casts. */
module Types {
  import opened Wrappers
  import opened Search
  import opened Bases

  /** A type object is named by its place in the table. */
  type TypeId = nat

  /** C string types: text itself, or one of a list of spellings. */
  datatype CptrType = CharPtr | Enum(name: string, values: seq<string>)

  datatype ObjType = NodeT(id: TypeId) | ListT(id: TypeId) | CptrT(cptr: CptrType)

  datatype ArgDef = ArgDef(name: string, ty: ObjType)

  /** A node type: its base, its arguments, and the size and alignment of its class. */
  datatype AstType = AstType(name: string, base: Option<TypeId>, args: seq<ArgDef>, size: nat, align: nat)

  datatype Func = Func(name: string, id: TypeId)

  datatype Table = Table(types: seq<AstType>, funcs: seq<Func>) {

    /** Bases come before the types that extend them (so base chains are acyclic), all
        references resolve, and the table of functions is strictly sorted by name. */
    ghost predicate Valid() {
      && (forall t :: 0 <= t < |types| ==> TypeOk(t))
      && (forall i :: 0 <= i < |funcs| ==> funcs[i].id < |types|)
      && Sorted(Names(), StrLess)
    }

    predicate TypeOk(t: TypeId)
      requires t < |types|
    {
      && types[t].align > 0
      && (types[t].base.Some? ==> types[t].base.value < t)
      && forall k :: 0 <= k < |types[t].args| ==> ArgOk(types[t].args[k].ty)
    }

    predicate ArgOk(ty: ObjType) {
      ty.CptrT? || ty.id < |types|
    }

    function Names(): seq<string> {
      seq(|funcs|, i requires 0 <= i < |funcs| => funcs[i].name)
    }

    /** The type that a name makes, by looking through the whole table. */
    function Lookup(name: string): (r: Option<TypeId>)
      ensures r.Some? ==> exists i :: 0 <= i < |funcs| && funcs[i] == Func(name, r.value)
      ensures r.None? ==> forall i :: 0 <= i < |funcs| ==> funcs[i].name != name
    {
      var k := LinearFind(Names(), name);
      if k.None? then
        assert forall i :: 0 <= i < |funcs| ==> Names()[i] == funcs[i].name;
        None
      else
        assert funcs[k.value].name == Names()[k.value];
        Some(funcs[k.value].id)
    }

    /** `src` is `dst` or extends it, at any distance. */
    predicate Extends(src: TypeId, dst: TypeId)
      requires Chained() && src < |types|
      decreases src
    {
      src == dst || (types[src].base.Some? && Extends(types[src].base.value, dst))
    }

    predicate Chained() {
      forall t :: 0 <= t < |types| ==> (types[t].base.Some? ==> types[t].base.value < t)
    }

    predicate Casts(strict: bool, dst: TypeId, src: TypeId)
      requires Chained() && src < |types|
    {
      if strict then src == dst else Extends(src, dst)
    }

    /** `obj_type_t::type_cast`: kinds must agree, and any C string casts to any other. */
    predicate ObjCasts(strict: bool, dst: ObjType, src: ObjType)
      requires Chained() && ArgOk(src)
    {
      match (dst, src)
      case (NodeT(d), NodeT(s)) => Casts(strict, d, s)
      case (ListT(d), ListT(s)) => Casts(strict, d, s)
      case (CptrT(_), CptrT(_)) => true
      case _ => false
    }

    function Bases(): BaseTable {
      seq(|types|, t requires 0 <= t < |types| => types[t].base)
    }

    lemma ChainedIsInRange(src: TypeId)
      requires Chained() && src < |types|
      ensures InRange(Bases(), src) && ChainEnds(Bases(), src)
    {
      OrderedDescends(Bases(), src, src + 1);
    }

    /** Extension is the reflexive and transitive closure of the base relation. */
    lemma {:induction false} ExtendsIsReachability(src: TypeId, dst: TypeId)
      requires Chained() && src < |types|
      ensures Extends(src, dst) <==> OnChain(Bases(), src, dst)
      decreases src
    {
      var bases := Bases();
      if src == dst {
        assert Up(bases, src, 0) == Some(dst);
      } else if types[src].base.Some? {
        var b := types[src].base.value;
        ExtendsIsReachability(b, dst);
        if n: nat :| Up(bases, b, n) == Some(dst) {
          UpAdds(bases, src, 1, n);
        }
        if n: nat :| Up(bases, src, n) == Some(dst) {
          UpAdds(bases, src, 1, n - 1);
        }
      } else if n: nat :| Up(bases, src, n) == Some(dst) {
        UpAdds(bases, src, 1, n - 1);
      }
    }

    /** What a cast means: the same type, or, with relaxed casts, a type whose chain of bases
        holds the wanted one. */
    ghost predicate IsA(strict: bool, dst: TypeId, src: TypeId) {
      if strict then src == dst else OnChain(Bases(), src, dst)
    }

    lemma IsAItself(strict: bool, t: TypeId)
      ensures IsA(strict, t, t)
    {
      assert Up(Bases(), t, 0) == Some(t);
    }

    lemma CastsAreIsA(strict: bool, dst: TypeId, src: TypeId)
      requires Chained() && src < |types|
      ensures Casts(strict, dst, src) <==> IsA(strict, dst, src)
    {
      hide OnChain;
      ExtendsIsReachability(src, dst);
    }

    lemma AllCastsAreIsA(strict: bool)
      requires Chained()
      ensures forall d, s :: 0 <= s < |types| ==> (Casts(strict, d, s) <==> IsA(strict, d, s))
    {
      hide Casts, IsA;
      forall d, s: nat | s < |types| ensures Casts(strict, d, s) <==> IsA(strict, d, s) {
        CastsAreIsA(strict, d, s);
      }
    }

    lemma {:induction false} ExtendsIsTransitive(a: TypeId, b: TypeId, c: TypeId)
      requires Chained() && a < |types| && b < |types| && Extends(a, b) && Extends(b, c)
      ensures Extends(a, c)
      decreases a
    {
      if a != b {
        ExtendsIsTransitive(types[a].base.value, b, c);
      }
    }

    lemma {:induction false} ExtendsGoesDown(a: TypeId, b: TypeId)
      requires Chained() && a < |types| && Extends(a, b)
      ensures b <= a
      decreases a
    {
      if a != b {
        ExtendsGoesDown(types[a].base.value, b);
      }
    }
  }

  /** `ast_type_t::type_cast` on a library table, whose chains all end. */
  method NodeTypeCast(tt: Table, dst: TypeId, src: TypeId, strict: bool) returns (r: bool)
    requires tt.Chained() && src < |tt.types|
    ensures r == tt.Casts(strict, dst, src)
  {
    tt.ChainedIsInRange(src);
    tt.ExtendsIsReachability(src, dst);
    var answer := TypeCast(tt.Bases(), dst, src, strict);
    return answer.value;
  }

  /** `ast_type_t::list_type_cast`. */
  method ListTypeCast(tt: Table, t: TypeId, src: ObjType, strict: bool) returns (r: bool)
    requires tt.Chained() && tt.ArgOk(src)
    ensures r <==> src.NodeT? && tt.Casts(strict, t, src.id)
  {
    if !src.NodeT? {
      return false;
    }
    r := NodeTypeCast(tt, t, src.id, strict);
  }

  /** `obj_type_t::type_cast`. */
  method ObjTypeCast(tt: Table, dst: ObjType, src: ObjType, strict: bool) returns (r: bool)
    requires tt.Chained() && tt.ArgOk(src)
    ensures r == tt.ObjCasts(strict, dst, src)
  {
    if dst.NodeT? && src.NodeT? {
      r := NodeTypeCast(tt, dst.id, src.id, strict);
    } else if dst.ListT? && src.ListT? {
      r := NodeTypeCast(tt, dst.id, src.id, strict);
    } else {
      r := dst.CptrT? && src.CptrT?;
    }
  }

  /** `BasicMaker::find`: a strictly sorted table, searched through a cache of one entry. */
  class Finder {
    const tt: Table
    var cache: Option<nat>

    ghost predicate Valid()
      reads this
    {
      tt.Valid() && (cache.Some? ==> cache.value < |tt.funcs|)
    }

    constructor (tt: Table)
      requires tt.Valid()
      ensures Valid() && this.tt == tt
    {
      this.tt := tt;
      cache := None;
    }

    /** Whatever was looked up before, the answer is that of a linear search; a failed
        lookup leaves the cache as it was. */
    method Find(name: string) returns (r: Option<TypeId>)
      requires Valid()
      modifies this
      ensures Valid() && r == tt.Lookup(name)
      ensures r.None? ==> cache == old(cache)
    {
      if cache.Some? && tt.funcs[cache.value].name == name {
        CacheIsRight(tt, cache.value);
        return Some(tt.funcs[cache.value].id);
      }
      StrLessIsStrictTotal();
      var first, second := EqualRange(tt.Names(), name, StrLess);
      RangeIsLinearFind(tt.Names(), name, StrLess, first, second);
      assert second == first || second == first + 1;
      if second == first {
        return None;
      }
      cache := Some(first);
      return Some(tt.funcs[first].id);
    }
  }

  /** In a strictly sorted table an entry is the one that its name finds. */
  lemma CacheIsRight(tt: Table, k: nat)
    requires tt.Valid() && k < |tt.funcs|
    ensures tt.Lookup(tt.funcs[k].name) == Some(tt.funcs[k].id)
  {
    StrLessIsStrictTotal();
    var names := tt.Names();
    assert names[k] == tt.funcs[k].name;
    RangeIsLinearFind(names, names[k], StrLess, k, k + 1);
  }
}
