/** The memory that an object takes: which blocks of which sizes, in which order. */
module Memory {
  import opened Wrappers
  import opened Pool
  import opened Types
  import opened Eval
  import opened Elaboration

  /** The size and the alignment of a block. */
  datatype Need = Need(bytes: nat, align: nat)

  // One block for each node, children first.

  function NodeNeeds(tt: Table, o: Obj): seq<Need>
    decreases o, 0
  {
    NodeNeedsFrom(tt, o.fields, 0)
    + (if o.id < |tt.types| then [Need(Room(tt.types[o.id].size), tt.types[o.id].align)] else [])
  }

  function NodeNeedsFrom(tt: Table, fields: seq<Field>, k: nat): seq<Need>
    requires k <= |fields|
    decreases fields, |fields| - k
  {
    if k == |fields| then [] else FieldNodeNeeds(tt, fields[k]) + NodeNeedsFrom(tt, fields, k + 1)
  }

  function FieldNodeNeeds(tt: Table, f: Field): seq<Need>
    decreases f, 0
  {
    match f
    case NodeF(o) => NodeNeeds(tt, o)
    case ListF(objs) => ListNodeNeeds(tt, objs, 0)
    case _ => []
  }

  function ListNodeNeeds(tt: Table, objs: seq<Obj>, k: nat): seq<Need>
    requires k <= |objs|
    decreases objs, |objs| - k
  {
    if k == |objs| then [] else NodeNeeds(tt, objs[k]) + ListNodeNeeds(tt, objs, k + 1)
  }

  // In the other pool: for each list that is not empty its 8-byte pointers, after what its
  // elements need; for each string its bytes and a terminator, when its node is made.

  function RawNeeds(o: Obj): seq<Need>
    decreases o, 0
  {
    RawNeedsFrom(o.fields, 0) + StringNeeds(o.fields, 0)
  }

  function RawNeedsFrom(fields: seq<Field>, k: nat): seq<Need>
    requires k <= |fields|
    decreases fields, |fields| - k
  {
    if k == |fields| then [] else FieldRawNeeds(fields[k]) + RawNeedsFrom(fields, k + 1)
  }

  function FieldRawNeeds(f: Field): seq<Need>
    decreases f, 0
  {
    match f
    case NodeF(o) => RawNeeds(o)
    case ListF(objs) => ListRawNeeds(objs, 0) + (if objs == [] then [] else [Need(8 * |objs|, 8)])
    case _ => []
  }

  function ListRawNeeds(objs: seq<Obj>, k: nat): seq<Need>
    requires k <= |objs|
    decreases objs, |objs| - k
  {
    if k == |objs| then [] else RawNeeds(objs[k]) + ListRawNeeds(objs, k + 1)
  }

  function StringNeeds(fields: seq<Field>, k: nat): seq<Need>
    requires k <= |fields|
    decreases |fields| - k
  {
    if k == |fields| then []
    else (if fields[k].StrF? then [Need(|fields[k].str| + 1, 1)] else []) + StringNeeds(fields, k + 1)
  }

  // Growing pools.

  function NeedsOf(blocks: seq<Block>): seq<Need> {
    seq(|blocks|, i requires 0 <= i < |blocks| => Need(blocks[i].bytes, blocks[i].align))
  }

  /** The pool got new blocks of the given sizes, after those it had. */
  predicate Grew(p: PoolState, q: PoolState, needs: seq<Need>) {
    p.blocks <= q.blocks && NeedsOf(q.blocks[|p.blocks|..]) == needs
  }

  predicate BothGrew(p: Pools, q: Pools, node: seq<Need>, raw: seq<Need>) {
    Grew(p.node, q.node, node) && Grew(p.raw, q.raw, raw)
  }

  lemma GrewTwice(p: PoolState, q: PoolState, r: PoolState, a: seq<Need>, b: seq<Need>)
    requires Grew(p, q, a) && Grew(q, r, b)
    ensures Grew(p, r, a + b)
  {
    assert r.blocks[|p.blocks|..] == q.blocks[|p.blocks|..] + r.blocks[|q.blocks|..];
  }

  lemma BothTwice(p: Pools, q: Pools, r: Pools, n1: seq<Need>, r1: seq<Need>, n2: seq<Need>, r2: seq<Need>)
    requires BothGrew(p, q, n1, r1) && BothGrew(q, r, n2, r2)
    ensures BothGrew(p, r, n1 + n2, r1 + r2)
  {
    hide Grew;
    GrewTwice(p.node, q.node, r.node, n1, n2);
    GrewTwice(p.raw, q.raw, r.raw, r1, r2);
  }

  lemma AllocatedGrew(p: PoolState, nbytes: nat, align: nat)
    requires align > 0 && p.Allocate(nbytes, align).Success?
    ensures Grew(p, p.Allocate(nbytes, align).value, [Need(Room(nbytes), align)])
  {
    AllocateIs(p, nbytes, align);
    hide PoolState.Allocate;
    var q := p.Allocate(nbytes, align).value;
    assert q.blocks[|p.blocks|..] == [q.blocks[|p.blocks|]];
  }

  lemma NothingGrew(p: Pools)
    ensures BothGrew(p, p, [], [])
  {
  }

  lemma RawGrew(p: Pools, nbytes: nat, align: nat)
    requires align > 0 && nbytes > 0 && RawAlloc(p, nbytes, align).Success?
    ensures BothGrew(p, RawAlloc(p, nbytes, align).value, [], [Need(nbytes, align)])
  {
    hide PoolState.Allocate;
    AllocatedGrew(p.raw, nbytes, align);
  }

  // What building takes.

  lemma {:induction false} StringsTake(fields: seq<Field>, k: nat, p: Pools)
    requires k <= |fields| && AllocStrings(fields, k, p).Success?
    ensures BothGrew(p, AllocStrings(fields, k, p).value, [], StringNeeds(fields, k))
    decreases |fields| - k
  {
    hide RawAlloc, BothGrew;
    if k == |fields| {
      NothingGrew(p);
    } else if fields[k].StrF? {
      var p1 := RawAlloc(p, |fields[k].str| + 1, 1).value;
      RawGrew(p, |fields[k].str| + 1, 1);
      StringsTake(fields, k + 1, p1);
      BothTwice(p, p1, AllocStrings(fields, k, p).value, [], [Need(|fields[k].str| + 1, 1)],
                [], StringNeeds(fields, k + 1));
      var none: seq<Need> := [];
      assert none + none == none;
    } else {
      StringsTake(fields, k + 1, p);
      assert [] + StringNeeds(fields, k + 1) == StringNeeds(fields, k + 1);
    }
  }

  lemma NodeTakes(ty: AstType, fields: seq<Field>, p: Pools)
    requires ty.align > 0 && AllocNode(ty, fields, p).Success?
    ensures BothGrew(p, AllocNode(ty, fields, p).value, [Need(Room(ty.size), ty.align)], StringNeeds(fields, 0))
  {
    hide AllocStrings, PoolState.Allocate;
    StringsTake(fields, 0, p);
    var p1 := AllocStrings(fields, 0, p).value;
    AllocatedGrew(p1.node, ty.size, ty.align);
    BothTwice(p, p1, AllocNode(ty, fields, p).value, [], StringNeeds(fields, 0), [Need(Room(ty.size), ty.align)], []);
  }

  lemma ListTakes(n: nat, p: Pools)
    requires AllocList(n, p).Success?
    ensures BothGrew(p, AllocList(n, p).value, [], if n == 0 then [] else [Need(8 * n, 8)])
  {
    hide RawAlloc, BothGrew;
    if n == 0 {
      NothingGrew(p);
    } else {
      RawGrew(p, n * PTR_SIZE, PTR_SIZE);
    }
  }

  /** Building an object adds exactly these blocks to the two pools. */
  lemma {:induction false} ObjectTakes(tt: Table, o: Obj, p: Pools)
    requires CostObj(tt, o, p).Success?
    ensures BothGrew(p, CostObj(tt, o, p).value, NodeNeeds(tt, o), RawNeeds(o))
    decreases o, 0
  {
    hide CostFieldsFrom, AllocNode, NodeNeedsFrom, RawNeedsFrom, StringNeeds, BothGrew;
    var p1 := CostFieldsFrom(tt, o.fields, 0, p).value;
    FieldsTake(tt, o.fields, 0, p);
    NodeTakes(tt.types[o.id], o.fields, p1);
    BothTwice(p, p1, CostObj(tt, o, p).value, NodeNeedsFrom(tt, o.fields, 0), RawNeedsFrom(o.fields, 0),
              [Need(Room(tt.types[o.id].size), tt.types[o.id].align)], StringNeeds(o.fields, 0));
  }

  lemma {:induction false} FieldsTake(tt: Table, fields: seq<Field>, k: nat, p: Pools)
    requires k <= |fields| && CostFieldsFrom(tt, fields, k, p).Success?
    ensures BothGrew(p, CostFieldsFrom(tt, fields, k, p).value, NodeNeedsFrom(tt, fields, k), RawNeedsFrom(fields, k))
    decreases fields, |fields| - k
  {
    hide CostField, FieldNodeNeeds, FieldRawNeeds, BothGrew;
    if k == |fields| {
      NothingGrew(p);
    } else {
      var p1 := CostField(tt, fields[k], p).value;
      FieldTakes(tt, fields[k], p);
      FieldsTake(tt, fields, k + 1, p1);
      BothTwice(p, p1, CostFieldsFrom(tt, fields, k, p).value, FieldNodeNeeds(tt, fields[k]), FieldRawNeeds(fields[k]),
                NodeNeedsFrom(tt, fields, k + 1), RawNeedsFrom(fields, k + 1));
    }
  }

  lemma {:induction false} FieldTakes(tt: Table, f: Field, p: Pools)
    requires CostField(tt, f, p).Success?
    ensures BothGrew(p, CostField(tt, f, p).value, FieldNodeNeeds(tt, f), FieldRawNeeds(f))
    decreases f, 0
  {
    hide CostObj, CostObjsFrom, AllocList, NodeNeeds, RawNeeds, ListNodeNeeds, ListRawNeeds, BothGrew;
    match f
    case NodeF(o) => ObjectTakes(tt, o, p);
    case ListF(objs) =>
      var p1 := CostObjsFrom(tt, objs, 0, p).value;
      ObjectsTake(tt, objs, 0, p);
      ListTakes(|objs|, p1);
      BothTwice(p, p1, AllocList(|objs|, p1).value, ListNodeNeeds(tt, objs, 0), ListRawNeeds(objs, 0),
                [], if objs == [] then [] else [Need(8 * |objs|, 8)]);
      assert ListNodeNeeds(tt, objs, 0) + [] == ListNodeNeeds(tt, objs, 0);
    case StrF(_) => NothingGrew(p);
    case EnumF(_) => NothingGrew(p);
  }

  lemma {:induction false} ObjectsTake(tt: Table, objs: seq<Obj>, k: nat, p: Pools)
    requires k <= |objs| && CostObjsFrom(tt, objs, k, p).Success?
    ensures BothGrew(p, CostObjsFrom(tt, objs, k, p).value, ListNodeNeeds(tt, objs, k), ListRawNeeds(objs, k))
    decreases objs, |objs| - k
  {
    hide CostObj, NodeNeeds, RawNeeds, BothGrew;
    if k == |objs| {
      NothingGrew(p);
    } else {
      var p1 := CostObj(tt, objs[k], p).value;
      ObjectTakes(tt, objs[k], p);
      ObjectsTake(tt, objs, k + 1, p1);
      BothTwice(p, p1, CostObjsFrom(tt, objs, k, p).value, NodeNeeds(tt, objs[k]), RawNeeds(objs[k]),
                ListNodeNeeds(tt, objs, k + 1), ListRawNeeds(objs, k + 1));
    }
  }
}
