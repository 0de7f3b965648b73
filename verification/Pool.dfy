/** The pool allocator: a bump pointer over a fixed block, with an index of what is live. */
module Pool {
  import opened Wrappers
  import opened Search

  const SIZE_LIMIT: int := 0x1_0000_0000_0000_0000

  /** `size_t` and `uintptr_t`: the verifier checks that no operation leaves the range. */
  newtype SizeT = x: int | 0 <= x < SIZE_LIMIT

  const SIZE_MAX: SizeT := 0xFFFF_FFFF_FFFF_FFFF

  datatype Block = Block(addr: nat, bytes: nat, align: nat)

  datatype BadAlloc = NumObjs | PoolSize

  /** The allocator as a value. */
  datatype PoolState = PoolState(base: nat, size: nat, nobjs: nat, ptr: nat, blocks: seq<Block>) {

    /** Live blocks are aligned, not empty, inside the pool, pairwise disjoint, in
        increasing order, below the bump pointer, and no more than `nobjs`. */
    predicate Ok() {
      && base <= ptr <= base + size < SIZE_LIMIT
      && |blocks| <= nobjs
      && (forall i :: 0 <= i < |blocks| ==> BlockOk(blocks[i]))
      && (forall i, j :: 0 <= i < j < |blocks| ==> blocks[i].addr + blocks[i].bytes <= blocks[j].addr)
    }

    predicate BlockOk(b: Block) {
      && b.align > 0 && b.addr % b.align == 0
      && b.bytes > 0 && base < b.addr && b.addr + b.bytes <= ptr
    }

    function Pad(align: nat): (pad: nat)
      requires align > 0
      ensures 1 <= pad <= align && (ptr + pad) % align == 0
    {
      PadAligns(ptr, align);
      align - ptr % align
    }

    function Allocate(nbytes: nat, align: nat): (r: Result<PoolState, BadAlloc>)
      requires align > 0
    {
      var n := if nbytes == 0 then 1 else nbytes;
      if |blocks| >= nobjs then Failure(NumObjs)
      else if ptr + Pad(align) + n > base + size then Failure(PoolSize)
      else
        var addr := ptr + Pad(align);
        Success(this.(ptr := addr + n, blocks := blocks + [Block(addr, n, align)]))
    }

    function Rollback(addr: nat): (r: Option<PoolState>) {
      if blocks == [] || blocks[|blocks| - 1].addr != addr then None
      else Some(this.(ptr := addr, blocks := blocks[..|blocks| - 1]))
    }

    function Addrs(): seq<nat> {
      seq(|blocks|, i requires 0 <= i < |blocks| => blocks[i].addr)
    }
  }

  /** The two pools of an AST: one for its nodes, one for their strings and lists. */
  datatype Pools = Pools(node: PoolState, raw: PoolState)

  lemma PadAligns(ptr: nat, align: nat)
    requires align > 0
    ensures (ptr + (align - ptr % align)) % align == 0
  {
    MultipleOf(ptr + (align - ptr % align), align, ptr / align + 1);
  }

  lemma MultipleOf(x: nat, d: nat, q: nat)
    requires d > 0 && x == q * d
    ensures x % d == 0
  {
    var q1, r := x / d, x % d;
    assert x == d * q1 + r;
    Distribute(q, q1, d);
    NoSmallMultiple(q - q1, d, r);
  }

  lemma Distribute(a: int, b: int, d: int)
    ensures (a - b) * d == a * d - d * b
  {
  }

  lemma NoSmallMultiple(k: int, d: int, r: int)
    requires 0 <= r < d && k * d == r
    ensures r == 0
  {
    MultipleBounds(k, d);
  }

  lemma MultipleBounds(k: int, d: nat)
    ensures k >= 1 ==> k * d >= d
    ensures k <= -1 ==> k * d <= 0 - d
  {
    if k >= 1 {
      assert (k - 1) * d >= 0;
    } else if k <= -1 {
      assert (-1 - k) * d >= 0;
    }
  }

  /** The bytes that a request takes: those asked for, or one. */
  function Room(nbytes: nat): nat {
    if nbytes == 0 then 1 else nbytes
  }

  /** Where a block may start: the aligned address within the next `align` bytes. */
  predicate StartsAt(p: PoolState, align: nat, a: nat)
    requires align > 0
  {
    p.ptr < a <= p.ptr + align && a % align == 0
  }

  lemma OneStart(p: PoolState, align: nat, a: nat)
    requires align > 0 && StartsAt(p, align, a)
    ensures a == p.ptr + p.Pad(align)
  {
    hide PoolState.Pad;
    var b := p.ptr + p.Pad(align);
    if a <= b {
      MultiplesApart(a, b, align);
    } else {
      MultiplesApart(b, a, align);
    }
  }

  /** Two multiples of `d` that are less than `d` apart are equal. */
  lemma MultiplesApart(a: nat, b: nat, d: nat)
    requires d > 0 && a % d == 0 && b % d == 0 && a <= b < a + d
    ensures a == b
  {
    var i, j := a / d, b / d;
    assert a == d * i && b == d * j;
    Distribute(j, i, d);
    NoSmallMultiple(j - i, d, b - a);
  }

  /** When an allocation succeeds: exactly when an object more is allowed and the block fits
      the pool. What it gives: a block of the size and the alignment asked for, at the next
      aligned address, up to which the pool is then used. */
  lemma AllocateIs(p: PoolState, nbytes: nat, align: nat)
    requires align > 0
    ensures p.Allocate(nbytes, align) == Failure(NumObjs) <==> |p.blocks| >= p.nobjs
    ensures p.Allocate(nbytes, align).Success?
       <==> |p.blocks| < p.nobjs && exists a: nat :: StartsAt(p, align, a) && a + Room(nbytes) <= p.base + p.size
    ensures p.Allocate(nbytes, align).Success? ==>
              var q := p.Allocate(nbytes, align).value;
              var b := q.blocks[|p.blocks|];
              && q.blocks == p.blocks + [b] && (q.base, q.size, q.nobjs) == (p.base, p.size, p.nobjs)
              && StartsAt(p, align, b.addr) && b.align == align && b.bytes == Room(nbytes)
              && q.ptr == b.addr + b.bytes
  {
    hide PoolState.Pad;
    if |p.blocks| < p.nobjs {
      var here := p.ptr + p.Pad(align);
      assert StartsAt(p, align, here);
      forall a: nat | StartsAt(p, align, a) ensures a == here {
        OneStart(p, align, a);
      }
    }
  }

  datatype Op = Alloc(nbytes: nat, align: nat) | Undo(addr: nat)

  /** One call; a call that throws leaves the allocator as it was. */
  function Step(p: PoolState, op: Op): PoolState
    requires op.Alloc? ==> op.align > 0
  {
    match op
    case Alloc(nbytes, align) =>
      var r := p.Allocate(nbytes, align);
      if r.Success? then r.value else p
    case Undo(addr) =>
      var r := p.Rollback(addr);
      if r.Some? then r.value else p
  }

  function Run(p: PoolState, ops: seq<Op>): PoolState
    requires forall op | op in ops :: op.Alloc? ==> op.align > 0
  {
    if ops == [] then p else Step(Run(p, ops[..|ops| - 1]), ops[|ops| - 1])
  }

  lemma StepKeepsOk(p: PoolState, op: Op)
    requires p.Ok() && (op.Alloc? ==> op.align > 0)
    ensures Step(p, op).Ok()
  {
    var q := Step(p, op);
    if q != p {
      if op.Alloc? {
        assert forall i :: 0 <= i < |p.blocks| ==> q.blocks[i] == p.blocks[i];
        assert forall i :: 0 <= i < |p.blocks| ==> p.BlockOk(p.blocks[i]);
      } else {
        var last := |p.blocks| - 1;
        assert p.BlockOk(p.blocks[last]);
        forall i | 0 <= i < last ensures q.BlockOk(q.blocks[i]) {
          assert p.BlockOk(p.blocks[i]) && p.blocks[i].addr + p.blocks[i].bytes <= p.blocks[last].addr;
        }
      }
    }
  }

  /** Every state that allocations and rollbacks reach is in order. */
  lemma {:induction false} EveryRunIsOk(p: PoolState, ops: seq<Op>)
    requires p.Ok() && forall op | op in ops :: op.Alloc? ==> op.align > 0
    ensures Run(p, ops).Ok()
    decreases |ops|
  {
    if ops != [] {
      EveryRunIsOk(p, ops[..|ops| - 1]);
      StepKeepsOk(Run(p, ops[..|ops| - 1]), ops[|ops| - 1]);
    }
  }

  /** What was asked for, of each live block: a call that succeeds asks for one more, and
      rolling back forgets the last. */
  function Asked(p: PoolState, ops: seq<Op>): seq<nat>
    requires forall op | op in ops :: op.Alloc? ==> op.align > 0
  {
    if ops == [] then []
    else
      var last := |ops| - 1;
      var q, asked := Run(p, ops[..last]), Asked(p, ops[..last]);
      match ops[last]
      case Alloc(nbytes, align) => if q.Allocate(nbytes, align).Success? then asked + [nbytes] else asked
      case Undo(addr) => if q.Rollback(addr).Some? && asked != [] then asked[..|asked| - 1] else asked
  }

  lemma {:induction false} BlocksHoldWhatWasAsked(p: PoolState, ops: seq<Op>)
    requires p.blocks == [] && forall op | op in ops :: op.Alloc? ==> op.align > 0
    ensures var q, asked := Run(p, ops), Asked(p, ops);
            |asked| == |q.blocks| && forall i :: 0 <= i < |asked| ==> q.blocks[i].bytes == Room(asked[i])
    ensures (Run(p, ops).base, Run(p, ops).size) == (p.base, p.size)
    decreases |ops|
  {
    hide PoolState.Allocate;
    if ops != [] {
      var last := |ops| - 1;
      BlocksHoldWhatWasAsked(p, ops[..last]);
      if ops[last].Alloc? {
        AllocateIs(Run(p, ops[..last]), ops[last].nbytes, ops[last].align);
      }
    }
  }

  /** After any run on a fresh pool, each live object has the bytes that it asked for to
      itself: they end before the next object starts, and inside the pool. */
  lemma ObjectsDoNotOverlap(p: PoolState, ops: seq<Op>, i: nat)
    requires p.Ok() && p.blocks == [] && forall op | op in ops :: op.Alloc? ==> op.align > 0
    requires i < |Asked(p, ops)|
    ensures |Asked(p, ops)| == |Run(p, ops).blocks|
    ensures var q, asked := Run(p, ops), Asked(p, ops);
            && p.base < q.blocks[i].addr && q.blocks[i].addr + asked[i] <= p.base + p.size
            && forall j :: i < j < |asked| ==> q.blocks[i].addr + asked[i] <= q.blocks[j].addr
  {
    BlocksHoldWhatWasAsked(p, ops);
    EveryRunIsOk(p, ops);
    assert Run(p, ops).BlockOk(Run(p, ops).blocks[i]);
  }

  /** Rolling back an allocation restores the index but never the bump pointer: the padding
      before the block stays used. */
  lemma RollbackLeaksPadding(p: PoolState, nbytes: nat, align: nat)
    requires align > 0 && p.Allocate(nbytes, align).Success?
    ensures var p1 := p.Allocate(nbytes, align).value;
            var r := p1.Rollback(p1.blocks[|p1.blocks| - 1].addr);
            r == Some(p.(ptr := p.ptr + p.Pad(align))) && r != Some(p)
  {
    var p1 := p.Allocate(nbytes, align).value;
    assert p1.blocks[..|p1.blocks| - 1] == p.blocks;
  }

  lemma AllocateAppends(p: PoolState, nbytes: nat, align: nat)
    requires align > 0 && p.Allocate(nbytes, align).Success?
    ensures var q := p.Allocate(nbytes, align).value;
            && |q.blocks| == |p.blocks| + 1 && q.blocks[..|p.blocks|] == p.blocks
            && q.Rollback(q.blocks[|p.blocks|].addr).Some?
            && q.Rollback(q.blocks[|p.blocks|].addr).value.blocks == p.blocks
  {
  }

  /** `k` rounds of allocating and rolling back. */
  function Rounds(p: PoolState, nbytes: nat, align: nat, k: nat): PoolState
    requires align > 0
  {
    if k == 0 then p
    else
      var q := Rounds(p, nbytes, align, k - 1);
      if q.Allocate(nbytes, align).Success? then q.(ptr := q.ptr + q.Pad(align)) else q
  }

  /** A round is a call to allocate and a call to roll the new block back. */
  lemma RoundIsTwoCalls(p: PoolState, nbytes: nat, align: nat, k: nat)
    requires align > 0 && k > 0
    ensures var q := Rounds(p, nbytes, align, k - 1);
            var q1 := Step(q, Alloc(nbytes, align));
            Rounds(p, nbytes, align, k) == if q1 == q then q else Step(q1, Undo(q1.blocks[|q1.blocks| - 1].addr))
  {
    var q := Rounds(p, nbytes, align, k - 1);
    if q.Allocate(nbytes, align).Success? {
      RollbackLeaksPadding(q, nbytes, align);
    }
  }

  /** From the second round on, each costs a whole alignment unit, until the pool is full. */
  lemma {:induction false} RoundsExhaustThePool(p: PoolState, nbytes: nat, align: nat, k: nat)
    requires align > 0 && Rounds(p, nbytes, align, k).Allocate(nbytes, align).Success?
    ensures Rounds(p, nbytes, align, k).ptr == if k == 0 then p.ptr else p.ptr + p.Pad(align) + (k - 1) * align
    ensures k > 0 ==> Rounds(p, nbytes, align, k).ptr % align == 0
    ensures p.ptr + k * align <= p.base + p.size + align
    decreases k
  {
    if k > 0 {
      var q := Rounds(p, nbytes, align, k - 1);
      SameShape(p, nbytes, align, k - 1);
      SameShape(p, nbytes, align, k);
      if q.Allocate(nbytes, align).Success? {
        RoundsExhaustThePool(p, nbytes, align, k - 1);
        assert k > 1 ==> q.Pad(align) == align;
        assert (k - 1) * align == (if k > 1 then (k - 2) * align + align else 0);
        assert k * align == (k - 1) * align + align;
      }
    }
  }

  lemma {:induction false} SameShape(p: PoolState, nbytes: nat, align: nat, k: nat)
    requires align > 0
    ensures var q := Rounds(p, nbytes, align, k);
            q.base == p.base && q.size == p.size && q.nobjs == p.nobjs && q.blocks == p.blocks
    decreases k
  {
    if k > 0 {
      SameShape(p, nbytes, align, k - 1);
    }
  }

  predicate Below(a: SizeT, b: SizeT) {
    a < b
  }

  lemma BelowIsStrictTotal()
    ensures StrictTotal(Below)
  {
  }

  class PoolAllocator {
    const nobjs: SizeT
    const poolSz: SizeT
    const pool: SizeT
    var ptr: SizeT
    const ptrs: array<SizeT>
    var nptrs: SizeT
    ghost var blocks: seq<Block>

    ghost function State(): PoolState
      reads this
    {
      PoolState(pool as nat, poolSz as nat, nobjs as nat, ptr as nat, blocks)
    }

    ghost predicate Valid()
      reads this, ptrs
    {
      && State().Ok()
      && ptrs.Length == nobjs as int
      && |blocks| == nptrs as int
      && forall i :: 0 <= i < |blocks| ==> ptrs[i] as int == blocks[i].addr
    }

    /** `pool` is the memory that the system handed out: it lies in the address space. */
    constructor (nobjs: SizeT, poolSz: SizeT, pool: SizeT)
      requires pool as int + poolSz as int < SIZE_LIMIT
      ensures Valid() && fresh(ptrs)
      ensures State() == PoolState(pool as nat, poolSz as nat, nobjs as nat, pool as nat, [])
    {
      this.nobjs, this.poolSz, this.pool := nobjs, poolSz, pool;
      ptr := pool;
      ptrs := new SizeT[nobjs as int](_ => 0);
      nptrs := 0;
      blocks := [];
    }

    method Allocate(nbytes: SizeT, align: SizeT) returns (r: Result<SizeT, BadAlloc>)
      requires Valid() && align > 0
      modifies this, ptrs
      ensures Valid()
      ensures match old(State()).Allocate(nbytes as nat, align as nat)
              case Success(p) => r.Success? && State() == p && r.value as int == p.blocks[|p.blocks| - 1].addr
              case Failure(e) => r == Failure(e) && State() == old(State())
    {
      ghost var p := State();
      StepKeepsOk(p, Alloc(nbytes as nat, align as nat));
      var n := if nbytes == 0 then 1 else nbytes;
      if nptrs >= nobjs {
        return Failure(NumObjs);
      }
      var pad := align - ptr % align;
      assert pad as int == p.Pad(align as nat);
      if SIZE_MAX - pad < n || n + pad > poolSz || ptr - pool > poolSz - (n + pad) {
        return Failure(PoolSize);
      }
      var addr := ptr + pad;
      ptr := addr + n;
      ptrs[nptrs as int] := addr;
      nptrs := nptrs + 1;
      blocks := blocks + [Block(addr as nat, n as nat, align as nat)];
      return Success(addr);
    }

    method Rollback(obj: SizeT) returns (ok: bool)
      requires Valid()
      modifies this
      ensures Valid()
      ensures match old(State()).Rollback(obj as nat)
              case Some(p) => ok && State() == p
              case None => !ok && State() == old(State())
    {
      StepKeepsOk(State(), Undo(obj as nat));
      if nptrs < 1 || ptrs[nptrs as int - 1] != obj {
        return false;
      }
      ptr := obj;
      nptrs := nptrs - 1;
      blocks := blocks[..|blocks| - 1];
      return true;
    }

    /** `find`: whether an address is live, and its ordinal among the live ones. The linear
        path below ten blocks and the binary path above give the same answer. */
    method Find(what: SizeT) returns (r: Option<nat>)
      requires Valid()
      ensures r == LinearFind(State().Addrs(), what as nat)
    {
      ghost var addrs := State().Addrs();
      var live := ptrs[..nptrs as int];
      assert forall i :: 0 <= i < |live| ==> live[i] as int == addrs[i];
      if nptrs < 10 {
        var i := 0;
        while i < |live| && live[i] != what
          invariant 0 <= i <= |live|
          invariant forall j :: 0 <= j < i ==> live[j] != what
        {
          i := i + 1;
        }
        FirstMatch(addrs, what as nat, i);
        return if i == |live| then None else Some(i);
      } else {
        BelowIsStrictTotal();
        LiveIsSorted(State(), live);
        var first, second := EqualRange(live, what, Below);
        RangeIsLinearFind(live, what, Below, first, second);
        FirstMatch(addrs, what as nat, if first == second then |live| else first);
        return if first == second then None else Some(first);
      }
    }

    /** The destructor: what is live is destroyed from the youngest to the oldest. */
    method Destroy() returns (order: seq<SizeT>)
      requires Valid()
      ensures |order| == |State().Addrs()|
      ensures forall i :: 0 <= i < |order| ==> order[i] as int == State().Addrs()[|order| - 1 - i]
    {
      order := [];
      var p := nptrs;
      while p > 0
        invariant p <= nptrs && |order| == nptrs as int - p as int
        invariant forall i :: 0 <= i < |order| ==> order[i] == ptrs[nptrs as int - 1 - i]
      {
        p := p - 1;
        order := order + [ptrs[p as int]];
      }
    }
  }

  lemma LiveIsSorted(p: PoolState, live: seq<SizeT>)
    requires p.Ok() && |live| == |p.blocks|
    requires forall i :: 0 <= i < |live| ==> live[i] as int == p.blocks[i].addr
    ensures Sorted(live, Below)
  {
    forall i, j | 0 <= i < j < |live| ensures Below(live[i], live[j]) {
      assert p.BlockOk(p.blocks[i]);
      assert p.blocks[i].addr + p.blocks[i].bytes <= p.blocks[j].addr;
    }
  }

  /** A linear search stops at the first match. */
  lemma {:induction false} FirstMatch(keys: seq<nat>, what: nat, k: nat)
    requires k <= |keys| && (forall j :: 0 <= j < k ==> keys[j] != what) && (k < |keys| ==> keys[k] == what)
    ensures LinearFind(keys, what) == if k == |keys| then None else Some(k)
    decreases k
  {
    if k > 0 {
      FirstMatch(keys[1..], what, k - 1);
    }
  }
}
