/** Chains of base types, and the walk of a cast up such a chain, on any table of bases. */
module Bases {
  import opened Wrappers

  /** `bases[t]` is the base of type `t`, if it has one. */
  type BaseTable = seq<Option<nat>>

  ghost predicate InRange(bases: BaseTable, src: nat) {
    src < |bases| && forall t :: 0 <= t < |bases| ==> (bases[t].Some? ==> bases[t].value < |bases|)
  }

  /** The type `i` bases up from `t`. */
  function Up(bases: BaseTable, t: nat, i: nat): Option<nat> {
    if i == 0 then Some(t)
    else
      var u := Up(bases, t, i - 1);
      if u.None? || u.value >= |bases| then None else bases[u.value]
  }

  /** `dst` is `src` or a base of it, at any distance: the reflexive and transitive closure
      of the base relation. */
  ghost predicate OnChain(bases: BaseTable, src: nat, dst: nat) {
    exists i: nat :: Up(bases, src, i) == Some(dst)
  }

  ghost predicate ChainEnds(bases: BaseTable, src: nat) {
    exists i: nat :: Up(bases, src, i) == None
  }

  ghost predicate ComesBack(bases: BaseTable, src: nat) {
    exists i: nat :: i > 0 && Up(bases, src, i) == Some(src)
  }

  ghost predicate Acyclic(bases: BaseTable) {
    forall t: nat, i: nat :: t < |bases| && i > 0 ==> Up(bases, t, i) != Some(t)
  }

  lemma {:induction false} UpAdds(bases: BaseTable, t: nat, i: nat, j: nat)
    ensures Up(bases, t, i + j) == if Up(bases, t, i).None? then None else Up(bases, Up(bases, t, i).value, j)
    decreases j
  {
    if j > 0 {
      UpAdds(bases, t, i, j - 1);
    }
  }

  /** A chain that comes back without meeting `dst` never meets it, and never ends. */
  lemma {:induction false} CyclesAvoid(bases: BaseTable, src: nat, p: nat, dst: nat, i: nat)
    requires p > 0 && Up(bases, src, p) == Some(src)
    requires forall j: nat :: j < p ==> Up(bases, src, j) != Some(dst)
    ensures Up(bases, src, i).Some? && Up(bases, src, i) != Some(dst)
    decreases i
  {
    if i < p {
      UpAdds(bases, src, i, p - i);
    } else {
      UpAdds(bases, src, p, i - p);
      CyclesAvoid(bases, src, p, dst, i - p);
    }
  }

  // The loop of `ast_type_t::type_cast`, step by step.

  datatype Walk = At(ptr: nat) | Answer(found: bool) | CycleFound

  function WalkStep(bases: BaseTable, dst: nat, src: nat, w: Walk): Walk {
    if !w.At? || w.ptr >= |bases| then w
    else if w.ptr == dst then Answer(true)
    else if bases[w.ptr].None? then Answer(false)
    else if bases[w.ptr].value == src then CycleFound
    else At(bases[w.ptr].value)
  }

  function WalkFor(bases: BaseTable, dst: nat, src: nat, n: nat): Walk {
    if n == 0 then At(src) else WalkStep(bases, dst, src, WalkFor(bases, dst, src, n - 1))
  }

  /** The type `i` bases up is `dst`, or has no base, or has `src` as its base. */
  predicate Stops(bases: BaseTable, dst: nat, src: nat, i: nat) {
    var u := Up(bases, src, i);
    u == Some(dst) || (u.Some? && u.value < |bases| && (bases[u.value].None? || bases[u.value] == Some(src)))
  }

  lemma {:induction false} WalkGoesOn(bases: BaseTable, dst: nat, src: nat, n: nat)
    requires InRange(bases, src)
    ensures WalkFor(bases, dst, src, n).At? <==> forall i: nat :: i < n ==> !Stops(bases, dst, src, i)
    ensures var w := WalkFor(bases, dst, src, n); w.At? ==> w.ptr < |bases| && Up(bases, src, n) == Some(w.ptr)
  {
    if n > 0 {
      WalkGoesOn(bases, dst, src, n - 1);
      var w := WalkFor(bases, dst, src, n - 1);
      assert w.At? ==> (WalkStep(bases, dst, src, w).At? <==> !Stops(bases, dst, src, n - 1));
    }
  }

  /** Whatever the walk says is so. */
  lemma {:induction false} WalkIsRight(bases: BaseTable, dst: nat, src: nat, n: nat)
    requires InRange(bases, src)
    ensures match WalkFor(bases, dst, src, n)
            case At(_) => true
            case Answer(true) => OnChain(bases, src, dst)
            case Answer(false) => !OnChain(bases, src, dst) && ChainEnds(bases, src)
            case CycleFound => !OnChain(bases, src, dst) && ComesBack(bases, src) && !ChainEnds(bases, src)
  {
    if n > 0 {
      WalkIsRight(bases, dst, src, n - 1);
      WalkGoesOn(bases, dst, src, n - 1);
      var w, v := WalkFor(bases, dst, src, n - 1), WalkFor(bases, dst, src, n);
      if w.At? {
        assert Up(bases, src, n) == bases[w.ptr];
        forall i: nat | i < n - 1 ensures Up(bases, src, i) != Some(dst) {
          assert !Stops(bases, dst, src, i);
        }
        if v == Answer(false) {
          forall i: nat ensures Up(bases, src, i) != Some(dst) {
            if i >= n {
              UpAdds(bases, src, n, i - n);
            }
          }
        } else if v.CycleFound? {
          forall i: nat ensures Up(bases, src, i).Some? && Up(bases, src, i) != Some(dst) {
            CyclesAvoid(bases, src, n, dst, i);
          }
        }
      }
    }
  }

  /** On any table, the walk says yes exactly when `dst` is on the chain; no exactly when it
      is not and the chain ends; reports a cycle exactly when it is not and the chain comes
      back to `src`. In no other case does it ever end. */
  lemma WalkAnswers(bases: BaseTable, dst: nat, src: nat)
    requires InRange(bases, src)
    ensures (exists n: nat :: WalkFor(bases, dst, src, n) == Answer(true)) <==> OnChain(bases, src, dst)
    ensures (exists n: nat :: WalkFor(bases, dst, src, n) == Answer(false))
       <==> !OnChain(bases, src, dst) && ChainEnds(bases, src)
    ensures (exists n: nat :: WalkFor(bases, dst, src, n) == CycleFound)
       <==> !OnChain(bases, src, dst) && ComesBack(bases, src)
  {
    forall n: nat | !WalkFor(bases, dst, src, n).At? {
      WalkIsRight(bases, dst, src, n);
    }
    if i: nat :| Up(bases, src, i) == Some(dst) {
      assert Stops(bases, dst, src, i);
      WalkGoesOn(bases, dst, src, i + 1);
    }
    if i: nat :| Up(bases, src, i) == None {
      var k := LastOf(bases, src, i);
      assert Stops(bases, dst, src, k);
      WalkGoesOn(bases, dst, src, k + 1);
    }
    if i: nat :| i > 0 && Up(bases, src, i) == Some(src) {
      assert Stops(bases, dst, src, i - 1);
      WalkGoesOn(bases, dst, src, i);
      if !OnChain(bases, src, dst) {
        forall k: nat ensures Up(bases, src, k).Some? {
          CyclesAvoid(bases, src, i, dst, k);
        }
      }
    }
  }

  lemma {:induction false} UpInRange(bases: BaseTable, src: nat, i: nat)
    requires InRange(bases, src)
    ensures Up(bases, src, i).Some? ==> Up(bases, src, i).value < |bases|
  {
    if i > 0 {
      UpInRange(bases, src, i - 1);
    }
  }

  /** The last type of a chain that has ended by `i`. */
  lemma {:induction false} LastOf(bases: BaseTable, src: nat, i: nat) returns (k: nat)
    requires InRange(bases, src) && Up(bases, src, i).None?
    ensures k < i && Up(bases, src, k).Some?
    ensures Up(bases, src, k).value < |bases| && bases[Up(bases, src, k).value].None?
    decreases i
  {
    UpInRange(bases, src, i - 1);
    if Up(bases, src, i - 1).Some? {
      k := i - 1;
    } else {
      k := LastOf(bases, src, i - 1);
    }
  }

  // Whether the walk ends can be told within as many steps as there are types.

  lemma {:induction false} DistinctAreFew(s: seq<nat>, n: nat)
    requires forall i :: 0 <= i < |s| ==> s[i] < n
    requires forall i, j :: 0 <= i < j < |s| ==> s[i] != s[j]
    ensures |s| <= n
    decreases n
  {
    if s != [] {
      assert s[0] < n;
      if k: nat :| k < |s| && s[k] == n - 1 {
        DistinctAreFew(s[..k] + s[k + 1..], n - 1);
      } else {
        DistinctAreFew(s, n - 1);
      }
    }
  }

  /** A chain of more types than there are meets one of them twice. */
  lemma Repeats(bases: BaseTable, src: nat) returns (a: nat, b: nat)
    requires InRange(bases, src) && Up(bases, src, |bases|).Some?
    ensures a < b <= |bases| && Up(bases, src, a).Some? && Up(bases, src, a) == Up(bases, src, b)
  {
    var n := |bases|;
    forall i: nat | i <= n ensures Up(bases, src, i).Some? && Up(bases, src, i).value < n {
      UpAdds(bases, src, i, n - i);
      UpInRange(bases, src, i);
    }
    var s := seq(n + 1, i requires 0 <= i <= n => Up(bases, src, i).value);
    if forall i, j :: 0 <= i < j < |s| ==> s[i] != s[j] {
      DistinctAreFew(s, n);
    }
    a, b :| 0 <= a < b < |s| && s[a] == s[b];
  }

  lemma {:induction false} StopsEarly(bases: BaseTable, dst: nat, src: nat, i: nat)
    requires InRange(bases, src) && Stops(bases, dst, src, i)
    ensures exists k: nat :: k <= |bases| && Stops(bases, dst, src, k)
    decreases i
  {
    if i > |bases| {
      UpAdds(bases, src, |bases|, i - |bases|);
      var a, b := Repeats(bases, src);
      UpAdds(bases, src, a, i - b);
      UpAdds(bases, src, b, i - b);
      StopsEarly(bases, dst, src, i - (b - a));
    }
  }

  /** On any table, the walk ends exactly when one of the first types of the chain, no more
      than there are types, is `dst`, has no base, or has `src` as its base. */
  lemma WalkEndsExactlyWhen(bases: BaseTable, dst: nat, src: nat)
    requires InRange(bases, src)
    ensures (exists n: nat :: !WalkFor(bases, dst, src, n).At?)
       <==> exists i :: 0 <= i <= |bases| && Stops(bases, dst, src, i)
  {
    if i: nat :| i <= |bases| && Stops(bases, dst, src, i) {
      WalkGoesOn(bases, dst, src, i + 1);
    }
    if n: nat :| !WalkFor(bases, dst, src, n).At? {
      WalkGoesOn(bases, dst, src, n);
      var i: nat :| i < n && Stops(bases, dst, src, i);
      StopsEarly(bases, dst, src, i);
    }
  }

  /** Without cycles every chain ends, so the walk decides the closure of the base relation. */
  lemma AcyclicEnds(bases: BaseTable, src: nat)
    requires InRange(bases, src) && Acyclic(bases)
    ensures ChainEnds(bases, src) && !ComesBack(bases, src)
  {
    if Up(bases, src, |bases|).Some? {
      var a, b := Repeats(bases, src);
      UpInRange(bases, src, a);
      UpAdds(bases, src, a, b - a);
    }
  }

  /** Where bases come before the types that extend them, chains go down. */
  lemma {:induction false} OrderedDescends(bases: BaseTable, t: nat, i: nat)
    requires forall u :: 0 <= u < |bases| ==> (bases[u].Some? ==> bases[u].value < u)
    ensures Up(bases, t, i).Some? ==> Up(bases, t, i).value <= t - i
  {
    if i > 0 {
      OrderedDescends(bases, t, i - 1);
    }
  }

  /** `ast_type_t::type_cast`, on any table on which its loop ends; `None` is the error that
      it reports for a cycle. */
  method TypeCast(bases: BaseTable, dst: nat, src: nat, strict: bool) returns (r: Option<bool>)
    requires InRange(bases, src)
    requires strict || OnChain(bases, src, dst) || ChainEnds(bases, src) || ComesBack(bases, src)
    ensures strict ==> r == Some(src == dst)
    ensures !strict ==> r == if OnChain(bases, src, dst) then Some(true)
                             else if ChainEnds(bases, src) then Some(false) else None
  {
    if strict {
      return Some(src == dst);
    }
    WalkAnswers(bases, dst, src);
    ghost var end: nat :| !WalkFor(bases, dst, src, end).At?;
    ghost var i := 0;
    var ptr: nat := src;
    while true
      invariant i < end && WalkFor(bases, dst, src, i) == At(ptr) && ptr < |bases|
      decreases end - i
    {
      WalkIsRight(bases, dst, src, i + 1);
      if ptr == dst {
        return Some(true);
      }
      if bases[ptr].None? {
        return Some(false);
      }
      ptr := bases[ptr].value;
      if ptr == src {
        return None;
      }
      i := i + 1;
      StillGoing(bases, dst, src, i, end);
    }
  }

  /** A walk that still goes on has not reached its end. */
  lemma {:induction false} StillGoing(bases: BaseTable, dst: nat, src: nat, i: nat, end: nat)
    requires !WalkFor(bases, dst, src, end).At? && WalkFor(bases, dst, src, i).At?
    ensures i < end
    decreases i
  {
    if i > end {
      StillGoing(bases, dst, src, i - 1, end);
    }
  }

  /** The test for cycles sees those through `src` only: on a chain that runs into a cycle
      further up, the walk never ends. */
  lemma {:induction false} InnerCyclesAreMissed(n: nat)
    ensures WalkFor([Some(1), Some(1), None], 2, 0, n).At?
    ensures n > 0 ==> WalkFor([Some(1), Some(1), None], 2, 0, n) == At(1)
    ensures WalkFor([Some(1), Some(0), None], 2, 0, 2) == CycleFound
  {
    assert WalkFor([Some(1), Some(0), None], 2, 0, 1) == At(1);
    if n > 0 {
      InnerCyclesAreMissed(n - 1);
    }
  }
}
