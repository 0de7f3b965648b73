/** Binary search of a strictly sorted table, and what a linear search would say. */
module Search {
  import opened Wrappers

  ghost predicate StrictTotal<K(!new)>(less: (K, K) -> bool) {
    && (forall a :: !less(a, a))
    && (forall a, b :: less(a, b) || a == b || less(b, a))
    && (forall a, b, c :: less(a, b) && less(b, c) ==> less(a, c))
  }

  ghost predicate Sorted<K>(keys: seq<K>, less: (K, K) -> bool) {
    forall i, j :: 0 <= i < j < |keys| ==> less(keys[i], keys[j])
  }

  /** The index of the first key equal to `what`, by looking at each in turn. */
  function LinearFind<K(==)>(keys: seq<K>, what: K): (r: Option<nat>)
    ensures r.None? <==> what !in keys
    ensures r.Some? ==> r.value < |keys| && keys[r.value] == what
  {
    if keys == [] then None
    else if keys[0] == what then Some(0)
    else match LinearFind(keys[1..], what)
      case None => None
      case Some(k) => Some(1 + k)
  }

  /** `std::equal_range`: the range of the keys that are neither below nor above `what`. */
  method EqualRange<K(!new)>(keys: seq<K>, what: K, less: (K, K) -> bool) returns (first: nat, second: nat)
    requires StrictTotal(less) && Sorted(keys, less)
    ensures first <= second <= |keys|
    ensures forall i :: 0 <= i < first ==> less(keys[i], what)
    ensures forall i :: first <= i < second ==> keys[i] == what
    ensures forall i :: second <= i < |keys| ==> less(what, keys[i])
  {
    first := 0;
    var hi := |keys|;
    while first < hi
      invariant first <= hi <= |keys|
      invariant forall i :: 0 <= i < first ==> less(keys[i], what)
      invariant forall i :: hi <= i < |keys| ==> !less(keys[i], what)
    {
      var mid := (first + hi) / 2;
      if less(keys[mid], what) {
        first := mid + 1;
      } else {
        hi := mid;
      }
    }
    second, hi := first, |keys|;
    while second < hi
      invariant first <= second <= hi <= |keys|
      invariant forall i :: 0 <= i < second ==> !less(what, keys[i])
      invariant forall i :: hi <= i < |keys| ==> less(what, keys[i])
    {
      var mid := (second + hi) / 2;
      if less(what, keys[mid]) {
        hi := mid;
      } else {
        second := mid + 1;
      }
    }
  }

  /** In a strictly sorted table the range holds at most one key, and it is the one that a
      linear search finds. */
  lemma RangeIsLinearFind<K(!new)>(keys: seq<K>, what: K, less: (K, K) -> bool, first: nat, second: nat)
    requires StrictTotal(less) && Sorted(keys, less) && first <= second <= |keys|
    requires forall i :: 0 <= i < first ==> less(keys[i], what)
    requires forall i :: first <= i < second ==> keys[i] == what
    requires forall i :: second <= i < |keys| ==> less(what, keys[i])
    ensures second == first || second == first + 1
    ensures LinearFind(keys, what) == if first == second then None else Some(first)
  {
    assert forall i, j :: 0 <= i < j < |keys| ==> keys[i] != keys[j];
    assert first + 1 < |keys| ==> keys[first] != keys[first + 1];
    assert first < second ==> keys[first] == what;
    var r := LinearFind(keys, what);
    assert r.Some? ==> first <= r.value < second;
  }

  /** Keys that each come before the next are sorted. */
  lemma StepsAreSorted<K(!new)>(keys: seq<K>, less: (K, K) -> bool)
    requires StrictTotal(less) && forall i :: 0 <= i < |keys| - 1 ==> less(keys[i], keys[i + 1])
    ensures Sorted(keys, less)
  {
    forall i, j | 0 <= i < j < |keys| ensures less(keys[i], keys[j]) {
      for k := i + 1 to j
        invariant less(keys[i], keys[k])
      {
        assert less(keys[k], keys[k + 1]);
      }
    }
  }

  // The order of `strcmp`.

  predicate StrLess(a: string, b: string) {
    if b == [] then false
    else if a == [] then true
    else if a[0] != b[0] then a[0] < b[0]
    else StrLess(a[1..], b[1..])
  }

  lemma {:induction false} StrLessTotal(a: string, b: string)
    ensures !StrLess(a, a) && (StrLess(a, b) || a == b || StrLess(b, a))
    decreases |a|
  {
    if a != [] {
      StrLessTotal(a[1..], if b == [] then [] else b[1..]);
      if b != [] {
        assert a == [a[0]] + a[1..] && b == [b[0]] + b[1..];
      }
    }
  }

  lemma {:induction false} StrLessTransitive(a: string, b: string, c: string)
    requires StrLess(a, b) && StrLess(b, c)
    ensures StrLess(a, c)
    decreases |a|
  {
    if a != [] && a[0] == b[0] == c[0] {
      StrLessTransitive(a[1..], b[1..], c[1..]);
    }
  }

  lemma StrLessIsStrictTotal()
    ensures StrictTotal(StrLess)
  {
    forall a, b ensures !StrLess(a, a) && (StrLess(a, b) || a == b || StrLess(b, a)) {
      StrLessTotal(a, b);
    }
    forall a, b, c | StrLess(a, b) && StrLess(b, c) ensures StrLess(a, c) {
      StrLessTransitive(a, b, c);
    }
  }
}
