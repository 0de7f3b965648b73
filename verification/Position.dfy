/** Line and column positions, kept incrementally by the parser. */
module Position {

  datatype Pos = Pos(line: nat, col: nat)

  /** The line of offset `q`, counted from 1. */
  function Line(s: string, q: nat): (n: nat)
    requires q <= |s|
    ensures n >= 1
  {
    if q == 0 then 1 else Line(s, q - 1) + (if s[q - 1] == '\n' then 1 else 0)
  }

  /** The offset at which the line of offset `q` starts. */
  function LineStart(s: string, q: nat): (b: nat)
    requires q <= |s|
    ensures b <= q
    ensures b == 0 || s[b - 1] == '\n'
    ensures forall k :: b <= k < q ==> s[k] != '\n'
  {
    if q == 0 then 0 else if s[q - 1] == '\n' then q else LineStart(s, q - 1)
  }

  /** The true position of offset `q`: both numbers count from 1. */
  function PosAt(s: string, q: nat): Pos
    requires q <= |s|
  {
    Pos(Line(s, q), q - LineStart(s, q) + 1)
  }

  /** Moving over text without a newline moves the column only. */
  lemma {:induction false} PosWithin(s: string, i: nat, j: nat)
    requires i <= j <= |s|
    requires forall k :: i <= k < j ==> s[k] != '\n'
    ensures PosAt(s, j) == Pos(PosAt(s, i).line, PosAt(s, i).col + (j - i))
    decreases j
  {
    if i < j {
      PosWithin(s, i, j - 1);
    }
  }

  /** `pos += range`: count the newlines, then recompute the column from the last one. */
  method Advance(pos: Pos, s: string, i: nat, j: nat) returns (r: Pos)
    requires i <= j <= |s|
    requires pos == PosAt(s, i)
    ensures r == PosAt(s, j)
  {
    var line, last := pos.line, -1;
    var k := i;
    while k < j
      invariant i <= k <= j
      invariant line == Line(s, k)
      invariant last == -1 || (i <= last < k && LineStart(s, k) == last + 1)
      invariant last == -1 ==> LineStart(s, k) == LineStart(s, i)
    {
      if s[k] == '\n' {
        last := k;
        line := line + 1;
      }
      k := k + 1;
    }
    r := Pos(line, if last >= 0 then j - last else pos.col + (j - i));
  }

  /** The offsets at which the lines of `s[..q]` start. */
  function LineStarts(s: string, q: nat): (starts: seq<nat>)
    requires q <= |s|
    ensures |starts| == Line(s, q)
    ensures starts[|starts| - 1] == LineStart(s, q)
  {
    if q == 0 then [0]
    else if s[q - 1] == '\n' then LineStarts(s, q - 1) + [q]
    else LineStarts(s, q - 1)
  }

  /** A line table of the whole text extends the table of each of its prefixes. */
  lemma {:induction false} LineStartsPrefix(s: string, q: nat, r: nat)
    requires q <= r <= |s|
    ensures LineStarts(s, q) <= LineStarts(s, r)
    ensures |LineStarts(s, q)| < |LineStarts(s, r)| ==>
              var e := LineStarts(s, r)[|LineStarts(s, q)|];
              q < e <= r && s[e - 1] == '\n' && forall k :: q <= k < e - 1 ==> s[k] != '\n'
    ensures |LineStarts(s, q)| == |LineStarts(s, r)| ==> forall k :: q <= k < r ==> s[k] != '\n'
    decreases r
  {
    if q < r {
      LineStartsPrefix(s, q, r - 1);
    }
  }

  /** `build_ln_ptrs`. */
  method BuildLinePtrs(s: string) returns (ptrs: seq<nat>)
    ensures ptrs == LineStarts(s, |s|)
  {
    ptrs := [0];
    var ptr := 0;
    while ptr < |s|
      invariant 0 <= ptr <= |s|
      invariant ptrs == LineStarts(s, ptr)
    {
      ptr := ptr + 1;
      if s[ptr - 1] == '\n' {
        ptrs := ptrs + [ptr];
      }
    }
  }
}
