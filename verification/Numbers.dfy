/** Decimal numbers, integer formats, and the range-checked conversions between them. */
module Numbers {
  import opened Chars
  import opened Wrappers

  function Pow2(n: nat): (p: nat)
    ensures p >= 1
  {
    if n == 0 then 1 else 2 * Pow2(n - 1)
  }

  lemma {:induction false} Pow2Increases(m: nat, n: nat)
    requires m <= n
    ensures Pow2(m) <= Pow2(n)
    ensures m < n ==> 2 * Pow2(m) <= Pow2(n)
    decreases n
  {
    if m < n {
      Pow2Increases(m, n - 1);
    }
  }

  /** An integer type: its signedness and its number of value bits. */
  datatype Format = Format(signed: bool, digits: nat) {
    function Min(): int {
      if signed then 0 - Pow2(digits) else 0
    }

    function Max(): int {
      Pow2(digits) - 1
    }

    predicate Holds(v: int) {
      Min() <= v <= Max()
    }

    /** The formats C++ has: `bool`, and signed and unsigned types of whole bytes. */
    predicate Real() {
      || (!signed && digits == 1)
      || (digits > 1 && (if signed then digits + 1 else digits) % 8 == 0)
    }
  }

  const ULONGLONG := Format(false, 64)
  const UCHAR := Format(false, 8)

  /** `check_limits<R, V>`, one case for each of its overloads. */
  predicate CheckLimits(r: Format, f: Format, v: int) {
    if r.digits == f.digits then true
    else if r.signed == f.signed then
      if r.digits > f.digits then true
      else if !r.signed then v <= r.Max()
      else r.Min() <= v <= r.Max()
    else if !r.signed then
      if r.digits > f.digits then 0 <= v
      else 0 <= v <= r.Max()
    else
      if r.digits > f.digits then true
      else v <= r.Max()
  }

  /** A value of one real format passes the check of another exactly when the other
      represents it. */
  lemma CheckLimitsIsRepresentable(r: Format, f: Format, v: int)
    requires r.Real() && f.Real() && f.Holds(v)
    ensures CheckLimits(r, f, v) <==> r.Holds(v)
  {
    if r.digits <= f.digits {
      Pow2Increases(r.digits, f.digits);
    } else {
      Pow2Increases(f.digits, r.digits);
    }
  }

  /** The first overload compares digits only: beyond the real formats it accepts values
      that do not fit. */
  lemma CheckLimitsNeedsRealFormats()
    ensures exists r: Format, f: Format, v :: f.Holds(v) && CheckLimits(r, f, v) && !r.Holds(v)
  {
    var r, f := Format(false, 1), Format(true, 1);
    assert f.Holds(-1) && CheckLimits(r, f, -1) && !r.Holds(-1);
  }

  predicate AllDigits(s: string) {
    |s| > 0 && forall k :: 0 <= k < |s| ==> IsDigit(s[k])
  }

  function DigitValue(c: char): nat
    requires IsDigit(c)
  {
    (c - '0') as int
  }

  /** The number that a run of decimal digits denotes. */
  function DecValue(s: string): nat
    requires forall k :: 0 <= k < |s| ==> IsDigit(s[k])
  {
    if s == [] then 0 else 10 * DecValue(s[..|s| - 1]) + DigitValue(s[|s| - 1])
  }

  /** The decimal digits of a number, as an output stream writes them. */
  function Dec(n: nat): (s: string)
    ensures AllDigits(s)
  {
    (if n < 10 then [] else Dec(n / 10)) + ['0' + (n % 10) as char]
  }

  lemma {:induction false} DecValueOfDec(n: nat)
    ensures DecValue(Dec(n)) == n
  {
    if n >= 10 {
      DecValueOfDec(n / 10);
      assert Dec(n)[..|Dec(n)| - 1] == Dec(n / 10);
    } else {
      assert Dec(n)[..0] == [];
    }
  }

  /** And they have no leading zeros. */
  lemma {:induction false} DecHasNoLeadingZero(n: nat)
    ensures Dec(n)[0] == '0' <==> n == 0
    ensures n == 0 ==> Dec(n) == "0"
    decreases n
  {
    if n >= 10 {
      DecHasNoLeadingZero(n / 10);
      assert Dec(n)[0] == Dec(n / 10)[0];
    }
  }

  datatype NumError = Invalid | Range

  /** The sign of an optional sign and digits: how many characters it takes, and its factor. */
  function SignOf(str: string): (nat, int) {
    if str != [] && str[0] == '-' then (1, -1)
    else if str != [] && str[0] == '+' then (1, 1)
    else (0, 1)
  }

  /** What `parse_num` reads: digits, after a sign if the type is signed. */
  predicate IsNumeral(str: string, signed: bool) {
    var n := if signed then SignOf(str).0 else 0;
    n <= |str| && AllDigits(str[n..])
  }

  function NumeralValue(str: string, signed: bool): int
    requires IsNumeral(str, signed)
  {
    if signed then SignOf(str).1 * DecValue(str[SignOf(str).0..]) else DecValue(str)
  }

  const LONGLONG := Format(true, 63)

  /** The digits at the front of a text, accumulated; at most one step past a limit. */
  method Digits(str: string, limit: nat) returns (val: nat, end: nat, over: bool)
    ensures end == Span(IsDigit, str)
    ensures over <==> DecValue(str[..end]) > limit
    ensures !over ==> val == DecValue(str[..end])
  {
    val, end, over := 0, 0, false;
    while end < |str| && IsDigit(str[end])
      invariant 0 <= end <= |str|
      invariant forall k :: 0 <= k < end ==> IsDigit(str[k])
      invariant over == (DecValue(str[..end]) > limit)
      invariant !over ==> val == DecValue(str[..end])
    {
      assert str[..end + 1][..end] == str[..end];
      val := 10 * val + DigitValue(str[end]);
      over := over || val > limit;
      end := end + 1;
    }
    SpanIs(IsDigit, str, end);
  }

  /** `strtoull(str, &end, 10)` (section 7.22.1.4 of ISO/IEC 9899:2011) on text that
      starts with a digit: the value and the unread rest, or a range error. */
  method StrToULL(str: string) returns (r: Result<(nat, string), NumError>)
    requires str != [] && IsDigit(str[0])
    ensures var n := Span(IsDigit, str);
            r == if ULONGLONG.Holds(DecValue(str[..n])) then Success((DecValue(str[..n]), str[n..]))
                 else Failure(Range)
  {
    var val, end, over := Digits(str, ULONGLONG.Max());
    return if over then Failure(Range) else Success((val, str[end..]));
  }

  /** `strtoll(str, &end, 10)` on text that starts with a digit or a sign; without digits
      nothing is read. */
  method StrToLL(str: string) returns (r: Result<(int, string), NumError>)
    requires str != [] && (IsDigit(str[0]) || str[0] == '-' || str[0] == '+')
    ensures var (s, f) := SignOf(str);
            var n := Span(IsDigit, str[s..]);
            var v := f * DecValue(str[s..][..n]);
            r == if n == 0 then Success((0, str))
                 else if LONGLONG.Holds(v) then Success((v, str[s..][n..]))
                 else Failure(Range)
  {
    var (s, f) := SignOf(str);
    var t := str[s..];
    var val, end, over := Digits(t, if f < 0 then 0 - LONGLONG.Min() else LONGLONG.Max());
    if end == 0 {
      return Success((0, str));
    }
    return if over then Failure(Range) else Success((f * val, t[end..]));
  }

  /** `parse_num<T>` on a C string, through the widest type of the sign of `T`. */
  method ParseNum(str: string, fmt: Format) returns (r: Result<int, NumError>)
    requires fmt.Real() && fmt.digits <= if fmt.signed then 63 else 64
    ensures IsNumeral(str, fmt.signed) ==>
              var v := NumeralValue(str, fmt.signed);
              r == if fmt.Holds(v) then Success(v) else Failure(Range)
    ensures r.Success? ==> IsNumeral(str, fmt.signed)
  {
    var val: int, end: string;
    if fmt.signed {
      if str == [] || !(IsDigit(str[0]) || str[0] == '-' || str[0] == '+') {
        return Failure(Invalid);
      }
      WholeText(str[SignOf(str).0..]);
      LongEnough(fmt, LONGLONG);
      var parsed :- StrToLL(str);
      val, end := parsed.0, parsed.1;
      if end == str {
        return Failure(Invalid);
      }
    } else {
      if str == [] || !IsDigit(str[0]) {
        return Failure(Invalid);
      }
      WholeText(str);
      LongEnough(fmt, ULONGLONG);
      var parsed :- StrToULL(str);
      val, end := parsed.0, parsed.1;
    }
    var wide := if fmt.signed then LONGLONG else ULONGLONG;
    CheckLimitsIsRepresentable(fmt, wide, val);
    if !CheckLimits(fmt, wide, val) {
      return Failure(Range);
    }
    if end != [] {
      return Failure(Invalid);
    }
    return Success(val);
  }

  lemma WholeText(t: string)
    ensures var n := Span(IsDigit, t); AllDigits(t) <==> |t| > 0 && n == |t|
    ensures t[..|t|] == t && t[|t|..] == []
  {
    if AllDigits(t) {
      SpanIs(IsDigit, t, |t|);
    }
  }

  /** The widest type holds what a narrower one of its sign holds. */
  lemma LongEnough(fmt: Format, wide: Format)
    requires fmt.signed == wide.signed && fmt.digits <= wide.digits
    ensures forall v :: fmt.Holds(v) ==> wide.Holds(v)
  {
    Pow2Increases(fmt.digits, wide.digits);
  }
}
