/** The character classes of the C locale, as the scanner uses them. */
module Chars {

  predicate IsAscii(c: char) {
    c < '\U{80}'
  }

  predicate IsCntrl(c: char) {
    c < ' ' || c == '\U{7F}'
  }

  // tab, newline, vertical tab, form feed, carriage return and blank
  predicate IsSpace(c: char) {
    '\U{9}' <= c <= '\U{D}' || c == ' '
  }

  predicate IsDigit(c: char) {
    '0' <= c <= '9'
  }

  predicate IsLower(c: char) {
    'a' <= c <= 'z'
  }

  predicate IsAlpha(c: char) {
    IsLower(c) || 'A' <= c <= 'Z'
  }

  predicate IsIdent0(c: char) {
    IsAlpha(c) || c == '_'
  }

  predicate IsIdent(c: char) {
    IsIdent0(c) || IsDigit(c)
  }

  predicate IsName(c: char) {
    IsLower(c) || IsDigit(c) || c == '_'
  }

  predicate IsPlain(c: char) {
    IsAscii(c) && !IsCntrl(c)
  }

  /** The classes of section 7.4.1 of ISO/IEC 9899:2011, by character code. */
  lemma ClassesAreListed(c: char)
    ensures var n := c as int;
            && (IsSpace(c) <==> n in {9, 10, 11, 12, 13, 32})
            && (IsDigit(c) <==> 48 <= n <= 57) && (IsLower(c) <==> 97 <= n <= 122)
            && (IsAlpha(c) <==> 65 <= n <= 90 || 97 <= n <= 122)
            && (IsIdent0(c) <==> 65 <= n <= 90 || n == 95 || 97 <= n <= 122)
            && (IsIdent(c) <==> 48 <= n <= 57 || 65 <= n <= 90 || n == 95 || 97 <= n <= 122)
            && (IsName(c) <==> 48 <= n <= 57 || n == 95 || 97 <= n <= 122)
            && (IsCntrl(c) <==> n < 32 || n == 127) && (IsPlain(c) <==> 32 <= n < 127)
  {
  }

  predicate NotNewline(c: char) {
    c != '\n'
  }

  predicate IsQuote(c: char) {
    c == '\'' || c == '"'
  }

  /** The number of leading characters of `t` that satisfy `p`. */
  function Span(p: char -> bool, t: string): (n: nat)
    ensures n <= |t|
    ensures forall k :: 0 <= k < n ==> p(t[k])
    ensures n < |t| ==> !p(t[n])
  {
    if |t| > 0 && p(t[0]) then 1 + Span(p, t[1..]) else 0
  }

  lemma SpanIs(p: char -> bool, t: string, n: nat)
    requires n <= |t|
    requires forall k :: 0 <= k < n ==> p(t[k])
    requires n < |t| ==> !p(t[n])
    ensures Span(p, t) == n
  {
  }

  /** `std::find_if` over `s[i..]` for the first character outside `p`. */
  method FindIfNot(s: string, i: nat, p: char -> bool) returns (j: nat)
    requires i <= |s|
    ensures i <= j <= |s|
    ensures j == i + Span(p, s[i..])
    ensures forall k :: i <= k < j ==> p(s[k])
    ensures j < |s| ==> !p(s[j])
  {
    j := i;
    while j < |s| && p(s[j])
      invariant i <= j <= |s|
      invariant forall k :: i <= k < j ==> p(s[k])
    {
      j := j + 1;
    }
    SpanIs(p, s[i..], j - i);
  }
}
