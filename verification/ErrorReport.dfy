/** Verbose error reports: the offending line, rendered, and a caret under the offending
    character. */
module ErrorReport {
  import opened Wrappers
  import opened Chars
  import opened Position

  /** A `char` of the source is a byte. */
  predicate IsBytes(s: string) {
    forall c | c in s :: c as int < 256
  }

  function HexDigit(n: nat): char
    requires n < 16
  {
    if n < 10 then '0' + n as char else 'a' + (n - 10) as char
  }

  /** A number in hexadecimal. */
  function Hex(n: nat): (s: string)
    ensures |s| > 0 && (|s| == 1 <==> n < 16) && (|s| <= 2 <==> n < 256)
  {
    if n < 16 then [HexDigit(n)] else Hex(n / 16) + [HexDigit(n % 16)]
  }

  function Padded(s: string, width: nat): string {
    if |s| >= width then s else "0" + Padded(s, width - 1)
  }

  /** How a character is represented inside a string (`str`) or between single quotes. */
  function ReprText(ch: char, str: bool): (text: string)
    ensures |text| > 0
  {
    if ch == '\\' then "\\\\"
    else if ch == '\U{C}' then "\\f"
    else if ch == '\n' then "\\n"
    else if ch == '\r' then "\\r"
    else if ch == '\t' then "\\t"
    else if ch == '\U{B}' then "\\v"
    else if ch == '"' && str then "\\\""
    else if ch == '\'' && !str then "\\'"
    else if IsPlain(ch) then [ch]
    else "\\x" + Padded(Hex(ch as int), if str then 2 else 1)
  }

  function Piece(c: char): string {
    if IsPlain(c) then [c] else ReprText(c, true)
  }

  // What a representation means to a reader of C.

  function DigitOf(c: char): Option<nat> {
    if '0' <= c <= '9' then Some((c - '0') as nat)
    else if 'a' <= c <= 'f' then Some(10 + (c - 'a') as nat)
    else None
  }

  /** The number that hexadecimal digits denote. */
  function HexValue(s: string): Option<nat> {
    if s == "" then Some(0)
    else
      var high, low := HexValue(s[..|s| - 1]), DigitOf(s[|s| - 1]);
      if high.None? || low.None? then None else Some(16 * high.value + low.value)
  }

  /** The character that an escape sequence of C denotes (section 6.4.4.4 of ISO/IEC
      9899:2011), or the character itself. */
  function Meaning(text: string): Option<int> {
    if |text| == 1 then Some(text[0] as int)
    else if |text| > 2 && text[..2] == "\\x" then
      if HexValue(text[2..]).Some? then Some(HexValue(text[2..]).value) else None
    else if |text| != 2 || text[0] != '\\' then None
    else if text[1] == 'f' then Some(12)
    else if text[1] == 'n' then Some(10)
    else if text[1] == 'r' then Some(13)
    else if text[1] == 't' then Some(9)
    else if text[1] == 'v' then Some(11)
    else if text[1] in "\\\"'" then Some(text[1] as int)
    else None
  }

  lemma {:induction false} HexDenotes(n: nat)
    ensures HexValue(Hex(n)) == Some(n)
  {
    assert DigitOf(HexDigit(n % 16)) == Some(n % 16);
    if n >= 16 {
      HexDenotes(n / 16);
      assert Hex(n)[..|Hex(n)| - 1] == Hex(n / 16);
    } else {
      assert Hex(n)[..0] == "" && HexValue("") == Some(0);
    }
  }

  /** Padding with a zero changes nothing. */
  lemma PaddedDenotes(n: nat, width: nat)
    requires n < 256 && width <= 2
    ensures HexValue(Padded(Hex(n), width)) == Some(n) && |Padded(Hex(n), width)| > 0
  {
    HexDenotes(n);
    if n < 16 {
      assert Hex(n) == [HexDigit(n)] && HexValue("0") == Some(0);
      var padded := "0" + Hex(n);
      assert padded == ['0', HexDigit(n)] && padded[..1] == "0" && "0"[..0] == "";
    }
  }

  /** Every byte is represented by text that means that byte. */
  lemma ReprMeans(c: char, str: bool)
    requires c as int < 256
    ensures Meaning(ReprText(c, str)) == Some(c as int)
  {
    hide Hex, Padded, HexValue;
    var width := if str then 2 else 1;
    var digits := Padded(Hex(c as int), width);
    PaddedDenotes(c as int, width);
    assert ("\\x" + digits)[2..] == digits && ("\\x" + digits)[..2] == "\\x";
  }

  lemma PieceMeans(c: char)
    requires c as int < 256
    ensures Meaning(Piece(c)) == Some(c as int)
  {
    ReprMeans(c, true);
  }

  /** A line as a report shows it. */
  function Rendered(line: string): string {
    if line == [] then "" else Rendered(line[..|line| - 1]) + Piece(line[|line| - 1])
  }

  /** Plain characters are shown as they are. */
  lemma {:induction false} PlainLine(line: string)
    requires forall c | c in line :: IsPlain(c)
    ensures Rendered(line) == line
    decreases |line|
  {
    if line != "" {
      var n := |line| - 1;
      assert line[n] in line && forall c | c in line[..n] :: c in line;
      PlainLine(line[..n]);
      assert line == line[..n] + [line[n]];
    }
  }

  /** The line as a whole cannot always be read back: a backslash that stands in it is shown
      as it is. */
  lemma RenderingIsAmbiguous()
    ensures Rendered("\U{1B}") == Rendered("\\x1b") == "\\x1b"
  {
    hide Rendered;
    PlainLine("\\x1b");
    EscapeLine();
  }

  lemma EscapeLine()
    ensures Rendered("\U{1B}") == "\\x1b"
  {
    assert Hex(27) == Hex(1) + [HexDigit(11)] == "1b";
    assert "\U{1B}"[..0] == "";
    assert Rendered("\U{1B}") == "" + Piece('\U{1B}');
  }

  lemma RenderedNext(s: string, beg: nat, p: nat)
    requires beg <= p < |s|
    ensures Rendered(s[beg..p + 1]) == Rendered(s[beg..p]) + Piece(s[p])
  {
    hide Piece;
    assert s[beg..p + 1][..p - beg] == s[beg..p];
  }

  lemma {:induction false} RenderedGrows(a: string, b: string)
    ensures Rendered(a) <= Rendered(a + b)
    decreases |b|
  {
    if b == [] {
      assert a + b == a;
    } else {
      RenderedGrows(a, b[..|b| - 1]);
      assert (a + b)[..|a + b| - 1] == a + b[..|b| - 1];
    }
  }

  /** Writes representations to a stream and counts what it writes. */
  class ReprPrint {
    var ost: string

    constructor ()
      ensures ost == ""
    {
      ost := "";
    }

    method PrintOut(ch: char) returns (n: nat)
      modifies this
      ensures ost == old(ost) + [ch] && n == 1
    {
      ost := ost + [ch];
      n := 1;
    }

    method PrintOutQuoted(ch: char) returns (n: nat)
      modifies this
      ensures ost == old(ost) + ['\\', ch] && n == 2
    {
      ost := ost + ['\\', ch];
      n := 2;
    }

    method PrintOutHex(ch: char, str: bool) returns (n: nat)
      requires ch as int < 256
      modifies this
      ensures ost == old(ost) + ("\\x" + Padded(Hex(ch as int), if str then 2 else 1))
      ensures n == |"\\x" + Padded(Hex(ch as int), if str then 2 else 1)|
    {
      ost := ost + ("\\x" + Padded(Hex(ch as int), if str then 2 else 1));
      n := 3 + (if str || ch >= '\U{10}' then 1 else 0);
    }

    /** The width returned is the number of characters written. */
    method Repr(ch: char, str: bool) returns (n: nat)
      requires ch as int < 256
      modifies this
      ensures ost == old(ost) + ReprText(ch, str) && n == |ReprText(ch, str)|
    {
      match ch {
        case '\\' => n := PrintOutQuoted('\\');
        case '\U{C}' => n := PrintOutQuoted('f');
        case '\n' => n := PrintOutQuoted('n');
        case '\r' => n := PrintOutQuoted('r');
        case '\t' => n := PrintOutQuoted('t');
        case '\U{B}' => n := PrintOutQuoted('v');
        case '"' =>
          if str {
            n := PrintOutQuoted('"');
          } else {
            n := PrintOut(ch);
          }
        case '\'' =>
          if !str {
            n := PrintOutQuoted('\'');
          } else {
            n := PrintOut(ch);
          }
        case _ =>
          if IsAscii(ch) && !IsCntrl(ch) {
            n := PrintOut(ch);
          } else {
            n := PrintOutHex(ch, str);
          }
      }
    }
  }

  /** `quote_non_plain`: the rendered line, and how many columns rendering adds before `ptr`. */
  method QuoteNonPlain(s: string, beg: nat, end: nat, ptr: nat) returns (text: string, n: nat)
    requires beg <= ptr <= end <= |s| && IsBytes(s)
    ensures text == Rendered(s[beg..end])
    ensures ptr - beg + n == |Rendered(s[beg..ptr])|
  {
    hide Rendered, ReprText;
    assert s[beg..beg] == [] && Rendered([]) == "" by {
      RenderedNothing();
    }
    var repr := new ReprPrint();
    n := 0;
    var p := beg;
    while p < end
      invariant beg <= p <= end
      invariant fresh(repr) && repr.ost == Rendered(s[beg..p])
      invariant p <= ptr ==> p - beg + n == |Rendered(s[beg..p])|
      invariant p > ptr ==> ptr - beg + n == |Rendered(s[beg..ptr])|
    {
      RenderedNext(s, beg, p);
      assert s[p] in s;
      if !IsPlain(s[p]) {
        var r := repr.Repr(s[p], true);
        if p < ptr {
          n := n + r - 1;
        }
      } else {
        repr.ost := repr.ost + [s[p]];
      }
      p := p + 1;
    }
    text := repr.ost;
  }

  lemma RenderedNothing()
    ensures Rendered("") == ""
  {
  }

  function Blanks(n: nat): (s: string)
    ensures |s| == n
  {
    seq(n, _ => ' ')
  }

  /** The end of the line that holds offset `q`, without its newline. */
  function LineEnd(s: string, q: nat): (e: nat)
    requires q <= |s|
    ensures q <= e <= |s|
  {
    q + Span(NotNewline, s[q..])
  }

  /** The offset that a position names. */
  lemma PosNamesOffset(s: string, q: nat)
    requires q <= |s|
    ensures var p, starts := PosAt(s, q), LineStarts(s, |s|);
            && 0 < p.line <= |starts| && p.col > 0 && starts[p.line - 1] + (p.col - 1) == q
            && starts[p.line - 1] == LineStart(s, q)
            && var end := if p.line < |starts| then starts[p.line] else |s|;
               && q <= LineEnd(s, q) <= end <= |s|
               && LineEnd(s, q) == if end > starts[p.line - 1] && s[end - 1] == '\n' then end - 1 else end
  {
    hide Line, LineStart, LineStarts, LineEnd;
    LineStartsPrefix(s, q, |s|);
    var p, starts := PosAt(s, q), LineStarts(s, |s|);
    assert LineStarts(s, q)[p.line - 1] == starts[p.line - 1];
    LineEndIs(s, q, if p.line < |starts| then starts[p.line] - 1 else |s|);
  }

  lemma LineEndIs(s: string, q: nat, e: nat)
    requires q <= e <= |s| && (forall k :: q <= k < e ==> s[k] != '\n') && (e < |s| ==> s[e] == '\n')
    ensures LineEnd(s, q) == e
  {
    assert forall k :: 0 <= k < |s| - q ==> s[q..][k] == s[q + k];
    SpanIs(NotNewline, s[q..], e - q);
  }

  /** No two offsets share a position. */
  lemma PositionsAreDistinct(s: string, p: nat, q: nat)
    requires p <= |s| && q <= |s| && PosAt(s, p) == PosAt(s, q)
    ensures p == q
  {
    hide PosAt, LineStart, LineStarts, LineEnd;
    PosNamesOffset(s, p);
    PosNamesOffset(s, q);
  }

  /** The bounds of the line that a position is on, from the table of lines. */
  method LineBounds(s: string, pos: Pos, lnPtrs: seq<nat>, ghost q: nat) returns (beg: nat, end: nat)
    requires q <= |s| && pos == PosAt(s, q) && lnPtrs == LineStarts(s, |s|)
    ensures beg == LineStart(s, q) && end == LineEnd(s, q) && beg + (pos.col - 1) == q
  {
    hide PosAt, LineStart, LineStarts, LineEnd;
    PosNamesOffset(s, q);
    assert |lnPtrs| > 0;
    assert pos.col > 0;
    assert 0 < pos.line <= |lnPtrs|;
    beg := lnPtrs[pos.line - 1];
    end := if pos.line < |lnPtrs| then lnPtrs[pos.line] else |s|;
    assert beg <= q <= end <= |s|;
    if end > beg && s[end - 1] == '\n' {
      end := end - 1;
    }
  }

  /** `verror`, verbosely, for the true position of offset `q`: none of its assertions can
      fail, the line shown is the line of `q`, and the caret stands right after the
      rendering of what comes before `q` on that line. */
  method VError(s: string, pos: Pos, ghost q: nat) returns (line: string, caret: string)
    requires q <= |s| && pos == PosAt(s, q) && IsBytes(s)
    ensures line == Rendered(s[LineStart(s, q)..LineEnd(s, q)])
    ensures caret == Blanks(|Rendered(s[LineStart(s, q)..q])|) + "^"
    ensures Rendered(s[LineStart(s, q)..q]) <= line
  {
    hide Rendered, PosAt, LineStart, LineStarts, LineEnd;
    var lnPtrs := BuildLinePtrs(s);
    var beg, end := LineBounds(s, pos, lnPtrs, q);
    var ptr := beg + (pos.col - 1);
    var quoted, n := QuoteNonPlain(s, beg, end, ptr);
    assert s[beg..ptr] + s[ptr..end] == s[beg..end];
    RenderedGrows(s[beg..ptr], s[ptr..end]);
    return quoted, Blanks(pos.col - 1 + n) + "^";
  }
}
