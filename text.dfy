/** The Rust standard-library string operations the core relies on, as
    functions on `seq<char>`: `char::is_whitespace`, `str::trim`,
    `str::split(c)`, `str::lines`, `str::split_whitespace().next()`,
    ASCII lowercasing, `str::contains` and `usize::from_str`, plus the
    decimal formatting of an integer by `{}`. */
module Text {
  import opened Wrappers

  // ---------------------------------------------------------------------
  // Whitespace and trimming
  // ---------------------------------------------------------------------

  /** `char::is_whitespace`: the Unicode White_Space property. */
  predicate IsWhitespace(c: char) {
    || ('\t' <= c <= '\r')
    || c == ' '
    || c == '\U{0085}'
    || c == '\U{00A0}'
    || c == '\U{1680}'
    || ('\U{2000}' <= c <= '\U{200A}')
    || c == '\U{2028}'
    || c == '\U{2029}'
    || c == '\U{202F}'
    || c == '\U{205F}'
    || c == '\U{3000}'
  }

  predicate AllWhitespace(s: string) {
    forall i :: 0 <= i < |s| ==> IsWhitespace(s[i])
  }

  predicate NoWhitespace(s: string) {
    forall i :: 0 <= i < |s| ==> !IsWhitespace(s[i])
  }

  /** `str::trim_start`: drops the longest all-whitespace prefix. */
  function TrimStart(s: string): (r: string)
    ensures |r| <= |s| && r == s[|s| - |r|..]
    ensures AllWhitespace(s[..|s| - |r|])
    ensures r == [] || !IsWhitespace(r[0])
    decreases |s|
  {
    if s != [] && IsWhitespace(s[0]) then
      var r := TrimStart(s[1..]);
      assert s[..|s| - |r|] == [s[0]] + s[1..][..|s| - 1 - |r|];
      r
    else
      s
  }

  /** `str::trim_end`: drops the longest all-whitespace suffix. */
  function TrimEnd(s: string): (r: string)
    ensures |r| <= |s| && r == s[..|r|]
    ensures AllWhitespace(s[|r|..])
    ensures r == [] || !IsWhitespace(r[|r| - 1])
    decreases |s|
  {
    if s != [] && IsWhitespace(s[|s| - 1]) then
      var r := TrimEnd(s[..|s| - 1]);
      assert s[|r|..] == s[..|s| - 1][|r|..] + [s[|s| - 1]];
      r
    else
      s
  }

  /** `r` is a contiguous slice of `s` with only whitespace around it. */
  predicate IsInnerSlice(s: string, r: string) {
    exists i :: 0 <= i && i + |r| <= |s| && r == s[i..i + |r|]
                && AllWhitespace(s[..i]) && AllWhitespace(s[i + |r|..])
  }

  /** `str::trim`: the input with its whitespace border removed on both
      sides; what is left is a contiguous slice of the input. */
  function Trim(s: string): (r: string)
    ensures |r| <= |s|
    ensures r == [] || (!IsWhitespace(r[0]) && !IsWhitespace(r[|r| - 1]))
  {
    var t := TrimStart(s);
    var r := TrimEnd(t);
    assert r == [] || r[0] == t[0];
    r
  }

  /** What `trim` keeps is a slice of its input with only whitespace
      around it. */
  lemma TrimIsInnerSlice(s: string)
    ensures IsInnerSlice(s, Trim(s))
  {
    var t := TrimStart(s);
    TrimSlices(s, t, TrimEnd(t));
  }

  /** A prefix of a suffix is a slice, with the borders around it. */
  lemma TrimSlices(s: string, t: string, r: string)
    requires |t| <= |s| && t == s[|s| - |t|..] && AllWhitespace(s[..|s| - |t|])
    requires t == [] || !IsWhitespace(t[0])
    requires |r| <= |t| && r == t[..|r|] && AllWhitespace(t[|r|..])
    requires r == [] || !IsWhitespace(r[|r| - 1])
    ensures IsInnerSlice(s, r)
    ensures r == [] || (!IsWhitespace(r[0]) && !IsWhitespace(r[|r| - 1]))
  {
    var i := |s| - |t|;
    assert s[i + |r|..] == t[|r|..];
    assert r == s[i..i + |r|];
    if r != [] {
      assert r[0] == t[0];
    }
  }

  /** Trimming a string that has no whitespace border and is followed by
      whitespace (the line ending `read_line` keeps) gives that string back. */
  lemma {:induction false} TrimPadded(s: string, pad: string)
    requires s != [] && !IsWhitespace(s[0]) && !IsWhitespace(s[|s| - 1])
    requires AllWhitespace(pad)
    ensures Trim(s + pad) == s
  {
    assert TrimStart(s + pad) == s + pad;
    TrimEndPadded(s, pad);
  }

  lemma {:induction false} TrimEndPadded(s: string, pad: string)
    requires s != [] && !IsWhitespace(s[|s| - 1])
    requires AllWhitespace(pad)
    ensures TrimEnd(s + pad) == s
    decreases |pad|
  {
    if pad == [] {
      assert s + pad == s;
    } else {
      var shorter := pad[..|pad| - 1];
      assert (s + pad)[..|s + pad| - 1] == s + shorter;
      TrimEndPadded(s, shorter);
    }
  }

  // ---------------------------------------------------------------------
  // Lowercasing and substring search
  // ---------------------------------------------------------------------

  /** Lowercase mapping of one character, restricted to ASCII letters. */
  function ToLowerChar(c: char): char {
    if 'A' <= c <= 'Z' then (c as int + 32) as char else c
  }

  /** `str::to_lowercase`, restricted to ASCII: maps every character on its own. */
  function ToLower(s: string): (r: string)
    ensures |r| == |s|
    ensures forall i :: 0 <= i < |s| ==> r[i] == ToLowerChar(s[i])
  {
    if s == [] then [] else [ToLowerChar(s[0])] + ToLower(s[1..])
  }

  /** Lowercasing twice is lowercasing once. */
  lemma ToLowerIdempotent(s: string)
    ensures ToLower(ToLower(s)) == ToLower(s)
  {
    var once := ToLower(s);
    assert forall i :: 0 <= i < |s| ==> ToLowerChar(once[i]) == once[i];
  }

  predicate OccursAt(haystack: string, needle: string, i: nat) {
    i + |needle| <= |haystack| && haystack[i..i + |needle|] == needle
  }

  /** `str::contains` with a string pattern. */
  predicate Contains(haystack: string, needle: string) {
    exists i | 0 <= i <= |haystack| :: OccursAt(haystack, needle, i)
  }

  /** Every string contains the empty string. */
  lemma ContainsEmpty(haystack: string)
    ensures Contains(haystack, [])
  {
    assert OccursAt(haystack, [], 0);
  }

  /** A string contains every infix of a concatenation it is the middle of. */
  lemma ContainsInfix(before: string, middle: string, after: string)
    ensures Contains(before + middle + after, middle)
  {
    var s := before + middle + after;
    assert s[|before|..|before| + |middle|] == middle;
    assert OccursAt(s, middle, |before|);
  }

  /** The parts of a text built as a head, a middle and a tail. */
  lemma PartsOfFramed(head: string, middle: string, tail: string)
    ensures var p := head + (middle + tail);
      && |p| == |head| + |middle| + |tail|
      && p[..|head|] == head
      && p[|head|..] == middle + tail
      && p[|head|..|head| + |middle|] == middle
      && p[|p| - |tail|..] == tail
  {
    var p := head + (middle + tail);
    assert p[|head|..] == middle + tail;
    assert (middle + tail)[..|middle|] == middle;
    assert (middle + tail)[|middle|..] == tail;
  }

  /** With a fixed head and tail, a framed text determines its middle. */
  lemma FramedMiddle(head: string, m1: string, m2: string, tail: string)
    requires head + (m1 + tail) == head + (m2 + tail)
    ensures m1 == m2
  {
    PartsOfFramed(head, m1, tail);
    PartsOfFramed(head, m2, tail);
  }

  // ---------------------------------------------------------------------
  // Splitting on a separator
  // ---------------------------------------------------------------------

  /** `str::split(sep)`: the maximal separator-free pieces, in order; there
      is always at least one piece (the empty string splits into [""]). */
  function SplitOn(s: string, sep: char): (parts: seq<string>)
    ensures |parts| >= 1
    ensures forall i :: 0 <= i < |parts| ==> sep !in parts[i]
    decreases |s|
  {
    if s == [] then [[]]
    else if s[0] == sep then [[]] + SplitOn(s[1..], sep)
    else
      var rest := SplitOn(s[1..], sep);
      [[s[0]] + rest[0]] + rest[1..]
  }

  /** The pieces put back together with the separator between them. */
  function JoinWith(parts: seq<string>, sep: char): string
    requires |parts| >= 1
  {
    if |parts| == 1 then parts[0] else parts[0] + [sep] + JoinWith(parts[1..], sep)
  }

  lemma JoinWithConsFirst(c: char, parts: seq<string>, sep: char)
    requires |parts| >= 1
    ensures JoinWith([[c] + parts[0]] + parts[1..], sep) == [c] + JoinWith(parts, sep)
  {
    var ps := [[c] + parts[0]] + parts[1..];
    assert ps[1..] == parts[1..];
  }

  /** Splitting loses nothing: joining the pieces gives the input back. */
  lemma {:induction false} SplitJoin(s: string, sep: char)
    ensures JoinWith(SplitOn(s, sep), sep) == s
    decreases |s|
  {
    if s == [] {
    } else if s[0] == sep {
      SplitJoin(s[1..], sep);
      var ps := [[]] + SplitOn(s[1..], sep);
      assert ps[1..] == SplitOn(s[1..], sep);
      assert s == [sep] + s[1..];
    } else {
      SplitJoin(s[1..], sep);
      JoinWithConsFirst(s[0], SplitOn(s[1..], sep), sep);
      assert s == [s[0]] + s[1..];
    }
  }

  /** A join of several pieces is the join of all but the last, the
      separator and the last piece. */
  lemma {:induction false} JoinWithLast(parts: seq<string>, sep: char)
    requires |parts| >= 2
    ensures JoinWith(parts, sep)
         == JoinWith(parts[..|parts| - 1], sep) + [sep] + parts[|parts| - 1]
  {
    if |parts| == 2 {
      assert parts[..1] == [parts[0]];
    } else {
      JoinWithLast(parts[1..], sep);
      assert parts[1..][..|parts| - 2] == parts[..|parts| - 1][1..];
    }
  }

  /** `s.split(sep).last()`; `last` of a split never fails, because a split
      has at least one piece. */
  function LastSegment(s: string, sep: char): (r: string)
    ensures sep !in r
    ensures |r| <= |s| && s == s[..|s| - |r|] + r
    ensures |r| == |s| || s[|s| - |r| - 1] == sep
  {
    var parts := SplitOn(s, sep);
    var r := parts[|parts| - 1];
    SplitJoin(s, sep);
    if |parts| >= 2 then JoinWithLast(parts, sep); r else r
  }

  // ---------------------------------------------------------------------
  // Lines
  // ---------------------------------------------------------------------

  function StripCarriageReturn(line: string): string {
    if line != [] && line[|line| - 1] == '\r' then line[..|line| - 1] else line
  }

  /** `str::lines`: pieces between '\n'; a line ended by "\r\n" loses the
      '\r'; a final line ending does not start an extra empty line
      (`LinesCrLf`, `LinesFinalNewline`). */
  function Lines(s: string): (lines: seq<string>)
    ensures forall i :: 0 <= i < |lines| ==> '\n' !in lines[i]
    ensures |lines| <= |SplitOn(s, '\n')| <= |lines| + 1
  {
    var parts := SplitOn(s, '\n');
    var n := |parts|;
    var ended := seq(n - 1, i requires 0 <= i < n - 1 => StripCarriageReturn(parts[i]));
    assert forall i :: 0 <= i < n - 1 ==> '\n' !in ended[i] by {
      forall i | 0 <= i < n - 1 ensures '\n' !in ended[i] {
        assert '\n' !in parts[i];
      }
    }
    ended + (if parts[n - 1] == [] then [] else [parts[n - 1]])
  }

  /** Each line followed by its '\n', concatenated: the text a program that
      prints one line per `println!` writes. */
  function UnlinesTerminated(lines: seq<string>): string {
    if lines == [] then [] else lines[0] + "\n" + UnlinesTerminated(lines[1..])
  }

  lemma {:induction false} SplitOnAfterSeparatorFree(a: string, sep: char, b: string)
    requires sep !in a
    ensures SplitOn(a + [sep] + b, sep) == [a] + SplitOn(b, sep)
    decreases |a|
  {
    if a == [] {
      assert a + [sep] + b == [sep] + b;
      assert ([sep] + b)[1..] == b;
    } else {
      var s := a + [sep] + b;
      assert s[0] == a[0] && s[1..] == a[1..] + [sep] + b;
      SplitOnAfterSeparatorFree(a[1..], sep, b);
      assert [a[0]] + a[1..] == a;
    }
  }

  /** Text without the separator is a single piece. */
  lemma {:induction false} NoSeparatorSplit(s: string, sep: char)
    requires sep !in s
    ensures SplitOn(s, sep) == [s]
    decreases |s|
  {
    if s != [] {
      NoSeparatorSplit(s[1..], sep);
      assert [s[0]] + s[1..] == s;
    }
  }

  lemma {:induction false} SplitUnlines(lines: seq<string>)
    requires forall i :: 0 <= i < |lines| ==> '\n' !in lines[i]
    ensures SplitOn(UnlinesTerminated(lines), '\n') == lines + [[]]
    decreases |lines|
  {
    if lines != [] {
      SplitUnlines(lines[1..]);
      SplitOnAfterSeparatorFree(lines[0], '\n', UnlinesTerminated(lines[1..]));
      assert lines[0] + "\n" + UnlinesTerminated(lines[1..])
          == lines[0] + ['\n'] + UnlinesTerminated(lines[1..]);
      assert lines == [lines[0]] + lines[1..];
    }
  }

  /** `lines` undoes printing lines one per row: the round trip holds for
      lines that hold no '\n' and do not end in '\r'. */
  lemma LinesOfUnlines(lines: seq<string>)
    requires forall i :: 0 <= i < |lines| ==> '\n' !in lines[i]
    requires forall i :: 0 <= i < |lines| ==> lines[i] == [] || lines[i][|lines[i]| - 1] != '\r'
    ensures Lines(UnlinesTerminated(lines)) == lines
  {
    SplitUnlines(lines);
  }

  /** Taking one line off the front: the text up to the first '\n' becomes
      the first line, without a '\r' that ends it. */
  lemma LinesCons(a: string, b: string)
    requires '\n' !in a
    ensures Lines(a + "\n" + b) == [StripCarriageReturn(a)] + Lines(b)
  {
    SplitOnAfterSeparatorFree(a, '\n', b);
    assert a + "\n" + b == a + ['\n'] + b;
    var pb := SplitOn(b, '\n');
    var parts := [a] + pb;
    var n := |parts|;
    var ended := seq(n - 1, i requires 0 <= i < n - 1 => StripCarriageReturn(parts[i]));
    var endedB := seq(|pb| - 1, i requires 0 <= i < |pb| - 1 => StripCarriageReturn(pb[i]));
    assert ended == [StripCarriageReturn(a)] + endedB;
    assert parts[n - 1] == pb[|pb| - 1];
  }

  /** A line ended by "\r\n" loses its '\r'. */
  lemma LinesCrLf(a: string, b: string)
    requires '\n' !in a
    ensures Lines(a + "\r\n" + b) == [a] + Lines(b)
  {
    assert a + "\r\n" + b == (a + "\r") + "\n" + b;
    LinesCons(a + "\r", b);
    assert (a + "\r")[..|a|] == a;
  }

  /** A final '\n' does not start an extra empty line: a non-empty line
      reads the same with or without its terminator. */
  lemma LinesFinalNewline(a: string)
    requires '\n' !in a && a != [] && a[|a| - 1] != '\r'
    ensures Lines(a + "\n") == Lines(a) == [a]
  {
    LinesCons(a, []);
    assert a + "\n" + [] == a + "\n";
    NoSeparatorSplit(a, '\n');
  }

  // ---------------------------------------------------------------------
  // Whitespace-separated tokens
  // ---------------------------------------------------------------------

  /** The longest whitespace-free prefix. */
  function TakeToken(s: string): (t: string)
    ensures |t| <= |s| && t == s[..|t|]
    ensures NoWhitespace(t)
    ensures |t| == |s| || IsWhitespace(s[|t|])
  {
    if s == [] || IsWhitespace(s[0]) then [] else [s[0]] + TakeToken(s[1..])
  }

  /** `tok` is a maximal whitespace-free run of `line` with only whitespace
      before it. */
  predicate IsLeadingToken(line: string, tok: string) {
    exists i :: 0 <= i && i + |tok| <= |line|
      && AllWhitespace(line[..i]) && line[i..i + |tok|] == tok
      && (i + |tok| == |line| || IsWhitespace(line[i + |tok|]))
  }

  /** `line.split_whitespace().next()`: the first maximal run of
      non-whitespace characters, or None when the line is blank. */
  function FirstToken(line: string): (tok: Option<string>)
    ensures tok.None? <==> AllWhitespace(line)
    ensures tok.Some? ==> tok.value != [] && NoWhitespace(tok.value)
  {
    var rest := TrimStart(line);
    if rest == [] then
      assert line[..|line|] == line;
      None
    else
      var t := TakeToken(rest);
      assert t[0] == rest[0];
      Some(t)
  }

  /** The first token sits after the leading whitespace and runs up to the
      next whitespace character or the end of the line. */
  lemma FirstTokenIsLeading(line: string)
    requires FirstToken(line).Some?
    ensures IsLeadingToken(line, FirstToken(line).value)
  {
    var rest := TrimStart(line);
    var t := TakeToken(rest);
    var i := |line| - |rest|;
    assert line[i..i + |t|] == t;
  }

  // ---------------------------------------------------------------------
  // Decimal numbers
  // ---------------------------------------------------------------------

  predicate IsDigit(c: char) {
    '0' <= c <= '9'
  }

  predicate AllDigits(s: string) {
    forall i :: 0 <= i < |s| ==> IsDigit(s[i])
  }

  /** The value of a string of decimal digits, most significant first. */
  function DigitsValue(ds: string): nat
    requires AllDigits(ds)
  {
    if ds == [] then 0
    else DigitsValue(ds[..|ds| - 1]) * 10 + (ds[|ds| - 1] as int - '0' as int)
  }

  /** One past the largest `usize` of a 64-bit target, and of `u32`. */
  const USIZE_LIMIT: nat := 0x1_0000_0000_0000_0000
  const U32_LIMIT: nat := 0x1_0000_0000

  /** `str::parse` for an unsigned integer type whose values lie below
      `limit`: an optional '+' and then at least one decimal digit, with a
      value that fits. */
  function ParseUnsigned(s: string, limit: nat): (r: Option<nat>)
    ensures r.Some? ==> r.value < limit
    ensures s == [] ==> r.None?
    ensures (s != [] && s[0] != '+' && !IsDigit(s[0])) ==> r.None?
    ensures r.Some? ==>
      var ds := if s[0] == '+' then s[1..] else s;
      ds != [] && AllDigits(ds) && r.value == DigitsValue(ds)
    ensures (s != [] && AllDigits(s)) ==>
      r == if DigitsValue(s) < limit then Some(DigitsValue(s)) else None
    ensures (|s| > 1 && s[0] == '+' && AllDigits(s[1..])) ==>
      r == if DigitsValue(s[1..]) < limit then Some(DigitsValue(s[1..])) else None
  {
    var ds := if s != [] && s[0] == '+' then s[1..] else s;
    if ds != [] && AllDigits(ds) && DigitsValue(ds) < limit then
      Some(DigitsValue(ds))
    else
      None
  }

  /** `str::parse::<usize>()` on a 64-bit target. */
  function ParseUsize(s: string): Option<nat> {
    ParseUnsigned(s, USIZE_LIMIT)
  }

  /** `str::parse::<u32>()`. */
  function ParseU32(s: string): Option<nat> {
    ParseUnsigned(s, U32_LIMIT)
  }

  function DigitChar(d: nat): (c: char)
    requires d < 10
    ensures IsDigit(c) && c as int - '0' as int == d
  {
    ('0' as int + d) as char
  }

  /** `format!("{}", n)` for a non-negative integer: its decimal digits
      without leading zeros. */
  function DecimalString(n: nat): (s: string)
    ensures s != [] && AllDigits(s) && DigitsValue(s) == n
    ensures n > 0 ==> s[0] != '0'
  {
    if n < 10 then [DigitChar(n)]
    else
      var s := DecimalString(n / 10) + [DigitChar(n % 10)];
      assert s[..|s| - 1] == DecimalString(n / 10);
      s
  }

  /** Parsing a number's decimal text gives the number back. */
  lemma ParseDecimalString(n: nat)
    requires n < USIZE_LIMIT
    ensures ParseUsize(DecimalString(n)) == Some(n)
  {
  }
}
