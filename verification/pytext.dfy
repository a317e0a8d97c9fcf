/**
 * The pieces of Python's string handling the ellipse text format relies on:
 * `str.split(sep)` with a one-character separator, `sep.join(...)`,
 * `str.strip()`, `int(...)` and `str(int)`, and the colour pattern
 * `^#[0-9a-f]{3}$` applied with `re.match`; also the built-in `abs`,
 * which the ellipse editor and the board's geometry use.
 */
module PyText {
  import opened Wrappers

  /** Python's `abs` on integers. */
  function Abs(n: int): (r: nat)
    ensures r == n || r == -n
  {
    if n < 0 then -n else n
  }

  // ---------------------------------------------------------------------
  // Whitespace and strip
  // ---------------------------------------------------------------------

  /** The characters for which Python's `str.isspace()` holds. */
  predicate IsSpace(c: char) {
    || ('\U{9}' <= c <= '\U{D}')
    || ('\U{1C}' <= c <= '\U{20}')
    || c == '\U{85}' || c == '\U{A0}' || c == '\U{1680}'
    || ('\U{2000}' <= c <= '\U{200A}')
    || c == '\U{2028}' || c == '\U{2029}' || c == '\U{202F}' || c == '\U{205F}'
    || c == '\U{3000}'
  }

  /**
   * The whitespace `int` skips around a number: `str.isspace()` without the
   * separator controls U+001C..U+001F. CPython maps non-ASCII whitespace to
   * a space before parsing but leaves ASCII characters alone, and then skips
   * only the ASCII space, tab, newline, vertical tab, form feed and carriage
   * return.
   */
  predicate IntSpace(c: char) {
    IsSpace(c) && !('\U{1C}' <= c <= '\U{1F}')
  }

  /** The number of characters satisfying `sp` that `s` starts with. */
  function LeadingSpaces(s: string, sp: char -> bool): (n: nat)
    ensures n <= |s|
    ensures forall i :: 0 <= i < n ==> sp(s[i])
    ensures n < |s| ==> !sp(s[n])
  {
    if |s| > 0 && sp(s[0]) then 1 + LeadingSpaces(s[1..], sp) else 0
  }

  /** The number of characters satisfying `sp` that `s` ends with. */
  function TrailingSpaces(s: string, sp: char -> bool): (n: nat)
    ensures n <= |s|
    ensures forall i :: |s| - n <= i < |s| ==> sp(s[i])
    ensures n < |s| ==> !sp(s[|s| - n - 1])
  {
    if |s| > 0 && sp(s[|s| - 1]) then 1 + TrailingSpaces(s[..|s| - 1], sp) else 0
  }

  /** `s` without the characters satisfying `sp` at either end. */
  function StripBy(s: string, sp: char -> bool): (r: string)
    ensures LeadingSpaces(s, sp) + |r| <= |s|
    ensures r == s[LeadingSpaces(s, sp)..LeadingSpaces(s, sp) + |r|]
    ensures forall i :: LeadingSpaces(s, sp) + |r| <= i < |s| ==> sp(s[i])
    ensures |r| > 0 ==> !sp(r[0]) && !sp(r[|r| - 1])
  {
    var t := s[LeadingSpaces(s, sp)..];
    t[..|t| - TrailingSpaces(t, sp)]
  }

  /**
   * Python's `s.strip()`: `s` without its leading and trailing whitespace,
   * the empty string when `s` is all whitespace.
   */
  function Strip(s: string): (r: string)
    ensures LeadingSpaces(s, IsSpace) + |r| <= |s|
    ensures r == s[LeadingSpaces(s, IsSpace)..LeadingSpaces(s, IsSpace) + |r|]
    ensures forall i :: LeadingSpaces(s, IsSpace) + |r| <= i < |s| ==> IsSpace(s[i])
    ensures |r| > 0 ==> !IsSpace(r[0]) && !IsSpace(r[|r| - 1])
  {
    StripBy(s, IsSpace)
  }

  /** The part of a field `int` parses: the field without `IntSpace` at either end. */
  function IntStrip(s: string): (r: string)
    ensures LeadingSpaces(s, IntSpace) + |r| <= |s|
    ensures r == s[LeadingSpaces(s, IntSpace)..LeadingSpaces(s, IntSpace) + |r|]
    ensures forall i :: LeadingSpaces(s, IntSpace) + |r| <= i < |s| ==> IntSpace(s[i])
    ensures |r| > 0 ==> !IntSpace(r[0]) && !IntSpace(r[|r| - 1])
  {
    StripBy(s, IntSpace)
  }

  /** A string whose first and last characters do not satisfy `sp` is its own strip. */
  lemma StripByKeeps(s: string, sp: char -> bool)
    requires |s| > 0 && !sp(s[0]) && !sp(s[|s| - 1])
    ensures StripBy(s, sp) == s
  {
  }

  /** A string whose first and last characters are not whitespace is its own strip. */
  lemma StripKeeps(s: string)
    requires |s| > 0 && !IsSpace(s[0]) && !IsSpace(s[|s| - 1])
    ensures Strip(s) == s
  {
    StripByKeeps(s, IsSpace);
  }

  /** Stripping twice is stripping once. */
  lemma StripIdempotent(s: string)
    ensures Strip(Strip(s)) == Strip(s)
  {
    var r := Strip(s);
    if |r| > 0 {
      StripKeeps(r);
    }
  }

  /** Without the separator controls U+001C..U+001F, `int` skips exactly what `strip` removes. */
  lemma IntStripIsStrip(s: string)
    requires forall i :: 0 <= i < |s| ==> !('\U{1C}' <= s[i] <= '\U{1F}')
    ensures IntStrip(s) == Strip(s)
  {
    SameLeading(s);
    SameTrailing(s[LeadingSpaces(s, IsSpace)..]);
  }

  lemma {:induction false} SameLeading(s: string)
    requires forall i :: 0 <= i < |s| ==> !('\U{1C}' <= s[i] <= '\U{1F}')
    ensures LeadingSpaces(s, IntSpace) == LeadingSpaces(s, IsSpace)
  {
    if |s| > 0 {
      SameLeading(s[1..]);
    }
  }

  lemma {:induction false} SameTrailing(s: string)
    requires forall i :: 0 <= i < |s| ==> !('\U{1C}' <= s[i] <= '\U{1F}')
    ensures TrailingSpaces(s, IntSpace) == TrailingSpaces(s, IsSpace)
  {
    if |s| > 0 {
      SameTrailing(s[..|s| - 1]);
    }
  }

  /** `int('1\x1c')` raises although `'1\x1c'.strip()` is `'1'`. */
  lemma IntKeepsSeparatorControls()
    ensures Strip("1\U{1C}") == "1"
    ensures ParseInt("1\U{1C}") == None
  {
    assert LeadingSpaces("1\U{1C}", IsSpace) == 0;
    assert LeadingSpaces("1\U{1C}", IntSpace) == 0;
    assert TrailingSpaces("1\U{1C}", IsSpace) == 1 + TrailingSpaces("1", IsSpace);
    assert TrailingSpaces("1\U{1C}", IntSpace) == 0;
    assert IntStrip("1\U{1C}") == "1\U{1C}";
    assert !AllDigits("1\U{1C}") by { assert !IsDigit("1\U{1C}"[1]); }
  }

  // ---------------------------------------------------------------------
  // split and join on one separator character
  // ---------------------------------------------------------------------

  /** The index of the first `c` in `s`. */
  function FirstIndex(s: string, c: char): (i: nat)
    requires c in s
    ensures i < |s| && s[i] == c && c !in s[..i]
  {
    if s[0] == c then 0 else 1 + FirstIndex(s[1..], c)
  }

  /**
   * Python's `s.split(c)`: the pieces between occurrences of `c`, empty
   * pieces included, so there is always one piece more than separators.
   */
  function Split(s: string, c: char): (r: seq<string>)
    ensures |r| >= 1
    ensures forall i :: 0 <= i < |r| ==> c !in r[i]
    decreases |s|
  {
    if c in s then
      var i := FirstIndex(s, c);
      [s[..i]] + Split(s[i + 1..], c)
    else [s]
  }

  /** Python's `c.join(parts)`. */
  function Join(parts: seq<string>, c: char): string
  {
    if |parts| == 0 then ""
    else if |parts| == 1 then parts[0]
    else parts[0] + [c] + Join(parts[1..], c)
  }

  /** Splitting a joined list returns the list, provided no piece contains the separator. */
  lemma {:induction false} SplitJoin(parts: seq<string>, c: char)
    requires |parts| >= 1
    requires forall i :: 0 <= i < |parts| ==> c !in parts[i]
    ensures Split(Join(parts, c), c) == parts
  {
    if |parts| == 1 {
    } else {
      var s := Join(parts, c);
      var rest := Join(parts[1..], c);
      assert s == parts[0] + [c] + rest;
      assert c in s by { assert s[|parts[0]|] == c; }
      FirstIndexAfter(parts[0], c, rest);
      assert s[..|parts[0]|] == parts[0];
      assert s[|parts[0]| + 1..] == rest;
      SplitJoin(parts[1..], c);
    }
  }

  lemma FirstIndexAfter(a: string, c: char, b: string)
    requires c !in a
    ensures c in a + [c] + b && FirstIndex(a + [c] + b, c) == |a|
  {
    var s := a + [c] + b;
    assert s[|a|] == c;
  }

  /** Joining the pieces of a split restores the string. */
  lemma {:induction false} JoinSplit(s: string, c: char)
    ensures Join(Split(s, c), c) == s
    decreases |s|
  {
    if c in s {
      var i := FirstIndex(s, c);
      var tail := s[i + 1..];
      var rest := Split(tail, c);
      assert Split(s, c) == [s[..i]] + rest;
      JoinCons(s[..i], rest, c);
      JoinSplit(tail, c);
      assert s == s[..i] + [c] + tail;
    } else {
      assert Split(s, c) == [s];
    }
  }

  /** Joining a piece in front of a non-empty list puts one separator between them. */
  lemma JoinCons(head: string, rest: seq<string>, c: char)
    requires |rest| >= 1
    ensures Join([head] + rest, c) == head + [c] + Join(rest, c)
  {
    assert ([head] + rest)[1..] == rest;
  }

  /** Appending one separator to a non-empty join adds an empty last piece. */
  lemma {:induction false} JoinAppendEmpty(parts: seq<string>, c: char)
    requires |parts| >= 1
    ensures Join(parts + [""], c) == Join(parts, c) + [c]
  {
    if |parts| == 1 {
      assert Join(parts + [""], c) == parts[0] + [c] + Join([""], c);
    } else {
      assert (parts + [""])[1..] == parts[1..] + [""];
      JoinAppendEmpty(parts[1..], c);
    }
  }

  /** A join of newline-free pieces with another separator holds no newline. */
  lemma {:induction false} NoNewlineJoin(parts: seq<string>, c: char)
    requires c != '\n'
    requires forall i :: 0 <= i < |parts| ==> '\n' !in parts[i]
    ensures '\n' !in Join(parts, c)
  {
    if |parts| > 1 {
      NoNewlineJoin(parts[1..], c);
      assert Join(parts, c) == parts[0] + [c] + Join(parts[1..], c);
    }
  }

  /** A join starts with its first piece and ends with its last, when no piece is empty. */
  lemma {:induction false} JoinEnds(parts: seq<string>, c: char)
    requires |parts| >= 1 && forall i :: 0 <= i < |parts| ==> parts[i] != ""
    ensures |Join(parts, c)| > 0
    ensures Join(parts, c)[0] == parts[0][0]
    ensures Join(parts, c)[|Join(parts, c)| - 1] == parts[|parts| - 1][|parts[|parts| - 1]| - 1]
  {
    if |parts| > 1 {
      var tail := parts[1..];
      assert forall i :: 0 <= i < |tail| ==> tail[i] == parts[i + 1];
      JoinEnds(tail, c);
      var rest := Join(tail, c);
      assert Join(parts, c) == parts[0] + [c] + rest;
      assert tail[|tail| - 1] == parts[|parts| - 1];
    }
  }

  // ---------------------------------------------------------------------
  // Integers
  // ---------------------------------------------------------------------

  predicate IsDigit(c: char) {
    '0' <= c <= '9'
  }

  predicate AllDigits(s: string) {
    forall i :: 0 <= i < |s| ==> IsDigit(s[i])
  }

  function DigitChar(d: nat): (c: char)
    requires d < 10
    ensures IsDigit(c) && c as int - '0' as int == d
  {
    "0123456789"[d]
  }

  function DigitValue(c: char): (d: nat)
    requires IsDigit(c)
    ensures d < 10 && DigitChar(d) == c
  {
    (c as int - '0' as int) as nat
  }

  /** The number a string of decimal digits denotes. */
  function DigitsValue(s: string): nat
    requires AllDigits(s)
  {
    if |s| == 0 then 0
    else 10 * DigitsValue(s[..|s| - 1]) + DigitValue(s[|s| - 1])
  }

  /** Python's `str(n)` for `n >= 0`: decimal digits without leading zeros. */
  function NatToString(n: nat): (s: string)
    ensures |s| >= 1 && AllDigits(s)
    ensures s[0] == '0' ==> n == 0 && s == "0"
  {
    if n < 10 then [DigitChar(n)]
    else NatToString(n / 10) + [DigitChar(n % 10)]
  }

  /** Python's `str(n)` for an integer. */
  function IntToString(n: int): (s: string)
    ensures |s| >= 1 && !IsSpace(s[0]) && !IsSpace(s[|s| - 1])
    ensures ' ' !in s && '\n' !in s
  {
    if n < 0 then "-" + NatToString(-n) else NatToString(n)
  }

  /** The digits of `n` denote `n`. */
  lemma {:induction false} NatToStringValue(n: nat)
    ensures DigitsValue(NatToString(n)) == n
  {
    var s := NatToString(n);
    if n < 10 {
      assert s == [DigitChar(n)];
      assert DigitsValue(s) == 10 * DigitsValue(s[..0]) + DigitValue(s[0]);
    } else {
      var q, d := n / 10, n % 10;
      NatToStringValue(q);
      assert s == NatToString(q) + [DigitChar(d)];
      assert s[..|s| - 1] == NatToString(q);
      assert DigitValue(s[|s| - 1]) == d;
      assert n == 10 * q + d;
    }
  }

  /** The digits after an optional sign, as `int` accepts them (at least one digit). */
  function ParseDigits(s: string): (r: Option<nat>)
    ensures r.Some? <==> |s| > 0 && AllDigits(s)
  {
    if |s| > 0 && AllDigits(s) then Some(DigitsValue(s)) else None
  }

  /**
   * Python's `int(s)` restricted to ASCII digits: surrounding `IntSpace`
   * whitespace is ignored, then an optional `+` or `-` sign and one or more
   * digits. `None` stands for the `ValueError` `int` raises.
   */
  function ParseInt(s: string): (r: Option<int>)
    ensures r.Some? <==>
              var t := IntStrip(s);
              |t| > 0 && (if t[0] == '-' || t[0] == '+' then |t| > 1 && AllDigits(t[1..]) else AllDigits(t))
  {
    var t := IntStrip(s);
    if |t| > 0 && t[0] == '-' then
      match ParseDigits(t[1..])
      case Some(d) => Some(-(d as int))
      case None => None
    else if |t| > 0 && t[0] == '+' then
      match ParseDigits(t[1..])
      case Some(d) => Some(d)
      case None => None
    else
      match ParseDigits(t)
      case Some(d) => Some(d)
      case None => None
  }

  /** `int(str(n)) == n`. */
  lemma ParseIntToString(n: int)
    ensures ParseInt(IntToString(n)) == Some(n)
  {
    if n < 0 {
      var m: nat := -n;
      assert IntToString(n) == "-" + NatToString(m);
      ParseNegative(m);
      assert -(m as int) == n;
    } else {
      assert IntToString(n) == NatToString(n);
      ParseNonNegative(n);
    }
  }

  lemma ParseNonNegative(n: nat)
    ensures ParseInt(NatToString(n)) == Some(n)
  {
    var d := NatToString(n);
    StripByKeeps(d, IntSpace);
    NatToStringValue(n);
    assert d[0] != '-' && d[0] != '+';
    assert ParseDigits(d) == Some(n);
  }

  lemma ParseNegative(n: nat)
    requires n > 0
    ensures ParseInt("-" + NatToString(n)) == Some(-(n as int))
  {
    var d := NatToString(n);
    var s := "-" + d;
    StripByKeeps(s, IntSpace);
    NatToStringValue(n);
    assert s[0] == '-' && s[1..] == d;
    assert ParseDigits(d) == Some(n);
  }

  // ---------------------------------------------------------------------
  // Colours
  // ---------------------------------------------------------------------

  predicate IsLowerHex(c: char) {
    ('0' <= c <= '9') || ('a' <= c <= 'f')
  }

  /** A colour code `#rgb` with three lower-case hexadecimal digits. */
  predicate IsColorCode(s: string) {
    |s| == 4 && s[0] == '#' && IsLowerHex(s[1]) && IsLowerHex(s[2]) && IsLowerHex(s[3])
  }

  /**
   * Whether `re.match(r'^#[0-9a-f]{3}$', s)` succeeds. Python's `$` also
   * matches just before a final newline, so `#rgb` followed by one newline
   * matches too.
   */
  function ColorMatches(s: string): (m: bool)
    ensures '\n' !in s ==> (m <==> IsColorCode(s))
    ensures m ==> |s| >= 4 && IsColorCode(s[..4])
  {
    assert |s| == 5 ==> s[4] in s;
    IsColorCode(s) || (|s| == 5 && IsColorCode(s[..4]) && s[4] == '\n')
  }

  /** A colour code is one non-blank field: no space, no newline, and no whitespace at either end. */
  lemma ColorCodeShape(s: string)
    requires IsColorCode(s)
    ensures ' ' !in s && '\n' !in s
    ensures |s| > 0 && !IsSpace(s[0]) && !IsSpace(s[|s| - 1])
  {
    assert s == [s[0], s[1], s[2], s[3]];
  }

}
