/**
 * The Python string built-ins the cogs rely on, over ASCII: `str.strip()`,
 * `int(s)` in base 10, `str(n)`, `'\n'.join` and `str.split('\n')`.
 */
module PyStr {
  import opened Wrappers
  import opened Digits

  /** `str.isspace()` on an ASCII character: space, tab to carriage return, and the four separators 0x1C-0x1F. */
  predicate IsSpace(c: char)
  {
    c == ' ' || '\t' <= c <= '\r' || '\U{1C}' <= c <= '\U{1F}'
  }

  function StripStart(s: string): (r: string)
    ensures |r| <= |s| && r == s[|s| - |r|..]
    ensures r == [] || !IsSpace(r[0])
    ensures forall k :: 0 <= k < |s| - |r| ==> IsSpace(s[k])
  {
    if s != [] && IsSpace(s[0]) then StripStart(s[1..]) else s
  }

  function StripEnd(s: string): (r: string)
    ensures |r| <= |s| && r == s[..|r|]
    ensures r == [] || !IsSpace(r[|r| - 1])
    ensures forall k :: |r| <= k < |s| ==> IsSpace(s[k])
  {
    if s != [] && IsSpace(s[|s| - 1]) then StripEnd(s[..|s| - 1]) else s
  }

  /** `r` is `s` with some whitespace cut from each end: a slice of `s` with only whitespace outside it. */
  ghost predicate TrimmedSlice(s: string, r: string)
  {
    exists i, j :: 0 <= i <= j <= |s| && r == s[i..j] &&
                   (forall k :: 0 <= k < i ==> IsSpace(s[k])) &&
                   (forall k :: j <= k < |s| ==> IsSpace(s[k]))
  }

  /** `str.strip()`: leading and trailing whitespace removed, the middle kept as it is. */
  function Strip(s: string): (r: string)
    ensures r == [] || (!IsSpace(r[0]) && !IsSpace(r[|r| - 1]))
    ensures TrimmedSlice(s, r)
    ensures forall k :: 0 <= k < |r| ==> r[k] in s
  {
    StripSlice(s);
    StripEnd(StripStart(s))
  }

  lemma StripSlice(s: string)
    ensures TrimmedSlice(s, StripEnd(StripStart(s)))
  {
    var a := StripStart(s);
    var r := StripEnd(a);
    var i := |s| - |a|;
    var j := i + |r|;
    assert r == s[i..j] by {
      assert a == s[i..];
      assert r == a[..|r|];
    }
    forall k | j <= k < |s|
      ensures IsSpace(s[k])
    {
      assert s[k] == a[k - i];
    }
    assert 0 <= i <= j <= |s| && r == s[i..j] &&
           (forall k :: 0 <= k < i ==> IsSpace(s[k])) &&
           (forall k :: j <= k < |s| ==> IsSpace(s[k]));
  }

  /** A string without surrounding whitespace is its own strip. */
  lemma StripIdle(s: string)
    requires s == [] || (!IsSpace(s[0]) && !IsSpace(s[|s| - 1]))
    ensures Strip(s) == s
  {
  }

  /**
   * The digits `int()` accepts after the sign: ASCII digits with single
   * underscores between them, starting and ending with a digit.
   */
  predicate DigitGroups(t: string)
  {
    t != [] && forall i :: 0 <= i < |t| ==> GroupChar(t, i)
  }

  /** Position `i` of `t` holds a digit, or an underscore between two digits. */
  predicate GroupChar(t: string, i: nat)
    requires i < |t|
  {
    IsDigit(t[i]) || (0 < i < |t| - 1 && t[i] == '_' && IsDigit(t[i - 1]) && IsDigit(t[i + 1]))
  }

  /** The digits of `t`, in order: for digit groups, the underscores dropped. */
  function DigitsOf(t: string): (r: string)
    ensures AllDigits(r) && |r| <= |t|
  {
    if t == [] then []
    else (if IsDigit(t[0]) then [t[0]] else []) + DigitsOf(t[1..])
  }

  /**
   * The whitespace `int()` skips around an ASCII literal: space, and tab to
   * carriage return. Unlike `str.strip()`, it does not skip the separators
   * 0x1C-0x1F.
   */
  predicate IntSpace(c: char)
  {
    c == ' ' || '\t' <= c <= '\r'
  }

  /** `s` without the whitespace `int()` skips at its front. */
  function IntTrimStart(s: string): (r: string)
    ensures |r| <= |s| && r == s[|s| - |r|..]
    ensures r == [] || !IntSpace(r[0])
  {
    if s != [] && IntSpace(s[0]) then IntTrimStart(s[1..]) else s
  }

  /** `s` without the whitespace `int()` skips at its end. */
  function IntTrimEnd(s: string): (r: string)
    ensures |r| <= |s| && r == s[..|r|]
    ensures r == [] || !IntSpace(r[|r| - 1])
  {
    if s != [] && IntSpace(s[|s| - 1]) then IntTrimEnd(s[..|s| - 1]) else s
  }

  /** `s` with the whitespace `int()` skips removed from both ends. */
  function IntTrim(s: string): (r: string)
    ensures r == [] || (!IntSpace(r[0]) && !IntSpace(r[|r| - 1]))
  {
    IntTrimEnd(IntTrimStart(s))
  }

  /** The most digits `int()` converts from a decimal string (Python's default `sys.get_int_max_str_digits()`). */
  const MaxIntDigits: nat := 4300

  /** `int(s)` in base 10; `None` where Python raises ValueError. */
  function ParseInt(s: string): (r: Option<int>)
    ensures r.Some? ==> exists k :: 0 <= k < |s| && IsDigit(s[k])
  {
    var t := IntTrim(s);
    var signed := t != [] && (t[0] == '+' || t[0] == '-');
    var body := if signed then t[1..] else t;
    if !DigitGroups(body) then None
    else if |DigitsOf(body)| > MaxIntDigits then None
    else
      var a := IntTrimStart(s);
      var i := |s| - |a| + (if signed then 1 else 0);
      assert GroupChar(body, 0) && body[0] == s[i];
      var n: int := DecimalValue(DigitsOf(body));
      Some(if signed && t[0] == '-' then -n else n)
  }

  /** `str(n)`. */
  function IntString(n: int): (s: string)
    ensures s != []
  {
    if n < 0 then "-" + DecimalString(-n) else DecimalString(n)
  }

  lemma {:induction false} DigitsOfDigits(t: string)
    requires AllDigits(t)
    ensures DigitsOf(t) == t
  {
    if t != [] {
      DigitsOfDigits(t[1..]);
    }
  }

  /**
   * `int(str(n)) == n`: every integer survives the trip through its decimal
   * text, when that text is within the digit limit (beyond it `str(n)`
   * raises too).
   */
  lemma ParseIntRoundTrip(n: int)
    requires |DecimalString(if n < 0 then -n else n)| <= MaxIntDigits
    ensures ParseInt(IntString(n)) == Some(n)
  {
    var m: nat := if n < 0 then -n else n;
    var ds := DecimalString(m);
    DigitsParse(ds);
    DecimalRoundTrip(m);
    var s := IntString(n);
    if n < 0 {
      NegatedDigitsParse(ds, s);
    } else {
      assert s == ds;
    }
  }

  /** A nonempty run of at most `MaxIntDigits` digits reads as its decimal value. */
  lemma DigitsParse(ds: string)
    requires ds != [] && AllDigits(ds) && |ds| <= MaxIntDigits
    ensures ParseInt(ds) == Some(DecimalValue(ds))
  {
    DigitGroupsOfDigits(ds);
    DigitsOfDigits(ds);
    assert IsDigit(ds[0]) && IsDigit(ds[|ds| - 1]);
    IntTrimIdle(ds);
    UnsignedGroupsParse(ds);
  }

  /** A minus sign in front of a nonempty run of at most `MaxIntDigits` digits negates its value. */
  lemma NegatedDigitsParse(ds: string, s: string)
    requires ds != [] && AllDigits(ds) && |ds| <= MaxIntDigits && s == "-" + ds
    ensures ParseInt(s) == Some(-(DecimalValue(ds) as int))
  {
    DigitGroupsOfDigits(ds);
    DigitsOfDigits(ds);
    assert s[1..] == ds && s[0] == '-';
    assert IsDigit(s[|s| - 1]) by { assert s[|s| - 1] == ds[|ds| - 1]; }
    IntTrimIdle(s);
    NegatedGroupsParse(s);
  }

  /** Unsigned digit groups within the limit, with nothing to trim, read as the value of their digits. */
  lemma UnsignedGroupsParse(t: string)
    requires IntTrim(t) == t && t != [] && t[0] != '+' && t[0] != '-'
    requires DigitGroups(t) && |DigitsOf(t)| <= MaxIntDigits
    ensures ParseInt(t) == Some(DecimalValue(DigitsOf(t)) as int)
  {
  }

  /** Digit groups within the limit after a minus sign, with nothing to trim, read as the negated value. */
  lemma NegatedGroupsParse(t: string)
    requires IntTrim(t) == t && t != [] && t[0] == '-'
    requires DigitGroups(t[1..]) && |DigitsOf(t[1..])| <= MaxIntDigits
    ensures ParseInt(t) == Some(-(DecimalValue(DigitsOf(t[1..])) as int))
  {
  }

  /** More than `MaxIntDigits` digits are refused, leading zeros included. */
  lemma {:induction false} DigitLimitRefused(ds: string)
    requires AllDigits(ds) && |ds| > MaxIntDigits
    ensures ParseInt(ds).None?
  {
    DigitsOfDigits(ds);
    assert IsDigit(ds[0]) && IsDigit(ds[|ds| - 1]);
    IntTrimIdle(ds);
  }

  /**
   * The separators 0x1C-0x1F, which `str.strip()` removes, make `int()`
   * fail: `"\x1c5"` strips to `"5"` but does not parse.
   */
  lemma SeparatorPaddingRefused(c: char, ds: string)
    requires '\U{1C}' <= c <= '\U{1F}' && ds != [] && AllDigits(ds)
    ensures Strip([c] + ds) == ds
    ensures ParseInt([c] + ds).None?
  {
    var s := [c] + ds;
    assert s[0] == c && s[1..] == ds && s[|s| - 1] == ds[|ds| - 1];
    assert IsDigit(ds[0]) && IsDigit(ds[|ds| - 1]);
    SeparatorStripped(c, ds);
    IntTrimIdle(s);
    assert !GroupChar(s, 0);
    UnsignedNotGroupsRefused(s);
  }

  lemma SeparatorStripped(c: char, ds: string)
    requires IsSpace(c) && ds != [] && !IsSpace(ds[0]) && !IsSpace(ds[|ds| - 1])
    ensures Strip([c] + ds) == ds
  {
    assert ([c] + ds)[1..] == ds;
    assert StripStart(ds) == ds;
    assert StripEnd(ds) == ds;
  }

  /** Text that is its own trim, unsigned, and not digit groups is refused. */
  lemma UnsignedNotGroupsRefused(s: string)
    requires IntTrim(s) == s && s != [] && s[0] != '+' && s[0] != '-' && !GroupChar(s, 0)
    ensures ParseInt(s).None?
  {
  }

  /** A string that neither starts nor ends with the whitespace `int()` skips is its own trim. */
  lemma IntTrimIdle(s: string)
    requires s != [] && !IntSpace(s[0]) && !IntSpace(s[|s| - 1])
    ensures IntTrim(s) == s
  {
  }

  lemma DigitGroupsOfDigits(ds: string)
    requires ds != [] && AllDigits(ds)
    ensures DigitGroups(ds)
  {
    forall i | 0 <= i < |ds|
      ensures GroupChar(ds, i)
    {
      assert IsDigit(ds[i]);
    }
  }

  /** The default message id `''`, and any string without a digit, is refused. */
  lemma ParseIntNeedsDigit(s: string)
    requires forall k :: 0 <= k < |s| ==> !IsDigit(s[k])
    ensures ParseInt(s).None?
  {
  }

  /** The position of the first newline of `s`, or `|s|`. */
  function LineEnd(s: string): (n: nat)
    ensures n <= |s| && (n < |s| ==> s[n] == '\n')
    ensures forall k :: 0 <= k < n ==> s[k] != '\n'
  {
    if s == [] || s[0] == '\n' then 0 else 1 + LineEnd(s[1..])
  }

  /** `s.split('\n')`. */
  function SplitLines(s: string): (r: seq<string>)
    ensures |r| > 0
    decreases |s|
  {
    var n := LineEnd(s);
    if n == |s| then [s] else [s[..n]] + SplitLines(s[n + 1..])
  }

  /** `'\n'.join(lines)`. */
  function JoinLines(lines: seq<string>): string
  {
    if lines == [] then ""
    else if |lines| == 1 then lines[0]
    else lines[0] + "\n" + JoinLines(lines[1..])
  }

  predicate NoNewline(s: string)
  {
    forall k :: 0 <= k < |s| ==> s[k] != '\n'
  }

  /** Splitting what `'\n'.join` wrote gives back the lines, when none of them holds a newline. */
  lemma {:induction false} SplitJoin(lines: seq<string>)
    requires |lines| > 0
    requires forall i :: 0 <= i < |lines| ==> NoNewline(lines[i])
    ensures SplitLines(JoinLines(lines)) == lines
  {
    var l := lines[0];
    assert LineEnd(l) == |l| by { NoNewlineEnd(l, ""); assert l + "" == l; }
    if |lines| > 1 {
      var rest := JoinLines(lines[1..]);
      var s := l + "\n" + rest;
      NoNewlineEnd(l, "\n" + rest);
      assert l + ("\n" + rest) == s;
      assert s[..|l|] == l;
      assert s[|l| + 1..] == rest;
      SplitJoin(lines[1..]);
      assert lines == [l] + lines[1..];
    }
  }

  lemma {:induction false} NoNewlineEnd(l: string, t: string)
    requires NoNewline(l)
    requires t == [] || t[0] == '\n'
    ensures LineEnd(l + t) == |l|
  {
    if l != [] {
      assert (l + t)[1..] == l[1..] + t;
      NoNewlineEnd(l[1..], t);
    } else {
      assert l + t == t;
    }
  }
}
