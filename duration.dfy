/**
 * The mute-duration parser of the misc cog (`parse_time`): the string is
 * lower-cased, scanned for every match of `(\d+)([dhms])` from left to right
 * (the way `re.findall` scans), and the amounts are summed with the weights
 * d = 86400, h = 3600, m = 60, s = 1 seconds.
 */
module Duration {
  import opened Wrappers
  import opened Digits

  /** The longest mute the `mute` command accepts: 14 days, in seconds. */
  const MaxMuteSeconds: nat := 1209600

  predicate IsUnit(c: char)
  {
    c == 'd' || c == 'h' || c == 'm' || c == 's'
  }

  function UnitSeconds(c: char): nat
    requires IsUnit(c)
  {
    if c == 'd' then 86400 else if c == 'h' then 3600 else if c == 'm' then 60 else 1
  }

  /** `str.lower()` on one character (ASCII letters; no other character lowers to a digit or unit). */
  function LowerChar(c: char): char
  {
    if 'A' <= c <= 'Z' then (c as int + 32) as char else c
  }

  function Lower(s: string): string
  {
    seq(|s|, i requires 0 <= i < |s| => LowerChar(s[i]))
  }

  /** Length of the run of digits at the front of `s`: the greedy `\d+`. */
  function DigitRun(s: string): (n: nat)
    ensures n <= |s|
    ensures AllDigits(s[..n])
    ensures n < |s| ==> !IsDigit(s[n])
  {
    if s != [] && IsDigit(s[0]) then 1 + DigitRun(s[1..]) else 0
  }

  /** A unit letter of `[dhms]`. */
  type UnitChar = c: char | IsUnit(c) witness 'd'

  /** One match of `(\d+)([dhms])`: the amount and the unit letter. */
  datatype Token = Token(amount: nat, unit: UnitChar)

  /**
   * `re.findall(r'(\d+)([dhms])', s)`: try to match at the front; on a match
   * continue after it, otherwise continue one character further on.
   */
  function FindAll(s: string): (ts: seq<Token>)
    // every match takes at least a digit and a unit letter, and matches do not overlap
    ensures 2 * |ts| <= |s|
    decreases |s|
  {
    if s == [] then []
    else
      var n := DigitRun(s);
      if 0 < n < |s| && IsUnit(s[n]) then
        [Token(DecimalValue(s[..n]), s[n])] + FindAll(s[n + 1..])
      else
        FindAll(s[1..])
  }

  /** `sum(int(amount) * time_units[unit] for amount, unit in matches)`. */
  function Seconds(ts: seq<Token>): nat
  {
    if ts == [] then 0 else ts[0].amount * UnitSeconds(ts[0].unit) + Seconds(ts[1..])
  }

  /** `parse_time`: 0 when nothing matches, otherwise the weighted sum of the matches. */
  function ParseTime(s: string): nat
  {
    var matches := FindAll(Lower(s));
    if matches == [] then 0 else Seconds(matches)
  }

  /**
   * The early `return 0` for no matches agrees with the sum: the result is
   * always the weighted sum of the matches, and it is 0 exactly when every
   * match has amount 0 (in particular when there is none).
   */
  lemma {:induction false} ParseTimeIsSum(s: string)
    ensures ParseTime(s) == Seconds(FindAll(Lower(s)))
    ensures ParseTime(s) == 0 <==> forall k :: 0 <= k < |FindAll(Lower(s))| ==> FindAll(Lower(s))[k].amount == 0
  {
    SecondsZero(FindAll(Lower(s)));
  }

  lemma {:induction false} SecondsZero(ts: seq<Token>)
    ensures Seconds(ts) == 0 <==> forall k :: 0 <= k < |ts| ==> ts[k].amount == 0
  {
    if ts != [] {
      SecondsZero(ts[1..]);
      assert forall k :: 1 <= k < |ts| ==> ts[k] == ts[1..][k - 1];
    }
  }

  // ---------------------------------------------------------------------------
  // Algebra of the scanner

  lemma {:induction false} SecondsAppend(a: seq<Token>, b: seq<Token>)
    ensures Seconds(a + b) == Seconds(a) + Seconds(b)
  {
    if a != [] {
      assert (a + b)[0] == a[0];
      assert (a + b)[1..] == a[1..] + b;
      SecondsAppend(a[1..], b);
    } else {
      assert a + b == b;
    }
  }

  /** A digit run is never split across the seam when the left part does not end in a digit. */
  lemma {:induction false} FindAllAppend(s: string, t: string)
    requires s == [] || !IsDigit(s[|s| - 1])
    ensures FindAll(s + t) == FindAll(s) + FindAll(t)
    decreases |s|
  {
    if s == [] {
      assert s + t == t;
    } else {
      var n := DigitRun(s);
      FrontOfAppend(s, t);
      if 0 < n && IsUnit(s[n]) {
        FindAllAppend(s[n + 1..], t);
        MatchAppend(s, t);
      } else {
        FindAllAppend(s[1..], t);
        SkipAppend(s, t);
      }
    }
  }

  /** The seam step when `s` starts with a match. */
  lemma MatchAppend(s: string, t: string)
    requires s != [] && !IsDigit(s[|s| - 1])
    requires 0 < DigitRun(s) < |s| && IsUnit(s[DigitRun(s)])
    requires FindAll(s[DigitRun(s) + 1..] + t) == FindAll(s[DigitRun(s) + 1..]) + FindAll(t)
    ensures FindAll(s + t) == FindAll(s) + FindAll(t)
  {
    FrontOfAppend(s, t);
    FindAllUnfold(s + t);
  }

  /** The seam step when `s` does not start with a match. */
  lemma SkipAppend(s: string, t: string)
    requires s != [] && !IsDigit(s[|s| - 1])
    requires !(0 < DigitRun(s) < |s| && IsUnit(s[DigitRun(s)]))
    requires FindAll(s[1..] + t) == FindAll(s[1..]) + FindAll(t)
    ensures FindAll(s + t) == FindAll(s) + FindAll(t)
  {
    var u := s + t;
    FrontOfAppend(s, t);
    FindAllUnfold(s);
    FindAllUnfold(u);
  }

  /** One step of the scan: a match at the front, or a move one character on. */
  lemma FindAllUnfold(u: string)
    requires u != []
    ensures var n := DigitRun(u);
            FindAll(u) == if 0 < n < |u| && IsUnit(u[n]) then [Token(DecimalValue(u[..n]), u[n])] + FindAll(u[n + 1..])
                          else FindAll(u[1..])
  {
  }

  /** The match at the front of `s + t` is the match at the front of `s`, when `s` ends in a non-digit. */
  lemma FrontOfAppend(s: string, t: string)
    requires s != [] && !IsDigit(s[|s| - 1])
    ensures var n := DigitRun(s);
            && n < |s|
            && DigitRun(s + t) == n
            && (s + t)[n] == s[n]
            && (s + t)[..n] == s[..n]
            && (s + t)[n + 1..] == s[n + 1..] + t
            && (s + t)[1..] == s[1..] + t
            && (s[n + 1..] == [] || !IsDigit(s[n + 1..][|s[n + 1..]| - 1]))
            && (s[1..] == [] || !IsDigit(s[1..][|s[1..]| - 1]))
  {
    DigitRunStops(s);
    DigitRunPrefix(s, t);
  }

  /** The greedy digit run stops before a final non-digit. */
  lemma {:induction false} DigitRunStops(s: string)
    requires s != [] && !IsDigit(s[|s| - 1])
    ensures DigitRun(s) < |s|
    decreases |s|
  {
    if |s| > 1 && IsDigit(s[0]) {
      assert s[1..][|s[1..]| - 1] == s[|s| - 1];
      DigitRunStops(s[1..]);
    }
  }

  lemma {:induction false} DigitRunPrefix(s: string, t: string)
    requires DigitRun(s) < |s|
    ensures DigitRun(s + t) == DigitRun(s)
    decreases |s|
  {
    if IsDigit(s[0]) {
      assert (s + t)[1..] == s[1..] + t;
      DigitRunPrefix(s[1..], t);
    }
  }

  lemma LowerAppend(s: string, t: string)
    ensures Lower(s + t) == Lower(s) + Lower(t)
  {
    assert forall i :: 0 <= i < |s + t| ==> Lower(s + t)[i] == (Lower(s) + Lower(t))[i];
  }

  /** Additivity: splitting the duration string after a non-digit splits the total. */
  lemma ParseTimeAdditive(s: string, t: string)
    requires s == [] || !IsDigit(s[|s| - 1])
    ensures ParseTime(s + t) == ParseTime(s) + ParseTime(t)
  {
    LowerAppend(s, t);
    var ls, lt := Lower(s), Lower(t);
    assert ls == [] || !IsDigit(ls[|ls| - 1]);
    FindAllAppend(ls, lt);
    SecondsAppend(FindAll(ls), FindAll(lt));
  }

  /** Case does not matter: `parse_time` lower-cases first, and lower-casing is idempotent. */
  lemma ParseTimeCaseInsensitive(s: string)
    ensures ParseTime(Lower(s)) == ParseTime(s)
  {
    assert Lower(Lower(s)) == Lower(s);
  }

  lemma {:induction false} LowerDigits(ds: string)
    requires AllDigits(ds)
    ensures Lower(ds) == ds
  {
  }

  /** Nothing but digits matches nothing. */
  lemma {:induction false} FindAllDigits(ds: string)
    requires AllDigits(ds)
    ensures FindAll(ds) == []
    decreases |ds|
  {
    if ds != [] {
      assert DigitRun(ds) == |ds| by { DigitRunAll(ds); }
      FindAllDigits(ds[1..]);
    }
  }

  lemma {:induction false} DigitRunAll(ds: string)
    requires AllDigits(ds)
    ensures DigitRun(ds) == |ds|
    decreases |ds|
  {
    if ds != [] {
      DigitRunAll(ds[1..]);
    }
  }

  /** One token: a digit run directly followed by a unit letter counts amount times weight. */
  lemma SingleToken(ds: string, u: char)
    requires ds != [] && AllDigits(ds) && IsUnit(u)
    ensures ParseTime(ds + [u]) == DecimalValue(ds) * UnitSeconds(u)
  {
    var s := ds + [u];
    assert Lower(s) == s;
    DigitRunAllNotDigit(ds, u);
    assert s[..|ds|] == ds;
    assert s[|ds| + 1..] == [];
    assert DigitRun(s) == |ds| && s[|ds|] == u;
    var tok := Token(DecimalValue(ds), u);
    assert FindAll(s) == [tok] + FindAll([]);
    assert Seconds([tok]) == tok.amount * UnitSeconds(u) + Seconds([]);
  }

  lemma {:induction false} DigitRunAllNotDigit(ds: string, c: char)
    requires AllDigits(ds) && !IsDigit(c)
    ensures DigitRun(ds + [c]) == |ds|
    decreases |ds|
  {
    if ds != [] {
      assert (ds + [c])[1..] == ds[1..] + [c];
      DigitRunAllNotDigit(ds[1..], c);
    }
  }

  /** A digit run followed by a character that is not a unit letter adds nothing. */
  lemma IgnoredRun(ds: string, c: char)
    requires AllDigits(ds) && !IsDigit(LowerChar(c)) && !IsUnit(LowerChar(c))
    ensures ParseTime(ds + [c]) == 0
  {
    var s := Lower(ds + [c]);
    assert s == ds + [LowerChar(c)];
    FindAllAppend([LowerChar(c)], []);
    FindAllDigitsThen(ds, LowerChar(c));
  }

  lemma {:induction false} FindAllDigitsThen(ds: string, c: char)
    requires AllDigits(ds) && !IsDigit(c) && !IsUnit(c)
    ensures FindAll(ds + [c]) == []
    decreases |ds|
  {
    var s := ds + [c];
    DigitRunAllNotDigit(ds, c);
    assert s[1..] == if ds == [] then [] else ds[1..] + [c];
    if ds != [] {
      FindAllDigitsThen(ds[1..], c);
    }
  }

  /** The example of the command's usage text, in either case. */
  lemma OneHourThirtyMinutes()
    ensures ParseTime("1h30m") == 5400
    ensures ParseTime("1H30M") == 5400
  {
    assert "1h30m" == "1h" + "30m";
    ParseTimeAdditive("1h", "30m");
    assert "1h" == "1" + ['h'];
    SingleToken("1", 'h');
    assert "30m" == "30" + ['m'];
    SingleToken("30", 'm');
    assert Lower("1H30M") == "1h30m";
    ParseTimeCaseInsensitive("1H30M");
  }

  // ---------------------------------------------------------------------------
  // An independent reference: a one-pass automaton

  /** State of a left-to-right scan: the total so far and the value of the digit run being read. */
  datatype Scan = Scan(total: nat, run: Option<nat>)

  function Step(st: Scan, c: char): Scan
  {
    if IsDigit(c) then Scan(st.total, Some(st.run.GetOr(0) * 10 + DigitValue(c)))
    else if IsUnit(c) && st.run.Some? then Scan(st.total + st.run.value * UnitSeconds(c), None)
    else Scan(st.total, None)
  }

  function Feed(st: Scan, s: string): Scan
    decreases |s|
  {
    if s == [] then st else Feed(Step(st, s[0]), s[1..])
  }

  lemma {:induction false} FeedAppend(st: Scan, s: string, t: string)
    ensures Feed(st, s + t) == Feed(Feed(st, s), t)
    decreases |s|
  {
    if s == [] {
      assert s + t == t;
    } else {
      assert (s + t)[1..] == s[1..] + t;
      FeedAppend(Step(st, s[0]), s[1..], t);
    }
  }

  lemma {:induction false} FeedDigits(total: nat, ds: string)
    requires ds != [] && AllDigits(ds)
    ensures Feed(Scan(total, None), ds) == Scan(total, Some(DecimalValue(ds)))
    decreases |ds|
  {
    var init := ds[..|ds| - 1];
    var c := ds[|ds| - 1];
    assert ds == init + [c];
    FeedAppend(Scan(total, None), init, [c]);
    if init != [] {
      FeedDigits(total, init);
    }
  }

  /** A digit run that is not followed by a unit contributes no match, even from its middle. */
  lemma {:induction false} FindAllSkipsRun(s: string)
    requires var n := DigitRun(s); 0 < n && !(n < |s| && IsUnit(s[n]))
    ensures FindAll(s) == FindAll(s[DigitRun(s)..])
    decreases |s|
  {
    var n := DigitRun(s);
    assert FindAll(s) == FindAll(s[1..]);
    if n > 1 {
      assert DigitRun(s[1..]) == n - 1;
      assert s[1..][n - 1..] == s[n..];
      FindAllSkipsRun(s[1..]);
    }
  }

  lemma {:induction false} FeedMatchesFindAll(total: nat, s: string)
    ensures Feed(Scan(total, None), s).total == total + Seconds(FindAll(s))
    decreases |s|
  {
    if s != [] {
      var n := DigitRun(s);
      if n == 0 {
        FeedMatchesFindAll(total, s[1..]);
      } else {
        var ds := s[..n];
        assert s == ds + s[n..];
        FeedAppend(Scan(total, None), ds, s[n..]);
        FeedDigits(total, ds);
        var v := DecimalValue(ds);
        if n < |s| && IsUnit(s[n]) {
          assert s[n..][1..] == s[n + 1..];
          assert Feed(Scan(total, Some(v)), s[n..]) == Feed(Scan(total + v * UnitSeconds(s[n]), None), s[n + 1..]);
          FeedMatchesFindAll(total + v * UnitSeconds(s[n]), s[n + 1..]);
        } else {
          FindAllSkipsRun(s);
          if n < |s| {
            assert s[n..][1..] == s[n + 1..];
            assert Feed(Scan(total, Some(v)), s[n..]) == Feed(Scan(total, None), s[n + 1..]);
            assert DigitRun(s[n..]) == 0;
            assert FindAll(s[n..]) == FindAll(s[n + 1..]);
            FeedMatchesFindAll(total, s[n + 1..]);
          } else {
            assert s[n..] == [];
          }
        }
      }
    }
  }

  /** `parse_time` agrees with the one-pass automaton run over the lower-cased string. */
  lemma ParseTimeIsScan(s: string)
    ensures ParseTime(s) == Feed(Scan(0, None), Lower(s)).total
  {
    FeedMatchesFindAll(0, Lower(s));
  }
}
