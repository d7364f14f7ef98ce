/**
 * The template filter that shows how long a quiz took, on whole seconds:
 * "-" when a time is missing or the span is negative, otherwise seconds,
 * whole minutes, or minutes and seconds.
 */
module QuizExtras {
  import opened Util
  import opened Text

  /**
   * `duration_display`: the span from `start` to `end` in seconds, written
   * as "{s}s" under a minute, "{m}m" on a whole minute and "{m}m {s}s"
   * otherwise; "-" when either time is missing or the span is negative.
   */
  function DurationDisplay(start: Option<int>, end: Option<int>): (r: string)
    ensures r == "-" <==> start.None? || end.None? || end.value - start.value < 0
  {
    if start.None? || end.None? then "-"
    else
      var total := end.value - start.value;
      if total < 0 then "-" else FormatSeconds(total)
  }

  /** The three shapes of a non-negative span, shown as its minutes and seconds. */
  function FormatSeconds(total: nat): string {
    Shown(total / 60, total % 60)
  }

  /** "{s}s" without minutes, "{m}m" without seconds, "{m}m {s}s" otherwise. */
  function Shown(minutes: nat, seconds: nat): string {
    if minutes == 0 then NatToString(seconds) + "s"
    else if seconds == 0 then NatToString(minutes) + "m"
    else NatToString(minutes) + "m " + NatToString(seconds) + "s"
  }

  /** The length of the run of decimal digits that `s` starts with. */
  function DigitRun(s: string): (k: nat)
    ensures k <= |s|
    ensures forall i :: 0 <= i < k ==> IsDigit(s[i])
    ensures k < |s| ==> !IsDigit(s[k])
  {
    if s != [] && IsDigit(s[0]) then 1 + DigitRun(s[1..]) else 0
  }

  /** A run of digits as `str(n)` writes it: no leading zero. */
  predicate Canonical(d: string)
    requires forall i :: 0 <= i < |d| ==> IsDigit(d[i])
  {
    d == NatToString(ParseNat(d))
  }

  /**
   * Reads a displayed duration back as a number of seconds. Only the three
   * shapes the filter writes are read: "{s}s" with fewer than 60 seconds,
   * "{m}m" from one minute on, and "{m}m {s}s" from one minute on with 1 to
   * 59 seconds, each number written without a leading zero. "-" and any
   * other text read as `None`.
   */
  function ParseDisplay(s: string): Option<int> {
    var k := DigitRun(s);
    if k == 0 || !Canonical(s[..k]) then None else ParseUnit(ParseNat(s[..k]), s[k..])
  }

  /** What follows the leading number `a`: "s", "m", or "m " with the seconds and "s". */
  function ParseUnit(a: nat, rest: string): Option<int> {
    if rest == "s" then (if a < 60 then Some(a) else None)
    else if rest == "m" then (if a >= 1 then Some(60 * a) else None)
    else if a >= 1 && |rest| >= 2 && rest[..2] == "m " then
      var t := rest[2..];
      var j := DigitRun(t);
      if j > 0 && t[j..] == "s" && Canonical(t[..j]) && 1 <= ParseNat(t[..j]) < 60
      then Some(60 * a + ParseNat(t[..j]))
      else None
    else None
  }

  /** The digits of `str(n)` end exactly where the text after them begins. */
  lemma DigitRunOfNumber(n: nat, rest: string)
    requires rest == [] || !IsDigit(rest[0])
    ensures DigitRun(NatToString(n) + rest) == |NatToString(n)|
    ensures (NatToString(n) + rest)[..|NatToString(n)|] == NatToString(n)
    ensures (NatToString(n) + rest)[|NatToString(n)|..] == rest
  {
    DigitPrefix(NatToString(n), rest);
  }

  lemma {:induction false} DigitPrefix(d: string, rest: string)
    requires forall i :: 0 <= i < |d| ==> IsDigit(d[i])
    requires rest == [] || !IsDigit(rest[0])
    ensures DigitRun(d + rest) == |d|
  {
    if d != [] {
      assert (d + rest)[1..] == d[1..] + rest;
      DigitPrefix(d[1..], rest);
    }
  }

  /**
   * The display loses nothing: reading it back gives the span in seconds,
   * and "-" reads back as no span at all.
   */
  lemma DisplayRoundTrip(start: Option<int>, end: Option<int>)
    ensures ParseDisplay(DurationDisplay(start, end))
            == if start.None? || end.None? || end.value - start.value < 0 then None
               else Some(end.value - start.value)
  {
    var r := DurationDisplay(start, end);
    if start.None? || end.None? || end.value - start.value < 0 {
      assert r == "-";
      DashReadsAsNothing();
    } else {
      var total: nat := end.value - start.value;
      assert r == FormatSeconds(total);
      FormatRoundTrip(total);
    }
  }

  lemma DashReadsAsNothing()
    ensures ParseDisplay("-") == None
  {
    assert DigitRun("-") == 0;
  }

  lemma FormatRoundTrip(total: nat)
    ensures ParseDisplay(FormatSeconds(total)) == Some(total)
  {
    assert 60 * (total / 60) + total % 60 == total;
    ShownRoundTrip(total / 60, total % 60);
  }

  /** Each of the three shapes reads back as the minutes and seconds it shows. */
  lemma ShownRoundTrip(minutes: nat, seconds: nat)
    requires seconds < 60
    ensures ParseDisplay(Shown(minutes, seconds)) == Some(60 * minutes + seconds)
  {
    if minutes == 0 {
      SecondsRoundTrip(seconds);
    } else if seconds == 0 {
      MinutesRoundTrip(minutes);
    } else {
      BothRoundTrip(minutes, seconds);
    }
  }

  /** A display starting with `str(n)` is read as `n` followed by its unit. */
  lemma ParseLeading(n: nat, rest: string)
    requires rest == [] || !IsDigit(rest[0])
    ensures ParseDisplay(NatToString(n) + rest) == ParseUnit(n, rest)
  {
    ParseNatToString(n);
    DigitRunOfNumber(n, rest);
  }

  lemma SecondsRoundTrip(s: nat)
    requires s < 60
    ensures ParseDisplay(NatToString(s) + "s") == Some(s)
  {
    ParseLeading(s, "s");
  }

  lemma MinutesRoundTrip(m: nat)
    requires m >= 1
    ensures ParseDisplay(NatToString(m) + "m") == Some(60 * m)
  {
    ParseLeading(m, "m");
  }

  lemma BothRoundTrip(m: nat, s: nat)
    requires m >= 1 && 1 <= s < 60
    ensures ParseDisplay(NatToString(m) + "m " + NatToString(s) + "s") == Some(60 * m + s)
  {
    var tail := "m " + (NatToString(s) + "s");
    Regroup(NatToString(m), "m ", NatToString(s), "s");
    ParseLeading(m, tail);
    SecondsAfterMinutes(m, s);
  }

  lemma Regroup(a: string, b: string, c: string, d: string)
    ensures a + b + c + d == a + (b + (c + d))
  {
  }

  lemma SecondsAfterMinutes(a: nat, s: nat)
    requires a >= 1 && 1 <= s < 60
    ensures ParseUnit(a, "m " + (NatToString(s) + "s")) == Some(60 * a + s)
  {
    var tail := "m " + (NatToString(s) + "s");
    assert tail[..2] == "m " && tail[2..] == NatToString(s) + "s";
    ParseNatToString(s);
    DigitRunOfNumber(s, "s");
  }

  /**
   * The minutes and seconds shown split the span as `60 * m + s` with
   * `0 <= s < 60`, minutes are shown exactly from one minute on, and that
   * split is the only one: any `m`, `s < 60` with `60 * m + s == total` is
   * the one shown.
   */
  lemma MinutesAndSeconds(total: nat)
    ensures 0 <= total % 60 < 60 && 60 * (total / 60) + total % 60 == total
    ensures total / 60 == 0 <==> total < 60
    ensures forall m: nat, s: nat :: s < 60 && 60 * m + s == total ==> FormatSeconds(total) == Shown(m, s)
  {
    forall m: nat, s: nat | s < 60 && 60 * m + s == total
      ensures FormatSeconds(total) == Shown(m, s)
    {
      assert total / 60 == m && total % 60 == s;
    }
  }

  /**
   * Nothing but the display of a span reads back as that span: a text that
   * reads as `t` seconds is exactly what the filter shows for `t`.
   */
  lemma DisplayOnlyShape(x: string, t: int)
    requires ParseDisplay(x) == Some(t)
    ensures t >= 0 && x == FormatSeconds(t)
  {
    var k := DigitRun(x);
    var a := ParseNat(x[..k]);
    assert x == x[..k] + x[k..];
    assert ParseUnit(a, x[k..]) == Some(t);
    UnitOnlyShape(a, x[k..], t);
  }

  /** The text after the leading number `a` reads as `t` only in the shape the filter shows for `t`. */
  lemma UnitOnlyShape(a: nat, rest: string, t: int)
    requires ParseUnit(a, rest) == Some(t)
    ensures t >= 0 && NatToString(a) + rest == FormatSeconds(t)
  {
    if rest == "s" {
      assert t == a < 60;
      ShownOnlyAs(0, a);
    } else if rest == "m" {
      assert t == 60 * a;
      ShownOnlyAs(a, 0);
    } else {
      BothOnlyShape(a, rest, t);
    }
  }

  lemma BothOnlyShape(a: nat, rest: string, t: int)
    requires rest != "s" && rest != "m"
    requires ParseUnit(a, rest) == Some(t)
    ensures t >= 0 && NatToString(a) + rest == FormatSeconds(t)
  {
    var tt := rest[2..];
    var j := DigitRun(tt);
    var b := ParseNat(tt[..j]);
    assert a >= 1 && 1 <= b < 60 && t == 60 * a + b;
    assert rest == "m " + (NatToString(b) + "s") by {
      assert tt == tt[..j] + "s";
      assert rest == rest[..2] + tt;
    }
    ShownOnlyAs(a, b);
    Regroup(NatToString(a), "m ", NatToString(b), "s");
  }

  /** The span of `m` minutes and `s < 60` seconds is displayed as `Shown(m, s)`. */
  lemma ShownOnlyAs(m: nat, s: nat)
    requires s < 60
    ensures FormatSeconds(60 * m + s) == Shown(m, s)
  {
    MinutesAndSeconds(60 * m + s);
  }
}
