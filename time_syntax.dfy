/**
 * The time expressions of a timing file, `[[HH:]MM:]SS[.digits]`, and their
 * value. A time is an exact whole number of milliseconds: the fraction digits
 * are read as one integer and counted as milliseconds whatever their number,
 * so `03.12` is 3012 ms and `01:02:03.5` is 3723005 ms.
 */
module TimeSyntax {
  import opened Results
  import opened Text

  predicate TwoDigits(s: string) {
    |s| == 2 && IsDigit(s[0]) && IsDigit(s[1])
  }

  lemma TwoDigitsValue(s: string)
    requires TwoDigits(s)
    ensures DigitsValue(s) == 10 * DigitValue(s[0]) + DigitValue(s[1])
  {
    assert s[..1] == [s[0]] && s[..1][..0] == [];
    assert DigitsValue(s[..1]) == DigitValue(s[0]);
  }

  /** The pieces of a time expression, as the regular expression's named groups. */
  datatype TimeText = TimeText(
    hours: Option<string>,
    minutes: Option<string>,
    seconds: string,
    fraction: Option<string>)

  /** The grammar: two-digit fields, hours only together with minutes, a non-empty digit fraction. */
  predicate WellFormed(t: TimeText) {
    && (t.hours.Some? ==> t.minutes.Some? && TwoDigits(t.hours.value))
    && (t.minutes.Some? ==> TwoDigits(t.minutes.value))
    && TwoDigits(t.seconds)
    && (t.fraction.Some? ==> |t.fraction.value| >= 1 && AllDigits(t.fraction.value))
  }

  /** The text a well-formed time expression is written as. */
  function Render(t: TimeText): string {
    (if t.hours.Some? then t.hours.value + ":" else "")
    + (if t.minutes.Some? then t.minutes.value + ":" else "")
    + t.seconds
    + (if t.fraction.Some? then "." + t.fraction.value else "")
  }

  function FieldValue(f: Option<string>): nat {
    if f.Some? && AllDigits(f.value) then DigitsValue(f.value) else 0
  }

  /** H*3600000 + M*60000 + S*1000 + int(fraction), in milliseconds. */
  function Millis(t: TimeText): nat
    requires WellFormed(t)
  {
    3600000 * FieldValue(t.hours) + 60000 * FieldValue(t.minutes)
    + 1000 * DigitsValue(t.seconds) + FieldValue(t.fraction)
  }

  /** What may follow the seconds: nothing, or `.` and one or more digits. */
  predicate FractionOk(rest: string) {
    rest == [] || (|rest| >= 2 && rest[0] == '.' && AllDigits(rest[1..]))
  }

  function Fraction(rest: string): Option<string> {
    if rest == [] then None else Some(rest[1..])
  }

  /** `HH:MM:SS` followed by an optional fraction. */
  predicate LongForm(s: string) {
    |s| >= 8 && TwoDigits(s[..2]) && s[2] == ':' && TwoDigits(s[3..5]) && s[5] == ':'
    && TwoDigits(s[6..8]) && FractionOk(s[8..])
  }

  /** `MM:SS` followed by an optional fraction. */
  predicate MediumForm(s: string) {
    |s| >= 5 && TwoDigits(s[..2]) && s[2] == ':' && TwoDigits(s[3..5]) && FractionOk(s[5..])
  }

  /** `SS` followed by an optional fraction. */
  predicate ShortForm(s: string) {
    |s| >= 2 && TwoDigits(s[..2]) && FractionOk(s[2..])
  }

  /** The match of the time regular expression against the whole of `s`, with its groups. */
  function Lex(s: string): Option<TimeText> {
    if LongForm(s) then Some(TimeText(Some(s[..2]), Some(s[3..5]), s[6..8], Fraction(s[8..])))
    else if MediumForm(s) then Some(TimeText(None, Some(s[..2]), s[3..5], Fraction(s[5..])))
    else if ShortForm(s) then Some(TimeText(None, None, s[..2], Fraction(s[2..])))
    else None
  }

  /** Python's `$` also matches just before one final newline, so one trailing "\n" is ignored. */
  function MatchSubject(s: string): (m: string)
    ensures m == s || s == m + "\n"
  {
    if |s| > 0 && s[|s| - 1] == '\n' then s[..|s| - 1] else s
  }

  /** `parse_time`: the time in milliseconds, or None where the source returns False. */
  function ParseTime(s: string): Option<nat> {
    match Lex(MatchSubject(s))
    case None => None
    case Some(t) => if WellFormed(t) then Some(Millis(t)) else None
  }

  lemma FractionSound(rest: string)
    requires FractionOk(rest)
    ensures Fraction(rest).Some? ==> |Fraction(rest).value| >= 1 && AllDigits(Fraction(rest).value)
    ensures rest == if Fraction(rest).Some? then "." + Fraction(rest).value else ""
  {
  }

  /** Whatever the matcher accepts is a well-formed time expression written out exactly. */
  lemma LexSound(s: string)
    requires Lex(s).Some?
    ensures WellFormed(Lex(s).value) && Render(Lex(s).value) == s
  {
    var t := Lex(s).value;
    if LongForm(s) {
      FractionSound(s[8..]);
      assert s == s[..2] + ":" + s[3..5] + ":" + s[6..8] + s[8..];
    } else if MediumForm(s) {
      FractionSound(s[5..]);
      assert s == s[..2] + ":" + s[3..5] + s[5..];
    } else {
      FractionSound(s[2..]);
      assert s == s[..2] + s[2..];
    }
  }

  function FractionText(t: TimeText): string {
    if t.fraction.Some? then "." + t.fraction.value else ""
  }

  lemma FractionTextOk(t: TimeText)
    requires WellFormed(t)
    ensures FractionOk(FractionText(t)) && Fraction(FractionText(t)) == t.fraction
  {
    if t.fraction.Some? {
      assert FractionText(t)[1..] == t.fraction.value;
    }
  }

  /** Every well-formed time expression is accepted, with exactly its own groups. */
  lemma LexComplete(t: TimeText)
    requires WellFormed(t)
    ensures Lex(Render(t)) == Some(t)
  {
    var s := Render(t);
    var f := FractionText(t);
    FractionTextOk(t);
    assert f == [] || f[0] == '.';
    if t.hours.Some? {
      var h, m := t.hours.value, t.minutes.value;
      assert s == h + ":" + m + ":" + t.seconds + f;
      assert s[..2] == h && s[3..5] == m && s[6..8] == t.seconds && s[8..] == f;
    } else if t.minutes.Some? {
      var m := t.minutes.value;
      assert s == m + ":" + t.seconds + f;
      assert s[..2] == m && s[3..5] == t.seconds && s[5..] == f;
      assert |s| >= 8 ==> s[5] == f[0] && f[0] == '.';
    } else {
      assert s == t.seconds + f;
      assert s[..2] == t.seconds && s[2..] == f;
      assert |s| >= 5 ==> s[2] == f[0] && f[0] == '.';
    }
  }

  /** `parse_time` succeeds exactly on the well-formed time expressions (optionally followed by one newline). */
  lemma {:induction false} ParseTimeAccepts(s: string)
    ensures ParseTime(s).Some? <==>
      exists t :: WellFormed(t) && (s == Render(t) || s == Render(t) + "\n")
  {
    var m := MatchSubject(s);
    if ParseTime(s).Some? {
      LexSound(m);
      var t := Lex(m).value;
      assert WellFormed(t) && (s == Render(t) || s == Render(t) + "\n");
    }
    if t :| WellFormed(t) && (s == Render(t) || s == Render(t) + "\n") {
      LexComplete(t);
      if s == Render(t) + "\n" {
        assert m == Render(t);
      }
    }
  }

  /** On a well-formed time expression `parse_time` returns its value. */
  lemma ParseTimeValue(t: TimeText)
    requires WellFormed(t)
    ensures ParseTime(Render(t)) == Some(Millis(t))
    ensures ParseTime(Render(t) + "\n") == Some(Millis(t))
  {
    LexComplete(t);
    var s := Render(t);
    assert (s + "\n")[..|s|] == s;
    if |s| > 0 && s[|s| - 1] == '\n' {
      assert false;
    }
  }

  /** Worked values, including the literal reading of the fraction digits and the two-digit seconds rule. */
  lemma ParseTimeZero()
    ensures ParseTime("00") == Some(0)
  {
    var t := TimeText(None, None, "00", None);
    assert Render(t) == "00";
    TwoDigitsValue("00");
    ParseTimeValue(t);
  }

  lemma ParseTimeShortFraction()
    ensures ParseTime("03.12") == Some(3012)
  {
    var t := TimeText(None, None, "03", Some("12"));
    assert Render(t) == "03.12";
    TwoDigitsValue("03");
    assert DigitsValue("12") == 12 by {
      assert "12"[..1] == "1";
      assert DigitsValue("1") == 1 by { assert "1"[..0] == ""; }
    }
    assert Millis(t) == 3012;
    ParseTimeValue(t);
  }

  lemma ParseTimeOneDigitFraction()
    ensures ParseTime("01:02:03.5") == Some(3723005)
  {
    var t := TimeText(Some("01"), Some("02"), "03", Some("5"));
    assert Render(t) == "01:02:03.5";
    assert DigitsValue("5") == 5 by { assert "5"[..0] == ""; }
    TwoDigitsValue("01");
    TwoDigitsValue("02");
    TwoDigitsValue("03");
    assert Millis(t) == 3723005;
    ParseTimeValue(t);
  }

  lemma ParseTimeLongFraction()
    ensures ParseTime("00:01:00.1500") == Some(61500)
  {
    var t := TimeText(Some("00"), Some("01"), "00", Some("1500"));
    assert Render(t) == "00:01:00.1500";
    assert DigitsValue("1500") == 1500 by {
      assert "1500"[..3] == "150" && "150"[..2] == "15" && "15"[..1] == "1" && "1"[..0] == "";
    }
    TwoDigitsValue("00");
    TwoDigitsValue("01");
    assert Millis(t) == 61500;
    ParseTimeValue(t);
  }

  /** A bare two-digit seconds field. */
  lemma ParseTimeSeconds(s: string)
    requires TwoDigits(s)
    ensures ParseTime(s) == Some(1000 * DigitsValue(s))
  {
    var t := TimeText(None, None, s, None);
    assert Millis(t) == 1000 * DigitsValue(s);
    assert Render(t) == s;
    ParseTimeValue(t);
  }

  lemma ParseTimeSingleSecondDigit()
    ensures ParseTime("3.12") == None
  {
    assert MatchSubject("3.12") == "3.12";
    assert !TwoDigits("3.12"[..2]);
  }

  /** The canonical text used to write a time back out: `00.` and the milliseconds as digits. */
  function FormatTime(ms: nat): (s: string)
    ensures ParseTime(s) == Some(ms)
    ensures forall i :: 0 <= i < |s| ==> IsDigit(s[i]) || s[i] == '.'
  {
    var digits := NatToString(ms);
    var t := TimeText(None, None, "00", Some(digits));
    assert WellFormed(t);
    assert Millis(t) == ms by {
      TwoDigitsValue("00");
    }
    ParseTimeValue(t);
    assert Render(t) == "00." + digits;
    "00." + digits
  }
}
