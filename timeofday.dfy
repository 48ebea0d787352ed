/** `timeStringToDate` (js/dashboard.js): the parser for the time-of-day prefix of a
    lap-count line. The `Date` it builds is represented by its `getTime()` value. */
module TimeOfDay {

  import opened Wrappers

  predicate IsDigit(c: char) { '0' <= c <= '9' }

  predicate AllDigits(s: string) { forall i | 0 <= i < |s| :: IsDigit(s[i]) }

  function DigitValue(c: char): nat
    requires IsDigit(c)
  {
    c as int - '0' as int
  }

  function DigitChar(d: nat): (c: char)
    requires d < 10
    ensures IsDigit(c) && DigitValue(c) == d
  {
    ('0' as int + d) as char
  }

  /** `parseInt(s, 10)` for a non-empty string of decimal digits. */
  function ParseDecimal(s: string): nat
    requires AllDigits(s)
  {
    if s == [] then 0 else 10 * ParseDecimal(s[..|s| - 1]) + DigitValue(s[|s| - 1])
  }

  /** `s.padEnd(n, '0')`. */
  function PadEnd(s: string, n: nat): string
  {
    if |s| >= n then s else s + seq(n - |s|, _ => '0')
  }

  /** The regular expression test `/^\d{2}:\d{2}:\d{2}(\.\d{1,3})?$/`. */
  predicate MatchesTimePattern(s: string)
  {
    |s| >= 8
    && IsDigit(s[0]) && IsDigit(s[1]) && s[2] == ':'
    && IsDigit(s[3]) && IsDigit(s[4]) && s[5] == ':'
    && IsDigit(s[6]) && IsDigit(s[7])
    && (|s| == 8 || (10 <= |s| <= 12 && s[8] == '.' && AllDigits(s[9..])))
  }

  /** `date.setUTCHours(h, m, s, ms)` on `new Date(0)`: the day stays epoch day 0 and the
      time within it is computed linearly, so hours above 23 carry into later days. */
  function SetUtcHoursOnDayZero(h: nat, m: nat, s: nat, ms: nat): nat
  {
    h * 3600000 + m * 60000 + s * 1000 + ms
  }

  /** `timeStringToDate(timeStr)`, as `getTime()` of the returned `Date`; `None` is `null`. */
  function TimeStringToMillis(timeStr: string): Option<nat>
  {
    if timeStr == "" || !MatchesTimePattern(timeStr) then None
    else
      var mainTime := timeStr[..8];
      var msPart := if |timeStr| > 8 then timeStr[9..] else "000";
      assert AllDigits(PadEnd(msPart, 3));
      Some(SetUtcHoursOnDayZero(ParseDecimal(mainTime[0..2]), ParseDecimal(mainTime[3..5]),
                                ParseDecimal(mainTime[6..8]), ParseDecimal(PadEnd(msPart, 3))))
  }

  // ---------------------------------------------------------------------------------
  // The accepted strings, described independently of the parser.

  /** A clock reading as written in the lap log: two-digit hours, minutes and seconds
      (the pattern does not bound them by 24 or 60) and one to three fractional digits,
      or none. */
  datatype Clock = Clock(h: nat, m: nat, s: nat, frac: seq<nat>)
  {
    predicate Valid()
    {
      h < 100 && m < 100 && s < 100 && |frac| <= 3 && forall i | 0 <= i < |frac| :: frac[i] < 10
    }

    /** The milliseconds the fraction stands for: its digits are tenths, hundredths and
        thousandths of a second. */
    function FracMillis(): nat
    {
      (if |frac| > 0 then 100 * frac[0] else 0)
      + (if |frac| > 1 then 10 * frac[1] else 0)
      + (if |frac| > 2 then frac[2] else 0)
    }

    function Millis(): nat
    {
      ((h * 60 + m) * 60 + s) * 1000 + FracMillis()
    }
  }

  function TwoDigits(n: nat): string
    requires n < 100
  {
    [DigitChar(n / 10), DigitChar(n % 10)]
  }

  function DigitString(ds: seq<nat>): (r: string)
    requires forall i | 0 <= i < |ds| :: ds[i] < 10
    ensures |r| == |ds| && forall i | 0 <= i < |ds| :: IsDigit(r[i]) && DigitValue(r[i]) == ds[i]
  {
    if ds == [] then [] else [DigitChar(ds[0])] + DigitString(ds[1..])
  }

  /** The text of a clock reading: `HH:MM:SS` or `HH:MM:SS.f`, `.ff`, `.fff`. */
  function Format(c: Clock): string
    requires c.Valid()
  {
    TwoDigits(c.h) + ":" + TwoDigits(c.m) + ":" + TwoDigits(c.s)
    + (if c.frac == [] then "" else "." + DigitString(c.frac))
  }

  /** The clock reading a matching string spells. */
  function ClockOf(s: string): (c: Clock)
    requires MatchesTimePattern(s)
    ensures c.Valid()
  {
    var frac := if |s| > 8 then seq(|s| - 9, i requires 0 <= i < |s| - 9 => DigitValue(s[9 + i])) else [];
    Clock(10 * DigitValue(s[0]) + DigitValue(s[1]), 10 * DigitValue(s[3]) + DigitValue(s[4]),
          10 * DigitValue(s[6]) + DigitValue(s[7]), frac)
  }

  /** The value of up to three padded digits. */
  lemma ParseDecimalShort(s: string)
    requires AllDigits(s) && 1 <= |s| <= 3
    ensures |s| == 1 ==> ParseDecimal(s) == DigitValue(s[0])
    ensures |s| == 2 ==> ParseDecimal(s) == 10 * DigitValue(s[0]) + DigitValue(s[1])
    ensures |s| == 3 ==> ParseDecimal(s) == 100 * DigitValue(s[0]) + 10 * DigitValue(s[1]) + DigitValue(s[2])
  {
    if |s| > 1 {
      assert s[..|s| - 1][..|s| - 2] == s[..|s| - 2];
      if |s| == 3 { assert s[..1] == [s[0]] && s[..2][..1] == [s[0]]; }
    }
    assert s[..1][..0] == [];
  }

  /** The parser reads the fraction as the clock does: padding with zeros makes the
      digits tenths, hundredths and thousandths. */
  lemma {:induction false} FractionValue(s: string)
    requires MatchesTimePattern(s)
    ensures var msPart := if |s| > 8 then s[9..] else "000";
      AllDigits(PadEnd(msPart, 3)) && ParseDecimal(PadEnd(msPart, 3)) == ClockOf(s).FracMillis()
  {
    var msPart := if |s| > 8 then s[9..] else "000";
    var padded := PadEnd(msPart, 3);
    assert |padded| == 3;
    assert forall i | 0 <= i < 3 :: padded[i] == if i < |msPart| then msPart[i] else '0';
    ParseDecimalShort(padded);
  }

  /** The parser's value for a matching string is the milliseconds of the clock reading
      it spells. */
  lemma {:induction false} ParsedValue(s: string)
    requires MatchesTimePattern(s)
    ensures TimeStringToMillis(s) == Some(ClockOf(s).Millis())
  {
    var main := s[..8];
    ParseDecimalShort(main[0..2]);
    ParseDecimalShort(main[3..5]);
    ParseDecimalShort(main[6..8]);
    FractionValue(s);
  }

  /** Every clock reading, written out, is accepted, with its own value. */
  lemma {:induction false} FormatThenParse(c: Clock)
    requires c.Valid()
    ensures TimeStringToMillis(Format(c)) == Some(c.Millis())
  {
    var s := Format(c);
    var ds := DigitString(c.frac);
    assert c.frac != [] ==> s[9..] == ds;
    assert MatchesTimePattern(s);
    ParsedValue(s);
    var c' := ClockOf(s);
    assert c'.frac == c.frac;
    assert c' == c;
  }

  lemma TwoDigitsOf(a: char, b: char)
    requires IsDigit(a) && IsDigit(b)
    ensures TwoDigits(10 * DigitValue(a) + DigitValue(b)) == [a, b]
  {
  }

  lemma {:induction false} DigitStringOf(s: string)
    requires AllDigits(s)
    ensures DigitString(seq(|s|, i requires 0 <= i < |s| => DigitValue(s[i]))) == s
  {
    var ds := seq(|s|, i requires 0 <= i < |s| => DigitValue(s[i]));
    var r := DigitString(ds);
    forall i | 0 <= i < |s| ensures r[i] == s[i] {
      DigitValueInjective(r[i], s[i]);
    }
  }

  lemma DigitValueInjective(a: char, b: char)
    requires IsDigit(a) && IsDigit(b) && DigitValue(a) == DigitValue(b)
    ensures a == b
  {
  }

  /** A matching string is the written form of the clock reading it spells. */
  lemma FormatOfClockOf(s: string)
    requires MatchesTimePattern(s)
    ensures Format(ClockOf(s)) == s
  {
    var c := ClockOf(s);
    TwoDigitsOf(s[0], s[1]);
    TwoDigitsOf(s[3], s[4]);
    TwoDigitsOf(s[6], s[7]);
    var head := [s[0], s[1]] + ":" + [s[3], s[4]] + ":" + [s[6], s[7]];
    assert head == s[..8];
    if |s| > 8 {
      var tail := s[9..];
      DigitStringOf(tail);
      assert c.frac == seq(|tail|, i requires 0 <= i < |tail| => DigitValue(tail[i]));
      assert s == s[..8] + "." + tail;
    } else {
      assert s == s[..8];
    }
  }

  /** Only clock readings are accepted: a string the parser accepts is exactly the
      written form of a clock reading, and its value is that reading's milliseconds. */
  lemma ParseOnlyClockReadings(s: string)
    requires TimeStringToMillis(s).Some?
    ensures MatchesTimePattern(s) && Format(ClockOf(s)) == s
    ensures TimeStringToMillis(s) == Some(ClockOf(s).Millis())
  {
    FormatOfClockOf(s);
    ParsedValue(s);
  }

  /** A written clock reading starts with a digit and holds no `{`. */
  lemma FormatHasNoBrace(c: Clock)
    requires c.Valid()
    ensures |Format(c)| >= 8 && IsDigit(Format(c)[0])
    ensures forall k | 0 <= k < |Format(c)| :: Format(c)[k] != '{'
  {
    var s := Format(c);
    var ds := DigitString(c.frac);
    assert c.frac != [] ==> s[9..] == ds;
    assert forall k | 0 <= k < |s| :: IsDigit(s[k]) || s[k] == ':' || s[k] == '.';
  }
}
