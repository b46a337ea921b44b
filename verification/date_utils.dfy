/**
 * `DateUtils` (Meowwright/utils/date.utils.ts): token formatting, whole-day differences
 * and relative-time wording. A `Date` is the record of its local calendar fields plus
 * its millisecond timestamp; the time zone that relates the two is outside the model.
 */
module DateUtils {
  import opened Wrappers
  import opened Text

  /** A JS `Date`: local calendar fields (`month` is 0-based) and `getTime()`. */
  datatype Date = Date(
    fullYear: int, month: int, day: int,
    hours: int, minutes: int, seconds: int, milliseconds: int,
    time: int)

  /** The ranges a real `Date` keeps its calendar fields in. */
  predicate ValidFields(d: Date)
  {
    0 <= d.month <= 11 && 1 <= d.day <= 31 && 0 <= d.hours <= 23
    && 0 <= d.minutes <= 59 && 0 <= d.seconds <= 59 && 0 <= d.milliseconds <= 999
  }

  // ---------------------------------------------------------------------------------------
  // format
  // ---------------------------------------------------------------------------------------

  /** Characters of a decimal integer rendering. */
  predicate Numeric(s: string)
  {
    forall i :: 0 <= i < |s| ==> IsDigit(s[i]) || s[i] == '-'
  }

  /** `s.padStart(width, fill)`. */
  function PadStart(s: string, width: nat, fill: char): (r: string)
    ensures |r| == if |s| >= width then |s| else width
    ensures EndsWith(r, s)
    ensures forall i :: 0 <= i < |r| - |s| ==> r[i] == fill
  {
    if |s| >= width then s else seq(width - |s|, _ => fill) + s
  }

  /** `n.toString().padStart(width, '0')`. */
  function Pad(n: int, width: nat): (r: string)
    ensures Numeric(r)
  {
    IntToStringNumeric(n);
    PadStartNumeric(IntToString(n), width);
    PadStart(IntToString(n), width, '0')
  }

  /** Zero-padding keeps a string numeric. */
  lemma PadStartNumeric(s: string, width: nat)
    requires Numeric(s)
    ensures Numeric(PadStart(s, width, '0'))
  {
    var r := PadStart(s, width, '0');
    forall i | |r| - |s| <= i < |r|
      ensures r[i] == s[i - (|r| - |s|)]
    {
      assert r[|r| - |s|..][i - (|r| - |s|)] == r[i];
    }
  }

  /** `s.slice(-2)`: the last two characters, or all of a shorter string. */
  function LastTwo(s: string): (r: string)
    ensures |r| == if |s| >= 2 then 2 else |s|
    ensures EndsWith(s, r)
  {
    if |s| >= 2 then s[|s| - 2..] else s
  }

  /** The format used when none is given. */
  const DefaultFormat: string := "YYYY-MM-DD"

  /** The letters that begin a token. */
  const TokenHeads: string := "YMDHmsS"

  /** The rendered calendar fields a format draws on. */
  datatype Fields = Fields(
    year: string, month: string, day: string,
    hours: string, minutes: string, seconds: string, milliseconds: string)

  predicate NumericFields(f: Fields)
  {
    Numeric(f.year) && Numeric(f.month) && Numeric(f.day) && Numeric(f.hours)
    && Numeric(f.minutes) && Numeric(f.seconds) && Numeric(f.milliseconds)
  }

  /** The year as text, the 1-based month and the other fields zero-padded. */
  function RenderFields(d: Date): (f: Fields)
    ensures NumericFields(f)
  {
    IntToStringNumeric(d.fullYear);
    Fields(IntToString(d.fullYear), Pad(d.month + 1, 2), Pad(d.day, 2),
           Pad(d.hours, 2), Pad(d.minutes, 2), Pad(d.seconds, 2), Pad(d.milliseconds, 3))
  }

  /** The time tokens, in the order HH, mm, ss, SSS. */
  function TimeTokens(s: string, f: Fields): string
  {
    var s5 := ReplaceAll(s, "HH", f.hours);
    var s6 := ReplaceAll(s5, "mm", f.minutes);
    var s7 := ReplaceAll(s6, "ss", f.seconds);
    ReplaceAll(s7, "SSS", f.milliseconds)
  }

  /** The tokens after the year: MM, DD, then the time tokens. */
  function DateTokens(s: string, f: Fields): string
  {
    var s3 := ReplaceAll(s, "MM", f.month);
    var s4 := ReplaceAll(s3, "DD", f.day);
    TimeTokens(s4, f)
  }

  /**
   * The token substitution: each token is replaced everywhere it occurs in the result
   * of the previous step, in the order YYYY, YY, MM, DD, HH, mm, ss, SSS.
   */
  function Substitute(format: string, f: Fields): string
  {
    var s1 := ReplaceAll(format, "YYYY", f.year);
    var s2 := ReplaceAll(s1, "YY", LastTwo(f.year));
    DateTokens(s2, f)
  }

  /** `DateUtils.format(date, format)`. `None` stands for a missing or non-`Date` argument. */
  function FormatDate(date: Option<Date>, format: string): (r: string)
    ensures date.None? ==> r == ""
  {
    match date
    case None => ""
    case Some(d) => Substitute(format, RenderFields(d))
  }

  lemma IntToStringNumeric(i: int)
    ensures Numeric(IntToString(i))
  {
  }

  lemma NumericConcat(a: string, b: string)
    requires Numeric(a) && Numeric(b)
    ensures Numeric(a + b)
  {
  }

  /** No token letter occurs in a numeric string. */
  lemma NumericTokenFree(s: string)
    requires Numeric(s)
    ensures 'Y' !in s && 'M' !in s && 'D' !in s && 'H' !in s && 'm' !in s && 's' !in s && 'S' !in s
  {
  }

  /** The time tokens leave a string without their letters alone. */
  lemma TimeTokensIdle(s: string, f: Fields)
    requires 'H' !in s && 'm' !in s && 'S' !in s && 's' !in s
    ensures TimeTokens(s, f) == s
  {
    ReplaceAllNoHead(s, "HH", f.hours);
    ReplaceAllNoHead(s, "mm", f.minutes);
    ReplaceAllNoHead(s, "ss", f.seconds);
    ReplaceAllNoHead(s, "SSS", f.milliseconds);
  }

  /** The tokens after the year leave a numeric string alone. */
  lemma DateTokensIdle(s: string, f: Fields)
    requires Numeric(s)
    ensures DateTokens(s, f) == s
  {
    NumericTokenFree(s);
    ReplaceAllNoHead(s, "MM", f.month);
    ReplaceAllNoHead(s, "DD", f.day);
    TimeTokensIdle(s, f);
  }

  lemma DefaultYearStep(y: string)
    requires Numeric(y)
    ensures ReplaceAll(DefaultFormat, "YYYY", y) == y + "-MM-DD"
  {
    LeadingYear("-MM-DD", y);
    assert DefaultFormat == "YYYY" + "-MM-DD";
  }

  lemma LeadingYear(rest: string, y: string)
    requires 'Y' !in rest
    ensures ReplaceAll("YYYY" + rest, "YYYY", y) == y + rest
  {
    ReplaceAllOnce("", rest, "YYYY", y);
    assert "" + "YYYY" + rest == "YYYY" + rest;
    assert "" + y + rest == y + rest;
  }

  lemma DefaultMonthStep(y: string, m: string)
    requires Numeric(y)
    ensures ReplaceAll(y + "-MM-DD", "MM", m) == y + "-" + m + "-DD"
  {
    assert y + "-MM-DD" == (y + "-") + "MM" + "-DD";
    ReplaceAllOnce(y + "-", "-DD", "MM", m);
    assert (y + "-") + m + "-DD" == y + "-" + m + "-DD";
  }

  lemma DefaultDayStep(p: string, dd: string)
    requires 'D' !in p
    ensures ReplaceAll(p + "-DD", "DD", dd) == p + "-" + dd
  {
    assert p + "-DD" == (p + "-") + "DD" + "";
    ReplaceAllOnce(p + "-", "", "DD", dd);
    assert (p + "-") + dd + "" == p + "-" + dd;
  }

  /** The default format yields the year, the month and the day, joined by '-'. */
  lemma SubstituteDefault(f: Fields)
    requires NumericFields(f)
    ensures Substitute(DefaultFormat, f) == f.year + "-" + f.month + "-" + f.day
  {
    var y := f.year;
    DefaultYearStep(y);
    NumericConcat(y, "-");
    NumericTokenFree(y + "-");
    assert y + "-MM-DD" == (y + "-") + "MM-DD";
    ReplaceAllNoHead(y + "-MM-DD", "YY", LastTwo(y));
    DefaultMonthStep(y, f.month);
    var p := y + "-" + f.month;
    NumericConcat(y + "-", f.month);
    NumericTokenFree(p);
    assert y + "-" + f.month + "-DD" == p + "-DD";
    DefaultDayStep(p, f.day);
    NumericConcat(p, "-");
    NumericConcat(p + "-", f.day);
    NumericTokenFree(p + "-" + f.day);
    TimeTokensIdle(p + "-" + f.day, f);
  }

  /** The default format renders the year, the 1-based month and the day, joined by '-'. */
  lemma FormatDefault(d: Date)
    ensures FormatDate(Some(d), DefaultFormat)
         == IntToString(d.fullYear) + "-" + Pad(d.month + 1, 2) + "-" + Pad(d.day, 2)
  {
    SubstituteDefault(RenderFields(d));
  }

  /** Decimal renderings of small naturals have the expected number of digits. */
  lemma NatToStringLength(n: nat)
    ensures n < 100 ==> |NatToString(n)| <= 2
    ensures n < 1000 ==> |NatToString(n)| <= 3
    ensures 1000 <= n < 10000 ==> |NatToString(n)| == 4
  {
    if n >= 10 {
      NatToStringLength(n / 10);
    }
  }

  /** With a four-digit year the default format has ten characters. */
  lemma FormatDefaultLength(d: Date)
    requires ValidFields(d) && 1000 <= d.fullYear <= 9999
    ensures |FormatDate(Some(d), DefaultFormat)| == 10
  {
    FormatDefault(d);
    DefaultFieldLengths(d);
  }

  lemma DefaultFieldLengths(d: Date)
    requires ValidFields(d) && 1000 <= d.fullYear <= 9999
    ensures |IntToString(d.fullYear)| == 4 && |Pad(d.month + 1, 2)| == 2 && |Pad(d.day, 2)| == 2
  {
    NatToStringLength(d.fullYear);
    PadTwo(d.month + 1);
    PadTwo(d.day);
  }

  /** A number below 100, zero-padded to two places, has two characters. */
  lemma PadTwo(n: nat)
    requires n < 100
    ensures |Pad(n, 2)| == 2
  {
    NatToStringLength(n);
    assert IntToString(n) == NatToString(n);
  }

  /** A prefix of zeros does not change the value of a digit string. */
  lemma {:induction false} ParseLeadingZeros(z: string, s: string)
    requires forall i :: 0 <= i < |z| ==> z[i] == '0'
    requires AllDigits(s)
    ensures AllDigits(z + s) && ParseDigits(z + s) == ParseDigits(s)
    decreases |s|
  {
    if |s| == 0 {
      assert z + s == z;
      ParseZeros(z);
    } else {
      var t := z + s;
      assert t[..|t| - 1] == z + s[..|s| - 1];
      ParseLeadingZeros(z, s[..|s| - 1]);
    }
  }

  lemma {:induction false} ParseZeros(z: string)
    requires forall i :: 0 <= i < |z| ==> z[i] == '0'
    ensures AllDigits(z) && ParseDigits(z) == 0
    decreases |z|
  {
    if |z| > 0 {
      ParseZeros(z[..|z| - 1]);
    }
  }

  /**
   * A field that fits is padded to exactly the width, is all digits, and reads back
   * as the field's value.
   */
  lemma PadRoundTrip(n: nat, width: nat)
    requires |NatToString(n)| <= width
    ensures |Pad(n, width)| == width && AllDigits(Pad(n, width))
    ensures ParseDigits(Pad(n, width)) == n
  {
    var s := NatToString(n);
    var r := Pad(n, width);
    var z := r[..|r| - |s|];
    assert r == z + s;
    ParseLeadingZeros(z, s);
    ParseNatToString(n);
  }

  /** A field below 100 (or 1000) fills a width of two (or three) exactly. */
  lemma PadField(n: int, width: nat)
    requires 0 <= n && ((width == 2 && n < 100) || (width == 3 && n < 1000))
    ensures |Pad(n, width)| == width && AllDigits(Pad(n, width))
    ensures ParseDigits(Pad(n, width)) == n
  {
    NatToStringLength(n);
    PadRoundTrip(n, width);
  }

  /** Month, day, hours, minutes and seconds take two digits and milliseconds three. */
  lemma FieldWidths(d: Date)
    requires ValidFields(d)
    ensures |Pad(d.month + 1, 2)| == 2 && AllDigits(Pad(d.month + 1, 2)) && ParseDigits(Pad(d.month + 1, 2)) == d.month + 1
    ensures |Pad(d.day, 2)| == 2 && AllDigits(Pad(d.day, 2)) && ParseDigits(Pad(d.day, 2)) == d.day
    ensures |Pad(d.hours, 2)| == 2 && AllDigits(Pad(d.hours, 2)) && ParseDigits(Pad(d.hours, 2)) == d.hours
    ensures |Pad(d.minutes, 2)| == 2 && AllDigits(Pad(d.minutes, 2)) && ParseDigits(Pad(d.minutes, 2)) == d.minutes
    ensures |Pad(d.seconds, 2)| == 2 && AllDigits(Pad(d.seconds, 2)) && ParseDigits(Pad(d.seconds, 2)) == d.seconds
    ensures |Pad(d.milliseconds, 3)| == 3 && AllDigits(Pad(d.milliseconds, 3)) && ParseDigits(Pad(d.milliseconds, 3)) == d.milliseconds
  {
    PadField(d.month + 1, 2);
    PadField(d.day, 2);
    PadField(d.hours, 2);
    PadField(d.minutes, 2);
    PadField(d.seconds, 2);
    PadField(d.milliseconds, 3);
  }

  /** "YYYY" alone is replaced once and leaves nothing for the later tokens. */
  lemma SubstituteFullYear(f: Fields)
    requires NumericFields(f)
    ensures Substitute("YYYY", f) == f.year
  {
    var y := f.year;
    assert "" + "YYYY" + "" == "YYYY";
    ReplaceAllOnce("", "", "YYYY", y);
    assert ReplaceAll("YYYY", "YYYY", y) == y;
    NumericTokenFree(y);
    ReplaceAllNoHead(y, "YY", LastTwo(y));
    DateTokensIdle(y, f);
  }

  /** "YYYY" gives the whole year. */
  lemma FormatFullYear(d: Date)
    ensures FormatDate(Some(d), "YYYY") == IntToString(d.fullYear)
  {
    SubstituteFullYear(RenderFields(d));
  }

  lemma NumericLastTwo(y: string)
    requires Numeric(y)
    ensures Numeric(LastTwo(y))
  {
    if |y| >= 2 {
      var l := y[|y| - 2..];
      forall i | 0 <= i < |l|
        ensures IsDigit(l[i]) || l[i] == '-'
      {
        assert l[i] == y[|y| - 2 + i];
      }
    }
  }

  lemma ShortYearAlone(l: string)
    ensures ReplaceAll("YY", "YYYY", l) == "YY"
    ensures ReplaceAll("YY", "YY", l) == l
  {
    assert !Contains("Y", "YYYY");
    ReplaceAllAbsent("Y", "YYYY", l);
    ReplaceAllHead("", "YY", l);
    assert "YY" + "" == "YY";
    assert l + "" == l;
  }

  /** A lone "YY" yields the last two characters of the year. */
  lemma SubstituteShortYear(f: Fields)
    requires NumericFields(f)
    ensures Substitute("YY", f) == LastTwo(f.year)
  {
    var l := LastTwo(f.year);
    ShortYearAlone(l);
    NumericLastTwo(f.year);
    DateTokensIdle(l, f);
  }

  /** A lone "YY" gives the last two characters of the year, not a part of "YYYY". */
  lemma FormatShortYear(d: Date)
    ensures FormatDate(Some(d), "YY") == LastTwo(IntToString(d.fullYear))
  {
    SubstituteShortYear(RenderFields(d));
  }

  /** A format without any token letter is returned unchanged. */
  lemma FormatTokenFree(d: Date, format: string)
    requires forall i :: 0 <= i < |format| ==> format[i] !in TokenHeads
    ensures FormatDate(Some(d), format) == format
  {
    var f := RenderFields(d);
    assert 'Y' !in format && 'M' !in format && 'D' !in format;
    ReplaceAllNoHead(format, "YYYY", f.year);
    ReplaceAllNoHead(format, "YY", LastTwo(f.year));
    ReplaceAllNoHead(format, "MM", f.month);
    ReplaceAllNoHead(format, "DD", f.day);
    TimeTokensIdle(format, f);
  }

  // ---------------------------------------------------------------------------------------
  // diffInDays
  // ---------------------------------------------------------------------------------------

  const MsPerDay: nat := 1000 * 60 * 60 * 24

  function Abs(x: int): nat { if x < 0 then -x else x }

  /**
   * `DateUtils.diffInDays(date1, date2)`: the distance in whole days, rounded up. It is
   * the least number of days that covers the distance, so it does not depend on the
   * order of the arguments.
   */
  function DiffInDays(date1: Date, date2: Date): (r: nat)
    ensures r * MsPerDay >= Abs(date1.time - date2.time)
    ensures r > 0 ==> (r - 1) * MsPerDay < Abs(date1.time - date2.time)
    ensures r == 0 <==> date1.time == date2.time
  {
    var diff := Abs(date2.time - date1.time);
    (diff + MsPerDay - 1) / MsPerDay
  }

  // ---------------------------------------------------------------------------------------
  // getRelativeTime
  // ---------------------------------------------------------------------------------------

  datatype Unit = Second | Minute | Hour | Day | Month | Year

  /** The length of a unit in milliseconds; a month is 30 days and a year 12 months. */
  function UnitMs(u: Unit): nat
  {
    match u
    case Second => 1000
    case Minute => 60 * 1000
    case Hour => 60 * 60 * 1000
    case Day => MsPerDay
    case Month => 30 * MsPerDay
    case Year => 12 * 30 * MsPerDay
  }

  /** The next larger unit. */
  function Next(u: Unit): Unit
    requires u != Year
  {
    match u
    case Second => Minute
    case Minute => Hour
    case Hour => Day
    case Day => Month
    case Month => Year
  }

  function UnitName(u: Unit): string
  {
    match u
    case Second => "second"
    case Minute => "minute"
    case Hour => "hour"
    case Day => "day"
    case Month => "month"
    case Year => "year"
  }

  /** Cutting the distance down unit by unit equals dividing by the unit's length. */
  lemma CascadeDivisions(a: nat)
    ensures a / 1000 / 60 == a / UnitMs(Minute)
    ensures a / 1000 / 60 / 60 == a / UnitMs(Hour)
    ensures a / 1000 / 60 / 60 / 24 == a / UnitMs(Day)
    ensures a / 1000 / 60 / 60 / 24 / 30 == a / UnitMs(Month)
    ensures a / 1000 / 60 / 60 / 24 / 30 / 12 == a / UnitMs(Year)
  {
    var minutes := a / 1000 / 60;
    assert minutes == a / 60_000;
    var hours := minutes / 60;
    assert hours == a / 3_600_000;
    var days := hours / 24;
    assert days == a / 86_400_000;
    var months := days / 30;
    assert months == a / 2_592_000_000;
    assert months / 12 == a / 31_104_000_000;
  }

  /** How many whole units a distance holds. */
  function CountOf(absDiff: nat, u: Unit): nat
  {
    absDiff / UnitMs(u)
  }

  /**
   * The unit `getRelativeTime` reports for a distance, and the count of it: the
   * distance is cut down unit by unit (seconds, minutes, hours, days, months of 30
   * days, years of 12 months) and the largest unit with a non-zero count wins;
   * seconds are used when every larger count is zero.
   */
  function LargestUnit(absDiff: nat): (r: (Unit, nat))
    ensures r.1 == CountOf(absDiff, r.0)
    ensures r.0 != Second ==> r.1 > 0
    ensures r.0 != Year ==> absDiff < UnitMs(Next(r.0))
  {
    var seconds := absDiff / 1000;
    var minutes := seconds / 60;
    var hours := minutes / 60;
    var days := hours / 24;
    var months := days / 30;
    var years := months / 12;
    CascadeDivisions(absDiff);
    if years > 0 then (Year, years)
    else if months > 0 then (Month, months)
    else if days > 0 then (Day, days)
    else if hours > 0 then (Hour, hours)
    else if minutes > 0 then (Minute, minutes)
    else (Second, seconds)
  }

  /** "<n> <unit>", with an 's' unless `n` is 1. */
  function Count(n: nat, u: Unit): (r: string)
    ensures |r| > 0 && IsDigit(r[0]) && r[|r| - 1] != 'o'
    ensures r[|r| - 1] == 's' <==> n != 1
  {
    var digits := NatToString(n);
    var name := UnitName(u);
    var r := digits + " " + name + (if n == 1 then "" else "s");
    assert r[0] == digits[0];
    assert n == 1 ==> r[|r| - 1] == name[|name| - 1];
    r
  }

  lemma PastFrame(core: string)
    requires |core| > 0 && IsDigit(core[0])
    ensures var r := core + " ago";
      EndsWith(r, " ago") && !StartsWith(r, "in ") && (EndsWith(r, "s ago") <==> core[|core| - 1] == 's')
  {
    var r := core + " ago";
    assert r[0] == core[0];
    assert r[|r| - 4..] == " ago";
    if |core| >= 1 {
      assert r[|r| - 5..] == [core[|core| - 1]] + " ago";
    }
  }

  lemma FutureFrame(core: string)
    requires |core| > 0 && core[|core| - 1] != 'o'
    ensures var r := "in " + core;
      !EndsWith(r, " ago") && StartsWith(r, "in ") && (EndsWith(r, "s") <==> core[|core| - 1] == 's')
  {
    var r := "in " + core;
    assert r[..3] == "in ";
    assert r[|r| - 1] == core[|core| - 1];
  }

  /** "<n> <unit>[s] ago" for the past and "in <n> <unit>[s]" otherwise. */
  function Phrase(n: nat, u: Unit, past: bool): (r: string)
    ensures past <==> EndsWith(r, " ago")
    ensures !past <==> StartsWith(r, "in ")
    ensures past ==> (EndsWith(r, "s ago") <==> n != 1)
    ensures !past ==> (EndsWith(r, "s") <==> n != 1)
  {
    var core := Count(n, u);
    PastFrame(core);
    FutureFrame(core);
    if past then core + " ago" else "in " + core
  }

  /** A positive quotient means the dividend reaches the divisor. */
  lemma QuotientPositive(a: nat, m: nat)
    requires m > 0 && a / m > 0
    ensures a >= m
  {
  }

  /** The largest unit that fits a distance. */
  predicate LargestFit(absDiff: nat, u: Unit)
  {
    && (u != Second ==> absDiff >= UnitMs(u))
    && (u != Year ==> absDiff < UnitMs(Next(u)))
  }

  /** The unit `LargestUnit` picks is the largest that fits. */
  lemma LargestUnitFits(absDiff: nat)
    ensures LargestFit(absDiff, LargestUnit(absDiff).0)
  {
    var u := LargestUnit(absDiff).0;
    if u != Second {
      QuotientPositive(absDiff, UnitMs(u));
    }
  }

  /**
   * `DateUtils.getRelativeTime(date, baseDate)`; the default `baseDate` (the clock) is
   * an argument. A date before the base is in the past; an equal one is not. The phrase
   * counts the largest unit that fits the distance.
   */
  function RelativeTime(date: Date, baseDate: Date): (r: string)
    ensures date.time < baseDate.time <==> EndsWith(r, " ago")
    ensures date.time >= baseDate.time <==> StartsWith(r, "in ")
    ensures var a := Abs(date.time - baseDate.time);
      exists u: Unit :: r == Phrase(CountOf(a, u), u, date.time < baseDate.time) && LargestFit(a, u)
  {
    var a := Abs(date.time - baseDate.time);
    var largest := LargestUnit(a);
    LargestUnitFits(a);
    var r := Phrase(largest.1, largest.0, date.time < baseDate.time);
    assert r == Phrase(CountOf(a, largest.0), largest.0, date.time < baseDate.time)
      && LargestFit(a, largest.0);
    r
  }
}
