/** The time-budget parser `_parse_slurm_time`: a SLURM time string in one of
    the layouts `MM:SS`, `HH:MM:SS` or `D-HH:MM:SS`, turned into a whole
    number of seconds. */
module SlurmTime {

  import opened Wrappers
  import opened Text

  /** The largest day count a Python `timedelta` holds. */
  const MaxDays: nat := 999999999

  /** The largest whole number of seconds a `timedelta` holds: 999999999
      days, 23 hours, 59 minutes and 59 seconds. */
  const MaxSeconds: nat := MaxDays * 86400 + 86399

  datatype TimeError =
    | CouldNotParse(text: string)   // the ValueError "Could not parse time '<text>'"
    | DaysOverflow(days: nat)       // the OverflowError raised by `timedelta` itself

  /** One `%H`, `%M` or `%S` directive of `strptime`: one or two ASCII digits
      whose value is at most `max`. (The `%S` pattern also admits 60 and 61,
      which the `datetime` constructor then rejects, so its bound is 59.) */
  predicate IsField(f: string, max: nat) {
    1 <= |f| <= 2 && AllDigits(f) && DigitsValue(f) <= max
  }

  /** The days part passed to `int()`. */
  predicate IsDayCount(d: string) {
    |d| > 0 && AllDigits(d)
  }

  /** The three fields of `H:M:S`, each within its range. */
  predicate HmsFields(h: string, m: string, s: string) {
    IsField(h, 23) && IsField(m, 59) && IsField(s, 59)
  }

  function HmsValue(h: string, m: string, s: string): nat
    requires HmsFields(h, m, s)
  {
    DigitsValue(h) * 3600 + DigitsValue(m) * 60 + DigitsValue(s)
  }

  /** The two fields of `M:S`, each within its range. */
  predicate MsFields(m: string, s: string) {
    IsField(m, 59) && IsField(s, 59)
  }

  function MsValue(m: string, s: string): nat
    requires MsFields(m, s)
  {
    DigitsValue(m) * 60 + DigitsValue(s)
  }

  function Hms(h: string, m: string, s: string): string {
    h + ":" + m + ":" + s
  }

  function Ms(m: string, s: string): string {
    m + ":" + s
  }

  function DayText(d: string, x: string): string {
    d + "-" + x
  }

  /** `strptime(x, "%H:%M:%S")`, reduced to the seconds it stands for: a
      time of day, so less than one day. */
  function ClockHMS(x: string): (r: Option<nat>)
    ensures r.Some? ==> Count(x, ':') == 2 && r.value < 86400
  {
    var p := Split(x, ':');
    if |p| == 3 && HmsFields(p[0], p[1], p[2]) then Some(HmsValue(p[0], p[1], p[2])) else None
  }

  /** `strptime(x, "%M:%S")`, reduced to the seconds it stands for: less
      than one hour. */
  function ClockMS(x: string): (r: Option<nat>)
    ensures r.Some? ==> Count(x, ':') == 1 && r.value < 3600
  {
    var p := Split(x, ':');
    if |p| == 2 && MsFields(p[0], p[1]) then Some(MsValue(p[0], p[1])) else None
  }

  /** `_parse_slurm_time`: a '-' selects the days layout, otherwise the number
      of ':' selects `HH:MM:SS` or `MM:SS`; every failure of the string's
      shape or of a field is reported with the offending text. */
  function ParseSlurmTime(t: string): (r: Result<nat, TimeError>)
    ensures r.Failure? ==> r.error == CouldNotParse(t) || r.error.DaysOverflow?
  {
    if '-' in t then
      var parts := Split(t, '-');
      if |parts| != 2 then Failure(CouldNotParse(t))
      else
        match (ClockHMS(parts[1]), Decimal(parts[0]))
        case (Some(c), Some(d)) =>
          if d > MaxDays then Failure(DaysOverflow(d)) else Success(d * 86400 + c)
        case _ => Failure(CouldNotParse(t))
    else if Count(t, ':') == 2 then
      match ClockHMS(t)
      case Some(c) => Success(c)
      case None => Failure(CouldNotParse(t))
    else if Count(t, ':') == 1 then
      match ClockMS(t)
      case Some(c) => Success(c)
      case None => Failure(CouldNotParse(t))
    else
      Failure(CouldNotParse(t))
  }

  // ---------------------------------------------------------------------
  // The accepted language, stated without `split`.

  /** The three layouts of a time budget, field by field as written. */
  datatype Layout =
    | MinSec(m: string, s: string)
    | HourMinSec(h: string, m: string, s: string)
    | DayClock(d: string, h: string, m: string, s: string)

  /** Every field of the layout is within its range. */
  predicate WellFormed(l: Layout) {
    match l
    case MinSec(m, s) => MsFields(m, s)
    case HourMinSec(h, m, s) => HmsFields(h, m, s)
    case DayClock(d, h, m, s) => IsDayCount(d) && HmsFields(h, m, s)
  }

  /** The string the layout is written as. */
  function Written(l: Layout): string {
    match l
    case MinSec(m, s) => Ms(m, s)
    case HourMinSec(h, m, s) => Hms(h, m, s)
    case DayClock(d, h, m, s) => DayText(d, Hms(h, m, s))
  }

  /** The day count of the layout; zero without a days part. */
  function Days(l: Layout): nat
    requires WellFormed(l)
  {
    if l.DayClock? then DigitsValue(l.d) else 0
  }

  /** The number of seconds the layout stands for. */
  function Seconds(l: Layout): nat
    requires WellFormed(l)
  {
    match l
    case MinSec(m, s) => MsValue(m, s)
    case HourMinSec(h, m, s) => HmsValue(h, m, s)
    case DayClock(d, h, m, s) => DigitsValue(d) * 86400 + HmsValue(h, m, s)
  }

  /** The meaning of a time budget: `t` is written in one of the layouts,
      with every field in range and a day count a `timedelta` holds, and
      stands for `n` seconds. */
  ghost predicate Denotes(t: string, n: nat) {
    exists l :: WellFormed(l) && Days(l) <= MaxDays && Written(l) == t && Seconds(l) == n
  }

  lemma HmsSplit(h: string, m: string, s: string)
    requires HmsFields(h, m, s)
    ensures Split(Hms(h, m, s), ':') == [h, m, s]
    ensures '-' !in Hms(h, m, s)
    ensures IsDigit(Hms(h, m, s)[0])
  {
    HmsPieces(h, m, s);
    HmsChars(h, m, s);
  }

  lemma HmsPieces(h: string, m: string, s: string)
    requires HmsFields(h, m, s)
    ensures Split(Hms(h, m, s), ':') == [h, m, s]
  {
    var parts := [h, m, s];
    JoinThree(parts, ':');
    SplitJoin(parts, ':');
  }

  lemma HmsChars(h: string, m: string, s: string)
    requires HmsFields(h, m, s)
    ensures '-' !in Hms(h, m, s)
    ensures IsDigit(Hms(h, m, s)[0])
  {
    assert Hms(h, m, s) == h + ":" + m + ":" + s;
  }

  lemma MsSplit(m: string, s: string)
    requires MsFields(m, s)
    ensures Split(Ms(m, s), ':') == [m, s]
    ensures '-' !in Ms(m, s)
    ensures IsDigit(Ms(m, s)[0])
  {
    var parts := [m, s];
    JoinTwo(parts, ':');
    SplitJoin(parts, ':');
  }

  lemma DaySplit(d: string, h: string, m: string, s: string)
    requires IsDayCount(d) && HmsFields(h, m, s)
    ensures '-' in DayText(d, Hms(h, m, s))
    ensures Split(DayText(d, Hms(h, m, s)), '-') == [d, Hms(h, m, s)]
    ensures IsDigit(DayText(d, Hms(h, m, s))[0])
  {
    var x := Hms(h, m, s);
    HmsSplit(h, m, s);
    assert DayText(d, x)[|d|] == '-';
    var parts := [d, x];
    JoinTwo(parts, '-');
    SplitJoin(parts, '-');
  }

  lemma JoinTwo(p: seq<string>, c: char)
    requires |p| == 2
    ensures Join(p, [c]) == p[0] + [c] + p[1]
  {
    assert p[1..] == [p[1]];
  }

  lemma JoinThree(p: seq<string>, c: char)
    requires |p| == 3
    ensures Join(p, [c]) == p[0] + [c] + p[1] + [c] + p[2]
  {
    JoinTwo(p[1..], c);
  }

  /** The clock a successful `%H:%M:%S` read came from. */
  lemma ClockHMSLayout(x: string) returns (l: Layout)
    requires ClockHMS(x).Some?
    ensures l.HourMinSec? && WellFormed(l) && Written(l) == x && Seconds(l) == ClockHMS(x).value
  {
    var p := Split(x, ':');
    JoinThree(p, ':');
    l := HourMinSec(p[0], p[1], p[2]);
  }

  /** The clock a successful `%M:%S` read came from. */
  lemma ClockMSLayout(x: string) returns (l: Layout)
    requires ClockMS(x).Some?
    ensures l.MinSec? && WellFormed(l) && Written(l) == x && Seconds(l) == ClockMS(x).value
  {
    var p := Split(x, ':');
    JoinTwo(p, ':');
    l := MinSec(p[0], p[1]);
  }

  /** The layout of a string the days branch reads: its day count and its
      clock. */
  lemma DayLayout(t: string) returns (l: Layout)
    requires '-' in t && |Split(t, '-')| == 2
    requires ClockHMS(Split(t, '-')[1]).Some? && Decimal(Split(t, '-')[0]).Some?
    ensures l.DayClock? && WellFormed(l) && Written(l) == t
    ensures Days(l) == Decimal(Split(t, '-')[0]).value
    ensures Seconds(l) == Days(l) * 86400 + ClockHMS(Split(t, '-')[1]).value
  {
    var parts := Split(t, '-');
    var c := ClockHMSLayout(parts[1]);
    JoinTwo(parts, '-');
    l := DayClock(parts[0], c.h, c.m, c.s);
  }

  /** Every well-formed layout within the day limit parses to its seconds. */
  lemma ParseLayout(l: Layout, t: string)
    requires WellFormed(l) && Days(l) <= MaxDays && t == Written(l)
    ensures var r := ParseSlurmTime(t); r.Success? && r.value == Seconds(l)
  {
    match l
    case MinSec(m, s) => ParseMinSecLayout(m, s);
    case HourMinSec(h, m, s) => ParseHourMinSecLayout(h, m, s);
    case DayClock(d, h, m, s) => ParseDayClockLayout(d, h, m, s);
  }

  lemma ParseMinSecLayout(m: string, s: string)
    requires WellFormed(MinSec(m, s))
    ensures var r := ParseSlurmTime(Written(MinSec(m, s)));
      r.Success? && r.value == Seconds(MinSec(m, s))
  {
    MsSplit(m, s);
  }

  lemma ParseHourMinSecLayout(h: string, m: string, s: string)
    requires WellFormed(HourMinSec(h, m, s))
    ensures var r := ParseSlurmTime(Written(HourMinSec(h, m, s)));
      r.Success? && r.value == Seconds(HourMinSec(h, m, s))
  {
    HmsSplit(h, m, s);
  }

  lemma ParseDayClockLayout(d: string, h: string, m: string, s: string)
    requires WellFormed(DayClock(d, h, m, s)) && Days(DayClock(d, h, m, s)) <= MaxDays
    ensures var r := ParseSlurmTime(Written(DayClock(d, h, m, s)));
      r.Success? && r.value == Seconds(DayClock(d, h, m, s))
  {
    DaySplit(d, h, m, s);
    HmsSplit(h, m, s);
  }

  /** A well-formed days layout beyond the limit is the overflow error. */
  lemma ParseLayoutOverflow(l: Layout, t: string)
    requires l.DayClock? && WellFormed(l) && Days(l) > MaxDays && t == Written(l)
    ensures ParseSlurmTime(t) == Failure(DaysOverflow(Days(l)))
  {
    DaySplit(l.d, l.h, l.m, l.s);
    HmsSplit(l.h, l.m, l.s);
  }

  lemma {:induction false} ParseSucceedsOnlyOnDenoted(t: string, n: nat)
    requires ParseSlurmTime(t) == Success(n)
    ensures Denotes(t, n)
  {
    var l;
    if '-' in t {
      l := DayLayout(t);
    } else if Count(t, ':') == 2 {
      l := ClockHMSLayout(t);
    } else {
      l := ClockMSLayout(t);
    }
    assert WellFormed(l) && Days(l) <= MaxDays && Written(l) == t && Seconds(l) == n;
  }

  lemma {:induction false} ParseAcceptsDenoted(t: string, n: nat)
    requires Denotes(t, n)
    ensures ParseSlurmTime(t) == Success(n)
  {
    var l :| WellFormed(l) && Days(l) <= MaxDays && Written(l) == t && Seconds(l) == n;
    ParseLayout(l, t);
  }

  /** The parser accepts exactly the strings of `Denotes`, with their value. */
  lemma ParseSlurmTimeMeaning(t: string, n: nat)
    ensures ParseSlurmTime(t) == Success(n) <==> Denotes(t, n)
  {
    if ParseSlurmTime(t) == Success(n) {
      ParseSucceedsOnlyOnDenoted(t, n);
    }
    if Denotes(t, n) {
      ParseAcceptsDenoted(t, n);
    }
  }

  /** The overflow error arises exactly for a well-formed `D-H:M:S` string
      whose day count exceeds what a `timedelta` holds. */
  lemma {:induction false} ParseSlurmTimeOverflow(t: string, days: nat)
    ensures ParseSlurmTime(t) == Failure(DaysOverflow(days)) <==>
            days > MaxDays && exists l: Layout :: l.DayClock? && WellFormed(l) && Written(l) == t && Days(l) == days
  {
    if ParseSlurmTime(t) == Failure(DaysOverflow(days)) {
      var l := DayLayout(t);
      assert l.DayClock? && WellFormed(l) && Written(l) == t && Days(l) == days;
    }
    if days > MaxDays && exists l: Layout :: l.DayClock? && WellFormed(l) && Written(l) == t && Days(l) == days {
      var l: Layout :| l.DayClock? && WellFormed(l) && Written(l) == t && Days(l) == days;
      ParseLayoutOverflow(l, t);
    }
  }

  /** A string with no '-' and neither one nor two ':', or with more than one
      '-', is rejected whatever its characters are. */
  lemma {:induction false} ParseSlurmTimeRejectsShape(t: string)
    requires ('-' !in t && Count(t, ':') != 1 && Count(t, ':') != 2) || Count(t, '-') >= 2
    ensures ParseSlurmTime(t) == Failure(CouldNotParse(t))
  {
    CountZero(t, '-');
  }

  /** Every layout is written starting with a digit. */
  lemma LayoutStartsWithDigit(l: Layout)
    requires WellFormed(l)
    ensures |Written(l)| > 0 && IsDigit(Written(l)[0])
  {
    match l
    case MinSec(m, s) => MsSplit(m, s);
    case HourMinSec(h, m, s) => HmsSplit(h, m, s);
    case DayClock(d, h, m, s) => DaySplit(d, h, m, s);
  }

  /** Every accepted string, and every string that overflows, starts with a
      digit: anything else is rejected as unparsable. */
  lemma {:induction false} ParseSlurmTimeRejectsNonDigitStart(t: string)
    requires |t| > 0 && !IsDigit(t[0])
    ensures ParseSlurmTime(t) == Failure(CouldNotParse(t))
  {
    var r := ParseSlurmTime(t);
    if r.Success? {
      ParseSucceedsOnlyOnDenoted(t, r.value);
      var l :| WellFormed(l) && Days(l) <= MaxDays && Written(l) == t && Seconds(l) == r.value;
      LayoutStartsWithDigit(l);
    } else if r.error.DaysOverflow? {
      var l := DayLayout(t);
      LayoutStartsWithDigit(l);
    }
  }

  /** Every value the parser returns fits in a `timedelta`. */
  lemma {:induction false} ParseSlurmTimeBound(t: string)
    ensures ParseSlurmTime(t).Success? ==> ParseSlurmTime(t).value <= MaxSeconds
  {
    var r := ParseSlurmTime(t);
    if r.Success? {
      ParseSucceedsOnlyOnDenoted(t, r.value);
      var l :| WellFormed(l) && Days(l) <= MaxDays && Written(l) == t && Seconds(l) == r.value;
      LayoutWithinLimit(l);
    }
  }

  lemma LayoutWithinLimit(l: Layout)
    requires WellFormed(l) && Days(l) <= MaxDays
    ensures Seconds(l) <= MaxSeconds
  {
    match l
    case MinSec(m, s) =>
    case HourMinSec(h, m, s) =>
    case DayClock(d, h, m, s) =>
      assert DigitsValue(d) * 86400 <= MaxDays * 86400;
  }

  // ---------------------------------------------------------------------
  // Writing a time budget, and reading it back.

  /** Two-digit zero-padded rendering of a field. */
  function Pad2(v: nat): (f: string)
    requires v < 100
    ensures |f| == 2 && AllDigits(f) && DigitsValue(f) == v
  {
    var f := [DigitChar(v / 10), DigitChar(v % 10)];
    assert f[..1] == [DigitChar(v / 10)] && f[..1][..0] == [];
    assert DigitsValue(f[..1]) == v / 10;
    f
  }

  /** The `HH:MM:SS` layout with zero-padded fields. */
  function ClockLayout(h: nat, m: nat, s: nat): (l: Layout)
    requires h < 24 && m < 60 && s < 60
    ensures WellFormed(l) && Days(l) == 0 && Seconds(l) == h * 3600 + m * 60 + s
  {
    HourMinSec(Pad2(h), Pad2(m), Pad2(s))
  }

  /** The `MM:SS` layout with zero-padded fields. */
  function MinutesLayout(m: nat, s: nat): (l: Layout)
    requires m < 60 && s < 60
    ensures WellFormed(l) && Days(l) == 0 && Seconds(l) == m * 60 + s
  {
    MinSec(Pad2(m), Pad2(s))
  }

  /** The `D-HH:MM:SS` layout with `str(d)` days and zero-padded fields. */
  function DaysLayout(d: nat, h: nat, m: nat, s: nat): (l: Layout)
    requires h < 24 && m < 60 && s < 60
    ensures WellFormed(l) && Days(l) == d && Seconds(l) == d * 86400 + h * 3600 + m * 60 + s
  {
    DayClock(NatToDecimal(d), Pad2(h), Pad2(m), Pad2(s))
  }

  function FormatClock(h: nat, m: nat, s: nat): string
    requires h < 24 && m < 60 && s < 60
  {
    Written(ClockLayout(h, m, s))
  }

  function FormatMinutes(m: nat, s: nat): string
    requires m < 60 && s < 60
  {
    Written(MinutesLayout(m, s))
  }

  function FormatDays(d: nat, h: nat, m: nat, s: nat): string
    requires h < 24 && m < 60 && s < 60
  {
    Written(DaysLayout(d, h, m, s))
  }

  /** Every zero-padded `HH:MM:SS` clock reads back as its seconds. */
  lemma {:induction false} ParseFormatClock(h: nat, m: nat, s: nat)
    requires h < 24 && m < 60 && s < 60
    ensures var r := ParseSlurmTime(FormatClock(h, m, s));
      r.Success? && r.value == h * 3600 + m * 60 + s
  {
    var l := ClockLayout(h, m, s);
    ParseLayout(l, Written(l));
  }

  /** Every zero-padded `MM:SS` clock reads back as its seconds. */
  lemma {:induction false} ParseFormatMinutes(m: nat, s: nat)
    requires m < 60 && s < 60
    ensures var r := ParseSlurmTime(FormatMinutes(m, s));
      r.Success? && r.value == m * 60 + s
  {
    var l := MinutesLayout(m, s);
    ParseLayout(l, Written(l));
  }

  /** A day count within range gives days and clock together; one beyond it is
      the overflow error. */
  lemma {:induction false} ParseFormatDays(d: nat, h: nat, m: nat, s: nat)
    requires h < 24 && m < 60 && s < 60
    ensures var r := ParseSlurmTime(FormatDays(d, h, m, s));
      && (d <= MaxDays ==> r.Success? && r.value == d * 86400 + h * 3600 + m * 60 + s)
      && (d > MaxDays ==> r == Failure(DaysOverflow(d)))
  {
    if d <= MaxDays {
      ParseLayout(DaysLayout(d, h, m, s), FormatDays(d, h, m, s));
    } else {
      ParseLayoutOverflow(DaysLayout(d, h, m, s), FormatDays(d, h, m, s));
    }
  }

  /** A well-formed `HH:MM:SS` text reads back as its seconds. */
  lemma ParseHms(h: string, m: string, s: string)
    requires HmsFields(h, m, s)
    ensures ParseSlurmTime(Hms(h, m, s)) == Success(HmsValue(h, m, s))
  {
    ParseLayout(HourMinSec(h, m, s), Hms(h, m, s));
  }

  /** The values the repository's tests pin down. */
  lemma ParseExampleClock()
    ensures ParseSlurmTime("02:30:00") == Success(9000)
  {
    assert HmsFields("02", "30", "00") && HmsValue("02", "30", "00") == 9000;
    ParseHms("02", "30", "00");
    assert Hms("02", "30", "00") == "02:30:00";
  }

  lemma ParseExampleHour()
    ensures ParseSlurmTime("01:00:00") == Success(3600)
  {
    assert HmsFields("01", "00", "00") && HmsValue("01", "00", "00") == 3600;
    ParseHms("01", "00", "00");
    assert Hms("01", "00", "00") == "01:00:00";
  }

  lemma ParseExampleHalfHour()
    ensures ParseSlurmTime("00:30:00") == Success(1800)
  {
    assert HmsFields("00", "30", "00") && HmsValue("00", "30", "00") == 1800;
    ParseHms("00", "30", "00");
    assert Hms("00", "30", "00") == "00:30:00";
  }

  lemma ParseExampleTwoHours()
    ensures ParseSlurmTime("02:00:00") == Success(7200)
  {
    assert HmsFields("02", "00", "00") && HmsValue("02", "00", "00") == 7200;
    ParseHms("02", "00", "00");
    assert Hms("02", "00", "00") == "02:00:00";
  }

  lemma ParseExampleMinutes()
    ensures ParseSlurmTime("45:00") == Success(2700)
  {
    var l := MinSec("45", "00");
    assert DigitsValue("45") == 45 by { assert "45"[..1] == "4"; }
    assert WellFormed(l) && Seconds(l) == 2700;
    ParseLayout(l, "45:00");
  }

  lemma ParseExampleDays()
    ensures ParseSlurmTime("2-12:00:00") == Success(216000)
  {
    var l := DayClock("2", "12", "00", "00");
    assert WellFormed(l) && Days(l) == 2 && Seconds(l) == 216000;
    ParseLayout(l, "2-12:00:00");
  }

  lemma ParseExampleRejected()
    ensures ParseSlurmTime("not-a-time") == Failure(CouldNotParse("not-a-time"))
  {
    ParseSlurmTimeRejectsNonDigitStart("not-a-time");
  }

  /** A bare number of seconds has no ':' and is refused like any other text. */
  lemma ParseExampleBareNumber()
    ensures ParseSlurmTime("60") == Failure(CouldNotParse("60"))
  {
    assert "60" == "6" + "0";
    CountAppend("6", "0", ':');
    ParseSlurmTimeRejectsShape("60");
  }
}
