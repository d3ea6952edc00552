/**
 The build stamp: a Unix timestamp as `YYYYMMDDHHmm`, computed with two loops
 over the Gregorian calendar.
 */
module BuildStamp {
  import opened Text

  const DAY := 86400

  predicate IsLeap(year: nat) {
    (year % 4 == 0 && year % 100 != 0) || year % 400 == 0
  }

  function YearLength(year: nat): nat {
    if IsLeap(year) then 366 else 365
  }

  function MonthLength(year: nat, month: nat): nat
    requires 1 <= month <= 12
  {
    [31, if IsLeap(year) then 29 else 28, 31, 30, 31, 30, 31, 31, 30, 31, 30, 31][month - 1]
  }

  /** Days from the epoch to the first of January. */
  function YearStart(year: nat): nat
    requires year >= 1970
  {
    if year == 1970 then 0 else YearStart(year - 1) + YearLength(year - 1)
  }

  /** Days from the first of January to the first of the month; month 13 is the end of the year. */
  function MonthStart(year: nat, month: nat): nat
    requires 1 <= month <= 13
  {
    if month == 1 then 0 else MonthStart(year, month - 1) + MonthLength(year, month - 1)
  }

  datatype Moment = Moment(year: nat, month: nat, day: nat, hour: nat, minute: nat)

  predicate Valid(m: Moment) {
    && m.year >= 1970 && 1 <= m.month <= 12 && 1 <= m.day <= MonthLength(m.year, m.month)
    && m.hour < 24 && m.minute < 60
  }

  function DayNumber(m: Moment): nat
    requires Valid(m)
  {
    YearStart(m.year) + MonthStart(m.year, m.month) + (m.day - 1)
  }

  /** Counted back: the first second of the minute. */
  function Seconds(m: Moment): nat
    requires Valid(m)
  {
    DayNumber(m) * DAY + m.hour * 3600 + m.minute * 60
  }

  /** The leap years before a year, counted by the three divisions. */
  function LeapsBefore(year: nat): int
    requires year >= 1970
  {
    (year - 1969) / 4 - (year - 1901) / 100 + (year - 1601) / 400
  }

  lemma FourthYear(year: nat)
    requires year > 1970
    ensures (year - 1969) / 4 == (year - 1970) / 4 + if (year - 1) % 4 == 0 then 1 else 0
  {}

  lemma HundredthYear(year: nat)
    requires year > 1970
    ensures (year - 1901) / 100 == (year - 1902) / 100 + if (year - 1) % 100 == 0 then 1 else 0
  {}

  lemma FourHundredthYear(year: nat)
    requires year > 1970
    ensures (year - 1601) / 400 == (year - 1602) / 400 + if (year - 1) % 400 == 0 then 1 else 0
  {}

  lemma LeapByDivisions(y: nat)
    ensures (if y % 4 == 0 then 1 else 0) - (if y % 100 == 0 then 1 else 0) + (if y % 400 == 0 then 1 else 0)
         == if IsLeap(y) then 1 else 0
  {
    if y % 400 == 0 {
      assert y == 100 * (4 * (y / 400));
    }
    if y % 100 == 0 {
      assert y == 4 * (25 * (y / 100));
    }
  }

  lemma LeapsStep(year: nat)
    requires year > 1970
    ensures LeapsBefore(year) == LeapsBefore(year - 1) + if IsLeap(year - 1) then 1 else 0
  {
    hide IsLeap;
    FourthYear(year);
    HundredthYear(year);
    FourHundredthYear(year);
    LeapByDivisions(year - 1);
  }

  /** The year lengths add up to the usual closed form. */
  lemma {:induction false} YearStartClosed(year: nat)
    requires year >= 1970
    ensures YearStart(year) == 365 * (year - 1970) + LeapsBefore(year)
  {
    if year > 1970 {
      YearStartClosed(year - 1);
      LeapsStep(year);
    }
  }

  lemma MonthsFillYear(year: nat)
    ensures MonthStart(year, 13) == YearLength(year)
  {
    var feb := if IsLeap(year) then 29 else 28;
    assert MonthStart(year, 2) == 31;
    assert MonthStart(year, 3) == 31 + feb;
    assert MonthStart(year, 4) == 62 + feb;
    assert MonthStart(year, 5) == 92 + feb;
    assert MonthStart(year, 6) == 123 + feb;
    assert MonthStart(year, 7) == 153 + feb;
    assert MonthStart(year, 8) == 184 + feb;
    assert MonthStart(year, 9) == 215 + feb;
    assert MonthStart(year, 10) == 245 + feb;
    assert MonthStart(year, 11) == 276 + feb;
    assert MonthStart(year, 12) == 306 + feb;
  }

  /** The two calendar loops. */
  method Calendar(secs: nat) returns (m: Moment)
    ensures Valid(m) && DayNumber(m) == secs / DAY
    ensures m.hour == secs % DAY / 3600 && m.minute == secs % DAY % 3600 / 60
  {
    var days: nat := secs / DAY;
    var timeOfDay := secs % DAY;
    var year: nat := 1970;
    while true
      invariant year >= 1970 && YearStart(year) + days == secs / DAY
      decreases days
    {
      var daysInYear := if IsLeap(year) then 366 else 365;
      if days < daysInYear {
        break;
      }
      days := days - daysInYear;
      year := year + 1;
    }
    var leap := IsLeap(year);
    var monthDays := [31, if leap then 29 else 28, 31, 30, 31, 30, 31, 31, 30, 31, 30, 31];
    MonthsFillYear(year);
    var month: nat := 1;
    for i := 0 to 12
      invariant month == i + 1
      invariant YearStart(year) + MonthStart(year, month) + days == secs / DAY
      invariant MonthStart(year, month) + days < MonthStart(year, 13)
    {
      if days < monthDays[i] {
        break;
      }
      days := days - monthDays[i];
      month := month + 1;
    }
    m := Moment(year, month, days + 1, timeOfDay / 3600, timeOfDay % 3600 / 60);
  }

  // ---- the inverse --------------------------------------------------------

  predicate Earlier(a: Moment, b: Moment) {
    || a.year < b.year
    || (a.year == b.year && (a.month < b.month
    || (a.month == b.month && (a.day < b.day
    || (a.day == b.day && (a.hour < b.hour
    || (a.hour == b.hour && a.minute < b.minute)))))))
  }

  lemma {:induction false} YearStartGrows(a: nat, b: nat)
    requires 1970 <= a < b
    ensures YearStart(a) + YearLength(a) <= YearStart(b)
    decreases b
  {
    if a < b - 1 { YearStartGrows(a, b - 1); }
  }

  lemma {:induction false} MonthStartGrows(year: nat, a: nat, b: nat)
    requires 1 <= a < b <= 13
    ensures MonthStart(year, a) + MonthLength(year, a) <= MonthStart(year, b)
    decreases b
  {
    if a < b - 1 { MonthStartGrows(year, a, b - 1); }
  }

  lemma DayInsideYear(m: Moment)
    requires Valid(m)
    ensures DayNumber(m) < YearStart(m.year) + YearLength(m.year)
  {
    MonthStartGrows(m.year, m.month, 13);
    MonthsFillYear(m.year);
  }

  lemma EarlierDay(a: Moment, b: Moment)
    requires Valid(a) && Valid(b)
    requires a.year < b.year || (a.year == b.year && (a.month < b.month || (a.month == b.month && a.day < b.day)))
    ensures DayNumber(a) < DayNumber(b)
  {
    if a.year < b.year {
      DayInsideYear(a);
      YearStartGrows(a.year, b.year);
    } else if a.month < b.month {
      MonthStartGrows(a.year, a.month, b.month);
    }
  }

  /** A date and time comes before another exactly when it counts back to fewer seconds. */
  lemma EarlierIsFewerSeconds(a: Moment, b: Moment)
    requires Valid(a) && Valid(b)
    ensures Earlier(a, b) <==> Seconds(a) < Seconds(b)
    ensures a == b <==> Seconds(a) == Seconds(b)
  {
    if a != b {
      if Earlier(a, b) {
        EarlierSeconds(a, b);
      } else {
        EarlierSeconds(b, a);
      }
    }
  }

  lemma EarlierSeconds(a: Moment, b: Moment)
    requires Valid(a) && Valid(b) && Earlier(a, b)
    ensures Seconds(a) < Seconds(b)
  {
    if a.year != b.year || a.month != b.month || a.day != b.day {
      EarlierDay(a, b);
      assert (DayNumber(a) + 1) * DAY <= DayNumber(b) * DAY;
    }
  }

  /** The moment the loops compute for a timestamp, characterised by counting back. */
  ghost predicate MomentOf(secs: nat, m: Moment) {
    Valid(m) && DayNumber(m) == secs / DAY && m.hour == secs % DAY / 3600 && m.minute == secs % DAY % 3600 / 60
  }

  lemma MomentIsValid(secs: nat, m: Moment)
    requires MomentOf(secs, m)
    ensures Valid(m)
  {}

  lemma EitherEarlier(a: Moment, b: Moment)
    requires a != b
    ensures Earlier(a, b) || Earlier(b, a)
  {}

  lemma WholeMinutes(time: nat, minutes: nat, seconds: nat)
    requires time == 60 * minutes + seconds && seconds < 60
    ensures time / 60 == minutes
  {}

  lemma TimeOfDay(time: nat)
    ensures time / 60 * 60 == time / 3600 * 3600 + time % 3600 / 60 * 60
  {
    var hours, rest := time / 3600, time % 3600;
    assert time == 3600 * hours + rest;
    WholeMinutes(time, 60 * hours + rest / 60, rest % 60);
  }

  /** A day is a whole number of minutes. */
  lemma MinutesOfDay(day: nat, time: nat)
    ensures (day * DAY + time) / 60 * 60 == day * DAY + time / 60 * 60
  {
    WholeMinutes(day * DAY + time, day * 1440 + time / 60, time % 60);
  }

  lemma MomentCountsBack(secs: nat, m: Moment)
    requires MomentOf(secs, m)
    ensures Seconds(m) == secs / 60 * 60
  {
    hide Valid, DayNumber;
    TimeOfDay(secs % DAY);
    MinutesOfDay(secs / DAY, secs % DAY);
  }

  /** The conversion inverts counting, and keeps the order of time. */
  lemma CalendarIsMonotone(s: nat, t: nat, a: Moment, b: Moment)
    requires MomentOf(s, a) && MomentOf(t, b)
    ensures s <= t ==> a == b || Earlier(a, b)
    ensures a == b <==> s / 60 == t / 60
  {
    hide Seconds, MomentOf, Earlier;
    MomentCountsBack(s, a);
    MomentCountsBack(t, b);
    assert Valid(a) && Valid(b) by { MomentIsValid(s, a); MomentIsValid(t, b); }
    EarlierIsFewerSeconds(a, b);
    if s <= t && a != b {
      assert Seconds(a) <= Seconds(b);
      EitherEarlier(a, b);
      EarlierIsFewerSeconds(b, a);
    }
  }

  // ---- the text -----------------------------------------------------------

  /** At least two digits. */
  function Pad2(n: nat): (s: string)
    requires n < 100
    ensures |s| == 2 && AllDigits(s) && Decimal(s) == n
  {
    if n < 10 then
      var s := ['0', DigitChar(n)];
      assert s[..1] == ['0'] && s[..1][..0] == [];
      assert Decimal(s[..1]) == 0;
      s
    else TwoDigits(n); Digits(n)
  }

  lemma TwoDigits(n: nat)
    requires 10 <= n < 100
    ensures |Digits(n)| == 2
  {
    assert |Digits(n / 10)| == 1;
  }

  function Stamp(m: Moment): string
    requires Valid(m)
  {
    Digits(m.year) + Pad2(m.month) + Pad2(m.day) + Pad2(m.hour) + Pad2(m.minute)
  }

  method FormatBuildTimestamp(secs: nat) returns (stamp: string)
    ensures exists m :: MomentOf(secs, m) && stamp == Stamp(m)
  {
    var m := Calendar(secs);
    stamp := Digits(m.year) + Pad2(m.month) + Pad2(m.day) + Pad2(m.hour) + Pad2(m.minute);
    assert MomentOf(secs, m) && stamp == Stamp(m);
  }

  /** Texts that end in as many characters are equal exactly part by part. */
  lemma SameEnds(x: string, y: string, u: string, v: string)
    requires x + y == u + v && |y| == |v|
    ensures x == u && y == v
  {
    assert (x + y)[..|x|] == x && (u + v)[..|u|] == u;
    assert (x + y)[|x|..] == y && (u + v)[|u|..] == v;
  }

  lemma SameParts(x: string, a: string, b: string, c: string, d: string,
      y: string, p: string, q: string, r: string, s: string)
    requires x + a + b + c + d == y + p + q + r + s
    requires |a| == |p| && |b| == |q| && |c| == |r| && |d| == |s|
    ensures x == y && a == p && b == q && c == r && d == s
  {
    SameEnds(x + a + b + c, d, y + p + q + r, s);
    SameEnds(x + a + b, c, y + p + q, r);
    SameEnds(x + a, b, y + p, q);
    SameEnds(x, a, y, p);
  }

  /** A stamp is read back by cutting two digits off its end four times. */
  lemma StampsDiffer(a: Moment, b: Moment)
    requires Valid(a) && Valid(b) && Stamp(a) == Stamp(b)
    ensures a == b
  {
    hide Digits, Pad2;
    SameParts(Digits(a.year), Pad2(a.month), Pad2(a.day), Pad2(a.hour), Pad2(a.minute),
      Digits(b.year), Pad2(b.month), Pad2(b.day), Pad2(b.hour), Pad2(b.minute));
    assert a.year == Decimal(Digits(a.year)) == Decimal(Digits(b.year)) == b.year;
  }

  /** Two builds carry the same stamp exactly when they fall in the same minute. */
  lemma SameStampSameMinute(s: nat, t: nat, a: Moment, b: Moment)
    requires MomentOf(s, a) && MomentOf(t, b)
    ensures Stamp(a) == Stamp(b) <==> s / 60 == t / 60
  {
    CalendarIsMonotone(s, t, a, b);
    if Stamp(a) == Stamp(b) { StampsDiffer(a, b); }
  }
}
