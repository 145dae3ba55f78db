/**
 * The clock as the scheduler sees it: a UTC instant already decomposed into
 * its calendar fields, and the two period markers formatted from it with
 * `strftime('%Y-%m-%d-%H')` (one per calendar hour) and `strftime('%Y-W%U')`
 * (one per Sunday-started week of the year).
 */
module Markers {
  import opened Wrappers
  import opened Text

  /** A UTC instant. `weekday` follows Python's `datetime.weekday()`
      (Monday is 0, Sunday is 6); `week` is the `%U` week of the year
      (weeks start on Sunday; days before the year's first Sunday are in week 0). */
  datatype Time = Time(year: int, month: int, day: int, hour: int, minute: int, weekday: int, week: int)

  /** The ranges `datetime` guarantees for its fields. */
  predicate WellFormed(t: Time) {
    && 1 <= t.year <= 9999
    && 1 <= t.month <= 12
    && 1 <= t.day <= 31
    && 0 <= t.hour <= 23
    && 0 <= t.minute <= 59
    && 0 <= t.weekday <= 6
    && 0 <= t.week <= 53
  }

  /** A calendar hour, the period of an hourly marker. */
  datatype HourPeriod = HourPeriod(year: nat, month: nat, day: nat, hour: nat)

  /** A `%U` week of a year, the period of a weekly marker. */
  datatype WeekPeriod = WeekPeriod(year: nat, week: nat)

  function HourOf(t: Time): (r: HourPeriod)
    requires WellFormed(t)
  {
    HourPeriod(t.year, t.month, t.day, t.hour)
  }

  function WeekOf(t: Time): (r: WeekPeriod)
    requires WellFormed(t)
  {
    WeekPeriod(t.year, t.week)
  }

  predicate ValidHourPeriod(p: HourPeriod) {
    p.year < 10000 && p.month < 100 && p.day < 100 && p.hour < 100
  }

  predicate ValidWeekPeriod(p: WeekPeriod) {
    p.year < 10000 && p.week < 100
  }

  /** `YYYY-MM-DD-HH`. */
  function FormatHour(p: HourPeriod): (r: string) {
    Pad(p.year, 4) + "-" + Pad(p.month, 2) + "-" + Pad(p.day, 2) + "-" + Pad(p.hour, 2)
  }

  /** `YYYY-Www`. */
  function FormatWeek(p: WeekPeriod): (r: string) {
    Pad(p.year, 4) + "-W" + Pad(p.week, 2)
  }

  /** `now_utc.strftime('%Y-%m-%d-%H')`. */
  function HourlyMarker(t: Time): (r: string)
    requires WellFormed(t)
    ensures ParseHourly(r) == Some(HourOf(t))
  {
    ParseFormatHour(HourOf(t));
    FormatHour(HourOf(t))
  }

  /** `now_utc.strftime('%Y-W%U')`. */
  function WeeklyMarker(t: Time): (r: string)
    requires WellFormed(t)
    ensures ParseWeekly(r) == Some(WeekOf(t))
  {
    ParseFormatWeek(WeekOf(t));
    FormatWeek(WeekOf(t))
  }

  /** Reads an hourly marker back; `None` for any other string. */
  function ParseHourly(s: string): (r: Option<HourPeriod>) {
    if |s| == 13 && s[4] == '-' && s[7] == '-' && s[10] == '-'
       && AllDigits(s[0..4]) && AllDigits(s[5..7]) && AllDigits(s[8..10]) && AllDigits(s[11..13])
    then Some(HourPeriod(DigitsValue(s[0..4]), DigitsValue(s[5..7]), DigitsValue(s[8..10]), DigitsValue(s[11..13])))
    else None
  }

  /** Reads a weekly marker back; `None` for any other string. */
  function ParseWeekly(s: string): (r: Option<WeekPeriod>) {
    if |s| == 8 && s[4] == '-' && s[5] == 'W' && AllDigits(s[0..4]) && AllDigits(s[6..8])
    then Some(WeekPeriod(DigitsValue(s[0..4]), DigitsValue(s[6..8])))
    else None
  }

  lemma HourFields(p: HourPeriod)
    ensures var s := FormatHour(p);
      && |s| == 13 && s[4] == '-' && s[7] == '-' && s[10] == '-'
      && s[0..4] == Pad(p.year, 4) && s[5..7] == Pad(p.month, 2)
      && s[8..10] == Pad(p.day, 2) && s[11..13] == Pad(p.hour, 2)
  {
  }

  /** Decoding an hourly marker gives back its hour. */
  lemma ParseFormatHour(p: HourPeriod)
    requires ValidHourPeriod(p)
    ensures ParseHourly(FormatHour(p)) == Some(p)
  {
    HourFields(p);
    PadRoundTrip(p.year, 4);
    PadRoundTrip(p.month, 2);
    PadRoundTrip(p.day, 2);
    PadRoundTrip(p.hour, 2);
  }

  lemma HourShape(s: string)
    requires |s| == 13
    ensures s == s[0..4] + [s[4]] + s[5..7] + [s[7]] + s[8..10] + [s[10]] + s[11..13]
  {
  }

  /** Every string that decodes as an hourly marker is the marker of the hour it decodes to. */
  lemma FormatParseHour(s: string)
    requires ParseHourly(s).Some?
    ensures ValidHourPeriod(ParseHourly(s).value)
    ensures FormatHour(ParseHourly(s).value) == s
  {
    var p := ParseHourly(s).value;
    DigitsRoundTrip(s[0..4]);
    DigitsRoundTrip(s[5..7]);
    DigitsRoundTrip(s[8..10]);
    DigitsRoundTrip(s[11..13]);
    assert [s[4]] == "-" && [s[7]] == "-" && [s[10]] == "-";
    HourShape(s);
  }

  lemma WeekFields(p: WeekPeriod)
    ensures var s := FormatWeek(p);
      && |s| == 8 && s[4] == '-' && s[5] == 'W'
      && s[0..4] == Pad(p.year, 4) && s[6..8] == Pad(p.week, 2)
  {
  }

  /** Decoding a weekly marker gives back its week. */
  lemma ParseFormatWeek(p: WeekPeriod)
    requires ValidWeekPeriod(p)
    ensures ParseWeekly(FormatWeek(p)) == Some(p)
  {
    WeekFields(p);
    PadRoundTrip(p.year, 4);
    PadRoundTrip(p.week, 2);
  }

  lemma WeekShape(s: string)
    requires |s| == 8
    ensures s == s[0..4] + [s[4], s[5]] + s[6..8]
  {
  }

  /** Every string that decodes as a weekly marker is the marker of the week it decodes to. */
  lemma FormatParseWeek(s: string)
    requires ParseWeekly(s).Some?
    ensures ValidWeekPeriod(ParseWeekly(s).value)
    ensures FormatWeek(ParseWeekly(s).value) == s
  {
    var p := ParseWeekly(s).value;
    DigitsRoundTrip(s[0..4]);
    DigitsRoundTrip(s[6..8]);
    assert [s[4], s[5]] == "-W";
    WeekShape(s);
  }

  /** Two instants produce the same hourly marker exactly when they fall in the same calendar hour. */
  lemma HourlyMarkerIdentifiesHour(t1: Time, t2: Time)
    requires WellFormed(t1) && WellFormed(t2)
    ensures HourlyMarker(t1) == HourlyMarker(t2) <==> HourOf(t1) == HourOf(t2)
  {
    ParseFormatHour(HourOf(t1));
    ParseFormatHour(HourOf(t2));
  }

  /** Two instants produce the same weekly marker exactly when they fall in the same `%U` week of the same year. */
  lemma WeeklyMarkerIdentifiesWeek(t1: Time, t2: Time)
    requires WellFormed(t1) && WellFormed(t2)
    ensures WeeklyMarker(t1) == WeeklyMarker(t2) <==> WeekOf(t1) == WeekOf(t2)
  {
    ParseFormatWeek(WeekOf(t1));
    ParseFormatWeek(WeekOf(t2));
  }
}
