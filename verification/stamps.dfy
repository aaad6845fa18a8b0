/**
 * Timestamps as pandas compares them: a calendar date, a second of the day
 * and a sub-second part, ordered lexicographically, with `.date()` as the
 * projection to the calendar date and strftime("%Y-%m-%d %H:%M:%S") as text.
 */
module Stamps {
  import opened Common
  import opened Text

  datatype Date = Date(year: int, month: int, day: int)

  type SecondOfDay = s: int | 0 <= s < 86400
  type Nanos = n: int | 0 <= n < 1000000000

  /** A point in time: its calendar date, the second within that day, and the nanoseconds within that second. */
  datatype Instant = Instant(date: Date, second: SecondOfDay, nanos: Nanos)

  /** Calendar order of dates. */
  predicate DateBefore(a: Date, b: Date) {
    || a.year < b.year
    || (a.year == b.year && (a.month < b.month || (a.month == b.month && a.day < b.day)))
  }

  /** `a < b` on timestamps: full precision, date first, then time of day. */
  predicate Before(a: Instant, b: Instant) {
    || DateBefore(a.date, b.date)
    || (a.date == b.date && (a.second < b.second || (a.second == b.second && a.nanos < b.nanos)))
  }

  /** `a <= b` on timestamps. */
  predicate AtOrBefore(a: Instant, b: Instant) {
    !Before(b, a)
  }

  /** `Before` is a strict total order, so `AtOrBefore` is a total order. */
  lemma BeforeIsStrictTotalOrder(a: Instant, b: Instant, c: Instant)
    ensures !Before(a, a)
    ensures Before(a, b) && Before(b, c) ==> Before(a, c)
    ensures Before(a, b) || a == b || Before(b, a)
    ensures AtOrBefore(a, b) && AtOrBefore(b, a) ==> a == b
  {
  }

  /** The first and the last instant of a calendar day. */
  function StartOfDay(d: Date): Instant {
    Instant(d, 0, 0)
  }

  function EndOfDay(d: Date): Instant {
    Instant(d, 86399, 999999999)
  }

  /** Comparing calendar dates is comparing against the whole day, both ends included. */
  lemma SameDateIffWithinDay(x: Instant, d: Date)
    ensures x.date == d <==> AtOrBefore(StartOfDay(d), x) && AtOrBefore(x, EndOfDay(d))
  {
  }

  /** Years a four-digit `%Y` can show; every pandas timestamp lies in this range. */
  predicate ValidInstant(t: Instant) {
    && 1000 <= t.date.year <= 9999
    && 1 <= t.date.month <= 12
    && 1 <= t.date.day <= 31
  }

  /** The fixed `YYYY-MM-DD HH:MM:SS` layout around six digit fields. */
  function Layout(y: string, mo: string, d: string, h: string, mi: string, se: string): string {
    y + "-" + mo + "-" + d + " " + h + ":" + mi + ":" + se
  }

  /** `strftime("%Y-%m-%d %H:%M:%S")`: the sub-second part is not shown. */
  function FormatStamp(t: Instant): (s: string)
    ensures |s| == 19
  {
    var minutes := t.second / 60;
    Layout(Digits(t.date.year, 4), Digits(t.date.month, 2), Digits(t.date.day, 2),
           Digits(minutes / 60, 2), Digits(minutes % 60, 2), Digits(t.second % 60, 2))
  }

  /** Reads the `YYYY-MM-DD HH:MM:SS` layout back; the reference inverse of `FormatStamp`. */
  function ParseStamp(s: string): (r: Option<Instant>)
    ensures r.Some? ==> r.value.nanos == 0
  {
    if |s| != 19 || s[4] != '-' || s[7] != '-' || s[10] != ' ' || s[13] != ':' || s[16] != ':' then None
    else
      match ParseDate(s[0..4], s[5..7], s[8..10])
      case None => None
      case Some(date) =>
        match ParseClock(s[11..13], s[14..16], s[17..19])
        case None => None
        case Some(second) => Some(Instant(date, second, 0))
  }

  function ParseDate(y: string, mo: string, d: string): Option<Date> {
    match (ParseDigits(y), ParseDigits(mo), ParseDigits(d))
    case (Some(yv), Some(mov), Some(dv)) => Some(Date(yv, mov, dv))
    case _ => None
  }

  function ParseClock(h: string, mi: string, se: string): Option<SecondOfDay> {
    match (ParseDigits(h), ParseDigits(mi), ParseDigits(se))
    case (Some(hv), Some(miv), Some(sev)) =>
      if hv < 24 && miv < 60 && sev < 60 then Some(hv * 3600 + miv * 60 + sev) else None
    case _ => None
  }

  lemma LayoutFields(y: string, mo: string, d: string, h: string, mi: string, se: string)
    requires |y| == 4 && |mo| == 2 && |d| == 2 && |h| == 2 && |mi| == 2 && |se| == 2
    ensures var s := Layout(y, mo, d, h, mi, se);
      && |s| == 19 && s[4] == '-' && s[7] == '-' && s[10] == ' ' && s[13] == ':' && s[16] == ':'
      && s[0..4] == y && s[5..7] == mo && s[8..10] == d
      && s[11..13] == h && s[14..16] == mi && s[17..19] == se
  {
    var s := Layout(y, mo, d, h, mi, se);
    var s1 := y + "-" + mo + "-" + d;
    var s2 := h + ":" + mi + ":" + se;
    assert s == s1 + " " + s2;
    assert s1[0..4] == y && s1[5..7] == mo && s1[8..10] == d;
    assert s2[0..2] == h && s2[3..5] == mi && s2[6..8] == se;
    assert s[0..10] == s1 && s[11..19] == s2;
    assert s[0..4] == s1[0..4] && s[5..7] == s1[5..7] && s[8..10] == s1[8..10];
    assert s[11..13] == s2[0..2] && s[14..16] == s2[3..5] && s[17..19] == s2[6..8];
  }

  lemma ClockFields(second: SecondOfDay)
    ensures var minutes := second / 60;
      && 0 <= minutes / 60 < 24 && 0 <= minutes % 60 < 60 && 0 <= second % 60 < 60
      && (minutes / 60) * 3600 + (minutes % 60) * 60 + second % 60 == second
  {
  }

  lemma Pow10Values()
    ensures Pow10(2) == 100 && Pow10(4) == 10000
  {
    assert Pow10(1) == 10;
    assert Pow10(3) == 1000;
  }

  lemma DateFieldsRoundTrip(date: Date)
    requires 1000 <= date.year <= 9999 && 1 <= date.month <= 12 && 1 <= date.day <= 31
    ensures ParseDate(Digits(date.year, 4), Digits(date.month, 2), Digits(date.day, 2)) == Some(date)
  {
    Pow10Values();
    DigitsRoundTrip(date.year, 4);
    DigitsRoundTrip(date.month, 2);
    DigitsRoundTrip(date.day, 2);
  }

  lemma ParseClockOf(h: string, mi: string, se: string, hv: nat, miv: nat, sev: nat)
    requires ParseDigits(h) == Some(hv) && ParseDigits(mi) == Some(miv) && ParseDigits(se) == Some(sev)
    requires hv < 24 && miv < 60 && sev < 60
    ensures ParseClock(h, mi, se) == Some(hv * 3600 + miv * 60 + sev)
  {
  }

  lemma ClockFieldsRoundTrip(second: SecondOfDay)
    ensures var minutes := second / 60;
      ParseClock(Digits(minutes / 60, 2), Digits(minutes % 60, 2), Digits(second % 60, 2)) == Some(second)
  {
    var minutes := second / 60;
    var hv, miv, sev := minutes / 60, minutes % 60, second % 60;
    Pow10Values();
    ClockFields(second);
    DigitsRoundTrip(hv, 2);
    DigitsRoundTrip(miv, 2);
    DigitsRoundTrip(sev, 2);
    ParseClockOf(Digits(hv, 2), Digits(miv, 2), Digits(sev, 2), hv, miv, sev);
  }

  /** Formatting a valid timestamp loses only its sub-second part. */
  lemma FormatStampRoundTrip(t: Instant)
    requires ValidInstant(t)
    ensures ParseStamp(FormatStamp(t)) == Some(Instant(t.date, t.second, 0))
  {
    var minutes := t.second / 60;
    var y, mo, d := Digits(t.date.year, 4), Digits(t.date.month, 2), Digits(t.date.day, 2);
    var h, mi, se := Digits(minutes / 60, 2), Digits(minutes % 60, 2), Digits(t.second % 60, 2);
    LayoutFields(y, mo, d, h, mi, se);
    DateFieldsRoundTrip(t.date);
    ClockFieldsRoundTrip(t.second);
  }
}
