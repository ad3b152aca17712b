/**
 * Naive (time-zone-free) datetimes to the second, as Python's `datetime`
 * objects are used by the scripts: arithmetic in whole seconds on the
 * proleptic Gregorian calendar, years 1 to 9999, and the two `strftime`
 * layouts the scripts print, "%Y-%m-%d %H:%M:%S" and "%Y%m%d_%H%M%S".
 */
module Clock {
  import opened Wrappers
  import opened Text

  datatype DateTime = DateTime(year: nat, month: nat, day: nat, hour: nat, minute: nat, second: nat)

  const MinYear: nat := 1
  const MaxYear: nat := 9999
  const SecondsPerHour: nat := 3600
  const SecondsPerDay: nat := 86400

  predicate IsLeap(y: nat) {
    y % 4 == 0 && (y % 100 != 0 || y % 400 == 0)
  }

  function YearDays(y: nat): nat {
    if IsLeap(y) then 366 else 365
  }

  function MonthDays(y: nat, m: nat): nat
    requires 1 <= m <= 12
  {
    if m == 2 then (if IsLeap(y) then 29 else 28)
    else if m == 4 || m == 6 || m == 9 || m == 11 then 30
    else 31
  }

  /** Days of year `y` before the first of month `m`. */
  function DaysBeforeMonth(y: nat, m: nat): nat
    requires 1 <= m <= 12
  {
    [0, 31, 59, 90, 120, 151, 181, 212, 243, 273, 304, 334][m - 1]
      + (if m > 2 && IsLeap(y) then 1 else 0)
  }

  /** Days from 0001-01-01 to the first of January of year `y`. */
  function DaysBeforeYear(y: nat): nat
    requires y >= 1
  {
    if y == 1 then 0 else DaysBeforeYear(y - 1) + YearDays(y - 1)
  }

  /** A calendar date and time of day, with no upper bound on the year. */
  predicate WellFormed(t: DateTime) {
    && t.year >= MinYear
    && 1 <= t.month <= 12
    && 1 <= t.day <= MonthDays(t.year, t.month)
    && t.hour < 24 && t.minute < 60 && t.second < 60
  }

  /** A value Python's `datetime` can hold (to the second). */
  predicate Valid(t: DateTime) {
    WellFormed(t) && t.year <= MaxYear
  }

  /** Seconds elapsed since 0001-01-01 00:00:00. */
  function ToSeconds(t: DateTime): nat
    requires WellFormed(t)
  {
    (DaysBeforeYear(t.year) + DaysBeforeMonth(t.year, t.month) + t.day - 1) * SecondsPerDay
      + t.hour * SecondsPerHour + t.minute * 60 + t.second
  }

  /** The year holding day number `days` counted from the first of January of `y`, and the day within it. */
  function YearOf(days: nat, y: nat): (r: (nat, nat))
    requires y >= 1
    ensures r.0 >= y && r.1 < YearDays(r.0)
    ensures DaysBeforeYear(r.0) + r.1 == DaysBeforeYear(y) + days
    decreases days
  {
    if days < YearDays(y) then (y, days) else YearOf(days - YearDays(y), y + 1)
  }

  lemma MonthTable(y: nat, m: nat)
    requires 1 <= m <= 12
    ensures m < 12 ==> DaysBeforeMonth(y, m + 1) == DaysBeforeMonth(y, m) + MonthDays(y, m)
    ensures m == 12 ==> DaysBeforeMonth(y, m) + MonthDays(y, m) == YearDays(y)
  {
  }

  /** The month and day (1-based) of day `offset` counted from the first of month `m`. */
  function MonthOf(y: nat, offset: nat, m: nat): (r: (nat, nat))
    requires 1 <= m <= 12
    requires DaysBeforeMonth(y, m) + offset < YearDays(y)
    ensures m <= r.0 <= 12 && 1 <= r.1 <= MonthDays(y, r.0)
    ensures DaysBeforeMonth(y, r.0) + r.1 - 1 == DaysBeforeMonth(y, m) + offset
    decreases 12 - m
  {
    MonthTable(y, m);
    if offset < MonthDays(y, m) then (m, offset + 1)
    else MonthOf(y, offset - MonthDays(y, m), m + 1)
  }

  /** The datetime `s` seconds after 0001-01-01 00:00:00. */
  function FromSeconds(s: nat): (t: DateTime)
    ensures WellFormed(t) && ToSeconds(t) == s
  {
    var days := s / SecondsPerDay;
    var rem := s % SecondsPerDay;
    var yd := YearOf(days, 1);
    var md := MonthOf(yd.0, yd.1, 1);
    DateTime(yd.0, md.0, md.1, rem / SecondsPerHour, rem % SecondsPerHour / 60, rem % 60)
  }

  lemma {:induction false} DaysBeforeYearGrows(a: nat, b: nat)
    requires 1 <= a <= b
    ensures DaysBeforeYear(a) <= DaysBeforeYear(b)
    decreases b - a
  {
    if a < b {
      DaysBeforeYearGrows(a, b - 1);
    }
  }

  lemma {:induction false} YearOfAt(y0: nat, y: nat, k: nat)
    requires 1 <= y0 <= y && k < YearDays(y)
    ensures DaysBeforeYear(y0) <= DaysBeforeYear(y)
    ensures YearOf(DaysBeforeYear(y) - DaysBeforeYear(y0) + k, y0) == (y, k)
    decreases y - y0
  {
    DaysBeforeYearGrows(y0, y);
    if y0 < y {
      DaysBeforeYearGrows(y0 + 1, y);
      YearOfAt(y0 + 1, y, k);
    }
  }

  lemma {:induction false} MonthOfAt(y: nat, m0: nat, m: nat, d: nat)
    requires 1 <= m0 <= m <= 12 && 1 <= d <= MonthDays(y, m)
    ensures DaysBeforeMonth(y, m0) <= DaysBeforeMonth(y, m)
    ensures MonthOf(y, DaysBeforeMonth(y, m) - DaysBeforeMonth(y, m0) + d - 1, m0) == (m, d)
    decreases m - m0
  {
    MonthTable(y, m0);
    MonthEnd(y, m);
    if m0 < m {
      MonthOfAt(y, m0 + 1, m, d);
      var offset := DaysBeforeMonth(y, m) - DaysBeforeMonth(y, m0) + d - 1;
      assert MonthDays(y, m0) <= offset;
      assert MonthOf(y, offset, m0) == MonthOf(y, offset - MonthDays(y, m0), m0 + 1);
    }
  }

  /** A month ends within its year. */
  lemma MonthEnd(y: nat, m: nat)
    requires 1 <= m <= 12
    ensures DaysBeforeMonth(y, m) + MonthDays(y, m) <= YearDays(y)
  {
  }

  lemma DayAndRest(days: nat, rem: nat)
    requires rem < SecondsPerDay
    ensures (days * SecondsPerDay + rem) / SecondsPerDay == days
    ensures (days * SecondsPerDay + rem) % SecondsPerDay == rem
  {
  }

  lemma TimeOfDay(h: nat, mi: nat, se: nat)
    requires h < 24 && mi < 60 && se < 60
    ensures h * SecondsPerHour + mi * 60 + se < SecondsPerDay
    ensures (h * SecondsPerHour + mi * 60 + se) / SecondsPerHour == h
    ensures (h * SecondsPerHour + mi * 60 + se) % SecondsPerHour / 60 == mi
    ensures (h * SecondsPerHour + mi * 60 + se) % 60 == se
  {
  }

  lemma {:induction false} DayOfYearBound(t: DateTime)
    requires WellFormed(t)
    ensures DaysBeforeMonth(t.year, t.month) + t.day - 1 < YearDays(t.year)
  {
    MonthTable(t.year, t.month);
    MonthTable(t.year, 12);
    if t.month < 12 {
      MonthOfAt(t.year, t.month + 1, 12, 1);
    }
  }

  /** Converting a well-formed datetime to seconds and back gives it back. */
  lemma FromToSeconds(t: DateTime)
    requires WellFormed(t)
    ensures FromSeconds(ToSeconds(t)) == t
  {
    var k := DaysBeforeMonth(t.year, t.month) + t.day - 1;
    var days := DaysBeforeYear(t.year) + k;
    var rem := t.hour * SecondsPerHour + t.minute * 60 + t.second;
    var s := ToSeconds(t);
    TimeOfDay(t.hour, t.minute, t.second);
    assert s == days * SecondsPerDay + rem;
    DayAndRest(days, rem);
    DayOfYearBound(t);
    YearOfAt(1, t.year, k);
    var yd := YearOf(s / SecondsPerDay, 1);
    assert yd == (t.year, k);
    MonthOfAt(t.year, 1, t.month, t.day);
    var md := MonthOf(yd.0, yd.1, 1);
    assert md == (t.month, t.day);
    var r := s % SecondsPerDay;
    assert FromSeconds(s) == DateTime(yd.0, md.0, md.1, r / SecondsPerHour, r % SecondsPerHour / 60, r % 60);
  }

  /** `t` shifted by a whole number of hours; None is Python's OverflowError (outside years 1 to 9999). */
  function AddHours(t: DateTime, hours: int): (r: Option<DateTime>)
    requires Valid(t)
    ensures r.Some? ==> Valid(r.value) && ToSeconds(r.value) == ToSeconds(t) + hours * SecondsPerHour
    ensures r.None? ==> ToSeconds(t) + hours * SecondsPerHour < 0
                        || FromSeconds(ToSeconds(t) + hours * SecondsPerHour).year > MaxYear
  {
    var s := ToSeconds(t) + hours * SecondsPerHour;
    if s < 0 then None
    else
      var u := FromSeconds(s);
      if u.year > MaxYear then None else Some(u)
  }

  // ---------------------------------------------------------------------
  // strftime
  // ---------------------------------------------------------------------

  /** `n` in decimal, left-padded with zeros to two digits (`%m`, `%d`, `%H`, `%M`, `%S`). */
  function Pad2(n: nat): string {
    if n < 10 then "0" + NatToString(n) else NatToString(n)
  }

  /** `n` in decimal, left-padded with zeros to four digits (`%Y`). */
  function Pad4(n: nat): string {
    if n < 10 then "000" + NatToString(n)
    else if n < 100 then "00" + NatToString(n)
    else if n < 1000 then "0" + NatToString(n)
    else NatToString(n)
  }

  /** `strftime("%Y-%m-%d %H:%M:%S")`. */
  function Format(t: DateTime): string {
    Pad4(t.year) + "-" + Pad2(t.month) + "-" + Pad2(t.day) + " "
      + Pad2(t.hour) + ":" + Pad2(t.minute) + ":" + Pad2(t.second)
  }

  /** `strftime("%Y%m%d_%H%M%S")`. */
  function FormatCompact(t: DateTime): string {
    Pad4(t.year) + Pad2(t.month) + Pad2(t.day) + "_" + Pad2(t.hour) + Pad2(t.minute) + Pad2(t.second)
  }

  /** `strftime("%Y-%m-%d")`. */
  function FormatDate(t: DateTime): string {
    Pad4(t.year) + "-" + Pad2(t.month) + "-" + Pad2(t.day)
  }

  lemma LeadingZero(x: string)
    requires AllDigits(x)
    ensures AllDigits("0" + x) && DigitsValue("0" + x) == DigitsValue(x)
  {
    if |x| > 0 {
      var z := "0" + x;
      assert z[..|z| - 1] == "0" + x[..|x| - 1];
      LeadingZero(x[..|x| - 1]);
    }
  }

  lemma SmallNatToString(n: nat)
    requires n < 10000
    ensures n < 10 ==> |NatToString(n)| == 1
    ensures 10 <= n < 100 ==> |NatToString(n)| == 2
    ensures 100 <= n < 1000 ==> |NatToString(n)| == 3
    ensures 1000 <= n ==> |NatToString(n)| == 4
  {
    if n >= 10 {
      SmallNatToString(n / 10);
    }
  }

  lemma Pad2Digits(n: nat)
    requires n < 100
    ensures |Pad2(n)| == 2 && AllDigits(Pad2(n)) && DigitsValue(Pad2(n)) == n
  {
    SmallNatToString(n);
    NatToStringValue(n);
    if n < 10 {
      LeadingZero(NatToString(n));
    }
  }

  lemma Pad4Digits(n: nat)
    requires n < 10000
    ensures |Pad4(n)| == 4 && AllDigits(Pad4(n)) && DigitsValue(Pad4(n)) == n
  {
    SmallNatToString(n);
    NatToStringValue(n);
    var d := NatToString(n);
    if n < 1000 {
      LeadingZero(d);
      if n < 100 {
        LeadingZero("0" + d);
        assert "00" + d == "0" + ("0" + d);
        if n < 10 {
          LeadingZero("00" + d);
          assert "000" + d == "0" + ("00" + d);
        }
      }
    }
  }

  /** Digits at positions `i .. i + w` of `s`, read as a decimal number, if they are all digits. */
  function Field(s: string, i: nat, w: nat): Option<nat>
    requires i + w <= |s|
  {
    if AllDigits(s[i..i + w]) then Some(DigitsValue(s[i..i + w])) else None
  }

  /**
   * `strptime(s, "%Y-%m-%d %H:%M:%S")` for text laid out with full-width
   * fields: None when the layout or the calendar is wrong.
   */
  function ParseTimestamp(s: string): Option<DateTime>
  {
    if |s| != 19 || s[4] != '-' || s[7] != '-' || s[10] != ' ' || s[13] != ':' || s[16] != ':' then None
    else
      var y := Field(s, 0, 4); var mo := Field(s, 5, 2); var d := Field(s, 8, 2);
      var h := Field(s, 11, 2); var mi := Field(s, 14, 2); var se := Field(s, 17, 2);
      if y.None? || mo.None? || d.None? || h.None? || mi.None? || se.None? then None
      else
        var t := DateTime(y.value, mo.value, d.value, h.value, mi.value, se.value);
        if Valid(t) then Some(t) else None
  }

  /** Where six fields of widths 4, 2, 2, 2, 2, 2 and five one-element separators sit once joined. */
  lemma SixFields<T>(y: seq<T>, mo: seq<T>, d: seq<T>, h: seq<T>, mi: seq<T>, se: seq<T>,
                     s1: seq<T>, s2: seq<T>, s3: seq<T>, s4: seq<T>, s5: seq<T>)
    requires |y| == 4 && |mo| == 2 && |d| == 2 && |h| == 2 && |mi| == 2 && |se| == 2
    requires |s1| == 1 && |s2| == 1 && |s3| == 1 && |s4| == 1 && |s5| == 1
    ensures var s := y + s1 + mo + s2 + d + s3 + h + s4 + mi + s5 + se;
            && |s| == 19
            && s[4] == s1[0] && s[7] == s2[0] && s[10] == s3[0] && s[13] == s4[0] && s[16] == s5[0]
            && s[0..4] == y && s[5..7] == mo && s[8..10] == d
            && s[11..13] == h && s[14..16] == mi && s[17..19] == se
  {
  }

  /** Where the six fields and five separators of the printed layout sit. */
  lemma TimestampPieces(y: string, mo: string, d: string, h: string, mi: string, se: string)
    requires |y| == 4 && |mo| == 2 && |d| == 2 && |h| == 2 && |mi| == 2 && |se| == 2
    ensures var s := y + "-" + mo + "-" + d + " " + h + ":" + mi + ":" + se;
            && |s| == 19
            && s[4] == '-' && s[7] == '-' && s[10] == ' ' && s[13] == ':' && s[16] == ':'
            && s[0..4] == y && s[5..7] == mo && s[8..10] == d
            && s[11..13] == h && s[14..16] == mi && s[17..19] == se
  {
    SixFields(y, mo, d, h, mi, se, "-", "-", " ", ":", ":");
  }

  /** Every valid datetime prints as exactly 19 characters, zero-padded, with separators in fixed places. */
  lemma FormatLayout(t: DateTime)
    requires Valid(t)
    ensures |Format(t)| == 19
    ensures Format(t)[4] == '-' && Format(t)[7] == '-' && Format(t)[10] == ' '
    ensures Format(t)[13] == ':' && Format(t)[16] == ':'
  {
    Pad4Digits(t.year);
    Pad2Digits(t.month); Pad2Digits(t.day);
    Pad2Digits(t.hour); Pad2Digits(t.minute); Pad2Digits(t.second);
    TimestampPieces(Pad4(t.year), Pad2(t.month), Pad2(t.day), Pad2(t.hour), Pad2(t.minute), Pad2(t.second));
  }

  /** Reading a printed timestamp back gives the datetime that was printed. */
  lemma ParseFormat(t: DateTime)
    requires Valid(t)
    ensures ParseTimestamp(Format(t)) == Some(t)
  {
    var s := Format(t);
    Pad4Digits(t.year);
    Pad2Digits(t.month); Pad2Digits(t.day);
    Pad2Digits(t.hour); Pad2Digits(t.minute); Pad2Digits(t.second);
    TimestampPieces(Pad4(t.year), Pad2(t.month), Pad2(t.day), Pad2(t.hour), Pad2(t.minute), Pad2(t.second));
    assert Field(s, 0, 4) == Some(t.year);
    assert Field(s, 5, 2) == Some(t.month);
    assert Field(s, 8, 2) == Some(t.day);
    assert Field(s, 11, 2) == Some(t.hour);
    assert Field(s, 14, 2) == Some(t.minute);
    assert Field(s, 17, 2) == Some(t.second);
  }

  /** The compact layout used in file names is 15 characters with `_` in the middle. */
  lemma FormatCompactLayout(t: DateTime)
    requires Valid(t)
    ensures |FormatCompact(t)| == 15 && FormatCompact(t)[8] == '_'
  {
    Pad4Digits(t.year);
    Pad2Digits(t.month); Pad2Digits(t.day);
    Pad2Digits(t.hour); Pad2Digits(t.minute); Pad2Digits(t.second);
  }
}
