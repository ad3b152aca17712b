/**
 * `get_date_range` from common.py: which window of call history a run
 * covers. The wall clock (`datetime.now()`) is the parameter `now`.
 */
module Common {
  import opened Wrappers
  import opened Clock

  /** A Python optional text argument is truthy when it is present and non-empty. */
  predicate Given(s: Option<string>) {
    s.Some? && s.value != ""
  }

  /** The length of the computed window: a truthy `hours_back`, or 24 hours. */
  function WindowHours(hoursBack: Option<int>): int {
    if hoursBack.Some? && hoursBack.value != 0 then hoursBack.value else 24
  }

  /** `timedelta` arithmetic left the range of `datetime`. */
  datatype DateRangeError = OverflowError

  /**
   * `get_date_range(hours_back, start_date, end_date)`. Both bounds given:
   * they are returned untouched. Otherwise the window ends at `now` and
   * starts `WindowHours(hoursBack)` hours earlier, both printed as
   * "%Y-%m-%d %H:%M:%S".
   */
  function GetDateRange(hoursBack: Option<int>, startDate: Option<string>, endDate: Option<string>,
                        now: DateTime): (r: Result<(string, string), DateRangeError>)
    requires Valid(now)
    ensures Given(startDate) && Given(endDate) ==> r == Ok((startDate.value, endDate.value))
    ensures !(Given(startDate) && Given(endDate)) && r.Ok? ==>
              && |r.value.0| == 19 && |r.value.1| == 19
              && ParseTimestamp(r.value.1) == Some(now)
              && ParseTimestamp(r.value.0).Some?
              && ToSeconds(ParseTimestamp(r.value.0).value)
                 == ToSeconds(now) - WindowHours(hoursBack) * SecondsPerHour
    ensures r.Err? <==> !(Given(startDate) && Given(endDate))
                        && AddHours(now, -WindowHours(hoursBack)).None?
  {
    if Given(startDate) && Given(endDate) then Ok((startDate.value, endDate.value))
    else
      match AddHours(now, -WindowHours(hoursBack))
      case None => Err(OverflowError)
      case Some(start) =>
        FormatLayout(start); FormatLayout(now);
        ParseFormat(start); ParseFormat(now);
        Ok((Format(start), Format(now)))
  }

  /** When only one of the two explicit bounds is given, it is ignored. */
  lemma OneBoundIgnored(hoursBack: Option<int>, startDate: Option<string>, endDate: Option<string>,
                        now: DateTime)
    requires Valid(now)
    requires !(Given(startDate) && Given(endDate))
    ensures GetDateRange(hoursBack, startDate, endDate, now) == GetDateRange(hoursBack, None, None, now)
  {
  }

  /** `hours_back` of 0 or None gives the same window as an explicit 24. */
  lemma DefaultIsTwentyFourHours(hoursBack: Option<int>, now: DateTime)
    requires Valid(now)
    requires hoursBack.None? || hoursBack.value == 0
    ensures GetDateRange(hoursBack, None, None, now) == GetDateRange(Some(24), None, None, now)
  {
    assert WindowHours(hoursBack) == WindowHours(Some(24));
  }

  /** `hours_back` is not validated: a negative value puts the start after the end. */
  lemma NegativeHoursInvertWindow(hours: int, now: DateTime)
    requires Valid(now) && hours < 0
    requires GetDateRange(Some(hours), None, None, now).Ok?
    ensures var r := GetDateRange(Some(hours), None, None, now).value;
            ParseTimestamp(r.0).Some? && ParseTimestamp(r.1).Some?
            && ToSeconds(ParseTimestamp(r.0).value) > ToSeconds(ParseTimestamp(r.1).value)
  {
  }
}
