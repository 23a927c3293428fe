/**
 * Local wall-clock time. An instant is a count of seconds since a local
 * midnight (the start of day 0); the calendar day, hour, minute and second
 * of an instant come from Euclidean division, which for a positive divisor
 * is the floor division Python's datetime arithmetic agrees with.
 * Time zones and daylight-saving shifts are not modelled.
 */
module Clock {

  const SecondsPerMinute: int := 60
  const SecondsPerHour: int := 3600
  const SecondsPerDay: int := 86400

  function DayOf(t: int): int { t / SecondsPerDay }
  function HourOf(t: int): (h: int) ensures 0 <= h < 24 { (t % SecondsPerDay) / SecondsPerHour }
  function MinuteOf(t: int): (m: int) ensures 0 <= m < 60 { (t % SecondsPerHour) / SecondsPerMinute }
  function SecondOf(t: int): (s: int) ensures 0 <= s < 60 { t % SecondsPerMinute }

  /**
   * The calendar minute an instant falls in. Two instants give the same
   * `strftime("%Y-%m-%d %H:%M")` text exactly when they lie in the same
   * minute, so comparing those texts is comparing this number.
   */
  function MinuteKey(t: int): int { t / SecondsPerMinute }

  /** `t` is exactly `h`:00:00 on some day. */
  predicate OnTheHour(t: int, h: int) {
    t % SecondsPerDay == h * SecondsPerHour
  }

  /** An instant on the hour has the hour `h`, minute 0 and second 0. */
  lemma OnTheHourParts(t: int, h: int)
    requires 0 <= h < 24 && OnTheHour(t, h)
    ensures HourOf(t) == h && MinuteOf(t) == 0 && SecondOf(t) == 0
  {
    var q := t / SecondsPerDay;
    assert t == SecondsPerHour * (24 * q + h);
  }

  /**
   * `datetime.replace(hour=h, minute=0, second=0, microsecond=0)` on `now`:
   * hour `h` of the same calendar day.
   */
  function SameDayAt(now: int, h: int): (c: int)
    requires 0 <= h < 24
    ensures OnTheHour(c, h) && DayOf(c) == DayOf(now)
  {
    DayOf(now) * SecondsPerDay + h * SecondsPerHour
  }

  /**
   * The next instant strictly after `now` at `h`:00:00: the same calendar
   * day's `h`:00 when that is still ahead, otherwise the next day's.
   */
  function NextOccurrence(now: int, h: int): (t: int)
    requires 0 <= h < 24
    ensures OnTheHour(t, h)
    ensures now < t <= now + SecondsPerDay
  {
    var candidate := SameDayAt(now, h);
    if candidate <= now then candidate + SecondsPerDay else candidate
  }

  /** No instant strictly after `now` at `h`:00:00 comes before `NextOccurrence(now, h)`. */
  lemma NextOccurrenceIsEarliest(now: int, h: int, t: int)
    requires 0 <= h < 24
    requires now < t && OnTheHour(t, h)
    ensures NextOccurrence(now, h) <= t
  {
    var d, d' := DayOf(now), DayOf(t);
    assert t == d' * SecondsPerDay + h * SecondsPerHour;
    assert now < (d + 1) * SecondsPerDay;
    if SameDayAt(now, h) <= now {
      // t > now >= d*86400 + 3600*h forces d' >= d + 1
      assert d' > d;
      assert d' * SecondsPerDay >= (d + 1) * SecondsPerDay;
    } else {
      // t > now >= d*86400 forces d' >= d
      assert d' >= d;
      assert d' * SecondsPerDay >= d * SecondsPerDay;
    }
  }

  /**
   * An instant on a whole minute that lies strictly after `now` is in a later
   * calendar minute than `now`.
   */
  lemma LaterWholeMinuteHasLaterKey(now: int, t: int)
    requires now < t && SecondOf(t) == 0
    ensures MinuteKey(now) < MinuteKey(t)
  {
    var k := MinuteKey(t);
    assert t == k * SecondsPerMinute;
  }
}
