/**
 * `time.Unix(sec, 0).UTC()`: a count of seconds since the Unix epoch read
 * as a wall-clock reading in UTC, that is, with a zero offset. The reading
 * is kept as a day number (days since 1970-01-01, negative before it) and
 * a time of day; turning the day number into a calendar date is left to
 * the time library.
 */
module UtcTime {

  const SecondsPerDay := 86400

  datatype Time = Time(day: int, hour: int, minute: int, second: int)

  predicate Valid(t: Time)
  {
    0 <= t.hour < 24 && 0 <= t.minute < 60 && 0 <= t.second < 60
  }

  /** Seconds since the epoch that `t` denotes. */
  function ToUnix(t: Time): int
  {
    t.day * SecondsPerDay + t.hour * 3600 + t.minute * 60 + t.second
  }

  /**
   * The UTC reading of `secs` seconds after the epoch. Division rounds
   * towards minus infinity, as Go's time package does for instants before
   * the epoch.
   */
  function FromUnix(secs: int): (t: Time)
    ensures Valid(t)
    ensures ToUnix(t) == secs
  {
    var day, rem := secs / SecondsPerDay, secs % SecondsPerDay;
    Time(day, rem / 3600, rem % 3600 / 60, rem % 60)
  }

  /** A valid reading is determined by the instant it denotes. */
  lemma ReadingRoundTrip(t: Time)
    requires Valid(t)
    ensures FromUnix(ToUnix(t)) == t
  {
    var tod := t.hour * 3600 + t.minute * 60 + t.second;
    assert 0 <= tod < SecondsPerDay;
    assert ToUnix(t) / SecondsPerDay == t.day && ToUnix(t) % SecondsPerDay == tod;
    var ms := t.minute * 60 + t.second;
    assert 0 <= ms < 3600;
    assert tod / 3600 == t.hour && tod % 3600 == ms;
    assert ms / 60 == t.minute && ms % 60 == t.second;
  }
}
