/** The recency gate of `addTimestampWaterMark`: the date label is drawn only
    when the EXIF capture time is strictly after "now minus 30 * 365 days".
    Instants are whole seconds since the Unix epoch; the wall clock is a
    parameter. */
module Recency {

  datatype Option<T> = None | Some(value: T)

  const SecondsPerHour := 3600
  const SecondsPerDay := 24 * SecondsPerHour
  /** `30 * 365 * 24 * time.Hour`: thirty 365-day years, leap days ignored. */
  const RecencyWindow := 30 * 365 * 24 * SecondsPerHour
  /** Go's zero `time.Time`, 0001-01-01 00:00:00 UTC, in Unix seconds. */
  const ZeroTime := -62135596800

  /** `tm, _ := x.DateTime()`: a missing or unparsable capture time leaves the
      zero time behind. */
  function CaptureTime(taken: Option<int>): (tm: int)
    ensures taken.Some? ==> tm == taken.value
    ensures taken.None? ==> forall now :: now >= ZeroTime + RecencyWindow ==> !ShouldStamp(tm, now)
  {
    match taken
    case Some(t) => t
    case None => ZeroTime
  }

  /** `tm.After(time.Now().Add(-30 * 365 * 24 * time.Hour))`. */
  predicate ShouldStamp(tm: int, now: int)
  {
    tm > now - RecencyWindow
  }

  /** Counted in whole elapsed days, the gate admits exactly the captures
      fewer than 30 * 365 days old; a capture in the future is always admitted. */
  lemma ShouldStampIffFewerDaysThanWindow(tm: int, now: int)
    ensures ShouldStamp(tm, now) <==> (now - tm) / SecondsPerDay < 30 * 365
  {
  }

  /** The gate is monotone: a later capture, or an earlier clock, still passes. */
  lemma ShouldStampMonotone(tm1: int, tm2: int, now1: int, now2: int)
    requires ShouldStamp(tm1, now1) && tm1 <= tm2 && now2 <= now1
    ensures ShouldStamp(tm2, now2)
  {
  }

  /** A photo without a readable capture time is never stamped by a clock set
      after 1970. */
  lemma MissingTimeNeverStamped(now: int)
    requires now >= 0
    ensures !ShouldStamp(CaptureTime(None), now)
  {
  }

  /** Worked cases measured in 365-day years: 29 years old is stamped, exactly
      30 and 31 years old are not, and a capture time in the future is. */
  lemma ShouldStampExamples(now: int)
    ensures ShouldStamp(now - 29 * 365 * 24 * SecondsPerHour, now)
    ensures !ShouldStamp(now - 30 * 365 * 24 * SecondsPerHour, now)
    ensures !ShouldStamp(now - 31 * 365 * 24 * SecondsPerHour, now)
    ensures ShouldStamp(now + 1, now)
  {
  }
}
