/** Rounding a timestamp, in nanoseconds, to the hour it is billed under. */
module HourRounding {

  const HOUR: int := 3_600_000_000_000    // nanoseconds
  const HALF_HOUR: int := 1_800_000_000_000

  /** Rounds to the nearest hour, and up from the exact half hour. */
  function RoundHour(timestamp: int): int {
    var down := timestamp % HOUR;
    if down == 0 then timestamp
    else if HOUR - down <= down then timestamp + (HOUR - down)
    else timestamp - down
  }

  /** So the bucket of hour h takes the timestamps in [h - 30 min, h + 30 min), and no others. */
  lemma RoundHourWindow(timestamp: int, hour: int)
    requires hour % HOUR == 0
    ensures RoundHour(timestamp) == hour <==> hour - HALF_HOUR <= timestamp < hour + HALF_HOUR
    ensures RoundHour(timestamp) % HOUR == 0
  {
  }

  lemma RoundHourMonotone(a: int, b: int)
    requires a <= b
    ensures RoundHour(a) <= RoundHour(b)
  {
  }

  predicate IsHour(hour: int, n: int) {
    hour == n * HOUR
  }

  /** The rounded hour as a whole number of hours, and the window it is the middle of. */
  lemma RoundHourIndex(timestamp: int) returns (n: int)
    ensures IsHour(RoundHour(timestamp), n)
    ensures RoundHour(timestamp) - HALF_HOUR <= timestamp < RoundHour(timestamp) + HALF_HOUR
  {
    n := RoundHour(timestamp) / HOUR;
    RoundHourWindow(timestamp, RoundHour(timestamp));
  }

  /** No timestamp is in the windows of two hours. */
  lemma OneHourWindow(timestamp: int, n: int, i: int)
    requires n * HOUR - HALF_HOUR <= timestamp < n * HOUR + HALF_HOUR
    requires i * HOUR - HALF_HOUR <= timestamp < i * HOUR + HALF_HOUR
    ensures n == i
  {
  }
}
