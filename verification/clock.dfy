/**
 * Time as the services see it. `DateTime.UtcNow` is never read inside the model:
 * every operation that needs the clock takes `now` as a parameter.
 */
module Clock {

  /** A `DateTime` as a count of 100-nanosecond ticks; `DateTime.MinValue` is tick 0. */
  type Instant = int

  const MinValue: Instant := 0

  const TicksPerSecond: int := 10_000_000
  const TicksPerMinute: int := 60 * TicksPerSecond
  const TicksPerDay: int := 24 * 60 * TicksPerMinute

  /** `DateTime.AddMinutes` for a whole number of minutes. */
  function AddMinutes(t: Instant, minutes: int): Instant {
    t + minutes * TicksPerMinute
  }

  /** `DateTime.AddDays` for a whole number of days. */
  function AddDays(t: Instant, days: int): Instant {
    t + days * TicksPerDay
  }
}
