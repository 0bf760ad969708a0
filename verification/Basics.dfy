/** The optional value and the time scale shared by every other module. */
module Basics {
  datatype Option<+T> = None | Some(value: T)

  // An aware datetime: microseconds on the UTC axis.
  type Instant = int

  const SECOND := 1_000_000
  const MINUTE := 60 * SECOND
  const HOUR := 60 * MINUTE
  const DAY := 24 * HOUR

  // The UTC calendar day an instant falls on.
  function UtcDay(t: Instant): int { t / DAY }
}
