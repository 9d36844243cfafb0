/**
 Instants and durations are integers counting nanoseconds. An instant counts from
 the zero time of the Go runtime, so the instant 0 is the one for which `IsZero`
 holds and every wall-clock reading is positive.
 */
module Clock {

  type Instant = int
  type Duration = int

  const SECOND: Duration := 1_000_000_000
  const MILLISECOND: Duration := 1_000_000
  const MINUTE: Duration := 60 * SECOND
  const HOUR: Duration := 60 * MINUTE
  const NEVER: Instant := 0

  /** Whole seconds from `now` until `deadline`, and 0 once `deadline` has passed. */
  function SecondsUntil(deadline: Instant, now: Instant): (s: nat)
    ensures s != 0 <==> now + SECOND <= deadline
    ensures now <= deadline ==> now + s * SECOND <= deadline < now + s * SECOND + SECOND
  {
    if deadline < now then 0 else (deadline - now) / SECOND
  }
}
