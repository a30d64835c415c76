/** Times and durations are nanoseconds. */
module Clock {
  const SECOND := 1_000_000_000
}
