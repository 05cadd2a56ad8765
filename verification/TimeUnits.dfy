/** Lengths of time, in nanoseconds. */
module TimeUnits {

  const NANOS_PER_MICRO := 1_000
  const NANOS_PER_MILLI := 1_000_000
  const NANOS_PER_SECOND := 1_000_000_000
  const NANOS_PER_MINUTE := 60_000_000_000
  const NANOS_PER_HOUR := 3_600_000_000_000
  const NANOS_PER_DAY := 86_400_000_000_000
  const NANOS_PER_WEEK := 604_800_000_000_000

}
