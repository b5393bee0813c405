/** Time as the runtime counts it. */
module Time {

  /** A `DateTime` or a `TimeSpan`, measured in ticks. Unbounded: the range
      limits of `DateTime` are not modelled. */
  type Ticks = int

  /** `default(DateTime)`, the timestamp reported when a lookup misses. */
  const DefaultTimeStamp: Ticks := 0
}
