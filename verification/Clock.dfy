/** The steady clock that all timeouts are measured with. */
module Clock {
  /** Milliseconds of a monotone clock. */
  type Time = int
}
