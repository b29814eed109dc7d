// Durations and instants as whole nanoseconds. The clock itself is not
// part of this model: the current instant, and the latest instant the
// platform can represent, are parameters wherever they are read.
module Time {
  /// `std::time::Duration`, in nanoseconds.
  type Duration = nat

  const NANOS_PER_SEC: nat := 1_000_000_000

  /// `Duration::from_secs`.
  function Secs(n: nat): Duration
  {
    n * NANOS_PER_SEC
  }

  /// `Duration / 2`: the seconds are halved and the odd second carried
  /// into the nanoseconds, which comes to halving the whole count of
  /// nanoseconds, rounding down.
  function Half(d: Duration): (h: Duration)
    ensures h * 2 <= d < h * 2 + 2
  {
    d / 2
  }
}
