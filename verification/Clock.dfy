/** Readings of a monotonic clock. */
module Clock {

  /** Time since an earlier reading; zero when the readings arrive out of order. */
  function Elapsed(since: real, now: real): (d: real)
    ensures d >= 0.0
  {
    if now >= since then now - since else 0.0
  }
}
