/** Shared waits, and the clamp that keeps a wait inside what a timer takes. */
module TimingConstants {
  const MIN_RATE_LIMIT_RETRY_MS := 5000
  const MAX_RATE_LIMIT_RETRY_MS := 3600000
  const TRANSIENT_RETRY_MS := 300000
  const MAX_TIMER_MS := 0x7fff_ffff

  /** A number of the source; only a finite one is a whole number here. */
  datatype Number = Finite(n: int) | Infinite(positive: bool) | NaN

  function ClampTimerMs(ms: Number, fallback: int, max: int): int {
    var value := if ms.Finite? then ms.n else fallback;
    var raised := if value < 0 then 0 else value;
    var ceiling := if max < MAX_TIMER_MS then max else MAX_TIMER_MS;
    if raised < ceiling then raised else ceiling
  }
}
