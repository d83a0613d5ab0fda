/** The worker-pool size: `autoConcurrency` and the `concurrency` input that overrides it. */
module Concurrency {

  import opened Wrappers

  /** Approximate bytes of heap one in-memory client archive needs: 80 MiB. */
  const EstMemPerJob: nat := 80 * 1048576

  /** The hard ceiling on the automatic default. */
  const UpperCap: nat := 8

  function Min(a: int, b: int): int { if a <= b then a else b }

  function Max(a: int, b: int): int { if a >= b then a else b }

  /**
   * The host-derived default: the smallest of the logical CPU count, the
   * number of jobs that fit in total memory and the ceiling, but never below 1.
   */
  function AutoConcurrency(cpuCount: nat, totalMem: nat): (r: int)
    ensures 1 <= r <= UpperCap
    ensures cpuCount >= 1 ==> r <= cpuCount
    ensures totalMem / EstMemPerJob >= 1 ==> r <= totalMem / EstMemPerJob
    ensures cpuCount >= 1 && totalMem / EstMemPerJob >= 1 ==>
              r == UpperCap || r == cpuCount || r == totalMem / EstMemPerJob
    ensures cpuCount == 0 || totalMem / EstMemPerJob == 0 ==> r == 1
  {
    var memBound := totalMem / EstMemPerJob;
    Max(1, Min(UpperCap, Min(cpuCount, memBound)))
  }

  /**
   * `Number(input || 0) || autoConcurrency()`. `requested` is the number the
   * input text reads as; None stands for an empty input and for text that
   * reads as NaN. Any nonzero number wins, zero and None fall back.
   */
  function EffectiveConcurrency(requested: Option<int>, cpuCount: nat, totalMem: nat): (r: int)
    ensures requested.Some? && requested.value != 0 ==> r == requested.value
    ensures requested.None? || requested == Some(0) ==> 1 <= r <= UpperCap && r == AutoConcurrency(cpuCount, totalMem)
  {
    if requested.Some? && requested.value != 0 then requested.value else AutoConcurrency(cpuCount, totalMem)
  }
}
