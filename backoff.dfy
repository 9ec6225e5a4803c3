/** The restart backoff that the process monitor applies when a process exits:
    delay-then-double on a fast exit, restart at once and reset on a slow one. */
module Backoff {

  function Min(a: nat, b: nat): nat {
    if a <= b then a else b
  }

  /** What one exit decides: how long to wait before this restart, and the delay kept for
      the next one. */
  datatype Decision = Decision(nextDelay: nat, delay: nat)

  /** The rule applied to a process that ran for `elapsed` seconds while its delay was
      `delay`. */
  function OnExit(elapsed: int, delay: nat, threshold: nat, minRestartDelay: nat, maxRestartDelay: nat)
    : (d: Decision)
    ensures minRestartDelay <= delay <= maxRestartDelay
            ==> minRestartDelay <= d.delay <= maxRestartDelay
    ensures elapsed < threshold ==> d.nextDelay == delay
    ensures elapsed < threshold && delay <= maxRestartDelay ==> delay <= d.delay
    ensures elapsed >= threshold ==> d == Decision(0, minRestartDelay)
  {
    if elapsed < threshold then Decision(delay, Min(delay * 2, maxRestartDelay))
    else Decision(0, minRestartDelay)
  }

  function Pow2(k: nat): nat {
    if k == 0 then 1 else 2 * Pow2(k - 1)
  }

  /** Exits that come `k` times in a row, each faster than the threshold: the delays the
      restarts were scheduled with, and the delay left afterwards. */
  function FastExits(k: nat, delay: nat, threshold: nat, minRestartDelay: nat, maxRestartDelay: nat)
    : (seq<nat>, nat)
    requires threshold > 0
  {
    if k == 0 then ([], delay)
    else
      var (scheduled, d) := FastExits(k - 1, delay, threshold, minRestartDelay, maxRestartDelay);
      var decision := OnExit(0, d, threshold, minRestartDelay, maxRestartDelay);
      (scheduled + [decision.nextDelay], decision.delay)
  }

  /** The i-th of k consecutive fast restarts waits d0 * 2^i seconds, capped at the maximum,
      and the delay left afterwards is d0 * 2^k, capped. */
  lemma {:induction false} FastExitsDouble(k: nat, d0: nat, threshold: nat, minRestartDelay: nat, maxRestartDelay: nat)
    requires threshold > 0 && d0 <= maxRestartDelay
    ensures |FastExits(k, d0, threshold, minRestartDelay, maxRestartDelay).0| == k
    ensures forall i :: 0 <= i < k ==>
      FastExits(k, d0, threshold, minRestartDelay, maxRestartDelay).0[i] == Min(d0 * Pow2(i), maxRestartDelay)
    ensures FastExits(k, d0, threshold, minRestartDelay, maxRestartDelay).1 == Min(d0 * Pow2(k), maxRestartDelay)
  {
    if k > 0 {
      FastExitsDouble(k - 1, d0, threshold, minRestartDelay, maxRestartDelay);
      assert d0 * Pow2(k) == 2 * (d0 * Pow2(k - 1));
    }
  }

  /** Scenario with minRestartDelay 1, threshold 1 and maxRestartDelay 60: three fast exits
      are restarted after 1, 2 and 4 seconds and leave the delay at 8; an exit after a run
      of 2 seconds is restarted at once and resets the delay to 1. */
  lemma BackoffScenario()
    ensures FastExits(3, 1, 1, 1, 60) == ([1, 2, 4], 8)
    ensures OnExit(2, 8, 1, 1, 60) == Decision(0, 1)
  {
    FastExitsDouble(3, 1, 1, 1, 60);
    assert Pow2(1) == 2 && Pow2(2) == 4 && Pow2(3) == 8;
    var scheduled := FastExits(3, 1, 1, 1, 60).0;
    assert scheduled[0] == 1 && scheduled[1] == 2 && scheduled[2] == 4;
    assert scheduled == [1, 2, 4];
  }

  /** While exits stay fast the delay never decreases, and it never passes the maximum. */
  lemma {:induction false} FastExitsMonotone(k: nat, d0: nat, threshold: nat, minRestartDelay: nat, maxRestartDelay: nat)
    requires threshold > 0 && minRestartDelay <= d0 <= maxRestartDelay
    ensures var (scheduled, d) := FastExits(k, d0, threshold, minRestartDelay, maxRestartDelay);
            |scheduled| == k && d0 <= d <= maxRestartDelay
            && (forall i, j :: 0 <= i <= j < k ==> scheduled[i] <= scheduled[j])
            && (forall i :: 0 <= i < k ==> minRestartDelay <= scheduled[i] <= d)
  {
    if k > 0 {
      FastExitsMonotone(k - 1, d0, threshold, minRestartDelay, maxRestartDelay);
    }
  }
}
