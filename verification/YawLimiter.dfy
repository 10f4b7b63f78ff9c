/** The supervisor's observed yaw: each millisecond tick moves it toward the target by at most 32768/1000 units,
    carrying the remainder of the division from tick to tick. */
module YawLimiter {

  const RATE: nat := 32768
  const TICKS_PER_SECOND: nat := 1000
  const CHANNEL_SCHEMA: nat := 1

  function StepLimit(remainder: nat): nat {
    (remainder + RATE) / TICKS_PER_SECOND
  }

  function NextRemainder(remainder: nat): (r: nat)
    ensures r < TICKS_PER_SECOND
  {
    (remainder + RATE) % TICKS_PER_SECOND
  }

  /** The remainder after `n` ticks. */
  function RemainderAfter(remainder: nat, n: nat): nat
    decreases n
  {
    if n == 0 then remainder else RemainderAfter(NextRemainder(remainder), n - 1)
  }

  /** The sum of the step limits of `n` ticks. */
  function LimitSum(remainder: nat, n: nat): nat
    decreases n
  {
    if n == 0 then 0 else StepLimit(remainder) + LimitSum(NextRemainder(remainder), n - 1)
  }

  /** The carried remainder makes the limit exact: no rounding is lost over any number of ticks. */
  lemma {:induction false} LimitSumExact(remainder: nat, n: nat)
    requires remainder < TICKS_PER_SECOND
    ensures LimitSum(remainder, n) == (remainder + RATE * n) / TICKS_PER_SECOND
    ensures RemainderAfter(remainder, n) == (remainder + RATE * n) % TICKS_PER_SECOND
    decreases n
  {
    if n > 0 {
      var next := NextRemainder(remainder);
      LimitSumExact(next, n - 1);
      assert remainder + RATE * n == (next + RATE * (n - 1)) + TICKS_PER_SECOND * StepLimit(remainder);
    }
  }

  /** Half a turn a second, whatever the remainder at the start. */
  lemma HalfATurnPerSecond(remainder: nat)
    requires remainder < TICKS_PER_SECOND
    ensures LimitSum(remainder, TICKS_PER_SECOND) == RATE && RemainderAfter(remainder, TICKS_PER_SECOND) == remainder
  {
    LimitSumExact(remainder, TICKS_PER_SECOND);
  }

  /** One tick toward the target. */
  function Moved(observed: int, target: int, limit: int): int {
    var difference := target - observed;
    observed + if difference > limit then limit else if difference < -limit then -limit else difference
  }

  /** The position after `n` ticks with a fixed target. */
  function ObservedAfter(observed: int, target: int, remainder: nat, n: nat): int
    decreases n
  {
    if n == 0 then observed
    else ObservedAfter(Moved(observed, target, StepLimit(remainder)), target, NextRemainder(remainder), n - 1)
  }

  function Distance(a: int, b: int): nat {
    if a < b then b - a else a - b
  }

  /** The closed form: the distance left is the initial distance less what the limits allow, never below zero,
      and on the same side, so the target is never overshot. */
  lemma {:induction false} ApproachesExactly(observed: int, target: int, remainder: nat, n: nat)
    ensures var sum := LimitSum(remainder, n);
      var left := if Distance(observed, target) > sum then Distance(observed, target) - sum else 0;
      ObservedAfter(observed, target, remainder, n) == if observed < target then target - left else target + left
    decreases n
  {
    if n > 0 {
      ApproachesExactly(Moved(observed, target, StepLimit(remainder)), target, NextRemainder(remainder), n - 1);
    }
  }

  /** The target is reached within ceil(distance / 32) ticks, and then held. */
  lemma ReachesInTime(observed: int, target: int, remainder: nat, n: nat)
    requires remainder < TICKS_PER_SECOND && 32 * n >= Distance(observed, target)
    ensures ObservedAfter(observed, target, remainder, n) == target
  {
    LimitSumExact(remainder, n);
    assert LimitSum(remainder, n) >= 32 * n;
    ApproachesExactly(observed, target, remainder, n);
  }

  datatype TargetYaw = TargetYaw(generation: nat, schema: nat, value: int)

  /** One tick of the supervisor, with the target channel as read at its two publication words. */
  class Supervisor {
    var observedYaw: int
    var targetYaw: int
    var benchmarkOffset: int
    var remainder: nat
    var faulted: bool

    constructor ()
      ensures observedYaw == targetYaw == benchmarkOffset == 0 && remainder == 0 && !faulted
    {
      observedYaw, targetYaw, benchmarkOffset, remainder, faulted := 0, 0, 0, 0, false;
    }

    /** `update_observed_yaw`: a target counts only if its publication stood still and matches; a stable but
        malformed one is a fault. */
    method UpdateObservedYaw(before: nat, target: TargetYaw, after: nat)
      requires remainder < TICKS_PER_SECOND
      modifies this`observedYaw, this`targetYaw, this`remainder, this`faulted
      ensures remainder == NextRemainder(old(remainder)) < TICKS_PER_SECOND
      ensures var stable := before != 0 && before == after;
        var wellFormed := target.generation == before && target.schema == CHANNEL_SCHEMA;
        && targetYaw == (if stable && wellFormed then target.value + benchmarkOffset else old(targetYaw))
        && faulted == (old(faulted) || (stable && !wellFormed))
      ensures observedYaw == ObservedAfter(old(observedYaw), targetYaw, old(remainder), 1)
    {
      if before != 0 {
        if before == after && target.generation == before && target.schema == CHANNEL_SCHEMA {
          targetYaw := target.value + benchmarkOffset;
        } else if before == after {
          faulted := true;
        }
      }
      var numerator := remainder + RATE;
      var maximumStep := numerator / TICKS_PER_SECOND;
      remainder := numerator % TICKS_PER_SECOND;
      var difference := targetYaw - observedYaw;
      var step := if difference > maximumStep then maximumStep
                  else if difference < -maximumStep then -maximumStep else difference;
      assert ObservedAfter(observedYaw + step, targetYaw, remainder, 0) == observedYaw + step;
      observedYaw := observedYaw + step;
    }
  }
}
