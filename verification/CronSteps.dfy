/**
 The values of a step such as `0/15`, with the 64-bit addition of the loop `i += step` written out.

 The loop is exact precisely when its first addition does not overflow.  When it does, the counter
 wraps to a large negative number, which the loop then appends like any other value.
 */
module CronSteps {
  import opened Arithmetic
  import opened Text

  const WORD := 0x1_0000_0000_0000_0000
  /** Every cron field's bounds lie within 0..59. */
  const TOP := 59

  /** 64-bit two's complement addition of a positive step. */
  function AddStep(i: int, step: int): int {
    if i + step > MAX_INT then i + step - WORD else i + step
  }

  /** The result is the number within 64 bits that differs from the sum by a multiple of 2 to the 64th. */
  lemma AddStepWraps(i: int, step: int)
    requires -0x8000_0000_0000_0000 <= i <= 0x7fff_ffff_ffff_ffff && 1 <= step <= 0x7fff_ffff_ffff_ffff
    ensures -0x8000_0000_0000_0000 <= AddStep(i, step) <= 0x7fff_ffff_ffff_ffff
    ensures (i + step - AddStep(i, step)) % 0x1_0000_0000_0000_0000 == 0
  {
  }

  /** The counter values the loop can be at: small ones, or those just after a wrap. */
  predicate Counter(i: int, end: int, step: int) {
    && end <= TOP && 1 <= step <= MAX_INT
    && (-TOP <= i <= MAX_INT || (MIN_INT <= i <= MIN_INT + TOP && -TOP <= i + step))
  }

  /** Decreases with every iteration, also across wraps. */
  function Remaining(i: int, end: int, step: int): (n: int)
    requires Counter(i, end, step)
    ensures i <= end ==> n > 0
  {
    if i > end then 0
    else if step < MAX_INT - TOP then end - i + 1
    else if -TOP <= i then 3 * (i + TOP) + 1
    else 3 * (i + step + TOP) + 2
  }

  lemma CounterStep(i: int, end: int, step: int)
    requires Counter(i, end, step) && i <= end
    ensures Counter(AddStep(i, step), end, step)
    ensures Remaining(AddStep(i, step), end, step) < Remaining(i, end, step)
  {
  }

  /** What `for i := start; i <= end; i += step` appends. */
  function StepValues(i: int, end: int, step: int): seq<int>
    requires Counter(i, end, step)
    decreases Remaining(i, end, step)
  {
    if i > end then []
    else
      CounterStep(i, end, step);
      [i] + StepValues(AddStep(i, step), end, step)
  }

  /** `v` is reached from `start` in whole steps, by `end`. */
  predicate OnStep(start: int, end: int, step: int, v: int)
    requires step > 0
  {
    start <= v <= end && (v - start) % step == 0
  }

  lemma OnStepNext(start: int, end: int, step: int, v: int)
    requires step > 0 && start <= end
    ensures OnStep(start, end, step, v) <==> v == start || OnStep(start + step, end, step, v)
  {
    assert (v - (start + step)) % step == (v - start) % step by { ModShift(v - start, step); }
    if start < v && (v - start) % step == 0 {
      assert v - start == step * ((v - start) / step);
      assert (v - start) / step >= 1;
    }
  }

  /** Without overflow, the loop appends exactly the values on the step, in order. */
  lemma {:induction false} StepExact(i: int, end: int, step: int)
    requires 0 <= i <= MAX_INT && end <= TOP && 1 <= step <= MAX_INT
    requires i <= end ==> i + step <= MAX_INT
    ensures forall v :: v in StepValues(i, end, step) <==> OnStep(i, end, step, v)
    decreases end - i
  {
    if i <= end {
      if i + step <= end {
        StepExact(i + step, end, step);
      }
      forall v ensures v in StepValues(i, end, step) <==> OnStep(i, end, step, v) {
        OnStepNext(i, end, step, v);
      }
    }
  }

  /**
   The exact condition: the values of a step loop are the values on the step, and all of them lie
   between start and end, if and only if the first addition fits in 64 bits.
   */
  lemma StepExactIff(start: int, end: int, step: int)
    requires 0 <= start <= end <= TOP && 1 <= step <= MAX_INT
    ensures (forall v :: v in StepValues(start, end, step) ==> start <= v <= end) <==> start + step <= MAX_INT
    ensures start + step <= MAX_INT ==>
              forall v :: v in StepValues(start, end, step) <==> OnStep(start, end, step, v)
  {
    if start + step <= MAX_INT {
      StepExact(start, end, step);
    } else {
      var w := AddStep(start, step);
      CounterStep(start, end, step);
      assert StepValues(start, end, step)[1..] == StepValues(w, end, step);
      assert StepValues(w, end, step)[0] == w && w < 0;
      assert w in StepValues(start, end, step);
    }
  }

  /** The loop itself. */
  method CollectSteps(start: int, end: int, step: int) returns (values: seq<int>)
    requires 0 <= start <= end <= TOP && 1 <= step <= MAX_INT
    ensures values == StepValues(start, end, step)
  {
    values := [];
    var i := start;
    while i <= end
      invariant Counter(i, end, step)
      invariant StepValues(start, end, step) == values + StepValues(i, end, step)
      decreases Remaining(i, end, step)
    {
      CounterStep(i, end, step);
      values := values + [i];
      i := AddStep(i, step);
    }
  }
}
