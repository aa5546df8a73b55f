/** The fixed-step clock of schedule.rs.  Times are nanoseconds; a frequency is a real number. */
module FixedClocks {
  import opened Arithmetic
  import opened Wrappers

  const U64: nat := 0x1_0000_0000_0000_0000
  const U128: nat := U64 * U64
  const USIZE_MAX: nat := U64 - 1

  /** `(1e9 / hz) as u128`, which truncates and saturates. */
  function StepNanos(hz: real): nat
    requires hz > 0.0
  {
    var ns := (1000000000.0 / hz).Floor;
    FloorIsNatural(hz);
    if ns < U128 then ns else U128 - 1
  }

  lemma FloorIsNatural(hz: real)
    requires hz > 0.0
    ensures (1000000000.0 / hz).Floor >= 0
    ensures hz <= 1000000000.0 ==> (1000000000.0 / hz).Floor >= 1
  {
    assert 1000000000.0 / hz >= 0.0;
    if hz <= 1000000000.0 {
      QuotientAtLeastOne(1000000000.0, hz);
    }
  }

  /** The step length is truncated away exactly above 1 GHz. */
  lemma StepIsZeroIff(hz: real)
    requires hz > 0.0
    ensures StepNanos(hz) == 0 <==> hz > 1000000000.0
  {
    FloorIsNatural(hz);
    if hz > 1000000000.0 {
      QuotientBelowOne(1000000000.0, hz);
    }
  }

  /** Below the saturation the step length is the largest whole number of nanoseconds of which `hz` fit
    * into a second. */
  lemma StepLength(hz: real)
    requires hz > 0.0 && StepNanos(hz) < U128 - 1
    ensures StepNanos(hz) as real * hz <= 1000000000.0
    ensures 1000000000.0 < (StepNanos(hz) as real + 1.0) * hz
  {
    FloorIsNatural(hz);
    FloorTimes(1000000000.0, hz, StepNanos(hz) as real);
  }

  lemma FloorTimes(total: real, hz: real, n: real)
    requires 0.0 < hz && n <= total / hz < n + 1.0
    ensures n * hz <= total && total < (n + 1.0) * hz
  {
    var q := total / hz;
    assert q * hz == total;
    RealTimesMonotone(n, q, hz);
    var m := n + 1.0;
    RealTimesMonotone(q, m, hz);
    assert total < m * hz;
  }

  function Min(a: nat, b: nat): nat {
    if a <= b then a else b
  }

  /** `tick`: the steps due, and the time left over; both saturate. */
  function Ticked(step: nat, total: nat): (nat, nat)
    requires step > 0
  {
    var n := total / step;
    (Min(n, USIZE_MAX), if n > 0 then Min(total % step, U64 - 1) else total)
  }

  /** `step` compares with the step length cut down to 64 bits. */
  function Stepped(step: nat, acc: nat): (bool, nat) {
    var cut := step % U64;
    if acc >= cut then (true, acc - cut) else (false, acc)
  }

  // ---- one operation ----

  /** A loop that takes steps until none is due ends if and only if the step length is not cut down to
    * nothing, as it is above 1 GHz and at multiples of 2^64. */
  lemma TakingStepsEndsIff(step: nat)
    ensures (forall acc: nat :: StepsRunOut(step, acc)) <==> step % U64 != 0
  {
    if step % U64 != 0 {
      forall acc: nat
        ensures StepsRunOut(step, acc)
      {
        StepsEnd(step, acc);
      }
    } else {
      assert !StepsRunOut(step, 0);
    }
  }

  ghost predicate StepsRunOut(step: nat, acc: nat) {
    exists n: nat :: !Stepped(step, AfterSteps(step, acc, n)).0
  }

  /** As many steps are due as whole step lengths are waiting, and they leave the remainder. */
  lemma {:induction false} WholeStepsAreDue(step: nat, acc: nat)
    requires 0 < step < U64
    ensures AfterSteps(step, acc, acc / step) == acc % step && !Stepped(step, acc % step).0
    ensures forall n: nat | n < acc / step :: Stepped(step, AfterSteps(step, acc, n)).0
    decreases acc
  {
    if acc >= step {
      OneStepLess(step, acc);
      WholeStepsAreDue(step, acc - step);
      assert Stepped(step, acc) == (true, acc - step);
      forall n: nat | n < acc / step
        ensures Stepped(step, AfterSteps(step, acc, n)).0
      {
        assert n > 0 ==> AfterSteps(step, acc, n) == AfterSteps(step, acc - step, n - 1);
      }
    } else {
      EuclidUnique(acc, step, 0, acc);
    }
  }

  lemma OneStepLess(step: nat, acc: nat)
    requires 0 < step <= acc
    ensures acc / step == (acc - step) / step + 1 && acc % step == (acc - step) % step
  {
    var q, r := (acc - step) / step, (acc - step) % step;
    assert acc - step == q * step + r;
    assert (q + 1) * step == q * step + step;
    EuclidUnique(acc, step, q + 1, r);
  }

  /** What is left after n calls of `step`. */
  function AfterSteps(step: nat, acc: nat, n: nat): nat {
    if n == 0 then acc else AfterSteps(step, Stepped(step, acc).1, n - 1)
  }

  lemma {:induction false} StepsEnd(step: nat, acc: nat)
    requires step % U64 != 0
    ensures StepsRunOut(step, acc)
    decreases acc
  {
    if Stepped(step, acc).0 {
      StepsEnd(step, Stepped(step, acc).1);
      var n: nat :| !Stepped(step, AfterSteps(step, Stepped(step, acc).1, n)).0;
      assert AfterSteps(step, acc, n + 1) == AfterSteps(step, Stepped(step, acc).1, n);
    } else {
      assert AfterSteps(step, acc, 0) == acc;
    }
  }

  /** A tick accounts for all time exactly when neither count nor remainder saturates. */
  lemma TickConservesIff(step: nat, total: nat)
    requires step > 0
    ensures var (n, acc) := Ticked(step, total);
            n * step + acc == total <==>
              total / step < 0x1_0000_0000_0000_0000
              && (total / step == 0 || total % step < 0x1_0000_0000_0000_0000)
  {
    var n, rem := total / step, total % step;
    assert n * step + rem == total;
    if n > USIZE_MAX {
      assert n * step - USIZE_MAX * step == (n - USIZE_MAX) * step;
      AtLeastOneTurn(n - USIZE_MAX, step);
    }
  }

  /** What a tick saturates to. */
  lemma TickSaturates(step: nat, total: nat)
    requires step > 0
    ensures var (n, acc) := Ticked(step, total);
            && (total / step >= 0x1_0000_0000_0000_0000 ==> n == 0xFFFF_FFFF_FFFF_FFFF)
            && (total / step > 0 && total % step >= 0x1_0000_0000_0000_0000 ==> acc == 0xFFFF_FFFF_FFFF_FFFF)
  {
  }

  /** A successful `step` takes exactly one step length exactly when the length fits 64 bits. */
  lemma StepConservesIff(step: nat, acc: nat)
    requires Stepped(step, acc).0
    ensures Stepped(step, acc).1 + step == acc <==> step < 0x1_0000_0000_0000_0000
  {
  }

  // ---- runs ----

  datatype Op = Tick(dt: nat) | Step | Advance(dt: nat)

  datatype State = State(acc: nat, timeIn: nat, stepsOut: nat)

  const ZERO := State(0, 0, 0)

  function After(step: nat, s: State, op: Op): State
    requires op.Tick? ==> step > 0
  {
    match op
    case Tick(dt) =>
      var (n, acc) := Ticked(step, s.acc + dt);
      State(acc, s.timeIn + dt, s.stepsOut + n)
    case Step =>
      var (due, acc) := Stepped(step, s.acc);
      State(acc, s.timeIn, s.stepsOut + if due then 1 else 0)
    case Advance(dt) => State(s.acc + dt, s.timeIn + dt, s.stepsOut)
  }

  /** A tick at step length 0 divides by zero. */
  predicate NoneDividesByZero(step: nat, ops: seq<Op>) {
    forall i | 0 <= i < |ops| :: ops[i].Tick? ==> step > 0
  }

  function Run(step: nat, s: State, ops: seq<Op>): State
    requires NoneDividesByZero(step, ops)
    decreases |ops|
  {
    if ops == [] then s else Run(step, After(step, s, ops[0]), ops[1..])
  }

  /** No tick of the run has more steps due than a usize holds. */
  predicate CountsFit(step: nat, s: State, ops: seq<Op>)
    requires NoneDividesByZero(step, ops)
    decreases |ops|
  {
    ops == []
    || ((ops[0].Tick? ==> (s.acc + ops[0].dt) / step <= USIZE_MAX)
        && CountsFit(step, After(step, s, ops[0]), ops[1..]))
  }

  /** All time that went in is handed out in whole steps or still waiting. */
  predicate Balanced(step: nat, s: State) {
    s.timeIn == s.stepsOut * step + s.acc
  }

  lemma AfterBalanced(step: nat, s: State, op: Op)
    requires step < U64 && Balanced(step, s)
    requires op.Tick? ==> step > 0 && (s.acc + op.dt) / step <= USIZE_MAX
    ensures Balanced(step, After(step, s, op))
  {
    match op
    case Tick(dt) =>
      TickConservesIff(step, s.acc + dt);
      var n := Ticked(step, s.acc + dt).0;
      assert (s.stepsOut + n) * step == s.stepsOut * step + n * step;
    case Step =>
      if Stepped(step, s.acc).0 {
        StepConservesIff(step, s.acc);
        assert (s.stepsOut + 1) * step == s.stepsOut * step + step;
      }
    case Advance(dt) =>
  }

  lemma {:induction false} RunBalanced(step: nat, s: State, ops: seq<Op>)
    requires step < U64 && Balanced(step, s) && NoneDividesByZero(step, ops) && CountsFit(step, s, ops)
    ensures Balanced(step, Run(step, s, ops))
    decreases |ops|
  {
    if ops != [] {
      AfterBalanced(step, s, ops[0]);
      RunBalanced(step, After(step, s, ops[0]), ops[1..]);
    }
  }

  /** Between resets the clock never drifts, however ticks, single steps and charging are mixed, if
    * and only if the step length fits 64 bits. */
  lemma NeverDriftsIff(step: nat)
    ensures (forall ops | NoneDividesByZero(step, ops) && CountsFit(step, ZERO, ops) ::
               Balanced(step, Run(step, ZERO, ops)))
            <==> step < 0x1_0000_0000_0000_0000
  {
    if step < U64 {
      forall ops | NoneDividesByZero(step, ops) && CountsFit(step, ZERO, ops)
        ensures Balanced(step, Run(step, ZERO, ops))
      {
        RunBalanced(step, ZERO, ops);
      }
    } else {
      LongStepDrifts(step);
    }
  }

  /** With a longer step, charging one step and taking it leaves time behind. */
  lemma LongStepDrifts(step: nat)
    requires step >= U64
    ensures var ops := [Advance(step), Step];
            CountsFit(step, ZERO, ops) && !Balanced(step, Run(step, ZERO, ops))
  {
    var ops := [Advance(step), Step];
    var s1 := After(step, ZERO, ops[0]);
    var s2 := After(step, s1, ops[1]);
    assert s1 == State(step, step, 0);
    assert s2 == State(step - step % U64, step, 1);
    assert ops[1..] == [Step] && ops[1..][1..] == [];
    assert Run(step, s1, ops[1..]) == s2;
    assert CountsFit(step, s1, ops[1..]);
  }

  function TotalTime(ops: seq<Op>): nat {
    if ops == [] then 0 else (if ops[0].Step? then 0 else ops[0].dt) + TotalTime(ops[1..])
  }

  ghost predicate OnlyTicks(ops: seq<Op>) {
    forall i | 0 <= i < |ops| :: ops[i].Tick?
  }

  lemma {:induction false} TicksLeaveLess(step: nat, s: State, ops: seq<Op>)
    requires 0 < step < U64 && OnlyTicks(ops) && s.acc < step
    ensures Run(step, s, ops).acc < step && Run(step, s, ops).timeIn == s.timeIn + TotalTime(ops)
    decreases |ops|
  {
    if ops != [] {
      TicksLeaveLess(step, After(step, s, ops[0]), ops[1..]);
    }
  }

  /** A run of ticks alone hands out the whole steps of the total time, however the time is sliced. */
  lemma TicksCountWholeSteps(step: nat, ops: seq<Op>)
    requires 0 < step < U64 && OnlyTicks(ops) && CountsFit(step, ZERO, ops)
    ensures Run(step, ZERO, ops).stepsOut == TotalTime(ops) / step
  {
    TicksLeaveLess(step, ZERO, ops);
    RunBalanced(step, ZERO, ops);
    var s := Run(step, ZERO, ops);
    EuclidUnique(TotalTime(ops), step, s.stepsOut, s.acc);
  }

  // ---- the clock ----

  class FixedClock {
    var hz: real
    var accumulator: nat

    ghost predicate Valid()
      reads this
    {
      0.0 < hz
    }

    /** A frequency that is not positive falls back to 1 Hz. */
    constructor (hz: real)
      ensures Valid() && this.hz == (if hz > 0.0 then hz else 1.0) && accumulator == 0
    {
      this.hz := if hz > 0.0 then hz else 1.0;
      accumulator := 0;
    }

    /** None when the division by the step length fails; the time has been charged by then. */
    method Tick(dt: nat) returns (r: Option<nat>)
      requires Valid()
      modifies this`accumulator
      ensures r.None? <==> hz > 1000000000.0
      ensures StepNanos(hz) == 0 <==> r.None?
      ensures match r
              case Some(n) => (n, accumulator) == Ticked(StepNanos(hz), old(accumulator) + dt)
              case None => accumulator == old(accumulator) + dt
    {
      StepIsZeroIff(hz);
      var step := StepNanos(hz);
      accumulator := accumulator + dt;
      var total := accumulator;
      if step == 0 {
        return None;
      }
      var n := total / step;
      if n > 0 {
        var rem := total % step;
        accumulator := if rem < U64 then rem else U64 - 1;
      }
      if n > USIZE_MAX {
        n := USIZE_MAX;
      }
      return Some(n);
    }

    method Step() returns (due: bool)
      requires Valid()
      modifies this`accumulator
      ensures (due, accumulator) == Stepped(StepNanos(hz), old(accumulator))
    {
      var step := StepNanos(hz) % U64;
      if accumulator >= step {
        accumulator := accumulator - step;
        return true;
      }
      return false;
    }

    method Advance(dt: nat)
      modifies this`accumulator
      ensures accumulator == old(accumulator) + dt
    {
      accumulator := accumulator + dt;
    }

    method Reset()
      modifies this`accumulator
      ensures accumulator == 0
    {
      accumulator := 0;
    }
  }
}
