/** What the driver-monitoring policy guarantees over whole runs. */
module Escalation {
  import opened Wrappers
  import opened Reals
  import opened Filters
  import opened DriverMonitoring

  // ----- the invariant

  predicate ValidBudget(b: Budget) {
    && AWARENESS_FLOOR <= b.vision <= 1.0
    && AWARENESS_FLOOR <= b.wheel <= 1.0
    && match b.policy
       case Vision =>
         && b.threshold1 == VISION_THRESHOLD_1 && b.threshold2 == VISION_THRESHOLD_2
         && (b.step == VISION_STEP || b.step == 0.0)
         && b.wheel > 0.0
       case WheelTouch =>
         && b.threshold1 == WHEEL_THRESHOLD_1 && b.threshold2 == WHEEL_THRESHOLD_2
         && b.step == WHEEL_STEP
         && b.vision > VISION_THRESHOLD_2
  }

  predicate Valid(d: Monitor) { ValidBudget(d.budget) && 0.0 <= d.gaze.filter <= 1.0 }

  lemma InitialIsValid(alwaysOn: bool, lockedOut: bool)
    ensures Valid(Initial(alwaysOn, lockedOut))
  {
  }

  /** A flip never raises a terminal alert, and never takes one back. */
  lemma FlipIsHarmless(b: Budget, target: Policy)
    requires ValidBudget(b)
    ensures ValidBudget(b.SetPolicy(target))
    ensures b.Awareness() > 0.0 <==> b.SetPolicy(target).Awareness() > 0.0
    ensures b.Awareness() <= 0.0 ==> b.SetPolicy(target).Awareness() == b.Awareness()
  {
  }

  /** Unless orange has been reached, flipping away and back undoes itself. */
  lemma FlipUndoesItself(b: Budget, there: Policy)
    requires ValidBudget(b) && b.step != 0.0
    requires b.policy.Vision? ==> b.vision > VISION_THRESHOLD_2
    requires b.policy.WheelTouch? ==> b.wheel > 0.0
    ensures b.SetPolicy(there).SetPolicy(b.policy) == b
  {
  }

  lemma RecoveryBounds(a: real, step: real)
    requires AWARENESS_FLOOR <= a <= 1.0 && (step == VISION_STEP || step == 0.0 || step == WHEEL_STEP)
    ensures a <= Recovery(a, step) <= 1.0
    ensures Recovery(a, step) >= Min(a + RECOVERY_MIN * step, 1.0)
  {
    assert (RECOVERY_MAX - RECOVERY_MIN) * (1.0 - a) >= 0.0;
  }

  lemma FilterStaysInRange(g: Gaze, f: Frame)
    requires 0.0 <= g.filter <= 1.0
    ensures 0.0 <= g.Observe(f).filter <= 1.0
    ensures 1.0 - g.Observe(f).filter == (5.0 / 6.0) * (1.0 - g.filter) + if f.Distracted() then 0.0 else 1.0 / 6.0
  {
    assert Alpha(FILTER_RC, DT_DMON) == 1.0 / 6.0;
  }

  lemma StatesKeepValid(d: Monitor, frame: Option<Frame>)
    requires Valid(d)
    ensures Valid(d.UpdateStates(frame))
    ensures d.budget.Awareness() > 0.0 <==> d.UpdateStates(frame).budget.Awareness() > 0.0
    ensures d.UpdateStates(frame).tally == d.tally && d.UpdateStates(frame).alwaysOn == d.alwaysOn
  {
    if frame.Some? {
      FilterStaysInRange(d.gaze, frame.value);
      FlipIsHarmless(d.budget, d.gaze.Observe(frame.value).Target());
    }
  }

  lemma SeenKeepsValid(d: Monitor, i: Input)
    requires Valid(d)
    ensures Valid(d.Seen(i)) && d.Seen(i).tally == d.tally && d.Seen(i).alwaysOn == i.alwaysOn
    ensures d.budget.Awareness() > 0.0 <==> d.Seen(i).budget.Awareness() > 0.0
    ensures d.Seen(i).gaze == if i.frame.None? then d.gaze else d.gaze.Observe(i.frame.value)
    ensures d.Seen(i).budget == if i.frame.None? then d.budget else d.budget.SetPolicy(d.Seen(i).gaze.Target())
  {
    StatesKeepValid(d.(alwaysOn := i.alwaysOn), i.frame);
  }

  lemma RecoveredIsValid(b: Budget)
    requires ValidBudget(b) && b.Awareness() > 0.0
    ensures ValidBudget(b.Recovered()) && b.Recovered().Awareness() >= b.Awareness()
  {
    RecoveryBounds(b.Awareness(), b.step);
    hide Recovery;
  }

  lemma DrainedIsValid(b: Budget)
    requires ValidBudget(b)
    ensures ValidBudget(b.Drained()) && b.Drained().Awareness() <= b.Awareness()
  {
  }

  lemma EscalatedKeepsValid(d: Monitor, i: Input)
    requires Valid(d) && d.alert.NoAlert? && !d.Restarts(i)
    ensures Valid(d.Escalated(i))
    ensures d.Escalated(i).alert.Three? <==> d.Escalated(i).budget.Awareness() <= 0.0
    ensures d.Escalated(i).tally == d.tally.Counted(d.budget.Awareness(), d.Escalated(i).budget.Awareness())
    ensures d.budget.Awareness() <= 0.0 ==> d.Escalated(i).budget.Awareness() <= 0.0
    ensures d.budget.Awareness() > 0.0 >= d.Escalated(i).budget.Awareness() ==> i.engaged
    ensures d.Escalated(i).alwaysOn == d.alwaysOn
  {
    hide Budget.Recovered, Budget.Drained;
    if d.Recovers(i) {
      RecoveredIsValid(d.budget);
      DrainedIsValid(d.budget.Recovered());
      RecoveredThenDrained(d.budget);
    } else {
      DrainedIsValid(d.budget);
      DrainedReachesZeroByOneStep(d.budget);
    }
  }

  lemma DrainedReachesZeroByOneStep(b: Budget)
    ensures b.Awareness() > 0.0 >= b.Drained().Awareness() ==> b.Awareness() - b.step <= 0.0
  {
  }

  lemma RecoveredThenDrained(b: Budget)
    requires ValidBudget(b) && b.Awareness() > 0.0
    ensures b.Recovered().Awareness() > 0.0 >= b.Recovered().Drained().Awareness() ==> b.Awareness() - b.step <= 0.0
    ensures b.Recovered().step == b.step && b.Recovered().policy == b.policy
  {
    RecoveredIsValid(b);
    hide Recovery;
  }

  /** One step: what is counted, and when red can start and stop. */
  lemma StepFacts(d: Monitor, i: Input)
    requires Valid(d)
    ensures var e := d.Step(i);
      && Valid(e) && e.alwaysOn == i.alwaysOn
      && (e.alert.Three? <==> e.budget.Awareness() <= 0.0)
      && e.tally == d.tally.Latched().Counted(d.budget.Awareness(), e.budget.Awareness())
      && (d.budget.Awareness() > 0.0 >= e.budget.Awareness() ==> i.engaged)
      && (d.budget.Awareness() <= 0.0 ==> if i.engaged then e.budget.Awareness() <= 0.0 else e.budget.Awareness() == 1.0)
  {
    SeenKeepsValid(d, i);
    var s := d.Seen(i);
    if d.budget.Awareness() <= 0.0 {
      assert s.budget.Awareness() <= 0.0;
    }
    var m := s.(alert := NoAlert, interacting := i.interacting, tally := s.tally.Latched());
    hide Monitor.Seen, Monitor.Escalated;
    if !m.Restarts(i) {
      EscalatedKeepsValid(m, i);
    }
  }

  // ----- whole runs

  lemma {:induction false} RunKeepsValid(d: Monitor, inputs: seq<Input>)
    requires Valid(d)
    ensures Valid(d.Run(inputs))
    decreases |inputs|
  {
    if inputs != [] {
      StepFacts(d, inputs[0]);
      RunKeepsValid(d.Step(inputs[0]), inputs[1..]);
    }
  }

  lemma {:induction false} RunAppend(d: Monitor, a: seq<Input>, b: seq<Input>)
    ensures d.Run(a + b) == d.Run(a).Run(b)
    decreases |a|
  {
    if a == [] {
      assert a + b == b;
    } else {
      assert (a + b)[1..] == a[1..] + b;
      RunAppend(d.Step(a[0]), a[1..], b);
    }
  }

  lemma RunSnoc(d: Monitor, inputs: seq<Input>, i: Input)
    ensures d.Run(inputs + [i]) == d.Run(inputs).Step(i)
  {
    RunAppend(d, inputs, [i]);
    var e := d.Run(inputs);
    assert e.Run([i]) == e.Step(i).Run([i][1..]);
  }

  /** After any nonempty run, red is shown exactly when the live account is used up. */
  lemma RedMeansExhausted(d: Monitor, inputs: seq<Input>)
    requires Valid(d) && inputs != []
    ensures d.Run(inputs).alert.Three? <==> d.Run(inputs).budget.Awareness() <= 0.0
  {
    var k := |inputs| - 1;
    RunKeepsValid(d, inputs[..k]);
    RunSnoc(d, inputs[..k], inputs[k]);
    assert inputs[..k] + [inputs[k]] == inputs;
    StepFacts(d.Run(inputs[..k]), inputs[k]);
  }

  /** Red holds through every engaged step, and one disengaged step clears it. */
  lemma {:induction false} RedHoldsUntilDisengaged(d: Monitor, inputs: seq<Input>)
    requires Valid(d) && d.budget.Awareness() <= 0.0 && inputs != []
    ensures (forall i | i in inputs :: i.engaged) ==> d.Run(inputs).alert.Three?
    ensures (forall i | i in inputs[..|inputs| - 1] :: i.engaged) && !inputs[|inputs| - 1].engaged
            ==> !d.Run(inputs).alert.Three? && d.Run(inputs).budget.Awareness() == 1.0
    decreases |inputs|
  {
    StepFacts(d, inputs[0]);
    var e := d.Step(inputs[0]);
    if |inputs| == 1 {
      assert inputs[1..] == [];
      assert e.Run([]) == e;
    } else {
      assert inputs[1..][..|inputs| - 2] == inputs[..|inputs| - 1][1..];
      if inputs[0].engaged {
        RedHoldsUntilDisengaged(e, inputs[1..]);
      }
    }
  }

  /** How often engagement starts in `inputs`, given whether the step before was engaged. */
  function Engagements(before: bool, inputs: seq<Input>): nat
    decreases |inputs|
  {
    if inputs == [] then 0
    else (if inputs[0].engaged && !before then 1 else 0) + Engagements(inputs[0].engaged, inputs[1..])
  }

  /** Each engagement adds at most one terminal alert. */
  lemma {:induction false} OneAlertPerEngagement(d: Monitor, before: bool, inputs: seq<Input>)
    requires Valid(d)
    ensures d.tally.alerts <= d.Run(inputs).tally.alerts
    ensures d.Run(inputs).tally.alerts <= d.tally.alerts
      + (if before && d.budget.Awareness() > 0.0 then 1 else 0) + Engagements(before, inputs)
    decreases |inputs|
  {
    if inputs != [] {
      StepFacts(d, inputs[0]);
      OneAlertPerEngagement(d.Step(inputs[0]), inputs[0].engaged, inputs[1..]);
    }
  }

  /** How many steps of the run show red. */
  function RedSteps(d: Monitor, inputs: seq<Input>): nat
    decreases |inputs|
  {
    if inputs == [] then 0
    else (if d.Step(inputs[0]).alert.Three? then 1 else 0) + RedSteps(d.Step(inputs[0]), inputs[1..])
  }

  lemma {:induction false} TerminalTimeCountsRed(d: Monitor, inputs: seq<Input>)
    requires Valid(d)
    ensures d.Run(inputs).tally.steps == d.tally.steps + RedSteps(d, inputs)
    decreases |inputs|
  {
    if inputs != [] {
      StepFacts(d, inputs[0]);
      TerminalTimeCountsRed(d.Step(inputs[0]), inputs[1..]);
    }
  }

  /** The lockout is exactly the latched limit, one step late, and nothing clears it. */
  lemma LockoutIsLatched(d: Monitor, inputs: seq<Input>, last: Input)
    requires Valid(d)
    ensures d.Run(inputs + [last]).tally.tooDistracted <==>
            || d.tally.tooDistracted
            || d.Run(inputs).tally.alerts >= MAX_TERMINAL_ALERTS
            || d.Run(inputs).tally.steps >= MAX_TERMINAL_STEPS
  {
    RunSnoc(d, inputs, last);
    RunKeepsValid(d, inputs);
    StepFacts(d.Run(inputs), last);
    LockoutComesFromTally(d, inputs);
  }

  lemma {:induction false} LockoutComesFromTally(d: Monitor, inputs: seq<Input>)
    requires Valid(d)
    ensures d.tally.tooDistracted ==> d.Run(inputs).tally.tooDistracted
    ensures d.Run(inputs).tally.tooDistracted ==>
            || d.tally.tooDistracted
            || d.Run(inputs).tally.alerts >= MAX_TERMINAL_ALERTS
            || d.Run(inputs).tally.steps >= MAX_TERMINAL_STEPS
    decreases |inputs|
  {
    if inputs != [] {
      StepFacts(d, inputs[0]);
      var e := d.Step(inputs[0]);
      LockoutComesFromTally(e, inputs[1..]);
      OneAlertPerEngagement(e, false, inputs[1..]);
      TerminalTimeCountsRed(e, inputs[1..]);
    }
  }

  // ----- the two accounts

  /** Nothing on this step gives awareness back. */
  predicate Unrelieved(d: Monitor, i: Input) {
    var s := d.Seen(i);
    !s.Restarts(i) && !s.Recovers(i)
  }

  predicate UnrelievedRun(d: Monitor, inputs: seq<Input>)
    decreases |inputs|
  {
    inputs == [] || (Unrelieved(d, inputs[0]) && UnrelievedRun(d.Step(inputs[0]), inputs[1..]))
  }

  /** Such a step draws on the live account only, by at most one decrement. */
  lemma UnrelievedStepDrains(d: Monitor, i: Input)
    requires Valid(d) && Unrelieved(d, i)
    ensures var e := d.Step(i).budget; var s := d.Seen(i).budget;
      && e.vision <= d.budget.vision && e.wheel <= d.budget.wheel
      && e.policy == s.policy
      && (s.policy.Vision? ==> e.wheel == d.budget.wheel && e.vision >= d.budget.vision - VISION_STEP)
      && (s.policy.WheelTouch? ==> e.vision == d.budget.vision && e.wheel >= d.budget.wheel - WHEEL_STEP)
  {
    SeenKeepsValid(d, i);
    var s := d.Seen(i);
    assert s.budget.vision == d.budget.vision && s.budget.wheel == d.budget.wheel;
    DrainedIsValid(s.budget);
  }

  /** However the policy flips, neither account grows without relief. */
  lemma {:induction false} AccountsOnlyShrink(d: Monitor, inputs: seq<Input>)
    requires Valid(d) && UnrelievedRun(d, inputs)
    ensures d.Run(inputs).budget.vision <= d.budget.vision
    ensures d.Run(inputs).budget.wheel <= d.budget.wheel
    ensures d.Run(inputs).budget.vision + d.Run(inputs).budget.wheel
            >= d.budget.vision + d.budget.wheel - |inputs| as real * VISION_STEP
    decreases |inputs|
  {
    if inputs != [] {
      StepFacts(d, inputs[0]);
      UnrelievedStepDrains(d, inputs[0]);
      AccountsOnlyShrink(d.Step(inputs[0]), inputs[1..]);
    }
  }

  // ----- deadlines

  /** The driver is seen clearly, is distracted, and drives engaged. */
  predicate Glaring(i: Input) {
    i.frame.Some? && i.frame.value.Distracted() && i.engaged && !i.standstill
  }

  /** 1 - (5/6)^5: one more distracted frame takes the filter past 0.63. */
  const PRIMED := 1.0 - 3125.0 / 7776.0

  lemma {:induction false} PowerShrinks(m: nat, n: nat)
    requires m <= n
    ensures 0.0 < Power(5.0 / 6.0, n) <= Power(5.0 / 6.0, m) <= 1.0
  {
    if n > m {
      PowerShrinks(m, n - 1);
    } else if n > 0 {
      PowerShrinks(n - 1, n - 1);
    }
  }

  lemma PowerValues()
    ensures Power(5.0 / 6.0, 1) == 5.0 / 6.0 && Power(5.0 / 6.0, 2) == 25.0 / 36.0
    ensures Power(5.0 / 6.0, 3) == 125.0 / 216.0 && Power(5.0 / 6.0, 5) == 3125.0 / 7776.0
    ensures Power(5.0 / 6.0, 6) == 15625.0 / 46656.0
  {
    assert Power(5.0 / 6.0, 2) == (5.0 / 6.0) * Power(5.0 / 6.0, 1);
    assert Power(5.0 / 6.0, 3) == (5.0 / 6.0) * Power(5.0 / 6.0, 2);
    assert Power(5.0 / 6.0, 4) == (5.0 / 6.0) * Power(5.0 / 6.0, 3);
    assert Power(5.0 / 6.0, 5) == (5.0 / 6.0) * Power(5.0 / 6.0, 4);
    assert Power(5.0 / 6.0, 6) == (5.0 / 6.0) * Power(5.0 / 6.0, 5);
  }

  lemma PowerSuccessor(n: nat, e: real)
    requires n > 0
    ensures Power(5.0 / 6.0, n - 1) * ((5.0 / 6.0) * e) == Power(5.0 / 6.0, n) * e
  {
    assert Power(5.0 / 6.0, n) == (5.0 / 6.0) * Power(5.0 / 6.0, n - 1);
  }

  lemma GlaringGaze(d: Monitor, i: Input)
    requires Valid(d) && Glaring(i)
    ensures d.Step(i).gaze == d.gaze.Observe(i.frame.value)
    ensures d.Step(i).gaze.hiStds == 0 && d.Step(i).gaze.distracted && d.Step(i).gaze.face
    ensures 1.0 - d.Step(i).gaze.filter == (5.0 / 6.0) * (1.0 - d.gaze.filter)
  {
    FilterStaysInRange(d.gaze, i.frame.value);
  }

  lemma {:induction false} GlaringFilter(d: Monitor, inputs: seq<Input>)
    requires Valid(d) && forall i | i in inputs :: Glaring(i)
    ensures 1.0 - d.Run(inputs).gaze.filter == Power(5.0 / 6.0, |inputs|) * (1.0 - d.gaze.filter)
    ensures inputs != [] ==> d.Run(inputs).gaze.hiStds == 0
    decreases |inputs|
  {
    hide Monitor.Step;
    if inputs != [] {
      GlaringGaze(d, inputs[0]);
      StepFacts(d, inputs[0]);
      hide Valid;
      var e := d.Step(inputs[0]);
      GlaringFilter(e, inputs[1..]);
      if |inputs| == 1 {
        assert e.Run([]) == e;
      }
      PowerSuccessor(|inputs|, 1.0 - d.gaze.filter);
      hide Power;
    }
  }

  /** Once primed, every glaring step takes a full decrement from the vision account. */
  lemma GlaringStep(d: Monitor, i: Input)
    requires Valid(d) && Glaring(i) && d.gaze.hiStds < HI_STD_FALLBACK_STEPS && d.gaze.filter >= PRIMED
    requires d.budget.Awareness() > 0.0
    ensures d.Step(i).budget.policy.Vision?
    ensures d.Step(i).budget.vision == Max(d.budget.vision - VISION_STEP, AWARENESS_FLOOR)
    ensures d.Step(i).gaze.filter >= PRIMED
  {
    GlaringGaze(d, i);
    var s := d.Seen(i);
    assert s.gaze.Target() == Vision;
    FlipIsHarmless(d.budget, Vision);
    assert s.budget.policy.Vision? && s.budget.step == VISION_STEP && s.budget.vision == d.budget.vision;
  }

  lemma {:induction false} GlaringCountdown(d: Monitor, inputs: seq<Input>)
    requires Valid(d) && d.gaze.hiStds < HI_STD_FALLBACK_STEPS && d.gaze.filter >= PRIMED
    requires forall i | i in inputs :: Glaring(i)
    requires d.budget.Awareness() <= 0.0 || d.budget.vision <= |inputs| as real * VISION_STEP
    requires d.budget.Awareness() > 0.0 ==> inputs != []
    ensures d.Run(inputs).budget.Awareness() <= 0.0
    decreases |inputs|
  {
    if d.budget.Awareness() <= 0.0 {
      if inputs != [] {
        RedHoldsUntilDisengaged(d, inputs);
        RedMeansExhausted(d, inputs);
      }
    } else {
      GlaringStep(d, inputs[0]);
      GlaringGaze(d, inputs[0]);
      StepFacts(d, inputs[0]);
      assert |inputs[1..]| as real * VISION_STEP == |inputs| as real * VISION_STEP - VISION_STEP;
      GlaringCountdown(d.Step(inputs[0]), inputs[1..]);
    }
  }

  /** Worst case: 225 glaring steps show red from any reachable state, whatever the driver does with
      the wheel, the pedals or the gear lever meanwhile. */
  lemma RedWithin225Steps(d: Monitor, inputs: seq<Input>)
    requires Valid(d) && |inputs| >= 225
    requires forall i | i in inputs :: Glaring(i)
    ensures d.Run(inputs).alert.Three?
  {
    hide Monitor.Step;
    var a, b := inputs[..5], inputs[5..];
    assert a + b == inputs;
    RunAppend(d, a, b);
    RunKeepsValid(d, a);
    GlaringFilter(d, a);
    PowerValues();
    PowerTimes(1.0 - d.gaze.filter);
    GlaringCountdown(d.Run(a), b);
    RedMeansExhausted(d, inputs);
  }

  lemma PowerTimes(e: real)
    requires 0.0 <= e <= 1.0
    ensures Power(5.0 / 6.0, 5) * e <= 3125.0 / 7776.0
  {
    PowerValues();
  }

  lemma GlaringFromInitial(d: Monitor, i: Input, n: nat)
    requires Valid(d) && Glaring(i) && d.gaze.hiStds == 0 && d.budget.policy.Vision? && n <= 223
    requires 1.0 - d.gaze.filter == Power(5.0 / 6.0, n)
    requires d.budget.vision == if n <= 5 then 1.0 else 1.0 - (n - 5) as real * VISION_STEP
    ensures d.Step(i).budget.vision == if n + 1 <= 5 then 1.0 else 1.0 - (n - 4) as real * VISION_STEP
    ensures d.Step(i).budget.policy.Vision? && 1.0 - d.Step(i).gaze.filter == Power(5.0 / 6.0, n + 1)
    ensures d.Step(i).gaze.hiStds == 0
  {
    GlaringGaze(d, i);
    PowerValues();
    if n < 2 {
      PowerShrinks(n + 1, 2);
    } else {
      PowerShrinks(3, n + 1);
    }
    if n < 5 {
      PowerShrinks(n + 1, 5);
    } else {
      PowerShrinks(6, n + 1);
    }
    var s := d.Seen(i);
    assert s.gaze.Target() == Vision && s.budget.step == VISION_STEP && s.budget.vision == d.budget.vision;
    assert n + 1 <= 2 ==> s.gaze.filter < 0.37;
    assert 3 <= n + 1 ==> s.gaze.filter >= 0.37;
    assert 6 <= n + 1 <==> s.gaze.filter > 0.63;
  }

  lemma {:induction false} GlaringExactly(alwaysOn: bool, lockedOut: bool, inputs: seq<Input>)
    requires |inputs| <= 224 && forall i | i in inputs :: Glaring(i)
    ensures var e := Initial(alwaysOn, lockedOut).Run(inputs); var n := |inputs|;
      && Valid(e) && e.budget.policy.Vision? && e.gaze.hiStds == 0
      && 1.0 - e.gaze.filter == Power(5.0 / 6.0, n)
      && e.budget.vision == if n <= 5 then 1.0 else 1.0 - (n - 5) as real * VISION_STEP
    decreases |inputs|
  {
    var d := Initial(alwaysOn, lockedOut);
    RunKeepsValid(d, inputs);
    if inputs != [] {
      var k := |inputs| - 1;
      GlaringExactly(alwaysOn, lockedOut, inputs[..k]);
      assert inputs[..k] + [inputs[k]] == inputs;
      RunSnoc(d, inputs[..k], inputs[k]);
      GlaringFromInitial(d.Run(inputs[..k]), inputs[k], k);
    }
  }

  /** The bound is tight: from start-up, red comes at step 225 and not before. */
  lemma RedAtStep225(alwaysOn: bool, lockedOut: bool, inputs: seq<Input>)
    requires inputs != [] && forall i | i in inputs :: Glaring(i)
    ensures Initial(alwaysOn, lockedOut).Run(inputs).alert.Three? <==> |inputs| >= 225
  {
    if |inputs| >= 225 {
      RedWithin225Steps(Initial(alwaysOn, lockedOut), inputs);
    } else {
      GlaringExactly(alwaysOn, lockedOut, inputs);
      RedMeansExhausted(Initial(alwaysOn, lockedOut), inputs);
    }
  }

  /** No face in sight, hands and feet off, engaged and moving. */
  predicate Blank(i: Input) {
    i.frame.Some? && !i.frame.value.face && i.engaged && !i.standstill && !i.interacting
  }

  /** Past orange under the vision policy, and not yet red. */
  predicate Orange(b: Budget) {
    b.policy.Vision? && 0.0 < b.vision <= VISION_THRESHOLD_2
  }

  lemma BlankStep(d: Monitor, i: Input)
    requires Valid(d) && Blank(i) && d.budget.Awareness() > 0.0
    ensures var e := d.Step(i);
      if Orange(d.budget)
      then Orange(e.budget) && e.budget.vision == d.budget.vision && e.alert.Two?
      else e.budget.policy.WheelTouch? && e.budget.wheel == Max(d.budget.wheel - WHEEL_STEP, AWARENESS_FLOOR)
  {
    var s := d.Seen(i);
    assert s.gaze.Target() == WheelTouch && s.gaze.Suspect();
    FlipIsHarmless(d.budget, WheelTouch);
    assert s.budget == d.budget.SetPolicy(WheelTouch);
    assert !s.Restarts(i) && !s.Recovers(i);
  }

  lemma {:induction false} BlankCountdown(d: Monitor, inputs: seq<Input>)
    requires Valid(d) && !Orange(d.budget) && forall i | i in inputs :: Blank(i)
    requires d.budget.Awareness() <= 0.0 || d.budget.wheel <= |inputs| as real * WHEEL_STEP
    requires inputs != []
    ensures d.Run(inputs).alert.Three?
    decreases |inputs|
  {
    StepFacts(d, inputs[0]);
    if d.budget.Awareness() <= 0.0 {
      RedHoldsUntilDisengaged(d, inputs);
    } else {
      BlankStep(d, inputs[0]);
      var e := d.Step(inputs[0]);
      assert |inputs[1..]| as real * WHEEL_STEP == |inputs| as real * WHEEL_STEP - WHEEL_STEP;
      if |inputs| == 1 {
        assert e.Run([]) == e;
      } else {
        BlankCountdown(e, inputs[1..]);
      }
    }
  }

  lemma {:induction false} OrangeFreezes(d: Monitor, inputs: seq<Input>)
    requires Valid(d) && Orange(d.budget) && forall i | i in inputs :: Blank(i)
    ensures d.Run(inputs).budget.vision == d.budget.vision && Orange(d.Run(inputs).budget)
    ensures inputs != [] ==> d.Run(inputs).alert.Two?
    decreases |inputs|
  {
    if inputs != [] {
      StepFacts(d, inputs[0]);
      BlankStep(d, inputs[0]);
      OrangeFreezes(d.Step(inputs[0]), inputs[1..]);
      if |inputs| == 1 {
        assert d.Step(inputs[0]).Run([]) == d.Step(inputs[0]);
      }
    }
  }

  /** A driver who stays out of sight reaches red within 600 steps, except from orange: there the
      code freezes the budget, and orange is shown for as long as the face stays hidden. */
  lemma OutOfSight(d: Monitor, inputs: seq<Input>)
    requires Valid(d) && |inputs| >= 600 && forall i | i in inputs :: Blank(i)
    ensures d.Run(inputs).alert.Three? <==> !Orange(d.budget)
    ensures d.Run(inputs).alert.Two? <==> Orange(d.budget)
  {
    if Orange(d.budget) {
      OrangeFreezes(d, inputs);
    } else {
      BlankCountdown(d, inputs);
    }
  }

  /** Orange is reached by driving on distracted for 105 steps from start-up ... */
  lemma OrangeIsReached(alwaysOn: bool, lockedOut: bool, inputs: seq<Input>)
    requires |inputs| == 105 && forall i | i in inputs :: Glaring(i)
    ensures var e := Initial(alwaysOn, lockedOut).Run(inputs); Valid(e) && Orange(e.budget) && e.budget.vision == 6.0 / 11.0
  {
    GlaringExactly(alwaysOn, lockedOut, inputs);
  }

  /** ... and hiding the face from then on keeps it there. */
  lemma HidingAtOrange(alwaysOn: bool, lockedOut: bool, inputs: seq<Input>, hidden: seq<Input>)
    requires |inputs| == 105 && forall i | i in inputs :: Glaring(i)
    requires hidden != [] && forall i | i in hidden :: Blank(i)
    ensures Initial(alwaysOn, lockedOut).Run(inputs + hidden).alert.Two?
  {
    OrangeIsReached(alwaysOn, lockedOut, inputs);
    RunAppend(Initial(alwaysOn, lockedOut), inputs, hidden);
    OrangeFreezes(Initial(alwaysOn, lockedOut).Run(inputs), hidden);
  }

  /** The driver is seen clearly and looks at the road. */
  predicate Attending(i: Input) {
    i.frame.Some? && i.frame.value == Frame(true, true, false) && i.engaged
  }

  lemma AttendingStep(d: Monitor, i: Input)
    requires Valid(d) && Attending(i) && d.gaze.hiStds < HI_STD_FALLBACK_STEPS && d.budget.Awareness() > 0.0
    ensures var e := d.Step(i);
      && Valid(e) && e.gaze.hiStds == 0 && e.budget.policy.Vision? && e.budget.vision >= d.budget.vision > 0.0
      && e.gaze.filter == (5.0 / 6.0) * d.gaze.filter
      && (e.gaze.filter < 0.37 ==> e.budget.vision >= Min(d.budget.vision + RECOVERY_MIN * VISION_STEP, 1.0))
  {
    StepFacts(d, i);
    FilterStaysInRange(d.gaze, i.frame.value);
    FlipIsHarmless(d.budget, Vision);
    var s := d.Seen(i);
    assert s.gaze.Target() == Vision && !s.gaze.Suspect();
    assert s.budget == d.budget.SetPolicy(Vision) && s.budget.step == VISION_STEP;
    RecoveryBounds(s.budget.vision, VISION_STEP);
    hide Recovery;
  }

  lemma {:induction false} AttendingRun(d: Monitor, inputs: seq<Input>)
    requires Valid(d) && d.gaze.hiStds < HI_STD_FALLBACK_STEPS && d.budget.Awareness() > 0.0
    requires inputs != [] && forall i | i in inputs :: Attending(i)
    ensures var e := d.Run(inputs);
      && Valid(e) && e.gaze.hiStds == 0 && e.budget.policy.Vision? && e.budget.vision >= d.budget.vision > 0.0
      && e.gaze.filter == Power(5.0 / 6.0, |inputs|) * d.gaze.filter
      && (d.gaze.filter < 0.37 ==>
            e.budget.vision >= Min(d.budget.vision + |inputs| as real * (RECOVERY_MIN * VISION_STEP), 1.0))
    decreases |inputs|
  {
    hide Monitor.Step;
    AttendingStep(d, inputs[0]);
    var e := d.Step(inputs[0]);
    if |inputs| == 1 {
      assert e.Run([]) == e;
      PowerValues();
    } else {
      AttendingRun(e, inputs[1..]);
      hide Valid;
      assert (|inputs| - 1) as real * (RECOVERY_MIN * VISION_STEP)
          == |inputs| as real * (RECOVERY_MIN * VISION_STEP) - RECOVERY_MIN * VISION_STEP;
      PowerSuccessor(|inputs|, d.gaze.filter);
      hide Power;
    }
  }

  /** Below the uncertainty limit and short of red, 182 attentive steps give everything back. */
  lemma CertainAttentionRestores(d: Monitor, inputs: seq<Input>)
    requires Valid(d) && d.gaze.hiStds < HI_STD_FALLBACK_STEPS && d.budget.Awareness() > 0.0
    requires |inputs| >= 182 && forall i | i in inputs :: Attending(i)
    ensures d.Run(inputs).budget.policy.Vision? && d.Run(inputs).budget.vision == 1.0
  {
    hide Monitor.Step;
    var a, b := inputs[..6], inputs[6..];
    assert a + b == inputs;
    RunAppend(d, a, b);
    AttendingRun(d, a);
    PowerValues();
    var e := d.Run(a);
    assert Power(5.0 / 6.0, 6) * d.gaze.filter <= Power(5.0 / 6.0, 6);
    AttendingRun(e, b);
    assert |b| as real * (RECOVERY_MIN * VISION_STEP) >= 176.0 * (RECOVERY_MIN * VISION_STEP) == 1.0;
  }

  /** The one way to reach red while looking at the road: the camera was uncertain so long that the wheel account
      is live, it has but a step left, the filter is still high, and the driver keeps off the controls. */
  predicate AttendsTooLate(d: Monitor, i: Input) {
    && d.gaze.hiStds >= HI_STD_FALLBACK_STEPS && !Orange(d.budget) && d.budget.wheel <= WHEEL_STEP
    && (5.0 / 6.0) * d.gaze.filter >= 0.37 && !i.interacting && !i.standstill
  }

  lemma FirstAttendingStep(d: Monitor, i: Input)
    requires Valid(d) && Attending(i) && d.budget.Awareness() > 0.0
    ensures d.Step(i).budget.Awareness() <= 0.0 <==> AttendsTooLate(d, i)
    ensures d.Step(i).gaze.hiStds == 0
  {
    if d.gaze.hiStds < HI_STD_FALLBACK_STEPS {
      AttendingStep(d, i);
    } else {
      UncertainStep(d, i);
    }
  }

  lemma UncertainStep(d: Monitor, i: Input)
    requires Valid(d) && Attending(i) && d.budget.Awareness() > 0.0 && d.gaze.hiStds >= HI_STD_FALLBACK_STEPS
    ensures d.Step(i).budget.Awareness() <= 0.0 <==> AttendsTooLate(d, i)
    ensures d.Step(i).gaze.hiStds == 0
  {
    SeenKeepsValid(d, i);
    FilterStaysInRange(d.gaze, i.frame.value);
    var s := d.Seen(i);
    assert s.gaze.Target() == WheelTouch && s.gaze.Suspect();
    assert s.gaze.filter == (5.0 / 6.0) * d.gaze.filter;
    assert if Orange(d.budget) then s.budget == d.budget.(step := 0.0) else s.budget.policy.WheelTouch? && s.budget.wheel == d.budget.wheel;
    var m := s.(alert := NoAlert, interacting := i.interacting, tally := s.tally.Latched());
    if !m.Restarts(i) {
      hide Monitor.Seen, Gaze.Observe;
      UncertainEscalation(m, i);
    }
  }

  lemma UncertainEscalation(m: Monitor, i: Input)
    requires Valid(m) && !m.Restarts(i) && i.engaged && m.alert.NoAlert? && m.budget.Awareness() > 0.0 && m.interacting == i.interacting
    requires m.gaze.face && m.gaze.lowStd && m.gaze.uncertain
    ensures m.Escalated(i).budget.Awareness() <= 0.0
       <==> m.gaze.filter >= 0.37 && !m.StandstillExempt(i) && m.budget.Awareness() <= m.budget.step
    ensures m.Escalated(i).gaze == m.gaze
  {
    RecoveredIsValid(m.budget);
    RecoveredThenDrained(m.budget);
    RecoveryBounds(m.budget.Awareness(), m.budget.step);
    hide Recovery;
  }

  /** Short of red, 183 attentive steps give everything back unless the first of them came too late. */
  lemma AttentionRestores(d: Monitor, inputs: seq<Input>)
    requires Valid(d) && d.budget.Awareness() > 0.0
    requires |inputs| >= 183 && forall i | i in inputs :: Attending(i)
    ensures if AttendsTooLate(d, inputs[0]) then d.Run(inputs).alert.Three?
            else d.Run(inputs).budget.policy.Vision? && d.Run(inputs).budget.vision == 1.0
  {
    var e := d.Step(inputs[0]);
    StepFacts(d, inputs[0]);
    FirstAttendingStep(d, inputs[0]);
    hide Monitor.Step, AttendsTooLate;
    forall i | i in inputs[1..] ensures Attending(i) && i.engaged {
      assert i in inputs && Attending(i);
    }
    if e.budget.Awareness() <= 0.0 {
      RedHoldsUntilDisengaged(e, inputs[1..]);
    } else {
      CertainAttentionRestores(e, inputs[1..]);
    }
  }

  // ----- standing still

  /** Both accounts are above their first alert thresholds. */
  predicate Green(b: Budget) { b.vision > VISION_THRESHOLD_1 && b.wheel > WHEEL_THRESHOLD_1 }

  /** Neither account of `e` is below both its first threshold and what it was in `b`. */
  predicate Spared(b: Budget, e: Budget) {
    && e.vision >= Min(b.vision, VISION_THRESHOLD_1)
    && e.wheel >= Min(b.wheel, WHEEL_THRESHOLD_1)
    && (Green(b) ==> Green(e))
  }

  lemma StandstillEscalated(d: Monitor, i: Input)
    requires Valid(d) && i.standstill && d.budget.Awareness() > 0.0 && d.alert.NoAlert? && !d.Restarts(i)
    ensures Spared(d.budget, d.Escalated(i).budget) && d.Escalated(i).budget.Awareness() > 0.0
    ensures Green(d.budget) ==> d.Escalated(i).alert.NoAlert?
  {
    RecoveredIsValid(d.budget);
    assert d.Recovers(i) ==> d.budget.Recovered().vision >= d.budget.vision && d.budget.Recovered().wheel >= d.budget.wheel;
    hide Budget.Recovered, Gaze.Attentive, Gaze.Suspect;
  }

  lemma StandstillStep(d: Monitor, i: Input)
    requires Valid(d) && i.standstill && d.budget.Awareness() > 0.0
    ensures Spared(d.budget, d.Step(i).budget) && d.Step(i).budget.Awareness() > 0.0
    ensures Green(d.budget) ==> d.Step(i).alert.NoAlert?
  {
    SeenKeepsValid(d, i);
    var s := d.Seen(i);
    assert s.budget.vision == d.budget.vision && s.budget.wheel == d.budget.wheel;
    var r := s.(alert := NoAlert, interacting := i.interacting, tally := s.tally.Latched());
    if !r.Restarts(i) {
      StandstillEscalated(r, i);
    }
    hide Monitor.Escalated, Monitor.Seen, Monitor.Restarts;
  }

  /** A car that stands still raises nobody's alert: short of red no run of standstill steps takes an account
      below its first threshold, or below where it was, and from green no step shows an alert. */
  lemma {:induction false} StandstillSpares(d: Monitor, inputs: seq<Input>)
    requires Valid(d) && d.budget.Awareness() > 0.0 && forall i | i in inputs :: i.standstill
    ensures Spared(d.budget, d.Run(inputs).budget) && d.Run(inputs).budget.Awareness() > 0.0
    ensures Green(d.budget) && inputs != [] ==> d.Run(inputs).alert.NoAlert?
    decreases |inputs|
  {
    if inputs != [] {
      StepFacts(d, inputs[0]);
      StandstillStep(d, inputs[0]);
      StandstillSpares(d.Step(inputs[0]), inputs[1..]);
      if |inputs| == 1 {
        assert d.Step(inputs[0]).Run([]) == d.Step(inputs[0]);
      }
    }
  }
}
