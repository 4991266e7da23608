/** Whole drives from start to end: which alert is shown at which step, and what gives awareness back. */
module DriverRuns {
  import opened Wrappers
  import opened Reals
  import opened Filters
  import opened DriverMonitoring
  import opened Escalation

  // ----- looking away from start-up

  lemma GlaringShows(d: Monitor, i: Input, n: nat)
    requires Valid(d) && Glaring(i) && d.gaze.hiStds == 0 && d.budget.policy.Vision? && n <= 223
    requires 1.0 - d.gaze.filter == Power(5.0 / 6.0, n)
    requires d.budget.vision == if n <= 5 then 1.0 else 1.0 - (n - 5) as real * VISION_STEP
    ensures d.Step(i).alert == if n + 1 < 65 then NoAlert else if n + 1 < 105 then One else Two
  {
    GlaringFromInitial(d, i, n);
    PowerValues();
    if n >= 2 {
      PowerShrinks(3, n + 1);
    }
    GlaringGaze(d, i);
    var s := d.Seen(i);
    assert s.budget.step == VISION_STEP && s.budget.vision == d.budget.vision;
    assert 3 <= n + 1 ==> s.gaze.filter >= 0.37;
    assert n + 1 < 3 ==> s.budget.vision == 1.0;
    hide Power, Recovery, FilterStep;
  }

  /** A driver who looks away from start-up on is shown nothing for 64 steps, level one from step 65, two from
      step 105 and three from step 225. */
  lemma GlaringAlerts(alwaysOn: bool, lockedOut: bool, inputs: seq<Input>)
    requires inputs != [] && forall i | i in inputs :: Glaring(i)
    ensures var n := |inputs|;
      Initial(alwaysOn, lockedOut).Run(inputs).alert
        == if n < 65 then NoAlert else if n < 105 then One else if n < 225 then Two else Three
  {
    if |inputs| >= 225 {
      RedWithin225Steps(Initial(alwaysOn, lockedOut), inputs);
    } else {
      var k := |inputs| - 1;
      GlaringExactly(alwaysOn, lockedOut, inputs[..k]);
      assert inputs[..k] + [inputs[k]] == inputs;
      RunSnoc(Initial(alwaysOn, lockedOut), inputs[..k], inputs[k]);
      GlaringShows(Initial(alwaysOn, lockedOut).Run(inputs[..k]), inputs[k], k);
    }
  }

  // ----- out of sight from start-up

  lemma BlankShows(d: Monitor, i: Input)
    requires Valid(d) && Blank(i) && d.budget.Awareness() > 0.0 && !Orange(d.budget)
    ensures var e := d.Step(i);
      e.alert == if e.budget.wheel <= 0.0 then Three else if e.budget.wheel <= 0.2 then Two
                 else if e.budget.wheel <= 0.5 then One else NoAlert
    ensures d.Step(i).budget.vision == d.budget.vision
  {
    BlankStep(d, i);
    var s := d.Seen(i);
    assert s.gaze.Target() == WheelTouch && s.gaze.Suspect();
    FlipIsHarmless(d.budget, WheelTouch);
    assert s.budget == d.budget.SetPolicy(WheelTouch);
    assert !s.Restarts(i) && !s.Recovers(i);
  }

  lemma {:induction false} BlankExactly(alwaysOn: bool, lockedOut: bool, inputs: seq<Input>)
    requires 0 < |inputs| <= 600 && forall i | i in inputs :: Blank(i)
    ensures var e := Initial(alwaysOn, lockedOut).Run(inputs); var n := |inputs|;
      && Valid(e) && e.budget.vision == 1.0 && e.budget.wheel == 1.0 - n as real / 600.0
      && e.budget.policy.WheelTouch?
      && e.alert == if n < 300 then NoAlert else if n < 480 then One else if n < 600 then Two else Three
    decreases |inputs|
  {
    var d, k := Initial(alwaysOn, lockedOut), |inputs| - 1;
    RunKeepsValid(d, inputs);
    assert inputs[..k] + [inputs[k]] == inputs;
    RunSnoc(d, inputs[..k], inputs[k]);
    var b := d.Run(inputs[..k]);
    if k > 0 {
      BlankExactly(alwaysOn, lockedOut, inputs[..k]);
    } else {
      assert b == d;
      InitialIsValid(alwaysOn, lockedOut);
    }
    assert b.budget.vision == 1.0 && b.budget.wheel == 1.0 - k as real / 600.0;
    BlankStep(b, inputs[k]);
    BlankShows(b, inputs[k]);
    hide Monitor.Step, Monitor.Run;
    assert (k + 1) as real / 600.0 == k as real / 600.0 + WHEEL_STEP;
  }

  /** A driver who is out of sight from start-up on, hands off, is shown nothing for 299 steps, level one from step
      300, two from step 480 and three from step 600. */
  lemma BlankAlerts(alwaysOn: bool, lockedOut: bool, inputs: seq<Input>)
    requires inputs != [] && forall i | i in inputs :: Blank(i)
    ensures var n := |inputs|;
      Initial(alwaysOn, lockedOut).Run(inputs).alert
        == if n < 300 then NoAlert else if n < 480 then One else if n < 600 then Two else Three
  {
    if |inputs| <= 600 {
      BlankExactly(alwaysOn, lockedOut, inputs);
    } else {
      InitialIsValid(alwaysOn, lockedOut);
      OutOfSight(Initial(alwaysOn, lockedOut), inputs);
    }
  }

  // ----- seen, but not clearly

  /** A face is there but too uncertain to judge. */
  predicate Murky(i: Input) {
    i.frame.Some? && i.frame.value.face && !i.frame.value.lowStd && i.engaged && !i.standstill && !i.interacting
  }

  lemma MurkyStep(d: Monitor, i: Input)
    requires Valid(d) && Murky(i) && d.gaze.filter == 0.0 && d.budget.vision == 1.0 && d.budget.wheel > 0.0
    requires d.budget.policy.Vision? <==> d.gaze.hiStds <= 200
    ensures var e := d.Step(i);
      && e.gaze.filter == 0.0 && e.gaze.hiStds == d.gaze.hiStds + 1 && e.budget.vision == 1.0
      && (e.budget.policy.Vision? <==> e.gaze.hiStds <= 200)
      && e.budget.wheel == (if d.gaze.hiStds < 200 then d.budget.wheel else Max(d.budget.wheel - WHEEL_STEP, AWARENESS_FLOOR))
      && e.alert == if d.gaze.hiStds < 200 then NoAlert else if e.budget.wheel <= 0.0 then Three
                    else if e.budget.wheel <= 0.2 then Two else if e.budget.wheel <= 0.5 then One else NoAlert
  {
    FilterStaysInRange(d.gaze, i.frame.value);
    var s := d.Seen(i);
    assert s.gaze.filter == 0.0;
    assert s.gaze.uncertain <==> d.gaze.hiStds >= 200;
    hide Recovery, FilterStep;
  }

  lemma {:induction false} MurkyExactly(alwaysOn: bool, lockedOut: bool, inputs: seq<Input>)
    requires |inputs| <= 800 && forall i | i in inputs :: Murky(i)
    ensures var e := Initial(alwaysOn, lockedOut).Run(inputs); var n := |inputs|;
      && Valid(e) && e.gaze.filter == 0.0 && e.gaze.hiStds == n && e.budget.vision == 1.0
      && (e.budget.policy.Vision? <==> n <= 200)
      && e.budget.wheel == (if n <= 200 then 1.0 else 1.0 - (n - 200) as real / 600.0)
      && (n > 0 ==> e.alert == if n < 500 then NoAlert else if n < 680 then One else if n < 800 then Two else Three)
    decreases |inputs|
  {
    var d := Initial(alwaysOn, lockedOut);
    InitialIsValid(alwaysOn, lockedOut);
    RunKeepsValid(d, inputs);
    if inputs != [] {
      var k := |inputs| - 1;
      assert inputs[..k] + [inputs[k]] == inputs;
      RunSnoc(d, inputs[..k], inputs[k]);
      MurkyExactly(alwaysOn, lockedOut, inputs[..k]);
      MurkyStep(d.Run(inputs[..k]), inputs[k]);
      hide Monitor.Step, Monitor.Run;
      assert k >= 200 ==> (k + 1 - 200) as real / 600.0 == (k - 200) as real / 600.0 + WHEEL_STEP;
    }
  }

  /** A face that stays uncertain is believed for 200 steps; only then does the wheel budget start to run. */
  lemma MurkyAlerts(alwaysOn: bool, lockedOut: bool, inputs: seq<Input>)
    requires inputs != [] && forall i | i in inputs :: Murky(i)
    ensures var n := |inputs|;
      Initial(alwaysOn, lockedOut).Run(inputs).alert
        == if n < 500 then NoAlert else if n < 680 then One else if n < 800 then Two else Three
  {
    if |inputs| <= 800 {
      MurkyExactly(alwaysOn, lockedOut, inputs);
    } else {
      var a, b := inputs[..800], inputs[800..];
      assert inputs == a + b;
      MurkyExactly(alwaysOn, lockedOut, a);
      RunAppend(Initial(alwaysOn, lockedOut), a, b);
      forall i | i in b ensures Murky(i) && i.engaged {
        assert i in inputs;
      }
      RedHoldsUntilDisengaged(Initial(alwaysOn, lockedOut).Run(a), b);
    }
  }

  // ----- always-on monitoring without engagement

  /** Disengaged, in gear and moving, seen clearly and distracted, with always-on monitoring. */
  predicate Watched(i: Input) {
    i.frame.Some? && i.frame.value.Distracted() && !i.engaged && !i.standstill && i.alwaysOn && !i.wrongGear
  }

  lemma WatchedStep(d: Monitor, i: Input)
    requires Valid(d) && Watched(i) && d.gaze.hiStds < HI_STD_FALLBACK_STEPS && d.budget.Awareness() > 0.0 && d.gaze.filter >= PRIMED
    ensures var e := d.Step(i);
      && e.budget.policy.Vision? && e.gaze.hiStds == 0 && e.gaze.filter >= PRIMED
      && e.budget.vision == (if d.budget.vision > VISION_STEP then d.budget.vision - VISION_STEP else d.budget.vision)
      && e.alert == if e.budget.vision <= 6.0 / 11.0 then Two else if e.budget.vision <= 8.0 / 11.0 then One else NoAlert
  {
    FilterStaysInRange(d.gaze, i.frame.value);
    FlipIsHarmless(d.budget, Vision);
    var s := d.Seen(i);
    assert s.gaze.Target() == Vision && s.gaze.Suspect() && s.gaze.filter >= PRIMED;
    assert s.budget.policy.Vision? && s.budget.step == VISION_STEP && s.budget.vision == d.budget.vision;
    hide Recovery, FilterStep;
  }

  lemma {:induction false} WatchedRun(d: Monitor, inputs: seq<Input>)
    requires Valid(d) && d.gaze.hiStds < HI_STD_FALLBACK_STEPS && d.budget.Awareness() > 0.0 && d.gaze.filter >= PRIMED
    requires inputs != [] && forall i | i in inputs :: Watched(i)
    requires d.budget.policy.Vision? || d.budget.vision > VISION_STEP
    ensures var e := d.Run(inputs); var left := d.budget.vision - |inputs| as real * VISION_STEP;
      && Valid(e) && e.budget.policy.Vision? && e.budget.vision > 0.0
      && (left > 0.0 ==> e.budget.vision == left)
      && (left <= 0.0 ==> e.budget.vision <= VISION_STEP)
      && e.alert == if e.budget.vision <= 6.0 / 11.0 then Two else if e.budget.vision <= 8.0 / 11.0 then One else NoAlert
    decreases |inputs|
  {
    WatchedStep(d, inputs[0]);
    StepFacts(d, inputs[0]);
    var e := d.Step(inputs[0]);
    hide Monitor.Step;
    assert |inputs[1..]| as real * VISION_STEP == |inputs| as real * VISION_STEP - VISION_STEP;
    if |inputs| == 1 {
      assert e.Run([]) == e;
    } else {
      assert |inputs[1..]| as real * VISION_STEP >= VISION_STEP;
      WatchedRun(e, inputs[1..]);
    }
  }

  lemma WatchedStays(d: Monitor, i: Input)
    requires Valid(d) && Watched(i) && d.gaze.hiStds < HI_STD_FALLBACK_STEPS && d.budget.Awareness() > 0.0
    ensures var e := d.Step(i);
      && Valid(e) && e.gaze.hiStds == 0 && e.budget.Awareness() > 0.0 && e.budget.policy.Vision?
      && 1.0 - e.gaze.filter == (5.0 / 6.0) * (1.0 - d.gaze.filter)
  {
    StepFacts(d, i);
    FilterStaysInRange(d.gaze, i.frame.value);
    FlipIsHarmless(d.budget, Vision);
    var s := d.Seen(i);
    assert s.gaze.Target() == Vision && s.budget.policy.Vision?;
    hide Recovery, FilterStep, Valid;
  }

  lemma {:induction false} WatchedPrimes(d: Monitor, inputs: seq<Input>)
    requires Valid(d) && d.gaze.hiStds < HI_STD_FALLBACK_STEPS && d.budget.Awareness() > 0.0
    requires inputs != [] && forall i | i in inputs :: Watched(i)
    ensures var e := d.Run(inputs);
      && Valid(e) && e.gaze.hiStds == 0 && e.budget.Awareness() > 0.0 && e.budget.policy.Vision?
      && 1.0 - e.gaze.filter == Power(5.0 / 6.0, |inputs|) * (1.0 - d.gaze.filter)
    decreases |inputs|
  {
    hide Monitor.Step;
    WatchedStays(d, inputs[0]);
    var e := d.Step(inputs[0]);
    if |inputs| == 1 {
      assert e.Run([]) == e;
      PowerValues();
    } else {
      WatchedPrimes(e, inputs[1..]);
      hide Valid;
      PowerSuccessor(|inputs|, 1.0 - d.gaze.filter);
      hide Power;
    }
  }

  /** A disengaged driver who looks away under always-on monitoring is taken down to the last step before red, is
      left there, and is shown level two but never three. */
  lemma WatchedSettles(d: Monitor, inputs: seq<Input>)
    requires Valid(d) && d.gaze.hiStds < HI_STD_FALLBACK_STEPS && d.budget.Awareness() > 0.0
    requires |inputs| >= 225 && forall i | i in inputs :: Watched(i)
    ensures var e := d.Run(inputs); e.budget.policy.Vision? && 0.0 < e.budget.vision <= 1.0 / 220.0 && e.alert.Two?
  {
    hide Monitor.Step;
    var a, b := inputs[..5], inputs[5..];
    assert a + b == inputs;
    RunAppend(d, a, b);
    WatchedPrimes(d, a);
    PowerTimes(1.0 - d.gaze.filter);
    forall i | i in b ensures Watched(i) {
      assert i in inputs;
    }
    WatchedRun(d.Run(a), b);
    assert |b| as real * VISION_STEP >= 220.0 * VISION_STEP == 1.0;
  }

  // ----- looking at the road

  /** What an attentive step does, hands off: nothing while the filter is high, then recovery, of the wheel account
      too once vision is full. */
  lemma AttendingExactly(d: Monitor, i: Input)
    requires Valid(d) && Attending(i) && !i.interacting && !i.standstill
    requires d.gaze.hiStds < HI_STD_FALLBACK_STEPS && d.budget.Awareness() > 0.0
    ensures var e := d.Step(i); var v := d.budget.vision; var high := (5.0 / 6.0) * d.gaze.filter >= 0.37;
      && e.budget.vision == (if high then v else Min(v + ((5.0 - 1.25) * (1.0 - v) + 1.25) / 220.0, 1.0))
      && e.budget.wheel == (if high || e.budget.vision < 1.0 then d.budget.wheel else Min(d.budget.wheel + 1.0 / 220.0, 1.0))
      && e.alert == if e.budget.vision <= 6.0 / 11.0 then Two else if high && e.budget.vision <= 8.0 / 11.0 then One else NoAlert
  {
    AttendingStep(d, i);
    FilterStaysInRange(d.gaze, i.frame.value);
    FlipIsHarmless(d.budget, Vision);
    var s := d.Seen(i);
    assert s.gaze.Target() == Vision && !s.gaze.Suspect();
    assert s.budget.policy.Vision? && s.budget.step == VISION_STEP && s.budget.vision == d.budget.vision;
    RecoveryBounds(s.budget.vision, VISION_STEP);
    hide FilterStep;
  }

  /** What is left of the gap between `v` and 4/3 is the part `p`. */
  function Closed(v: real, p: real): real { Min(4.0 / 3.0 - p * (4.0 / 3.0 - v), 1.0) }

  /** What looking away does in one step, at any filter: nothing but recovery while it is low, nothing while it is
      in between, and a step off the vision account above 0.63. */
  lemma GlaringExactStep(d: Monitor, i: Input)
    requires Valid(d) && Glaring(i) && !i.interacting && d.gaze.hiStds < HI_STD_FALLBACK_STEPS && d.budget.Awareness() > 0.0
    ensures var e := d.Step(i); var v := d.budget.vision; var f := (5.0 / 6.0) * d.gaze.filter + 1.0 / 6.0;
      && e.gaze.filter == f
      && e.budget.vision == (if f < 0.37 then Min(v + ((5.0 - 1.25) * (1.0 - v) + 1.25) / 220.0, 1.0)
                             else if f <= 0.63 then v else Max(v - 1.0 / 220.0, -0.1))
  {
    FilterStaysInRange(d.gaze, i.frame.value);
    FlipIsHarmless(d.budget, Vision);
    var s := d.Seen(i);
    assert s.gaze.Target() == Vision;
    assert s.budget.policy.Vision? && s.budget.step == VISION_STEP && s.budget.vision == d.budget.vision;
    RecoveryBounds(s.budget.vision, VISION_STEP);
    hide FilterStep;
  }

  /** Looking at the road closes the gap to 4/3 by the same factor every step, until the account is full. */
  lemma {:induction false} RecoveryIsGeometric(d: Monitor, inputs: seq<Input>)
    requires Valid(d) && d.gaze.hiStds < HI_STD_FALLBACK_STEPS && d.budget.Awareness() > 0.0 && d.gaze.filter < 0.37
    requires forall i | i in inputs :: Attending(i) && !i.interacting && !i.standstill
    ensures inputs != [] ==> d.Run(inputs).budget.vision == Closed(d.budget.vision, Power(173.0 / 176.0, |inputs|))
    decreases |inputs|
  {
    if inputs != [] {
      var v := d.budget.vision;
      AttendingExactly(d, inputs[0]);
      AttendingStep(d, inputs[0]);
      var e := d.Step(inputs[0]);
      hide Monitor.Step;
      assert e.budget.vision == Closed(v, 173.0 / 176.0);
      if |inputs| == 1 {
        assert e.Run([]) == e;
        PowerOfOne(173.0 / 176.0);
      } else {
        RecoveryIsGeometric(e, inputs[1..]);
        hide Valid;
        GapCloses(|inputs|, v);
      }
      hide Power, Closed;
    }
  }

  lemma PowerOfOne(b: real)
    ensures Power(b, 1) == b
  {
    assert Power(b, 0) == 1.0;
  }

  lemma GapCloses(n: nat, v: real)
    requires n > 1 && v <= 1.0
    ensures Closed(Closed(v, 173.0 / 176.0), Power(173.0 / 176.0, n - 1)) == Closed(v, Power(173.0 / 176.0, n))
  {
    var q, p := 173.0 / 176.0, Power(173.0 / 176.0, n - 1);
    PowerOfFraction(n - 1);
    assert Power(q, n) == q * p;
    hide Power;
    ClosedTwice(v, q, p);
  }

  lemma ClosedTwice(v: real, q: real, p: real)
    requires v <= 1.0 && 0.0 <= p <= 1.0 && 0.0 <= q
    ensures Closed(Closed(v, q), p) == Closed(v, q * p)
  {
    var gap := 4.0 / 3.0 - v;
    var g := q * gap;
    AtLeastProduct(q, 0.0, gap);
    Regrouped(q, p, gap, g);
    ClosedAt(v, q, gap, g);
    ClosedAt(v, q * p, gap, p * g);
    var w := Closed(v, q);
    ClosedAt(w, p, 4.0 / 3.0 - w, p * (4.0 / 3.0 - w));
    hide Closed;
    if g < 1.0 / 3.0 {
      SmallPart(p, 1.0 / 3.0, 1.0 / 3.0);
      SmallPart(p, g, 1.0 / 3.0);
      assert w == 1.0 && 4.0 / 3.0 - w == 1.0 / 3.0;
    } else {
      assert 4.0 / 3.0 - w == g;
    }
  }

  lemma Regrouped(q: real, p: real, gap: real, g: real)
    requires g == q * gap
    ensures q * p * gap == p * g
  {
  }

  lemma ClosedAt(v: real, p: real, gap: real, part: real)
    requires gap == 4.0 / 3.0 - v && part == p * gap
    ensures Closed(v, p) == Min(4.0 / 3.0 - part, 1.0)
  {
  }

  lemma SmallPart(p: real, g: real, most: real)
    requires 0.0 <= p <= 1.0 && 0.0 <= g <= most
    ensures p * g <= most
  {
    AtLeastProduct(1.0, p, g);
  }

  lemma {:induction false} PowerOfFraction(n: nat)
    ensures 0.0 <= Power(173.0 / 176.0, n) <= 1.0
  {
    if n > 0 {
      PowerOfFraction(n - 1);
    }
  }

  /** With vision full, looking at the road pays the wheel account back, a vision step at a time. */
  lemma {:induction false} WheelIsRepaid(d: Monitor, inputs: seq<Input>)
    requires Valid(d) && d.gaze.hiStds < HI_STD_FALLBACK_STEPS && d.budget.Awareness() > 0.0 && d.gaze.filter < 0.37
    requires d.budget.vision == 1.0 && forall i | i in inputs :: Attending(i) && !i.interacting && !i.standstill
    ensures d.Run(inputs).budget.vision == 1.0
    ensures d.Run(inputs).budget.wheel == Repaid(d.budget.wheel, |inputs|)
    decreases |inputs|
  {
    if inputs == [] {
      hide Monitor.Step;
    } else {
      AttendingExactly(d, inputs[0]);
      AttendingStep(d, inputs[0]);
      var e := d.Step(inputs[0]);
      hide Monitor.Step;
      assert e.budget.vision == 1.0 && e.budget.wheel == Repaid(d.budget.wheel, 1);
      WheelIsRepaid(e, inputs[1..]);
      hide Valid;
      RepaidOnceMore(d.budget.wheel, |inputs|);
      hide Repaid;
    }
  }

  /** A wheel account after `n` repayments. */
  function Repaid(wheel: real, n: nat): real { Min(wheel + n as real * (1.0 / 220.0), 1.0) }

  lemma RepaidOnceMore(wheel: real, n: nat)
    requires n > 0
    ensures Repaid(Repaid(wheel, 1), n - 1) == Repaid(wheel, n)
  {
    assert n as real == (n - 1) as real + 1.0;
  }

  // ----- what gives everything back at once

  /** A touch while looking at the road, a touch while the wheel budget runs, and disengaging without always-on
      monitoring give both accounts back in full. */
  lemma GivesAllBack(d: Monitor, i: Input)
    requires Valid(d)
    requires || (Attending(i) && i.interacting && d.budget.Awareness() > 0.0 && d.gaze.hiStds < HI_STD_FALLBACK_STEPS
                 && (5.0 / 6.0) * d.gaze.filter < 0.37)
             || (i.frame.Some? && !i.frame.value.face && i.interacting && d.budget.Awareness() > 0.0 && !Orange(d.budget))
             || (!i.engaged && (!i.alwaysOn || i.wrongGear || d.budget.Awareness() <= 0.0))
    ensures var e := d.Step(i); e.budget.vision == 1.0 && e.budget.wheel == 1.0 && e.alert.NoAlert?
  {
    SeenKeepsValid(d, i);
    if i.frame.Some? {
      FilterStaysInRange(d.gaze, i.frame.value);
    }
    hide Recovery, FilterStep, ValidBudget;
  }

  // ----- looking away at standstill

  predicate Waiting(i: Input) {
    i.frame.Some? && i.frame.value.Distracted() && i.engaged && i.standstill && !i.interacting
  }

  lemma WaitingStep(d: Monitor, i: Input)
    requires Valid(d) && Waiting(i) && d.gaze.hiStds < HI_STD_FALLBACK_STEPS && d.budget.Awareness() > 0.0 && d.gaze.filter >= PRIMED
    ensures var e := d.Step(i); var v := d.budget.vision;
      && e.gaze.hiStds == 0 && e.gaze.filter >= PRIMED && e.budget.policy.Vision?
      && e.budget.vision == (if v > 8.0 / 11.0 + 1.0 / 220.0 then v - 1.0 / 220.0
                             else Min(v + ((5.0 - 1.25) * (1.0 - v) + 1.25) / 220.0, 1.0))
      && (e.budget.vision > 8.0 / 11.0 ==> e.alert.NoAlert?)
  {
    FilterStaysInRange(d.gaze, i.frame.value);
    FlipIsHarmless(d.budget, Vision);
    var s := d.Seen(i);
    assert s.gaze.Target() == Vision && s.gaze.Suspect() && s.gaze.filter >= PRIMED && !s.gaze.Attentive();
    assert s.budget.policy.Vision? && s.budget.step == VISION_STEP && s.budget.vision == d.budget.vision;
    RecoveryBounds(s.budget.vision, VISION_STEP);
    hide FilterStep;
  }

  /** Just above the first threshold. */
  predicate Held(v: real) { 8.0 / 11.0 < v <= 8.0 / 11.0 + 4.0 / 220.0 }

  lemma {:induction false} WaitingRun(d: Monitor, inputs: seq<Input>)
    requires Valid(d) && d.gaze.hiStds < HI_STD_FALLBACK_STEPS && d.budget.Awareness() > 0.0 && d.gaze.filter >= PRIMED
    requires forall i | i in inputs :: Waiting(i)
    requires var v, n := d.budget.vision, |inputs| as real;
      Held(v) || (v <= 8.0 / 11.0 + (n + 1.0) / 220.0 && v + 1.25 * n / 220.0 > 8.0 / 11.0)
    ensures Held(d.Run(inputs).budget.vision) && (inputs != [] ==> d.Run(inputs).alert.NoAlert?)
    decreases |inputs|
  {
    if inputs != [] {
      WaitingStep(d, inputs[0]);
      StepFacts(d, inputs[0]);
      StandstillStep(d, inputs[0]);
      var e := d.Step(inputs[0]);
      hide Monitor.Step, Valid;
      assert |inputs[1..]| as real == |inputs| as real - 1.0;
      WaitingRun(e, inputs[1..]);
      if |inputs| == 1 {
        assert e.Run([]) == e;
      }
    }
  }

  /** At standstill a driver who looks away is taken down to, or brought back up to, just above the first threshold
      and held there without an alert. */
  lemma WaitingIsHeld(d: Monitor, inputs: seq<Input>)
    requires Valid(d) && d.gaze.hiStds < HI_STD_FALLBACK_STEPS && d.budget.Awareness() > 0.0 && d.gaze.filter >= PRIMED
    requires d.budget.vision > 0.0 && |inputs| >= 128 && forall i | i in inputs :: Waiting(i)
    ensures Held(d.Run(inputs).budget.vision) && d.Run(inputs).alert.NoAlert?
  {
    hide Monitor.Run;
    WaitingRun(d, inputs);
  }
}
