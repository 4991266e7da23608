/** The driver-monitoring escalation policy.

    The source keeps one live awareness and two parked ones, and exchanges them when the policy
    flips.  The specification forgets the exchanging: a `Budget` has one account per policy, and
    the policy only says which account is live.  The class `DriverMonitoring` has the source's
    fields and is proved to implement that simpler machine. */
module DriverMonitoring {
  import opened Wrappers
  import opened Reals
  import opened Filters

  const VISION_STEP := 1.0 / 220.0           // 0.05 s of an 11 s budget
  const VISION_THRESHOLD_1 := 8.0 / 11.0
  const VISION_THRESHOLD_2 := 6.0 / 11.0
  const WHEEL_STEP := 1.0 / 600.0            // 0.05 s of a 30 s budget
  const WHEEL_THRESHOLD_1 := 1.0 / 2.0
  const WHEEL_THRESHOLD_2 := 1.0 / 5.0
  const RECOVERY_MAX := 5.0
  const RECOVERY_MIN := 1.25
  const AWARENESS_FLOOR := -0.1
  const MAX_TERMINAL_ALERTS := 3
  const MAX_TERMINAL_STEPS := 600            // 30 s
  const HI_STD_FALLBACK_STEPS := 200         // 10 s
  const FILTER_RC := 0.25
  const DT_DMON := 0.05

  datatype Policy = Vision | WheelTouch
  datatype AlertLevel = NoAlert | One | Two | Three

  /** What the model output says about the driver.  `attentionLost` is the disjunction of the pose,
      eye and phone flags. */
  datatype Frame = Frame(face: bool, lowStd: bool, attentionLost: bool) {
    predicate Distracted() { attentionLost && face && lowStd }
  }

  /** One step's input; `frame` is None when the model output is incomplete, and `alwaysOn` is the setting as
      last loaded, which the driver may change at any time. */
  datatype Input = Input(frame: Option<Frame>, interacting: bool, engaged: bool,
                         standstill: bool, wrongGear: bool, alwaysOn: bool)

  /** Recovery is up to four times quicker the further awareness has fallen. */
  function Recovery(a: real, step: real): real {
    Min(a + ((RECOVERY_MAX - RECOVERY_MIN) * (1.0 - a) + RECOVERY_MIN) * step, 1.0)
  }

  /** Two accounts, of which `policy` selects the live one. */
  datatype Budget = Budget(policy: Policy, vision: real, wheel: real,
                           step: real, threshold1: real, threshold2: real) {
    function Awareness(): real { if policy.Vision? then vision else wheel }

    function WithAwareness(a: real): Budget {
      if policy.Vision? then this.(vision := a) else this.(wheel := a)
    }

    function Reset(): Budget { this.(vision := 1.0, wheel := 1.0) }

    /** Below orange under vision nothing flips, and looking away only freezes the budget. */
    function SetPolicy(target: Policy): Budget {
      if policy.Vision? && vision <= threshold2 then
        this.(step := if target.Vision? then VISION_STEP else 0.0)
      else if Awareness() <= 0.0 then this
      else if target.Vision? then
        Budget(Vision, vision, wheel, VISION_STEP, VISION_THRESHOLD_1, VISION_THRESHOLD_2)
      else
        Budget(WheelTouch, vision, wheel, WHEEL_STEP, WHEEL_THRESHOLD_1, WHEEL_THRESHOLD_2)
    }

    /** Reaching full awareness under vision also repays one step to the wheel account. */
    function Recovered(): Budget {
      var a := Recovery(Awareness(), step);
      var b := WithAwareness(a);
      if a == 1.0 && policy.Vision? then b.(wheel := Min(wheel + step, 1.0)) else b
    }

    function Drained(): Budget { WithAwareness(Max(Awareness() - step, AWARENESS_FLOOR)) }

    function Level(): AlertLevel {
      if Awareness() <= 0.0 then Three
      else if Awareness() <= threshold2 then Two
      else if Awareness() <= threshold1 then One
      else NoAlert
    }
  }

  /** What is remembered of the camera's view of the driver. */
  datatype Gaze = Gaze(filter: real, face: bool, lowStd: bool, distracted: bool, uncertain: bool, hiStds: nat) {
    function Observe(f: Frame): Gaze {
      Gaze(FilterStep(filter, Alpha(FILTER_RC, DT_DMON), if f.Distracted() then 1.0 else 0.0),
           f.face, f.lowStd, f.Distracted(), hiStds >= HI_STD_FALLBACK_STEPS,
           if !f.face then hiStds else if f.lowStd then 0 else hiStds + 1)
    }

    function Target(): Policy { if face && !uncertain then Vision else WheelTouch }

    predicate Attentive() { filter < 0.37 && face && lowStd }

    predicate Suspect() { (filter > 0.63 && distracted && face) || uncertain || !face }
  }

  datatype Tally = Tally(alerts: nat, steps: nat, tooDistracted: bool) {
    function Latched(): Tally {
      this.(tooDistracted := tooDistracted || alerts >= MAX_TERMINAL_ALERTS || steps >= MAX_TERMINAL_STEPS)
    }

    /** A step that began at `before` and ended at `after`. */
    function Counted(before: real, after: real): Tally {
      if after > 0.0 then this
      else this.(steps := steps + 1, alerts := alerts + if before > 0.0 then 1 else 0)
    }
  }

  datatype Monitor = Monitor(budget: Budget, gaze: Gaze, tally: Tally,
                             alert: AlertLevel, interacting: bool, alwaysOn: bool) {
    function UpdateStates(frame: Option<Frame>): Monitor {
      if frame.None? then this
      else
        var g := gaze.Observe(frame.value);
        this.(gaze := g, budget := budget.SetPolicy(g.Target()))
    }

    predicate StandstillExempt(i: Input) {
      i.standstill && budget.Awareness() - budget.step <= budget.threshold1
    }

    predicate AlwaysOnExempt(i: Input) {
      alwaysOn && !i.wrongGear && !i.engaged && budget.Awareness() - budget.step <= 0.0
    }

    /** Touching the wheel under its own policy, and disengaging, give everything back. */
    predicate Restarts(i: Input) {
      || (i.interacting && budget.Awareness() > 0.0 && budget.policy.WheelTouch?)
      || (!i.engaged && (!alwaysOn || i.wrongGear || budget.Awareness() <= 0.0))
    }

    predicate Recovers(i: Input) {
      budget.Awareness() > 0.0 && (gaze.Attentive() || StandstillExempt(i))
    }

    predicate Drains(i: Input) {
      gaze.Suspect() && !StandstillExempt(i) && !AlwaysOnExempt(i)
    }

    /** Exemptions and the alert count look at the awareness the step began with. */
    function Settled(b: Budget): Monitor {
      this.(budget := b, alert := b.Level(), tally := tally.Counted(budget.Awareness(), b.Awareness()))
    }

    function Escalated(i: Input): Monitor {
      if Recovers(i) && i.interacting then this.(budget := budget.Reset())
      else
        var b := if Recovers(i) then budget.Recovered() else budget;
        if Recovers(i) && b.Awareness() > budget.threshold2 then this.(budget := b)
        else Settled(if Drains(i) then b.Drained() else b)
    }

    function UpdateEvents(i: Input): Monitor {
      var d := this.(alert := NoAlert, interacting := i.interacting, tally := tally.Latched());
      if d.Restarts(i) then d.(budget := budget.Reset()) else d.Escalated(i)
    }

    function RunStep(i: Input): Monitor { UpdateStates(i.frame).UpdateEvents(i) }

    /** The frame seen under the setting as loaded. */
    function Seen(i: Input): Monitor { this.(alwaysOn := i.alwaysOn).UpdateStates(i.frame) }

    /** The daemon loads the setting and then runs a step. */
    function Step(i: Input): Monitor { Seen(i).UpdateEvents(i) }

    function Run(inputs: seq<Input>): Monitor
      decreases |inputs|
    {
      if inputs == [] then this else Step(inputs[0]).Run(inputs[1..])
    }
  }

  /** The state after `__init__`. */
  function Initial(alwaysOn: bool, lockedOut: bool): Monitor {
    Monitor(Budget(Vision, 1.0, 1.0, VISION_STEP, VISION_THRESHOLD_1, VISION_THRESHOLD_2),
            Gaze(0.0, false, true, false, false, 0), Tally(0, 0, lockedOut), NoAlert, false, alwaysOn)
  }

  /** The object with the source's own fields. */
  class DriverMonitoring {
    var alwaysOn: bool
    var distractionFilter: real      // the value of the source's FirstOrderFilter
    var awareness: real
    var lastVisionAwareness: real
    var lastWheeltouchAwareness: real
    var activePolicy: Policy
    var stepChange: real
    var thresholdAlert1: real
    var thresholdAlert2: real
    var faceDetected: bool
    var lowStd: bool
    var driverDistracted: bool
    var isModelUncertain: bool
    var hiStds: nat
    var terminalAlertCnt: nat
    var terminalTime: nat
    var tooDistracted: bool
    var alertLevel: AlertLevel
    var driverInteracting: bool

    /** The two accounts behind the live awareness and the parked one. */
    function BudgetView(): Budget
      reads this`activePolicy, this`awareness, this`lastVisionAwareness, this`lastWheeltouchAwareness,
            this`stepChange, this`thresholdAlert1, this`thresholdAlert2
    {
      Budget(activePolicy,
             if activePolicy.Vision? then awareness else lastVisionAwareness,
             if activePolicy.Vision? then lastWheeltouchAwareness else awareness,
             stepChange, thresholdAlert1, thresholdAlert2)
    }

    function GazeView(): Gaze
      reads this`faceDetected, this`lowStd, this`driverDistracted, this`isModelUncertain, this`hiStds, this`distractionFilter
    {
      Gaze(distractionFilter, faceDetected, lowStd, driverDistracted, isModelUncertain, hiStds)
    }

    function TallyView(): Tally
      reads this`terminalAlertCnt, this`terminalTime, this`tooDistracted
    {
      Tally(terminalAlertCnt, terminalTime, tooDistracted)
    }

    function View(): Monitor
      reads this
    {
      Monitor(BudgetView(), GazeView(), TallyView(), alertLevel, driverInteracting, alwaysOn)
    }

    constructor (alwaysOn: bool, lockedOut: bool)
      ensures View() == Initial(alwaysOn, lockedOut)
    {
      this.alwaysOn := alwaysOn;
      distractionFilter := 0.0;
      activePolicy, stepChange, thresholdAlert1, thresholdAlert2 := Vision, 0.0, 0.0, 0.0;
      faceDetected, lowStd, driverDistracted, isModelUncertain, hiStds := false, true, false, false, 0;
      terminalAlertCnt, terminalTime, tooDistracted := 0, 0, lockedOut;
      alertLevel, driverInteracting := NoAlert, false;
      new;
      ResetAwareness();
      SetPolicy(Vision);
    }

    method ResetAwareness()
      modifies this`awareness, this`lastVisionAwareness, this`lastWheeltouchAwareness
      ensures BudgetView() == old(BudgetView()).Reset()
      ensures GazeView() == old(GazeView()) && TallyView() == old(TallyView())
    {
      awareness := 1.0;
      lastVisionAwareness := 1.0;
      lastWheeltouchAwareness := 1.0;
    }

    /** Conservation: whatever is exchanged, neither account changes. */
    method SetPolicy(target: Policy)
      modifies this`activePolicy, this`awareness, this`lastVisionAwareness, this`lastWheeltouchAwareness,
               this`stepChange, this`thresholdAlert1, this`thresholdAlert2
      ensures BudgetView() == old(BudgetView()).SetPolicy(target)
      ensures GazeView() == old(GazeView()) && TallyView() == old(TallyView())
      ensures BudgetView().vision == old(BudgetView().vision) && BudgetView().wheel == old(BudgetView().wheel)
    {
      if activePolicy == Vision && awareness <= thresholdAlert2 {
        if target == Vision {
          stepChange := VISION_STEP;
        } else {
          stepChange := 0.0;
        }
        return;
      } else if awareness <= 0.0 {
        return;
      }
      if target == Vision {
        if activePolicy != Vision {
          lastWheeltouchAwareness := awareness;
          awareness := lastVisionAwareness;
        }
        thresholdAlert1 := VISION_THRESHOLD_1;
        thresholdAlert2 := VISION_THRESHOLD_2;
        stepChange := VISION_STEP;
        activePolicy := Vision;
      } else {
        if activePolicy == Vision {
          lastVisionAwareness := awareness;
          awareness := lastWheeltouchAwareness;
        }
        thresholdAlert1 := WHEEL_THRESHOLD_1;
        thresholdAlert2 := WHEEL_THRESHOLD_2;
        stepChange := WHEEL_STEP;
        activePolicy := WheelTouch;
      }
    }

    /** The part of _update_states before the policy is chosen. */
    method ObserveFrame(f: Frame)
      modifies this`faceDetected, this`lowStd, this`driverDistracted, this`distractionFilter, this`isModelUncertain
      ensures GazeView() == old(GazeView()).Observe(f).(hiStds := old(hiStds))
    {
      hide FilterStep, Alpha;
      faceDetected := f.face;
      lowStd := f.lowStd;
      driverDistracted := f.attentionLost && f.face && lowStd;
      distractionFilter := FilterStep(distractionFilter, Alpha(FILTER_RC, DT_DMON), if driverDistracted then 1.0 else 0.0);
      isModelUncertain := hiStds >= HI_STD_FALLBACK_STEPS;
    }

    method UpdateStates(frame: Option<Frame>)
      modifies this
      ensures View() == old(View()).UpdateStates(frame)
    {
      hide Budget.SetPolicy, BudgetView, TallyView, FilterStep, Alpha;
      if frame == None {
        return;
      }
      ObserveFrame(frame.value);
      SetPolicy(if faceDetected && !isModelUncertain then Vision else WheelTouch);
      CountHighStds();
    }

    /** The count is only taken up after the policy has been chosen. */
    method CountHighStds()
      modifies this`hiStds
      ensures GazeView() == old(GazeView()).(hiStds :=
        if !faceDetected || (!lowStd && driverDistracted) then old(hiStds) else if lowStd then 0 else old(hiStds) + 1)
    {
      if faceDetected && !lowStd && !driverDistracted {
        hiStds := hiStds + 1;
      } else if faceDetected && lowStd {
        hiStds := 0;
      }
    }

    // The next three are the recovery, decrement and alert blocks of UpdateEvents.

    method RecoverAwareness()
      modifies this`awareness, this`lastWheeltouchAwareness
      ensures BudgetView() == old(BudgetView()).Recovered()
      ensures GazeView() == old(GazeView()) && TallyView() == old(TallyView())
    {
      hide Recovery;
      awareness := Recovery(awareness, stepChange);
      if awareness == 1.0 {
        lastWheeltouchAwareness := Min(lastWheeltouchAwareness + stepChange, 1.0);
      }
    }

    method DrainAwareness()
      modifies this`awareness
      ensures BudgetView() == old(BudgetView()).Drained()
      ensures GazeView() == old(GazeView()) && TallyView() == old(TallyView())
    {
      awareness := Max(awareness - stepChange, AWARENESS_FLOOR);
    }

    method RaiseAlert(awarenessPrev: real)
      requires alertLevel == NoAlert
      modifies this`alertLevel, this`terminalTime, this`terminalAlertCnt
      ensures BudgetView() == old(BudgetView()) && GazeView() == old(GazeView())
      ensures alertLevel == BudgetView().Level()
      ensures TallyView() == old(TallyView()).Counted(awarenessPrev, BudgetView().Awareness())
    {
      if awareness <= 0.0 {
        alertLevel := Three;
        terminalTime := terminalTime + 1;
        if awarenessPrev > 0.0 {
          terminalAlertCnt := terminalAlertCnt + 1;
        }
      } else if awareness <= thresholdAlert2 {
        alertLevel := Two;
      } else if awareness <= thresholdAlert1 {
        alertLevel := One;
      }
    }

    method UpdateEvents(i: Input)
      modifies this
      ensures View() == old(View()).UpdateEvents(i)
    {
      hide Monitor.Escalated, Tally.Latched, Budget.Reset, GazeView, TallyView;
      alertLevel := NoAlert;
      driverInteracting := i.interacting;
      LatchLockout();
      var alwaysOnValid := alwaysOn && !i.wrongGear;
      var restarts := (driverInteracting && awareness > 0.0 && activePolicy == WheelTouch) ||
                      (!alwaysOnValid && !i.engaged) ||
                      (alwaysOnValid && !i.engaged && awareness <= 0.0);
      assert restarts == View().Restarts(i);
      hide Monitor.Restarts, BudgetView;
      if restarts {
        ResetAwareness();
        return;
      }
      Escalate(i);
    }

    method LatchLockout()
      modifies this`tooDistracted
      ensures TallyView() == old(TallyView()).Latched()
    {
      if terminalAlertCnt >= MAX_TERMINAL_ALERTS || terminalTime >= MAX_TERMINAL_STEPS {
        tooDistracted := true;
      }
    }

    /** The rest of the source's _update_events, once nothing has restarted the budget. */
    method Escalate(i: Input)
      requires alertLevel == NoAlert && driverInteracting == i.interacting
      modifies this`awareness, this`lastVisionAwareness, this`lastWheeltouchAwareness,
               this`alertLevel, this`terminalTime, this`terminalAlertCnt
      ensures View() == old(View()).Escalated(i)
    {
      hide Budget.Recovered, Budget.Drained, Budget.Level, Budget.Reset, Tally.Counted;
      ghost var m := View();
      var awarenessPrev := awareness;
      var reachingAlert1 := awareness - stepChange <= thresholdAlert1;
      var reachingAlert3 := awareness - stepChange <= 0.0;
      var standstillExemption := i.standstill && reachingAlert1;
      var alwaysOnExemption := alwaysOn && !i.wrongGear && !i.engaged && reachingAlert3;
      if awareness > 0.0 && ((distractionFilter < 0.37 && faceDetected && lowStd) || standstillExemption) {
        if driverInteracting {
          ResetAwareness();
          return;
        }
        RecoverAwareness();
        if awareness > thresholdAlert2 {
          return;
        }
      }
      ghost var b := BudgetView();
      assert b == if m.Recovers(i) then m.budget.Recovered() else m.budget;
      var certainlyDistracted := distractionFilter > 0.63 && driverDistracted && faceDetected;
      var maybeDistracted := isModelUncertain || !faceDetected;
      if certainlyDistracted || maybeDistracted {
        if !(standstillExemption || alwaysOnExemption) {
          DrainAwareness();
        }
      }
      assert BudgetView() == if m.Drains(i) then b.Drained() else b;
      hide BudgetView, GazeView, TallyView;
      RaiseAlert(awarenessPrev);
    }

    method RunStep(i: Input)
      modifies this
      ensures View() == old(View()).RunStep(i)
    {
      UpdateStates(i.frame);
      UpdateEvents(i);
    }

    /** What the daemon does from one published packet to the next. */
    method ReloadAndRunStep(i: Input)
      modifies this
      ensures View() == old(View()).Step(i)
    {
      alwaysOn := i.alwaysOn;
      RunStep(i);
    }
  }
}
