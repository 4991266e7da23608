/** Driver monitoring and selfdrived as two processes that see each other's messages late.

    Each process first samples the other's last message and later steps on that sample; the four
    kinds of action interleave freely. */
module Lockout {
  import opened Wrappers
  import DM = DriverMonitoring
  import Escalation
  import SD = Selfdrived

  datatype World = World(dm: DM.Monitor, packet: SD.DmPacket, engagedSample: Option<bool>,
                         sd: SD.Selfd, packetSample: Option<SD.DmPacket>)

  datatype Action =
    | DmSample
    | DmStep(frame: Option<DM.Frame>, interacting: bool, standstill: bool, wrongGear: bool, alwaysOn: bool)
    | SdSample
    | SdStep(sdFrame: SD.Frame)

  function Published(d: DM.Monitor): SD.DmPacket {
    SD.DmPacket(d.tally.tooDistracted, d.alwaysOn && d.budget.Awareness() <= d.budget.threshold2)
  }

  /** A process without a sample has nothing to step on. */
  function Act(w: World, a: Action): World {
    match a
    case DmSample => w.(engagedSample := Some(w.sd.enabled))
    case DmStep(frame, interacting, standstill, wrongGear, alwaysOn) =>
      if w.engagedSample.None? then w
      else
        var d := w.dm.Step(DM.Input(frame, interacting, w.engagedSample.value, standstill, wrongGear, alwaysOn));
        w.(dm := d, packet := Published(d), engagedSample := None)
    case SdSample => w.(packetSample := Some(w.packet))
    case SdStep(f) =>
      if w.packetSample.None? then w
      else w.(sd := w.sd.Step(f, w.packetSample.value), packetSample := None)
  }

  function Run(w: World, actions: seq<Action>): World
    decreases |actions|
  {
    if actions == [] then w else Run(Act(w, actions[0]), actions[1..])
  }

  /** What the packet says: the lockout, and with always-on set whether the account in use is at orange or below. */
  lemma PublishedSays(d: DM.Monitor)
    requires Escalation.Valid(d)
    ensures Published(d).lockout <==> d.tally.tooDistracted
    ensures var b := d.budget;
      Published(d).alwaysOnLockout <==> d.alwaysOn && (if b.policy.Vision? then b.vision <= 6.0 / 11.0 else b.wheel <= 0.2)
  {
  }

  predicate WellFormed(w: World) {
    && Escalation.Valid(w.dm) && w.sd.Valid() && !w.sd.notCar
    && (w.packet.lockout ==> w.dm.tally.tooDistracted)
    && (w.packetSample.Some? && w.packetSample.value.lockout ==> w.packet.lockout)
  }

  /** selfdrived holds a sample from before the lockout was published. */
  predicate Stale(w: World) { w.packet.lockout && w.packetSample.Some? && !w.packetSample.value.lockout }

  /** Disabled for good. */
  predicate Shut(w: World) { w.packet.lockout && !w.sd.enabled && !Stale(w) }

  lemma ActKeepsWellFormed(w: World, a: Action)
    requires WellFormed(w)
    ensures WellFormed(Act(w, a))
    ensures w.packet.lockout ==> Act(w, a).packet.lockout
    ensures Shut(w) ==> Shut(Act(w, a))
  {
    match a
    case DmSample =>
    case SdSample =>
    case DmStep(frame, interacting, standstill, wrongGear, alwaysOn) =>
      if w.engagedSample.Some? {
        Escalation.StepFacts(w.dm, DM.Input(frame, interacting, w.engagedSample.value, standstill, wrongGear, alwaysOn));
      }
    case SdStep(f) =>
      if w.packetSample.Some? {
        SD.StepKeepsValid(w.sd, f, w.packetSample.value);
        if Shut(w) {
          SD.LockoutBlocksEntry(w.sd, f, w.packetSample.value);
        }
      }
  }

  /** Once selfdrived has seen the lockout and is disabled, nothing engages it again. */
  lemma {:induction false} LockedOutForever(w: World, actions: seq<Action>)
    requires WellFormed(w) && Shut(w)
    ensures Shut(Run(w, actions)) && !Run(w, actions).sd.enabled
    decreases |actions|
  {
    if actions != [] {
      ActKeepsWellFormed(w, actions[0]);
      LockedOutForever(Act(w, actions[0]), actions[1..]);
    }
  }

  predicate Red(w: World) { w.dm.budget.Awareness() <= 0.0 }

  /** Why the alert count stops growing. */
  predicate Capped(w: World) {
    var n := w.dm.tally.alerts;
    && n <= DM.MAX_TERMINAL_ALERTS + 1
    && (n >= DM.MAX_TERMINAL_ALERTS && !Red(w) ==> w.packet.lockout)
    && (n > DM.MAX_TERMINAL_ALERTS ==> w.packet.lockout)
    // a stale sample pins selfdrived to the state both sides saw when the lockout went out
    && (Stale(w) && w.engagedSample.Some? ==> w.engagedSample.value == w.sd.enabled)
    && (n > DM.MAX_TERMINAL_ALERTS && Stale(w) ==> w.sd.enabled)
    && (n > DM.MAX_TERMINAL_ALERTS && w.engagedSample == Some(false) ==> Shut(w))
    && (n > DM.MAX_TERMINAL_ALERTS && !Red(w) ==> Shut(w) && w.engagedSample != Some(true))
  }

  lemma ActKeepsCapped(w: World, a: Action)
    requires WellFormed(w) && Capped(w)
    ensures Capped(Act(w, a))
  {
    ActKeepsWellFormed(w, a);
    match a
    case DmSample =>
    case SdSample =>
    case DmStep(frame, interacting, standstill, wrongGear, alwaysOn) =>
      if w.engagedSample.Some? {
        Escalation.StepFacts(w.dm, DM.Input(frame, interacting, w.engagedSample.value, standstill, wrongGear, alwaysOn));
      }
    case SdStep(f) =>
  }

  /** However the two processes interleave, and however long each steps after it sampled the other's newest
      message, the driver gets at most one terminal alert beyond the limit of three. */
  lemma {:induction false} TerminalAlertsAreBounded(w: World, actions: seq<Action>)
    requires WellFormed(w) && Capped(w)
    ensures WellFormed(Run(w, actions)) && Capped(Run(w, actions))
    ensures Run(w, actions).dm.tally.alerts <= DM.MAX_TERMINAL_ALERTS + 1
    decreases |actions|
  {
    if actions != [] {
      ActKeepsWellFormed(w, actions[0]);
      ActKeepsCapped(w, actions[0]);
      TerminalAlertsAreBounded(Act(w, actions[0]), actions[1..]);
    }
  }

  /** Both processes just started. */
  function Start(alwaysOn: bool, lockedOut: bool, passive: bool, recognized: bool): World {
    World(DM.Initial(alwaysOn, lockedOut), SD.DmPacket(false, false), None, SD.Started(passive, false, recognized), None)
  }

  lemma AtMostFourTerminalAlerts(alwaysOn: bool, lockedOut: bool, passive: bool, recognized: bool, actions: seq<Action>)
    ensures Run(Start(alwaysOn, lockedOut, passive, recognized), actions).dm.tally.alerts <= 4
  {
    TerminalAlertsAreBounded(Start(alwaysOn, lockedOut, passive, recognized), actions);
  }

  // ----- with prompt messages the limit itself is never exceeded

  /** Whoever steps has sampled directly before. */
  predicate Prompt(actions: seq<Action>) {
    forall k | 0 < k < |actions| :: (actions[k].DmStep? ==> actions[k - 1].DmSample?) && (actions[k].SdStep? ==> actions[k - 1].SdSample?)
  }

  /** The process that steps next has no sample, or one of the other's newest message. */
  predicate UpToDate(w: World, actions: seq<Action>) {
    actions != [] ==>
      && (actions[0].DmStep? && w.engagedSample.Some? ==> w.engagedSample.value == w.sd.enabled)
      && (actions[0].SdStep? && w.packetSample.Some? ==> w.packetSample.value == w.packet)
  }

  predicate CappedAtLimit(w: World) {
    && w.dm.tally.alerts <= DM.MAX_TERMINAL_ALERTS
    && (w.dm.tally.alerts == DM.MAX_TERMINAL_ALERTS && !Red(w) ==> w.packet.lockout && !w.sd.enabled)
  }

  lemma {:induction false} PromptRunIsCapped(w: World, actions: seq<Action>)
    requires WellFormed(w) && CappedAtLimit(w) && Prompt(actions) && UpToDate(w, actions)
    ensures CappedAtLimit(Run(w, actions))
    decreases |actions|
  {
    if actions != [] {
      var a, rest := actions[0], actions[1..];
      ActKeepsWellFormed(w, a);
      PromptActIsCapped(w, a);
      assert forall k | 0 < k < |rest| :: rest[k] == actions[k + 1] && rest[k - 1] == actions[k];
      assert UpToDate(Act(w, a), rest) by {
        if rest != [] {
          assert rest[0] == actions[1] && actions[0] == a;
        }
      }
      hide Act, WellFormed, CappedAtLimit, UpToDate;
      PromptRunIsCapped(Act(w, a), rest);
    }
  }

  lemma PromptActIsCapped(w: World, a: Action)
    requires WellFormed(w) && CappedAtLimit(w) && UpToDate(w, [a])
    ensures CappedAtLimit(Act(w, a))
  {
    if a.DmStep? && w.engagedSample.Some? {
      Escalation.StepFacts(w.dm, DM.Input(a.frame, a.interacting, w.engagedSample.value, a.standstill, a.wrongGear, a.alwaysOn));
    } else if a.SdStep? && w.packetSample.Some? && w.packet.lockout && !w.sd.enabled {
      SD.LockoutBlocksEntry(w.sd, a.sdFrame, w.packet);
    }
  }

  lemma AtMostThreeWhenPrompt(alwaysOn: bool, lockedOut: bool, passive: bool, recognized: bool, actions: seq<Action>)
    requires Prompt(actions)
    ensures Run(Start(alwaysOn, lockedOut, passive, recognized), actions).dm.tally.alerts <= 3
  {
    PromptRunIsCapped(Start(alwaysOn, lockedOut, passive, recognized), actions);
  }
}
