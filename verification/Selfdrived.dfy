/** One frame of selfdrived: sample, collect events, run the state machine. */
module Selfdrived {
  import opened EventTable
  import opened Engagement

  /** One panda's report; `silent` means a safety mode that is ignored. */
  datatype Panda = Panda(controlsAllowed: bool, silent: bool, safetyMismatch: bool,
                         rxChecksInvalid: bool, relayMalfunction: bool)

  /** The parts of driverMonitoringState that block entry. */
  datatype DmPacket = DmPacket(lockout: bool, alwaysOnLockout: bool)

  /** `early` are the events added before the initialization check, `other` those of the remaining
      checks; `settled` says that more than ten seconds have passed. */
  datatype Frame = Frame(ready: bool, settled: bool, early: seq<EventName>, bookmarks: seq<EventName>,
                         other: seq<EventName>, pandas: seq<Panda>)

  predicate Refuses(pandas: seq<Panda>) {
    exists p | p in pandas :: !p.silent && !p.controlsAllowed
  }

  function RaisedBy(p: Panda, settled: bool, mismatches: nat): seq<EventName> {
    (if (p.safetyMismatch && settled) || p.rxChecksInvalid || mismatches >= MISMATCH_LIMIT then [ControlsMismatch] else [])
    + if p.relayMalfunction then [RelayMalfunction] else []
  }

  function PandaEvents(pandas: seq<Panda>, settled: bool, mismatches: nat): seq<EventName> {
    if pandas == [] then []
    else
      var k := |pandas| - 1;
      PandaEvents(pandas[..k], settled, mismatches) + RaisedBy(pandas[k], settled, mismatches)
  }

  datatype Selfd = Selfd(machine: Machine, enabled: bool, active: bool, initialized: bool, mismatches: nat,
                         passive: bool, notCar: bool, statics: seq<EventName>) {
    function Sampled(f: Frame): Selfd {
      this.(initialized := initialized || f.ready,
            mismatches := if !enabled then 0 else if Refuses(f.pandas) then mismatches + 1 else mismatches)
    }

    function Collected(f: Frame, dm: DmPacket): seq<EventName> {
      if !initialized then statics + f.early + [SelfdriveInitializing]
      else if passive then statics + f.early + f.bookmarks
      else statics + f.early + f.bookmarks + (if !notCar && (dm.lockout || dm.alwaysOnLockout) then [TooDistracted] else [])
           + f.other + PandaEvents(f.pandas, f.settled, mismatches)
    }

    function Step(f: Frame, dm: DmPacket): Selfd {
      var s := Sampled(f);
      if s.passive || !s.initialized then s
      else
        var m := machine.Next(Types(s.Collected(f, dm)));
        s.(machine := m, enabled := IsEnabled(m.state), active := IsActive(m.state))
    }

    function Run(frames: seq<(Frame, DmPacket)>): Selfd
      decreases |frames|
    {
      if frames == [] then this else Step(frames[0].0, frames[0].1).Run(frames[1..])
    }

    /** Holds at start-up and after every step; REPLAY's forced engagement is not modelled. */
    predicate Valid() {
      && enabled == !machine.state.Disabled? && machine.Valid()
      && (enabled ==> initialized && !passive && mismatches < MISMATCH_LIMIT)
    }
  }

  /** The state after `__init__`, with the events that outlive every frame. */
  function Started(passive: bool, notCar: bool, recognized: bool): Selfd {
    Selfd(Machine(Disabled, 0), false, false, false, 0, passive, notCar,
          if !recognized then [CarUnrecognized] else if passive then [DashcamMode] else [])
  }

  class SelfdriveD {
    const passive: bool
    const notCar: bool
    const events: Events
    const stateMachine: StateMachine
    var initialized: bool
    var enabled: bool
    var active: bool
    var mismatchCounter: nat

    function View(): Selfd
      reads this, stateMachine, events`staticEvents
    {
      Selfd(stateMachine.View(), enabled, active, initialized, mismatchCounter, passive, notCar, events.staticEvents)
    }

    constructor (passive: bool, notCar: bool, recognized: bool)
      ensures View() == Started(passive, notCar, recognized)
      ensures fresh(events) && fresh(stateMachine)
    {
      this.passive, this.notCar := passive, notCar;
      var es := new Events();
      if !recognized {
        es.Add(CarUnrecognized, true);
      } else if passive {
        es.Add(DashcamMode, true);
      }
      events := es;
      stateMachine := new StateMachine();
      initialized, enabled, active, mismatchCounter := false, false, false, 0;
    }

    method DataSample(f: Frame)
      modifies this`initialized, this`mismatchCounter
      ensures View() == old(View()).Sampled(f)
    {
      if !initialized && f.ready {
        initialized := true;
      }
      if !enabled {
        mismatchCounter := 0;
      }
      if enabled && Refuses(f.pandas) {
        mismatchCounter := mismatchCounter + 1;
      }
    }

    method AddAll(es: seq<EventName>)
      modifies events
      ensures events.events == old(events.events) + es
      ensures events.staticEvents == old(events.staticEvents)
    {
      for k := 0 to |es|
        invariant events.events == old(events.events) + es[..k]
        invariant events.staticEvents == old(events.staticEvents)
      {
        events.Add(es[k], false);
      }
      assert es[..|es|] == es;
    }

    method AddPandaEvent(p: Panda, settled: bool)
      modifies events
      ensures events.events == old(events.events) + RaisedBy(p, settled, mismatchCounter)
      ensures events.staticEvents == old(events.staticEvents)
    {
      if (p.safetyMismatch && settled) || p.rxChecksInvalid || mismatchCounter >= MISMATCH_LIMIT {
        events.Add(ControlsMismatch, false);
      }
      if p.relayMalfunction {
        events.Add(RelayMalfunction, false);
      }
    }

    method AddPandaEvents(f: Frame)
      modifies events
      ensures events.events == old(events.events) + PandaEvents(f.pandas, f.settled, mismatchCounter)
      ensures events.staticEvents == old(events.staticEvents)
    {
      hide RaisedBy;
      for k := 0 to |f.pandas|
        invariant events.events == old(events.events) + PandaEvents(f.pandas[..k], f.settled, mismatchCounter)
        invariant events.staticEvents == old(events.staticEvents)
      {
        AddPandaEvent(f.pandas[k], f.settled);
        assert f.pandas[..k + 1][..k] == f.pandas[..k];
      }
      assert f.pandas[..|f.pandas|] == f.pandas;
    }

    method UpdateEvents(f: Frame, dm: DmPacket)
      modifies events
      ensures events.events == View().Collected(f, dm) && events.staticEvents == old(events.staticEvents)
    {
      hide PandaEvents;
      events.Clear();
      AddAll(f.early);
      if !initialized {
        events.Add(SelfdriveInitializing, false);
        return;
      }
      AddAll(f.bookmarks);
      if passive {
        return;
      }
      if !notCar {
        if dm.lockout || dm.alwaysOnLockout {
          events.Add(TooDistracted, false);
        }
      }
      AddAll(f.other);
      AddPandaEvents(f);
    }

    method Step(f: Frame, dm: DmPacket)
      modifies this, events, stateMachine
      ensures View() == old(View()).Step(f, dm)
    {
      DataSample(f);
      UpdateEvents(f, dm);
      if !passive && initialized {
        enabled, active := stateMachine.Update(events);
      }
    }
  }

  // ----- panda and selfdrived disagreeing

  lemma RefusalRaisesMismatch(pandas: seq<Panda>, settled: bool, mismatches: nat)
    requires pandas != [] && mismatches >= MISMATCH_LIMIT
    ensures ET.ImmediateDisable in Types(PandaEvents(pandas, settled, mismatches))
  {
    var k := |pandas| - 1;
    assert ControlsMismatch == RaisedBy(pandas[k], settled, mismatches)[0];
    assert ControlsMismatch in PandaEvents(pandas, settled, mismatches);
    assert ET.ImmediateDisable in TypesOf(ControlsMismatch);
  }

  lemma TypesOfPart(a: seq<EventName>, b: seq<EventName>)
    ensures Types(b) <= Types(a + b)
  {
  }

  lemma StepKeepsValid(s: Selfd, f: Frame, dm: DmPacket)
    requires s.Valid()
    ensures s.Step(f, dm).Valid()
    ensures s.enabled ==> s.Step(f, dm).mismatches == s.mismatches + if Refuses(f.pandas) then 1 else 0
  {
    var t := s.Sampled(f);
    if !t.passive && t.initialized && t.mismatches >= MISMATCH_LIMIT {
      assert Refuses(f.pandas) && f.pandas != [];
      RefusalRaisesMismatch(f.pandas, f.settled, t.mismatches);
      var before := t.statics + f.early + f.bookmarks + (if !t.notCar && (dm.lockout || dm.alwaysOnLockout) then [TooDistracted] else []) + f.other;
      TypesOfPart(before, PandaEvents(f.pandas, f.settled, t.mismatches));
      assert t.Collected(f, dm) == before + PandaEvents(f.pandas, f.settled, t.mismatches);
    }
  }

  predicate EnabledThroughout(s: Selfd, frames: seq<(Frame, DmPacket)>)
    decreases |frames|
  {
    frames == [] || (s.enabled && EnabledThroughout(s.Step(frames[0].0, frames[0].1), frames[1..]))
  }

  function RefusedSteps(frames: seq<(Frame, DmPacket)>): nat
    decreases |frames|
  {
    if frames == [] then 0 else (if Refuses(frames[0].0.pandas) then 1 else 0) + RefusedSteps(frames[1..])
  }

  /** In one engagement panda can refuse on at most 200 frames, and the 200th ends it. */
  lemma {:induction false} RefusalEndsEngagement(s: Selfd, frames: seq<(Frame, DmPacket)>)
    requires s.Valid() && s.enabled && EnabledThroughout(s, frames)
    ensures s.mismatches + RefusedSteps(frames) <= MISMATCH_LIMIT
    ensures s.mismatches + RefusedSteps(frames) == MISMATCH_LIMIT ==> !s.Run(frames).enabled
    ensures s.Run(frames).Valid()
    decreases |frames|
  {
    if frames != [] {
      StepKeepsValid(s, frames[0].0, frames[0].1);
      var t := s.Step(frames[0].0, frames[0].1);
      if t.enabled {
        RefusalEndsEngagement(t, frames[1..]);
      } else {
        assert frames[1..] == [];
        assert t.Run([]) == t;
        MismatchesAtMostLimit(s, frames[0].0);
      }
    }
  }

  lemma MismatchesAtMostLimit(s: Selfd, f: Frame)
    requires s.Valid() && s.enabled
    ensures s.Sampled(f).mismatches == s.mismatches + (if Refuses(f.pandas) then 1 else 0) <= MISMATCH_LIMIT
  {
  }

  /** A frame that sees the lockout cannot engage. */
  lemma LockoutBlocksEntry(s: Selfd, f: Frame, dm: DmPacket)
    requires s.Valid() && !s.enabled && !s.notCar && dm.lockout
    ensures !s.Step(f, dm).enabled
  {
    var t := s.Sampled(f);
    if !t.passive && t.initialized {
      assert TooDistracted in t.Collected(f, dm);
      assert ET.NoEntry in TypesOf(TooDistracted);
      assert ET.NoEntry in Types(t.Collected(f, dm));
    }
  }

  // ----- what a frame does, in the fields of the reports

  /** Some panda in a safety mode that counts does not allow controls. */
  lemma MismatchesCount(s: Selfd, f: Frame, dm: DmPacket)
    ensures s.Step(f, dm).mismatches
         == if !s.enabled then 0
            else if exists k | 0 <= k < |f.pandas| :: !f.pandas[k].silent && !f.pandas[k].controlsAllowed
                 then s.mismatches + 1 else s.mismatches
  {
    assert forall p | p in f.pandas :: exists k | 0 <= k < |f.pandas| :: f.pandas[k] == p;
  }

  /** Pandas that allow controls or are silent never end an engagement by themselves. */
  lemma {:induction false} WillingPandasCountNothing(s: Selfd, frames: seq<(Frame, DmPacket)>)
    requires s.enabled && EnabledThroughout(s, frames)
    requires forall f, k | f in frames && 0 <= k < |f.0.pandas| :: f.0.pandas[k].silent || f.0.pandas[k].controlsAllowed
    ensures s.Run(frames).mismatches == s.mismatches
    decreases |frames|
  {
    hide Selfd.Step;
    if frames != [] {
      var t := s.Step(frames[0].0, frames[0].1);
      MismatchesCount(s, frames[0].0, frames[0].1);
      assert frames[0] in frames;
      assert frames[1..] == [] || t.enabled;
      if frames[1..] == [] {
        assert t.Run([]) == t;
      } else {
        WillingPandasCountNothing(t, frames[1..]);
      }
    }
  }

  /** A panda's report, or the count of refusals, asks for controlsMismatch. */
  predicate Mismatched(p: Panda, settled: bool, mismatches: nat) {
    p.rxChecksInvalid || (p.safetyMismatch && settled) || mismatches >= 200
  }

  /** A panda reports something that must disengage. */
  predicate Faulty(pandas: seq<Panda>, settled: bool, mismatches: nat) {
    exists p | p in pandas :: Mismatched(p, settled, mismatches) || p.relayMalfunction
  }

  lemma RaisedSays(p: Panda, settled: bool, mismatches: nat)
    ensures forall e | e in RaisedBy(p, settled, mismatches) :: e == ControlsMismatch || e == RelayMalfunction
    ensures ControlsMismatch in RaisedBy(p, settled, mismatches) <==> Mismatched(p, settled, mismatches)
    ensures RelayMalfunction in RaisedBy(p, settled, mismatches) <==> p.relayMalfunction
  {
  }

  lemma {:induction false} RaisedSomewhere(pandas: seq<Panda>, settled: bool, mismatches: nat, e: EventName)
    ensures e in PandaEvents(pandas, settled, mismatches) <==> exists p | p in pandas :: e in RaisedBy(p, settled, mismatches)
    decreases |pandas|
  {
    hide RaisedBy;
    if pandas != [] {
      var k := |pandas| - 1;
      RaisedSomewhere(pandas[..k], settled, mismatches, e);
      assert pandas == pandas[..k] + [pandas[k]];
    }
  }

  lemma PandaEventsSay(pandas: seq<Panda>, settled: bool, mismatches: nat)
    ensures forall e | e in PandaEvents(pandas, settled, mismatches) :: e == ControlsMismatch || e == RelayMalfunction
    ensures ControlsMismatch in PandaEvents(pandas, settled, mismatches) <==>
            exists p | p in pandas :: Mismatched(p, settled, mismatches)
    ensures RelayMalfunction in PandaEvents(pandas, settled, mismatches) <==> exists p | p in pandas :: p.relayMalfunction
  {
    hide PandaEvents, RaisedBy, Mismatched;
    forall e ensures e in PandaEvents(pandas, settled, mismatches) <==> exists p | p in pandas :: e in RaisedBy(p, settled, mismatches) {
      RaisedSomewhere(pandas, settled, mismatches, e);
    }
    forall p ensures ControlsMismatch in RaisedBy(p, settled, mismatches) <==> Mismatched(p, settled, mismatches)
             ensures RelayMalfunction in RaisedBy(p, settled, mismatches) <==> p.relayMalfunction
             ensures forall e | e in RaisedBy(p, settled, mismatches) :: e == ControlsMismatch || e == RelayMalfunction
    {
      RaisedSays(p, settled, mismatches);
    }
  }

  /** What a frame sees before the pandas and driver monitoring have their say. */
  function Seen(s: Selfd, f: Frame): set<ET> { Types(s.statics + f.early + f.bookmarks + f.other) }

  lemma CollectedTypes(s: Selfd, f: Frame, dm: DmPacket)
    requires s.initialized && !s.passive
    ensures var has := Types(s.Collected(f, dm)); var lock := !s.notCar && (dm.lockout || dm.alwaysOnLockout);
      forall t :: t in has <==> t in Seen(s, f) || (lock && t == ET.NoEntry) || t in Types(PandaEvents(f.pandas, f.settled, s.mismatches))
  {
    hide PandaEvents;
    var lock := !s.notCar && (dm.lockout || dm.alwaysOnLockout);
    TypesOfSum(s.statics + f.early + f.bookmarks, if lock then [TooDistracted] else []);
    TypesOfSum(s.statics + f.early + f.bookmarks + (if lock then [TooDistracted] else []), f.other);
    TypesOfSum(s.statics + f.early + f.bookmarks, f.other);
    TypesOfSum(s.statics + f.early + f.bookmarks + (if lock then [TooDistracted] else []) + f.other,
               PandaEvents(f.pandas, f.settled, s.mismatches));
    assert Types([TooDistracted]) == {ET.NoEntry} by {
      assert TypesOf(TooDistracted) == {ET.NoEntry};
    }
    assert Types([]) == {};
    hide Types, TypesOf;
  }

  lemma TypesOfSum(a: seq<EventName>, b: seq<EventName>)
    ensures Types(a + b) == Types(a) + Types(b)
  {
    hide TypesOf;
  }

  lemma PandaTypes(pandas: seq<Panda>, settled: bool, mismatches: nat)
    ensures var has := Types(PandaEvents(pandas, settled, mismatches));
      && (ET.ImmediateDisable in has <==> Faulty(pandas, settled, mismatches))
      && (ET.NoEntry in has <==> Faulty(pandas, settled, mismatches))
      && ET.Enable !in has && ET.UserDisable !in has && ET.SoftDisable !in has
  {
    hide PandaEvents, Mismatched;
    PandaEventsSay(pandas, settled, mismatches);
    var es := PandaEvents(pandas, settled, mismatches);
    assert ControlsMismatch in es || RelayMalfunction in es <==> Faulty(pandas, settled, mismatches);
    TypesOfTwo(es);
    hide Faulty;
  }

  lemma TypesOfTwo(es: seq<EventName>)
    requires forall e | e in es :: e == ControlsMismatch || e == RelayMalfunction
    ensures ET.ImmediateDisable in Types(es) <==> ControlsMismatch in es || RelayMalfunction in es
    ensures ET.NoEntry in Types(es) <==> ControlsMismatch in es || RelayMalfunction in es
    ensures ET.Enable !in Types(es) && ET.UserDisable !in Types(es) && ET.SoftDisable !in Types(es)
  {
    assert TypesOf(ControlsMismatch) == {ET.NoEntry, ET.ImmediateDisable};
    assert TypesOf(RelayMalfunction) == {ET.NoEntry, ET.ImmediateDisable, ET.Permanent};
    hide TypesOf;
    var mismatch, relay := ControlsMismatch in es, RelayMalfunction in es;
    forall t
      ensures t in Types(es) <==> (mismatch && t in TypesOf(ControlsMismatch)) || (relay && t in TypesOf(RelayMalfunction))
    {
    }
    hide Types;
  }

  /** When a disengaged frame engages: initialized and not passive, asked to, blocked neither by an event, nor by a
      driver-monitoring lockout of either kind, nor by a panda. */
  lemma EngagesExactly(s: Selfd, f: Frame, dm: DmPacket)
    requires s.Valid() && !s.enabled
    ensures s.Step(f, dm).enabled <==>
      && (s.initialized || f.ready) && !s.passive
      && ET.Enable in Seen(s, f) && ET.NoEntry !in Seen(s, f)
      && (s.notCar || (!dm.lockout && !dm.alwaysOnLockout)) && !Faulty(f.pandas, f.settled, 0)
  {
    var t := s.Sampled(f);
    if t.initialized && !t.passive {
      CollectedTypes(t, f, dm);
      PandaTypes(f.pandas, f.settled, t.mismatches);
      StatesReached(s.machine, Types(t.Collected(f, dm)));
      assert Seen(t, f) == Seen(s, f);
    }
    hide Machine.Next, Selfd.Collected, Seen, Faulty, Types;
  }

  /** When an engaged frame disengages: a disable among the events, a panda's fault or its two-hundredth refusal, or
      the end of a soft disable. */
  lemma DisengagesExactly(s: Selfd, f: Frame, dm: DmPacket)
    requires s.Valid() && s.enabled
    ensures !s.Step(f, dm).enabled <==>
      || ET.ImmediateDisable in Seen(s, f) || ET.UserDisable in Seen(s, f)
      || Faulty(f.pandas, f.settled, s.Step(f, dm).mismatches)
      || (s.machine.state.SoftDisabling? && ET.SoftDisable in Seen(s, f) && s.machine.timer <= 1)
  {
    var t := s.Sampled(f);
    CollectedTypes(t, f, dm);
    PandaTypes(f.pandas, f.settled, t.mismatches);
    StatesReached(s.machine, Types(t.Collected(f, dm)));
    assert Seen(t, f) == Seen(s, f) && s.Step(f, dm).mismatches == t.mismatches;
    hide Machine.Next, Selfd.Collected, Seen, Faulty, Types, Refuses;
  }

  /** Before it is initialized, and on a passive car, selfdrived takes no part. */
  lemma OnlooksUntilReady(s: Selfd, f: Frame, dm: DmPacket)
    requires s.passive || !(s.initialized || f.ready)
    ensures var t := s.Step(f, dm);
      t.machine == s.machine && t.enabled == s.enabled && t.active == s.active
      && (t.initialized <==> s.initialized || f.ready)
  {
  }

  /** Active is enabled but for preEnabled. */
  lemma ActiveExactly(s: Selfd, f: Frame, dm: DmPacket)
    requires !s.passive && (s.initialized || f.ready)
    ensures var t := s.Step(f, dm); t.active <==> t.enabled && !t.machine.state.PreEnabled?
  {
    hide Machine.Next, Selfd.Collected;
  }

  /** What an engagement has counted is exactly the frames with a refusal. */
  lemma {:induction false} MismatchesAreRefusals(s: Selfd, frames: seq<(Frame, DmPacket)>)
    requires s.enabled && EnabledThroughout(s, frames)
    ensures s.Run(frames).mismatches == s.mismatches + RefusedSteps(frames)
    decreases |frames|
  {
    hide Selfd.Step, Refuses;
    if frames != [] {
      var t := s.Step(frames[0].0, frames[0].1);
      assert t.mismatches == s.mismatches + if Refuses(frames[0].0.pandas) then 1 else 0 by {
        MismatchesCount(s, frames[0].0, frames[0].1);
        RefusalByIndex(frames[0].0.pandas);
      }
      if frames[1..] == [] {
        assert t.Run([]) == t && RefusedSteps(frames[1..]) == 0;
      } else {
        MismatchesAreRefusals(t, frames[1..]);
      }
    }
  }

  lemma RefusalByIndex(pandas: seq<Panda>)
    ensures Refuses(pandas) <==> exists k | 0 <= k < |pandas| :: !pandas[k].silent && !pandas[k].controlsAllowed
  {
    assert forall p | p in pandas :: exists k | 0 <= k < |pandas| :: pandas[k] == p;
  }

  /** Before initialization only the early events are there, and the one that says so; on a passive car nothing after
      the bookmarks is looked at. */
  lemma CollectedCutOff(s: Selfd, f: Frame, dm: DmPacket)
    ensures !s.initialized ==>
      && SelfdriveInitializing in s.Collected(f, dm)
      && forall e | e in s.Collected(f, dm) :: e in s.statics || e in f.early || e == SelfdriveInitializing
    ensures s.initialized && s.passive ==>
      forall e | e in s.Collected(f, dm) :: e in s.statics || e in f.early || e in f.bookmarks
    ensures forall e | e in s.statics || e in f.early :: e in s.Collected(f, dm)
    ensures s.initialized ==> forall e | e in f.bookmarks :: e in s.Collected(f, dm)
  {
    hide PandaEvents;
  }

  lemma StartsIdle(passive: bool, notCar: bool, recognized: bool)
    ensures var s := Started(passive, notCar, recognized);
      && s.Valid() && !s.enabled && !s.active && !s.initialized && s.mismatches == 0 && s.machine.timer == 0
      && (CarUnrecognized in s.statics <==> !recognized) && (DashcamMode in s.statics <==> recognized && passive)
      && |s.statics| <= 1 && s.passive == passive && s.notCar == notCar
  {
  }
}
