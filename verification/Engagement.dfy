/** The engagement state machine and the steps of selfdrived around it. */
module Engagement {
  import opened EventTable

  datatype State = Disabled | PreEnabled | Enabled | SoftDisabling | Overriding

  const SOFT_DISABLE_STEPS := 300        // 3 s
  const MISMATCH_LIMIT := 200

  predicate IsActive(s: State) { s.Enabled? || s.SoftDisabling? || s.Overriding? }

  predicate IsEnabled(s: State) { s.PreEnabled? || IsActive(s) }

  datatype Machine = Machine(state: State, timer: nat) {
    predicate Valid() { timer <= SOFT_DISABLE_STEPS }

    function Countdown(): nat { if timer > 0 then timer - 1 else 0 }

    /** One update, given the event types present.  Leaving is decided before anything else, and a
        soft disable before an override. */
    function Next(has: set<ET>): Machine {
      var leaves := ET.ImmediateDisable in has || ET.UserDisable in has;
      var override := ET.OverrideLateral in has || ET.OverrideLongitudinal in has;
      match state
      case Disabled =>
        Machine(if ET.Enable !in has || ET.NoEntry in has then Disabled
                else if ET.PreEnable in has then PreEnabled
                else if override then Overriding
                else Enabled, Countdown())
      case PreEnabled =>
        Machine(if leaves then Disabled else if ET.PreEnable in has then PreEnabled else Enabled, Countdown())
      case SoftDisabling =>
        Machine(if leaves then Disabled
                else if ET.SoftDisable !in has then Enabled
                else if Countdown() > 0 then SoftDisabling
                else Disabled, Countdown())
      case Enabled | Overriding =>
        if leaves then Machine(Disabled, Countdown())
        else if ET.SoftDisable in has then Machine(SoftDisabling, SOFT_DISABLE_STEPS)
        else Machine(if override then Overriding else Enabled, Countdown())
    }

    function Run(steps: seq<set<ET>>): Machine
      decreases |steps|
    {
      if steps == [] then this else Next(steps[0]).Run(steps[1..])
    }
  }

  class Events {
    var events: seq<EventName>
    var staticEvents: seq<EventName>

    constructor ()
      ensures events == [] && staticEvents == []
    {
      events, staticEvents := [], [];
    }

    method Add(e: EventName, isStatic: bool)
      modifies this
      ensures events == old(events) + [e]
      ensures staticEvents == old(staticEvents) + if isStatic then [e] else []
    {
      if isStatic {
        staticEvents := staticEvents + [e];
      }
      events := events + [e];
    }

    /** Only the static events outlive a frame. */
    method Clear()
      modifies this`events
      ensures events == staticEvents
    {
      events := staticEvents;
    }

    predicate Contains(t: ET)
      reads this`events
      ensures Contains(t) <==> t in Types(events)
    {
      exists e | e in events :: t in TypesOf(e)
    }
  }

  class StateMachine {
    var currentAlertTypes: seq<ET>
    var state: State
    var softDisableTimer: nat

    function View(): Machine
      reads this`state, this`softDisableTimer
    {
      Machine(state, softDisableTimer)
    }

    constructor ()
      ensures View() == Machine(Disabled, 0) && currentAlertTypes == [ET.Permanent]
    {
      currentAlertTypes, state, softDisableTimer := [ET.Permanent], Disabled, 0;
    }

    /** The alert types shown say which transition was taken. */
    method Update(events: Events) returns (enabled: bool, active: bool)
      modifies this
      ensures View() == old(View()).Next(Types(events.events))
      ensures enabled == IsEnabled(state) && active == IsActive(state)
      ensures ET.Permanent in currentAlertTypes && (ET.Warning in currentAlertTypes <==> active)
      ensures ET.PreEnable in currentAlertTypes <==> old(state).PreEnabled? && state.PreEnabled?
      ensures ET.OverrideLateral in currentAlertTypes <==> !old(state).Disabled? && state.Overriding?
      ensures ET.OverrideLongitudinal in currentAlertTypes <==> !old(state).Disabled? && state.Overriding?
      ensures ET.SoftDisable in currentAlertTypes <==> state.SoftDisabling?
      ensures ET.Enable in currentAlertTypes <==> old(state).Disabled? && enabled
      ensures ET.NoEntry in currentAlertTypes <==>
              old(state).Disabled? && !enabled && ET.Enable in Types(events.events)
      ensures ET.ImmediateDisable in currentAlertTypes <==>
              !old(state).Disabled? && ET.ImmediateDisable in Types(events.events)
      ensures ET.UserDisable in currentAlertTypes <==>
              !old(state).Disabled? && ET.UserDisable in Types(events.events) && ET.ImmediateDisable !in Types(events.events)
    {
      hide Events.Contains, Types, TypesOf;
      ghost var before := View();
      softDisableTimer := if softDisableTimer > 0 then softDisableTimer - 1 else 0;
      var shown;
      if state != Disabled {
        shown := UpdateEngaged(events, before);
      } else {
        shown := UpdateDisabled(events, before);
      }
      hide Machine.Next;
      enabled, active := IsEnabled(state), IsActive(state);
      if active {
        shown := shown + [ET.Warning];
      }
      currentAlertTypes := shown;
    }

    // The next two are the branches of Update; `before` is the machine before the timer was decremented.

    method UpdateEngaged(events: Events, ghost before: Machine) returns (shown: seq<ET>)
      requires !state.Disabled? && before.state == state && softDisableTimer == before.Countdown()
      modifies this`state, this`softDisableTimer
      ensures View() == before.Next(Types(events.events))
      ensures ET.Permanent in shown && ET.Warning !in shown && ET.Enable !in shown && ET.NoEntry !in shown
      ensures ET.PreEnable in shown <==> before.state.PreEnabled? && state.PreEnabled?
      ensures ET.OverrideLateral in shown <==> state.Overriding?
      ensures ET.OverrideLongitudinal in shown <==> state.Overriding?
      ensures ET.SoftDisable in shown <==> state.SoftDisabling?
      ensures ET.ImmediateDisable in shown <==> ET.ImmediateDisable in Types(events.events)
      ensures ET.UserDisable in shown <==> ET.UserDisable in Types(events.events) && ET.ImmediateDisable !in Types(events.events)
    {
      hide Events.Contains, Types, TypesOf;
      shown := [ET.Permanent];
      if events.Contains(ET.ImmediateDisable) {
        state := Disabled;
        shown := shown + [ET.ImmediateDisable];
      } else if events.Contains(ET.UserDisable) {
        state := Disabled;
        shown := shown + [ET.UserDisable];
      } else if state == Enabled {
        if events.Contains(ET.SoftDisable) {
          state := SoftDisabling;
          softDisableTimer := SOFT_DISABLE_STEPS;
          shown := shown + [ET.SoftDisable];
        } else if events.Contains(ET.OverrideLateral) || events.Contains(ET.OverrideLongitudinal) {
          state := Overriding;
          shown := shown + [ET.OverrideLateral, ET.OverrideLongitudinal];
        }
      } else if state == SoftDisabling {
        if !events.Contains(ET.SoftDisable) {
          state := Enabled;
        } else if softDisableTimer > 0 {
          shown := shown + [ET.SoftDisable];
        } else {
          state := Disabled;
        }
      } else if state == PreEnabled {
        if !events.Contains(ET.PreEnable) {
          state := Enabled;
        } else {
          shown := shown + [ET.PreEnable];
        }
      } else if state == Overriding {
        if events.Contains(ET.SoftDisable) {
          state := SoftDisabling;
          softDisableTimer := SOFT_DISABLE_STEPS;
          shown := shown + [ET.SoftDisable];
        } else if !(events.Contains(ET.OverrideLateral) || events.Contains(ET.OverrideLongitudinal)) {
          state := Enabled;
        } else {
          shown := shown + [ET.OverrideLateral, ET.OverrideLongitudinal];
        }
      }
    }

    method UpdateDisabled(events: Events, ghost before: Machine) returns (shown: seq<ET>)
      requires state.Disabled? && before.state == state && softDisableTimer == before.Countdown()
      modifies this`state
      ensures View() == before.Next(Types(events.events))
      ensures shown == [ET.Permanent] + if ET.Enable !in Types(events.events) then []
                                        else if state.Disabled? then [ET.NoEntry]
                                        else [ET.Enable]
    {
      hide Events.Contains, Types, TypesOf;
      shown := [ET.Permanent];
      if events.Contains(ET.Enable) {
        if events.Contains(ET.NoEntry) {
          shown := shown + [ET.NoEntry];
        } else {
          if events.Contains(ET.PreEnable) {
            state := PreEnabled;
          } else if events.Contains(ET.OverrideLateral) || events.Contains(ET.OverrideLongitudinal) {
            state := Overriding;
          } else {
            state := Enabled;
          }
          shown := shown + [ET.Enable];
        }
      }
    }
  }

  // ----- histories of the machine

  lemma {:induction false} RunSnoc(m: Machine, steps: seq<set<ET>>, has: set<ET>)
    ensures m.Run(steps + [has]) == m.Run(steps).Next(has)
    decreases |steps|
  {
    if steps == [] {
      assert m.Run([has]) == m.Next(has).Run([has][1..]);
    } else {
      assert (steps + [has])[1..] == steps[1..] + [has];
      RunSnoc(m.Next(steps[0]), steps[1..], has);
    }
  }

  /** Step `k` engaged from disabled and no later step asked to leave. */
  predicate EngagedSince(m: Machine, steps: seq<set<ET>>, k: nat)
    requires k < |steps|
  {
    && m.Run(steps[..k]).state.Disabled? && ET.Enable in steps[k] && ET.NoEntry !in steps[k]
    && forall j | k < j < |steps| :: ET.UserDisable !in steps[j] && ET.ImmediateDisable !in steps[j]
  }

  /** Engaged implies an admitted request with no disable since; short of soft disables the converse holds too. */
  lemma {:induction false} EngagementHistory(m: Machine, steps: seq<set<ET>>)
    requires m.state.Disabled?
    ensures !m.Run(steps).state.Disabled? ==> exists k | 0 <= k < |steps| :: EngagedSince(m, steps, k)
    ensures (forall s | s in steps :: ET.SoftDisable !in s) ==>
            !m.Run(steps).state.SoftDisabling? &&
            ((exists k | 0 <= k < |steps| :: EngagedSince(m, steps, k)) ==> !m.Run(steps).state.Disabled?)
    decreases |steps|
  {
    if steps != [] {
      var n := |steps| - 1;
      var before := steps[..n];
      assert before + [steps[n]] == steps;
      RunSnoc(m, before, steps[n]);
      EngagementHistory(m, before);
      forall k | 0 <= k < n ensures before[..k] == steps[..k] {
      }
      if !m.Run(steps).state.Disabled? {
        if m.Run(before).state.Disabled? {
          assert steps[..n] == before;
          assert EngagedSince(m, steps, n);
        } else {
          var k :| 0 <= k < n && EngagedSince(m, before, k);
          assert EngagedSince(m, steps, k);
        }
      }
      if (forall s | s in steps :: ET.SoftDisable !in s) && exists k | 0 <= k < |steps| :: EngagedSince(m, steps, k) {
        assert forall s | s in before :: s in steps;
        assert steps[n] in steps;
        var k :| 0 <= k < |steps| && EngagedSince(m, steps, k);
        if k < n {
          assert EngagedSince(m, before, k);
        } else {
          assert steps[..n] == before;
        }
      }
    }
  }

  /** A soft disable that stays for 301 updates ends in disabled. */
  lemma {:induction false} SoftDisableEnds(m: Machine, steps: seq<set<ET>>)
    requires m.Valid() && !m.state.PreEnabled?
    requires forall s | s in steps :: ET.SoftDisable in s && ET.NoEntry in s
    requires |steps| >= if m.state.Disabled? then 0 else if m.state.SoftDisabling? && m.timer > 0 then m.timer
                        else SOFT_DISABLE_STEPS + 1
    ensures m.Run(steps).state.Disabled?
    decreases |steps|
  {
    if steps != [] {
      SoftDisableEnds(m.Next(steps[0]), steps[1..]);
    }
  }

  /** The same over event lists: the table supplies the missing NO_ENTRY. */
  lemma SoftDisableEventsEnd(m: Machine, frames: seq<seq<EventName>>)
    requires m.Valid() && !m.state.PreEnabled? && |frames| >= SOFT_DISABLE_STEPS + 1
    requires forall f | f in frames :: ET.SoftDisable in Types(f)
    ensures m.Run(seq(|frames|, i requires 0 <= i < |frames| => Types(frames[i]))).state.Disabled?
  {
    var steps := seq(|frames|, i requires 0 <= i < |frames| => Types(frames[i]));
    forall s | s in steps ensures ET.SoftDisable in s && ET.NoEntry in s {
      var i :| 0 <= i < |steps| && s == steps[i];
      assert frames[i] in frames;
      var e :| e in frames[i] && ET.SoftDisable in TypesOf(e);
      SoftDisableBlocksEntry(e);
    }
    SoftDisableEnds(m, steps);
  }

  /** ... and not one update earlier. */
  lemma {:induction false} SoftDisableGrace(m: Machine, steps: seq<set<ET>>)
    requires m.state.Enabled? || m.state.Overriding? || m.state.SoftDisabling?
    requires forall s | s in steps :: ET.SoftDisable in s && ET.UserDisable !in s && ET.ImmediateDisable !in s
    requires steps != [] && |steps| <= if m.state.SoftDisabling? then m.timer - 1 else SOFT_DISABLE_STEPS
    ensures m.Run(steps).state.SoftDisabling?
    decreases |steps|
  {
    var e := m.Next(steps[0]);
    if |steps| == 1 {
      assert e.Run([]) == e;
    } else {
      SoftDisableGrace(e, steps[1..]);
    }
  }

  /** In preEnabled the soft disable is not even looked at, however long it stays. */
  lemma {:induction false} PreEnabledIgnoresSoftDisable(m: Machine, steps: seq<set<ET>>)
    requires m.state.PreEnabled?
    requires forall s | s in steps :: ET.PreEnable in s && ET.UserDisable !in s && ET.ImmediateDisable !in s
    ensures m.Run(steps).state.PreEnabled?
    decreases |steps|
  {
    if steps != [] {
      PreEnabledIgnoresSoftDisable(m.Next(steps[0]), steps[1..]);
    }
  }

  lemma {:induction false} RunAppend(m: Machine, a: seq<set<ET>>, b: seq<set<ET>>)
    ensures m.Run(a + b) == m.Run(a).Run(b)
    decreases |a|
  {
    if a == [] {
      assert a + b == b;
    } else {
      assert (a + b)[1..] == a[1..] + b;
      RunAppend(m.Next(a[0]), a[1..], b);
    }
  }

  /** From preEnabled the countdown starts with the update after the first one without PRE_ENABLE: with a soft
      disable in every update and no other reason to leave, the run ends disabled if and only if at least 302
      updates remain from that one on. */
  lemma PreEnabledCountdown(m: Machine, steps: seq<set<ET>>)
    requires m.Valid() && m.state.PreEnabled?
    requires forall s | s in steps :: ET.SoftDisable in s && ET.NoEntry in s && ET.UserDisable !in s && ET.ImmediateDisable !in s
    ensures m.Run(steps).state.Disabled? <==>
            exists k | 0 <= k < |steps| :: ET.PreEnable !in steps[k] && |steps| >= k + SOFT_DISABLE_STEPS + 2
  {
    var k := FirstWithout(steps);
    PreEnabledIgnoresSoftDisable(m, steps[..k]);
    var p := m.Run(steps[..k]);
    RunAppend(m, steps[..k], steps[k..]);
    assert steps == steps[..k] + steps[k..];
    if k < |steps| {
      var e, rest := p.Next(steps[k]), steps[k + 1..];
      assert steps[k..][1..] == rest && e.state.Enabled?;
      assert m.Run(steps) == e.Run(rest);
      RunKeepsValid(m, steps[..k]);
      if |rest| > SOFT_DISABLE_STEPS {
        SoftDisableEnds(e, rest);
        assert ET.PreEnable !in steps[k] && |steps| >= k + SOFT_DISABLE_STEPS + 2;
      } else if rest != [] {
        SoftDisableGrace(e, rest);
      }
    }
  }

  lemma {:induction false} RunKeepsValid(m: Machine, steps: seq<set<ET>>)
    requires m.Valid()
    ensures m.Run(steps).Valid()
    decreases |steps|
  {
    if steps != [] {
      RunKeepsValid(m.Next(steps[0]), steps[1..]);
    }
  }

  function FirstWithout(steps: seq<set<ET>>): (k: nat)
    ensures k <= |steps| && (k < |steps| ==> ET.PreEnable !in steps[k])
    ensures forall j | 0 <= j < k :: ET.PreEnable in steps[j]
  {
    if steps == [] || ET.PreEnable !in steps[0] then 0 else 1 + FirstWithout(steps[1..])
  }

  // ----- which update leads where

  /** For each state, the updates that lead to it. */
  lemma StatesReached(m: Machine, has: set<ET>)
    ensures var s := m.Next(has).state; var on := !m.state.Disabled?;
      var leaves := ET.ImmediateDisable in has || ET.UserDisable in has;
      var overrides := ET.OverrideLateral in has || ET.OverrideLongitudinal in has;
      var driving := m.state.Enabled? || m.state.Overriding?;
      var admitted := !on && ET.Enable in has && ET.NoEntry !in has;
      && (s.PreEnabled? <==> ET.PreEnable in has && (admitted || (m.state.PreEnabled? && !leaves)))
      && (s.Overriding? <==>
            overrides && if on then driving && !leaves && ET.SoftDisable !in has else admitted && ET.PreEnable !in has)
      && (s.SoftDisabling? <==> !leaves && ET.SoftDisable in has && (driving || (m.state.SoftDisabling? && m.timer > 1)))
      && (s.Disabled? <==> if on then leaves || (m.state.SoftDisabling? && ET.SoftDisable in has && m.timer <= 1)
                           else !admitted)
      && m.Next(has).timer == (if s.SoftDisabling? && !m.state.SoftDisabling? then 300 else if m.timer > 0 then m.timer - 1 else 0)
  {
  }

  /** Driving on without a disable of any kind, overriding follows the driver: it is the state exactly after the
      updates that carry an override. */
  lemma {:induction false} OverridingFollowsTheDriver(m: Machine, steps: seq<set<ET>>)
    requires (m.state.Enabled? || m.state.Overriding?) && steps != []
    requires forall s | s in steps :: ET.ImmediateDisable !in s && ET.UserDisable !in s && ET.SoftDisable !in s
    ensures var last := steps[|steps| - 1];
      m.Run(steps).state == if ET.OverrideLateral in last || ET.OverrideLongitudinal in last then Overriding else Enabled
    decreases |steps|
  {
    var e := m.Next(steps[0]);
    StatesReached(m, steps[0]);
    assert steps[0] in steps;
    hide Machine.Next;
    if |steps| == 1 {
      assert e.Run([]) == e;
    } else {
      OverridingFollowsTheDriver(e, steps[1..]);
    }
  }

  /** A soft disable that goes away in time gives control back, whatever the driver does meanwhile. */
  lemma SoftDisableRecovers(m: Machine, steps: seq<set<ET>>, after: set<ET>)
    requires m.state.Enabled? || m.state.Overriding?
    requires 0 < |steps| <= SOFT_DISABLE_STEPS
    requires forall s | s in steps :: ET.SoftDisable in s && ET.UserDisable !in s && ET.ImmediateDisable !in s
    requires ET.SoftDisable !in after && ET.UserDisable !in after && ET.ImmediateDisable !in after
    ensures m.Run(steps + [after]).state.Enabled?
  {
    SoftDisableGrace(m, steps);
    RunSnoc(m, steps, after);
  }
}
