/** A run with four terminal alerts: the bound of `Lockout` is reached when one message is late. */
module LateMessages {
  import opened Wrappers
  import DM = DriverMonitoring
  import SD = Selfdrived
  import opened EventTable
  import opened Engagement
  import opened Escalation
  import opened Lockout

  // ----- what the two sides do

  const GLARE := DM.Frame(true, true, true)

  function GlareInput(): DM.Input { DM.Input(Some(GLARE), false, true, false, false, false) }

  function Glares(n: nat): seq<DM.Input> { if n == 0 then [] else [GlareInput()] + Glares(n - 1) }

  /** Monitoring sees engagement and a distracted driver, `n` times. */
  function GlareActions(n: nat): seq<Action> {
    if n == 0 then [] else [DmSample, DmStep(Some(GLARE), false, false, false, false)] + GlareActions(n - 1)
  }

  function Pressed(e: EventName): SD.Frame { SD.Frame(true, false, [], [], [e], []) }

  function Off(): SD.Selfd { SD.Selfd(Machine(Disabled, 0), false, false, true, 0, false, false, []) }

  function On(): SD.Selfd { SD.Selfd(Machine(Enabled, 0), true, true, true, 0, false, false, []) }

  lemma Engages(s: SD.Selfd)
    requires s == Off() || s == SD.Started(false, false, true)
    ensures s.Step(Pressed(ButtonEnable), SD.DmPacket(false, false)) == On()
  {
    hide TypesOf, Types, Machine.Next;
    var f, packet := Pressed(ButtonEnable), SD.DmPacket(false, false);
    assert s.Sampled(f) == Off();
    assert Off().Collected(f, packet) == [ButtonEnable];
    OneEvent(ButtonEnable);
    EnableEnables();
    hide SD.Selfd.Sampled, SD.Selfd.Collected;
  }

  lemma EnableEnables()
    ensures Machine(Disabled, 0).Next(TypesOf(ButtonEnable)) == Machine(Enabled, 0)
  {
    assert TypesOf(ButtonEnable) == {ET.Enable};
    hide TypesOf;
  }

  lemma Disengages(packet: SD.DmPacket)
    ensures On().Step(Pressed(ButtonCancel), packet) == Off()
  {
    assert ButtonCancel in On().Sampled(Pressed(ButtonCancel)).Collected(Pressed(ButtonCancel), packet);
    assert ET.UserDisable in TypesOf(ButtonCancel);
  }

  lemma OneEvent(e: EventName)
    ensures Types([e]) == TypesOf(e)
  {
    assert forall t :: t in Types([e]) <==> t in TypesOf(e);
  }

  // ----- one alert

  lemma {:induction false} GlaresGlare(n: nat)
    ensures |Glares(n)| == n && forall i | i in Glares(n) :: Glaring(i)
  {
    if n > 0 {
      GlaresGlare(n - 1);
    }
  }

  /** The first red of a distracted driver counts one alert and one step. */
  lemma {:induction false} FirstRed(d: DM.Monitor, n: nat) returns (k: nat)
    requires Valid(d) && d.budget.Awareness() > 0.0 && d.Run(Glares(n)).budget.Awareness() <= 0.0
    ensures 0 < k <= n && Valid(d.Run(Glares(k))) && d.Run(Glares(k)).budget.Awareness() <= 0.0
    ensures d.Run(Glares(k)).tally == DM.Tally(d.tally.alerts + 1, d.tally.steps + 1, d.tally.Latched().tooDistracted)
    ensures !d.Run(Glares(k)).alwaysOn
    decreases n
  {
    var g := GlareInput();
    StepFacts(d, g);
    var e := d.Step(g);
    hide DM.Monitor.Step;
    assert Glares(n)[1..] == Glares(n - 1);
    if e.budget.Awareness() <= 0.0 {
      k := 1;
      assert Glares(1) == [g] && [g][1..] == [];
      assert d.Run([g]) == e.Run([]) == e;
    } else {
      k := FirstRed(e, n - 1);
      assert Glares(k + 1)[1..] == Glares(k);
      assert d.Run(Glares(k + 1)) == e.Run(Glares(k));
      k := k + 1;
    }
  }

  lemma {:induction false} RunAppends(w: World, a: seq<Action>, b: seq<Action>)
    ensures Run(w, a + b) == Run(Run(w, a), b)
    decreases |a|
  {
    if a == [] {
      assert a + b == b;
    } else {
      assert (a + b)[1..] == a[1..] + b;
      RunAppends(Act(w, a[0]), a[1..], b);
    }
  }

  lemma {:induction false} GlareRun(w: World, n: nat)
    requires w.sd.enabled && n > 0
    ensures Run(w, GlareActions(n))
         == w.(dm := w.dm.Run(Glares(n)), packet := Published(w.dm.Run(Glares(n))), engagedSample := None)
    decreases n
  {
    var glare := DmStep(Some(GLARE), false, false, false, false);
    var v := Act(Act(w, DmSample), glare);
    var d := w.dm.Step(GlareInput());
    assert v == w.(dm := d, packet := Published(d), engagedSample := None);
    var acts := GlareActions(n);
    assert acts[0] == DmSample && acts[1..][0] == glare && acts[1..][1..] == GlareActions(n - 1);
    assert Run(w, acts) == Run(v, GlareActions(n - 1));
    assert Glares(n)[1..] == Glares(n - 1);
    assert w.dm.Run(Glares(n)) == d.Run(Glares(n - 1));
    hide DM.Monitor.Step, Published, Act;
    if n > 1 {
      GlareRun(v, n - 1);
    } else {
      assert Run(v, []) == v && d.Run([]) == d;
    }
  }

  /** Engaged and not red. */
  predicate Driving(w: World) {
    w.sd == On() && w.packetSample == None && Valid(w.dm) && w.dm.budget.Awareness() > 0.0
  }

  /** Engaged and red, with the packet of that step. */
  predicate Alerted(w: World, t: DM.Tally) {
    && w.sd == On() && w.packetSample == None && Valid(w.dm) && w.dm.budget.Awareness() <= 0.0
    && w.dm.tally == t && w.packet == SD.DmPacket(t.tooDistracted, false)
  }

  lemma OnIsEnabled()
    ensures On().enabled
  {
  }

  lemma OneAlert(w: World) returns (actions: seq<Action>)
    requires Driving(w)
    ensures var t := w.dm.tally; Alerted(Run(w, actions), DM.Tally(t.alerts + 1, t.steps + 1, t.Latched().tooDistracted))
  {
    hide Glares, GlareActions, DM.Monitor.Run, Valid, On, Types, TypesOf;
    OnIsEnabled();
    GlaresGlare(225);
    RedWithin225Steps(w.dm, Glares(225));
    RedMeansExhausted(w.dm, Glares(225));
    var k := FirstRed(w.dm, 225);
    GlareRun(w, k);
    actions := GlareActions(k);
  }

  // ----- from one alert to the next

  function Rest(): Action { DmStep(None, false, false, false, false) }

  /** A disengaged step ends red. */
  lemma RestEndsRed(d: DM.Monitor)
    requires Valid(d) && d.budget.Awareness() <= 0.0
    ensures var e := d.Step(DM.Input(None, false, false, false, false, false));
      Valid(e) && e.budget.Awareness() > 0.0 && e.tally == d.tally.Latched() && !e.alwaysOn
  {
    StepFacts(d, DM.Input(None, false, false, false, false, false));
  }

  /** Below the limit the driver disengages, monitoring sees it, and the driver engages again. */
  lemma NextEngagement(w: World, n: nat) returns (actions: seq<Action>)
    requires n < DM.MAX_TERMINAL_ALERTS && Alerted(w, DM.Tally(n, n, false))
    ensures Driving(Run(w, actions)) && Run(w, actions).dm.tally == DM.Tally(n, n, false)
  {
    actions := [SdSample, SdStep(Pressed(ButtonCancel)), DmSample, Rest(), SdSample, SdStep(Pressed(ButtonEnable))];
    Disengages(w.packet);
    Engages(Off());
    RestEndsRed(w.dm);
    hide SD.Selfd.Step, DM.Monitor.Step, Pressed;
    SixActions(w, actions);
  }

  /** At the limit selfdrived samples before monitoring publishes the lockout, and engages on that sample. */
  lemma LateEngagement(w: World) returns (actions: seq<Action>)
    requires Alerted(w, DM.Tally(DM.MAX_TERMINAL_ALERTS, DM.MAX_TERMINAL_ALERTS, false))
    ensures Driving(Run(w, actions)) && Run(w, actions).dm.tally.alerts == DM.MAX_TERMINAL_ALERTS
  {
    actions := [SdSample, SdStep(Pressed(ButtonCancel)), SdSample, DmSample, Rest(), SdStep(Pressed(ButtonEnable))];
    Disengages(w.packet);
    Engages(Off());
    RestEndsRed(w.dm);
    hide SD.Selfd.Step, DM.Monitor.Step, Pressed;
    SixActions(w, actions);
  }

  lemma SixActions(w: World, a: seq<Action>)
    requires |a| == 6
    ensures Run(w, a) == Act(Act(Act(Act(Act(Act(w, a[0]), a[1]), a[2]), a[3]), a[4]), a[5])
  {
    hide Act;
    TwoActions(w, a);
    var v := Act(Act(w, a[0]), a[1]);
    TwoActions(v, a[2..]);
    assert a[2..][2..] == a[4..];
    TwoActions(Act(Act(v, a[2]), a[3]), a[4..]);
    assert a[4..][2..] == [];
  }

  lemma TwoActions(w: World, a: seq<Action>)
    requires |a| >= 2
    ensures Run(w, a) == Run(Act(Act(w, a[0]), a[1]), a[2..])
  {
    hide Act;
    assert a[1..][1..] == a[2..];
  }

  // ----- four

  lemma {:induction false} AlertsBelowLimit(n: nat) returns (actions: seq<Action>)
    requires 0 < n <= DM.MAX_TERMINAL_ALERTS
    ensures Alerted(Run(Start(false, false, false, true), actions), DM.Tally(n, n, false))
  {
    var start := Start(false, false, false, true);
    var before: seq<Action>;
    if n == 1 {
      before := [SdSample, SdStep(Pressed(ButtonEnable))];
      Engages(start.sd);
      InitialIsValid(false, false);
      TwoActions(start, before);
      assert before[2..] == [];
    } else {
      var a := AlertsBelowLimit(n - 1);
      var b := NextEngagement(Run(start, a), n - 1);
      before := a + b;
      RunAppends(start, a, b);
    }
    hide Start, Act, Pressed, SD.Selfd.Step;
    var c := OneAlert(Run(start, before));
    actions := before + c;
    RunAppends(start, before, c);
  }

  /** Four terminal alerts do happen. */
  lemma FourIsReached()
    ensures exists actions :: Run(Start(false, false, false, true), actions).dm.tally.alerts == DM.MAX_TERMINAL_ALERTS + 1
  {
    var start := Start(false, false, false, true);
    var a := AlertsBelowLimit(DM.MAX_TERMINAL_ALERTS);
    var b := LateEngagement(Run(start, a));
    RunAppends(start, a, b);
    var c := OneAlert(Run(start, a + b));
    RunAppends(start, a + b, c);
    hide Start, Run;
    assert Run(start, a + b + c).dm.tally.alerts == DM.MAX_TERMINAL_ALERTS + 1;
  }
}
