/** The driver-set cruise speed where stock cruise does not keep it (non-PCM cars); exact reals. */
module CruiseSpeed {
  import opened Wrappers
  import opened Reals

  const V_CRUISE_MIN := 8.0
  const V_CRUISE_MAX := 145.0
  const V_CRUISE_UNSET := 255.0
  const V_CRUISE_INITIAL := 40.0
  const V_CRUISE_INITIAL_EXPERIMENTAL := 105.0
  const IMPERIAL_INCREMENT := 1.6
  const MS_TO_KPH := 3.6
  const LONG_PRESS := 50

  datatype Button = Decel | Accel | Resume | SetCruise | OtherButton {
    /** The two buttons that are timed. */
    predicate Timed() { Decel? || Accel? }
  }

  datatype ButtonEvent = ButtonEvent(button: Button, pressed: bool)

  /** One frame of car state as this code reads it. */
  datatype Car = Car(available: bool, standstill: bool, gasPressed: bool, vEgo: real, events: seq<ButtonEvent>)

  /** What is kept per timed button: how long it is held, and the state when it last changed. */
  datatype Held = Held(timer: nat, standstill: bool, enabled: bool) {
    function Ticked(): Held { if timer > 0 then this.(timer := timer + 1) else this }
  }

  datatype Keys = Keys(decel: Held, accel: Held) {
    function Of(b: Button): Held { if b.Accel? then accel else decel }

    function With(b: Button, h: Held): Keys { if b.Accel? then this.(accel := h) else this.(decel := h) }

    function Ticked(): Keys { Keys(decel.Ticked(), accel.Ticked()) }
  }

  datatype Cruise = Cruise(kph: real, cluster: real, last: real, keys: Keys)

  // ----- rounding

  function Ceil(x: real): int { -((-x).Floor) }

  function Clip(x: real, lo: real, hi: real): real { if x < lo then lo else if x > hi then hi else x }

  predicate IsMultiple(x: real, step: real)
    requires step > 0.0
  {
    (x / step).Floor as real * step == x
  }

  // ----- which press is acted on

  /** The first release of a timed button decides; without one, a timer at a multiple of the long-press
      time does.  The release of a long press does nothing. */
  function Requested(c: Keys, events: seq<ButtonEvent>): Option<(Button, bool)> {
    if events == [] then
      if c.decel.timer > 0 && c.decel.timer % LONG_PRESS == 0 then Some((Decel, true))
      else if c.accel.timer > 0 && c.accel.timer % LONG_PRESS == 0 then Some((Accel, true))
      else None
    else
      var e := events[0];
      if e.button.Timed() && !e.pressed then
        if c.Of(e.button).timer > LONG_PRESS then None else Some((e.button, false))
      else Requested(c, events[1..])
  }

  /** The request, unless it resumes from standstill or the press began before enabling. */
  function Accepted(c: Keys, car: Car, enabled: bool): Option<(Button, bool)> {
    if !enabled || !car.available then None
    else match Requested(c, car.events)
      case None => None
      case Some((b, long)) =>
        if (b.Accel? && (c.Of(b).standstill || car.standstill)) || !c.Of(b).enabled then None
        else Some((b, long))
  }

  function Increment(metric: bool, long: bool): (step: real)
    ensures step > 0.0
  {
    (if metric then 1.0 else IMPERIAL_INCREMENT) * (if long then 5.0 else 1.0)
  }

  function Sign(b: Button): real { if b.Accel? then 1.0 else -1.0 }

  /** A short press moves by one step; a long one first to the next multiple. */
  function Moved(kph: real, b: Button, long: bool, step: real): real
    requires step > 0.0
  {
    if long && !IsMultiple(kph, step) then (if b.Accel? then Ceil(kph / step) else (kph / step).Floor) as real * step
    else kph + step * Sign(b)
  }

  /** An adjustment goes the button's way by at most one step, and by exactly one unless a long press stops at
      the multiple in between, which it always ends on. */
  lemma MovedFacts(kph: real, b: Button, long: bool, step: real)
    requires b.Timed() && step > 0.0
    ensures var d := if b.Accel? then Moved(kph, b, long, step) - kph else kph - Moved(kph, b, long, step);
      && 0.0 < d <= step
      && (d < step ==> long && !IsMultiple(kph, step))
      && (long ==> IsMultiple(Moved(kph, b, long, step), step))
  {
    var f := (kph / step).Floor;
    if long && IsMultiple(kph, step) {
      OneStepOn(kph, b, step);
    } else if long {
      NextMultiple(kph, step);
      var m := if b.Accel? then f + 1 else f;
      MultipleOf(m, step);
      hide IsMultiple, Ceil;
      assert Moved(kph, b, long, step) == m as real * step;
    }
    hide IsMultiple;
  }

  lemma OneStepOn(kph: real, b: Button, step: real)
    requires step > 0.0 && IsMultiple(kph, step)
    ensures IsMultiple(kph + step * Sign(b), step)
  {
    var f := (kph / step).Floor;
    var m := if b.Accel? then f + 1 else f - 1;
    assert f as real * step == kph;
    assert m as real * step == kph + step * Sign(b);
    hide IsMultiple;
    MultipleOf(m, step);
  }

  /** The multiples next to a speed that is not one. */
  lemma NextMultiple(kph: real, step: real)
    requires step > 0.0 && !IsMultiple(kph, step)
    ensures var f := (kph / step).Floor; var below, above := f as real * step, (f + 1) as real * step;
      Ceil(kph / step) == f + 1 && below < kph < above && above - below == step
  {
    var q := kph / step;
    assert q * step == kph;
    var f := q.Floor;
    assert q != f as real;
    assert (-q).Floor == -f - 1;
    hide IsMultiple;
    LargerProduct(q, f as real, step);
    var g := (f + 1) as real;
    assert g == f as real + 1.0;
    assert q < g;
    LargerProduct(g, q, step);
    assert kph < g * step;
    assert f as real * step < kph;
    assert g * step == f as real * step + step;
  }

  lemma MultipleOf(m: int, step: real)
    requires step > 0.0
    ensures IsMultiple(m as real * step, step)
  {
    assert m as real * step / step == m as real;
  }

  function Adjusted(kph: real, b: Button, long: bool, car: Car, metric: bool): real {
    var moved := Moved(kph, b, long, Increment(metric, long));
    var floored := if car.gasPressed && b.Decel? && moved < car.vEgo * MS_TO_KPH then car.vEgo * MS_TO_KPH else moved;
    Clip(Round1(floored), V_CRUISE_MIN, V_CRUISE_MAX)
  }

  function Changed(c: Keys, events: seq<ButtonEvent>, standstill: bool, enabled: bool): Keys {
    if events == [] then c
    else
      var k := |events| - 1;
      var d, e := Changed(c, events[..k], standstill, enabled), events[k];
      if e.button.Timed() then d.With(e.button, Held(if e.pressed then 1 else 0, standstill, enabled)) else d
  }

  /** One frame: adjust on the timers as they were, then advance them. */
  function Updated(c: Cruise, car: Car, enabled: bool, metric: bool): Cruise {
    if !car.available then c.(last := c.kph, kph := V_CRUISE_UNSET, cluster := V_CRUISE_UNSET)
    else
      var kph := match Accepted(c.keys, car, enabled)
                 case None => c.kph
                 case Some((b, long)) => Adjusted(c.kph, b, long, car, metric);
      Cruise(kph, kph, c.kph, Changed(c.keys.Ticked(), car.events, car.standstill, enabled))
  }

  function Resumes(events: seq<ButtonEvent>): bool {
    exists e | e in events :: e.button.Accel? || e.button.Resume?
  }

  function Initialized(c: Cruise, car: Car, experimental: bool): Cruise {
    var initial := if experimental then V_CRUISE_INITIAL_EXPERIMENTAL else V_CRUISE_INITIAL;
    var kph := if Resumes(car.events) && c.kph != V_CRUISE_UNSET then c.last
               else RoundHalfEven(Clip(car.vEgo * MS_TO_KPH, initial, V_CRUISE_MAX)) as real;
    c.(kph := kph, cluster := kph)
  }

  class VCruiseHelper {
    var vCruiseKph: real
    var vCruiseClusterKph: real
    var vCruiseKphLast: real
    var decel: Held
    var accel: Held

    function View(): Cruise
      reads this
    {
      Cruise(vCruiseKph, vCruiseClusterKph, vCruiseKphLast, KeysView())
    }

    function KeysView(): Keys
      reads this`decel, this`accel
    {
      Keys(decel, accel)
    }

    constructor ()
      ensures View() == Cruise(V_CRUISE_UNSET, V_CRUISE_UNSET, 0.0, Keys(Held(0, false, false), Held(0, false, false)))
    {
      vCruiseKph, vCruiseClusterKph, vCruiseKphLast := V_CRUISE_UNSET, V_CRUISE_UNSET, 0.0;
      decel, accel := Held(0, false, false), Held(0, false, false);
    }

    method UpdateVCruise(car: Car, enabled: bool, metric: bool)
      modifies this
      ensures View() == Updated(old(View()), car, enabled, metric)
    {
      hide Adjusted, Accepted, Changed;
      vCruiseKphLast := vCruiseKph;
      if car.available {
        UpdateNonPcm(car, enabled, metric);
        vCruiseClusterKph := vCruiseKph;
        UpdateButtonTimers(car, enabled);
      } else {
        vCruiseKph := V_CRUISE_UNSET;
        vCruiseClusterKph := V_CRUISE_UNSET;
      }
    }

    method UpdateNonPcm(car: Car, enabled: bool, metric: bool)
      requires car.available
      modifies this`vCruiseKph
      ensures vCruiseKph == match Accepted(KeysView(), car, enabled)
        case None => old(vCruiseKph)
        case Some((b, long)) => Adjusted(old(vCruiseKph), b, long, car, metric)
    {
      hide Round1, Clip, IsMultiple, Ceil, Increment, Requested;
      if !enabled {
        return;
      }
      var request := FindRequest(car.events);
      if request == None {
        return;
      }
      var (b, longPress) := request.value;
      var h := if b.Accel? then accel else decel;
      if b.Accel? && (h.standstill || car.standstill) {
        return;
      }
      if !h.enabled {
        return;
      }
      var delta := Increment(metric, longPress);
      if longPress && !IsMultiple(vCruiseKph, delta) {
        vCruiseKph := (if b.Accel? then Ceil(vCruiseKph / delta) else (vCruiseKph / delta).Floor) as real * delta;
      } else {
        vCruiseKph := vCruiseKph + delta * Sign(b);
      }
      assert vCruiseKph == Moved(old(vCruiseKph), b, longPress, Increment(metric, longPress));
      hide Moved;
      if car.gasPressed && (b.Decel? || b.SetCruise?) {
        vCruiseKph := if vCruiseKph < car.vEgo * MS_TO_KPH then car.vEgo * MS_TO_KPH else vCruiseKph;
      }
      vCruiseKph := Clip(Round1(vCruiseKph), V_CRUISE_MIN, V_CRUISE_MAX);
    }

    method FindRequest(events: seq<ButtonEvent>) returns (request: Option<(Button, bool)>)
      ensures request == Requested(KeysView(), events)
      ensures request.Some? ==> request.value.0.Timed()
    {
      for k := 0 to |events|
        invariant Requested(KeysView(), events) == Requested(KeysView(), events[k..])
      {
        var e := events[k];
        assert events[k..][1..] == events[k + 1..];
        if e.button.Timed() && !e.pressed {
          if (if e.button.Accel? then accel else decel).timer > LONG_PRESS {
            return None;
          }
          return Some((e.button, false));
        }
      }
      assert events[|events|..] == [];
      if decel.timer > 0 && decel.timer % LONG_PRESS == 0 {
        return Some((Decel, true));
      }
      if accel.timer > 0 && accel.timer % LONG_PRESS == 0 {
        return Some((Accel, true));
      }
      return None;
    }

    method UpdateButtonTimers(car: Car, enabled: bool)
      modifies this`decel, this`accel
      ensures KeysView() == Changed(old(KeysView()).Ticked(), car.events, car.standstill, enabled)
    {
      if decel.timer > 0 {
        decel := decel.(timer := decel.timer + 1);
      }
      if accel.timer > 0 {
        accel := accel.(timer := accel.timer + 1);
      }
      ghost var ticked := KeysView();
      for k := 0 to |car.events|
        invariant KeysView() == Changed(ticked, car.events[..k], car.standstill, enabled)
      {
        assert car.events[..k + 1][..k] == car.events[..k];
        var e := car.events[k];
        if e.button == Decel {
          decel := Held(if e.pressed then 1 else 0, car.standstill, enabled);
        } else if e.button == Accel {
          accel := Held(if e.pressed then 1 else 0, car.standstill, enabled);
        }
      }
      assert car.events[..|car.events|] == car.events;
    }

    method InitializeVCruise(car: Car, experimental: bool)
      modifies this`vCruiseKph, this`vCruiseClusterKph
      ensures View() == Initialized(old(View()), car, experimental)
    {
      var initial := if experimental then V_CRUISE_INITIAL_EXPERIMENTAL else V_CRUISE_INITIAL;
      if Resumes(car.events) && vCruiseKph != V_CRUISE_UNSET {
        vCruiseKph := vCruiseKphLast;
      } else {
        vCruiseKph := RoundHalfEven(Clip(car.vEgo * MS_TO_KPH, initial, V_CRUISE_MAX)) as real;
      }
      vCruiseClusterKph := vCruiseKph;
    }
  }

  // ----- the set speed stays in range

  predicate InRange(kph: real) { kph == V_CRUISE_UNSET || V_CRUISE_MIN <= kph <= V_CRUISE_MAX }

  /** One frame of the car process: an update, and on the frame after enabling an initialization. */
  datatype Frame = Frame(car: Car, enabled: bool, metric: bool, initialize: Option<(Car, bool)>)

  function Step(c: Cruise, f: Frame): Cruise {
    var u := Updated(c, f.car, f.enabled, f.metric);
    match f.initialize
    case None => u
    case Some((car, experimental)) => Initialized(u, car, experimental)
  }

  function Run(c: Cruise, frames: seq<Frame>): Cruise
    decreases |frames|
  {
    if frames == [] then c else Run(Step(c, frames[0]), frames[1..])
  }

  lemma StepStaysInRange(c: Cruise, f: Frame)
    requires InRange(c.kph)
    ensures InRange(Step(c, f).kph)
  {
    hide Round1, Moved, Accepted, Changed;
    var u := Updated(c, f.car, f.enabled, f.metric);
    assert InRange(u.kph) && InRange(u.last);
    hide Updated;
    if f.initialize.Some? {
      var (car, experimental) := f.initialize.value;
      var lo := if experimental then 105 else 40;
      RoundStaysBetween(Clip(car.vEgo * MS_TO_KPH, lo as real, V_CRUISE_MAX), lo, 145);
      hide RoundHalfEven;
    }
  }

  /** On every run the set speed is unset or within its limits. */
  lemma {:induction false} RunStaysInRange(c: Cruise, frames: seq<Frame>)
    requires InRange(c.kph)
    ensures InRange(Run(c, frames).kph)
    decreases |frames|
  {
    if frames != [] {
      StepStaysInRange(c, frames[0]);
      hide Step;
      RunStaysInRange(Step(c, frames[0]), frames[1..]);
    }
  }

  /** Initializing leaves a speed in range exactly when it does not resume, or resumes one in range. */
  lemma InitializeKeepsRangeExactly(c: Cruise, car: Car, experimental: bool)
    ensures InRange(Initialized(c, car, experimental).kph)
       <==> !Resumes(car.events) || c.kph == V_CRUISE_UNSET || InRange(c.last)
  {
    var initial := if experimental then V_CRUISE_INITIAL_EXPERIMENTAL else V_CRUISE_INITIAL;
    RoundStaysBetween(Clip(car.vEgo * MS_TO_KPH, initial, V_CRUISE_MAX), 40, 145);
    hide RoundHalfEven;
  }

  /** Initializing twice without an update between them can restore the untouched 0 of the constructor;
      the frame order above is what rules it out. */
  lemma RangeNeedsTheFrameOrder()
    ensures exists c: Cruise, car: Car ::
      InRange(c.kph) && !InRange(Initialized(Initialized(c, car, false), car, false).kph)
  {
    var h := Held(0, false, false);
    var c := Cruise(V_CRUISE_UNSET, V_CRUISE_UNSET, 0.0, Keys(h, h));
    var car := Car(true, false, false, 0.0, [ButtonEvent(Resume, true)]);
    assert car.events[0] in car.events;
    assert RoundHalfEven(V_CRUISE_INITIAL) == 40 by { RoundStaysBetween(V_CRUISE_INITIAL, 40, 40); }
    assert Initialized(c, car, false).kph == 40.0;
    assert Initialized(Initialized(c, car, false), car, false).kph == 0.0;
  }

  // ----- one button, held

  /** How many frames of a run adjust the speed. */
  function Adjustments(c: Cruise, frames: seq<(Car, bool)>, metric: bool): nat
    decreases |frames|
  {
    if frames == [] then 0
    else
      (if Accepted(c.keys, frames[0].0, frames[0].1).Some? then 1 else 0)
      + Adjustments(Updated(c, frames[0].0, frames[0].1, metric), frames[1..], metric)
  }

  /** A frame in which no timed button changes. */
  predicate Steady(b: Button, f: (Car, bool)) {
    f.1 && f.0.available && (b.Accel? ==> !f.0.standstill) && forall e | e in f.0.events :: !e.button.Timed()
  }

  predicate Edge(b: Button, f: (Car, bool), pressed: bool) {
    f.1 && f.0.available && (b.Accel? ==> !f.0.standstill) && f.0.events == [ButtonEvent(b, pressed)]
  }

  /** Button `b` has been down for `t` frames, and only it. */
  predicate Holding(c: Cruise, b: Button, t: nat) {
    && b.Timed() && c.keys.Of(b).timer == t > 0 && c.keys.Of(b).enabled && (b.Accel? ==> !c.keys.Of(b).standstill)
    && c.keys.Of(if b.Accel? then Decel else Accel).timer == 0
  }

  lemma {:induction false} SteadyChangesNothing(keys: Keys, events: seq<ButtonEvent>, standstill: bool, enabled: bool)
    requires forall e | e in events :: !e.button.Timed()
    ensures Changed(keys, events, standstill, enabled) == keys
    decreases |events|
  {
    if events != [] {
      assert events[|events| - 1] in events && forall e | e in events[..|events| - 1] :: e in events;
      SteadyChangesNothing(keys, events[..|events| - 1], standstill, enabled);
    }
  }

  lemma {:induction false} SteadyRequest(keys: Keys, events: seq<ButtonEvent>)
    requires forall e | e in events :: !e.button.Timed()
    ensures Requested(keys, events) == Requested(keys, [])
    decreases |events|
  {
    if events != [] {
      assert events[0] in events && forall e | e in events[1..] :: e in events;
      SteadyRequest(keys, events[1..]);
    }
  }

  lemma SteadyFrame(c: Cruise, b: Button, t: nat, f: (Car, bool), metric: bool)
    requires Holding(c, b, t) && Steady(b, f)
    ensures Accepted(c.keys, f.0, f.1) == if t % LONG_PRESS == 0 then Some((b, true)) else None
    ensures Holding(Updated(c, f.0, f.1, metric), b, t + 1)
  {
    hide Adjusted;
    SteadyRequest(c.keys, f.0.events);
    SteadyChangesNothing(c.keys.Ticked(), f.0.events, f.0.standstill, f.1);
    hide Changed;
  }

  lemma {:induction false} HoldingAdjusts(c: Cruise, b: Button, t: nat, middle: seq<(Car, bool)>, release: (Car, bool), metric: bool)
    requires Holding(c, b, t) && (forall f | f in middle :: Steady(b, f)) && Edge(b, release, false)
    ensures Adjustments(c, middle + [release], metric)
            == (t + |middle| - 1) / LONG_PRESS - (t - 1) / LONG_PRESS + if t + |middle| > LONG_PRESS then 0 else 1
    decreases |middle|
  {
    hide Updated;
    if middle == [] {
      assert [] + [release] == [release] && [release][1..] == [];
      assert Adjustments(Updated(c, release.0, release.1, metric), [], metric) == 0;
      ReleaseRequest(c, b, t, release);
    } else {
      var f := middle[0];
      assert (middle + [release])[1..] == middle[1..] + [release];
      SteadyFrame(c, b, t, f, metric);
      HoldingAdjusts(Updated(c, f.0, f.1, metric), b, t + 1, middle[1..], release, metric);
    }
  }

  lemma ReleaseRequest(c: Cruise, b: Button, t: nat, release: (Car, bool))
    requires Holding(c, b, t) && Edge(b, release, false)
    ensures Accepted(c.keys, release.0, release.1) == if t > LONG_PRESS then None else Some((b, false))
  {
  }

  /** A single button held for r frames adjusts the speed max(1, (r - 1) / 50) times: once on a short
      press's release, or at every fiftieth frame and not on the release. */
  lemma HeldButtonAdjustments(c: Cruise, b: Button, press: (Car, bool), middle: seq<(Car, bool)>, release: (Car, bool), metric: bool)
    requires b.Timed() && c.keys.decel.timer == 0 && c.keys.accel.timer == 0
    requires Edge(b, press, true) && (forall f | f in middle :: Steady(b, f)) && Edge(b, release, false)
    ensures var r := |middle| + 1; var n := Adjustments(c, [press] + middle + [release], metric);
      n == if r <= LONG_PRESS then 1 else (r - 1) / LONG_PRESS
  {
    var frames := [press] + middle + [release];
    assert frames[1..] == middle + [release];
    PressStartsHolding(c, b, press, metric);
    hide Updated, Accepted;
    HoldingAdjusts(Updated(c, press.0, press.1, metric), b, 1, middle, release, metric);
  }

  lemma PressStartsHolding(c: Cruise, b: Button, press: (Car, bool), metric: bool)
    requires b.Timed() && c.keys.decel.timer == 0 && c.keys.accel.timer == 0 && Edge(b, press, true)
    ensures Accepted(c.keys, press.0, press.1) == None
    ensures Holding(Updated(c, press.0, press.1, metric), b, 1)
  {
    var events := press.0.events;
    assert events[1..] == [] && events[..0] == [];
    assert Requested(c.keys, events) == Requested(c.keys, []);
    assert Changed(c.keys.Ticked(), events, press.0.standstill, press.1)
        == c.keys.Ticked().With(b, Held(1, press.0.standstill, press.1));
  }
}
