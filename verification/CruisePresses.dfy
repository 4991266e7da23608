/** What presses, releases and initializations do to the set speed, in numbers. */
module CruisePresses {
  import opened Wrappers
  import opened Reals
  import opened CruiseSpeed

  // ----- one adjustment

  /** `r` is `x` brought into [8, 145] and rounded to a tenth. */
  predicate Settles(r: real, x: real) {
    && 8.0 <= r <= 145.0 && (x <= 8.0 ==> r == 8.0) && (x >= 145.0 ==> r == 145.0)
    && (8.0 <= x <= 145.0 ==> x - 0.05 <= r <= x + 0.05 && (10.0 * r).Floor as real == 10.0 * r)
  }

  /** Setting the speed down with the gas pressed does not go below the present speed. */
  function NotBelow(x: real, b: Button, car: Car): real {
    if b.Decel? && car.gasPressed && x < car.vEgo * 3.6 then car.vEgo * 3.6 else x
  }

  lemma TenthsSettle(x: real)
    ensures Settles(Clip(Round1(x), 8.0, 145.0), x)
  {
    if x <= 8.0 {
      TenthsBelow(x, 80);
    } else if x >= 145.0 {
      TenthsAbove(x, 1450);
    } else {
      RoundStaysBetween(x * 10.0, 80, 1450);
      RoundIsNear(x * 10.0);
      hide RoundHalfEven;
    }
  }

  lemma TenthsBelow(x: real, n: int)
    requires x * 10.0 <= n as real
    ensures RoundHalfEven(x * 10.0) <= n
  {
  }

  lemma TenthsAbove(x: real, n: int)
    requires x * 10.0 >= n as real
    ensures RoundHalfEven(x * 10.0) >= n
  {
  }

  lemma AdjustedSettles(kph: real, b: Button, long: bool, car: Car, metric: bool)
    ensures Settles(Adjusted(kph, b, long, car, metric), NotBelow(Moved(kph, b, long, Increment(metric, long)), b, car))
  {
    TenthsSettle(NotBelow(Moved(kph, b, long, Increment(metric, long)), b, car));
    hide Settles, Moved, Round1, Increment;
  }

  // ----- frames that adjust, and frames that do not

  /** Neither timed button is released. */
  predicate NoRelease(events: seq<ButtonEvent>) {
    forall e | e in events :: e.pressed || (e.button != Decel && e.button != Accel)
  }

  lemma {:induction false} ReleaseDecides(keys: Keys, pre: seq<ButtonEvent>, b: Button, post: seq<ButtonEvent>)
    requires NoRelease(pre) && (b.Decel? || b.Accel?)
    ensures Requested(keys, pre + [ButtonEvent(b, false)] + post)
         == if keys.Of(b).timer > 50 then None else Some((b, false))
    decreases |pre|
  {
    var events := pre + [ButtonEvent(b, false)] + post;
    if pre != [] {
      assert events[1..] == pre[1..] + [ButtonEvent(b, false)] + post;
      assert pre[0] in pre && forall e | e in pre[1..] :: e in pre;
      ReleaseDecides(keys, pre[1..], b, post);
    }
  }

  lemma {:induction false} WithoutRelease(keys: Keys, events: seq<ButtonEvent>)
    requires NoRelease(events)
    ensures Requested(keys, events) == Requested(keys, [])
    decreases |events|
  {
    if events != [] {
      assert events[0] in events && forall e | e in events[1..] :: e in events;
      WithoutRelease(keys, events[1..]);
    }
  }

  /** The press began while enabled, and does not resume from standstill. */
  predicate Counts(c: Cruise, b: Button, car: Car) {
    c.keys.Of(b).enabled && (b.Accel? ==> !c.keys.Of(b).standstill && !car.standstill)
  }

  /** The first release of a timed button, after at most 50 frames, moves the speed by 1 km/h, or by 1.6 where miles
      are used; after more than 50 it does nothing, and neither does one that does not count. */
  lemma ReleaseAdjusts(c: Cruise, car: Car, metric: bool, pre: seq<ButtonEvent>, b: Button, post: seq<ButtonEvent>)
    requires car.available && (b.Decel? || b.Accel?)
    requires car.events == pre + [ButtonEvent(b, false)] + post && NoRelease(pre)
    ensures var r := Updated(c, car, true, metric).kph; var step := if metric then 1.0 else 1.6;
      if c.keys.Of(b).timer <= 50 && Counts(c, b, car)
      then Settles(r, NotBelow(if b.Accel? then c.kph + step else c.kph - step, b, car))
      else r == c.kph
  {
    ReleaseDecides(c.keys, pre, b, post);
    AdjustedSettles(c.kph, b, false, car, metric);
    hide Requested, Adjusted, Settles, Changed, NotBelow;
  }

  function Multiple(m: int, step: real): real { m as real * step }

  /** While nothing is released, every fiftieth frame of a press moves the speed on to the next multiple of five
      steps; all other frames leave it. */
  lemma HoldingMoves(c: Cruise, car: Car, metric: bool)
    requires car.available && NoRelease(car.events)
    ensures var r := Updated(c, car, true, metric).kph; var step := if metric then 5.0 else 8.0;
      var down := c.keys.decel.timer > 0 && c.keys.decel.timer % 50 == 0;
      var up := !down && c.keys.accel.timer > 0 && c.keys.accel.timer % 50 == 0;
      if down && Counts(c, Decel, car) then
        exists m: int :: c.kph - step <= Multiple(m, step) < c.kph && Settles(r, NotBelow(Multiple(m, step), Decel, car))
      else if up && Counts(c, Accel, car) then exists m: int :: c.kph < Multiple(m, step) <= c.kph + step && Settles(r, Multiple(m, step))
      else r == c.kph
  {
    WithoutRelease(c.keys, car.events);
    LongMove(c.kph, Decel, metric);
    LongMove(c.kph, Accel, metric);
    AdjustedSettles(c.kph, Decel, true, car, metric);
    AdjustedSettles(c.kph, Accel, true, car, metric);
    hide Adjusted, Settles, Changed, Moved, Increment;
  }

  lemma LongMove(kph: real, b: Button, metric: bool)
    requires b.Timed()
    ensures var step := if metric then 5.0 else 8.0;
      Increment(metric, true) == step &&
      exists m: int :: Moved(kph, b, true, Increment(metric, true)) == Multiple(m, step) &&
        if b.Accel? then kph < Multiple(m, step) <= kph + step else kph - step <= Multiple(m, step) < kph
  {
    var step := Increment(metric, true);
    MovedFacts(kph, b, true, step);
    var r := Moved(kph, b, true, step);
    hide Moved;
    assert Multiple((r / step).Floor, step) == r;
  }

  lemma NotEnabled(c: Cruise, car: Car, metric: bool)
    requires car.available
    ensures Updated(c, car, false, metric).kph == c.kph
  {
  }

  /** The shown speed is the set one, the last one is kept, and without cruise both are unset. */
  lemma ShownAndLast(c: Cruise, car: Car, enabled: bool, metric: bool)
    ensures var u := Updated(c, car, enabled, metric);
      && u.cluster == u.kph && u.last == c.kph && (!car.available ==> u.kph == 255.0 && u.keys == c.keys)
  {
    hide Adjusted, Accepted, Changed;
  }

  // ----- the timers

  lemma {:induction false} OtherEventsLeave(keys: Keys, events: seq<ButtonEvent>, standstill: bool, enabled: bool, b: Button)
    requires b.Timed() && forall e | e in events :: e.button != b
    ensures Changed(keys, events, standstill, enabled).Of(b) == keys.Of(b)
    decreases |events|
  {
    if events != [] {
      var k := |events| - 1;
      assert events[k] in events && forall e | e in events[..k] :: e in events;
      OtherEventsLeave(keys, events[..k], standstill, enabled, b);
    }
  }

  lemma {:induction false} LaterEventsLeave(keys: Keys, pre: seq<ButtonEvent>, e: ButtonEvent, post: seq<ButtonEvent>,
                                            standstill: bool, enabled: bool)
    requires e.button.Timed() && forall o | o in post :: o.button != e.button
    ensures Changed(keys, pre + [e] + post, standstill, enabled).Of(e.button) == Held(if e.pressed then 1 else 0, standstill, enabled)
    decreases |post|
  {
    if post == [] {
      assert pre + [e] + post == pre + [e] && (pre + [e])[..|pre|] == pre;
    } else {
      var k := |post| - 1;
      assert (pre + [e] + post)[..|pre| + 1 + k] == pre + [e] + post[..k];
      assert post[k] in post && forall o | o in post[..k] :: o in post;
      LaterEventsLeave(keys, pre, e, post[..k], standstill, enabled);
    }
  }

  /** A button's last change in a frame starts its timer at 1 or stops it, and records standstill and enabling; a
      button without a change counts on. */
  lemma TimersCount(c: Cruise, car: Car, enabled: bool, metric: bool, b: Button)
    requires car.available && (b.Decel? || b.Accel?)
    ensures var h := Updated(c, car, enabled, metric).keys.Of(b);
      && ((forall e | e in car.events :: e.button != b) ==>
            h == c.keys.Of(b).(timer := if c.keys.Of(b).timer > 0 then c.keys.Of(b).timer + 1 else 0))
      && forall k | 0 <= k < |car.events| && car.events[k].button == b && (forall j | k < j < |car.events| :: car.events[j].button != b) ::
            h.timer == (if car.events[k].pressed then 1 else 0) && h.standstill == car.standstill && h.enabled == enabled
  {
    var keys := c.keys.Ticked();
    var u := Updated(c, car, enabled, metric);
    assert u.keys == Changed(keys, car.events, car.standstill, enabled);
    hide Updated;
    if forall e | e in car.events :: e.button != b {
      OtherEventsLeave(keys, car.events, car.standstill, enabled, b);
    }
    forall k | 0 <= k < |car.events| && car.events[k].button == b && (forall j | k < j < |car.events| :: car.events[j].button != b)
      ensures u.keys.Of(b) == Held(if car.events[k].pressed then 1 else 0, car.standstill, enabled)
    {
      var pre, post := car.events[..k], car.events[k + 1..];
      assert car.events == pre + [car.events[k]] + post;
      LaterEventsLeave(keys, pre, car.events[k], post, car.standstill, enabled);
    }
    hide Changed;
  }

  // ----- initialization

  /** Resuming, by an accel or resume button, takes the last speed back; otherwise it is the present speed, at least
      40 or 105 and at most 145, as a whole number. */
  lemma InitializationStarts(c: Cruise, car: Car, experimental: bool)
    ensures var i := Initialized(c, car, experimental); var x := car.vEgo * 3.6; var least := if experimental then 105.0 else 40.0;
      var resumes := c.kph != 255.0 && exists k | 0 <= k < |car.events| :: car.events[k].button == Accel || car.events[k].button == Resume;
      && i.cluster == i.kph && i.last == c.last && i.keys == c.keys
      && if resumes then i.kph == c.last
         else i.kph.Floor as real == i.kph && (x <= least ==> i.kph == least) && (x >= 145.0 ==> i.kph == 145.0)
              && (least <= x <= 145.0 ==> x - 0.5 <= i.kph <= x + 0.5)
  {
    var least := if experimental then 105.0 else 40.0;
    var x := Clip(car.vEgo * MS_TO_KPH, least, V_CRUISE_MAX);
    RoundIsNear(x);
    RoundStaysBetween(x, 40, 145);
    if x == least {
      RoundStaysBetween(x, if experimental then 105 else 40, if experimental then 105 else 40);
    }
    if x == 145.0 {
      RoundStaysBetween(x, 145, 145);
    }
    assert Resumes(car.events) <==> exists k | 0 <= k < |car.events| :: car.events[k].button == Accel || car.events[k].button == Resume by {
      assert forall e | e in car.events :: exists k | 0 <= k < |car.events| :: car.events[k] == e;
    }
    hide RoundHalfEven, Resumes;
  }

  // ----- a button held on a speed that is a multiple of five

  function Ends(c: Cruise, frames: seq<(Car, bool)>): Cruise
    decreases |frames|
  {
    if frames == [] then c else Ends(Updated(c, frames[0].0, frames[0].1, true), frames[1..])
  }

  lemma SettlesOnWhole(r: real, n: int)
    requires Settles(r, n as real)
    ensures r == if n < 8 then 8.0 else if n > 145 then 145.0 else n as real
  {
    if 8 <= n <= 145 {
      var t := (10.0 * r).Floor;
      assert 10.0 * r == t as real;
      assert (10 * n) as real - 0.5 <= t as real <= (10 * n) as real + 0.5;
      assert t == 10 * n;
    }
  }

  lemma {:induction false} HoldingRaises(c: Cruise, t: nat, middle: seq<(Car, bool)>, n: int)
    requires Holding(c, Accel, t) && (forall f | f in middle :: Steady(Accel, f)) && c.kph == 5.0 * n as real && 2 <= n <= 29
    ensures Holding(Ends(c, middle), Accel, t + |middle|)
    ensures var m := n + (t + |middle| - 1) / 50 - (t - 1) / 50; Ends(c, middle).kph == if m > 29 then 145.0 else 5.0 * m as real
    decreases |middle|
  {
    if middle != [] {
      var f := middle[0];
      assert f in middle;
      var u := Updated(c, f.0, f.1, true);
      SteadyFrame(c, Accel, t, f, true);
      RaisedOnce(c, t, f, n);
      hide Updated, Holding, Steady;
      var up := if t % 50 == 0 && n < 29 then n + 1 else n;
      HoldingRaises(u, t + 1, middle[1..], up);
      Fiftieths(t);
    }
  }

  lemma Fiftieths(t: nat)
    requires t > 0
    ensures t / 50 == (t - 1) / 50 + if t % 50 == 0 then 1 else 0
  {
  }

  lemma RaisedOnce(c: Cruise, t: nat, f: (Car, bool), n: int)
    requires Holding(c, Accel, t) && Steady(Accel, f) && c.kph == 5.0 * n as real && 2 <= n <= 29
    ensures Updated(c, f.0, f.1, true).kph == 5.0 * (if t % 50 == 0 && n < 29 then n + 1 else n) as real
  {
    HoldingMoves(c, f.0, true);
    var r := Updated(c, f.0, f.1, true).kph;
    hide Updated;
    if t % 50 == 0 {
      var m: int :| c.kph < Multiple(m, 5.0) <= c.kph + 5.0 && Settles(r, Multiple(m, 5.0));
      assert m == n + 1;
      assert Multiple(m, 5.0) == (5 * m) as real;
      SettlesOnWhole(r, 5 * m);
    }
  }

  /** Accel pressed for r frames on a multiple of five kilometres an hour: 1 more for a short press, 5 more for every
      50 frames of a long one, up to 145. */
  lemma HeldAccelRaises(c: Cruise, press: (Car, bool), middle: seq<(Car, bool)>, release: (Car, bool), n: int)
    requires c.keys.decel.timer == 0 && c.keys.accel.timer == 0 && c.kph == 5.0 * n as real && 2 <= n <= 29
    requires Edge(Accel, press, true) && (forall f | f in middle :: Steady(Accel, f)) && Edge(Accel, release, false)
    ensures var r := |middle| + 1; var m := n + (r - 1) / 50; var speed := Ends(c, [press] + middle + [release]).kph;
      if r <= 50 then speed == (if n == 29 then 145.0 else c.kph + 1.0)
      else speed == if m > 29 then 145.0 else 5.0 * m as real
  {
    hide Updated, Ends, Holding, Steady, Edge, Accepted;
    var u := Updated(c, press.0, press.1, true);
    PressStartsHolding(c, Accel, press, true);
    PressLeavesSpeed(c, press);
    HoldingRaises(u, 1, middle, n);
    var v := Ends(u, middle);
    EndsThree(c, press, middle, release);
    ReleasedAt(v, 1 + |middle|, release, n);
  }

  lemma PressLeavesSpeed(c: Cruise, press: (Car, bool))
    requires Accepted(c.keys, press.0, press.1) == None && Edge(Accel, press, true)
    ensures Updated(c, press.0, press.1, true).kph == c.kph
  {
    hide Accepted, Changed;
  }

  lemma EndsThree(c: Cruise, press: (Car, bool), middle: seq<(Car, bool)>, release: (Car, bool))
    ensures Ends(c, [press] + middle + [release])
         == Updated(Ends(Updated(c, press.0, press.1, true), middle), release.0, release.1, true)
  {
    hide Updated;
    assert ([press] + middle + [release])[1..] == middle + [release] && [release][1..] == [];
    EndsAppend(Updated(c, press.0, press.1, true), middle, [release]);
  }

  lemma ReleasedAt(v: Cruise, t: nat, release: (Car, bool), n: int)
    requires Holding(v, Accel, t) && Edge(Accel, release, false)
    ensures var r := Updated(v, release.0, release.1, true).kph;
      if t <= 50 then (v.kph == 5.0 * n as real && 2 <= n <= 29 ==> r == if n == 29 then 145.0 else v.kph + 1.0) else r == v.kph
  {
    assert release.0.events == [] + [ButtonEvent(Accel, false)] + [];
    ReleaseAdjusts(v, release.0, true, [], Accel, []);
    hide Updated;
    var r := Updated(v, release.0, release.1, true).kph;
    if t <= 50 && v.kph == 5.0 * n as real && 2 <= n <= 29 {
      assert v.kph + 1.0 == (5 * n + 1) as real;
      SettlesOnWhole(r, 5 * n + 1);
    }
  }

  lemma {:induction false} EndsAppend(c: Cruise, a: seq<(Car, bool)>, b: seq<(Car, bool)>)
    ensures Ends(c, a + b) == Ends(Ends(c, a), b)
    decreases |a|
  {
    hide Updated;
    if a == [] {
      assert a + b == b;
    } else {
      assert (a + b)[1..] == a[1..] + b;
      EndsAppend(Updated(c, a[0].0, a[0].1, true), a[1..], b);
    }
  }
}
