/** The first-order low-pass filter, over exact reals. */
module Filters {
  /** The weight of a new sample. */
  function Alpha(rc: real, dt: real): real
    requires rc >= 0.0 && dt > 0.0
  {
    dt / (rc + dt)
  }

  function FilterStep(x: real, alpha: real, sample: real): real {
    (1.0 - alpha) * x + alpha * sample
  }

  function Power(b: real, n: nat): real {
    if n == 0 then 1.0 else b * Power(b, n - 1)
  }

  function Settle(x: real, alpha: real, sample: real, n: nat): real {
    if n == 0 then x else FilterStep(Settle(x, alpha, sample, n - 1), alpha, sample)
  }

  function Times(a: real, b: real): real { a * b }

  /** Against a constant input the error shrinks by exactly (1 - alpha) a step. */
  lemma SettleIsGeometric(x: real, alpha: real, sample: real, n: nat)
    ensures Settle(x, alpha, sample, n) - sample == Power(1.0 - alpha, n) * (x - sample)
  {
    hide Settle, Power;
    ErrorAfter(x, alpha, sample, n);
  }

  lemma {:induction false} ErrorAfter(x: real, alpha: real, sample: real, n: nat)
    ensures Settle(x, alpha, sample, n) - sample == Times(Power(1.0 - alpha, n), x - sample)
  {
    if n > 0 {
      ErrorAfter(x, alpha, sample, n - 1);
      PowerNext(1.0 - alpha, n);
      OneMoreStep(Settle(x, alpha, sample, n - 1), alpha, sample, Power(1.0 - alpha, n - 1), x - sample);
      hide FilterStep, Times, Power;
    }
  }

  lemma PowerNext(b: real, n: nat)
    requires n > 0
    ensures Power(b, n) == Times(b, Power(b, n - 1))
  {
  }

  lemma OneMoreStep(x: real, alpha: real, sample: real, power: real, d: real)
    requires x - sample == Times(power, d)
    ensures FilterStep(x, alpha, sample) - sample == Times(Times(1.0 - alpha, power), d)
  {
    assert FilterStep(x, alpha, sample) - sample == (1.0 - alpha) * (x - sample);
    hide FilterStep;
    assert (1.0 - alpha) * (power * d) == ((1.0 - alpha) * power) * d;
  }

  class FirstOrderFilter {
    var x: real
    var alpha: real
    var initialized: bool

    constructor (x0: real, rc: real, dt: real, initialized: bool)
      requires rc >= 0.0 && dt > 0.0
      ensures x == x0 && alpha == Alpha(rc, dt) && this.initialized == initialized
    {
      x := x0;
      alpha := dt / (rc + dt);
      this.initialized := initialized;
    }

    method Update(sample: real) returns (r: real)
      modifies this`x, this`initialized
      ensures r == x && initialized
      ensures x == if old(initialized) then FilterStep(old(x), alpha, sample) else sample
    {
      if initialized {
        x := (1.0 - alpha) * x + alpha * sample;
      } else {
        initialized := true;
        x := sample;
      }
      r := x;
    }
  }
}
