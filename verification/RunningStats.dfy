/** Welford's running mean and spread, with the source's cap on the sample count; exact reals. */
module RunningStats {
  import opened Reals
  import opened Filters

  function NextMean(mean: real, x: real, k: nat): real
    requires k > 0
  {
    mean + (x - mean) / k as real
  }

  /** `m` is the mean after the sample. */
  function NextSpread(spread: real, mean: real, m: real, x: real): real {
    spread + (x - mean) * (x - m)
  }

  datatype Stat = Stat(mean: real, spread: real, n: nat) {
    /** One push.  `cap` is max_trackable; a negative cap never binds. */
    function Push(cap: int, x: real): Stat {
      var k := if cap < 0 || n < cap then n + 1 else n;
      if k == 0 then Stat(x, spread, 0)
      else
        var m := NextMean(mean, x, k);
        Stat(m, NextSpread(spread, mean, m, x), k)
    }

    function PushAll(cap: int, xs: seq<real>): Stat
      decreases |xs|
    {
      if xs == [] then this else PushAll(cap, xs[..|xs| - 1]).Push(cap, xs[|xs| - 1])
    }

    function Variance(): real { if n >= 2 then spread / (n - 1) as real else 0.0 }
  }

  class RunningStat {
    const maxTrackable: int
    var M: real
    var S: real
    var n: nat
    var mLast: real
    var sLast: real

    function View(): Stat
      reads this
    {
      Stat(M, S, n)
    }

    /** The cached previous values agree with the current ones; only a zero cap clears sLast alone. */
    predicate Valid()
      reads this
    {
      mLast == M && (sLast == S || (maxTrackable == 0 && n == 0))
    }

    constructor (mean: real, spread: real, n: nat, maxTrackable: int)
      ensures Valid() && View() == Stat(mean, spread, n) && this.maxTrackable == maxTrackable
    {
      this.maxTrackable := maxTrackable;
      M, S, this.n := mean, spread, n;
      mLast, sLast := mean, spread;
    }

    method Reset()
      modifies this
      ensures Valid() && View() == Stat(0.0, 0.0, 0)
    {
      M, S, mLast, sLast, n := 0.0, 0.0, 0.0, 0.0, 0;
    }

    method PushData(x: real)
      requires Valid()
      modifies this
      ensures Valid() && View() == old(View()).Push(maxTrackable, x)
    {
      hide NextMean, NextSpread;
      if maxTrackable < 0 || n < maxTrackable {
        n := n + 1;
      }
      if n == 0 {
        mLast := x;
        M := mLast;
        sLast := 0.0;
      } else {
        M := NextMean(mLast, x, n);
        S := NextSpread(sLast, mLast, M, x);
        mLast := M;
        sLast := S;
      }
    }
  }

  // ----- what the pushes amount to

  function SumOfSquares(xs: seq<real>, m: real): real {
    if xs == [] then 0.0 else SumOfSquares(xs[..|xs| - 1], m) + Square(xs[|xs| - 1] - m)
  }

  function Square(x: real): real { x * x }

  /** The total of the samples a statistic stands for, and the total of their squares. */
  function Mass(s: Stat): real { s.n as real * s.mean }

  function Moment(s: Stat): real { s.spread + s.n as real * (s.mean * s.mean) }

  lemma PushTotals(s: Stat, x: real)
    ensures var t := s.Push(-1, x);
      t.n == s.n + 1 && Mass(t) == Mass(s) + x && Moment(t) == Moment(s) + x * x
  {
    var t, k := s.Push(-1, x), (s.n + 1) as real;
    var q := (x - s.mean) / k;
    assert k * q == x - s.mean;
    assert t.mean == s.mean + q;
    assert k * t.mean == k * s.mean + k * q;
    assert k * s.mean == s.n as real * s.mean + s.mean;
    Squares(s.mean, t.mean, s.n as real, x);
  }

  lemma Squares(m: real, w: real, n: real, x: real)
    requires (n + 1.0) * w == n * m + x
    ensures (x - m) * (x - w) + (n + 1.0) * (w * w) == n * (m * m) + x * x
  {
    assert (n + 1.0) * (w * w) == ((n + 1.0) * w) * w;
    assert (n * m + x) * w == n * (m * w) + x * w;
    assert (x - m) * (x - w) == x * x - x * w - m * x + m * w;
    assert n * (m * w) + m * w == m * ((n + 1.0) * w);
    assert m * (n * m + x) == n * (m * m) + m * x;
  }

  lemma LastAdded(xs: seq<real>)
    requires xs != []
    ensures Sum(xs) == Sum(xs[..|xs| - 1]) + xs[|xs| - 1]
  {
    SumSnoc(xs[..|xs| - 1], xs[|xs| - 1]);
    assert xs == xs[..|xs| - 1] + [xs[|xs| - 1]];
  }

  lemma {:induction false} Totals(s: Stat, xs: seq<real>)
    ensures var t := s.PushAll(-1, xs);
      && t.n == s.n + |xs|
      && Mass(t) == Mass(s) + Sum(xs) && Moment(t) == Moment(s) + SumOfSquares(xs, 0.0)
    decreases |xs|
  {
    hide Stat.Push, Mass, Moment;
    if xs != [] {
      var j := |xs| - 1;
      Totals(s, xs[..j]);
      PushTotals(s.PushAll(-1, xs[..j]), xs[j]);
      LastAdded(xs);
      hide Sum;
    }
  }

  /** A sum of squares about 0, moved to be about `m`. */
  function Moved(squares: real, sum: real, n: nat, m: real): real {
    squares - 2.0 * (m * sum) + n as real * (m * m)
  }

  lemma {:induction false} Recentre(xs: seq<real>, m: real)
    ensures SumOfSquares(xs, m) == Moved(SumOfSquares(xs, 0.0), Sum(xs), |xs|, m)
    decreases |xs|
  {
    if xs != [] {
      var k := |xs| - 1;
      Recentre(xs[..k], m);
      LastAdded(xs);
      OneMoreSquare(SumOfSquares(xs[..k], 0.0), Sum(xs[..k]), k, xs[k], m);
      hide Sum, Square, Moved;
    }
  }

  lemma OneMoreSquare(squares: real, sum: real, n: nat, x: real, m: real)
    ensures Moved(squares, sum, n, m) + Square(x - m) == Moved(squares + Square(x - 0.0), sum + x, n + 1, m)
  {
    assert (x - m) * (x - m) == x * x - 2.0 * (m * x) + m * m;
    assert m * (sum + x) == m * sum + m * x;
    assert (n + 1) as real * (m * m) == n as real * (m * m) + m * m;
  }

  lemma PooledMeanFree(s: Stat, xs: seq<real>)
    requires s.n + |xs| > 0
    ensures s.PushAll(-1, xs).mean == (s.n as real * s.mean + Sum(xs)) / (s.n + |xs|) as real
  {
    hide Stat.Push, Stat.PushAll;
    Totals(s, xs);
    hide Sum, SumOfSquares, Moment;
    var k, m := (s.n + |xs|) as real, s.PushAll(-1, xs).mean;
    assert k * m == s.n as real * s.mean + Sum(xs);
    hide Mass;
    CancelFactor(k, m);
  }

  lemma PooledSpreadFree(s: Stat, xs: seq<real>)
    ensures var t := s.PushAll(-1, xs); var m := t.mean;
      t.spread == s.spread + s.n as real * ((s.mean - m) * (s.mean - m)) + SumOfSquares(xs, m)
  {
    hide Stat.Push, Stat.PushAll;
    Totals(s, xs);
    var t := s.PushAll(-1, xs);
    Recentre(xs, t.mean);
    hide Sum, SumOfSquares;
    assert t.n as real == s.n as real + |xs| as real;
    Pool(s.mean, t.mean, s.n as real, |xs| as real, Sum(xs), SumOfSquares(xs, 0.0), s.spread, t.spread);
  }

  /** The cap does not bind in a run that never reaches it. */
  predicate Uncapped(s: Stat, cap: int, xs: seq<real>) { cap < 0 || s.n + |xs| <= cap }

  lemma {:induction false} CapDoesNotBind(s: Stat, cap: int, xs: seq<real>)
    requires Uncapped(s, cap, xs)
    ensures s.PushAll(cap, xs) == s.PushAll(-1, xs) && s.PushAll(cap, xs).n == s.n + |xs|
    decreases |xs|
  {
    hide NextMean, NextSpread;
    if xs != [] {
      CapDoesNotBind(s, cap, xs[..|xs| - 1]);
    }
  }

  /** While the cap does not bind, the mean is the pooled mean ... */
  lemma PooledMean(s: Stat, cap: int, xs: seq<real>)
    requires s.n + |xs| > 0 && Uncapped(s, cap, xs)
    ensures s.PushAll(cap, xs).mean == (s.n as real * s.mean + Sum(xs)) / (s.n + |xs|) as real
  {
    hide Stat.PushAll, Sum, Uncapped;
    CapDoesNotBind(s, cap, xs);
    PooledMeanFree(s, xs);
  }

  /** ... and the spread is the pooled sum of squares about it. */
  lemma PooledSpread(s: Stat, cap: int, xs: seq<real>)
    requires Uncapped(s, cap, xs)
    ensures var t := s.PushAll(cap, xs); var m := t.mean;
      t.spread == s.spread + s.n as real * ((s.mean - m) * (s.mean - m)) + SumOfSquares(xs, m)
  {
    hide Stat.PushAll, SumOfSquares, Uncapped;
    CapDoesNotBind(s, cap, xs);
    PooledSpreadFree(s, xs);
  }

  lemma Pool(m0: real, m: real, a: real, b: real, sum: real, squares: real, spread0: real, spread: real)
    requires (a + b) * m == a * m0 + sum
    requires spread + (a + b) * (m * m) == spread0 + a * (m0 * m0) + squares
    ensures spread == spread0 + a * ((m0 - m) * (m0 - m)) + (squares - 2.0 * (m * sum) + b * (m * m))
  {
    assert a * ((m0 - m) * (m0 - m)) == a * (m0 * m0) - 2.0 * (a * (m0 * m)) + a * (m * m);
    assert m * ((a + b) * m) == a * (m * m) + b * (m * m);
    assert m * (a * m0 + sum) == a * (m0 * m) + m * sum;
  }

  lemma CancelFactor(k: real, m: real)
    requires k != 0.0
    ensures k * m / k == m
  {
    var q := k * m / k;
    assert q * k == k * m;
    assert (q - m) * k == 0.0;
  }

  /** Capped or not, a push moves the mean towards the sample and never lowers the spread. */
  lemma PushMovesTowards(s: Stat, cap: int, x: real)
    ensures var t := s.Push(cap, x);
      && t.spread >= s.spread
      && (s.mean <= x ==> s.mean <= t.mean <= x) && (x <= s.mean ==> x <= t.mean <= s.mean)
  {
    var k := if cap < 0 || s.n < cap then s.n + 1 else s.n;
    if k > 0 {
      MeanMovesTowards(s.mean, x, k);
      SpreadGrows(s.spread, s.mean, NextMean(s.mean, x, k), x);
      hide NextMean, NextSpread;
    }
  }

  lemma SpreadGrows(spread: real, mean: real, m: real, x: real)
    requires mean <= m <= x || x <= m <= mean
    ensures NextSpread(spread, mean, m, x) >= spread
  {
    SameSign(x - mean, x - m);
  }

  lemma MeanMovesTowards(mean: real, x: real, k: nat)
    requires k > 0
    ensures var m := NextMean(mean, x, k);
      (mean <= x ==> mean <= m <= x) && (x <= mean ==> x <= m <= mean)
  {
    var d := x - mean;
    var q := d / k as real;
    assert q * k as real == d;
    QuotientBetween(d, q, k as real);
  }

  lemma QuotientBetween(d: real, q: real, k: real)
    requires k >= 1.0 && q * k == d
    ensures if d >= 0.0 then 0.0 <= q <= d else d <= q <= 0.0
  {
    if q >= 0.0 {
      assert q * (k - 1.0) >= 0.0;
    } else {
      assert (-q) * (k - 1.0) >= 0.0;
    }
  }

  lemma SameSign(x: real, y: real)
    requires (x >= 0.0 && y >= 0.0) || (x <= 0.0 && y <= 0.0)
    ensures x * y >= 0.0
  {
  }

  /** Whatever the cap, the mean stays in any interval holding the prior and the data, and the spread
      never falls below the prior's. */
  lemma {:induction false} StaysInHull(s: Stat, cap: int, xs: seq<real>, lo: real, hi: real)
    requires lo <= s.mean <= hi && forall x | x in xs :: lo <= x <= hi
    ensures var t := s.PushAll(cap, xs);
      && lo <= t.mean <= hi && t.spread >= s.spread
      && t.n <= s.n + |xs| && (cap >= 0 ==> t.n <= if s.n >= cap then s.n else cap)
    decreases |xs|
  {
    if xs != [] {
      var k := |xs| - 1;
      assert xs[k] in xs && forall x | x in xs[..k] :: x in xs;
      StaysInHull(s, cap, xs[..k], lo, hi);
      PushMovesTowards(s.PushAll(cap, xs[..k]), cap, xs[k]);
    }
  }

  /** Once the cap is reached a sample weighs 1/n, and the count stays. */
  lemma CappedPush(s: Stat, cap: int, x: real)
    requires 0 <= cap <= s.n
    ensures var t, n := s.Push(cap, x), s.n as real;
      && t.n == s.n
      && (s.n == 0 ==> t.mean == x && t.spread == s.spread)
      && n * t.mean == (if s.n == 0 then 0.0 else (n - 1.0) * s.mean + x)
      && n * (t.spread - s.spread) == (if s.n == 0 then 0.0 else (n - 1.0) * Square(x - s.mean))
  {
    if s.n > 0 {
      var t, n, d := s.Push(cap, x), s.n as real, x - s.mean;
      var q := d / n;
      assert n * q == d && t.mean == s.mean + q;
      assert t.spread - s.spread == d * (d - q);
      assert n * (d * (d - q)) == n * (d * d) - d * (n * q);
    }
  }

  /** From then on it forgets: k samples of one value leave exactly (1 - 1/n)^k of the distance to it. */
  lemma CappedForgets(s: Stat, cap: int, x: real, k: nat)
    requires 0 <= cap <= s.n && s.n > 0
    ensures var t := s.PushAll(cap, seq(k, _ => x));
      t.n == s.n && t.mean - x == Power(1.0 - 1.0 / s.n as real, k) * (s.mean - x)
  {
    hide Stat.PushAll, Settle, Power;
    CappedSettles(s, cap, x, k);
    SettleIsGeometric(s.mean, 1.0 / s.n as real, x, k);
  }

  lemma {:induction false} CappedSettles(s: Stat, cap: int, x: real, k: nat)
    requires 0 <= cap <= s.n && s.n > 0
    ensures var t := s.PushAll(cap, seq(k, _ => x));
      t.n == s.n && t.mean == Settle(s.mean, 1.0 / s.n as real, x, k)
    decreases k
  {
    if k > 0 {
      CappedSettles(s, cap, x, k - 1);
      var xs := seq(k, _ => x);
      assert xs[..k - 1] == seq(k - 1, _ => x);
      Weighted(Settle(s.mean, 1.0 / s.n as real, x, k - 1), x, s.n);
      hide NextMean, NextSpread, FilterStep;
    }
  }

  lemma Weighted(mean: real, x: real, n: nat)
    requires n > 0
    ensures NextMean(mean, x, n) == FilterStep(mean, 1.0 / n as real, x)
  {
    var w, d := 1.0 / n as real, x - mean;
    assert w * n as real == 1.0;
    var q := d / n as real;
    assert q * n as real == d;
    assert (w * d) * n as real == d;
    assert (q - w * d) * n as real == 0.0;
  }

  // ----- the filter in front

  /** Feeds the filtered statistic only samples that do not widen the raw one; comparing variances
      stands for comparing standard deviations. */
  class RunningStatFilter {
    const raw: RunningStat
    const filtered: RunningStat

    predicate Valid()
      reads this, raw, filtered
    {
      raw != filtered && raw.Valid() && filtered.Valid() && raw.maxTrackable == -1
    }

    /** No prior is the same as a prior without samples. */
    constructor (rawPrior: Stat, filteredPrior: Stat, maxTrackable: int)
      ensures Valid() && fresh(raw) && fresh(filtered)
      ensures raw.View() == rawPrior && filtered.View() == filteredPrior
      ensures filtered.maxTrackable == maxTrackable
    {
      raw := new RunningStat(rawPrior.mean, rawPrior.spread, rawPrior.n, -1);
      filtered := new RunningStat(filteredPrior.mean, filteredPrior.spread, filteredPrior.n, maxTrackable);
    }

    method PushAndUpdate(x: real)
      requires Valid()
      modifies raw, filtered
      ensures Valid()
      ensures raw.View() == old(raw.View()).Push(-1, x)
      ensures filtered.View() ==
        if raw.View().Variance() <= old(raw.View()).Variance()
        then old(filtered.View()).Push(filtered.maxTrackable, x)
        else old(filtered.View())
    {
      hide Stat.Push;
      var before := raw.View().Variance();
      raw.PushData(x);
      if raw.View().Variance() - before <= 0.0 {
        filtered.PushData(x);
      }
    }
  }

  /** The numerator of the variance after one more sample. */
  function Widened(s: Stat, x: real): real { s.spread + (x - s.mean) * (x - s.Push(-1, x).mean) }

  /** Which samples are let through: the first of all always; the second only at the mean of a statistic without
      spread; from then on those within one raw variance of the mean, measured between the old mean and the new. */
  lemma LetThroughExactly(s: Stat, x: real)
    ensures s.n == 0 ==> s.Push(-1, x).Variance() <= s.Variance()
    ensures s.n == 1 ==> (s.Push(-1, x).Variance() <= s.Variance() <==> Widened(s, x) <= 0.0)
    ensures s.n == 1 && s.spread >= 0.0 ==> (Widened(s, x) <= 0.0 <==> s.spread == 0.0 && x == s.mean)
    ensures s.n >= 2 ==>
      (s.Push(-1, x).Variance() <= s.Variance() <==> (x - s.mean) * (x - s.Push(-1, x).mean) <= s.Variance())
  {
    if s.n == 1 {
      VarianceAfter(s, x);
      if s.spread >= 0.0 {
        SecondSample(s, x);
      }
      hide Stat.Push, Widened;
    } else if s.n >= 2 {
      LaterSample(s, x);
      hide Stat.Push, Stat.Variance;
    }
  }

  lemma VarianceAfter(s: Stat, x: real)
    requires s.n >= 1
    ensures s.Push(-1, x).n == s.n + 1 && s.Push(-1, x).Variance() == Widened(s, x) / s.n as real
  {
    hide NextMean;
  }

  lemma SecondSample(s: Stat, x: real)
    requires s.n == 1 && s.spread >= 0.0
    ensures Widened(s, x) <= 0.0 <==> s.spread == 0.0 && x == s.mean
  {
    var d, h := x - s.mean, x - s.Push(-1, x).mean;
    assert h == d / 2.0;
    hide Stat.Push;
    HalfSquare(d, h);
    assert Widened(s, x) == s.spread + d * h;
    hide Widened;
  }

  lemma LaterSample(s: Stat, x: real)
    requires s.n >= 2
    ensures s.Push(-1, x).Variance() <= s.Variance() <==> (x - s.mean) * (x - s.Push(-1, x).mean) <= s.Variance()
  {
    VarianceAfter(s, x);
    var d, k := (x - s.mean) * (x - s.Push(-1, x).mean), (s.n - 1) as real;
    assert Widened(s, x) == s.spread + d && s.n as real == k + 1.0;
    hide Stat.Push, Widened;
    CompareQuotients(s.spread, d, k, s.Push(-1, x).Variance(), s.Variance());
  }

  lemma HalfSquare(d: real, h: real)
    requires d == 2.0 * h
    ensures d * h >= 0.0 && (d * h == 0.0 <==> d == 0.0)
  {
    SameSign(d, h);
    if h > 0.0 {
      PositiveProduct(d, h);
    } else if h < 0.0 {
      PositiveProduct(-d, -h);
      assert d * h == (-d) * (-h);
    }
  }

  lemma CompareQuotients(spread: real, d: real, k: real, w: real, v: real)
    requires k > 0.0 && v == spread / k && w == (spread + d) / (k + 1.0)
    ensures w <= v <==> d <= v
  {
    Undivided(v, spread, k);
    Undivided(w, spread + d, k + 1.0);
    assert (w - v) * (k + 1.0) == d - v;
    if w > v {
      PositiveProduct(w - v, k + 1.0);
    } else {
      AtLeastProduct(v, w, k + 1.0);
    }
  }

  lemma Undivided(q: real, x: real, k: real)
    requires k > 0.0 && q == x / k
    ensures q * k == x
  {
  }
}
