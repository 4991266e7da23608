/** The smallest FFT-friendly size: the least product of powers of 2, 3, 5, 7 and 11 that is at least n. */
module FftSize {
  function Pow(b: nat, e: nat): nat { if e == 0 then 1 else b * Pow(b, e - 1) }

  function Product(a: nat, b: nat, c: nat, d: nat, e: nat): nat {
    1 * Pow(2, a) * Pow(3, b) * Pow(5, c) * Pow(7, d) * Pow(11, e)
  }

  ghost predicate Smooth(n: int) { exists a: nat, b: nat, c: nat, d: nat, e: nat :: n == Product(a, b, c, d, e) }

  lemma {:induction false} PowGrows(b: nat, e: nat, k: nat)
    requires b >= 2 && e <= k
    ensures 1 <= Pow(b, e) <= Pow(b, k)
    decreases k
  {
    if k > e {
      PowGrows(b, e, k - 1);
    } else if e > 0 {
      PowGrows(b, e - 1, e - 1);
    }
  }

  lemma ScaledPowGrows(f: nat, b: nat, e: nat, k: nat)
    requires b >= 2 && e <= k
    ensures f <= f * Pow(b, e) <= f * Pow(b, k)
  {
    PowGrows(b, e, k);
    PowGrows(b, 0, e);
    Monotone(f, 1, Pow(b, e));
    Monotone(f, Pow(b, e), Pow(b, k));
  }

  lemma Monotone(f: nat, x: nat, y: nat)
    requires x <= y
    ensures f * x <= f * y
  {
  }

  // ----- what the loops have ruled out

  /** No multiple of `f` by powers of the given primes lies in [n, best). */
  ghost predicate Clear(f: nat, primes: seq<nat>, n: int, best: int)
    decreases |primes|
  {
    if primes == [] then !(n <= f < best)
    else forall e: nat :: Clear(f * Pow(primes[0], e), primes[1..], n, best)
  }

  /** The same with the exponent of the first prime below `k`. */
  ghost predicate ClearBelow(f: nat, p: nat, rest: seq<nat>, k: nat, n: int, best: int) {
    forall e: nat | e < k :: Clear(f * Pow(p, e), rest, n, best)
  }

  predicate Primes(primes: seq<nat>) { forall p | p in primes :: p >= 2 }

  lemma {:induction false} Shrink(f: nat, primes: seq<nat>, n: int, best: int, less: int)
    requires less <= best && Clear(f, primes, n, best)
    ensures Clear(f, primes, n, less)
    decreases |primes|
  {
    if primes != [] {
      forall e: nat ensures Clear(f * Pow(primes[0], e), primes[1..], n, less) {
        Shrink(f * Pow(primes[0], e), primes[1..], n, best, less);
      }
    }
  }

  lemma ShrinkBelow(f: nat, p: nat, rest: seq<nat>, k: nat, n: int, best: int, less: int)
    requires less <= best && ClearBelow(f, p, rest, k, n, best)
    ensures ClearBelow(f, p, rest, k, n, less)
  {
    forall e: nat | e < k ensures Clear(f * Pow(p, e), rest, n, less) {
      Shrink(f * Pow(p, e), rest, n, best, less);
    }
  }

  /** Multiples of a number that is not below best are not below best. */
  lemma {:induction false} Past(f: nat, primes: seq<nat>, n: int, best: int)
    requires f >= best && Primes(primes)
    ensures Clear(f, primes, n, best)
    decreases |primes|
  {
    if primes != [] {
      assert primes[0] in primes && forall p | p in primes[1..] :: p in primes;
      forall e: nat ensures Clear(f * Pow(primes[0], e), primes[1..], n, best) {
        ScaledPowGrows(f, primes[0], 0, e);
        Past(f * Pow(primes[0], e), primes[1..], n, best);
      }
    }
  }

  lemma Finish(f: nat, p: nat, rest: seq<nat>, k: nat, n: int, best: int)
    requires ClearBelow(f, p, rest, k, n, best) && f * Pow(p, k) >= best && Primes([p] + rest)
    ensures Clear(f, [p] + rest, n, best)
  {
    assert ([p] + rest)[0] == p && ([p] + rest)[1..] == rest;
    assert p in [p] + rest;
    forall e: nat ensures Clear(f * Pow(p, e), rest, n, best) {
      if e >= k {
        ScaledPowGrows(f, p, k, e);
        assert Primes(rest) by { forall q | q in rest ensures q >= 2 { assert q in [p] + rest; } }
        Past(f * Pow(p, e), rest, n, best);
      }
    }
  }

  /** One more exponent, after the inner loops may have lowered best. */
  lemma Advance(f: nat, p: nat, rest: seq<nat>, k: nat, n: int, best: int, less: int)
    requires less <= best && ClearBelow(f, p, rest, k, n, best) && Clear(f * Pow(p, k), rest, n, less)
    ensures ClearBelow(f, p, rest, k + 1, n, less)
    ensures f * Pow(p, k + 1) == f * Pow(p, k) * p
  {
    ShrinkBelow(f, p, rest, k, n, best, less);
    assert Pow(p, k + 1) == p * Pow(p, k);
  }

  lemma Begin(f: nat, p: nat, rest: seq<nat>, n: int, best: int)
    ensures ClearBelow(f, p, rest, 0, n, best) && f * Pow(p, 0) == f
  {
  }

  lemma Innermost(f: nat, n: int, best: int)
    ensures Clear(f, [], n, best) <==> !(n <= f < best)
  {
  }

  lemma IsSmooth(a: nat, b: nat, c: nat, d: nat, e: nat)
    ensures Smooth(Product(a, b, c, d, e))
  {
  }

  /** A power of two lies in [n, 2n), so the search always finds something. */
  lemma {:induction false} PowerOfTwoBetween(n: nat) returns (a: nat)
    requires n >= 1
    ensures n <= Pow(2, a) < 2 * n && Pow(2, a) == Product(a, 0, 0, 0, 0)
    decreases n
  {
    if n == 1 {
      a := 0;
    } else {
      var h := PowerOfTwoBetween((n + 1) / 2);
      a := if Pow(2, h) >= n then h else h + 1;
      assert Pow(2, h + 1) == 2 * Pow(2, h);
    }
  }

  lemma NothingSmoothBetween(n: int, best: int, m: int)
    requires Clear(1, [2, 3, 5, 7, 11], n, best) && Smooth(m)
    ensures !(n <= m < best)
  {
    var a: nat, b: nat, c: nat, d: nat, e: nat :| m == Product(a, b, c, d, e);
    hide Pow, Clear;
    var f2 := 1 * Pow(2, a);
    var f23 := f2 * Pow(3, b);
    var f235 := f23 * Pow(5, c);
    var f2357 := f235 * Pow(7, d);
    ClearAt(1, 2, [3, 5, 7, 11], a, n, best);
    ClearAt(f2, 3, [5, 7, 11], b, n, best);
    ClearAt(f23, 5, [7, 11], c, n, best);
    ClearAt(f235, 7, [11], d, n, best);
    ClearAt(f2357, 11, [], e, n, best);
    Innermost(m, n, best);
  }

  lemma ClearAt(f: nat, p: nat, rest: seq<nat>, e: nat, n: int, best: int)
    ensures Clear(f, [p] + rest, n, best) ==> Clear(f * Pow(p, e), rest, n, best)
    ensures [2] + [3, 5, 7, 11] == [2, 3, 5, 7, 11] && [3] + [5, 7, 11] == [3, 5, 7, 11]
    ensures [5] + [7, 11] == [5, 7, 11] && [7] + [11] == [7, 11] && [11] + [] == [11]
  {
    assert ([p] + rest)[0] == p && ([p] + rest)[1..] == rest;
  }

  /** Smooth without the prime `p`. */
  ghost predicate Divided(n: int, p: nat) { p > 0 && n > 0 && n % p == 0 && Smooth(n / p) }

  /** Smooth means that dividing by 2, 3, 5, 7 and 11, wherever they divide, can end at 1. */
  lemma SmoothExactly(n: int)
    ensures Smooth(n) <==>
              (n == 1 || Divided(n, 2) || Divided(n, 3) || Divided(n, 5) || Divided(n, 7) || Divided(n, 11))
  {
    IsSmooth(0, 0, 0, 0, 0);
    assert Product(0, 0, 0, 0, 0) == 1;
    if Smooth(n) {
      var a: nat, b: nat, c: nat, d: nat, e: nat :| n == Product(a, b, c, d, e);
      Peel(a, b, c, d, e);
    }
    hide Product, Smooth;
    forall p | p in [2, 3, 5, 7, 11] && Divided(n, p) ensures Smooth(n) {
      Multiplied(n / p, p);
    }
  }

  lemma Multiplied(m: int, p: nat)
    requires Smooth(m) && p in [2, 3, 5, 7, 11]
    ensures Smooth(p * m)
  {
    var a: nat, b: nat, c: nat, d: nat, e: nat :| m == Product(a, b, c, d, e);
    OneMoreFactor(a, b, c, d, e);
    if p == 2 {
      IsSmooth(a + 1, b, c, d, e);
    } else if p == 3 {
      IsSmooth(a, b + 1, c, d, e);
    } else if p == 5 {
      IsSmooth(a, b, c + 1, d, e);
    } else if p == 7 {
      IsSmooth(a, b, c, d + 1, e);
    } else {
      IsSmooth(a, b, c, d, e + 1);
    }
  }

  lemma OneMoreFactor(a: nat, b: nat, c: nat, d: nat, e: nat)
    ensures var m := Product(a, b, c, d, e);
      && Product(a + 1, b, c, d, e) == 2 * m && Product(a, b + 1, c, d, e) == 3 * m
      && Product(a, b, c + 1, d, e) == 5 * m && Product(a, b, c, d + 1, e) == 7 * m
      && Product(a, b, c, d, e + 1) == 11 * m
  {
    PowNext(2, a);
    PowNext(3, b);
    PowNext(5, c);
    PowNext(7, d);
    PowNext(11, e);
    hide Pow;
    Regroup(Pow(2, a), Pow(3, b), Pow(5, c), Pow(7, d), Pow(11, e));
  }

  lemma PowNext(b: nat, e: nat)
    ensures Pow(b, e + 1) == b * Pow(b, e)
  {
  }

  lemma Regroup(a: nat, b: nat, c: nat, d: nat, e: nat)
    ensures 1 * (2 * a) * b * c * d * e == 2 * (1 * a * b * c * d * e)
    ensures 1 * a * (3 * b) * c * d * e == 3 * (1 * a * b * c * d * e)
    ensures 1 * a * b * (5 * c) * d * e == 5 * (1 * a * b * c * d * e)
    ensures 1 * a * b * c * (7 * d) * e == 7 * (1 * a * b * c * d * e)
    ensures 1 * a * b * c * d * (11 * e) == 11 * (1 * a * b * c * d * e)
  {
  }

  /** A product other than 1 has a factor to take away. */
  lemma Peel(a: nat, b: nat, c: nat, d: nat, e: nat)
    ensures var n := Product(a, b, c, d, e);
      n == 1 || Divided(n, 2) || Divided(n, 3) || Divided(n, 5) || Divided(n, 7) || Divided(n, 11)
  {
    if a > 0 {
      OneMoreFactor(a - 1, b, c, d, e);
      TakeAway(2, a - 1, b, c, d, e);
    } else if b > 0 {
      OneMoreFactor(a, b - 1, c, d, e);
      TakeAway(3, a, b - 1, c, d, e);
    } else if c > 0 {
      OneMoreFactor(a, b, c - 1, d, e);
      TakeAway(5, a, b, c - 1, d, e);
    } else if d > 0 {
      OneMoreFactor(a, b, c, d - 1, e);
      TakeAway(7, a, b, c, d - 1, e);
    } else if e > 0 {
      OneMoreFactor(a, b, c, d, e - 1);
      TakeAway(11, a, b, c, d, e - 1);
    }
    hide Product, Divided;
  }

  lemma TakeAway(p: nat, a: nat, b: nat, c: nat, d: nat, e: nat)
    requires p in [2, 3, 5, 7, 11]
    ensures Divided(p * Product(a, b, c, d, e), p)
  {
    IsSmooth(a, b, c, d, e);
    ProductPositive(a, b, c, d, e);
    hide Product, Smooth;
    DividesBack(p, Product(a, b, c, d, e));
  }

  lemma DividesBack(p: nat, m: int)
    requires p in [2, 3, 5, 7, 11]
    ensures (p * m) % p == 0 && (p * m) / p == m
  {
    if p == 2 {
      assert (2 * m) / 2 == m;
    } else if p == 3 {
      assert (3 * m) / 3 == m;
    } else if p == 5 {
      assert (5 * m) / 5 == m;
    } else if p == 7 {
      assert (7 * m) / 7 == m;
    } else {
      assert (11 * m) / 11 == m;
    }
  }

  lemma ProductPositive(a: nat, b: nat, c: nat, d: nat, e: nat)
    ensures Product(a, b, c, d, e) > 0
  {
    PowGrows(2, 0, a);
    PowGrows(3, 0, b);
    PowGrows(5, 0, c);
    PowGrows(7, 0, d);
    PowGrows(11, 0, e);
    hide Pow;
    PositiveFactors(Pow(2, a), Pow(3, b), Pow(5, c), Pow(7, d), Pow(11, e));
  }

  lemma PositiveFactors(a: nat, b: nat, c: nat, d: nat, e: nat)
    requires a > 0 && b > 0 && c > 0 && d > 0 && e > 0
    ensures 1 * a * b * c * d * e > 0
  {
    assert 1 * a * b > 0;
    assert 1 * a * b * c > 0;
    assert 1 * a * b * c * d > 0;
  }

  /** Up to 6 every positive number is itself smooth. */
  lemma SmallAreSmooth(n: int)
    requires 1 <= n <= 6
    ensures Smooth(n)
  {
    assert Pow(2, 1) == 2 && Pow(2, 2) == 4 && Pow(3, 1) == 3 && Pow(5, 1) == 5;
    assert n == match n case 1 => Product(0, 0, 0, 0, 0) case 2 => Product(1, 0, 0, 0, 0) case 3 => Product(0, 1, 0, 0, 0)
                case 4 => Product(2, 0, 0, 0, 0) case 5 => Product(0, 0, 1, 0, 0) case _ => Product(1, 1, 0, 0, 0);
  }

  /** Returns the least smooth number that is at least n. */
  method FftNextGoodSize(n: int) returns (best: int)
    ensures n >= 1 ==> Smooth(best) && best >= n && forall m | n <= m < best :: !Smooth(m)
    ensures n < 1 ==> best == n
  {
    if n <= 6 {
      if n >= 1 {
        SmallAreSmooth(n);
      }
      return n;
    }
    hide Pow, Clear, ClearBelow, Smooth, Product;
    best := 2 * n;
    var f2 := 1;
    ghost var a := 0;
    Begin(1, 2, [3, 5, 7, 11], n, best);
    while f2 < best
      invariant f2 == 1 * Pow(2, a) >= 1 && n <= best && (best == 2 * n || Smooth(best)) && best <= 2 * n
      invariant ClearBelow(1, 2, [3, 5, 7, 11], a, n, best)
      decreases best - f2
    {
      ghost var best2 := best;
      var f23 := f2;
      ghost var b := 0;
      Begin(f2, 3, [5, 7, 11], n, best);
      while f23 < best
        invariant f23 == f2 * Pow(3, b) >= 1 && n <= best <= best2 && (best == 2 * n || Smooth(best))
        invariant ClearBelow(f2, 3, [5, 7, 11], b, n, best)
        decreases best - f23
      {
        ghost var best3 := best;
        var f235 := f23;
        ghost var c := 0;
        Begin(f23, 5, [7, 11], n, best);
        while f235 < best
          invariant f235 == f23 * Pow(5, c) >= 1 && n <= best <= best3 && (best == 2 * n || Smooth(best))
          invariant ClearBelow(f23, 5, [7, 11], c, n, best)
          decreases best - f235
        {
          ghost var best5 := best;
          var f2357 := f235;
          ghost var d := 0;
          Begin(f235, 7, [11], n, best);
          while f2357 < best
            invariant f2357 == f235 * Pow(7, d) >= 1 && n <= best <= best5 && (best == 2 * n || Smooth(best))
            invariant ClearBelow(f235, 7, [11], d, n, best)
            decreases best - f2357
          {
            ghost var best7 := best;
            var f235711 := f2357;
            ghost var e := 0;
            Begin(f2357, 11, [], n, best);
            while f235711 < best
              invariant f235711 == f2357 * Pow(11, e) >= 1 && n <= best <= best7 && (best == 2 * n || Smooth(best))
              invariant ClearBelow(f2357, 11, [], e, n, best)
              decreases best - f235711
            {
              ghost var before := best;
              FoundSmooth(a, b, c, d, e, f2, f23, f235, f2357);
              best := if f235711 >= n then f235711 else best;
              Innermost(f235711, n, best);
              Advance(f2357, 11, [], e, n, before, best);
              f235711 := f235711 * 11;
              e := e + 1;
            }
            Finish(f2357, 11, [], e, n, best);
            assert [11] + [] == [11];
            Advance(f235, 7, [11], d, n, best7, best);
            f2357 := f2357 * 7;
            d := d + 1;
          }
          Finish(f235, 7, [11], d, n, best);
          assert [7] + [11] == [7, 11];
          Advance(f23, 5, [7, 11], c, n, best5, best);
          f235 := f235 * 5;
          c := c + 1;
        }
        Finish(f23, 5, [7, 11], c, n, best);
        assert [5] + [7, 11] == [5, 7, 11];
        Advance(f2, 3, [5, 7, 11], b, n, best3, best);
        f23 := f23 * 3;
        b := b + 1;
      }
      Finish(f2, 3, [5, 7, 11], b, n, best);
      assert [3] + [5, 7, 11] == [3, 5, 7, 11];
      Advance(1, 2, [3, 5, 7, 11], a, n, best2, best);
      f2 := f2 * 2;
      a := a + 1;
    }
    Finish(1, 2, [3, 5, 7, 11], a, n, best);
    assert [2] + [3, 5, 7, 11] == [2, 3, 5, 7, 11];
    LeastSmooth(n, best);
  }

  lemma FoundSmooth(a: nat, b: nat, c: nat, d: nat, e: nat, f2: nat, f23: nat, f235: nat, f2357: nat)
    requires f2 == 1 * Pow(2, a) && f23 == f2 * Pow(3, b) && f235 == f23 * Pow(5, c) && f2357 == f235 * Pow(7, d)
    ensures Smooth(f2357 * Pow(11, e))
  {
    IsSmooth(a, b, c, d, e);
  }

  lemma LeastSmooth(n: nat, best: int)
    requires n >= 1 && best <= 2 * n && (best == 2 * n || Smooth(best)) && Clear(1, [2, 3, 5, 7, 11], n, best)
    ensures Smooth(best) && forall m | n <= m < best :: !Smooth(m)
  {
    forall m | n <= m < best ensures !Smooth(m) {
      if Smooth(m) {
        NothingSmoothBetween(n, best, m);
      }
    }
    var k := PowerOfTwoBetween(n);
    IsSmooth(k, 0, 0, 0, 0);
  }
}
