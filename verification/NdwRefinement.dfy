/** The grid index and the region snapshot against a scan of all signs. */
module NdwRefinement {
  import opened Wrappers
  import opened Reals
  import opened Sequences
  import opened NdwMatch

  // ----- how far away an accepted sign can be

  /** On each axis the sign is within the search radius. */
  predicate WithinRadius(p: Pose, s: Sign) {
    Abs(North(p, s)) <= SEARCH_RADIUS && Abs(East(p, s)) <= SEARCH_RADIUS
  }

  predicate AcceptedAreNear(p: Pose, states: map<string, Display>, signs: seq<Sign>) {
    forall s | s in signs && InBox(p, s) && s.uuid in states :: WithinRadius(p, s)
  }

  /** The acceptance box is turned with the heading, so a sign can be a little farther away along an axis
      than the radius, by less than 16 cm. */
  lemma AcceptedIsAlmostNear(p: Pose, s: Sign)
    requires p.Valid() && InBox(p, s)
    ensures North(p, s) * North(p, s) + East(p, s) * East(p, s) <= 2000.0 * 2000.0 + 25.0 * 25.0
    ensures Abs(North(p, s)) < 2000.16 && Abs(East(p, s)) < 2000.16
  {
    var n, e, a, c := North(p, s), East(p, s), Along(p, s), Cross(p, s);
    Rotation(n, e, p.north, p.east);
    SquareBound(a, 2000.0);
    SquareBound(c, 25.0);
    RootBound(n, e);
    RootBound(e, n);
    hide North, East;
  }

  lemma Rotation(n: real, e: real, hn: real, he: real)
    requires he * he + hn * hn == 1.0
    ensures var a, c := e * he + n * hn, -e * hn + n * he; a * a + c * c == n * n + e * e
  {
    var a, c := e * he + n * hn, -e * hn + n * he;
    assert a * a == e * e * (he * he) + 2.0 * (e * he * (n * hn)) + n * n * (hn * hn);
    assert c * c == e * e * (hn * hn) - 2.0 * (e * hn * (n * he)) + n * n * (he * he);
    assert e * he * (n * hn) == e * hn * (n * he);
    assert e * e * (he * he) + e * e * (hn * hn) == e * e * (he * he + hn * hn);
    assert n * n * (he * he) + n * n * (hn * hn) == n * n * (he * he + hn * hn);
  }

  lemma SquareBound(x: real, b: real)
    requires Abs(x) <= b
    ensures x * x <= b * b
  {
    assert (b - x) * (b + x) >= 0.0;
  }

  lemma RootBound(x: real, y: real)
    requires x * x + y * y <= 2000.0 * 2000.0 + 25.0 * 25.0
    ensures Abs(x) < 2000.16
  {
    assert y * y >= 0.0;
    assert x * x == Abs(x) * Abs(x);
    if Abs(x) >= 2000.16 {
      SquareGrows(Abs(x));
    }
  }

  lemma SquareGrows(x: real)
    requires x >= 2000.16
    ensures x * x >= 2000.16 * 2000.16
  {
    assert (x - 2000.16) * (x + 2000.16) >= 0.0;
  }

  // ----- the window covers what is near

  lemma DividedBound(d: real, m: real, b: real)
    requires m > 0.0 && -b <= d * m <= b
    ensures -(b / m) <= d <= b / m
  {
    var q := b / m;
    assert q * m == b && (-q) * m == -b;
    if d > q {
      LargerProduct(d, q, m);
    } else if d < -q {
      LargerProduct(-q, d, m);
    }
  }

  /** Near on each axis means inside the spans in degrees. */
  lemma NearIsInSpans(p: Pose, s: Sign)
    requires p.Valid() && WithinRadius(p, s)
    ensures p.lat - p.LatSpan() <= s.lat <= p.lat + p.LatSpan()
    ensures p.lon - p.LonSpan() <= s.lon <= p.lon + p.LonSpan()
  {
    var n, e, m, c := s.lat - p.lat, s.lon - p.lon, p.metres, p.cosLat;
    assert North(p, s) == n * m && East(p, s) == e * m * c;
    Associate(e, m, c);
    PositiveProduct(m, c);
    hide North, East;
    DividedBound(n, m, SEARCH_RADIUS);
    DividedBound(e, m * c, SEARCH_RADIUS);
    QuotientOfQuotient(SEARCH_RADIUS, m, c);
    assert p.LonSpan() == SEARCH_RADIUS / m / c;
  }

  lemma Associate(x: real, y: real, z: real)
    ensures x * y * z == x * (y * z)
  {
  }

  lemma QuotientOfQuotient(b: real, m: real, c: real)
    requires m > 0.0 && c > 0.0
    ensures m * c != 0.0 && b / (m * c) == b / m / c
  {
    PositiveProduct(m, c);
    var q := b / m / c;
    assert q * c == b / m;
    assert (q * c) * m == b;
    assert q * (m * c) == b;
  }

  predicate InWindow(lo: Cell, top: int, right: int, s: Sign) {
    var c := CellOf(s.lat, s.lon);
    lo.0 <= c.0 < top && lo.1 <= c.1 < right
  }

  lemma NearIsInWindow(p: Pose, s: Sign)
    requires p.Valid() && WithinRadius(p, s)
    ensures InWindow(Low(p), High(p).0 + 1, High(p).1 + 1, s)
  {
    NearIsInSpans(p, s);
    hide WithinRadius, Pose.LatSpan, Pose.LonSpan;
  }

  // ----- the window holds each sign of its cells once

  function Once(b: bool, s: Sign): multiset<Sign> { if b then multiset{s} else multiset{} }

  lemma {:induction false} RowSnoc(signs: seq<Sign>, s: Sign, i: int, lo: int, hi: int)
    ensures var c := CellOf(s.lat, s.lon);
      multiset(Row(signs + [s], i, lo, hi)) == multiset(Row(signs, i, lo, hi)) + Once(c.0 == i && lo <= c.1 < hi, s)
    decreases hi - lo
  {
    hide CellOf, InCell;
    if lo < hi {
      RowSnoc(signs, s, i, lo, hi - 1);
      InCellSnoc(signs, s, (i, hi - 1));
      var c := CellOf(s.lat, s.lon);
      assert multiset(InCell(signs + [s], (i, hi - 1))) == multiset(InCell(signs, (i, hi - 1))) + Once(c == (i, hi - 1), s);
      OnceSplits(c.0 == i && lo <= c.1 < hi - 1, c == (i, hi - 1), s);
      assert (c.0 == i && lo <= c.1 < hi) == ((c.0 == i && lo <= c.1 < hi - 1) || c == (i, hi - 1));
      hide Once;
    }
  }

  lemma OnceSplits(a: bool, b: bool, s: Sign)
    requires !(a && b)
    ensures Once(a || b, s) == Once(a, s) + Once(b, s)
  {
  }

  lemma InCellSnoc(signs: seq<Sign>, s: Sign, c: Cell)
    ensures InCell(signs + [s], c) == InCell(signs, c) + if CellOf(s.lat, s.lon) == c then [s] else []
  {
    assert (signs + [s])[..|signs|] == signs;
  }

  lemma {:induction false} WindowSnoc(signs: seq<Sign>, s: Sign, lo: Cell, top: int, right: int)
    ensures multiset(Window(signs + [s], lo, top, right)) == multiset(Window(signs, lo, top, right))
      + Once(InWindow(lo, top, right, s), s)
    decreases top - lo.0
  {
    hide CellOf, Row;
    if lo.0 < top {
      WindowSnoc(signs, s, lo, top - 1, right);
      RowSnoc(signs, s, top - 1, lo.1, right);
      var c := CellOf(s.lat, s.lon);
      OnceSplits(InWindow(lo, top - 1, right, s), c.0 == top - 1 && lo.1 <= c.1 < right, s);
      assert InWindow(lo, top, right, s) == (InWindow(lo, top - 1, right, s) || (c.0 == top - 1 && lo.1 <= c.1 < right));
      hide Once, InWindow;
    }
  }

  function FilterWindow(signs: seq<Sign>, lo: Cell, top: int, right: int): seq<Sign> {
    if signs == [] then []
    else
      var k := |signs| - 1;
      FilterWindow(signs[..k], lo, top, right) + if InWindow(lo, top, right, signs[k]) then [signs[k]] else []
  }

  lemma {:induction false} RowOfNothing(i: int, lo: int, hi: int)
    ensures Row([], i, lo, hi) == []
    decreases hi - lo
  {
    if lo < hi {
      RowOfNothing(i, lo, hi - 1);
    }
  }

  lemma {:induction false} WindowOfNothing(lo: Cell, top: int, right: int)
    ensures Window([], lo, top, right) == []
    decreases top - lo.0
  {
    if lo.0 < top {
      WindowOfNothing(lo, top - 1, right);
      RowOfNothing(top - 1, lo.1, right);
    }
  }

  lemma {:induction false} WindowHoldsCells(signs: seq<Sign>, lo: Cell, top: int, right: int)
    ensures multiset(Window(signs, lo, top, right)) == multiset(FilterWindow(signs, lo, top, right))
    decreases |signs|
  {
    if signs == [] {
      WindowOfNothing(lo, top, right);
    } else {
      var k := |signs| - 1;
      assert signs == signs[..k] + [signs[k]];
      WindowHoldsCells(signs[..k], lo, top, right);
      WindowSnoc(signs[..k], signs[k], lo, top, right);
      hide Window, InWindow;
    }
  }

  // ----- grid against full scan

  lemma {:induction false} HitsAppend(p: Pose, states: map<string, Display>, a: seq<Sign>, b: seq<Sign>)
    ensures Hits(p, states, a + b) == Hits(p, states, a) + Hits(p, states, b)
    decreases |b|
  {
    hide HitOf;
    if b == [] {
      assert a + b == a;
    } else {
      var k := |b| - 1;
      assert (a + b)[..|a + b| - 1] == a + b[..k];
      HitsAppend(p, states, a, b[..k]);
    }
  }

  lemma HitsOne(p: Pose, states: map<string, Display>, s: Sign)
    ensures Hits(p, states, [s]) == HitOf(p, states, s)
  {
    hide HitOf;
    assert Hits(p, states, [s]) == Hits(p, states, []) + HitOf(p, states, s);
  }

  /** Reordering the signs reorders the hits. */
  lemma {:induction false} HitsReordered(p: Pose, states: map<string, Display>, a: seq<Sign>, b: seq<Sign>)
    requires multiset(a) == multiset(b)
    ensures multiset(Hits(p, states, a)) == multiset(Hits(p, states, b))
    decreases |a|
  {
    hide Hits;
    if a == [] {
      assert |b| == |multiset(b)| == |multiset(a)| == 0;
      assert a == b;
    } else {
      var u, v := TakeOut(a, b);
      HitsReordered(p, states, a[1..], u + v);
      assert a == [a[0]] + a[1..];
      HitsAppend(p, states, [a[0]], a[1..]);
      HitsAppend(p, states, u + [a[0]], v);
      HitsAppend(p, states, u, [a[0]]);
      HitsAppend(p, states, u, v);
    }
  }

  /** The cells of the window hold every accepted sign. */
  predicate AcceptedInWindow(p: Pose, states: map<string, Display>, signs: seq<Sign>, lo: Cell, top: int, right: int) {
    forall s | s in signs && HitOf(p, states, s) != [] :: InWindow(lo, top, right, s)
  }

  lemma {:induction false} FilterHits(p: Pose, states: map<string, Display>, signs: seq<Sign>, lo: Cell, top: int, right: int)
    ensures var kept, all := Hits(p, states, FilterWindow(signs, lo, top, right)), Hits(p, states, signs);
      if AcceptedInWindow(p, states, signs, lo, top, right) then kept == all else |kept| < |all|
    decreases |signs|
  {
    hide HitOf, InWindow;
    if signs != [] {
      var k := |signs| - 1;
      var s := signs[k];
      FilterHits(p, states, signs[..k], lo, top, right);
      var kept := FilterWindow(signs[..k], lo, top, right);
      HitsAppend(p, states, kept, [s]);
      HitsOne(p, states, s);
      assert signs == signs[..k] + [s];
      assert AcceptedInWindow(p, states, signs, lo, top, right)
        == (AcceptedInWindow(p, states, signs[..k], lo, top, right) && (HitOf(p, states, s) != [] ==> InWindow(lo, top, right, s)));
      assert kept + [] == kept;
      hide AcceptedInWindow;
    }
  }

  /** The grid scan accepts the signs a scan of all of them accepts, each as often, exactly when every accepted
      sign lies in a cell between the two corners. */
  lemma GridIsExact(p: Pose, states: map<string, Display>, signs: seq<Sign>)
    requires p.Valid()
    ensures multiset(Hits(p, states, Nearby(signs, p))) == multiset(Hits(p, states, signs))
        <==> AcceptedInWindow(p, states, signs, Low(p), High(p).0 + 1, High(p).1 + 1)
  {
    hide Hits, Window, FilterWindow, AcceptedInWindow, Low, High;
    var lo, top, right := Low(p), High(p).0 + 1, High(p).1 + 1;
    WindowHoldsCells(signs, lo, top, right);
    HitsReordered(p, states, Window(signs, lo, top, right), FilterWindow(signs, lo, top, right));
    FilterHits(p, states, signs, lo, top, right);
    assert |multiset(Hits(p, states, signs))| == |Hits(p, states, signs)|;
    assert |multiset(Hits(p, states, FilterWindow(signs, lo, top, right)))| == |Hits(p, states, FilterWindow(signs, lo, top, right))|;
  }

  /** In particular when every accepted sign is within the radius on each axis. */
  lemma GridEqualsScan(p: Pose, states: map<string, Display>, signs: seq<Sign>)
    requires p.Valid() && AcceptedAreNear(p, states, signs)
    ensures multiset(Hits(p, states, Nearby(signs, p))) == multiset(Hits(p, states, signs))
  {
    GridIsExact(p, states, signs);
    hide Hits, InBox, InWindow, WithinRadius, Low, High;
    forall s | s in signs && HitOf(p, states, s) != []
      ensures InWindow(Low(p), High(p).0 + 1, High(p).1 + 1, s)
    {
      assert WithinRadius(p, s);
      NearIsInWindow(p, s);
    }
  }
}
