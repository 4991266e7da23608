/** How far the acceptance box reaches when it is turned with the heading, and what that makes of the grid. */
module NdwReach {
  import opened Wrappers
  import opened Reals
  import opened NdwMatch
  import opened NdwRefinement

  /** How far north and how far east the acceptance box reaches, turned with the heading. */
  function NorthReach(p: Pose): real { SEARCH_RADIUS * Abs(p.north) + MAX_CROSS_TRACK * Abs(p.east) }

  function EastReach(p: Pose): real { SEARCH_RADIUS * Abs(p.east) + MAX_CROSS_TRACK * Abs(p.north) }

  /** Near a compass direction, though not at it, the turned box reaches beyond the radius on an axis. */
  predicate Overhangs(p: Pose) { NorthReach(p) > SEARCH_RADIUS || EastReach(p) > SEARCH_RADIUS }

  lemma Unrotate(p: Pose, s: Sign)
    requires p.Valid()
    ensures North(p, s) == Along(p, s) * p.north + Cross(p, s) * p.east
    ensures East(p, s) == Along(p, s) * p.east - Cross(p, s) * p.north
  {
    hide North, East;
    TurnBack(North(p, s), East(p, s), p.north, p.east);
  }

  lemma TurnBack(n: real, e: real, hn: real, he: real)
    requires he * he + hn * hn == 1.0
    ensures var a, c := e * he + n * hn, -e * hn + n * he; n == a * hn + c * he && e == a * he - c * hn
  {
    var a, c := e * he + n * hn, -e * hn + n * he;
    assert a * hn == e * (he * hn) + n * (hn * hn);
    assert c * he == -e * (he * hn) + n * (he * he);
    assert a * he == e * (he * he) + n * (he * hn);
    assert c * hn == -e * (hn * hn) + n * (he * hn);
    assert n * (hn * hn) + n * (he * he) == n * (he * he + hn * hn);
    assert e * (he * he) + e * (hn * hn) == e * (he * he + hn * hn);
  }

  lemma ProductBound(x: real, bound: real, h: real)
    requires Abs(x) <= bound
    ensures -bound * Abs(h) <= x * h <= bound * Abs(h)
  {
    AtLeastProduct(bound, x, Abs(h));
    AtLeastProduct(x, -bound, Abs(h));
    assert x * h == x * Abs(h) || x * h == -(x * Abs(h));
  }

  lemma Reach(a: real, c: real, h: real, k: real, x: real)
    requires Abs(a) <= SEARCH_RADIUS && Abs(c) <= MAX_CROSS_TRACK && x == a * h + c * k
    ensures Abs(x) <= SEARCH_RADIUS * Abs(h) + MAX_CROSS_TRACK * Abs(k)
  {
    ProductBound(a, SEARCH_RADIUS, h);
    ProductBound(c, MAX_CROSS_TRACK, k);
  }

  lemma AcceptedBounds(p: Pose, s: Sign)
    requires InBox(p, s)
    ensures Abs(Along(p, s)) <= SEARCH_RADIUS && Abs(Cross(p, s)) <= MAX_CROSS_TRACK
  {
  }

  lemma AcceptedIsWithinReach(p: Pose, s: Sign)
    requires p.Valid() && InBox(p, s)
    ensures Abs(North(p, s)) <= NorthReach(p) && Abs(East(p, s)) <= EastReach(p)
  {
    hide Along, Cross, North, East, InBox, Pose.Valid;
    AcceptedBounds(p, s);
    Unrotate(p, s);
    var a, c := Along(p, s), Cross(p, s);
    Reach(a, c, p.north, p.east, North(p, s));
    EastWithinReach(p, a, c, East(p, s));
    hide EastReach, Abs;
  }

  lemma EastWithinReach(p: Pose, a: real, c: real, e: real)
    requires Abs(a) <= SEARCH_RADIUS && Abs(c) <= MAX_CROSS_TRACK && e == a * p.east - c * p.north
    ensures Abs(e) <= EastReach(p)
  {
    var d := -c;
    assert e == a * p.east + d * p.north;
    Reach(a, d, p.east, p.north, e);
  }

  /** Metres north or east of the pose, in degrees. */
  function DegreesNorth(p: Pose, n: real): real
    requires p.Valid()
  {
    n / p.metres
  }

  function DegreesEast(p: Pose, e: real): real
    requires p.Valid()
  {
    PositiveProduct(p.metres, p.cosLat);
    e / (p.metres * p.cosLat)
  }

  /** The sign at `a` metres along and `c` across. */
  function SignAt(p: Pose, a: real, c: real): Sign
    requires p.Valid()
  {
    Sign("", "", "", 1, 0.0, "", p.heading, p.lat + DegreesNorth(p, a * p.north + c * p.east),
         p.lon + DegreesEast(p, a * p.east - c * p.north))
  }

  lemma SignAtIsThere(p: Pose, a: real, c: real)
    requires p.Valid()
    ensures var s := SignAt(p, a, c);
      && North(p, s) == a * p.north + c * p.east && East(p, s) == a * p.east - c * p.north
      && Along(p, s) == a && Cross(p, s) == c
      && (Abs(a) <= SEARCH_RADIUS && Abs(c) <= MAX_CROSS_TRACK ==> InBox(p, s))
  {
    var n, e := a * p.north + c * p.east, a * p.east - c * p.north;
    var s := SignAt(p, a, c);
    PositiveProduct(p.metres, p.cosLat);
    Offset(p.lat, n, p.metres);
    Offset(p.lon, e, p.metres * p.cosLat);
    Associate(s.lon - p.lon, p.metres, p.cosLat);
    assert North(p, s) == n && East(p, s) == e;
    hide North, East, SignAt;
    TurnBack(-c, a, p.east, p.north);
    TurnedThere(a, c, p.north, p.east);
    SameBearing(p.heading);
    hide BearingDelta;
  }

  lemma TurnedThere(a: real, c: real, hn: real, he: real)
    requires he * he + hn * hn == 1.0
    ensures var n, e := a * hn + c * he, a * he - c * hn; e * he + n * hn == a && -e * hn + n * he == c
  {
    var n, e := a * hn + c * he, a * he - c * hn;
    assert e * he == a * (he * he) - c * (hn * he);
    assert n * hn == a * (hn * hn) + c * (hn * he);
    assert e * hn == a * (hn * he) - c * (hn * hn);
    assert n * he == a * (hn * he) + c * (he * he);
    assert a * (he * he) + a * (hn * hn) == a * (he * he + hn * hn);
    assert c * (he * he) + c * (hn * hn) == c * (he * he + hn * hn);
  }

  lemma Offset(x: real, d: real, m: real)
    requires m > 0.0
    ensures (x + d / m - x) * m == d
  {
    var q := d / m;
    assert q * m == d;
    assert x + q - x == q;
  }

  lemma SameBearing(a: real)
    ensures BearingDelta(a, a) == 0.0
  {
    assert a - a + 180.0 == 180.0;
    assert Mod360(180.0) == 180.0;
  }

  lemma OffsetOf(p: Pose, s: Sign)
    requires p.Valid()
    ensures s.lat == p.lat + DegreesNorth(p, North(p, s)) && s.lon == p.lon + DegreesEast(p, East(p, s))
  {
    PositiveProduct(p.metres, p.cosLat);
    Associate(s.lon - p.lon, p.metres, p.cosLat);
    Cancel(s.lat - p.lat, p.metres, North(p, s));
    Cancel(s.lon - p.lon, p.metres * p.cosLat, East(p, s));
  }

  lemma Cancel(d: real, m: real, b: real)
    requires m > 0.0 && d * m == b
    ensures d == b / m
  {
  }

  // ----- the corners

  lemma SignedTimes(b: real, x: real)
    ensures (if x < 0.0 then -b else b) * x == b * Abs(x)
  {
  }

  /** A corner of the box: ahead or behind by the sign of `u`, to a side by the sign of `v`. */
  function Corner(p: Pose, u: real, v: real): Sign
    requires p.Valid()
  {
    SignAt(p, if u < 0.0 then -SEARCH_RADIUS else SEARCH_RADIUS, if v < 0.0 then -MAX_CROSS_TRACK else MAX_CROSS_TRACK)
  }

  /** The corner in the direction of `k`, which is 1 for north and -1 for south. */
  lemma NorthCorner(p: Pose, k: real)
    requires p.Valid() && (k == 1.0 || k == -1.0)
    ensures var s := Corner(p, k * p.north, k * p.east); InBox(p, s) && North(p, s) == k * NorthReach(p)
  {
    var u, v := k * p.north, k * p.east;
    var a := if u < 0.0 then -SEARCH_RADIUS else SEARCH_RADIUS;
    var c := if v < 0.0 then -MAX_CROSS_TRACK else MAX_CROSS_TRACK;
    SignAtIsThere(p, a, c);
    SignedTimes(SEARCH_RADIUS, u);
    SignedTimes(MAX_CROSS_TRACK, v);
    hide InBox, North, East, Along, Cross, SignAt;
    assert Abs(u) == Abs(p.north) && Abs(v) == Abs(p.east);
  }

  /** The same for 1 for east and -1 for west. */
  lemma EastCorner(p: Pose, k: real)
    requires p.Valid() && (k == 1.0 || k == -1.0)
    ensures var s := Corner(p, k * p.east, -k * p.north); InBox(p, s) && East(p, s) == k * EastReach(p)
  {
    var u, v := k * p.east, -k * p.north;
    var a := if u < 0.0 then -SEARCH_RADIUS else SEARCH_RADIUS;
    var c := if v < 0.0 then -MAX_CROSS_TRACK else MAX_CROSS_TRACK;
    SignAtIsThere(p, a, c);
    SignedTimes(SEARCH_RADIUS, u);
    SignedTimes(MAX_CROSS_TRACK, v);
    hide InBox, North, East, Along, Cross, SignAt;
    assert Abs(u) == Abs(p.east) && Abs(v) == Abs(p.north);
  }

  // ----- the reach in degrees

  function ReachLat(p: Pose): real
    requires p.Valid()
  {
    DegreesNorth(p, NorthReach(p))
  }

  function ReachLon(p: Pose): real
    requires p.Valid()
  {
    DegreesEast(p, EastReach(p))
  }

  lemma QuotientOrder(x: real, y: real, m: real)
    requires m > 0.0
    ensures x > y <==> x / m > y / m
  {
    var q, r := x / m, y / m;
    assert q * m == x && r * m == y;
    if q > r {
      LargerProduct(q, r, m);
    } else {
      AtLeastProduct(r, q, m);
    }
  }

  lemma OppositeQuotient(x: real, m: real)
    requires m > 0.0
    ensures (-x) / m == -(x / m)
  {
    var q := x / m;
    assert q * m == x && (-q) * m == -x;
  }

  /** Degrees keep the order and the sign of metres, and the spans are the radius in degrees. */
  lemma DegreesInOrder(p: Pose, x: real, y: real)
    requires p.Valid()
    ensures DegreesNorth(p, x) > DegreesNorth(p, y) <==> x > y
    ensures DegreesEast(p, x) > DegreesEast(p, y) <==> x > y
  {
    PositiveProduct(p.metres, p.cosLat);
    QuotientOrder(x, y, p.metres);
    QuotientOrder(x, y, p.metres * p.cosLat);
  }

  lemma DegreesOpposite(p: Pose, x: real)
    requires p.Valid()
    ensures DegreesNorth(p, -x) == -DegreesNorth(p, x) && DegreesEast(p, -x) == -DegreesEast(p, x)
  {
    PositiveProduct(p.metres, p.cosLat);
    OppositeQuotient(x, p.metres);
    OppositeQuotient(x, p.metres * p.cosLat);
  }

  lemma SpansInDegrees(p: Pose)
    requires p.Valid()
    ensures p.LatSpan() == DegreesNorth(p, SEARCH_RADIUS) && p.LonSpan() == DegreesEast(p, SEARCH_RADIUS)
  {
    PositiveProduct(p.metres, p.cosLat);
    QuotientOfQuotient(SEARCH_RADIUS, p.metres, p.cosLat);
  }

  /** Accepted signs lie within the reach. */
  lemma AcceptedIsWithinDegrees(p: Pose, s: Sign)
    requires p.Valid() && InBox(p, s)
    ensures p.lat - ReachLat(p) <= s.lat <= p.lat + ReachLat(p)
    ensures p.lon - ReachLon(p) <= s.lon <= p.lon + ReachLon(p)
  {
    hide InBox, North, East, NorthReach, EastReach, DegreesNorth, DegreesEast;
    AcceptedIsWithinReach(p, s);
    OffsetOf(p, s);
    var n, e := NorthReach(p), EastReach(p);
    DegreesInOrder(p, North(p, s), n);
    DegreesInOrder(p, -n, North(p, s));
    DegreesInOrder(p, East(p, s), e);
    DegreesInOrder(p, -e, East(p, s));
    DegreesOpposite(p, n);
    DegreesOpposite(p, e);
    hide Pose.Valid;
  }

  /** ... and on each of the four sides one lies just there. */
  lemma ReachIsAttained(p: Pose) returns (n: Sign, s: Sign, e: Sign, w: Sign)
    requires p.Valid()
    ensures InBox(p, n) && InBox(p, s) && InBox(p, e) && InBox(p, w)
    ensures n.lat == p.lat + ReachLat(p) && s.lat == p.lat - ReachLat(p)
    ensures e.lon == p.lon + ReachLon(p) && w.lon == p.lon - ReachLon(p)
    ensures North(p, n) == NorthReach(p) && East(p, e) == EastReach(p)
  {
    hide InBox, North, East, NorthReach, EastReach, Corner, DegreesNorth, DegreesEast;
    n := NorthSign(p, 1.0);
    s := NorthSign(p, -1.0);
    e := EastSign(p, 1.0);
    w := EastSign(p, -1.0);
    DegreesOpposite(p, NorthReach(p));
    DegreesOpposite(p, EastReach(p));
    hide Pose.Valid;
  }

  lemma NorthSign(p: Pose, k: real) returns (s: Sign)
    requires p.Valid() && (k == 1.0 || k == -1.0)
    ensures InBox(p, s) && North(p, s) == k * NorthReach(p) && s.lat == p.lat + DegreesNorth(p, k * NorthReach(p))
  {
    hide InBox, North, East, NorthReach, Corner, DegreesNorth, DegreesEast;
    s := Corner(p, k * p.north, k * p.east);
    NorthCorner(p, k);
    OffsetOf(p, s);
  }

  lemma EastSign(p: Pose, k: real) returns (s: Sign)
    requires p.Valid() && (k == 1.0 || k == -1.0)
    ensures InBox(p, s) && East(p, s) == k * EastReach(p) && s.lon == p.lon + DegreesEast(p, k * EastReach(p))
  {
    hide InBox, North, East, EastReach, Corner, DegreesNorth, DegreesEast;
    s := Corner(p, k * p.east, -k * p.north);
    EastCorner(p, k);
    OffsetOf(p, s);
  }

  /** The reach exceeds the radius in metres exactly when it exceeds the span in degrees. */
  lemma OverhangInDegrees(p: Pose)
    requires p.Valid()
    ensures NorthReach(p) > SEARCH_RADIUS <==> ReachLat(p) > p.LatSpan()
    ensures EastReach(p) > SEARCH_RADIUS <==> ReachLon(p) > p.LonSpan()
  {
    hide NorthReach, EastReach, DegreesNorth, DegreesEast, Pose.LatSpan, Pose.LonSpan;
    SpansInDegrees(p);
    DegreesInOrder(p, NorthReach(p), SEARCH_RADIUS);
    DegreesInOrder(p, EastReach(p), SEARCH_RADIUS);
  }

  // ----- for which headings the radius is enough

  lemma NoOverhang(p: Pose, s: Sign)
    requires p.Valid() && !Overhangs(p) && InBox(p, s)
    ensures WithinRadius(p, s)
  {
    AcceptedIsWithinReach(p, s);
    hide North, East, InBox, NorthReach, EastReach, Abs;
  }

  /** Every sign that can be accepted is within the radius on each axis if and only if nothing overhangs. */
  lemma HeadingDecides(p: Pose)
    requires p.Valid()
    ensures (forall s | InBox(p, s) :: WithinRadius(p, s)) <==> !Overhangs(p)
  {
    if Overhangs(p) {
      var n, s, e, w := ReachIsAttained(p);
      hide InBox, North, East, NorthReach, EastReach;
      assert !WithinRadius(p, n) || !WithinRadius(p, e);
    } else {
      hide InBox, WithinRadius, Overhangs;
      forall s | InBox(p, s) ensures WithinRadius(p, s) {
        NoOverhang(p, s);
      }
    }
  }

  /** Less than a degree off north, the box overhangs. */
  lemma SomeHeadingOverhangs(metres: real, cosLat: real)
    requires metres > 0.0 && cosLat >= MIN_COS
    ensures var p := Pose(0.0, 0.0, 0.0, 320.0 / 25601.0, 25599.0 / 25601.0, cosLat, metres); p.Valid() && Overhangs(p)
  {
  }

  // ----- the grid, exactly

  /** The cells at the ends of the reach are visited. */
  predicate ReachIsVisited(p: Pose)
    requires p.Valid()
  {
    var least, most := CellOf(p.lat - ReachLat(p), p.lon - ReachLon(p)), CellOf(p.lat + ReachLat(p), p.lon + ReachLon(p));
    Low(p).0 <= least.0 && Low(p).1 <= least.1 && most.0 <= High(p).0 && most.1 <= High(p).1
  }

  /** At any pose the grid visits the cells of all signs that would be accepted if and only if it visits those at
      the ends of the reach. */
  lemma GridHoldsExactly(p: Pose)
    requires p.Valid()
    ensures (forall s | InBox(p, s) :: InWindow(Low(p), High(p).0 + 1, High(p).1 + 1, s)) <==> ReachIsVisited(p)
  {
    hide InBox, Low, High, ReachLat, ReachLon, Pose.Valid;
    if ReachIsVisited(p) {
      forall s | InBox(p, s) ensures InWindow(Low(p), High(p).0 + 1, High(p).1 + 1, s) {
        AcceptedIsWithinDegrees(p, s);
      }
    } else {
      var n, s, e, w := ReachIsAttained(p);
      hide North, East, NorthReach, EastReach;
    }
  }

  /** The pose whose reach ends just on the edge of the given row and column of cells. */
  function RimPose(p: Pose, row: int, column: int): Pose
    requires p.Valid()
  {
    p.(lat := row as real / CELLS_PER_DEGREE - ReachLat(p), lon := column as real / CELLS_PER_DEGREE - ReachLon(p))
  }

  /** So near the edges of any row and column it leaves out a sign if and only if the box overhangs. */
  lemma RimSignIsNotVisited(p: Pose, row: int, column: int)
    requires p.Valid()
    ensures var q := RimPose(p, row, column);
      q.Valid() && (Overhangs(p) <==> exists s :: InBox(q, s) && !InWindow(Low(q), High(q).0 + 1, High(q).1 + 1, s))
  {
    var q := RimPose(p, row, column);
    RimPoseFacts(p, row, column);
    OverhangInDegrees(q);
    GridHoldsExactly(q);
    RimIsVisited(q, row, column);
    hide InBox, InWindow, NorthReach, EastReach, RimPose, ReachIsVisited;
  }

  lemma RimPoseFacts(p: Pose, row: int, column: int)
    requires p.Valid()
    ensures var q := RimPose(p, row, column);
      && q.Valid() && NorthReach(q) == NorthReach(p) && EastReach(q) == EastReach(p)
      && q.lat + ReachLat(q) == row as real / CELLS_PER_DEGREE && q.lon + ReachLon(q) == column as real / CELLS_PER_DEGREE
  {
    var q := RimPose(p, row, column);
    assert NorthReach(q) == NorthReach(p) && EastReach(q) == EastReach(p);
    hide NorthReach, EastReach;
    assert ReachLat(q) == ReachLat(p) && ReachLon(q) == ReachLon(p);
    hide ReachLat, ReachLon;
  }

  lemma RimIsVisited(q: Pose, row: int, column: int)
    requires q.Valid()
    requires q.lat + ReachLat(q) == row as real / CELLS_PER_DEGREE && q.lon + ReachLon(q) == column as real / CELLS_PER_DEGREE
    ensures ReachIsVisited(q) <==> ReachLat(q) <= q.LatSpan() && ReachLon(q) <= q.LonSpan()
  {
    hide ReachLat, ReachLon, Pose.Valid, Pose.LatSpan, Pose.LonSpan;
  }

  // ----- acceptance, in the coordinates of pose and sign

  /** Accepted are the signs whose bearing is within 40 degrees of the heading, at most 2000 m along it and at most
      25 m to a side, by flat coordinates around the pose. */
  lemma AcceptedExactly(p: Pose, s: Sign, n: real, e: real)
    requires n == (s.lat - p.lat) * p.metres && e == (s.lon - p.lon) * p.metres * p.cosLat
    ensures InBox(p, s) <==>
        && (exists k :: -40.0 <= Turn(s.bearing, p.heading, k) <= 40.0)
        && -2000.0 <= e * p.east + n * p.north <= 2000.0 && -25.0 <= n * p.east - e * p.north <= 25.0
  {
    WithinForty(s.bearing, p.heading);
    hide BearingDelta, Turn;
    assert North(p, s) == n && East(p, s) == e;
    hide North, East;
    AlongAndCross(p, s, n, e);
    BoxSays(p, s, e * p.east + n * p.north, n * p.east - e * p.north);
    hide Along, Cross, InBox;
  }

  lemma BoxSays(p: Pose, s: Sign, along: real, cross: real)
    requires Along(p, s) == along && Cross(p, s) == cross
    ensures InBox(p, s) <==>
      BearingDelta(s.bearing, p.heading) <= 40.0 && -2000.0 <= along <= 2000.0 && -25.0 <= cross <= 25.0
  {
    hide Along, Cross, BearingDelta;
  }

  lemma WithinForty(a: real, b: real)
    ensures BearingDelta(a, b) <= 40.0 <==> exists k :: -40.0 <= Turn(a, b, k) <= 40.0
  {
    BearingDeltaIsLeast(a, b);
    hide BearingDelta, Turn;
    if k :| -40.0 <= Turn(a, b, k) <= 40.0 {
      assert BearingDelta(a, b) <= Abs(Turn(a, b, k)) <= 40.0;
    } else {
      var k :| Abs(Turn(a, b, k)) == BearingDelta(a, b);
      assert !(-40.0 <= Turn(a, b, k) <= 40.0);
    }
  }

  lemma AlongAndCross(p: Pose, s: Sign, n: real, e: real)
    requires North(p, s) == n && East(p, s) == e
    ensures Along(p, s) == e * p.east + n * p.north && Cross(p, s) == n * p.east - e * p.north
  {
    hide North, East;
    assert -e * p.north == -(e * p.north);
  }
}
