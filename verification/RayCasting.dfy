/** Ray-casting point-in-polygon on (lat, lon) rings, over exact reals. */
module RayCasting {
  import opened Reals

  datatype Point = Point(lat: real, lon: real)

  type Path = seq<Point>

  predicate Straddles(lat: real, a: Point, b: Point) { (a.lat > lat) != (b.lat > lat) }

  /** Where the edge from `a` to `b` meets the latitude. */
  function CrossingLon(lat: real, a: Point, b: Point): real
    requires Straddles(lat, a, b)
  {
    (b.lon - a.lon) * (lat - a.lat) / (b.lat - a.lat) + a.lon
  }

  /** The ray east from `p` crosses the edge. */
  predicate Crosses(p: Point, a: Point, b: Point) {
    Straddles(p.lat, a, b) && p.lon < CrossingLon(p.lat, a, b)
  }

  /** The code's loop; `j` trails `i` around the ring. */
  method PointInRing(p: Point, ring: Path) returns (inside: bool)
    ensures inside == InRing(p, ring)
  {
    hide CrossingLon;
    inside := false;
    var n := |ring|;
    var j := n - 1;
    for i := 0 to n
      invariant j == if i == 0 then n - 1 else i - 1
      invariant i > 0 ==> inside == (Crosses(p, ring[0], ring[n - 1]) != Parity(p, ring[..i]))
      invariant i == 0 ==> !inside
    {
      if (ring[i].lat > p.lat) != (ring[j].lat > p.lat) {
        if p.lon < CrossingLon(p.lat, ring[i], ring[j]) {
          inside := !inside;
        }
      }
      j := i;
      if i > 0 {
        CrossesIsSymmetric(p, ring[i - 1], ring[i]);
        assert ring[..i + 1][..i] == ring[..i];
      } else {
        assert ring[..1] == [ring[0]];
      }
    }
    if n > 0 {
      assert ring[..n] == ring;
      CrossesIsSymmetric(p, ring[0], ring[n - 1]);
      assert (ring + [ring[0]])[..n] == ring;
    }
  }

  /** Whether an odd number of the path's edges is crossed. */
  predicate Parity(p: Point, path: Path) {
    if |path| < 2 then false
    else
      var k := |path| - 1;
      Parity(p, path[..k]) != Crosses(p, path[k - 1], path[k])
  }

  /** The ring closed by its first point. */
  predicate InRing(p: Point, ring: Path) { ring != [] && Parity(p, ring + [ring[0]]) }

  method PointInPolygon(p: Point, outer: Path, holes: seq<Path>) returns (inside: bool)
    ensures inside <==> InRing(p, outer) && forall h | h in holes :: !InRing(p, h)
  {
    var o := PointInRing(p, outer);
    if !o {
      return false;
    }
    for k := 0 to |holes|
      invariant forall h | h in holes[..k] :: !InRing(p, h)
    {
      var h := PointInRing(p, holes[k]);
      if h {
        return false;
      }
      assert holes[..k + 1] == holes[..k] + [holes[k]];
    }
    assert holes[..|holes|] == holes;
    return true;
  }

  // ----- edges

  lemma CrossesIsSymmetric(p: Point, a: Point, b: Point)
    ensures Crosses(p, a, b) == Crosses(p, b, a)
  {
    if Straddles(p.lat, a, b) {
      CrossingIsSymmetric(p.lat, a, b);
    }
  }

  /** `p` lies strictly to the west of the upward edge from `a` to `b`. */
  predicate WestOf(p: Point, a: Point, b: Point) {
    (p.lon - a.lon) * (b.lat - a.lat) < (b.lon - a.lon) * (p.lat - a.lat)
  }

  /** An edge is crossed exactly by the points beside it that lie strictly west, its lower end included and its
      upper end not. */
  lemma CrossesExactly(p: Point, a: Point, b: Point)
    ensures Crosses(p, a, b) <==> (a.lat <= p.lat < b.lat && WestOf(p, a, b)) || (b.lat <= p.lat < a.lat && WestOf(p, b, a))
  {
    if a.lat <= p.lat < b.lat {
      CrossesUpward(p, a, b);
    } else if b.lat <= p.lat < a.lat {
      CrossesUpward(p, b, a);
      CrossesIsSymmetric(p, a, b);
    }
    hide WestOf, CrossingLon;
  }

  lemma CrossesUpward(p: Point, a: Point, b: Point)
    requires a.lat <= p.lat < b.lat
    ensures Crosses(p, a, b) <==> WestOf(p, a, b)
  {
    var d, n, x := b.lat - a.lat, (b.lon - a.lon) * (p.lat - a.lat), p.lon - a.lon;
    var q := n / d;
    assert q * d == n;
    assert Crosses(p, a, b) <==> x < q;
    assert WestOf(p, a, b) <==> x * d < q * d;
    if x < q {
      LargerProduct(q, x, d);
    } else {
      AtLeastProduct(x, q, d);
    }
  }

  /** A rectangle holds its southern and western sides, and not the other two. */
  lemma RectangleExactly(p: Point, south: real, west: real, north: real, east: real)
    requires south <= north && west <= east
    ensures InRing(p, [Point(south, west), Point(south, east), Point(north, east), Point(north, west)])
            <==> south <= p.lat < north && west <= p.lon < east
  {
    var sw, se, ne, nw := Point(south, west), Point(south, east), Point(north, east), Point(north, west);
    Level(p, south, west, east);
    Upright(p, south, north, east);
    Level(p, north, east, west);
    Upright(p, south, north, west);
    CrossesIsSymmetric(p, sw, nw);
    hide Crosses;
    ParityNext(p, [sw, se], ne);
    ParityNext(p, [sw, se, ne], nw);
    ParityNext(p, [sw, se, ne, nw], sw);
    EdgeParity(p, sw, se);
    assert [sw] + [se] == [sw, se] && [sw, se] + [ne] == [sw, se, ne] && [sw, se, ne] + [nw] == [sw, se, ne, nw];
  }

  lemma ParityNext(p: Point, path: Path, b: Point)
    requires path != []
    ensures Parity(p, path + [b]) == (Parity(p, path) != Crosses(p, path[|path| - 1], b))
  {
    assert (path + [b])[..|path|] == path;
  }

  lemma Upright(p: Point, south: real, north: real, lon: real)
    requires south <= north
    ensures Crosses(p, Point(south, lon), Point(north, lon)) <==> south <= p.lat < north && p.lon < lon
  {
  }

  lemma Level(p: Point, lat: real, from: real, to: real)
    ensures !Crosses(p, Point(lat, from), Point(lat, to))
  {
  }

  lemma CrossingIsSymmetric(lat: real, a: Point, b: Point)
    requires Straddles(lat, a, b)
    ensures CrossingLon(lat, a, b) == CrossingLon(lat, b, a)
  {
    var d := b.lat - a.lat;
    var u, v := (b.lon - a.lon) * (lat - a.lat), (a.lon - b.lon) * (lat - b.lat);
    assert v - u == (a.lon - b.lon) * ((lat - b.lat) + (lat - a.lat));
    assert (a.lon - b.lon) * (lat - b.lat) == (b.lon - a.lon) * (b.lat - lat);
    assert u + v == (b.lon - a.lon) * d;
    Quotient(u, v, b.lon - a.lon, d);
  }

  lemma Quotient(u: real, v: real, w: real, d: real)
    requires d != 0.0 && u + v == w * d
    ensures u / d - v / (-d) == w
  {
    assert v / (-d) == -(v / d);
    assert u / d + v / d == (u + v) / d;
  }

  // ----- paths

  /** Two paths that share a vertex: their crossings add up. */
  lemma {:induction false} ParityJoins(p: Point, a: Path, v: Point, b: Path)
    ensures Parity(p, a + [v] + b) == (Parity(p, a + [v]) != Parity(p, [v] + b))
    decreases |b|
  {
    hide CrossingLon;
    if b == [] {
      assert a + [v] + b == a + [v] && [v] + b == [v];
    } else {
      var k := |b| - 1;
      ParityJoins(p, a, v, b[..k]);
      var whole, right := a + [v] + b, [v] + b;
      assert whole[..|whole| - 1] == a + [v] + b[..k];
      assert right[..|right| - 1] == [v] + b[..k];
      assert whole[|whole| - 2] == right[|right| - 2];
    }
  }

  function Reversed(path: Path): (r: Path)
    ensures |r| == |path|
  {
    if path == [] then [] else Reversed(path[1..]) + [path[0]]
  }

  lemma {:induction false} ReversedSnoc(path: Path, v: Point)
    ensures Reversed(path + [v]) == [v] + Reversed(path)
    decreases |path|
  {
    if path != [] {
      assert (path + [v])[1..] == path[1..] + [v];
      ReversedSnoc(path[1..], v);
    }
  }

  lemma {:induction false} ParityReversed(p: Point, path: Path)
    ensures Parity(p, Reversed(path)) == Parity(p, path)
    decreases |path|
  {
    hide CrossingLon;
    if |path| >= 2 {
      var k := |path| - 1;
      var u, v := path[k - 1], path[k];
      assert path == path[..k] + [v] && path[..k] == path[..k - 1] + [u];
      ReversedSnoc(path[..k], v);
      ReversedSnoc(path[..k - 1], u);
      ParityReversed(p, path[..k]);
      var rest := Reversed(path[..k - 1]);
      ParityJoins(p, [v], u, rest);
      assert [v] + [u] + rest == [v] + ([u] + rest);
      EdgeParity(p, v, u);
      CrossesIsSymmetric(p, u, v);
    } else if |path| == 1 {
      assert Reversed(path[1..]) == [];
    }
  }

  lemma EdgeParity(p: Point, u: Point, v: Point)
    ensures Parity(p, [u] + [v]) == Crosses(p, u, v)
  {
    assert ([u] + [v])[..1] == [u];
  }

  // ----- rings

  /** A chord from u to v splits the ring u a v b; both parts count it, so it cancels. */
  lemma ChordAdditive(p: Point, u: Point, a: Path, v: Point, b: Path)
    ensures InRing(p, [u] + a + [v] + b) == (InRing(p, [u] + a + [v]) != InRing(p, [v] + b + [u]))
  {
    hide CrossingLon, Parity;
    ClosedParts(p, u, a, v, b);
    ClosedParts(p, u, a, v, []);
    ClosedParts(p, v, b, u, []);
    assert [u] + a + [v] + [] == [u] + a + [v] && [v] + b + [u] + [] == [v] + b + [u];
    assert [v] + [] + [u] == [v] + [u] && [u] + [] + [v] == [u] + [v];
    assert [v] + b + [u] == [v] + (b + [u]);
    EdgeParity(p, v, u);
    EdgeParity(p, u, v);
    CrossesIsSymmetric(p, u, v);
  }

  /** The ring u a v b is the path u a v followed by the path v b u. */
  lemma ClosedParts(p: Point, u: Point, a: Path, v: Point, b: Path)
    ensures InRing(p, [u] + a + [v] + b) == (Parity(p, [u] + a + [v]) != Parity(p, [v] + b + [u]))
  {
    hide CrossingLon, Parity;
    var ring := [u] + a + [v] + b;
    ParityJoins(p, [u] + a, v, b + [u]);
    assert ring + [ring[0]] == ([u] + a) + [v] + (b + [u]);
    assert [v] + (b + [u]) == [v] + b + [u];
  }

  /** Where the ring starts does not matter. */
  lemma RotationInvariant(p: Point, ring: Path, k: nat)
    requires k <= |ring|
    ensures InRing(p, ring[k..] + ring[..k]) == InRing(p, ring)
  {
    hide CrossingLon, Parity;
    if 0 < k < |ring| {
      var u, v := ring[0], ring[k];
      var a, b := ring[1..k], ring[k + 1..];
      assert ring == [u] + a + [v] + b;
      assert ring[k..] + ring[..k] == [v] + b + [u] + a;
      ClosedParts(p, u, a, v, b);
      ClosedParts(p, v, b, u, a);
    } else {
      assert ring[k..] + ring[..k] == ring;
    }
  }

  lemma ReversalInvariant(p: Point, ring: Path)
    ensures InRing(p, Reversed(ring)) == InRing(p, ring)
  {
    hide CrossingLon, Parity;
    if ring != [] {
      var u, rest := ring[0], ring[1..];
      assert ring == [u] + rest;
      ReversedSnoc(ring, u);
      ParityReversed(p, ring + [u]);
      assert Reversed(ring) == Reversed(rest) + [u];
      var r := Reversed(rest) + [u];
      RotationInvariant(p, r, |r| - 1);
      assert r[|r| - 1..] + r[..|r| - 1] == [u] + Reversed(rest);
      assert ([u] + Reversed(rest)) + [u] == [u] + Reversed(ring);
    }
  }

  /** Repeating the first point at the end, as OSM does, changes nothing. */
  lemma ClosingPointIsHarmless(p: Point, ring: Path)
    requires ring != []
    ensures InRing(p, ring + [ring[0]]) == InRing(p, ring)
  {
    var c := ring + [ring[0]];
    assert (c + [c[0]])[..|c|] == c;
    assert !Straddles(p.lat, ring[0], ring[0]);
  }

  // ----- the bounding box

  /** Whether an odd number of the path's edges straddles the latitude. */
  predicate StraddleParity(lat: real, path: Path) {
    if |path| < 2 then false
    else
      var k := |path| - 1;
      StraddleParity(lat, path[..k]) != Straddles(lat, path[k - 1], path[k])
  }

  /** ... which depends on the path's ends alone. */
  lemma {:induction false} StraddlesTelescope(lat: real, path: Path)
    requires path != []
    ensures StraddleParity(lat, path) == Straddles(lat, path[0], path[|path| - 1])
    decreases |path|
  {
    if |path| >= 2 {
      StraddlesTelescope(lat, path[..|path| - 1]);
    }
  }

  lemma CrossingBetween(lat: real, a: Point, b: Point, west: real, east: real)
    requires Straddles(lat, a, b)
    requires west <= a.lon <= east && west <= b.lon <= east
    ensures west <= CrossingLon(lat, a, b) <= east
  {
    hide CrossingLon;
    var x := CrossingOffset(lat, a, b);
  }

  lemma CrossingOffset(lat: real, a: Point, b: Point) returns (x: real)
    requires Straddles(lat, a, b)
    ensures CrossingLon(lat, a, b) == a.lon + x
    ensures 0.0 <= x <= b.lon - a.lon || b.lon - a.lon <= x <= 0.0
  {
    var w, n, d := b.lon - a.lon, lat - a.lat, b.lat - a.lat;
    x := w * n / d;
    assert CrossingLon(lat, a, b) == a.lon + x;
    hide CrossingLon;
    FractionInRange(n, d);
    Scaled(w, n, d);
    Interpolates(w, n / d);
  }

  lemma FractionInRange(n: real, d: real)
    requires (d > 0.0 && 0.0 <= n <= d) || (d < 0.0 && d <= n <= 0.0)
    ensures 0.0 <= n / d <= 1.0
  {
    var t := n / d;
    assert t * d == n;
    if d > 0.0 {
      FactorInRange(t, d, n);
    } else {
      var e := -d;
      assert t * e == -n;
      FactorInRange(t, e, -n);
    }
  }

  lemma FactorInRange(t: real, d: real, n: real)
    requires d > 0.0 && t * d == n && 0.0 <= n <= d
    ensures 0.0 <= t <= 1.0
  {
    assert 0.0 * d == 0.0 && 1.0 * d == d;
    SmallerFactor(0.0, t, d);
    SmallerFactor(t, 1.0, d);
  }

  lemma Scaled(w: real, n: real, d: real)
    requires d != 0.0
    ensures w * n / d == w * (n / d)
  {
    var t := n / d;
    assert t * d == n;
    assert w * n == (w * t) * d;
  }

  lemma Interpolates(w: real, t: real)
    requires 0.0 <= t <= 1.0
    ensures if w >= 0.0 then 0.0 <= w * t <= w else w <= w * t <= 0.0
  {
    if w >= 0.0 {
      assert w * (1.0 - t) >= 0.0;
    } else {
      assert (-w) * (1.0 - t) >= 0.0;
      assert (-w) * t >= 0.0;
    }
  }

  predicate InBox(q: Point, south: real, west: real, north: real, east: real) {
    south <= q.lat <= north && west <= q.lon <= east
  }

  lemma {:induction false} ParityOutsideBox(p: Point, path: Path, south: real, west: real, north: real, east: real)
    requires forall q | q in path :: InBox(q, south, west, north, east)
    requires !InBox(p, south, west, north, east)
    ensures Parity(p, path) == (p.lon < west && StraddleParity(p.lat, path))
    decreases |path|
  {
    hide CrossingLon;
    if |path| >= 2 {
      var k := |path| - 1;
      ParityOutsideBox(p, path[..k], south, west, north, east);
      var a, b := path[k - 1], path[k];
      assert InBox(a, south, west, north, east) && InBox(b, south, west, north, east);
      if Straddles(p.lat, a, b) {
        CrossingBetween(p.lat, a, b, west, east);
      }
    }
  }

  /** Nothing outside a box around the ring is inside the ring: a closed ring straddles evenly. */
  lemma OutsideTheBox(p: Point, ring: Path, south: real, west: real, north: real, east: real)
    requires forall q | q in ring :: InBox(q, south, west, north, east)
    requires !InBox(p, south, west, north, east)
    ensures !InRing(p, ring)
  {
    if ring != [] {
      var c := ring + [ring[0]];
      ParityOutsideBox(p, c, south, west, north, east);
      StraddlesTelescope(p.lat, c);
    }
  }
}
