/** Region snapshots on the gateway, and the device client that matches against one. */
module NdwRegion {
  import opened Wrappers
  import opened Reals
  import opened NdwMatch
  import opened NdwRefinement
  import opened NdwReach
  import opened NdwGantries

  const TILE_DEG := 0.25
  const PAD := 2500.0
  const STALE_AFTER := 300.0

  datatype Bounds = Bounds(minLat: real, minLon: real, maxLat: real, maxLon: real) {
    predicate Contains(s: Sign) { minLat <= s.lat <= maxLat && minLon <= s.lon <= maxLon }
  }

  /** The tile's box, padded by a little more than the search radius; `cosMid` is the cosine at mid-height. */
  function TileBounds(tile: (int, int), metres: real, cosMid: real): Bounds
    requires metres > 0.0
  {
    var padLat := PAD / metres;
    var padLon := padLat / (if cosMid > MIN_COS then cosMid else MIN_COS);
    var minLat, minLon := tile.0 as real * TILE_DEG, tile.1 as real * TILE_DEG;
    Bounds(minLat - padLat, minLon - padLon, minLat + TILE_DEG + padLat, minLon + TILE_DEG + padLon)
  }

  /** A quarter of a degree, and 2500 m around it. */
  lemma TileBoundsSay(tile: (int, int), metres: real, cosMid: real)
    requires metres > 0.0 && cosMid >= MIN_COS
    ensures var b := TileBounds(tile, metres, cosMid); var south, west := tile.0 as real * 0.25, tile.1 as real * 0.25;
      && (south - b.minLat) * metres == 2500.0 && (b.maxLat - (south + 0.25)) * metres == 2500.0
      && (west - b.minLon) * metres * cosMid == 2500.0 && (b.maxLon - (west + 0.25)) * metres * cosMid == 2500.0
  {
    var pad := PAD / metres;
    assert pad * metres == 2500.0;
    var across := pad / cosMid;
    assert across * cosMid == pad;
    assert across * metres * cosMid == 2500.0;
    var b := TileBounds(tile, metres, cosMid);
    assert PadEast(b, tile, across) && PadNorth(b, tile, pad);
  }

  predicate PadEast(b: Bounds, tile: (int, int), across: real) {
    tile.1 as real * 0.25 - b.minLon == across && b.maxLon - (tile.1 as real * 0.25 + 0.25) == across
  }

  predicate PadNorth(b: Bounds, tile: (int, int), pad: real) {
    tile.0 as real * 0.25 - b.minLat == pad && b.maxLat - (tile.0 as real * 0.25 + 0.25) == pad
  }

  /** The gateway keeps signs in the box that have a live state; the device reads back the same signs with
      bearings brought into [0, 360). */
  predicate Kept(states: map<string, Display>, b: Bounds, s: Sign) { b.Contains(s) && s.uuid in states }

  function Received(s: Sign): Sign { s.(bearing := Mod360(s.bearing)) }

  function Snap(states: map<string, Display>, b: Bounds, signs: seq<Sign>): seq<Sign> {
    if signs == [] then []
    else
      var k := |signs| - 1;
      Snap(states, b, signs[..k]) + if Kept(states, b, signs[k]) then [Received(signs[k])] else []
  }

  function SnapStates(states: map<string, Display>, b: Bounds, signs: seq<Sign>): map<string, Display> {
    map s | s in signs && Kept(states, b, s) :: s.uuid := states[s.uuid]
  }

  /** The pose is at least the search radius inside the box. */
  predicate Covers(b: Bounds, p: Pose)
    requires p.Valid()
  {
    && b.minLat + p.LatSpan() <= p.lat <= b.maxLat - p.LatSpan()
    && b.minLon + p.LonSpan() <= p.lon <= b.maxLon - p.LonSpan()
  }

  /** A place within the two spans of the pose. */
  predicate Reaches(p: Pose, lat: real, lon: real)
    requires p.Valid()
  {
    Abs(lat - p.lat) <= p.LatSpan() && Abs(lon - p.lon) <= p.LonSpan()
  }

  /** A pose is covered exactly if every place within its spans lies in the box. */
  lemma CoversExactly(b: Bounds, p: Pose)
    requires p.Valid()
    ensures Covers(b, p) <==> forall lat, lon | Reaches(p, lat, lon) :: b.minLat <= lat <= b.maxLat && b.minLon <= lon <= b.maxLon
  {
    assert p.LatSpan() > 0.0 && p.LonSpan() > 0.0;
    assert Reaches(p, p.lat - p.LatSpan(), p.lon - p.LonSpan());
    assert Reaches(p, p.lat + p.LatSpan(), p.lon + p.LonSpan());
    hide Pose.LatSpan, Pose.LonSpan;
  }

  function TileOf(lat: real, lon: real): (int, int) { ((lat / TILE_DEG).Floor, (lon / TILE_DEG).Floor) }

  /** Every pose of a tile is covered by the tile's padded box as long as the cosine at the pose is at least
      four fifths of the one at mid-height; otherwise the pose on the western edge is not. */
  lemma PadSuffices(p: Pose, cosMid: real)
    requires p.Valid() && cosMid >= MIN_COS
    ensures var tile := TileOf(p.lat, p.lon); var b := TileBounds(tile, p.metres, cosMid);
      if 4.0 * cosMid <= 5.0 * p.cosLat then Covers(b, p) else !Covers(b, p.(lon := tile.1 as real * TILE_DEG))
  {
    var span, pad := p.LatSpan(), PAD / p.metres;
    assert pad == 1.25 * span by {
      assert span * p.metres == SEARCH_RADIUS && pad * p.metres == PAD;
    }
    PadAcross(span, p.cosLat, cosMid);
    var west := p.(lon := TileOf(p.lat, p.lon).1 as real * TILE_DEG);
    assert west.LonSpan() == p.LonSpan() == span / p.cosLat;
    var b := TileBounds(TileOf(p.lat, p.lon), p.metres, cosMid);
    assert b.minLon == west.lon - pad / cosMid;
    InItsTile(p.lat);
    InItsTile(p.lon);
    hide Pose.LatSpan, Pose.LonSpan, Pose.Valid;
  }

  lemma InItsTile(x: real)
    ensures var edge := (x / TILE_DEG).Floor as real * TILE_DEG; edge <= x < edge + TILE_DEG
  {
  }

  lemma PadAcross(span: real, cosLat: real, cosMid: real)
    requires span > 0.0 && cosLat > 0.0 && cosMid > 0.0
    ensures span / cosLat <= 1.25 * span / cosMid <==> 4.0 * cosMid <= 5.0 * cosLat
  {
    var q, r := span / cosLat, 1.25 * span / cosMid;
    assert q * cosLat == span && r * cosMid == 1.25 * span;
    assert q > 0.0 && r > 0.0;
    assert r * cosMid * 4.0 == q * cosLat * 5.0;
    if q <= r {
      if 4.0 * cosMid > 5.0 * cosLat {
        LargerProduct(4.0 * cosMid, 5.0 * cosLat, r);
        AtLeastProduct(r, q, 5.0 * cosLat);
      }
    } else {
      if 4.0 * cosMid <= 5.0 * cosLat {
        AtLeastProduct(5.0 * cosLat, 4.0 * cosMid, q);
        LargerProduct(q, r, 4.0 * cosMid);
      }
    }
  }

  class MatrixSignClient {
    var index: GantryIndex?
    var bounds: Bounds
    var states: map<string, Display>
    var fetchedAt: real

    constructor ()
      ensures index == null
    {
      index, bounds, states, fetchedAt := null, Bounds(0.0, 0.0, 0.0, 0.0), map[], 0.0;
    }

    /** A refresh that delivered swaps the whole snapshot. */
    method Install(signs: seq<Sign>, states: map<string, Display>, bounds: Bounds, now: real)
      modifies this
      ensures index != null && fresh(index) && index.Valid() && index.signs == signs
      ensures this.states == states && this.bounds == bounds && fetchedAt == now
    {
      index := new GantryIndex(signs);
      this.states, this.bounds, fetchedAt := states, bounds, now;
    }

    /** No snapshot, a stale one, or one that does not cover the pose gives no hint. */
    method GetMatch(p: Pose, now: real) returns (m: Option<Match>)
      requires p.Valid() && (index != null ==> index.Valid())
      ensures m == if index == null || now - fetchedAt > 300.0 || !Covers(bounds, p) then None
                   else Some(MatchOf(Hits(p, states, Nearby(index.signs, p))))
    {
      if index == null {
        return None;
      }
      if now - fetchedAt > STALE_AFTER {
        return None;
      }
      if !Covers(bounds, p) {
        return None;
      }
      var r := index.GetMatch(p, states);
      return Some(r);
    }
  }

  // ----- the snapshot against all signs

  lemma {:induction false} SnapAppend(states: map<string, Display>, b: Bounds, x: seq<Sign>, y: seq<Sign>)
    ensures Snap(states, b, x + y) == Snap(states, b, x) + Snap(states, b, y)
    decreases |y|
  {
    hide Kept, Received;
    if y == [] {
      assert x + y == x;
    } else {
      var k := |y| - 1;
      assert (x + y)[..|x + y| - 1] == x + y[..k];
      SnapAppend(states, b, x, y[..k]);
    }
  }

  lemma SnapOne(states: map<string, Display>, b: Bounds, s: Sign)
    ensures Snap(states, b, [s]) == if Kept(states, b, s) then [Received(s)] else []
  {
    hide Kept, Received;
    assert [s][..0] == [];
    assert Snap(states, b, [s]) == Snap(states, b, []) + if Kept(states, b, s) then [Received(s)] else [];
  }

  lemma {:induction false} SnapInCell(states: map<string, Display>, b: Bounds, signs: seq<Sign>, c: Cell)
    ensures InCell(Snap(states, b, signs), c) == Snap(states, b, InCell(signs, c))
    decreases |signs|
  {
    hide Kept, CellOf, Received;
    if signs != [] {
      var k := |signs| - 1;
      var s := signs[k];
      var kept, cell := Snap(states, b, signs[..k]), InCell(signs[..k], c);
      SnapInCell(states, b, signs[..k], c);
      assert Snap(states, b, signs) == kept + if Kept(states, b, s) then [Received(s)] else [];
      assert InCell(signs, c) == cell + if CellOf(s.lat, s.lon) == c then [s] else [];
      hide Snap, InCell;
      OneMoreInCell(states, b, kept, cell, s, c);
    }
  }

  lemma OneMoreInCell(states: map<string, Display>, b: Bounds, kept: seq<Sign>, cell: seq<Sign>, s: Sign, c: Cell)
    requires InCell(kept, c) == Snap(states, b, cell)
    ensures InCell(kept + (if Kept(states, b, s) then [Received(s)] else []), c)
            == Snap(states, b, cell + if CellOf(s.lat, s.lon) == c then [s] else [])
  {
    var r := Received(s);
    assert r.lat == s.lat && r.lon == s.lon;
    InCellSnoc(kept, r, c);
    SnapAppend(states, b, cell, [s]);
    SnapOne(states, b, s);
    hide Kept, CellOf, Received, Snap, InCell;
    assert kept + [] == kept && cell + [] == cell && Snap(states, b, cell) + [] == Snap(states, b, cell);
    assert InCell(kept, c) + [] == InCell(kept, c);
  }

  lemma {:induction false} SnapRow(states: map<string, Display>, b: Bounds, signs: seq<Sign>, i: int, lo: int, hi: int)
    ensures Row(Snap(states, b, signs), i, lo, hi) == Snap(states, b, Row(signs, i, lo, hi))
    decreases hi - lo
  {
    if lo < hi {
      SnapRow(states, b, signs, i, lo, hi - 1);
      SnapInCell(states, b, signs, (i, hi - 1));
      SnapAppend(states, b, Row(signs, i, lo, hi - 1), InCell(signs, (i, hi - 1)));
      hide Snap, InCell;
    }
  }

  lemma {:induction false} SnapWindow(states: map<string, Display>, b: Bounds, signs: seq<Sign>, lo: Cell, top: int, right: int)
    ensures Window(Snap(states, b, signs), lo, top, right) == Snap(states, b, Window(signs, lo, top, right))
    decreases top - lo.0
  {
    if lo.0 < top {
      SnapWindow(states, b, signs, lo, top - 1, right);
      SnapRow(states, b, signs, top - 1, lo.1, right);
      SnapAppend(states, b, Window(signs, lo, top - 1, right), Row(signs, top - 1, lo.1, right));
      hide Snap, Row;
    }
  }

  /** Turning the bearing by whole turns changes nothing that is matched on. */
  lemma ReceivedMatchesAlike(p: Pose, s: Sign)
    ensures var r := Received(s);
      && InBox(p, r) == InBox(p, s) && Along(p, r) == Along(p, s) && KeyOf(r) == KeyOf(s)
      && r == s.(bearing := r.bearing)
  {
    BearingDeltaFacts(s.bearing, p.heading);
    var r := Received(s);
    hide Mod360, BearingDelta, RoundHalfEven;
    assert North(p, r) == North(p, s) && East(p, r) == East(p, s);
    hide North, East, Abs;
    assert Along(p, r) == Along(p, s) && Cross(p, r) == Cross(p, s);
    hide Along, Cross;
    assert BearingDelta(r.bearing, p.heading) == BearingDelta(s.bearing, p.heading);
  }

  lemma KeptHit(p: Pose, states: map<string, Display>, b: Bounds, all: seq<Sign>, s: Sign)
    requires s in all && Kept(states, b, s)
    ensures HitOf(p, SnapStates(states, b, all), Received(s)) == HitOf(p, states, s)
  {
    hide Received, InBox, Along, KeyOf;
    ReceivedMatchesAlike(p, s);
    assert s.uuid in SnapStates(states, b, all) && SnapStates(states, b, all)[s.uuid] == states[s.uuid];
  }

  lemma InsideTheBox(p: Pose, b: Bounds, s: Sign)
    requires p.Valid() && Covers(b, p) && WithinRadius(p, s)
    ensures b.Contains(s)
  {
    NearIsInSpans(p, s);
    hide WithinRadius, Pose.Valid, Pose.LatSpan, Pose.LonSpan;
  }

  lemma DroppedHit(p: Pose, states: map<string, Display>, b: Bounds, s: Sign)
    requires !Kept(states, b, s)
    ensures HitOf(p, states, s) != [] ==> !b.Contains(s)
  {
    hide InBox;
  }

  /** The box holds every accepted sign. */
  predicate AcceptedInBounds(p: Pose, states: map<string, Display>, b: Bounds, signs: seq<Sign>) {
    forall s | s in signs && HitOf(p, states, s) != [] :: b.Contains(s)
  }

  /** Sign by sign the snapshot contributes what the full list does, unless the box leaves the sign out. */
  lemma SnapHit(p: Pose, states: map<string, Display>, b: Bounds, all: seq<Sign>, s: Sign)
    requires s in all
    ensures Hits(p, SnapStates(states, b, all), Snap(states, b, [s]))
         == if b.Contains(s) then HitOf(p, states, s) else []
  {
    hide HitOf, Received, SnapStates, Snap;
    SnapOne(states, b, s);
    if Kept(states, b, s) {
      HitsOne(p, SnapStates(states, b, all), Received(s));
      KeptHit(p, states, b, all, s);
    } else {
      DroppedHit(p, states, b, s);
    }
  }

  lemma {:induction false} SnapHits(p: Pose, states: map<string, Display>, b: Bounds, all: seq<Sign>, signs: seq<Sign>)
    requires forall s | s in signs :: s in all
    ensures var snap, full := Hits(p, SnapStates(states, b, all), Snap(states, b, signs)), Hits(p, states, signs);
      if AcceptedInBounds(p, states, b, signs) then snap == full else |snap| < |full|
    decreases |signs|
  {
    hide HitOf, Kept, Received, SnapStates, Bounds.Contains, AcceptedInBounds;
    if signs == [] {
      NoneOutside(p, states, b);
    } else {
      var k := |signs| - 1;
      SnapHits(p, states, b, all, signs[..k]);
      assert signs == signs[..k] + [signs[k]];
      SnapAppend(states, b, signs[..k], [signs[k]]);
      HitsAppend(p, SnapStates(states, b, all), Snap(states, b, signs[..k]), Snap(states, b, [signs[k]]));
      SnapHit(p, states, b, all, signs[k]);
      InBoundsSnoc(p, states, b, signs[..k], signs[k]);
      hide Snap;
    }
  }

  lemma NoneOutside(p: Pose, states: map<string, Display>, b: Bounds)
    ensures AcceptedInBounds(p, states, b, [])
  {
  }

  lemma InBoundsSnoc(p: Pose, states: map<string, Display>, b: Bounds, signs: seq<Sign>, s: Sign)
    ensures AcceptedInBounds(p, states, b, signs + [s])
        == (AcceptedInBounds(p, states, b, signs) && (HitOf(p, states, s) != [] ==> b.Contains(s)))
  {
    hide HitOf, Bounds.Contains;
    assert s in signs + [s] && forall x | x in signs :: x in signs + [s];
  }

  lemma {:induction false} FilteredAreSigns(signs: seq<Sign>, lo: Cell, top: int, right: int)
    ensures forall s | s in FilterWindow(signs, lo, top, right) :: s in signs
    decreases |signs|
  {
    if signs != [] {
      FilteredAreSigns(signs[..|signs| - 1], lo, top, right);
    }
  }

  lemma WindowAreSigns(signs: seq<Sign>, lo: Cell, top: int, right: int)
    ensures forall s | s in Window(signs, lo, top, right) :: s in signs
  {
    WindowHoldsCells(signs, lo, top, right);
    FilteredAreSigns(signs, lo, top, right);
    hide Window, FilterWindow;
    forall s | s in Window(signs, lo, top, right) ensures s in signs {
      assert s in multiset(Window(signs, lo, top, right));
    }
  }

  /** The snapshot contributes the hits of all signs, in the same order, exactly when its box holds every
      accepted sign the grid visits. */
  lemma SnapshotIsExact(p: Pose, states: map<string, Display>, b: Bounds, signs: seq<Sign>)
    requires p.Valid()
    ensures Hits(p, SnapStates(states, b, signs), Nearby(Snap(states, b, signs), p)) == Hits(p, states, Nearby(signs, p))
       <==> AcceptedInBounds(p, states, b, Nearby(signs, p))
  {
    hide Snap, SnapStates, Hits, Window, AcceptedInBounds, Low, High;
    var lo, top, right := Low(p), High(p).0 + 1, High(p).1 + 1;
    SnapWindow(states, b, signs, lo, top, right);
    WindowAreSigns(signs, lo, top, right);
    SnapHits(p, states, b, signs, Window(signs, lo, top, right));
  }

  lemma NearbyAreSigns(signs: seq<Sign>, p: Pose)
    requires p.Valid()
    ensures forall s | s in Nearby(signs, p) :: s in signs
  {
    hide Low, High, Window;
    WindowAreSigns(signs, Low(p), High(p).0 + 1, High(p).1 + 1);
  }

  lemma CoveredHoldsAccepted(p: Pose, states: map<string, Display>, b: Bounds, all: seq<Sign>, signs: seq<Sign>)
    requires p.Valid() && Covers(b, p) && AcceptedAreNear(p, states, all) && forall s | s in signs :: s in all
    ensures AcceptedInBounds(p, states, b, signs)
  {
    hide InBox, WithinRadius, Covers, Bounds.Contains;
    forall s | s in signs && HitOf(p, states, s) != [] ensures b.Contains(s) {
      assert WithinRadius(p, s);
      InsideTheBox(p, b, s);
    }
  }

  /** In a covered pose the snapshot therefore answers exactly as all signs would, lanes and ties included,
      provided each accepted sign is within the radius on each axis. */
  lemma SnapshotEqualsAll(p: Pose, states: map<string, Display>, b: Bounds, signs: seq<Sign>)
    requires p.Valid() && Covers(b, p) && AcceptedAreNear(p, states, signs)
    ensures MatchOf(Hits(p, SnapStates(states, b, signs), Nearby(Snap(states, b, signs), p)))
         == MatchOf(Hits(p, states, Nearby(signs, p)))
  {
    hide Hits, MatchOf, AcceptedInBounds, Covers, AcceptedAreNear, Nearby, Snap, SnapStates, Pose.Valid;
    SnapshotIsExact(p, states, b, signs);
    NearbyAreSigns(signs, p);
    CoveredHoldsAccepted(p, states, b, signs, Nearby(signs, p));
  }

  // ----- what covers does not promise

  /** The acceptance box, turned with the heading, fits into the bounds. */
  predicate ReachIsInside(b: Bounds, p: Pose)
    requires p.Valid()
  {
    && b.minLat <= p.lat - ReachLat(p) && p.lat + ReachLat(p) <= b.maxLat
    && b.minLon <= p.lon - ReachLon(p) && p.lon + ReachLon(p) <= b.maxLon
  }

  /** At any pose the bounds hold every sign that would be accepted if and only if the turned box fits. */
  lemma BoundsHoldExactly(b: Bounds, p: Pose)
    requires p.Valid()
    ensures (forall s | InBox(p, s) :: b.Contains(s)) <==> ReachIsInside(b, p)
  {
    hide InBox, ReachLat, ReachLon, Pose.Valid;
    if ReachIsInside(b, p) {
      forall s | InBox(p, s) ensures b.Contains(s) {
        AcceptedIsWithinDegrees(p, s);
      }
    } else {
      var n, s, e, w := ReachIsAttained(p);
      hide North, East, NorthReach, EastReach;
    }
  }

  /** The north-eastern end of what the bounds cover. */
  function FarEnd(b: Bounds, p: Pose): Pose
    requires p.Valid()
  {
    p.(lat := b.maxLat - p.LatSpan(), lon := b.maxLon - p.LonSpan())
  }

  lemma FarEndFacts(b: Bounds, p: Pose)
    requires p.Valid()
    ensures var q := FarEnd(b, p);
      && q.Valid() && q.LatSpan() == p.LatSpan() && q.LonSpan() == p.LonSpan() && Overhangs(q) == Overhangs(p)
      && q.lat == b.maxLat - p.LatSpan() && q.lon == b.maxLon - p.LonSpan()
  {
    assert NorthReach(FarEnd(b, p)) == NorthReach(p) && EastReach(FarEnd(b, p)) == EastReach(p);
    hide NorthReach, EastReach;
  }

  /** There, if covered, a sign is left out if and only if the box overhangs. */
  lemma RimSignIsLeftOut(b: Bounds, p: Pose)
    requires p.Valid() && Covers(b, FarEnd(b, p))
    ensures Overhangs(p) <==> exists s :: InBox(FarEnd(b, p), s) && !b.Contains(s)
  {
    var q := FarEnd(b, p);
    FarEndFacts(b, p);
    BoundsHoldExactly(b, q);
    OverhangInDegrees(q);
    hide FarEnd, InBox, Bounds.Contains, ReachLat, ReachLon, NorthReach, EastReach, Pose.Valid, Pose.LatSpan, Pose.LonSpan;
    assert ReachIsInside(b, q) <==> !Overhangs(q);
  }

  /** The gateway's bounds do cover such poses: in every tile, for every overhanging heading, unless the cosine
      at the pose is less than four fifths of the one at mid-height. */
  lemma TilesLeaveSignsOut(tile: (int, int), p: Pose, cosMid: real)
    requires p.Valid() && cosMid >= MIN_COS && 4.0 * cosMid <= 5.0 * p.cosLat && Overhangs(p)
    ensures var b := TileBounds(tile, p.metres, cosMid); var q := FarEnd(b, p);
      q.Valid() && Covers(b, q) && exists s :: InBox(q, s) && !b.Contains(s)
  {
    var b := TileBounds(tile, p.metres, cosMid);
    FarEndFacts(b, p);
    PadInSpans(p, tile, cosMid);
    OverhangInDegrees(p);
    hide FarEnd, TileBounds, Overhangs, InBox, Pose.Valid, Pose.LatSpan, Pose.LonSpan, NorthReach, EastReach, ReachLat, ReachLon;
    assert Covers(b, FarEnd(b, p));
    RimSignIsLeftOut(b, p);
  }

  /** The padded tile is more than two spans wide and high. */
  lemma PadInSpans(p: Pose, tile: (int, int), cosMid: real)
    requires p.Valid() && cosMid >= MIN_COS && 4.0 * cosMid <= 5.0 * p.cosLat
    ensures var b := TileBounds(tile, p.metres, cosMid);
      b.maxLat - b.minLat >= 2.0 * p.LatSpan() && b.maxLon - b.minLon >= 2.0 * p.LonSpan()
  {
    var span, pad := p.LatSpan(), PAD / p.metres;
    assert pad == 1.25 * span by {
      assert span * p.metres == SEARCH_RADIUS && pad * p.metres == PAD;
    }
    PadAcross(span, p.cosLat, cosMid);
    var b := TileBounds(tile, p.metres, cosMid);
    assert b.maxLon - b.minLon == TILE_DEG + 2.0 * (pad / cosMid) && b.maxLat - b.minLat == TILE_DEG + 2.0 * pad;
    assert p.LonSpan() == span / p.cosLat;
  }

  /** Where the turned box fits, the snapshot answers as all signs would, with nothing assumed of the signs. */
  lemma InsideMeansComplete(p: Pose, states: map<string, Display>, b: Bounds, signs: seq<Sign>)
    requires p.Valid() && ReachIsInside(b, p)
    ensures MatchOf(Hits(p, SnapStates(states, b, signs), Nearby(Snap(states, b, signs), p)))
         == MatchOf(Hits(p, states, Nearby(signs, p)))
  {
    BoundsHoldExactly(b, p);
    assert AcceptedInBounds(p, states, b, Nearby(signs, p)) by {
      hide InBox, Bounds.Contains;
    }
    hide Hits, MatchOf, AcceptedInBounds, ReachIsInside, Nearby, Snap, SnapStates;
    SnapshotIsExact(p, states, b, signs);
  }

  /** In particular in a covered pose without overhang. */
  lemma CoveredMeansComplete(p: Pose, states: map<string, Display>, b: Bounds, signs: seq<Sign>)
    requires p.Valid() && Covers(b, p) && !Overhangs(p)
    ensures MatchOf(Hits(p, SnapStates(states, b, signs), Nearby(Snap(states, b, signs), p)))
         == MatchOf(Hits(p, states, Nearby(signs, p)))
  {
    OverhangInDegrees(p);
    assert ReachIsInside(b, p) by {
      hide NorthReach, EastReach, ReachLat, ReachLon, Pose.Valid, Pose.LatSpan, Pose.LonSpan;
    }
    hide Hits, MatchOf, Covers, ReachIsInside, Nearby, Snap, SnapStates, Overhangs;
    InsideMeansComplete(p, states, b, signs);
  }

  /** And with unambiguous hits the answer is that of a scan of all signs. */
  lemma SnapshotAnswersAsScan(p: Pose, states: map<string, Display>, b: Bounds, signs: seq<Sign>)
    requires p.Valid() && Covers(b, p) && AcceptedAreNear(p, states, signs) && Unambiguous(Hits(p, states, signs))
    ensures MatchOf(Hits(p, SnapStates(states, b, signs), Nearby(Snap(states, b, signs), p)))
         == MatchOf(Hits(p, states, signs))
  {
    hide Hits, MatchOf, Covers, AcceptedAreNear, Nearby, Snap, SnapStates, Unambiguous;
    SnapshotEqualsAll(p, states, b, signs);
    GridAnswersAsScan(p, states, signs);
  }
}
