/** Matching a pose to matrix gantries through a grid index; exact reals, with pi and the cosines as
    parameters. */
module NdwMatch {
  import opened Wrappers
  import opened Reals

  const SEARCH_RADIUS := 2000.0
  const MAX_BEARING_DELTA := 40.0
  const MAX_CROSS_TRACK := 25.0
  const CELLS_PER_DEGREE := 50.0      // cells of 0.02 degrees
  const MIN_COS := 0.000001

  datatype Display = Display(aspect: string, speed: Option<int>, flashing: bool, redRing: bool, tsState: string)

  datatype Sign = Sign(uuid: string, road: string, carriageway: string, lane: int, km: real, wvkId: string,
                       bearing: real, lat: real, lon: real)

  /** `metres` is the length of a degree of latitude; `east` and `north` are the sine and cosine of the
      heading; `cosLat` is the cosine of the latitude. */
  datatype Pose = Pose(lat: real, lon: real, heading: real, east: real, north: real, cosLat: real, metres: real) {
    predicate Valid() { metres > 0.0 && cosLat >= MIN_COS && east * east + north * north == 1.0 }

    function LatSpan(): real
      requires Valid()
    {
      SEARCH_RADIUS / metres
    }

    function LonSpan(): real
      requires Valid()
    {
      LatSpan() / (if cosLat > MIN_COS then cosLat else MIN_COS)
    }
  }

  type Cell = (int, int)

  function CellOf(lat: real, lon: real): Cell { ((lat * CELLS_PER_DEGREE).Floor, (lon * CELLS_PER_DEGREE).Floor) }

  /** Both spans are two kilometres, at any latitude but at the very poles. */
  lemma SpansAreTwoKilometres(p: Pose)
    requires p.metres > 0.0 && p.cosLat >= 0.000001 && p.east * p.east + p.north * p.north == 1.0
    ensures p.Valid() && p.LatSpan() * p.metres == 2000.0 && p.LonSpan() * p.metres * p.cosLat == 2000.0
  {
    var span := p.LonSpan();
    assert span * p.cosLat == p.LatSpan();
    assert span * p.metres * p.cosLat == (span * p.cosLat) * p.metres;
  }

  /** A cell is a fiftieth of a degree each way, and holds its positions. */
  lemma CellHolds(lat: real, lon: real, c: Cell)
    ensures var south, west := c.0 as real * 0.02, c.1 as real * 0.02;
      c == CellOf(lat, lon) <==> south <= lat < south + 0.02 && west <= lon < west + 0.02
  {
  }

  // ----- bearings

  /** Python's modulo: the result has the sign of the divisor. */
  function Mod360(x: real): real { x - (x / 360.0).Floor as real * 360.0 }

  function BearingDelta(a: real, b: real): real { Abs(Mod360(a - b + 180.0) - 180.0) }

  lemma Mod360Shift(x: real, k: int)
    ensures Mod360(x + k as real * 360.0) == Mod360(x) && 0.0 <= Mod360(x) < 360.0
  {
    var q := (x + k as real * 360.0) / 360.0;
    assert q == x / 360.0 + k as real;
    assert q.Floor == (x / 360.0).Floor + k;
  }

  /** An angle between 0 and 180, the same for both directions and for any number of turns. */
  lemma BearingDeltaFacts(a: real, b: real)
    ensures 0.0 <= BearingDelta(a, b) <= 180.0
    ensures BearingDelta(Mod360(a), b) == BearingDelta(a, b)
    ensures BearingDelta(b, a) == BearingDelta(a, b)
  {
    var k := (a / 360.0).Floor;
    Mod360Shift(a - b + 180.0, -k);
    assert Mod360(a) - b + 180.0 == a - b + 180.0 + (-k) as real * 360.0;
    var x := a - b + 180.0;
    var f := (x / 360.0).Floor;
    var r := Mod360(x);
    if r == 0.0 {
      assert b - a + 180.0 == 360.0 - x == 0.0 + (1 - f) as real * 360.0;
      Mod360Shift(0.0, 1 - f);
    } else {
      assert b - a + 180.0 == 360.0 - x == (360.0 - r) + (-f) as real * 360.0;
      Mod360Shift(360.0 - r, -f);
    }
  }

  /** The turn from `b` to `a`, `k` whole turns further. */
  function Turn(a: real, b: real, k: int): real { a - b + k as real * 360.0 }

  /** It is the least of all turns from one direction to the other. */
  lemma BearingDeltaIsLeast(a: real, b: real)
    ensures exists k :: Abs(Turn(a, b, k)) == BearingDelta(a, b)
    ensures forall k :: BearingDelta(a, b) <= Abs(Turn(a, b, k))
  {
    var x := a - b + 180.0;
    var f := (x / 360.0).Floor;
    Mod360Shift(x, 0);
    var r := Mod360(x);
    assert Turn(a, b, -f) == r - 180.0;
    forall k ensures BearingDelta(a, b) <= Abs(Turn(a, b, k)) {
      var n := k + f;
      assert Turn(a, b, k) == r - 180.0 + n as real * 360.0;
      hide Mod360, Turn;
      if n >= 1 {
        assert n as real * 360.0 >= 360.0;
      } else if n <= -1 {
        assert n as real * 360.0 <= -360.0;
      }
    }
  }

  // ----- acceptance

  type Key = (string, string, int)

  /** Kilometre marks agree to three decimals. */
  function KeyOf(s: Sign): Key { (s.road, s.carriageway, RoundHalfEven(s.km * 1000.0)) }

  function North(p: Pose, s: Sign): real { (s.lat - p.lat) * p.metres }

  function East(p: Pose, s: Sign): real { (s.lon - p.lon) * p.metres * p.cosLat }

  function Along(p: Pose, s: Sign): real { East(p, s) * p.east + North(p, s) * p.north }

  function Cross(p: Pose, s: Sign): real { -East(p, s) * p.north + North(p, s) * p.east }

  predicate InBox(p: Pose, s: Sign) {
    && BearingDelta(s.bearing, p.heading) <= MAX_BEARING_DELTA
    && Abs(Along(p, s)) <= SEARCH_RADIUS && Abs(Cross(p, s)) <= MAX_CROSS_TRACK
  }

  /** What an accepted sign contributes. */
  datatype Hit = Hit(key: Key, road: string, carriageway: string, km: real, wvkId: string, lane: int,
                     along: real, display: Display)

  function HitOf(p: Pose, states: map<string, Display>, s: Sign): seq<Hit> {
    if InBox(p, s) && s.uuid in states
    then [Hit(KeyOf(s), s.road, s.carriageway, s.km, s.wvkId, s.lane, Along(p, s), states[s.uuid])]
    else []
  }

  function Hits(p: Pose, states: map<string, Display>, signs: seq<Sign>): seq<Hit> {
    if signs == [] then [] else Hits(p, states, signs[..|signs| - 1]) + HitOf(p, states, signs[|signs| - 1])
  }

  // ----- gantries

  /** One gantry under construction: the first sign's particulars, the nearest distance, the lanes. */
  datatype Entry = Entry(first: Hit, along: real, lanes: map<int, Display>)

  function IndexOf(entries: seq<Entry>, key: Key): (i: nat)
    ensures i <= |entries| && (i < |entries| ==> entries[i].first.key == key)
    ensures forall k | 0 <= k < i :: entries[k].first.key != key
  {
    if entries == [] || entries[0].first.key == key then 0 else 1 + IndexOf(entries[1..], key)
  }

  function AddHit(entries: seq<Entry>, h: Hit): seq<Entry> {
    var i := IndexOf(entries, h.key);
    if i == |entries| then entries + [Entry(h, h.along, map[h.lane := h.display])]
    else
      var e := entries[i];
      entries[i := Entry(e.first, if Abs(h.along) < Abs(e.along) then h.along else e.along, e.lanes[h.lane := h.display])]
  }

  function Accumulate(hits: seq<Hit>): seq<Entry> {
    if hits == [] then [] else AddHit(Accumulate(hits[..|hits| - 1]), hits[|hits| - 1])
  }

  /** `distance` is rounded to one decimal. */
  datatype Gantry = Gantry(road: string, carriageway: string, km: real, wvkId: string, distance: real,
                           lanes: map<int, Display>)

  datatype Match = Match(governing: Option<Gantry>, upcoming: Option<Gantry>)

  function Build(e: Entry): Gantry {
    Gantry(e.first.road, e.first.carriageway, e.first.km, e.first.wvkId, Round1(e.along), e.lanes)
  }

  /** The first entry behind with the greatest distance. */
  function LastPassed(entries: seq<Entry>): Option<Entry> {
    if entries == [] then None
    else
      var k := |entries| - 1;
      var best, e := LastPassed(entries[..k]), entries[k];
      if e.along <= 0.0 && (best.None? || e.along > best.value.along) then Some(e) else best
  }

  /** The first entry ahead with the least distance. */
  function NextAhead(entries: seq<Entry>): Option<Entry> {
    if entries == [] then None
    else
      var k := |entries| - 1;
      var best, e := NextAhead(entries[..k]), entries[k];
      if e.along > 0.0 && (best.None? || e.along < best.value.along) then Some(e) else best
  }

  function Built(e: Option<Entry>): Option<Gantry> { if e.None? then None else Some(Build(e.value)) }

  function MatchOf(hits: seq<Hit>): Match {
    Match(Built(LastPassed(Accumulate(hits))), Built(NextAhead(Accumulate(hits))))
  }

  // ----- the grid

  function InCell(signs: seq<Sign>, c: Cell): seq<Sign> {
    if signs == [] then []
    else
      var k := |signs| - 1;
      InCell(signs[..k], c) + if CellOf(signs[k].lat, signs[k].lon) == c then [signs[k]] else []
  }

  /** Row `i` of the grid, columns from `lo` to below `hi`. */
  function Row(signs: seq<Sign>, i: int, lo: int, hi: int): seq<Sign>
    decreases hi - lo
  {
    if hi <= lo then [] else Row(signs, i, lo, hi - 1) + InCell(signs, (i, hi - 1))
  }

  function Window(signs: seq<Sign>, lo: Cell, top: int, right: int): seq<Sign>
    decreases top - lo.0
  {
    if top <= lo.0 then [] else Window(signs, lo, top - 1, right) + Row(signs, top - 1, lo.1, right)
  }

  function Low(p: Pose): Cell
    requires p.Valid()
  {
    CellOf(p.lat - p.LatSpan(), p.lon - p.LonSpan())
  }

  function High(p: Pose): Cell
    requires p.Valid()
  {
    CellOf(p.lat + p.LatSpan(), p.lon + p.LonSpan())
  }

  function Nearby(signs: seq<Sign>, p: Pose): seq<Sign>
    requires p.Valid()
  {
    Window(signs, Low(p), High(p).0 + 1, High(p).1 + 1)
  }

  lemma NoSignsInCells()
    ensures forall c: Cell :: InCell([], c) == []
  {
  }

  lemma OneMoreSign(signs: seq<Sign>, k: nat)
    requires k < |signs|
    ensures var here := CellOf(signs[k].lat, signs[k].lon);
      forall c: Cell :: InCell(signs[..k + 1], c) == InCell(signs[..k], c) + if c == here then [signs[k]] else []
  {
    hide CellOf;
    assert signs[..k + 1][..k] == signs[..k];
  }

  lemma EmptyWindow(signs: seq<Sign>, lo: Cell, right: int)
    ensures Window(signs, lo, lo.0, right) == []
  {
  }

  lemma EmptyRow(signs: seq<Sign>, i: int, lo: int)
    ensures Row(signs, i, lo, lo) == []
  {
  }

  lemma RowNext(signs: seq<Sign>, i: int, lo: int, j: int)
    requires lo <= j
    ensures Row(signs, i, lo, j + 1) == Row(signs, i, lo, j) + InCell(signs, (i, j))
  {
  }

  /** A row that ends before it begins is empty. */
  lemma RowOnly(signs: seq<Sign>, i: int, lo: int, j: int, hi: int)
    requires j == hi || (j == lo && hi <= lo)
    ensures Row(signs, i, lo, j) == Row(signs, i, lo, hi)
  {
  }

  lemma WindowNext(signs: seq<Sign>, lo: Cell, i: int, right: int)
    requires lo.0 <= i
    ensures Window(signs, lo, i + 1, right) == Window(signs, lo, i, right) + Row(signs, i, lo.1, right)
  {
  }

  lemma WindowOnly(signs: seq<Sign>, lo: Cell, i: int, top: int, right: int)
    requires i == top || (i == lo.0 && top <= lo.0)
    ensures Window(signs, lo, i, right) == Window(signs, lo, top, right)
  {
  }

  class GantryIndex {
    var cells: map<Cell, seq<Sign>>
    ghost var signs: seq<Sign>

    ghost predicate Valid()
      reads this
    {
      forall c: Cell :: (if c in cells then cells[c] else []) == InCell(signs, c)
    }

    constructor (signs: seq<Sign>)
      ensures Valid() && this.signs == signs
    {
      cells := map[];
      this.signs := signs;
      new;
      hide CellOf, InCell;
      NoSignsInCells();
      for k := 0 to |signs|
        invariant this.signs == signs
        invariant forall c: Cell :: (if c in cells then cells[c] else []) == InCell(signs[..k], c)
      {
        OneMoreSign(signs, k);
        var c := CellOf(signs[k].lat, signs[k].lon);
        cells := cells[c := (if c in cells then cells[c] else []) + [signs[k]]];
      }
      assert signs[..|signs|] == signs;
    }

    function CellAt(c: Cell): (s: seq<Sign>)
      requires Valid()
      reads this
      ensures s == InCell(signs, c)
    {
      if c in cells then cells[c] else []
    }

    method GetNearby(p: Pose) returns (out: seq<Sign>)
      requires Valid() && p.Valid()
      ensures out == Nearby(signs, p)
    {
      hide InCell, CellOf, Row, Window, Pose.Valid;
      var lo, hi := Low(p), High(p);
      out := [];
      EmptyWindow(signs, lo, hi.1 + 1);
      var i := lo.0;
      while i < hi.0 + 1
        invariant lo.0 <= i && (i <= hi.0 + 1 || i == lo.0)
        invariant out == Window(signs, lo, i, hi.1 + 1)
      {
        ghost var before := out;
        var j := lo.1;
        EmptyRow(signs, i, lo.1);
        while j < hi.1 + 1
          invariant lo.1 <= j && (j <= hi.1 + 1 || j == lo.1)
          invariant out == before + Row(signs, i, lo.1, j)
        {
          out := out + CellAt((i, j));
          RowNext(signs, i, lo.1, j);
          j := j + 1;
        }
        RowOnly(signs, i, lo.1, j, hi.1 + 1);
        WindowNext(signs, lo, i, hi.1 + 1);
        i := i + 1;
      }
      WindowOnly(signs, lo, i, hi.0 + 1, hi.1 + 1);
    }

    method GetMatch(p: Pose, states: map<string, Display>) returns (m: Match)
      requires Valid() && p.Valid()
      ensures m == MatchOf(Hits(p, states, Nearby(signs, p)))
    {
      hide InBox, KeyOf, Along, AddHit, LastPassed, NextAhead, Accumulate, Nearby, Built;
      NothingAccumulates();
      var near := GetNearby(p);
      var gantries: seq<Entry> := [];
      for k := 0 to |near|
        invariant gantries == Accumulate(Hits(p, states, near[..k]))
      {
        assert near[..k + 1][..k] == near[..k];
        var s := near[k];
        ghost var before := Hits(p, states, near[..k]);
        assert before + [] == before;
        if !InBox(p, s) {
          continue;
        }
        if s.uuid !in states {
          continue;
        }
        var h := Hit(KeyOf(s), s.road, s.carriageway, s.km, s.wvkId, s.lane, Along(p, s), states[s.uuid]);
        AccumulateSnoc(Hits(p, states, near[..k]), h);
        gantries := AddHit(gantries, h);
      }
      assert near[..|near|] == near;
      m := Match(Built(LastPassed(gantries)), Built(NextAhead(gantries)));
    }
  }

  lemma NothingAccumulates()
    ensures Accumulate([]) == []
  {
  }

  lemma AccumulateSnoc(hits: seq<Hit>, h: Hit)
    ensures Accumulate(hits + [h]) == AddHit(Accumulate(hits), h)
  {
    assert (hits + [h])[..|hits|] == hits;
  }
}
