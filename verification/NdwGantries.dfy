/** Which gantries are reported, and when the order of the signs does not matter. */
module NdwGantries {
  import opened Wrappers
  import opened Reals
  import opened Sequences
  import opened NdwMatch
  import opened NdwRefinement

  lemma {:induction false} LastPassedFacts(entries: seq<Entry>)
    ensures match LastPassed(entries)
      case None => forall e | e in entries :: e.along > 0.0
      case Some(g) => g in entries && g.along <= 0.0 && forall e | e in entries && e.along <= 0.0 :: e.along <= g.along
    decreases |entries|
  {
    if entries != [] {
      var k := |entries| - 1;
      LastPassedFacts(entries[..k]);
      assert entries == entries[..k] + [entries[k]];
    }
  }

  lemma {:induction false} NextAheadFacts(entries: seq<Entry>)
    ensures match NextAhead(entries)
      case None => forall e | e in entries :: e.along <= 0.0
      case Some(g) => g in entries && g.along > 0.0 && forall e | e in entries && e.along > 0.0 :: e.along >= g.along
    decreases |entries|
  {
    if entries != [] {
      var k := |entries| - 1;
      NextAheadFacts(entries[..k]);
      assert entries == entries[..k] + [entries[k]];
    }
  }

  /** The entry speaks for the hit: same gantry and no farther. */
  predicate Stands(e: Entry, h: Hit) {
    e.first.key == h.key && Abs(e.along) <= Abs(h.along)
  }

  predicate Distinct(entries: seq<Entry>) {
    forall i, j | 0 <= i < j < |entries| :: entries[i].first.key != entries[j].first.key
  }

  predicate Spoken(entries: seq<Entry>, h: Hit) { exists i | 0 <= i < |entries| :: Stands(entries[i], h) }

  /** What the lanes of a gantry show: for each lane the last hit there. */
  function Lanes(hits: seq<Hit>, key: Key): map<int, Display> {
    if hits == [] then map[]
    else
      var h := hits[|hits| - 1];
      var before := Lanes(hits[..|hits| - 1], key);
      if h.key == key then before[h.lane := h.display] else before
  }

  /** The entry comes from the hits of its gantry: the particulars from the first, the distance from one of
      them, the lanes from all. */
  predicate Founded(e: Entry, hits: seq<Hit>) {
    && (exists i :: 0 <= i < |hits| && hits[i] == e.first && forall k | 0 <= k < i :: hits[k].key != e.first.key)
    && (exists h | h in hits :: h.key == e.first.key && h.along == e.along)
    && e.lanes == Lanes(hits, e.first.key)
  }

  /** One entry a gantry, each hit spoken for, no entry without hits. */
  predicate Grouped(entries: seq<Entry>, hits: seq<Hit>) {
    && Distinct(entries)
    && (forall h | h in hits :: Spoken(entries, h))
    && forall i | 0 <= i < |entries| :: Founded(entries[i], hits)
  }

  lemma AddHitDistinct(entries: seq<Entry>, h: Hit)
    requires Distinct(entries)
    ensures Distinct(AddHit(entries, h))
  {
    hide Abs;
  }

  lemma AddHitSpeaks(entries: seq<Entry>, h: Hit, x: Hit)
    requires x == h || Spoken(entries, x)
    ensures Spoken(AddHit(entries, h), x)
  {
    var i := IndexOf(entries, h.key);
    var after := AddHit(entries, h);
    hide IndexOf;
    if x == h {
      assert Stands(after[i], h);
    } else {
      var j :| 0 <= j < |entries| && Stands(entries[j], x);
      assert Stands(after[j], x);
    }
  }

  lemma LanesSnoc(hits: seq<Hit>, h: Hit, key: Key)
    ensures Lanes(hits + [h], key) == if h.key == key then Lanes(hits, key)[h.lane := h.display] else Lanes(hits, key)
  {
    assert (hits + [h])[..|hits|] == hits;
  }

  lemma NewKeyHasNoLanes(hits: seq<Hit>, key: Key)
    requires forall k | 0 <= k < |hits| :: hits[k].key != key
    ensures Lanes(hits, key) == map[]
    decreases |hits|
  {
    if hits != [] {
      NewKeyHasNoLanes(hits[..|hits| - 1], key);
    }
  }

  lemma NewKey(entries: seq<Entry>, hits: seq<Hit>, key: Key)
    requires Grouped(entries, hits) && IndexOf(entries, key) == |entries|
    ensures forall k | 0 <= k < |hits| :: hits[k].key != key
  {
    forall k | 0 <= k < |hits| ensures hits[k].key != key {
      assert Spoken(entries, hits[k]);
    }
  }

  lemma StillFounded(e: Entry, after: Entry, hits: seq<Hit>, h: Hit)
    requires Founded(e, hits) && after.first == e.first
    requires if h.key == e.first.key
             then (after.along == e.along || after.along == h.along) && after.lanes == e.lanes[h.lane := h.display]
             else after == e
    ensures Founded(after, hits + [h])
  {
    LanesSnoc(hits, h, e.first.key);
    hide Lanes;
    var all := hits + [h];
    var i :| 0 <= i < |hits| && hits[i] == e.first && forall k | 0 <= k < i :: hits[k].key != e.first.key;
    assert all[i] == after.first && forall k | 0 <= k < i :: all[k].key != e.first.key;
    var x :| x in hits && x.key == e.first.key && x.along == e.along;
    assert x in all && h in all;
  }

  lemma AddHitFounded(entries: seq<Entry>, hits: seq<Hit>, h: Hit, j: nat)
    requires Grouped(entries, hits) && j < |AddHit(entries, h)|
    ensures Founded(AddHit(entries, h)[j], hits + [h])
  {
    hide Abs, Founded;
    if j < |entries| {
      IndexOfFinds(entries, h.key, j);
      StillFounded(entries[j], AddHit(entries, h)[j], hits, h);
    } else {
      NewKey(entries, hits, h.key);
      FirstOfItsKind(hits, h);
    }
  }

  lemma IndexOfFinds(entries: seq<Entry>, key: Key, j: nat)
    requires Distinct(entries) && j < |entries|
    ensures entries[j].first.key == key <==> IndexOf(entries, key) == j
  {
  }

  lemma FirstOfItsKind(hits: seq<Hit>, h: Hit)
    requires forall k | 0 <= k < |hits| :: hits[k].key != h.key
    ensures Founded(Entry(h, h.along, map[h.lane := h.display]), hits + [h])
  {
    NewKeyHasNoLanes(hits, h.key);
    LanesSnoc(hits, h, h.key);
    hide Lanes;
    var all := hits + [h];
    assert all[|hits|] == h && forall k | 0 <= k < |hits| :: all[k] == hits[k];
  }

  lemma AddHitGroups(entries: seq<Entry>, hits: seq<Hit>, h: Hit)
    requires Grouped(entries, hits)
    ensures Grouped(AddHit(entries, h), hits + [h])
  {
    hide AddHit, Distinct, Spoken, Founded;
    var after := AddHit(entries, h);
    AddHitDistinct(entries, h);
    forall x | x in hits + [h] ensures Spoken(after, x) {
      AddHitSpeaks(entries, h, x);
    }
    forall j | 0 <= j < |after| ensures Founded(after[j], hits + [h]) {
      AddHitFounded(entries, hits, h, j);
    }
  }

  lemma {:induction false} AccumulateGroups(hits: seq<Hit>)
    ensures Grouped(Accumulate(hits), hits)
    decreases |hits|
  {
    if hits != [] {
      var k := |hits| - 1;
      AccumulateGroups(hits[..k]);
      AddHitGroups(Accumulate(hits[..k]), hits[..k], hits[k]);
      assert hits == hits[..k] + [hits[k]];
      hide Grouped, AddHit;
    }
  }

  /** The nearest entry passed; none if there is none. */
  predicate IsGoverning(g: Option<Gantry>, entries: seq<Entry>) {
    match g
    case None => forall e | e in entries :: e.along > 0.0
    case Some(x) =>
      exists e | e in entries ::
        (e.along <= 0.0 && Build(e) == x && forall o | o in entries && o.along <= 0.0 :: o.along <= e.along)
  }

  /** The nearest entry ahead; none if there is none. */
  predicate IsUpcoming(g: Option<Gantry>, entries: seq<Entry>) {
    match g
    case None => forall e | e in entries :: e.along <= 0.0
    case Some(x) =>
      exists e | e in entries ::
        (e.along > 0.0 && Build(e) == x && forall o | o in entries && o.along > 0.0 :: o.along >= e.along)
  }

  /** The governing gantry is the nearest one passed and the upcoming the nearest one ahead, each gantry taken
      at its nearest sign; none is reported only when there is none on that side. */
  lemma NearestGantries(hits: seq<Hit>)
    ensures Grouped(Accumulate(hits), hits)
    ensures IsGoverning(MatchOf(hits).governing, Accumulate(hits)) && IsUpcoming(MatchOf(hits).upcoming, Accumulate(hits))
  {
    AccumulateGroups(hits);
    LastPassedFacts(Accumulate(hits));
    NextAheadFacts(Accumulate(hits));
    hide Grouped, Accumulate, LastPassed, NextAhead, Build;
  }

  /** What an accepted sign with a live state contributes; any other contributes nothing. */
  lemma HitSays(p: Pose, states: map<string, Display>, s: Sign)
    ensures var hits := HitOf(p, states, s);
      if InBox(p, s) && s.uuid in states
      then |hits| == 1 && var h := hits[0];
        && h.road == s.road && h.carriageway == s.carriageway && h.km == s.km && h.wvkId == s.wvkId && h.lane == s.lane
        && h.display == states[s.uuid] && h.along == Along(p, s)
        && h.key.0 == s.road && h.key.1 == s.carriageway && s.km * 1000.0 - 0.5 <= h.key.2 as real <= s.km * 1000.0 + 0.5
      else hits == []
  {
    RoundIsNear(s.km * 1000.0);
    hide InBox, Along, RoundHalfEven;
  }

  /** A reported gantry has the particulars of the first hit of its entry, its distance to a tenth of a metre, and
      its lanes. */
  lemma GantrySays(e: Entry)
    ensures var g := Build(e);
      && g.road == e.first.road && g.carriageway == e.first.carriageway && g.km == e.first.km && g.wvkId == e.first.wvkId
      && g.lanes == e.lanes && e.along - 0.05 <= g.distance <= e.along + 0.05 && (10.0 * g.distance).Floor as real == 10.0 * g.distance
  {
    RoundIsNear(e.along * 10.0);
    TenTenths(RoundHalfEven(e.along * 10.0));
    assert Build(e).distance == RoundHalfEven(e.along * 10.0) as real / 10.0;
    hide RoundHalfEven, Build;
  }

  lemma TenTenths(n: int)
    ensures 10.0 * (n as real / 10.0) == n as real && (n as real).Floor == n
  {
  }

  // ----- which hits decide

  predicate Ahead(x: Hit) { x.along > 0.0 }

  /** No hit of the same gantry is nearer. */
  predicate Nearest(hits: seq<Hit>, x: Hit) {
    x in hits && forall y | y in hits && y.key == x.key :: Abs(x.along) <= Abs(y.along)
  }

  /** And no gantry's nearest hit on the same side is nearer. */
  predicate Foremost(hits: seq<Hit>, x: Hit) {
    Nearest(hits, x) && forall y | y in hits && Nearest(hits, y) && Ahead(y) == Ahead(x) :: Abs(x.along) <= Abs(y.along)
  }

  /** On either side one gantry alone is foremost, and its nearest hits are all on that side. */
  predicate Clear(hits: seq<Hit>) {
    forall x, y | x in hits && y in hits && Foremost(hits, x) && Nearest(hits, y) ::
      && (x.key == y.key ==> x.along == y.along)
      && (Foremost(hits, y) && Ahead(x) == Ahead(y) ==> x.key == y.key)
  }

  predicate Agree(y: Hit, z: Hit) {
    && y.road == z.road && y.carriageway == z.carriageway && y.km == z.km && y.wvkId == z.wvkId
    && (y.lane == z.lane ==> y.display == z.display)
  }

  /** Hits of a foremost gantry agree on what it is and on what a lane shows. */
  predicate Agreeing(hits: seq<Hit>) {
    forall x, y, z | x in hits && y in hits && z in hits && Foremost(hits, x) && x.key == y.key && x.key == z.key :: Agree(y, z)
  }

  predicate Unambiguous(hits: seq<Hit>) { Clear(hits) && Agreeing(hits) }

  ghost predicate SameHits(a: seq<Hit>, b: seq<Hit>) { forall h :: h in a <==> h in b }

  lemma EntryIsNearest(entries: seq<Entry>, hits: seq<Hit>, e: Entry) returns (x: Hit)
    requires Grouped(entries, hits) && e in entries
    ensures Nearest(hits, x) && x.key == e.first.key && x.along == e.along && e.first in hits
  {
    var i :| 0 <= i < |entries| && entries[i] == e;
    assert Founded(entries[i], hits);
    x :| x in hits && x.key == e.first.key && x.along == e.along;
    hide Founded, Abs;
    forall y | y in hits && y.key == x.key ensures Abs(x.along) <= Abs(y.along) {
      assert Spoken(entries, y);
      var j :| 0 <= j < |entries| && Stands(entries[j], y);
      assert j == i;
    }
  }

  lemma EntryOf(entries: seq<Entry>, hits: seq<Hit>, h: Hit) returns (e: Entry)
    requires Grouped(entries, hits) && h in hits
    ensures e in entries && e.first.key == h.key
  {
    assert Spoken(entries, h);
    var j :| 0 <= j < |entries| && Stands(entries[j], h);
    e := entries[j];
  }

  lemma SomeForemost(hits: seq<Hit>, x: Hit) returns (f: Hit)
    requires Nearest(hits, x)
    ensures Foremost(hits, f) && Ahead(f) == Ahead(x)
  {
    hide Nearest;
    f := x;
    for k := 0 to |hits|
      invariant Nearest(hits, f) && Ahead(f) == Ahead(x)
      invariant forall j | 0 <= j < k && Nearest(hits, hits[j]) && Ahead(hits[j]) == Ahead(x) :: Abs(f.along) <= Abs(hits[j].along)
    {
      if Nearest(hits, hits[k]) && Ahead(hits[k]) == Ahead(x) && Abs(hits[k].along) < Abs(f.along) {
        f := hits[k];
      }
    }
  }

  function Winner(m: Match, ahead: bool): Option<Gantry> { if ahead then m.upcoming else m.governing }

  /** The nearest entry on its side. */
  predicate IsBest(e: Entry, entries: seq<Entry>, ahead: bool) {
    e in entries && (e.along > 0.0) == ahead && forall o | o in entries && (o.along > 0.0) == ahead :: Abs(e.along) <= Abs(o.along)
  }

  lemma BestEntry(hits: seq<Hit>, ahead: bool) returns (e: Entry)
    requires Winner(MatchOf(hits), ahead).Some?
    ensures IsBest(e, Accumulate(hits), ahead) && Winner(MatchOf(hits), ahead) == Some(Build(e))
  {
    NearestGantries(hits);
    hide Grouped, Build, Accumulate;
    var entries := Accumulate(hits);
    var g := Winner(MatchOf(hits), ahead).value;
    hide MatchOf;
    if ahead {
      e :| e in entries && e.along > 0.0 && Build(e) == g && forall o | o in entries && o.along > 0.0 :: o.along >= e.along;
    } else {
      e :| e in entries && e.along <= 0.0 && Build(e) == g && forall o | o in entries && o.along <= 0.0 :: o.along <= e.along;
    }
  }

  lemma NoBestEntry(hits: seq<Hit>, ahead: bool)
    requires Winner(MatchOf(hits), ahead) == None
    ensures forall e | e in Accumulate(hits) :: (e.along > 0.0) != ahead
  {
    NearestGantries(hits);
    hide Grouped, Build, Accumulate, MatchOf;
  }

  /** The entry of a foremost hit is at its place. */
  lemma ForemostEntry(hits: seq<Hit>, f: Hit) returns (e: Entry)
    requires Clear(hits) && Foremost(hits, f)
    ensures e in Accumulate(hits) && e.first.key == f.key && e.along == f.along
  {
    hide Accumulate, Grouped, Abs;
    AccumulateGroups(hits);
    e := EntryOf(Accumulate(hits), hits, f);
    var y := EntryIsNearest(Accumulate(hits), hits, e);
  }

  /** With clear hits the gantry reported on a side is the foremost one. */
  lemma BestIsForemost(hits: seq<Hit>, e: Entry, ahead: bool) returns (x: Hit)
    requires Clear(hits) && IsBest(e, Accumulate(hits), ahead)
    ensures Foremost(hits, x) && Ahead(x) == ahead && x.key == e.first.key && x.along == e.along && e.first in hits
  {
    AccumulateGroups(hits);
    x := EntryIsNearest(Accumulate(hits), hits, e);
    var f := SomeForemost(hits, x);
    var o := ForemostEntry(hits, f);
    hide Accumulate, Grouped, Nearest, Clear;
    assert Abs(x.along) <= Abs(f.along);
  }

  lemma WinnerOf(hits: seq<Hit>, f: Hit) returns (e: Entry)
    requires Clear(hits) && Foremost(hits, f)
    ensures e in Accumulate(hits) && e.first.key == f.key && e.along == f.along
    ensures Winner(MatchOf(hits), Ahead(f)) == Some(Build(e))
  {
    var o := ForemostEntry(hits, f);
    if Winner(MatchOf(hits), Ahead(f)) == None {
      NoBestEntry(hits, Ahead(f));
    }
    e := BestEntry(hits, Ahead(f));
    var x := BestIsForemost(hits, e, Ahead(f));
    hide Accumulate, MatchOf, Build;
    assert x.key == f.key && Abs(x.along) == Abs(f.along);
  }

  // ----- unambiguous hits in any order

  lemma NearestAlike(a: seq<Hit>, b: seq<Hit>, x: Hit)
    requires SameHits(a, b)
    ensures Nearest(a, x) == Nearest(b, x)
  {
    hide Abs;
  }

  lemma ForemostAlike(a: seq<Hit>, b: seq<Hit>, x: Hit)
    requires SameHits(a, b)
    ensures Foremost(a, x) == Foremost(b, x)
  {
    forall y ensures Nearest(a, y) == Nearest(b, y) {
      NearestAlike(a, b, y);
    }
    hide Nearest, Abs, Ahead;
  }

  lemma UnambiguousAlike(a: seq<Hit>, b: seq<Hit>)
    requires SameHits(a, b)
    ensures Clear(a) == Clear(b) && Agreeing(a) == Agreeing(b)
  {
    forall y ensures Nearest(a, y) == Nearest(b, y) && Foremost(a, y) == Foremost(b, y) {
      NearestAlike(a, b, y);
      ForemostAlike(a, b, y);
    }
    hide Nearest, Foremost, Ahead, Agree;
  }

  lemma {:induction false} LaneShown(hits: seq<Hit>, key: Key, lane: int) returns (h: Hit)
    requires lane in Lanes(hits, key)
    ensures h in hits && h.key == key && h.lane == lane && h.display == Lanes(hits, key)[lane]
    decreases |hits|
  {
    var k := |hits| - 1;
    if hits[k].key == key && hits[k].lane == lane {
      h := hits[k];
    } else {
      h := LaneShown(hits[..k], key, lane);
    }
  }

  lemma {:induction false} LaneOfHit(hits: seq<Hit>, h: Hit)
    requires h in hits
    ensures h.lane in Lanes(hits, h.key)
    decreases |hits|
  {
    var k := |hits| - 1;
    if hits[k] != h {
      LaneOfHit(hits[..k], h);
    }
  }

  lemma SameLanes(a: seq<Hit>, b: seq<Hit>, x: Hit)
    requires SameHits(a, b) && Agreeing(a) && Foremost(a, x) && x in a
    ensures Lanes(a, x.key) == Lanes(b, x.key)
  {
    hide Lanes, Foremost;
    var key := x.key;
    forall l | l in Lanes(b, key) ensures l in Lanes(a, key) {
      var y := LaneShown(b, key, l);
      LaneOfHit(a, y);
    }
    forall l | l in Lanes(a, key) ensures l in Lanes(b, key) && Lanes(a, key)[l] == Lanes(b, key)[l] {
      var y := LaneShown(a, key, l);
      LaneOfHit(b, y);
      var z := LaneShown(b, key, l);
      assert z in a && Agree(y, z);
    }
  }

  lemma EntryLanes(hits: seq<Hit>, e: Entry)
    requires e in Accumulate(hits)
    ensures e.lanes == Lanes(hits, e.first.key) && e.first in hits
  {
    AccumulateGroups(hits);
    var i :| 0 <= i < |Accumulate(hits)| && Accumulate(hits)[i] == e;
    assert Founded(Accumulate(hits)[i], hits);
    hide Lanes, Accumulate;
  }

  lemma SameWinner(a: seq<Hit>, b: seq<Hit>, f: Hit)
    requires SameHits(a, b) && Unambiguous(a) && Unambiguous(b) && Foremost(a, f)
    ensures Winner(MatchOf(a), Ahead(f)) == Winner(MatchOf(b), Ahead(f))
  {
    ForemostAlike(a, b, f);
    assert f in a;
    var d := WinnerOf(a, f);
    var e := WinnerOf(b, f);
    EntryLanes(a, d);
    EntryLanes(b, e);
    SameLanes(a, b, f);
    hide Lanes, Accumulate, MatchOf, Foremost, Clear;
    assert e.first in a && Agree(d.first, e.first);
  }

  /** Without a foremost hit on a side, nothing is reported there. */
  lemma NoWinner(hits: seq<Hit>, ahead: bool)
    requires Clear(hits) && forall f | Foremost(hits, f) :: Ahead(f) != ahead
    ensures Winner(MatchOf(hits), ahead) == None
  {
    hide Clear, Foremost, MatchOf;
    if Winner(MatchOf(hits), ahead).Some? {
      var e := BestEntry(hits, ahead);
      var x := BestIsForemost(hits, e, ahead);
    }
  }

  lemma SameSide(a: seq<Hit>, b: seq<Hit>, ahead: bool)
    requires SameHits(a, b) && Unambiguous(a) && Unambiguous(b)
    ensures Winner(MatchOf(a), ahead) == Winner(MatchOf(b), ahead)
  {
    if f :| Foremost(a, f) && Ahead(f) == ahead {
      SameWinner(a, b, f);
    } else {
      forall f ensures Foremost(a, f) == Foremost(b, f) {
        ForemostAlike(a, b, f);
      }
      hide Foremost, MatchOf, Clear;
      NoWinner(a, ahead);
      NoWinner(b, ahead);
    }
  }

  /** Unambiguous hits give the same match in any order and however often each is repeated. */
  lemma OrderDoesNotMatter(a: seq<Hit>, b: seq<Hit>)
    requires SameHits(a, b) && Unambiguous(a)
    ensures MatchOf(a) == MatchOf(b)
  {
    UnambiguousAlike(a, b);
    hide Clear, Agreeing, SameHits;
    SameSide(a, b, true);
    SameSide(a, b, false);
    hide Accumulate, LastPassed, NextAhead, Built;
  }

  /** With unambiguous hits, all accepted within the radius on each axis, the grid gives the match of a scan of
      all signs. */
  lemma GridAnswersAsScan(p: Pose, states: map<string, Display>, signs: seq<Sign>)
    requires p.Valid() && AcceptedAreNear(p, states, signs) && Unambiguous(Hits(p, states, signs))
    ensures MatchOf(Hits(p, states, Nearby(signs, p))) == MatchOf(Hits(p, states, signs))
  {
    hide Hits, MatchOf, Nearby, AcceptedAreNear, Unambiguous;
    GridEqualsScan(p, states, signs);
    SameMembers(Hits(p, states, signs), Hits(p, states, Nearby(signs, p)));
    assert SameHits(Hits(p, states, signs), Hits(p, states, Nearby(signs, p)));
    hide SameHits;
    OrderDoesNotMatter(Hits(p, states, signs), Hits(p, states, Nearby(signs, p)));
  }

  // ----- ambiguous hits give different matches in different orders

  /** What a hit's key says, as the code makes keys of signs. */
  predicate Keyed(hits: seq<Hit>) {
    forall h | h in hits :: h.key == (h.road, h.carriageway, RoundHalfEven(h.km * 1000.0))
  }

  lemma {:induction false} HitsAreKeyed(p: Pose, states: map<string, Display>, signs: seq<Sign>)
    ensures Keyed(Hits(p, states, signs))
    decreases |signs|
  {
    hide InBox, Along, RoundHalfEven;
    if signs != [] {
      HitsAreKeyed(p, states, signs[..|signs| - 1]);
    }
  }

  function PutFirst(a: seq<Hit>, i: nat): seq<Hit>
    requires i < |a|
  {
    [a[i]] + (a[..i] + a[i + 1..])
  }

  function PutLast(a: seq<Hit>, i: nat): seq<Hit>
    requires i < |a|
  {
    (a[..i] + a[i + 1..]) + [a[i]]
  }

  lemma Reordered(a: seq<Hit>, i: nat)
    requires i < |a|
    ensures multiset(PutFirst(a, i)) == multiset(a) && multiset(PutLast(a, i)) == multiset(a)
    ensures SameHits(a, PutFirst(a, i)) && SameHits(a, PutLast(a, i))
  {
    assert a == a[..i] + [a[i]] + a[i + 1..];
    SameMembers(a, PutFirst(a, i));
    SameMembers(a, PutLast(a, i));
  }

  /** The first entry stays as it is unless a nearer hit of its gantry comes. */
  lemma {:induction false} FirstEntryStays(x: Hit, q: seq<Hit>)
    requires forall h | h in q && h.key == x.key :: Abs(x.along) <= Abs(h.along)
    ensures var d := Accumulate([x] + q); d != [] && d[0].first == x && d[0].along == x.along
    decreases |q|
  {
    hide Abs;
    if q == [] {
      NothingAccumulates();
      AccumulateSnoc([], x);
      assert [x] + q == [] + [x];
    } else {
      var k := |q| - 1;
      FirstEntryStays(x, q[..k]);
      AccumulateSnoc([x] + q[..k], q[k]);
      assert [x] + q == ([x] + q[..k]) + [q[k]];
      assert q[k] in q;
      hide Accumulate;
    }
  }

  lemma {:induction false} FirstOfThePassed(entries: seq<Entry>)
    requires entries != [] && entries[0].along <= 0.0 && forall e | e in entries && e.along <= 0.0 :: e.along <= entries[0].along
    ensures LastPassed(entries) == Some(entries[0])
    decreases |entries|
  {
    var k := |entries| - 1;
    assert entries[k] in entries;
    if k > 0 {
      FirstOfThePassed(entries[..k]);
    } else {
      assert entries[..0] == [];
    }
  }

  lemma {:induction false} FirstOfTheNext(entries: seq<Entry>)
    requires entries != [] && entries[0].along > 0.0 && forall e | e in entries && e.along > 0.0 :: e.along >= entries[0].along
    ensures NextAhead(entries) == Some(entries[0])
    decreases |entries|
  {
    var k := |entries| - 1;
    assert entries[k] in entries;
    if k > 0 {
      FirstOfTheNext(entries[..k]);
    } else {
      assert entries[..0] == [];
    }
  }

  lemma FirstEntry(a: seq<Hit>, i: nat)
    requires i < |a| && Nearest(a, a[i])
    ensures var d := Accumulate(PutFirst(a, i)); d != [] && d[0].first == a[i] && d[0].along == a[i].along
  {
    var q := a[..i] + a[i + 1..];
    assert forall h | h in q :: h in a;
    hide Abs;
    FirstEntryStays(a[i], q);
  }

  /** A foremost hit that comes first is reported. */
  lemma ForemostFirst(a: seq<Hit>, i: nat)
    requires i < |a| && Foremost(a, a[i])
    ensures var d := Accumulate(PutFirst(a, i));
      d != [] && d[0].first == a[i] && Winner(MatchOf(PutFirst(a, i)), Ahead(a[i])) == Some(Build(d[0]))
  {
    FirstEntry(a, i);
    Reordered(a, i);
    var b := PutFirst(a, i);
    AccumulateGroups(b);
    var d := Accumulate(b);
    hide Accumulate, PutFirst, Build;
    forall e | e in d && (e.along > 0.0) == Ahead(a[i]) ensures Abs(d[0].along) <= Abs(e.along) {
      var y := EntryIsNearest(d, b, e);
      NearestAlike(a, b, y);
    }
    hide Grouped, Foremost;
    if Ahead(a[i]) {
      FirstOfTheNext(d);
    } else {
      FirstOfThePassed(d);
    }
  }

  lemma KeyFromGantry(hits: seq<Hit>, x: Hit, y: Hit)
    requires Keyed(hits) && x in hits && y in hits && x.road == y.road && x.carriageway == y.carriageway && x.km == y.km
    ensures x.key == y.key
  {
    hide RoundHalfEven;
  }

  /** Two gantries foremost on a side. */
  lemma TwoForemost(a: seq<Hit>, i: nat, j: nat)
    requires Keyed(a) && i < |a| && j < |a| && Foremost(a, a[i]) && Foremost(a, a[j])
    requires Ahead(a[i]) == Ahead(a[j]) && a[i].key != a[j].key
    ensures MatchOf(PutFirst(a, i)) != MatchOf(PutFirst(a, j))
  {
    ForemostFirst(a, i);
    ForemostFirst(a, j);
    hide MatchOf, Accumulate, PutFirst, Foremost, Keyed;
    if MatchOf(PutFirst(a, i)) == MatchOf(PutFirst(a, j)) {
      KeyFromGantry(a, a[i], a[j]);
    }
  }

  /** A foremost gantry that is just as near on the other side. */
  lemma TwoSides(a: seq<Hit>, i: nat, j: nat)
    requires Keyed(a) && i < |a| && j < |a| && Foremost(a, a[i]) && Nearest(a, a[j])
    requires a[i].key == a[j].key && a[i].along != a[j].along
    ensures MatchOf(PutFirst(a, i)) != MatchOf(PutFirst(a, j))
  {
    ForemostFirst(a, i);
    FirstEntry(a, j);
    Reordered(a, j);
    var b := PutFirst(a, j);
    AccumulateGroups(b);
    assert Abs(a[i].along) == Abs(a[j].along) && Ahead(a[i]) != Ahead(a[j]);
    hide MatchOf, Accumulate, PutFirst, Foremost, Keyed, Nearest;
    if MatchOf(PutFirst(a, i)) == MatchOf(b) {
      var e := BestEntry(b, Ahead(a[i]));
      EntryLanes(b, e);
      KeyFromGantry(a, a[i], e.first);
      SameEntry(Accumulate(b), e);
    }
  }

  lemma SameEntry(d: seq<Entry>, e: Entry)
    requires d != [] && Distinct(d) && e in d && e.first.key == d[0].first.key
    ensures e == d[0]
  {
    var k :| 0 <= k < |d| && d[k] == e;
  }

  lemma FirstParticulars(a: seq<Hit>, x: Hit, i: nat) returns (e: Entry)
    requires Clear(a) && Foremost(a, x) && i < |a| && a[i].key == x.key
    ensures Winner(MatchOf(PutFirst(a, i)), Ahead(x)) == Some(Build(e)) && e.first == a[i]
  {
    var b := PutFirst(a, i);
    Reordered(a, i);
    UnambiguousAlike(a, b);
    ForemostAlike(a, b, x);
    assert b[0] == a[i];
    hide Clear, Foremost, MatchOf, PutFirst, Build, Accumulate;
    e := WinnerOf(b, x);
    FirstHit(b, e);
  }

  lemma FirstHit(b: seq<Hit>, e: Entry)
    requires e in Accumulate(b) && b != [] && b[0].key == e.first.key
    ensures e.first == b[0]
  {
    AccumulateGroups(b);
    hide Accumulate, Lanes;
    var k :| 0 <= k < |Accumulate(b)| && Accumulate(b)[k] == e;
    assert Founded(Accumulate(b)[k], b);
  }

  lemma LastDisplay(a: seq<Hit>, x: Hit, i: nat) returns (e: Entry)
    requires Clear(a) && Foremost(a, x) && i < |a| && a[i].key == x.key
    ensures Winner(MatchOf(PutLast(a, i)), Ahead(x)) == Some(Build(e))
    ensures a[i].lane in e.lanes && e.lanes[a[i].lane] == a[i].display
  {
    var b := PutLast(a, i);
    Reordered(a, i);
    UnambiguousAlike(a, b);
    ForemostAlike(a, b, x);
    LanesSnoc(a[..i] + a[i + 1..], a[i], x.key);
    hide Clear, Foremost, MatchOf, Lanes;
    e := WinnerOf(b, x);
    EntryLanes(b, e);
  }

  lemma TwoParticulars(a: seq<Hit>, x: Hit, i: nat, j: nat) returns (b: seq<Hit>, d: seq<Hit>)
    requires Clear(a) && Foremost(a, x) && i < |a| && j < |a| && a[i].key == x.key && a[j].key == x.key && !Agree(a[i], a[j])
    ensures multiset(b) == multiset(a) && multiset(d) == multiset(a) && MatchOf(b) != MatchOf(d)
  {
    Reordered(a, i);
    Reordered(a, j);
    hide Clear, Foremost, MatchOf;
    if a[i].lane == a[j].lane && a[i].display != a[j].display {
      b, d := PutLast(a, i), PutLast(a, j);
      var u := LastDisplay(a, x, i);
      var v := LastDisplay(a, x, j);
      hide PutFirst, PutLast;
      assert Build(u) != Build(v);
    } else {
      b, d := PutFirst(a, i), PutFirst(a, j);
      var u := FirstParticulars(a, x, i);
      var v := FirstParticulars(a, x, j);
      hide PutFirst, PutLast;
      assert Build(u) != Build(v);
    }
  }

  lemma TwoOrders(a: seq<Hit>) returns (b: seq<Hit>, d: seq<Hit>)
    requires Keyed(a) && !Unambiguous(a)
    ensures multiset(b) == multiset(a) && multiset(d) == multiset(a) && MatchOf(b) != MatchOf(d)
  {
    hide MatchOf, Foremost, Nearest, Keyed, Agree;
    if !Clear(a) {
      var x, y :| x in a && y in a && Foremost(a, x) && Nearest(a, y)
        && !((x.key == y.key ==> x.along == y.along) && (Foremost(a, y) && Ahead(x) == Ahead(y) ==> x.key == y.key));
      var i :| 0 <= i < |a| && a[i] == x;
      var j :| 0 <= j < |a| && a[j] == y;
      Reordered(a, i);
      Reordered(a, j);
      b, d := PutFirst(a, i), PutFirst(a, j);
      if x.key == y.key {
        TwoSides(a, i, j);
      } else {
        TwoForemost(a, i, j);
      }
    } else {
      var x, y, z :| x in a && y in a && z in a && Foremost(a, x) && x.key == y.key && x.key == z.key && !Agree(y, z);
      var i :| 0 <= i < |a| && a[i] == y;
      var j :| 0 <= j < |a| && a[j] == z;
      hide Clear;
      b, d := TwoParticulars(a, x, i, j);
    }
  }

  /** The match is the same in every order of the hits if and only if they are unambiguous. */
  lemma OrderMattersExactly(a: seq<Hit>)
    requires Keyed(a)
    ensures (forall b | multiset(b) == multiset(a) :: MatchOf(b) == MatchOf(a)) <==> Unambiguous(a)
  {
    hide MatchOf, Clear, Agreeing, Keyed;
    if Unambiguous(a) {
      forall b | multiset(b) == multiset(a) ensures MatchOf(b) == MatchOf(a) {
        SameMembers(a, b);
        OrderDoesNotMatter(a, b);
      }
    } else {
      var b, d := TwoOrders(a);
    }
  }

  /** Two hits of one gantry at the same distance before and behind: the first decides the side. */
  lemma OrderMattersOnTies(h: Hit)
    requires h.along > 0.0
    ensures var g := h.(along := -h.along); MatchOf([h, g]).governing == None && MatchOf([g, h]).upcoming == None
  {
    var g := h.(along := -h.along);
    TwoHits(h, g);
    TwoHits(g, h);
    hide AddHit, Accumulate;
    assert Accumulate([h, g])[0].along > 0.0 && Accumulate([g, h])[0].along <= 0.0;
    LastPassedFacts(Accumulate([h, g]));
    NextAheadFacts(Accumulate([g, h]));
    hide LastPassed, NextAhead;
  }

  lemma TwoHits(x: Hit, y: Hit)
    requires x.key == y.key && Abs(x.along) == Abs(y.along)
    ensures |Accumulate([x, y])| == 1 && Accumulate([x, y])[0].along == x.along
  {
    NothingAccumulates();
    AccumulateSnoc([], x);
    AccumulateSnoc([x], y);
    assert [] + [x] == [x] && [x] + [y] == [x, y];
    hide Accumulate;
  }
}
