/** The tile grid, signed manifests, and the gateway's tile store. */
module OsmServer {
  import opened Wrappers
  import opened Sequences

  type Bytes = seq<bv8>
  type Hash = string
  type ETag = string
  type Signature = string
  type Roads = seq<string>
  type Tile = (int, int)
  type Group = (int, int)

  // ----- the grid

  const TILES_PER_DEGREE := 4.0     // tiles of 0.25 degrees
  const GROUP_STEP := 8             // groups of 2 degrees

  function TileOf(lat: real, lon: real): Tile { ((lat * TILES_PER_DEGREE).Floor, (lon * TILES_PER_DEGREE).Floor) }

  /** Integer division rounds down, for negative indices too. */
  function GroupOf(t: Tile): Group { (t.0 / GROUP_STEP * GROUP_STEP, t.1 / GROUP_STEP * GROUP_STEP) }

  /** A group holds exactly the eight by eight tiles from its corner on. */
  lemma GroupIsSquare(t: Tile, g: Group)
    requires g.0 % GROUP_STEP == 0 && g.1 % GROUP_STEP == 0
    ensures GroupOf(t) == g <==> g.0 <= t.0 < g.0 + GROUP_STEP && g.1 <= t.1 < g.1 + GROUP_STEP
  {
  }

  /** A tile holds the positions of its quarter of a degree. */
  lemma TileHolds(lat: real, lon: real, t: Tile)
    ensures TileOf(lat, lon) == t
       <==> t.0 as real * 0.25 <= lat < (t.0 as real + 1.0) * 0.25 && t.1 as real * 0.25 <= lon < (t.1 as real + 1.0) * 0.25
  {
  }

  /** The group is the square of two degrees, on even degrees, that holds the position. */
  predicate Holds(g: Group, lat: real, lon: real) {
    && g.0 % 8 == 0 && g.1 % 8 == 0
    && g.0 as real * 0.25 <= lat < g.0 as real * 0.25 + 2.0
    && g.1 as real * 0.25 <= lon < g.1 as real * 0.25 + 2.0
  }

  lemma GroupHolds(lat: real, lon: real, g: Group)
    ensures Holds(g, lat, lon) <==> g == GroupOf(TileOf(lat, lon))
  {
    var t := TileOf(lat, lon);
    TileHolds(lat, lon, t);
    GroupIsAligned(t);
    hide TileOf, GroupOf;
    if g.0 % GROUP_STEP == 0 && g.1 % GROUP_STEP == 0 {
      GroupIsSquare(t, g);
      InSquare(lat, t.0, g.0);
      InSquare(lon, t.1, g.1);
    }
  }

  lemma GroupIsAligned(t: Tile)
    ensures GroupOf(t).0 % GROUP_STEP == 0 && GroupOf(t).1 % GROUP_STEP == 0
  {
  }

  lemma InSquare(x: real, t: int, g: int)
    requires t as real * 0.25 <= x < (t as real + 1.0) * 0.25
    ensures g <= t < g + 8 <==> g as real * 0.25 <= x < g as real * 0.25 + 2.0
  {
  }

  // ----- manifests

  datatype TileRef = TileRef(tile: Tile, hash: Hash, size: nat)

  datatype Manifest = Manifest(group: Group, generatedAt: int, tiles: seq<TileRef>)

  datatype Signed = Signed(manifest: Manifest, signature: Signature)

  /** Everything cryptographic, and the tile decoder, as parameters. */
  datatype Crypto = Crypto(hash: Bytes -> Hash, sign: Manifest -> Signature, verify: Signed -> bool,
                           etag: Signed -> ETag, decode: Bytes -> Option<Roads>) {
    function Sign(m: Manifest): Signed { Signed(m, sign(m)) }

    /** No two byte strings share a hash, and no two signed manifests an ETag. */
    ghost predicate CollisionFree() {
      && (forall a, b :: hash(a) == hash(b) ==> a == b)
      && forall a, b :: etag(a) == etag(b) ==> a == b
    }

    /** What the gateway signs verifies. */
    ghost predicate SignsSoundly() { forall m :: verify(Sign(m)) }
  }

  function Get<K, V>(m: map<K, V>, k: K): Option<V> { if k in m then Some(m[k]) else None }

  predicate Before(a: Tile, b: Tile) { a.0 < b.0 || (a.0 == b.0 && a.1 < b.1) }

  /** A stable insertion by tile, then the sort it makes. */
  function Insert(r: TileRef, sorted: seq<TileRef>): seq<TileRef> {
    if sorted == [] || Before(r.tile, sorted[0].tile) then [r] + sorted
    else [sorted[0]] + Insert(r, sorted[1..])
  }

  function Sort(refs: seq<TileRef>): seq<TileRef> {
    if refs == [] then [] else Insert(refs[|refs| - 1], Sort(refs[..|refs| - 1]))
  }

  predicate Leads(r: TileRef, refs: seq<TileRef>) { forall x | x in refs :: !Before(x.tile, r.tile) }

  predicate Sorted(refs: seq<TileRef>) { refs == [] || (Leads(refs[0], refs[1..]) && Sorted(refs[1..])) }

  predicate DistinctTiles(refs: seq<TileRef>) {
    forall i, j | 0 <= i < |refs| && 0 <= j < |refs| && refs[i].tile == refs[j].tile :: i == j
  }

  lemma {:induction false} InsertKeeps(r: TileRef, sorted: seq<TileRef>)
    ensures multiset(Insert(r, sorted)) == multiset(sorted) + multiset{r}
    ensures forall x | x in Insert(r, sorted) :: x == r || x in sorted
    decreases |sorted|
  {
    if sorted != [] && !Before(r.tile, sorted[0].tile) {
      InsertKeeps(r, sorted[1..]);
      assert sorted == [sorted[0]] + sorted[1..];
      hide Before;
    }
  }

  lemma {:induction false} InsertSorts(r: TileRef, sorted: seq<TileRef>)
    requires Sorted(sorted)
    ensures Sorted(Insert(r, sorted))
    decreases |sorted|
  {
    if sorted == [] || Before(r.tile, sorted[0].tile) {
      assert ([r] + sorted)[1..] == sorted;
      if sorted != [] {
        assert sorted == [sorted[0]] + sorted[1..];
      }
    } else {
      InsertSorts(r, sorted[1..]);
      InsertKeeps(r, sorted[1..]);
      assert ([sorted[0]] + Insert(r, sorted[1..]))[1..] == Insert(r, sorted[1..]);
    }
  }

  lemma {:induction false} SortSorts(refs: seq<TileRef>)
    ensures Sorted(Sort(refs)) && multiset(Sort(refs)) == multiset(refs)
    decreases |refs|
  {
    if refs != [] {
      var k := |refs| - 1;
      SortSorts(refs[..k]);
      InsertSorts(refs[k], Sort(refs[..k]));
      InsertKeeps(refs[k], Sort(refs[..k]));
      LastTakenOut(refs);
      hide Insert, Sorted;
    }
  }

  /** With one entry per tile the sorted list depends on the entries alone, not on their order. */
  lemma {:induction false} SortedIsCanonical(a: seq<TileRef>, b: seq<TileRef>)
    requires Sorted(a) && Sorted(b) && DistinctTiles(a) && multiset(a) == multiset(b)
    ensures a == b
    decreases |a|
  {
    if a == [] {
      assert |multiset(b)| == 0;
    } else {
      SameMembers(a, b);
      FirstIsLeast(a, b);
      RestsAlike(a, b);
      hide Leads;
      SortedIsCanonical(a[1..], b[1..]);
      assert a == [a[0]] + a[1..] && b == [b[0]] + b[1..];
    }
  }

  lemma FirstIsLeast(a: seq<TileRef>, b: seq<TileRef>)
    requires a != [] && b != [] && Leads(a[0], a[1..]) && Leads(b[0], b[1..])
    requires DistinctTiles(a) && multiset(a) == multiset(b)
    ensures a[0] == b[0]
  {
    SameMembers(a, b);
    assert a == [a[0]] + a[1..] && b == [b[0]] + b[1..];
    assert a[0] in b && b[0] in a;
    var j :| 0 <= j < |a| && a[j] == b[0];
  }

  // ----- the store

  /** `order` is the dictionary's insertion order. */
  datatype Store = Store(order: seq<Tile>, bytes: map<Tile, Bytes>, generatedAt: int) {
    predicate Valid() {
      && (forall t | t in order :: t in bytes) && (forall t | t in bytes :: t in order)
      && forall i, j | 0 <= i < j < |order| :: order[i] != order[j]
    }

    function Put(t: Tile, b: Bytes): Store {
      this.(order := if t in bytes then order else order + [t], bytes := bytes[t := b])
    }

    function Refs(c: Crypto, tiles: seq<Tile>, g: Group): seq<TileRef>
      requires forall t | t in tiles :: t in bytes
    {
      if tiles == [] then []
      else
        var k := |tiles| - 1;
        var t := tiles[k];
        Refs(c, tiles[..k], g) + if GroupOf(t) == g then [TileRef(t, c.hash(bytes[t]), |bytes[t]|)] else []
    }

    function ManifestOf(c: Crypto, g: Group): Option<Signed>
      requires Valid()
    {
      var refs := Refs(c, order, g);
      if refs == [] then None else Some(c.Sign(Manifest(g, generatedAt, Sort(refs))))
    }
  }

  lemma PutKeepsValid(s: Store, t: Tile, b: Bytes)
    requires s.Valid()
    ensures s.Put(t, b).Valid()
  {
  }

  function Hashes(c: Crypto, bytes: map<Tile, Bytes>): map<Tile, Hash> { map t | t in bytes :: c.hash(bytes[t]) }

  lemma HashesUpdate(c: Crypto, bytes: map<Tile, Bytes>, t: Tile, b: Bytes)
    ensures Hashes(c, bytes[t := b]) == Hashes(c, bytes)[t := c.hash(b)]
  {
  }

  class TileStore {
    const crypto: Crypto
    const generatedAt: int
    var order: seq<Tile>
    var bytes: map<Tile, Bytes>
    var hashes: map<Tile, Hash>

    function View(): Store
      reads this
    {
      Store(order, bytes, generatedAt)
    }

    predicate Valid()
      reads this
    {
      View().Valid() && hashes == Hashes(crypto, bytes)
    }

    constructor (crypto: Crypto, generatedAt: int)
      ensures Valid() && View() == Store([], map[], generatedAt) && this.crypto == crypto
    {
      this.crypto, this.generatedAt := crypto, generatedAt;
      order, bytes, hashes := [], map[], map[];
    }

    method PutTile(t: Tile, b: Bytes)
      requires Valid()
      modifies this
      ensures Valid() && View() == old(View()).Put(t, b)
    {
      PutKeepsValid(View(), t, b);
      HashesUpdate(crypto, bytes, t, b);
      hide Store.Valid, Hashes;
      if t !in bytes {
        order := order + [t];
      }
      bytes := bytes[t := b];
      hashes := hashes[t := crypto.hash(b)];
    }

    method GetManifest(g: Group) returns (m: Option<Signed>)
      requires Valid()
      ensures m == View().ManifestOf(crypto, g)
    {
      var refs: seq<TileRef> := [];
      for k := 0 to |order|
        invariant refs == View().Refs(crypto, order[..k], g)
      {
        assert order[..k + 1][..k] == order[..k];
        var t := order[k];
        assert t in bytes;
        if GroupOf(t) == g {
          refs := refs + [TileRef(t, hashes[t], |bytes[t]|)];
        }
      }
      assert order[..|order|] == order;
      if refs == [] {
        return None;
      }
      m := Some(crypto.Sign(Manifest(g, generatedAt, Sort(refs))));
    }
  }

  // ----- what a manifest lists

  lemma {:induction false} RefsFacts(s: Store, c: Crypto, tiles: seq<Tile>, g: Group)
    requires forall t | t in tiles :: t in s.bytes
    requires forall i, j | 0 <= i < j < |tiles| :: tiles[i] != tiles[j]
    ensures var refs := s.Refs(c, tiles, g);
      && DistinctTiles(refs)
      && (forall r | r in refs :: r.tile in tiles && GroupOf(r.tile) == g && r == TileRef(r.tile, c.hash(s.bytes[r.tile]), |s.bytes[r.tile]|))
      && forall t | t in tiles && GroupOf(t) == g :: TileRef(t, c.hash(s.bytes[t]), |s.bytes[t]|) in refs
    decreases |tiles|
  {
    if tiles != [] {
      var k := |tiles| - 1;
      RefsFacts(s, c, tiles[..k], g);
      assert tiles == tiles[..k] + [tiles[k]];
    }
  }

  /** A group's entries: each of its tiles once, with the hash of its bytes, and nothing else. */
  predicate Lists(c: Crypto, s: Store, g: Group, refs: seq<TileRef>) {
    && DistinctTiles(refs)
    && (forall r | r in refs :: r.tile in s.bytes && GroupOf(r.tile) == g && r == TileRef(r.tile, c.hash(s.bytes[r.tile]), |s.bytes[r.tile]|))
    && forall t | t in s.bytes && GroupOf(t) == g :: TileRef(t, c.hash(s.bytes[t]), |s.bytes[t]|) in refs
  }

  lemma DistinctUnderReordering(a: seq<TileRef>, b: seq<TileRef>)
    requires DistinctTiles(a) && multiset(a) == multiset(b)
    ensures DistinctTiles(b)
  {
    forall i, j | 0 <= i < j < |b| && b[i].tile == b[j].tile
      ensures false
    {
      assert b[i] in multiset(a) && b[j] in multiset(a);
      var k :| 0 <= k < |a| && a[k] == b[i];
      var l :| 0 <= l < |a| && a[l] == b[j];
      assert k == l && b[i] == b[j];
      OccursTwice(b, i, j);
      OccursOnce(a, k);
    }
  }

  lemma OccursTwice<T>(s: seq<T>, i: nat, j: nat)
    requires i < j < |s| && s[i] == s[j]
    ensures multiset(s)[s[i]] >= 2
  {
    assert s == s[..j] + [s[j]] + s[j + 1..];
    assert s[i] in s[..j];
  }

  lemma {:induction false} OccursOnce(a: seq<TileRef>, k: nat)
    requires k < |a| && DistinctTiles(a)
    ensures multiset(a)[a[k]] == 1
  {
    assert a == a[..k] + [a[k]] + a[k + 1..];
    assert a[k] !in a[..k] && a[k] !in a[k + 1..];
  }

  lemma ManifestLists(s: Store, c: Crypto, g: Group)
    requires s.Valid() && s.ManifestOf(c, g).Some?
    ensures Lists(c, s, g, s.ManifestOf(c, g).value.manifest.tiles)
  {
    RefsList(s, c, g);
    var refs := s.Refs(c, s.order, g);
    SortSorts(refs);
    assert s.ManifestOf(c, g).value.manifest.tiles == Sort(refs);
    DistinctUnderReordering(refs, Sort(refs));
    SameMembers(refs, Sort(refs));
    hide Sort, Sorted, DistinctTiles, GroupOf, Store.Refs, Store.Valid, Store.ManifestOf;
  }

  lemma RefsList(s: Store, c: Crypto, g: Group)
    requires s.Valid()
    ensures Lists(c, s, g, s.Refs(c, s.order, g))
  {
    RefsFacts(s, c, s.order, g);
    hide Store.Refs, DistinctTiles, GroupOf;
  }

  /** Stores that hold the same tiles for a group issue the same manifest, in whatever order they were
      filled; so unchanged data keeps its ETag. */
  lemma ManifestIsCanonical(s: Store, t: Store, c: Crypto, g: Group)
    requires s.Valid() && t.Valid() && s.generatedAt == t.generatedAt
    requires forall x | GroupOf(x) == g :: Get(s.bytes, x) == Get(t.bytes, x)
    ensures s.ManifestOf(c, g) == t.ManifestOf(c, g)
  {
    var a, b := s.Refs(c, s.order, g), t.Refs(c, t.order, g);
    RefsList(s, c, g);
    RefsList(t, c, g);
    ListsAgree(c, s, t, g, a, b);
    SameEntries(a, b);
    SameMembers(a, b);
    SortSorts(a);
    SortSorts(b);
    DistinctUnderReordering(a, Sort(a));
    SortedIsCanonical(Sort(a), Sort(b));
    hide Sort, Sorted, Lists, DistinctTiles, GroupOf, Store.Refs, Store.Valid;
  }

  lemma ListsAgree(c: Crypto, s: Store, t: Store, g: Group, a: seq<TileRef>, b: seq<TileRef>)
    requires Lists(c, s, g, a) && Lists(c, t, g, b)
    requires forall x | GroupOf(x) == g :: Get(s.bytes, x) == Get(t.bytes, x)
    ensures forall r :: r in a <==> r in b
  {
    hide GroupOf, DistinctTiles;
    forall r ensures r in a <==> r in b {
      if r in a {
        assert Get(s.bytes, r.tile) == Get(t.bytes, r.tile);
      }
      if r in b {
        assert Get(s.bytes, r.tile) == Get(t.bytes, r.tile);
      }
    }
  }

  lemma SameEntries(a: seq<TileRef>, b: seq<TileRef>)
    requires DistinctTiles(a) && DistinctTiles(b) && forall r :: r in a <==> r in b
    ensures multiset(a) == multiset(b)
  {
    forall r ensures multiset(a)[r] == multiset(b)[r] {
      if r in a {
        var i :| 0 <= i < |a| && a[i] == r;
        OccursOnce(a, i);
        var j :| 0 <= j < |b| && b[j] == r;
        OccursOnce(b, j);
      } else {
        assert r !in multiset(a) && r !in multiset(b);
      }
    }
  }

  // ----- what a manifest looks like

  lemma {:induction false} SortedInOrder(refs: seq<TileRef>, i: nat, j: nat)
    requires Sorted(refs) && i < j < |refs|
    ensures refs[i].tile.0 < refs[j].tile.0 || (refs[i].tile.0 == refs[j].tile.0 && refs[i].tile.1 <= refs[j].tile.1)
    decreases |refs|
  {
    if i > 0 {
      SortedInOrder(refs[1..], i - 1, j - 1);
    } else {
      assert refs[j] in refs[1..];
    }
  }

  /** A group has a manifest exactly when it has a tile; the manifest names the group and lists the tiles by latitude,
      then longitude. */
  lemma ManifestSays(s: Store, c: Crypto, g: Group)
    requires s.Valid()
    ensures s.ManifestOf(c, g).Some? <==> exists t | t in s.bytes :: GroupOf(t) == g
    ensures s.ManifestOf(c, g).Some? ==>
      var m := s.ManifestOf(c, g).value.manifest;
      && m.group == g && m.generatedAt == s.generatedAt && s.ManifestOf(c, g).value.signature == c.sign(m)
      && forall i, j | 0 <= i < j < |m.tiles| ::
           m.tiles[i].tile.0 < m.tiles[j].tile.0 || (m.tiles[i].tile.0 == m.tiles[j].tile.0 && m.tiles[i].tile.1 < m.tiles[j].tile.1)
  {
    RefsList(s, c, g);
    var refs := s.Refs(c, s.order, g);
    hide GroupOf, Store.Refs;
    if refs != [] {
      assert refs[0] in refs;
      ManifestLists(s, c, g);
      SortSorts(refs);
      var tiles := s.ManifestOf(c, g).value.manifest.tiles;
      assert tiles == Sort(refs);
      hide Sort, Sorted;
      forall i, j | 0 <= i < j < |tiles|
        ensures tiles[i].tile.0 < tiles[j].tile.0 || (tiles[i].tile.0 == tiles[j].tile.0 && tiles[i].tile.1 < tiles[j].tile.1)
      {
        SortedInOrder(tiles, i, j);
        assert tiles[i].tile != tiles[j].tile;
      }
    }
  }
}
