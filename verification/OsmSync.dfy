/** The device's tile cache and its synchronization with the gateway. */
module OsmSync {
  import opened Wrappers
  import opened OsmServer

  /** What a request for the manifest yields: 304, a 200 whose body is a signed object, a 200 with any
      other body, or any other outcome. */
  datatype ManifestReply = NotModified | Body(signed: Signed) | NotAnObject | NoReply

  /** A 200 with its body, or any other outcome. */
  datatype TileReply = TileBody(bytes: Bytes) | NoTile

  datatype Cache = Cache(roads: map<Tile, Roads>, hash: map<Tile, Hash>, etags: map<Group, ETag>) {
    function Local(g: Group): map<Tile, Hash> { map t | t in hash && GroupOf(t) == g :: hash[t] }

    function Fetched(c: Crypto, r: TileRef, reply: TileReply): Cache {
      if Good(c, r, reply) then this.(roads := roads[r.tile := c.decode(reply.bytes).value], hash := hash[r.tile := r.hash])
      else this
    }

    /** The k-th request gets the k-th reply. */
    function FetchedAll(c: Crypto, refs: seq<TileRef>, fetch: nat -> TileReply): Cache
      decreases |refs|
    {
      if refs == [] then this
      else
        var k := |refs| - 1;
        FetchedAll(c, refs[..k], fetch).Fetched(c, refs[k], fetch(k))
    }

    function Stale(g: Group, tiles: seq<TileRef>): set<Tile> {
      set t | t in hash && GroupOf(t) == g && !(exists r | r in tiles :: r.tile == t)
    }

    function Pruned(g: Group, tiles: seq<TileRef>): Cache {
      this.(roads := roads - Stale(g, tiles), hash := hash - Stale(g, tiles))
    }

    /** The cache after a sync, and what the sync returns. */
    function Synced(c: Crypto, g: Group, reply: ManifestReply, fetch: nat -> TileReply): (Cache, bool) {
      match reply
      case NotModified => (this, true)
      case NotAnObject | NoReply => (this, false)
      case Body(s) =>
        if !c.verify(s) then (this, false)
        else
          var tiles := s.manifest.tiles;
          var after := FetchedAll(c, Wanted(Local(g), tiles), fetch).Pruned(g, tiles);
          (after.(etags := after.etags[g := c.etag(s)]), true)
    }
  }

  /** Nonempty bytes that match the listed hash and decode. */
  predicate Good(c: Crypto, r: TileRef, reply: TileReply) {
    reply.TileBody? && reply.bytes != [] && c.hash(reply.bytes) == r.hash && c.decode(reply.bytes).Some?
  }

  /** tiles_to_fetch: the entries whose hash is missing or differs. */
  function Wanted(local: map<Tile, Hash>, tiles: seq<TileRef>): seq<TileRef> {
    if tiles == [] then []
    else
      var k := |tiles| - 1;
      Wanted(local, tiles[..k]) + if Get(local, tiles[k].tile) != Some(tiles[k].hash) then [tiles[k]] else []
  }

  function MapOf(tiles: seq<TileRef>): map<Tile, Hash> {
    if tiles == [] then map[] else MapOf(tiles[..|tiles| - 1])[tiles[|tiles| - 1].tile := tiles[|tiles| - 1].hash]
  }

  class OsmTileClient {
    const crypto: Crypto
    var roads: map<Tile, Roads>
    var hash: map<Tile, Hash>
    var groupEtag: map<Group, ETag>
    var syncedAt: map<Group, real>

    function View(): Cache
      reads this
    {
      Cache(roads, hash, groupEtag)
    }

    constructor (crypto: Crypto)
      ensures View() == Cache(map[], map[], map[]) && this.crypto == crypto
    {
      this.crypto := crypto;
      roads, hash, groupEtag, syncedAt := map[], map[], map[], map[];
    }

    /** The ETag sent with the manifest request. */
    function IfNoneMatch(g: Group): Option<ETag>
      reads this
    {
      Get(groupEtag, g)
    }

    method TilesToFetch(local: map<Tile, Hash>, tiles: seq<TileRef>) returns (out: seq<TileRef>)
      ensures out == Wanted(local, tiles)
    {
      out := [];
      for k := 0 to |tiles|
        invariant out == Wanted(local, tiles[..k])
      {
        assert tiles[..k + 1][..k] == tiles[..k];
        if Get(local, tiles[k].tile) != Some(tiles[k].hash) {
          out := out + [tiles[k]];
        }
      }
      assert tiles[..|tiles|] == tiles;
    }

    method FetchTile(r: TileRef, reply: TileReply)
      modifies this`roads, this`hash
      ensures View() == old(View()).Fetched(crypto, r, reply)
    {
      if !reply.TileBody? || reply.bytes == [] {
        return;
      }
      if crypto.hash(reply.bytes) != r.hash {
        return;
      }
      var decoded := crypto.decode(reply.bytes);
      if decoded.None? {
        return;
      }
      roads := roads[r.tile := decoded.value];
      hash := hash[r.tile := r.hash];
    }

    method Prune(g: Group, tiles: seq<TileRef>)
      modifies this`roads, this`hash
      ensures View() == old(View()).Pruned(g, tiles)
    {
      var drop := View().Stale(g, tiles);
      ghost var dropped: set<Tile> := {};
      ghost var all := drop;
      while drop != {}
        invariant drop + dropped == all
        invariant roads == old(roads) - dropped && hash == old(hash) - dropped
        decreases drop
      {
        var t :| t in drop;
        roads := roads - {t};
        hash := hash - {t};
        drop := drop - {t};
        dropped := dropped + {t};
      }
    }

    /** Syncs the one group that holds the position.  `answer` is what the network makes of the manifest request and
        the ETag it carries. */
    method Sync(lat: real, lon: real, answer: Option<ETag> -> ManifestReply, fetch: nat -> TileReply, now: real) returns (ok: bool)
      modifies this
      ensures forall g | Holds(g, lat, lon) ::
        (View(), ok) == old(View()).Synced(crypto, g, answer(old(IfNoneMatch(g))), fetch)
      ensures forall g | Holds(g, lat, lon) :: syncedAt == if ok then old(syncedAt)[g := now] else old(syncedAt)
    {
      hide Cache.Local, Cache.Fetched, Cache.Pruned, GroupOf, TileOf;
      var g := GroupOf(TileOf(lat, lon));
      forall h | Holds(h, lat, lon) ensures h == g {
        GroupHolds(lat, lon, h);
      }
      hide Holds;
      var reply := answer(IfNoneMatch(g));
      if reply.NotModified? {
        syncedAt := syncedAt[g := now];
        return true;
      }
      if !reply.Body? {
        return false;
      }
      var s := reply.signed;
      if !crypto.verify(s) {
        return false;
      }
      var wanted := TilesToFetch(View().Local(g), s.manifest.tiles);
      ghost var before := View();
      for k := 0 to |wanted|
        invariant View() == before.FetchedAll(crypto, wanted[..k], fetch)
        invariant groupEtag == old(groupEtag) && syncedAt == old(syncedAt)
      {
        assert wanted[..k + 1][..k] == wanted[..k];
        FetchTile(wanted[k], fetch(k));
      }
      assert wanted[..|wanted|] == wanted;
      Prune(g, s.manifest.tiles);
      groupEtag := groupEtag[g := crypto.etag(s)];
      syncedAt := syncedAt[g := now];
      ok := true;
    }
  }

  // ----- one sync

  lemma FetchedFacts(a: Cache, c: Crypto, r: TileRef, reply: TileReply)
    ensures var b := a.Fetched(c, r, reply);
      && b.etags == a.etags
      && (forall t | t != r.tile :: Get(b.hash, t) == Get(a.hash, t) && Get(b.roads, t) == Get(a.roads, t))
      && Get(b.hash, r.tile) == if Good(c, r, reply) then Some(r.hash) else Get(a.hash, r.tile)
  {
  }

  predicate Covers(refs: seq<TileRef>, t: Tile) { exists r | r in refs :: r.tile == t }

  /** What fetching does, tile by tile. */
  lemma {:induction false} FetchedAllFacts(a: Cache, c: Crypto, refs: seq<TileRef>, fetch: nat -> TileReply)
    requires DistinctTiles(refs)
    ensures var b := a.FetchedAll(c, refs, fetch);
      && b.etags == a.etags
      && (forall t | !Covers(refs, t) :: Get(b.hash, t) == Get(a.hash, t) && Get(b.roads, t) == Get(a.roads, t))
      && forall k | 0 <= k < |refs| ::
           Get(b.hash, refs[k].tile) == if Good(c, refs[k], fetch(k)) then Some(refs[k].hash) else Get(a.hash, refs[k].tile)
    decreases |refs|
  {
    hide Cache.Fetched, Good, Get;
    if refs != [] {
      var k := |refs| - 1;
      FetchedAllFacts(a, c, refs[..k], fetch);
      FetchedFacts(a.FetchedAll(c, refs[..k], fetch), c, refs[k], fetch(k));
      assert refs == refs[..k] + [refs[k]];
      assert forall t | !Covers(refs, t) :: !Covers(refs[..k], t) && t != refs[k].tile;
      assert !Covers(refs[..k], refs[k].tile);
      hide Covers;
    }
  }

  /** Exactly the listed tiles whose hash is missing or differs are wanted. */
  lemma {:induction false} WantedMembers(local: map<Tile, Hash>, tiles: seq<TileRef>, r: TileRef)
    ensures r in Wanted(local, tiles) <==> r in tiles && Get(local, r.tile) != Some(r.hash)
    decreases |tiles|
  {
    hide Get;
    if tiles != [] {
      var k := |tiles| - 1;
      WantedMembers(local, tiles[..k], r);
      assert tiles == tiles[..k] + [tiles[k]];
    }
  }

  lemma {:induction false} WantedDistinct(local: map<Tile, Hash>, tiles: seq<TileRef>)
    requires DistinctTiles(tiles)
    ensures DistinctTiles(Wanted(local, tiles))
    decreases |tiles|
  {
    hide Get;
    if tiles != [] {
      var k := |tiles| - 1;
      WantedDistinct(local, tiles[..k]);
      forall x | x in Wanted(local, tiles[..k]) ensures x.tile != tiles[k].tile {
        WantedMembers(local, tiles[..k], x);
      }
      DistinctSnoc(Wanted(local, tiles[..k]), tiles[k]);
      hide DistinctTiles;
    }
  }

  lemma WantedFacts(local: map<Tile, Hash>, tiles: seq<TileRef>)
    ensures forall r :: r in Wanted(local, tiles) <==> r in tiles && Get(local, r.tile) != Some(r.hash)
    ensures DistinctTiles(tiles) ==> DistinctTiles(Wanted(local, tiles))
  {
    hide Get, Wanted, DistinctTiles;
    forall r ensures r in Wanted(local, tiles) <==> r in tiles && Get(local, r.tile) != Some(r.hash) {
      WantedMembers(local, tiles, r);
    }
    if DistinctTiles(tiles) {
      WantedDistinct(local, tiles);
    }
  }

  lemma DistinctSnoc(refs: seq<TileRef>, r: TileRef)
    requires DistinctTiles(refs) && forall x | x in refs :: x.tile != r.tile
    ensures DistinctTiles(refs + [r])
  {
  }

  lemma {:induction false} MapOfFacts(tiles: seq<TileRef>)
    requires DistinctTiles(tiles)
    ensures forall r | r in tiles :: Get(MapOf(tiles), r.tile) == Some(r.hash)
    ensures forall t | t in MapOf(tiles) :: exists r | r in tiles :: r.tile == t
    decreases |tiles|
  {
    if tiles != [] {
      var k := |tiles| - 1;
      MapOfFacts(tiles[..k]);
      assert tiles == tiles[..k] + [tiles[k]];
    }
  }

  predicate AllGood(c: Crypto, refs: seq<TileRef>, fetch: nat -> TileReply) {
    forall k | 0 <= k < |refs| :: Good(c, refs[k], fetch(k))
  }

  /** A manifest as the gateway makes them: one entry per tile, all of one group. */
  predicate OfGroup(g: Group, tiles: seq<TileRef>) {
    DistinctTiles(tiles) && forall r | r in tiles :: GroupOf(r.tile) == g
  }

  /** A wanted entry whose bytes arrived. */
  predicate Arrived(c: Crypto, wanted: seq<TileRef>, fetch: nat -> TileReply, r: TileRef) {
    exists k | 0 <= k < |wanted| :: wanted[k] == r && Good(c, r, fetch(k))
  }

  function InGroup(g: Group, tiles: seq<TileRef>): seq<TileRef> {
    if tiles == [] then []
    else
      var k := |tiles| - 1;
      InGroup(g, tiles[..k]) + if GroupOf(tiles[k].tile) == g then [tiles[k]] else []
  }

  /** What a sync leaves for a tile the verified manifest does not list. */
  lemma SyncUnlisted(a: Cache, c: Crypto, g: Group, s: Signed, fetch: nat -> TileReply, t: Tile)
    requires c.verify(s) && DistinctTiles(s.manifest.tiles) && !Covers(s.manifest.tiles, t)
    ensures var b := a.Synced(c, g, Body(s), fetch).0;
      if GroupOf(t) == g then Get(b.hash, t) == None
      else Get(b.hash, t) == Get(a.hash, t) && Get(b.roads, t) == Get(a.roads, t)
  {
    var tiles := s.manifest.tiles;
    var wanted := Wanted(a.Local(g), tiles);
    WantedFacts(a.Local(g), tiles);
    FetchedAllFacts(a, c, wanted, fetch);
    assert !Covers(wanted, t);
    hide GroupOf, Good, Wanted, DistinctTiles, Cache.FetchedAll;
  }

  /** ... and for one it lists: the listed hash if the bytes arrived, what was there if not. */
  lemma SyncListed(a: Cache, c: Crypto, g: Group, s: Signed, fetch: nat -> TileReply, r: TileRef)
    requires c.verify(s) && DistinctTiles(s.manifest.tiles) && r in s.manifest.tiles
    ensures Get(a.Synced(c, g, Body(s), fetch).0.hash, r.tile)
         == if Arrived(c, Wanted(a.Local(g), s.manifest.tiles), fetch, r) then Some(r.hash) else Get(a.hash, r.tile)
  {
    var tiles := s.manifest.tiles;
    PrunedKeepsListed(a.FetchedAll(c, Wanted(a.Local(g), tiles), fetch), g, tiles, r);
    hide Cache.Pruned, Cache.Local;
    FetchedListed(a, c, a.Local(g), tiles, fetch, r);
    hide Cache.FetchedAll, Wanted, Arrived;
  }

  lemma PrunedKeepsListed(d: Cache, g: Group, tiles: seq<TileRef>, r: TileRef)
    requires r in tiles
    ensures Get(d.Pruned(g, tiles).hash, r.tile) == Get(d.hash, r.tile)
  {
    hide GroupOf;
  }

  lemma FetchedListed(a: Cache, c: Crypto, local: map<Tile, Hash>, tiles: seq<TileRef>, fetch: nat -> TileReply, r: TileRef)
    requires DistinctTiles(tiles) && r in tiles
    ensures var wanted := Wanted(local, tiles);
      Get(a.FetchedAll(c, wanted, fetch).hash, r.tile) == if Arrived(c, wanted, fetch, r) then Some(r.hash) else Get(a.hash, r.tile)
  {
    var wanted := Wanted(local, tiles);
    WantedFacts(local, tiles);
    FetchedAllFacts(a, c, wanted, fetch);
    hide Good, Wanted, Cache.FetchedAll, Get;
    if k: nat :| k < |wanted| && wanted[k] == r {
      assert forall j | 0 <= j < |wanted| && wanted[j] == r :: wanted[j].tile == wanted[k].tile;
      hide DistinctTiles;
    } else {
      SameTileSameRef(tiles);
      assert !Covers(wanted, r.tile);
    }
  }

  lemma SameTileSameRef(tiles: seq<TileRef>)
    requires DistinctTiles(tiles)
    ensures forall x, y | x in tiles && y in tiles && x.tile == y.tile :: x == y
  {
  }

  lemma {:induction false} InGroupFacts(g: Group, tiles: seq<TileRef>)
    requires DistinctTiles(tiles)
    ensures DistinctTiles(InGroup(g, tiles)) && forall r :: r in InGroup(g, tiles) <==> r in tiles && GroupOf(r.tile) == g
    decreases |tiles|
  {
    hide GroupOf;
    if tiles != [] {
      var k := |tiles| - 1;
      InGroupFacts(g, tiles[..k]);
      assert tiles == tiles[..k] + [tiles[k]];
      if GroupOf(tiles[k].tile) == g {
        DistinctSnoc(InGroup(g, tiles[..k]), tiles[k]);
      }
      hide DistinctTiles;
    }
  }

  lemma {:induction false} AllInGroup(g: Group, tiles: seq<TileRef>)
    requires forall r | r in tiles :: GroupOf(r.tile) == g
    ensures InGroup(g, tiles) == tiles
    decreases |tiles|
  {
    hide GroupOf;
    if tiles != [] {
      assert tiles[|tiles| - 1] in tiles;
      AllInGroup(g, tiles[..|tiles| - 1]);
    }
  }

  /** Every fetch of a tile of the group was good. */
  predicate GoodIn(c: Crypto, g: Group, wanted: seq<TileRef>, fetch: nat -> TileReply) {
    forall k | 0 <= k < |wanted| && GroupOf(wanted[k].tile) == g :: Good(c, wanted[k], fetch(k))
  }

  lemma GoodSyncMatches(a: Cache, c: Crypto, g: Group, s: Signed, fetch: nat -> TileReply)
    requires c.verify(s) && DistinctTiles(s.manifest.tiles) && GoodIn(c, g, Wanted(a.Local(g), s.manifest.tiles), fetch)
    ensures a.Synced(c, g, Body(s), fetch).0.Local(g) == MapOf(InGroup(g, s.manifest.tiles))
  {
    var tiles := s.manifest.tiles;
    var b := a.Synced(c, g, Body(s), fetch).0;
    InGroupFacts(g, tiles);
    MapOfFacts(InGroup(g, tiles));
    hide Cache.Synced, Wanted, MapOf, InGroup, Good, Cache.Local, GroupOf, DistinctTiles, Arrived, GoodIn;
    forall t ensures Get(b.Local(g), t) == Get(MapOf(InGroup(g, tiles)), t) {
      LocalIs(b, g, t);
      if GroupOf(t) == g {
        if r :| r in tiles && r.tile == t {
          SyncListed(a, c, g, s, fetch, r);
          GoodArrives(a, c, g, tiles, fetch, r);
        } else {
          SyncUnlisted(a, c, g, s, fetch, t);
        }
      }
    }
    SameMap(b.Local(g), MapOf(InGroup(g, tiles)));
  }

  lemma GoodArrives(a: Cache, c: Crypto, g: Group, tiles: seq<TileRef>, fetch: nat -> TileReply, r: TileRef)
    requires GoodIn(c, g, Wanted(a.Local(g), tiles), fetch) && r in tiles && GroupOf(r.tile) == g
    ensures Arrived(c, Wanted(a.Local(g), tiles), fetch, r) || Get(a.hash, r.tile) == Some(r.hash)
  {
    var wanted := Wanted(a.Local(g), tiles);
    WantedFacts(a.Local(g), tiles);
    LocalIs(a, g, r.tile);
    hide Wanted, Good, GroupOf, Cache.Local, Get;
    if r in wanted {
      var k :| 0 <= k < |wanted| && wanted[k] == r;
    }
  }

  lemma BadSyncDiffers(a: Cache, c: Crypto, g: Group, s: Signed, fetch: nat -> TileReply)
    requires c.verify(s) && DistinctTiles(s.manifest.tiles) && !GoodIn(c, g, Wanted(a.Local(g), s.manifest.tiles), fetch)
    ensures a.Synced(c, g, Body(s), fetch).0.Local(g) != MapOf(InGroup(g, s.manifest.tiles))
  {
    var tiles := s.manifest.tiles;
    var wanted := Wanted(a.Local(g), tiles);
    InGroupFacts(g, tiles);
    MapOfFacts(InGroup(g, tiles));
    WantedFacts(a.Local(g), tiles);
    hide Cache.Synced, Wanted, MapOf, InGroup, Good, Cache.Local, GroupOf, Get;
    var k: nat :| k < |wanted| && GroupOf(wanted[k].tile) == g && !Good(c, wanted[k], fetch(k));
    var r := wanted[k];
    assert r in wanted;
    SyncListed(a, c, g, s, fetch, r);
    assert !Arrived(c, wanted, fetch, r) by {
      assert forall j | 0 <= j < |wanted| && wanted[j] == r :: j == k;
    }
    LocalIs(a, g, r.tile);
    LocalIs(a.Synced(c, g, Body(s), fetch).0, g, r.tile);
  }

  /** A sync with any verified manifest, of the group asked for or not: the ETag is recorded; a listed tile gets its
      hash if its bytes arrived and keeps what it had if not; an unlisted one is dropped from the group and left
      alone elsewhere; and the group's hashes are the listed ones exactly when every fetch for it was good. */
  lemma SyncExactly(a: Cache, c: Crypto, g: Group, s: Signed, fetch: nat -> TileReply)
    requires c.verify(s) && DistinctTiles(s.manifest.tiles)
    ensures var (b, ok) := a.Synced(c, g, Body(s), fetch); var tiles := s.manifest.tiles; var wanted := Wanted(a.Local(g), tiles);
      && ok && Get(b.etags, g) == Some(c.etag(s))
      && (forall r | r in tiles ::
            Get(b.hash, r.tile) == if Arrived(c, wanted, fetch, r) then Some(r.hash) else Get(a.hash, r.tile))
      && (forall t | !Covers(tiles, t) :: Get(b.hash, t) == if GroupOf(t) == g then None else Get(a.hash, t))
      && (b.Local(g) == MapOf(InGroup(g, tiles)) <==> GoodIn(c, g, wanted, fetch))
  {
    SyncSucceeds(a, c, g, s, fetch);
    hide Cache.Synced, Wanted, MapOf, InGroup, Good, Cache.Local, GroupOf, DistinctTiles, Arrived, GoodIn, Get, Covers;
    forall r | r in s.manifest.tiles ensures Get(a.Synced(c, g, Body(s), fetch).0.hash, r.tile)
        == if Arrived(c, Wanted(a.Local(g), s.manifest.tiles), fetch, r) then Some(r.hash) else Get(a.hash, r.tile) {
      SyncListed(a, c, g, s, fetch, r);
    }
    forall t | !Covers(s.manifest.tiles, t)
      ensures Get(a.Synced(c, g, Body(s), fetch).0.hash, t) == if GroupOf(t) == g then None else Get(a.hash, t)
    {
      SyncUnlisted(a, c, g, s, fetch, t);
    }
    if GoodIn(c, g, Wanted(a.Local(g), s.manifest.tiles), fetch) {
      GoodSyncMatches(a, c, g, s, fetch);
    } else {
      BadSyncDiffers(a, c, g, s, fetch);
    }
  }

  lemma SyncSucceeds(a: Cache, c: Crypto, g: Group, s: Signed, fetch: nat -> TileReply)
    requires c.verify(s)
    ensures a.Synced(c, g, Body(s), fetch).1 && Get(a.Synced(c, g, Body(s), fetch).0.etags, g) == Some(c.etag(s))
  {
    hide Cache.FetchedAll, Wanted, GroupOf;
  }

  /** With a manifest of the group asked for: its hashes are those of the manifest exactly when every fetch was
      good, and other groups are left alone either way. */
  lemma SyncOfGroup(a: Cache, c: Crypto, g: Group, s: Signed, fetch: nat -> TileReply)
    requires c.verify(s) && OfGroup(g, s.manifest.tiles)
    ensures var (b, ok) := a.Synced(c, g, Body(s), fetch);
      && ok && Get(b.etags, g) == Some(c.etag(s))
      && (forall t | GroupOf(t) != g :: Get(b.hash, t) == Get(a.hash, t) && Get(b.roads, t) == Get(a.roads, t))
      && (b.Local(g) == MapOf(s.manifest.tiles) <==> AllGood(c, Wanted(a.Local(g), s.manifest.tiles), fetch))
  {
    var tiles := s.manifest.tiles;
    var wanted := Wanted(a.Local(g), tiles);
    SyncExactly(a, c, g, s, fetch);
    AllInGroup(g, tiles);
    WantedFacts(a.Local(g), tiles);
    hide Cache.Synced, Wanted, MapOf, InGroup, Good, Cache.Local, GroupOf, DistinctTiles, Get;
    assert forall k | 0 <= k < |wanted| :: wanted[k] in wanted && GroupOf(wanted[k].tile) == g;
    assert GoodIn(c, g, wanted, fetch) <==> AllGood(c, wanted, fetch);
    forall t | GroupOf(t) != g
      ensures Get(a.Synced(c, g, Body(s), fetch).0.hash, t) == Get(a.hash, t)
      ensures Get(a.Synced(c, g, Body(s), fetch).0.roads, t) == Get(a.roads, t)
    {
      SyncUnlisted(a, c, g, s, fetch, t);
    }
  }

  /** The signature is all that is verified: a manifest of another group succeeds and empties the group. */
  lemma ForeignManifestEmpties(a: Cache, c: Crypto, g: Group, h: Group, s: Signed, fetch: nat -> TileReply)
    requires c.verify(s) && OfGroup(h, s.manifest.tiles) && g != h
    ensures var (b, ok) := a.Synced(c, g, Body(s), fetch); ok && b.Local(g) == map[]
  {
    var b := a.Synced(c, g, Body(s), fetch).0;
    SyncSucceeds(a, c, g, s, fetch);
    hide Cache.Synced, Cache.Local, GroupOf, DistinctTiles;
    forall t ensures Get(b.Local(g), t) == None {
      LocalIs(b, g, t);
      if GroupOf(t) == g {
        SyncUnlisted(a, c, g, s, fetch, t);
      }
    }
    assert forall t :: t !in b.Local(g);
  }

  lemma LocalIs(b: Cache, g: Group, t: Tile)
    ensures Get(b.Local(g), t) == if GroupOf(t) == g then Get(b.hash, t) else None
  {
  }

  lemma SameMap<K, V>(m: map<K, V>, n: map<K, V>)
    requires forall k :: Get(m, k) == Get(n, k)
    ensures m == n
  {
    forall k ensures k in m <==> k in n {
      assert Get(m, k) == Get(n, k);
    }
    forall k | k in m ensures m[k] == n[k] {
      assert Get(m, k) == Get(n, k);
    }
  }

  /** A tile is stored exactly from a nonempty body that has the listed hash and decodes; what it decodes to is stored
      under the listed hash. */
  lemma FetchStores(a: Cache, c: Crypto, r: TileRef, reply: TileReply)
    ensures var b := a.Fetched(c, r, reply);
      if reply.TileBody? && |reply.bytes| > 0 && c.hash(reply.bytes) == r.hash && c.decode(reply.bytes).Some?
      then Get(b.hash, r.tile) == Some(r.hash) && Get(b.roads, r.tile) == c.decode(reply.bytes)
      else b == a
  {
  }

  /** Without a verified manifest a sync changes nothing, and only a 304 is a success. */
  lemma SyncWithoutManifest(a: Cache, c: Crypto, g: Group, reply: ManifestReply, fetch: nat -> TileReply)
    requires reply.Body? ==> !c.verify(reply.signed)
    ensures a.Synced(c, g, reply, fetch).0 == a && (a.Synced(c, g, reply, fetch).1 <==> reply == NotModified)
  {
  }

  // ----- where cached tiles come from, on every run and against any network

  datatype Event = Event(group: Group, reply: ManifestReply, fetch: nat -> TileReply)

  function RunClient(a: Cache, c: Crypto, events: seq<Event>): Cache
    decreases |events|
  {
    if events == [] then a else RunClient(a.Synced(c, events[0].group, events[0].reply, events[0].fetch).0, c, events[1..])
  }

  lemma {:induction false} RunEndsWithSync(a: Cache, c: Crypto, events: seq<Event>, e: Event)
    ensures RunClient(a, c, events + [e]) == RunClient(a, c, events).Synced(c, e.group, e.reply, e.fetch).0
    decreases |events|
  {
    if events != [] {
      var rest := events[1..];
      RunEndsWithSync(a.Synced(c, events[0].group, events[0].reply, events[0].fetch).0, c, rest, e);
      assert (events + [e])[1..] == rest + [e];
    } else {
      assert (events + [e])[1..] == [];
    }
    hide Cache.Synced;
  }

  /** The verified manifests among the replies. */
  ghost function Accepted(c: Crypto, events: seq<Event>): set<Signed>
    decreases |events|
  {
    if events == [] then {}
    else
      AcceptedOne(c, events[0].reply) + Accepted(c, events[1..])
  }

  function AcceptedOne(c: Crypto, reply: ManifestReply): set<Signed> {
    if reply.Body? && c.verify(reply.signed) then {reply.signed} else {}
  }

  predicate Listed(s: Signed, t: Tile, h: Hash) { exists r | r in s.manifest.tiles :: r.tile == t && r.hash == h }

  /** The roads were decoded from bytes whose hash a verified manifest listed for this very tile. */
  ghost predicate Backed(c: Crypto, accepted: set<Signed>, t: Tile, h: Hash, roads: Roads) {
    && (exists s | s in accepted :: c.verify(s) && Listed(s, t, h))
    && Sourced(c, h, roads)
  }

  ghost predicate Sourced(c: Crypto, h: Hash, roads: Roads) {
    exists b: Bytes :: c.hash(b) == h && c.decode(b) == Some(roads)
  }

  ghost predicate Proven(c: Crypto, accepted: set<Signed>, a: Cache) {
    a.roads.Keys == a.hash.Keys && forall t | t in a.hash :: Backed(c, accepted, t, a.hash[t], a.roads[t])
  }

  lemma FetchedKeepsProven(c: Crypto, accepted: set<Signed>, a: Cache, s: Signed, r: TileRef, reply: TileReply)
    requires Proven(c, accepted, a) && s in accepted && c.verify(s) && r in s.manifest.tiles
    ensures Proven(c, accepted, a.Fetched(c, r, reply))
  {
    if Good(c, r, reply) {
      assert Listed(s, r.tile, r.hash);
      assert Sourced(c, r.hash, c.decode(reply.bytes).value);
      hide Listed, Sourced;
    }
  }

  lemma {:induction false} FetchedAllKeepsProven(c: Crypto, accepted: set<Signed>, a: Cache, s: Signed, refs: seq<TileRef>, fetch: nat -> TileReply)
    requires Proven(c, accepted, a) && s in accepted && c.verify(s) && forall r | r in refs :: r in s.manifest.tiles
    ensures Proven(c, accepted, a.FetchedAll(c, refs, fetch))
    decreases |refs|
  {
    if refs != [] {
      var k := |refs| - 1;
      assert refs[k] in refs && forall r | r in refs[..k] :: r in refs;
      FetchedAllKeepsProven(c, accepted, a, s, refs[..k], fetch);
      FetchedKeepsProven(c, accepted, a.FetchedAll(c, refs[..k], fetch), s, refs[k], fetch(k));
      hide Cache.Fetched, Proven;
    }
  }

  lemma SyncKeepsProven(c: Crypto, accepted: set<Signed>, a: Cache, e: Event)
    requires Proven(c, accepted, a)
    ensures Proven(c, accepted + AcceptedOne(c, e.reply), a.Synced(c, e.group, e.reply, e.fetch).0)
  {
    var all := accepted + AcceptedOne(c, e.reply);
    assert Proven(c, all, a) by {
      forall t | t in a.hash ensures Backed(c, all, t, a.hash[t], a.roads[t]) {
        assert Backed(c, accepted, t, a.hash[t], a.roads[t]);
        hide Sourced, Listed;
      }
    }
    if e.reply.Body? && c.verify(e.reply.signed) {
      var s := e.reply.signed;
      assert s in all;
      var wanted := Wanted(a.Local(e.group), s.manifest.tiles);
      WantedFacts(a.Local(e.group), s.manifest.tiles);
      FetchedAllKeepsProven(c, all, a, s, wanted, e.fetch);
      hide Wanted, Cache.FetchedAll, Backed;
    }
  }

  /** Whatever the network delivers: roads and hashes cover the same tiles, and each comes from bytes a
      verified manifest vouched for. */
  lemma {:induction false} EveryTileIsVouchedFor(c: Crypto, accepted: set<Signed>, a: Cache, events: seq<Event>)
    requires Proven(c, accepted, a)
    ensures Proven(c, accepted + Accepted(c, events), RunClient(a, c, events))
    decreases |events|
  {
    if events == [] {
      assert accepted + Accepted(c, events) == accepted;
    } else {
      var e := events[0];
      SyncKeepsProven(c, accepted, a, e);
      hide Proven, Cache.Synced;
      EveryTileIsVouchedFor(c, accepted + AcceptedOne(c, e.reply), a.Synced(c, e.group, e.reply, e.fetch).0, events[1..]);
      assert accepted + AcceptedOne(c, e.reply) + Accepted(c, events[1..]) == accepted + Accepted(c, events);
    }
  }
}
