/** The device against an honest gateway whose tiles change while it syncs. */
module OsmCoherence {
  import opened Wrappers
  import opened OsmServer
  import opened OsmSync

  /** The gateway's answer, given the ETag the request carries: 404 without tiles, 304 on a match. */
  function Answer(c: Crypto, store: Store, g: Group, ifNoneMatch: Option<ETag>): ManifestReply
    requires store.Valid()
  {
    match store.ManifestOf(c, g)
    case None => NoReply
    case Some(s) => if ifNoneMatch == Some(c.etag(s)) then NotModified else Body(s)
  }

  /** `whole` remembers the groups whose last verified sync had no failed fetch. */
  datatype World = World(store: Store, client: Cache, whole: set<Group>)

  /** A sync may lose its manifest reply, and its tile replies are arbitrary: tiles may change, fail or be
      damaged between the manifest and any fetch. */
  datatype Action = PutTile(tile: Tile, bytes: Bytes) | Sync(group: Group, lost: bool, fetch: nat -> TileReply)

  function ReplyTo(c: Crypto, w: World, g: Group, lost: bool): ManifestReply
    requires w.store.Valid()
  {
    if lost then NoReply else Answer(c, w.store, g, Get(w.client.etags, g))
  }

  function Act(c: Crypto, w: World, a: Action): World
    requires w.store.Valid()
  {
    match a
    case PutTile(t, b) => w.(store := w.store.Put(t, b))
    case Sync(g, lost, fetch) =>
      var reply := ReplyTo(c, w, g, lost);
      var whole := if !reply.Body? || !c.verify(reply.signed) then w.whole
                   else if AllGood(c, Wanted(w.client.Local(g), reply.signed.manifest.tiles), fetch) then w.whole + {g}
                   else w.whole - {g};
      w.(client := w.client.Synced(c, g, reply, fetch).0, whole := whole)
  }

  function Run(c: Crypto, w: World, actions: seq<Action>): World
    requires w.store.Valid()
    decreases |actions|
  {
    if actions == [] then w
    else
      ActKeepsStore(c, w, actions[0]);
      Run(c, Act(c, w, actions[0]), actions[1..])
  }

  lemma ActKeepsStore(c: Crypto, w: World, a: Action)
    requires w.store.Valid()
    ensures Act(c, w, a).store.Valid()
  {
    if a.PutTile? {
      PutKeepsValid(w.store, a.tile, a.bytes);
    }
  }

  lemma {:induction false} RunSnoc(c: Crypto, w: World, actions: seq<Action>, a: Action)
    requires w.store.Valid()
    ensures Run(c, w, actions).store.Valid() && Run(c, w, actions + [a]) == Act(c, Run(c, w, actions), a)
    decreases |actions|
  {
    if actions == [] {
      assert ([] + [a])[1..] == [];
      ActKeepsStore(c, w, a);
    } else {
      assert (actions + [a])[1..] == actions[1..] + [a];
      ActKeepsStore(c, w, actions[0]);
      RunSnoc(c, Act(c, w, actions[0]), actions[1..], a);
      hide Act;
    }
  }

  /** A sync succeeds exactly if a reply arrives and the gateway has tiles of the group; one that does not
      leaves everything as it was. */
  lemma SucceedsExactly(c: Crypto, w: World, g: Group, lost: bool, fetch: nat -> TileReply)
    requires c.SignsSoundly() && w.store.Valid()
    ensures var ok := w.client.Synced(c, g, ReplyTo(c, w, g, lost), fetch).1;
      && (ok <==> !lost && exists t | t in w.store.bytes :: GroupOf(t) == g)
      && (!ok ==> Act(c, w, Sync(g, lost, fetch)) == w)
  {
    ManifestSays(w.store, c, g);
    if w.store.ManifestOf(c, g).Some? {
      SignedOf(c, w.store, g);
      assert c.verify(c.Sign(w.store.ManifestOf(c, g).value.manifest));
    }
    hide GroupOf, Wanted, Cache.FetchedAll, Cache.Pruned;
  }

  /** The ETag kept for `g` belongs to this gateway manifest. */
  ghost predicate KeptFor(c: Crypto, a: Cache, g: Group, m: Manifest) {
    OfGroup(g, m.tiles) && Get(a.etags, g) == Some(c.etag(c.Sign(m)))
  }

  /** ... and the cached hashes are the listed ones exactly when `whole` says so. */
  ghost predicate Matches(c: Crypto, a: Cache, g: Group, whole: bool) {
    exists m: Manifest :: KeptFor(c, a, g, m) && (whole <==> a.Local(g) == MapOf(m.tiles))
  }

  /** A group has no ETag yet, or its ETag's manifest is matched exactly if the group is whole. */
  ghost predicate Tracked(c: Crypto, a: Cache, g: Group, whole: bool) {
    if g in a.etags then Matches(c, a, g, whole) else !whole
  }

  ghost predicate AllSourced(c: Crypto, a: Cache) {
    a.roads.Keys == a.hash.Keys && forall t | t in a.hash :: Sourced(c, a.hash[t], a.roads[t])
  }

  ghost predicate Coherent(c: Crypto, w: World) {
    w.store.Valid() && AllSourced(c, w.client) && forall g: Group :: Tracked(c, w.client, g, g in w.whole)
  }

  /** The cached tiles of the group are the gateway's: the same tiles, decoded from the same bytes. */
  ghost predicate Current(c: Crypto, w: World, g: Group) {
    forall t | GroupOf(t) == g ::
      && (t in w.client.roads <==> t in w.store.bytes)
      && (t in w.store.bytes ==> c.decode(w.store.bytes[t]) == Some(w.client.roads[t]))
  }

  lemma SignedOf(c: Crypto, store: Store, g: Group)
    requires store.Valid() && store.ManifestOf(c, g).Some?
    ensures var s := store.ManifestOf(c, g).value;
      s == c.Sign(s.manifest) && OfGroup(g, s.manifest.tiles) && Lists(c, store, g, s.manifest.tiles)
  {
    ManifestLists(store, c, g);
    hide Sort, GroupOf, DistinctTiles;
  }

  lemma {:induction false} FetchedAllKeepsSourced(c: Crypto, a: Cache, refs: seq<TileRef>, fetch: nat -> TileReply)
    requires AllSourced(c, a)
    ensures AllSourced(c, a.FetchedAll(c, refs, fetch))
    decreases |refs|
  {
    if refs != [] {
      var k := |refs| - 1;
      FetchedAllKeepsSourced(c, a, refs[..k], fetch);
      if Good(c, refs[k], fetch(k)) {
        assert Sourced(c, refs[k].hash, c.decode(fetch(k).bytes).value);
      }
      hide Sourced;
    }
  }

  lemma SyncKeepsSourced(c: Crypto, a: Cache, g: Group, reply: ManifestReply, fetch: nat -> TileReply)
    requires AllSourced(c, a)
    ensures AllSourced(c, a.Synced(c, g, reply, fetch).0)
  {
    if reply.Body? {
      FetchedAllKeepsSourced(c, a, Wanted(a.Local(g), reply.signed.manifest.tiles), fetch);
      hide Wanted, Cache.FetchedAll, Sourced;
    }
  }

  /** A sync of `g` leaves what is kept for another group alone. */
  lemma OtherGroupsTracked(c: Crypto, a: Cache, g: Group, s: Signed, fetch: nat -> TileReply, h: Group, whole: bool)
    requires c.verify(s) && OfGroup(g, s.manifest.tiles) && h != g && Tracked(c, a, h, whole)
    ensures Tracked(c, a.Synced(c, g, Body(s), fetch).0, h, whole)
  {
    SyncOfGroup(a, c, g, s, fetch);
    var b := a.Synced(c, g, Body(s), fetch).0;
    SyncKeepsOtherEtags(a, c, g, s, fetch, h);
    hide Cache.Synced, Cache.Local, Wanted, MapOf;
    forall t ensures Get(b.Local(h), t) == Get(a.Local(h), t) {
      LocalIs(a, h, t);
      LocalIs(b, h, t);
    }
    SameMap(b.Local(h), a.Local(h));
    if h in a.etags {
      var m: Manifest :| KeptFor(c, a, h, m) && (whole <==> a.Local(h) == MapOf(m.tiles));
      assert KeptFor(c, b, h, m);
    }
  }

  /** The synced group itself is whole exactly when every fetch was good. */
  lemma SyncedGroupTracked(c: Crypto, a: Cache, g: Group, s: Signed, fetch: nat -> TileReply)
    requires c.verify(s) && OfGroup(g, s.manifest.tiles) && s == c.Sign(s.manifest)
    ensures Tracked(c, a.Synced(c, g, Body(s), fetch).0, g, AllGood(c, Wanted(a.Local(g), s.manifest.tiles), fetch))
  {
    SyncOfGroup(a, c, g, s, fetch);
    var b := a.Synced(c, g, Body(s), fetch).0;
    hide Cache.Synced, Cache.Local, Wanted, MapOf, AllGood, OfGroup;
    assert KeptFor(c, b, g, s.manifest);
  }

  lemma SyncKeepsOtherEtags(a: Cache, c: Crypto, g: Group, s: Signed, fetch: nat -> TileReply, h: Group)
    requires h != g
    ensures Get(a.Synced(c, g, Body(s), fetch).0.etags, h) == Get(a.etags, h)
  {
    var wanted := Wanted(a.Local(g), s.manifest.tiles);
    FetchKeepsEtags(a, c, wanted, fetch);
    hide Wanted, Cache.FetchedAll;
  }

  lemma {:induction false} FetchKeepsEtags(a: Cache, c: Crypto, refs: seq<TileRef>, fetch: nat -> TileReply)
    ensures a.FetchedAll(c, refs, fetch).etags == a.etags
    decreases |refs|
  {
    if refs != [] {
      FetchKeepsEtags(a, c, refs[..|refs| - 1], fetch);
    }
  }

  lemma ActKeepsCoherent(c: Crypto, w: World, a: Action)
    requires Coherent(c, w)
    ensures Coherent(c, Act(c, w, a))
  {
    ActKeepsStore(c, w, a);
    hide Tracked, AllSourced;
    if a.Sync? {
      var g := a.group;
      var reply := ReplyTo(c, w, g, a.lost);
      SyncKeepsSourced(c, w.client, g, reply, a.fetch);
      if reply.Body? && c.verify(reply.signed) {
        SignedOf(c, w.store, g);
        SyncedGroupTracked(c, w.client, g, reply.signed, a.fetch);
        var t := Act(c, w, a);
        forall h: Group | h != g ensures Tracked(c, t.client, h, h in t.whole) {
          assert Tracked(c, w.client, h, h in w.whole);
          OtherGroupsTracked(c, w.client, g, reply.signed, a.fetch, h, h in w.whole);
        }
        hide Cache.Synced;
      }
    }
  }

  lemma {:induction false} RunKeepsCoherent(c: Crypto, w: World, actions: seq<Action>)
    requires Coherent(c, w)
    ensures Coherent(c, Run(c, w, actions))
    decreases |actions|
  {
    if actions != [] {
      ActKeepsCoherent(c, w, actions[0]);
      hide Act;
      RunKeepsCoherent(c, Act(c, w, actions[0]), actions[1..]);
    }
  }

  /** Hashes that match the current manifest mean tiles that match the current bytes. */
  lemma MatchingHashesAreCurrent(c: Crypto, w: World, g: Group)
    requires c.CollisionFree() && w.store.Valid() && AllSourced(c, w.client)
    requires w.store.ManifestOf(c, g).Some?
    requires w.client.Local(g) == MapOf(w.store.ManifestOf(c, g).value.manifest.tiles)
    ensures Current(c, w, g)
  {
    SignedOf(c, w.store, g);
    var tiles := w.store.ManifestOf(c, g).value.manifest.tiles;
    MapOfFacts(tiles);
    hide MapOf, DistinctTiles, Cache.Local;
    forall t | GroupOf(t) == g
      ensures t in w.client.roads <==> t in w.store.bytes
      ensures t in w.store.bytes ==> c.decode(w.store.bytes[t]) == Some(w.client.roads[t])
    {
      LocalIs(w.client, g, t);
      assert Get(w.client.hash, t) == Get(MapOf(tiles), t);
      hide GroupOf;
      if t in w.store.bytes {
        var r := TileRef(t, c.hash(w.store.bytes[t]), |w.store.bytes[t]|);
        assert r in tiles && Get(MapOf(tiles), r.tile) == Some(r.hash);
        assert Sourced(c, w.client.hash[t], w.client.roads[t]);
        var b: Bytes :| c.hash(b) == w.client.hash[t] && c.decode(b) == Some(w.client.roads[t]);
        assert b == w.store.bytes[t];
      }
    }
  }

  /** A successful sync leaves the ETag of the gateway's current manifest. */
  lemma SuccessKeepsCurrentEtag(c: Crypto, w: World, g: Group, lost: bool, fetch: nat -> TileReply)
    requires w.store.Valid() && w.client.Synced(c, g, ReplyTo(c, w, g, lost), fetch).1
    ensures var t := Act(c, w, Sync(g, lost, fetch));
      && t.store == w.store && w.store.ManifestOf(c, g).Some?
      && Get(t.client.etags, g) == Some(c.etag(w.store.ManifestOf(c, g).value))
  {
    var reply := ReplyTo(c, w, g, lost);
    if reply.Body? {
      SignedOf(c, w.store, g);
      SyncOfGroup(w.client, c, g, reply.signed, fetch);
      hide Cache.Synced;
    }
  }

  /** The end-to-end promise, exactly: when a sync reports success, be it by fetching now or by a 304 on an
      earlier manifest, the cached hashes are those of the gateway's current manifest if and only if no fetch
      of the group's last verified sync failed; and then the cached tiles are the gateway's. */
  lemma SuccessMeansCurrent(c: Crypto, w: World, g: Group, lost: bool, fetch: nat -> TileReply)
    requires c.CollisionFree() && Coherent(c, w)
    requires w.client.Synced(c, g, ReplyTo(c, w, g, lost), fetch).1
    ensures var t := Act(c, w, Sync(g, lost, fetch));
      && t.store.Valid() && t.store.ManifestOf(c, g).Some?
      && (g in t.whole <==> t.client.Local(g) == MapOf(t.store.ManifestOf(c, g).value.manifest.tiles))
      && (g in t.whole ==> Current(c, t, g))
  {
    var a := Sync(g, lost, fetch);
    var t := Act(c, w, a);
    ActKeepsCoherent(c, w, a);
    SuccessKeepsCurrentEtag(c, w, g, lost, fetch);
    hide Act, Cache.Synced, Current, MapOf, Cache.Local;
    SignedOf(c, w.store, g);
    var s := w.store.ManifestOf(c, g).value;
    assert Tracked(c, t.client, g, g in t.whole);
    var m: Manifest :| KeptFor(c, t.client, g, m) && (g in t.whole <==> t.client.Local(g) == MapOf(m.tiles));
    assert c.etag(c.Sign(m)) == c.etag(s);
    assert c.Sign(m) == s;
    hide Tracked, Matches, KeptFor;
    if g in t.whole {
      MatchingHashesAreCurrent(c, t, g);
    }
  }

  /** On every run from an empty device. */
  lemma SuccessMeansCurrentOnRuns(c: Crypto, store: Store, actions: seq<Action>, g: Group, lost: bool, fetch: nat -> TileReply)
    requires c.CollisionFree() && store.Valid()
    ensures var w := Run(c, World(store, Cache(map[], map[], map[]), {}), actions);
      && w.store.Valid()
      && (w.client.Synced(c, g, ReplyTo(c, w, g, lost), fetch).1 ==>
            var t := Run(c, World(store, Cache(map[], map[], map[]), {}), actions + [Sync(g, lost, fetch)]);
            && t.store.Valid() && t.store.ManifestOf(c, g).Some?
            && Get(t.client.etags, g) == Some(c.etag(t.store.ManifestOf(c, g).value))
            && (g in t.whole <==> t.client.Local(g) == MapOf(t.store.ManifestOf(c, g).value.manifest.tiles))
            && (g in t.whole ==> Current(c, t, g)))
  {
    var w0 := World(store, Cache(map[], map[], map[]), {});
    assert Coherent(c, w0);
    RunKeepsCoherent(c, w0, actions);
    var w := Run(c, w0, actions);
    RunSnoc(c, w0, actions, Sync(g, lost, fetch));
    hide Run, Act, Cache.Synced, Current, Tracked, AllSourced;
    if w.client.Synced(c, g, ReplyTo(c, w, g, lost), fetch).1 {
      SuccessMeansCurrent(c, w, g, lost, fetch);
      SuccessKeepsCurrentEtag(c, w, g, lost, fetch);
    }
  }

  // ----- what the return value does not promise

  /** A failed fetch is not repaired while the gateway's data stays as it is: the ETag was recorded all the
      same, so every later sync is a successful 304 that changes nothing. */
  lemma LostTileStaysLost(c: Crypto, w: World, g: Group, fetch: nat -> TileReply, again: nat -> TileReply)
    requires c.SignsSoundly() && Coherent(c, w) && ReplyTo(c, w, g, false).Body?
    requires !AllGood(c, Wanted(w.client.Local(g), ReplyTo(c, w, g, false).signed.manifest.tiles), fetch)
    ensures var t := Act(c, w, Sync(g, false, fetch));
      && w.client.Synced(c, g, ReplyTo(c, w, g, false), fetch).1
      && t.store == w.store && g !in t.whole
      && t.client.Local(g) != MapOf(w.store.ManifestOf(c, g).value.manifest.tiles)
      && ReplyTo(c, t, g, false) == NotModified
      && t.client.Synced(c, g, NotModified, again) == (t.client, true)
  {
    var s := ReplyTo(c, w, g, false).signed;
    SignedOf(c, w.store, g);
    assert c.verify(c.Sign(s.manifest));
    SyncOfGroup(w.client, c, g, s, fetch);
    hide Wanted, AllGood, MapOf, Cache.Local;
  }

  /** The device holds the ETag of the gateway's current manifest of `g`. */
  predicate UpToDate(c: Crypto, w: World, g: Group) {
    w.store.Valid() && w.store.ManifestOf(c, g).Some? && Get(w.client.etags, g) == Some(c.etag(w.store.ManifestOf(c, g).value))
  }

  predicate Spares(a: Action, g: Group) { a.PutTile? ==> GroupOf(a.tile) != g }

  lemma ActLeavesGroup(c: Crypto, w: World, g: Group, a: Action)
    requires UpToDate(c, w, g) && Spares(a, g)
    ensures var t := Act(c, w, a);
      UpToDate(c, t, g) && t.client.Local(g) == w.client.Local(g) && (g in t.whole <==> g in w.whole)
  {
    ActKeepsStore(c, w, a);
    match a
    case PutTile(x, b) =>
      var s := w.store.Put(x, b);
      forall y | GroupOf(y) == g ensures Get(w.store.bytes, y) == Get(s.bytes, y) {
      }
      hide GroupOf, Store.Put;
      ManifestIsCanonical(w.store, s, c, g);
    case Sync(h, lost, fetch) =>
      var reply := ReplyTo(c, w, h, lost);
      if reply.Body? && c.verify(reply.signed) {
        assert h != g;
        SignedOf(c, w.store, h);
        SyncOfGroup(w.client, c, h, reply.signed, fetch);
        SyncKeepsOtherEtags(w.client, c, h, reply.signed, fetch, g);
        var b := w.client.Synced(c, h, reply, fetch).0;
        hide Cache.Synced, Cache.Local, GroupOf;
        forall t ensures Get(b.Local(g), t) == Get(w.client.Local(g), t) {
          LocalIs(w.client, g, t);
          LocalIs(b, g, t);
        }
        SameMap(b.Local(g), w.client.Local(g));
      }
  }

  /** Nor is it on any run, whatever is synced and whatever other tiles change, until a tile of the group does. */
  lemma {:induction false} OnlyUpdatesRepair(c: Crypto, w: World, g: Group, actions: seq<Action>)
    requires UpToDate(c, w, g) && forall a | a in actions :: Spares(a, g)
    ensures var t := Run(c, w, actions);
      UpToDate(c, t, g) && t.client.Local(g) == w.client.Local(g) && (g in t.whole <==> g in w.whole)
    decreases |actions|
  {
    if actions != [] {
      assert actions[0] in actions && forall a | a in actions[1..] :: a in actions;
      ActLeavesGroup(c, w, g, actions[0]);
      hide Act, UpToDate, Spares, Cache.Local;
      assert UpToDate(c, Act(c, w, actions[0]), g);
      OnlyUpdatesRepair(c, Act(c, w, actions[0]), g, actions[1..]);
    }
  }
}
