/** Whole runs of the asset manager: sound lookups, fresh ids, and a count table that agrees with
    the registry; and when the migration rebuilds that table. */
module AssetRuns {
  import opened Wrappers
  import opened AssetRegistry
  import opened AssetManager
  import Pallet = AssetManager

  datatype Event =
    | Register(signed: bool, created: bool, metadata: Metadata)
    | ForceRegister(isModifier: bool, created: bool, location: Location, metadata: Metadata)
    | Update(isModifier: bool, id: AssetId, location: Location)

  /** `forced` remembers which assets were registered with a location of their own, `issued` all
      ids handed out, in order. */
  datatype World = World(registry: Registry, forced: set<AssetId>, issued: seq<AssetId>)

  function Next(cfg: Config, w: World, e: Event): World {
    var id := w.registry.nextAssetId;
    match e
    case Register(signed, created, metadata) =>
      (match RegisterAsset(cfg, w.registry, signed, created, metadata)
       case Ok(r) => World(r, w.forced, w.issued + [id])
       case Err(_) => w)
    case ForceRegister(isModifier, created, location, metadata) =>
      (match ForceRegisterAsset(cfg, w.registry, isModifier, created, location, metadata)
       case Ok(r) => World(r, w.forced + {id}, w.issued + [id])
       case Err(_) => w)
    case Update(isModifier, id, location) =>
      (match UpdateAssetLocation(w.registry, isModifier, id, location)
       case Ok(r) => w.(registry := r)
       case Err(_) => w)
  }

  function Run(cfg: Config, w: World, events: seq<Event>): World
    decreases |events|
  {
    if events == [] then w else Run(cfg, Next(cfg, w, events[0]), events[1..])
  }

  function Start(cfg: Config): World { World(Genesis(cfg), {}, []) }

  /** Every event is a call of the pallet, with the same effect. */
  method Deliver(manager: Pallet.AssetManager, w: World, e: Event) returns (r: Result<(), Error>)
    requires manager.State() == w.registry
    modifies manager
    ensures manager.State() == Next(manager.cfg, w, e).registry
    ensures r.Err? ==> Next(manager.cfg, w, e) == w
  {
    match e {
      case Register(signed, created, metadata) => r := manager.RegisterAsset(signed, created, metadata);
      case ForceRegister(isModifier, created, location, metadata) =>
        r := manager.ForceRegisterAsset(isModifier, created, location, metadata);
      case Update(isModifier, id, location) => r := manager.UpdateAssetLocation(isModifier, id, location);
    }
  }

  // ---- Which calls go through ----

  /** A call goes through exactly when its caller may make it, what it needs is there and what it
      makes is new; otherwise nothing changes. */
  lemma GoesThroughIff(cfg: Config, w: World, e: Event)
    ensures var r, r' := w.registry, Next(cfg, w, e).registry;
      match e
      case Register(signed, created, metadata) =>
        if signed && created && r.nextAssetId < cfg.maxAssetId && metadata.identifier !in r.registeredAssetId
        then r'.nextAssetId == r.nextAssetId + 1 else Next(cfg, w, e) == w
      case ForceRegister(isModifier, created, location, _) =>
        if isModifier && created && r.nextAssetId < cfg.maxAssetId && location !in r.locationAssetId
        then r'.nextAssetId == r.nextAssetId + 1 else Next(cfg, w, e) == w
      case Update(isModifier, id, location) =>
        if isModifier && id in r.assetIdLocation && location !in r.locationAssetId
        then && (forall i :: i in r'.assetIdLocation <==> i in r.assetIdLocation)
             && (forall i :: i in r.assetIdLocation ==>
                   r'.assetIdLocation[i] == if i == id then location else r.assetIdLocation[i])
             && (forall l :: l in r'.locationAssetId
                             <==> l == location || (l in r.locationAssetId && l != r.assetIdLocation[id]))
             && (forall l :: l in r'.locationAssetId ==>
                   r'.locationAssetId[l] == if l == location then id else r.locationAssetId[l])
        else Next(cfg, w, e) == w
  {
  }

  /** An asset keeps the metadata it was registered with, whatever happens later. */
  lemma {:induction false} MetadataStays(cfg: Config, w: World, events: seq<Event>, id: AssetId)
    requires Sound(cfg, w) && id in w.registry.assetIdMetadata && id < w.registry.nextAssetId
    ensures var r := Run(cfg, w, events).registry;
            id in r.assetIdMetadata && r.assetIdMetadata[id] == w.registry.assetIdMetadata[id]
    decreases |events|
  {
    if events != [] {
      NextKeepsSound(cfg, w, events[0]);
      MetadataStays(cfg, Next(cfg, w, events[0]), events[1..], id);
    }
  }

  /** Every registration that goes through leaves its metadata under the new id for good. */
  lemma RegisteredMetadataStays(cfg: Config, w: World, e: Event, later: seq<Event>)
    requires Sound(cfg, w) && (e.Register? || e.ForceRegister?)
    requires Next(cfg, w, e).registry.nextAssetId > w.registry.nextAssetId
    ensures var r := Run(cfg, Next(cfg, w, e), later).registry; var id := w.registry.nextAssetId;
            id in r.assetIdMetadata && r.assetIdMetadata[id] == e.metadata
  {
    NextKeepsSound(cfg, w, e);
    MetadataStays(cfg, Next(cfg, w, e), later, w.registry.nextAssetId);
  }

  // ---- Lookups ----

  /** The id at a location is at that location. */
  ghost predicate LookupSound(r: Registry) {
    forall l :: l in r.locationAssetId ==>
      r.locationAssetId[l] in r.assetIdLocation && r.assetIdLocation[r.locationAssetId[l]] == l
  }

  ghost predicate IdsFresh(w: World) {
    var r := w.registry;
    && (forall i :: i in r.assetIdLocation ==> i < r.nextAssetId)
    && (forall x :: x in r.registeredAssetId ==> r.registeredAssetId[x] < r.nextAssetId)
    && (forall k :: 0 <= k < |w.issued| ==> w.issued[k] < r.nextAssetId)
  }

  ghost predicate IdentifiersDistinct(r: Registry) {
    forall x, y :: x in r.registeredAssetId && y in r.registeredAssetId && x != y ==>
      r.registeredAssetId[x] != r.registeredAssetId[y]
  }

  ghost predicate Increasing(ids: seq<AssetId>) {
    forall i, j :: 0 <= i < j < |ids| ==> ids[i] < ids[j]
  }

  ghost predicate Sound(cfg: Config, w: World) {
    && LookupSound(w.registry)
    && IdsFresh(w)
    && IdentifiersDistinct(w.registry)
    && Increasing(w.issued)
    && (forall k :: 0 <= k < |w.issued| ==> w.issued[k] > cfg.nativeAssetId)
    && cfg.nativeAssetId < w.registry.nextAssetId
  }

  lemma NextKeepsSound(cfg: Config, w: World, e: Event)
    requires Sound(cfg, w)
    ensures Sound(cfg, Next(cfg, w, e))
  {
  }

  /** Over every run of registrations and updates: a location leads to an asset that is there, no
      two locations lead to the same asset, no id is issued twice or is the native one, and
      different identifiers have different ids. */
  lemma {:induction false} LookupsOverRuns(cfg: Config, w: World, events: seq<Event>)
    requires Sound(cfg, w)
    ensures var w' := Run(cfg, w, events); var r := w'.registry;
      && Sound(cfg, w')
      && (forall l, k :: l in r.locationAssetId && k in r.locationAssetId && l != k ==>
            r.locationAssetId[l] != r.locationAssetId[k])
      && (forall i, j :: 0 <= i < j < |w'.issued| ==> w'.issued[i] != w'.issued[j])
      && cfg.nativeAssetId !in w'.issued
    decreases |events|
  {
    if events == [] {
      forall l, k | l in w.registry.locationAssetId && k in w.registry.locationAssetId
        && w.registry.locationAssetId[l] == w.registry.locationAssetId[k] ensures l == k
      {
        assert w.registry.assetIdLocation[w.registry.locationAssetId[l]] == l;
      }
    } else {
      NextKeepsSound(cfg, w, events[0]);
      LookupsOverRuns(cfg, Next(cfg, w, events[0]), events[1..]);
    }
  }

  lemma StartIsSound(cfg: Config)
    requires cfg.nativeAssetId < cfg.startId
    ensures Sound(cfg, Start(cfg))
  {
  }

  // ---- Which assets were force-registered ----

  /** The history set is what the storage shows. */
  ghost predicate ForcedIsStored(cfg: Config, w: World) {
    forall i :: i in w.forced <==> IsForced(cfg, w.registry, i)
  }

  lemma NextKeepsForcedStored(cfg: Config, w: World, e: Event)
    requires Sound(cfg, w) && ForcedIsStored(cfg, w)
    ensures ForcedIsStored(cfg, Next(cfg, w, e))
  {
    var w' := Next(cfg, w, e);
    forall i ensures i in w'.forced <==> IsForced(cfg, w'.registry, i) {
      assert i in w.forced <==> IsForced(cfg, w.registry, i);
      ForcedUntouched(cfg, w, e, i);
    }
  }

  /** A call changes the verdict on the new id only. */
  lemma ForcedUntouched(cfg: Config, w: World, e: Event, i: AssetId)
    requires Sound(cfg, w)
    ensures var w' := Next(cfg, w, e); var id := w.registry.nextAssetId;
      if e.ForceRegister? && w' != w && i == id then IsForced(cfg, w'.registry, i)
      else IsForced(cfg, w'.registry, i) <==> IsForced(cfg, w.registry, i)
  {
    var r, r' := w.registry, Next(cfg, w, e).registry;
    var id := r.nextAssetId;
    if e.Register? && r' != r {
      assert r'.registeredAssetId[e.metadata.identifier] == id;
      if i in r.registeredAssetId.Values {
        var x :| x in r.registeredAssetId && r.registeredAssetId[x] == i;
        assert r'.registeredAssetId[x] == i;
      }
    }
  }

  /** Over every run: the force-registered assets are exactly the known ids that are neither the
      native one nor registered under an identifier. */
  lemma {:induction false} ForcedStoredOverRuns(cfg: Config, w: World, events: seq<Event>)
    requires Sound(cfg, w) && ForcedIsStored(cfg, w)
    ensures ForcedIsStored(cfg, Run(cfg, w, events)) && Sound(cfg, Run(cfg, w, events))
    decreases |events|
  {
    if events != [] {
      NextKeepsSound(cfg, w, events[0]);
      NextKeepsForcedStored(cfg, w, events[0]);
      ForcedStoredOverRuns(cfg, Next(cfg, w, events[0]), events[1..]);
    }
  }

  // ---- The count table ----

  /** The force-registered assets located at parachain p. */
  ghost function ForcedAt(w: World, p: ParaId): set<AssetId> {
    set i | i in w.forced && i in w.registry.assetIdLocation && IsOn(w.registry.assetIdLocation[i], p)
  }

  /** The table counts the force-registered assets of each parachain and lists no other. */
  ghost predicate TableAgrees(w: World) {
    forall p: ParaId ::
      && (p in w.registry.allowedDestParaIds <==> |ForcedAt(w, p)| >= 1)
      && Count(w.registry.allowedDestParaIds, p) == |ForcedAt(w, p)|
  }

  ghost predicate ForcedKnown(w: World) {
    forall i :: i in w.forced ==> i in w.registry.assetIdLocation
  }

  /** When one asset leaves `was` and one arrives at `now`, the table follows the counts. */
  lemma TableMoves(w: World, w': World, was: Option<ParaId>, now: Option<ParaId>)
    requires TableAgrees(w)
    requires w'.registry.allowedDestParaIds == Increased(Decreased(w.registry.allowedDestParaIds, was), now)
    requires was.Some? ==> |ForcedAt(w, was.value)| >= 1
    requires forall p: ParaId ::
      |ForcedAt(w', p)| == |ForcedAt(w, p)| - (if was == Some(p) then 1 else 0) + if now == Some(p) then 1 else 0
    ensures TableAgrees(w')
  {
    hide ForcedAt, Increased, Decreased;
    forall p: ParaId
      ensures p in w'.registry.allowedDestParaIds <==> |ForcedAt(w', p)| >= 1
      ensures Count(w'.registry.allowedDestParaIds, p) == |ForcedAt(w', p)|
    {
      DecreasedCounts(w.registry.allowedDestParaIds, was, p);
      IncreasedCounts(Decreased(w.registry.allowedDestParaIds, was), now, p);
    }
  }

  lemma OneArrives(w: World, w': World, id: AssetId, location: Location, p: ParaId)
    requires id !in w.registry.assetIdLocation && ForcedKnown(w)
    requires w'.forced == w.forced + {id}
    requires w'.registry.assetIdLocation == w.registry.assetIdLocation[id := location]
    ensures |ForcedAt(w', p)| == |ForcedAt(w, p)| + if ParaIdOf(location) == Some(p) then 1 else 0
  {
    ParaIdOfIff(location);
    assert id !in ForcedAt(w, p);
    assert ForcedAt(w', p) == ForcedAt(w, p) + if ParaIdOf(location) == Some(p) then {id} else {};
  }

  lemma WithOrWithout(all: set<AssetId>, id: AssetId)
    ensures |all| == |all - {id}| + if id in all then 1 else 0
  {
    if id in all {
      assert all == (all - {id}) + {id};
    } else {
      assert all == all - {id};
    }
  }

  lemma OneMoves(w: World, w': World, id: AssetId, location: Location, p: ParaId)
    requires id in w.forced && id in w.registry.assetIdLocation
    requires w'.forced == w.forced
    requires w'.registry.assetIdLocation == w.registry.assetIdLocation[id := location]
    ensures var was := ParaIdOf(w.registry.assetIdLocation[id]);
      && |ForcedAt(w', p)| == |ForcedAt(w, p)| - (if was == Some(p) then 1 else 0)
                              + (if ParaIdOf(location) == Some(p) then 1 else 0)
      && (was == Some(p) ==> |ForcedAt(w, p)| >= 1)
  {
    ParaIdOfIff(location);
    ParaIdOfIff(w.registry.assetIdLocation[id]);
    assert id in ForcedAt(w, p) <==> ParaIdOf(w.registry.assetIdLocation[id]) == Some(p);
    assert id in ForcedAt(w', p) <==> ParaIdOf(location) == Some(p);
    assert ForcedAt(w, p) - {id} == ForcedAt(w', p) - {id};
    hide ForcedAt, ParaIdOf;
    WithOrWithout(ForcedAt(w, p), id);
    WithOrWithout(ForcedAt(w', p), id);
  }

  lemma ForceRegisterKeepsTable(cfg: Config, w: World, e: Event)
    requires e.ForceRegister? && Sound(cfg, w) && ForcedKnown(w) && TableAgrees(w)
    ensures TableAgrees(Next(cfg, w, e))
  {
    var w' := Next(cfg, w, e);
    if ForceRegisterAsset(cfg, w.registry, e.isModifier, e.created, e.location, e.metadata).Ok? {
      var id := w.registry.nextAssetId;
      assert id !in w.registry.assetIdLocation;
      hide ForcedAt, TableAgrees, Sound, Increased;
      forall p: ParaId
        ensures |ForcedAt(w', p)| == |ForcedAt(w, p)| + if ParaIdOf(e.location) == Some(p) then 1 else 0
      {
        OneArrives(w, w', id, e.location, p);
      }
      TableMoves(w, w', None, ParaIdOf(e.location));
    }
  }

  lemma RegisterKeepsTable(cfg: Config, w: World, e: Event)
    requires e.Register? && Sound(cfg, w) && ForcedKnown(w) && TableAgrees(w)
    ensures TableAgrees(Next(cfg, w, e))
  {
    var w' := Next(cfg, w, e);
    forall p: ParaId ensures ForcedAt(w', p) == ForcedAt(w, p) {
      assert forall i :: i in w.forced ==> i < w.registry.nextAssetId;
    }
  }

  lemma ForcedUpdateKeepsTable(cfg: Config, w: World, e: Event)
    requires e.Update? && e.id in w.forced && ForcedKnown(w) && TableAgrees(w)
    ensures TableAgrees(Next(cfg, w, e))
  {
    hide ForcedAt, TableAgrees, Increased;
    var w' := Next(cfg, w, e);
    if UpdateAssetLocation(w.registry, e.isModifier, e.id, e.location).Ok? {
      var was := ParaIdOf(w.registry.assetIdLocation[e.id]);
      forall p: ParaId
        ensures |ForcedAt(w', p)| == |ForcedAt(w, p)| - (if was == Some(p) then 1 else 0)
                                     + (if ParaIdOf(e.location) == Some(p) then 1 else 0)
        ensures was == Some(p) ==> |ForcedAt(w, p)| >= 1
      {
        OneMoves(w, w', e.id, e.location, p);
      }
      TableMoves(w, w', was, ParaIdOf(e.location));
    }
  }

  /** The two table changes of an update cancel out. */
  predicate ChangesCancel(table: Counts, was: Option<ParaId>, now: Option<ParaId>) {
    if was.Some? && was.value in table then now == was else now.None?
  }

  lemma CancelIff(table: Counts, was: Option<ParaId>, now: Option<ParaId>)
    requires forall p :: p in table ==> table[p] >= 1
    ensures Increased(Decreased(table, was), now) == table <==> ChangesCancel(table, was, now)
  {
    var changed := Increased(Decreased(table, was), now);
    if ChangesCancel(table, was, now) {
      assert changed == table;
    } else if was.Some? && was.value in table {
      assert Count(changed, was.value) < Count(table, was.value);
    } else {
      assert Count(changed, now.value) > Count(table, now.value);
    }
  }

  lemma UpdateKeepsTableIfHistory(cfg: Config, w: World, e: Event)
    requires e.Update? && ForcedKnown(w) && TableAgrees(w)
    requires UpdateAssetLocation(w.registry, e.isModifier, e.id, e.location).Ok?
    ensures TableAgrees(Next(cfg, w, e)) <==>
      || e.id in w.forced
      || ChangesCancel(w.registry.allowedDestParaIds, ParaIdOf(w.registry.assetIdLocation[e.id]), ParaIdOf(e.location))
  {
    var w' := Next(cfg, w, e);
    if e.id in w.forced {
      ForcedUpdateKeepsTable(cfg, w, e);
    } else {
      var table, table' := w.registry.allowedDestParaIds, w'.registry.allowedDestParaIds;
      forall p: ParaId ensures ForcedAt(w', p) == ForcedAt(w, p) {
      }
      forall p | p in table ensures table[p] >= 1 {
        assert Count(table, p) == |ForcedAt(w, p)|;
      }
      CancelIff(table, ParaIdOf(w.registry.assetIdLocation[e.id]), ParaIdOf(e.location));
      if TableAgrees(w') {
        SameCounts(table, table', w, w');
      }
    }
  }

  /** After any run that left the table right, exactly which successful updates keep it right:
      those of force-registered assets, and others only when the decrement and the increment
      cancel out. The storage before the call decides. */
  lemma UpdateKeepsTableIff(cfg: Config, events: seq<Event>, e: Event)
    requires cfg.nativeAssetId < cfg.startId && e.Update?
    requires TableAgrees(Run(cfg, Start(cfg), events))
    requires UpdateAssetLocation(Run(cfg, Start(cfg), events).registry, e.isModifier, e.id, e.location).Ok?
    ensures var w := Run(cfg, Start(cfg), events); var r := w.registry;
      TableAgrees(Next(cfg, w, e)) <==>
        || IsForced(cfg, r, e.id)
        || ChangesCancel(r.allowedDestParaIds, ParaIdOf(r.assetIdLocation[e.id]), ParaIdOf(e.location))
  {
    hide Next, TableAgrees, ChangesCancel;
    ForcedStoredOverRuns(cfg, Start(cfg), events);
    UpdateKeepsTableIfHistory(cfg, Run(cfg, Start(cfg), events), e);
  }

  lemma SameCounts(table: Counts, table': Counts, w: World, w': World)
    requires table == w.registry.allowedDestParaIds && table' == w'.registry.allowedDestParaIds
    requires TableAgrees(w) && TableAgrees(w')
    requires forall p: ParaId :: ForcedAt(w, p) == ForcedAt(w', p)
    ensures table == table'
  {
    forall p: ParaId ensures p in table <==> p in table' {
      assert p in table <==> |ForcedAt(w, p)| >= 1;
      assert p in table' <==> |ForcedAt(w', p)| >= 1;
    }
    assert table.Keys == table'.Keys;
    forall p | p in table ensures table[p] == table'[p] {
      assert Count(table, p) == |ForcedAt(w, p)| && Count(table', p) == |ForcedAt(w', p)|;
    }
  }

  // ---- The locations as an index ----

  /** Every known location is the native asset's or a force-registered asset's, and each of these
      assets is found at its location. */
  ghost predicate LocationsAre(cfg: Config, w: World) {
    var r := w.registry;
    && cfg.nativeAssetId !in w.forced
    && cfg.nativeAssetLocation in r.locationAssetId
    && r.locationAssetId[cfg.nativeAssetLocation] == cfg.nativeAssetId
    && (forall l :: l in r.locationAssetId && l != cfg.nativeAssetLocation ==> r.locationAssetId[l] in w.forced)
    && (forall i :: i in w.forced ==>
          && i in r.assetIdLocation
          && r.assetIdLocation[i] in r.locationAssetId
          && r.locationAssetId[r.assetIdLocation[i]] == i)
  }

  /** Exactly which successful updates keep every known location with the asset it belongs to:
      those of force-registered assets, that is of assets other than the native one whose
      location leads back to them. */
  lemma UpdateKeepsLocationsIff(cfg: Config, w: World, e: Event)
    requires e.Update? && Sound(cfg, w) && LocationsAre(cfg, w)
    requires UpdateAssetLocation(w.registry, e.isModifier, e.id, e.location).Ok?
    ensures LocationsAre(cfg, Next(cfg, w, e)) <==> e.id in w.forced
    ensures var r := w.registry; var l := r.assetIdLocation[e.id];
            e.id in w.forced
            <==> e.id != cfg.nativeAssetId && l in r.locationAssetId && r.locationAssetId[l] == e.id
  {
    var w' := Next(cfg, w, e);
    if e.id !in w.forced {
      assert w'.registry.locationAssetId[e.location] == e.id;
    }
  }

  /** The native location stays known exactly when the asset that moves is not recorded there. */
  lemma NativeLocationStaysIff(cfg: Config, w: World, e: Event)
    requires e.Update? && cfg.nativeAssetLocation in w.registry.locationAssetId
    requires UpdateAssetLocation(w.registry, e.isModifier, e.id, e.location).Ok?
    ensures cfg.nativeAssetLocation in Next(cfg, w, e).registry.locationAssetId
            <==> w.registry.assetIdLocation[e.id] != cfg.nativeAssetLocation
  {
  }

  // ---- Runs that move an asset of any account ----

  /** What an account may register and the modifier then move. */
  function MoveOfSigned(cfg: Config, metadata: Metadata, location: Location): seq<Event> {
    [Register(true, true, metadata), Update(true, cfg.startId, location)]
  }

  /** After these two calls the native asset is still recorded at the native location, which leads
      nowhere. */
  lemma MovedSigned(cfg: Config, metadata: Metadata, location: Location)
    requires cfg.nativeAssetId < cfg.startId < cfg.maxAssetId
    requires location != cfg.nativeAssetLocation
    ensures var w := Run(cfg, Start(cfg), MoveOfSigned(cfg, metadata, location));
      && w == World(Registry(
                map[cfg.nativeAssetId := cfg.nativeAssetLocation, cfg.startId := location],
                map[location := cfg.startId],
                map[cfg.nativeAssetId := cfg.nativeMetadata, cfg.startId := metadata],
                map[metadata.identifier := cfg.startId],
                cfg.startId + 1,
                Increased(Decreased(map[], ParaIdOf(cfg.nativeAssetLocation)), ParaIdOf(location))),
              {}, [cfg.startId])
  {
    var events := MoveOfSigned(cfg, metadata, location);
    var w1 := Next(cfg, Start(cfg), events[0]);
    assert events[1..] == [events[1]] && [events[1]][1..] == [];
    var w2 := Next(cfg, w1, events[1]);
    assert Run(cfg, w1, [events[1]]) == Run(cfg, w2, []) == w2;
    assert w1.registry.assetIdLocation
        == map[cfg.nativeAssetId := cfg.nativeAssetLocation, cfg.startId := cfg.nativeAssetLocation];
    assert w2.registry.locationAssetId == map[location := cfg.startId];
    assert w2.issued == [cfg.startId];
  }

  lemma NobodyForced(w: World)
    requires w.forced == {}
    ensures forall p: ParaId :: ForcedAt(w, p) == {}
  {
  }

  /** The table does go wrong: an asset registered by any account, then moved to a parachain, is
      counted there although it was never force-registered, and the native location is forgotten. */
  lemma SignedAssetSpoilsTable(cfg: Config, metadata: Metadata, location: Location, p: ParaId)
    requires cfg.nativeAssetId < cfg.startId < cfg.maxAssetId
    requires IsOn(location, p) && location != cfg.nativeAssetLocation
    ensures var w := Run(cfg, Start(cfg), MoveOfSigned(cfg, metadata, location));
      && TableAgrees(Start(cfg))
      && cfg.nativeAssetId in w.registry.assetIdLocation
      && w.registry.assetIdLocation[cfg.nativeAssetId] == cfg.nativeAssetLocation
      && cfg.nativeAssetLocation !in w.registry.locationAssetId
      && Count(w.registry.allowedDestParaIds, p) == 1 && ForcedAt(w, p) == {}
      && !TableAgrees(w)
  {
    MovedSigned(cfg, metadata, location);
    NobodyForced(Start(cfg));
    NobodyForced(Run(cfg, Start(cfg), MoveOfSigned(cfg, metadata, location)));
  }

  /** A right table is not enough: between locations outside all parachains the same two calls
      leave the table right, yet the native location is free, and the next force-registered asset
      can take it while the native asset is still recorded there. */
  lemma SignedAssetFreesNativeLocation(cfg: Config, first: Metadata, second: Metadata, location: Location)
    requires cfg.nativeAssetId < cfg.startId && cfg.startId + 1 < cfg.maxAssetId
    requires forall p: ParaId :: !IsOn(cfg.nativeAssetLocation, p) && !IsOn(location, p)
    requires location != cfg.nativeAssetLocation
    ensures var w := Run(cfg, Start(cfg), MoveOfSigned(cfg, first, location));
      && TableAgrees(w)
      && cfg.nativeAssetLocation !in w.registry.locationAssetId && !LocationsAre(cfg, w)
      && var r := Next(cfg, w, ForceRegister(true, true, cfg.nativeAssetLocation, second)).registry;
         && cfg.nativeAssetId in r.assetIdLocation && cfg.startId + 1 in r.assetIdLocation
         && r.assetIdLocation[cfg.nativeAssetId] == cfg.nativeAssetLocation == r.assetIdLocation[cfg.startId + 1]
         && cfg.nativeAssetLocation in r.locationAssetId
         && r.locationAssetId[cfg.nativeAssetLocation] == cfg.startId + 1
  {
    ParaIdOfIff(cfg.nativeAssetLocation);
    ParaIdOfIff(location);
    MovedSigned(cfg, first, location);
    NobodyForced(Run(cfg, Start(cfg), MoveOfSigned(cfg, first, location)));
  }

  // ---- Runs that move force-registered assets only ----

  predicate MovesForcedOnly(cfg: Config, w: World, events: seq<Event>)
    decreases |events|
  {
    events != [] ==>
      && (events[0].Update? ==> events[0].id in w.forced)
      && MovesForcedOnly(cfg, Next(cfg, w, events[0]), events[1..])
  }

  ghost predicate Indexed(cfg: Config, w: World) {
    Sound(cfg, w) && LocationsAre(cfg, w) && TableAgrees(w)
  }

  lemma NextKeepsLocations(cfg: Config, w: World, e: Event)
    requires Sound(cfg, w) && LocationsAre(cfg, w)
    requires e.Update? ==> e.id in w.forced
    ensures LocationsAre(cfg, Next(cfg, w, e))
  {
  }

  lemma StartIsIndexed(cfg: Config)
    requires cfg.nativeAssetId < cfg.startId
    ensures Indexed(cfg, Start(cfg))
  {
    forall p: ParaId ensures ForcedAt(Start(cfg), p) == {} {
    }
  }

  /** As long as only force-registered assets are moved, the table counts them exactly. */
  lemma {:induction false} TableOverRuns(cfg: Config, w: World, events: seq<Event>)
    requires Indexed(cfg, w) && MovesForcedOnly(cfg, w, events)
    ensures Indexed(cfg, Run(cfg, w, events))
    decreases |events|
  {
    if events != [] {
      var e := events[0];
      NextKeepsSound(cfg, w, e);
      NextKeepsLocations(cfg, w, e);
      match e {
        case Register(_, _, _) => RegisterKeepsTable(cfg, w, e);
        case ForceRegister(_, _, _, _) => ForceRegisterKeepsTable(cfg, w, e);
        case Update(_, _, _) => ForcedUpdateKeepsTable(cfg, w, e);
      }
      TableOverRuns(cfg, Next(cfg, w, e), events[1..]);
    }
  }

  /** In such runs exactly these destinations are allowed: accounts on the relay chain, and accounts
      on a parachain that is the first junction of some force-registered asset's location. */
  lemma AllowedIffAssetThere(cfg: Config, events: seq<Event>, destination: MultiLocation)
    requires cfg.nativeAssetId < cfg.startId && MovesForcedOnly(cfg, Start(cfg), events)
    ensures var w := Run(cfg, Start(cfg), events); var path := destination.interior;
      IsAllowed(w.registry, destination)
      <==> && destination.parents == 1
           && (|| (|path| == 1 && path[0].AccountId32?)
               || (&& |path| == 2 && path[0].Parachain? && (path[1].AccountId32? || path[1].AccountKey20?)
                   && exists i :: i in w.forced && StartsWith(w.registry, i, path[0])))
  {
    StartIsIndexed(cfg);
    TableOverRuns(cfg, Start(cfg), events);
    var w, path := Run(cfg, Start(cfg), events), destination.interior;
    if |path| == 2 && path[0].Parachain? {
      var p := path[0].id;
      assert |ForcedAt(w, p)| >= 1 <==> ForcedAt(w, p) != {};
      if i :| i in w.forced && StartsWith(w.registry, i, path[0]) {
        assert i in ForcedAt(w, p);
      }
      if |ForcedAt(w, p)| >= 1 {
        var i :| i in ForcedAt(w, p);
        assert StartsWith(w.registry, i, path[0]);
      }
    }
  }

  /** The asset is known and the first junction of its location is the given one. */
  predicate StartsWith(r: Registry, id: AssetId, first: Junction) {
    && id in r.assetIdLocation
    && match r.assetIdLocation[id]
       case V1(l) => |l.interior| > 0 && l.interior[0] == first
       case OtherVersion(_) => false
  }

  // ---- The migration ----

  lemma {:induction false} SameSize(a: set<AssetId>, b: set<Location>, f: map<AssetId, Location>)
    requires forall i :: i in a ==> i in f && f[i] in b
    requires forall i, j :: i in a && j in a && f[i] == f[j] ==> i == j
    requires forall l :: l in b ==> exists i :: i in a && f[i] == l
    ensures |a| == |b|
  {
    if a == {} {
      assert b == {};
    } else {
      var x :| x in a;
      forall l | l in b - {f[x]} ensures exists i :: i in a - {x} && f[i] == l {
        var i :| i in a && f[i] == l;
        assert i in a - {x};
      }
      SameSize(a - {x}, b - {f[x]}, f);
    }
  }

  /** The locations at p are those of the force-registered assets, and perhaps the native one. */
  lemma LocationsAt(cfg: Config, w: World, p: ParaId)
    requires Sound(cfg, w) && LocationsAre(cfg, w)
    ensures |At(w.registry.locationAssetId.Keys, p)|
         == |ForcedAt(w, p)| + if IsOn(cfg.nativeAssetLocation, p) then 1 else 0
  {
    var r := w.registry;
    var all := At(r.locationAssetId.Keys, p);
    var foreign := all - {cfg.nativeAssetLocation};
    forall l | l in foreign ensures exists i :: i in ForcedAt(w, p) && r.assetIdLocation[i] == l {
      var i := r.locationAssetId[l];
      assert i in ForcedAt(w, p) && r.assetIdLocation[i] == l;
    }
    SameSize(ForcedAt(w, p), foreign, r.assetIdLocation);
    assert all == foreign + if IsOn(cfg.nativeAssetLocation, p) then {cfg.nativeAssetLocation} else {};
  }

  /** Started from an empty table the migration rebuilds the maintained one, in any order of the
      locations, exactly when the native location is on no other parachain than this one and no
      force-registered asset is on this one. */
  lemma MigrationRebuildsIff(cfg: Config, w: World, table: Counts)
    requires Indexed(cfg, w)
    requires Recounted(map[], w.registry.locationAssetId.Keys, table)
    ensures table == w.registry.allowedDestParaIds <==>
      && (forall p: ParaId :: IsOn(cfg.nativeAssetLocation, p) ==> p == 2084)
      && 2084 !in w.registry.allowedDestParaIds
  {
    var kept := w.registry.allowedDestParaIds;
    var native := ParaIdOf(cfg.nativeAssetLocation);
    ParaIdOfIff(cfg.nativeAssetLocation);
    forall p: ParaId
      ensures Count(table, p) == if p == SELF_PARA_ID then 0 else Count(kept, p) + if native == Some(p) then 1 else 0
      ensures p in table <==> Count(table, p) > 0
      ensures p in kept <==> Count(kept, p) > 0
    {
      LocationsAt(cfg, w, p);
      assert |At(w.registry.locationAssetId.Keys, p)| >= 0;
    }
    if native in {None, Some(SELF_PARA_ID)} && SELF_PARA_ID !in kept {
      forall p: ParaId ensures p in table <==> p in kept {
      }
      assert table.Keys == kept.Keys;
      forall p | p in table ensures table[p] == kept[p] {
        assert Count(table, p) == Count(kept, p);
      }
    } else if SELF_PARA_ID in kept {
      assert SELF_PARA_ID !in table;
    } else {
      assert Count(table, native.value) != Count(kept, native.value);
    }
  }

  /** The two can differ: after one asset was force-registered on the parachain itself, the
      maintained table counts it and the rebuilt one does not. */
  lemma MigrationDropsSelf(cfg: Config, metadata: Metadata, location: Location, table: Counts)
    requires cfg.nativeAssetId < cfg.startId < cfg.maxAssetId
    requires IsOn(location, 2084) && location != cfg.nativeAssetLocation
    requires var w := Run(cfg, Start(cfg), [ForceRegister(true, true, location, metadata)]);
             Recounted(map[], w.registry.locationAssetId.Keys, table)
    ensures var w := Run(cfg, Start(cfg), [ForceRegister(true, true, location, metadata)]);
            w.registry.allowedDestParaIds == map[2084 := 1] && 2084 !in table
  {
    var e := ForceRegister(true, true, location, metadata);
    assert [e][1..] == [];
    assert Run(cfg, Start(cfg), [e]) == Run(cfg, Next(cfg, Start(cfg), e), []);
  }
}
