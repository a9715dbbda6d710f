/** The asset manager pallet and the migration that builds its count table. */
module AssetManager {
  import opened Wrappers
  import opened AssetRegistry

  class AssetManager {
    const cfg: Config

    var assetIdLocation: map<AssetId, Location>
    var locationAssetId: map<Location, AssetId>
    var assetIdMetadata: map<AssetId, Metadata>
    var registeredAssetId: map<nat, AssetId>
    var nextAssetId: AssetId
    var allowedDestParaIds: Counts
    var storageVersion: nat

    function State(): Registry
      reads this
    {
      Registry(assetIdLocation, locationAssetId, assetIdMetadata, registeredAssetId, nextAssetId, allowedDestParaIds)
    }

    constructor (cfg: Config)
      ensures this.cfg == cfg && State() == Genesis(cfg)
    {
      this.cfg := cfg;
      nextAssetId := cfg.startId;
      assetIdLocation := map[cfg.nativeAssetId := cfg.nativeAssetLocation];
      assetIdMetadata := map[cfg.nativeAssetId := cfg.nativeMetadata];
      locationAssetId := map[cfg.nativeAssetLocation := cfg.nativeAssetId];
      registeredAssetId, allowedDestParaIds, storageVersion := map[], map[], 2;
    }

    /** Puts the storage back, as a transactional call does after an error. */
    method Rollback(saved: Registry)
      modifies this
      ensures State() == saved && storageVersion == old(storageVersion)
    {
      assetIdLocation, locationAssetId := saved.assetIdLocation, saved.locationAssetId;
      assetIdMetadata, registeredAssetId := saved.assetIdMetadata, saved.registeredAssetId;
      nextAssetId, allowedDestParaIds := saved.nextAssetId, saved.allowedDestParaIds;
    }

    method NextAssetIdAndIncrement() returns (r: Result<AssetId, Error>)
      modifies `nextAssetId
      ensures if old(nextAssetId) >= cfg.maxAssetId
              then r == Err(Overflow) && nextAssetId == old(nextAssetId)
              else r == Ok(old(nextAssetId)) && nextAssetId == old(nextAssetId) + 1
    {
      var id := nextAssetId;
      if id >= cfg.maxAssetId {
        return Err(Overflow);
      }
      nextAssetId := id + 1;
      return Ok(id);
    }

    method IncreaseCountOfAssociatedAssets(paraId: ParaId)
      modifies `allowedDestParaIds
      ensures allowedDestParaIds == Increased(old(allowedDestParaIds), Some(paraId))
    {
      if paraId in allowedDestParaIds {
        allowedDestParaIds := allowedDestParaIds[paraId := allowedDestParaIds[paraId] + 1];
      } else {
        allowedDestParaIds := allowedDestParaIds[paraId := 1];
      }
    }

    method RegisterAsset(signed: bool, created: bool, metadata: Metadata) returns (r: Result<(), Error>)
      modifies this
      ensures var outcome := AssetRegistry.RegisterAsset(cfg, old(State()), signed, created, metadata);
        && State() == (if outcome.Ok? then outcome.value else old(State()))
        && r == (if outcome.Ok? then Ok(()) else Err(outcome.error))
    {
      if !signed {
        return Err(BadOrigin);
      }
      var saved := State();
      var id := NextAssetIdAndIncrement();
      if id.Err? {
        return Err(id.error);
      }
      if !created {
        Rollback(saved);
        return Err(ErrorCreatingAsset);
      }
      assetIdLocation := assetIdLocation[id.value := cfg.nativeAssetLocation];
      assetIdMetadata := assetIdMetadata[id.value := metadata];
      if metadata.identifier in registeredAssetId {
        Rollback(saved);
        return Err(ErrorCreatingAsset);
      }
      registeredAssetId := registeredAssetId[metadata.identifier := id.value];
      return Ok(());
    }

    method ForceRegisterAsset(isModifier: bool, created: bool, location: Location, metadata: Metadata)
      returns (r: Result<(), Error>)
      modifies this
      ensures var outcome := AssetRegistry.ForceRegisterAsset(cfg, old(State()), isModifier, created, location, metadata);
        && State() == (if outcome.Ok? then outcome.value else old(State()))
        && r == (if outcome.Ok? then Ok(()) else Err(outcome.error))
    {
      if !isModifier {
        return Err(BadOrigin);
      }
      if location in locationAssetId {
        return Err(LocationAlreadyExists);
      }
      var saved := State();
      var id := NextAssetIdAndIncrement();
      if id.Err? {
        return Err(id.error);
      }
      if !created {
        Rollback(saved);
        return Err(ErrorCreatingAsset);
      }
      assetIdLocation := assetIdLocation[id.value := location];
      assetIdMetadata := assetIdMetadata[id.value := metadata];
      locationAssetId := locationAssetId[location := id.value];
      match ParaIdOf(location) {
        case Some(paraId) => IncreaseCountOfAssociatedAssets(paraId);
        case None =>
      }
      return Ok(());
    }

    method UpdateAssetLocation(isModifier: bool, id: AssetId, location: Location) returns (r: Result<(), Error>)
      modifies this
      ensures var outcome := AssetRegistry.UpdateAssetLocation(old(State()), isModifier, id, location);
        && State() == (if outcome.Ok? then outcome.value else old(State()))
        && r == (if outcome.Ok? then Ok(()) else Err(outcome.error))
    {
      if !isModifier {
        return Err(BadOrigin);
      }
      if id !in assetIdLocation {
        return Err(UpdateNonExistentAsset);
      }
      if location in locationAssetId {
        return Err(LocationAlreadyExists);
      }
      var oldLocation := assetIdLocation[id];
      locationAssetId := (locationAssetId - {oldLocation})[location := id];
      assetIdLocation := assetIdLocation[id := location];
      match ParaIdOf(oldLocation) {
        case Some(oldParaId) =>
          if oldParaId !in allowedDestParaIds || allowedDestParaIds[oldParaId] <= 1 {
            allowedDestParaIds := allowedDestParaIds - {oldParaId};
          } else {
            allowedDestParaIds := allowedDestParaIds[oldParaId := allowedDestParaIds[oldParaId] - 1];
          }
        case None =>
      }
      match ParaIdOf(location) {
        case Some(paraId) => IncreaseCountOfAssociatedAssets(paraId);
        case None =>
      }
      return Ok(());
    }

    /** The migration: once, below storage version 1, it counts every known location that is not on
        the parachain itself. The locations come in any order. */
    method OnRuntimeUpgrade() returns (readCount: nat, writeCount: nat)
      modifies `allowedDestParaIds, `storageVersion
      ensures old(storageVersion) >= 1 ==>
        allowedDestParaIds == old(allowedDestParaIds) && storageVersion == old(storageVersion) && writeCount == 0
      ensures old(storageVersion) < 1 ==>
        && Recounted(old(allowedDestParaIds), locationAssetId.Keys, allowedDestParaIds)
        && storageVersion == 1
        && readCount == |locationAssetId| + |Counted(locationAssetId.Keys)|
        && writeCount == |Counted(locationAssetId.Keys)| + 1
    {
      if storageVersion >= 1 {
        return 1, 0;
      }
      readCount, writeCount := 0, 0;
      var left := locationAssetId.Keys;
      ghost var before := allowedDestParaIds;
      ghost var seen: set<Location> := {};
      while left != {}
        invariant seen + left == locationAssetId.Keys && seen !! left
        invariant Recounted(before, seen, allowedDestParaIds)
        invariant readCount == |seen| + |Counted(seen)| && writeCount == |Counted(seen)|
        decreases left
      {
        var location :| location in left;
        RecountOneMore(before, seen, allowedDestParaIds, location);
        CountedOneMore(seen, location);
        readCount := readCount + 1;
        match ParaIdOf(location) {
          case Some(paraId) =>
            if paraId != SELF_PARA_ID {
              IncreaseCountOfAssociatedAssets(paraId);
              readCount, writeCount := readCount + 1, writeCount + 1;
            }
          case None =>
        }
        seen, left := seen + {location}, left - {location};
      }
      assert seen == locationAssetId.Keys;
      storageVersion := 1;
      writeCount := writeCount + 1;
    }
  }

  // ---- What the migration counts ----

  /** The parachain this runtime is. */
  const SELF_PARA_ID: ParaId := 2084

  ghost function At(locations: set<Location>, p: ParaId): set<Location> {
    set l | l in locations && IsOn(l, p)
  }

  ghost function Counted(locations: set<Location>): set<Location> {
    set l | l in locations && (exists p :: IsOn(l, p)) && !IsOn(l, SELF_PARA_ID)
  }

  /** The table after counting the locations into it, in whatever order. */
  ghost predicate Recounted(before: Counts, locations: set<Location>, table: Counts) {
    forall p: ParaId ::
      var more := if p == SELF_PARA_ID then 0 else |At(locations, p)|;
      && (p in table <==> p in before || more > 0)
      && Count(table, p) == Count(before, p) + more
  }

  lemma RecountOneMore(before: Counts, seen: set<Location>, table: Counts, location: Location)
    requires Recounted(before, seen, table) && location !in seen
    ensures var p := ParaIdOf(location);
            Recounted(before, seen + {location}, if p == Some(SELF_PARA_ID) then table else Increased(table, p))
  {
    var more := if ParaIdOf(location) == Some(SELF_PARA_ID) then table else Increased(table, ParaIdOf(location));
    forall p: ParaId
      ensures var n := if p == SELF_PARA_ID then 0 else |At(seen + {location}, p)|;
              (p in more <==> p in before || n > 0) && Count(more, p) == Count(before, p) + n
    {
      AtOneMore(seen, location, p);
      IncreasedCounts(table, ParaIdOf(location), p);
      assert p in table <==> p in before || (if p == SELF_PARA_ID then 0 else |At(seen, p)|) > 0;
    }
  }

  lemma AtOneMore(seen: set<Location>, location: Location, p: ParaId)
    requires location !in seen
    ensures |At(seen + {location}, p)| == |At(seen, p)| + if ParaIdOf(location) == Some(p) then 1 else 0
  {
    ParaIdOfIff(location);
    assert At(seen + {location}, p) == At(seen, p) + if ParaIdOf(location) == Some(p) then {location} else {};
  }

  lemma CountedOneMore(seen: set<Location>, location: Location)
    requires location !in seen
    ensures var p := ParaIdOf(location);
            |Counted(seen + {location})| == |Counted(seen)| + if p.Some? && p.value != SELF_PARA_ID then 1 else 0
  {
    var p := ParaIdOf(location);
    ParaIdOfIff(location);
    assert Counted(seen + {location})
        == Counted(seen) + if p.Some? && p.value != SELF_PARA_ID then {location} else {};
  }
}
