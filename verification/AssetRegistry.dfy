/** The asset registry as a value: where assets live, who is at a location, and how many assets
    each parachain has. */
module AssetRegistry {
  import opened Wrappers

  type AssetId = nat
  type ParaId = nat

  datatype Junction = Parachain(id: ParaId) | AccountId32 | AccountKey20 | OtherJunction(tag: nat)

  datatype MultiLocation = MultiLocation(parents: nat, interior: seq<Junction>)

  /** A versioned location; only the current version converts to a MultiLocation. */
  datatype Location = V1(location: MultiLocation) | OtherVersion(encoded: nat)

  datatype Metadata = Metadata(identifier: nat, details: nat)

  datatype Error =
    | BadOrigin
    | LocationAlreadyExists
    | ErrorCreatingAsset
    | UpdateNonExistentAsset
    | UpdateParaIdError
    | Overflow

  /** What the runtime configures. */
  datatype Config = Config(
    nativeAssetId: AssetId, nativeAssetLocation: Location, nativeMetadata: Metadata, startId: AssetId, maxAssetId: AssetId)

  datatype Registry = Registry(
    assetIdLocation: map<AssetId, Location>,
    locationAssetId: map<Location, AssetId>,
    assetIdMetadata: map<AssetId, Metadata>,
    registeredAssetId: map<nat, AssetId>,
    nextAssetId: AssetId,
    allowedDestParaIds: map<ParaId, nat>)

  function Genesis(cfg: Config): Registry {
    Registry(map[cfg.nativeAssetId := cfg.nativeAssetLocation],
             map[cfg.nativeAssetLocation := cfg.nativeAssetId],
             map[cfg.nativeAssetId := cfg.nativeMetadata],
             map[], cfg.startId, map[])
  }

  /** The parachain a location starts with, if any. */
  function ParaIdOf(location: Location): Option<ParaId> {
    match location
    case V1(m) => if m.interior != [] && m.interior[0].Parachain? then Some(m.interior[0].id) else None
    case OtherVersion(_) => None
  }

  /** The location is on parachain p: it is current and starts with that junction. */
  predicate IsOn(location: Location, p: ParaId) {
    && location.V1?
    && location.location.interior != []
    && location.location.interior[0] == Parachain(p)
  }

  lemma ParaIdOfIff(location: Location)
    ensures forall p: ParaId :: ParaIdOf(location) == Some(p) <==> IsOn(location, p)
    ensures ParaIdOf(location) == None <==> forall p: ParaId :: !IsOn(location, p)
  {
    if ParaIdOf(location).Some? {
      assert IsOn(location, ParaIdOf(location).value);
    }
  }

  /** The asset was registered with a location of its own, as the storage shows it: it is neither
      the native asset nor one that an account registered under an identifier. */
  predicate IsForced(cfg: Config, r: Registry, id: AssetId) {
    && id in r.assetIdLocation
    && id != cfg.nativeAssetId
    && id !in r.registeredAssetId.Values
  }

  // ---- The count table ----

  type Counts = map<ParaId, nat>

  function Count(table: Counts, p: ParaId): nat { if p in table then table[p] else 0 }

  function Increased(table: Counts, p: Option<ParaId>): Counts {
    match p
    case None => table
    case Some(p) => if p in table then table[p := table[p] + 1] else table[p := 1]
  }

  function Decreased(table: Counts, p: Option<ParaId>): Counts {
    match p
    case None => table
    case Some(p) => if p !in table || table[p] <= 1 then table - {p} else table[p := table[p] - 1]
  }

  lemma IncreasedCounts(table: Counts, p: Option<ParaId>, q: ParaId)
    ensures var more := Increased(table, p);
      && (q in more <==> q in table || p == Some(q))
      && Count(more, q) == Count(table, q) + if p == Some(q) then 1 else 0
  {
  }

  lemma DecreasedCounts(table: Counts, p: Option<ParaId>, q: ParaId)
    requires q in table ==> table[q] >= 1
    ensures var less := Decreased(table, p);
      && (q in less <==> Count(less, q) >= 1)
      && Count(less, q) == Count(table, q) - if p == Some(q) && q in table then 1 else 0
  {
  }

  // ---- The calls ----

  /** `register_asset`: any signed account. The new asset is placed at the native location, which
      still leads back to the native asset. `created` is the verdict of the asset ledger. */
  function RegisterAsset(cfg: Config, r: Registry, signed: bool, created: bool, metadata: Metadata): Result<Registry, Error> {
    if !signed then Err(BadOrigin)
    else if r.nextAssetId >= cfg.maxAssetId then Err(Overflow)
    else if !created then Err(ErrorCreatingAsset)
    else if metadata.identifier in r.registeredAssetId then Err(ErrorCreatingAsset)
    else
      var id := r.nextAssetId;
      Ok(r.(nextAssetId := id + 1,
            assetIdLocation := r.assetIdLocation[id := cfg.nativeAssetLocation],
            assetIdMetadata := r.assetIdMetadata[id := metadata],
            registeredAssetId := r.registeredAssetId[metadata.identifier := id]))
  }

  /** `force_register_asset`: a new asset at a location of its own. */
  function ForceRegisterAsset(
    cfg: Config, r: Registry, isModifier: bool, created: bool, location: Location, metadata: Metadata)
    : Result<Registry, Error>
  {
    if !isModifier then Err(BadOrigin)
    else if location in r.locationAssetId then Err(LocationAlreadyExists)
    else if r.nextAssetId >= cfg.maxAssetId then Err(Overflow)
    else if !created then Err(ErrorCreatingAsset)
    else
      var id := r.nextAssetId;
      Ok(r.(nextAssetId := id + 1,
            assetIdLocation := r.assetIdLocation[id := location],
            assetIdMetadata := r.assetIdMetadata[id := metadata],
            locationAssetId := r.locationAssetId[location := id],
            allowedDestParaIds := Increased(r.allowedDestParaIds, ParaIdOf(location))))
  }

  /** `update_asset_location`: any existing asset moves to a location that is free. */
  function UpdateAssetLocation(r: Registry, isModifier: bool, id: AssetId, location: Location): Result<Registry, Error> {
    if !isModifier then Err(BadOrigin)
    else if id !in r.assetIdLocation then Err(UpdateNonExistentAsset)
    else if location in r.locationAssetId then Err(LocationAlreadyExists)
    else
      var oldLocation := r.assetIdLocation[id];
      Ok(r.(locationAssetId := (r.locationAssetId - {oldLocation})[location := id],
            assetIdLocation := r.assetIdLocation[id := location],
            allowedDestParaIds :=
              Increased(Decreased(r.allowedDestParaIds, ParaIdOf(oldLocation)), ParaIdOf(location))))
  }

  /** The destinations that may receive tokens: the relay chain, and the parachains in the table. */
  predicate IsAllowed(r: Registry, destination: MultiLocation) {
    var path := destination.interior;
    && destination.parents == 1
    && if |path| == 1 then path[0].AccountId32?
       else if |path| == 2 then
         && path[0].Parachain?
         && (path[1].AccountId32? || path[1].AccountKey20?)
         && path[0].id in r.allowedDestParaIds
       else false
  }
}
