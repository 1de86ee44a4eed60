/**
 * The runtime loader: the bundled mirror, the two-entry `localStorage` cache with its
 * 24-hour freshness window, and the fetch-and-normalize path.
 */
module UseAnimalData {
  import opened Wrappers
  import opened Text
  import opened Json
  import opened Normalizer
  import opened Codec
  import opened Storage
  import opened Http

  const CACHE_KEY: string := "animal_info_v1"
  const SPECIES_KEY: string := "animal_species_v1"
  /** 24 hours in milliseconds. */
  const TTL: int := 24 * 60 * 60 * 1000

  /** `{info, species}` as the loaders return it: the parsed JSON values, not re-validated. */
  datatype Loaded = Loaded(info: Json, species: Json)

  /** A cache hit: `cached.data`, which is `undefined` (None) when the entry has no `data`,
      and the parsed species entry. */
  datatype CacheHit = CacheHit(info: Option<Json>, species: Json)

  const EmptyMirror: Loaded := Loaded(Obj(map[]), Arr([]))

  // ----- loadFromLocalMirror -----

  /** `loadFromLocalMirror`: `imported` is the JSON module's default export, or None when the
      import fails. It never fails: a missing or falsy part becomes `{}` or `[]`. */
  function LoadFromLocalMirror(imported: Option<Json>): (r: Loaded)
    ensures Truthy(r.info) && Truthy(r.species)
    ensures imported.None? ==> r == EmptyMirror
    ensures imported.Some? ==>
              (var info := Prop(imported.value, "info");
               r.info == if info.Some? && Truthy(info.value) then info.value else Obj(map[]))
    ensures imported.Some? ==>
              (var species := Prop(imported.value, "species");
               r.species == if species.Some? && Truthy(species.value) then species.value else Arr([]))
  {
    match imported
    case None => EmptyMirror
    case Some(d) =>
      // `m.default || m`: a falsy default export leaves the module namespace object, which has
      // neither `info` nor `species`; `Prop` of a falsy value is `undefined` too.
      Loaded(OrElse(Prop(d, "info"), Obj(map[])), OrElse(Prop(d, "species"), Arr([])))
  }

  /** The mirror written by the build script loads back exactly the build's snapshot. */
  lemma MirrorOfBuildArtifact(s: Snapshot)
    ensures LoadFromLocalMirror(Some(SnapshotJson(s))) == Loaded(InfoJson(s.info), SpeciesJson(s.species))
    ensures DecodeInfo(LoadFromLocalMirror(Some(SnapshotJson(s))).info) == Some(s.info)
    ensures DecodeSpecies(LoadFromLocalMirror(Some(SnapshotJson(s))).species) == Some(s.species)
  {
    InfoRoundTrip(s.info);
    SpeciesRoundTrip(s.species);
  }

  // ----- loadFromCache and saveCache -----

  /** `JSON.parse(getItem(key) || 'null')`; None when the parse throws. */
  function ParseItem(item: Option<StoredText>): Option<Json>
  {
    match item
    case None => Some(Null)
    case Some(EmptyText) => Some(Null)
    case Some(Encoded(v)) => Some(v)
    case Some(Unparseable) => None
  }

  /** A stored entry that parses to a truthy value. */
  predicate Usable(t: StoredText)
  {
    t.Encoded? && Truthy(t.value)
  }

  /** `now - cached.timestamp < TTL`; a NaN difference compares false. */
  predicate FreshAt(cached: Json, now: int)
  {
    var ts := ToNumber(Prop(cached, "timestamp"));
    ts.Some? && now - ts.value < TTL
  }

  /** `loadFromCache` at time `now`: a hit exactly when both keys hold entries that parse to
      truthy values and the info entry's timestamp is less than TTL old; a missing, empty,
      unparseable or expired entry is a miss, never an error. */
  function LoadFromCache(store: LocalStorage, now: int): (r: Option<CacheHit>)
    reads store
    ensures r.Some? <==>
              CACHE_KEY in store.items && SPECIES_KEY in store.items
              && Usable(store.items[CACHE_KEY]) && Usable(store.items[SPECIES_KEY])
              && FreshAt(store.items[CACHE_KEY].value, now)
    ensures r.Some? ==>
              r.value == CacheHit(Prop(store.items[CACHE_KEY].value, "data"), store.items[SPECIES_KEY].value)
  {
    var cached := ParseItem(store.GetItem(CACHE_KEY));
    var cachedSpecies := ParseItem(store.GetItem(SPECIES_KEY));
    if cached.Some? && cachedSpecies.Some?
       && Truthy(cached.value) && Truthy(cachedSpecies.value) && FreshAt(cached.value, now)
    then Some(CacheHit(Prop(cached.value, "data"), cachedSpecies.value))
    else None
  }

  /** The info entry `saveCache` writes: `{data: info, timestamp: now}`. */
  function CacheRecord(info: Info, now: int): Json
  {
    Obj(map["data" := InfoJson(info), "timestamp" := Num(now)])
  }

  /** `saveCache(info, species)` at time `now`: writes the two cache keys and nothing else. */
  method SaveCache(store: LocalStorage, info: Info, species: seq<string>, now: int)
    modifies store
    ensures store.items == old(store.items)[CACHE_KEY := Encoded(CacheRecord(info, now))]
                                           [SPECIES_KEY := Encoded(SpeciesJson(species))]
    ensures forall k :: k != CACHE_KEY && k != SPECIES_KEY ==>
              (k in store.items <==> k in old(store.items))
              && (k in store.items ==> store.items[k] == old(store.items)[k])
  {
    store.SetItem(CACHE_KEY, Encoded(CacheRecord(info, now)));
    store.SetItem(SPECIES_KEY, Encoded(SpeciesJson(species)));
  }

  /** Round trip: once `saveCache(info, species)` ran at time `t`, `loadFromCache(now)` hits
      exactly when `now - t < TTL`, and the hit decodes to `info` and `species`. */
  lemma LoadAfterSave(store: LocalStorage, info: Info, species: seq<string>, t: int, now: int)
    requires CACHE_KEY in store.items && store.items[CACHE_KEY] == Encoded(CacheRecord(info, t))
    requires SPECIES_KEY in store.items && store.items[SPECIES_KEY] == Encoded(SpeciesJson(species))
    ensures LoadFromCache(store, now).Some? <==> now - t < TTL
    ensures now - t < TTL ==>
              LoadFromCache(store, now) == Some(CacheHit(Some(InfoJson(info)), SpeciesJson(species)))
              && DecodeInfo(InfoJson(info)) == Some(info) && DecodeSpecies(SpeciesJson(species)) == Some(species)
  {
    InfoRoundTrip(info);
    SpeciesRoundTrip(species);
  }

  /** The window is strict and measured in milliseconds: valid 23h59m after the save, invalid
      at exactly 24h and at 24h00m01s. */
  lemma TtlBoundary(store: LocalStorage, info: Info, species: seq<string>, t: int)
    requires CACHE_KEY in store.items && store.items[CACHE_KEY] == Encoded(CacheRecord(info, t))
    requires SPECIES_KEY in store.items && store.items[SPECIES_KEY] == Encoded(SpeciesJson(species))
    ensures LoadFromCache(store, t + 86_340_000).Some?
    ensures LoadFromCache(store, t + 86_399_999).Some?
    ensures LoadFromCache(store, t + 86_400_000).None?
    ensures LoadFromCache(store, t + 86_401_000).None?
  {
    LoadAfterSave(store, info, species, t, t + 86_340_000);
    LoadAfterSave(store, info, species, t, t + 86_399_999);
    LoadAfterSave(store, info, species, t, t + 86_400_000);
    LoadAfterSave(store, info, species, t, t + 86_401_000);
  }

  /** With the store unchanged, a miss stays a miss as the clock moves forward. */
  lemma MissStaysMiss(store: LocalStorage, now: int, later: int)
    requires now <= later
    requires LoadFromCache(store, now).None?
    ensures LoadFromCache(store, later).None?
  {
  }

  // ----- fetchFromGoogle -----

  /** `fetchFromGoogle`: an unsuccessful response is an error carrying its status; otherwise
      the parsed rows are normalized by the `forEach` loop. */
  method FetchFromGoogle(res: Response) returns (r: Result<Snapshot, FetchError>)
    ensures !res.ok ==> r == Failure(HttpStatus(res.status))
    ensures res.ok ==> r == Success(Normalized(res.rows))
  {
    if !res.ok {
      return Failure(HttpStatus(res.status));
    }
    var rows := res.rows;
    var info: Info := map[];
    var speciesSet: seq<string> := [];
    var i := 0;
    while i < |rows|
      invariant 0 <= i <= |rows|
      invariant Snapshot(info, speciesSet) == Normalized(rows[..i])
    {
      var row := rows[i];
      assert rows[..i + 1] == rows[..i] + [row];
      NormalizedSnoc(rows[..i], row);
      // row.name?.trim() and row.species?.trim().toLowerCase()
      var name: Option<string> := if "name" in row then Some(Trim(row["name"])) else None;
      var rawSpecies: Option<string> := if "species" in row then Some(ToLower(Trim(row["species"]))) else None;
      if !(name.None? || name.value == "" || rawSpecies.None? || rawSpecies.value == "") {
        var species := rawSpecies.value;
        if species == "pig" || species == "wild_boar" {
          species := "pigs";
        }
        info := info[name.value := row];
        if species !in speciesSet {
          speciesSet := speciesSet + [species];
        }
      }
      i := i + 1;
    }
    assert rows[..i] == rows;
    return Success(Snapshot(info, speciesSet));
  }
}
