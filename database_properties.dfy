/** Properties of the registry: the key packing, the loading loop's specification and the
    lookup through the covering tile. */
module DatabaseProperties {
  import opened Wrappers
  import opened Samples
  import opened TerrainTiles
  import opened TerrainDatabases

  // ---------------------------------------------------------------------------------------
  // Key packing
  // ---------------------------------------------------------------------------------------

  /** Two integers less than 2^16 apart that agree modulo 2^16 are equal. */
  lemma ModulusSeparates(a: int, b: int)
    requires -UINT16_MODULUS < a - b < UINT16_MODULUS
    requires a % UINT16_MODULUS == b % UINT16_MODULUS
    ensures a == b
  {
    var qa, qb := a / UINT16_MODULUS, b / UINT16_MODULUS;
    assert a == qa * UINT16_MODULUS + a % UINT16_MODULUS;
    assert b == qb * UINT16_MODULUS + b % UINT16_MODULUS;
    assert a - b == (qa - qb) * UINT16_MODULUS;
  }

  /** On the documented range (latitude -90..90, longitude -180..180) a key gives back the
      coordinate it was packed from. */
  lemma UnpackPackKey(lat: int, lon: int)
    requires -90 <= lat <= 90 && -180 <= lon <= 180
    ensures UnpackKey(PackKey(lat, lon)) == Coord(lat, lon)
  {
  }

  /** Coordinates closer than 2^16 in each axis share a key exactly when they are equal. */
  lemma PackKeyInjective(lat1: int, lon1: int, lat2: int, lon2: int)
    requires -UINT16_MODULUS < lat1 - lat2 < UINT16_MODULUS
    requires -UINT16_MODULUS < lon1 - lon2 < UINT16_MODULUS
    ensures PackKey(lat1, lon1) == PackKey(lat2, lon2) <==> lat1 == lat2 && lon1 == lon2
  {
    if PackKey(lat1, lon1) == PackKey(lat2, lon2) {
      ModulusSeparates(lat1 + 90, lat2 + 90);
      ModulusSeparates(lon1 + 180, lon2 + 180);
    }
  }

  /** The `uint16_t` conversion wraps: coordinates 2^16 degrees apart share a key. */
  lemma PackKeyWraps(lat: int, lon: int)
    ensures PackKey(lat + UINT16_MODULUS, lon) == PackKey(lat, lon)
    ensures PackKey(lat, lon - UINT16_MODULUS) == PackKey(lat, lon)
  {
    assert (lat + UINT16_MODULUS + 90) % UINT16_MODULUS == (lat + 90) % UINT16_MODULUS;
    assert (lon - UINT16_MODULUS + 180) % UINT16_MODULUS == (lon + 180) % UINT16_MODULUS;
  }

  /** Tiles that can be loaded (two-digit latitude, three-digit longitude) share a key exactly
      when they cover the same square degree. */
  lemma TileKeysDistinguishTiles(t1: Tile, t2: Tile)
    requires WellFormed(t1) && WellFormed(t2)
    ensures TileKey(t1) == TileKey(t2) <==> t1.lat == t2.lat && t1.lon == t2.lon
  {
    PackKeyInjective(t1.lat, t1.lon, t2.lat, t2.lon);
  }

  // ---------------------------------------------------------------------------------------
  // Loading
  // ---------------------------------------------------------------------------------------

  /** Whether the outcome `o` stores a tile under key `k`. */
  predicate StoresKey(o: Option<Tile>, k: Key) {
    o.Some? && TileKey(o.value) == k
  }

  /** The position of the last outcome that stores a tile under `k`, or -1. */
  function LastStore(loaded: seq<Option<Tile>>, k: Key): (i: int)
    ensures -1 <= i < |loaded|
    ensures i >= 0 ==> StoresKey(loaded[i], k)
    ensures forall j :: i < j < |loaded| ==> !StoresKey(loaded[j], k)
    decreases |loaded|
  {
    if loaded == [] then -1
    else if StoresKey(loaded[|loaded| - 1], k) then |loaded| - 1
    else
      var init := loaded[..|loaded| - 1];
      assert forall j :: 0 <= j < |init| ==> init[j] == loaded[j];
      LastStore(init, k)
  }

  /** What the registry holds under any key after a sequence of loads: the tile of the last
      load that stored under it, otherwise what was there before, and nothing else. */
  lemma {:induction false} StoreAllAt(m: map<Key, Tile>, loaded: seq<Option<Tile>>, k: Key)
    ensures k in StoreAll(m, loaded) <==> k in m || LastStore(loaded, k) >= 0
    ensures LastStore(loaded, k) >= 0 ==> StoreAll(m, loaded)[k] == loaded[LastStore(loaded, k)].value
    ensures LastStore(loaded, k) < 0 && k in m ==> StoreAll(m, loaded)[k] == m[k]
    decreases |loaded|
  {
    if loaded != [] {
      var init := loaded[..|loaded| - 1];
      StoreAllAt(m, init, k);
      assert forall j :: 0 <= j < |init| ==> init[j] == loaded[j];
    }
  }

  /** Storing well-formed tiles keeps the registry invariant. */
  lemma {:induction false} StoreAllValid(m: map<Key, Tile>, loaded: seq<Option<Tile>>)
    requires ValidMap(m)
    requires forall i :: 0 <= i < |loaded| && loaded[i].Some? ==> WellFormed(loaded[i].value)
    ensures ValidMap(StoreAll(m, loaded))
    decreases |loaded|
  {
    if loaded != [] {
      StoreAllValid(m, loaded[..|loaded| - 1]);
    }
  }

  /** Loading a listing keeps the registry invariant. */
  lemma LoadAllValid(m: map<Key, Tile>, entries: seq<DirEntry>)
    requires ValidMap(m)
    ensures ValidMap(LoadAll(m, entries))
  {
    StoreAllValid(m, Outcomes(entries));
  }

  /** No tile is ever removed: loading only adds or replaces. */
  lemma StoreAllKeepsKeys(m: map<Key, Tile>, loaded: seq<Option<Tile>>)
    ensures m.Keys <= StoreAll(m, loaded).Keys
  {
    forall k | k in m
      ensures k in StoreAll(m, loaded)
    {
      StoreAllAt(m, loaded, k);
    }
  }

  /** The count of successful loads bounds the number of tiles added: duplicates are
      counted but occupy one slot. */
  lemma {:induction false} StoreAllSize(m: map<Key, Tile>, loaded: seq<Option<Tile>>)
    ensures |StoreAll(m, loaded).Keys| <= |m.Keys| + CountSome(loaded)
    decreases |loaded|
  {
    if loaded != [] {
      var init := loaded[..|loaded| - 1];
      StoreAllSize(m, init);
      match loaded[|loaded| - 1]
      case None =>
      case Some(t) =>
        var before := StoreAll(m, init);
        assert before[TileKey(t) := t].Keys == before.Keys + {TileKey(t)};
    }
  }

  /** Loading the same listing again changes nothing. */
  lemma LoadAllIdempotent(m: map<Key, Tile>, entries: seq<DirEntry>)
    ensures LoadAll(LoadAll(m, entries), entries) == LoadAll(m, entries)
  {
    var loaded := Outcomes(entries);
    var once := StoreAll(m, loaded);
    var twice := StoreAll(once, loaded);
    forall k
      ensures k in twice <==> k in once
      ensures k in once ==> twice[k] == once[k]
    {
      StoreAllAt(m, loaded, k);
      StoreAllAt(once, loaded, k);
    }
  }

  /** A file listed twice is stored once but counted twice. */
  lemma LoadSameFileTwice(m: map<Key, Tile>, e: DirEntry)
    requires LoadEntry(e).Some?
    ensures LoadAll(m, [e, e]) == LoadAll(m, [e])
    ensures CountLoaded([e, e]) == 2 && CountLoaded([e]) == 1
  {
    var o := LoadEntry(e);
    assert Outcomes([e]) == [o] by {
      assert [e][..0] == [];
    }
    assert Outcomes([e, e]) == [o, o] by {
      assert [e, e][..1] == [e];
    }
    SameOutcomeTwice(m, o);
  }

  /** A successful outcome stored twice is stored once but counted twice. */
  lemma SameOutcomeTwice(m: map<Key, Tile>, o: Option<Tile>)
    requires o.Some?
    ensures StoreAll(m, [o, o]) == StoreAll(m, [o])
    ensures CountSome([o, o]) == 2 && CountSome([o]) == 1
  {
    assert [o, o][..1] == [o];
    assert [o][..0] == [];
  }

  /** A candidate that is not a regular file leaves the registry and the count alone. */
  lemma SkipsNonRegular(m: map<Key, Tile>, entries: seq<DirEntry>, e: DirEntry)
    requires !e.isRegularFile
    ensures LoadAll(m, entries + [e]) == LoadAll(m, entries)
    ensures CountLoaded(entries + [e]) == CountLoaded(entries)
  {
    assert (entries + [e])[..|entries|] == entries;
    var loaded := Outcomes(entries);
    assert Outcomes(entries + [e]) == loaded + [None];
    assert (loaded + [None])[..|loaded|] == loaded;
  }

  // ---------------------------------------------------------------------------------------
  // Lookup
  // ---------------------------------------------------------------------------------------

  /** In a valid registry each square degree has at most one tile. */
  lemma OneTilePerSquare(db: TerrainDatabase, k1: Key, k2: Key)
    requires db.Valid()
    requires k1 in db.tiles && k2 in db.tiles
    requires db.tiles[k1].lat == db.tiles[k2].lat && db.tiles[k1].lon == db.tiles[k2].lon
    ensures k1 == k2
  {
  }

  /** On the documented query range, a lookup in a valid registry is answered by the tile
      whose south-west corner is the floored coordinate, and fails when there is none. */
  lemma GetElevationCovering(db: TerrainDatabase, lat: real, lon: real)
    requires db.Valid()
    requires -90.0 <= lat <= 90.0 && -180.0 <= lon <= 180.0
    ensures forall k :: k in db.tiles && db.tiles[k].lat == lat.Floor && db.tiles[k].lon == lon.Floor
              ==> db.GetElevation(lat, lon) == ElevationFromData(db.tiles[k], lat, lon)
    ensures (forall k :: k in db.tiles ==> db.tiles[k].lat != lat.Floor || db.tiles[k].lon != lon.Floor)
              ==> db.GetElevation(lat, lon).None?
  {
    var key := PackKey(lat.Floor, lon.Floor);
    if key in db.tiles {
      var t := db.tiles[key];
      PackKeyInjective(t.lat, t.lon, lat.Floor, lon.Floor);
    }
  }

  /** A tile loaded by the last candidate that loads its square answers every query inside
      that square, through the tile's own lookup. */
  lemma QueryAfterLoad(db: TerrainDatabase, m: map<Key, Tile>, entries: seq<DirEntry>, i: int,
                       t: Tile, lat: real, lon: real)
    requires db.tiles == LoadAll(m, entries)
    requires 0 <= i < |entries| && Outcomes(entries)[i] == Some(t)
    requires LastStore(Outcomes(entries), TileKey(t)) == i
    requires lat.Floor == t.lat && lon.Floor == t.lon
    ensures db.GetElevation(lat, lon) == ElevationFromData(t, lat, lon)
  {
    StoreAllAt(m, Outcomes(entries), TileKey(t));
  }
}
