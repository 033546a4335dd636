/** The tile registry (`TerrainDatabase` in Standalone_AP_Terrain): tiles keyed by their packed
    whole-degree coordinate, filled once from a directory and then queried. */
module TerrainDatabases {
  import opened Wrappers
  import opened Samples
  import opened TerrainTiles

  const UINT16_MODULUS: int := 0x1_0000

  /** A `uint32_t` key. */
  type Key = k: int | 0 <= k < 0x1_0000_0000

  /** `pack_latlon_to_key`: `lat + 90` and `lon + 180`, each converted to `uint16_t` (that is,
      taken modulo 2^16), placed in the high and the low half of a `uint32_t`. Because the low
      half is below 2^16, the shift-and-or of the source is the product-and-sum written here. */
  function PackKey(lat: int, lon: int): (key: Key)
    ensures key / UINT16_MODULUS == (lat + 90) % UINT16_MODULUS
    ensures key % UINT16_MODULUS == (lon + 180) % UINT16_MODULUS
  {
    var latU := (lat + 90) % UINT16_MODULUS;
    var lonU := (lon + 180) % UINT16_MODULUS;
    latU * UINT16_MODULUS + lonU
  }

  /** The coordinate a key was packed from, for keys of the documented range. */
  function UnpackKey(key: Key): Coord {
    Coord(key / UINT16_MODULUS - 90, key % UINT16_MODULUS - 180)
  }

  function TileKey(t: Tile): Key {
    PackKey(t.lat, t.lon)
  }

  /** One candidate of a directory listing: its bare name, whether it is a regular file,
      and what opening and reading it yields. */
  datatype DirEntry = DirEntry(name: string, isRegularFile: bool, file: FileImage)

  /** The tile a candidate contributes, if any: only regular files are loaded. */
  function LoadEntry(e: DirEntry): (r: Option<Tile>)
    ensures r.Some? ==> e.isRegularFile && WellFormed(r.value)
  {
    if e.isRegularFile then LoadTile(e.name, e.file) else None
  }

  /** What each candidate of a listing contributes, in listing order. */
  function Outcomes(entries: seq<DirEntry>): (r: seq<Option<Tile>>)
    ensures |r| == |entries|
    ensures forall i :: 0 <= i < |entries| ==> r[i] == LoadEntry(entries[i])
    decreases |entries|
  {
    if entries == [] then []
    else Outcomes(entries[..|entries| - 1]) + [LoadEntry(entries[|entries| - 1])]
  }

  /** The registry after storing the outcomes `loaded` in order into `m`: each loaded tile
      goes under its key, replacing what was there; a failed load changes nothing. */
  function StoreAll(m: map<Key, Tile>, loaded: seq<Option<Tile>>): map<Key, Tile>
    decreases |loaded|
  {
    if loaded == [] then m
    else
      var before := StoreAll(m, loaded[..|loaded| - 1]);
      match loaded[|loaded| - 1]
      case None => before
      case Some(t) => before[TileKey(t) := t]
  }

  /** The number of successful loads among `loaded`, duplicates included. */
  function CountSome(loaded: seq<Option<Tile>>): (n: nat)
    ensures n <= |loaded|
    decreases |loaded|
  {
    if loaded == [] then 0
    else CountSome(loaded[..|loaded| - 1]) + (if loaded[|loaded| - 1].Some? then 1 else 0)
  }

  /** The registry after loading the listing `entries` into `m`. */
  function LoadAll(m: map<Key, Tile>, entries: seq<DirEntry>): map<Key, Tile> {
    StoreAll(m, Outcomes(entries))
  }

  /** The number of candidates of `entries` whose load succeeded. */
  function CountLoaded(entries: seq<DirEntry>): (n: nat)
    ensures n <= |entries|
  {
    CountSome(Outcomes(entries))
  }

  /** The registry invariant: every tile sits under its own key and is one a load can
      produce, never a partial one. */
  ghost predicate ValidMap(m: map<Key, Tile>) {
    forall k :: k in m ==> TileKey(m[k]) == k && WellFormed(m[k])
  }

  class TerrainDatabase {
    var tiles: map<Key, Tile>

    ghost predicate Valid()
      reads this
    {
      ValidMap(tiles)
    }

    constructor ()
      ensures Valid() && tiles == map[]
    {
      tiles := map[];
    }

    /** `load_from_directory` over a listing: every regular file is loaded into a fresh tile
        object; a success is stored under the tile's key, overwriting, and counted. */
    method LoadFromDirectory(entries: seq<DirEntry>) returns (count: nat)
      requires Valid()
      modifies this
      ensures Valid()
      ensures tiles == LoadAll(old(tiles), entries)
      ensures count == CountLoaded(entries)
    {
      count := 0;
      for i := 0 to |entries|
        invariant ValidMap(tiles)
        invariant tiles == LoadAll(old(tiles), entries[..i])
        invariant count == CountLoaded(entries[..i])
      {
        var entry := entries[i];
        ghost var done := Outcomes(entries[..i]);
        assert entries[..i + 1][..i] == entries[..i];
        assert Outcomes(entries[..i + 1]) == done + [LoadEntry(entry)];
        assert (done + [LoadEntry(entry)])[..i] == done;
        if entry.isRegularFile {
          var tile := new TerrainTile();
          var ok := tile.Load(entry.name, entry.file);
          if ok {
            var key := PackKey(tile.tileLat, tile.tileLon);
            tiles := tiles[key := tile.Value()];
            count := count + 1;
          }
        }
      }
      assert entries[..|entries|] == entries;
    }

    /** `get_elevation`: the tile whose key the floored coordinate packs to answers the query
        with the original coordinate. The answer is always a sample of that tile. */
    function GetElevation(lat: real, lon: real): (r: Option<Int16>)
      reads this
      ensures r.Some? ==> PackKey(lat.Floor, lon.Floor) in tiles
      ensures r.Some? ==> r.value in tiles[PackKey(lat.Floor, lon.Floor)].data
    {
      var key := PackKey(lat.Floor, lon.Floor);
      if key !in tiles then None else ElevationFromData(tiles[key], lat, lon)
    }
  }
}
