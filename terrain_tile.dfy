/** One terrain tile (`TerrainTile` in Standalone_AP_Terrain): its name gives the whole-degree
    south-west corner, its payload is a flat array of signed 16-bit samples holding a 36x36
    coarse grid followed by 10x10 subgrid blocks that escape-coded coarse cells point to. */
module TerrainTiles {
  import opened Wrappers
  import opened CString
  import opened Samples

  /** Format constants of the `.DAT` layout. */
  const GRID_DIM: int := 36
  const SUBGRID_DIM: int := 10
  const TERRAIN_SUBGRID_MSG: int := 32000
  const UINT32_MODULUS: int := 0x1_0000_0000

  /** The tile coordinate a file name spells: signed whole degrees. */
  datatype Coord = Coord(lat: int, lon: int)

  /** A loaded tile, as the registry owns it: the coordinate and the samples in file order. */
  datatype Tile = Tile(lat: int, lon: int, data: seq<Int16>)

  /** What opening and reading one file yields: whether it could be opened, its bytes (their number
      is the size the stream reports) and whether one read of that many bytes succeeded. */
  datatype FileImage = FileImage(isOpen: bool, content: seq<Byte>, readComplete: bool)

  /** The tiles a successful load can produce: coordinates of at most two and three digits,
      and a non-empty payload. */
  predicate WellFormed(t: Tile) {
    -99 <= t.lat <= 99 && -999 <= t.lon <= 999 && |t.data| > 0
  }

  // ---------------------------------------------------------------------------------------
  // File names
  // ---------------------------------------------------------------------------------------

  /** The position of the last `.` among the characters `1 .. n-1` of `name`, or -1; a dot in
      the first position never starts an extension. */
  function LastDot(name: string, n: nat): (i: int)
    requires n <= |name|
    ensures i == -1 || (1 <= i < n && name[i] == '.')
    ensures forall j :: i < j < n && 1 <= j ==> name[j] != '.'
  {
    if n <= 1 then -1 else if name[n - 1] == '.' then n - 1 else LastDot(name, n - 1)
  }

  /** `std::filesystem::path(name).extension()` of a bare file name: from the last dot on,
      empty when there is none, and empty for the names `.` and `..`. */
  function Extension(name: string): (ext: string)
    ensures ext == [] || ext[0] == '.'
    ensures |ext| <= |name|
    ensures ext != [] ==> exists i :: 1 <= i < |name| && ext == name[i..] &&
                                      forall j :: i < j < |name| ==> name[j] != '.'
    ensures ext == [] ==> name == ".." || forall j :: 1 <= j < |name| ==> name[j] != '.'
  {
    if name == "." || name == ".." then ""
    else
      var i := LastDot(name, |name|);
      if i < 0 then "" else name[i..]
  }

  predicate HasDatExtension(name: string) {
    Extension(name) == ".dat" || Extension(name) == ".DAT"
  }

  /** `TerrainTile::parse_filename` as a function of the bare name: at least 11 characters,
      extension exactly `.dat` or `.DAT`, hemisphere letters at positions 0 and 3 (either
      case), `std::stoi` of characters 1-2 and 4-6. A throwing `stoi` is a failure too. */
  function ParseTileName(name: string): (r: Option<Coord>)
    ensures r.Some? ==> |name| >= 11 && HasDatExtension(name)
    ensures r.Some? ==> -99 <= r.value.lat <= 99 && -999 <= r.value.lon <= 999
  {
    if |name| < 11 || (Extension(name) != ".dat" && Extension(name) != ".DAT") then None
    else
      var nsChar := ToUpper(name[0]);
      var ewChar := ToUpper(name[3]);
      var latVal := Stoi(name[1..3]);
      var lonVal := Stoi(name[4..7]);
      if latVal.None? || lonVal.None? then None
      else if (nsChar != 'N' && nsChar != 'S') || (ewChar != 'E' && ewChar != 'W') then None
      else
        StoiBound(name[1..3]);
        StoiBound(name[4..7]);
        assert Pow10(2) == 100 && Pow10(3) == 1000;
        Some(Coord(if nsChar == 'S' then -latVal.value else latVal.value,
                   if ewChar == 'W' then -lonVal.value else lonVal.value))
  }

  // ---------------------------------------------------------------------------------------
  // Payload
  // ---------------------------------------------------------------------------------------

  /** `TerrainTile::load` as a function: the name must parse before the file is looked at;
      then the file must have opened, its size must be non-zero and even, and the read must
      deliver every byte. */
  function LoadTile(name: string, file: FileImage): (r: Option<Tile>)
    ensures r.Some? ==> WellFormed(r.value)
    ensures r.Some? ==> ParseTileName(name) == Some(Coord(r.value.lat, r.value.lon))
    ensures r.Some? ==> EncodeSamples(r.value.data) == file.content
  {
    match ParseTileName(name)
    case None => None
    case Some(c) =>
      if !file.isOpen then None
      else if |file.content| == 0 || |file.content| % 2 != 0 then None
      else if !file.readComplete then None
      else
        EncodeDecode(file.content);
        Some(Tile(c.lat, c.lon, DecodeSamples(file.content)))
  }

  /** Whether `load` gets as far as sizing the buffer and reading: the name parsed, the file
      opened and its size is non-zero and even. */
  predicate ReachesRead(name: string, file: FileImage) {
    ParseTileName(name).Some? && file.isOpen && |file.content| > 0 && |file.content| % 2 == 0
  }

  /** `std::vector::resize`: keeps the first `n` elements and pads with zeros. */
  function Resize(v: seq<Int16>, n: nat): (r: seq<Int16>)
    ensures |r| == n
    ensures forall i :: 0 <= i < n && i < |v| ==> r[i] == v[i]
    ensures forall i :: |v| <= i < n ==> r[i] == 0
  {
    if n <= |v| then v[..n] else v + seq(n - |v|, _ => 0)
  }

  // ---------------------------------------------------------------------------------------
  // Two-level lookup
  // ---------------------------------------------------------------------------------------

  /** `static_cast<int>` of a floating-point value: truncation toward zero. */
  function Trunc(x: real): (i: int)
    ensures 0.0 <= x ==> 0 <= i && i as real <= x < i as real + 1.0
    ensures x < 0.0 ==> i <= 0 && i as real - 1.0 < x <= i as real
  {
    if x >= 0.0 then x.Floor else -((-x).Floor)
  }

  /** The guard against an index that reaches the grid's far edge. */
  function Clamp(i: int, dim: int): (r: int)
    ensures r <= dim - 1
    ensures i < dim ==> r == i
    ensures i >= dim ==> r == dim - 1
  {
    if i >= dim then dim - 1 else i
  }

  /** The coarse row (or column) of a fractional offset within the tile. */
  function GridIndex(frac: real): (g: int)
    ensures g <= GRID_DIM - 1
  {
    Clamp(Trunc(frac * GRID_DIM as real), GRID_DIM)
  }

  /** The subgrid row (or column) of a fractional offset, within coarse cell `g`. */
  function SubgridIndex(frac: real, g: int): (s: int)
    ensures s <= SUBGRID_DIM - 1
  {
    Clamp(Trunc((frac * GRID_DIM as real - g as real) * SUBGRID_DIM as real), SUBGRID_DIM)
  }

  /** The decoded meaning of a coarse sample: an elevation, or the escape code
      `TERRAIN_SUBGRID_MSG + base` pointing at the subgrid block that starts at `base`. */
  datatype Cell = Direct(elevation: Int16) | Subgrid(base: nat)

  function DecodeCell(v: Int16): (c: Cell)
    ensures c.Direct? <==> v < TERRAIN_SUBGRID_MSG
    ensures c.Direct? ==> c.elevation == v
    ensures c.Subgrid? ==> c.base <= 767 && TERRAIN_SUBGRID_MSG + c.base == v
  {
    if v < TERRAIN_SUBGRID_MSG then Direct(v) else Subgrid(v - TERRAIN_SUBGRID_MSG)
  }

  /** The coarse sample that stores a cell: the inverse of `DecodeCell`. */
  function EncodeCell(c: Cell): (v: Int16)
    requires c.Direct? ==> c.elevation < TERRAIN_SUBGRID_MSG
    requires c.Subgrid? ==> c.base <= 767
    ensures DecodeCell(v) == c
  {
    match c
    case Direct(e) => e
    case Subgrid(base) => TERRAIN_SUBGRID_MSG + base
  }

  /** The flat offset of coarse cell (gy, gx). It is computed in `int`; a negative value
      becomes a huge `size_t` and fails the bounds check. */
  function CoarseOffset(gy: int, gx: int): int {
    gy * GRID_DIM + gx
  }

  /** The flat offset of subgrid cell (sy, sx) of the block at `base`, computed in `uint32_t`. */
  function SubgridOffset(base: nat, sy: int, sx: int): (off: nat)
    ensures off < UINT32_MODULUS
    ensures 0 <= base + sy * SUBGRID_DIM + sx < UINT32_MODULUS ==> off == base + sy * SUBGRID_DIM + sx
    ensures -UINT32_MODULUS <= base + sy * SUBGRID_DIM + sx < 0
            ==> off == base + sy * SUBGRID_DIM + sx + UINT32_MODULUS
  {
    (base + sy * SUBGRID_DIM + sx) % UINT32_MODULUS
  }

  /** The lookup once the four (clamped) cell indices are known. */
  function ResolveSample(data: seq<Int16>, gy: int, gx: int, sy: int, sx: int): (r: Option<Int16>)
    ensures r.Some? ==> r.value in data
  {
    var top := CoarseOffset(gy, gx);
    if top < 0 || top >= |data| then None
    else
      match DecodeCell(data[top])
      case Direct(e) => Some(e)
      case Subgrid(base) =>
        var fin := SubgridOffset(base, sy, sx);
        if fin >= |data| then None else Some(data[fin])
  }

  /** `TerrainTile::get_elevation_from_data`: the sample for a query point, or `None` where
      the source returns false and leaves `elevation` untouched. */
  function ElevationFromData(t: Tile, lat: real, lon: real): (r: Option<Int16>)
    ensures r.Some? ==> r.value in t.data
  {
    var latFrac := lat - t.lat as real;
    var lonFrac := lon - t.lon as real;
    var gy := GridIndex(latFrac);
    var gx := GridIndex(lonFrac);
    ResolveSample(t.data, gy, gx, SubgridIndex(latFrac, gy), SubgridIndex(lonFrac, gx))
  }

  // ---------------------------------------------------------------------------------------
  // The tile object
  // ---------------------------------------------------------------------------------------

  /** The loader's object: `load` and `parse_filename` set its fields in place. */
  class TerrainTile {
    var tileLat: int
    var tileLon: int
    var fileData: seq<Int16>

    constructor ()
      ensures tileLat == 0 && tileLon == 0 && fileData == []
    {
      tileLat, tileLon, fileData := 0, 0, [];
    }

    /** The tile value the fields currently hold. */
    function Value(): (t: Tile)
      reads this
      ensures t.lat == tileLat && t.lon == tileLon && t.data == fileData
    {
      Tile(tileLat, tileLon, fileData)
    }

    /** `TerrainTile::parse_filename`: sets the coordinate fields only when the whole name
        parses; any failure leaves the object as it was. */
    method ParseFilename(name: string) returns (ok: bool)
      modifies this
      ensures ok <==> ParseTileName(name).Some?
      ensures ok ==> tileLat == ParseTileName(name).value.lat && tileLon == ParseTileName(name).value.lon
      ensures !ok ==> tileLat == old(tileLat) && tileLon == old(tileLon)
      ensures fileData == old(fileData)
    {
      if |name| < 11 || (Extension(name) != ".dat" && Extension(name) != ".DAT") {
        return false;
      }
      var nsChar := ToUpper(name[0]);
      var ewChar := ToUpper(name[3]);
      var latVal := Stoi(name[1..3]);
      var lonVal := Stoi(name[4..7]);
      if latVal.None? || lonVal.None? {
        // std::stoi threw; the exception is caught and reported as false
        return false;
      }
      if (nsChar != 'N' && nsChar != 'S') || (ewChar != 'E' && ewChar != 'W') {
        return false;
      }
      tileLat := if nsChar == 'S' then -latVal.value else latVal.value;
      tileLon := if ewChar == 'W' then -lonVal.value else lonVal.value;
      ok := true;
    }

    /** `TerrainTile::load`. On success the object holds exactly `LoadTile(name, file)`. A
        name that does not parse leaves the object untouched and the file unread; a file
        that fails to open or has a zero or odd size leaves the samples untouched; a short
        read leaves a buffer of the full sample count behind. */
    method Load(name: string, file: FileImage) returns (ok: bool)
      modifies this
      ensures ok <==> LoadTile(name, file).Some?
      ensures ok ==> Value() == LoadTile(name, file).value
      ensures ParseTileName(name).None? ==> Value() == old(Value())
      ensures ParseTileName(name).Some? ==>
                tileLat == ParseTileName(name).value.lat && tileLon == ParseTileName(name).value.lon
      ensures ReachesRead(name, file) ==> |fileData| == |file.content| / 2
      ensures !ReachesRead(name, file) ==> fileData == old(fileData)
    {
      ok := ParseFilename(name);
      if !ok {
        return;
      }
      if !file.isOpen {
        return false;
      }
      var size := |file.content|;
      if size == 0 || size % 2 != 0 {
        return false;
      }
      fileData := Resize(fileData, size / 2);
      if !file.readComplete {
        return false;
      }
      fileData := DecodeSamples(file.content);
      ok := true;
    }
  }
}
