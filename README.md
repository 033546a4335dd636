# Standalone ArduPilot terrain reader, modelled in Dafny

This project models the terrain database in `ardupilot/Standalone_AP_Terrain.cpp` and
`ardupilot/Standalone_AP_Terrain.hpp`, a stand-alone reader for ArduPilot `.DAT` elevation
tiles, and proves properties of that model.

A tile covers one square degree. Its name has the form `N27E086.dat`: a hemisphere letter, two
latitude digits, a hemisphere letter, three longitude digits, and the extension `.dat` or `.DAT`.
The file holds little-endian `int16` samples. The first 36 × 36 samples are a coarse grid, and
each one is either an elevation in metres or, at 32000 and above, an escape code. The code
`32000 + base` sends the lookup to sample `base + 10·sy + sx`, one cell of a 10 × 10 subgrid.
The database loads every regular file of a directory into a map. The map's key packs the
tile's whole-degree coordinate into 32 bits, and a query is answered by the tile that covers
the floored coordinate.

Files and modules:

- `wrappers.dfy` (`Wrappers`): the `Option` type.
- `cstring.dfy` (`CString`): the C library behaviour the parser relies on, i.e. `isspace`,
  `isdigit`, `toupper` and `std::stoi`. For `std::stoi` that means leading white space, an
  optional sign, decimal digits, the `invalid_argument` and `out_of_range` failures, and the
  trailing characters it ignores.
- `samples.dfy` (`Samples`): bytes to `int16` samples and back.
- `terrain_tile.dfy` (`TerrainTiles`):
  - the name parser and the loader as specification functions;
  - the two-level lookup, with truncation, clamping and escape decoding;
  - the class `TerrainTile`, whose `ParseFilename` and `Load` update its fields in place.
- `tile_properties.dfy` (`TileProperties`): lemmas about the parser, the loader and the lookup.
- `terrain_database.dfy` (`TerrainDatabases`):
  - the key packing;
  - the specification of directory loading, a fold over the candidates;
  - the class `TerrainDatabase`, with its `tiles` map, the loading loop and the query.
- `database_properties.dfy` (`DatabaseProperties`): lemmas about the keys, loading and the query.

Modelling choices:

- **File system:** directory listings and files are input values. A `DirEntry` carries:
  - the bare file name;
  - whether the entry is a regular file;
  - a `FileImage`, which says whether the file opened, gives its bytes, and says whether the
    read delivered all of them.
- **Coordinates:** query coordinates are exact `real`s. `static_cast<int>` truncates toward
  zero, and `floor` is `.Floor`.
- **Negative coarse offset:** it becomes a huge `size_t`, so the bounds check fails. The model
  takes this path.
- **Subgrid offset:** it is kept modulo 2^32, mirroring its `uint32_t`/`size_t` arithmetic.
- **Key packing:** it reduces `lat + 90` and `lon + 180` modulo 2^16, as the `uint16_t`
  conversion does. It then combines them as `high · 2^16 + low`. Because the low half is below
  2^16, that equals the shift-and-or of the source.
- **Tiles in the registry:** the map holds tiles as values. Each tile is reached only through
  the map's `unique_ptr` and never changes after its load. `get_elevation_from_data` is a
  function on that value, just as it is a `const` member in the source.

The source departs from the naming convention `[NS]dd[EW]ddd.dat` (unsigned digit groups,
extension in any case) in two ways, and the model follows the source:

- **Digit groups need not be plain digits.** They are read with `std::stoi`, so a group with a
  sign, or with leading white space, is accepted. `N-5E086.dat` names latitude -5 although its
  letter says north (`TileProperties.ParseAcceptsMinusGroup`). A group with trailing junk, such
  as `7x`, is also accepted.
- **The extension is not case-insensitive.** The source accepts exactly `.dat` and `.DAT`, and
  refuses `.Dat` (`TileProperties.ParseRejectsExtension`).

## Model

| member | source | states |
|---|---|---|
| CString.ToUpper | ardupilot/Standalone_AP_Terrain.cpp:46-47 | lower-case ASCII letters map to their capitals, every other character is unchanged |
| CString.SpacePrefix | ardupilot/Standalone_AP_Terrain.cpp:48-49 | the length of the longest all-white-space prefix that `stoi` skips |
| CString.DigitPrefix | ardupilot/Standalone_AP_Terrain.cpp:48-49 | the length of the longest all-digit prefix that `stoi` reads |
| CString.LeadingDigits | ardupilot/Standalone_AP_Terrain.cpp:48-49 | fails exactly when no digit follows (the `invalid_argument` case) |
| CString.Stoi | ardupilot/Standalone_AP_Terrain.cpp:48-49 | a success always lies in the `int` range |
| CString.StoiBound | ardupilot/Standalone_AP_Terrain.cpp:48-49 | the magnitude read from an n-character string is below 10^n |
| CString.StoiAccepts | ardupilot/Standalone_AP_Terrain.cpp:48-49 | white space, an optional sign, one to nine digits and a non-digit rest read as the signed value of the digits |
| CString.StoiRejects | ardupilot/Standalone_AP_Terrain.cpp:48-49 | after white space, a non-digit that is not a sign makes `stoi` fail; after a sign, any non-digit does (white space and a second sign included) |
| CString.StoiSkipsSpaces | ardupilot/Standalone_AP_Terrain.cpp:48-49 | leading white space does not change what `stoi` reads |
| Samples.SampleOf | ardupilot/Standalone_AP_Terrain.cpp:30-31 | a sample is the two's-complement little-endian value of its two bytes, negative exactly when the high byte's top bit is set |
| Samples.DecodeSamples | ardupilot/Standalone_AP_Terrain.cpp:30-31 | an even byte string gives half as many samples, sample k built from bytes 2k and 2k+1 |
| Samples.DecodeEncode | ardupilot/Standalone_AP_Terrain.cpp:30-31 | reading back the bytes of any sample sequence gives that sequence |
| Samples.EncodeDecode | ardupilot/Standalone_AP_Terrain.cpp:30-31 | every even-length file is the encoding of the samples read from it |
| TerrainTiles.LastDot | ardupilot/Standalone_AP_Terrain.cpp:41 | the position found is the last dot of the name after its first character, or none |
| TerrainTiles.Extension | ardupilot/Standalone_AP_Terrain.cpp:41 | a non-empty extension is the name's suffix from its last dot after the first character; an empty one means there is no such dot, or the name is `..` |
| TerrainTiles.ParseTileName | ardupilot/Standalone_AP_Terrain.cpp:37-60 | a success has a name of at least 11 characters with extension `.dat` or `.DAT`, a latitude in -99..99 and a longitude in -999..999 |
| TerrainTiles.LoadTile | ardupilot/Standalone_AP_Terrain.cpp:12-35 | a loaded tile is well formed, carries the coordinate its name parses to, and its samples encode exactly the file's bytes |
| TerrainTiles.Resize | ardupilot/Standalone_AP_Terrain.cpp:30 | `vector::resize`: the new length, old elements kept, new ones zero |
| TerrainTiles.Trunc | ardupilot/Standalone_AP_Terrain.cpp:66-67 | `static_cast<int>` truncates toward zero for either sign |
| TerrainTiles.Clamp | ardupilot/Standalone_AP_Terrain.cpp:69-70 | an index below `dim` is unchanged, one at or past it becomes exactly `dim - 1` |
| TerrainTiles.GridIndex | ardupilot/Standalone_AP_Terrain.cpp:66-70 | the coarse index is at most 35 |
| TerrainTiles.SubgridIndex | ardupilot/Standalone_AP_Terrain.cpp:82-88 | the subgrid index is at most 9 |
| TerrainTiles.DecodeCell | ardupilot/Standalone_AP_Terrain.cpp:77-81 | a value is an elevation exactly when below 32000; otherwise its base is value - 32000, at most 767 |
| TerrainTiles.EncodeCell | ardupilot/Standalone_AP_Terrain.hpp:81 | an elevation below 32000 or a base up to 767 gives an `int16` with the same reading |
| TerrainTiles.SubgridOffset | ardupilot/Standalone_AP_Terrain.cpp:81-90 | the offset is a `uint32_t` value: the plain sum whenever it lies in 0..2^32-1, and the sum plus 2^32 when a negative subgrid index makes it negative (down to -2^32) |
| TerrainTiles.ResolveSample | ardupilot/Standalone_AP_Terrain.cpp:72-95 | an answer is always one of the tile's samples |
| TerrainTiles.ElevationFromData | ardupilot/Standalone_AP_Terrain.cpp:62-97 | an answer is always one of the tile's samples |
| TerrainTiles.TerrainTile.constructor | ardupilot/Standalone_AP_Terrain.hpp:68 | a fresh tile has coordinate (0, 0) and no data |
| TerrainTiles.TerrainTile.ParseFilename | ardupilot/Standalone_AP_Terrain.cpp:37-60 | succeeds exactly when the name parses, then sets the coordinate to the parsed one; on failure the coordinate is unchanged; the data is never touched |
| TerrainTiles.TerrainTile.Load | ardupilot/Standalone_AP_Terrain.cpp:12-35 | succeeds exactly when the load specification does, and then holds that tile; a bad name changes nothing; after a resize the data has size/2 samples; before it the data is unchanged |
| TileProperties.ExtensionIsDat | ardupilot/Standalone_AP_Terrain.cpp:41 | for names of five or more characters, the extension is `.dat`/`.DAT` exactly when the name ends in one of them |
| TileProperties.ParseFailures | ardupilot/Standalone_AP_Terrain.cpp:41-58 | a short name, a wrong extension, a wrong letter in either position or an unreadable digit group each make the parse fail |
| TileProperties.ParseFromFields | ardupilot/Standalone_AP_Terrain.cpp:45-59 | given readable groups and valid letters, the coordinate is ± the groups' values, negated for `S` and `W` in either case |
| TileProperties.StoiOfDigits | ardupilot/Standalone_AP_Terrain.cpp:48-49 | a string of one to nine digits reads as the number it spells |
| TileProperties.ParseAccepts | ardupilot/Standalone_AP_Terrain.cpp:37-60 | every name of the documented shape parses, to the coordinate it spells |
| TileProperties.DecimalTwoDigits | ardupilot/Standalone_AP_Terrain.cpp:48 | a two-digit group's value in positional notation |
| TileProperties.DecimalThreeDigits | ardupilot/Standalone_AP_Terrain.cpp:49 | a three-digit group's value in positional notation |
| TileProperties.ParseExampleOrigin | ardupilot/Standalone_AP_Terrain.cpp:37-60 | `N00E000.dat` names (0, 0) |
| TileProperties.ParseExampleSouthWest | ardupilot/Standalone_AP_Terrain.cpp:54-55 | `S27W086.dat` names (-27, -86) |
| TileProperties.ParseExampleLowerCase | ardupilot/Standalone_AP_Terrain.cpp:46-47 | `n27e086.DAT`, with lower-case hemisphere letters, names (27, 86) |
| TileProperties.ParseRejectsLetter | ardupilot/Standalone_AP_Terrain.cpp:51-53 | `X27E086.dat` is refused |
| TileProperties.ParseRejectsExtension | ardupilot/Standalone_AP_Terrain.cpp:41 | `.txt` and the mixed-case `.Dat` are refused |
| TileProperties.ParseRejectsShort | ardupilot/Standalone_AP_Terrain.cpp:41 | a 10-character name is refused |
| TileProperties.ParseAcceptsMinusGroup | ardupilot/Standalone_AP_Terrain.cpp:48 | `N-5E086.dat` parses to (-5, 86) |
| TileProperties.ParseAcceptsPlusGroup | ardupilot/Standalone_AP_Terrain.cpp:48-55 | `S+5W086.dat` parses to (-5, -86) |
| TileProperties.LoadTileSucceeds | ardupilot/Standalone_AP_Terrain.cpp:12-35 | a load succeeds exactly when the name parses, the file opens, its size is non-zero and even, and the read is complete; the tile then has size/2 samples in file order |
| TileProperties.LoadNeedsName | ardupilot/Standalone_AP_Terrain.cpp:13-16 | an unparsable name fails the load whatever the file holds |
| TileProperties.CellRoundTrip | ardupilot/Standalone_AP_Terrain.cpp:77-81 | encoding then decoding a cell gives it back |
| TileProperties.SampleCellRoundTrip | ardupilot/Standalone_AP_Terrain.cpp:77-81 | decoding then encoding a sample gives it back |
| TileProperties.GridIndexInTile | ardupilot/Standalone_AP_Terrain.cpp:66-70 | inside the tile the coarse index is the floor of `frac·36`, in 0..35 |
| TileProperties.GridIndexAtEdge | ardupilot/Standalone_AP_Terrain.cpp:69-70 | at or past the far edge the index is clamped to 35 |
| TileProperties.SubgridIndexBounds | ardupilot/Standalone_AP_Terrain.cpp:82-88 | for a non-negative fraction the subgrid index is in 0..9 |
| TileProperties.CoarseOffsetBounds | ardupilot/Standalone_AP_Terrain.cpp:72 | for fractions in [0,1) the coarse offset is in 0..1295 |
| TileProperties.ResolveFails | ardupilot/Standalone_AP_Terrain.cpp:73-91 | the lookup fails exactly when the coarse offset is out of bounds, or the cell is escape coded and the final offset is out of bounds |
| TileProperties.ResolveDirect | ardupilot/Standalone_AP_Terrain.cpp:75-79 | a coarse value below 32000 is returned as-is, whatever the subgrid indices |
| TileProperties.ResolveEscape | ardupilot/Standalone_AP_Terrain.cpp:80-95 | for an escape code the base is in 0..767, the final offset at most 866, and the answer is the sample there, with no second dereference |
| TileProperties.QueryInsideTile | ardupilot/Standalone_AP_Terrain.cpp:62-95 | for a query inside the tile's square, no clamping happens: all four indices are plain floors |
| TileProperties.CellCentreReadsBack | ardupilot/Standalone_AP_Terrain.cpp:75-79 | the centre of a coarse cell reads back the elevation stored there |
| TileProperties.SubgridCentreReadsBack | ardupilot/Standalone_AP_Terrain.cpp:80-95 | the centre of a subgrid cell reads back the subgrid sample, not the escape code |
| TerrainDatabases.PackKey | ardupilot/Standalone_AP_Terrain.cpp:103-110 | the high 16 bits are `lat + 90` and the low 16 bits `lon + 180`, both modulo 2^16 |
| TerrainDatabases.LoadEntry | ardupilot/Standalone_AP_Terrain.cpp:115-117 | only a regular file contributes, and what it contributes is a well-formed tile |
| TerrainDatabases.Outcomes | ardupilot/Standalone_AP_Terrain.cpp:114-117 | one load outcome per candidate, in listing order |
| TerrainDatabases.CountSome | ardupilot/Standalone_AP_Terrain.cpp:120 | the number of successes never exceeds the number of outcomes |
| TerrainDatabases.CountLoaded | ardupilot/Standalone_AP_Terrain.cpp:120-124 | the count never exceeds the number of candidates |
| TerrainDatabases.TerrainDatabase.constructor | ardupilot/Standalone_AP_Terrain.hpp:22 | a fresh database has no tiles |
| TerrainDatabases.TerrainDatabase.LoadFromDirectory | ardupilot/Standalone_AP_Terrain.cpp:112-125 | the new map is the in-order fold of the candidates' loads over the old one, the result counts every success, and the registry invariant holds |
| TerrainDatabases.TerrainDatabase.GetElevation | ardupilot/Standalone_AP_Terrain.cpp:127-139 | an answer exists only if the floored coordinate's key is present, and it is a sample of that tile |
| DatabaseProperties.ModulusSeparates | ardupilot/Standalone_AP_Terrain.cpp:106-107 | values closer than 2^16 with equal `uint16_t` images are equal |
| DatabaseProperties.UnpackPackKey | ardupilot/Standalone_AP_Terrain.cpp:103-110 | on latitudes -90..90 and longitudes -180..180 the coordinate is recovered from its key |
| DatabaseProperties.PackKeyInjective | ardupilot/Standalone_AP_Terrain.hpp:47-53 | coordinates closer than 2^16 in each axis share a key if and only if they are equal |
| DatabaseProperties.PackKeyWraps | ardupilot/Standalone_AP_Terrain.cpp:106-107 | coordinates 2^16 degrees apart share a key |
| DatabaseProperties.TileKeysDistinguishTiles | ardupilot/Standalone_AP_Terrain.hpp:43-45 | two loadable tiles share a key if and only if they cover the same square |
| DatabaseProperties.LastStore | ardupilot/Standalone_AP_Terrain.cpp:117-120 | the position of the last success under a key, with no later one |
| DatabaseProperties.StoreAllAt | ardupilot/Standalone_AP_Terrain.cpp:117-120 | after loading, a key holds the last tile loaded under it, otherwise its old tile, and is present only in those cases |
| DatabaseProperties.StoreAllValid | ardupilot/Standalone_AP_Terrain.hpp:45 | storing well-formed tiles keeps every tile under its own key |
| DatabaseProperties.LoadAllValid | ardupilot/Standalone_AP_Terrain.cpp:112-125 | loading a listing keeps every tile under its own key and well formed |
| DatabaseProperties.StoreAllKeepsKeys | ardupilot/Standalone_AP_Terrain.cpp:119 | nothing is ever removed from the map |
| DatabaseProperties.StoreAllSize | ardupilot/Standalone_AP_Terrain.hpp:24-29 | the map grows by at most the returned count |
| DatabaseProperties.LoadAllIdempotent | ardupilot/Standalone_AP_Terrain.cpp:112-125 | loading the same listing twice gives the map of loading it once |
| DatabaseProperties.LoadSameFileTwice | ardupilot/Standalone_AP_Terrain.cpp:119-120 | a file listed twice is counted twice but stored once |
| DatabaseProperties.SameOutcomeTwice | ardupilot/Standalone_AP_Terrain.cpp:119-120 | a successful load stored twice leaves the map of storing it once and counts two |
| DatabaseProperties.SkipsNonRegular | ardupilot/Standalone_AP_Terrain.cpp:115 | a candidate that is not a regular file changes neither the map nor the count |
| DatabaseProperties.OneTilePerSquare | ardupilot/Standalone_AP_Terrain.hpp:43-45 | a valid map has at most one tile per square degree |
| DatabaseProperties.GetElevationCovering | ardupilot/Standalone_AP_Terrain.cpp:127-139 | on the documented range, the floored coordinate's tile answers with its own lookup on the original coordinate, and the query fails when no tile covers that square |
| DatabaseProperties.QueryAfterLoad | ardupilot/Standalone_AP_Terrain.cpp:112-139 | the last tile loaded for a square answers every query in that square |

## Left out

- `ardupilot/main.cpp`: it handles command-line arguments and prints sample queries; it is not
  part of this model.
- Directory iteration, `is_regular_file`, `ifstream` open, `tellg` and `read`. These are
  inputs: a `DirEntry` listing and a `FileImage` per file. The `filesystem_error` thrown for a
  missing directory is not modelled.
- `fs::path::filename()`: the parser takes the bare file name. `extension()` is modelled as
  the suffix from the last dot that is not at position 0, and `..` has no extension.
- IEEE double arithmetic: the rounding of `lat_frac * 36`, of the subtraction of the tile
  corner, and of `floor`. All are computed on exact reals.
- Coordinates too large for `int`: casting them is undefined behaviour in C++. The model
  truncates them without bound.
- The native byte order of `reinterpret_cast`: the model fixes it as little-endian.
- The unreachable `return false` after the if/else in `get_elevation_from_data`.
- TerrainTiles.ParseTileName: a name is read as one character per byte, as for ASCII names.
  A non-ASCII name takes more bytes in a `std::string` than characters here, so the length
  test and the positions 0..7 can differ; such names are not modelled.
- `toupper` beyond ASCII: the model treats only `a`..`z` as lower case, as the "C" locale does.
- TerrainTiles.TerrainTile.Load: after a short read the samples already read are not
  modelled. The contract states only that the data then has size/2 samples, and the tile is
  discarded anyway.
- Map ordering and `unique_ptr` ownership: the map is a Dafny `map` holding tile values.
  The uniqueness of the keys is what the model keeps.
