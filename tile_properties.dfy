/** Properties of the tile decoder: what names parse, what loads, and how a query point
    resolves through the coarse grid and the subgrids. */
module TileProperties {
  import opened Wrappers
  import opened CString
  import opened Samples
  import opened TerrainTiles

  // ---------------------------------------------------------------------------------------
  // Names
  // ---------------------------------------------------------------------------------------

  predicate EndsWithDat(name: string) {
    |name| >= 4 && (name[|name| - 4..] == ".dat" || name[|name| - 4..] == ".DAT")
  }

  /** Once a name has five or more characters, its extension is `.dat` or `.DAT` exactly
      when its last four characters are; other spellings such as `.Dat` are refused. */
  lemma ExtensionIsDat(name: string)
    requires |name| >= 5
    ensures HasDatExtension(name) <==> EndsWithDat(name)
  {
    var n := |name|;
    var i := LastDot(name, n);
    if EndsWithDat(name) {
      assert name[n - 4] == name[n - 4..][0] == '.';
      assert name[n - 3] == name[n - 4..][1] && name[n - 2] == name[n - 4..][2] && name[n - 1] == name[n - 4..][3];
      assert i == n - 4;
    }
    if HasDatExtension(name) {
      assert |Extension(name)| == 4;
      assert i == n - 4;
    }
  }

  /** The reasons `parse_filename` returns false. */
  lemma ParseFailures(name: string)
    ensures |name| < 11 ==> ParseTileName(name).None?
    ensures |name| >= 11 && !EndsWithDat(name) ==> ParseTileName(name).None?
    ensures |name| >= 11 && ToUpper(name[0]) != 'N' && ToUpper(name[0]) != 'S' ==> ParseTileName(name).None?
    ensures |name| >= 11 && ToUpper(name[3]) != 'E' && ToUpper(name[3]) != 'W' ==> ParseTileName(name).None?
    ensures |name| >= 11 && (Stoi(name[1..3]).None? || Stoi(name[4..7]).None?) ==> ParseTileName(name).None?
  {
    if |name| >= 11 {
      ExtensionIsDat(name);
    }
  }

  /** The signed value of a hemisphere letter and a magnitude. */
  function Signed(letter: char, negative: char, magnitude: int): int {
    if ToUpper(letter) == negative then -magnitude else magnitude
  }

  /** Once the length, the extension, both `stoi` calls and both letters pass, the
      coordinate is the two values, each negated for the southern or western letter. */
  lemma ParseFromFields(name: string, latVal: int, lonVal: int)
    requires |name| >= 11 && HasDatExtension(name)
    requires Stoi(name[1..3]) == Some(latVal) && Stoi(name[4..7]) == Some(lonVal)
    requires ToUpper(name[0]) == 'N' || ToUpper(name[0]) == 'S'
    requires ToUpper(name[3]) == 'E' || ToUpper(name[3]) == 'W'
    ensures ParseTileName(name) == Some(Coord(Signed(name[0], 'S', latVal), Signed(name[3], 'W', lonVal)))
  {
  }

  /** A string of one to nine digits is read by `stoi` as the number it spells. */
  lemma StoiOfDigits(d: string)
    requires 1 <= |d| <= 9 && AllDigits(d)
    ensures Stoi(d) == Some(DecimalValue(d))
  {
    StoiAccepts([], NoSign, d, []);
    assert [] + SignText(NoSign) + d + [] == d;
  }

  /** Every name in the documented shape parses, to the coordinate it spells: a hemisphere
      letter, two digits, a hemisphere letter, three digits, and an ending `.dat` or `.DAT`
      somewhere after them, letters in either case. */
  lemma ParseAccepts(name: string)
    requires |name| >= 11 && EndsWithDat(name)
    requires ToUpper(name[0]) == 'N' || ToUpper(name[0]) == 'S'
    requires ToUpper(name[3]) == 'E' || ToUpper(name[3]) == 'W'
    requires AllDigits(name[1..3]) && AllDigits(name[4..7])
    ensures ParseTileName(name)
         == Some(Coord(Signed(name[0], 'S', DecimalValue(name[1..3])), Signed(name[3], 'W', DecimalValue(name[4..7]))))
  {
    ExtensionIsDat(name);
    StoiOfDigits(name[1..3]);
    StoiOfDigits(name[4..7]);
    ParseFromFields(name, DecimalValue(name[1..3]), DecimalValue(name[4..7]));
  }

  lemma DecimalTwoDigits(d: string)
    requires |d| == 2 && AllDigits(d)
    ensures DecimalValue(d) == 10 * DigitValue(d[0]) + DigitValue(d[1])
  {
    assert d[..1][..0] == [];
  }

  lemma DecimalThreeDigits(d: string)
    requires |d| == 3 && AllDigits(d)
    ensures DecimalValue(d) == 100 * DigitValue(d[0]) + 10 * DigitValue(d[1]) + DigitValue(d[2])
  {
    assert d[..2] == [d[0], d[1]];
    DecimalTwoDigits(d[..2]);
  }

  /** Names in the naming convention `[NS]dd[EW]ddd.dat`, one of them in lower case. */
  lemma ParseExampleOrigin()
    ensures ParseTileName("N00E000.dat") == Some(Coord(0, 0))
  {
    var name := "N00E000.dat";
    assert name[1..3] == "00" && name[4..7] == "000";
    assert DecimalValue(name[1..3]) == 0 by { DecimalTwoDigits(name[1..3]); }
    assert DecimalValue(name[4..7]) == 0 by { DecimalThreeDigits(name[4..7]); }
    ParseAccepts(name);
  }

  lemma ParseExampleSouthWest()
    ensures ParseTileName("S27W086.dat") == Some(Coord(-27, -86))
  {
    var name := "S27W086.dat";
    assert name[1..3] == "27" && name[4..7] == "086";
    assert DecimalValue(name[1..3]) == 27 by { DecimalTwoDigits(name[1..3]); }
    assert DecimalValue(name[4..7]) == 86 by { DecimalThreeDigits(name[4..7]); }
    ParseAccepts(name);
  }

  lemma ParseExampleLowerCase()
    ensures ParseTileName("n27e086.DAT") == Some(Coord(27, 86))
  {
    var name := "n27e086.DAT";
    assert name[1..3] == "27" && name[4..7] == "086";
    assert DecimalValue(name[1..3]) == 27 by { DecimalTwoDigits(name[1..3]); }
    assert DecimalValue(name[4..7]) == 86 by { DecimalThreeDigits(name[4..7]); }
    ParseAccepts(name);
  }

  /** A wrong hemisphere letter is refused. */
  lemma ParseRejectsLetter()
    ensures ParseTileName("X27E086.dat").None?
  {
    var a := "X27E086.dat";
    assert ToUpper(a[0]) == 'X';
    ParseFailures(a);
  }

  /** A wrong extension is refused, and so is a mixed-case `.Dat`. */
  lemma ParseRejectsExtension()
    ensures ParseTileName("N27E086.txt").None?
    ensures ParseTileName("N27E086.Dat").None?
  {
    var a, b := "N27E086.txt", "N27E086.Dat";
    assert !EndsWithDat(a) by { assert a[|a| - 4..][1] == 't'; }
    assert !EndsWithDat(b) by { assert b[|b| - 4..][1] == 'D' && b[|b| - 4..][2] == 'a'; }
    ParseFailures(a);
    ParseFailures(b);
  }

  /** A name shorter than eleven characters is refused. */
  lemma ParseRejectsShort()
    ensures ParseTileName("N2E086.dat").None?
  {
  }

  /** `stoi` reads a sign: a digit group such as `-5` parses, so `N-5E086.dat` names the
      tile at latitude -5 although its letter says north. */
  lemma ParseAcceptsMinusGroup()
    ensures ParseTileName("N-5E086.dat") == Some(Coord(-5, 86))
  {
    var a := "N-5E086.dat";
    assert HasDatExtension(a) by { ExtensionIsDat(a); }
    assert Stoi(a[1..3]) == Some(-5) by {
      StoiAccepts([], Minus, "5", []);
      assert [] + SignText(Minus) + "5" + [] == a[1..3];
      assert DecimalValue("5") == 5;
    }
    assert Stoi(a[4..7]) == Some(86) by {
      StoiOfDigits(a[4..7]);
      DecimalThreeDigits(a[4..7]);
    }
    ParseFromFields(a, -5, 86);
  }

  /** Likewise a `+` sign: `S+5W086.dat` names the tile at (-5, -86). */
  lemma ParseAcceptsPlusGroup()
    ensures ParseTileName("S+5W086.dat") == Some(Coord(-5, -86))
  {
    var b := "S+5W086.dat";
    assert HasDatExtension(b) by { ExtensionIsDat(b); }
    assert Stoi(b[1..3]) == Some(5) by {
      StoiAccepts([], Plus, "5", []);
      assert [] + SignText(Plus) + "5" + [] == b[1..3];
      assert DecimalValue("5") == 5;
    }
    assert Stoi(b[4..7]) == Some(86) by {
      StoiOfDigits(b[4..7]);
      DecimalThreeDigits(b[4..7]);
    }
    ParseFromFields(b, 5, 86);
  }

  // ---------------------------------------------------------------------------------------
  // Loading
  // ---------------------------------------------------------------------------------------

  /** `load` succeeds exactly when the name parses, the file opens, its size is non-zero and
      even and the read is complete; the samples are the bytes taken two at a time, least
      significant first, in file order. */
  lemma LoadTileSucceeds(name: string, file: FileImage)
    ensures LoadTile(name, file).Some? <==> ReachesRead(name, file) && file.readComplete
    ensures LoadTile(name, file).Some? ==>
              var t := LoadTile(name, file).value;
              |t.data| == |file.content| / 2 &&
              forall k :: 0 <= k < |t.data| ==> t.data[k] == SampleOf(file.content[2 * k], file.content[2 * k + 1])
  {
  }

  /** A name that does not parse fails the load whatever the file holds: it is never read. */
  lemma LoadNeedsName(name: string, file: FileImage, other: FileImage)
    requires ParseTileName(name).None?
    ensures LoadTile(name, file).None? && LoadTile(name, file) == LoadTile(name, other)
  {
  }

  // ---------------------------------------------------------------------------------------
  // Lookup
  // ---------------------------------------------------------------------------------------

  lemma CellRoundTrip(c: Cell)
    requires c.Direct? ==> c.elevation < TERRAIN_SUBGRID_MSG
    requires c.Subgrid? ==> c.base <= 767
    ensures DecodeCell(EncodeCell(c)) == c
  {
  }

  lemma SampleCellRoundTrip(v: Int16)
    ensures EncodeCell(DecodeCell(v)) == v
  {
  }

  /** Inside the tile the coarse index is the plain floor of `frac * 36`, in 0..35, and the
      edge clamp does not change it. */
  lemma GridIndexInTile(frac: real)
    requires 0.0 <= frac < 1.0
    ensures GridIndex(frac) == (frac * GRID_DIM as real).Floor
    ensures 0 <= GridIndex(frac) <= GRID_DIM - 1
  {
  }

  /** A fraction that reaches the far edge (36 cells or more) resolves to the last row. */
  lemma GridIndexAtEdge(frac: real)
    requires frac * GRID_DIM as real >= GRID_DIM as real
    ensures GridIndex(frac) == GRID_DIM - 1
  {
  }

  /** For any non-negative fraction the subgrid index is in 0..9, the far edge included. */
  lemma SubgridIndexBounds(frac: real)
    requires 0.0 <= frac
    ensures 0 <= SubgridIndex(frac, GridIndex(frac)) <= SUBGRID_DIM - 1
  {
    var y := frac * GRID_DIM as real;
    var g := GridIndex(frac);
    assert g as real <= y;
  }

  /** For fractions in [0,1) the coarse offset lies in 0..1295. */
  lemma CoarseOffsetBounds(latFrac: real, lonFrac: real)
    requires 0.0 <= latFrac < 1.0 && 0.0 <= lonFrac < 1.0
    ensures 0 <= CoarseOffset(GridIndex(latFrac), GridIndex(lonFrac)) <= GRID_DIM * GRID_DIM - 1
  {
    GridIndexInTile(latFrac);
    GridIndexInTile(lonFrac);
  }

  /** The lookup fails exactly when the coarse offset is out of bounds, or the cell is escape
      coded and the subgrid offset is out of bounds. */
  lemma ResolveFails(data: seq<Int16>, gy: int, gx: int, sy: int, sx: int)
    ensures var top := CoarseOffset(gy, gx);
      ResolveSample(data, gy, gx, sy, sx).None? <==>
        top < 0 || top >= |data| ||
        (data[top] >= TERRAIN_SUBGRID_MSG &&
         SubgridOffset(data[top] - TERRAIN_SUBGRID_MSG, sy, sx) >= |data|)
  {
  }

  /** A coarse value below the escape threshold is the elevation itself; the subgrid indices
      play no part. */
  lemma ResolveDirect(data: seq<Int16>, gy: int, gx: int, sy: int, sx: int, sy': int, sx': int)
    requires 0 <= CoarseOffset(gy, gx) < |data|
    requires data[CoarseOffset(gy, gx)] < TERRAIN_SUBGRID_MSG
    ensures ResolveSample(data, gy, gx, sy, sx) == Some(data[CoarseOffset(gy, gx)])
    ensures ResolveSample(data, gy, gx, sy, sx) == ResolveSample(data, gy, gx, sy', sx')
  {
  }

  /** An escape-coded coarse value `32000 + base` has `base` in 0..767; with subgrid indices
      in 0..9 the final offset is `base + 10 sy + sx`, at most 866, and the answer is the
      sample stored there, as it is, without a second dereference. */
  lemma ResolveEscape(data: seq<Int16>, gy: int, gx: int, sy: int, sx: int)
    requires 0 <= CoarseOffset(gy, gx) < |data|
    requires data[CoarseOffset(gy, gx)] >= TERRAIN_SUBGRID_MSG
    requires 0 <= sy < SUBGRID_DIM && 0 <= sx < SUBGRID_DIM
    ensures var base := data[CoarseOffset(gy, gx)] - TERRAIN_SUBGRID_MSG;
      var fin := base + sy * SUBGRID_DIM + sx;
      0 <= base <= 767 && fin <= 866 &&
      ResolveSample(data, gy, gx, sy, sx) == if fin < |data| then Some(data[fin]) else None
  {
  }

  /** A query inside the tile's square needs no clamping: the four indices are the floors of
      the scaled fractions, the coarse offset is in 0..1295 and the subgrid indices in 0..9. */
  lemma QueryInsideTile(t: Tile, lat: real, lon: real)
    requires t.lat as real <= lat < t.lat as real + 1.0
    requires t.lon as real <= lon < t.lon as real + 1.0
    ensures var y := (lat - t.lat as real) * GRID_DIM as real;
      var x := (lon - t.lon as real) * GRID_DIM as real;
      var gy := y.Floor;
      var gx := x.Floor;
      0 <= gy < GRID_DIM && 0 <= gx < GRID_DIM && 0 <= CoarseOffset(gy, gx) < GRID_DIM * GRID_DIM &&
      0 <= ((y - gy as real) * SUBGRID_DIM as real).Floor < SUBGRID_DIM &&
      0 <= ((x - gx as real) * SUBGRID_DIM as real).Floor < SUBGRID_DIM &&
      ElevationFromData(t, lat, lon)
        == ResolveSample(t.data, gy, gx, ((y - gy as real) * SUBGRID_DIM as real).Floor,
                         ((x - gx as real) * SUBGRID_DIM as real).Floor)
  {
    GridIndexInTile(lat - t.lat as real);
    GridIndexInTile(lon - t.lon as real);
  }

  /** The centre of coarse cell (gy, gx) reads back the value stored there when it is an
      elevation. */
  lemma CellCentreReadsBack(t: Tile, gy: int, gx: int)
    requires 0 <= gy < GRID_DIM && 0 <= gx < GRID_DIM
    requires CoarseOffset(gy, gx) < |t.data|
    requires t.data[CoarseOffset(gy, gx)] < TERRAIN_SUBGRID_MSG
    ensures ElevationFromData(t, t.lat as real + (gy as real + 0.5) / GRID_DIM as real,
                                 t.lon as real + (gx as real + 0.5) / GRID_DIM as real)
         == Some(t.data[CoarseOffset(gy, gx)])
  {
    var latFrac := (t.lat as real + (gy as real + 0.5) / GRID_DIM as real) - t.lat as real;
    var lonFrac := (t.lon as real + (gx as real + 0.5) / GRID_DIM as real) - t.lon as real;
    assert latFrac * GRID_DIM as real == gy as real + 0.5;
    assert lonFrac * GRID_DIM as real == gx as real + 0.5;
    assert GridIndex(latFrac) == gy;
    assert GridIndex(lonFrac) == gx;
  }

  /** The centre of subgrid cell (sy, sx) inside an escape-coded coarse cell (gy, gx) reads
      back the subgrid sample, not the escape code. */
  lemma SubgridCentreReadsBack(t: Tile, gy: int, gx: int, sy: int, sx: int)
    requires 0 <= gy < GRID_DIM && 0 <= gx < GRID_DIM
    requires 0 <= sy < SUBGRID_DIM && 0 <= sx < SUBGRID_DIM
    requires CoarseOffset(gy, gx) < |t.data|
    requires t.data[CoarseOffset(gy, gx)] >= TERRAIN_SUBGRID_MSG
    requires t.data[CoarseOffset(gy, gx)] - TERRAIN_SUBGRID_MSG + sy * SUBGRID_DIM + sx < |t.data|
    ensures ElevationFromData(t,
              t.lat as real + (gy as real + (sy as real + 0.5) / SUBGRID_DIM as real) / GRID_DIM as real,
              t.lon as real + (gx as real + (sx as real + 0.5) / SUBGRID_DIM as real) / GRID_DIM as real)
         == Some(t.data[t.data[CoarseOffset(gy, gx)] - TERRAIN_SUBGRID_MSG + sy * SUBGRID_DIM + sx])
  {
    var latFrac := (t.lat as real + (gy as real + (sy as real + 0.5) / SUBGRID_DIM as real) / GRID_DIM as real) - t.lat as real;
    var lonFrac := (t.lon as real + (gx as real + (sx as real + 0.5) / SUBGRID_DIM as real) / GRID_DIM as real) - t.lon as real;
    assert latFrac * GRID_DIM as real == gy as real + (sy as real + 0.5) / SUBGRID_DIM as real;
    assert lonFrac * GRID_DIM as real == gx as real + (sx as real + 0.5) / SUBGRID_DIM as real;
    assert GridIndex(latFrac) == gy;
    assert GridIndex(lonFrac) == gx;
    assert (latFrac * GRID_DIM as real - gy as real) * SUBGRID_DIM as real == sy as real + 0.5;
    assert (lonFrac * GRID_DIM as real - gx as real) * SUBGRID_DIM as real == sx as real + 0.5;
    assert SubgridIndex(latFrac, gy) == sy;
    assert SubgridIndex(lonFrac, gx) == sx;
    ResolveEscape(t.data, gy, gx, sy, sx);
  }
}
