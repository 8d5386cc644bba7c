/** The uniform square tiling of a bounding box: its configuration and the
    conversions between coordinates, rows and columns, tile IDs and tile
    geometry.  Tile 0 is the lower-left tile; IDs increase with x along a
    row, then row by row with y, so a tile's ID is row * ncolumns + col. */
module TileGrid {
  import opened Aabb

  datatype Error = InvalidConfiguration

  datatype Result<T> = Ok(value: T) | Err(error: Error)

  /** The immutable part of a tiling system: its extent, the tile edge
      length and the row and column counts derived from them. */
  datatype Grid = Grid(bounds: Box, tilesize: int, nrows: int, ncolumns: int)

  // ---------------------------------------------------------------------
  // Arithmetic helpers

  lemma MulLe(a: int, b: int, n: int)
    requires a <= b && 0 <= n
    ensures a * n <= b * n
  {
    assert b * n - a * n == (b - a) * n;
  }

  lemma MulAdd(a: int, b: int, n: int)
    ensures (a + b) * n == a * n + b * n
  {
  }

  /** Euclidean division of row * n + col by n gives back row and col. */
  lemma Unpack(n: int, row: int, col: int)
    requires 0 < n && 0 <= col < n
    ensures (row * n + col) / n == row && (row * n + col) % n == col
  {
    var x := row * n + col;
    var q, r := x / n, x % n;
    assert x == q * n + r;
    if q > row {
      MulLe(row + 1, q, n);
      assert false;
    } else if q < row {
      MulLe(q + 1, row, n);
      assert false;
    }
  }

  // ---------------------------------------------------------------------
  // Configuration

  /** n bands of width size, starting at lo, are the fewest that reach hi. */
  predicate Covers(lo: int, hi: int, n: int, size: int)
  {
    0 < size && lo < hi && 1 <= n &&
    (n - 1) * size < hi - lo <= n * size
  }

  /** The count of covering bands is unique: Covers pins n to the ceiling
      of (hi - lo) / size. */
  lemma {:induction false} CoversUnique(lo: int, hi: int, n: int, m: int, size: int)
    requires Covers(lo, hi, n, size) && Covers(lo, hi, m, size)
    ensures n == m
  {
    if n < m {
      MulLe(n, m - 1, size);
    } else if m < n {
      MulLe(m, n - 1, size);
    }
  }

  /** The number of tiles of edge size needed to cover extent: the
      ceiling of extent / size. */
  function Count(extent: int, size: int): (n: int)
    requires 0 < extent && 0 < size
    ensures Covers(0, extent, n, size)
  {
    (extent + size - 1) / size
  }

  /** A grid with a positive tile size and a non-degenerate extent whose
      row and column counts are the ceilings of height and width over the
      tile size. */
  predicate Valid(g: Grid)
  {
    Covers(g.bounds.miny, g.bounds.maxy, g.nrows, g.tilesize) &&
    Covers(g.bounds.minx, g.bounds.maxx, g.ncolumns, g.tilesize)
  }

  /** Builds the tiling of bounds with square tiles of edge tilesize,
      rejecting a non-positive tile size or a degenerate extent. */
  function NewGrid(bounds: Box, tilesize: int): (r: Result<Grid>)
    ensures r.Ok? <==> 0 < tilesize && bounds.minx < bounds.maxx && bounds.miny < bounds.maxy
    ensures r.Ok? ==> Valid(r.value) && r.value.bounds == bounds && r.value.tilesize == tilesize
  {
    if tilesize <= 0 || bounds.maxx <= bounds.minx || bounds.maxy <= bounds.miny then
      Err(InvalidConfiguration)
    else
      Ok(Grid(bounds, tilesize,
              Count(bounds.maxy - bounds.miny, tilesize),
              Count(bounds.maxx - bounds.minx, tilesize)))
  }

  /** The number of tiles in the extent. */
  function TileCount(g: Grid): (n: int)
    requires Valid(g)
    ensures n >= g.ncolumns >= 1 && n >= g.nrows >= 1
  {
    MulLe(1, g.nrows, g.ncolumns);
    MulLe(1, g.ncolumns, g.nrows);
    g.nrows * g.ncolumns
  }

  /** An ID of one of the grid's tiles. */
  predicate ValidId(g: Grid, id: int)
    requires Valid(g)
  {
    0 <= id < TileCount(g)
  }

  // ---------------------------------------------------------------------
  // Coordinate to row / column

  /** The index of the band of width size, counted from lo, that holds v;
      -1 when v lies outside [lo, hi].  The last band keeps the edge hi. */
  function Band(lo: int, hi: int, n: int, size: int, v: int): (k: int)
    requires Covers(lo, hi, n, size)
    ensures k == -1 <==> v < lo || hi < v
    ensures k != -1 ==> 0 <= k < n
  {
    if v < lo || hi < v then -1
    else if v == hi then n - 1
    else
      var q := (v - lo) / size;
      assert q < n by {
        if q >= n {
          MulLe(n, q, size);
        }
      }
      q
  }

  /** A lower band ends where or before a higher band starts. */
  lemma BandsOrdered(size: int, j: int, k: int)
    requires 0 < size && j < k
    ensures j * size + size <= k * size
  {
    MulLe(j + 1, k, size);
  }

  /** At most one band index k has k * size <= a < k * size + size. */
  lemma BandIndexUnique(a: int, size: int, j: int, k: int)
    requires 0 < size
    requires j * size <= a < j * size + size
    requires k * size <= a < k * size + size
    ensures j == k
  {
    if j < k {
      BandsOrdered(size, j, k);
    } else if k < j {
      BandsOrdered(size, k, j);
    }
  }

  /** The band Band returns holds v: it starts at or below v and ends at
      or above v, and strictly above v except on the outer edge hi. */
  lemma BandContains(lo: int, hi: int, n: int, size: int, v: int)
    requires Covers(lo, hi, n, size) && lo <= v <= hi
    ensures var k := Band(lo, hi, n, size, v);
      lo + k * size <= v <= lo + k * size + size &&
      (v < lo + k * size + size || v == hi)
  {
  }

  /** Band is the only band that holds v: any band k with
      lo + k * size <= v < lo + k * size + size is the one Band returns. */
  lemma BandUnique(lo: int, hi: int, n: int, size: int, v: int, k: int)
    requires Covers(lo, hi, n, size)
    requires 0 <= k < n && v <= hi
    requires lo + k * size <= v < lo + k * size + size
    ensures Band(lo, hi, n, size, v) == k
  {
    MulLe(0, k, size);
    if v == hi {
      if k < n - 1 {
        BandsOrdered(size, k, n - 1);
        assert false;
      }
    } else {
      BandIndexUnique(v - lo, size, Band(lo, hi, n, size, v), k);
    }
  }

  /** Every band starts inside [lo, hi). */
  lemma BandStart(lo: int, hi: int, n: int, size: int, k: int)
    requires Covers(lo, hi, n, size) && 0 <= k < n
    ensures lo <= lo + k * size < hi
  {
    MulLe(0, k, size);
    MulLe(k, n - 1, size);
  }

  /** The row that holds y; -1 outside the extent. */
  function Row(g: Grid, y: int): (r: int)
    requires Valid(g)
    ensures r == -1 <==> y < g.bounds.miny || g.bounds.maxy < y
    ensures r != -1 ==> 0 <= r < g.nrows
  {
    Band(g.bounds.miny, g.bounds.maxy, g.nrows, g.tilesize, y)
  }

  /** The column that holds x; -1 outside the extent. */
  function Col(g: Grid, x: int): (c: int)
    requires Valid(g)
    ensures c == -1 <==> x < g.bounds.minx || g.bounds.maxx < x
    ensures c != -1 ==> 0 <= c < g.ncolumns
  {
    Band(g.bounds.minx, g.bounds.maxx, g.ncolumns, g.tilesize, x)
  }

  // ---------------------------------------------------------------------
  // Row / column and tile ID

  /** The row of tile id. */
  function RowOf(g: Grid, id: int): (r: int)
    requires Valid(g) && ValidId(g, id)
    ensures 0 <= r < g.nrows
  {
    var r := id / g.ncolumns;
    assert r < g.nrows by {
      if r >= g.nrows {
        MulLe(g.nrows, r, g.ncolumns);
      }
    }
    r
  }

  /** The column of tile id. */
  function ColOf(g: Grid, id: int): (c: int)
    requires Valid(g) && ValidId(g, id)
    ensures 0 <= c < g.ncolumns
  {
    id % g.ncolumns
  }

  /** A tile ID is its row times the column count plus its column. */
  lemma Pack(g: Grid, id: int)
    requires Valid(g) && ValidId(g, id)
    ensures id == RowOf(g, id) * g.ncolumns + ColOf(g, id)
  {
  }

  /** Two tiles in the same row and column are the same tile. */
  lemma SameCell(g: Grid, a: int, b: int)
    requires Valid(g) && ValidId(g, a) && ValidId(g, b)
    requires RowOf(g, a) == RowOf(g, b) && ColOf(g, a) == ColOf(g, b)
    ensures a == b
  {
    Pack(g, a);
    Pack(g, b);
  }

  /** row * ncolumns + col is the tile at row and col when both are on
      the grid. */
  lemma Locate(g: Grid, id: int, col: int, row: int)
    requires Valid(g) && 0 <= col < g.ncolumns && 0 <= row < g.nrows
    requires id == row * g.ncolumns + col
    ensures ValidId(g, id) && ColOf(g, id) == col && RowOf(g, id) == row
  {
    MulLe(row, g.nrows - 1, g.ncolumns);
    MulAdd(g.nrows - 1, 1, g.ncolumns);
    Unpack(g.ncolumns, row, col);
  }

  /** The ID of the tile at col, row; -1 when either is off the grid. */
  function TileId(g: Grid, col: int, row: int): (id: int)
    requires Valid(g)
    ensures id == -1 <==> !(0 <= col < g.ncolumns && 0 <= row < g.nrows)
    ensures id != -1 ==> ValidId(g, id) && ColOf(g, id) == col && RowOf(g, id) == row
  {
    if 0 <= col < g.ncolumns && 0 <= row < g.nrows then
      Locate(g, row * g.ncolumns + col, col, row);
      row * g.ncolumns + col
    else
      -1
  }

  /** Unpacking a valid ID and packing it again gives the same ID, so the
      IDs 0 .. TileCount() - 1 and the grid cells correspond one to one. */
  lemma {:induction false} IdRoundTrip(g: Grid, id: int)
    requires Valid(g) && ValidId(g, id)
    ensures TileId(g, ColOf(g, id), RowOf(g, id)) == id
  {
    var t := TileId(g, ColOf(g, id), RowOf(g, id));
    SameCell(g, t, id);
  }

  /** The ID of the tile holding the point (x, y); -1 outside the extent. */
  function TileIdOfCoords(g: Grid, y: int, x: int): (id: int)
    requires Valid(g)
    ensures id == -1 <==> !Contains(g.bounds, Point(x, y))
    ensures id != -1 ==> ValidId(g, id) && RowOf(g, id) == Row(g, y) && ColOf(g, id) == Col(g, x)
  {
    var row := Row(g, y);
    var col := Col(g, x);
    if row == -1 || col == -1 then -1 else TileId(g, col, row)
  }

  /** The ID of the tile holding p; -1 outside the extent. */
  function TileIdOfPoint(g: Grid, p: Point): (id: int)
    requires Valid(g)
    ensures id == -1 <==> !Contains(g.bounds, p)
    ensures id != -1 ==> ValidId(g, id)
  {
    TileIdOfCoords(g, p.y, p.x)
  }

  // ---------------------------------------------------------------------
  // Tile ID to geometry

  /** The lower-left corner of tile id. */
  function Base(g: Grid, id: int): (p: Point)
    requires Valid(g) && ValidId(g, id)
    ensures p.x == g.bounds.minx + ColOf(g, id) * g.tilesize
    ensures p.y == g.bounds.miny + RowOf(g, id) * g.tilesize
    ensures Contains(g.bounds, p) && p.x < g.bounds.maxx && p.y < g.bounds.maxy
  {
    var row := id / g.ncolumns;
    var col := id - row * g.ncolumns;
    Pack(g, id);
    BandStart(g.bounds.minx, g.bounds.maxx, g.ncolumns, g.tilesize, col);
    BandStart(g.bounds.miny, g.bounds.maxy, g.nrows, g.tilesize, row);
    Point(g.bounds.minx + col * g.tilesize, g.bounds.miny + row * g.tilesize)
  }

  /** The bounds of the tile at col, row (which need not be on the grid):
      a square of one tile size per side, col and row tile sizes from the
      extent's min corner. */
  function TileBoundsAt(g: Grid, col: int, row: int): (b: Box)
    ensures b.maxx - b.minx == g.tilesize && b.maxy - b.miny == g.tilesize
    ensures b.minx - g.bounds.minx == col * g.tilesize && b.miny - g.bounds.miny == row * g.tilesize
  {
    var x := g.bounds.minx + col * g.tilesize;
    var y := g.bounds.miny + row * g.tilesize;
    Box(x, y, x + g.tilesize, y + g.tilesize)
  }

  /** The bounds of tile id: its base is the min corner and each side is
      one tile size long. */
  function TileBounds(g: Grid, id: int): (b: Box)
    requires Valid(g) && ValidId(g, id)
    ensures b.minx == Base(g, id).x && b.miny == Base(g, id).y
    ensures b.maxx - b.minx == g.tilesize && b.maxy - b.miny == g.tilesize
  {
    TileBoundsAt(g, ColOf(g, id), RowOf(g, id))
  }

  /** For an on-grid col, row the min corner of TileBoundsAt lies in the
      extent and maps back to col and row. */
  lemma CellBoundsBack(g: Grid, col: int, row: int)
    requires Valid(g) && 0 <= col < g.ncolumns && 0 <= row < g.nrows
    ensures var b := TileBoundsAt(g, col, row);
      Contains(g.bounds, Point(b.minx, b.miny)) && Col(g, b.minx) == col && Row(g, b.miny) == row
  {
    BandStart(g.bounds.minx, g.bounds.maxx, g.ncolumns, g.tilesize, col);
    BandStart(g.bounds.miny, g.bounds.maxy, g.nrows, g.tilesize, row);
    BandUnique(g.bounds.minx, g.bounds.maxx, g.ncolumns, g.tilesize, g.bounds.minx + col * g.tilesize, col);
    BandUnique(g.bounds.miny, g.bounds.maxy, g.nrows, g.tilesize, g.bounds.miny + row * g.tilesize, row);
  }

  /** The bounds of the tile at an on-grid col, row are those of its ID. */
  lemma TileBoundsAgree(g: Grid, col: int, row: int)
    requires Valid(g) && 0 <= col < g.ncolumns && 0 <= row < g.nrows
    ensures TileBounds(g, TileId(g, col, row)) == TileBoundsAt(g, col, row)
  {
  }

  /** The centre of tile id: half a tile size (rounded down) right of and
      above its base, which is the centre of its bounds. */
  function Center(g: Grid, id: int): (c: Point)
    requires Valid(g) && ValidId(g, id)
    ensures c == Aabb.Center(TileBounds(g, id))
  {
    var base := Base(g, id);
    Point(base.x + g.tilesize / 2, base.y + g.tilesize / 2)
  }

  /** A point of the extent lies in the bounds of the tile TileIdOfPoint
      returns, at or right of / above its base and strictly left of / below
      its far edges except on the extent's own max edges. */
  lemma {:induction false} PointInItsTile(g: Grid, p: Point)
    requires Valid(g) && Contains(g.bounds, p)
    ensures var id := TileIdOfPoint(g, p);
      ValidId(g, id) && Contains(TileBounds(g, id), p) &&
      Base(g, id).x <= p.x && Base(g, id).y <= p.y &&
      (p.x < TileBounds(g, id).maxx || p.x == g.bounds.maxx) &&
      (p.y < TileBounds(g, id).maxy || p.y == g.bounds.maxy)
  {
    var row, col := Row(g, p.y), Col(g, p.x);
    BandContains(g.bounds.miny, g.bounds.maxy, g.nrows, g.tilesize, p.y);
    BandContains(g.bounds.minx, g.bounds.maxx, g.ncolumns, g.tilesize, p.x);
    var id := TileIdOfPoint(g, p);
    assert RowOf(g, id) == row && ColOf(g, id) == col;
    var base := Base(g, id);
    assert base.x == g.bounds.minx + col * g.tilesize;
    assert base.y == g.bounds.miny + row * g.tilesize;
  }

  /** The centre of a tile, when it lies in the extent, maps back to that tile. */
  lemma {:induction false} CenterRoundTrip(g: Grid, id: int)
    requires Valid(g) && ValidId(g, id) && Contains(g.bounds, Center(g, id))
    ensures TileIdOfPoint(g, Center(g, id)) == id
  {
    var c := Center(g, id);
    var row, col := RowOf(g, id), ColOf(g, id);
    BandUnique(g.bounds.miny, g.bounds.maxy, g.nrows, g.tilesize, c.y, row);
    BandUnique(g.bounds.minx, g.bounds.maxx, g.ncolumns, g.tilesize, c.x, col);
    SameCell(g, TileIdOfPoint(g, c), id);
  }

  // ---------------------------------------------------------------------
  // Relative addressing

  /** The tile delta_rows rows and delta_cols columns away from start; -1
      when that lies off the grid. */
  function GetRelativeTileId(g: Grid, start: int, deltaRows: int, deltaCols: int): (id: int)
    requires Valid(g) && ValidId(g, start)
    ensures id == -1 <==>
      !(0 <= RowOf(g, start) + deltaRows < g.nrows && 0 <= ColOf(g, start) + deltaCols < g.ncolumns)
    ensures id != -1 ==>
      ValidId(g, id) &&
      RowOf(g, id) == RowOf(g, start) + deltaRows && ColOf(g, id) == ColOf(g, start) + deltaCols
  {
    var row := RowOf(g, start) + deltaRows;
    var col := ColOf(g, start) + deltaCols;
    if 0 <= row < g.nrows && 0 <= col < g.ncolumns then
      Pack(g, start);
      MulAdd(RowOf(g, start), deltaRows, g.ncolumns);
      Locate(g, start + deltaRows * g.ncolumns + deltaCols, col, row);
      start + deltaRows * g.ncolumns + deltaCols
    else
      -1
  }

  /** The (rows, columns) offset from tile initial to tile target; either
      part may be negative, zero or positive. */
  function TileOffsets(g: Grid, initial: int, target: int): (d: (int, int))
    requires Valid(g) && ValidId(g, initial) && ValidId(g, target)
    ensures d.0 == RowOf(g, target) - RowOf(g, initial)
    ensures d.1 == ColOf(g, target) - ColOf(g, initial)
  {
    Pack(g, initial);
    Pack(g, target);
    MulAdd(RowOf(g, target) - RowOf(g, initial), RowOf(g, initial), g.ncolumns);
    var deltaRows := target / g.ncolumns - initial / g.ncolumns;
    var deltaCols := (target - initial) - deltaRows * g.ncolumns;
    (deltaRows, deltaCols)
  }

  /** Applying the offsets between two tiles to the first gives the second. */
  lemma {:induction false} OffsetRoundTrip(g: Grid, initial: int, target: int)
    requires Valid(g) && ValidId(g, initial) && ValidId(g, target)
    ensures var d := TileOffsets(g, initial, target);
      GetRelativeTileId(g, initial, d.0, d.1) == target
  {
    var d := TileOffsets(g, initial, target);
    SameCell(g, GetRelativeTileId(g, initial, d.0, d.1), target);
  }

  /** The offsets are the only ones that lead from initial to target. */
  lemma {:induction false} OffsetUnique(g: Grid, initial: int, deltaRows: int, deltaCols: int)
    requires Valid(g) && ValidId(g, initial)
    requires GetRelativeTileId(g, initial, deltaRows, deltaCols) != -1
    ensures TileOffsets(g, initial, GetRelativeTileId(g, initial, deltaRows, deltaCols)) == (deltaRows, deltaCols)
  {
  }

  // ---------------------------------------------------------------------
  // Neighbours.  East and west wrap around within the row; north and south
  // stop at the top and bottom edge with -1.

  /** The tile east of id, wrapping from the last column to column 0. */
  function RightNeighbor(g: Grid, id: int): (r: int)
    requires Valid(g) && ValidId(g, id)
    ensures ValidId(g, r) && RowOf(g, r) == RowOf(g, id)
    ensures ColOf(g, r) == if ColOf(g, id) < g.ncolumns - 1 then ColOf(g, id) + 1 else 0
  {
    var row := id / g.ncolumns;
    var col := id - row * g.ncolumns;
    Pack(g, id);
    var r := if col < g.ncolumns - 1 then id + 1 else id - g.ncolumns + 1;
    Locate(g, r, if col < g.ncolumns - 1 then col + 1 else 0, row);
    r
  }

  /** The tile west of id, wrapping from column 0 to the last column. */
  function LeftNeighbor(g: Grid, id: int): (r: int)
    requires Valid(g) && ValidId(g, id)
    ensures ValidId(g, r) && RowOf(g, r) == RowOf(g, id)
    ensures ColOf(g, r) == if 0 < ColOf(g, id) then ColOf(g, id) - 1 else g.ncolumns - 1
  {
    var row := id / g.ncolumns;
    var col := id - row * g.ncolumns;
    Pack(g, id);
    var r := if 0 < col then id - 1 else id + g.ncolumns - 1;
    Locate(g, r, if 0 < col then col - 1 else g.ncolumns - 1, row);
    r
  }

  /** The tile north of id; -1 in the top row. */
  function TopNeighbor(g: Grid, id: int): (r: int)
    requires Valid(g) && ValidId(g, id)
    ensures r == -1 <==> RowOf(g, id) == g.nrows - 1
    ensures r != -1 ==> ValidId(g, r) && RowOf(g, r) == RowOf(g, id) + 1 && ColOf(g, r) == ColOf(g, id)
  {
    Pack(g, id);
    var row, col := RowOf(g, id), ColOf(g, id);
    MulAdd(g.nrows - 1, 1, g.ncolumns);
    MulAdd(row, 1, g.ncolumns);
    assert (id < TileCount(g) - g.ncolumns) == (row < g.nrows - 1) by {
      if row < g.nrows - 1 {
        MulLe(row + 1, g.nrows - 1, g.ncolumns);
      } else {
        assert row * g.ncolumns == (g.nrows - 1) * g.ncolumns;
      }
    }
    if id < TileCount(g) - g.ncolumns then
      Locate(g, id + g.ncolumns, col, row + 1);
      id + g.ncolumns
    else
      -1
  }

  /** The tile south of id; -1 in the bottom row. */
  function BottomNeighbor(g: Grid, id: int): (r: int)
    requires Valid(g) && ValidId(g, id)
    ensures r == -1 <==> RowOf(g, id) == 0
    ensures r != -1 ==> ValidId(g, r) && RowOf(g, r) == RowOf(g, id) - 1 && ColOf(g, r) == ColOf(g, id)
  {
    Pack(g, id);
    var row, col := RowOf(g, id), ColOf(g, id);
    assert (g.ncolumns <= id) == (0 < row) by {
      if 0 < row {
        MulLe(1, row, g.ncolumns);
      } else {
        assert row * g.ncolumns == 0;
      }
    }
    if g.ncolumns <= id then
      MulAdd(row - 1, 1, g.ncolumns);
      Locate(g, id - g.ncolumns, col, row - 1);
      id - g.ncolumns
    else
      -1
  }

  /** East and west wrap-around steps undo each other. */
  lemma {:induction false} RightLeftInverse(g: Grid, id: int)
    requires Valid(g) && ValidId(g, id)
    ensures RightNeighbor(g, LeftNeighbor(g, id)) == id
    ensures LeftNeighbor(g, RightNeighbor(g, id)) == id
  {
    SameCell(g, RightNeighbor(g, LeftNeighbor(g, id)), id);
    SameCell(g, LeftNeighbor(g, RightNeighbor(g, id)), id);
  }

  /** North and south steps undo each other wherever they exist. */
  lemma {:induction false} TopBottomInverse(g: Grid, id: int)
    requires Valid(g) && ValidId(g, id)
    ensures TopNeighbor(g, id) != -1 ==> BottomNeighbor(g, TopNeighbor(g, id)) == id
    ensures BottomNeighbor(g, id) != -1 ==> TopNeighbor(g, BottomNeighbor(g, id)) == id
  {
    if TopNeighbor(g, id) != -1 {
      SameCell(g, BottomNeighbor(g, TopNeighbor(g, id)), id);
    }
    if BottomNeighbor(g, id) != -1 {
      SameCell(g, TopNeighbor(g, BottomNeighbor(g, id)), id);
    }
  }
}

/** Which tiles of a grid meet a query box, and why a search that only
    steps between neighbours finds all of them. */
module TileCover {
  import opened Aabb
  import opened TileGrid

  /** Tile id exists and its bounds meet box (edges and corners count). */
  predicate Hit(g: Grid, box: Box, id: int)
    requires Valid(g)
  {
    ValidId(g, id) && Intersects(TileBounds(g, id), box)
  }

  /** The tiles that meet box. */
  function HitSet(g: Grid, box: Box): (h: set<int>)
    requires Valid(g)
    ensures forall t :: t in h <==> Hit(g, box, t)
  {
    set t | 0 <= t < TileCount(g) && Hit(g, box, t)
  }

  /** The four neighbours of id in the order the search checks them:
      east, west, north, south; -1 marks a missing one. */
  function Neighbours(g: Grid, id: int): (ns: seq<int>)
    requires Valid(g) && ValidId(g, id)
    ensures |ns| == 4
    ensures forall n :: n in ns ==> n == -1 || ValidId(g, n)
  {
    [RightNeighbor(g, id), LeftNeighbor(g, id), TopNeighbor(g, id), BottomNeighbor(g, id)]
  }

  /** Every tile that meets box and neighbours a member of r is in r. */
  ghost predicate Closed(g: Grid, box: Box, r: seq<int>)
    requires Valid(g)
  {
    forall t, n :: t in r && ValidId(g, t) && n in Neighbours(g, t) && Hit(g, box, n) ==> n in r
  }

  /** Band k along one grid axis (edge lo, width size) overlaps [qlo, qhi]. */
  predicate AxisHit(lo: int, size: int, k: int, qlo: int, qhi: int)
  {
    lo + k * size <= qhi && qlo <= lo + k * size + size
  }

  /** The bands along an axis that overlap an interval are consecutive. */
  lemma AxisHitBetween(lo: int, size: int, j: int, k: int, l: int, qlo: int, qhi: int)
    requires 0 < size && j <= k <= l
    requires AxisHit(lo, size, j, qlo, qhi) && AxisHit(lo, size, l, qlo, qhi)
    ensures AxisHit(lo, size, k, qlo, qhi)
  {
    MulLe(j, k, size);
    MulLe(k, l, size);
  }

  /** A tile meets box exactly when its column meets box's x-range and its
      row meets box's y-range. */
  lemma HitSplit(g: Grid, box: Box, col: int, row: int)
    requires Valid(g) && 0 <= col < g.ncolumns && 0 <= row < g.nrows
    ensures Hit(g, box, TileId(g, col, row)) <==>
      AxisHit(g.bounds.minx, g.tilesize, col, box.minx, box.maxx) &&
      AxisHit(g.bounds.miny, g.tilesize, row, box.miny, box.maxy)
  {
    TileBoundsAgree(g, col, row);
  }

  /** Walking east or west along a row from a member of r reaches every
      tile of that row that meets box beyond it. */
  lemma {:induction false} WalkRow(g: Grid, box: Box, r: seq<int>, row: int, c0: int, c1: int)
    requires Valid(g) && Closed(g, box, r)
    requires 0 <= row < g.nrows && 0 <= c0 < g.ncolumns && 0 <= c1 < g.ncolumns
    requires TileId(g, c0, row) in r
    requires Hit(g, box, TileId(g, c0, row)) && Hit(g, box, TileId(g, c1, row))
    ensures TileId(g, c1, row) in r
    decreases if c0 <= c1 then c1 - c0 else c0 - c1
  {
    if c0 != c1 {
      var a := TileId(g, c0, row);
      var c := if c0 < c1 then c0 + 1 else c0 - 1;
      var b := TileId(g, c, row);
      HitSplit(g, box, c0, row);
      HitSplit(g, box, c1, row);
      HitSplit(g, box, c, row);
      if c0 < c1 {
        AxisHitBetween(g.bounds.minx, g.tilesize, c0, c, c1, box.minx, box.maxx);
        SameCell(g, RightNeighbor(g, a), b);
        assert Neighbours(g, a)[0] == b;
      } else {
        AxisHitBetween(g.bounds.minx, g.tilesize, c1, c, c0, box.minx, box.maxx);
        SameCell(g, LeftNeighbor(g, a), b);
        assert Neighbours(g, a)[1] == b;
      }
      assert b in r;
      WalkRow(g, box, r, row, c, c1);
    }
  }

  /** Walking north or south along a column from a member of r reaches
      every tile of that column that meets box beyond it. */
  lemma {:induction false} WalkCol(g: Grid, box: Box, r: seq<int>, col: int, r0: int, r1: int)
    requires Valid(g) && Closed(g, box, r)
    requires 0 <= col < g.ncolumns && 0 <= r0 < g.nrows && 0 <= r1 < g.nrows
    requires TileId(g, col, r0) in r
    requires Hit(g, box, TileId(g, col, r0)) && Hit(g, box, TileId(g, col, r1))
    ensures TileId(g, col, r1) in r
    decreases if r0 <= r1 then r1 - r0 else r0 - r1
  {
    if r0 != r1 {
      var a := TileId(g, col, r0);
      var k := if r0 < r1 then r0 + 1 else r0 - 1;
      var b := TileId(g, col, k);
      HitSplit(g, box, col, r0);
      HitSplit(g, box, col, r1);
      HitSplit(g, box, col, k);
      if r0 < r1 {
        AxisHitBetween(g.bounds.miny, g.tilesize, r0, k, r1, box.miny, box.maxy);
        SameCell(g, TopNeighbor(g, a), b);
        assert Neighbours(g, a)[2] == b;
      } else {
        AxisHitBetween(g.bounds.miny, g.tilesize, r1, k, r0, box.miny, box.maxy);
        SameCell(g, BottomNeighbor(g, a), b);
        assert Neighbours(g, a)[3] == b;
      }
      assert b in r;
      WalkCol(g, box, r, col, k, r1);
    }
  }

  /** The tiles meeting a box are connected through neighbours: a set that
      holds one of them and is closed under stepping to neighbours that
      meet the box holds all of them. */
  lemma {:induction false} ClosedHoldsAll(g: Grid, box: Box, r: seq<int>, seed: int)
    requires Valid(g) && Closed(g, box, r)
    requires Hit(g, box, seed) && seed in r
    ensures forall t :: Hit(g, box, t) ==> t in r
  {
    forall t | Hit(g, box, t)
      ensures t in r
    {
      var rs, cs := RowOf(g, seed), ColOf(g, seed);
      var rt, ct := RowOf(g, t), ColOf(g, t);
      IdRoundTrip(g, seed);
      IdRoundTrip(g, t);
      HitSplit(g, box, cs, rs);
      HitSplit(g, box, ct, rt);
      HitSplit(g, box, ct, rs);
      WalkRow(g, box, r, rs, cs, ct);
      WalkCol(g, box, r, ct, rs, rt);
    }
  }
}
