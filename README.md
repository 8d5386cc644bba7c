# Uniform square tiling (Valhalla `midgard::Tiles`)

A Dafny model of the `Tiles` class of Valhalla's `midgard` library. A
`Tiles` object cuts a bounding box into square tiles of one edge length,
`nrows` rows by `ncolumns` columns, and numbers them. Tile 0 is the
lower-left tile. IDs grow with x along a row and then row by row with y,
so the tile at column `col` and row `row` has ID `row * ncolumns + col`.
The class converts:

- a coordinate to a row or column;
- a row and column to a tile ID and back;
- a tile ID to its base corner, its bounds and its centre.

It also gives relative offsets between tiles and the four neighbours of a
tile. East and west wrap around within a row. North and south give -1 at
the top and bottom edge.

`TileList` collects the tiles whose bounds meet a query box, at most
`maxtiles` of them. It runs a breadth-first walk from a seed tile:

- The seed is the tile under the box centre. If the centre is off the
  extent, it is the first of the four corners (lower left, lower right,
  upper left, upper right) that is on it.
- A FIFO check list holds the tiles still to examine.
- A visited set holds every tile ever put on the check list.
- A tile that meets the box is appended to the result, and its unvisited
  neighbours go to the back of the check list.

Files:

- `aabb.dfy` (module `Aabb`): the point and box values. Containment and
  intersection are inclusive, so touching edges count.
- `tiles.dfy`:
  - module `TileGrid`: the immutable configuration, as a `Grid` value, and
    every conversion, as functions with lemmas;
  - module `TileCover`: which tiles meet a box, and why stepping between
    neighbours reaches all of them.
- `tilelist.dfy` (module `TileSearch`): class `Tiles` with the mutable
  search state:
  - `tilelist`, the result buffer;
  - `checklist`, the FIFO queue;
  - `visited`, the map of considered tiles, as a set;
  - a ghost `history` of every queued tile.

  Its methods are `AddNeighbors`, `NextTile` and `TileList`, and the
  function `InList`. They are proved against a search invariant,
  `Searching`, and its lemmas. The invariant pins the breadth-first
  order: the history is `Grown` from the seed, that is the seed followed
  by each collected tile's new neighbours in collection order, and the
  result is the popped part of the history that meets the box.
- `scenarios.dfy` (module `Scenarios`): worked examples on a 100 x 100
  extent with tiles of edge 10.

Coordinates and the tile size are integers in a fixed unit, for instance
micro-degrees. `Row`/`Col` take the floor of the offset over the tile size.
The counts are the ceilings of the extent over the tile size. The last row
and column keep the extent's max edge, so `Row(maxy)` is `nrows - 1`.

`tiles.h` declares the operations without bodies. The bodies follow the
numbering and edge rules its doc comments state (lines 16-19 and the
comment above each declaration). `tiles.h` leaves these rules open; the
model fixes them as follows:

- neighbour wrap-around in x;
- -1 at the top and bottom edges;
- seeding from the tile under the box centre and, when the centre is off
  the extent, from the first corner on it (tiles.h:170 names only the
  centre tile; the corner fallback is the model's own);
- -1 from `TileId(col, row)` for a column or row off the grid (tiles.h:86-89
  only says it gets the tile ID);
- -1 from `GetRelativeTileId` when the shifted row or column is off the
  grid (tiles.h:120-128 only promises the ID of the new tile);
- the order in which the search checks neighbours: east, west, north,
  south (`TileCover.Neighbours`). It fixes the order of `TileList`'s
  result; tiles.h:206-208 gives no order;
- rejection of a non-positive tile size or a degenerate extent at
  construction.

The doc comment of `TileId(const float y, const float x)` (tiles.h:77-84)
describes `y` as "x (or lng)" and `x` as "y (or lat)", against the
parameter names. `TileIdOfCoords` follows the names: `x` is the
coordinate along a row and `y` the coordinate across rows.

## Model

| member | source | states |
|---|---|---|
| TileGrid.NewGrid | include/midgard/tiles.h:28-34 | construction succeeds exactly when the tile size is positive and the extent is non-degenerate on both axes; the grid keeps the bounds and tile size and its row and column counts are the fewest bands of that size that cover the extent |
| TileGrid.Count | include/midgard/tiles.h:28-34 | the precalculated count n covers extent with tiles of the given size and n - 1 tiles do not (the ceiling of extent over size) |
| TileGrid.CoversUnique | include/midgard/tiles.h:28-34 | the covering count is unique, so the row and column counts are determined by bounds and tile size |
| TileSearch.Tiles.constructor | include/midgard/tiles.h:28-34 | a new tiling has the valid grid NewGrid builds, with the given bounds and tile size, and empty search buffers |
| TileGrid.TileCount | include/midgard/tiles.h:142-146 | the tile count is at least the row count and at least the column count, and both are at least 1 |
| TileGrid.Row | include/midgard/tiles.h:53-59 | -1 exactly when y lies outside [miny, maxy], otherwise a row in [0, nrows) |
| TileGrid.Col | include/midgard/tiles.h:61-67 | -1 exactly when x lies outside [minx, maxx], otherwise a column in [0, ncolumns) |
| TileGrid.BandUnique | include/midgard/tiles.h:53-67 | the band Row/Col return is the only band k with lo + k*size <= v < lo + (k+1)*size |
| TileGrid.TileId | include/midgard/tiles.h:86-89 | -1 exactly when col or row is off the grid; otherwise a valid ID whose column and row are col and row |
| TileGrid.Pack | include/midgard/tiles.h:16-19 | a valid ID equals its row times ncolumns plus its column |
| TileGrid.IdRoundTrip | include/midgard/tiles.h:86-89 | unpacking a valid ID into column and row and packing it again gives the ID back |
| TileGrid.Locate | include/midgard/tiles.h:16-19 | row * ncolumns + col, for an on-grid row and column, is a valid ID with that row and column |
| TileGrid.SameCell | include/midgard/tiles.h:16-19 | two valid IDs with the same row and column are equal |
| TileGrid.TileIdOfCoords | include/midgard/tiles.h:77-84 | -1 exactly when (x, y) is outside the extent; otherwise a valid ID whose row is Row(y) and column is Col(x) |
| TileGrid.TileIdOfPoint | include/midgard/tiles.h:69-75 | -1 exactly when the point is outside the extent; otherwise a valid ID |
| TileGrid.PointInItsTile | include/midgard/tiles.h:69-84 | a point of the extent lies in the bounds of the tile its ID names: at or past the base, and short of the far edges except on the extent's own max edges |
| TileGrid.Base | include/midgard/tiles.h:91-96 | the base is minx + col * tilesize, miny + row * tilesize for the tile's row and column, and lies in the extent short of its max edges |
| TileGrid.TileBounds | include/midgard/tiles.h:98-103 | the bounds have the base as min corner and sides of one tile size |
| TileGrid.TileBoundsAt | include/midgard/tiles.h:105-111 | the bounds of the tile at col, row are a square of one tile size per side, col tile sizes right of and row tile sizes above the extent's min corner |
| TileGrid.CellBoundsBack | include/midgard/tiles.h:105-111 | for an on-grid column and row, the min corner of those bounds lies in the extent and Col and Row map it back to that column and row |
| TileGrid.TileBoundsAgree | include/midgard/tiles.h:105-111 | the bounds of an on-grid column and row equal the bounds of TileId(col, row) |
| TileGrid.Center | include/midgard/tiles.h:113-118 | the tile centre is the centre of the tile's bounds, half a tile size (rounded down) from the base on each axis |
| TileGrid.CenterRoundTrip | include/midgard/tiles.h:113-118 | the centre of a tile, when it lies in the extent, maps back to that tile |
| TileGrid.GetRelativeTileId | include/midgard/tiles.h:120-128 | -1 exactly when the shifted row or column is off the grid; otherwise the valid tile exactly delta_rows rows and delta_cols columns from start |
| TileGrid.TileOffsets | include/midgard/tiles.h:130-140 | the offsets are the row difference and the column difference of the two tiles, of any sign |
| TileGrid.OffsetRoundTrip | include/midgard/tiles.h:120-140 | applying TileOffsets(a, b) to a with GetRelativeTileId gives b |
| TileGrid.OffsetUnique | include/midgard/tiles.h:120-140 | offsets that lead from a tile to another are the ones TileOffsets gives |
| TileGrid.RightNeighbor | include/midgard/tiles.h:148-151 | a valid tile in the same row, one column east, wrapping from the last column to column 0 |
| TileGrid.LeftNeighbor | include/midgard/tiles.h:153-156 | a valid tile in the same row, one column west, wrapping from column 0 to the last column |
| TileGrid.TopNeighbor | include/midgard/tiles.h:158-161 | -1 exactly in the top row; otherwise the valid tile in the same column one row north |
| TileGrid.BottomNeighbor | include/midgard/tiles.h:163-166 | -1 exactly in the bottom row; otherwise the valid tile in the same column one row south |
| TileGrid.RightLeftInverse | include/midgard/tiles.h:148-156 | east and west steps undo each other for every valid tile |
| TileGrid.TopBottomInverse | include/midgard/tiles.h:158-166 | north and south steps undo each other wherever they exist |
| Aabb.Center | include/midgard/tiles.h:69-75 | the centre of a box lies in every well-formed box; it is as far from the max edge as from the min edge, or one unit nearer the min edge |
| TileCover.HitSet | include/midgard/tiles.h:168-169 | the set holds exactly the valid tiles whose bounds meet the box |
| TileCover.Neighbours | include/midgard/tiles.h:206-208 | the four neighbours the search checks, each -1 or a valid tile |
| TileCover.HitSplit | include/midgard/tiles.h:105-111 | a tile meets the box exactly when its column band meets the box's x-range and its row band its y-range |
| TileCover.AxisHitBetween | include/midgard/tiles.h:168-172 | the bands along an axis that meet an interval are consecutive |
| TileCover.ClosedHoldsAll | include/midgard/tiles.h:170-172 | a collection that holds one tile meeting the box and holds every box-meeting neighbour of its members holds every tile that meets the box |
| TileSearch.Probes | include/midgard/tiles.h:170 | five probe points, the box centre first, all inside a well-formed box |
| TileSearch.FirstInside | include/midgard/tiles.h:170 | -1 exactly when no probe lies in the extent; otherwise a valid tile |
| TileSearch.FirstInsideIsFirst | include/midgard/tiles.h:170 | a found seed is the tile of the first probe that lies in the extent |
| TileSearch.SeedTile | include/midgard/tiles.h:170 | the seed is the tile of the box centre when the centre is on the extent; -1 exactly when the centre and all four corners are off it; otherwise a valid tile |
| TileSearch.SeedHits | include/midgard/tiles.h:170-172 | the seed of a well-formed box meets the box |
| TileSearch.NoSeed | include/midgard/tiles.h:170 | with no seed, the centre and all four corners of the box lie outside the extent |
| TileSearch.Filter | include/midgard/tiles.h:176-177 | filtering a queue history by the box keeps at most its length |
| TileSearch.FilterMembers | include/midgard/tiles.h:176-177 | the filtered history holds exactly the history's entries that meet the box |
| TileSearch.FilterNoDup | include/midgard/tiles.h:195-201 | filtering a history without repeats gives a list without repeats |
| TileSearch.FilterAll | include/midgard/tiles.h:176-177 | filtering a history whose every entry meets the box keeps it whole |
| TileSearch.Discovered | include/midgard/tiles.h:206-208 | the neighbours to queue are exactly those that are not -1 and not yet visited, without repeats |
| TileSearch.DiscoveredNext | include/midgard/tiles.h:206-208 | a neighbour is queued next exactly when it is not -1 and not yet visited, and queuing it adds it to the visited set |
| TileSearch.DiscoveredAll | include/midgard/tiles.h:206-208 | neighbours that all exist, are distinct and were never queued are all queued, in their order |
| TileSearch.Grown | include/midgard/tiles.h:195-208 | the check-list history of a search that has collected the given tiles in order: it starts with the seed, each collected tile pushes its new neighbours at the back, and it keeps the seed first, has no repeats and holds only valid tiles |
| TileSearch.GrownOne | include/midgard/tiles.h:206-208 | collecting one tile appends exactly its new neighbours to the history |
| TileSearch.GrownFrom | include/midgard/tiles.h:170-172 | every history entry after the seed was queued as a neighbour of a collected tile |
| TileSearch.LinkedFrom | include/midgard/tiles.h:170-172 | in a search from a seed, each collected tile other than the seed is a neighbour of a tile collected before it |
| TileSearch.GrewStep | include/midgard/tiles.h:195-213 | collecting the next tile and queueing its new neighbours keeps the history the breadth-first history of the collected tiles |
| TileSearch.FirstHit | include/midgard/tiles.h:210-213 | the position of the first queued tile that meets the box: every earlier entry misses it |
| TileSearch.StartSearching | include/midgard/tiles.h:195-201 | a search with only the seed queued and visited, and nothing collected, satisfies the search invariant |
| TileSearch.SkipPreserves | include/midgard/tiles.h:210-213 | popping a whole check list of tiles that miss the box empties it and keeps the search invariant |
| TileSearch.ExpandPreserves | include/midgard/tiles.h:195-213 | popping up to the first tile that meets the box, appending it to the result and queueing its unvisited neighbours keeps the search invariant |
| TileSearch.QueuedStep | include/midgard/tiles.h:195-201 | popping from the front and pushing new tiles at the back keeps the check list the unpopped end of a history without repeats, with the visited set equal to the history's entries |
| TileSearch.CollectedStep | include/midgard/tiles.h:210-213 | the collected list stays the popped history filtered by the box |
| TileSearch.Finished | include/midgard/tiles.h:170-172 | once the check list is empty, every queued tile that meets the box, and every box-meeting neighbour of a collected tile, is collected |
| TileSearch.SearchResult | include/midgard/tiles.h:168-177 | the collected tiles are distinct, meet the box and number at most TileCount; the seed comes first; once the check list is empty every tile meeting a well-formed box with a seed is collected; the history is the breadth-first history of the collected tiles; each collected tile after the first neighbours an earlier one |
| TileSearch.Tiles.InList | include/midgard/tiles.h:214-217 | true exactly when the tile is on the check list or has been popped from it |
| TileSearch.Tiles.Consider | include/midgard/tiles.h:206-208 | a tile not -1 and not yet considered is pushed at the back of the check list and marked visited; otherwise nothing changes |
| TileSearch.Tiles.AddNeighbors | include/midgard/tiles.h:206-208 | the check list and visited set grow by exactly the not-yet-visited neighbours, east, west, north, south in that order; the result buffer is unchanged |
| TileSearch.Tiles.NextTile | include/midgard/tiles.h:210-213 | -1 exactly when no queued tile meets the box, leaving the check list empty; otherwise the first queued tile that meets the box, with the tiles before it and itself popped and its new neighbours queued |
| TileSearch.Tiles.Advance | include/midgard/tiles.h:210-213 | one round of the search keeps the search invariant; -1 exactly when no queued tile meets the box, leaving the check list empty and the rest unchanged; otherwise it appends the first queued tile that meets the box, pops the tiles up to it and queues its new neighbours |
| TileSearch.Tiles.Collect | include/midgard/tiles.h:168-177 | the search loop keeps the invariant and the cap, only appends to the tile list and the history, and stops with the check list empty unless the cap is reached |
| TileSearch.Tiles.TileList | include/midgard/tiles.h:168-177 | at most maxtiles tiles and at most TileCount tiles, without duplicates, each meeting the box; empty when no seed exists; starts with the seed; when the cap is not reached, holds every tile meeting the box; the check-list history is `Grown` from the seed over the result, and the result is the popped part of that history filtered by the box (`Collected`), so the result is the breadth-first order, capped or not; each tile after the first neighbours an earlier one |
| Scenarios.SampleGrid | include/midgard/tiles.h:28-34 | the 100 x 100 extent with tile size 10 has 10 rows, 10 columns and 100 tiles |
| Scenarios.SampleLowerLeft | include/midgard/tiles.h:69-75 | the point (5, 5) is in tile 0 |
| Scenarios.SampleFirstTile | include/midgard/tiles.h:98-103 | tile 0 spans (0, 0) to (10, 10) |
| Scenarios.SampleUpperRight | include/midgard/tiles.h:69-75 | (95, 95) and the far corner (100, 100) are in tile 99, which spans (90, 90) to (100, 100) |
| Scenarios.SampleEdges | include/midgard/tiles.h:69-84 | a point on the line between two tiles is in the upper or right one; a point beyond the extent is in none |
| Scenarios.SampleQueryHits | include/midgard/tiles.h:168-169 | the box (15,15)-(25,25) meets exactly tiles 11, 12, 21 and 22 |
| Scenarios.SampleQuery | include/midgard/tiles.h:168-177 | TileList on (15,15)-(25,25) returns those four tiles, tile 22 first |
| Scenarios.SampleCapped | include/midgard/tiles.h:174-177 | TileList with a cap of 1 over the whole extent returns just the seed, tile 55 |
| Scenarios.SampleCappedTwo | include/midgard/tiles.h:168-177 | TileList with a cap of 2 over the whole extent returns exactly [55, 56]: the seed, then its east neighbour |
| Scenarios.SampleSecond | include/midgard/tiles.h:195-208 | any state the contract of TileList allows with two tiles collected over the whole extent holds 55 and then 56 |
| Scenarios.SampleOutside | include/midgard/tiles.h:168-172 | the box (200,200)-(210,210) has no seed and meets no tile |
| Scenarios.SampleEmpty | include/midgard/tiles.h:168-177 | TileList on (200,200)-(210,210) returns nothing |
| Scenarios.SampleRoundedCentre | include/midgard/tiles.h:170 | the centre of (0,0)-(201,100) rounds down to (100, 50) on the extent's edge, so the seed is tile 59 |
| Scenarios.SampleCornerGap | include/midgard/tiles.h:170-172 | the box (-10,-10)-(110,300) meets tile 0, but its centre and four corners are all off the extent, so it has no seed |

## Left out

- `Aabb.Center`: the box centre is rounded down to an integer, where the source's `float` coordinates keep a midpoint such as 100.5. This can move the seed. For the box (0,0)-(201,100) on the 100 x 100 sample grid, the exact centre (100.5, 50) is off the extent, so the exact rule falls through to the lower-left corner and tile 0. The rounded centre (100, 50) is on the extent's edge and gives tile 59 (`Scenarios.SampleRoundedCentre`). `TileList(box, 1)` then returns [59] rather than [0].
- Floating point: coordinates and the tile size are exact integers. `Row`/`Col` floor exactly, and `Center`'s half tile size rounds down. No IEEE `float` rounding is modelled.
- `AABB2`/`Point2`: `midgard/aabb2.h` is not part of this model. `Aabb` gives the box and point operations the tiling needs, with inclusive intersection.
- The private default constructor (include/midgard/tiles.h:203-204) and the virtual destructor (include/midgard/tiles.h:39) carry no behaviour.
- The accessors `TileSize()` and `TileBounds()` (include/midgard/tiles.h:45, 51) are the fields `tilesize` and `bounds` of `Tiles.grid`, with no member of their own.
- The conversions are `const` methods of `Tiles` in the source. Here they are functions of the immutable `Grid` value, which the class holds as a constant field.
- Fixed-width integers: `int` IDs and counts, and the `unsigned` `TileCount`, are unbounded here. A grid whose tile count overflows 32 bits is not modelled.
- Concurrency: the shared per-instance search buffers are modelled for one sequential `TileList` call, which resets them first.
- `std::list`/`std::map`/`std::vector` are modelled as a `seq<int>` queue, a `set<int>` of visited tiles and a `seq<int>` result. The map's stored values are not modelled.
- Operations taking an ID (`Base`, `TileBounds`, `Center`, `GetRelativeTileId`, `TileOffsets`, the neighbours) require a valid ID, because the header promises nothing for an ID off the grid. For `GetRelativeTileId` this rejects `initial_tile` values the header's signature (tiles.h:127) accepts.
- `TileSearch.Tiles.TileList`: the promise that every tile meeting the box is returned is conditional. It holds when the cap is not reached, the box is well formed, and a seed exists. `Scenarios.SampleCornerGap` shows that a box can meet tiles while its centre and all four corners are off the extent. Such a box gets an empty list under the seeding rule.
- `TileSearch.Tiles.Collect` and `TileSearch.Tiles.Advance`: the search loop of `TileList` is split into these two methods, the loop and one round of it. The header declares neither; they are helpers of `TileList`.
- `TileSearch.Tiles.Consider`: one neighbour's check inside `addNeighbors` is a separate method. The header declares no such member.
- `TileSearch.Filter`: its own contract states only the length bound. Membership and distinctness are the lemmas `FilterMembers` and `FilterNoDup`.
