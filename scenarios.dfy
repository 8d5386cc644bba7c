/** Worked examples on a 100 x 100 extent cut into tiles of edge 10:
    ten rows and ten columns, tile 0 at the lower left and tile 99 at the
    upper right. */
module Scenarios {
  import opened Aabb
  import opened TileGrid
  import opened TileCover
  import opened TileSearch

  const Sample := Grid(Box(0, 0, 100, 100), 10, 10, 10)

  /** Building the tiling gives ten rows and ten columns, 100 tiles. */
  lemma SampleGrid()
    ensures NewGrid(Box(0, 0, 100, 100), 10) == Ok(Sample)
    ensures Valid(Sample) && TileCount(Sample) == 100
  {
  }

  /** The lower-left tile holds (5, 5). */
  lemma SampleLowerLeft()
    ensures TileIdOfPoint(Sample, Point(5, 5)) == 0
  {
    SampleGrid();
    assert Row(Sample, 5) == 0 && Col(Sample, 5) == 0;
  }

  /** Tile 0 spans (0, 0) to (10, 10). */
  lemma SampleFirstTile()
    ensures TileBounds(Sample, 0) == Box(0, 0, 10, 10)
  {
    SampleGrid();
    Locate(Sample, 0, 0, 0);
  }

  /** The upper-right tile holds (95, 95) and the far corner (100, 100). */
  lemma SampleUpperRight()
    ensures TileIdOfPoint(Sample, Point(95, 95)) == 99
    ensures TileIdOfPoint(Sample, Point(100, 100)) == 99
    ensures TileBounds(Sample, 99) == Box(90, 90, 100, 100)
  {
    SampleGrid();
    assert Row(Sample, 95) == 9 && Col(Sample, 95) == 9;
    assert Row(Sample, 100) == 9 && Col(Sample, 100) == 9;
    Locate(Sample, 99, 9, 9);
  }

  /** A point on the line between two tiles belongs to the one above or to
      the right of it; a point beyond the extent to none. */
  lemma SampleEdges()
    ensures TileIdOfPoint(Sample, Point(10, 0)) == 1
    ensures TileIdOfPoint(Sample, Point(101, 5)) == -1
  {
    SampleGrid();
    assert Row(Sample, 0) == 0 && Col(Sample, 10) == 1;
  }

  /** Along either axis the interval 15..25 meets bands 1 and 2 and no other. */
  lemma SampleBand(k: int)
    ensures AxisHit(0, 10, k, 15, 25) <==> k == 1 || k == 2
  {
    if AxisHit(0, 10, k, 15, 25) {
      assert 10 * k <= 25 && 5 <= 10 * k;
      if k <= 0 { MulLe(k, 0, 10); }
      if k >= 3 { MulLe(3, k, 10); }
    }
  }

  /** A tile that (15,15)-(25,25) meets lies in row 1 or 2 and column 1 or 2. */
  lemma SampleHitCell(t: int)
    requires Valid(Sample) && Hit(Sample, Box(15, 15, 25, 25), t)
    ensures t in {11, 12, 21, 22}
  {
    var g, box := Sample, Box(15, 15, 25, 25);
    var row, col := RowOf(g, t), ColOf(g, t);
    Pack(g, t);
    IdRoundTrip(g, t);
    HitSplit(g, box, col, row);
    SampleBand(col);
    SampleBand(row);
    assert t == row * 10 + col;
  }

  /** The tile at column col and row row, both 1 or 2, meets (15,15)-(25,25). */
  lemma SampleCellHit(col: int, row: int)
    requires Valid(Sample) && (col == 1 || col == 2) && (row == 1 || row == 2)
    ensures Hit(Sample, Box(15, 15, 25, 25), row * 10 + col)
  {
    HitSplit(Sample, Box(15, 15, 25, 25), col, row);
    SampleBand(col);
    SampleBand(row);
  }

  /** The box (15,15)-(25,25) meets exactly the tiles of rows and columns
      1 and 2. */
  lemma SampleQueryHits()
    ensures forall t :: Hit(Sample, Box(15, 15, 25, 25), t) <==> t in {11, 12, 21, 22}
  {
    SampleGrid();
    forall t | Hit(Sample, Box(15, 15, 25, 25), t)
      ensures t in {11, 12, 21, 22}
    {
      SampleHitCell(t);
    }
    SampleCellHit(1, 1);
    SampleCellHit(2, 1);
    SampleCellHit(1, 2);
    SampleCellHit(2, 2);
  }

  /** A box far outside the extent meets no tile and has no seed. */
  lemma SampleOutside()
    ensures SeedTile(Sample, Box(200, 200, 210, 210)) == -1
    ensures forall t :: !Hit(Sample, Box(200, 200, 210, 210), t)
  {
    var g, box := Sample, Box(200, 200, 210, 210);
    SampleGrid();
    forall t | ValidId(g, t)
      ensures !Hit(g, box, t)
    {
      BandStart(g.bounds.minx, g.bounds.maxx, g.ncolumns, g.tilesize, ColOf(g, t));
    }
  }

  /** The point (20, 20) is in tile 22. */
  lemma SampleCentre20()
    ensures TileIdOfPoint(Sample, Point(20, 20)) == 22
  {
    SampleGrid();
    assert Row(Sample, 20) == 2 && Col(Sample, 20) == 2;
  }

  /** The point (50, 50) is in tile 55. */
  lemma SampleCentre50()
    ensures TileIdOfPoint(Sample, Point(50, 50)) == 55
  {
    SampleGrid();
    assert Row(Sample, 50) == 5 && Col(Sample, 50) == 5;
  }

  /** The first probe of (15,15)-(25,25) is its centre (20, 20), inside the extent. */
  lemma SampleQueryProbe()
    ensures Probes(Box(15, 15, 25, 25))[0] == Point(20, 20) && Contains(Sample.bounds, Point(20, 20))
  {
  }

  /** The first probe of the whole extent is its centre (50, 50). */
  lemma SampleWholeProbe()
    ensures Probes(Box(0, 0, 100, 100))[0] == Point(50, 50) && Contains(Sample.bounds, Point(50, 50))
  {
  }

  /** The centre and corners of (-10,-10)-(110,300) all lie outside the extent. */
  lemma SampleGapProbes()
    ensures forall p :: p in Probes(Box(-10, -10, 110, 300)) ==> !Contains(Sample.bounds, p)
  {
    var ps := Probes(Box(-10, -10, 110, 300));
    assert ps == [Point(50, 145), Point(-10, -10), Point(110, -10), Point(-10, 300), Point(110, 300)];
  }

  /** A box may overlap the extent while its centre (50, 145) and its four
      corners all lie outside it: such a box has no seed, although tile 0
      meets it. */
  lemma SampleCornerGap()
    ensures SeedTile(Sample, Box(-10, -10, 110, 300)) == -1
    ensures Hit(Sample, Box(-10, -10, 110, 300), 0)
  {
    SampleGapSeed();
    SampleGapHit();
  }

  /** The box (-10,-10)-(110,300) has no seed on the sample grid. */
  lemma SampleGapSeed()
    ensures SeedTile(Sample, Box(-10, -10, 110, 300)) == -1
  {
    SampleGrid();
    SampleGapProbes();
  }

  /** Tile 0 of the sample grid meets the box (-10,-10)-(110,300). */
  lemma SampleGapHit()
    ensures Hit(Sample, Box(-10, -10, 110, 300), 0)
  {
    SampleGrid();
    HitSplit(Sample, Box(-10, -10, 110, 300), 0, 0);
  }

  /** The centre of (0,0)-(201,100) rounds down to (100, 50), on the
      extent's right edge, so the seed is tile 59; the exact midpoint
      (100.5, 50) lies off the extent. */
  lemma SampleRoundedCentre()
    ensures Aabb.Center(Box(0, 0, 201, 100)) == Point(100, 50)
    ensures SeedTile(Sample, Box(0, 0, 201, 100)) == 59
  {
    SampleGrid();
    SampleRoundedProbe();
    SampleCentre100();
  }

  /** The first probe of (0,0)-(201,100) is (100, 50), inside the extent. */
  lemma SampleRoundedProbe()
    ensures Probes(Box(0, 0, 201, 100))[0] == Point(100, 50) && Contains(Sample.bounds, Point(100, 50))
  {
  }

  /** The point (100, 50) on the right edge is in tile 59. */
  lemma SampleCentre100()
    ensures TileIdOfPoint(Sample, Point(100, 50)) == 59
  {
    SampleGrid();
    assert Row(Sample, 50) == 5 && Col(Sample, 100) == 9;
  }

  /** The centre (20, 20) of (15,15)-(25,25) is in tile 22, its seed. */
  lemma SampleQuerySeed()
    ensures Valid(Sample) && SeedTile(Sample, Box(15, 15, 25, 25)) == 22
  {
    SampleGrid();
    SampleQueryProbe();
    SampleCentre20();
  }

  /** The centre (50, 50) of the whole extent is in tile 55, its seed. */
  lemma SampleWholeSeed()
    ensures Valid(Sample) && SeedTile(Sample, Box(0, 0, 100, 100)) == 55
  {
    SampleGrid();
    SampleWholeProbe();
    SampleCentre50();
  }

  /** A list without repeats whose entries are exactly 11, 12, 21 and 22 has
      four entries. */
  lemma SampleFour(list: seq<int>)
    requires NoDup(list) && forall t :: t in list <==> t in {11, 12, 21, 22}
    ensures |list| == 4
  {
    ElemsCard(list);
    assert forall t :: t in Elems(list) <==> t in {11, 12, 21, 22};
    assert Elems(list) == {11, 12, 21, 22};
  }

  /** Searching the box (15,15)-(25,25) finds its four tiles, starting from
      tile 22, which holds the box centre (20, 20). */
  method SampleQuery() returns (list: seq<int>)
    ensures |list| == 4 && list[0] == 22
    ensures forall t :: t in list <==> t in {11, 12, 21, 22}
  {
    SampleGrid();
    var tiles := new Tiles(Box(0, 0, 100, 100), 10);
    assert tiles.grid == Sample;
    SampleQuerySeed();
    SampleQueryHits();
    assert WellFormed(Box(15, 15, 25, 25));
    list := tiles.TileList(Box(15, 15, 25, 25));
    SampleFour(list);
  }

  /** With a cap of one tile, a search over the whole extent returns the
      seed alone. */
  method SampleCapped() returns (list: seq<int>)
    ensures |list| == 1 && list[0] == 55
  {
    SampleGrid();
    var tiles := new Tiles(Box(0, 0, 100, 100), 10);
    assert tiles.grid == Sample;
    SampleWholeSeed();
    assert WellFormed(Box(0, 0, 100, 100));
    list := tiles.TileList(Box(0, 0, 100, 100), 1);
  }

  /** The neighbours of tile 55, in search order, are 56, 54, 65 and 45. */
  lemma SampleNeighbours55()
    ensures Valid(Sample) && ValidId(Sample, 55)
    ensures Neighbours(Sample, 55) == [56, 54, 65, 45]
  {
    SampleGrid();
    SampleCell55();
    SampleEast55();
    SampleWest55();
    SampleNorth55();
    SampleSouth55();
  }

  /** Tile 55 is in column 5 and row 5. */
  lemma SampleCell55()
    ensures Valid(Sample) && ValidId(Sample, 55)
    ensures ColOf(Sample, 55) == 5 && RowOf(Sample, 55) == 5
  {
    SampleGrid();
    Locate(Sample, 55, 5, 5);
  }

  /** The tile east of 55 is 56. */
  lemma SampleEast55()
    ensures Valid(Sample) && ValidId(Sample, 55) && RightNeighbor(Sample, 55) == 56
  {
    SampleCell55();
    var r := RightNeighbor(Sample, 55);
    Pack(Sample, r);
  }

  /** The tile west of 55 is 54. */
  lemma SampleWest55()
    ensures Valid(Sample) && ValidId(Sample, 55) && LeftNeighbor(Sample, 55) == 54
  {
    SampleCell55();
    var r := LeftNeighbor(Sample, 55);
    Pack(Sample, r);
  }

  /** The tile north of 55 is 65. */
  lemma SampleNorth55()
    ensures Valid(Sample) && ValidId(Sample, 55) && TopNeighbor(Sample, 55) == 65
  {
    SampleCell55();
    var r := TopNeighbor(Sample, 55);
    Pack(Sample, r);
  }

  /** The tile south of 55 is 45. */
  lemma SampleSouth55()
    ensures Valid(Sample) && ValidId(Sample, 55) && BottomNeighbor(Sample, 55) == 45
  {
    SampleCell55();
    var r := BottomNeighbor(Sample, 55);
    Pack(Sample, r);
  }

  /** Every tile of the sample grid meets the whole extent. */
  lemma SampleWholeHits(t: int)
    requires Valid(Sample) && ValidId(Sample, t)
    ensures Hit(Sample, Box(0, 0, 100, 100), t)
  {
    var b := TileBounds(Sample, t);
    assert Contains(Sample.bounds, Base(Sample, t));
  }

  /** A search over the whole extent keeps the breadth-first order: once it
      has collected two tiles, they are the seed 55 and its east neighbour
      56.  inside stands for the tiles that meet the extent, which are all
      the tiles of the grid. */
  lemma SampleSecond(list: seq<int>, queue: seq<int>, hist: seq<int>, inside: set<int>)
    requires Valid(Sample) && AllValid(Sample, list) && |list| <= 2
    requires forall t :: ValidId(Sample, t) ==> t in inside
    requires |list| < 2 ==> forall t :: t in inside ==> t in list
    requires hist == Grown(Sample, [55], list) && |queue| <= |hist|
    requires Collected(inside, list, queue, hist)
    ensures list == [55, 56]
  {
    SampleTwoCollected(list, inside);
    FilterAll(inside, hist[..|hist| - |queue|]);
    assert list[0] == hist[0] == 55;
    SampleGrown55(list);
  }

  /** A list of at most two tiles that, when shorter, holds every tile of
      the grid has two tiles. */
  lemma SampleTwoCollected(list: seq<int>, inside: set<int>)
    requires Valid(Sample) && |list| <= 2
    requires forall t :: ValidId(Sample, t) ==> t in inside
    requires |list| < 2 ==> forall t :: t in inside ==> t in list
    ensures |list| == 2
  {
    assert ValidId(Sample, 0) && ValidId(Sample, 1);
    assert |list| < 2 ==> 0 in list && 1 in list;
  }

  /** Every tile of the sample grid is among the tiles meeting the whole
      extent. */
  lemma SampleWholeInside(inside: set<int>)
    requires Valid(Sample) && inside == HitSet(Sample, Box(0, 0, 100, 100))
    ensures forall t :: ValidId(Sample, t) ==> t in inside
  {
    forall t | ValidId(Sample, t)
      ensures t in inside
    {
      SampleWholeHits(t);
    }
  }

  /** The state a capped search over the whole extent leaves, as TileList
      describes it, holds 55 and then 56. */
  lemma SampleCappedState(tiles: Tiles, box: Box, list: seq<int>)
    requires tiles.grid == Sample && Valid(tiles.grid) && box == Box(0, 0, 100, 100)
    requires SeedTile(tiles.grid, box) == 55
    requires list == tiles.tilelist && tiles.Explored(box)
    requires |list| <= 2 && AllValid(tiles.grid, list)
    requires WellFormed(box) && SeedTile(tiles.grid, box) != -1 && |list| < 2 ==>
      forall t :: Hit(tiles.grid, box, t) ==> t in list
    requires SeedTile(tiles.grid, box) != -1 ==> tiles.history == Grown(tiles.grid, [SeedTile(tiles.grid, box)], list)
    ensures list == [55, 56]
  {
    var inside := HitSet(tiles.grid, box);
    SampleWholeInside(inside);
    SampleSecond(list, tiles.checklist, tiles.history, inside);
  }

  /** A search from 55 that collects 55 first queues 56 right after it. */
  lemma SampleGrown55(list: seq<int>)
    requires Valid(Sample) && AllValid(Sample, list) && |list| == 2 && list[0] == 55
    ensures |Grown(Sample, [55], list)| > 1 && Grown(Sample, [55], list)[1] == 56
  {
    assert list[..1] == [55];
    SampleNeighbours55();
    SampleDiscovered55();
    GrownOne(Sample, [55], 55);
    var h1 := Grown(Sample, [55], list[..1]);
    assert h1 == [55] + [56, 54, 65, 45];
    assert Grown(Sample, [55], list)[..|h1|] == h1;
  }

  /** From tile 55 with only 55 queued, all four neighbours are new. */
  lemma SampleDiscovered55()
    ensures Discovered(Elems([55]), [56, 54, 65, 45]) == [56, 54, 65, 45]
  {
    assert Elems([55]) == {55};
    DiscoveredAll({55}, [56, 54, 65, 45]);
  }

  /** With a cap of two tiles, a search over the whole extent returns the
      seed 55 and then its east neighbour 56. */
  method SampleCappedTwo() returns (list: seq<int>)
    ensures list == [55, 56]
  {
    SampleGrid();
    var tiles := new Tiles(Box(0, 0, 100, 100), 10);
    assert tiles.grid == Sample;
    SampleWholeSeed();
    assert WellFormed(Box(0, 0, 100, 100));
    var box := Box(0, 0, 100, 100);
    list := tiles.TileList(box, 2);
    SampleCappedState(tiles, box, list);
  }

  /** A search over a box far outside the extent finds nothing. */
  method SampleEmpty() returns (list: seq<int>)
    ensures list == []
  {
    SampleGrid();
    var tiles := new Tiles(Box(0, 0, 100, 100), 10);
    assert tiles.grid == Sample;
    SampleOutside();
    list := tiles.TileList(Box(200, 200, 210, 210));
  }
}
