/** The static lookup tables of the bird-migration visualiser: grid cells and
    US states collapsed into ten coarse regions, and the arrow anchors drawn
    between pairs of neighbouring regions. */
module Regions {

  /** Number of coarse regions; region ids are 0 .. RegionCount - 1. */
  const RegionCount: int := 10

  predicate IsRegion(r: int) {
    0 <= r < RegionCount
  }

  /** cell -> region for the 10x10 grid: cell 10 * row + column lies in
      region CellMap[10 * row + column]. The rows are named so that each
      one is a small literal. */
  const Row0: seq<int> := [0, 0, 0, 1, 2, 2, 2, 2, 3, 3]
  const Row1: seq<int> := [0, 0, 0, 1, 2, 2, 2, 2, 3, 3]
  const Row2: seq<int> := [4, 0, 0, 1, 1, 2, 2, 2, 3, 3]
  const Row3: seq<int> := [4, 5, 5, 1, 1, 2, 2, 2, 3, 3]
  const Row4: seq<int> := [4, 5, 5, 1, 1, 2, 2, 2, 3, 8]
  const Row5: seq<int> := [4, 5, 5, 6, 7, 7, 8, 8, 8, 8]
  const Row6: seq<int> := [4, 5, 6, 6, 7, 7, 8, 8, 8, 8]
  const Row7: seq<int> := [4, 5, 6, 6, 7, 7, 8, 8, 9, 9]
  const Row8: seq<int> := [4, 5, 6, 6, 7, 7, 8, 9, 9, 9]
  const Row9: seq<int> := [5, 6, 6, 6, 7, 7, 8, 9, 9, 9]
  const CellMap: seq<int> :=
    Row0 + Row1 + Row2 + Row3 + Row4 + Row5 + Row6 + Row7 + Row8 + Row9

  /** Every entry of a table names one of the ten regions. */
  predicate AllRegions(s: seq<int>) {
    forall j :: 0 <= j < |s| ==> IsRegion(s[j])
  }

  /** Number of grid cells. */
  const CellCount: int := 100

  /** A grid cell id that indexes the table without Python's negative wrap-around. */
  predicate IsCell(c: int) {
    0 <= c < CellCount
  }

  /** A cell -> region table of the grid's shape: one region per cell. */
  type CellTable = cells: seq<int> | |cells| == CellCount && AllRegions(cells)
    witness seq(100, c => 0)

  /** state name -> region; states missing here are outside the modelled area. */
  const StateRegions: map<string, int> := map[
    "Mississippi" := 0,
    "Alabama" := 0,
    "Tennessee" := 1,
    "Kentucky" := 1,
    "Illinois" := 2,
    "Indiana" := 2,
    "Ohio" := 2,
    "Michigan" := 3,
    "Wisconsin" := 3,
    "Florida" := 4,
    "Georgia" := 5,
    "South Carolina" := 6,
    "North Carolina" := 6,
    "Virginia" := 7,
    "West Virginia" := 7,
    "Maryland" := 7,
    "Delaware" := 7,
    "Pennsylvania" := 8,
    "New Jersey" := 8,
    "New York" := 8,
    "Connecticut" := 9,
    "Rhode Island" := 9,
    "Massachusetts" := 9,
    "Vermont" := 9,
    "New Hampshire" := 9,
    "Maine" := 9
  ]

  /** Where an arrow between two regions is drawn: longitude, latitude and
      the angle (in degrees) of the arrow pointing from the first region of
      the pair to the second. */
  datatype Anchor = Anchor(lon: int, lat: int, angle: int)

  /** (region, region) -> arrow anchor. */
  const Vectors: map<(int, int), Anchor> := map[
    (0, 1) := Anchor(-87, 35, 60),
    (0, 2) := Anchor(-87, 36, 90),
    (1, 2) := Anchor(-87, 38, 90),
    (1, 3) := Anchor(-87, 40, 90),
    (1, 4) := Anchor(-84, 33, -60),
    (2, 3) := Anchor(-87, 42, 90),
    (0, 4) := Anchor(-86, 31, -30),
    (0, 5) := Anchor(-85, 33, 0),
    (4, 5) := Anchor(-83, 31, 120),
    (1, 5) := Anchor(-85, 35, -90),
    (2, 5) := Anchor(-86, 37, -90),
    (0, 6) := Anchor(-84, 34, 0),
    (1, 6) := Anchor(-82, 36, -30),
    (2, 6) := Anchor(-83, 37, -90),
    (4, 6) := Anchor(-82, 32, 60),
    (5, 6) := Anchor(-82, 34, 30),
    (1, 7) := Anchor(-82, 38, 30),
    (2, 7) := Anchor(-82, 39, -30),
    (5, 7) := Anchor(-81, 35, 60),
    (6, 7) := Anchor(-80, 37, 90),
    (1, 8) := Anchor(-80, 39, 30),
    (2, 8) := Anchor(-80, 41, 0),
    (6, 8) := Anchor(-79, 39, 90),
    (7, 8) := Anchor(-78, 40, 60),
    (3, 8) := Anchor(-81, 43, -30),
    (3, 9) := Anchor(-79, 44, 0),
    (7, 9) := Anchor(-74, 41, 60),
    (8, 9) := Anchor(-73, 43, 30)
  ]

  /** The grid has exactly 100 cells and every one of them lies in a region. */
  lemma CellMapShape()
    ensures |CellMap| == CellCount
    ensures AllRegions(CellMap)
  {
    assert AllRegions(Row0) && AllRegions(Row1) && AllRegions(Row2) && AllRegions(Row3) && AllRegions(Row4);
    assert AllRegions(Row5) && AllRegions(Row6) && AllRegions(Row7) && AllRegions(Row8) && AllRegions(Row9);
  }

  /** The grid's own table, CellMap, as a CellTable. */
  function GridTable(): CellTable {
    CellMapShape();
    CellMap
  }

  /** Every state of the state table belongs to one of the ten regions. */
  lemma StateRegionsInRange()
    ensures forall s :: s in StateRegions ==> IsRegion(StateRegions[s])
  {
  }

  /** Every registered arrow joins two distinct regions, listed lower first. */
  lemma VectorKeysOrdered()
    ensures forall p :: p in Vectors ==> 0 <= p.0 < p.1 < RegionCount
  {
  }

  /** In particular no region has an arrow to itself. */
  lemma NoSelfVector(r: int)
    ensures (r, r) !in Vectors
  {
  }
}
