# Bird-migration map: region tables, aggregation and arrow selection

This project models the integer core of `viz.py`, the script that renders
one map per (year, day). Each map shows bird observations and the net bird
flows inferred between ten regions of the eastern United States.

- `regions.dfy` (module `Regions`) holds the static tables:
  - `CellMap`, which collapses the 10×10 grid of cells into ten regions;
  - `StateRegions`, which maps state names to regions;
  - `Vectors`, which maps region pairs to arrow anchors (longitude, latitude, angle).

  The lemmas about them show that every entry names a region, and that
  every anchor is registered under a pair listed lower region first.
- `aggregate.dfy` (module `Aggregate`) models `get_data`:
  - A `Counter` is a `map<K, int>` read through `Get`, so a missing key reads as 0.
  - The observation fold is three nested loops (`AccumulateObservations`,
    `AddYear`, `AddDay`). Each cell's count is added under
    (year, day, region of the cell).
  - The move fold (`AccumulateMoves`) maps both cells of a record to
    regions. When the regions come out in descending order, it swaps them
    and negates the count, then adds the count under (year, day, i, j).
  - `Data` is the `data(y, d)` closure. It returns ten observation values,
    the bounds 0 and 1000, and 100 flow triples in row-major order.
  - The fold is proved against specification functions:
    - `RegionTotal` for observations;
    - `MoveTotal` for moves, a sum over the set of records that does not
      depend on the order the dictionary is walked.

  Lemmas prove, about these:
  - conservation of observation totals;
  - antisymmetry of flows when every record is reversed;
  - canonical ordering of Counter keys;
  - dense read-back.
- `arrows.dfy` (module `Arrows`) models the arrow-selection loop of
  `plot_map`. `SelectArrows` appends one arrow per flow that has a non-zero
  count and a registered anchor in either orientation. `Selected` is its
  specification, and lemmas give the arrow count, the origin of each arrow,
  and the sign rule.

The two readers of the model's output are inputs here:
- `Observations` maps a year to its days, each day being its list of per-cell counts.
- `Moves` maps (year, day, cell_i, cell_j) to a signed count.

Two behaviours of the code are easy to misread, and the model follows the code in both:
- Stored flow keys satisfy i ≤ j, not i < j. A move within one region is
  accumulated under (y, d, r, r) (`SameRegionKept`).
- A (year, day) with no records still yields 100 flow triples, all 0, not an
  empty flow list (`Data`, `DataFlows`).

## Model

| member | source | states |
|---|---|---|
| Regions.CellMapShape | viz.py:15-26 | the cell table has exactly 100 entries and each one is a region in 0..9 |
| Regions.StateRegionsInRange | viz.py:28-55 | every state of the state table maps to a region in 0..9 |
| Regions.VectorKeysOrdered | viz.py:58-87 | every anchor key (a, b) satisfies 0 ≤ a < b ≤ 9 |
| Regions.NoSelfVector | viz.py:58-87 | no region has an anchor to itself |
| Aggregate.AddDay | viz.py:136-138 | after one day's cell loop, each region's entry for (y, d) has grown by the day's total for that region, no other entry has changed, and every new key is (y, d, r) with r a region |
| Aggregate.AddYear | viz.py:135-138 | after one year's day loop, entry (y, d, r) has grown by day d's total for region r for every day of that year, and nothing else has changed |
| Aggregate.AccumulateObservations | viz.py:133-138 | after walking every (year, days) item in any order, every Counter entry (y, d, r) reads the total of day d of year y over the cells of region r, or 0 when there is no such day; every key names an existing year, day and region |
| Aggregate.CellLandsInOwnRegion | viz.py:136-138 | adding v to one cell's count raises the total of that cell's region by v and leaves every other region's total unchanged |
| Aggregate.ObservationConservation | viz.py:133-138 | the ten region totals of a day add up to the sum of the day's per-cell counts |
| Aggregate.CanonicalKey | viz.py:142-147 | a record's Counter key keeps its year and day and holds the two regions of its cells in ascending order |
| Aggregate.ReverseContribution | viz.py:142-148 | reversing a record's endpoints keeps its Counter key; it negates the contribution between two different regions and keeps it within one region |
| Aggregate.SameRegionKept | viz.py:144-148 | `if i == j: pass` changes nothing: a same-region move is added, unnegated, under (y, d, r, r) |
| Aggregate.MoveTotalRemove | viz.py:141-148 | the folded total is the contribution of any one record plus the total of the rest, so the dictionary's walk order does not matter |
| Aggregate.AccumulateMoves | viz.py:140-148 | after walking every record in any order, each Counter entry equals the sum of the signed, canonicalised contributions of all records; the keys are exactly the canonical keys of the records, each with 0 ≤ i ≤ j ≤ 9 |
| Aggregate.ReverseTotal | viz.py:140-148 | exchanging the endpoints of every record negates every folded total between two different regions and keeps every same-region total |
| Aggregate.CounterReversed | viz.py:140-148 | the move Counter of the reversed records is the negation of the original off the diagonal and equal to it on the diagonal |
| Aggregate.GetData | viz.py:128-148 | get_data over the grid's own table produces Counters that hold exactly the folded observation and move totals |
| Aggregate.AccurateUnique | viz.py:141-148 | two move Counters accurate for the same records are equal, so the result is independent of iteration order |
| Aggregate.Data | viz.py:149-153 | data(y, d) gives 10 observation values read from the Counter (absent keys as 0), the bounds 0 and 1000, and 100 flows where flow p joins regions p div 10 and p mod 10 and carries that Counter entry |
| Aggregate.DataObservations | viz.py:133-150 | each observation value of a frame is its region's day total, and the ten values add up to the day's total count (0 for a day with no record) |
| Aggregate.DataFlows | viz.py:140-153 | each flow of a frame carries the folded total of its region pair, and a flow with from > to always reads 0 |
| Aggregate.DataReversed | viz.py:140-153 | on frames, reversing every record negates every flow between two different regions and keeps every same-region flow |
| Aggregate.SingleObservationExample | viz.py:15-16 | 5 birds in cell 3 put 5 in region 1 and 0 in every other region |
| Aggregate.MoveRecordExample | viz.py:141-148 | a record of 7 from cell 5 to cell 30 is stored as +7 under regions (2, 4); the reversed record is stored as -7 under the same key |
| Arrows.ArrowFor | viz.py:111-119 | a flow gets an arrow exactly when its count is non-zero and its pair is registered in either orientation; the arrow's count is non-zero and its anchor is a registered one |
| Arrows.ArrowOrientation | viz.py:114-119 | the forward and then reversed lookup is one lookup of the ordered pair: a same-region flow never gets an arrow, and the arrow's count is the flow's count seen from the lower region to the higher |
| Arrows.Selected | viz.py:110-119 | the arrow list is never longer than the flow list, has no zero count and uses only registered anchors |
| Arrows.SelectArrows | viz.py:110-119 | the loop that appends to xs produces exactly the selected arrows of the flows, in order |
| Arrows.SelectedCount | viz.py:110-119 | the arrow list has one arrow per drawable flow, with a non-zero count and a registered pair |
| Arrows.SelectedFromFlows | viz.py:110-119 | every arrow in the list is the arrow of one of the input flows |
| Arrows.FrameArrowsForward | viz.py:110-119 | on a frame read back from the Counters, the reversed-anchor branch never draws: every arrow comes from a flow with from < to, with its count unchanged |

## Left out

- Basemap projection, coastline, continent, parallel and meridian drawing and shapefile reading (viz.py:90-99): drawing through libraries outside this model.
- State colouring (viz.py:100-109): the loop reads `values[regions[statename]]` and skips unknown states. It then computes a colour with floating-point arithmetic and matplotlib. Only the state table's range (`StateRegionsInRange`) is modelled. The division by `vmax - vmin` cannot be zero for frames from `Data`, whose bounds are 0 and 1000.
- Arrow components and drawing (viz.py:120-125): `cos`, `sin`, `log1p` and `sign` on floats, and the `quiver` call. The arrow list they consume is modelled.
- The probabilistic-programming connection built at import (viz.py:12) and the two readers (viz.py:130-132): foreign calls and file I/O. Their results are the `Observations` and `Moves` inputs.
- The batch loop of `__main__` (viz.py:156-165): printing, titles and saving images.
- Aggregate.AccumulateMoves: requires every cell id in 0..99. Python would also accept -100..-1 through negative indexing, and would raise IndexError for any other id. Neither path is modelled.
- Aggregate.AccumulateObservations: requires at most 100 counts per day. Python would raise IndexError at the 101st cell.
- Aggregate.GetData: the fold takes the cell table as a parameter, any 100-entry table of regions, and GetData passes `CellMap`. The source reads the global list directly.
- Each day record is reduced to its list of per-cell counts, because the first component of the record is never read.
- Dictionary iteration order is not modelled. Both folds pick the next item arbitrarily, and their results are proved not to depend on the choice.
