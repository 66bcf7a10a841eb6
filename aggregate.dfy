/** The aggregation step of the visualiser: per-cell observation counts and
    per-cell-pair move counts, read from the model's output, are folded into
    Counters keyed by (year, day, region) and (year, day, region, region),
    and a frame of dense per-region values is read back out of them. */
module Aggregate {
  import opened Regions

  /** A Counter: a dictionary whose missing keys read as 0. */
  type Counter<K> = map<K, int>

  /** counter[k], which is 0 (and inserts nothing) when k is missing. */
  function Get<K>(c: Counter<K>, k: K): int {
    if k in c then c[k] else 0
  }

  /** counter[k] += n: the key is inserted even when n is 0. */
  function Bump<K(!new)>(c: Counter<K>, k: K, n: int): (c': Counter<K>)
    ensures c'.Keys == c.Keys + {k}
    ensures Get(c', k) == Get(c, k) + n
    ensures forall k' :: k' != k ==> Get(c', k') == Get(c, k')
  {
    c[k := Get(c, k) + n]
  }

  function Sum(s: seq<int>): int {
    if s == [] then 0 else Sum(s[..|s| - 1]) + s[|s| - 1]
  }

  // ---------------------------------------------------------------------
  // Observations
  // ---------------------------------------------------------------------

  datatype ObsKey = ObsKey(year: int, day: int, region: int)

  /** year -> that year's days in order, each given by its list of per-cell
      observation counts (the second component of a day record; the first
      is never read). */
  type Observations = map<int, seq<seq<int>>>

  /** Every day lists at most one count per grid cell, so that each cell
      index has a region. */
  predicate ObservationsInGrid(obs: Observations) {
    forall y, d :: y in obs && 0 <= d < |obs[y]| ==> |obs[y][d]| <= CellCount
  }

  /** Sum of the counts of the cells of one day that lie in region r. */
  function RegionTotal(cells: CellTable, counts: seq<int>, r: int): int
    requires |counts| <= CellCount
  {
    if counts == [] then 0
    else
      var last := |counts| - 1;
      RegionTotal(cells, counts[..last], r) + (if cells[last] == r then counts[last] else 0)
  }

  /** What the observation Counter holds for key k once every year is folded in. */
  function ObsExpected(cells: CellTable, obs: Observations, k: ObsKey): int
    requires ObservationsInGrid(obs)
  {
    if k.year in obs && 0 <= k.day < |obs[k.year]| then RegionTotal(cells, obs[k.year][k.day], k.region) else 0
  }

  /** Adding v to the count of one cell changes the total of that cell's
      region, by v, and of no other region. */
  lemma {:induction false} CellLandsInOwnRegion(cells: CellTable, counts: seq<int>, c: int, v: int, r: int)
    requires |counts| <= CellCount && 0 <= c < |counts|
    ensures RegionTotal(cells, counts[c := counts[c] + v], r)
         == RegionTotal(cells, counts, r) + (if cells[c] == r then v else 0)
  {
    var last := |counts| - 1;
    var counts' := counts[c := counts[c] + v];
    if c == last {
      assert counts'[..last] == counts[..last];
    } else {
      assert counts'[..last] == counts[..last][c := counts[c] + v];
      CellLandsInOwnRegion(cells, counts[..last], c, v, r);
    }
  }

  /** Sum of the totals of regions 0 .. n - 1 for one day. */
  function RegionsTotal(cells: CellTable, counts: seq<int>, n: nat): int
    requires |counts| <= CellCount
  {
    if n == 0 then 0 else RegionsTotal(cells, counts, n - 1) + RegionTotal(cells, counts, n - 1)
  }

  lemma {:induction false} RegionsTotalStep(cells: CellTable, counts: seq<int>, n: nat)
    requires 0 < |counts| <= CellCount
    ensures var last := |counts| - 1;
      RegionsTotal(cells, counts, n)
      == RegionsTotal(cells, counts[..last], n) + (if cells[last] < n then counts[last] else 0)
  {
    if n > 0 {
      RegionsTotalStep(cells, counts, n - 1);
    }
  }

  lemma {:induction false} RegionsTotalZero(cells: CellTable, n: nat)
    ensures RegionsTotal(cells, [], n) == 0
  {
    if n > 0 {
      RegionsTotalZero(cells, n - 1);
    }
  }

  /** Conservation: the ten region totals of a day add up to the day's
      total count, since every cell lies in exactly one region. */
  lemma {:induction false} ObservationConservation(cells: CellTable, counts: seq<int>)
    requires |counts| <= CellCount
    ensures RegionsTotal(cells, counts, RegionCount as nat) == Sum(counts)
  {
    if counts == [] {
      RegionsTotalZero(cells, RegionCount as nat);
    } else {
      var last := |counts| - 1;
      RegionsTotalStep(cells, counts, RegionCount as nat);
      ObservationConservation(cells, counts[..last]);
    }
  }

  /** The innermost loop over one day's cells: each count is added to the
      Counter entry of its cell's region. */
  method AddDay(cells: CellTable, acc: Counter<ObsKey>, y: int, d: int, counts: seq<int>)
    returns (acc': Counter<ObsKey>)
    requires |counts| <= CellCount
    ensures forall k ::
              Get(acc', k) == Get(acc, k) + (if k.year == y && k.day == d then RegionTotal(cells, counts, k.region) else 0)
    ensures forall k :: k in acc' ==> k in acc || (k.year == y && k.day == d && IsRegion(k.region))
  {
    acc' := acc;
    var i := 0;
    while i < |counts|
      invariant 0 <= i <= |counts|
      invariant forall k ::
                  Get(acc', k) == Get(acc, k) + (if k.year == y && k.day == d then RegionTotal(cells, counts[..i], k.region) else 0)
      invariant forall k :: k in acc' ==> k in acc || (k.year == y && k.day == d && IsRegion(k.region))
    {
      var r := cells[i];
      acc' := Bump(acc', ObsKey(y, d, r), counts[i]);
      assert counts[..i + 1][..i] == counts[..i];
      i := i + 1;
    }
    assert counts[..|counts|] == counts;
  }

  /** The middle loop over one year's days, in order. */
  method AddYear(cells: CellTable, acc: Counter<ObsKey>, y: int, yobs: seq<seq<int>>)
    returns (acc': Counter<ObsKey>)
    requires forall d :: 0 <= d < |yobs| ==> |yobs[d]| <= CellCount
    ensures forall k ::
              Get(acc', k) == Get(acc, k)
                              + (if k.year == y && 0 <= k.day < |yobs| then RegionTotal(cells, yobs[k.day], k.region) else 0)
    ensures forall k :: k in acc' ==> k in acc || (k.year == y && 0 <= k.day < |yobs| && IsRegion(k.region))
  {
    acc' := acc;
    var d := 0;
    while d < |yobs|
      invariant 0 <= d <= |yobs|
      invariant forall k ::
                  Get(acc', k) == Get(acc, k)
                                  + (if k.year == y && 0 <= k.day < d then RegionTotal(cells, yobs[k.day], k.region) else 0)
      invariant forall k :: k in acc' ==> k in acc || (k.year == y && 0 <= k.day < d && IsRegion(k.region))
    {
      acc' := AddDay(cells, acc', y, d, yobs[d]);
      d := d + 1;
    }
  }

  /** The observation half of get_data: every (year, days) item of the
      dictionary (in any order), every day and every cell. */
  method AccumulateObservations(cells: CellTable, obs: Observations) returns (acc: Counter<ObsKey>)
    requires ObservationsInGrid(obs)
    ensures forall k :: Get(acc, k) == ObsExpected(cells, obs, k)
    ensures forall k :: k in acc ==> k.year in obs && 0 <= k.day < |obs[k.year]| && IsRegion(k.region)
  {
    acc := map[];
    var items := obs.Items;
    ghost var done: set<int> := {};
    while items != {}
      invariant items <= obs.Items && done <= obs.Keys
      invariant forall y :: y in obs ==> (y in done <==> (y, obs[y]) !in items)
      invariant forall k :: Get(acc, k) == if k.year in done then ObsExpected(cells, obs, k) else 0
      invariant forall k :: k in acc ==> k.year in done && k.year in obs && 0 <= k.day < |obs[k.year]| && IsRegion(k.region)
      decreases items
    {
      var item :| item in items;
      var (y, yobs) := item;
      acc := AddYear(cells, acc, y, yobs);
      items := items - {item};
      done := done + {y};
    }
  }

  // ---------------------------------------------------------------------
  // Moves
  // ---------------------------------------------------------------------

  /** (year, day, from, to): cells in the input, regions in the Counter. */
  datatype MoveKey = MoveKey(year: int, day: int, from: int, to: int)

  /** (year, day, cell_i, cell_j) -> net signed number of birds that moved
      from cell_i to cell_j. */
  type Moves = map<MoveKey, int>

  /** Both endpoints of a move record are grid cells. */
  predicate OnGrid(k: MoveKey) {
    IsCell(k.from) && IsCell(k.to)
  }

  predicate MovesInGrid(moves: Moves) {
    forall k :: k in moves ==> OnGrid(k)
  }

  /** The record's regions come out in descending order, so it is stored
      with its ends exchanged and its count negated. */
  predicate Swapped(cells: CellTable, k: MoveKey)
    requires OnGrid(k)
  {
    cells[k.from] > cells[k.to]
  }

  /** The Counter key a move record is accumulated under. */
  function CanonicalKey(cells: CellTable, k: MoveKey): (t: MoveKey)
    requires OnGrid(k)
    ensures t.year == k.year && t.day == k.day
    ensures IsRegion(t.from) && IsRegion(t.to) && t.from <= t.to
    ensures {t.from, t.to} == {cells[k.from], cells[k.to]}
  {
    var i, j := cells[k.from], cells[k.to];
    if i > j then MoveKey(k.year, k.day, j, i) else MoveKey(k.year, k.day, i, j)
  }

  /** What the move record k with count n adds to the Counter entry t. */
  function Contribution(cells: CellTable, k: MoveKey, n: int, t: MoveKey): int
    requires OnGrid(k)
  {
    if CanonicalKey(cells, k) == t then (if Swapped(cells, k) then -n else n) else 0
  }

  /** The same record with its endpoints exchanged. */
  function Reverse(k: MoveKey): MoveKey {
    MoveKey(k.year, k.day, k.to, k.from)
  }

  /** Swapping a record's endpoints keeps its Counter key; between two
      different regions it negates the contribution, within one region it
      leaves it as it is. */
  lemma ReverseContribution(cells: CellTable, k: MoveKey, n: int, t: MoveKey)
    requires OnGrid(k)
    ensures OnGrid(Reverse(k)) && CanonicalKey(cells, Reverse(k)) == CanonicalKey(cells, k)
    ensures Contribution(cells, Reverse(k), n, t)
         == if cells[k.from] == cells[k.to] then Contribution(cells, k, n, t) else -Contribution(cells, k, n, t)
  {
  }

  /** A move within one region is still accumulated, under the key
      (y, d, r, r), with its count unchanged. */
  lemma SameRegionKept(cells: CellTable, k: MoveKey, n: int)
    requires OnGrid(k) && cells[k.from] == cells[k.to]
    ensures CanonicalKey(cells, k) == MoveKey(k.year, k.day, cells[k.from], cells[k.from])
    ensures Contribution(cells, k, n, CanonicalKey(cells, k)) == n
  {
  }

  /** The Counter value for key t after folding in the records in keys. */
  ghost function MoveTotal(cells: CellTable, moves: Moves, keys: set<MoveKey>, t: MoveKey): int
    requires keys <= moves.Keys && MovesInGrid(moves)
    decreases keys
  {
    if keys == {} then 0
    else
      var k :| k in keys;
      Contribution(cells, k, moves[k], t) + MoveTotal(cells, moves, keys - {k}, t)
  }

  /** The total does not depend on which record is folded in first. */
  lemma {:induction false} MoveTotalRemove(cells: CellTable, moves: Moves, keys: set<MoveKey>, x: MoveKey, t: MoveKey)
    requires keys <= moves.Keys && MovesInGrid(moves) && x in keys
    ensures MoveTotal(cells, moves, keys, t)
         == Contribution(cells, x, moves[x], t) + MoveTotal(cells, moves, keys - {x}, t)
    decreases keys
  {
    var k :| k in keys && MoveTotal(cells, moves, keys, t)
                          == Contribution(cells, k, moves[k], t) + MoveTotal(cells, moves, keys - {k}, t);
    if k != x {
      MoveTotalRemove(cells, moves, keys - {k}, x, t);
      MoveTotalRemove(cells, moves, keys - {x}, k, t);
      assert keys - {k} - {x} == keys - {x} - {k};
    }
  }

  /** The Counter keys produced by the records in keys. */
  function CanonicalKeys(cells: CellTable, moves: Moves, keys: set<MoveKey>): set<MoveKey>
    requires keys <= moves.Keys && MovesInGrid(moves)
  {
    set k | k in keys :: CanonicalKey(cells, k)
  }

  /** The move half of get_data: every record (in any order) is mapped to
      regions, put in ascending order with its count negated when swapped,
      and added to the Counter. */
  method AccumulateMoves(cells: CellTable, moves: Moves) returns (acc: Counter<MoveKey>)
    requires MovesInGrid(moves)
    ensures forall t :: Get(acc, t) == MoveTotal(cells, moves, moves.Keys, t)
    ensures acc.Keys == CanonicalKeys(cells, moves, moves.Keys)
    ensures forall t :: t in acc ==> IsRegion(t.from) && IsRegion(t.to) && t.from <= t.to
  {
    acc := map[];
    var todo := moves.Keys;
    ghost var done: set<MoveKey> := {};
    while todo != {}
      invariant todo + done == moves.Keys && todo !! done
      invariant forall t :: Get(acc, t) == MoveTotal(cells, moves, done, t)
      invariant acc.Keys == CanonicalKeys(cells, moves, done)
      decreases todo
    {
      var k :| k in todo;
      var n := moves[k];
      var i := cells[k.from];
      var j := cells[k.to];
      if i > j {
        i, j := j, i;
        n := -n;
      }
      acc := Bump(acc, MoveKey(k.year, k.day, i, j), n);
      forall t
        ensures Get(acc, t) == MoveTotal(cells, moves, done + {k}, t)
      {
        MoveTotalRemove(cells, moves, done + {k}, k, t);
        assert done + {k} - {k} == done;
      }
      todo := todo - {k};
      done := done + {k};
    }
  }

  /** Every record with its endpoints exchanged. */
  function ReverseAll(moves: Moves): (rev: Moves)
    ensures rev.Keys == ReverseKeys(moves.Keys)
    ensures forall k :: k in moves ==> Reverse(k) in rev && rev[Reverse(k)] == moves[k]
    ensures MovesInGrid(moves) ==> MovesInGrid(rev)
  {
    map k | k in ReverseKeys(moves.Keys) :: moves[Reverse(k)]
  }

  function ReverseKeys(keys: set<MoveKey>): set<MoveKey> {
    set k | k in keys :: Reverse(k)
  }

  lemma ReverseKeysRemove(keys: set<MoveKey>, x: MoveKey)
    requires x in keys
    ensures Reverse(x) in ReverseKeys(keys)
    ensures ReverseKeys(keys) - {Reverse(x)} == ReverseKeys(keys - {x})
  {
  }

  /** Antisymmetry: exchanging the endpoints of every record negates every
      total between two different regions and keeps every same-region total. */
  lemma {:induction false} ReverseTotal(cells: CellTable, moves: Moves, keys: set<MoveKey>, t: MoveKey)
    requires MovesInGrid(moves) && keys <= moves.Keys
    ensures ReverseKeys(keys) <= ReverseAll(moves).Keys
    ensures MoveTotal(cells, ReverseAll(moves), ReverseKeys(keys), t)
         == if t.from == t.to then MoveTotal(cells, moves, keys, t) else -MoveTotal(cells, moves, keys, t)
    decreases keys
  {
    var rev := ReverseAll(moves);
    if keys == {} {
      assert ReverseKeys(keys) == {};
    } else {
      var x :| x in keys;
      ReverseKeysRemove(keys, x);
      assert rev[Reverse(x)] == moves[x];
      MoveTotalRemove(cells, moves, keys, x, t);
      MoveTotalRemove(cells, rev, ReverseKeys(keys), Reverse(x), t);
      ReverseTotal(cells, moves, keys - {x}, t);
      ReverseContribution(cells, x, moves[x], t);
    }
  }

  // ---------------------------------------------------------------------
  // get_data and its data closure
  // ---------------------------------------------------------------------

  /** The two Counters that the data closure reads. */
  datatype Aggregates = Aggregates(observed: Counter<ObsKey>, moved: Counter<MoveKey>)

  /** The Counters hold exactly what folding in every record gives. */
  ghost predicate Accurate(cells: CellTable, agg: Aggregates, obs: Observations, moves: Moves)
    requires ObservationsInGrid(obs) && MovesInGrid(moves)
  {
    && (forall k :: Get(agg.observed, k) == ObsExpected(cells, obs, k))
    && (forall t :: Get(agg.moved, t) == MoveTotal(cells, moves, moves.Keys, t))
    && agg.moved.Keys == CanonicalKeys(cells, moves, moves.Keys)
  }

  /** get_data over the grid's own table. */
  method GetData(obs: Observations, moves: Moves) returns (agg: Aggregates)
    requires ObservationsInGrid(obs) && MovesInGrid(moves)
    ensures Accurate(GridTable(), agg, obs, moves)
  {
    var observed := AccumulateObservations(GridTable(), obs);
    var moved := AccumulateMoves(GridTable(), moves);
    agg := Aggregates(observed, moved);
  }

  /** Two move Counters that are both accurate for the same records are
      equal: the result does not depend on the order the dictionary is walked. */
  lemma AccurateUnique(cells: CellTable, a: Counter<MoveKey>, b: Counter<MoveKey>, moves: Moves)
    requires MovesInGrid(moves)
    requires forall t :: Get(a, t) == MoveTotal(cells, moves, moves.Keys, t)
    requires forall t :: Get(b, t) == MoveTotal(cells, moves, moves.Keys, t)
    requires a.Keys == CanonicalKeys(cells, moves, moves.Keys) == b.Keys
    ensures a == b
  {
    forall t | t in a
      ensures a[t] == b[t]
    {
      assert Get(a, t) == Get(b, t);
    }
  }

  /** One flow of a frame: the net count between regions from and to. */
  datatype Flow = Flow(from: int, to: int, count: int)

  /** What data(y, d) returns: ten region observation values, the colour
      scale bounds, and the 100 region-pair flows. */
  datatype Frame = Frame(observations: seq<int>, vmin: int, vmax: int, flows: seq<Flow>)

  /** The data closure: reads both Counters back densely for one (y, d),
      absent keys as 0, flows in row-major order (from, then to). */
  function Data(agg: Aggregates, y: int, d: int): (f: Frame)
    ensures |f.observations| == RegionCount
    ensures forall r :: 0 <= r < |f.observations| ==> f.observations[r] == Get(agg.observed, ObsKey(y, d, r))
    ensures f.vmin == 0 && f.vmax == 1000
    ensures |f.flows| == RegionCount * RegionCount
    ensures forall p :: 0 <= p < |f.flows| ==>
      && IsRegion(f.flows[p].from) && IsRegion(f.flows[p].to)
      && p == RegionCount * f.flows[p].from + f.flows[p].to
      && f.flows[p].count == Get(agg.moved, MoveKey(y, d, f.flows[p].from, f.flows[p].to))
  {
    Frame(
      seq(RegionCount, r => Get(agg.observed, ObsKey(y, d, r))),
      0,
      1000,
      seq(RegionCount * RegionCount, p =>
        var i, j := p / RegionCount, p % RegionCount;
        Flow(i, j, Get(agg.moved, MoveKey(y, d, i, j)))))
  }

  /** The counts of one (y, d): the day's list, or nothing for a day that
      has no record. */
  function DayCounts(obs: Observations, y: int, d: int): (counts: seq<int>)
    requires ObservationsInGrid(obs)
    ensures |counts| <= CellCount
  {
    if y in obs && 0 <= d < |obs[y]| then obs[y][d] else []
  }

  lemma {:induction false} SumOfRegionTotals(cells: CellTable, s: seq<int>, counts: seq<int>, n: nat)
    requires n <= |s| && |counts| <= CellCount
    requires forall r :: 0 <= r < n ==> s[r] == RegionTotal(cells, counts, r)
    ensures Sum(s[..n]) == RegionsTotal(cells, counts, n)
  {
    if n > 0 {
      assert s[..n][..n - 1] == s[..n - 1];
      SumOfRegionTotals(cells, s, counts, n - 1);
    }
  }

  /** The observation list of a frame gives each region its day total, and
      its entries add up to the day's total count (0 for a day with no
      record). */
  lemma DataObservations(cells: CellTable, agg: Aggregates, obs: Observations, moves: Moves, y: int, d: int)
    requires ObservationsInGrid(obs) && MovesInGrid(moves) && Accurate(cells, agg, obs, moves)
    ensures forall r :: 0 <= r < RegionCount ==>
              Data(agg, y, d).observations[r] == RegionTotal(cells, DayCounts(obs, y, d), r)
    ensures Sum(Data(agg, y, d).observations) == Sum(DayCounts(obs, y, d))
  {
    var f := Data(agg, y, d);
    var counts := DayCounts(obs, y, d);
    forall r | 0 <= r < RegionCount
      ensures f.observations[r] == RegionTotal(cells, counts, r)
    {
      assert Get(agg.observed, ObsKey(y, d, r)) == ObsExpected(cells, obs, ObsKey(y, d, r));
      if !(y in obs && 0 <= d < |obs[y]|) {
        RegionTotalEmpty(cells, r);
      }
    }
    SumOfRegionTotals(cells, f.observations, counts, RegionCount as nat);
    assert f.observations[..RegionCount] == f.observations;
    ObservationConservation(cells, counts);
  }

  lemma RegionTotalEmpty(cells: CellTable, r: int)
    ensures RegionTotal(cells, [], r) == 0
  {
  }

  /** Each flow of a frame holds the folded total for its region pair, and
      pairs listed in descending order (from > to) always read 0. */
  lemma DataFlows(cells: CellTable, agg: Aggregates, obs: Observations, moves: Moves, y: int, d: int)
    requires ObservationsInGrid(obs) && MovesInGrid(moves) && Accurate(cells, agg, obs, moves)
    ensures forall p :: 0 <= p < |Data(agg, y, d).flows| ==>
              var fl := Data(agg, y, d).flows[p];
              && fl.count == MoveTotal(cells, moves, moves.Keys, MoveKey(y, d, fl.from, fl.to))
              && (fl.from > fl.to ==> fl.count == 0)
  {
  }

  /** Antisymmetry on the move Counter: exchanging the endpoints of every
      record negates every entry between two different regions and keeps
      every same-region entry. */
  lemma CounterReversed(cells: CellTable, a: Counter<MoveKey>, b: Counter<MoveKey>, moves: Moves)
    requires MovesInGrid(moves)
    requires forall t :: Get(a, t) == MoveTotal(cells, moves, moves.Keys, t)
    requires forall t :: Get(b, t) == MoveTotal(cells, ReverseAll(moves), ReverseAll(moves).Keys, t)
    ensures forall t :: Get(b, t) == if t.from == t.to then Get(a, t) else -Get(a, t)
  {
    forall t
      ensures Get(b, t) == if t.from == t.to then Get(a, t) else -Get(a, t)
    {
      ReverseTotal(cells, moves, moves.Keys, t);
    }
  }

  /** Antisymmetry on frames: if every record has its endpoints exchanged,
      every flow between two different regions changes sign and every
      same-region flow stays as it is. */
  lemma DataReversed(cells: CellTable, agg: Aggregates, rev: Aggregates, moves: Moves, y: int, d: int)
    requires MovesInGrid(moves)
    requires forall t :: Get(agg.moved, t) == MoveTotal(cells, moves, moves.Keys, t)
    requires forall t :: Get(rev.moved, t) == MoveTotal(cells, ReverseAll(moves), ReverseAll(moves).Keys, t)
    ensures forall p :: 0 <= p < |Data(agg, y, d).flows| ==>
              var fl, rl := Data(agg, y, d).flows[p], Data(rev, y, d).flows[p];
              rl.count == if fl.from == fl.to then fl.count else -fl.count
  {
    var f, g := Data(agg, y, d), Data(rev, y, d);
    CounterReversed(cells, agg.moved, rev.moved, moves);
    forall p | 0 <= p < |f.flows|
      ensures g.flows[p].count == if f.flows[p].from == f.flows[p].to then f.flows[p].count else -f.flows[p].count
    {
      assert g.flows[p].from == f.flows[p].from && g.flows[p].to == f.flows[p].to;
    }
  }

  // ---------------------------------------------------------------------
  // Worked examples on the grid's own table
  // ---------------------------------------------------------------------

  /** A day whose only birds are 5 in cell 3 (region 1) puts 5 in region 1
      and 0 everywhere else. */
  lemma SingleObservationExample(r: int)
    ensures RegionTotal(GridTable(), [0, 0, 0, 5], r) == if r == 1 then 5 else 0
  {
    var cells := GridTable();
    assert cells[0] == 0 && cells[1] == 0 && cells[2] == 0 && cells[3] == 1;
    assert [0, 0, 0, 5][..3] == [0, 0, 0] && [0, 0, 0][..2] == [0, 0] && [0, 0][..1] == [0];
    assert RegionTotal(cells, [0], r) == 0;
    assert RegionTotal(cells, [0, 0], r) == 0;
    assert RegionTotal(cells, [0, 0, 0], r) == 0;
  }

  /** 7 birds from cell 5 (region 2) to cell 30 (region 4) are stored as
      +7 under (2, 4); the same record the other way round as -7 under (2, 4). */
  lemma MoveRecordExample(y: int, d: int)
    ensures CanonicalKey(GridTable(), MoveKey(y, d, 5, 30)) == MoveKey(y, d, 2, 4)
    ensures Contribution(GridTable(), MoveKey(y, d, 5, 30), 7, MoveKey(y, d, 2, 4)) == 7
    ensures CanonicalKey(GridTable(), MoveKey(y, d, 30, 5)) == MoveKey(y, d, 2, 4)
    ensures Contribution(GridTable(), MoveKey(y, d, 30, 5), 7, MoveKey(y, d, 2, 4)) == -7
  {
  }
}
