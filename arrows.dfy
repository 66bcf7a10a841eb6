/** Arrow selection in plot_map: which region-pair flows of a frame get an
    arrow, at which anchor, and with which signed count. The drawing that
    follows (arrow lengths from log1p, the quiver call) is not modelled. */
module Arrows {
  import opened Regions
  import opened Aggregate

  datatype Option<T> = None | Some(value: T)

  /** One entry of the arrow list: the anchor's longitude, latitude and
      angle, and the signed number of birds along that angle. */
  datatype Arrow = Arrow(lon: int, lat: int, angle: int, count: int)

  /** The pair of regions (i, j) in ascending order. */
  function Ordered(i: int, j: int): (p: (int, int))
    ensures p.0 <= p.1 && {p.0, p.1} == {i, j}
  {
    if i <= j then (i, j) else (j, i)
  }

  /** One iteration of the selection loop: no arrow for a zero count; the
      forward anchor with the count as it is; else the reversed anchor with
      the count negated; else nothing. */
  function ArrowFor(f: Flow): (a: Option<Arrow>)
    ensures a.Some? <==> f.count != 0 && ((f.from, f.to) in Vectors || (f.to, f.from) in Vectors)
    ensures a.Some? ==> a.value.count != 0 && Anchor(a.value.lon, a.value.lat, a.value.angle) in Vectors.Values
  {
    if f.count == 0 then None
    else if (f.from, f.to) in Vectors then
      var v := Vectors[(f.from, f.to)];
      Some(Arrow(v.lon, v.lat, v.angle, f.count))
    else if (f.to, f.from) in Vectors then
      var v := Vectors[(f.to, f.from)];
      Some(Arrow(v.lon, v.lat, v.angle, -f.count))
    else None
  }

  /** Since every anchor is registered under its lower region first, the
      forward/reversed double lookup is one lookup of the ordered pair: the
      arrow's count is the flow seen from the lower region to the higher,
      and a flow within one region never gets an arrow. */
  lemma ArrowOrientation(f: Flow)
    ensures ArrowFor(f).Some? <==> f.count != 0 && f.from != f.to && Ordered(f.from, f.to) in Vectors
    ensures ArrowFor(f).Some? ==>
      && Anchor(ArrowFor(f).value.lon, ArrowFor(f).value.lat, ArrowFor(f).value.angle) == Vectors[Ordered(f.from, f.to)]
      && ArrowFor(f).value.count == (if f.from < f.to then f.count else -f.count)
  {
    VectorKeysOrdered();
  }

  /** The arrows of a flow list, in the order of the flows. */
  function Selected(flows: seq<Flow>): (xs: seq<Arrow>)
    ensures |xs| <= |flows|
    ensures forall a :: a in xs ==> a.count != 0 && Anchor(a.lon, a.lat, a.angle) in Vectors.Values
  {
    if flows == [] then []
    else
      var rest := Selected(flows[..|flows| - 1]);
      match ArrowFor(flows[|flows| - 1])
      case Some(a) => rest + [a]
      case None => rest
  }

  /** The selection loop of plot_map, appending to xs flow by flow. */
  method SelectArrows(flows: seq<Flow>) returns (xs: seq<Arrow>)
    ensures xs == Selected(flows)
  {
    xs := [];
    for i := 0 to |flows|
      invariant xs == Selected(flows[..i])
    {
      assert flows[..i + 1][..i] == flows[..i];
      var f := flows[i];
      if f.count == 0 {
        continue;
      }
      if (f.from, f.to) in Vectors {
        var v := Vectors[(f.from, f.to)];
        xs := xs + [Arrow(v.lon, v.lat, v.angle, f.count)];
      } else if (f.to, f.from) in Vectors {
        var v := Vectors[(f.to, f.from)];
        xs := xs + [Arrow(v.lon, v.lat, v.angle, -f.count)];
      }
    }
    assert flows[..|flows|] == flows;
  }

  /** Number of flows that get an arrow: a non-zero count between two
      regions that have an anchor, in either orientation. */
  function Drawable(flows: seq<Flow>): nat {
    if flows == [] then 0
    else
      var f := flows[|flows| - 1];
      Drawable(flows[..|flows| - 1]) + (if f.count != 0 && ((f.from, f.to) in Vectors || (f.to, f.from) in Vectors) then 1 else 0)
  }

  /** One arrow per drawable flow, and none for any other flow. */
  lemma {:induction false} SelectedCount(flows: seq<Flow>)
    ensures |Selected(flows)| == Drawable(flows)
  {
    if flows != [] {
      SelectedCount(flows[..|flows| - 1]);
    }
  }

  /** Every arrow in the list is the arrow of one of the flows. */
  lemma {:induction false} SelectedFromFlows(flows: seq<Flow>, k: nat)
    requires k < |Selected(flows)|
    ensures exists p :: 0 <= p < |flows| && ArrowFor(flows[p]) == Some(Selected(flows)[k])
  {
    var last := |flows| - 1;
    var rest := Selected(flows[..last]);
    if k < |rest| {
      SelectedFromFlows(flows[..last], k);
      var p :| 0 <= p < last && ArrowFor(flows[..last][p]) == Some(rest[k]);
      assert flows[p] == flows[..last][p];
    } else {
      assert ArrowFor(flows[last]) == Some(Selected(flows)[k]);
    }
  }

  /** On a frame read back from the Counters, the reversed-anchor branch
      never produces an arrow: every arrow comes from a flow listed in
      ascending region order, with its count unchanged. */
  lemma FrameArrowsForward(cells: CellTable, agg: Aggregates, obs: Observations, moves: Moves, y: int, d: int)
    requires ObservationsInGrid(obs) && MovesInGrid(moves) && Accurate(cells, agg, obs, moves)
    ensures forall p :: 0 <= p < |Data(agg, y, d).flows| && ArrowFor(Data(agg, y, d).flows[p]).Some? ==>
              && Data(agg, y, d).flows[p].from < Data(agg, y, d).flows[p].to
              && ArrowFor(Data(agg, y, d).flows[p]).value.count == Data(agg, y, d).flows[p].count
  {
    DataFlows(cells, agg, obs, moves, y, d);
    forall p | 0 <= p < |Data(agg, y, d).flows|
      ensures ArrowFor(Data(agg, y, d).flows[p]).Some? ==>
                && Data(agg, y, d).flows[p].from < Data(agg, y, d).flows[p].to
                && ArrowFor(Data(agg, y, d).flows[p]).value.count == Data(agg, y, d).flows[p].count
    {
      ArrowOrientation(Data(agg, y, d).flows[p]);
    }
  }
}
