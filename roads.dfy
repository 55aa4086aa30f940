/** Roads and intersections of the road network, and the per-road
    bookkeeping shared by every strategy of the polygon builder: which way a
    road faces an intersection, how wide its two lane bands are, its two
    offset borders, and how its centerline is cut back at one end. */
module Roads {
  import opened Geom

  type RoadId = nat
  type IntersectionId = nat

  /** A road record. `centerPts` always runs from `srcI` to `dstI`. */
  datatype Road = Road(
    srcI: IntersectionId,
    dstI: IntersectionId,
    centerPts: PolyLine,
    lanesFwd: nat,
    lanesBack: nat
  )

  /** An intersection and its incident road ids, in incidence order. */
  datatype Intersection = Intersection(id: IntersectionId, roads: seq<RoadId>)

  /** Why the builder panics. */
  datatype Panic =
    | NotIncident(road: RoadId, at: IntersectionId)
    | ShiftFailed(road: RoadId)
    | PerpendicularMissed(road: RoadId)
    | EmptyPolygon

  datatype Result<T> = Ok(value: T) | Err(panic: Panic)

  /** DEGENERATE_INTERSECTION_HALF_LENGTH, in meters. */
  const HALF_LENGTH: real := 5.0

  function FwdWidth(g: Geometry, road: Road): real
  {
    g.laneThickness * road.lanesFwd as real
  }

  function BackWidth(g: Geometry, road: Road): real
  {
    g.laneThickness * road.lanesBack as real
  }

  /** A centerline oriented to end at an intersection, with the widths of the
      lane band on its normal side and on its reverse side. */
  datatype Orientation = Orientation(line: PolyLine, widthNormal: real, widthReverse: real)

  /** Orient a road toward intersection `i`; `None` when neither end is at `i`. */
  function Orient(g: Geometry, road: Road, i: IntersectionId): (r: Option<Orientation>)
    ensures r.Some? <==> road.srcI == i || road.dstI == i
    ensures r.Some? ==> LastPt(r.value.line) == (if road.srcI == i then FirstPt(road.centerPts) else LastPt(road.centerPts))
    ensures r.Some? ==> FirstPt(r.value.line) == (if road.srcI == i then LastPt(road.centerPts) else FirstPt(road.centerPts))
    ensures road.srcI == i ==>
              r.value.line == Reversed(road.centerPts) && r.value.widthNormal == BackWidth(g, road) && r.value.widthReverse == FwdWidth(g, road)
    ensures road.srcI != i && road.dstI == i ==>
              r.value.line == road.centerPts && r.value.widthNormal == FwdWidth(g, road) && r.value.widthReverse == BackWidth(g, road)
    ensures g.laneThickness >= 0.0 && r.Some? ==> r.value.widthNormal >= 0.0 && r.value.widthReverse >= 0.0
  {
    if road.srcI == i then
      Some(Orientation(Reversed(road.centerPts), BackWidth(g, road), FwdWidth(g, road)))
    else if road.dstI == i then
      Some(Orientation(road.centerPts, FwdWidth(g, road), BackWidth(g, road)))
    else
      None
  }

  /** The two offset borders of a line that ends at an intersection: the line
      shifted by `widthNormal`, and the reversed line shifted by `widthReverse`
      and reversed back, so that both end at the intersection. */
  function OffsetBorders(g: Geometry, line: PolyLine, widthNormal: real, widthReverse: real): (r: Option<(PolyLine, PolyLine)>)
    ensures r.Some? <==> g.shift(line, widthNormal).Some? && g.shift(Reversed(line), widthReverse).Some?
    ensures r.Some? ==> r.value.0 == g.shift(line, widthNormal).value
    ensures r.Some? ==> Reversed(r.value.1) == g.shift(Reversed(line), widthReverse).value
  {
    match g.shift(line, widthNormal)
    case None => None
    case Some(normal) =>
      match g.shift(Reversed(line), widthReverse)
      case None => None
      case Some(rev) =>
        ReversedTwice(rev);
        Some((normal, Reversed(rev)))
  }

  /** Cut `amount` meters off the end of the road's centerline that lies at
      intersection `i`: the front when the road starts at `i`, the back otherwise. */
  function TrimAtIntersection(g: Geometry, road: Road, i: IntersectionId, amount: real): (r: Road)
    ensures r.srcI == road.srcI && r.dstI == road.dstI
    ensures r.lanesFwd == road.lanesFwd && r.lanesBack == road.lanesBack
    ensures road.srcI == i ==> r.centerPts == g.slice(road.centerPts, amount, g.length(road.centerPts))
    ensures road.srcI != i ==> r.centerPts == g.slice(road.centerPts, 0.0, g.length(road.centerPts) - amount)
    ensures SliceHasLength(g) && 0.0 <= amount <= g.length(road.centerPts) ==>
              g.length(r.centerPts) == g.length(road.centerPts) - amount
  {
    var len := g.length(road.centerPts);
    if road.srcI == i then
      road.(centerPts := g.slice(road.centerPts, amount, len))
    else
      road.(centerPts := g.slice(road.centerPts, 0.0, len - amount))
  }
}
