/** The intersection polygon builder: turn every incident road into its two
    borders, sort them by angle, and pick the polygon's boundary points by
    the number of roads (a dead end, a two-road joint, or the general corner
    solver with its pairwise fallback); then close the ring. Road
    centerlines are trimmed in place on the way. */
module Intersections {
  import opened Geom
  import opened Roads
  import opened Borders
  import opened VecDedup
  import opened SolverLoop
  import opened CornerSolver
  import opened Degenerate
  import opened Fallback

  /** What building one intersection's polygon ends in: the closed ring, or a panic. */
  datatype Outcome = Polygon(pts: seq<Pt2D>) | Panicked(reason: Panic)

  predicate RoadsInRange(i: Intersection, n: nat)
  {
    forall k :: 0 <= k < |i.roads| ==> i.roads[k] < n
  }

  /** The incident roads' approaches in angular order, or the panic of the
      first road that cannot be turned into one. */
  function SortedLines(g: Geometry, rs: seq<Road>, i: Intersection): (r: Result<seq<Approach>>)
    requires RoadsInRange(i, |rs|)
    ensures r.Ok? <==> forall k :: 0 <= k < |i.roads| ==> BuildApproach(g, rs, i.id, i.roads[k]).Ok?
    ensures r.Ok? ==> |r.value| == |i.roads| && SortedByKey(g, r.value)
    ensures r.Ok? ==> forall k :: 0 <= k < |r.value| ==> r.value[k].id in i.roads
    ensures r.Ok? ==> IdsIn(r.value, |rs|)
    ensures r.Ok? ==> BuildLines(g, rs, i.id, i.roads).Ok? && r.value == SortByAngle(g, BuildLines(g, rs, i.id, i.roads).value)
  {
    match BuildLines(g, rs, i.id, i.roads)
    case Err(p) => Err(p)
    case Ok(built) =>
      SortByAngleMembers(g, built);
      var lines := SortByAngle(g, built);
      assert forall k :: 0 <= k < |lines| ==> lines[k].id in i.roads by {
        forall k | 0 <= k < |lines| ensures lines[k].id in i.roads {
          var m :| 0 <= m < |built| && built[m] == lines[k];
          assert built[m].id == i.roads[m];
        }
      }
      Ok(lines)
  }

  /** The open boundary and the new road records, by the number of roads:
      one road is a dead end, two roads a joint, more go to the corner
      solver, falling back to the pairwise construction when it gives up. */
  function Endpoints(g: Geometry, rs: seq<Road>, i: IntersectionId, lines: seq<Approach>): Result<(seq<Pt2D>, seq<Road>)>
    requires IdsIn(lines, |rs|)
  {
    if |lines| == 1 then
      var a := lines[0];
      var rs' := if DeadEndWalks(g, a) then rs[a.id := TrimAtIntersection(g, rs[a.id], i, 2.0 * HALF_LENGTH)] else rs;
      Ok((DeadEndPoints(g, a), rs'))
    else if |lines| == 2 then
      var rs' := if LongEnough(g, lines[0], lines[1])
                 then TrimEach(g, rs, [lines[0].id, lines[1].id], i, HALF_LENGTH) else rs;
      Ok((DegreeTwoPoints(g, lines[0], lines[1]), rs'))
    else
      match SolvePrefix(g, rs, i, lines, |lines|)
      case Solving(pts, rs') => Ok((Dedup(pts), rs'))
      case GaveUp(_, rs') => Ok((FallbackPoints(g, lines, |lines|), rs'))
      case Stopped(p) => Err(p)
  }

  /** No roads give no points; any road gives at least one; only the corner
      solver panics; and only the roads in `lines` change. */
  lemma EndpointsShape(g: Geometry, rs: seq<Road>, i: IntersectionId, lines: seq<Approach>)
    requires IdsIn(lines, |rs|)
    ensures var r := Endpoints(g, rs, i, lines);
            && (|lines| == 0 ==> r == Ok(([], rs)))
            && (r.Ok? ==> |r.value.1| == |rs|)
            && (r.Ok? && |lines| > 0 ==> 0 < |r.value.0| <= 4 * |lines|)
            && (|lines| == 1 ==> r.Ok? && (|r.value.0| == 2 || |r.value.0| == 4))
            && (r.Err? ==> |lines| >= 3)
            && (r.Ok? ==> forall x :: 0 <= x < |rs| && (forall j :: 0 <= j < |lines| ==> lines[j].id != x) ==> r.value.1[x] == rs[x])
  {
    if |lines| >= 3 {
      var s := SolvePrefix(g, rs, i, lines, |lines|);
      if s.Solving? {
        SolvedPointCount(g, rs, i, lines);
      }
      forall x | 0 <= x < |rs| && (forall j :: 0 <= j < |lines| ==> lines[j].id != x)
        ensures !s.Stopped? ==> s.roads[x] == rs[x]
      {
        FoldTouchesOnlyLines(StepOf(g, i, lines), rs, lines, |lines|, x);
      }
    }
  }

  /** `initial_intersection_polygon` as a value: the closed ring and the new
      road records, or the panic the source raises. */
  function IntersectionPolygon(g: Geometry, i: Intersection, rs: seq<Road>): (r: Result<(seq<Pt2D>, seq<Road>)>)
    requires RoadsInRange(i, |rs|)
    ensures r.Ok? ==> 2 <= |r.value.0| && r.value.0[0] == r.value.0[|r.value.0| - 1]
  {
    match SortedLines(g, rs, i)
    case Err(p) => Err(p)
    case Ok(lines) =>
      match Endpoints(g, rs, i.id, lines)
      case Err(p) => Err(p)
      case Ok((pts, rs')) => if |pts| == 0 then Err(EmptyPolygon) else Ok((pts + [pts[0]], rs'))
  }

  /** The corner solver panics only on one of the roads it solves. */
  lemma SolverPanicNamesRoad(g: Geometry, rs: seq<Road>, i: IntersectionId, lines: seq<Approach>)
    requires IdsIn(lines, |rs|)
    requires Endpoints(g, rs, i, lines).Err?
    ensures |lines| >= 3
    ensures exists j :: 0 <= j < |lines| &&
              (Endpoints(g, rs, i, lines).panic == PerpendicularMissed(lines[j].id)
               || Endpoints(g, rs, i, lines).panic == ShiftFailed(lines[j].id))
  {
    var p := Endpoints(g, rs, i, lines).panic;
    var step := StepOf(g, i, lines);
    assert SolvePrefix(g, rs, i, lines, |lines|) == Stopped(p);
    FoldStopsOnFailure(step, rs, lines, |lines|);
    var j: nat, road: Road :| j < |lines| && step(road, j) == Failed(p);
    CornerStepPanics(g, road, i, lines, j);
  }

  /** Why the builder panics: a road that does not end at the intersection or
      whose border cannot be offset, a perpendicular of the corner solver that
      misses its road, always naming an incident road; or an intersection
      with no roads at all, which always panics on the empty ring. */
  lemma PanicReasons(g: Geometry, i: Intersection, rs: seq<Road>)
    requires RoadsInRange(i, |rs|)
    ensures |i.roads| == 0 ==> IntersectionPolygon(g, i, rs) == Err(EmptyPolygon)
    ensures var r := IntersectionPolygon(g, i, rs);
            r.Err? ==>
              match r.panic
              case NotIncident(x, at) => x in i.roads && at == i.id
              case ShiftFailed(x) => x in i.roads
              case PerpendicularMissed(x) => x in i.roads && |i.roads| >= 3
              case EmptyPolygon => |i.roads| == 0
  {
    var r := IntersectionPolygon(g, i, rs);
    var built := BuildLines(g, rs, i.id, i.roads);
    if built.Err? {
      BuildLinesFailure(g, rs, i.id, i.roads);
      var k :| 0 <= k < |i.roads| && BuildApproach(g, rs, i.id, i.roads[k]) == Err(built.panic);
      assert r == Err(built.panic);
    } else {
      var lines := SortedLines(g, rs, i).value;
      EndpointsShape(g, rs, i.id, lines);
      var e := Endpoints(g, rs, i.id, lines);
      if e.Err? {
        SolverPanicNamesRoad(g, rs, i.id, lines);
      }
    }
  }

  /** Only roads incident to the intersection change, and the road table
      keeps its size. */
  lemma OnlyIncidentRoadsChange(g: Geometry, i: Intersection, rs: seq<Road>)
    requires RoadsInRange(i, |rs|)
    ensures var r := IntersectionPolygon(g, i, rs);
            r.Ok? ==> |r.value.1| == |rs| && forall x :: 0 <= x < |rs| && x !in i.roads ==> r.value.1[x] == rs[x]
  {
    var sorted := SortedLines(g, rs, i);
    if sorted.Ok? {
      EndpointsShape(g, rs, i.id, sorted.value);
    }
  }

  /** The closed ring has between two and 4n + 1 points for n roads; a dead
      end's ring has three or five. */
  lemma RingSize(g: Geometry, i: Intersection, rs: seq<Road>)
    requires RoadsInRange(i, |rs|)
    ensures var r := IntersectionPolygon(g, i, rs);
            r.Ok? ==> && 2 <= |r.value.0| <= 4 * |i.roads| + 1
                      && (|i.roads| == 1 ==> |r.value.0| == 3 || |r.value.0| == 5)
  {
    var sorted := SortedLines(g, rs, i);
    if sorted.Ok? {
      EndpointsShape(g, rs, i.id, sorted.value);
    }
  }

  /** The branch on the number of roads: the open boundary, with the roads
      trimmed in place. */
  method CollectEndpoints(roads: array<Road>, i: IntersectionId, lines: seq<Approach>, g: Geometry)
    returns (r: Result<seq<Pt2D>>)
    requires IdsIn(lines, roads.Length)
    modifies roads
    ensures match Endpoints(g, old(roads[..]), i, lines)
            case Ok((pts, rs)) => r == Ok(pts) && roads[..] == rs
            case Err(p) => r == Err(p)
  {
    ghost var before := roads[..];
    if |lines| == 1 {
      assert before[lines[0].id] == roads[lines[0].id];
      var pts := DeadEnd(roads, i, lines[0], g);
      return Ok(pts);
    } else if |lines| == 2 {
      var pts := DegreeTwo(roads, i, lines[0], lines[1], g);
      return Ok(pts);
    }
    var solved := MakeNewPolygon(roads, i, lines, g);
    match solved
    case Solved(pts) =>
      return Ok(pts);
    case SolverPanicked(p) =>
      return Err(p);
    case NoPolygon =>
      var pts := FallbackPolygon(lines, g);
      return Ok(pts);
  }

  /** `initial_intersection_polygon`: builds the polygon of intersection `i`,
      trimming the incident roads' centerlines in `roads` as it goes. */
  method InitialIntersectionPolygon(i: Intersection, roads: array<Road>, g: Geometry) returns (out: Outcome)
    requires RoadsInRange(i, roads.Length)
    modifies roads
    ensures match IntersectionPolygon(g, i, old(roads[..]))
            case Ok((pts, rs)) => out == Polygon(pts) && roads[..] == rs
            case Err(p) => out == Panicked(p)
  {
    var built := BuildLines(g, roads[..], i.id, i.roads);
    if built.Err? {
      return Panicked(built.panic);
    }
    var lines := SortByAngle(g, built.value);
    assert SortedLines(g, roads[..], i) == Ok(lines);

    var collected := CollectEndpoints(roads, i.id, lines, g);
    if collected.Err? {
      return Panicked(collected.panic);
    }
    var endpoints := collected.value;
    if |endpoints| == 0 {
      return Panicked(EmptyPolygon);
    }
    // repeat the first point to close the ring
    endpoints := endpoints + [endpoints[0]];
    return Polygon(endpoints);
  }
}
