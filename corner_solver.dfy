/** The general corner solver for three or more incident roads. For each
    road in angular order it looks for the corner its normal border makes
    with the previous road's reverse border and the corner its reverse border
    makes with the next road's normal border, trims the road's centerline to
    the shorter of the resulting candidates, writes the trimmed centerline
    back into the road, and emits the corners and the new border ends. It
    gives up at the first road with no corner at all, keeping the trims
    already written. */
module CornerSolver {
  import opened Geom
  import opened Roads
  import opened Borders
  import opened Wraparound
  import opened VecDedup
  import opened SolverLoop

  /** What one corner attempt yields. */
  datatype Candidate =
    | NoHit                                // the two borders do not meet
    | Hit(corner: Pt2D, trimmed: PolyLine) // they meet; the centerline trimmed where the corner's perpendicular crosses it
    | PerpendicularMisses                  // they meet, but the perpendicular misses the centerline: the `unwrap` panics

  /** The line from `hit` one unit along the corner angle turned by 90 degrees. */
  function Perpendicular(g: Geometry, hit: Pt2D, angle: Angle): Line
  {
    Line(hit, g.projectAway(hit, 1.0, g.rotateDegs(angle, 90.0)))
  }

  /** Intersect `border` with `adjBorder`; at a corner, trim `center` (which
      ends at the intersection) to where the corner's perpendicular meets it. */
  function CornerCandidate(g: Geometry, border: PolyLine, adjBorder: PolyLine, center: PolyLine): Candidate
  {
    match g.intersection(border, adjBorder)
    case None => NoHit
    case Some((hit, angle)) =>
      match g.intersectionInfiniteLine(center, Perpendicular(g, hit, angle))
      case None => PerpendicularMisses
      case Some(trimTo) => Hit(hit, g.trimToPt(center, trimTo))
  }

  function TrimOf(c: Candidate): Option<PolyLine>
  {
    if c.Hit? then Some(c.trimmed) else None
  }

  /** Of the trim candidates that exist, the one of least length; on a tie the
      forward candidate wins. */
  function ChooseShorter(g: Geometry, c1: Option<PolyLine>, c2: Option<PolyLine>): (r: Option<PolyLine>)
    ensures r.None? <==> c1.None? && c2.None?
    ensures r.Some? ==> r == c1 || r == c2
    ensures r.Some? && c1.Some? ==> g.length(r.value) <= g.length(c1.value)
    ensures r.Some? && c2.Some? ==> g.length(r.value) <= g.length(c2.value)
    ensures c1.Some? && c2.Some? && g.length(c1.value) == g.length(c2.value) ==> r == c1
  {
    match (c1, c2)
    case (Some(l1), Some(l2)) => if g.length(l1) <= g.length(l2) then c1 else c2
    case (Some(_), None) => c1
    case (None, Some(_)) => c2
    case (None, None) => None
  }

  /** The road's centerline oriented to end at intersection `i`. */
  function RoadCenter(road: Road, i: IntersectionId): PolyLine
  {
    if road.dstI == i then road.centerPts else Reversed(road.centerPts)
  }

  /** The forward corner of road `idx`: its normal border against the previous road's reverse border. */
  function FwdCandidate(g: Geometry, road: Road, i: IntersectionId, lines: seq<Approach>, idx: int): Candidate
    requires 0 <= idx < |lines|
  {
    CornerCandidate(g, WraparoundGet(lines, idx).normal, WraparoundGet(lines, idx - 1).reverse, RoadCenter(road, i))
  }

  /** The backward corner of road `idx`: its reverse border against the next road's normal border. */
  function BackCandidate(g: Geometry, road: Road, i: IntersectionId, lines: seq<Approach>, idx: int): Candidate
    requires 0 <= idx < |lines|
  {
    CornerCandidate(g, WraparoundGet(lines, idx).reverse, WraparoundGet(lines, idx + 1).normal, RoadCenter(road, i))
  }

  /** Solve road `idx` (whose current record is `road`). On success `center` is
      the chosen trimmed centerline ending at `i`, `stored` is what is written
      back into the road, and `pts` are the points it contributes. */
  function CornerStep(g: Geometry, road: Road, i: IntersectionId, lines: seq<Approach>, idx: int): Step
    requires 0 <= idx < |lines|
  {
    var a := WraparoundGet(lines, idx);
    var fwd := FwdCandidate(g, road, i, lines, idx);
    if fwd.PerpendicularMisses? then Failed(PerpendicularMissed(a.id)) else
    var back := BackCandidate(g, road, i, lines, idx);
    if back.PerpendicularMisses? then Failed(PerpendicularMissed(a.id)) else
    match ChooseShorter(g, TrimOf(fwd), TrimOf(back))
    case None => NoCorner
    case Some(shorter) =>
      var stored := if road.srcI == i then Reversed(shorter) else shorter;
      var widthNormal := if road.srcI == i then BackWidth(g, road) else FwdWidth(g, road);
      var widthReverse := if road.srcI == i then FwdWidth(g, road) else BackWidth(g, road);
      match OffsetBorders(g, shorter, widthNormal, widthReverse)
      case None => Failed(ShiftFailed(a.id))
      case Some((plNormal, plReverse)) =>
        var withFwd: seq<Pt2D> := if fwd.Hit? then [fwd.corner] else [];
        var withEnds := withFwd + [LastPt(plNormal)] + [LastPt(plReverse)];
        var pts := if back.Hit? then withEnds + [back.corner] else withEnds;
        Trimmed(shorter, stored, pts)
  }

  /** One road's step gives up exactly when neither corner exists, and
      panics when a corner's perpendicular misses the centerline. */
  lemma CornerStepOutcome(g: Geometry, road: Road, i: IntersectionId, lines: seq<Approach>, idx: int)
    requires 0 <= idx < |lines|
    ensures var r := CornerStep(g, road, i, lines, idx);
            var fwd := FwdCandidate(g, road, i, lines, idx);
            var back := BackCandidate(g, road, i, lines, idx);
            && (r.NoCorner? <==> fwd.NoHit? && back.NoHit?)
            && (fwd.PerpendicularMisses? || back.PerpendicularMisses? ==> r.Failed?)
  {
  }

  /** A step panics only on its own road: a perpendicular that misses the
      centerline, or a border shift of the trimmed centerline that fails. */
  lemma CornerStepPanics(g: Geometry, road: Road, i: IntersectionId, lines: seq<Approach>, idx: int)
    requires 0 <= idx < |lines|
    ensures var r := CornerStep(g, road, i, lines, idx);
            r.Failed? ==> r.panic == PerpendicularMissed(lines[idx].id) || r.panic == ShiftFailed(lines[idx].id)
  {
  }

  /** A solved road emits two to four points: the forward corner first and
      the backward corner last, when they exist, around the two new border ends. */
  lemma CornerStepPoints(g: Geometry, road: Road, i: IntersectionId, lines: seq<Approach>, idx: int)
    requires 0 <= idx < |lines|
    ensures var r := CornerStep(g, road, i, lines, idx);
            var fwd := FwdCandidate(g, road, i, lines, idx);
            var back := BackCandidate(g, road, i, lines, idx);
            r.Trimmed? ==>
              && 2 <= |r.pts| <= 4
              && |r.pts| == 2 + (if fwd.Hit? then 1 else 0) + (if back.Hit? then 1 else 0)
              && (fwd.Hit? ==> r.pts[0] == fwd.corner)
              && (back.Hit? ==> r.pts[|r.pts| - 1] == back.corner)
  {
  }

  /** Pushing two points and then an optional third one builds the same list
      as appending the pair and the option. */
  lemma PushesInOrder(head: seq<Pt2D>, a: Pt2D, b: Pt2D, tail: seq<Pt2D>)
    ensures (if tail == [] then head + [a] + [b] else head + [a] + [b] + tail) == head + [a, b] + tail
  {
    assert head + [a] + [b] == head + [a, b];
  }

  /** The points of a solved road, in the order they are pushed: the forward
      corner if there is one, the ends of the normal and reverse borders of
      the trimmed centerline (offset by the road's lane bands as seen from
      the intersection), and the backward corner if there is one. */
  lemma CornerStepPointSequence(g: Geometry, road: Road, i: IntersectionId, lines: seq<Approach>, idx: int)
    requires 0 <= idx < |lines|
    ensures var r := CornerStep(g, road, i, lines, idx);
            r.Trimmed? ==>
              var fwd := FwdCandidate(g, road, i, lines, idx);
              var back := BackCandidate(g, road, i, lines, idx);
              var widthNormal := if road.srcI == i then BackWidth(g, road) else FwdWidth(g, road);
              var widthReverse := if road.srcI == i then FwdWidth(g, road) else BackWidth(g, road);
              var borders := OffsetBorders(g, r.center, widthNormal, widthReverse);
              && borders.Some?
              && r.pts == (if fwd.Hit? then [fwd.corner] else [])
                          + [LastPt(borders.value.0), LastPt(borders.value.1)]
                          + (if back.Hit? then [back.corner] else [])
  {
    var r := CornerStep(g, road, i, lines, idx);
    if r.Trimmed? {
      var fwd := FwdCandidate(g, road, i, lines, idx);
      var back := BackCandidate(g, road, i, lines, idx);
      assert !fwd.PerpendicularMisses? && !back.PerpendicularMisses?;
      var shorter := ChooseShorter(g, TrimOf(fwd), TrimOf(back));
      assert shorter == Some(r.center);
      var widthNormal := if road.srcI == i then BackWidth(g, road) else FwdWidth(g, road);
      var widthReverse := if road.srcI == i then FwdWidth(g, road) else BackWidth(g, road);
      var borders := OffsetBorders(g, r.center, widthNormal, widthReverse);
      assert borders.Some?;
      var plNormal := borders.value.0;
      var plReverse := borders.value.1;
      var withFwd: seq<Pt2D> := if fwd.Hit? then [fwd.corner] else [];
      var withEnds := withFwd + [LastPt(plNormal)] + [LastPt(plReverse)];
      assert r.pts == if back.Hit? then withEnds + [back.corner] else withEnds;
      PushesInOrder(withFwd, LastPt(plNormal), LastPt(plReverse), if back.Hit? then [back.corner] else []);
    }
  }

  /** A solved road keeps the shorter trim candidate (ties go to the forward
      one) and stores it reversed when the road starts at the intersection. */
  lemma CornerStepChoice(g: Geometry, road: Road, i: IntersectionId, lines: seq<Approach>, idx: int)
    requires 0 <= idx < |lines|
    ensures var r := CornerStep(g, road, i, lines, idx);
            var fwd := FwdCandidate(g, road, i, lines, idx);
            var back := BackCandidate(g, road, i, lines, idx);
            r.Trimmed? ==>
              && Some(r.center) == ChooseShorter(g, TrimOf(fwd), TrimOf(back))
              && r.stored == (if road.srcI == i then Reversed(r.center) else r.center)
  {
  }

  /** Unless the road is a loop on `i`, the stored centerline still runs from
      source to destination: oriented toward `i` again it is exactly the
      trimmed centerline the solver chose, which is one of the corner
      candidates cut from the road's own centerline. */
  lemma StoredRunsSourceToDestination(g: Geometry, road: Road, i: IntersectionId, lines: seq<Approach>, idx: int)
    requires 0 <= idx < |lines|
    requires road.srcI != road.dstI && (road.srcI == i || road.dstI == i)
    requires CornerStep(g, road, i, lines, idx).Trimmed?
    ensures var s := CornerStep(g, road, i, lines, idx);
            && RoadCenter(road.(centerPts := s.stored), i) == s.center
            && Some(s.center) in [TrimOf(FwdCandidate(g, road, i, lines, idx)),
                                  TrimOf(BackCandidate(g, road, i, lines, idx))]
  {
    var s := CornerStep(g, road, i, lines, idx);
    CornerStepChoice(g, road, i, lines, idx);
    if road.srcI == i {
      ReversedTwice(s.center);
    }
  }

  /** The step the solver takes at position `j` of `lines`. */
  function StepOf(g: Geometry, i: IntersectionId, lines: seq<Approach>): (Road, nat) -> Step
  {
    (road: Road, j: nat) => if j < |lines| then CornerStep(g, road, i, lines, j) else NoCorner
  }

  /** The loop of `make_new_polygon` over the first `k` roads, starting from
      the road records `snap`. Each road is solved against its current record. */
  function SolvePrefix(g: Geometry, snap: seq<Road>, i: IntersectionId, lines: seq<Approach>, k: nat): (s: SolverState)
    requires k <= |lines|
    requires IdsIn(lines, |snap|)
  {
    Fold(StepOf(g, i, lines), snap, lines, k)
  }

  /** One more road: the solver's next state, from the step of that road
      solved against its current record. */
  lemma SolvePrefixNext(g: Geometry, snap: seq<Road>, i: IntersectionId, lines: seq<Approach>, k: nat)
    requires k < |lines|
    requires IdsIn(lines, |snap|)
    requires SolvePrefix(g, snap, i, lines, k).Solving?
    ensures var prev := SolvePrefix(g, snap, i, lines, k);
            var id := lines[k].id;
            SolvePrefix(g, snap, i, lines, k + 1) ==
              match CornerStep(g, prev.roads[id], i, lines, k)
              case Trimmed(_, stored, newPts) => Solving(prev.pts + newPts, prev.roads[id := prev.roads[id].(centerPts := stored)])
              case NoCorner => GaveUp(k, prev.roads)
              case Failed(p) => Stopped(p)
  {
    FoldNext(StepOf(g, i, lines), snap, lines, k);
  }

  /** A road that stops the solver decides its final state. */
  lemma SolvePrefixStopsAt(g: Geometry, snap: seq<Road>, i: IntersectionId, lines: seq<Approach>, k: nat)
    requires k < |lines|
    requires IdsIn(lines, |snap|)
    requires SolvePrefix(g, snap, i, lines, k).Solving?
    requires !CornerStep(g, SolvePrefix(g, snap, i, lines, k).roads[lines[k].id], i, lines, k).Trimmed?
    ensures var prev := SolvePrefix(g, snap, i, lines, k);
            SolvePrefix(g, snap, i, lines, |lines|) ==
              match CornerStep(g, prev.roads[lines[k].id], i, lines, k)
              case Failed(p) => Stopped(p)
              case _ => GaveUp(k, prev.roads)
  {
    SolvePrefixNext(g, snap, i, lines, k);
    FoldSticky(StepOf(g, i, lines), snap, lines, k + 1, |lines|);
  }

  /** What one road's step does to the solver: a solved road extends the run
      with its points and its written-back record; any other outcome is the
      final state of the run. */
  lemma SolveRoadAdvances(g: Geometry, snap: seq<Road>, i: IntersectionId, lines: seq<Approach>, k: nat,
                          pts: seq<Pt2D>, before: seq<Road>, after: seq<Road>, s: Step)
    requires k < |lines|
    requires IdsIn(lines, |snap|)
    requires SolvePrefix(g, snap, i, lines, k) == Solving(pts, before)
    requires s == CornerStep(g, before[lines[k].id], i, lines, k)
    requires s.Trimmed? ==> after == before[lines[k].id := before[lines[k].id].(centerPts := s.stored)]
    ensures s.Trimmed? ==> SolvePrefix(g, snap, i, lines, k + 1) == Solving(pts + s.pts, after)
    ensures s.NoCorner? ==> SolvePrefix(g, snap, i, lines, |lines|) == GaveUp(k, before)
    ensures s.Failed? ==> SolvePrefix(g, snap, i, lines, |lines|) == Stopped(s.panic)
  {
    SolvePrefixNext(g, snap, i, lines, k);
    if !s.Trimmed? {
      SolvePrefixStopsAt(g, snap, i, lines, k);
    }
  }

  /** Every road the corner solver solves contributes two to four points. */
  lemma CornerStepsBounded(g: Geometry, i: IntersectionId, lines: seq<Approach>)
    ensures PointsBounded(StepOf(g, i, lines))
  {
    forall road: Road, j: nat | StepOf(g, i, lines)(road, j).Trimmed?
      ensures 2 <= |StepOf(g, i, lines)(road, j).pts| <= 4
    {
      CornerStepPoints(g, road, i, lines, j);
    }
  }

  /** A run that solves every road emits two to four points per road. */
  lemma SolvedPointCount(g: Geometry, snap: seq<Road>, i: IntersectionId, lines: seq<Approach>)
    requires IdsIn(lines, |snap|)
    requires SolvePrefix(g, snap, i, lines, |lines|).Solving?
    ensures 2 * |lines| <= |SolvePrefix(g, snap, i, lines, |lines|).pts| <= 4 * |lines|
  {
    CornerStepsBounded(g, i, lines);
    FoldPointCount(StepOf(g, i, lines), snap, lines, |lines|);
  }

  /** The body of `make_new_polygon`'s loop for road `idx`: find its corners,
      trim its centerline to the shorter candidate and write that back into
      the road, then offset the trimmed centerline and collect the points.
      The result is the road's step; a road with no corner is left alone. */
  method SolveRoad(roads: array<Road>, i: IntersectionId, lines: seq<Approach>, idx: nat, g: Geometry) returns (s: Step)
    requires idx < |lines|
    requires IdsIn(lines, roads.Length)
    modifies roads
    ensures s == CornerStep(g, old(roads[lines[idx].id]), i, lines, idx)
    ensures s.Trimmed? ==>
              roads[..] == old(roads[..])[lines[idx].id := old(roads[lines[idx].id]).(centerPts := s.stored)]
    ensures s.NoCorner? ==> roads[..] == old(roads[..])
  {
    var a := WraparoundGet(lines, idx);
    var road := roads[a.id];

    var fwd := FwdCandidate(g, road, i, lines, idx);
    if fwd.PerpendicularMisses? {
      return Failed(PerpendicularMissed(a.id));
    }
    var back := BackCandidate(g, road, i, lines, idx);
    if back.PerpendicularMisses? {
      return Failed(PerpendicularMissed(a.id));
    }

    var shorter := ChooseShorter(g, TrimOf(fwd), TrimOf(back));
    if shorter.None? {
      return NoCorner;
    }

    var stored, widthNormal, widthReverse;
    if road.srcI == i {
      stored := Reversed(shorter.value);
      widthNormal, widthReverse := BackWidth(g, road), FwdWidth(g, road);
    } else {
      stored := shorter.value;
      widthNormal, widthReverse := FwdWidth(g, road), BackWidth(g, road);
    }
    roads[a.id] := road.(centerPts := stored);
    var borders := OffsetBorders(g, shorter.value, widthNormal, widthReverse);
    if borders.None? {
      return Failed(ShiftFailed(a.id));
    }
    var (plNormal, plReverse) := borders.value;

    var added: seq<Pt2D> := [];
    if fwd.Hit? {
      added := [fwd.corner];
    }
    added := added + [LastPt(plNormal)];
    added := added + [LastPt(plReverse)];
    if back.Hit? {
      added := added + [back.corner];
    }
    s := Trimmed(shorter.value, stored, added);
  }

  /** One pass of `make_new_polygon`'s loop, seen from the whole run: a
      solved road extends the run with its points and its new record; any
      other outcome is the final state of the run. */
  method AdvanceSolver(roads: array<Road>, i: IntersectionId, lines: seq<Approach>, idx: nat, g: Geometry,
                       ghost snap: seq<Road>, ghost pts: seq<Pt2D>) returns (s: Step)
    requires idx < |lines|
    requires IdsIn(lines, |snap|) && |snap| == roads.Length
    requires SolvePrefix(g, snap, i, lines, idx) == Solving(pts, roads[..])
    modifies roads
    ensures s.Trimmed? ==> SolvePrefix(g, snap, i, lines, idx + 1) == Solving(pts + s.pts, roads[..])
    ensures s.NoCorner? ==> SolvePrefix(g, snap, i, lines, |lines|) == GaveUp(idx, roads[..])
    ensures s.Failed? ==> SolvePrefix(g, snap, i, lines, |lines|) == Stopped(s.panic)
  {
    ghost var before := roads[..];
    s := SolveRoad(roads, i, lines, idx, g);
    SolveRoadAdvances(g, snap, i, lines, idx, pts, before, roads[..], s);
  }

  datatype SolverResult = Solved(pts: seq<Pt2D>) | NoPolygon | SolverPanicked(panic: Panic)

  /** `make_new_polygon`: run the corner solver over all roads, writing each
      trimmed centerline into `roads` as it goes. */
  method MakeNewPolygon(roads: array<Road>, i: IntersectionId, lines: seq<Approach>, g: Geometry) returns (r: SolverResult)
    requires IdsIn(lines, roads.Length)
    modifies roads
    ensures match SolvePrefix(g, old(roads[..]), i, lines, |lines|)
            case Solving(pts, rs) => r == Solved(Dedup(pts)) && roads[..] == rs
            case GaveUp(_, rs) => r == NoPolygon && roads[..] == rs
            case Stopped(p) => r == SolverPanicked(p)
  {
    ghost var snap := roads[..];
    var endpoints: seq<Pt2D> := [];
    var idx: nat := 0;
    while idx < |lines|
      invariant idx <= |lines|
      invariant SolvePrefix(g, snap, i, lines, idx) == Solving(endpoints, roads[..])
    {
      var s := AdvanceSolver(roads, i, lines, idx, g, snap, endpoints);
      if s.Failed? {
        return SolverPanicked(s.panic);
      } else if s.NoCorner? {
        return NoPolygon;
      }
      // the state after this road, named before the index moves on
      ghost var next := SolvePrefix(g, snap, i, lines, idx + 1);
      endpoints := endpoints + s.pts;
      idx := idx + 1;
      assert SolvePrefix(g, snap, i, lines, idx) == next;
    }
    r := Solved(Dedup(endpoints));
  }
}
