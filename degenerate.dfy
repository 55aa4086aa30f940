/** Closed-form polygons for dead ends (one incident road) and for
    intersections of exactly two roads. */
module Degenerate {
  import opened Geom
  import opened Roads
  import opened Borders
  import opened VecDedup

  /** Apply `TrimAtIntersection` to the roads `ids`, one after the other. */
  function TrimEach(g: Geometry, roads: seq<Road>, ids: seq<RoadId>, i: IntersectionId, amount: real): (r: seq<Road>)
    requires forall k :: 0 <= k < |ids| ==> ids[k] < |roads|
    ensures |r| == |roads|
    ensures forall x :: 0 <= x < |roads| && x !in ids ==> r[x] == roads[x]
    decreases |ids|
  {
    if ids == [] then roads
    else
      var last := ids[|ids| - 1];
      var before := TrimEach(g, roads, ids[..|ids| - 1], i, amount);
      before[last := TrimAtIntersection(g, before[last], i, amount)]
  }

  /** Distinct roads are each cut exactly once, from their original record. */
  lemma {:induction false} TrimEachTrims(g: Geometry, roads: seq<Road>, ids: seq<RoadId>, i: IntersectionId, amount: real)
    requires forall k :: 0 <= k < |ids| ==> ids[k] < |roads|
    requires forall p, q :: 0 <= p < q < |ids| ==> ids[p] != ids[q]
    ensures forall k :: 0 <= k < |ids| ==> TrimEach(g, roads, ids, i, amount)[ids[k]] == TrimAtIntersection(g, roads[ids[k]], i, amount)
    decreases |ids|
  {
    if ids != [] {
      var init := ids[..|ids| - 1];
      TrimEachTrims(g, roads, init, i, amount);
      var last := ids[|ids| - 1];
      assert last !in init;
    }
  }

  /** Cut `amount` meters off road `id` at intersection `i`, in place. */
  method TrimRoadEnd(roads: array<Road>, id: RoadId, i: IntersectionId, amount: real, g: Geometry)
    requires id < roads.Length
    modifies roads
    ensures roads[..] == old(roads[..])[id := TrimAtIntersection(g, old(roads[id]), i, amount)]
  {
    var r := roads[id];
    var len := g.length(r.centerPts);
    if r.srcI == i {
      roads[id] := r.(centerPts := g.slice(r.centerPts, amount, len));
    } else {
      roads[id] := r.(centerPts := g.slice(r.centerPts, 0.0, len - amount));
    }
  }

  /** Cut `amount` meters off each road of `ids` at intersection `i`, in order, in place. */
  method TrimAll(roads: array<Road>, ids: seq<RoadId>, i: IntersectionId, amount: real, g: Geometry)
    requires forall k :: 0 <= k < |ids| ==> ids[k] < roads.Length
    modifies roads
    ensures roads[..] == TrimEach(g, old(roads[..]), ids, i, amount)
  {
    for k := 0 to |ids|
      invariant roads[..] == TrimEach(g, old(roads[..]), ids[..k], i, amount)
    {
      TrimRoadEnd(roads, ids[k], i, amount, g);
      assert ids[..k + 1][..k] == ids[..k];
    }
    assert ids[..|ids|] == ids;
  }

  // ---- Dead end ----

  /** The point 2 × HALF_LENGTH back from the intersection along a border, if the border is that long. */
  function WalkBack(g: Geometry, border: PolyLine, dist: real): Option<Pt2D>
  {
    g.safeDistAlong(Reversed(border), dist)
  }

  predicate DeadEndWalks(g: Geometry, a: Approach)
  {
    WalkBack(g, a.normal, 2.0 * HALF_LENGTH).Some? && WalkBack(g, a.reverse, 2.0 * HALF_LENGTH).Some?
  }

  /** The points a dead end contributes: the two walked points and the two
      border ends, or only the border ends when a walk runs off its border. */
  function DeadEndPoints(g: Geometry, a: Approach): (r: seq<Pt2D>)
    ensures |r| == (if DeadEndWalks(g, a) then 4 else 2)
    ensures DeadEndWalks(g, a) ==>
              r[0] == WalkBack(g, a.normal, 2.0 * HALF_LENGTH).value
              && r[1] == WalkBack(g, a.reverse, 2.0 * HALF_LENGTH).value
              && r[2..] == [LastPt(a.reverse), LastPt(a.normal)]
    ensures !DeadEndWalks(g, a) ==> r == [LastPt(a.normal), LastPt(a.reverse)]
  {
    var pt1 := WalkBack(g, a.normal, 2.0 * HALF_LENGTH);
    var pt2 := WalkBack(g, a.reverse, 2.0 * HALF_LENGTH);
    if pt1.Some? && pt2.Some? then
      [pt1.value, pt2.value, LastPt(a.reverse), LastPt(a.normal)]
    else
      [LastPt(a.normal), LastPt(a.reverse)]
  }

  /** The dead-end branch: emit the points and, when both walks succeed, cut
      2 × HALF_LENGTH off the road's end at the intersection. */
  method DeadEnd(roads: array<Road>, i: IntersectionId, a: Approach, g: Geometry) returns (endpoints: seq<Pt2D>)
    requires a.id < roads.Length
    modifies roads
    ensures endpoints == DeadEndPoints(g, a)
    ensures roads[..] == if DeadEndWalks(g, a)
                         then old(roads[..])[a.id := TrimAtIntersection(g, old(roads[a.id]), i, 2.0 * HALF_LENGTH)]
                         else old(roads[..])
  {
    var pt1 := WalkBack(g, a.normal, 2.0 * HALF_LENGTH);
    var pt2 := WalkBack(g, a.reverse, 2.0 * HALF_LENGTH);
    endpoints := [];
    if pt1.Some? && pt2.Some? {
      endpoints := endpoints + [pt1.value, pt2.value, LastPt(a.reverse), LastPt(a.normal)];
      TrimRoadEnd(roads, a.id, i, 2.0 * HALF_LENGTH, g);
    } else {
      endpoints := endpoints + [LastPt(a.normal), LastPt(a.reverse)];
    }
  }

  // ---- Two roads ----

  predicate LongEnough(g: Geometry, a1: Approach, a2: Approach)
  {
    && g.length(a1.normal) >= HALF_LENGTH
    && g.length(a1.reverse) >= HALF_LENGTH
    && g.length(a2.normal) >= HALF_LENGTH
    && g.length(a2.reverse) >= HALF_LENGTH
  }

  function HalfBack(g: Geometry, border: PolyLine): Pt2D
  {
    g.distAlong(Reversed(border), HALF_LENGTH)
  }

  /** The points two roads contribute: the four points HALF_LENGTH back along
      the borders (first road's normal, second's reverse, second's normal,
      first's reverse) with consecutive repeats removed; or, when a border is
      too short, the four raw border ends. */
  function DegreeTwoPoints(g: Geometry, a1: Approach, a2: Approach): (r: seq<Pt2D>)
    ensures LongEnough(g, a1, a2) ==>
              r == Dedup([HalfBack(g, a1.normal), HalfBack(g, a2.reverse), HalfBack(g, a2.normal), HalfBack(g, a1.reverse)])
    ensures LongEnough(g, a1, a2) ==>
              && 1 <= |r| <= 4
              && NoAdjacentDuplicates(r)
              && r[0] == HalfBack(g, a1.normal)
              && r[|r| - 1] == HalfBack(g, a1.reverse)
              && (forall p :: p in r <==> p in [HalfBack(g, a1.normal), HalfBack(g, a2.reverse),
                                              HalfBack(g, a2.normal), HalfBack(g, a1.reverse)])
    ensures !LongEnough(g, a1, a2) ==>
              r == [LastPt(a1.normal), LastPt(a1.reverse), LastPt(a2.normal), LastPt(a2.reverse)]
  {
    if LongEnough(g, a1, a2) then
      var raw := [HalfBack(g, a1.normal), HalfBack(g, a2.reverse), HalfBack(g, a2.normal), HalfBack(g, a1.reverse)];
      var r := Dedup(raw);
      assert forall p :: p in r <==> p in raw by {
        forall p ensures p in r <==> p in raw {
          if p in r {
            var k :| 0 <= k < |r| && r[k] == p;
          }
          if p in raw {
            var k :| 0 <= k < |raw| && raw[k] == p;
          }
        }
      }
      r
    else
      [LastPt(a1.normal), LastPt(a1.reverse), LastPt(a2.normal), LastPt(a2.reverse)]
  }

  /** The two-road branch: emit the points and, when every border is long
      enough, cut HALF_LENGTH off each road's end at the intersection. */
  method DegreeTwo(roads: array<Road>, i: IntersectionId, a1: Approach, a2: Approach, g: Geometry)
    returns (endpoints: seq<Pt2D>)
    requires a1.id < roads.Length && a2.id < roads.Length
    modifies roads
    ensures endpoints == DegreeTwoPoints(g, a1, a2)
    ensures roads[..] == if LongEnough(g, a1, a2)
                         then TrimEach(g, old(roads[..]), [a1.id, a2.id], i, HALF_LENGTH)
                         else old(roads[..])
  {
    endpoints := [];
    if LongEnough(g, a1, a2) {
      endpoints := endpoints + [HalfBack(g, a1.normal), HalfBack(g, a2.reverse),
                                HalfBack(g, a2.normal), HalfBack(g, a1.reverse)];
      assert endpoints == [HalfBack(g, a1.normal), HalfBack(g, a2.reverse),
                           HalfBack(g, a2.normal), HalfBack(g, a1.reverse)];
      endpoints := Dedup(endpoints);
      TrimAll(roads, [a1.id, a2.id], i, HALF_LENGTH, g);
    } else {
      endpoints := endpoints + [LastPt(a1.normal), LastPt(a1.reverse), LastPt(a2.normal), LastPt(a2.reverse)];
    }
  }

  /** Two distinct roads of a successful two-road intersection are each cut
      by exactly HALF_LENGTH, and no other road changes. */
  lemma DegreeTwoTrimsBoth(g: Geometry, roads: seq<Road>, id1: RoadId, id2: RoadId, i: IntersectionId)
    requires id1 < |roads| && id2 < |roads| && id1 != id2
    requires SliceHasLength(g)
    requires HALF_LENGTH <= g.length(roads[id1].centerPts) && HALF_LENGTH <= g.length(roads[id2].centerPts)
    ensures var r := TrimEach(g, roads, [id1, id2], i, HALF_LENGTH);
            && g.length(r[id1].centerPts) == g.length(roads[id1].centerPts) - HALF_LENGTH
            && g.length(r[id2].centerPts) == g.length(roads[id2].centerPts) - HALF_LENGTH
            && forall x :: 0 <= x < |roads| && x != id1 && x != id2 ==> r[x] == roads[x]
  {
    var ids := [id1, id2];
    TrimEachTrims(g, roads, ids, i, HALF_LENGTH);
    var r := TrimEach(g, roads, ids, i, HALF_LENGTH);
    assert r[ids[0]] == TrimAtIntersection(g, roads[id1], i, HALF_LENGTH);
    assert r[ids[1]] == TrimAtIntersection(g, roads[id2], i, HALF_LENGTH);
  }
}
