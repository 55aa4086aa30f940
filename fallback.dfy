/** The fallback used when the corner solver gives up: for each adjacent
    pair of roads in angular order, intersect the first road's reverse
    border with the second road's normal border; when the two are nearly
    parallel or do not meet, intersect each border with the infinite
    extension of its other neighbour's border instead, falling back to the
    border's own end. */
module Fallback {
  import opened Geom
  import opened Roads
  import opened Borders
  import opened Wraparound

  /** Borders closer than this many degrees in direction are not intersected directly. */
  const NEAR_PARALLEL_DEGREES: real := 15.0

  function Abs(x: real): (r: real)
    ensures r >= 0.0 && (r == x || r == -x)
  {
    if x < 0.0 then -x else x
  }

  /** The pair that starts at road `idx`: its reverse border and the next road's normal border. */
  function PairFirst(lines: seq<Approach>, idx: int): PolyLine
    requires |lines| > 0
  {
    WraparoundGet(lines, idx).reverse
  }

  function PairSecond(lines: seq<Approach>, idx: int): PolyLine
    requires |lines| > 0
  {
    WraparoundGet(lines, idx + 1).normal
  }

  /** How far apart, in degrees, the pair's borders point as they reach the intersection. */
  function AngleDiff(g: Geometry, lines: seq<Approach>, idx: int): real
    requires |lines| > 0
  {
    Abs(g.normalizedDegrees(g.opposite(g.angle(LastLine(PairFirst(lines, idx)))))
        - g.normalizedDegrees(g.angle(LastLine(PairSecond(lines, idx)))))
  }

  /** The easy case: the borders are far enough apart in angle and they meet. */
  predicate EasyCorner(g: Geometry, lines: seq<Approach>, idx: int)
    requires |lines| > 0
  {
    AngleDiff(g, lines, idx) > NEAR_PARALLEL_DEGREES
    && g.intersection(PairFirst(lines, idx), PairSecond(lines, idx)).Some?
  }

  /** The corner of an easy pair. */
  function EasyCornerPt(g: Geometry, lines: seq<Approach>, idx: int): Pt2D
    requires |lines| > 0
    requires EasyCorner(g, lines, idx)
  {
    g.intersection(PairFirst(lines, idx), PairSecond(lines, idx)).value.0
  }

  /** The point a border contributes in the hard case: where it meets the
      infinite line through the last segment of `other`, or its own end. */
  function InfiniteHitOrEnd(g: Geometry, border: PolyLine, other: PolyLine): (r: Pt2D)
    ensures g.intersectionInfiniteLine(border, LastLine(other)) == Some(r)
            || (g.intersectionInfiniteLine(border, LastLine(other)).None? && r == LastPt(border))
  {
    match g.intersectionInfiniteLine(border, LastLine(other))
    case Some(hit) => hit
    case None => LastPt(border)
  }

  /** `pts` followed by the points of the pair that starts at road `idx`: the
      pair's corner in the easy case; otherwise the first border's point
      against the previous road's reverse border, then the second border's
      point against the normal border of the road after it. */
  function AddPair(g: Geometry, lines: seq<Approach>, idx: int, pts: seq<Pt2D>): (r: seq<Pt2D>)
    requires |lines| > 0
    ensures |r| == |pts| + (if EasyCorner(g, lines, idx) then 1 else 2)
    ensures r[..|pts|] == pts
    ensures EasyCorner(g, lines, idx) ==> r == pts + [EasyCornerPt(g, lines, idx)]
    ensures !EasyCorner(g, lines, idx) ==>
              r == pts + [InfiniteHitOrEnd(g, PairFirst(lines, idx), WraparoundGet(lines, idx - 1).reverse),
                          InfiniteHitOrEnd(g, PairSecond(lines, idx), WraparoundGet(lines, idx + 2).normal)]
  {
    if EasyCorner(g, lines, idx) then
      pts + [EasyCornerPt(g, lines, idx)]
    else
      pts + [InfiniteHitOrEnd(g, PairFirst(lines, idx), WraparoundGet(lines, idx - 1).reverse)]
          + [InfiniteHitOrEnd(g, PairSecond(lines, idx), WraparoundGet(lines, idx + 2).normal)]
  }

  /** The points of the first `k` pairs, in angular order. */
  function FallbackPoints(g: Geometry, lines: seq<Approach>, k: nat): (r: seq<Pt2D>)
    requires k <= |lines|
    ensures k <= |r| <= 2 * k
  {
    if k == 0 then [] else AddPair(g, lines, k - 1, FallbackPoints(g, lines, k - 1))
  }

  /** The corners of the first `k` pairs, when all of them are easy. */
  function EasyCorners(g: Geometry, lines: seq<Approach>, k: nat): seq<Pt2D>
    requires k <= |lines|
    requires forall j :: 0 <= j < k ==> EasyCorner(g, lines, j)
  {
    if k == 0 then [] else EasyCorners(g, lines, k - 1) + [EasyCornerPt(g, lines, k - 1)]
  }

  /** When every adjacent pair meets cleanly, the fallback polygon is exactly
      the corners of the adjacent pairs, one per road, in angular order. */
  lemma {:induction false} FallbackAllEasy(g: Geometry, lines: seq<Approach>, k: nat)
    requires k <= |lines|
    requires forall j :: 0 <= j < k ==> EasyCorner(g, lines, j)
    ensures FallbackPoints(g, lines, k) == EasyCorners(g, lines, k)
  {
    if k > 0 {
      FallbackAllEasy(g, lines, k - 1);
    }
  }

  /** One pass of the fallback loop: the points of the pair that starts at
      road `idx1`, pushed onto `endpoints`. */
  method PushPair(lines: seq<Approach>, idx1: nat, g: Geometry, endpoints: seq<Pt2D>) returns (r: seq<Pt2D>)
    requires idx1 < |lines|
    ensures r == AddPair(g, lines, idx1, endpoints)
  {
    var idx2 := idx1 + 1;
    var pl1 := WraparoundGet(lines, idx1).reverse;
    var pl2 := WraparoundGet(lines, idx2).normal;

    var angleDiff := Abs(g.normalizedDegrees(g.opposite(g.angle(LastLine(pl1))))
                         - g.normalizedDegrees(g.angle(LastLine(pl2))));
    if angleDiff > NEAR_PARALLEL_DEGREES {
      var corner := g.intersection(pl1, pl2);
      if corner.Some? {
        return endpoints + [corner.value.0];
      }
    }

    r := endpoints;
    var infLine1 := LastLine(WraparoundGet(lines, idx1 - 1).reverse);
    var hit1 := g.intersectionInfiniteLine(pl1, infLine1);
    if hit1.Some? {
      r := r + [hit1.value];
    } else {
      r := r + [LastPt(pl1)];
    }

    var infLine2 := LastLine(WraparoundGet(lines, idx2 + 1).normal);
    var hit2 := g.intersectionInfiniteLine(pl2, infLine2);
    if hit2.Some? {
      r := r + [hit2.value];
    } else {
      r := r + [LastPt(pl2)];
    }
  }

  /** The fallback loop over all adjacent pairs. */
  method FallbackPolygon(lines: seq<Approach>, g: Geometry) returns (endpoints: seq<Pt2D>)
    ensures endpoints == FallbackPoints(g, lines, |lines|)
    ensures |lines| <= |endpoints| <= 2 * |lines|
  {
    endpoints := [];
    var idx1: nat := 0;
    while idx1 < |lines|
      invariant idx1 <= |lines|
      invariant endpoints == FallbackPoints(g, lines, idx1)
    {
      endpoints := PushPair(lines, idx1, g, endpoints);
      idx1 := idx1 + 1;
    }
  }
}
