/** Geometry primitives consumed by the intersection builder.
    Points, angles and polylines are concrete values; every floating-point
    operation on them (shifting, intersecting, measuring, trimming, angle
    normalisation) is supplied from outside as a field of `Geometry`, so the
    model treats it as an opaque, total function. */
module Geom {

  datatype Option<T> = None | Some(value: T)

  /** A point in map space. */
  datatype Pt2D = Pt2D(x: real, y: real)

  /** An angle, in radians. */
  datatype Angle = Angle(radians: real)

  /** A line segment from `pt1` to `pt2`. */
  datatype Line = Line(pt1: Pt2D, pt2: Pt2D)

  /** A polyline: an ordered, direction-significant sequence of at least two points. */
  type PolyLine = s: seq<Pt2D> | |s| >= 2 witness [Pt2D(0.0, 0.0), Pt2D(0.0, 0.0)]

  /** The same points in the opposite direction. */
  function Reversed(pl: PolyLine): (r: PolyLine)
    ensures |r| == |pl|
    ensures forall k :: 0 <= k < |pl| ==> r[k] == pl[|pl| - 1 - k]
  {
    seq(|pl|, k requires 0 <= k < |pl| => pl[|pl| - 1 - k])
  }

  function FirstPt(pl: PolyLine): Pt2D { pl[0] }

  function LastPt(pl: PolyLine): Pt2D { pl[|pl| - 1] }

  /** The final segment of a polyline. */
  function LastLine(pl: PolyLine): Line { Line(pl[|pl| - 2], pl[|pl| - 1]) }

  lemma ReversedTwice(pl: PolyLine)
    ensures Reversed(Reversed(pl)) == pl
  {
    assert forall k :: 0 <= k < |pl| ==> Reversed(Reversed(pl))[k] == pl[k];
  }

  /** The capability surface of the geometry library, plus the crate-wide lane
      thickness. Results that the library returns as `Option` stay `Option`. */
  datatype Geometry = Geometry(
    laneThickness: real,
    length: PolyLine -> real,
    shift: (PolyLine, real) -> Option<PolyLine>,
    safeDistAlong: (PolyLine, real) -> Option<Pt2D>,
    distAlong: (PolyLine, real) -> Pt2D,
    slice: (PolyLine, real, real) -> PolyLine,
    trimToPt: (PolyLine, Pt2D) -> PolyLine,
    intersection: (PolyLine, PolyLine) -> Option<(Pt2D, Angle)>,
    intersectionInfiniteLine: (PolyLine, Line) -> Option<Pt2D>,
    angle: Line -> Angle,
    opposite: Angle -> Angle,
    normalizedDegrees: Angle -> real,
    rotateDegs: (Angle, real) -> Angle,
    projectAway: (Pt2D, real, Angle) -> Pt2D
  )

  /** The one law of the library the model relies on: slicing a polyline
      between two distances along it yields a polyline of the difference's length. */
  ghost predicate SliceHasLength(g: Geometry)
  {
    forall pl: PolyLine, a: real, b: real ::
      0.0 <= a <= b <= g.length(pl) ==> g.length(g.slice(pl, a, b)) == b - a
  }
}
