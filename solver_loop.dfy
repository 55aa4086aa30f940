/** The loop shape of the general corner solver, independent of the
    geometry of one road's step: walk the roads in angular order, let each
    road's step trim its record and emit points, stop at the first road that
    has no corner or that panics. Trims written before a stop are kept. */
module SolverLoop {
  import opened Geom
  import opened Roads
  import opened Borders

  /** What solving one road yields: the trimmed centerline that ends at the
      intersection, the centerline written back into the road, and the
      points the road contributes; or no corner at all; or a panic. */
  datatype Step =
    | Trimmed(center: PolyLine, stored: PolyLine, pts: seq<Pt2D>)
    | NoCorner
    | Failed(panic: Panic)

  /** The solver's progress after the first `k` roads. */
  datatype SolverState =
    | Solving(pts: seq<Pt2D>, roads: seq<Road>)
    | GaveUp(at: nat, roads: seq<Road>)
    | Stopped(panic: Panic)

  predicate IdsIn(lines: seq<Approach>, n: nat)
  {
    forall j :: 0 <= j < |lines| ==> lines[j].id < n
  }

  /** The first `k` roads of `lines`, each solved by `step` against its
      current record, starting from the road records `snap`. */
  function Fold(step: (Road, nat) -> Step, snap: seq<Road>, lines: seq<Approach>, k: nat): (s: SolverState)
    requires k <= |lines|
    requires IdsIn(lines, |snap|)
    ensures !s.Stopped? ==> |s.roads| == |snap|
    ensures s.GaveUp? ==> s.at < k
    decreases k
  {
    if k == 0 then Solving([], snap)
    else
      match Fold(step, snap, lines, k - 1)
      case Solving(pts, rs) =>
        var id := lines[k - 1].id;
        (match step(rs[id], k - 1)
         case Trimmed(_, stored, newPts) => Solving(pts + newPts, rs[id := rs[id].(centerPts := stored)])
         case NoCorner => GaveUp(k - 1, rs)
         case Failed(p) => Stopped(p))
      case other => other
  }

  /** One more road: the loop's next state, from the step of that road
      solved against its current record. */
  lemma FoldNext(step: (Road, nat) -> Step, snap: seq<Road>, lines: seq<Approach>, k: nat)
    requires k < |lines|
    requires IdsIn(lines, |snap|)
    requires Fold(step, snap, lines, k).Solving?
    ensures var prev := Fold(step, snap, lines, k);
            var id := lines[k].id;
            Fold(step, snap, lines, k + 1) ==
              match step(prev.roads[id], k)
              case Trimmed(_, stored, newPts) => Solving(prev.pts + newPts, prev.roads[id := prev.roads[id].(centerPts := stored)])
              case NoCorner => GaveUp(k, prev.roads)
              case Failed(p) => Stopped(p)
  {
  }

  /** Once the loop has given up or panicked, later roads change nothing. */
  lemma {:induction false} FoldSticky(step: (Road, nat) -> Step, snap: seq<Road>, lines: seq<Approach>, j: nat, k: nat)
    requires j <= k <= |lines|
    requires IdsIn(lines, |snap|)
    requires !Fold(step, snap, lines, j).Solving?
    ensures Fold(step, snap, lines, k) == Fold(step, snap, lines, j)
    decreases k - j
  {
    if j < k {
      FoldSticky(step, snap, lines, j, k - 1);
    }
  }

  /** A panic of the loop is the panic of one of the steps it took. */
  lemma {:induction false} FoldStopsOnFailure(step: (Road, nat) -> Step, snap: seq<Road>, lines: seq<Approach>, k: nat)
    requires k <= |lines|
    requires IdsIn(lines, |snap|)
    requires Fold(step, snap, lines, k).Stopped?
    ensures exists j: nat, road: Road :: j < k && step(road, j) == Failed(Fold(step, snap, lines, k).panic)
  {
    var prev := Fold(step, snap, lines, k - 1);
    if prev.Stopped? {
      FoldStopsOnFailure(step, snap, lines, k - 1);
    } else {
      var road := prev.roads[lines[k - 1].id];
      assert step(road, k - 1) == Failed(Fold(step, snap, lines, k).panic);
    }
  }

  /** The loop writes only to the roads it visits. */
  lemma {:induction false} FoldTouchesOnlyLines(step: (Road, nat) -> Step, snap: seq<Road>, lines: seq<Approach>, k: nat, x: nat)
    requires k <= |lines|
    requires IdsIn(lines, |snap|)
    requires x < |snap|
    requires forall j :: 0 <= j < |lines| ==> lines[j].id != x
    ensures !Fold(step, snap, lines, k).Stopped? ==> Fold(step, snap, lines, k).roads[x] == snap[x]
  {
    if k > 0 {
      FoldTouchesOnlyLines(step, snap, lines, k - 1, x);
      assert lines[k - 1].id != x;
    }
  }

  /** Every road a step solves contributes two to four points. */
  ghost predicate PointsBounded(step: (Road, nat) -> Step)
  {
    forall road, j :: step(road, j).Trimmed? ==> 2 <= |step(road, j).pts| <= 4
  }

  /** Each road solved so far contributes two to four points. */
  lemma {:induction false} FoldPointCount(step: (Road, nat) -> Step, snap: seq<Road>, lines: seq<Approach>, k: nat)
    requires k <= |lines|
    requires IdsIn(lines, |snap|)
    requires PointsBounded(step)
    requires Fold(step, snap, lines, k).Solving?
    ensures 2 * k <= |Fold(step, snap, lines, k).pts| <= 4 * k
  {
    if k > 0 {
      FoldPointCount(step, snap, lines, k - 1);
    }
  }

  /** The first `k` roads all got a corner and carry the centerline their
      step stored, computed from their record in `snap`; every other road is
      as in `snap`. */
  ghost predicate TrimmedUpTo(step: (Road, nat) -> Step, snap: seq<Road>, rs: seq<Road>, lines: seq<Approach>, k: nat)
    requires k <= |lines|
    requires IdsIn(lines, |snap|)
    requires |rs| == |snap|
  {
    && (forall j :: 0 <= j < k ==>
          step(snap[lines[j].id], j).Trimmed?
          && rs[lines[j].id] == snap[lines[j].id].(centerPts := step(snap[lines[j].id], j).stored))
    && (forall x :: 0 <= x < |snap| && (forall j :: 0 <= j < k ==> lines[j].id != x) ==> rs[x] == snap[x])
  }

  /** No rollback: when the loop gives up at road `at`, the roads before it
      keep the trims already written, road `at` has no corner in its original
      record, and the rest are untouched; while it is still going, every
      road so far is trimmed. */
  lemma {:induction false} FoldKeepsTrims(step: (Road, nat) -> Step, snap: seq<Road>, lines: seq<Approach>, k: nat)
    requires k <= |lines|
    requires IdsIn(lines, |snap|)
    requires DistinctIds(lines)
    ensures match Fold(step, snap, lines, k)
            case Solving(_, rs) => TrimmedUpTo(step, snap, rs, lines, k)
            case GaveUp(at, rs) =>
              && TrimmedUpTo(step, snap, rs, lines, at)
              && step(snap[lines[at].id], at).NoCorner?
            case Stopped(_) => true
  {
    if k > 0 {
      FoldKeepsTrims(step, snap, lines, k - 1);
      var prev := Fold(step, snap, lines, k - 1);
      if prev.Solving? {
        var rs := prev.roads;
        var id := lines[k - 1].id;
        forall j | 0 <= j < k - 1 ensures lines[j].id != id {
        }
        assert rs[id] == snap[id];
        var st := step(rs[id], k - 1);
        if st.Trimmed? {
          var rs' := rs[id := rs[id].(centerPts := st.stored)];
          forall j | 0 <= j < k
            ensures step(snap[lines[j].id], j).Trimmed?
            ensures rs'[lines[j].id] == snap[lines[j].id].(centerPts := step(snap[lines[j].id], j).stored)
          {
            if j < k - 1 {
              assert lines[j].id != id;
            }
          }
        }
      }
    }
  }
}
