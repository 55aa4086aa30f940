/** The angular border builder: every incident road becomes an `Approach`
    (its id, the angle of its last segment toward the intersection, and its
    normal and reverse offset borders), and the approaches are sorted by
    their angle in whole degrees. */
module Borders {
  import opened Geom
  import opened Roads

  /** One incident road as seen from the intersection. */
  datatype Approach = Approach(id: RoadId, angle: Angle, normal: PolyLine, reverse: PolyLine)

  /** The approach of road `id` toward intersection `i`. The road must have an
      end at `i`; both shifts must succeed. */
  function BuildApproach(g: Geometry, roads: seq<Road>, i: IntersectionId, id: RoadId): (r: Result<Approach>)
    requires id < |roads|
    ensures r == Err(NotIncident(id, i)) <==> roads[id].srcI != i && roads[id].dstI != i
    ensures r.Ok? ==> r.value.id == id
    ensures r.Err? ==> r.panic == NotIncident(id, i) || r.panic == ShiftFailed(id)
    ensures Orient(g, roads[id], i).Some? ==>
              var o := Orient(g, roads[id], i).value;
              && (r == Err(ShiftFailed(id)) <==> OffsetBorders(g, o.line, o.widthNormal, o.widthReverse).None?)
              && (r.Ok? ==> OffsetBorders(g, o.line, o.widthNormal, o.widthReverse) == Some((r.value.normal, r.value.reverse))
                            && r.value.angle == g.angle(LastLine(o.line)))
  {
    match Orient(g, roads[id], i)
    case None => Err(NotIncident(id, i))
    case Some(o) =>
      match OffsetBorders(g, o.line, o.widthNormal, o.widthReverse)
      case None => Err(ShiftFailed(id))
      case Some((normal, reverse)) => Ok(Approach(id, g.angle(LastLine(o.line)), normal, reverse))
  }

  /** The approaches of `ids`, in the same order; the first road that cannot
      be turned into an approach makes the whole construction fail. */
  function BuildLines(g: Geometry, roads: seq<Road>, i: IntersectionId, ids: seq<RoadId>): (r: Result<seq<Approach>>)
    requires forall k :: 0 <= k < |ids| ==> ids[k] < |roads|
    ensures r.Ok? <==> forall k :: 0 <= k < |ids| ==> BuildApproach(g, roads, i, ids[k]).Ok?
    ensures r.Ok? ==> |r.value| == |ids|
    ensures r.Ok? ==> forall k :: 0 <= k < |ids| ==> r.value[k] == BuildApproach(g, roads, i, ids[k]).value
    ensures r.Ok? ==> forall k :: 0 <= k < |ids| ==> r.value[k].id == ids[k] < |roads|
  {
    if |ids| == 0 then Ok([])
    else
      match BuildApproach(g, roads, i, ids[0])
      case Err(p) => Err(p)
      case Ok(a) =>
        match BuildLines(g, roads, i, ids[1..])
        case Err(p) => Err(p)
        case Ok(rest) => Ok([a] + rest)
  }

  /** A failed construction fails with the panic of the first road, in
      incidence order, that cannot be turned into an approach. */
  lemma {:induction false} BuildLinesFailure(g: Geometry, roads: seq<Road>, i: IntersectionId, ids: seq<RoadId>)
    requires forall k :: 0 <= k < |ids| ==> ids[k] < |roads|
    requires BuildLines(g, roads, i, ids).Err?
    ensures exists k :: && 0 <= k < |ids|
                        && BuildApproach(g, roads, i, ids[k]) == Err(BuildLines(g, roads, i, ids).panic)
                        && forall j :: 0 <= j < k ==> BuildApproach(g, roads, i, ids[j]).Ok?
  {
    var p := BuildLines(g, roads, i, ids).panic;
    if BuildApproach(g, roads, i, ids[0]).Ok? {
      var rest := ids[1..];
      assert BuildLines(g, roads, i, rest) == Err(p);
      BuildLinesFailure(g, roads, i, rest);
      var k :| && 0 <= k < |rest| && BuildApproach(g, roads, i, rest[k]) == Err(p)
               && forall j :: 0 <= j < k ==> BuildApproach(g, roads, i, rest[j]).Ok?;
      assert rest[k] == ids[k + 1];
      forall j | 0 <= j < k + 1 ensures BuildApproach(g, roads, i, ids[j]).Ok? {
        if j > 0 {
          assert ids[j] == rest[j - 1];
        }
      }
    } else {
      assert BuildApproach(g, roads, i, ids[0]) == Err(p);
    }
  }

  /** `x as i64` on a float: truncation toward zero. */
  function TruncateToInt(x: real): int
  {
    if x >= 0.0 then x.Floor else -((-x).Floor)
  }

  /** The cast drops the fraction: the result is the whole number next to
      `x` on the side of zero. */
  lemma TruncateToIntBounds(x: real)
    ensures x >= 0.0 ==> 0 <= TruncateToInt(x) && TruncateToInt(x) as real <= x < TruncateToInt(x) as real + 1.0
    ensures x < 0.0 ==> TruncateToInt(x) <= 0 && TruncateToInt(x) as real - 1.0 < x <= TruncateToInt(x) as real
  {
  }

  /** The sort key: the approach angle normalised to degrees, in whole degrees. */
  function Key(g: Geometry, a: Approach): int
  {
    TruncateToInt(g.normalizedDegrees(a.angle))
  }

  ghost predicate SortedByKey(g: Geometry, s: seq<Approach>)
  {
    forall p, q :: 0 <= p < q < |s| ==> Key(g, s[p]) <= Key(g, s[q])
  }

  /** Insert `x` before the first element whose key is not smaller than its own. */
  function InsertByKey(g: Geometry, x: Approach, s: seq<Approach>): (r: seq<Approach>)
    ensures |r| == |s| + 1
  {
    if s == [] then [x]
    else if Key(g, x) <= Key(g, s[0]) then [x] + s
    else [s[0]] + InsertByKey(g, x, s[1..])
  }

  /** Insertion adds `x` and loses nothing. */
  lemma {:induction false} InsertByKeyPermutes(g: Geometry, x: Approach, s: seq<Approach>)
    ensures multiset(InsertByKey(g, x, s)) == multiset(s) + multiset{x}
  {
    if s != [] && Key(g, x) > Key(g, s[0]) {
      InsertByKeyPermutes(g, x, s[1..]);
      assert s == [s[0]] + s[1..];
    }
  }

  /** Inserting an element no smaller than a bound into a list no smaller
      than that bound keeps every element at or above it. */
  lemma {:induction false} InsertByKeyAbove(g: Geometry, x: Approach, s: seq<Approach>, bound: int)
    requires bound <= Key(g, x)
    requires forall k :: 0 <= k < |s| ==> bound <= Key(g, s[k])
    ensures forall k :: 0 <= k < |s| + 1 ==> bound <= Key(g, InsertByKey(g, x, s)[k])
  {
    if s != [] && Key(g, x) > Key(g, s[0]) {
      InsertByKeyAbove(g, x, s[1..], bound);
    }
  }

  lemma {:induction false} InsertByKeySorted(g: Geometry, x: Approach, s: seq<Approach>)
    requires SortedByKey(g, s)
    ensures SortedByKey(g, InsertByKey(g, x, s))
  {
    if s != [] && Key(g, x) > Key(g, s[0]) {
      var rest := InsertByKey(g, x, s[1..]);
      InsertByKeySorted(g, x, s[1..]);
      InsertByKeyAbove(g, x, s[1..], Key(g, s[0]));
      var r := [s[0]] + rest;
      forall p, q | 0 <= p < q < |r| ensures Key(g, r[p]) <= Key(g, r[q]) {
        assert r[q] == rest[q - 1];
        if p > 0 {
          assert r[p] == rest[p - 1];
        }
      }
    }
  }

  /** `sort_by_key` on the whole-degree angle: a stable sort. */
  function SortByAngle(g: Geometry, s: seq<Approach>): (r: seq<Approach>)
    ensures |r| == |s|
    ensures multiset(r) == multiset(s)
    ensures SortedByKey(g, r)
  {
    if s == [] then [] else
      assert s == [s[0]] + s[1..];
      var rest := SortByAngle(g, s[1..]);
      InsertByKeySorted(g, s[0], rest);
      InsertByKeyPermutes(g, s[0], rest);
      InsertByKey(g, s[0], rest)
  }

  /** Sorting introduces nothing: every sorted approach is one of the input's. */
  lemma SortByAngleMembers(g: Geometry, s: seq<Approach>)
    ensures forall k :: 0 <= k < |s| ==> SortByAngle(g, s)[k] in s
  {
    var r := SortByAngle(g, s);
    forall k | 0 <= k < |s| ensures r[k] in s {
      assert r[k] in multiset(r);
    }
  }

  /** The approaches of `s` whose key is `key`, in their order in `s`. */
  function WithKey(g: Geometry, s: seq<Approach>, key: int): seq<Approach>
  {
    if s == [] then []
    else (if Key(g, s[0]) == key then [s[0]] else []) + WithKey(g, s[1..], key)
  }

  lemma WithKeyCons(g: Geometry, a: Approach, s: seq<Approach>, key: int)
    ensures WithKey(g, [a] + s, key) == (if Key(g, a) == key then [a] else []) + WithKey(g, s, key)
  {
    assert ([a] + s)[1..] == s;
  }

  lemma {:induction false} InsertByKeyStable(g: Geometry, x: Approach, s: seq<Approach>, key: int)
    ensures WithKey(g, InsertByKey(g, x, s), key) == (if Key(g, x) == key then [x] else []) + WithKey(g, s, key)
  {
    if s == [] {
      assert InsertByKey(g, x, s) == [x] + s;
      WithKeyCons(g, x, s, key);
    } else if Key(g, x) <= Key(g, s[0]) {
      WithKeyCons(g, x, s, key);
    } else {
      var rest := InsertByKey(g, x, s[1..]);
      InsertByKeyStable(g, x, s[1..], key);
      WithKeyCons(g, s[0], rest, key);
      WithKeyCons(g, s[0], s[1..], key);
      assert s == [s[0]] + s[1..];
      if Key(g, s[0]) == key {
        // x sorts after s[0], so it cannot share its key
        assert Key(g, x) != key;
      } else {
        assert WithKey(g, s, key) == [] + WithKey(g, s[1..], key);
      }
    }
  }

  /** Stability: the approaches sharing a whole-degree angle keep their incidence order. */
  lemma {:induction false} SortByAngleStable(g: Geometry, s: seq<Approach>, key: int)
    ensures WithKey(g, SortByAngle(g, s), key) == WithKey(g, s, key)
  {
    if s != [] {
      SortByAngleStable(g, s[1..], key);
      InsertByKeyStable(g, s[0], SortByAngle(g, s[1..]), key);
    }
  }

  predicate DistinctIds(s: seq<Approach>)
  {
    forall p, q :: 0 <= p < q < |s| ==> s[p].id != s[q].id
  }

  lemma {:induction false} InsertByKeyDistinct(g: Geometry, x: Approach, s: seq<Approach>)
    requires DistinctIds(s)
    requires forall k :: 0 <= k < |s| ==> s[k].id != x.id
    ensures DistinctIds(InsertByKey(g, x, s))
  {
    if s != [] && Key(g, x) > Key(g, s[0]) {
      var rest := InsertByKey(g, x, s[1..]);
      InsertByKeyDistinct(g, x, s[1..]);
      InsertByKeyPermutes(g, x, s[1..]);
      forall k | 0 <= k < |rest| ensures rest[k].id != s[0].id {
        assert rest[k] in multiset(s[1..]) + multiset{x};
      }
    }
  }

  /** Sorting never makes two approaches share a road id. */
  lemma {:induction false} SortByAngleDistinct(g: Geometry, s: seq<Approach>)
    requires DistinctIds(s)
    ensures DistinctIds(SortByAngle(g, s))
  {
    if s != [] {
      var sorted := SortByAngle(g, s[1..]);
      SortByAngleDistinct(g, s[1..]);
      forall k | 0 <= k < |sorted| ensures sorted[k].id != s[0].id {
        assert sorted[k] in multiset(s[1..]);
      }
      InsertByKeyDistinct(g, s[0], sorted);
    }
  }

  /** Distinct incident road ids give approaches with distinct ids, before and after sorting. */
  lemma LinesDistinct(g: Geometry, roads: seq<Road>, i: IntersectionId, ids: seq<RoadId>)
    requires forall k :: 0 <= k < |ids| ==> ids[k] < |roads|
    requires forall p, q :: 0 <= p < q < |ids| ==> ids[p] != ids[q]
    requires BuildLines(g, roads, i, ids).Ok?
    ensures DistinctIds(BuildLines(g, roads, i, ids).value)
    ensures DistinctIds(SortByAngle(g, BuildLines(g, roads, i, ids).value))
  {
    SortByAngleDistinct(g, BuildLines(g, roads, i, ids).value);
  }
}
