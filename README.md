# Intersection polygon builder

A Dafny model of how the map model builds the initial polygon of one
intersection (`map_model/src/make/intersections.rs`). Given an
intersection and the mutable table of road records, the builder:

- orients every incident road toward the intersection and derives its two
  offset borders: the normal border, shifted by the lane band on that side,
  and the reverse border. Both borders end at the intersection;
- sorts the incident roads stably by the angle of their last centerline
  segment, in whole degrees;
- picks the boundary points by the number of roads:
  - a dead end (one road) walks back along both borders;
  - a two-road joint takes points `HALF_LENGTH` back along the four borders;
  - three or more roads go to the general corner solver (`make_new_polygon`),
    with a pairwise fallback when it gives up;
- cuts the incident roads' centerlines back in the road table, in place;
- closes the ring by repeating its first point.

Module layout:

| file | module | what it holds |
|---|---|---|
| `geom.dfy` | `Geom` | points, angles, polylines; the floating-point geometry library as a record of opaque functions (`Geometry`) |
| `roads.dfy` | `Roads` | road and intersection records, the panics, orientation, offset borders, cutting a road at one end |
| `wraparound.dfy` | `Wraparound` | circular indexing with the signed remainder |
| `dedup.dfy` | `VecDedup` | `Vec::dedup` |
| `borders.dfy` | `Borders` | one approach per incident road; the stable sort by whole-degree angle |
| `degenerate.dfy` | `Degenerate` | the dead-end and two-road cases, with their in-place trims |
| `solver_loop.dfy` | `SolverLoop` | the shape of the corner solver's loop over an abstract per-road step: stop at the first failure, no rollback |
| `corner_solver.dfy` | `CornerSolver` | one road's corner step, and `make_new_polygon` as a method over the road array, proved against the pure fold `SolvePrefix` |
| `fallback.dfy` | `Fallback` | the pairwise fallback loop |
| `intersections.dfy` | `Intersections` | `initial_intersection_polygon` as a method over the road array, proved against the pure `IntersectionPolygon` |

Design points:

- **State.** The road table is an `array<Road>`, updated in place. The point
  lists are local sequences.
- **Method and specification pairs.** Every method is proved against a pure
  function of the old road table. The properties are lemmas about those
  functions.
- **Panics become values.** A Rust panic is a `Panic` value:
  - `NotIncident`: an incident road with no end at the intersection;
  - `ShiftFailed`: a failed `shift(..).unwrap()`;
  - `PerpendicularMissed`: the corner perpendicular missed the centerline
    (`unwrap` at lines 244 and 256);
  - `EmptyPolygon`: `endpoints[0]` on an empty list.

  Panics are not turned into preconditions.
- **Opaque geometry.** `Geometry.length`, `shift`, `intersection` and the other
  geometry operations are fields of the `Geometry` record and have no laws.
  The one exception is `SliceHasLength`, a stated premise: a slice between
  two distances has their difference as its length. Only the lemmas about
  how much a cut shortens a road take it as a premise.

Notes on the code as written, which the model follows:

- **The forward corner.** A road's normal border is intersected with the
  previous road's *reverse* border, the fourth tuple field at line 226.
- **The dead end.** When a walk runs off its border, only the two border
  ends are emitted (line 89). The closed ring then has three points, at most
  two of them distinct. They coincide when both lane bands have zero width.
- **Self-loop roads.** For a road whose source and destination are both this
  intersection, the two functions check the ends in different orders:
  - the border construction checks `src_i` first (line 28);
  - the solver's `road_center` checks `dst_i` first (line 230);
  - the write-back checks `src_i` first (line 318).

  So the solver stores such a road's trimmed centerline reversed. The model
  keeps this behaviour. `CornerSolver.StoredRunsSourceToDestination` states
  the round trip only for roads that are not loops.

## Model

| member | source | states |
|---|---|---|
| Geom.Reversed | map_model/src/make/intersections.rs:28-37 | reversing a polyline keeps its length and puts point `k` at position `n-1-k` |
| Roads.Orient | map_model/src/make/intersections.rs:28-34 | an orientation exists exactly when the road has an end at the intersection. When the source end matches, the line is the reversed centerline and the widths are swapped (normal = backward band, reverse = forward band). When only the destination end matches, the line is the centerline and normal = forward band. Either way the line ends at the intersection's end of the road |
| Roads.OffsetBorders | map_model/src/make/intersections.rs:36-37 | the borders exist exactly when both shifts succeed; the normal border is the shifted line; the reverse border, reversed back, is the shifted reversed line |
| Roads.TrimAtIntersection | map_model/src/make/intersections.rs:69-86 | the slice is taken from the front when the road starts at the intersection and from the back otherwise; nothing but the centerline changes; under `SliceHasLength` the centerline gets exactly `amount` shorter |
| Borders.BuildApproach | map_model/src/make/intersections.rs:23-38 | the `NotIncident` panic happens exactly when neither end is at the intersection. For an incident road, `ShiftFailed` happens exactly when offsetting its oriented line by the orientation's widths fails. Otherwise the approach keeps the road id, its borders are exactly those offsets (normal by the normal-side band, reverse by the other), and its angle is that of the oriented line's last segment |
| Borders.BuildLines | map_model/src/make/intersections.rs:20-40 | the list is built exactly when every road's approach is; it has one approach per incident road, in incidence order, each equal to that road's approach |
| Borders.BuildLinesFailure | map_model/src/make/intersections.rs:20-40 | a failed construction fails with the panic of the first incident road, in incidence order, that cannot be turned into an approach; every road before it builds |
| Borders.TruncateToIntBounds | map_model/src/make/intersections.rs:46 | the sort key's cast drops the fraction toward zero: it is the whole number next to the angle on the side of zero |
| Borders.TruncateToInt | map_model/src/make/intersections.rs:46 | definition: `as i64` on the angle in degrees, truncating toward zero; its bounds are stated by `Borders.TruncateToIntBounds` |
| Borders.InsertByKey | map_model/src/make/intersections.rs:46 | one insertion step of the stable sort adds exactly one element; its order, permutation and stability are stated by `Borders.InsertByKeySorted`, `Borders.InsertByKeyPermutes` and `Borders.InsertByKeyStable` |
| Borders.InsertByKeyPermutes | map_model/src/make/intersections.rs:46 | one insertion step of the sort adds its element and loses nothing |
| Borders.InsertByKeySorted | map_model/src/make/intersections.rs:46 | one insertion step keeps a list sorted by key |
| Borders.InsertByKeyStable | map_model/src/make/intersections.rs:46 | one insertion step keeps, for every key, the order of the elements with that key, with the inserted element first |
| Borders.SortByAngle | map_model/src/make/intersections.rs:46 | the sort is a permutation of its input and is non-decreasing in the whole-degree key |
| Borders.SortByAngleStable | map_model/src/make/intersections.rs:46 | stability: for every key, the approaches with that key keep their incidence order |
| Borders.SortByAngleMembers | map_model/src/make/intersections.rs:46 | every sorted approach is one of the input's approaches |
| Borders.SortByAngleDistinct | map_model/src/make/intersections.rs:46 | sorting never makes two approaches share a road id |
| Borders.LinesDistinct | map_model/src/make/intersections.rs:20-46 | distinct incident road ids give approaches with distinct ids, before and after the sort |
| Wraparound.TruncRem | map_model/src/make/intersections.rs:161-162 | Rust's signed `%`: the remainder has the dividend's sign and lies strictly between `-n` and `n`; it is the dividend itself when that is already inside |
| Wraparound.WrapIndex | map_model/src/make/intersections.rs:224-226 | `((idx % n) + n) % n` lands in `[0, n)`; one step before the start wraps to the end, and one turn past the end wraps to the start |
| Wraparound.WraparoundGet | map_model/src/make/intersections.rs:224-226 | definition: the element at the wrapped index; its lookups are stated by `Wraparound.WraparoundGetAt` |
| Wraparound.WraparoundGetAt | map_model/src/make/intersections.rs:224-226 | the neighbour lookup returns `s[idx]` inside the range and the element one turn away outside it |
| VecDedup.Dedup | map_model/src/make/intersections.rs:345 | the result has no two equal adjacent points; it keeps the first and last points and the same set of points; it is empty exactly when the input is; it is never longer than the input; the order of the kept points is stated by `VecDedup.DedupSnoc` |
| VecDedup.DedupSnoc | map_model/src/make/intersections.rs:345 | read left to right, appending a point to the input appends it to the result unless it repeats the last input point, so the kept points stay in input order |
| VecDedup.DedupKeepsDistinctNeighbours | map_model/src/make/intersections.rs:345 | a list without adjacent repeats is left unchanged |
| VecDedup.DedupIdempotent | map_model/src/make/intersections.rs:119 | deduplicating twice is deduplicating once |
| Degenerate.TrimEach | map_model/src/make/intersections.rs:121-137 | cutting a list of roads keeps the table size and leaves every road not in the list as it was |
| Degenerate.TrimEachTrims | map_model/src/make/intersections.rs:121-137 | distinct roads are each cut exactly once, from their original record |
| Degenerate.TrimRoadEnd | map_model/src/make/intersections.rs:69-86 | the in-place cut writes the cut road into its slot and changes no other slot |
| Degenerate.TrimAll | map_model/src/make/intersections.rs:121-137 | the in-place loop over the two roads leaves the table equal to cutting them one after the other |
| Degenerate.DeadEndPoints | map_model/src/make/intersections.rs:50-90 | four points when both walks of 2 × HALF_LENGTH succeed, in the order: walked point on the normal border, walked point on the reverse border, reverse border's end, normal border's end; otherwise exactly the two border ends |
| Degenerate.DeadEnd | map_model/src/make/intersections.rs:50-90 | the branch emits those points; when both walks succeed it cuts 2 × HALF_LENGTH off the road's end at the intersection, and otherwise it leaves the table untouched |
| Degenerate.DegreeTwoPoints | map_model/src/make/intersections.rs:91-146 | when all four borders are at least HALF_LENGTH long, the result is the deduplication of the four walked points in push order (first road's normal, second's reverse, second's normal, first's reverse): one to four points with no adjacent repeats, starting at the first and ending at the last walked point; otherwise the four raw border ends in the source's order |
| Degenerate.DegreeTwo | map_model/src/make/intersections.rs:91-146 | the branch emits those points; it cuts both roads by HALF_LENGTH exactly when every border is long enough, and otherwise it leaves the table untouched |
| Degenerate.DegreeTwoTrimsBoth | map_model/src/make/intersections.rs:121-137 | in a successful two-road joint, each of two distinct roads gets exactly HALF_LENGTH shorter and no other road changes |
| Fallback.Abs | map_model/src/make/intersections.rs:166-168 | the angle difference is non-negative and equal to the difference or its negation |
| Fallback.InfiniteHitOrEnd | map_model/src/make/intersections.rs:182-196 | the point is where the border meets the infinite line through the other border's last segment when they meet, and the border's own end only when they do not |
| Fallback.AddPair | map_model/src/make/intersections.rs:159-206 | in the easy case (angles more than 15 degrees apart and the borders meet) a pair adds exactly its corner. Otherwise it adds exactly two points: the first border against the infinite line of the previous road's reverse border, then the second border against the infinite line of the next road's normal border, each falling back to the border's own end. The points already there are kept as a prefix |
| Fallback.PushPair | map_model/src/make/intersections.rs:159-206 | one pass of the loop body appends exactly the pair's points |
| Fallback.FallbackPoints | map_model/src/make/intersections.rs:158-207 | the first `k` pairs contribute between `k` and `2k` points |
| Fallback.FallbackAllEasy | map_model/src/make/intersections.rs:158-177 | when every adjacent pair meets cleanly, the polygon is exactly one corner per pair, in angular order |
| Fallback.FallbackPolygon | map_model/src/make/intersections.rs:157-207 | the loop over all `n` pairs yields the fallback points, between `n` and `2n` of them, and touches no road |
| SolverLoop.Fold | map_model/src/make/intersections.rs:223-342 | the loop keeps the road table's size and can give up only at a road it has reached |
| SolverLoop.FoldSticky | map_model/src/make/intersections.rs:309 | once the loop has given up or panicked, later roads change nothing |
| SolverLoop.FoldStopsOnFailure | map_model/src/make/intersections.rs:223-342 | a panic of the loop is the panic of one of its steps |
| SolverLoop.FoldTouchesOnlyLines | map_model/src/make/intersections.rs:314-324 | the loop writes only to the roads it visits |
| SolverLoop.FoldPointCount | map_model/src/make/intersections.rs:332-341 | if every solved road contributes two to four points, `k` solved roads contribute between `2k` and `4k` |
| SolverLoop.FoldKeepsTrims | map_model/src/make/intersections.rs:223-342 | there is no rollback. When the loop gives up at a road, the roads before it keep the centerlines their steps stored, that road has no corner, and the others are untouched. While it runs, every road so far is trimmed |
| CornerSolver.ChooseShorter | map_model/src/make/intersections.rs:265-311 | none exactly when neither candidate exists; otherwise one of them, no longer than any existing candidate, with the forward one winning ties |
| CornerSolver.CornerCandidate | map_model/src/make/intersections.rs:240-263 | definition: the borders' intersection, then the centerline trimmed where the perpendicular through the corner meets it, or the panic when that perpendicular misses; its consequences are stated by `CornerSolver.CornerStepOutcome` and `CornerSolver.CornerStepPanics` |
| CornerSolver.RoadCenter | map_model/src/make/intersections.rs:230-234 | definition: the centerline as stored when the road ends at the intersection, reversed otherwise; used by `CornerSolver.StoredRunsSourceToDestination` |
| CornerSolver.CornerStep | map_model/src/make/intersections.rs:224-341 | definition of one road's step; its outcome, panics, points and choice are stated by the `CornerSolver.CornerStep*` lemmas, and `CornerSolver.SolveRoad` is proved equal to it |
| CornerSolver.CornerStepOutcome | map_model/src/make/intersections.rs:240-311 | a road gives up exactly when neither corner exists; a perpendicular that misses the centerline always panics |
| CornerSolver.CornerStepPanics | map_model/src/make/intersections.rs:240-330 | a road's step panics only for that road: a missed perpendicular or a failed shift of the trimmed centerline |
| CornerSolver.CornerStepPoints | map_model/src/make/intersections.rs:332-341 | a solved road adds 2 + (forward corner found) + (backward corner found) points, with the forward corner first and the backward corner last |
| CornerSolver.CornerStepPointSequence | map_model/src/make/intersections.rs:313-341 | a solved road's points are exactly, in push order: the forward corner if found, the last points of the normal and reverse borders of the chosen trimmed centerline offset by the road's lane bands as seen from the intersection, and the backward corner if found; those offsets always succeed for a solved road |
| CornerSolver.CornerStepChoice | map_model/src/make/intersections.rs:265-324 | a solved road keeps the shorter candidate, with ties going to the forward one; it is stored reversed when the road starts at the intersection |
| CornerSolver.StoredRunsSourceToDestination | map_model/src/make/intersections.rs:228-324 | for a road that is not a loop, the stored centerline oriented toward the intersection again is the chosen trim, which is one of the two corner candidates |
| CornerSolver.SolvePrefixStopsAt | map_model/src/make/intersections.rs:223-342 | the first road with no corner or a panic decides the solver's final state |
| CornerSolver.SolvePrefix | map_model/src/make/intersections.rs:223-342 | definition: the solver loop over the first `k` roads as a fold of `CornerSolver.CornerStep`; `CornerSolver.MakeNewPolygon` is proved against it and the `SolverLoop` lemmas state its properties |
| CornerSolver.SolveRoadAdvances | map_model/src/make/intersections.rs:223-342 | a solved road extends the run with its points and its new record; any other outcome is the run's final state |
| CornerSolver.CornerStepsBounded | map_model/src/make/intersections.rs:332-341 | every road the solver solves contributes two to four points |
| CornerSolver.SolvedPointCount | map_model/src/make/intersections.rs:221-342 | a run that solves all `n` roads emits between `2n` and `4n` points before the dedup |
| CornerSolver.SolveRoad | map_model/src/make/intersections.rs:224-341 | the loop body for one road performs that road's step against its current record; a solved road's slot holds its stored centerline and no other slot changes; a road with no corner leaves the table untouched |
| CornerSolver.AdvanceSolver | map_model/src/make/intersections.rs:223-342 | one pass of the loop advances the run: a solved road extends it; no corner ends it as given up with the current table; a panic ends it with that panic |
| CornerSolver.MakeNewPolygon | map_model/src/make/intersections.rs:216-348 | the method returns the deduplicated points with the table fully trimmed when every road is solved; when the solver gives up, it returns no polygon and the table holds the trims written so far; otherwise it returns the panic |
| Intersections.SortedLines | map_model/src/make/intersections.rs:20-46 | the sorted approaches exist exactly when every incident road's approach does; they are then exactly the stable whole-degree sort of the approaches built in incidence order, one per incident road, sorted by key, each naming an incident road |
| Intersections.Endpoints | map_model/src/make/intersections.rs:48-209 | definition: the open boundary and new road table by degree; its shape is stated by `Intersections.EndpointsShape` and `Intersections.CollectEndpoints` is proved equal to it |
| Intersections.EndpointsShape | map_model/src/make/intersections.rs:48-209 | no roads give no points; any road gives at least one and at most four per road; a dead end gives two or four; only the general solver (three or more roads) panics; only the roads in the list change |
| Intersections.IntersectionPolygon | map_model/src/make/intersections.rs:15-214 | a built polygon has at least two points and ends where it starts |
| Intersections.SolverPanicNamesRoad | map_model/src/make/intersections.rs:223-342 | a panic in the boundary step comes from the corner solver with at least three roads, and names one of those roads |
| Intersections.PanicReasons | map_model/src/make/intersections.rs:15-214 | an intersection without roads always panics on the empty ring. Every panic has a matching cause: a non-incident road in the list, a failed shift of an incident road, or a missed perpendicular at an intersection of three or more roads |
| Intersections.OnlyIncidentRoadsChange | map_model/src/make/intersections.rs:15-214 | the table keeps its size and roads not incident to the intersection are never modified |
| Intersections.RingSize | map_model/src/make/intersections.rs:48-213 | for `n` roads the closed ring has between 2 and `4n + 1` points; a dead end's has three or five |
| Intersections.CollectEndpoints | map_model/src/make/intersections.rs:48-209 | the degree dispatch over the road array yields the open boundary and leaves the table as the pure model says; a solver panic is passed on |
| Intersections.InitialIntersectionPolygon | map_model/src/make/intersections.rs:15-214 | the whole builder over the road array returns the closed ring and leaves the table exactly as the pure model says, or returns the pure model's panic |

## Left out

- The floating-point geometry has no laws in the model beyond `SliceHasLength`:
  - shift;
  - polyline intersection and infinite-line intersection;
  - `dist_along` and `safe_dist_along`;
  - slice, `trim_to_pt`, length;
  - angle of a line, `opposite`, `normalized_degrees`, `rotate_degs`, `project_away`.

  It is an opaque, total parameter. Rounding and NaN are not modelled, and lengths and coordinates are `real`.
- `dist_along` (line 104) and `slice` (lines 73-85, 124-135) can panic in the geometry library when asked for a distance past the end. In the model they are total, so such a panic is not modelled.
- `LANE_THICKNESS` is the `laneThickness` field of the geometry parameter, not a fixed constant.
- The logging calls `note`, `warn!` and `error!` (lines 88, 139, 151-155, 198-205) are not modelled. The fallback's `ok` flag feeds only that warning, so it is not modelled either.
- The commented-out alternative strategy at lines 277-308 is unfinished code that never runs, so it is not modelled.
- `importer/src/generic.rs` is not part of this model. It is download, shell-out and file I/O plumbing around code that is not shown.
- `wraparound_get` lives in another crate and is not part of this model. `Wraparound.WraparoundGet` models it as `lines[((idx % n) + n) % n]` with Rust's signed remainder.
- Borders.TruncateToIntBounds: the key is the exact truncation of a real. Rust's `as i64` also saturates at the ends of the 64-bit range and maps NaN to 0; neither is modelled.
- Borders.SortByAngle: `sort_by_key` sorts the vector in place. The model is a pure stable insertion sort on a sequence, because nothing else aliases `lines`. Its contract gives the sorted order and the permutation; stability is stated by `Borders.SortByAngleStable`. Neither states the library's algorithm.
- CornerSolver.SolveRoad: after a panic, the contract does not say what the road table holds. Panics unwind, and nothing reads the table afterwards.
- CornerSolver.MakeNewPolygon: after a panic, the road table is left unspecified, for the same reason.
- Intersections.CollectEndpoints: after a panic, the road table is left unspecified, for the same reason.
- Intersections.InitialIntersectionPolygon: after a panic, the road table is left unspecified, for the same reason.
- Road ids in an intersection's list must index the road table (`RoadsInRange`). The source assumes this of the map it builds.
