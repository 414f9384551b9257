# INGRID geometry and SF45 topology, in Dafny

This project models two parts of the INGRID mesh generator:

- the polyline and geometry primitives of `src/geometry.py`;
- the bookkeeping of the two-X-point "SF45" topology in `src/Topologies/SF45.py`.

It states and proves the properties those parts promise.

The flux tracer, the ψ evaluator, the line splitter and the other numerical
routines are left opaque. Traced lines and ψ values are inputs, and routines
whose bodies are not part of this model are function parameters. All
coordinates are exact reals. The Euclidean distance is an abstract function
that is only assumed to be symmetric and non-negative.

Modules:

- `Wrappers` (`wrappers.dfy`): `Option`, and `Result` for a Python call that
  returns or raises. `Exception` lists the exceptions the modelled code can raise.
- `Geometry` (`geometry.dfy`):
  - `Vector` with its offset and sign quadrant;
  - `Line`, with its construction-time snapshot of `xval`, `yval` and `length`;
  - `reverse`, `reverse_copy`, `straighten`, `points`, `calc_length` and `fluff`;
  - the `Cell` and `Patch` records.
- `Intersect` (`intersect.dfy`):
  - `test2points`;
  - `segment_intersect` as written;
  - the intended `segment_intersect`, with both sides proved.
- `Subgrid` (`subgrid.dfy`): the ψ parameterisation `psi_parameterize` of
  `make_subgrid`.
- `ConcatGrid` (`concat.dfy`): `concat_grid`. This covers:
  - the totals;
  - the fill of the two regions, with its index arithmetic;
  - the radial flip;
  - the poloidal concatenation.
- `SF45Patches` (`sf45patches.dfy`): `construct_patches`. This covers:
  - the source of every side of every patch: a traced line, a split half, or
    a reverse copy;
  - the seven splits;
  - the twelve plate cuts, with the `limiter_split` rotation as fallback;
  - the 27-entry patch dictionary and its plate flags;
  - `CheckPatches`.
- `SF45Settings` (`sf45settings.dfy`):
  - `GetNpoints`;
  - the `AdjustPatch` corner table;
  - `GetBoundaryPoints` and `SetPatchBoundaryPoints`;
  - the `CorrectDistortion` precedence and the patch loop of `construct_grid`.

## Model

| member | source | states |
|---|---|---|
| `Geometry.Sign` | src/geometry.py:32 | `int(np.sign(v))` is -1, 0 or 1, is 0 exactly when v is 0, and never has the opposite sign to v |
| `Geometry.Rev` | src/geometry.py:127 | `p[::-1]` has the same length, and entry i is entry n-1-i of the input |
| `Geometry.RevRev` | src/geometry.py:129-135 | reversing twice gives back the original point sequence |
| `Geometry.NewVector` | src/geometry.py:26-32 | a `Vector` keeps its point and origin; the offset is the point minus the origin; each quadrant component is -1, 0 or 1, is 0 exactly when the coordinate equals the origin's, and times the offset gives the offset's absolute value |
| `Geometry.VectorTranslationInvariant` | src/geometry.py:26-32 | moving the point and the origin by the same amount changes neither the offset nor the quadrant |
| `Geometry.Xs` | src/geometry.py:110 | `xval` has one entry per point, and it is that point's x |
| `Geometry.Ys` | src/geometry.py:111 | `yval` has one entry per point, and it is that point's y |
| `Geometry.PathLength` | src/geometry.py:187-191 | `calc_length` is 0 for fewer than two points, is never negative, and is at least the first gap |
| `Geometry.PathLengthSnoc` | src/geometry.py:187-191 | appending a point adds exactly the distance from the old last point to the length |
| `Geometry.PathLengthReverse` | src/geometry.py:187-191 | with a symmetric distance, the length of the reversed point list equals the original length |
| `Geometry.NewLine` | src/geometry.py:108-112 | `Line(points)` keeps the points and takes a snapshot of `xval`, `yval` and `length` that agrees with them |
| `Geometry.Reverse` | src/geometry.py:115-127 | in-place `reverse` reverses the points and leaves `xval`, `yval` and `length` as they were |
| `Geometry.ReverseCopyLaws` | src/geometry.py:129-135 | `reverse_copy` returns a fresh line over the reversed points, with the same length as a fresh original; twice it gives back the points, and on a fresh line the whole line |
| `Geometry.ReverseCopy` | src/geometry.py:129-135 | `reverse_copy` is a new line over the reversed points, with the original's path length; that its snapshot agrees with the reversed points is stated by `ReverseCopyLaws` |
| `Geometry.ReverseKeepsSnapshot` | src/geometry.py:108-127 | in-place `reverse` reverses `p` and is its own inverse, but `xval` and `yval` still list the coordinates in the original order; `length` stays correct only because the length is symmetric |
| `Geometry.ReverseLeavesStaleSnapshot` | src/geometry.py:108-127 | after `reverse` of the two-point line (0,0)->(1,0), `xval` is still [0, 1] while the points' x values are [1, 0] |
| `Geometry.Endpoints` | src/geometry.py:183-185 | `points()` raises IndexError exactly on an empty line; otherwise it gives the first point and the first point of the reversed line |
| `Geometry.Straighten` | src/geometry.py:137-144 | `straighten` raises IndexError exactly on an empty line; otherwise it gives a two-point line with a matching snapshot and the same end points |
| `Geometry.ChordLaws` | src/geometry.py:137-144 | `straighten` fails exactly on an empty line; otherwise it gives a two-point line with the same first and last points, whose length is the distance between them |
| `Geometry.EndpointsLaws` | src/geometry.py:183-185 | `points()` fails exactly on an empty line, and a reverse copy reports the two end points swapped |
| `Geometry.Linspace` | src/geometry.py:177 | `np.linspace(a, b, num, endpoint=False)` has num entries, and entry k is a + k(b-a)/num |
| `Geometry.FluffSegments` | src/geometry.py:175-177 | the appended linspace blocks of n samples hold (n-1)·num entries |
| `Geometry.FluffAxis` | src/geometry.py:172-181 | `fluff` on one axis fails on an empty line and on a negative num with two or more samples; otherwise it has (n-1)·num+1 entries, and the last is the last sample |
| `Geometry.Fluff` | src/geometry.py:172-181 | `fluff` succeeds exactly when the x array can be resampled; the two arrays then have the same length, and each is its axis resampled |
| `Geometry.FluffSegmentsEntry` | src/geometry.py:175-177 | entry i·num+k of the blocks interpolates k/num of the way from sample i to sample i+1 |
| `Geometry.FluffInterpolates` | src/geometry.py:172-181 | for num ≥ 1: (n-1)·num+1 entries; entry i·num+k is sample i moved k/num towards sample i+1; every sample i reappears at index i·num |
| `Geometry.FluffIgnoresReverse` | src/geometry.py:172-181 | `fluff` reads the snapshot, so an in-place `reverse` does not change its result |
| `Geometry.NewCell` | src/geometry.py:204-209 | `Cell(lines)` raises IndexError exactly on fewer than four lines; otherwise it keeps the list and reads it as N, S, E, W |
| `Geometry.NewPatch` | src/geometry.py:227-236 | `Patch(lines)` raises IndexError exactly on fewer than four lines; otherwise it keeps the list and reads it as N, E, S, W, and its border `p` is the North points followed by the South points |
| `Geometry.CellPatchFieldOrder` | src/geometry.py:204-236 | both constructors fail on fewer than four lines. Otherwise a `Cell` reads its lines as N, S, E, W and a `Patch` as N, E, S, W, so the same list swaps E and S between them. The patch border `p` is the North points followed by the South points |
| `Intersect.Test2Points` | src/geometry.py:762-788 | both returned signs are -1, 0 or 1 |
| `Intersect.Test2PointsOnLine` | src/geometry.py:762-788 | either end point of the line, and every point on the line through them, gets sign 0 |
| `Intersect.Test2PointsSwap` | src/geometry.py:762-788 | swapping p1 and p2 swaps the returned pair |
| `Intersect.Test2PointsReverseLine` | src/geometry.py:762-788 | swapping the line's end points negates both signs |
| `Intersect.CrossAlongSegment` | src/geometry.py:783-784 | the cross product that `test2points` takes the sign of is affine along the segment p1 -> p2 |
| `Intersect.OppositeSignsCross` | src/geometry.py:762-788 | strictly opposite signs mean that the segment p1 -> p2 meets the line at an interior point (the meaning the docstring gives the signs) |
| `Intersect.Solve` | src/geometry.py:861 | `np.linalg.solve` on 2x2 succeeds exactly when the determinant is non-zero, and raises LinAlgError otherwise |
| `Intersect.SolveContract` | src/geometry.py:861 | the solver's answer solves M·sol = r, and it is the only solution |
| `Intersect.AsWrittenSystem` | src/geometry.py:847-857 | the system as assembled is the intended system of the segments P -> R and Q -> S, which join the two lines' first samples and their second samples, not of the two lines |
| `Intersect.SegmentIntersect` | src/geometry.py:831-867 | as written: the only exceptions are IndexError and LinAlgError, and a returned solution lies in the unit square |
| `Intersect.SegmentIntersectContract` | src/geometry.py:831-867 | as written: IndexError exactly when a line has fewer than two samples; LinAlgError exactly when the matrix of lines 853-857 is singular; otherwise `(True, sol)` with M·sol = r when sol is in the unit square, and None when it is not |
| `Intersect.SegmentIntersectReadsTwoSamples` | src/geometry.py:847-848 | only the first two samples of each line affect the result |
| `Intersect.SegmentIntersectOnSegments` | src/geometry.py:847-867 | on two two-point lines, the call is the solve of the system as assembled at lines 847-857, then the unit-square test |
| `Intersect.SingularSegments` | src/geometry.py:853-861 | a singular assembled matrix makes the call raise LinAlgError |
| `Intersect.XShapedPairIsSingular` | src/geometry.py:847-861 | the crossing diagonals ((0,0),(1,1)) and ((0,1),(1,0)) make the assembled matrix singular, so the call raises |
| `Intersect.MissReturnsNone` | src/geometry.py:861-867 | a non-singular system whose solution is outside the unit square returns None, not a `(False, ...)` pair |
| `Intersect.IntendedSystemMeaning` | src/geometry.py:831-845 | a solution of the intended system is exactly a pair of parameters at which the two segments meet |
| `Intersect.SegmentIntersectIntended` | src/geometry.py:831-867 | corrected: the only exceptions are IndexError and LinAlgError, and a reported meeting has both parameters in [0, 1] |
| `Intersect.SegmentIntersectIntendedContract` | src/geometry.py:831-867 | the corrected function reports `Meet(s, t)` exactly when the segments share a point, with the parameters of that point, and `Apart` exactly when they share none; the error cases are as written |
| `Intersect.AllMeetingsSolve` | src/geometry.py:831-845 | with a non-singular intended system, every meeting point has the solver's parameters |
| `Intersect.SegmentIntersectIntendedOnSegments` | src/geometry.py:847-867 | on two two-point lines, the corrected call is the solve of the intended system, then the unit-square test |
| `Intersect.IntendedCrossing` | src/geometry.py:831-867 | the corrected call finds the crossing diagonals meeting at parameters (1/2, 1/2) |
| `Intersect.IntendedMiss` | src/geometry.py:861-867 | the corrected call reports a miss as `Apart` |
| `Intersect.IntendedSingularSegments` | src/geometry.py:861 | a singular intended system still raises LinAlgError |
| `Intersect.IntendedParallel` | src/geometry.py:861 | parallel segments make the intended system singular |
| `Subgrid.Weight` | src/geometry.py:297-298 | one sample's weight is \|ψ-ψ0\| / \|ψlast-ψ0\|, and it is never negative |
| `Subgrid.PsiParameterize` | src/geometry.py:286-300 | fails on an empty boundary (`r[-1]`) and when ψlast = ψ0 (division by zero); otherwise one non-negative weight per sample |
| `Subgrid.WeightAt` | src/geometry.py:294-298 | weight i is \|ψi-ψ0\| / \|ψlast-ψ0\| |
| `Subgrid.PsiParameterizeEnds` | src/geometry.py:286-300 | the first weight is 0 and the last is 1 |
| `Subgrid.MonotoneParameter` | src/geometry.py:286-300 | on a boundary along which ψ is monotone, the weights lie in [0, 1] and never decrease: a valid spline parameter |
| `Subgrid.WeightAffine` | src/geometry.py:297-298 | a weight is unchanged by an affine relabelling of ψ with a ≠ 0 |
| `Subgrid.AffineWeightAt` | src/geometry.py:286-300 | each weight is unchanged by an affine relabelling of ψ |
| `Subgrid.PsiParameterizeAffine` | src/geometry.py:286-300 | the parameterisation, errors included, is unchanged by an affine relabelling of ψ with a ≠ 0 |
| `Subgrid.WeightComplement` | src/geometry.py:297-298 | for a value between the ends, the weight seen from the other end is one minus the weight |
| `Subgrid.PsiParameterizeReverse` | src/geometry.py:286-300 | walking a monotone boundary backwards gives weight 1 - u[n-1-i] at sample i |
| `ConcatGrid.Slots` | src/Topologies/SF45.py:157-162 | an entry's five slots hold CENTER, SW, SE, NW, NE, in that order |
| `ConcatGrid.PyIndex` | src/Topologies/SF45.py:159-160 | Python indexing: -n ≤ i < n is accepted (a negative index counts from the end); anything else raises IndexError |
| `ConcatGrid.PolCheckSpec` | src/Topologies/SF45.py:113-114 | the row-1 poloidal count fails exactly when a `[None]` placeholder is among the region's row-1 entries, with AttributeError |
| `ConcatGrid.RadCheckSpec` | src/Topologies/SF45.py:116-117 | the radial count succeeds exactly when rows 1-3 all hold a patch in the region's first column; a short row raises IndexError, a placeholder AttributeError |
| `ConcatGrid.Totals` | src/Topologies/SF45.py:113-123 | the totals raise only IndexError or AttributeError, and each total is at least 2, the two guard rows |
| `ConcatGrid.TotalsConsistent` | src/Topologies/SF45.py:113-123 | on consistent input, np_total is the region's row-1 poloidal cells + 2 and nr_total is its first column's radial cells + 2 |
| `ConcatGrid.PositionFormula` | src/Topologies/SF45.py:152-155 | a cell's ixcell is the cells of the earlier columns + ixl + 1, and its jycell is the cells of the patches above it + jyl + 1 |
| `ConcatGrid.RowSumBelowFirstColumn` | src/Topologies/SF45.py:136-144 | no column of a consistent region holds more radial cells than its first column |
| `ConcatGrid.WriteInRange` | src/Topologies/SF45.py:125-161 | every write lies in [1, total-2] on both axes |
| `ConcatGrid.ColumnInRange` | src/Topologies/SF45.py:152-153 | a cell's poloidal index does not pass the region's total |
| `ConcatGrid.RowInRange` | src/Topologies/SF45.py:155 | a cell's radial index does not pass the region's total |
| `ConcatGrid.WriteInjective` | src/Topologies/SF45.py:146-155 | distinct (patch, ixl, jyl) are written to distinct entries |
| `ConcatGrid.ColumnsApart` | src/Topologies/SF45.py:152-153 | cells of an earlier column get smaller poloidal indices |
| `ConcatGrid.RowsApart` | src/Topologies/SF45.py:144-155 | cells of a higher row of the same column get smaller radial indices |
| `ConcatGrid.RegionWritesMembers` | src/Topologies/SF45.py:133-161 | the loop writes every cell of every present patch of the region, skips `[None]` entries, and writes nothing else |
| `ConcatGrid.ApplyCoherent` | src/Topologies/SF45.py:157-162 | in-range writes that agree on shared entries succeed; each written entry holds its cell's five vertices, and every other entry is unchanged |
| `ConcatGrid.RegionWritesFit` | src/Topologies/SF45.py:125-161 | the writes of a consistent region fit the arrays and never disagree on an entry |
| `ConcatGrid.FillIsApply` | src/Topologies/SF45.py:125-161 | the fill is the zero arrays with the loop's writes applied in order |
| `ConcatGrid.Fill` | src/Topologies/SF45.py:125-161 | the fill loop raises only IndexError, and a filled mesh keeps the np_total × nr_total shape of the zero arrays |
| `ConcatGrid.FillFromWrites` | src/Topologies/SF45.py:125-161 | the fill succeeds, every write lands, and every entry no write reaches stays zero |
| `ConcatGrid.TagEntry` | src/Topologies/SF45.py:146-162 | a visited cell's entry holds that cell |
| `ConcatGrid.UncoveredEntry` | src/Topologies/SF45.py:146-162 | an entry that is no cell's position is not written |
| `ConcatGrid.FillContents` | src/Topologies/SF45.py:125-161 | on consistent input one region's fill succeeds: each cell sits at its computed position with its five vertices in slot order, and every other entry keeps its zeros |
| `ConcatGrid.FillHolds` | src/Topologies/SF45.py:146-162 | every visited cell is held by an array that carries all the writes |
| `ConcatGrid.FillZeros` | src/Topologies/SF45.py:125-129 | an entry no write reaches keeps the zeros of `np.zeros` |
| `ConcatGrid.FillBordersZero` | src/Topologies/SF45.py:125-161 | indices 0 and total-1 on either axis keep their initial zeros |
| `ConcatGrid.Zeros` | src/Topologies/SF45.py:125-128 | `np.zeros((np, nr, 5))` has those dimensions, and every entry is zero |
| `ConcatGrid.Project` | src/Topologies/SF45.py:159-160 | `rm` holds the R and `zm` the Z coordinate of each mesh point, with the same shape |
| `ConcatGrid.Flip` | src/Topologies/SF45.py:199-207 | `a[i] = a[i][::-1]` keeps the poloidal length and reverses every radial row |
| `ConcatGrid.FlipFlip` | src/Topologies/SF45.py:199-207 | flipping twice restores the array |
| `ConcatGrid.FlipEntry` | src/Topologies/SF45.py:199-207 | after the flip, entry (i, j) is the pre-flip entry (i, nr-1-j) |
| `ConcatGrid.FlippedPoint` | src/Topologies/SF45.py:199-207 | mesh point (i, j, k) is, after projection and flip, entry (i, nr-1-j, k) of `rm` and `zm` |
| `ConcatGrid.Concatenate` | src/Topologies/SF45.py:220-221 | `np.concatenate` raises ValueError exactly when the radial extents differ; otherwise it is region 1's entries followed by region 2's |
| `ConcatGrid.Concat` | src/Topologies/SF45.py:98-221 | `concat_grid` raises only IndexError, AttributeError or ValueError, whatever the guard step |
| `ConcatGrid.ConcatLayout` | src/Topologies/SF45.py:98-221 | with both regions consistent, `concat_grid` (guard step left out) fails with ValueError exactly when the radial totals differ; otherwise it returns region 1's flipped arrays followed by region 2's |
| `ConcatGrid.JoinedFirst` | src/Topologies/SF45.py:199-221 | point (i, j, k) of region 1 is entry (i, nr-1-j, k) of the joined arrays |
| `ConcatGrid.JoinedSecond` | src/Topologies/SF45.py:199-221 | point (i, j, k) of region 2 is entry (np1+i, nr-1-j, k) of the joined arrays |
| `ConcatGrid.PlacedFirst` | src/Topologies/SF45.py:199-221 | all of region 1's mesh is placed, flipped, at the start of the joined arrays |
| `ConcatGrid.PlacedSecond` | src/Topologies/SF45.py:199-221 | all of region 2's mesh is placed, flipped, right after region 1's |
| `ConcatGrid.MeshesOf` | src/Topologies/SF45.py:98-221 | with the guard step taken as the identity, behind a successful `concat_grid` stand two filled meshes, placed in the result and holding every visited cell |
| `ConcatGrid.CellEntry` | src/Topologies/SF45.py:146-221 | a cell held by a placed mesh lands at its column and flipped row offsets |
| `ConcatGrid.JoinedCellFirst` | src/Topologies/SF45.py:133-221 | region 1's cells in the joined arrays, from the two meshes |
| `ConcatGrid.JoinedCellSecond` | src/Topologies/SF45.py:168-221 | region 2's cells in the joined arrays, from the two meshes |
| `ConcatGrid.CellPlacementFirst` | src/Topologies/SF45.py:98-221 | with the guard step taken as the identity: cell (ixl, jyl) of the region-1 patch in row r, column c is at poloidal index (cells of earlier columns) + ixl + 1 and radial index nr-2-(cells above it)-jyl of `rm`/`zm`; slot k holds its k-th vertex's R and Z |
| `ConcatGrid.CellPlacementSecond` | src/Topologies/SF45.py:98-221 | the same for region 2, with the guard step taken as the identity, columns 7-10 and the poloidal index shifted by np_total1 |
| `SF45Patches.Name` | src/Topologies/SF45.py:612-677 | each patch name is a family letter A-I followed by a row digit 1-3 |
| `SF45Patches.NameInjective` | src/Topologies/SF45.py:682-686 | distinct patches have distinct dictionary keys |
| `SF45Patches.Position` | src/Topologies/SF45.py:679-680 | every patch has a position in the patch list |
| `SF45Patches.OrderIsComplete` | src/Topologies/SF45.py:679-680 | the patch list holds exactly the 27 patches, each once |
| `SF45Patches.First` | src/Topologies/SF45.py:408 | `line.p[0]` fails exactly on an empty line, and is the first point |
| `SF45Patches.Last` | src/Topologies/SF45.py:402 | `line.p[-1]` fails exactly on an empty line, and is the last point |
| `SF45Patches.FirstOfReverse` | src/Topologies/SF45.py:405-408 | the first point of a reverse copy is the last point of the original, so I2_W.p[0] is F2_E.p[-1] |
| `SF45Patches.SplitAt` | src/Topologies/SF45.py:408 | a split whose split point cannot be read raises IndexError first; otherwise it is the splitter's result |
| `SF45Patches.Middle` | src/Topologies/SF45.py:457 | `p[len(p)//2]` fails exactly on an empty line and is the middle sample, the later of the two middle ones on an even count |
| `SF45Patches.Splits` | src/Topologies/SF45.py:402-522 | the seven splits run in the recipe's order and the first failure is raised: an empty F2_E line raises IndexError at the first split, whatever the other lines |
| `SF45Patches.SplitsSources` | src/Topologies/SF45.py:408-522 | each of the seven splits cuts the line the recipe names at the point it names; an empty F2_E raises IndexError |
| `SF45Patches.EvalReversed` | src/Topologies/SF45.py:319-558 | a reverse copy holds the reversed points of its original, and two reverse copies hold the original points |
| `SF45Patches.SharedPairsReversed` | src/Topologies/SF45.py:319-558 | in each of the 39 shared boundaries neither side is on a plate, and one side is built as the reverse copy of the other |
| `SF45Patches.SharedBoundariesReverse` | src/Topologies/SF45.py:319-558 | every shared boundary is a mutual reverse: each side's points are the other's in reverse order |
| `SF45Patches.DoubleReverseRestores` | src/Topologies/SF45.py:338-558 | the sides built as a reverse of a reverse (E2_S, D2_S, H2_S, H3_S, I3_W, D1_E, D2_E, D3_E) carry the traced line's own points, and no other side is built that way |
| `SF45Patches.PyCut` | src/Topologies/SF45.py:252 | the cut position of `p[i:]` / `p[:i]` follows Python's slice clamping, for negative and out-of-range i too |
| `SF45Patches.LimiterSplit` | src/Topologies/SF45.py:248-253 | when end_index ≤ start_index, point k of the result is old point (start+k) wrapped around (same length and multiset); otherwise the limiter is unchanged; the snapshot fields are never refreshed |
| `SF45Patches.RotationEntries` | src/Topologies/SF45.py:252 | entry k of `p[c:] + p[:c]` is entry c+k of p, wrapped around |
| `SF45Patches.LimiterSplitStartsAtStart` | src/Topologies/SF45.py:248-253 | after a rotation, the old point at the start's index comes first |
| `SF45Patches.Cut` | src/Topologies/SF45.py:562 | `plate.split(a)[1].split(b, add_split_point=True)[0]` succeeds exactly when both splits do, and is the first half of the second split |
| `SF45Patches.Segment` | src/Topologies/SF45.py:561-564 | an unreadable end point raises IndexError |
| `SF45Patches.SegmentCut` | src/Topologies/SF45.py:561-564 | a successful plate segment is the cut of the plate as returned, and that plate holds the original points |
| `SF45Patches.SegmentFallback` | src/Topologies/SF45.py:561-564 | a cut that succeeds on the plate as it is wins and leaves the plate alone; otherwise the result is the cut on the `limiter_split` rotation, which becomes the plate, and its failure propagates, with `find_split_index` taken as never raising |
| `SF45Patches.PlateRun` | src/Topologies/SF45.py:561-572 | a plate's cuts give one segment per pair of end points, and a failing first cut's exception is raised |
| `SF45Patches.PlateRunKeepsPoints` | src/Topologies/SF45.py:561-572 | the plate after its three cuts has the same points, perhaps rotated |
| `SF45Patches.PlateRunCuts` | src/Topologies/SF45.py:561-572 | every segment of a run is cut between its named end points from an arrangement of the original plate's points |
| `SF45Patches.CutFromSamePoints` | src/Topologies/SF45.py:561-572 | a cut from one arrangement of a plate's points is a cut from any plate with the same points |
| `SF45Patches.PlateSidesMatch` | src/Topologies/SF45.py:561-610 | a side lies on a plate exactly when its patch is cut from a plate and the side is that plate's side: W for the A and H patches, E for the I and G patches |
| `SF45Patches.PlatePatches` | src/Topologies/SF45.py:561-610 | each plate cuts three patches, one per row, in row order |
| `SF45Patches.RunEnds` | src/Topologies/SF45.py:561-610 | the end points of a plate's three cuts are those of its patches, in row order |
| `SF45Patches.PlateCuts` | src/Topologies/SF45.py:561-610 | on success each plate has three segments |
| `SF45Patches.GatherRuns` | src/Topologies/SF45.py:561-610 | the twelve segments are gathered exactly when all four plates' cuts succeed, each plate holding its own run's segments; otherwise the first failing plate's exception, in the order WestPlate1, WestPlate2, EastPlate1, EastPlate2 |
| `SF45Patches.PlateCutsRuns` | src/Topologies/SF45.py:561-610 | when the plate cuts succeed, every plate's run did, and its segments are that run's |
| `SF45Patches.PlateCutsFail` | src/Topologies/SF45.py:561-610 | the plate cuts fail only when some plate's run fails, and a failing WestPlate1 run's exception is the one raised |
| `SF45Patches.Table` | src/Topologies/SF45.py:612-686 | the dictionary entries follow the patch list, each built by its own recipe |
| `SF45Patches.ConstructPatches` | src/Topologies/SF45.py:255-686 | a failing split or plate cut is the exception raised; otherwise there are 27 patches |
| `SF45Patches.PatchDictionary` | src/Topologies/SF45.py:679-686 | each patch name is a key exactly once, in the list's order, and each patch is at its position |
| `SF45Patches.PlateFlags` | src/Topologies/SF45.py:612-622 | exactly A1, A2 and A3 have platePatch set, with plateLocation 'W'; no other patch has a plate location |
| `SF45Patches.CheckPatches` | src/Topologies/SF45.py:720-724 | the patches checked are exactly the names of the flagged patches, and there are no more of them than patches |
| `SF45Patches.CheckPatchesByName` | src/Topologies/SF45.py:720-724 | on a table whose flags follow the A-patch rule, the patches checked are the A names of its name column |
| `SF45Patches.CheckPatchesVisitsA` | src/Topologies/SF45.py:720-724 | after a successful construction `CheckPatches` visits A3, A2 and A1, in that order, and nothing else |
| `SF45Patches.TableColumns` | src/Topologies/SF45.py:612-686 | the name, flag and plate-location columns of the dictionary follow the patch list |
| `SF45Patches.PlateNamesOfOrder` | src/Topologies/SF45.py:679-680 | of the patch list, only the first three entries are plate patches |
| `SF45Patches.TableSharedBoundaries` | src/Topologies/SF45.py:319-686 | in the constructed patches every shared boundary is a mutual reverse |
| `SF45Patches.BoundaryOfMade` | src/Topologies/SF45.py:612-677 | each patch's N, E, S, W sides are the lines the recipe assigns to them |
| `SF45Patches.PlateSideCut` | src/Topologies/SF45.py:561-610 | each plate side of the constructed patches is cut between its named end points from an arrangement of its plate's points |
| `SF45Settings.Get` | src/Topologies/SF45.py:752 | a key read succeeds exactly when the section and the key exist, and raises KeyError otherwise |
| `SF45Settings.Lookup` | src/Topologies/SF45.py:751-754 | the region's key wins, the global key stands in for it, and KeyError is raised when neither exists |
| `SF45Settings.Resolve` | src/Topologies/SF45.py:750-792 | the resolution raises only KeyError or ValueError, and succeeds only when all six lookups do |
| `SF45Settings.ResolveAgrees` | src/Topologies/SF45.py:750-792 | after the checks np_sol = np_core and nr_pf = nr_core; np_pf and nr_sol keep their looked-up values |
| `SF45Settings.ResolveEnforced` | src/Topologies/SF45.py:763-792 | with Enforce and all keys readable, a mismatch of either checked pair raises ValueError, and exactly then; otherwise the looked-up values stand |
| `SF45Settings.ResolveClamped` | src/Topologies/SF45.py:763-792 | without Enforce, only a missing key fails (KeyError), and each checked pair becomes the minimum of its two values |
| `SF45Settings.PoloidalCheckFirst` | src/Topologies/SF45.py:750-770 | a poloidal mismatch under Enforce raises ValueError before any radial key is read |
| `SF45Settings.PlateCells` | src/Topologies/SF45.py:794-798 | a patch that is not a plate patch, or whose plate location is neither W nor E, reads no plate setting; a West plate patch reads `np_local` of `plate_W1` and an East one that of `plate_E1`, with KeyError exactly when the section, the plate or the key is missing |
| `SF45Settings.GetNpoints` | src/Topologies/SF45.py:750-800 | the call always raises: first the resolution's error if there is one, and NameError (the unassigned `nr_cells`) exactly when the resolution and the plate lookup succeed; when only the plate lookup fails, its KeyError is raised |
| `SF45Settings.SnapsOfPatch` | src/Topologies/SF45.py:802-833 | the corner snaps of each of the 27 patches are those of the table: A2 (xpt1, SE), A1 (xpt1, NE), and so on, and F2 gets (xpt1, SW) then (xpt2, NE) |
| `SF45Settings.SnapCounts` | src/Topologies/SF45.py:802-833 | the C, D and I patches and A3, B3, E3, G1, H1 are never snapped; F2 alone is snapped twice |
| `SF45Settings.AdjustPatch` | src/Topologies/SF45.py:802-833 | the corner snapping fails exactly when the X-point lookup does, with its exception, with `adjust_corner` taken as never raising |
| `SF45Settings.AdjustPatchCases` | src/Topologies/SF45.py:802-833 | F2 is adjusted at SW with xpt1 and then at NE with xpt2; a patch without snaps is unchanged; a failed X-point lookup raises for every tag |
| `SF45Settings.ScanAt` | src/Topologies/SF45.py:734-748 | with unique names: an absent name or an unknown boundary letter gives None, and otherwise the result is the named patch's S, N or W vertices |
| `SF45Settings.EastReadsWest` | src/Topologies/SF45.py:744-747 | asking for the 'E' boundary returns the same as asking for 'W' |
| `SF45Settings.SetPatchBoundaryPoints` | src/Topologies/SF45.py:727-732 | a tag with no connexion-map entry (or a None one) leaves the boundary points unchanged |
| `SF45Settings.ReadBoundary` | src/Topologies/SF45.py:739-747 | a vertex array the patch lacks raises AttributeError; 'E' and 'W' both read `W_vertices`, 'S' reads `S_vertices` and 'N' reads `N_vertices` |
| `SF45Settings.GetBoundaryPoints` | src/Topologies/SF45.py:734-748 | no adjacent patch gives None, and the only exception is AttributeError |
| `SF45Settings.SetBoundaries` | src/Topologies/SF45.py:727-732 | updating a patch's boundary points raises only AttributeError; it keeps every key and adds every listed boundary |
| `SF45Settings.SetBoundariesFrame` | src/Topologies/SF45.py:727-732 | the update fails exactly when one of the lookups does. Otherwise each listed boundary holds its adjacent patch's vertices, the keys are the old ones plus the listed boundaries, and every unlisted entry is kept |
| `SF45Settings.DistortionFor` | src/Topologies/SF45.py:859-864 | a patch's distortion setting is its own, the 'all' one, or the inactive one |
| `SF45Settings.DistortionPrecedence` | src/Topologies/SF45.py:859-864 | for any `CorrectDistortion` map: a patch's own setting overrides 'all'; the 'all' setting applies to every patch without its own; with neither, the correction is inactive |
| `SF45Settings.SelectsEverything` | src/Topologies/SF45.py:865 | as written, with 'all' every patch is selected, because the patch object is never among the string keys |
| `SF45Settings.RebuildsBuiltPatch` | src/Topologies/SF45.py:865 | as written, a patch already in `CurrentListPatch` is still selected |
| `SF45Settings.BuildPatch` | src/Topologies/SF45.py:866-871 | one selected patch: an error of the boundary step comes first; then KeyError when `nr_global` or `np_global` is missing; otherwise the subgrid is built with np_global and nr_global |
| `SF45Settings.BoundaryStepFirst` | src/Topologies/SF45.py:865-867 | a selected patch whose boundary step raises makes the loop raise that exception, even when `nr_global` is missing, under both selection tests |
| `SF45Settings.GridLoopAsWritten` | src/Topologies/SF45.py:857-874 | as written: with 'all' the patches built are all the names, in order; every stored patch is kept and every built one is stored |
| `SF45Settings.ConstructGrid` | src/Topologies/SF45.py:854-874 | as written: with 'all' every patch is rebuilt and stored, whether or not it was built before; without RestartScratch the stored patches stay stored |
| `SF45Settings.GridLoop` | src/Topologies/SF45.py:857-874 | with the intended test: no more patches are built than names, each built one is a name and is stored, and every stored patch is kept |
| `SF45Settings.ConstructGridIntended` | src/Topologies/SF45.py:854-874 | with the intended test: each built patch is a name and is stored; without RestartScratch the stored patches stay stored |
| `SF45Settings.GridLoopAll` | src/Topologies/SF45.py:857-874 | with the intended test and 'all', exactly the patches not yet built are built, in dictionary order; all patches are then stored, and earlier ones are kept |
| `SF45Settings.RestartBuildsAll` | src/Topologies/SF45.py:854-874 | with RestartScratch and 'all', every patch is built, in dictionary order, both as written and with the intended test; with the intended test exactly the patches are stored |
| `SF45Settings.GridLoopListed` | src/Topologies/SF45.py:857-874 | with a list, exactly the listed patches are built, in dictionary order, and unlisted stored patches are kept |
| `SF45Settings.AsWrittenRebuilds` | src/Topologies/SF45.py:865-874 | as written, a second `construct_grid` without RestartScratch rebuilds an already built A1 and replaces it; the intended version keeps it |

## Left out

- The flux tracer (`draw_line`) is left out. The model takes each traced line as an input, so the start points the recipe passes to it (`xpt1N__psiMinCore.p[-1]`, and so on) are not modelled.
- `Line.split`, `find_split_index`, `Patch.adjust_corner`, `add_guardc`, `CheckPatch`, `make_subgrid` and `get_tag` are function parameters or opaque steps. Their bodies are not part of this model.
- The ψ evaluator (`psi_norm.get_psi`) is left out: `psi_parameterize` takes the sequence of ψ values. The spline fitting, `refine`, `intersect` (fsolve) and `calc_mid_point` are floating-point numerics and are left out.
- `src/Root_Finder.py`, all plotting and printing, and the `Verbose` logging in `concat_grid` are left out. That logging would raise NameError at `src/Topologies/SF45.py:162` when reached.
- The Euclidean distance (a square root) is an abstract symmetric, non-negative function. Coordinates are exact reals, not floats.
- ConcatGrid.FillContents: proved only for a consistent patch matrix, where every patch in a column is as wide as the row-1 patch and every patch in a row is as high as the column's first patch. On other input the Python code can wrap negative indices or collide writes. The model computes those cases (`Fill`, `PyIndex`) but proves nothing about them.
- ConcatGrid.ConcatLayout: the guard-cell step `add_guardc` is replaced by the identity, because its body is not part of this model.
- ConcatGrid.MeshesOf: proved for `concat_grid` with the guard step taken as the identity (`add_guardc` is not part of this model).
- ConcatGrid.CellPlacementFirst: the placement is proved with the guard step taken as the identity; what `add_guardc` does to the arrays is not part of this model.
- ConcatGrid.CellPlacementSecond: the placement is proved with the guard step taken as the identity; what `add_guardc` does to the arrays is not part of this model.
- SF45Settings.AdjustPatch: `adjust_corner` (`src/Topologies/SF45.py:807-833`) is a total function parameter, so the model promises success whenever the X-point lookup succeeds; an exception raised inside `adjust_corner` is not modelled, because its body is not part of this model.
- SF45Patches.SegmentFallback: `find_split_index` (`src/Topologies/SF45.py:249-250`) is a total function parameter returning an index, so an exception it raises, or a result that does not unpack into two values, is not modelled; its body is not part of this model.
- Subgrid.PsiParameterize: when ψlast = ψ0 the model raises ZeroDivision. With numpy floats the source divides by zero without raising and gets inf or nan weights, which exact reals cannot represent.
- SF45 calls `Patch` with `patchName`, `platePatch` and `plateLocation`, which `Patch` in `src/geometry.py` does not accept. The patches of the recipe are therefore a record of their own, `NamedPatch`. `parent` and `PatchTagMap` are not modelled.
- `self.patch_matrix` is an input of `concat_grid`; how it is built is not part of this model. The `npol`/`nrad` loop at `src/Topologies/SF45.py:109-111` runs over `self.patches.values()`; the model (`GridsNonEmpty`) asks the same of the entries of the patch matrix, which are taken to be those patches.
- SF45Settings.GetNpoints: models the key resolution, the two consistency checks and the plate lookup. The printed warnings are left out.
- `construct_grid`: the boundary step is a `prepare` parameter; only whether it raises matters to the loop, and what it stores is modelled by `SetPatchBoundaryPoints`. The subgrid and corner snapping are one `build` parameter. The distortion setting is modelled on its own (`DistortionFor`). When `ListPatches` is a string other than 'all', Python's `name in ListPatches` is a substring test; the model takes a list of names. On a failure `GridLoop` and `GridLoopAsWritten` return only the exception; the patches the same run stored before it, which `self.CurrentListPatch` keeps in the source (`src/Topologies/SF45.py:873`) and a later resumed run would find, are not returned.
- The debug and visual settings read at the top of `construct_patches` and `construct_grid` are left out. So are the other settings reads of `construct_patches` that can raise KeyError (`rmagx`, `zmagx`, their shifts, the `psi_*` values and `limiter.use_limiter`) and the `xpt1`/`xpt2` lookups of `src/Topologies/SF45.py:263-295`; the traced lines that depend on them are inputs. `ConnexionMap`, which `SF45.__init__` (`src/Topologies/SF45.py:25-42`) never sets, is the parameter `conn` of `SetPatchBoundaryPoints`.

## Findings

| source | as written | input that shows it | evidently intended | confidence | as-written member | corrected member |
|---|---|---|---|---|---|---|
| src/geometry.py:847-848 | the unpacking pairs line 1's first sample with line 2's first sample as (xa, ya), (xb, yb), so the matrix mixes the two lines | the crossing diagonals ((0,0),(1,1)) and ((0,1),(1,0)) give a singular matrix and LinAlgError | solve P + s(Q-P) = R + t(S-R) and report the meeting at (1/2, 1/2) | not executed | `Intersect.XShapedPairIsSingular` | `Intersect.SegmentIntersectIntendedContract` |
| src/geometry.py:866-867 | the else branch evaluates `False, (None,None)` without `return`, so a miss returns None | segments (0,0)-(1,0) and (0,1)-(0,2) return None | return a "no intersection" answer | not executed | `Intersect.MissReturnsNone` | `Intersect.IntendedMiss` |
| src/Topologies/SF45.py:865 | `patch not in self.CurrentListPatch` tests a patch object against the name keys, which is always true | a second `construct_grid` with A1 already built rebuilds and replaces A1 | build only the patches whose name is not yet a key | not executed | `SF45Settings.AsWrittenRebuilds` | `SF45Settings.GridLoopAll` |

