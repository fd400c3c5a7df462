# RockAndStoneProjector carving core, in Dafny

RockAndStoneProjector rebuilds a 3-D point model of a stone from photographs taken around it. Each photograph is reduced to a *silhouette*. A silhouette is a list of horizontal slices (`DoublePoint`: row `Y`, left boundary `X0`, right boundary `X1`). The program then carves a dense lattice of integer points (`Point3D`).

- It keeps the lattice points inside the reference silhouette.
- It sweeps the remaining views. Each view is rotated by its angle and the cloud is cut against it.
- It keeps only the end points of axis-parallel lines. This is the surface.
- It scales the cloud down by about half the sampling step.

This project models the integer core of `Projector.cs` as pure functions over sequences:

- `Normalize`: silhouette normalization.
- `Lattice`: the lattice.
- `Cuts`: the first cut and the two-pass rotational cut.
- `Surface`: surface extraction.
- `Shrink`: the final rescaling.
- `Pipeline`: the `GenerateModel` glue, covering section sizes, the reference view, the height and the sweep.

Every exception the C# code can raise on these paths is a `Failure` of the `Result` type in `Wrappers`:

- `EmptySequence` for `First()`, `Min()` and `Max()` on an empty list.
- `DivideByZero` for an integer division by zero.
- `IndexOutOfRange` for a list index out of range.

C# integer division truncates toward zero. It is modelled by `Arith.TDiv`, whose contract is the defining property of the truncated quotient.

Two things were abstracted:

- The floating-point projection `GetPointProjection` is a function parameter `proj(point, angleInDegrees)` with 32-bit integer results.
- `DoublePoint` is a class in C#, so the lambdas that assign to its fields mutate the caller's silhouettes. The model makes that mutation explicit (`Pipeline.Prepare`).

## Model

| member | source | states |
|---|---|---|
| Normalize.NormalizeTestPoints | RockAndStoneProjector/Projector.cs:197-212 | fails with an empty-sequence error exactly when the view is empty; otherwise the result has its first slice on row 0, no left boundary below 0 and some left boundary at 0, and is a translate of the input: row offsets, left-boundary offsets and slice widths are all preserved |
| Normalize.NormalizedIsFixedPoint | RockAndStoneProjector/Projector.cs:197-212 | a silhouette that is already normalized is returned unchanged |
| Normalize.TranslatesNormalizeAlike | RockAndStoneProjector/Projector.cs:197-212 | two silhouettes that differ by a translation normalize to the same result |
| Normalize.NormalizeIdempotent | RockAndStoneProjector/Projector.cs:197-212 | normalizing a normalized view changes nothing |
| Lattice.ZLoop | RockAndStoneProjector/Projector.cs:233-237 | the innermost loop emits exactly the points at fixed x and y whose z is on the grid from z below maxSize, ceil((maxSize-z)/step) of them, in increasing z |
| Lattice.XLoop | RockAndStoneProjector/Projector.cs:231-237 | the middle loop emits exactly the points at fixed y whose x is on the grid from x below minSize and whose z is on the grid below maxSize, ceil((minSize-x)/step)·ceil(maxSize/step) of them, in loop order |
| Lattice.YLoop | RockAndStoneProjector/Projector.cs:229-239 | the rows from `y` upward hold exactly the grid points of the remaining box, ceil((ySize-y)/step)·ceil(minSize/step)·ceil(maxSize/step) of them, in loop order |
| Lattice.MakeVirtualObject | RockAndStoneProjector/Projector.cs:222-243 | an empty y range gives no point for any step; for a positive step a point is in the lattice iff 0 <= y < ySize, 0 <= x < minSize, 0 <= z < maxSize and every coordinate is a multiple of step; the count is the product of the three ceilings; points come y-major then x then z, without duplicates |
| Cuts.MakeFirstCut | RockAndStoneProjector/Projector.cs:250-278 | the result is an order-preserving subsequence of the cloud; a point is kept iff some slice on its row has x0 < x < x1 (strict); each kept point keeps its multiplicity, so the `break` adds no duplicate |
| Cuts.InSection | RockAndStoneProjector/Projector.cs:259-270 | the scan over the slices finds a slice exactly when some slice on the point's row has x0 < x < x1, the negation of the `continue` test |
| Cuts.CollapsedSectionKeepsNothing | RockAndStoneProjector/Projector.cs:262-264 | against a silhouette whose slices all have x0 == x1 the strict test never passes and the first cut is empty |
| Cuts.Envelope | RockAndStoneProjector/Projector.cs:313-340 | row i of the first-pass projection list holds the least and greatest projection of the cloud points with Y/step == i, and the sentinels (int.MaxValue, int.MinValue) for rows no point reaches |
| Cuts.Widen | RockAndStoneProjector/Projector.cs:328-339 | one iteration of the first pass: only the point's row changes, and only when the list has that row; its new interval is the smallest one holding both its old ends and the point's projection, and its row number is kept |
| Cuts.CentreOffset | RockAndStoneProjector/Projector.cs:343-349 | diff is the truncated midpoint of the projection list's greatest right end and least left end, less that of the silhouette; its meaning in terms of the cloud is stated by the two lemmas below |
| Cuts.HitEnvelopeOffset | RockAndStoneProjector/Projector.cs:343-349 | when some point falls in a listed row, diff is the truncated midpoint of the greatest and least projections of those points less the silhouette's truncated midpoint: the sentinels do not take part |
| Cuts.EnvelopeExtremes | RockAndStoneProjector/Projector.cs:343 | when some point falls in a listed row, the largest right end and the smallest left end of the projection list are attained by such points and bound all of them |
| Cuts.UnhitEnvelopeOffset | RockAndStoneProjector/Projector.cs:343-349 | when no point falls in a listed row the sentinels cancel (int.MaxValue + int.MinValue is -1, halved to 0) and diff is minus the section's centre |
| Cuts.Retained | RockAndStoneProjector/Projector.cs:362-365 | the keep test of the second pass: the row index Y/step is below the section count, the corrected projection lies strictly between x0 - delta and x1 + delta of that slice, and Y equals the slice's row |
| Cuts.SecondPass | RockAndStoneProjector/Projector.cs:353-368 | an order-preserving subsequence; a point is kept iff its row index Y/step is inside the section, it lies on that slice's row, and its projection minus diff lies strictly between x0 - delta and x1 + delta; every kept point keeps all its copies and no other point is kept |
| Cuts.MakeSecondCut | RockAndStoneProjector/Projector.cs:303-371 | fails exactly when a point would index the projection list below 0 (division by a zero step included) or the section is empty, with the matching error; otherwise it is the second pass with diff taken from the first pass |
| Arith.TDiv | RockAndStoneProjector/Projector.cs:343-349 | the result is the quotient truncated toward zero: a - q·b has the sign of a and is smaller in magnitude than b |
| Surface.Group | RockAndStoneProjector/Projector.cs:414-433 | the grouping loop: one insertion per cloud point, in cloud order; what the dictionary then holds is stated by `Surface.GroupSpec` |
| Surface.GroupSpec | RockAndStoneProjector/Projector.cs:414-433 | the dictionary built by the grouping loop is well formed and the list under keys (o, i) holds exactly the coordinates of the cloud points on that line, in cloud order |
| Surface.Emit | RockAndStoneProjector/Projector.cs:436-445 | two points are emitted per dictionary entry, and a point is emitted exactly when it is the low or high end of some entry's line |
| Surface.Extract | RockAndStoneProjector/Projector.cs:436-445 | every emitted point is a cloud point at the low or high end of its line; both ends of every line that holds a cloud point are emitted; two points are emitted per distinct line, even when its minimum equals its maximum |
| Surface.RemoveInside | RockAndStoneProjector/Projector.cs:378-512 | the output is drawn from the cloud and consists of line ends only; for each of the three line families both ends of every cloud point's line are present; the length is twice the total number of distinct (z,y), (x,y) and (z,x) lines |
| Shrink.HalfStep | RockAndStoneProjector/Projector.cs:523-530 | the divisor is 1 for a step of at most 1 and ceil(step/2) otherwise |
| Shrink.ShrinkVirtualObject | RockAndStoneProjector/Projector.cs:520-541 | the length is unchanged and each point's three coordinates are its original ones divided by the divisor, truncated toward zero |
| Shrink.ShrinkIdentity | RockAndStoneProjector/Projector.cs:525-539 | for steps up to 2 the divisor is 1 and the cloud is unchanged |
| Shrink.ShrinkBounds | RockAndStoneProjector/Projector.cs:534-540 | a point with non-negative coordinates ends up in the cell of side d that contained it: d·q <= c < d·(q+1) per coordinate |
| Pipeline.NormalizeAll | RockAndStoneProjector/Projector.cs:669-691 | loading fails with an empty-sequence error exactly when some view is empty; otherwise each view is normalized as on its own |
| Pipeline.Collapse | RockAndStoneProjector/Projector.cs:706 | the side effect of `X1 = X0` on one view: the same slices, each keeping its row and left boundary, with the right boundary set to the left one |
| Pipeline.Prepare | RockAndStoneProjector/Projector.cs:706 | the size lambda as written (`X1 = X0`) leaves every slice of every view collapsed while keeping its row and left boundary; the difference selector leaves the views untouched |
| Pipeline.SectionSize | RockAndStoneProjector/Projector.cs:714-719 | a view's size is the largest selected value over its slices and is attained by one of them |
| Pipeline.Sizes | RockAndStoneProjector/Projector.cs:714-719 | one size per view, in view order, each the selector's maximum over that view |
| Pipeline.PreparedSizes | RockAndStoneProjector/Projector.cs:714-719 | running the selector's side effect first does not change any view's size: the assignment selector reads the left boundary, which the collapse keeps |
| Pipeline.ReferenceIndex | RockAndStoneProjector/Projector.cs:722-723 | the reference view has the least size, and no earlier view has that size (the first index of the minimum) |
| Pipeline.VerticalExtent | RockAndStoneProjector/Projector.cs:739 | ySize is the greatest last-minus-first row distance over the views and is attained by one of them |
| Pipeline.MakePlan | RockAndStoneProjector/Projector.cs:711-739 | from non-empty loaded views: the prepared views keep the loaded views' rows and left boundaries; size k is the selector's maximum over loaded view k; the reference is the first view of least size; ySize is the greatest height |
| Pipeline.PlanModel | RockAndStoneProjector/Projector.cs:688-739 | fails with an empty-sequence error exactly when there is no view or some view is empty; otherwise the views keep the rows and left boundaries of the normalized input views (and equal them under the width selector), size k is the selector's maximum over normalized view k, the reference is the first view of least size, and ySize is the greatest height |
| Pipeline.SweepIndex | RockAndStoneProjector/Projector.cs:754-756 | the single subtraction yields the view i places after the reference counted cyclically, (i + m) mod n, whenever i + m < 2n; from 2n on the index is past the end of the views |
| Pipeline.Sweep | RockAndStoneProjector/Projector.cs:752-761 | the sweep fails with an index error exactly when some cut would index past the views, that is when count - 1 + m >= 2·n; otherwise it keeps an order-preserving subsequence of its input, and a point keeps all its copies when it passes every remaining step k's cut and loses them all otherwise: view SweepIndex(k, m, n) exists and the point's projection at angle alphastep·k, less the centring offset that step computes from the cloud the earlier steps left, falls strictly inside that view's slice on its row |
| Pipeline.SweepStep | RockAndStoneProjector/Projector.cs:752-760 | one step's cut followed by the rest of the sweep is the sweep from that step: the step's offset, computed from the cloud it receives, heads the list of offsets, and the later offsets are computed from the cloud that cut leaves |
| Pipeline.SweepIsFilter | RockAndStoneProjector/Projector.cs:752-760 | a completed sweep equals the filter of its input by the sweep's test: the same points in the same order, every copy of each passing point and nothing else |
| Pipeline.Carve | RockAndStoneProjector/Projector.cs:744-768 | fails with a division error exactly when alphastep is 0 and with an index error exactly when the 100/alphastep cuts overrun the views; every point of a successful model has non-negative coordinates which, multiplied back by the shrink divisor, stay below ySize, minSize and maxSize, and the model is exactly the shrunk surface of the carved cloud: the lattice points held by the reference view, in lattice order, that pass all 100/alphastep rotational cuts |
| Pipeline.GenerateModel | RockAndStoneProjector/Projector.cs:664-772 | the error cases in source order (empty input, zero alphastep, sweep overrun); on success every point of the model has non-negative coordinates which, multiplied back by the shrink divisor, stay below the measured ySize, minSize and maxSize, and the model is exactly the shrunk surface of the carved cloud of the measured plan |
| Pipeline.EnoughViewsSucceed | RockAndStoneProjector/Projector.cs:752-756 | with non-empty views, a positive alphastep and no more cuts than views, the run succeeds |
| Pipeline.NoRotationalCuts | RockAndStoneProjector/Projector.cs:752 | an alphastep below 0 or above 100 gives no rotational cut: the model is the surface of the first cut, shrunk |
| Pipeline.AssignmentModelIsEmpty | RockAndStoneProjector/Projector.cs:718 | with the selector as written, every successful run produces an empty model |
| Pipeline.AssignmentModelOfTwoRows | RockAndStoneProjector/Projector.cs:718 | the two-row silhouette with the selector as written yields the empty model |
| Pipeline.DifferenceModelKeepsInterior | RockAndStoneProjector/Projector.cs:705 | the same silhouette with the width selector `X1 - X0` yields a non-empty model |
| Pipeline.FlatViewsGiveEmptyModel | RockAndStoneProjector/Projector.cs:739 | views that all have a single row give ySize 0 and an empty model, whatever the selector |

## Left out

- Image scanning (`GetTestPoints`, `GetObjectDoublePoints`, `Projector.cs:59-191`). It depends on bitmap locking and raw pixel copies, so the model starts from the silhouettes it produces.
- Directory listing and file-name parsing (`GetFiles`, `GetAlpha`, `Projector.cs:23-50`). These are I/O and floating-point parsing. The model receives the views already ordered.
- `GetPointProjection` (`Projector.cs:288-293`). This is atan2, sqrt and cos in double precision, so it is the parameter `proj`. Its results are typed as 32-bit integers, which keeps the comparison with the `int.MaxValue`/`int.MinValue` sentinels exact.
- The STL and XYZ writers, `GetFacet`, `GetVoxel` and all console output (`Projector.cs:546-655`, `Projector.cs:776`). These are output formatting and file writes. The console `Min` at line 706 is kept only for its side effect on the slices.
- The bounding box computed at the start of `RemoveInside` (`Projector.cs:384-411`). It is never read.
- `Mesher.cs`, `Program.cs` and `Slice.cs`. They are not part of this model: a wrapper over an external meshing library, the entry point, and an unused copy of `DoublePoint`.
- The property that re-projecting the carved cloud reproduces the silhouettes. It rests on the floating-point projection.
- The 32-bit wrap-around of coordinate sums, of the `Y / step` row arithmetic and of `alphastep * i` is not modelled. For the lattice sizes the program handles these never leave the 32-bit range. The only sum that can reach the limits is the sentinel sum in `diff`, and that one is exact.
- Lattice.MakeVirtualObject: requires a positive step or an empty y range. With a step of 0 and a non-empty y range the C# outer loop never ends. With a negative step it runs until the 32-bit counter wraps round, which is not modelled.
- Pipeline.GenerateModel: requires a positive step. `GenerateModel` only reaches the carving after the image scan has returned, and for such a step the scan never returns normally. With a step of 0 it loops forever on an image with rows (`Projector.cs:78`, `Projector.cs:81`), and on an image without rows `First()` throws (`Projector.cs:111`). With a negative step the byte offset leaves the pixel buffer and indexing throws (`Projector.cs:81`, `Projector.cs:86`): past its end while `offsetX * step` grows on a dark row, and below 0 once `offsetY` is negative.
- Pipeline.Sweep: requires points on non-negative rows. This always holds for lattice points, and a negative row would index the projection list below 0 in `MakeSecondCut`, which `Cuts.MakeSecondCut` models on its own.
- Surface.Extract: emits the end points of each line in the enumeration order of .NET `Dictionary`, which is insertion order when nothing is removed. Order is modelled, but only membership and count are stated.
- Pipeline.Carve: the success case does not name which carved points `RemoveInside` keeps; that is stated by `Surface.RemoveInside` on its own. Each cut's centring offset is defined by replaying the earlier cuts, because the code computes it from the cloud the cut receives.
- `RemoveInside` emits two points for a line whose minimum equals its maximum, as the code does. A one-point line therefore appears twice in the output.
- Pipeline.GenerateModel: the end-to-end scenario of a view with a single slice row does not produce points. `ySize` is last row minus first row, which is 0 for one row, so the lattice is empty; `Pipeline.FlatViewsGiveEmptyModel` states this.

## Findings

| source | as written | input that shows it | evidently intended | confidence | as-written member | corrected member |
|---|---|---|---|---|---|---|
| RockAndStoneProjector/Projector.cs:706 | the size lambdas `point => point.X1 = point.X0` (line 706) and `line => line.X1 = line.X0` (line 718) assign, so every slice of every view is collapsed to zero width and a size is the largest left boundary | the one-view silhouette of two slices rows 5 and 6, x0 = 3, x1 = 7, with step 1 and alphastep 200 | the width `X1 - X0`, as line 705 computes it | not executed | Pipeline.AssignmentModelOfTwoRows | Pipeline.DifferenceModelKeepsInterior |
