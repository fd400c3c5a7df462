/** `GenerateModel`: the silhouettes of all views are normalized and measured,
    a box of lattice points is built from the measurements, carved by the
    reference view and then by one view per angle step, reduced to its
    surface and scaled down. Reading the images and writing the XYZ and STL
    files are outside the model: the views arrive as a list of silhouettes
    and the model returns the final cloud. */
module Pipeline {
  import opened Wrappers
  import opened Geometry
  import opened Arith
  import opened Seqs
  import Normalize
  import Lattice
  import Cuts
  import Surface
  import Shrink

  // ---------------------------------------------------------------------------
  // Loading and measuring the views.
  // ---------------------------------------------------------------------------

  /** `NormalizeTestPoints` applied to each view in turn; an empty view makes
      `First()` throw, and every such exception is the same error. */
  function NormalizeAll(raw: seq<seq<DoublePoint>>): (r: Result<seq<seq<DoublePoint>>>)
    ensures r.Failure? <==> exists k :: 0 <= k < |raw| && |raw[k]| == 0
    ensures r.Failure? ==> r.error == EmptySequence
    ensures r.Success? ==> |r.value| == |raw|
    ensures r.Success? ==> forall k :: 0 <= k < |raw| ==> Normalize.NormalizeTestPoints(raw[k]) == Success(r.value[k])
  {
    if exists k :: 0 <= k < |raw| && |raw[k]| == 0 then Failure(EmptySequence)
    else Success(seq(|raw|, k requires 0 <= k < |raw| => Normalize.NormalizeTestPoints(raw[k]).value))
  }

  /** The two readings of the size selector. `Assignment` is the code as
      written, `line => line.X1 = line.X0`: an assignment that sets every
      slice's right boundary to its left one and yields the left boundary.
      `Difference` is the width `line.X1 - line.X0` that the neighbouring
      console line measures. */
  datatype SizeMode = Assignment | Difference

  /** The value the selector yields for one slice. */
  function Selected(mode: SizeMode, d: DoublePoint): int {
    match mode
    case Assignment => d.x0
    case Difference => d.x1 - d.x0
  }

  /** The side effect of the assignment selector on one view: each slice's
      right boundary becomes its left boundary. */
  function Collapse(section: seq<DoublePoint>): (r: seq<DoublePoint>)
    ensures |r| == |section|
    ensures forall k :: 0 <= k < |r| ==>
      r[k].y == section[k].y && r[k].x0 == section[k].x0 && r[k].x1 == r[k].x0
  {
    seq(|section|, k requires 0 <= k < |section| => DoublePoint(section[k].y, section[k].x0, section[k].x0))
  }

  /** Every slice of every view has equal boundaries. */
  ghost predicate AllCollapsed(views: seq<seq<DoublePoint>>) {
    forall k, i :: 0 <= k < |views| && 0 <= i < |views[k]| ==> views[k][i].x0 == views[k][i].x1
  }

  /** `a` has the rows and left boundaries of `b`, view by view and slice by slice. */
  ghost predicate SameOutline(a: seq<seq<DoublePoint>>, b: seq<seq<DoublePoint>>) {
    && |a| == |b|
    && (forall k :: 0 <= k < |a| ==> |a[k]| == |b[k]|)
    && (forall k, i :: 0 <= k < |a| && 0 <= i < |a[k]| && i < |b[k]| ==>
          a[k][i].y == b[k][i].y && a[k][i].x0 == b[k][i].x0)
  }

  /** The views after the selector has run over them. */
  function Prepare(mode: SizeMode, views: seq<seq<DoublePoint>>): (r: seq<seq<DoublePoint>>)
    ensures |r| == |views|
    ensures forall k :: 0 <= k < |r| ==> |r[k]| == |views[k]|
    ensures forall k, i :: 0 <= k < |r| && 0 <= i < |r[k]| ==>
      r[k][i].y == views[k][i].y && r[k][i].x0 == views[k][i].x0
    ensures mode == Difference ==> r == views
    ensures mode == Assignment ==> AllCollapsed(r)
  {
    match mode
    case Assignment => seq(|views|, k requires 0 <= k < |views| => Collapse(views[k]))
    case Difference => views
  }

  /** `section.Max(selector)`: the largest value the selector yields over the
      view's slices. */
  function SectionSize(mode: SizeMode, section: seq<DoublePoint>): (v: int)
    requires |section| > 0
    ensures exists k :: 0 <= k < |section| && v == Selected(mode, section[k])
    ensures forall k :: 0 <= k < |section| ==> Selected(mode, section[k]) <= v
  {
    var values := seq(|section|, k requires 0 <= k < |section| => Selected(mode, section[k]));
    var v := Max(values);
    assert forall k :: 0 <= k < |section| ==> values[k] == Selected(mode, section[k]);
    v
  }

  /** Views whose slices yield the same selector values have the same size. */
  lemma SameSelectionSameSize(mode: SizeMode, a: seq<DoublePoint>, b: seq<DoublePoint>)
    requires |a| == |b| > 0
    requires forall i :: 0 <= i < |a| ==> Selected(mode, a[i]) == Selected(mode, b[i])
    ensures SectionSize(mode, a) == SectionSize(mode, b)
  {
    var va, vb := SectionSize(mode, a), SectionSize(mode, b);
    var ka :| 0 <= ka < |a| && va == Selected(mode, a[ka]);
    var kb :| 0 <= kb < |b| && vb == Selected(mode, b[kb]);
    assert va <= vb && vb <= va;
  }

  /** The selector's side effect does not change the size it measures: the
      assignment selector reads the left boundary, which it keeps. */
  lemma PreparedSizes(mode: SizeMode, views: seq<seq<DoublePoint>>)
    requires forall k :: 0 <= k < |views| ==> |views[k]| > 0
    ensures forall k :: 0 <= k < |views| ==> SectionSize(mode, Prepare(mode, views)[k]) == SectionSize(mode, views[k])
  {
    var prepared := Prepare(mode, views);
    forall k | 0 <= k < |views| ensures SectionSize(mode, prepared[k]) == SectionSize(mode, views[k]) {
      forall i | 0 <= i < |views[k]| ensures Selected(mode, prepared[k][i]) == Selected(mode, views[k][i]) {
        if mode == Assignment {
          assert prepared[k][i].x0 == views[k][i].x0;
        }
      }
      SameSelectionSameSize(mode, prepared[k], views[k]);
    }
  }

  /** `sizes`: one size per view, in view order. */
  function Sizes(mode: SizeMode, views: seq<seq<DoublePoint>>): (r: seq<int>)
    requires forall k :: 0 <= k < |views| ==> |views[k]| > 0
    ensures |r| == |views|
    ensures forall k :: 0 <= k < |r| ==> r[k] == SectionSize(mode, views[k])
  {
    seq(|views|, k requires 0 <= k < |views| => SectionSize(mode, views[k]))
  }

  /** `sizes.IndexOf(sizes.Min())`: the first view of least size. */
  function ReferenceIndex(sizes: seq<int>): (k: nat)
    requires |sizes| > 0
    ensures k < |sizes|
    ensures forall j :: 0 <= j < |sizes| ==> sizes[k] <= sizes[j]
    ensures forall j :: 0 <= j < k ==> sizes[k] < sizes[j]
  {
    var m := Min(sizes);
    IndexOf(sizes, m)
  }

  /** Rows from the first slice of a view to its last. */
  function Height(section: seq<DoublePoint>): int
    requires |section| > 0
  {
    section[|section| - 1].y - section[0].y
  }

  /** `ySize`: the largest `Last().Y - First().Y` over the views. */
  function VerticalExtent(views: seq<seq<DoublePoint>>): (h: int)
    requires |views| > 0
    requires forall k :: 0 <= k < |views| ==> |views[k]| > 0
    ensures exists k :: 0 <= k < |views| && h == Height(views[k])
    ensures forall k :: 0 <= k < |views| ==> Height(views[k]) <= h
  {
    var heights := seq(|views|, k requires 0 <= k < |views| => Height(views[k]));
    var h := Max(heights);
    assert forall k :: 0 <= k < |views| ==> heights[k] == Height(views[k]);
    h
  }

  /** What `GenerateModel` knows before carving: the views, their sizes, the
      reference view (`minSecIndex`) and the vertical extent. */
  datatype Plan = Plan(views: seq<seq<DoublePoint>>, sizes: seq<int>, reference: nat, ySize: int)

  ghost predicate ValidPlan(plan: Plan) {
    && |plan.views| > 0
    && |plan.sizes| == |plan.views|
    && plan.reference < |plan.views|
    && forall k :: 0 <= k < |plan.views| ==> |plan.views[k]| > 0
  }

  /** `minSize`: the least size, which bounds the lattice along x. */
  function MinSize(plan: Plan): int
    requires ValidPlan(plan)
  {
    plan.sizes[plan.reference]
  }

  /** `maxSize`: the largest size, which bounds the lattice along z. */
  function MaxSize(plan: Plan): int
    requires ValidPlan(plan)
  {
    Max(plan.sizes)
  }

  /** The sizes of a plan are those of its views: `sizes[k]` is the
      selector's maximum over view `k`, and the reference is the first view
      of least size. */
  ghost predicate SizesMeasured(mode: SizeMode, plan: Plan)
    requires ValidPlan(plan)
  {
    && (forall k :: 0 <= k < |plan.views| ==> plan.sizes[k] == SectionSize(mode, plan.views[k]))
    && (forall k :: 0 <= k < |plan.views| ==> plan.sizes[plan.reference] <= plan.sizes[k])
    && (forall k :: 0 <= k < plan.reference ==> plan.sizes[plan.reference] < plan.sizes[k])
  }

  /** `ySize` is the greatest height of the plan's views. */
  ghost predicate HeightMeasured(plan: Plan)
    requires ValidPlan(plan)
  {
    && (forall k :: 0 <= k < |plan.views| ==> Height(plan.views[k]) <= plan.ySize)
    && (exists k :: 0 <= k < |plan.views| && Height(plan.views[k]) == plan.ySize)
  }

  /** Lines 711-739: run the selector over the loaded views and measure them. */
  function MakePlan(mode: SizeMode, loaded: seq<seq<DoublePoint>>): (p: Plan)
    requires |loaded| > 0 && forall k :: 0 <= k < |loaded| ==> |loaded[k]| > 0
    ensures ValidPlan(p) && |p.views| == |loaded| && SizesMeasured(mode, p) && HeightMeasured(p)
    ensures forall k :: 0 <= k < |loaded| ==> |p.views[k]| == |loaded[k]|
    ensures mode == Difference ==> p.views == loaded
    ensures mode == Assignment ==> AllCollapsed(p.views)
    ensures SameOutline(p.views, loaded)
    ensures forall k :: 0 <= k < |loaded| ==> p.sizes[k] == SectionSize(mode, loaded[k])
  {
    var views := Prepare(mode, loaded);
    PreparedSizes(mode, loaded);
    var sizes := Sizes(mode, views);
    Plan(views, sizes, ReferenceIndex(sizes), VerticalExtent(views))
  }

  /** Lines 669-739 of `GenerateModel`: normalize every view, run the size
      selector, and pick the reference view and the extents. No view at all
      makes `sizes.Min()` throw; an empty view makes `First()` throw. */
  function PlanModel(raw: seq<seq<DoublePoint>>, mode: SizeMode): (r: Result<Plan>)
    ensures r.Failure? <==> |raw| == 0 || exists k :: 0 <= k < |raw| && |raw[k]| == 0
    ensures r.Failure? ==> r.error == EmptySequence
    ensures r.Success? ==> ValidPlan(r.value) && |r.value.views| == |raw|
    ensures r.Success? ==> SizesMeasured(mode, r.value) && HeightMeasured(r.value)
    ensures r.Success? ==> forall k :: 0 <= k < |raw| ==> |r.value.views[k]| == |raw[k]|
    ensures r.Success? && mode == Difference ==>
      forall k :: 0 <= k < |raw| ==> Normalize.NormalizeTestPoints(raw[k]) == Success(r.value.views[k])
    ensures r.Success? && mode == Assignment ==> AllCollapsed(r.value.views)
    ensures r.Success? ==> forall k, i :: 0 <= k < |raw| && 0 <= i < |raw[k]| ==>
      && r.value.views[k][i].y == Normalize.NormalizeTestPoints(raw[k]).value[i].y
      && r.value.views[k][i].x0 == Normalize.NormalizeTestPoints(raw[k]).value[i].x0
    ensures r.Success? ==> forall k :: 0 <= k < |raw| ==>
      r.value.sizes[k] == SectionSize(mode, Normalize.NormalizeTestPoints(raw[k]).value)
  {
    var normalized := NormalizeAll(raw);
    if normalized.Failure? then Failure(normalized.error)
    else if |normalized.value| == 0 then Failure(EmptySequence)
    else Success(MakePlan(mode, normalized.value))
  }

  // ---------------------------------------------------------------------------
  // Carving.
  // ---------------------------------------------------------------------------

  /** `MakeVirtualObject(step, ySize, minSize, maxSize)`. */
  function Box(plan: Plan, step: int): seq<Point3D>
    requires ValidPlan(plan) && step > 0
  {
    Lattice.MakeVirtualObject(step, plan.ySize, MinSize(plan), MaxSize(plan))
  }

  /** The box after `MakeFirstCut` against the reference view. */
  function FirstCloud(plan: Plan, step: int): (r: seq<Point3D>)
    requires ValidPlan(plan) && step > 0
    ensures forall p :: p in r <==> p in Box(plan, step) && Cuts.HeldBy(plan.views[plan.reference], p)
  {
    Cuts.MakeFirstCut(Box(plan, step), plan.views[plan.reference])
  }

  /** `p` lies in the box the measurements describe. */
  ghost predicate InBox(p: Point3D, plan: Plan)
    requires ValidPlan(plan)
  {
    && 0 <= p.y < plan.ySize
    && 0 <= p.x < MinSize(plan)
    && 0 <= p.z < MaxSize(plan)
  }

  /** `j = i + minSecIndex`, wrapped once by the number of views: the view
      `i` places after the reference, counted cyclically, as long as that
      takes at most one trip round the list; from `2 * n` on it is past the end. */
  function SweepIndex(i: int, m: int, n: int): (j: int)
    ensures 0 <= i && 0 <= m ==> 0 <= j
    ensures 0 <= i && 0 <= m && 0 <= n ==> (j < n <==> i + m < 2 * n)
    ensures 0 <= i && 0 <= m && i + m < 2 * n ==> j == (i + m) % n
  {
    var j := i + m;
    if j >= n then
      assert 0 <= j < 2 * n ==> j % n == j - n by {
        if 0 <= j < 2 * n { DivUnique(j, n, 1, j - n); }
      }
      j - n
    else
      assert 0 <= j ==> j % n == j by {
        if 0 <= j { DivUnique(j, n, 0, j); }
      }
      j
  }

  /** The sweep of `count` steps from reference view `m` over `n` views asks
      for a view past the end: the last step's index `count - 1 + m` is not
      brought below `n` by one subtraction. */
  predicate Overruns(count: int, m: int, n: int) {
    count > 0 && count - 1 + m >= 2 * n
  }

  /** Points on non-negative rows never make `MakeSecondCut` index below 0. */
  lemma RowsOfUpperHalf(cloud: seq<Point3D>, step: int)
    requires step > 0
    requires forall p :: p in cloud ==> p.y >= 0
    ensures Cuts.RowsIndexable(cloud, step)
  {
    forall p | p in cloud ensures Cuts.RowIndex(p, step) >= 0 {
      TDivNonNegative(p.y, step);
    }
  }

  /** `q` passes the rotational cuts of sweep steps `i` .. `count - 1`, the
      cut of step `k` centred by the offset `diffs[k - i]`: each step's view
      exists and `q`'s projection at angle `alphastep * k`, corrected by that
      step's offset, falls strictly inside the view's slice on `q`'s row. */
  ghost predicate PassesFrom(q: Point3D, views: seq<seq<DoublePoint>>, m: int, i: int, count: int, step: int,
                             alphastep: int, proj: (Point3D, int) -> Int32, diffs: seq<int>)
    decreases count - i
  {
    if i >= count then true
    else
      var j := SweepIndex(i, m, |views|);
      && |diffs| > 0
      && 0 <= j < |views|
      && Cuts.RetainedWith(q, views[j], step, 0, proj(q, alphastep * i), diffs[0])
      && PassesFrom(q, views, m, i + 1, count, step, alphastep, proj, diffs[1..])
  }

  /** The centring offsets of sweep steps `i` .. `count - 1` started on
      `cloud`: each step's offset is the one the first pass of
      `MakeSecondCut` computes from the cloud that step receives, which is
      what the previous steps left. The list stops at the first step whose
      cut could not run. */
  ghost function Offsets(cloud: seq<Point3D>, views: seq<seq<DoublePoint>>, m: int, i: int, count: int,
                         step: int, alphastep: int, proj: (Point3D, int) -> Int32): seq<int>
    decreases count - i
  {
    if i >= count then []
    else
      var j := SweepIndex(i, m, |views|);
      if !(0 <= j < |views|) || |views[j]| == 0 || !Cuts.RowsIndexable(cloud, step) then []
      else
        var d := Cuts.SecondCutOffset(cloud, views[j], step, alphastep * i, proj);
        [d] + Offsets(Cuts.SecondPass(cloud, views[j], step, alphastep * i, 0, d, proj),
                      views, m, i + 1, count, step, alphastep, proj)
  }

  /** `kept` is what steps `i` .. `count - 1` keep of `cloud`: a point keeps
      all its copies when it passes every step's cut, each centred by that
      step's offset, and loses them all otherwise. */
  ghost predicate SweepKeeps(cloud: seq<Point3D>, kept: seq<Point3D>, views: seq<seq<DoublePoint>>, m: int, i: int,
                             count: int, step: int, alphastep: int, proj: (Point3D, int) -> Int32)
  {
    var diffs := Offsets(cloud, views, m, i, count, step, alphastep, proj);
    forall q {:trigger multiset(kept)[q]} :: multiset(kept)[q] ==
      if PassesFrom(q, views, m, i, count, step, alphastep, proj, diffs) then multiset(cloud)[q] else 0
  }

  /** A sweep with no step left keeps the whole cloud. */
  lemma SweepDone(cloud: seq<Point3D>, views: seq<seq<DoublePoint>>, m: int, i: int, count: int,
                  step: int, alphastep: int, proj: (Point3D, int) -> Int32)
    requires i >= count
    ensures SweepKeeps(cloud, cloud, views, m, i, count, step, alphastep, proj)
  {
  }

  /** One step of the sweep: the step's cut, followed by the remaining steps,
      is the sweep from this step. The step's offset heads the offsets. */
  lemma SweepStep(cloud: seq<Point3D>, rest: seq<Point3D>, views: seq<seq<DoublePoint>>, m: int, i: int,
                  count: int, step: int, alphastep: int, proj: (Point3D, int) -> Int32,
                  j: int, cut: seq<Point3D>, next: int)
    requires i < count && next == i + 1
    requires j == SweepIndex(i, m, |views|) && 0 <= j < |views|
    requires Cuts.MakeSecondCut(cloud, views[j], step, alphastep * i, 0, proj) == Success(cut)
    requires SweepKeeps(cut, rest, views, m, next, count, step, alphastep, proj)
    ensures SweepKeeps(cloud, rest, views, m, i, count, step, alphastep, proj)
  {
    var d := Cuts.SecondCutOffset(cloud, views[j], step, alphastep * i, proj);
    var section := views[j];
    var tail := Offsets(cut, views, m, next, count, step, alphastep, proj);
    var diffs := Offsets(cloud, views, m, i, count, step, alphastep, proj);
    assert diffs == [d] + tail;
    assert diffs[0] == d && diffs[1..] == tail;
    forall q
      ensures multiset(rest)[q] ==
        if PassesFrom(q, views, m, i, count, step, alphastep, proj, diffs) then multiset(cloud)[q] else 0
    {
      assert PassesFrom(q, views, m, i, count, step, alphastep, proj, diffs) <==>
        Cuts.RetainedWith(q, section, step, 0, proj(q, alphastep * i), d)
        && PassesFrom(q, views, m, next, count, step, alphastep, proj, tail);
    }
  }

  /** The loop of lines 752-760 from step `i` on: step `i` cuts with view
      `SweepIndex(i, m, n)` at angle `alphastep * i`. It fails exactly when a
      remaining step overruns the list of views; otherwise each cut keeps a
      subsequence of the cloud it was given. */
  function Sweep(cloud: seq<Point3D>, views: seq<seq<DoublePoint>>, m: int, i: int, count: int,
                 step: int, alphastep: int, proj: (Point3D, int) -> Int32): (r: Result<seq<Point3D>>)
    requires step > 0 && 0 <= m && 0 <= i
    requires forall k :: 0 <= k < |views| ==> |views[k]| > 0
    requires forall p :: p in cloud ==> p.y >= 0
    decreases count - i
    ensures r.Failure? <==> i < count && Overruns(count, m, |views|)
    ensures r.Failure? ==> r.error == IndexOutOfRange
    ensures r.Success? ==> IsSubsequence(r.value, cloud)
    ensures r.Success? ==> multiset(r.value) <= multiset(cloud)
    ensures r.Success? ==> SweepKeeps(cloud, r.value, views, m, i, count, step, alphastep, proj)
  {
    if i >= count then
      SubsequenceReflexive(cloud);
      SweepDone(cloud, views, m, i, count, step, alphastep, proj);
      Success(cloud)
    else
      var j := SweepIndex(i, m, |views|);
      if j >= |views| then Failure(IndexOutOfRange)
      else
        RowsOfUpperHalf(cloud, step);
        var next := Cuts.MakeSecondCut(cloud, views[j], step, alphastep * i, 0, proj);
        var cut := next.value;
        SubsequenceMembers(cut, cloud);
        var rest := Sweep(cut, views, m, i + 1, count, step, alphastep, proj);
        if rest.Success? then
          SubsequenceTransitive(rest.value, cut, cloud);
          rest
        else rest
  }

  /** The test the sweep from step `i` applies to each point: passing every
      remaining step's cut, each centred by the offset that step computes. */
  ghost function SweepTest(cloud: seq<Point3D>, views: seq<seq<DoublePoint>>, m: int, i: int, count: int,
                           step: int, alphastep: int, proj: (Point3D, int) -> Int32): Point3D -> bool
  {
    var diffs := Offsets(cloud, views, m, i, count, step, alphastep, proj);
    q => PassesFrom(q, views, m, i, count, step, alphastep, proj, diffs)
  }

  /** A sweep that runs to the end keeps exactly the points of the cloud that
      pass its test, in their original order and with all their copies. */
  lemma SweepIsFilter(cloud: seq<Point3D>, views: seq<seq<DoublePoint>>, m: int, i: int, count: int,
                      step: int, alphastep: int, proj: (Point3D, int) -> Int32)
    requires step > 0 && 0 <= m && 0 <= i
    requires forall k :: 0 <= k < |views| ==> |views[k]| > 0
    requires forall p :: p in cloud ==> p.y >= 0
    requires Sweep(cloud, views, m, i, count, step, alphastep, proj).Success?
    ensures Sweep(cloud, views, m, i, count, step, alphastep, proj).value
         == Seqs.Filter(cloud, SweepTest(cloud, views, m, i, count, step, alphastep, proj))
  {
    var kept := Sweep(cloud, views, m, i, count, step, alphastep, proj).value;
    var test := SweepTest(cloud, views, m, i, count, step, alphastep, proj);
    var diffs := Offsets(cloud, views, m, i, count, step, alphastep, proj);
    forall q ensures multiset(kept)[q] == if test(q) then multiset(cloud)[q] else 0 {
      assert test(q) == PassesFrom(q, views, m, i, count, step, alphastep, proj, diffs);
    }
    Seqs.SubsequenceByCounts(kept, cloud, test);
  }

  /** Every point that leaves the pipeline is the scaled-down image of a
      point of the box: its coordinates are non-negative and, multiplied back
      by the shrink factor, stay below the box's extents. */
  ghost predicate WithinModel(q: Point3D, plan: Plan, step: int)
    requires ValidPlan(plan)
  {
    var d := Shrink.HalfStep(step);
    && 0 <= q.y && d * q.y < plan.ySize
    && 0 <= q.x && d * q.x < MinSize(plan)
    && 0 <= q.z && d * q.z < MaxSize(plan)
  }

  lemma PositiveFactor(x: int, d: int)
    requires d > 0 && d * x > 0
    ensures x > 0
  {
  }

  lemma ScaledCoordinate(a: int, bound: int, d: int, q: int)
    requires 0 <= a < bound && d > 0 && IsTruncQuotient(a, d, q)
    ensures 0 <= q && d * q < bound
  {
    Shrink.TruncIsFloor(a, d, q);
    PositiveFactor(q + 1, d);
  }

  lemma ShrunkWithinModel(plan: Plan, step: int, cloud: seq<Point3D>)
    requires ValidPlan(plan)
    requires forall p :: p in cloud ==> InBox(p, plan)
    ensures forall q :: q in Shrink.ShrinkVirtualObject(cloud, step) ==> WithinModel(q, plan, step)
  {
    var r := Shrink.ShrinkVirtualObject(cloud, step);
    var d := Shrink.HalfStep(step);
    forall q | q in r ensures WithinModel(q, plan, step) {
      var i :| 0 <= i < |r| && r[i] == q;
      var p := cloud[i];
      assert p in cloud && Shrink.ScaledDown(p, d, q);
      ScaledCoordinate(p.y, plan.ySize, d, q.y);
      ScaledCoordinate(p.x, MinSize(plan), d, q.x);
      ScaledCoordinate(p.z, MaxSize(plan), d, q.z);
    }
  }

  /** The cloud the sweep leaves: the points of the reference cut of the box,
      in order, that pass each of the `100 / alphastep` rotational cuts, each
      cut centred by the offset it computes. */
  ghost function Carved(plan: Plan, step: int, alphastep: int, proj: (Point3D, int) -> Int32): seq<Point3D>
    requires ValidPlan(plan) && step > 0 && alphastep != 0
  {
    var cloud := FirstCloud(plan, step);
    Seqs.Filter(cloud, SweepTest(cloud, plan.views, plan.reference, 0, TDiv(100, alphastep), step, alphastep, proj))
  }

  /** Lines 741-768: box, reference cut, `100 / alphastep` rotational cuts,
      surface extraction and shrinking. */
  function Carve(plan: Plan, step: int, alphastep: int, proj: (Point3D, int) -> Int32): (r: Result<seq<Point3D>>)
    requires ValidPlan(plan) && step > 0
    ensures r.Failure? <==> alphastep == 0 || Overruns(TDiv(100, alphastep), plan.reference, |plan.views|)
    ensures r.Failure? && alphastep == 0 ==> r.error == DivideByZero
    ensures r.Failure? && alphastep != 0 ==> r.error == IndexOutOfRange
    ensures r.Success? ==> forall q :: q in r.value ==> WithinModel(q, plan, step)
    ensures r.Success? ==> alphastep != 0
    ensures r.Success? ==>
      r.value == Shrink.ShrinkVirtualObject(Surface.RemoveInside(Carved(plan, step, alphastep, proj)), step)
  {
    var cloud := FirstCloud(plan, step);
    if alphastep == 0 then Failure(DivideByZero)
    else
      var swept := Sweep(cloud, plan.views, plan.reference, 0, TDiv(100, alphastep), step, alphastep, proj);
      if swept.Failure? then Failure(swept.error)
      else
        SubsequenceMembers(swept.value, cloud);
        var surface := Surface.RemoveInside(swept.value);
        ShrunkWithinModel(plan, step, surface);
        SweepIsFilter(cloud, plan.views, plan.reference, 0, TDiv(100, alphastep), step, alphastep, proj);
        Success(Shrink.ShrinkVirtualObject(surface, step))
  }

  /** `GenerateModel` from the loaded views to the cloud it saves. */
  function GenerateModel(raw: seq<seq<DoublePoint>>, step: int, alphastep: int, mode: SizeMode,
                         proj: (Point3D, int) -> Int32): (r: Result<seq<Point3D>>)
    requires step > 0
    ensures PlanModel(raw, mode).Failure? ==> r == Failure(EmptySequence)
    ensures PlanModel(raw, mode).Success? && alphastep == 0 ==> r == Failure(DivideByZero)
    ensures PlanModel(raw, mode).Success? && alphastep != 0 ==>
      (r.Failure? <==> Overruns(TDiv(100, alphastep), PlanModel(raw, mode).value.reference, |raw|))
    ensures r.Failure? && alphastep != 0 && PlanModel(raw, mode).Success? ==> r.error == IndexOutOfRange
    ensures r.Success? ==> forall q :: q in r.value ==> WithinModel(q, PlanModel(raw, mode).value, step)
    ensures r.Success? ==> alphastep != 0
    ensures r.Success? ==>
      r.value == Shrink.ShrinkVirtualObject(Surface.RemoveInside(Carved(PlanModel(raw, mode).value, step, alphastep, proj)), step)
  {
    var plan := PlanModel(raw, mode);
    if plan.Failure? then Failure(plan.error)
    else Carve(plan.value, step, alphastep, proj)
  }

  // ---------------------------------------------------------------------------
  // Consequences.
  // ---------------------------------------------------------------------------

  /** With at least as many views as angle steps, the sweep never runs off the
      list of views, so loaded views and a positive angle step always give a model. */
  lemma EnoughViewsSucceed(raw: seq<seq<DoublePoint>>, step: int, alphastep: int, mode: SizeMode,
                           proj: (Point3D, int) -> Int32)
    requires step > 0 && alphastep > 0
    requires |raw| > 0 && forall k :: 0 <= k < |raw| ==> |raw[k]| > 0
    requires TDiv(100, alphastep) <= |raw|
    ensures GenerateModel(raw, step, alphastep, mode, proj).Success?
  {
    var plan := PlanModel(raw, mode).value;
    assert plan.reference < |raw|;
  }

  /** A negative angle step, or one above 100, gives no rotational cut at all:
      the model is the surface of the reference cut, scaled down. */
  lemma NoRotationalCuts(plan: Plan, step: int, alphastep: int, proj: (Point3D, int) -> Int32)
    requires ValidPlan(plan) && step > 0
    requires alphastep < 0 || alphastep > 100
    ensures Carve(plan, step, alphastep, proj)
      == Success(Shrink.ShrinkVirtualObject(Surface.RemoveInside(FirstCloud(plan, step)), step))
  {
    var q := TDiv(100, alphastep);
    if alphastep > 100 {
      TDivNonNegative(100, alphastep);
      DivUnique(100, alphastep, 0, 100);
    } else {
      QuotientByNegative(100, alphastep, q);
    }
    var cloud := FirstCloud(plan, step);
    assert Sweep(cloud, plan.views, plan.reference, 0, q, step, alphastep, proj) == Success(cloud);
  }

  /** A non-negative number divided by a negative one, truncating, is not positive. */
  lemma QuotientByNegative(a: int, b: int, q: int)
    requires a >= 0 && b < 0 && IsTruncQuotient(a, b, q)
    ensures q <= 0
  {
  }

  /** A surface of nothing is nothing. */
  lemma EmptySurface()
    ensures Surface.RemoveInside([]) == []
  {
    var r := Surface.RemoveInside([]);
    assert Surface.Keys(Surface.AlongX, []) == {};
    assert Surface.Keys(Surface.AlongZ, []) == {};
    assert Surface.Keys(Surface.AlongY, []) == {};
  }

  /** An empty cloud stays empty through the rest of the pipeline. */
  lemma EmptyCloudStaysEmpty(plan: Plan, step: int, alphastep: int, proj: (Point3D, int) -> Int32)
    requires ValidPlan(plan) && step > 0
    requires FirstCloud(plan, step) == []
    ensures Carve(plan, step, alphastep, proj).Success? ==> Carve(plan, step, alphastep, proj).value == []
  {
    if alphastep != 0 {
      var swept := Sweep([], plan.views, plan.reference, 0, TDiv(100, alphastep), step, alphastep, proj);
      if swept.Success? {
        SubsequenceShorter(swept.value, []);
        EmptySurface();
      }
    }
  }

  /** As written, the size selector collapses every slice of every view
      before the reference cut, which then keeps no point: whatever the
      images, the saved model is empty. */
  lemma AssignmentModelIsEmpty(raw: seq<seq<DoublePoint>>, step: int, alphastep: int,
                               proj: (Point3D, int) -> Int32)
    requires step > 0
    ensures GenerateModel(raw, step, alphastep, Assignment, proj).Success? ==>
      GenerateModel(raw, step, alphastep, Assignment, proj).value == []
  {
    var plan := PlanModel(raw, Assignment);
    if plan.Success? {
      var p := plan.value;
      Cuts.CollapsedSectionKeepsNothing(Box(p, step), p.views[p.reference]);
      EmptyCloudStaysEmpty(p, step, alphastep, proj);
    }
  }

  /** Views of a single row each give `ySize == 0`, an empty box and so an
      empty model. */
  lemma FlatViewsGiveEmptyModel(raw: seq<seq<DoublePoint>>, step: int, alphastep: int, mode: SizeMode,
                                proj: (Point3D, int) -> Int32)
    requires step > 0
    requires forall k :: 0 <= k < |raw| ==> |raw[k]| == 1
    ensures GenerateModel(raw, step, alphastep, mode, proj).Success? ==>
      GenerateModel(raw, step, alphastep, mode, proj).value == []
  {
    var plan := PlanModel(raw, mode);
    if plan.Success? {
      var p := plan.value;
      assert |p.views| == |raw|;
      forall k | 0 <= k < |p.views| ensures |p.views[k]| == 1 {
        assert |p.views[k]| == |raw[k]|;
      }
      FlatPlanHasNoHeight(p);
      NoHeightNoBox(p, step);
      EmptyCloudStaysEmpty(p, step, alphastep, proj);
      assert GenerateModel(raw, step, alphastep, mode, proj) == Carve(p, step, alphastep, proj);
    }
  }

  lemma FlatPlanHasNoHeight(p: Plan)
    requires ValidPlan(p) && HeightMeasured(p)
    requires forall k :: 0 <= k < |p.views| ==> |p.views[k]| == 1
    ensures p.ySize == 0
  {
    var k :| 0 <= k < |p.views| && Height(p.views[k]) == p.ySize;
    assert |p.views[k]| == 1;
  }

  lemma NoHeightNoBox(p: Plan, step: int)
    requires ValidPlan(p) && step > 0 && p.ySize <= 0
    ensures FirstCloud(p, step) == []
  {
    assert |Box(p, step)| == 0;
  }

  /** Two rows of one view, columns 3 to 7. */
  const TwoRows: seq<seq<DoublePoint>> := [[DoublePoint(5, 3, 7), DoublePoint(6, 3, 7)]]

  /** The example's view after normalization: rows 0 and 1, columns 0 to 4. */
  const TwoRowsNormalized: seq<DoublePoint> := [DoublePoint(0, 0, 4), DoublePoint(1, 0, 4)]

  lemma TwoRowsLoad()
    ensures NormalizeAll(TwoRows) == Success([TwoRowsNormalized])
  {
    var s := [DoublePoint(5, 3, 7), DoublePoint(6, 3, 7)];
    assert TwoRows == [s];
    assert Lefts(s)[0] == 3 && Lefts(s)[1] == 3;
    assert Lefts(s) == [3, 3];
    assert Seqs.Min([3, 3]) == 3;
    var n := Normalize.NormalizeTestPoints(s).value;
    assert n[0] == DoublePoint(0, 0, 4) && n[1] == DoublePoint(1, 0, 4);
    assert n == TwoRowsNormalized;
    var r := NormalizeAll(TwoRows);
    assert r.Success? && |r.value| == 1;
    assert r.value[0] == TwoRowsNormalized;
    assert r.value == [TwoRowsNormalized];
  }

  lemma TwoRowsMeasure()
    ensures MakePlan(Difference, [TwoRowsNormalized]) == Plan([TwoRowsNormalized], [4], 0, 1)
  {
    var t := TwoRowsNormalized;
    assert Prepare(Difference, [t]) == [t];
    assert SectionSize(Difference, t) == 4;
    var sizes := Sizes(Difference, [t]);
    assert sizes == [4];
    assert ReferenceIndex(sizes) == 0;
    assert VerticalExtent([t]) == Height(t) == 1;
  }

  /** Measured by width, the example gives a 1 x 4 x 4 box whose reference
      slice on row 0 spans columns 0 to 4. */
  lemma TwoRowsPlan()
    ensures PlanModel(TwoRows, Difference) == Success(Plan([TwoRowsNormalized], [4], 0, 1))
    ensures var p := PlanModel(TwoRows, Difference).value;
      && MinSize(p) == 4 && MaxSize(p) == 4 && p.ySize == 1
      && Cuts.Covers(p.views[p.reference][0], Point3D(1, 0, 0))
  {
    TwoRowsLoad();
    TwoRowsMeasure();
    var p := Plan([TwoRowsNormalized], [4], 0, 1);
    assert PlanModel(TwoRows, Difference) == Success(p);
    assert Max([4]) == 4;
  }

  /** The surface of a non-empty cloud is not empty. */
  lemma NonEmptySurface(cloud: seq<Point3D>)
    requires |cloud| > 0
    ensures |Surface.RemoveInside(cloud)| > 0
  {
    var p := cloud[0];
    var key := (Surface.Outer(Surface.AlongX, p), Surface.Inner(Surface.AlongX, p));
    assert key in Surface.Keys(Surface.AlongX, cloud);
  }

  /** Without rotational cuts, a reference cut that keeps some point gives a
      non-empty model. */
  lemma KeptPointGivesModel(plan: Plan, step: int, proj: (Point3D, int) -> Int32, p: Point3D)
    requires ValidPlan(plan) && step > 0
    requires p in FirstCloud(plan, step)
    ensures Carve(plan, step, 200, proj).Success?
    ensures |Carve(plan, step, 200, proj).value| > 0
  {
    NoRotationalCuts(plan, step, 200, proj);
    NonEmptySurface(FirstCloud(plan, step));
  }

  lemma CornerInBox(p: Plan)
    requires ValidPlan(p) && MinSize(p) == 4 && MaxSize(p) == 4 && p.ySize == 1
    ensures Point3D(1, 0, 0) in Box(p, 1)
  {
    var b := Box(p, 1);
    assert b == Lattice.MakeVirtualObject(1, 1, 4, 4);
  }

  /** Once the views load, the model is the carving of their plan. */
  lemma CarvesItsPlan(raw: seq<seq<DoublePoint>>, step: int, alphastep: int, mode: SizeMode,
                      proj: (Point3D, int) -> Int32)
    requires step > 0 && PlanModel(raw, mode).Success?
    ensures GenerateModel(raw, step, alphastep, mode, proj) == Carve(PlanModel(raw, mode).value, step, alphastep, proj)
  {
  }

  /** The example's reference cut keeps the point one column in on row 0. */
  lemma TwoRowsCornerKept()
    ensures Point3D(1, 0, 0) in FirstCloud(Plan([TwoRowsNormalized], [4], 0, 1), 1)
  {
    var p := Plan([TwoRowsNormalized], [4], 0, 1);
    var corner := Point3D(1, 0, 0);
    CornerInBox(p);
    assert Cuts.Covers(TwoRowsNormalized[0], corner);
    assert Cuts.HeldBy(p.views[p.reference], corner);
  }

  /** The width reading keeps a non-empty model of the example. */
  lemma DifferenceModelKeepsInterior(proj: (Point3D, int) -> Int32)
    ensures GenerateModel(TwoRows, 1, 200, Difference, proj).Success?
    ensures |GenerateModel(TwoRows, 1, 200, Difference, proj).value| > 0
  {
    TwoRowsPlan();
    var p := Plan([TwoRowsNormalized], [4], 0, 1);
    TwoRowsCornerKept();
    KeptPointGivesModel(p, 1, proj, Point3D(1, 0, 0));
    CarvesItsPlan(TwoRows, 1, 200, Difference, proj);
  }

  /** The assignment reading keeps nothing of the same example, although it
      runs to completion. */
  lemma AssignmentModelOfTwoRows(proj: (Point3D, int) -> Int32)
    ensures GenerateModel(TwoRows, 1, 200, Assignment, proj) == Success([])
  {
    AssignmentModelIsEmpty(TwoRows, 1, 200, proj);
    assert |TwoRows[0]| == 2;
    var a := PlanModel(TwoRows, Assignment).value;
    assert a.reference == 0;
    TDivNonNegative(100, 200);
    assert !Overruns(TDiv(100, 200), a.reference, 1);
  }
}
