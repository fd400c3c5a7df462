/** The reference cut (`MakeFirstCut`) and the rotational cut
    (`MakeSecondCut`). The floating-point projection `GetPointProjection`
    is a parameter `proj(p, angle)` returning a C# `int`. */
module Cuts {
  import opened Wrappers
  import opened Geometry
  import opened Arith
  import opened Seqs

  /** Slice `s` holds `p` strictly between its boundaries on `p`'s own row. */
  predicate Covers(s: DoublePoint, p: Point3D) {
    s.y == p.y && s.x0 < p.x < s.x1
  }

  /** Some slice of the silhouette holds `p`. */
  ghost predicate HeldBy(section: seq<DoublePoint>, p: Point3D) {
    exists k :: 0 <= k < |section| && Covers(section[k], p)
  }

  /** The inner `foreach (var s in section)` loop of `MakeFirstCut`, which
      skips slices that do not hold `p` and stops at the first that does. */
  function InSection(p: Point3D, section: seq<DoublePoint>): (b: bool)
    ensures b <==> HeldBy(section, p)
  {
    if |section| == 0 then false
    else if p.x <= section[0].x0 || p.x >= section[0].x1 || p.y != section[0].y then
      var b := InSection(p, section[1..]);
      assert forall k :: 1 <= k < |section| ==> section[k] == section[1..][k - 1];
      b
    else true
  }

  /** `MakeFirstCut`: the points of the cloud, in their order, that some slice
      of the reference silhouette holds; each input occurrence is kept at most once. */
  function MakeFirstCut(cloud: seq<Point3D>, section: seq<DoublePoint>): (r: seq<Point3D>)
    ensures IsSubsequence(r, cloud)
    ensures forall p :: p in r <==> p in cloud && HeldBy(section, p)
    ensures forall p :: multiset(r)[p] == if HeldBy(section, p) then multiset(cloud)[p] else 0
  {
    Filter(cloud, p => InSection(p, section))
  }

  /** A silhouette whose slices all have `x0 == x1` holds no point, so the
      reference cut empties the cloud. */
  lemma CollapsedSectionKeepsNothing(cloud: seq<Point3D>, section: seq<DoublePoint>)
    requires forall k :: 0 <= k < |section| ==> section[k].x0 == section[k].x1
    ensures MakeFirstCut(cloud, section) == []
  {
    var r := MakeFirstCut(cloud, section);
    assert forall p :: p !in r;
  }

  /** The row of the projection list that `p` falls in: `Y / step`, truncated. */
  function RowIndex(p: Point3D, step: int): int
    requires step != 0
  {
    TDiv(p.y, step)
  }

  /** No point makes `Y / step` throw or index the projection list below 0. */
  predicate RowsIndexable(cloud: seq<Point3D>, step: int) {
    forall p :: p in cloud ==> step != 0 && RowIndex(p, step) >= 0
  }

  /** Row `i` of the first pass's projection list, `e`, agrees with the points
      on row `i`: it keeps the sentinels when there are none, and otherwise
      `e.x0` is their least and `e.x1` their greatest projection. */
  ghost predicate EnvelopeRow(cloud: seq<Point3D>, step: int, x: Point3D -> Int32, i: int, e: DoublePoint)
    requires RowsIndexable(cloud, step)
  {
    && e.y == i
    && if exists p :: p in cloud && RowIndex(p, step) == i then
         && (exists p :: p in cloud && RowIndex(p, step) == i && x(p) == e.x0)
         && (exists p :: p in cloud && RowIndex(p, step) == i && x(p) == e.x1)
         && (forall p :: p in cloud && RowIndex(p, step) == i ==> e.x0 <= x(p) <= e.x1)
       else
         e.x0 == MaxInt32 && e.x1 == MinInt32
  }

  /** One iteration of the first pass: the row of `p`, if the list has it,
      is widened to the smallest interval that covers both its old ends and
      `p`'s projection; every other row stays as it was. */
  function Widen(env: seq<DoublePoint>, p: Point3D, step: int, x: Point3D -> Int32): (r: seq<DoublePoint>)
    requires step != 0 && RowIndex(p, step) >= 0
    ensures |r| == |env|
    ensures forall k :: 0 <= k < |env| && k != RowIndex(p, step) ==> r[k] == env[k]
    ensures var i := RowIndex(p, step); i < |env| ==>
      && r[i].y == env[i].y
      && r[i].x0 <= x(p) <= r[i].x1
      && r[i].x0 <= env[i].x0 && env[i].x1 <= r[i].x1
      && (r[i].x0 == env[i].x0 || r[i].x0 == x(p))
      && (r[i].x1 == env[i].x1 || r[i].x1 == x(p))
  {
    var i := RowIndex(p, step);
    if i >= |env| then env
    else
      var px := x(p);
      var lo := if env[i].x0 > px then px else env[i].x0;
      var hi := if env[i].x1 < px then px else env[i].x1;
      env[i := DoublePoint(env[i].y, lo, hi)]
  }

  lemma WidenKeepsRows(cloud: seq<Point3D>, p: Point3D, step: int, x: Point3D -> Int32, env: seq<DoublePoint>)
    requires step != 0 && RowIndex(p, step) >= 0
    requires RowsIndexable(cloud + [p], step)
    requires forall i :: 0 <= i < |env| ==> EnvelopeRow(cloud, step, x, i, env[i])
    ensures forall i :: 0 <= i < |env| ==> EnvelopeRow(cloud + [p], step, x, i, Widen(env, p, step, x)[i])
  {
    assert p in cloud + [p];
    assert RowsIndexable(cloud, step) by {
      forall q | q in cloud ensures q in cloud + [p] { }
    }
    var c := cloud + [p];
    var w := Widen(env, p, step, x);
    var ip := RowIndex(p, step);
    forall i | 0 <= i < |env|
      ensures EnvelopeRow(c, step, x, i, w[i])
    {
      assert forall q :: q in c <==> q in cloud || q == p;
      if i != ip {
        assert w[i] == env[i];
      } else {
        var e := env[i];
        var px := x(p);
        if exists q :: q in cloud && RowIndex(q, step) == i {
          var a :| a in cloud && RowIndex(a, step) == i && x(a) == e.x0;
          var b :| b in cloud && RowIndex(b, step) == i && x(b) == e.x1;
          if px < e.x0 {
            assert p in c && RowIndex(p, step) == i && x(p) == w[i].x0;
          } else {
            assert a in c && RowIndex(a, step) == i && x(a) == w[i].x0;
          }
          if px > e.x1 {
            assert p in c && RowIndex(p, step) == i && x(p) == w[i].x1;
          } else {
            assert b in c && RowIndex(b, step) == i && x(b) == w[i].x1;
          }
        } else {
          assert w[i].x0 == px && w[i].x1 == px;
          assert p in c && RowIndex(p, step) == i && x(p) == w[i].x0;
        }
      }
    }
  }

  /** The first pass of `MakeSecondCut`: the projection list of `n` rows,
      started at `(i, int.MaxValue, int.MinValue)` and widened by every point
      in cloud order. Points whose row is `n` or beyond change nothing. */
  function Envelope(cloud: seq<Point3D>, step: int, n: nat, x: Point3D -> Int32): (env: seq<DoublePoint>)
    requires RowsIndexable(cloud, step)
    ensures |env| == n
    ensures forall i :: 0 <= i < n ==> EnvelopeRow(cloud, step, x, i, env[i])
    decreases |cloud|
  {
    if |cloud| == 0 then
      seq(n, i requires 0 <= i < n => DoublePoint(i, MaxInt32, MinInt32))
    else
      var init := cloud[..|cloud| - 1];
      var last := cloud[|cloud| - 1];
      assert cloud == init + [last];
      assert RowsIndexable(init, step) by {
        forall q | q in init ensures q in cloud { }
      }
      var prev := Envelope(init, step, n, x);
      WidenKeepsRows(init, last, step, x, prev);
      Widen(prev, last, step, x)
  }

  /** The centring offset `diff` of the first pass: the midpoint of the
      projection list's extremes less the midpoint of the silhouette's, each
      halved with C#'s truncating `/`. */
  function CentreOffset(env: seq<DoublePoint>, section: seq<DoublePoint>): int
    requires |env| > 0 && |section| > 0
  {
    TDiv(Max(Rights(env)) + Min(Lefts(env)), 2) - TDiv(Max(Rights(section)) + Min(Lefts(section)), 2)
  }

  /** `hi` and `lo` are the greatest and least projections of the points
      on rows 0 .. n-1. */
  ghost predicate ProjectionExtremes(cloud: seq<Point3D>, step: int, n: int, x: Point3D -> Int32, hi: int, lo: int)
    requires RowsIndexable(cloud, step)
  {
    && (exists p :: p in cloud && RowIndex(p, step) < n && x(p) == hi)
    && (exists p :: p in cloud && RowIndex(p, step) < n && x(p) == lo)
    && (forall p :: p in cloud && RowIndex(p, step) < n ==> lo <= x(p) <= hi)
  }

  /** Some point lands on one of the `n` rows of the projection list. */
  ghost predicate HitsSomeRow(cloud: seq<Point3D>, step: int, n: int)
    requires RowsIndexable(cloud, step)
  {
    exists p :: p in cloud && RowIndex(p, step) < n
  }

  /** Once a row is hit, the sentinels drop out: the list's greatest right end
      is the greatest projection of a point on rows 0 .. n-1, and its least
      left end the least one. */
  lemma EnvelopeExtremes(cloud: seq<Point3D>, step: int, n: nat, x: Point3D -> Int32)
    requires RowsIndexable(cloud, step) && n > 0
    requires HitsSomeRow(cloud, step, n)
    ensures var env := Envelope(cloud, step, n, x);
      && (exists p :: p in cloud && RowIndex(p, step) < n && x(p) == Max(Rights(env)))
      && (forall p :: p in cloud && RowIndex(p, step) < n ==> x(p) <= Max(Rights(env)))
      && (exists p :: p in cloud && RowIndex(p, step) < n && x(p) == Min(Lefts(env)))
      && (forall p :: p in cloud && RowIndex(p, step) < n ==> Min(Lefts(env)) <= x(p))
  {
    EnvelopeBounds(cloud, step, n, x);
    EnvelopeMaxAttained(cloud, step, n, x);
    EnvelopeMinAttained(cloud, step, n, x);
  }

  /** Every point on rows 0 .. n-1 projects between the list's extremes. */
  lemma EnvelopeBounds(cloud: seq<Point3D>, step: int, n: nat, x: Point3D -> Int32)
    requires RowsIndexable(cloud, step) && n > 0
    ensures var env := Envelope(cloud, step, n, x);
      forall p :: p in cloud && RowIndex(p, step) < n ==> Min(Lefts(env)) <= x(p) <= Max(Rights(env))
  {
    var env := Envelope(cloud, step, n, x);
    var hi := Max(Rights(env));
    var lo := Min(Lefts(env));
    forall p | p in cloud && RowIndex(p, step) < n
      ensures lo <= x(p) <= hi
    {
      var i := RowIndex(p, step);
      assert EnvelopeRow(cloud, step, x, i, env[i]);
      assert Rights(env)[i] <= hi && lo <= Lefts(env)[i];
    }
  }

  lemma EnvelopeMaxAttained(cloud: seq<Point3D>, step: int, n: nat, x: Point3D -> Int32)
    requires RowsIndexable(cloud, step) && n > 0
    requires HitsSomeRow(cloud, step, n)
    ensures var env := Envelope(cloud, step, n, x);
      exists p :: p in cloud && RowIndex(p, step) < n && x(p) == Max(Rights(env))
  {
    var env := Envelope(cloud, step, n, x);
    var hi := Max(Rights(env));
    var p0 :| p0 in cloud && RowIndex(p0, step) < n;
    var h := RowIndex(p0, step);
    assert EnvelopeRow(cloud, step, x, h, env[h]);
    assert Rights(env)[h] <= hi;
    var k :| 0 <= k < n && Rights(env)[k] == hi;
    assert EnvelopeRow(cloud, step, x, k, env[k]);
    if !exists p :: p in cloud && RowIndex(p, step) == k {
      assert x(p0) == hi;
    }
  }

  lemma EnvelopeMinAttained(cloud: seq<Point3D>, step: int, n: nat, x: Point3D -> Int32)
    requires RowsIndexable(cloud, step) && n > 0
    requires HitsSomeRow(cloud, step, n)
    ensures var env := Envelope(cloud, step, n, x);
      exists p :: p in cloud && RowIndex(p, step) < n && x(p) == Min(Lefts(env))
  {
    var env := Envelope(cloud, step, n, x);
    var lo := Min(Lefts(env));
    var p0 :| p0 in cloud && RowIndex(p0, step) < n;
    var h := RowIndex(p0, step);
    assert EnvelopeRow(cloud, step, x, h, env[h]);
    assert lo <= Lefts(env)[h];
    var j :| 0 <= j < n && Lefts(env)[j] == lo;
    assert EnvelopeRow(cloud, step, x, j, env[j]);
    if !exists p :: p in cloud && RowIndex(p, step) == j {
      assert x(p0) == lo;
    }
  }

  /** With no point on any row every row of the projection list keeps its sentinels. */
  lemma UnhitRowsKeepSentinels(cloud: seq<Point3D>, step: int, n: nat, x: Point3D -> Int32)
    requires RowsIndexable(cloud, step)
    requires !HitsSomeRow(cloud, step, n)
    ensures var env := Envelope(cloud, step, n, x);
      forall i :: 0 <= i < n ==> env[i].x0 == MaxInt32 && env[i].x1 == MinInt32
  {
    var env := Envelope(cloud, step, n, x);
    forall i | 0 <= i < n ensures env[i].x0 == MaxInt32 && env[i].x1 == MinInt32 {
      assert EnvelopeRow(cloud, step, x, i, env[i]);
    }
  }

  /** With no point on any row the sentinels meet: `int.MaxValue + int.MinValue`
      is -1, its half truncates to 0, and `diff` is minus the silhouette's midpoint. */
  lemma UnhitEnvelopeOffset(cloud: seq<Point3D>, section: seq<DoublePoint>, step: int, x: Point3D -> Int32)
    requires RowsIndexable(cloud, step) && |section| > 0
    requires !HitsSomeRow(cloud, step, |section|)
    ensures CentreOffset(Envelope(cloud, step, |section|, x), section)
         == -TDiv(Max(Rights(section)) + Min(Lefts(section)), 2)
  {
    UnhitRowsKeepSentinels(cloud, step, |section|, x);
    SentinelOffset(Envelope(cloud, step, |section|, x), section);
  }

  /** When a point lands on a listed row, `diff` is the truncated midpoint
      of the extreme projections of the points on the listed rows less the
      silhouette's truncated midpoint. */
  lemma HitEnvelopeOffset(cloud: seq<Point3D>, section: seq<DoublePoint>, step: int, x: Point3D -> Int32)
    requires RowsIndexable(cloud, step) && |section| > 0
    requires HitsSomeRow(cloud, step, |section|)
    ensures exists hi, lo :: && ProjectionExtremes(cloud, step, |section|, x, hi, lo)
                             && CentreOffset(Envelope(cloud, step, |section|, x), section)
                                == TDiv(hi + lo, 2) - TDiv(Max(Rights(section)) + Min(Lefts(section)), 2)
  {
    var env := Envelope(cloud, step, |section|, x);
    EnvelopeExtremes(cloud, step, |section|, x);
    assert ProjectionExtremes(cloud, step, |section|, x, Max(Rights(env)), Min(Lefts(env)));
  }

  /** A projection list that holds only sentinels has extremes `int.MinValue`
      (right) and `int.MaxValue` (left), whose sum -1 halves to 0. */
  lemma SentinelOffset(env: seq<DoublePoint>, section: seq<DoublePoint>)
    requires |env| > 0 && |section| > 0
    requires forall i :: 0 <= i < |env| ==> env[i].x0 == MaxInt32 && env[i].x1 == MinInt32
    ensures CentreOffset(env, section) == -TDiv(Max(Rights(section)) + Min(Lefts(section)), 2)
  {
    var hi := Max(Rights(env));
    var lo := Min(Lefts(env));
    var k :| 0 <= k < |env| && Rights(env)[k] == hi;
    var j :| 0 <= j < |env| && Lefts(env)[j] == lo;
    assert hi == env[k].x1 == MinInt32;
    assert lo == env[j].x0 == MaxInt32;
    assert TDiv(hi + lo, 2) == 0;
  }

  /** The test of the second pass: the row `Y / step` exists in the
      silhouette, `p` lies on that slice's row, and the corrected projection
      `shifted` lies strictly inside the slice widened by `delta`. */
  predicate Retained(p: Point3D, section: seq<DoublePoint>, step: int, delta: int, shifted: int) {
    && step != 0
    && var i := RowIndex(p, step);
    && 0 <= i < |section|
    && section[i].x0 - delta < shifted < section[i].x1 + delta
    && p.y == section[i].y
  }

  /** `Retained` for the projection `x` corrected by the centring offset `diff`. */
  predicate RetainedWith(p: Point3D, section: seq<DoublePoint>, step: int, delta: int, x: int, diff: int) {
    Retained(p, section, step, delta, x - diff)
  }

  /** `diff` as the first pass computes it for view angle `angle`. */
  function SecondCutOffset(cloud: seq<Point3D>, section: seq<DoublePoint>, step: int, angle: int,
                           proj: (Point3D, int) -> Int32): int
    requires RowsIndexable(cloud, step) && |section| > 0
  {
    CentreOffset(Envelope(cloud, step, |section|, p => proj(p, angle)), section)
  }

  /** The second pass of `MakeSecondCut`: the points, in cloud order, whose
      projection corrected by the centring offset `diff` passes `Retained`. */
  function SecondPass(cloud: seq<Point3D>, section: seq<DoublePoint>, step: int, angle: int, delta: int,
                      diff: int, proj: (Point3D, int) -> Int32): (r: seq<Point3D>)
    ensures IsSubsequence(r, cloud)
    ensures forall p :: p in r <==> p in cloud && Retained(p, section, step, delta, proj(p, angle) - diff)
    ensures forall p :: multiset(r)[p] == if RetainedWith(p, section, step, delta, proj(p, angle), diff) then multiset(cloud)[p] else 0
  {
    Filter(cloud, p => Retained(p, section, step, delta, proj(p, angle) - diff))
  }

  /** `MakeSecondCut`: the two-pass rotational cut against the silhouette seen
      at `angle` degrees. A division by a zero step, a point on a negative row,
      or an empty silhouette (whose `Max()` throws) fails; otherwise the points
      whose corrected projection passes `Retained` are kept, in order. */
  function MakeSecondCut(cloud: seq<Point3D>, section: seq<DoublePoint>, step: int, angle: int, delta: int,
                         proj: (Point3D, int) -> Int32): (r: Result<seq<Point3D>>)
    ensures r.Failure? <==> !RowsIndexable(cloud, step) || |section| == 0
    ensures r.Failure? && |cloud| > 0 && step == 0 ==> r.error == DivideByZero
    ensures r.Failure? && step != 0 && !RowsIndexable(cloud, step) ==> r.error == IndexOutOfRange
    ensures r.Failure? && RowsIndexable(cloud, step) ==> r.error == EmptySequence
    ensures r.Success? ==>
      r.value == SecondPass(cloud, section, step, angle, delta, SecondCutOffset(cloud, section, step, angle, proj), proj)
    ensures r.Success? ==> multiset(r.value) <= multiset(cloud)
  {
    if |cloud| > 0 && step == 0 then
      assert cloud[0] in cloud;
      Failure(DivideByZero)
    else if !RowsIndexable(cloud, step) then Failure(IndexOutOfRange)
    else if |section| == 0 then Failure(EmptySequence)
    else Success(SecondPass(cloud, section, step, angle, delta, SecondCutOffset(cloud, section, step, angle, proj), proj))
  }
}
