/** The final rescaling of the point cloud by about half the sampling step. */
module Shrink {
  import opened Geometry
  import opened Arith

  /** The shrink factor: half the step rounded up, and 1 for a step of at most 1. */
  function HalfStep(step: int): (d: int)
    ensures d >= 1
    ensures step <= 1 ==> d == 1
    ensures step > 1 ==> step <= 2 * d <= step + 1
  {
    if step > 1 then
      TDivNonNegative(step, 2);
      var h := TDiv(step, 2);
      if step % 2 > 0 then h + 1 else h
    else 1
  }

  /** `q` is the point `p` with every coordinate divided by `d` the way C#
      divides: truncated toward zero. */
  ghost predicate ScaledDown(p: Point3D, d: int, q: Point3D) {
    && IsTruncQuotient(p.x, d, q.x)
    && IsTruncQuotient(p.y, d, q.y)
    && IsTruncQuotient(p.z, d, q.z)
  }

  /** `ShrinkVirtualObject`: every point, in place and in order, scaled down by
      `HalfStep(step)`. */
  function ShrinkVirtualObject(cloud: seq<Point3D>, step: int): (r: seq<Point3D>)
    ensures |r| == |cloud|
    ensures forall i :: 0 <= i < |r| ==> ScaledDown(cloud[i], HalfStep(step), r[i])
  {
    var d := HalfStep(step);
    seq(|cloud|, i requires 0 <= i < |cloud| => Point3D(TDiv(cloud[i].x, d), TDiv(cloud[i].y, d), TDiv(cloud[i].z, d)))
  }

  /** A truncated quotient by 1 is the dividend itself. */
  lemma TruncByOne(a: int, q: int)
    requires IsTruncQuotient(a, 1, q)
    ensures q == a
  {
  }

  /** Steps 1 and 2 (and any step below 1) leave the cloud unchanged. */
  lemma ShrinkIdentity(cloud: seq<Point3D>, step: int)
    requires step <= 2
    ensures ShrinkVirtualObject(cloud, step) == cloud
  {
    var r := ShrinkVirtualObject(cloud, step);
    assert HalfStep(step) == 1;
    forall i | 0 <= i < |r| ensures r[i] == cloud[i] {
      assert ScaledDown(cloud[i], 1, r[i]);
      TruncByOne(cloud[i].x, r[i].x);
      TruncByOne(cloud[i].y, r[i].y);
      TruncByOne(cloud[i].z, r[i].z);
    }
  }

  /** On a non-negative coordinate the truncated quotient is the floor: the
      coordinate lies in the cell `[d*q, d*(q+1))`. */
  lemma TruncIsFloor(a: int, d: int, q: int)
    requires a >= 0 && d > 0 && IsTruncQuotient(a, d, q)
    ensures d * q <= a < d * (q + 1)
  {
    assert a - q * d >= 0 && a - q * d < d;
  }

  /** After shrinking, a point with non-negative coordinates sits in the cell
      of side `HalfStep(step)` that contained it. */
  lemma ShrinkBounds(cloud: seq<Point3D>, step: int, i: int)
    requires 0 <= i < |cloud|
    requires cloud[i].x >= 0 && cloud[i].y >= 0 && cloud[i].z >= 0
    ensures var d := HalfStep(step); var q := ShrinkVirtualObject(cloud, step)[i];
      && d * q.x <= cloud[i].x < d * (q.x + 1)
      && d * q.y <= cloud[i].y < d * (q.y + 1)
      && d * q.z <= cloud[i].z < d * (q.z + 1)
  {
    var d := HalfStep(step);
    var q := ShrinkVirtualObject(cloud, step)[i];
    assert ScaledDown(cloud[i], d, q);
    TruncIsFloor(cloud[i].x, d, q.x);
    TruncIsFloor(cloud[i].y, d, q.y);
    TruncIsFloor(cloud[i].z, d, q.z);
  }
}
