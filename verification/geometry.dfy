/** The two data carriers of the carving core. */
module Geometry {

  /** One horizontal slice of a silhouette: the left and right boundary
      columns `x0`, `x1` of image row `y`. */
  datatype DoublePoint = DoublePoint(y: int, x0: int, x1: int)

  /** One lattice point of the voxel cloud; `y` is the vertical axis. */
  datatype Point3D = Point3D(x: int, y: int, z: int)

  /** The left boundaries of a silhouette, in slice order. */
  function Lefts(s: seq<DoublePoint>): (r: seq<int>)
    ensures |r| == |s| && forall k :: 0 <= k < |s| ==> r[k] == s[k].x0
  {
    seq(|s|, k requires 0 <= k < |s| => s[k].x0)
  }

  /** The right boundaries of a silhouette, in slice order. */
  function Rights(s: seq<DoublePoint>): (r: seq<int>)
    ensures |r| == |s| && forall k :: 0 <= k < |s| ==> r[k] == s[k].x1
  {
    seq(|s|, k requires 0 <= k < |s| => s[k].x1)
  }
}
