/** The dense starting cloud (`MakeVirtualObject`): three nested `for` loops
    over y, then x, then z, each advancing by `step` from 0. */
module Lattice {
  import opened Geometry
  import opened Arith
  import opened Seqs

  /** `v` is visited by the loop `for (v = from; v < bound; v += step)`. */
  predicate OnGrid(v: int, from: int, bound: int, step: int)
    requires step > 0
  {
    from <= v < bound && (v - from) % step == 0
  }

  /** The order in which the loops emit points: by y, then x, then z. */
  predicate LoopLess(p: Point3D, q: Point3D) {
    p.y < q.y || (p.y == q.y && (p.x < q.x || (p.x == q.x && p.z < q.z)))
  }

  ghost predicate InLoopOrder(s: seq<Point3D>) {
    forall i, j :: 0 <= i < j < |s| ==> LoopLess(s[i], s[j])
  }

  /** A loop over a non-empty range visits its start and then the loop that starts one step later. */
  lemma GridStep(v: int, from: int, bound: int, step: int)
    requires step > 0 && from < bound
    ensures OnGrid(v, from, bound, step) <==> v == from || OnGrid(v, from + step, bound, step)
  {
    ModShift(v - from, step);
    if from < v < from + step {
      assert (v - from) % step == v - from by {
        DivUnique(v - from, step, 0, v - from);
      }
    }
  }

  lemma OrderedConcat(a: seq<Point3D>, b: seq<Point3D>)
    requires InLoopOrder(a) && InLoopOrder(b)
    requires forall p, q :: p in a && q in b ==> LoopLess(p, q)
    ensures InLoopOrder(a + b)
  {
    forall i, j | 0 <= i < j < |a + b|
      ensures LoopLess((a + b)[i], (a + b)[j])
    {
      if j < |a| {
        assert (a + b)[i] == a[i] && (a + b)[j] == a[j];
      } else if i >= |a| {
        assert (a + b)[i] == b[i - |a|] && (a + b)[j] == b[j - |a|];
      } else {
        assert (a + b)[i] in a && (a + b)[j] in b;
      }
    }
  }

  /** Points emitted in loop order are all different. */
  lemma LoopOrderHasNoDuplicates(s: seq<Point3D>)
    requires InLoopOrder(s)
    ensures NoDuplicates(s)
  {
    forall i, j | 0 <= i < j < |s|
      ensures s[i] != s[j]
    {
      assert LoopLess(s[i], s[j]);
    }
  }

  lemma CountStep(k: int, n: int)
    ensures (1 + k) * n == n + k * n
  {
  }

  /** The innermost loop `for (z = ...; z < maxSize; z += step)` at fixed x and y. */
  function ZLoop(x: int, y: int, z: int, step: int, maxSize: int): (r: seq<Point3D>)
    requires step > 0
    ensures |r| == CeilDiv(maxSize - z, step)
    ensures forall p :: p in r <==> p.x == x && p.y == y && OnGrid(p.z, z, maxSize, step)
    ensures InLoopOrder(r)
    decreases maxSize - z
  {
    if z >= maxSize then []
    else
      var rest := ZLoop(x, y, z + step, step, maxSize);
      CeilDivStep(maxSize - z, step);
      forall v: int ensures OnGrid(v, z, maxSize, step) <==> v == z || OnGrid(v, z + step, maxSize, step) {
        GridStep(v, z, maxSize, step);
      }
      OrderedConcat([Point3D(x, y, z)], rest);
      [Point3D(x, y, z)] + rest
  }

  /** The middle loop `for (x = ...; x < minSize; x += step)` at fixed y. */
  function XLoop(y: int, x: int, step: int, minSize: int, maxSize: int): (r: seq<Point3D>)
    requires step > 0
    ensures |r| == CeilDiv(minSize - x, step) * CeilDiv(maxSize, step)
    ensures forall p :: p in r <==>
      p.y == y && OnGrid(p.x, x, minSize, step) && OnGrid(p.z, 0, maxSize, step)
    ensures InLoopOrder(r)
    decreases minSize - x
  {
    if x >= minSize then []
    else
      var row := ZLoop(x, y, 0, step, maxSize);
      var rest := XLoop(y, x + step, step, minSize, maxSize);
      CeilDivStep(minSize - x, step);
      var nz := CeilDiv(maxSize, step);
      CountStep(CeilDiv(minSize - x - step, step), nz);
      forall v: int ensures OnGrid(v, x, minSize, step) <==> v == x || OnGrid(v, x + step, minSize, step) {
        GridStep(v, x, minSize, step);
      }
      OrderedConcat(row, rest);
      row + rest
  }

  /** The outer loop `for (y = ...; y < ySize; y += step)`. */
  function YLoop(y: int, step: int, ySize: int, minSize: int, maxSize: int): (r: seq<Point3D>)
    requires step > 0
    ensures |r| == CeilDiv(ySize - y, step) * (CeilDiv(minSize, step) * CeilDiv(maxSize, step))
    ensures forall p :: p in r <==>
      OnGrid(p.y, y, ySize, step) && OnGrid(p.x, 0, minSize, step) && OnGrid(p.z, 0, maxSize, step)
    ensures InLoopOrder(r)
    decreases ySize - y
  {
    if y >= ySize then []
    else
      var plane := XLoop(y, 0, step, minSize, maxSize);
      var rest := YLoop(y + step, step, ySize, minSize, maxSize);
      CeilDivStep(ySize - y, step);
      var nxz := CeilDiv(minSize, step) * CeilDiv(maxSize, step);
      CountStep(CeilDiv(ySize - y - step, step), nxz);
      forall v: int ensures OnGrid(v, y, ySize, step) <==> v == y || OnGrid(v, y + step, ySize, step) {
        GridStep(v, y, ySize, step);
      }
      OrderedConcat(plane, rest);
      plane + rest
  }

  /** `MakeVirtualObject`: every lattice point of the box
      [0, minSize) x [0, ySize) x [0, maxSize) whose coordinates are multiples
      of `step`, each once, ordered by y, then x, then z. An empty y range
      gives no point whatever the step. */
  function MakeVirtualObject(step: int, ySize: int, minSize: int, maxSize: int): (r: seq<Point3D>)
    requires step > 0 || ySize <= 0
    ensures ySize <= 0 ==> r == []
    ensures step > 0 ==> |r| == CeilDiv(ySize, step) * (CeilDiv(minSize, step) * CeilDiv(maxSize, step))
    ensures step > 0 ==> forall p :: p in r <==>
      && 0 <= p.y < ySize && p.y % step == 0
      && 0 <= p.x < minSize && p.x % step == 0
      && 0 <= p.z < maxSize && p.z % step == 0
    ensures InLoopOrder(r)
    ensures NoDuplicates(r)
  {
    if step > 0 then
      var r := YLoop(0, step, ySize, minSize, maxSize);
      LoopOrderHasNoDuplicates(r);
      r
    else []
  }
}
