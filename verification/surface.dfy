/** Surface extraction (`RemoveInside`). For each of three families of
    axis-parallel lines the cloud's points are grouped by line in a two-level
    dictionary, and the two end points of every line are emitted. */
module Surface {
  import opened Geometry
  import opened Seqs

  /** The three passes: lines along x at fixed (z, y), lines along z at fixed
      (x, y), and lines along y at fixed (z, x). */
  datatype Family = AlongX | AlongZ | AlongY

  /** The outer dictionary key of the line through `p`. */
  function Outer(f: Family, p: Point3D): int {
    match f
    case AlongX => p.z
    case AlongZ => p.x
    case AlongY => p.z
  }

  /** The inner dictionary key of the line through `p`. */
  function Inner(f: Family, p: Point3D): int {
    match f
    case AlongX => p.y
    case AlongZ => p.y
    case AlongY => p.x
  }

  /** The coordinate of `p` along its line: the value stored in the list. */
  function Coord(f: Family, p: Point3D): int {
    match f
    case AlongX => p.x
    case AlongZ => p.z
    case AlongY => p.y
  }

  /** The point the pass emits for value `c` on line `(o, i)`. */
  function Make(f: Family, o: int, i: int, c: int): (p: Point3D)
    ensures Outer(f, p) == o && Inner(f, p) == i && Coord(f, p) == c
  {
    match f
    case AlongX => Point3D(c, i, o)
    case AlongZ => Point3D(o, i, c)
    case AlongY => Point3D(i, c, o)
  }

  lemma MakeRoundTrip(f: Family, p: Point3D)
    ensures Make(f, Outer(f, p), Inner(f, p), Coord(f, p)) == p
  {
  }

  // ---------------------------------------------------------------------------
  // The two-level dictionary `Dictionary<int, Dictionary<int, List<int>>>`.
  // A .NET Dictionary that is only added to enumerates its keys in insertion
  // order, so each level is a list of keyed entries in insertion order.

  /** `lines[o][i]`: the values collected for one line. */
  datatype Line = Line(key: int, values: seq<int>)

  /** `lines[o]`: one inner dictionary. */
  datatype Plane = Plane(key: int, lines: seq<Line>)

  function LineKeys(lines: seq<Line>): seq<int> {
    seq(|lines|, k requires 0 <= k < |lines| => lines[k].key)
  }

  function PlaneKeys(planes: seq<Plane>): seq<int> {
    seq(|planes|, k requires 0 <= k < |planes| => planes[k].key)
  }

  /** Keys are unique at both levels and no list is empty. */
  ghost predicate WellFormed(planes: seq<Plane>) {
    && NoDuplicates(PlaneKeys(planes))
    && forall a :: 0 <= a < |planes| ==>
         && NoDuplicates(LineKeys(planes[a].lines))
         && forall b :: 0 <= b < |planes[a].lines| ==> |planes[a].lines[b].values| > 0
  }

  /** `lines[y].Add(c)`, or `lines[y] = new List { c }` when `y` is new. */
  function AddToLines(lines: seq<Line>, i: int, c: int): seq<Line> {
    if |lines| == 0 then [Line(i, [c])]
    else if lines[0].key == i then [Line(i, lines[0].values + [c])] + lines[1..]
    else [lines[0]] + AddToLines(lines[1..], i, c)
  }

  /** One iteration of a grouping loop: create `lines[o]` if absent, then add `c` to `lines[o][i]`. */
  function AddToPlanes(planes: seq<Plane>, o: int, i: int, c: int): seq<Plane> {
    if |planes| == 0 then [Plane(o, AddToLines([], i, c))]
    else if planes[0].key == o then [Plane(o, AddToLines(planes[0].lines, i, c))] + planes[1..]
    else [planes[0]] + AddToPlanes(planes[1..], o, i, c)
  }

  /** A grouping loop `foreach (var p in virtualObject)` run to the end. */
  function Group(f: Family, cloud: seq<Point3D>): seq<Plane>
    decreases |cloud|
  {
    if |cloud| == 0 then []
    else
      var p := cloud[|cloud| - 1];
      AddToPlanes(Group(f, cloud[..|cloud| - 1]), Outer(f, p), Inner(f, p), Coord(f, p))
  }

  /** Dictionary lookup: the list of line `i`, or empty when absent. */
  function LineValues(lines: seq<Line>, i: int): seq<int> {
    if |lines| == 0 then []
    else if lines[0].key == i then lines[0].values
    else LineValues(lines[1..], i)
  }

  /** Dictionary lookup: the inner dictionary `o`, or empty when absent. */
  function PlaneLines(planes: seq<Plane>, o: int): seq<Line> {
    if |planes| == 0 then []
    else if planes[0].key == o then planes[0].lines
    else PlaneLines(planes[1..], o)
  }

  function Values(planes: seq<Plane>, o: int, i: int): seq<int> {
    LineValues(PlaneLines(planes, o), i)
  }

  /** The reference for one line: the coordinates of the cloud's points on
      line `(o, i)`, in cloud order. */
  function Column(f: Family, cloud: seq<Point3D>, o: int, i: int): (r: seq<int>)
    ensures forall c :: c in r <==> Make(f, o, i, c) in cloud
    decreases |cloud|
  {
    if |cloud| == 0 then []
    else
      var init := cloud[..|cloud| - 1];
      var p := cloud[|cloud| - 1];
      assert cloud == init + [p];
      var rest := Column(f, init, o, i);
      MakeRoundTrip(f, p);
      if Outer(f, p) == o && Inner(f, p) == i then rest + [Coord(f, p)] else rest
  }

  lemma {:induction false} AddToLinesLookup(lines: seq<Line>, i: int, c: int, j: int)
    ensures LineValues(AddToLines(lines, i, c), j) ==
      if j == i then LineValues(lines, i) + [c] else LineValues(lines, j)
  {
    if |lines| > 0 && lines[0].key != i {
      AddToLinesLookup(lines[1..], i, c, j);
    }
  }

  lemma {:induction false} AddToPlanesLookup(planes: seq<Plane>, o: int, i: int, c: int, o': int)
    ensures PlaneLines(AddToPlanes(planes, o, i, c), o') ==
      if o' == o then AddToLines(PlaneLines(planes, o), i, c) else PlaneLines(planes, o')
  {
    if |planes| > 0 && planes[0].key != o {
      AddToPlanesLookup(planes[1..], o, i, c, o');
    }
  }

  lemma {:induction false} AddToLinesShape(lines: seq<Line>, i: int, c: int)
    ensures LineKeys(AddToLines(lines, i, c)) ==
      if i in LineKeys(lines) then LineKeys(lines) else LineKeys(lines) + [i]
  {
    var r := AddToLines(lines, i, c);
    if |lines| == 0 {
      assert LineKeys(r) == [i];
    } else if lines[0].key == i {
      assert LineKeys(r) == LineKeys(lines);
      assert LineKeys(lines)[0] == i;
    } else {
      AddToLinesShape(lines[1..], i, c);
      assert LineKeys(lines) == [lines[0].key] + LineKeys(lines[1..]);
      assert LineKeys(r) == [lines[0].key] + LineKeys(AddToLines(lines[1..], i, c));
    }
  }

  /** Adding a value never leaves a list empty. */
  lemma {:induction false} AddToLinesNonEmpty(lines: seq<Line>, i: int, c: int)
    requires forall b :: 0 <= b < |lines| ==> |lines[b].values| > 0
    ensures forall b :: 0 <= b < |AddToLines(lines, i, c)| ==> |AddToLines(lines, i, c)[b].values| > 0
  {
    if |lines| > 0 && lines[0].key != i {
      AddToLinesNonEmpty(lines[1..], i, c);
      var r := AddToLines(lines, i, c);
      assert r == [lines[0]] + AddToLines(lines[1..], i, c);
    }
  }

  /** A line list without repeated keys, every list non-empty. */
  ghost predicate LinesWellFormed(lines: seq<Line>) {
    && NoDuplicates(LineKeys(lines))
    && forall b :: 0 <= b < |lines| ==> |lines[b].values| > 0
  }

  lemma AddToLinesWellFormed(lines: seq<Line>, i: int, c: int)
    requires LinesWellFormed(lines)
    ensures LinesWellFormed(AddToLines(lines, i, c))
  {
    AddToLinesShape(lines, i, c);
    AddToLinesNonEmpty(lines, i, c);
    if i !in LineKeys(lines) {
      AppendFresh(LineKeys(lines), i);
    }
  }

  lemma ConsWellFormed(p: Plane, rest: seq<Plane>)
    requires WellFormed(rest) && p.key !in PlaneKeys(rest) && LinesWellFormed(p.lines)
    ensures WellFormed([p] + rest)
  {
    var r := [p] + rest;
    assert PlaneKeys(r) == [p.key] + PlaneKeys(rest);
    forall a, b | 0 <= a < b < |r| ensures PlaneKeys(r)[a] != PlaneKeys(r)[b] {
      if a == 0 {
        assert PlaneKeys(r)[b] == PlaneKeys(rest)[b - 1];
      } else {
        assert PlaneKeys(rest)[a - 1] != PlaneKeys(rest)[b - 1];
      }
    }
    forall a | 0 <= a < |r| ensures LinesWellFormed(r[a].lines) {
      if a > 0 {
        assert r[a] == rest[a - 1];
      }
    }
  }

  lemma {:induction false} AddToPlanesShape(planes: seq<Plane>, o: int, i: int, c: int)
    requires WellFormed(planes)
    ensures WellFormed(AddToPlanes(planes, o, i, c))
  {
    if |planes| == 0 {
      AddToLinesWellFormed([], i, c);
      ConsWellFormed(Plane(o, AddToLines([], i, c)), []);
      assert AddToPlanes(planes, o, i, c) == [Plane(o, AddToLines([], i, c))] + [];
    } else {
      var rest := planes[1..];
      WellFormedTail(planes);
      assert LinesWellFormed(planes[0].lines);
      if planes[0].key == o {
        AddToLinesWellFormed(planes[0].lines, i, c);
        ConsWellFormed(Plane(o, AddToLines(planes[0].lines, i, c)), rest);
      } else {
        AddToPlanesShape(rest, o, i, c);
        AddToPlanesKeys(rest, o, i, c);
        ConsWellFormed(planes[0], AddToPlanes(rest, o, i, c));
      }
    }
  }

  lemma {:induction false} AddToPlanesKeys(planes: seq<Plane>, o: int, i: int, c: int)
    ensures PlaneKeys(AddToPlanes(planes, o, i, c)) ==
      if o in PlaneKeys(planes) then PlaneKeys(planes) else PlaneKeys(planes) + [o]
  {
    var r := AddToPlanes(planes, o, i, c);
    if |planes| == 0 {
      assert PlaneKeys(r) == [o];
    } else if planes[0].key == o {
      assert PlaneKeys(r) == PlaneKeys(planes);
      assert PlaneKeys(planes)[0] == o;
    } else {
      AddToPlanesKeys(planes[1..], o, i, c);
      assert PlaneKeys(planes) == [planes[0].key] + PlaneKeys(planes[1..]);
      assert PlaneKeys(r) == [planes[0].key] + PlaneKeys(AddToPlanes(planes[1..], o, i, c));
    }
  }

  /** The grouping loop files every point under its line, and only there. */
  lemma {:induction false} GroupSpec(f: Family, cloud: seq<Point3D>)
    ensures WellFormed(Group(f, cloud))
    ensures forall o, i :: Values(Group(f, cloud), o, i) == Column(f, cloud, o, i)
    decreases |cloud|
  {
    if |cloud| > 0 {
      var init := cloud[..|cloud| - 1];
      var p := cloud[|cloud| - 1];
      GroupSpec(f, init);
      AddToPlanesShape(Group(f, init), Outer(f, p), Inner(f, p), Coord(f, p));
      forall o, i ensures Values(Group(f, cloud), o, i) == Column(f, cloud, o, i) {
        AddToPlanesLookup(Group(f, init), Outer(f, p), Inner(f, p), Coord(f, p), o);
        AddToLinesLookup(PlaneLines(Group(f, init), o), Inner(f, p), Coord(f, p), i);
      }
    }
  }

  lemma WellFormedTail(planes: seq<Plane>)
    requires WellFormed(planes) && |planes| > 0
    ensures WellFormed(planes[1..])
    ensures planes[0].key !in PlaneKeys(planes[1..])
  {
    var rest := planes[1..];
    assert PlaneKeys(rest) == PlaneKeys(planes)[1..];
    assert forall a :: 0 <= a < |rest| ==> rest[a] == planes[a + 1];
    forall j | 0 <= j < |rest| ensures PlaneKeys(rest)[j] != planes[0].key {
      assert PlaneKeys(planes)[j + 1] != PlaneKeys(planes)[0];
    }
  }

  lemma {:induction false} LineLookupHit(lines: seq<Line>, b: int)
    requires NoDuplicates(LineKeys(lines)) && 0 <= b < |lines|
    ensures LineValues(lines, lines[b].key) == lines[b].values
  {
    if b > 0 {
      assert LineKeys(lines)[0] != LineKeys(lines)[b];
      assert LineKeys(lines[1..]) == LineKeys(lines)[1..];
      LineLookupHit(lines[1..], b - 1);
    }
  }

  lemma {:induction false} LineLookupFound(lines: seq<Line>, i: int)
    requires |LineValues(lines, i)| > 0
    ensures exists b :: 0 <= b < |lines| && lines[b].key == i
  {
    if lines[0].key != i {
      LineLookupFound(lines[1..], i);
      var b :| 0 <= b < |lines[1..]| && lines[1..][b].key == i;
      assert lines[b + 1].key == i;
    }
  }

  /** One `(o, i)` entry of the dictionary. */
  datatype Entry = Entry(outer: int, inner: int, values: seq<int>)

  function PlaneEntries(pl: Plane): seq<Entry> {
    seq(|pl.lines|, k requires 0 <= k < |pl.lines| => Entry(pl.key, pl.lines[k].key, pl.lines[k].values))
  }

  /** The entries in the order the nested loops `foreach (var z in lines.Keys)`
      and `foreach (var y in lines[z].Keys)` visit them. */
  function Entries(planes: seq<Plane>): seq<Entry> {
    if |planes| == 0 then [] else PlaneEntries(planes[0]) + Entries(planes[1..])
  }

  function EntryKeys(es: seq<Entry>): seq<(int, int)> {
    seq(|es|, k requires 0 <= k < |es| => (es[k].outer, es[k].inner))
  }

  lemma {:induction false} EntriesOuter(planes: seq<Plane>)
    ensures forall k :: 0 <= k < |Entries(planes)| ==> Entries(planes)[k].outer in PlaneKeys(planes)
  {
    if |planes| > 0 {
      EntriesOuter(planes[1..]);
      var head := PlaneEntries(planes[0]);
      var tail := Entries(planes[1..]);
      var es: seq<Entry> := head + tail;
      assert PlaneKeys(planes) == [planes[0].key] + PlaneKeys(planes[1..]);
      forall k | 0 <= k < |es| ensures es[k].outer in PlaneKeys(planes) {
        if k >= |head| {
          assert es[k] == tail[k - |head|];
        }
      }
    }
  }

  /** Each visited entry carries the list the dictionary holds for its key. */
  lemma {:induction false} EntriesValues(planes: seq<Plane>)
    requires WellFormed(planes)
    ensures forall k :: 0 <= k < |Entries(planes)| ==>
      && Entries(planes)[k].values == Values(planes, Entries(planes)[k].outer, Entries(planes)[k].inner)
      && |Entries(planes)[k].values| > 0
  {
    if |planes| > 0 {
      var p0 := planes[0];
      WellFormedTail(planes);
      EntriesValues(planes[1..]);
      EntriesOuter(planes[1..]);
      var head := PlaneEntries(p0);
      var tail := Entries(planes[1..]);
      var es: seq<Entry> := head + tail;
      forall k | 0 <= k < |es|
        ensures es[k].values == Values(planes, es[k].outer, es[k].inner)
        ensures |es[k].values| > 0
      {
        if k < |head| {
          LineLookupHit(p0.lines, k);
        } else {
          assert es[k] == tail[k - |head|];
        }
      }
    }
  }

  /** Every non-empty list of the dictionary is visited. */
  lemma {:induction false} EntriesCover(planes: seq<Plane>, o: int, i: int)
    requires |Values(planes, o, i)| > 0
    ensures exists k :: 0 <= k < |Entries(planes)| && Entries(planes)[k].outer == o && Entries(planes)[k].inner == i
  {
    var head := PlaneEntries(planes[0]);
    if o == planes[0].key {
      LineLookupFound(planes[0].lines, i);
      var b :| 0 <= b < |planes[0].lines| && planes[0].lines[b].key == i;
      assert Entries(planes)[b] == head[b];
    } else {
      EntriesCover(planes[1..], o, i);
      var tail := Entries(planes[1..]);
      var k :| 0 <= k < |tail| && tail[k].outer == o && tail[k].inner == i;
      assert Entries(planes)[|head| + k] == tail[k];
    }
  }

  /** No key is visited twice. */
  lemma {:induction false} EntriesDistinct(planes: seq<Plane>)
    requires WellFormed(planes)
    ensures NoDuplicates(EntryKeys(Entries(planes)))
  {
    if |planes| > 0 {
      var p0 := planes[0];
      WellFormedTail(planes);
      EntriesDistinct(planes[1..]);
      EntriesOuter(planes[1..]);
      var head := PlaneEntries(p0);
      var tail := Entries(planes[1..]);
      var es := head + tail;
      assert NoDuplicates(LineKeys(p0.lines));
      forall k, l | 0 <= k < l < |es|
        ensures EntryKeys(es)[k] != EntryKeys(es)[l]
      {
        if l < |head| {
          assert LineKeys(p0.lines)[k] != LineKeys(p0.lines)[l];
        } else if k >= |head| {
          assert es[k] == tail[k - |head|] && es[l] == tail[l - |head|];
          assert EntryKeys(tail)[k - |head|] != EntryKeys(tail)[l - |head|];
        } else {
          assert es[l] == tail[l - |head|];
        }
      }
    }
  }

  /** `q` is one of the two points emitted for entry `e`: the line's least or
      greatest value. */
  ghost predicate EndOf(f: Family, e: Entry, q: Point3D)
    requires |e.values| > 0
  {
    q == Make(f, e.outer, e.inner, Min(e.values)) || q == Make(f, e.outer, e.inner, Max(e.values))
  }

  /** The body of the emitting loops: two points per entry, the minimum first,
      even when minimum and maximum coincide. */
  function Emit(f: Family, es: seq<Entry>): (r: seq<Point3D>)
    requires forall k :: 0 <= k < |es| ==> |es[k].values| > 0
    ensures |r| == 2 * |es|
    ensures forall q :: q in r <==> exists k :: 0 <= k < |es| && EndOf(f, es[k], q)
  {
    if |es| == 0 then []
    else
      var e := es[0];
      var rest := Emit(f, es[1..]);
      assert forall k :: 1 <= k < |es| ==> es[k] == es[1..][k - 1];
      [Make(f, e.outer, e.inner, Min(e.values)), Make(f, e.outer, e.inner, Max(e.values))] + rest
  }

  ghost predicate SameLine(f: Family, p: Point3D, q: Point3D) {
    Outer(f, p) == Outer(f, q) && Inner(f, p) == Inner(f, q)
  }

  /** No point of the cloud on `q`'s line lies below `q` along the line. */
  ghost predicate LineLow(f: Family, cloud: seq<Point3D>, q: Point3D) {
    forall p :: p in cloud && SameLine(f, p, q) ==> Coord(f, q) <= Coord(f, p)
  }

  /** No point of the cloud on `q`'s line lies above `q` along the line. */
  ghost predicate LineHigh(f: Family, cloud: seq<Point3D>, q: Point3D) {
    forall p :: p in cloud && SameLine(f, p, q) ==> Coord(f, p) <= Coord(f, q)
  }

  /** The lines of family `f` that hold at least one point of the cloud. */
  ghost function Keys(f: Family, cloud: seq<Point3D>): set<(int, int)> {
    set p | p in cloud :: (Outer(f, p), Inner(f, p))
  }

  /** Both end points of `p`'s line in family `f` are in `r`. */
  ghost predicate EndsPresent(f: Family, cloud: seq<Point3D>, r: seq<Point3D>, p: Point3D) {
    && (exists q :: q in r && SameLine(f, p, q) && LineLow(f, cloud, q))
    && (exists q :: q in r && SameLine(f, p, q) && LineHigh(f, cloud, q))
  }

  /** The entry's list holds exactly the coordinates of the cloud's points on its line. */
  ghost predicate EntryMatches(f: Family, cloud: seq<Point3D>, e: Entry) {
    && |e.values| > 0
    && forall c :: c in e.values <==> Make(f, e.outer, e.inner, c) in cloud
  }

  ghost predicate EntriesMatch(f: Family, cloud: seq<Point3D>, es: seq<Entry>) {
    forall k :: 0 <= k < |es| ==> EntryMatches(f, cloud, es[k])
  }

  /** Every line of the cloud has an entry. */
  ghost predicate EntriesCoverCloud(f: Family, cloud: seq<Point3D>, es: seq<Entry>) {
    forall p :: p in cloud ==> exists k :: 0 <= k < |es| && es[k].outer == Outer(f, p) && es[k].inner == Inner(f, p)
  }

  lemma EntryBounds(f: Family, cloud: seq<Point3D>, e: Entry, p: Point3D)
    requires EntryMatches(f, cloud, e)
    requires p in cloud && Outer(f, p) == e.outer && Inner(f, p) == e.inner
    ensures Min(e.values) <= Coord(f, p) <= Max(e.values)
  {
    MakeRoundTrip(f, p);
    assert Coord(f, p) in e.values;
  }

  /** The point emitted first for an entry is a cloud point at the low end of its line. */
  lemma LowEnd(f: Family, cloud: seq<Point3D>, e: Entry)
    requires EntryMatches(f, cloud, e)
    ensures Make(f, e.outer, e.inner, Min(e.values)) in cloud
    ensures LineLow(f, cloud, Make(f, e.outer, e.inner, Min(e.values)))
  {
    var q := Make(f, e.outer, e.inner, Min(e.values));
    forall p | p in cloud && SameLine(f, p, q) ensures Coord(f, q) <= Coord(f, p) {
      EntryBounds(f, cloud, e, p);
    }
  }

  /** The point emitted second for an entry is a cloud point at the high end of its line. */
  lemma HighEnd(f: Family, cloud: seq<Point3D>, e: Entry)
    requires EntryMatches(f, cloud, e)
    ensures Make(f, e.outer, e.inner, Max(e.values)) in cloud
    ensures LineHigh(f, cloud, Make(f, e.outer, e.inner, Max(e.values)))
  {
    var q := Make(f, e.outer, e.inner, Max(e.values));
    forall p | p in cloud && SameLine(f, p, q) ensures Coord(f, p) <= Coord(f, q) {
      EntryBounds(f, cloud, e, p);
    }
  }

  lemma EmitSound(f: Family, cloud: seq<Point3D>, es: seq<Entry>)
    requires EntriesMatch(f, cloud, es)
    ensures forall q :: q in Emit(f, es) ==> q in cloud && (LineLow(f, cloud, q) || LineHigh(f, cloud, q))
  {
    forall q | q in Emit(f, es)
      ensures q in cloud && (LineLow(f, cloud, q) || LineHigh(f, cloud, q))
    {
      var k :| 0 <= k < |es| && EndOf(f, es[k], q);
      var e := es[k];
      assert EntryMatches(f, cloud, e);
      if q == Make(f, e.outer, e.inner, Min(e.values)) {
        LowEnd(f, cloud, e);
      } else {
        HighEnd(f, cloud, e);
      }
    }
  }

  lemma EmitComplete(f: Family, cloud: seq<Point3D>, es: seq<Entry>)
    requires EntriesMatch(f, cloud, es) && EntriesCoverCloud(f, cloud, es)
    ensures forall p :: p in cloud ==> EndsPresent(f, cloud, Emit(f, es), p)
  {
    var r := Emit(f, es);
    forall p | p in cloud
      ensures EndsPresent(f, cloud, r, p)
    {
      var k :| 0 <= k < |es| && es[k].outer == Outer(f, p) && es[k].inner == Inner(f, p);
      var e := es[k];
      var lo := Make(f, e.outer, e.inner, Min(e.values));
      var hi := Make(f, e.outer, e.inner, Max(e.values));
      assert EndOf(f, e, lo) && EndOf(f, e, hi);
      LowEnd(f, cloud, e);
      HighEnd(f, cloud, e);
      assert lo in r && SameLine(f, p, lo);
      assert hi in r && SameLine(f, p, hi);
    }
  }

  lemma EmitCount(f: Family, cloud: seq<Point3D>, es: seq<Entry>)
    requires EntriesMatch(f, cloud, es) && EntriesCoverCloud(f, cloud, es)
    requires NoDuplicates(EntryKeys(es))
    ensures |Emit(f, es)| == 2 * |Keys(f, cloud)|
  {
    forall x | x in EntryKeys(es) ensures x in Keys(f, cloud) {
      var k :| 0 <= k < |es| && EntryKeys(es)[k] == x;
      assert EntryMatches(f, cloud, es[k]);
      var p := Make(f, es[k].outer, es[k].inner, es[k].values[0]);
      assert p in cloud && x == (Outer(f, p), Inner(f, p));
    }
    forall x | x in Keys(f, cloud) ensures x in EntryKeys(es) {
      var p :| p in cloud && x == (Outer(f, p), Inner(f, p));
      var k :| 0 <= k < |es| && es[k].outer == Outer(f, p) && es[k].inner == Inner(f, p);
      assert EntryKeys(es)[k] == x;
    }
    assert (set x | x in EntryKeys(es)) == Keys(f, cloud);
    DistinctCardinality(EntryKeys(es));
  }

  /** The dictionary built from the cloud, visited in order, has an entry for
      each line of the cloud, once, with exactly that line's coordinates. */
  lemma GroupEntries(f: Family, cloud: seq<Point3D>)
    ensures EntriesMatch(f, cloud, Entries(Group(f, cloud)))
    ensures EntriesCoverCloud(f, cloud, Entries(Group(f, cloud)))
    ensures NoDuplicates(EntryKeys(Entries(Group(f, cloud))))
  {
    var planes := Group(f, cloud);
    var es := Entries(planes);
    GroupSpec(f, cloud);
    EntriesValues(planes);
    EntriesDistinct(planes);
    forall p | p in cloud
      ensures exists k :: 0 <= k < |es| && es[k].outer == Outer(f, p) && es[k].inner == Inner(f, p)
    {
      MakeRoundTrip(f, p);
      assert Coord(f, p) in Column(f, cloud, Outer(f, p), Inner(f, p));
      EntriesCover(planes, Outer(f, p), Inner(f, p));
    }
  }

  /** One pass of `RemoveInside` for family `f`: group the cloud by line, then
      emit both ends of every line. */
  function Extract(f: Family, cloud: seq<Point3D>): (r: seq<Point3D>)
    ensures forall q :: q in r ==> q in cloud && (LineLow(f, cloud, q) || LineHigh(f, cloud, q))
    ensures forall p :: p in cloud ==> EndsPresent(f, cloud, r, p)
    ensures |r| == 2 * |Keys(f, cloud)|
  {
    var es := Entries(Group(f, cloud));
    GroupEntries(f, cloud);
    EmitSound(f, cloud, es);
    EmitComplete(f, cloud, es);
    EmitCount(f, cloud, es);
    Emit(f, es)
  }

  lemma ConcatKeepsEnds(cloud: seq<Point3D>, xs: seq<Point3D>, zs: seq<Point3D>, ys: seq<Point3D>)
    requires forall p :: p in cloud ==> EndsPresent(AlongX, cloud, xs, p)
    requires forall p :: p in cloud ==> EndsPresent(AlongZ, cloud, zs, p)
    requires forall p :: p in cloud ==> EndsPresent(AlongY, cloud, ys, p)
    ensures forall f, p :: p in cloud ==> EndsPresent(f, cloud, xs + zs + ys, p)
  {
    forall f: Family, p | p in cloud
      ensures EndsPresent(f, cloud, xs + zs + ys, p)
    {
      var part := match f case AlongX => xs case AlongZ => zs case AlongY => ys;
      assert EndsPresent(f, cloud, part, p);
      var lo :| lo in part && SameLine(f, p, lo) && LineLow(f, cloud, lo);
      var hi :| hi in part && SameLine(f, p, hi) && LineHigh(f, cloud, hi);
      assert lo in xs + zs + ys && hi in xs + zs + ys;
    }
  }

  /** `RemoveInside`: the end points of the lines along x, then those along z,
      then those along y, repeats included. */
  function RemoveInside(cloud: seq<Point3D>): (r: seq<Point3D>)
    ensures forall q :: q in r ==> q in cloud
    ensures forall q :: q in r ==>
      || LineLow(AlongX, cloud, q) || LineHigh(AlongX, cloud, q)
      || LineLow(AlongZ, cloud, q) || LineHigh(AlongZ, cloud, q)
      || LineLow(AlongY, cloud, q) || LineHigh(AlongY, cloud, q)
    ensures forall f, p :: p in cloud ==> EndsPresent(f, cloud, r, p)
    ensures |r| == 2 * (|Keys(AlongX, cloud)| + |Keys(AlongZ, cloud)| + |Keys(AlongY, cloud)|)
  {
    var xs := Extract(AlongX, cloud);
    var zs := Extract(AlongZ, cloud);
    var ys := Extract(AlongY, cloud);
    ConcatKeepsEnds(cloud, xs, zs, ys);
    xs + zs + ys
  }
}
