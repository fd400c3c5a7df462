/** Normalization of one view's silhouette (`NormalizeTestPoints`): the
    silhouette is moved so that its first row is row 0 and its leftmost
    boundary is column 0. */
module Normalize {
  import opened Wrappers
  import opened Geometry
  import Seqs

  /** The first slice is on row 0 and the smallest left boundary is 0. */
  ghost predicate Normalized(s: seq<DoublePoint>) {
    && |s| > 0
    && s[0].y == 0
    && (exists k :: 0 <= k < |s| && s[k].x0 == 0)
    && forall k :: 0 <= k < |s| ==> s[k].x0 >= 0
  }

  /** `t` is `s` moved as a whole: row offsets, left-boundary offsets and
      slice widths all stay as they were. */
  ghost predicate IsTranslate(s: seq<DoublePoint>, t: seq<DoublePoint>) {
    && |s| == |t|
    && (|s| > 0 ==>
         forall k :: 0 <= k < |s| ==>
           && t[k].y - t[0].y == s[k].y - s[0].y
           && t[k].x0 - t[0].x0 == s[k].x0 - s[0].x0
           && t[k].x1 - t[k].x0 == s[k].x1 - s[k].x0)
  }

  /** `NormalizeTestPoints`: `First()` throws on an empty list, otherwise every
      slice is shifted up by the first row and left by the smallest left boundary. */
  function NormalizeTestPoints(s: seq<DoublePoint>): (r: Result<seq<DoublePoint>>)
    ensures r.Failure? <==> |s| == 0
    ensures r.Failure? ==> r.error == EmptySequence
    ensures r.Success? ==> Normalized(r.value) && IsTranslate(s, r.value)
  {
    if |s| == 0 then Failure(EmptySequence)
    else
      var minY := s[0].y;
      var minX := Seqs.Min(Lefts(s));
      var r := seq(|s|, k requires 0 <= k < |s| => DoublePoint(s[k].y - minY, s[k].x0 - minX, s[k].x1 - minX));
      var w := Seqs.IndexOf(Lefts(s), minX);
      assert r[w].x0 == 0;
      Success(r)
  }

  /** A normalized silhouette is left as it is. */
  lemma NormalizedIsFixedPoint(t: seq<DoublePoint>)
    requires Normalized(t)
    ensures NormalizeTestPoints(t) == Success(t)
  {
    var k :| 0 <= k < |t| && t[k].x0 == 0;
    assert Lefts(t)[k] == 0;
    var m := Seqs.Min(Lefts(t));
    assert m == 0;
    var r := NormalizeTestPoints(t).value;
    assert forall k :: 0 <= k < |t| ==> r[k] == t[k];
    assert r == t;
  }

  /** Two silhouettes that differ only by a translation normalize alike. */
  lemma TranslatesNormalizeAlike(s: seq<DoublePoint>, t: seq<DoublePoint>)
    requires |s| > 0 && IsTranslate(s, t)
    ensures NormalizeTestPoints(s) == NormalizeTestPoints(t)
  {
    var c := t[0].x0 - s[0].x0;
    var ms := Seqs.Min(Lefts(s));
    var mt := Seqs.Min(Lefts(t));
    var i :| 0 <= i < |s| && Lefts(s)[i] == ms;
    var j :| 0 <= j < |t| && Lefts(t)[j] == mt;
    assert t[i].x0 == ms + c;
    assert mt <= Lefts(t)[i];
    assert ms <= Lefts(s)[j];
    assert mt == ms + c;
    var rs := NormalizeTestPoints(s).value;
    var rt := NormalizeTestPoints(t).value;
    assert forall k :: 0 <= k < |s| ==> rs[k] == rt[k];
    assert rs == rt;
  }

  /** Normalizing twice is normalizing once. */
  lemma NormalizeIdempotent(s: seq<DoublePoint>)
    requires |s| > 0
    ensures NormalizeTestPoints(NormalizeTestPoints(s).value) == NormalizeTestPoints(s)
  {
    NormalizedIsFixedPoint(NormalizeTestPoints(s).value);
  }
}
