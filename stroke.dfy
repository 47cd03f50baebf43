/** The mutable objects of lib/index.js: Point and Stroke. Each Stroke method is proved to
    change the points and the cache exactly as the value-level definitions of Geometry and
    StrokeCache say, so the properties proved there carry over to the objects. */
module Strokes {
  import opened Wrappers
  import opened Geometry
  import opened StrokeCache

  /** A stroke point: mutable coordinates and a timestamp that is kept only when truthy. */
  class Point {
    var x: real
    var y: real
    var t: Option<real>

    /** new Point(x, y, t): a falsy timestamp is not stored. */
    constructor (x: real, y: real, t: Option<real>)
      ensures Value() == Pt(x, y, Stamp(t))
    {
      this.x, this.y, this.t := x, y, Stamp(t);
    }

    /** The point's current coordinates and timestamp as a value. */
    function Value(): Pt
      reads this
    {
      Pt(x, y, t)
    }

    /** Point.prototype.clone: a new Point with the same coordinates and timestamp. */
    method Clone() returns (q: Point)
      ensures fresh(q) && q.Value() == Pt(x, y, Stamp(t))
    {
      q := new Point(x, y, t);
    }
  }

  /** The values held by a sequence of points. */
  function ValuesOf(ps: seq<Point>): (r: seq<Pt>)
    reads ps
    ensures |r| == |ps| && forall i :: 0 <= i < |ps| ==> r[i] == ps[i].Value()
  {
    seq(|ps|, i requires 0 <= i < |ps| reads ps => ps[i].Value())
  }

  /** No Point occurs twice: updating one point leaves every other one as it was. */
  ghost predicate Distinct(ps: seq<Point>)
  {
    forall i, j :: 0 <= i < j < |ps| ==> ps[i] != ps[j]
  }

  /** A stroke: its points in drawing order and the memo of derived features. */
  class Stroke {
    var points: seq<Point>
    var cache: Cache

    /** Every Point occurs once and holds a timestamp a Point can hold. */
    ghost predicate Valid()
      reads this, points
    {
      Distinct(points) && Stamped(ValuesOf(points))
    }

    /** The stroke's points as values. */
    function Values(): seq<Pt>
      reads this, points
    {
      ValuesOf(points)
    }

    /** new Stroke(records): one new Point per record, timestamps kept only when truthy, and
        an empty cache. A falsy argument is the same as no records. */
    constructor (records: seq<Pt>)
      ensures Valid() && Values() == Stored(records) && cache == Empty
      ensures forall i :: 0 <= i < |points| ==> fresh(points[i])
    {
      var pts: seq<Point> := [];
      for i := 0 to |records|
        invariant |pts| == i && Distinct(pts)
        invariant forall k :: 0 <= k < i ==> fresh(pts[k])
        invariant forall k :: 0 <= k < i ==> pts[k].Value() == Stored(records)[k]
      {
        var p := new Point(records[i].x, records[i].y, records[i].t);
        pts := pts + [p];
      }
      assert ValuesOf(pts) == Stored(records);
      points := pts;
      new;
      ClearCache();
    }

    /** new Stroke(other): a copy of another stroke, made through copy. */
    constructor FromStroke(other: Stroke)
      requires other.Valid()
      ensures Valid() && Values() == other.Values() && cache == Empty
      ensures forall i :: 0 <= i < |points| ==> fresh(points[i])
    {
      new;
      Copy(other);
    }

    /** fromOneDArray: reads one point per Stride(hasTimeStamp) numbers and replaces the
        points with them; the cache is left as it was. */
    method FromOneDArray(arr: seq<real>, hasTimeStamp: bool)
      requires |arr| % Stride(hasTimeStamp) != 1
      modifies this`points
      ensures Valid() && Values() == Unflatten(arr, hasTimeStamp) && cache == old(cache)
      ensures forall i :: 0 <= i < |points| ==> fresh(points[i])
    {
      ghost var u := Unflatten(arr, hasTimeStamp);
      var pts: seq<Point> := [];
      var i := 0;
      while i < |arr|
        invariant hasTimeStamp ==> i == 3 * |pts| && i <= |arr| + 2
        invariant !hasTimeStamp ==> i == 2 * |pts| && i <= |arr| + 1
        invariant |pts| <= |u|
        invariant Distinct(pts) && forall k :: 0 <= k < |pts| ==> fresh(pts[k])
        invariant forall k :: 0 <= k < |pts| ==> pts[k].Value() == u[k]
      {
        UnflattenCursor(arr, hasTimeStamp, i, |pts|);
        if hasTimeStamp {
          // arr[i + 2] past the end of the array is undefined: no timestamp
          var t := if i + 2 < |arr| then Some(arr[i + 2]) else None;
          var p := new Point(arr[i], arr[i + 1], t);
          pts := pts + [p];
          i := i + 3;
        } else {
          var p := new Point(arr[i], arr[i + 1], None);
          pts := pts + [p];
          i := i + 2;
        }
      }
      UnflattenCursor(arr, hasTimeStamp, i, |pts|);
      points := pts;
      assert Values() == u;
    }

    /** fromArray: one point per `[x, y]` or `[x, y, t]` row, then an empty cache. */
    method FromArray(arr: seq<seq<real>>)
      requires forall i :: 0 <= i < |arr| ==> |arr[i]| >= 2
      modifies this
      ensures Valid() && Values() == Rows(arr) && cache == Empty
      ensures forall i :: 0 <= i < |points| ==> fresh(points[i])
    {
      var pts: seq<Point> := [];
      for i := 0 to |arr|
        invariant |pts| == i && Distinct(pts)
        invariant forall k :: 0 <= k < i ==> fresh(pts[k])
        invariant forall k :: 0 <= k < i ==> pts[k].Value() == Rows(arr)[k]
      {
        var el := arr[i];
        var p := new Point(el[0], el[1], if |el| > 2 then Some(el[2]) else None);
        pts := pts + [p];
      }
      points := pts;
      assert Values() == Rows(arr);
      ClearCache();
    }

    /** clearCache: forgets every derived feature. */
    method ClearCache()
      modifies this`cache
      ensures cache == Empty
    {
      cache := Empty;
    }

    /** clone: a new stroke over clones of the points, with an empty cache. */
    method Clone() returns (s: Stroke)
      requires Valid()
      ensures fresh(s) && s.Valid() && s.Values() == Values() && s.cache == Empty
      ensures forall i :: 0 <= i < |s.points| ==> fresh(s.points[i])
    {
      var copies: seq<Point> := [];
      for i := 0 to |points|
        invariant |copies| == i
        invariant forall k :: 0 <= k < i ==> fresh(copies[k])
        invariant forall k :: 0 <= k < i ==> copies[k].Value() == Values()[k]
      {
        var q := points[i].Clone();
        copies := copies + [q];
      }
      assert ValuesOf(copies) == Values();
      StoredStamped(Values());
      s := new Stroke(ValuesOf(copies));
    }

    /** copy: takes over the points and the (empty) cache of a clone of `other`. */
    method Copy(other: Stroke)
      requires other.Valid()
      modifies this
      ensures Valid() && Values() == old(other.Values()) && cache == Empty
      ensures forall i :: 0 <= i < |points| ==> fresh(points[i])
    {
      var s := other.Clone();
      points := s.points;
      cache := s.cache;
    }

    /** getFirstPoint: the first Point, undefined for an empty stroke. */
    function FirstPoint(): (r: Option<Point>)
      reads this
      ensures r.Some? <==> |points| > 0
      ensures r.Some? ==> r.value == points[0]
    {
      if |points| == 0 then None else Some(points[0])
    }

    /** getLastPoint: the last Point, undefined for an empty stroke. */
    function LastPoint(): (r: Option<Point>)
      reads this
      ensures r.Some? <==> |points| > 0
      ensures r.Some? ==> r.value == points[|points| - 1]
    {
      if |points| == 0 then None else Some(points[|points| - 1])
    }

    /** getNumOfPoints. */
    function NumOfPoints(): (n: nat)
      reads this
      ensures n == |points|
    {
      |points|
    }

    /** getPointAt(ind): the Point at `ind`, undefined outside 0 .. length - 1. */
    function PointAt(ind: int): (r: Option<Point>)
      reads this
      ensures r.Some? <==> 0 <= ind < NumOfPoints()
      ensures r.Some? ==> r.value == points[ind]
    {
      if 0 <= ind < |points| then Some(points[ind]) else None
    }

    /** The first and last points are the ones at the first and last index. */
    lemma EndsAreIndexed()
      ensures PointAt(0) == FirstPoint()
      ensures PointAt(NumOfPoints() as int - 1) == LastPoint()
    {
    }

    /** getCentroid: the cached centroid, or the mean computed by summing the coordinates
        and dividing by the number of points, which is then cached. */
    method GetCentroid() returns (c: Centroid)
      modifies this`cache
      ensures (cache, c) == LookupCentroid(old(cache), Values())
    {
      if cache.centroid.None? {
        ghost var vs := Values();
        var x, y := 0.0, 0.0;
        var i := 0;
        while i < |points|
          invariant 0 <= i <= |points|
          invariant x == Sum(Xs(vs)[..i]) && y == Sum(Ys(vs)[..i])
        {
          assert Xs(vs)[..i + 1][..i] == Xs(vs)[..i] && Ys(vs)[..i + 1][..i] == Ys(vs)[..i];
          x := x + points[i].x;
          y := y + points[i].y;
          i := i + 1;
        }
        assert Xs(vs)[..i] == Xs(vs) && Ys(vs)[..i] == Ys(vs);
        // dividing by a length of zero gives a NaN point
        var m := if |points| == 0 then Undefined
                 else Mean(Vec(x / |points| as real, y / |points| as real));
        cache := cache.(centroid := Some(m));
      }
      c := cache.centroid.value;
    }

    /** getBoundingBox: recomputed with running Math.min/Math.max only while the centroid
        slot is empty; the bounding-box slot is returned in every case. */
    method GetBoundingBox() returns (b: Option<Rect>)
      modifies this`cache
      ensures (cache, b) == LookupBoundingBox(old(cache), Values())
    {
      if cache.centroid.None? {
        ghost var vs := Values();
        ghost var xs, ys := Xs(vs), Ys(vs);
        var minX, minY, maxX, maxY := 0.0, 0.0, 0.0, 0.0;
        var i := 0;
        while i < |points|
          invariant 0 <= i <= |points|
          invariant i > 0 ==> minX == Min(xs[..i]) && maxX == Max(xs[..i])
          invariant i > 0 ==> minY == Min(ys[..i]) && maxY == Max(ys[..i])
        {
          var p := points[i];
          if i == 0 {
            // Math.min(+Infinity, v) and Math.max(-Infinity, v) are v
            minX, minY, maxX, maxY := p.x, p.y, p.x, p.y;
          } else {
            assert xs[..i + 1][..i] == xs[..i] && ys[..i + 1][..i] == ys[..i];
            minX, minY := Smaller(minX, p.x), Smaller(minY, p.y);
            maxX, maxY := Larger(maxX, p.x), Larger(maxY, p.y);
          }
          i := i + 1;
        }
        assert xs[..i] == xs && ys[..i] == ys;
        // with no points the bounds stay at +Infinity and -Infinity
        var r := if |points| == 0 then Inverted else Rect(minX, minY, maxX - minX, maxY - minY);
        cache := cache.(boundingBox := Some(r));
      }
      b := cache.boundingBox;
    }

    /** getDiff: the cached deltas, or diff over the points with a vector subtraction. */
    method GetDiff() returns (d: seq<Vec>)
      modifies this`cache
      ensures (cache, d) == LookupDiff(old(cache), Values())
    {
      if cache.diff.None? {
        var deltas := Diff(Values(), (a: Pt, b: Pt) => Vec(a.x - b.x, a.y - b.y));
        assert deltas == Deltas(Values());
        cache := cache.(diff := Some(deltas));
      }
      d := cache.diff.value;
    }

    /** getSample(n): creates the samples slot as `{}` and puts the resampling to n (64
        when n is falsy) into it, only when the slot is absent; then returns what the slot
        holds for n. A throwing resampling leaves the slot empty and propagates. */
    method GetSample(n: nat, resample: Resampler) returns (r: SampleResult)
      modifies this`cache
      ensures (cache, r) == LookupSample(old(cache), Values(), n, resample)
    {
      var k := SampleSize(n);
      if cache.samples.None? {
        var slots: map<nat, seq<Pt>> := map[];
        cache := cache.(samples := Some(slots));
        if k !in slots {
          var sample := resample(Values(), k);
          if sample.None? {
            return Threw(TypeError);
          }
          slots := slots[k := sample.value];
          cache := cache.(samples := Some(slots));
        }
      }
      r := Returned(if k in cache.samples.value then Some(cache.samples.value[k]) else None);
    }

    /** reverse: the points in the opposite order, then an empty cache. */
    method Reverse()
      requires Valid()
      modifies this
      ensures Valid() && points == Reversed(old(points)) && cache == Empty
      ensures Values() == Reversed(old(Values()))
      ensures FirstPoint() == old(LastPoint()) && LastPoint() == old(FirstPoint())
    {
      ghost var vs := Values();
      points := Reversed(points);
      assert Values() == Reversed(vs);
      ClearCache();
    }

    /** flipX: every x negated in place, then an empty cache. */
    method FlipX()
      requires Valid()
      modifies this, points
      ensures Valid() && points == old(points) && cache == Empty
      ensures Values() == FlippedX(old(Values()))
    {
      ghost var before := Values();
      var i := 0;
      while i < |points|
        invariant 0 <= i <= |points| && points == old(points) && Distinct(points)
        invariant forall k :: 0 <= k < i ==> points[k].Value() == FlippedX(before)[k]
        invariant forall k :: i <= k < |points| ==> points[k].Value() == before[k]
      {
        points[i].x := -points[i].x;
        i := i + 1;
      }
      ClearCache();
    }

    /** flipY: every y negated in place, then an empty cache. */
    method FlipY()
      requires Valid()
      modifies this, points
      ensures Valid() && points == old(points) && cache == Empty
      ensures Values() == FlippedY(old(Values()))
    {
      ghost var before := Values();
      var i := 0;
      while i < |points|
        invariant 0 <= i <= |points| && points == old(points) && Distinct(points)
        invariant forall k :: 0 <= k < i ==> points[k].Value() == FlippedY(before)[k]
        invariant forall k :: i <= k < |points| ==> points[k].Value() == before[k]
      {
        points[i].y := -points[i].y;
        i := i + 1;
      }
      ClearCache();
    }

    /** translateTo(p): moves every point by p minus the centroid getCentroid returns, then
        empties the cache. When that centroid was not stale, the centroid lands on p. */
    method TranslateTo(p: Vec)
      requires Valid()
      requires |points| > 0 ==> LookupCentroid(cache, Values()).1.Mean?
      modifies this, points
      ensures Valid() && points == old(points) && cache == Empty
      ensures Values() == Translated(old(Values()), Offset(p, LookupCentroid(old(cache), old(Values())).1))
    {
      ghost var before := Values();
      var c := GetCentroid();
      var d := Offset(p, c);
      var i := 0;
      while i < |points|
        invariant 0 <= i <= |points| && points == old(points) && Distinct(points)
        invariant forall k :: 0 <= k < i ==> points[k].Value() == Translated(before, d)[k]
        invariant forall k :: i <= k < |points| ==> points[k].Value() == before[k]
      {
        points[i].x := points[i].x + d.x;
        points[i].y := points[i].y + d.y;
        i := i + 1;
      }
      ClearCache();
    }

    /** scaleTo(w, h): multiplies every x by w over the box width and every y by h over the
        box height, taking the box from getBoundingBox, then empties the cache. An undefined
        box throws on the first point, before anything changes. When the box was computed
        afresh, the new box is |w| by |h|. */
    method ScaleTo(w: real, h: real) returns (r: Outcome<Thrown>)
      requires Valid()
      requires |points| > 0 ==> ScalableBox(LookupBoundingBox(cache, Values()).1)
      modifies this, points
      ensures Valid() && points == old(points)
      ensures var b := LookupBoundingBox(old(cache), old(Values())).1;
              if |points| == 0 then r == Pass && Values() == [] && cache == Empty
              else if b.None? then r == Fail(TypeError) && Values() == old(Values()) && cache == old(cache)
              else var (kx, ky) := ScaleFactors(b.value, w, h);
                   r == Pass && Values() == Scaled(old(Values()), kx, ky) && cache == Empty
      ensures old(cache.centroid.None?) && |points| > 0 ==>
                r == Pass && BoundingBox(Values()).width == Abs(w) && BoundingBox(Values()).height == Abs(h)
    {
      ghost var before := Values();
      ghost var measured := cache.centroid.None?;
      var b := GetBoundingBox();
      ghost var k := if |points| > 0 && b.Some? then ScaleFactors(b.value, w, h) else (0.0, 0.0);
      var i := 0;
      while i < |points|
        invariant 0 <= i <= |points| && points == old(points) && Distinct(points)
        invariant b.None? ==> i == 0 && cache == old(cache)
        invariant forall k' :: 0 <= k' < i ==> points[k'].Value() == Scaled(before, k.0, k.1)[k']
        invariant forall k' :: i <= k' < |points| ==> points[k'].Value() == before[k']
      {
        if b.None? {
          // reading `B.width` of undefined throws here
          return Fail(TypeError);
        }
        var (kx, ky) := ScaleFactors(b.value, w, h);
        points[i].x := Times(points[i].x, kx);
        points[i].y := Times(points[i].y, ky);
        i := i + 1;
      }
      ClearCache();
      r := Pass;
      if measured && |points| > 0 {
        ScaleToBoxSize(before, w, h);
      }
    }

    /** scaleTo(w) with a single argument: scaleTo(w, w). */
    method ScaleToSquare(w: real) returns (r: Outcome<Thrown>)
      requires Valid()
      requires |points| > 0 ==> ScalableBox(LookupBoundingBox(cache, Values()).1)
      modifies this, points
      ensures Valid() && points == old(points)
      ensures var b := LookupBoundingBox(old(cache), old(Values())).1;
              if |points| == 0 then r == Pass && Values() == [] && cache == Empty
              else if b.None? then r == Fail(TypeError) && Values() == old(Values()) && cache == old(cache)
              else var (kx, ky) := ScaleFactors(b.value, w, w);
                   r == Pass && Values() == Scaled(old(Values()), kx, ky) && cache == Empty
      ensures old(cache.centroid.None?) && |points| > 0 ==>
                r == Pass && BoundingBox(Values()).width == Abs(w) && BoundingBox(Values()).height == Abs(w)
    {
      r := ScaleTo(w, w);
    }
  }
}
