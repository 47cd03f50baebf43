/** Point values and the pure specifications behind the stroke operations of lib/index.js:
    the centroid, the bounding box, the per-segment deltas, the pose transforms, and the
    flat-array encodings a stroke is built from. */
module Geometry {
  import opened Wrappers

  /** The value of a stroke point: coordinates and the optional capture timestamp. */
  datatype Pt = Pt(x: real, y: real, t: Option<real>)

  /** A plain {x, y} pair: a segment delta, a centroid, a translation target. */
  datatype Vec = Vec(x: real, y: real)

  /** An axis-aligned rectangle. Inverted stands for the rectangle (+Inf, +Inf, -Inf, -Inf)
      that the bounding-box loop leaves behind when it sees no point. */
  datatype Rect = Rect(x: real, y: real, width: real, height: real) | Inverted

  /** A centroid. Undefined stands for the (NaN, NaN) point that 0 / 0 gives for a stroke
      without points. */
  datatype Centroid = Mean(at: Vec) | Undefined

  /** The timestamp a Point keeps: a falsy one (absent or zero) is not stored. */
  function Stamp(t: Option<real>): Option<real>
  {
    if t.Some? && t.value != 0.0 then t else None
  }

  /** Every timestamp is one a Point can hold. */
  ghost predicate Stamped(ps: seq<Pt>)
  {
    forall i :: 0 <= i < |ps| ==> Stamp(ps[i].t) == ps[i].t
  }

  /** The points a stroke holds after copying the records `rs` into Points. */
  function Stored(rs: seq<Pt>): (r: seq<Pt>)
    ensures |r| == |rs| && Stamped(r)
    ensures forall i :: 0 <= i < |rs| ==> r[i].x == rs[i].x && r[i].y == rs[i].y
  {
    seq(|rs|, i requires 0 <= i < |rs| => rs[i].(t := Stamp(rs[i].t)))
  }

  lemma StoredStamped(ps: seq<Pt>)
    requires Stamped(ps)
    ensures Stored(ps) == ps
  {
  }

  // ---------------------------------------------------------------------------
  // Sums, minima and maxima of coordinate sequences

  function Xs(ps: seq<Pt>): (r: seq<real>)
    ensures |r| == |ps|
  {
    seq(|ps|, i requires 0 <= i < |ps| => ps[i].x)
  }

  function Ys(ps: seq<Pt>): (r: seq<real>)
    ensures |r| == |ps|
  {
    seq(|ps|, i requires 0 <= i < |ps| => ps[i].y)
  }

  /** The sum of `s`, accumulated from the front as the centroid loop does. */
  function Sum(s: seq<real>): real
  {
    if |s| == 0 then 0.0 else Sum(s[..|s| - 1]) + s[|s| - 1]
  }

  /** Math.min of two numbers. */
  function Smaller(a: real, b: real): real
  {
    if a <= b then a else b
  }

  /** Math.max of two numbers. */
  function Larger(a: real, b: real): real
  {
    if a >= b then a else b
  }

  /** The least element of `s`, folded from the front with Math.min. */
  function Min(s: seq<real>): real
    requires |s| > 0
  {
    if |s| == 1 then s[0] else Smaller(Min(s[..|s| - 1]), s[|s| - 1])
  }

  /** The greatest element of `s`, folded from the front with Math.max. */
  function Max(s: seq<real>): real
    requires |s| > 0
  {
    if |s| == 1 then s[0] else Larger(Max(s[..|s| - 1]), s[|s| - 1])
  }

  /** Min is a lower bound of `s` and is one of its elements. */
  lemma {:induction false} MinBounds(s: seq<real>)
    requires |s| > 0
    ensures forall i :: 0 <= i < |s| ==> Min(s) <= s[i]
    ensures exists i :: 0 <= i < |s| && s[i] == Min(s)
  {
    var n := |s|;
    if n > 1 {
      var p := s[..n - 1];
      MinBounds(p);
      assert forall i :: 0 <= i < n - 1 ==> p[i] == s[i];
      var j :| 0 <= j < n - 1 && p[j] == Min(p);
      assert Min(s) == Smaller(Min(p), s[n - 1]);

      if Min(p) <= s[n - 1] {
        assert s[j] == Min(s);
      } else {
        assert s[n - 1] == Min(s);
      }
    } else {
      assert s[0] == Min(s);
    }
  }

  /** Max is an upper bound of `s` and is one of its elements. */
  lemma {:induction false} MaxBounds(s: seq<real>)
    requires |s| > 0
    ensures forall i :: 0 <= i < |s| ==> s[i] <= Max(s)
    ensures exists i :: 0 <= i < |s| && s[i] == Max(s)
  {
    var n := |s|;
    if n > 1 {
      var p := s[..n - 1];
      MaxBounds(p);
      assert forall i :: 0 <= i < n - 1 ==> p[i] == s[i];
      var j :| 0 <= j < n - 1 && p[j] == Max(p);
      assert Max(s) == Larger(Max(p), s[n - 1]);
      if Max(p) >= s[n - 1] {
        assert s[j] == Max(s);
      } else {
        assert s[n - 1] == Max(s);
      }
    } else {
      assert s[0] == Max(s);
    }
  }

  /** A lower bound of `s` that is one of its elements is its Min; likewise for Max. */
  lemma MinMaxUnique(s: seq<real>, lo: real, hi: real)
    requires |s| > 0
    requires forall i :: 0 <= i < |s| ==> lo <= s[i] <= hi
    requires (exists i :: 0 <= i < |s| && s[i] == lo) && (exists i :: 0 <= i < |s| && s[i] == hi)
    ensures Min(s) == lo && Max(s) == hi
  {
    MinBounds(s);
    MaxBounds(s);
  }

  function Shift(s: seq<real>, d: real): (r: seq<real>)
    ensures |r| == |s|
  {
    seq(|s|, i requires 0 <= i < |s| => s[i] + d)
  }

  /** The product a * k, named so that sequences of products compare element by element
      without the solver's nonlinear arithmetic. */
  function Times(a: real, k: real): real
  {
    a * k
  }

  function Scale(s: seq<real>, k: real): (r: seq<real>)
    ensures |r| == |s|
  {
    seq(|s|, i requires 0 <= i < |s| => Times(s[i], k))
  }

  /** Adding `d` to every element adds |s| * d to the sum. */
  lemma {:induction false} SumShift(s: seq<real>, d: real)
    ensures Sum(Shift(s, d)) == Sum(s) + Times(|s| as real, d)
  {
    if |s| > 0 {
      var n := |s|;
      assert Shift(s, d)[..n - 1] == Shift(s[..n - 1], d);
      SumShift(s[..n - 1], d);
      TimesStep((n - 1) as real, d);
    }
  }

  /** One more copy of d in a product. */
  lemma TimesStep(m: real, d: real)
    ensures Times(m + 1.0, d) == Times(m, d) + d
  {
  }

  /** Adding `d` to every element adds `d` to the least and to the greatest one. */
  lemma {:induction false} MinMaxShift(s: seq<real>, d: real)
    requires |s| > 0
    ensures Min(Shift(s, d)) == Min(s) + d && Max(Shift(s, d)) == Max(s) + d
  {
    if |s| > 1 {
      var n := |s|;
      assert Shift(s, d)[..n - 1] == Shift(s[..n - 1], d);
      MinMaxShift(s[..n - 1], d);
    }
  }

  /** Multiplying by k >= 0 keeps the order of two numbers. */
  lemma TimesMonotone(a: real, b: real, k: real)
    requires a <= b && k >= 0.0
    ensures Times(a, k) <= Times(b, k)
  {
    assert b * k - a * k == (b - a) * k;
  }

  /** Multiplying by k <= 0 reverses the order of two numbers. */
  lemma TimesAntitone(a: real, b: real, k: real)
    requires a <= b && k <= 0.0
    ensures Times(b, k) <= Times(a, k)
  {
    assert a * k - b * k == (b - a) * (-k);
  }

  /** Math.min and Math.max commute with multiplying by k >= 0, and swap under k <= 0. */
  lemma TimesOrder(a: real, b: real, k: real)
    ensures k >= 0.0 ==> (Smaller(Times(a, k), Times(b, k)) == Times(Smaller(a, b), k)
                          && Larger(Times(a, k), Times(b, k)) == Times(Larger(a, b), k))
    ensures k <= 0.0 ==> (Smaller(Times(a, k), Times(b, k)) == Times(Larger(a, b), k)
                          && Larger(Times(a, k), Times(b, k)) == Times(Smaller(a, b), k))
  {
    if k >= 0.0 {
      if a <= b { TimesMonotone(a, b, k); } else { TimesMonotone(b, a, k); }
    }
    if k <= 0.0 {
      if a <= b { TimesAntitone(a, b, k); } else { TimesAntitone(b, a, k); }
    }
  }

  /** Multiplying by k >= 0 keeps the order of the elements, so the extremes map to the
      extremes. */
  lemma {:induction false} MinMaxScaleNonNegative(s: seq<real>, k: real)
    requires |s| > 0 && k >= 0.0
    ensures Min(Scale(s, k)) == Times(Min(s), k) && Max(Scale(s, k)) == Times(Max(s), k)
  {
    if |s| > 1 {
      var n := |s|;
      assert Scale(s, k)[..n - 1] == Scale(s[..n - 1], k);
      MinMaxScaleNonNegative(s[..n - 1], k);
      TimesOrder(Min(s[..n - 1]), s[n - 1], k);
      TimesOrder(Max(s[..n - 1]), s[n - 1], k);
    }
  }

  /** Multiplying by k <= 0 reverses the order of the elements, so the least element maps to
      the greatest and the other way round. */
  lemma {:induction false} MinMaxScaleNonPositive(s: seq<real>, k: real)
    requires |s| > 0 && k <= 0.0
    ensures Min(Scale(s, k)) == Times(Max(s), k) && Max(Scale(s, k)) == Times(Min(s), k)
  {
    if |s| > 1 {
      var n := |s|;
      assert Scale(s, k)[..n - 1] == Scale(s[..n - 1], k);
      MinMaxScaleNonPositive(s[..n - 1], k);
      TimesOrder(Max(s[..n - 1]), s[n - 1], k);
      TimesOrder(Min(s[..n - 1]), s[n - 1], k);
    }
  }

  // ---------------------------------------------------------------------------
  // Derived features

  /** A coordinate total divided by the number of points. */
  function Average(total: real, n: nat): real
    requires n > 0
  {
    total / n as real
  }

  /** The centroid: the mean of all points (lib/index.js getCentroid). */
  function CentroidOf(ps: seq<Pt>): (c: Centroid)
    ensures c.Mean? <==> |ps| > 0
  {
    if |ps| == 0 then Undefined
    else Mean(Vec(Average(Sum(Xs(ps)), |ps|), Average(Sum(Ys(ps)), |ps|)))
  }

  /** The axis-aligned bounding box (lib/index.js getBoundingBox). */
  function BoundingBox(ps: seq<Pt>): (b: Rect)
    ensures b.Rect? <==> |ps| > 0
  {
    if |ps| == 0 then Inverted
    else Rect(Min(Xs(ps)), Min(Ys(ps)), Max(Xs(ps)) - Min(Xs(ps)), Max(Ys(ps)) - Min(Ys(ps)))
  }

  /** The bounding box of a non-empty stroke has non-negative extents, contains every point,
      and each of its four edges is touched by some point. */
  lemma BoundingBoxEncloses(ps: seq<Pt>)
    requires |ps| > 0
    ensures var b := BoundingBox(ps);
            b.width >= 0.0 && b.height >= 0.0 &&
            (forall i :: 0 <= i < |ps| ==>
               b.x <= ps[i].x <= b.x + b.width && b.y <= ps[i].y <= b.y + b.height) &&
            (exists i :: 0 <= i < |ps| && ps[i].x == b.x) &&
            (exists i :: 0 <= i < |ps| && ps[i].x == b.x + b.width) &&
            (exists i :: 0 <= i < |ps| && ps[i].y == b.y) &&
            (exists i :: 0 <= i < |ps| && ps[i].y == b.y + b.height)
  {
    var xs, ys := Xs(ps), Ys(ps);
    MinBounds(xs);
    MaxBounds(xs);
    MinBounds(ys);
    MaxBounds(ys);
    var i0 :| 0 <= i0 < |xs| && xs[i0] == Min(xs);
    var i1 :| 0 <= i1 < |xs| && xs[i1] == Max(xs);
    var i2 :| 0 <= i2 < |ys| && ys[i2] == Min(ys);
    var i3 :| 0 <= i3 < |ys| && ys[i3] == Max(ys);
    assert ps[i0].x == xs[i0] && ps[i1].x == xs[i1] && ps[i2].y == ys[i2] && ps[i3].y == ys[i3];
    assert forall i :: 0 <= i < |ps| ==> xs[i] == ps[i].x && ys[i] == ps[i].y;
  }

  /** The bounding box is the only tight box: a rectangle that contains every point and has
      each of its four edges touched by some point is the one getBoundingBox computes. */
  lemma BoundingBoxTight(ps: seq<Pt>, b: Rect)
    requires |ps| > 0 && b.Rect?
    requires forall i :: 0 <= i < |ps| ==>
               b.x <= ps[i].x <= b.x + b.width && b.y <= ps[i].y <= b.y + b.height
    requires exists i :: 0 <= i < |ps| && ps[i].x == b.x
    requires exists i :: 0 <= i < |ps| && ps[i].x == b.x + b.width
    requires exists i :: 0 <= i < |ps| && ps[i].y == b.y
    requires exists i :: 0 <= i < |ps| && ps[i].y == b.y + b.height
    ensures b == BoundingBox(ps)
  {
    var xs, ys := Xs(ps), Ys(ps);
    var i0 :| 0 <= i0 < |ps| && ps[i0].x == b.x;
    var i1 :| 0 <= i1 < |ps| && ps[i1].x == b.x + b.width;
    var i2 :| 0 <= i2 < |ps| && ps[i2].y == b.y;
    var i3 :| 0 <= i3 < |ps| && ps[i3].y == b.y + b.height;
    assert xs[i0] == b.x && xs[i1] == b.x + b.width;
    assert ys[i2] == b.y && ys[i3] == b.y + b.height;
    MinMaxUnique(xs, b.x, b.x + b.width);
    MinMaxUnique(ys, b.y, b.y + b.height);
  }

  /** The per-segment deltas `{x, y}` of lib/index.js getDiff. */
  function Deltas(ps: seq<Pt>): (r: seq<Vec>)
    ensures |r| == if |ps| == 0 then 0 else |ps| - 1
  {
    seq(if |ps| == 0 then 0 else |ps| - 1,
        i requires 0 <= i < |ps| - 1 => Vec(ps[i + 1].x - ps[i].x, ps[i + 1].y - ps[i].y))
  }

  /** The consecutive differences that lib/index.js diff computes with its default subtraction. */
  function Differences(s: seq<real>): (r: seq<real>)
    ensures |r| == if |s| == 0 then 0 else |s| - 1
  {
    seq(if |s| == 0 then 0 else |s| - 1, i requires 0 <= i < |s| - 1 => s[i + 1] - s[i])
  }

  /** The differences telescope: they add up to the last element minus the first. */
  lemma {:induction false} DifferencesTelescope(s: seq<real>)
    requires |s| > 0
    ensures Sum(Differences(s)) == s[|s| - 1] - s[0]
  {
    if |s| > 1 {
      var n := |s|;
      assert Differences(s)[..n - 2] == Differences(s[..n - 1]);
      DifferencesTelescope(s[..n - 1]);
    }
  }

  /** The x (horizontal) or y components of a sequence of deltas. */
  function Components(ds: seq<Vec>, horizontal: bool): (r: seq<real>)
    ensures |r| == |ds|
  {
    seq(|ds|, i requires 0 <= i < |ds| => if horizontal then ds[i].x else ds[i].y)
  }

  /** The deltas add up to the displacement from the first point to the last. */
  lemma DeltasTelescope(ps: seq<Pt>)
    requires |ps| > 0
    ensures Sum(Components(Deltas(ps), true)) == ps[|ps| - 1].x - ps[0].x
    ensures Sum(Components(Deltas(ps), false)) == ps[|ps| - 1].y - ps[0].y
  {
    assert Components(Deltas(ps), true) == Differences(Xs(ps));
    assert Components(Deltas(ps), false) == Differences(Ys(ps));
    DifferencesTelescope(Xs(ps));
    DifferencesTelescope(Ys(ps));
  }

  // ---------------------------------------------------------------------------
  // Pose transforms

  /** `s` in the opposite order (Array.prototype.reverse). */
  function Reversed<T>(s: seq<T>): (r: seq<T>)
    ensures |r| == |s|
  {
    seq(|s|, i requires 0 <= i < |s| => s[|s| - 1 - i])
  }

  lemma ReversedInvolution<T>(s: seq<T>)
    ensures Reversed(Reversed(s)) == s
  {
  }

  /** Reversing the points negates and reverses the segment deltas. */
  lemma ReversedDeltas(ps: seq<Pt>)
    ensures Deltas(Reversed(ps)) == Reversed(seq(|Deltas(ps)|, i requires 0 <= i < |Deltas(ps)| =>
              Vec(-Deltas(ps)[i].x, -Deltas(ps)[i].y)))
  {
  }

  /** The order-independent features do not see the order: reversing keeps the bounding box. */
  lemma ReversedBoundingBox(ps: seq<Pt>)
    ensures BoundingBox(Reversed(ps)) == BoundingBox(ps)
  {
    var r := Reversed(ps);
    if |ps| > 0 {
      var n := |ps|;
      assert Xs(r) == Reversed(Xs(ps)) && Ys(r) == Reversed(Ys(ps));
      ReversedExtremes(Xs(ps));
      ReversedExtremes(Ys(ps));
    }
  }

  /** Reversing a sequence keeps its least and its greatest element. */
  lemma ReversedExtremes(s: seq<real>)
    requires |s| > 0
    ensures Min(Reversed(s)) == Min(s) && Max(Reversed(s)) == Max(s)
  {
    ReversedMin(s);
    ReversedMax(s);
  }

  lemma ReversedMin(s: seq<real>)
    requires |s| > 0
    ensures Min(Reversed(s)) == Min(s)
  {
    MirroredMin(s, Reversed(s));
  }

  lemma ReversedMax(s: seq<real>)
    requires |s| > 0
    ensures Max(Reversed(s)) == Max(s)
  {
    MirroredMax(s, Reversed(s));
  }

  /** A sequence holding the elements of `s` back to front has the same least element. */
  lemma MirroredMin(s: seq<real>, r: seq<real>)
    requires |s| > 0 && |r| == |s|
    requires forall k :: 0 <= k < |r| ==> r[k] == s[|s| - 1 - k]
    ensures Min(r) == Min(s)
  {
    var n := |s|;
    MinBounds(s);
    MinBounds(r);
    var i :| 0 <= i < n && s[i] == Min(s);
    var j :| 0 <= j < n && r[j] == Min(r);
    assert r[n - 1 - i] == s[i];
    assert s[n - 1 - j] == r[j];
  }

  /** A sequence holding the elements of `s` back to front has the same greatest element. */
  lemma MirroredMax(s: seq<real>, r: seq<real>)
    requires |s| > 0 && |r| == |s|
    requires forall k :: 0 <= k < |r| ==> r[k] == s[|s| - 1 - k]
    ensures Max(r) == Max(s)
  {
    var n := |s|;
    MaxBounds(s);
    MaxBounds(r);
    var i :| 0 <= i < n && s[i] == Max(s);
    var j :| 0 <= j < n && r[j] == Max(r);
    assert r[n - 1 - i] == s[i];
    assert s[n - 1 - j] == r[j];
  }

  /** Every x negated (lib/index.js flipX). */
  function FlippedX(ps: seq<Pt>): (r: seq<Pt>)
    ensures |r| == |ps|
  {
    seq(|ps|, i requires 0 <= i < |ps| => ps[i].(x := -ps[i].x))
  }

  /** Every y negated (lib/index.js flipY). */
  function FlippedY(ps: seq<Pt>): (r: seq<Pt>)
    ensures |r| == |ps|
  {
    seq(|ps|, i requires 0 <= i < |ps| => ps[i].(y := -ps[i].y))
  }

  lemma FlipInvolutions(ps: seq<Pt>)
    ensures FlippedX(FlippedX(ps)) == ps && FlippedY(FlippedY(ps)) == ps
  {
  }

  /** Mirroring in the y axis mirrors the bounding box and keeps its size. */
  lemma FlippedXBoundingBox(ps: seq<Pt>)
    requires |ps| > 0
    ensures var b := BoundingBox(ps);
            BoundingBox(FlippedX(ps)) == Rect(-(b.x + b.width), b.y, b.width, b.height)
  {
    var q := FlippedX(ps);
    assert Xs(q) == Scale(Xs(ps), -1.0);
    assert Ys(q) == Ys(ps);
    MinMaxScaleNonPositive(Xs(ps), -1.0);
  }

  /** Mirroring in the x axis mirrors the bounding box and keeps its size. */
  lemma FlippedYBoundingBox(ps: seq<Pt>)
    requires |ps| > 0
    ensures var b := BoundingBox(ps);
            BoundingBox(FlippedY(ps)) == Rect(b.x, -(b.y + b.height), b.width, b.height)
  {
    var q := FlippedY(ps);
    assert Ys(q) == Scale(Ys(ps), -1.0);
    assert Xs(q) == Xs(ps);
    MinMaxScaleNonPositive(Ys(ps), -1.0);
  }

  /** Every point moved by `d` (the loop of lib/index.js translateTo). */
  function Translated(ps: seq<Pt>, d: Vec): (r: seq<Pt>)
    ensures |r| == |ps|
  {
    seq(|ps|, i requires 0 <= i < |ps| => ps[i].(x := ps[i].x + d.x, y := ps[i].y + d.y))
  }

  /** Adding n * d to a total adds d to its mean over n. */
  lemma MeanShift(total: real, n: nat, d: real)
    requires n > 0
    ensures Average(total + Times(n as real, d), n) == Average(total, n) + d
  {
    assert (total / n as real + d) * n as real == total + n as real * d;
  }

  /** Moving every point by `d` adds |ps| * d to the coordinate totals. */
  lemma TranslatedSums(ps: seq<Pt>, d: Vec)
    ensures Sum(Xs(Translated(ps, d))) == Sum(Xs(ps)) + Times(|ps| as real, d.x)
    ensures Sum(Ys(Translated(ps, d))) == Sum(Ys(ps)) + Times(|ps| as real, d.y)
  {
    var q := Translated(ps, d);
    assert Xs(q) == Shift(Xs(ps), d.x);
    assert Ys(q) == Shift(Ys(ps), d.y);
    SumShift(Xs(ps), d.x);
    SumShift(Ys(ps), d.y);
  }

  /** Moving every point by `d` moves the centroid by `d`. */
  lemma TranslatedCentroid(ps: seq<Pt>, d: Vec)
    requires |ps| > 0
    ensures CentroidOf(Translated(ps, d)) == Mean(Vec(CentroidOf(ps).at.x + d.x, CentroidOf(ps).at.y + d.y))
  {
    var q := Translated(ps, d);
    TranslatedSums(ps, d);
    MeanShift(Sum(Xs(ps)), |ps|, d.x);
    MeanShift(Sum(Ys(ps)), |ps|, d.y);
  }

  /** The move translateTo(p) makes: p minus the centroid. A NaN centroid, which only a
      stroke without points has, moves nothing. */
  function Offset(p: Vec, c: Centroid): Vec
  {
    if c.Mean? then Vec(p.x - c.at.x, p.y - c.at.y) else Vec(0.0, 0.0)
  }

  /** The translation of translateTo(p) puts the centroid exactly on `p`. */
  lemma TranslateToCentroid(ps: seq<Pt>, p: Vec)
    requires |ps| > 0
    ensures CentroidOf(Translated(ps, Offset(p, CentroidOf(ps)))) == Mean(p)
  {
    TranslatedCentroid(ps, Offset(p, CentroidOf(ps)));
  }

  /** A translation leaves every segment delta unchanged. */
  lemma TranslatedDeltas(ps: seq<Pt>, d: Vec)
    ensures Deltas(Translated(ps, d)) == Deltas(ps)
  {
  }

  /** A translation moves the bounding box by `d` and keeps its size. */
  lemma TranslatedBoundingBox(ps: seq<Pt>, d: Vec)
    requires |ps| > 0
    ensures var b := BoundingBox(ps);
            BoundingBox(Translated(ps, d)) == Rect(b.x + d.x, b.y + d.y, b.width, b.height)
  {
    var q := Translated(ps, d);
    assert Xs(q) == Shift(Xs(ps), d.x);
    assert Ys(q) == Shift(Ys(ps), d.y);
    MinMaxShift(Xs(ps), d.x);
    MinMaxShift(Ys(ps), d.y);
  }

  /** Every x multiplied by `kx` and every y by `ky`, about the origin (the loop of
      lib/index.js scaleTo). */
  function Scaled(ps: seq<Pt>, kx: real, ky: real): (r: seq<Pt>)
    ensures |r| == |ps|
  {
    seq(|ps|, i requires 0 <= i < |ps| => ps[i].(x := Times(ps[i].x, kx), y := Times(ps[i].y, ky)))
  }

  function Abs(a: real): real
  {
    if a < 0.0 then -a else a
  }

  lemma ScaledCoordinates(ps: seq<Pt>, kx: real, ky: real)
    ensures Xs(Scaled(ps, kx, ky)) == Scale(Xs(ps), kx)
    ensures Ys(Scaled(ps, kx, ky)) == Scale(Ys(ps), ky)
  {
    var q := Scaled(ps, kx, ky);
    assert forall i :: 0 <= i < |ps| ==> Xs(q)[i] == Scale(Xs(ps), kx)[i];
    assert forall i :: 0 <= i < |ps| ==> Ys(q)[i] == Scale(Ys(ps), ky)[i];
  }

  /** Scaling about the origin multiplies the extents by the magnitudes of the factors. */
  lemma ScaledBoundingBox(ps: seq<Pt>, kx: real, ky: real)
    requires |ps| > 0
    ensures var b, c := BoundingBox(ps), BoundingBox(Scaled(ps, kx, ky));
            c.width == Times(b.width, Abs(kx)) && c.height == Times(b.height, Abs(ky))
            && c.x == Times(if kx >= 0.0 then b.x else b.x + b.width, kx)
            && c.y == Times(if ky >= 0.0 then b.y else b.y + b.height, ky)
  {
    ScaledCoordinates(ps, kx, ky);
    var xs, ys := Xs(ps), Ys(ps);
    if kx >= 0.0 { MinMaxScaleNonNegative(xs, kx); } else { MinMaxScaleNonPositive(xs, kx); }
    if ky >= 0.0 { MinMaxScaleNonNegative(ys, ky); } else { MinMaxScaleNonPositive(ys, ky); }
    ExtentScale(Min(xs), Max(xs), kx);
    ExtentScale(Min(ys), Max(ys), ky);
  }

  /** The interval [lo, hi] scaled by k has length (hi - lo) * |k|. */
  lemma ExtentScale(lo: real, hi: real, k: real)
    ensures k >= 0.0 ==> Times(hi, k) - Times(lo, k) == Times(hi - lo, Abs(k))
    ensures k < 0.0 ==> Times(lo, k) - Times(hi, k) == Times(hi - lo, Abs(k))
    ensures Times(lo + (hi - lo), k) == Times(hi, k)
  {
    assert hi * k - lo * k == (hi - lo) * k;
  }

  /** A positive length len times |w / len| is |w|. */
  lemma RatioScale(len: real, w: real)
    requires len > 0.0
    ensures Times(len, Abs(w / len)) == Abs(w)
  {
    assert len * (w / len) == w;
    if w < 0.0 {
      assert w / len < 0.0;
    } else {
      assert w / len >= 0.0;
    }
  }

  /** scaleTo(w, h) on a box of non-zero width and height gives a box of exactly |w| by |h|. */
  lemma ScaleToBoxSize(ps: seq<Pt>, w: real, h: real)
    requires |ps| > 0
    requires BoundingBox(ps).width != 0.0 && BoundingBox(ps).height != 0.0
    ensures var b := BoundingBox(ps);
            var c := BoundingBox(Scaled(ps, w / b.width, h / b.height));
            c.width == Abs(w) && c.height == Abs(h)
  {
    var b := BoundingBox(ps);
    BoundingBoxEncloses(ps);
    ScaledBoundingBox(ps, w / b.width, h / b.height);
    RatioScale(b.width, w);
    RatioScale(b.height, h);
  }

  /** The factors scaleTo(w, h) multiplies x and y by: the target size over the box's extent.
      An inverted box (measured while the stroke had no points) has extent -Infinity, and a
      finite number over it is zero. */
  function ScaleFactors(b: Rect, w: real, h: real): (real, real)
    requires b.Rect? ==> b.width != 0.0 && b.height != 0.0
  {
    if b.Inverted? then (0.0, 0.0) else (w / b.width, h / b.height)
  }

  /** A box scaleTo can divide by: it is absent, inverted, or has non-zero width and height. */
  predicate ScalableBox(b: Option<Rect>)
  {
    b.Some? && b.value.Rect? ==> b.value.width != 0.0 && b.value.height != 0.0
  }

  // ---------------------------------------------------------------------------
  // Flat-array encodings

  /** Numbers per point in a flat array: 3 when it carries timestamps, else 2. */
  function Stride(hasTimeStamp: bool): nat
  {
    if hasTimeStamp then 3 else 2
  }

  /** The point whose x sits at index `j` of a flat array; a timestamp past the end of the
      array reads as undefined and is not stored. */
  function ChunkPoint(arr: seq<real>, j: nat, hasTimeStamp: bool): Pt
    requires j + 1 < |arr|
  {
    Pt(arr[j], arr[j + 1], if hasTimeStamp && j + 2 < |arr| then Stamp(Some(arr[j + 2])) else None)
  }

  /** The points lib/index.js fromOneDArray reads from a flat array: one per started chunk of
      Stride numbers. Lengths that would leave a point without its y are excluded. */
  function Unflatten(arr: seq<real>, hasTimeStamp: bool): (r: seq<Pt>)
    requires |arr| % Stride(hasTimeStamp) != 1
    ensures Stamped(r)
  {
    if hasTimeStamp then
      seq((|arr| + 2) / 3, k requires 0 <= k < (|arr| + 2) / 3 => ChunkPoint(arr, 3 * k, true))
    else
      seq((|arr| + 1) / 2, k requires 0 <= k < (|arr| + 1) / 2 => ChunkPoint(arr, 2 * k, false))
  }

  /** Reading position `i`, the start of chunk `n`: before the end it is a point of the
      result, read at `i`; at or past the end, `n` points have been read. */
  lemma UnflattenCursor(arr: seq<real>, hasTimeStamp: bool, i: nat, n: nat)
    requires |arr| % Stride(hasTimeStamp) != 1
    requires hasTimeStamp ==> i == 3 * n && i <= |arr| + 2
    requires !hasTimeStamp ==> i == 2 * n && i <= |arr| + 1
    ensures i < |arr| ==> i + 1 < |arr| && n < |Unflatten(arr, hasTimeStamp)|
                          && Unflatten(arr, hasTimeStamp)[n] == ChunkPoint(arr, i, hasTimeStamp)
    ensures i >= |arr| ==> n == |Unflatten(arr, hasTimeStamp)|
  {
  }

  /** A flat array of whole chunks yields one point per chunk, read from the chunk's start. */
  lemma UnflattenWhole(arr: seq<real>, hasTimeStamp: bool)
    requires |arr| % Stride(hasTimeStamp) == 0
    ensures hasTimeStamp ==> |Unflatten(arr, true)| == |arr| / 3
    ensures hasTimeStamp ==> forall k :: 0 <= k < |arr| / 3 ==>
              Unflatten(arr, true)[k] == Pt(arr[3 * k], arr[3 * k + 1], Stamp(Some(arr[3 * k + 2])))
    ensures !hasTimeStamp ==> |Unflatten(arr, false)| == |arr| / 2
    ensures !hasTimeStamp ==> forall k :: 0 <= k < |arr| / 2 ==>
              Unflatten(arr, false)[k] == Pt(arr[2 * k], arr[2 * k + 1], None)
  {
  }

  /** The concatenation of `rows`. */
  function Concat(rows: seq<seq<real>>): seq<real>
  {
    if |rows| == 0 then [] else Concat(rows[..|rows| - 1]) + rows[|rows| - 1]
  }

  /** In a concatenation of rows of length `s`, row k starts at index s * k. */
  lemma {:induction false} ConcatAt(rows: seq<seq<real>>, s: nat, k: nat, m: nat)
    requires forall i :: 0 <= i < |rows| ==> |rows[i]| == s
    requires k < |rows| && m < s
    ensures |Concat(rows)| == s * |rows|
    ensures s * k + m < |Concat(rows)| && Concat(rows)[s * k + m] == rows[k][m]
  {
    var n := |rows|;
    ConcatLength(rows, s);
    ConcatLength(rows[..n - 1], s);
    if k < n - 1 {
      ConcatAt(rows[..n - 1], s, k, m);
    } else {
      assert s * k == s * (n - 1);
    }
  }

  lemma {:induction false} ConcatLength(rows: seq<seq<real>>, s: nat)
    requires forall i :: 0 <= i < |rows| ==> |rows[i]| == s
    ensures |Concat(rows)| == s * |rows|
  {
    if |rows| > 0 {
      ConcatLength(rows[..|rows| - 1], s);
      assert s * (|rows| - 1) + s == s * |rows|;
    }
  }

  /** The numbers of one point in a flat array; an absent timestamp is written as 0, the
      falsy value a Point does not store. */
  function Chunk(p: Pt, hasTimeStamp: bool): (r: seq<real>)
    ensures |r| == Stride(hasTimeStamp)
  {
    if hasTimeStamp then [p.x, p.y, if p.t.Some? then p.t.value else 0.0] else [p.x, p.y]
  }

  /** The flat array of a point sequence, the layout lib/index.js fromOneDArray reads. */
  function Flatten(ps: seq<Pt>, hasTimeStamp: bool): seq<real>
  {
    Concat(seq(|ps|, i requires 0 <= i < |ps| => Chunk(ps[i], hasTimeStamp)))
  }

  /** Reading back a flattened stroke gives the same points (with no timestamps when the
      array has none). */
  lemma UnflattenFlatten(ps: seq<Pt>, hasTimeStamp: bool)
    requires Stamped(ps)
    requires !hasTimeStamp ==> forall i :: 0 <= i < |ps| ==> ps[i].t.None?
    ensures |Flatten(ps, hasTimeStamp)| == Stride(hasTimeStamp) * |ps|
    ensures Unflatten(Flatten(ps, hasTimeStamp), hasTimeStamp) == ps
  {
    var s := Stride(hasTimeStamp);
    var rows := seq(|ps|, i requires 0 <= i < |ps| => Chunk(ps[i], hasTimeStamp));
    var arr := Flatten(ps, hasTimeStamp);
    ConcatLength(rows, s);
    var u := Unflatten(arr, hasTimeStamp);
    assert |u| == |ps|;
    forall k | 0 <= k < |ps|
      ensures u[k] == ps[k]
    {
      ConcatAt(rows, s, k, 0);
      ConcatAt(rows, s, k, 1);
      if hasTimeStamp {
        ConcatAt(rows, s, k, 2);
      }
    }
  }

  /** Flattening the points read from a flat array of whole chunks gives the array back. */
  lemma FlattenUnflatten(arr: seq<real>, hasTimeStamp: bool)
    requires |arr| % Stride(hasTimeStamp) == 0
    ensures Flatten(Unflatten(arr, hasTimeStamp), hasTimeStamp) == arr
  {
    if hasTimeStamp {
      FlattenUnflattenStamped(arr);
    } else {
      FlattenUnflattenPlain(arr);
    }
  }

  lemma FlattenUnflattenStamped(arr: seq<real>)
    requires |arr| % 3 == 0
    ensures Flatten(Unflatten(arr, true), true) == arr
  {
    var ps := Unflatten(arr, true);
    var rows := seq(|ps|, i requires 0 <= i < |ps| => Chunk(ps[i], true));
    var f := Flatten(ps, true);
    ConcatLength(rows, 3);
    forall j | 0 <= j < |arr|
      ensures f[j] == arr[j]
    {
      var k, m := j / 3, j % 3;
      assert ps[k] == ChunkPoint(arr, 3 * k, true);
      ConcatAt(rows, 3, k, m);
    }
  }

  lemma FlattenUnflattenPlain(arr: seq<real>)
    requires |arr| % 2 == 0
    ensures Flatten(Unflatten(arr, false), false) == arr
  {
    var ps := Unflatten(arr, false);
    var rows := seq(|ps|, i requires 0 <= i < |ps| => Chunk(ps[i], false));
    var f := Flatten(ps, false);
    ConcatLength(rows, 2);
    forall j | 0 <= j < |arr|
      ensures f[j] == arr[j]
    {
      var k, m := j / 2, j % 2;
      assert ps[k] == ChunkPoint(arr, 2 * k, false);
      ConcatAt(rows, 2, k, m);
    }
  }

  /** The point lib/index.js fromArray builds from one `[x, y]` or `[x, y, t]` row. */
  function RowPoint(el: seq<real>): Pt
    requires |el| >= 2
  {
    Pt(el[0], el[1], if |el| > 2 then Stamp(Some(el[2])) else None)
  }

  /** The points lib/index.js fromArray reads from its rows. */
  function Rows(rows: seq<seq<real>>): (r: seq<Pt>)
    requires forall i :: 0 <= i < |rows| ==> |rows[i]| >= 2
    ensures |r| == |rows| && Stamped(r)
  {
    seq(|rows|, i requires 0 <= i < |rows| => RowPoint(rows[i]))
  }

  /** fromArray on rows of Stride numbers and fromOneDArray on their concatenation read the
      same points. */
  lemma RowsAgreeWithUnflatten(rows: seq<seq<real>>, hasTimeStamp: bool)
    requires forall i :: 0 <= i < |rows| ==> |rows[i]| == Stride(hasTimeStamp)
    ensures |Concat(rows)| % Stride(hasTimeStamp) == 0
    ensures Unflatten(Concat(rows), hasTimeStamp) == Rows(rows)
  {
    var s := Stride(hasTimeStamp);
    var arr := Concat(rows);
    ConcatLength(rows, s);
    var u := Unflatten(arr, hasTimeStamp);
    assert |u| == |rows|;
    forall k | 0 <= k < |rows|
      ensures u[k] == Rows(rows)[k]
    {
      ConcatAt(rows, s, k, 0);
      ConcatAt(rows, s, k, 1);
      if hasTimeStamp {
        ConcatAt(rows, s, k, 2);
      }
    }
  }

  // ---------------------------------------------------------------------------
  // The generic helper

  /** lib/index.js diff: one `subtract(next, current)` per consecutive pair, in order. */
  method Diff<T, U>(values: seq<T>, subtract: (T, T) -> U) returns (out: seq<U>)
    ensures |out| == if |values| == 0 then 0 else |values| - 1
    ensures forall i :: 0 <= i < |out| ==> out[i] == subtract(values[i + 1], values[i])
  {
    out := [];
    var i := 1;
    while i < |values|
      invariant 1 <= i && (i <= |values| || i == 1)
      invariant |out| == i - 1
      invariant forall k :: 0 <= k < |out| ==> out[k] == subtract(values[k + 1], values[k])
    {
      var p0, p1 := values[i - 1], values[i];
      out := out + [subtract(p1, p0)];
      i := i + 1;
    }
  }

  /** diff with its default subtraction `a - b` on numbers. */
  method DiffNumbers(values: seq<real>) returns (out: seq<real>)
    ensures out == Differences(values)
  {
    out := Diff(values, (a: real, b: real) => a - b);
  }
}
