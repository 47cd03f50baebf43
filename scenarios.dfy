/** Sequences of calls a client of lib/index.js makes on a new stroke, with what they are
    proved to return: the reversal of test/test.js, the order dependence of the cache, the
    stale centroid fromOneDArray leaves behind, and the end-to-end effect of the transforms. */
module Scenarios {
  import opened Wrappers
  import opened Geometry
  import opened StrokeCache
  import opened Strokes

  /** The points (0, 0), (1, 1), ..., (9, 9) without timestamps. */
  function Diagonal(): seq<Pt>
  {
    seq(10, i requires 0 <= i < 10 => Pt(i as real, i as real, None))
  }

  /** Reversing the diagonal gives (9, 9), (8, 8), ..., (0, 0). */
  method ReverseDiagonal() returns (r: seq<Pt>)
    ensures r == seq(10, i requires 0 <= i < 10 => Pt((9 - i) as real, (9 - i) as real, None))
  {
    var s := new Stroke(Diagonal());
    s.Reverse();
    r := s.Values();
  }

  /** Reversing twice gives back the points as they were stored. */
  method ReverseTwice(records: seq<Pt>) returns (r: seq<Pt>)
    ensures r == Stored(records)
  {
    var s := new Stroke(records);
    s.Reverse();
    s.Reverse();
    r := s.Values();
    ReversedInvolution(Stored(records));
  }

  /** getCentroid and then getBoundingBox on a new stroke: no box comes back, whatever the
      points, because the box is only computed while the centroid slot is empty. */
  method BoundingBoxAfterCentroid(records: seq<Pt>) returns (b: Option<Rect>)
    ensures b == None
  {
    var s := new Stroke(records);
    var c := s.GetCentroid();
    b := s.GetBoundingBox();
  }

  /** The same calls the other way round: the box comes back and is the points' box. */
  method BoundingBoxBeforeCentroid(records: seq<Pt>) returns (b: Option<Rect>)
    ensures b == Some(BoundingBox(Stored(records)))
  {
    var s := new Stroke(records);
    var b0 := s.GetBoundingBox();
    var c := s.GetCentroid();
    b := s.GetBoundingBox();
  }

  /** scaleTo after getCentroid on a stroke with points throws a TypeError, and the points
      are left as they were. */
  method ScaleAfterCentroid(records: seq<Pt>, w: real, h: real) returns (r: Outcome<Thrown>, after: seq<Pt>)
    requires |records| > 0
    ensures r == Fail(TypeError) && after == Stored(records)
  {
    var s := new Stroke(records);
    var c := s.GetCentroid();
    r := s.ScaleTo(w, h);
    after := s.Values();
  }

  /** scaleTo on a new stroke whose box has non-zero width and height: afterwards the box
      is |w| by |h|. */
  method ScaleNewStroke(records: seq<Pt>, w: real, h: real) returns (b: Option<Rect>)
    requires |records| > 0
    requires BoundingBox(Stored(records)).width != 0.0 && BoundingBox(Stored(records)).height != 0.0
    ensures b.Some? && b.value.Rect? && b.value.width == Abs(w) && b.value.height == Abs(h)
  {
    var s := new Stroke(records);
    var r := s.ScaleTo(w, h);
    b := s.GetBoundingBox();
  }

  /** translateTo(p) on a new stroke with points: the centroid is then p. */
  method TranslateThenCentroid(records: seq<Pt>, p: Vec) returns (c: Centroid)
    requires |records| > 0
    ensures c == Mean(p)
  {
    var s := new Stroke(records);
    ghost var before := s.Values();
    TranslateToLandsOnTarget(Empty, before, p);
    s.TranslateTo(p);
    assert CentroidOf(s.Values()) == Mean(p);
    c := s.GetCentroid();
  }

  /** The centroid of a single point is that point. */
  lemma SingleCentroid(x: real, y: real)
    ensures CentroidOf([Pt(x, y, None)]) == Mean(Vec(x, y))
  {
    var ps := [Pt(x, y, None)];
    assert Xs(ps) == [x] && Ys(ps) == [y];
    assert [x][..0] == [] && [y][..0] == [];
    assert Sum([x]) == Sum([x][..0]) + x && Sum([y]) == Sum([y][..0]) + y;
    assert Sum([x]) == x && Sum([y]) == y;
    assert |ps| as real == 1.0;
  }

  /** fromOneDArray does not clear the cache: the centroid of (0, 0), cached before the
      stroke is reloaded with (4, 2), is still returned until clearCache. */
  method StaleCentroid() returns (cached: Centroid, actual: Centroid)
    ensures cached == Mean(Vec(0.0, 0.0)) && actual == Mean(Vec(4.0, 2.0))
  {
    var s := new Stroke([Pt(0.0, 0.0, None)]);
    assert s.Values() == [Pt(0.0, 0.0, None)];
    SingleCentroid(0.0, 0.0);
    var c0 := s.GetCentroid();
    s.FromOneDArray([4.0, 2.0], false);
    assert s.Values() == [Pt(4.0, 2.0, None)];
    cached := s.GetCentroid();
    s.ClearCache();
    SingleCentroid(4.0, 2.0);
    actual := s.GetCentroid();
  }

  /** clone is deep: flipping the clone leaves the original's points as they were. */
  method CloneIsIndependent(records: seq<Pt>) returns (original: seq<Pt>, flipped: seq<Pt>)
    ensures original == Stored(records) && flipped == FlippedX(Stored(records))
  {
    var s := new Stroke(records);
    var c := s.Clone();
    c.FlipX();
    original := s.Values();
    flipped := c.Values();
  }

  /** getSample keeps only the first count asked for: when the resampling succeeds, a second
      call returns a sample only when it asks for the same count. */
  method SampleTwice(records: seq<Pt>, n1: nat, n2: nat, resample: Resampler)
    returns (first: SampleResult, second: SampleResult)
    requires resample(Stored(records), SampleSize(n1)).Some?
    ensures first == Returned(resample(Stored(records), SampleSize(n1)))
    ensures second.Returned? && (second.sample.Some? <==> SampleSize(n2) == SampleSize(n1))
  {
    var s := new Stroke(records);
    first := s.GetSample(n1, resample);
    second := s.GetSample(n2, resample);
  }

  /** getSample(2) on a stroke without points, with a resampling that throws there for the
      count 2: the call throws a TypeError, every later call returns undefined whatever its
      count, and after clearCache getSample(2) throws again. */
  method SampleOfEmptyStroke(n: nat, resample: Resampler)
    returns (first: SampleResult, second: SampleResult, afterClear: SampleResult)
    requires resample([], 2).None?
    ensures first == Threw(TypeError) && second == Returned(None)
    ensures afterClear == Threw(TypeError)
  {
    var s := new Stroke([]);
    first := s.GetSample(2, resample);
    second := s.GetSample(n, resample);
    s.ClearCache();
    afterClear := s.GetSample(2, resample);
  }
}
