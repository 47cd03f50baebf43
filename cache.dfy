/** The per-stroke memo `_cache` of lib/index.js and the transitions its accessors make on
    it. Each accessor is a function from the cache and the current points to the new cache
    and the value returned; the Stroke methods are proved to make exactly these transitions. */
module StrokeCache {
  import opened Wrappers
  import opened Geometry

  /** The memo: every slot is absent until its accessor fills it, and clearCache empties all
      of them at once. `samples` maps a point count to the resampled points kept for it. */
  datatype Cache = Cache(
    centroid: Option<Centroid>,
    boundingBox: Option<Rect>,
    diff: Option<seq<Vec>>,
    samples: Option<map<nat, seq<Pt>>>)

  /** The cache clearCache installs: the empty object `{}`. */
  const Empty: Cache := Cache(None, None, None, None)

  /** The point count getSample uses when it is given none, or a falsy one. */
  const DefaultSampleSize: nat := 64

  /** getCentroid: a filled slot is returned as it is; an empty one is filled with the mean
      of the points. A centroid is an object, so a filled slot is never falsy. */
  function LookupCentroid(c: Cache, ps: seq<Pt>): (Cache, Centroid)
  {
    if c.centroid.Some? then (c, c.centroid.value)
    else var m := CentroidOf(ps); (c.(centroid := Some(m)), m)
  }

  /** getBoundingBox: the box is recomputed and stored whenever the CENTROID slot is empty,
      and the bounding-box slot is returned as it is otherwise, absent or not. */
  function LookupBoundingBox(c: Cache, ps: seq<Pt>): (Cache, Option<Rect>)
  {
    var c' := if c.centroid.None? then c.(boundingBox := Some(BoundingBox(ps))) else c;
    (c', c'.boundingBox)
  }

  /** getDiff: a filled slot is returned as it is (an array, never falsy); an empty one is
      filled with the segment deltas. */
  function LookupDiff(c: Cache, ps: seq<Pt>): (Cache, seq<Vec>)
  {
    if c.diff.Some? then (c, c.diff.value)
    else var d := Deltas(ps); (c.(diff := Some(d)), d)
  }

  /** The point count getSample(n) works with: a falsy n (0 or none) means 64. */
  function SampleSize(n: nat): nat
  {
    if n == 0 then DefaultSampleSize else n
  }

  /** What a call can throw: reading a property of undefined raises a TypeError. */
  datatype Thrown = TypeError

  /** What getSample(n) gives back: what the samples slot holds for the count (undefined
      when it holds nothing), or the error the resampling threw. */
  datatype SampleResult = Returned(sample: Option<seq<Pt>>) | Threw(error: Thrown)

  /** A resampling of points to a count: the points of the resampled clone, or None when
      resample throws (on a stroke without points for the count 2, where it reads the last
      point, which is not there). */
  type Resampler = (seq<Pt>, nat) -> Option<seq<Pt>>

  /** getSample(n): only when the samples slot is still empty is it created, as `{}`, and the
      sample for this one count is put into it; afterwards the slot is looked up and never
      extended. When the resampling throws, the error propagates and the slot stays `{}`. */
  function LookupSample(c: Cache, ps: seq<Pt>, n: nat, resample: Resampler): (Cache, SampleResult)
  {
    var k := SampleSize(n);
    if c.samples.Some? then
      (c, Returned(if k in c.samples.value then Some(c.samples.value[k]) else None))
    else match resample(ps, k)
      case None => (c.(samples := Some(map[])), Threw(TypeError))
      case Some(r) => (c.(samples := Some(map[k := r])), Returned(Some(r)))
  }

  /** Every filled slot holds what recomputing it from the points `ps` gives. */
  ghost predicate Coherent(c: Cache, ps: seq<Pt>)
  {
    && (c.centroid.Some? ==> c.centroid.value == CentroidOf(ps))
    && (c.boundingBox.Some? ==> c.boundingBox.value == BoundingBox(ps))
    && (c.diff.Some? ==> c.diff.value == Deltas(ps))
  }

  /** Every kept sample is the resampling of `ps` to its count. */
  ghost predicate SamplesCoherent(c: Cache, ps: seq<Pt>, resample: Resampler)
  {
    c.samples.Some? ==> forall k :: k in c.samples.value ==> resample(ps, k) == Some(c.samples.value[k])
  }

  /** The cache a mutator leaves behind holds nothing stale. */
  lemma EmptyCoherent(ps: seq<Pt>, resample: Resampler)
    ensures Coherent(Empty, ps) && SamplesCoherent(Empty, ps, resample)
  {
  }

  /** On a coherent cache getCentroid returns the mean of the points, fills its slot, keeps
      the cache coherent and changes no other slot. */
  lemma CentroidMemo(c: Cache, ps: seq<Pt>)
    requires Coherent(c, ps)
    ensures var (c', m) := LookupCentroid(c, ps);
            m == CentroidOf(ps) && c'.centroid == Some(m) && Coherent(c', ps)
            && c'.(centroid := c.centroid) == c
  {
  }

  /** On a coherent cache getDiff returns the segment deltas, fills its slot, keeps the cache
      coherent and changes no other slot. */
  lemma DiffMemo(c: Cache, ps: seq<Pt>)
    requires Coherent(c, ps)
    ensures var (c', d) := LookupDiff(c, ps);
            d == Deltas(ps) && c'.diff == Some(d) && Coherent(c', ps)
            && c'.(diff := c.diff) == c
  {
  }

  /** On a coherent cache getBoundingBox never returns a stale box, but it returns none at
      all exactly when the centroid slot is filled and its own slot is not. */
  lemma BoundingBoxMemo(c: Cache, ps: seq<Pt>)
    requires Coherent(c, ps)
    ensures var (c', b) := LookupBoundingBox(c, ps);
            Coherent(c', ps)
            && (b.Some? ==> b.value == BoundingBox(ps))
            && (b.None? <==> c.centroid.Some? && c.boundingBox.None?)
  {
  }

  /** getCentroid on a fresh cache, then getBoundingBox: the box is never computed, and
      stays absent however often it is asked for again. */
  lemma BoundingBoxLostAfterCentroid(ps: seq<Pt>)
    ensures var c := LookupCentroid(Empty, ps).0;
            LookupBoundingBox(c, ps) == (c, None)
  {
  }

  /** getBoundingBox first, then getCentroid: the box is kept and returned from then on. */
  lemma BoundingBoxKeptBeforeCentroid(ps: seq<Pt>)
    ensures var c := LookupCentroid(LookupBoundingBox(Empty, ps).0, ps).0;
            LookupBoundingBox(c, ps).1 == Some(BoundingBox(ps))
  {
  }

  /** Only the first count asked for after a clear gets a sample: when the resampling
      succeeds, a later getSample with the same count returns it, one with any other count
      returns nothing. */
  lemma SampleFirstCountOnly(ps: seq<Pt>, n1: nat, n2: nat, resample: Resampler)
    requires resample(ps, SampleSize(n1)).Some?
    ensures var (c, first) := LookupSample(Empty, ps, n1, resample);
            first == Returned(resample(ps, SampleSize(n1)))
            && LookupSample(c, ps, n2, resample).1
               == if SampleSize(n2) == SampleSize(n1) then first else Returned(None)
  {
  }

  /** When the first resampling after a clear throws, getSample throws, and the empty slot
      it leaves behind makes every later getSample return nothing, whatever the count. */
  lemma SampleFailureSticks(ps: seq<Pt>, n1: nat, n2: nat, resample: Resampler)
    requires resample(ps, SampleSize(n1)).None?
    ensures var (c, first) := LookupSample(Empty, ps, n1, resample);
            first == Threw(TypeError)
            && LookupSample(c, ps, n2, resample) == (c, Returned(None))
  {
  }

  /** getSample keeps the samples coherent; what it returns is the resampling of the current
      points to the count asked for; it throws exactly when it creates the slot and the
      resampling throws; and it changes no other slot. */
  lemma SampleMemo(c: Cache, ps: seq<Pt>, n: nat, resample: Resampler)
    requires SamplesCoherent(c, ps, resample)
    ensures var (c', r) := LookupSample(c, ps, n, resample);
            SamplesCoherent(c', ps, resample)
            && (r.Returned? && r.sample.Some? ==> resample(ps, SampleSize(n)) == r.sample)
            && (r.Threw? <==> c.samples.None? && resample(ps, SampleSize(n)).None?)
            && c'.(samples := c.samples) == c
  {
  }

  /** translateTo(p) with a coherent cache and at least one point: moving every point by p
      minus the centroid getCentroid returns puts the centroid on p. */
  lemma TranslateToLandsOnTarget(c: Cache, ps: seq<Pt>, p: Vec)
    requires Coherent(c, ps) && |ps| > 0
    ensures CentroidOf(Translated(ps, Offset(p, LookupCentroid(c, ps).1))) == Mean(p)
  {
    CentroidMemo(c, ps);
    TranslateToCentroid(ps, p);
  }

  /** scaleTo(w, h) with a coherent cache, at least one point, a box of non-zero width and
      height, and a box getBoundingBox does return: the scaled points span exactly |w| by |h|. */
  lemma ScaleToReachesSize(c: Cache, ps: seq<Pt>, w: real, h: real)
    requires Coherent(c, ps) && |ps| > 0
    requires BoundingBox(ps).width != 0.0 && BoundingBox(ps).height != 0.0
    requires LookupBoundingBox(c, ps).1.Some?
    ensures var b := LookupBoundingBox(c, ps).1.value;
            var (kx, ky) := ScaleFactors(b, w, h);
            BoundingBox(Scaled(ps, kx, ky)).width == Abs(w)
            && BoundingBox(Scaled(ps, kx, ky)).height == Abs(h)
  {
    BoundingBoxMemo(c, ps);
    ScaleToBoxSize(ps, w, h);
  }
}
