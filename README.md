# ise-stroke: the Stroke container, modelled in Dafny

ise-stroke represents a pen stroke as an ordered, mutable list of 2D points (each with an
optional capture timestamp) plus a per-stroke memo of derived features. This project models
the part of `lib/index.js` that is exact over the reals:

- **Points and construction.** `Point` (a falsy timestamp is not stored) and its `clone`;
  a stroke built from point records, from another stroke (deep copy), from a flat array of
  pairs or triples (`fromOneDArray`) or from rows (`fromArray`); `clone` and `copy`.
- **The cache.** `clearCache` and the memoised accessors `getCentroid`, `getBoundingBox`,
  `getDiff` and `getSample`, with their guards exactly as written. `getBoundingBox` tests
  the *centroid* slot, so after `getCentroid` on a fresh cache it returns no box at all.
  `getSample` creates its slot for the first count asked for and never adds another count.
  `fromOneDArray` replaces the points without clearing the cache.
- **The generic `diff` helper** and the per-segment deltas built with it.
- **The pose transforms** `reverse`, `flipX`, `flipY`, `translateTo` and `scaleTo` (both
  arities), which update the points in place and then clear the cache.

Layout:

- `wrappers.dfy`: `Option` (JavaScript's `undefined` where the source can return it) and
  `Outcome` (a call that returns normally or throws).
- `geometry.dfy`, module `Geometry`: point values, the value-level definitions of every
  derived feature and transform (centroid, bounding box, deltas, reversal, flips,
  translation, scaling, flat-array reading and writing), the lemmas about them, and the
  `diff` loop.
- `cache.dfy`, module `StrokeCache`: the cache record (one `Option` slot per feature) and
  the transition each accessor makes on it, with lemmas on when a cached value equals the
  recomputed one and where it does not.
- `stroke.dfy`, module `Strokes`: the classes `Point` and `Stroke`. Each method is proved
  to change the points and the cache exactly as the `Geometry` and `StrokeCache`
  definitions say, so the lemmas proved there carry over to the objects.
- `scenarios.dfy`, module `Scenarios`: call sequences on a new stroke with what they
  return, including the reversal expected by `test/test.js`.

Numbers are Dafny `real`s. The two non-numbers the source can compute are named: a stroke
without points has the centroid `Undefined` (the NaN point of 0 / 0), and its bounding box is
`Inverted` (the +Infinity/-Infinity rectangle the min/max loop leaves). `getBoundingBox` and
`getSample` can return `undefined`; they return `Option` values. `scaleTo` can throw a
`TypeError`, so it returns an `Outcome`; `getSample` returns either what its slot holds or
the `TypeError` the resampling threw.

The code raises no error for a flat array whose length is not a multiple of the stride, nor
for a bounding box of zero width or height in `scaleTo`, and `fromOneDArray` does not clear
the cache; the model follows the code in each case. Where the code's result is not a real
number, the operation carries a precondition, listed under "Left out".

## Model

| member | source | states |
|---|---|---|
| Geometry.Stored | lib/index.js:4-7 | the points kept for a list of records: same count, same x and y, and a timestamp only where it is truthy |
| Geometry.CentroidOf | lib/index.js:138-150 | the centroid is a real point exactly when the stroke has points |
| Geometry.BoundingBox | lib/index.js:152-165 | the box is a real rectangle exactly when the stroke has points |
| Geometry.MinBounds | lib/index.js:155-161 | the running Math.min over the coordinates is at most every coordinate and equals one of them |
| Geometry.MaxBounds | lib/index.js:155-161 | the running Math.max over the coordinates is at least every coordinate and equals one of them |
| Geometry.BoundingBoxEncloses | lib/index.js:152-165 | for a stroke with points, width and height are non-negative, every point lies in the box, and each of the four edges is touched by a point |
| Geometry.BoundingBoxTight | lib/index.js:152-165 | a rectangle that contains every point and has each edge touched by a point is exactly the box getBoundingBox computes |
| Geometry.Deltas | lib/index.js:225-233 | one delta per segment: max(n - 1, 0) of them |
| Geometry.DifferencesTelescope | lib/index.js:26-36 | the differences diff returns for numbers add up to the last element minus the first |
| Geometry.DeltasTelescope | lib/index.js:225-233 | the segment deltas add up to the last point minus the first |
| Geometry.Reversed | lib/index.js:345-349 | reversal keeps the length |
| Geometry.ReversedInvolution | lib/index.js:345-349 | reversing twice gives back the original sequence |
| Geometry.ReversedDeltas | lib/index.js:345-349 | the deltas of a reversed stroke are the old deltas negated, in reverse order |
| Geometry.ReversedBoundingBox | lib/index.js:345-349 | reversal keeps the bounding box |
| Geometry.ReversedExtremes | lib/index.js:345-349 | reversal keeps the least and the greatest coordinate |
| Geometry.FlippedX | lib/index.js:351-357 | flipX keeps the number of points |
| Geometry.FlippedY | lib/index.js:359-365 | flipY keeps the number of points |
| Geometry.FlipInvolutions | lib/index.js:351-365 | flipX twice, or flipY twice, gives back the original points |
| Geometry.FlippedXBoundingBox | lib/index.js:351-357 | after flipX the box is mirrored about the y axis with the same width and height |
| Geometry.FlippedYBoundingBox | lib/index.js:359-365 | after flipY the box is mirrored about the x axis with the same width and height |
| Geometry.Translated | lib/index.js:440-452 | a translation keeps the number of points |
| Geometry.TranslatedCentroid | lib/index.js:440-452 | moving every point by d moves the centroid by d |
| Geometry.TranslateToCentroid | lib/index.js:440-452 | the offset translateTo(p) applies puts the centroid exactly on p |
| Geometry.TranslatedDeltas | lib/index.js:440-452 | a translation leaves every segment delta unchanged |
| Geometry.TranslatedBoundingBox | lib/index.js:440-452 | a translation moves the box by d and keeps its width and height |
| Geometry.Scaled | lib/index.js:430-433 | scaling keeps the number of points |
| Geometry.ScaledCoordinates | lib/index.js:430-433 | every x is multiplied by the x factor and every y by the y factor |
| Geometry.ScaledBoundingBox | lib/index.js:423-438 | scaling about the origin multiplies the box width and height by the absolute factors |
| Geometry.ScaleToBoxSize | lib/index.js:423-438 | scaleTo(w, h) on a box of non-zero width and height gives a box of exactly abs(w) by abs(h) |
| Geometry.Unflatten | lib/index.js:72-85 | every point read from a flat array holds a timestamp a Point can hold |
| Geometry.UnflattenWhole | lib/index.js:72-85 | a flat array of whole chunks yields length / stride points, point k read from positions stride*k onwards |
| Geometry.UnflattenFlatten | lib/index.js:72-85 | writing points as a flat array and reading it back gives the same points |
| Geometry.FlattenUnflatten | lib/index.js:72-85 | reading a flat array of whole chunks and writing the points back gives the same array |
| Geometry.Rows | lib/index.js:87-94 | fromArray reads one point per row, with a timestamp a Point can hold |
| Geometry.RowsAgreeWithUnflatten | lib/index.js:72-94 | fromArray on rows of stride length reads the same points as fromOneDArray on their concatenation |
| Geometry.Diff | lib/index.js:26-36 | diff returns max(n - 1, 0) results, result i being subtract(a[i + 1], a[i]) |
| Geometry.DiffNumbers | lib/index.js:26-36 | diff with its default subtraction returns the differences of consecutive numbers |
| StrokeCache.EmptyCoherent | lib/index.js:96-99 | a cleared cache holds nothing stale |
| StrokeCache.CentroidMemo | lib/index.js:138-150 | on a coherent cache getCentroid returns the mean of the points, fills only its own slot and keeps the cache coherent |
| StrokeCache.DiffMemo | lib/index.js:225-245 | on a coherent cache getDiff returns the segment deltas, fills only its own slot and keeps the cache coherent |
| StrokeCache.BoundingBoxMemo | lib/index.js:152-165 | on a coherent cache getBoundingBox never returns a stale box, and returns none exactly when the centroid slot is filled and the box slot is not |
| StrokeCache.BoundingBoxLostAfterCentroid | lib/index.js:152-165 | after getCentroid on an empty cache, getBoundingBox returns nothing and changes nothing, however often it is called |
| StrokeCache.BoundingBoxKeptBeforeCentroid | lib/index.js:152-165 | getBoundingBox before getCentroid keeps the box, which is returned from then on |
| StrokeCache.SampleFirstCountOnly | lib/index.js:126-136 | after a clear, only the first count asked for gets a sample; a later call with another count returns nothing |
| StrokeCache.SampleMemo | lib/index.js:126-136 | getSample keeps every stored sample equal to the resampling of the current points, returns that resampling, throws exactly when it creates the slot and the resampling throws, and changes no other slot |
| StrokeCache.SampleFailureSticks | lib/index.js:126-136 | when the first resampling after a clear throws, getSample throws and every later getSample returns undefined, because the slot stays `{}` |
| StrokeCache.TranslateToLandsOnTarget | lib/index.js:440-452 | with a coherent cache, translateTo(p) puts the centroid of the moved points on p |
| StrokeCache.ScaleToReachesSize | lib/index.js:423-438 | with a coherent cache and a box getBoundingBox returns, scaleTo(w, h) gives a box of abs(w) by abs(h) |
| Strokes.Point.constructor | lib/index.js:4-7 | a new point holds x, y, and the timestamp only when it is truthy |
| Strokes.Point.Clone | lib/index.js:10-12 | a new Point with the same coordinates and timestamp |
| Strokes.Stroke.constructor | lib/index.js:49-65 | new, distinct Points holding the records' values, and an empty cache |
| Strokes.Stroke.FromStroke | lib/index.js:54-56 | a stroke built from another stroke holds new Points with its values and an empty cache |
| Strokes.Stroke.FromOneDArray | lib/index.js:72-85 | the points become new Points read from the flat array; the cache is left unchanged |
| Strokes.Stroke.FromArray | lib/index.js:87-94 | the points become new Points read from the rows, and the cache is emptied |
| Strokes.Stroke.ClearCache | lib/index.js:96-99 | the cache becomes empty |
| Strokes.Stroke.Clone | lib/index.js:101-108 | a new stroke over new Points with the same values and an empty cache |
| Strokes.Stroke.Copy | lib/index.js:110-115 | the stroke takes new Points with the other stroke's values, and an empty cache |
| Strokes.Stroke.FirstPoint | lib/index.js:117-119 | the first Point, absent exactly when there are no points |
| Strokes.Stroke.LastPoint | lib/index.js:121-124 | the last Point, absent exactly when there are no points |
| Strokes.Stroke.NumOfPoints | lib/index.js:258-260 | the number of points |
| Strokes.Stroke.PointAt | lib/index.js:262-264 | the Point at an index, absent exactly when the index is outside 0 .. count - 1 |
| Strokes.Stroke.EndsAreIndexed | lib/index.js:117-124 | the first and last points are the points at the first and last index |
| Strokes.Stroke.GetCentroid | lib/index.js:138-150 | the summing loop makes the cache transition and returns the centroid StrokeCache.LookupCentroid defines |
| Strokes.Stroke.GetBoundingBox | lib/index.js:152-165 | the min/max loop makes the cache transition and returns the box StrokeCache.LookupBoundingBox defines |
| Strokes.Stroke.GetDiff | lib/index.js:225-245 | diff over the points makes the cache transition and returns the deltas StrokeCache.LookupDiff defines |
| Strokes.Stroke.GetSample | lib/index.js:126-136 | makes the cache transition and returns the sample, or the thrown TypeError, that StrokeCache.LookupSample defines |
| Strokes.Stroke.Reverse | lib/index.js:345-349 | the points in reverse order, first and last swapped, and an empty cache |
| Strokes.Stroke.FlipX | lib/index.js:351-357 | the same Points with every x negated in place, and an empty cache |
| Strokes.Stroke.FlipY | lib/index.js:359-365 | the same Points with every y negated in place, and an empty cache |
| Strokes.Stroke.TranslateTo | lib/index.js:440-452 | every point moved by p minus the centroid getCentroid returns, and an empty cache |
| Strokes.Stroke.ScaleTo | lib/index.js:427-437 | throws before any change when the box is undefined and there are points; otherwise every point scaled by the target size over the box extent, and an empty cache; with a box computed afresh the new box is abs(w) by abs(h) |
| Strokes.Stroke.ScaleToSquare | lib/index.js:423-426 | scaleTo with one argument behaves as scaleTo(w, w) |
| Scenarios.ReverseDiagonal | test/test.js:8-20 | reversing (0, 0) .. (9, 9) gives (9, 9) .. (0, 0) |
| Scenarios.ReverseTwice | lib/index.js:345-349 | reversing a stroke twice gives back its points |
| Scenarios.BoundingBoxAfterCentroid | lib/index.js:138-165 | getCentroid then getBoundingBox on a new stroke returns no box, whatever the points |
| Scenarios.BoundingBoxBeforeCentroid | lib/index.js:138-165 | getBoundingBox, getCentroid, getBoundingBox on a new stroke returns the points' box |
| Scenarios.ScaleAfterCentroid | lib/index.js:423-438 | scaleTo after getCentroid on a stroke with points throws a TypeError and leaves the points as they were |
| Scenarios.ScaleNewStroke | lib/index.js:423-438 | scaleTo(w, h) on a new stroke with a box of non-zero size leaves a box of abs(w) by abs(h) |
| Scenarios.TranslateThenCentroid | lib/index.js:440-452 | after translateTo(p) on a new stroke with points, getCentroid returns p |
| Scenarios.StaleCentroid | lib/index.js:72-85 | fromOneDArray keeps a centroid cached for the old points until clearCache |
| Scenarios.CloneIsIndependent | lib/index.js:101-108 | flipping a clone leaves the original's points unchanged |
| Scenarios.SampleTwice | lib/index.js:126-136 | when the resampling succeeds, a second getSample returns a sample only when it asks for the same count as the first |
| Scenarios.SampleOfEmptyStroke | lib/index.js:126-136 | on a stroke without points getSample(2) throws a TypeError, the next getSample returns undefined whatever its count, and after clearCache getSample(2) throws again |

## Left out

- `Point.distanceTo`, `getPathLength`, `getAngles`, `getAnglesInDeg`, `getIndicativeAngle`, `getVectorRep`, `rotateBy`, `deg2Rad`, `rad2Deg`, `optimalCosineDistance`: they need square roots, trigonometry or pi, which have no exact model over the reals.
- `resample`: its spacing rests on square-root distances and a rounding patch. `getSample` takes the resampling as a function parameter instead, whose `None` stands for the TypeError `resample` throws on a stroke without points for the count 2 (lib/index.js:394-395).
- `Stroke.distanceTo`, `distanceAtAngle`, `distanceAtBestAngle`: they depend on `resample`, `rotateBy` and a golden-section search with an irrational constant.
- `getCorners`: it calls the `short-straw` module, which is not part of this model.
- `getAnglesDiff`, `getAnglesDiffInDeg`: they call a function that does not exist and always throw.
- The falsy cache guard that recomputes a cached path length of 0 belongs to `getPathLength`, which is left out. The four modelled slots always hold an object, which is never falsy.
- The `createStrokePoint` override hook: points are always built by the `Point` constructor.
- Floating point: rounding, signed zero, and any NaN or Infinity other than the empty stroke's `Undefined` centroid and `Inverted` box.
- Method chaining: the methods that return `this` return nothing.
- The points array is a sequence that `reverse` reassigns rather than an array it reverses in place. `points` is a public property: a caller that kept a reference to the array before `reverse` sees it reversed in the source (lib/index.js:346), but in the model keeps the old order.
- Strokes.Stroke.constructor: takes the records as a sequence. A falsy argument builds the same stroke as no records, and records with missing coordinates are not modelled.
- Strokes.Stroke.FromOneDArray: requires that the length is not one more than a multiple of the stride, because a trailing lone x gives a point whose y is undefined. `hasTimeStamp` is a boolean; the source uses stride 3 only for the value `true`.
- Strokes.Stroke.FromArray: requires every row to hold at least x and y.
- Strokes.Stroke.ScaleTo: requires non-zero width and height when the box is a real rectangle and there are points, because the source would write Infinity or NaN. An `Inverted` box gives the factor 0, ignoring the sign of zero.
- Strokes.Stroke.ScaleToSquare: the same precondition as `ScaleTo`.
- Strokes.Stroke.TranslateTo: requires a real centroid when there are points. A stale NaN centroid, cached before `fromOneDArray` loaded points, would move every point to NaN.
- Strokes.Stroke.GetSample: the count is a natural number. The source stores the resampled clone stroke, and the model stores its points as values. On a stroke without points and any count other than 2, the source does not throw: the sample holds one undefined point (lib/index.js:377), which a `seq<Pt>` cannot hold, so that sample is not modelled.
- Strokes.Stroke.GetCentroid, Strokes.Stroke.GetBoundingBox, Strokes.Stroke.GetDiff: the source caches the centroid `Point`, the bounding-box `Rectangle` and the array of `{x, y}` deltas as objects and returns them by reference, so a caller that mutates a returned object changes the cached value (lib/index.js:138-165, 225-244). The model caches and returns values, so that aliasing is not captured.
