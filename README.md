# Tree scanner node extraction, modelled in Dafny

The tree scanner reads a screenshot of a passive skill tree and finds its node
markers. It takes the bright blobs of the darkened grayscale image and fits a
circle to each blob. It then removes overlapping circles, sorts the rest from top
to bottom and left to right, and splits them into three tiers by radius: small,
notable and keystone. Finally it writes each node with a tier identifier (`K1`,
`N2`, `S17`, ...) and a description skeleton for the keystones and notables.

This project models that pipeline without the image library and the file
output:

- `circles.dfy` (module `Circles`) holds the `Circle` entity. Its constructor
  plays the part of the `from_data` factory. The module also has the radius
  classifier `KindOf`, with an error result outside 1..14, and the overlap test
  `Overlaps` on integer squared distances. It also has the circle fitter: the
  centre is truncated toward zero, and the radius is clamped to 5..20 and then
  truncated. Finally it has the contour area filter and the loop that appends
  one circle per contour.
- `dedup.dfy` (module `Deduplication`) holds the greedy overlap removal as two
  methods. The inner loop walks the kept list by position while removing from
  it, exactly as Python's list iterator does. `list.remove` drops the first
  equal element. Both methods are proved equal to the functions `Resolve`,
  `Step` and `Dedup`, and the properties are lemmas about those functions.
- `ordering.dfy` (module `Ordering`) holds the stable sort by `(y, x)`. It is
  proved sorted, a permutation and stable. It is also proved to be the only
  possible result of any stable sort by that key.
- `tiers.dfy` (module `Tiers`) holds the three tier filters. They fail on the
  first unclassifiable circle, as the `kind` property raises there. The module
  also covers the 1-based tier identifiers with their decimal rendering, and
  the description skeleton.
- `threshold.dfy` (module `Threshold`) holds the darkening of pixels below 55.
- `pipeline.dfy` (module `Pipeline`) runs the whole extraction from contours to
  the exported documents. It also holds a worked example of three separate
  disks.

Where the design description and the code disagree, the model follows the
code:

- The description rounds the enclosing radius before clamping. The code clamps
  the float and then truncates it with `int()`, so `ClampRadius` truncates.
- The description promises that no two kept circles overlap. The code does not
  guarantee this. After a removal, the circle that moves into the freed
  position is never compared with the candidate. `KeptCirclesMayOverlap`
  exhibits three circles for which two overlapping circles are both kept.
  Because of the same skipping, an already kept circle can be kept a second
  time. The model keeps this behaviour throughout.

## Model

Some members only compute, and carry no contract of their own. The lemmas named
here state their properties, and each lemma has its own row below:
- `Circles.Overlaps`: `OverlapsIsDistanceBelowRadii`, `OverlapsSymmetric`,
  `TouchingCirclesDoNotOverlap` and `ConcentricCirclesOverlap`.
- `Deduplication.Resolve`, `Step` and `Dedup`: the `Resolve…`, `Step…` and
  `Dedup…` lemmas, `TieKeepsKeptCircle`, `EqualRadiusKeepsFirst` and
  `KeptCirclesMayOverlap`. The methods `ResolveCandidate` and `RemoveOverlaps`
  are proved equal to them.
- `Ordering.SortByPosition`: `SortByPositionSortedPermutation`,
  `SortByPositionStable` and `StableSortIsUnique`.
- `Tiers.SelectKind` and `Tiers.Partition`: the `SelectKind…` lemmas,
  `PartitionExact` and `PartitionKeepsOrder`.
- `Tiers.TierNodes`: `TierNodesNumbering` and `TierNodesDisjoint`.
- `Tiers.Describe`: `DescribeKeys` and `DescribeKey`.
- `Tiers.BuildExport` and `Pipeline.FinalCircles`: `ExtractNodes`,
  `ExportOfFitted`, `NoContoursNoNodes`, `FinalCirclesShape` and
  `ThreeSeparateDisks`.

| member | source | states |
|---|---|---|
| `Circles.KindOf` | tree-scanner/main.py:23-35 | radius 1..7 is small, 8..10 notable, 11..14 keystone; any other radius is an error carrying that radius |
| `Circles.OverlapsIsDistanceBelowRadii` | tree-scanner/main.py:41-44 | the integer overlap test holds exactly when the Euclidean centre distance is below the sum of the radii |
| `Circles.OverlapsSymmetric` | tree-scanner/main.py:41-44 | overlap of a with b equals overlap of b with a |
| `Circles.TouchingCirclesDoNotOverlap` | tree-scanner/main.py:44 | the comparison is strict: centres exactly r1+r2 apart do not overlap |
| `Circles.ConcentricCirclesOverlap` | tree-scanner/main.py:41-44 | circles sharing a centre overlap when one radius is positive (so identical detections always overlap) |
| `Circles.Truncate` | tree-scanner/main.py:64 | `int()` of a float truncates toward zero: the result is within 1 of the value, on the zero side |
| `Circles.ClampRadius` | tree-scanner/main.py:65-67 | the radius is always in [5, 20]; it is the floor of the raw radius inside [5, 20], 5 below and 20 above |
| `Circles.FitCircle` | tree-scanner/main.py:63-69 | a fitted circle has a radius in [5, 20] and a centre truncated from the enclosing circle's centre |
| `Circles.FilterByArea` | tree-scanner/main.py:55-57 | exactly the contours with area at least 2 are kept, and no more contours than given |
| `Circles.FilterByAreaCounts` | tree-scanner/main.py:55-57 | each contour of area at least 2 is kept as often as it occurs, every other contour is dropped; a single contour is kept whole or dropped |
| `Circles.FilterByAreaAppend` | tree-scanner/main.py:55-57 | the filter keeps the contours' order: filtering a concatenation is concatenating the filtered parts |
| `Circles.FitAll` | tree-scanner/main.py:60-69 | one circle per contour, in contour order, each the fitted circle of its contour, all radii in [5, 20] |
| `Circles.ClampedKinds` | tree-scanner/main.py:24-35 | on clamped radii, classification fails exactly for radii 15..20, and small means 5..7 |
| `Deduplication.RemoveFirst` | tree-scanner/main.py:80 | `list.remove` drops the first element equal to the value, keeping the order of the others: the result is the list before that position followed by the list after it |
| `Deduplication.RemoveFirstKeepsTail` | tree-scanner/main.py:80 | removing the element found at a position leaves every suffix after that position unchanged |
| `Deduplication.ResolveCandidate` | tree-scanner/main.py:75-83 | the inner loop computes the positional scan `Resolve`; it removes only overlapping strictly smaller kept circles; a discarded candidate was stopped by an overlapping kept circle at least as large, which stays kept together with the untouched rest of the list after it |
| `Deduplication.RemoveOverlaps` | tree-scanner/main.py:72-85 | the outer loop computes `Dedup` of the candidates, a sub-multiset of them and no longer |
| `Deduplication.DedupAppend` | tree-scanner/main.py:74-85 | one more candidate is one more pass of the outer loop on the kept list |
| `Deduplication.ResolveRemovesOnlySmallerOverlapping` | tree-scanner/main.py:76-80 | every circle a scan removes overlaps the candidate and has a strictly smaller radius |
| `Deduplication.ResolveDiscardsOnlyForLarger` | tree-scanner/main.py:81-83 | a discarded candidate was stopped at a kept circle that overlaps it with radius at least its own; from that circle on, the kept list is an untouched tail of the list the scan started from |
| `Deduplication.ResolveStopsAtFirstLargerOverlap` | tree-scanner/main.py:76-83 | when the first kept circle that overlaps the candidate is at least as large, the candidate is discarded and the kept list is left unchanged |
| `Deduplication.ResolveKeepsWhenNoLargerOverlap` | tree-scanner/main.py:75-85 | a candidate that no kept circle at least as large overlaps is always kept |
| `Deduplication.ResolveUntouchedWithoutOverlap` | tree-scanner/main.py:76-77 | a scan over kept circles none of which overlaps the candidate changes nothing and keeps the candidate |
| `Deduplication.StepAppendsIsolatedCandidate` | tree-scanner/main.py:84-85 | a candidate overlapping no kept circle is appended at the end of the unchanged kept list |
| `Deduplication.StepShape` | tree-scanner/main.py:74-85 | a kept candidate is appended last; a discarded one leaves only the scan's kept list; no circle other than the candidate is added |
| `Deduplication.DedupIsSubMultiset` | tree-scanner/main.py:72-85 | the kept list is a sub-multiset of the candidates and no longer than them |
| `Deduplication.TieKeepsKeptCircle` | tree-scanner/main.py:78-83 | for any kept list, a candidate whose first overlapping kept circle has the same or a larger radius is discarded and the kept list is unchanged |
| `Deduplication.EqualRadiusKeepsFirst` | tree-scanner/main.py:78-83 | of two overlapping circles with equal radius only the first processed survives |
| `Deduplication.KeptCirclesMayOverlap` | tree-scanner/main.py:74-85 | for candidates (0,0,5), (20,0,5), (10,0,6) the kept list is the last two, which overlap |
| `Ordering.Insert` | tree-scanner/main.py:88 | one insertion step of the sort adds exactly the new circle to the list's multiset |
| `Ordering.SortByPositionSortedPermutation` | tree-scanner/main.py:88 | the sorted list is non-decreasing in (y, x) and a permutation of the kept circles |
| `Ordering.SortByPositionStable` | tree-scanner/main.py:88 | for every key (y, x), the circles with that key keep their input order |
| `Ordering.StableSortIsUnique` | tree-scanner/main.py:88 | any sorted list with the same per-key sublists as the input equals the modelled sort, so every stable sort by (y, x) gives this result |
| `Ordering.WithKeyAppend` | tree-scanner/main.py:88 | the circles with one key in a concatenation are those of the first part followed by those of the second |
| `Tiers.Decimal` | tree-scanner/main.py:119 | a rank renders as a non-empty string of decimal digits without a leading zero |
| `Tiers.DecimalRoundTrip` | tree-scanner/main.py:119 | reading back the decimal rendering of a rank gives the rank |
| `Tiers.TierIdRoundTrip` | tree-scanner/main.py:116-143 | parsing an identifier `<prefix><rank>` gives back the prefix and the rank |
| `Tiers.TierIdInjective` | tree-scanner/main.py:116-143 | two identifiers are equal only for the same prefix and rank |
| `Tiers.SelectKindSucceeds` | tree-scanner/main.py:91-93 | a tier filter succeeds exactly when every circle has a defined kind |
| `Tiers.SelectKindFailsAtFirst` | tree-scanner/main.py:91 | a failing tier filter reports the first circle of undefined kind |
| `Tiers.SelectKindSelects` | tree-scanner/main.py:91-93 | a tier holds every circle of its kind as often as the input, and nothing else |
| `Tiers.SelectKindKeepsOrder` | tree-scanner/main.py:91-93 | a tier of sorted circles is sorted |
| `Tiers.SelectKindAppend` | tree-scanner/main.py:91-93 | the tier of a concatenation is the tier of the first part followed by the tier of the second |
| `Tiers.SelectKindStable` | tree-scanner/main.py:91-93 | for every key (y, x), the tier's circles with that key are the input's circles with that key and the tier's kind, in input order |
| `Tiers.PartitionExact` | tree-scanner/main.py:91-93 | the partition succeeds iff every radius is in 1..14; then the tiers together are the input multiset, their sizes sum to the total and each holds only its kind; otherwise it fails with the first bad radius |
| `Tiers.PartitionKeepsOrder` | tree-scanner/main.py:88-93 | each tier of the sorted list is sorted, and for each key (y, x) each tier keeps the input order of the circles of its kind, so equal positions stay in detection order |
| `Tiers.TierNodesNumbering` | tree-scanner/main.py:116-143 | the k-th node of a tier (from 1) is named prefix+k, has the k-th circle's position and kind, and no two nodes of a tier share a name |
| `Tiers.TierNodesDisjoint` | tree-scanner/main.py:116-143 | nodes of different tiers never share a name |
| `Tiers.DescribeKey` | tree-scanner/main.py:150-163 | an identifier is a key of the skeleton exactly when it reads as K with a rank in 1..n or N with a rank in 1..m |
| `Tiers.DescribeKeys` | tree-scanner/main.py:150-163 | the skeleton's keys are exactly K1..Kn and N1..Nm; each entry is named after its key with no stats; small nodes have no entry |
| `Threshold.Darken` | tree-scanner/main.py:51 | the image keeps its shape; every pixel is 0 or at least 55; pixels at or above 55 are unchanged and no non-zero pixel is altered |
| `Threshold.DarkenIdempotent` | tree-scanner/main.py:51 | darkening twice equals darkening once |
| `Threshold.DarkImageIsBlack` | tree-scanner/main.py:51 | an image with every pixel below 55 darkens to all black |
| `Pipeline.Candidates` | tree-scanner/main.py:55-69 | no more candidate circles than contours, every radius in [5, 20] |
| `Pipeline.FinalCirclesShape` | tree-scanner/main.py:72-88 | the final circles are sorted by (y, x), a sub-multiset of the candidates, no more than the contours, radii in [5, 20] |
| `Pipeline.ExportOfFitted` | tree-scanner/main.py:91-144 | the export of fitted circles fails iff some radius exceeds 14, then with a radius in 15..20; otherwise it has one node per circle |
| `Pipeline.NoContoursNoNodes` | tree-scanner/main.py:55-163 | no contours give no final circles, three empty tiers and an empty description skeleton |
| `Pipeline.ExtractNodes` | tree-scanner/main.py:47-144 | the run exports the tiers of the final circles; it fails iff some final radius exceeds 14, and then with a radius in 15..20; the node counts add up to the final circles; no contours give empty documents |
| `Pipeline.ThreeSeparateDisks` | tree-scanner/main.py:55-163 | three separate disks of radius 6, 9 and 12 give one small, one notable and one keystone node, and descriptions for K1 and N1 only |

## Left out

- Image loading, grayscale conversion, contour finding, contour area and the minimum enclosing circle (`cv2.imread`, `cvtColor`, `findContours`, `contourArea`, `minEnclosingCircle`) are library calls whose code is not part of this model. Each contour is an input that carries its area and its enclosing circle as reals. The contours' order is the input order.
- Drawing the circles and saving the annotated image (`cv2.circle`, `cv2.imwrite`) are image output only.
- Normalising the coordinates by the image width and height is floating-point work. The exported nodes keep pixel coordinates, and the image size is not modelled.
- Writing the two JSON documents and the console messages are output only. The description skeleton is a map, so the key order of the written document (keystones first) is not modelled.
- Non-finite floats (NaN or infinite radii) are not modelled: contour data are reals.
- CPython's sorting algorithm itself is not modelled. The sort is an insertion sort, and `StableSortIsUnique` shows that every stable sort by (y, x) produces the same list.
- src/lib/index.ts only returns two imported JSON documents, so it is not part of this model.
