# Verified models of three vision components

This project models three parts of the repository in Dafny and proves what they are for.

**Line segment detector** (`src/deep_exchanger/src/lsd.cpp`).
The modules from `MathLib` to `Lsd`, in the form of the source: `used`, `reg`, `region`, the list pool and the
`inv` table are arrays updated in place, the rectangle iterator and the tuple list are classes, loops are loops.
The main results are the contract of `Lsd.LineSegmentDetection`, which describes the run of the program step by
step (`Outcome`), and `Lsd.OutcomeUnique`: that description determines the output. The accepted regions are
disjoint, labelled and counted exactly (`SegmentSearch`). Below stand the exact enumeration of the pixels of a
rotated rectangle (`Quad`, `RectIter`), region growing and its repair (`Region`, `RegionRefine`), the rectangle
of a region and when it covers it (`RegionRect`, `PrincipalAxis`, `RegionCover`), the binomial tail (`Binomial`,
`Nfa`), the search for better rectangles (`RectSearch`), the gradient and its bucket sort (`PixelOrder`,
`Gradient`), and the smoothing filter (`Gaussian`).

**Trigger pairing** (`src/hk_camera/src/hk_camera.cpp`).
`TriggerRing` interleaves the FIFO operations statement by statement and shows that they refine a bounded FIFO.
`TriggerSync` takes each callback as one step and shows when frames stay paired with triggers. `HkCamera` is the
class with the fields of the node; its methods are proved to do the steps of `TriggerSync`.

**Device protocol** (`src/OrbbecSDK_ROS1/src/ob_camera_node_driver.cpp`).
`DeviceProtocol` is a transition system with one step per lock, unlock, wait, notify or guarded block, for any
number of threads that run the connect, disconnect, reset, reboot and timer callbacks, spurious wakeups
included. P is `orb_device_lock_`, R `reset_device_lock_`, D `device_lock_`.

## How the source is represented

- `double` is `real`: no rounding, no NaN, no infinity; `double_equal` is `==`. The densities are compared after
  multiplying out, so a rectangle of length 0 is dense like the infinite density of the source.
- The functions of the C library are fields of a value `Libm`; the theorems that need laws of them require
  `Lawful`, which lists those laws (unit circle, half turn, polar form, square root, logarithm, exponential).
  PI is the literal of the source, taken as the half turn of cosine and sine; TWO_PI and THREE_HALVES_PI keep
  their own literal digits.
- `log_gamma` is a field too. `Nfa.LogLawful` and `Nfa.ExpLawful` say that logarithm, exponential and log-gamma are
  exact; the theorems about the precision of `nfa` are under these laws.
- The cast of a value that is not finite to `unsigned int` (line 849 with max_grad 0) yields an arbitrary value
  `badCast`, which the clamp of the next line keeps below n_bins.
- `next` pointers are indices into the pool, NULL is -1. NOTUSED and USED form a type of two values. After
  `ll_angle` the angles and norms are never written again, so they are values.
- `error` ends the program; here it is a `Failure`. The -DBL_MAX at which `ri_ini` starts stands for a value below
  every y.
- Longer functions of the source are cut into methods at the lines given in the table.

## Where code and documentation differ

- The comment of `isaligned` (line 916) assumes an angle in [-pi,pi]; `get_theta` can return up to 2pi.
  `Angles.OneWrapExactly` gives the tolerances for which the shortcut is right all the same.
- The comment of `region2rect` (line 1609) says that the rectangle covers the region. The code stores only the total
  spread across the axis and centers it. `RegionCover.RowSticksOut` is a region that sticks out, and
  `RegionCover.CoversExactly` says when the comment is right.
- `onFrameCB` reads the cell before the write position (line 366) also at position 0, in front of the array.
  `TriggerSync.LateFrameLosesPairing` is a run that gets there and loses the pairing, and
  `TriggerSync.ResyncExactly` says which resyncs are right.
- Lines 458-461 of the driver are unreachable: whenever the first test (line 447) fails, the second (line 450)
  holds. So an uninitialized lidar node is kept (`DeviceProtocol.LidarIsKept`).
- `region2rect` stops the program for a region of one pixel (line 1620), which `LineSegmentDetection` passes to it if
  min_reg_size is below 2. `Lsd.StopsExactly` says for which runs, `Lsd.EveryImagePasses` for which sizes and
  tolerances some image does it, and `Lsd.ProgramCanStop` gives an image and a tolerance.
- The comments of `deviceStatusTimer` (lines 1019-1026) say that it uses the camera node safely. It holds R only, and
  the threads that connect take the node away under P and D. `DeviceProtocol.NodeIsTaken` is such a run, and
  `DeviceProtocol.NodeTakenExactly` says when it happens.
- `checkConnectionTimer` takes no lock between its look at the nodes and its write, so it can clear the flag of a device
  that is connected by then: `DeviceProtocol.TimerClearsLiveDevice`; `DeviceProtocol.TimerExactly` says when it goes on.

## Model

| member | source | states |
|---|---|---|
| Lsd.LineSegmentDetection | src/deep_exchanger/src/lsd.cpp:2025-2207 | The outcome is the one of `Outcome`: invalid arguments and a too large output fail, exactly when the checks say so; otherwise the run over the bucket-sorted pixels of the gradient of the input (resampled if a scale is asked for) either stops at a seed whose region is a single pixel and not below min_reg_size, with `RegionTooSmall`, or ends, and then tuples, count and labels are exactly those of the accepted regions of the run |
| Lsd.OutcomeUnique | src/deep_exchanger/src/lsd.cpp:2025-2207 | The same arguments have the same result and the same run: the contract determines the output |
| Lsd.ResultUnique | src/deep_exchanger/src/lsd.cpp:2025-2207 | ... and so the result, whatever the run was |
| Lsd.TuplesAreSegments | src/deep_exchanger/src/lsd.cpp:2141-2167 | Every reported 7-tuple is one segment that was found: multiplied by the scale of the arguments, its ends are the ends of the rectangle moved by half a pixel and its width is that of the rectangle, then p and the value (`SegmentSearch.Reported`), which is above log_eps |
| Lsd.LabelsAreRegions | src/deep_exchanger/src/lsd.cpp:2164-2167 | With labels asked for, label k+1 marks the pixels of region k and no others |
| Lsd.SegmentsAreMeaningful | src/deep_exchanger/src/lsd.cpp:2109-2139 | Every segment has a rectangle that fits the sound pixels of its region, with tolerance pi*ang_th/180 and at least density_th of its area in pixels; the segment is that rectangle with its precision halved at most ten times and at most fifteen half pixels cut off; its value is that of its pixels for 11*(XY)^(5/2) tests |
| Lsd.ConfigMeans | src/deep_exchanger/src/lsd.cpp:2060-2095 | The constants of a run from its arguments: ang_th degrees are the tolerance and its probability, quant is the threshold times the sine of the tolerance, log10 of the number of tests is that of 11*(XY)^(5/2) |
| Lsd.SmallestRegionMeans | src/deep_exchanger/src/lsd.cpp:2094-2096 | min_reg_size: n pixels, all of them aligned, have a value above 0 if and only if n is larger |
| Lsd.ImageOfRun | src/deep_exchanger/src/lsd.cpp:2066-2076 | At scale 1 the input itself is searched, else the resampled image of the rounded up size |
| Lsd.StopsExactly | src/deep_exchanger/src/lsd.cpp:1620 | With accepted arguments the program stops exactly if the run comes to a free, defined seed whose region is a single pixel while min_reg_size is at most 1; in particular never with min_reg_size of 2 or more |
| Lsd.EveryImagePasses | src/deep_exchanger/src/lsd.cpp:1620 | At scale 1: no image of a size stops the program if and only if the size leaves no pixel with a window (one row or one column), or the smallest region size, a function of the size and the angle tolerance, is at least 2 |
| Lsd.CornerStops | src/deep_exchanger/src/lsd.cpp:1620 | For every size and tolerance with a smallest region size below 2, an image that is 0 except in its last corner stops the run |
| Lsd.OnePixelIsEnough | src/deep_exchanger/src/lsd.cpp:2094-2096 | 2x2 pixels and a tolerance of 5.625 degrees have a smallest region size below 2 |
| Lsd.ProgramCanStop | src/deep_exchanger/src/lsd.cpp:1620 | The failing input: the 2x2 image with a bright last pixel, that tolerance, all other arguments at will; its only result is the failure |
| Lsd.Detect | src/deep_exchanger/src/lsd.cpp:2100-2206 | With a list that holds every defined pixel: it fails exactly with the log up to a seed that stops the program; otherwise the log is that of a run over the whole list, tuples, count and labels are those of the log, accepted regions are pairwise disjoint, sound and of two pixels at least, 2·n_out <= xsize·ysize |
| SegmentSearch.SearchSegments | src/deep_exchanger/src/lsd.cpp:2109-2168 | When the seed loop ends the marks are exactly the pixels with a defined angle and the walk over the list is a run in which a pixel is a seed if and only if it is defined and was free; it stops early exactly at a seed that stops the program, with the log so far |
| SegmentSearch.LoggedUnique | src/deep_exchanger/src/lsd.cpp:2109-2168 | A list of pixels has one log only |
| SegmentSearch.StopsOrEnds | src/deep_exchanger/src/lsd.cpp:2109-2168 | A run either ends or stops at some seed, not both |
| SegmentSearch.StoppedUnique | src/deep_exchanger/src/lsd.cpp:2109-2168 | A run that stops does so at one seed only, with one log |
| SegmentSearch.TreatedUnique | src/deep_exchanger/src/lsd.cpp:2115-2139 | The region a seed leaves and the verdict are determined by the marks before it |
| SegmentSearch.VisitPixel | src/deep_exchanger/src/lsd.cpp:2110-2168 | One list cell: it fails if and only if the pixel is free, defined, and its region is a single pixel not below min_reg_size; otherwise `used` only grows, the cell ends marked unless its angle is undefined, marks, tuples and labels stay those of the log, and nothing happens for a pixel that is taken or undefined |
| SegmentSearch.ProcessSeed | src/deep_exchanger/src/lsd.cpp:2115-2139 | It fails if and only if the region of the seed is a single pixel and not below min_reg_size (line 1620). Otherwise the verdict is the one of the rejection and acceptance branches for the region that `region_grow` finds; `used` gains exactly the region that is left, which contains the seed and none of the earlier marks, despite the releases in between; a detected rectangle is reachable from one that fits the region densely |
| SegmentSearch.VisitKeeps | src/deep_exchanger/src/lsd.cpp:2110-2168 | One more seed keeps the invariant of the run: marks only on defined pixels, accepted regions apart, segment k found in region k |
| SegmentSearch.AllSeedsMarked | src/deep_exchanger/src/lsd.cpp:2109-2168 | If every visited seed is marked when its turn is over, no undefined pixel is, and the list holds every defined pixel, then the marks are exactly the defined pixels |
| SegmentSearch.FreeIsUnlabelled | src/deep_exchanger/src/lsd.cpp:2164-2167 | A region apart from all marks carries no label yet, so the write never overwrites one |
| SegmentSearch.LabelRegion | src/deep_exchanger/src/lsd.cpp:2164-2167 | Label k marks exactly the k-th accepted region, before and after one more region is written |
| SegmentSearch.Record | src/deep_exchanger/src/lsd.cpp:2141-2167 | The new tuple and the new label are added, and all earlier tuples and labels stay; `SegmentSearch.TupleScaled` says what the tuple is |
| SegmentSearch.TupleScaled | src/deep_exchanger/src/lsd.cpp:2149-2162 | Multiplied by the scale, the numbers of a tuple are the ends of the rectangle moved by half a pixel and its width; precision and value are those of the segment |
| SegmentSearch.RejectedExactly | src/deep_exchanger/src/lsd.cpp:2115-2139 | A seed yields no segment if and only if its region is below min_reg_size, or refine leaves less than two pixels, or none of the rectangles of the five stages, six each, has a value above log_eps; otherwise the segment is the last rectangle of the stages with its value |
| SegmentSearch.FoundInOrder | src/deep_exchanger/src/lsd.cpp:2141-2167 | Every seed that yields a segment is reported, with its region, in the order of the seeds, and nothing else is |
| SegmentSearch.RoomForRegions | src/deep_exchanger/src/lsd.cpp:2109-2168 | Disjoint regions of two pixels or more inside the marks: twice their number is at most the number of marks |
| SegmentSearch.FittedIsUsable | src/deep_exchanger/src/lsd.cpp:2121-2139 | The rectangle of any sound region of two pixels or more is acceptable to `rect_improve`: unit direction, positive length, width at least 1 |
| SegmentSearch.RefinedRegion | src/deep_exchanger/src/lsd.cpp:2136-2137 | After `refine` the marks are those before the seed plus what is left of its region; if it accepts, the region has two pixels or more and is dense in its rectangle |
| Lsd.GradientScene | src/deep_exchanger/src/lsd.cpp:2060-2078 | What `ll_angle` makes is what the search expects: an angle is defined only inside the border and only where the norm is positive |
| Lsd.GradientList | src/deep_exchanger/src/lsd.cpp:2109-2113 | The list made by `ll_angle` has no repetition and holds every pixel with a defined angle |
| Region.RegionGrow | src/deep_exchanger/src/lsd.cpp:1704-1750 | From a free seed: terminates inside the buffer; the region is the one of `Grow`, the fold of the pixel test over the nine cells of each window in the order in which pixels joined; it is distinct free pixels, seed first, each later one next to an earlier one and aligned when it joined; `used` gains exactly the region; the returned angle is the one of the sums of cosines and sines |
| Region.GrowExhausts | src/deep_exchanger/src/lsd.cpp:1730-1749 | Every window is exhausted: at the moment when a free pixel of the image is tested it is the next to join exactly if it is aligned with the region as it is then; so a pixel left over was refused at the angle in force at each of its tests |
| Region.GrowIsGrown | src/deep_exchanger/src/lsd.cpp:1704-1750 | The fold is connected, of distinct free pixels, each aligned with the region it joined |
| Region.LeftOver | src/deep_exchanger/src/lsd.cpp:1730-1749 | A free pixel of the image that is left over next to a pixel of the region was not aligned with the region, as it was when the pixel was tested |
| Region.CellsAreNear | src/deep_exchanger/src/lsd.cpp:1731-1734 | The nine cells of a window are the 3x3 neighbourhood |
| Region.AngleOfSum | src/deep_exchanger/src/lsd.cpp:1744-1748 | The angle of a region is the direction of the sum of the unit vectors of its pixels |
| Region.SteadyRegion | src/deep_exchanger/src/lsd.cpp:1744-1748 | Pixels of one angle make a region of that direction |
| Region.TryWindow | src/deep_exchanger/src/lsd.cpp:1731-1749 | The window of one pixel: its nine cells are tested column by column |
| Region.TryPixel | src/deep_exchanger/src/lsd.cpp:1733-1749 | One pixel of a window joins if and only if it lies in the image, is free, and is aligned with the region as it is; sums, angle, buffer and marks stay those of the region |
| RegionRefine.GrownIsSound | src/deep_exchanger/src/lsd.cpp:1704-1750 | A region grown from a defined seed has only defined pixels |
| Angles.AngleDiffSigned | src/deep_exchanger/src/lsd.cpp:943-949 | The two wrapping loops end with the representative of the difference in (-pi,pi] |
| Angles.AngleDiff | src/deep_exchanger/src/lsd.cpp:931-938 | ... and its absolute value |
| Angles.WrapUnique | src/deep_exchanger/src/lsd.cpp:931-949 | There is only one representative in the half-open window, so the loops compute the difference of directions |
| Angles.OneWrapSuffices | src/deep_exchanger/src/lsd.cpp:893-927 | The one-wrap test of `isaligned` agrees with `angle_diff(theta,a) <= prec` for all pixel angles, all rectangle angles and every tolerance below 2pi - 3pi/2, or of 3pi/2 and more |
| Angles.OneWrapFails | src/deep_exchanger/src/lsd.cpp:921-926 | For every tolerance in between a pair of angles on which they differ |
| Angles.OneWrapExactly | src/deep_exchanger/src/lsd.cpp:893-938 | The exact set of tolerances for which the shortcut is sound |
| RegionRect.WeightedSums | src/deep_exchanger/src/lsd.cpp:1635-1642 | Sums of weights and of weighted coordinates of the region |
| RegionRect.InertiaMatrix | src/deep_exchanger/src/lsd.cpp:1584-1591 | Inertia matrix of the region about a center |
| RegionRect.GetTheta | src/deep_exchanger/src/lsd.cpp:1568-1606 | The angle is that of the eigenvector of lines 1596-1599, turned by pi if it is off by more than the tolerance; fails exactly for too small a region, a negative tolerance or null inertia. `PrincipalAxis.AxisIsBest` says what that axis is, `RegionRect.FacesRegion` which way it points |
| RegionRect.FacesRegion | src/deep_exchanger/src/lsd.cpp:1601-1603 | The rectangle faces the way of its region whenever its line allows it: its angle agrees with the region angle if and only if one of the two directions of the axis does |
| RegionRect.Extent | src/deep_exchanger/src/lsd.cpp:1664-1674 | Smallest and largest projections along and across the axis, each reached or 0 |
| RegionRect.RegionToRect | src/deep_exchanger/src/lsd.cpp:1611-1698 | The rectangle is the one centered on the weighted mean along that axis, from first to last projection, at least one pixel wide; fails exactly if an internal check fires |
| RegionRect.FitsUnique | src/deep_exchanger/src/lsd.cpp:1611-1698 | A region has one such rectangle only |
| RegionCover.CoversExactly | src/deep_exchanger/src/lsd.cpp:1609 | Along its axis the rectangle covers the region always; as a whole exactly if the spread across the axis is below 1 with at most 0.5 on each side, or else equal on both sides |
| RegionCover.RowSticksOut | src/deep_exchanger/src/lsd.cpp:1609 | The failing input: three pixels in a row and one beside the middle, off the border of a 4x3 image and of equal weight, pass all checks, and the fourth pixel lies outside of their rectangle |
| RegionCover.CenterBalances | src/deep_exchanger/src/lsd.cpp:1632-1645 | The center is the center of gravity: in every direction the weighted projections of the pixels sum to 0 |
| RegionCover.RectangleIsTight | src/deep_exchanger/src/lsd.cpp:1647-1697 | Some pixel lies at each of the two ends; the width is the distance across between the two outermost pixels, or 1 if that is less |
| RegionRect.InertiaPositive | src/deep_exchanger/src/lsd.cpp:1584-1592 | With positive weights the diagonal is not negative, and positive as soon as one pixel is off the center |
| RegionRect.ChecksNeverFire | src/deep_exchanger/src/lsd.cpp:1592-1643 | For two distinct pixels or more that carry weight neither the zero-weight check nor the null-inertia check fires |
| RegionRect.FittedIsOriented | src/deep_exchanger/src/lsd.cpp:1676-1697 | The result has unit direction from its first to its second end, width of 1 at least, and an angle in the range `isaligned` expects |
| Rectangle.LengthIsDist | src/deep_exchanger/src/lsd.cpp:1890-1891 | The `dist` of the two ends, which the density uses, is the length along the axis |
| PrincipalAxis.LambdaIsEigenvalue | src/deep_exchanger/src/lsd.cpp:1596 | lambda solves the characteristic equation of the inertia matrix and is at most half its trace |
| PrincipalAxis.SpreadIsForm | src/deep_exchanger/src/lsd.cpp:1584-1599 | The weighted squared projections on a direction are a quadratic form of the inertia matrix |
| PrincipalAxis.AxisSpread | src/deep_exchanger/src/lsd.cpp:1595-1599 | In the chosen direction that form is positive, in all cases of the atan2 |
| PrincipalAxis.AxisIsBest | src/deep_exchanger/src/lsd.cpp:1568-1606 | The axis of the rectangle is the axis of least inertia: no other direction has a larger weighted sum of squared projections |
| PrincipalAxis.PositiveLength | src/deep_exchanger/src/lsd.cpp:1611-1698 | The rectangle of two distinct weighted pixels or more has positive length |
| RegionRefine.Refine | src/deep_exchanger/src/lsd.cpp:1947-2015 | A dense region is left alone. Otherwise the marks are those before minus the old region plus the new one; the new region is what `region_grow` finds from the same seed, with twice the standard deviation near the seed as tolerance, among the pixels free without the old region, then shrunk; FALSE leaves one pixel |
| RegionRefine.RegrownSteps | src/deep_exchanger/src/lsd.cpp:1962-2016 | A sparse region regrows from its seed with twice the standard deviation of the angles near the seed as tolerance; if its rectangle is sparse again, what is left is exactly what lies within (3/4)^k of the distance of the farther end; an accepted rectangle is that of what is left, facing the way of the regrown region, and dense; of a rejected region the seed is left |
| RegionRefine.DenseIsDensity | src/deep_exchanger/src/lsd.cpp:1966-1972 | The criterion is number of pixels over length times width, at least the threshold |
| RegionRefine.ToleranceIs | src/deep_exchanger/src/lsd.cpp:1988-1993 | The square of the new tolerance is four times the variance of the deviations |
| RegionRefine.DeviationsAre | src/deep_exchanger/src/lsd.cpp:1974-1987 | The deviations are the differences of direction between the seed and the pixels nearer to it than the width, ... |
| RegionRefine.DeviationsCount | src/deep_exchanger/src/lsd.cpp:1974-1987 | ... one for each of them |
| RegionRefine.RadiusIs | src/deep_exchanger/src/lsd.cpp:1896-1907 | The k-th radius is (3/4)^k of the distance from the seed to the farther end |
| RegionRefine.RegrownUnique | src/deep_exchanger/src/lsd.cpp:1947-2015 | Region, verdict and rectangle after a regrow are determined by the old region and the marks |
| RegionRefine.RegrownOutcome | src/deep_exchanger/src/lsd.cpp:1998-2014 | After a regrow the region has only defined pixels, apart from all other marks; accepted it has two pixels or more and is dense, rejected it is exactly the seed |
| RegionRefine.ReleaseRegion | src/deep_exchanger/src/lsd.cpp:1974-1990 | The marks lose exactly the region, and count, sum and sum of squares are those of the deviations of the pixels nearer than the width |
| RegionRefine.RadicandIsVariance | src/deep_exchanger/src/lsd.cpp:1991-1993 | The radicand is the mean squared deviation from the mean, hence not negative |
| RegionRefine.SeedCounts | src/deep_exchanger/src/lsd.cpp:1980-1991 | The seed itself counts, so n >= 1 and the mean exists |
| RegionRefine.ReduceRegionRadius | src/deep_exchanger/src/lsd.cpp:1869-1935 | Terminates; what is left is exactly what lies within the k-th radius (each 3/4 of the one before, the first from the seed to the farther end), all earlier radii having failed the density test; the seed stays first; marks lose exactly the removed pixels; accepted means dense, rejected means one pixel |
| RegionRefine.RemoveFar | src/deep_exchanger/src/lsd.cpp:1908-1919 | One round of swap removal keeps exactly the points within the radius, in the order of `Sifted`, clears exactly the marks of the others, and keeps the seed first |
| RegionRefine.ShrunkUnique | src/deep_exchanger/src/lsd.cpp:1896-1934 | The rounds end at one place only: the first radius at which the region is dense or too small |
| RegionRefine.SwapRemoval | src/deep_exchanger/src/lsd.cpp:1914-1918 | Replacing a point by the last one and shortening removes exactly that point |
| RegionRefine.PixelsApart | src/deep_exchanger/src/lsd.cpp:1896-1905 | Distinct pixels are at least 1 apart |
| RegionRefine.TwoLeft | src/deep_exchanger/src/lsd.cpp:1896-1922 | Two points can be left only while the radius is at least 1, so the 3/4 rule ends |
| RectIter.Explore | src/deep_exchanger/src/lsd.cpp:1206-1220 | The pattern of ri_ini, ri_end, ri_inc visits every integer point of the closed rotated rectangle exactly once, in column order, and no other point |
| RectIter.Iterator.Ini | src/deep_exchanger/src/lsd.cpp:1411-1477 | The iterator starts at the first point of the rectangle, or at the end if it has none |
| RectIter.Iterator.Inc | src/deep_exchanger/src/lsd.cpp:1341-1404 | One increment terminates and goes to the next point in column order, skipping none, empty columns included; at the end it stays |
| RectIter.CornersValid | src/deep_exchanger/src/lsd.cpp:1426-1451 | For each of the four corner orders, axis-parallel rectangles included, the corners form a parallelogram with the first corner leftmost and area length times width |
| RectIter.CornersContain | src/deep_exchanger/src/lsd.cpp:1426-1451 | That parallelogram is the closed rectangle |
| Quad.Slice | src/deep_exchanger/src/lsd.cpp:1277-1309 | Between the two interpolated sides lie exactly the points of the column that the parallelogram contains; the checks of `inter_low` and `inter_hi` never fire |
| Quad.NoSliceOutside | src/deep_exchanger/src/lsd.cpp:1325-1334 | No point lies left of the first or right of the third corner, where the iterator ends |
| Nfa.Inverses.Compute | src/deep_exchanger/src/lsd.cpp:1074-1159 | Any sequence of calls returns what an nfa without the table returns, which `Nfa.ValueOfTerms` and `Nfa.WithinTenPercent` describe |
| Nfa.Inverses.Inverse | src/deep_exchanger/src/lsd.cpp:1131-1133 | A table entry is 0 or 1/i, and the value used is 1/i |
| Nfa.SumIsTail | src/deep_exchanger/src/lsd.cpp:1125-1148 | From an exact term on, the loop sums terms C(n,i)p^i(1-p)^(n-i): without a break it returns the whole tail, with a break less than the tail by no more than the allowed error |
| Nfa.NeglectedPart | src/deep_exchanger/src/lsd.cpp:1138-1145 | For a quotient other than 1 the truncation error of line 1144 bounds what is neglected |
| Nfa.WithinTenPercent | src/deep_exchanger/src/lsd.cpp:1070-1073 | The documented precision, given that logarithm, exponential and log-gamma are exact: for any number of tests t the result is not below -log10(t * tail) and exceeds it by at most 10% of the result |
| Nfa.NearExact | src/deep_exchanger/src/lsd.cpp:1070-1073 | ... and so for any single call whose first term is exact |
| Nfa.FirstTermLog | src/deep_exchanger/src/lsd.cpp:1103-1112 | The logarithm of the first term, from three values of log-gamma, is that of the probability of exactly k successes |
| Nfa.ValueOfTerms | src/deep_exchanger/src/lsd.cpp:1127-1158 | The result is that of k to e successes, where e is the first term in the second half of the row whose geometric bound is within the allowed error, or n |
| Nfa.Underflow | src/deep_exchanger/src/lsd.cpp:1114-1121 | Where the exponential underflows, the result is that of the first term alone, or of a certain event, according to the side of the mean |
| Binomial.ChooseFactorial | src/deep_exchanger/src/lsd.cpp:1062-1064 | The binomial coefficients are the quotients of factorials |
| Binomial.ChooseRatio | src/deep_exchanger/src/lsd.cpp:1118-1136 | Quotient of consecutive binomial coefficients, from Pascal's rule |
| Binomial.TermStep | src/deep_exchanger/src/lsd.cpp:1118-1136 | Each term of the tail is the one before times (n-i+1)/i · p/(1-p) |
| Binomial.GeometricClosed | src/deep_exchanger/src/lsd.cpp:1144-1145 | The closed form in line 1144 is the finite geometric sum |
| Binomial.TailBound | src/deep_exchanger/src/lsd.cpp:1138-1145 | The terms after term j are below its geometric series |
| Binomial.TailTotal | src/deep_exchanger/src/lsd.cpp:1086-1091 | The tail from 0 is 1, so the case k = 0 is exact |
| RectSearch.RectNfa | src/deep_exchanger/src/lsd.cpp:1482-1504 | The value is the nfa of the number of image pixels in the closed rectangle and of the aligned ones among them |
| RectSearch.RectImprove | src/deep_exchanger/src/lsd.cpp:1756-1862 | Returns the `rect_nfa` value of the rectangle it leaves, never below the initial one; the run is up to five stages, each keeping the first best of five tries, and stops early exactly when the threshold is passed; at most 10 halvings of the precision (the 11 precisions of line 2088) and 15 cuts |
| RectSearch.StagesCut | src/deep_exchanger/src/lsd.cpp:1785-1845 | What each stage does to the points of a rectangle: the precision stages take none away, the second stage takes a quarter of a pixel off both sides, the third half a pixel off one side and the fourth off the other |
| RectSearch.RoundsHalve | src/deep_exchanger/src/lsd.cpp:1769-1781 | After n rounds of a precision stage p is the 2^n-th part, the tolerance is pi times p, and the width is the same |
| RectSearch.RoundsCut | src/deep_exchanger/src/lsd.cpp:1785-1845 | After n rounds of another stage the width is n half pixels less, or has stopped below 1; it never gets below 0.5 |
| RectSearch.RefusedExactly | src/deep_exchanger/src/lsd.cpp:1756-1862 | The search ends at or below the threshold if and only if none of the rectangles of its five stages, tried in five rounds each, is above |
| RectSearch.BestIsFirst | src/deep_exchanger/src/lsd.cpp:1769-1860 | A stage keeps the first of the highest among the six rectangles it knows |
| RectSearch.RectValueCounts | src/deep_exchanger/src/lsd.cpp:1482-1501 | The value of a rectangle is nfa of the number of image pixels in it and of those whose direction is off by at most the tolerance |
| RectSearch.Stage | src/deep_exchanger/src/lsd.cpp:1770-1781 | One stage appends the best of its move to the run and loses no value |
| RectSearch.TryFive | src/deep_exchanger/src/lsd.cpp:1770-1781 | Of the initial rectangle and five successive tries the first with the highest value is kept; p and prec are halved together, or the width is cut |
| RectSearch.MoveVariant | src/deep_exchanger/src/lsd.cpp:1766-1858 | Each move keeps: same direction, center and length, p = p0/2^k with prec = p·pi, width w0 - j/2 of at least 0.5, inside the original |
| RectSearch.CutIsInside | src/deep_exchanger/src/lsd.cpp:1783-1842 | A rectangle narrowed in the middle or on one side lies inside the original |
| RectSearch.ClimbNeverWorse | src/deep_exchanger/src/lsd.cpp:1756-1862 | No run of stages ends below its start |
| RectSearch.ClimbUnique | src/deep_exchanger/src/lsd.cpp:1756-1862 | A search that has come to its end has one sequence of rectangles only |
| Gradient.LlAngle | src/deep_exchanger/src/lsd.cpp:752-888 | Angles and norms are those of the 2x2 gradient with the threshold; the list is null-terminated, acyclic, inside the pool, and in the order of the bucket sort |
| Gradient.ComputeGradient | src/deep_exchanger/src/lsd.cpp:803-840 | Every inner pixel has its norm and its angle or NOTDEF, the last column and row are NOTDEF, and max_grad is the largest norm above the threshold |
| Gradient.LevelLine | src/deep_exchanger/src/lsd.cpp:808-836 | For any window A B / C D: the norm is half the length of the documented gradient (B+D-(A+C), C+D-(A+B)); a pixel has an angle if and only if the norm is above the threshold; and the angle is at a right angle to the gradient, always on the same side |
| Gradient.RampAngle | src/deep_exchanger/src/lsd.cpp:808-836 | On a linear ramp the norm is the slope and the angle runs along the lines of equal level |
| Gradient.FilledExactly | src/deep_exchanger/src/lsd.cpp:800-840 | That determines both images in full |
| Gradient.MarkBorder | src/deep_exchanger/src/lsd.cpp:800-801 | The last row and the last column are undefined |
| Gradient.SortPixels | src/deep_exchanger/src/lsd.cpp:842-881 | The list is the chain of all inner pixels by falling bin, in scan order within a bin |
| Gradient.AddToBin | src/deep_exchanger/src/lsd.cpp:849-860 | A pixel is appended to the chain of its bin and no other chain changes |
| Gradient.LinkBins | src/deep_exchanger/src/lsd.cpp:868-880 | The chains of all bins, empty ones skipped, become one list from the highest bin down; no cell changes its pixel |
| Gradient.ListIsPermutation | src/deep_exchanger/src/lsd.cpp:842-881 | The list is a permutation of all (x,y) with x < p-1 and y < n-1 |
| Gradient.ListIsSorted | src/deep_exchanger/src/lsd.cpp:842-881 | Bin numbers do not increase along the list, and it is stable within a bin |
| Gradient.ListedInOrder | src/deep_exchanger/src/lsd.cpp:842-881 | A listed pixel has a higher bin than a later one, or the same bin and an earlier place in the scan column by column |
| Gradient.NearlySorted | src/deep_exchanger/src/lsd.cpp:742-748 | A pixel of an equal or higher bin has a gradient norm at most max_grad/n_bins below any other |
| Gradient.ListNearlySorted | src/deep_exchanger/src/lsd.cpp:742-748 | A pixel listed before another has a gradient norm at most max_grad/n_bins below it |
| PixelOrder.OrderSorted | src/deep_exchanger/src/lsd.cpp:868-881 | Chaining buckets from the highest down yields every position once, strictly sorted by bin and arrival |
| PixelOrder.Join | src/deep_exchanger/src/lsd.cpp:872-880 | Setting one `next` hangs one chain behind another and keeps it a chain |
| PixelOrder.ScanMembers | src/deep_exchanger/src/lsd.cpp:843-844 | The double loop meets every pixel with a window once |
| Gaussian.GaussianSampler | src/deep_exchanger/src/lsd.cpp:611-728 | The output size is the rounded up scaled size; each pixel is the two-dimensional weighted sum over the mirrored image with product weights; outputs lie between the smallest and the largest input |
| Gaussian.SampleX | src/deep_exchanger/src/lsd.cpp:655-687 | The pass over x computes the row sums with the kernel of each column |
| Gaussian.SampleY | src/deep_exchanger/src/lsd.cpp:689-721 | The pass over y computes the column sums of what the first pass left |
| Gaussian.Separable | src/deep_exchanger/src/lsd.cpp:655-721 | Two one-dimensional passes are the direct two-dimensional sum |
| Gaussian.WindowSumBounds | src/deep_exchanger/src/lsd.cpp:611-728 | A sum with averaging kernels stays between minimum and maximum |
| Gaussian.GaussianKernel | src/deep_exchanger/src/lsd.cpp:548-571 | The kernel is the sampled bell divided by its positive sum |
| Gaussian.WeightOfPixel | src/deep_exchanger/src/lsd.cpp:548-571 | The weight of a pixel is exp(-d^2/(2 sigma^2)) over the sum of the window, d being its distance from x/scale |
| Gaussian.CenterIsNearest | src/deep_exchanger/src/lsd.cpp:657-666 | The window is centered on the pixel nearest to x/scale |
| Gaussian.SamplingReach | src/deep_exchanger/src/lsd.cpp:636-649 | sigma is sigma_scale of an output pixel when shrinking, of an input pixel when enlarging; the half size is the smallest whose weights outside are negligible |
| Gaussian.DiscardedIsNegligible | src/deep_exchanger/src/lsd.cpp:638-647 | The documented guarantee: every discarded term is at least 10^3 times smaller than the top of the bell, as -d^2/(2 sigma^2) <= -3 ln 10 |
| Gaussian.SampleIsLocal | src/deep_exchanger/src/lsd.cpp:655-721 | A sample depends on nothing but the square of pixels, mirrored at the border, that reaches half a kernel from the pixel nearest to its place in the input |
| Gaussian.WindowOfOne | src/deep_exchanger/src/lsd.cpp:655-721 | Weight (i,j) belongs to the pixel i to the right of and j below the first of the window, mirrored into the image |
| Gaussian.KernelAverages | src/deep_exchanger/src/lsd.cpp:548-571 | Its entries are not negative and sum to 1 |
| Gaussian.Reflect | src/deep_exchanger/src/lsd.cpp:678-681 | The mirror loops terminate with the reflected index, which is in range |
| Gaussian.MirrorIsReflection | src/deep_exchanger/src/lsd.cpp:678-681 | That index has period 2·size, is symmetric about the border, and is the identity in range |
| TupleList.NtupleList.Enlarge | src/deep_exchanger/src/lsd.cpp:287-299 | The room doubles and the tuples stay |
| TupleList.NtupleList.Add7Tuple | src/deep_exchanger/src/lsd.cpp:305-327 | The tuple is appended and all earlier ones stay |
| TriggerRing.NextKeepsInv | src/hk_camera/src/hk_camera.cpp:301-366 | Every single statement of writer and reader, flush and resync included, interleaved in any order, keeps the ring invariant |
| TriggerRing.RingRefinesFifo | src/hk_camera/src/hk_camera.cpp:301-366 | The ring refines a bounded FIFO of capacity FIFO_SIZE - 1: a publish appends the accepted packet, a read returns and removes the oldest, overflow drops only the newest and only when full, the flush drops what was there when the rear was read, and the resync reads the last packet accepted when it read the rear |
| TriggerRing.NoTornRead | src/hk_camera/src/hk_camera.cpp:301-366 | No slot is read, by fifoRead or by line 366, while it is being written |
| TriggerRing.RunInv | src/hk_camera/src/hk_camera.cpp:301-360 | The invariant holds in all states of all runs |
| TriggerRing.ReadsInOrder | src/hk_camera/src/hk_camera.cpp:312-319 | Over any run the results of reads are accepted packets in order of acceptance, none twice |
| TriggerSync.TriggerKeepsSync | src/hk_camera/src/hk_camera.cpp:278-310 | A trigger with the next counter that does not overflow keeps the FIFO contents consecutive from the expected counter, mod 2^32 |
| TriggerSync.TriggerExactly | src/hk_camera/src/hk_camera.cpp:278-310 | Any trigger keeps the pairing right if and only if it is taken in and has the next counter, or it is lost in an overflow and repeats the last counter |
| TriggerSync.ResyncExactly | src/hk_camera/src/hk_camera.cpp:358-367 | After a resync the pairing is right again if and only if the write position is not 0 or the cell before the array happens to hold the right counter |
| TriggerSync.WrongResyncFires | src/hk_camera/src/hk_camera.cpp:328-341 | After a wrong resync the first packet read makes the counter test fail |
| TriggerSync.LateFrameLosesPairing | src/hk_camera/src/hk_camera.cpp:278-369 | The failing run, from the start and without a gap or an overflow: FIFO_SIZE triggers and frames, the last frame late, resync at position 0; the next trigger is mismatched unless the stray cell continues the count |
| TriggerSync.WriteByStatements | src/hk_camera/src/hk_camera.cpp:301-310 | The atomic write is a run of the statements of the ring |
| TriggerSync.ReadByStatements | src/hk_camera/src/hk_camera.cpp:312-319 | So is the atomic read |
| TriggerSync.ResyncByStatements | src/hk_camera/src/hk_camera.cpp:358-367 | So are the flush and the resync, and the counter they leave is the same |
| TriggerSync.FrameKeepsSync | src/hk_camera/src/hk_camera.cpp:321-369 | In sync the counter test of line 337 never fires; a handled frame leaves the pairing in sync, stamped or dropped |
| TriggerSync.StampKeepsSync | src/hk_camera/src/hk_camera.cpp:328-356 | A stamped frame gets the expected counter and leaves the pairing in sync |
| TriggerSync.StepKeepsSync | src/hk_camera/src/hk_camera.cpp:278-369 | Every callback keeps the pairing in sync, given no producer gap, no overflow and no resync at write position 0 |
| TriggerSync.RunStaysInSync | src/hk_camera/src/hk_camera.cpp:278-369 | Over all such runs the pairing stays in sync and line 337 never fires |
| TriggerSync.StampsAreConsecutive | src/hk_camera/src/hk_camera.cpp:321-369 | Whatever the producer sends and however full the FIFO gets: over any run in which the pairing is not lost, stamp number k has the k-th counter, mod 2^32, after the one expected at its start |
| TriggerSync.FrameExactly | src/hk_camera/src/hk_camera.cpp:328-369 | A frame is stamped if and only if the pairing is not lost and the oldest packet has the expected counter and is at most 13 ms old; it gets that packet and the next counter is expected; any other frame is dropped, the pairing is lost and the FIFO empty |
| TriggerSync.FiringDrops | src/hk_camera/src/hk_camera.cpp:337-367 | A callback in which the counter test fires stamps nothing and leaves the pairing lost with an empty FIFO |
| TriggerSync.TimerExactly | src/hk_camera/src/hk_camera.cpp:287-299 | The timer ends the loss of the pairing after more than a second of silence and changes nothing else |
| HkCamera.Camera.FifoWrite | src/hk_camera/src/hk_camera.cpp:301-310 | The fields after the write stand for the FIFO with the packet appended, or unchanged if full |
| HkCamera.Camera.FifoRead | src/hk_camera/src/hk_camera.cpp:312-319 | Returns the oldest packet and removes it, or false exactly if empty |
| HkCamera.Camera.TriggerCB | src/hk_camera/src/hk_camera.cpp:278-285 | The fields stand for the result of the trigger step, and the trigger time is noted |
| HkCamera.Camera.EnableTriggerCB | src/hk_camera/src/hk_camera.cpp:287-299 | The fields stand for the result of the timer step |
| HkCamera.Camera.Poll | src/hk_camera/src/hk_camera.cpp:332-335 | The polling loop ends with the first packet that comes in, and takes it |
| HkCamera.Camera.Sleep | src/hk_camera/src/hk_camera.cpp:332-335 | While it sleeps the triggers come in one by one |
| HkCamera.Camera.OnFrameCB | src/hk_camera/src/hk_camera.cpp:321-369 | The new fields and the stamp or drop are those of the frame step, taken when the polling loop has its packet, or at once if the pairing is lost; stamped exactly if the packet has the expected counter and is at most 13 ms old, else the FIFO ends empty and the pairing lost |
| HkCamera.PolledIsFirst | src/hk_camera/src/hk_camera.cpp:332-335 | The frame gets the first packet of the first sleep in which triggers come in |
| HkCamera.TriggersFill | src/hk_camera/src/hk_camera.cpp:301-310 | Triggers that come in fill the FIFO up to 1022 packets, behind what is there; later ones are lost |
| HkCamera.Camera.Flush | src/hk_camera/src/hk_camera.cpp:358-367 | The FIFO is empty and the counter after the last cell is expected |
| DeviceProtocol.Settles | src/OrbbecSDK_ROS1/src/ob_camera_node_driver.cpp:483-767 | From every reachable state, once no new callback begins and no wait ends by itself, the threads stop after a bounded number of steps whatever the interleaving and the device do; where none can go on, no reset is pending and every connect callback has returned |
| DeviceProtocol.NoDeadlock | src/OrbbecSDK_ROS1/src/ob_camera_node_driver.cpp:483-767 | As long as some thread has something to do, some thread can take a step |
| DeviceProtocol.StepIfFree | src/OrbbecSDK_ROS1/src/ob_camera_node_driver.cpp:483-767 | A thread can step if it holds the last lock, in the order P < R < D, that anyone holds, or if none is held |
| DeviceProtocol.EveryStepObeys | src/OrbbecSDK_ROS1/src/ob_camera_node_driver.cpp:362-767 | Every step: locks are taken in the order P < R < D; every change of `reset_device_` is made under R and leads to the notify before R is released; `device_connected_` rises only at the verdict of `initializeDevice`, with a node; `device_` and the nodes change only at a thread that connects or dismantles |
| DeviceProtocol.NextKeepsInv | src/OrbbecSDK_ROS1/src/ob_camera_node_driver.cpp:362-767 | Every step of every thread keeps the invariant, for any number of threads |
| DeviceProtocol.KeepsExclusive | src/OrbbecSDK_ROS1/src/ob_camera_node_driver.cpp:483-767 | No two threads hold the same lock |
| DeviceProtocol.KeepsConnecting | src/OrbbecSDK_ROS1/src/ob_camera_node_driver.cpp:483-567 | Between the second test of `device_connected_` and the verdict it stays false |
| DeviceProtocol.KeepsDevice | src/OrbbecSDK_ROS1/src/ob_camera_node_driver.cpp:377-452 | `device_` stays set from its assignment to the verdict, despite the reset thread |
| DeviceProtocol.KeepsRequest | src/OrbbecSDK_ROS1/src/ob_camera_node_driver.cpp:658-694 | A pending reset stays pending while the reset thread is at work on it |
| DeviceProtocol.KeepsNodes | src/OrbbecSDK_ROS1/src/ob_camera_node_driver.cpp:362-694 | Connected means a device and a node, except while the reset thread holds D between taking the node and clearing the flag |
| DeviceProtocol.KeepsWakeups | src/OrbbecSDK_ROS1/src/ob_camera_node_driver.cpp:483-694 | A thread that waits without a notify has no reason to go on, or the notifying thread is about to notify |
| DeviceProtocol.RunKeepsInv | src/OrbbecSDK_ROS1/src/ob_camera_node_driver.cpp:362-767 | The invariant holds in every state of every run |
| DeviceProtocol.LidarIsKept | src/OrbbecSDK_ROS1/src/ob_camera_node_driver.cpp:447-462 | The third branch of the verdict is never taken; without an initialized node the camera node is taken away and a lidar node is kept |
| DeviceProtocol.NodeTakenExactly | src/OrbbecSDK_ROS1/src/ob_camera_node_driver.cpp:1020-1046 | While the status timer uses the camera node, the next step can take it away if and only if a connecting thread stands at one of the three places where it takes the node away; then `device_connected_` is false, and the reset thread never does it |
| DeviceProtocol.NodeIsTaken | src/OrbbecSDK_ROS1/src/ob_camera_node_driver.cpp:1020-1046 | The failing run, from the start: connect, status timer, disconnect, reset, connect, and the node that the timer uses is taken away |
| DeviceProtocol.ConnectedMeansDevice | src/OrbbecSDK_ROS1/src/ob_camera_node_driver.cpp:362-694 | In every reachable state: with D free, `device_connected_` implies a device and a camera or lidar node; and at a verdict `device_connected_` is false, so it is never set true while true |
| DeviceProtocol.ResetLeavesNothing | src/OrbbecSDK_ROS1/src/ob_camera_node_driver.cpp:658-694 | When the reset thread gives `device_lock_` back no camera node, no lidar node and no device are left, and it is not connected; when it notifies, the request is cleared; no connect callback gets past its wait while a request is pending |
| DeviceProtocol.VerdictOnNewNode | src/OrbbecSDK_ROS1/src/ob_camera_node_driver.cpp:377-462 | At the verdict of a connection there are the new device and exactly one node, of the configured type, and it is not connected |
| DeviceProtocol.ConnectedIsLeft | src/OrbbecSDK_ROS1/src/ob_camera_node_driver.cpp:500-520 | A connect callback that finds the device connected changes nothing and does not get to select a device |
| DeviceProtocol.FailureRequestsReset | src/OrbbecSDK_ROS1/src/ob_camera_node_driver.cpp:548-566 | A connect callback that is left by an exception, and a disconnect callback, do not end before they have requested a reset |
| DeviceProtocol.RebootAlone | src/OrbbecSDK_ROS1/src/ob_camera_node_driver.cpp:716-767 | While the device is rebooted no other thread connects, resets or takes a device away |
| DeviceProtocol.StatusExactly | src/OrbbecSDK_ROS1/src/ob_camera_node_driver.cpp:1020-1046 | The status timer comes to use the camera node if and only if there is one and no reset is pending, and while it uses it none is pending and the reset thread is not at work |
| DeviceProtocol.TimerExactly | src/OrbbecSDK_ROS1/src/ob_camera_node_driver.cpp:584-594 | The connection timer, having seen `device_connected_`, goes on to clear it if and only if the reset thread has taken the node away and not yet cleared the flag |
| DeviceProtocol.TimerClearsLiveDevice | src/OrbbecSDK_ROS1/src/ob_camera_node_driver.cpp:584-594 | The failing run, from the start: the timer finds no node in the middle of a reset, the reset ends, the next connection succeeds, and then the timer clears `device_connected_` of the new device |
| DeviceProtocol.KeepsTidy | src/OrbbecSDK_ROS1/src/ob_camera_node_driver.cpp:362-694 | Contents change only under `device_lock_`, so what a thread finds there stays until it gives the lock back |
| DeviceProtocol.QuietIsClean | src/OrbbecSDK_ROS1/src/ob_camera_node_driver.cpp:483-694 | If all threads sleep there is no pending reset and nobody waits for the end of one: no wakeup was lost |
| DeviceProtocol.EveryStepPays | src/OrbbecSDK_ROS1/src/ob_camera_node_driver.cpp:483-767 | Each step makes the remaining work of its thread smaller, notifies and requests included |
| DeviceProtocol.TotalChange | src/OrbbecSDK_ROS1/src/ob_camera_node_driver.cpp:563-565 | A step changes the total work by that of its own thread and by at most a constant for each thread it notifies |
| DeviceProtocol.RankFalls | src/OrbbecSDK_ROS1/src/ob_camera_node_driver.cpp:483-767 | Each step from a state of the invariant makes the total remaining work smaller |
| DeviceProtocol.WorkEnds | src/OrbbecSDK_ROS1/src/ob_camera_node_driver.cpp:483-767 | A run without new callbacks is no longer than the work remaining at its start |
| DeviceProtocol.RunKeepsRole | src/OrbbecSDK_ROS1/src/ob_camera_node_driver.cpp:658-694 | The reset thread never leaves its loop |

## Left out

- Rounding, NaN and infinities of floating point, integer widths other than the 32-bit trigger counter, memory
  management and the text of errors.
- Nfa.WithinTenPercent: the error of `log_gamma_lanczos` and `log_gamma_windschitl` is not part of this model;
  `Nfa.NearExact` asks only for an exact first term.
- `lsd_scale_region`, `lsd_scale`, `lsd`: they only supply default parameters.
- Nfa.NeglectedPart: quotient 1 is excluded, because line 1144 then computes 0/0, whose comparison in line 1145 is
  false: no break, which `Nfa.Value` follows.
- TriggerSync.StepKeepsSync: producer gaps, overflow and a resync at position 0 are excluded. `TriggerExactly` and
  `ResyncExactly` say which of them break the pairing: all but an overflow that loses a repeated counter and a
  resync for which the stray cell holds the right counter. Callbacks are atomic steps, so `trigger_not_sync_` does
  not change inside one.
- HkCamera.Camera.OnFrameCB: a polling loop to which no packet ever comes does not end in the source either; the
  method is about waits that end.
- The camera parameters, image conversion, service calls and publishing of the camera node.
- DeviceProtocol.ConnectedMeansDevice: connections through `connectNetDevice`, which bypasses P, are not part of this
  model.
- DeviceProtocol.Settles: shutdown (`is_alive_` false) and the destructor are not part of this model; P is a lock
  among the threads of one process, its use by other processes and its timeout appear only as the choice to give up;
  `queryDevice` is a thread that begins one connect callback after another.
- DeviceProtocol.RankFalls: the bound counts a round of D for every device of a list, with `Setup.devices` as the
  largest number of devices in a list of the run.
- DeviceProtocol.EveryStepObeys: what the device and its SDK do is a free choice of outcome (found or not,
  initialized or not, exception or not); firmware messages, forced IP addresses and device info are left out;
  `device_lock_` is recursive in the source but never taken twice by a thread.
- The other packages of the repository: bindings, parameter copying, decoders and calls into image libraries.
