# Buckets and beam parameters: a Dafny model

This project models the discrete logic of an RF bucket engine for
longitudinal beam dynamics, and proves properties of that model.

On the `Bucket` side (`beam_dynamics/bucket.py`) it covers:

- **Building a bucket.** A primary bucket is built from its outermost potential well. It gets its separatrix (the closed contour `time + time[::-1]`, `ub + (-ub)[::-1]`) and its basic parameters: half height, area, length and centre.
- **Sub-buckets.** A sub-bucket is made for every inner well. The containment graph of `_identify_substructure` decides the links: `contains`, `exclude`, `useCont` and the root layer `nextLayer`. The wiring of `sub_buckets` and `hasSubs` onto the bucket objects follows from it.
- **Level crossings.** `_interp_time_from_potential` does range checks, takes the first and last samples at or below a potential level, clamps the interpolation windows, and follows Python's slice semantics.
- **Overshoot clamp.** Each outline method clamps its interpolated well in place.
- **Bunch setting.** The three outline methods and `_set_bunch` decide which bunch length, height and emittance a bucket takes for a length, emittance or height target. They cover the exactly-one-target rule, the zero target, the capacity guards, the errors that escape the searches' objectives, and the emittance search's fall-back to the bucket itself.

On the `Beam_Parameters` side (`interfaces/beam/beam_parameters.py`) it covers:

- **Construction.** The constructor's argument validation and defaults.
- **`_time_bounds`.** The time window it computes.
- **`track_synchronous`.** This fills the `particle_tracks` array. Each particle starts at the minimum nearest the last window sample at or before its start coordinate. It then moves, sample by sample, to the minimum nearest where it was.
- **`calc_buckets`.** This fills the `buckets` dict keyed by (sample, particle), modelled with Python's insertion order.
- **`buckets_by_particle`.** The filter over that dict.
- **`bucket_parameters`.** The over-fill policy of its emittance loop.

Some numerics are computed outside the model. They enter as function-valued parameters (`BucketModel.Numerics`):

- the Hamiltonian transform and its square root;
- the cubic interpolant of the well;
- `np.interp`.

The runs of the Nelder-Mead searches (the levels probed and the level reported), the cubic minimum finder's locations, the sorted potential wells and the sample buckets are plain inputs. Reals are mathematical reals.

Files and modules:

- `common.dfy` (`Common`): error kinds, `Result`/`Option`, and numpy's max, min, trapz and reversal.
- `containment.dfy` (`Containment`): the containment graph and its index lists.
- `contour.dfy` (`Contour`): closed contours and the scalar geometry read off them.
- `crossing.dfy` (`Crossing`): level crossings, slices, `np.where`, `np.interp` and `linspace`.
- `overshoot.dfy` (`Overshoot`): the in-place clamp.
- `bucket.dfy` (`BucketModel`): the `Bucket` class and the bunch targets.
- `beam_parameters.dfy` (`BeamParams`): the `BeamParameters` class and the functions that specify it.

Three behaviours of the code as written are kept in the model, and each is stated by a lemma:

- **`potential_resolution` is never checked.** Its integrality test re-tests `harmonic_divide` (`interfaces/beam/beam_parameters.py:42-45`). A fractional resolution is therefore truncated, not refused (`BeamParams.ConfigureOutcome`, `BeamParams.FractionalResolutionTruncated`).
- **A minimum at the left edge breaks the right window.** Suppose the only samples at or below a level are the first two. Then `rightPt - 2` is -1, Python reads that slice bound from the end, the right interpolation window is empty and np.interp raises ValueError (`Crossing.RightWindowWraps`).
- **Equal spans have no root.** Two inner wells with identical first and last times contain each other, so neither is a root (`Containment.EqualSpansHaveNoRoot`). When no two wells share both end points, a root always exists (`Containment.DistinctSpansHaveRoot`).

## Model

| member | source | states |
|---|---|---|
| Crossing.SliceBound | beam_dynamics/bucket.py:367-370 | a Python slice bound: kept when in range, counted from the end when negative, always clipped into [0, n] |
| Crossing.PySlice | beam_dynamics/bucket.py:367-370 | `s[lo:hi]` agrees with the plain subsequence whenever both bounds are in range |
| Crossing.Where | beam_dynamics/bucket.py:358 | `np.where(well <= p)[0]`: strictly ascending, and holds exactly the indices of samples at or below p |
| Crossing.CrossingPoints | beam_dynamics/bucket.py:352-365 | empty well gives ValueError; a level above the maximum or below zero gives InputError; otherwise IndexError iff no sample is at or below the level; `first`/`last` are the first and last samples at or below it; the clamped centres are `max(first, 2)` and `min(last, len-3)`, so the windows start at index 0 or later and end within the array |
| Crossing.NpInterp | beam_dynamics/bucket.py:367-370 | np.interp fails (ValueError) exactly on an empty table or tables of unequal length |
| Crossing.Linspace | beam_dynamics/bucket.py:375 | `np.linspace(a, b, n)` has n samples, starting at a and ending at b |
| Crossing.InterpTimeFromPotential | beam_dynamics/bucket.py:350-375 | crossing errors propagate unchanged; both crossing times when nPts is 0, else exactly nPts times; on an in-range level the only other failure is np.interp's ValueError |
| Crossing.InterpSucceeds | beam_dynamics/bucket.py:350-375 | on time and well of one length of at least five samples, a level in [0, max(well)] with a sample past the first two at or below it is crossed past index 1 and interpolates without error |
| Crossing.LastCrossingPastTwo | beam_dynamics/bucket.py:352-362 | such a level passes the range checks and its last crossing is at index 2 or later |
| Crossing.WindowsInterpolate | beam_dynamics/bucket.py:362-375 | a last crossing past index 1 on equally long arrays gives np.interp equal, non-empty windows on both sides |
| Crossing.LeftWindow | beam_dynamics/bucket.py:367-368 | `s[leftPt-2:leftPt+2][::-1]`; specified by `Crossing.WindowsInsideArrays` |
| Crossing.RightWindow | beam_dynamics/bucket.py:369-370 | `s[rightPt-2:rightPt+3]`; specified by `Crossing.WindowsInsideArrays` and `Crossing.RightWindowWraps` |
| Crossing.WindowsInsideArrays | beam_dynamics/bucket.py:362-370 | on a well of at least five samples whose last crossing is past index 1, both windows lie inside the arrays without wrap-around: the left holds 3 or 4 samples, the right exactly 5 |
| Crossing.RightWindowWraps | beam_dynamics/bucket.py:358-370 | when only the first two samples are at or below the level, the crossing is (0, 1), the right window is empty and the call raises ValueError |
| Overshoot.Clamped | beam_dynamics/bucket.py:398 | the clamp as a value; specified by `Overshoot.ClampedBounds` and `Overshoot.ClampIdempotent` |
| Overshoot.ClampedBounds | beam_dynamics/bucket.py:398 | after the clamp no sample exceeds the first; the length and the first sample are kept; samples at or below the first are unchanged and the others become the first |
| Overshoot.ClampIdempotent | beam_dynamics/bucket.py:398 | clamping a clamped well changes nothing |
| Overshoot.ClampOvershoot | beam_dynamics/bucket.py:398 | the in-place loop leaves the array equal to the clamp of its old contents, with every element at most the first and the small elements unchanged |
| Contour.ClosedContour | beam_dynamics/bucket.py:172-176 | both rows of a closed contour have twice as many entries as its inputs |
| Contour.ClosedContourShape | beam_dynamics/bucket.py:172-176 | 2n times and 2n energies; the first n entries are the inputs unchanged; times mirrored, `t[k] == t[2n-1-k]`; energies anti-mirrored, `e[2n-1-k] == -e[k]` |
| Contour.MirroredTime | beam_dynamics/bucket.py:172 | `time + time[::-1]` is mirrored |
| Contour.AntiMirroredEnergy | beam_dynamics/bucket.py:173-174 | `ub + (-ub[::-1])` is anti-mirrored |
| Contour.UpperHalfRoundTrip | beam_dynamics/bucket.py:172-176 | the first half of a closed contour gives back the time and bound it was built from |
| Contour.HalfHeight | beam_dynamics/bucket.py:181 | `np.max(separatrix[1])`; specified by `Contour.HalfHeightIsMaxBound` |
| Contour.BucketLength | beam_dynamics/bucket.py:183 | `time[-1] - time[0]`; specified by `Contour.LengthSpansSamples` and `Contour.ClosedContourLength` |
| Contour.BucketArea | beam_dynamics/bucket.py:182 | `2*np.trapz(ub, time)`; specified by `Contour.ClosedContourEmittance` |
| Contour.Center | beam_dynamics/bucket.py:184 | `np.mean(time)`; stored by `BucketModel.Bucket.BasicParameters` |
| Contour.HalfHeightIsMaxBound | beam_dynamics/bucket.py:181 | with a non-negative bound, half_height is the largest bound and bounds every separatrix energy in absolute value |
| Contour.LengthSpansSamples | beam_dynamics/bucket.py:183 | for ascending times the bucket length is non-negative and every sample lies within it from the first |
| Contour.BunchLength | beam_dynamics/bucket.py:522 | `np.max(outline[0]) - np.min(outline[0])`; specified by `Contour.ClosedContourLength` and `Contour.ZeroOutlineIsDegenerate` |
| Contour.BunchHeight | beam_dynamics/bucket.py:523 | `np.max(outline[1])`; specified by `Contour.ZeroOutlineIsDegenerate` |
| Contour.BunchEmittance | beam_dynamics/bucket.py:524 | `np.trapz(outline[1], outline[0])`; specified by `Contour.ClosedContourEmittance` and `Contour.ZeroOutlineIsDegenerate` |
| Contour.ZeroOutlineIsDegenerate | beam_dynamics/bucket.py:506-524 | the outline `[[0, 0], [0, 0]]` has zero bunch length, height and emittance |
| Contour.TrapzBackSweep | beam_dynamics/bucket.py:524 | np.trapz over the backward sweep at -bound equals np.trapz over the forward sweep |
| Contour.ClosedContourEmittance | beam_dynamics/bucket.py:522-524 | the emittance `_set_bunch` measures on a closed contour equals the area formula `2*trapz(ub, t)` of `basic_parameters` |
| Contour.ClosedContourLength | beam_dynamics/bucket.py:522 | the bunch length of a closed contour with ascending times is the bucket length `t[-1] - t[0]` |
| Containment.ContainsLists | beam_dynamics/bucket.py:73-77 | `contains[j]` is ascending and holds exactly the other wells whose first time is at or after j's and whose last time is at or before j's |
| Containment.ConcatOf | beam_dynamics/bucket.py:80-82 | the concatenated lists hold exactly the members of the lists of the wells named |
| Containment.ExcludeLists | beam_dynamics/bucket.py:79-82 | `exclude[j]` is the concatenation of `contains[c]` over c in `contains[j]`, in loop order |
| Containment.Without | beam_dynamics/bucket.py:86 | the filtered list is no longer, and holds exactly the members of s not in ex |
| Containment.WithoutKeepsOrder | beam_dynamics/bucket.py:86 | filtering an ascending list keeps it ascending |
| Containment.UseContLists | beam_dynamics/bucket.py:84-86 | `useCont[i]` is `contains[i]` without the members of `exclude[i]` |
| Containment.NextLayer | beam_dynamics/bucket.py:92-95 | `nextLayer` is ascending and holds exactly the wells that no `useCont` list holds |
| Containment.ChildListMembers | beam_dynamics/bucket.py:73-86 | the reference list of immediate children holds exactly the wells contained in b and not through another well b contains |
| Containment.RootListMembers | beam_dynamics/bucket.py:92-95 | the reference root list holds exactly the wells that are no well's immediate child |
| Containment.IncreasingUnique | beam_dynamics/bucket.py:92-95 | an ascending index list is determined by its members |
| Containment.SubstructureGraph | beam_dynamics/bucket.py:73-95 | the whole pass: every `useCont[b]` is the ascending list of b's immediate children, and `nextLayer` is the ascending list of roots |
| Containment.GrandchildIsNotChild | beam_dynamics/bucket.py:79-86 | with strict nesting A ⊃ B ⊃ C, C is not an immediate child of A |
| Containment.ThreeLevelNesting | beam_dynamics/bucket.py:73-95 | three strictly nested wells: each is the only immediate child of the next outer one, and only the outermost is a root |
| Containment.DisjointWellsAreRoots | beam_dynamics/bucket.py:92-95 | two wells whose spans do not overlap are both roots and neither is the other's child |
| Containment.EqualSpansHaveNoRoot | beam_dynamics/bucket.py:75-77 | two wells with identical end points are each other's immediate child and neither is a root |
| Containment.Outermost | beam_dynamics/bucket.py:92-95 | a well with the earliest start, with the latest stop among those starting there |
| Containment.DistinctSpansHaveRoot | beam_dynamics/bucket.py:92-98 | when no two wells share both end points, a non-empty set of inner wells has a root |
| BucketModel.SmoothAt | beam_dynamics/bucket.py:397 | the interpolant evaluated at every outline time, one sample per time |
| BucketModel.ContourOf | beam_dynamics/bucket.py:406-410 | the outline is the closed contour of the times and energies, and numpy's ValueError comes exactly when their lengths differ |
| BucketModel.LevelWell | beam_dynamics/bucket.py:397-398 | the interpolant at the outline times, clamped to the first sample; specified by `BucketModel.LevelOutlineShape` |
| BucketModel.LevelOutline | beam_dynamics/bucket.py:397-409 | the closed contour over the clamped well; specified by `BucketModel.LevelOutlineShape` and `BucketModel.Bucket.LevelOutlineOf` |
| BucketModel.OutlineAtLevel | beam_dynamics/bucket.py:396-409 | the crossing times at a level, then the outline through them; specified by `BucketModel.OutlineAtLevelShape` |
| BucketModel.EmittanceOutlineAt | beam_dynamics/bucket.py:471-490 | as `OutlineAtLevel`, except that InputError falls back to the bucket's own time and well; specified by `BucketModel.FallbackFillsBucket` and `BucketModel.Bucket.OutlineFromEmittance` |
| BucketModel.LevelOutlineShape | beam_dynamics/bucket.py:396-410 | an outline at a level has 2n samples, mirrored times and anti-mirrored energies, and an upper half equal to the crossing times and their energies; its clamped well never exceeds its first sample |
| BucketModel.LengthMismatch | beam_dynamics/bucket.py:385-392 | `len_func` scores the bucket length for a level outside the well, passes other crossing errors on, is never negative, and raises only IndexError or ValueError |
| BucketModel.EmittanceMismatch | beam_dynamics/bucket.py:447-466 | `emit_func` scores the bucket area for a level outside the well, is never negative, and raises only IndexError or ValueError |
| BucketModel.EmittanceOfLevelOutline | beam_dynamics/bucket.py:458-466 | the emittance measured on an outline at a level is the area `emit_func` compares with the target |
| BucketModel.SelectTarget | beam_dynamics/bucket.py:500-504 | InputError exactly when the number of given targets is not one; otherwise the one given target, with its value |
| BucketModel.BunchParameters | beam_dynamics/bucket.py:522-524 | the outline's `max - min` of times, max of energies and trapz, with ValueError exactly on an empty row |
| BucketModel.CheckLengths | beam_dynamics/bucket.py:47-52 | InputError exactly when time and well have different lengths |
| BucketModel.NewBucket | beam_dynamics/bucket.py:34-68 | raw samples of unequal length give InputError; otherwise a fresh primary bucket whose loaded and current samples are the outer well and whose beta, energy and eta are the arguments, with that well's separatrix, basic parameters and fully wired substructure |
| BucketModel.Bucket.Sub | beam_dynamics/bucket.py:34-45 | a sub-bucket keeps only beta, energy, eta and its samples; its `sub_buckets` and `hasSubs` start out empty and false (see "Left out") |
| BucketModel.Bucket.Primary | beam_dynamics/bucket.py:54-66 | the primary bucket holds the outer well as loaded and current samples, its separatrix and basic parameters, and the inner wells |
| BucketModel.Bucket.CalcSeparatrix | beam_dynamics/bucket.py:164-176 | the upper energy bound is that of the current well, and the separatrix is its closed contour |
| BucketModel.Bucket.BasicParameters | beam_dynamics/bucket.py:179-184 | half height, area, length and centre are those of the separatrix and samples |
| BucketModel.Bucket.InnerBuckets | beam_dynamics/bucket.py:135-149 | one closed contour per (time, well) pair that `zip` forms, in order |
| BucketModel.Bucket.IdentifySubstructure | beam_dynamics/bucket.py:71-111 | one fresh, distinct sub-bucket per inner well; the primary's sub-buckets are the roots' buckets in order; each sub-bucket's are its immediate children's, or none when there are no roots |
| BucketModel.Bucket.WireRoots | beam_dynamics/bucket.py:97-111 | with roots present, the wiring satisfies all three wiring predicates |
| BucketModel.Bucket.MakeSubBuckets | beam_dynamics/bucket.py:88-90 | the `bucketDict`: one distinct fresh sub-bucket per inner well holding that well, unwired |
| BucketModel.Bucket.WireChildren | beam_dynamics/bucket.py:106-111 | every sub-bucket's sub-buckets are those its `useCont` list names, `hasSubs` is whether the list is non-empty; their samples are kept |
| BucketModel.Bucket.SmoothWell | beam_dynamics/bucket.py:152-161 | without a sample count nothing changes; with one, time is the linspace over the loaded span and well the interpolant there |
| BucketModel.Bucket.LevelOutlineOf | beam_dynamics/bucket.py:396-410 | the array clamp followed by the contour gives the outline at the crossing times |
| BucketModel.Bucket.OutlineFromLength | beam_dynamics/bucket.py:378-410 | a target longer than the bucket gives BunchSizeError before any search; otherwise an error raised by `len_func` during the search escapes, and without one the outline is the one at the level the search reports |
| BucketModel.Bucket.OutlineFromHeight | beam_dynamics/bucket.py:413-437 | a target above the half height gives BunchSizeError; otherwise the outline at the target height's potential |
| BucketModel.HeightLevel | beam_dynamics/bucket.py:420 | `target_height**2*eta/(2*beta**2*energy)`; specified by `BucketModel.Bucket.OutlineFromHeight` |
| BucketModel.Bucket.OutlineFromEmittance | beam_dynamics/bucket.py:440-490 | a target over the area gives BunchSizeError before any search; otherwise an error raised by `emit_func` during the search escapes, and without one the outline is the one at the reported level, or the bucket's own unclamped contour when that level is out of range |
| BucketModel.Bucket.ChooseOutline | beam_dynamics/bucket.py:506-520 | the outline `_set_bunch` settles on is `BunchOutline`: the single target's outline method, with its capacity check and the errors of its search, or the degenerate outline for a zero target |
| BucketModel.Bucket.BunchOutline | beam_dynamics/bucket.py:506-520 | the outline `_set_bunch` settles on; specified by `BucketModel.Bucket.ChooseOutline`, `BucketModel.ZeroTargetIsDegenerate`, `BucketModel.OverCapacityIsRefused`, `BucketModel.FallbackFillsBucket`, `BucketModel.LengthTargetOutline` and `BucketModel.GuessWithoutCrossingFails` |
| BucketModel.Bucket.BunchFor | beam_dynamics/bucket.py:497-524 | the bunch parameters `_set_bunch` stores, or its error; specified by `BucketModel.Bucket.SetBunch`, `BucketModel.NotExactlyOneIsRefused` and `BeamParams.SizeErrorOnlyOverArea` |
| BucketModel.Bucket.SetBunch | beam_dynamics/bucket.py:497-524 | on success the bunch length, height and emittance are those `BunchFor` gives; on an error that error is reported and nothing is stored |
| BucketModel.Bucket.StoreBunch | beam_dynamics/bucket.py:522-524 | the parameters of an outline are stored, or its error reported with the fields kept |
| BucketModel.NotExactlyOneIsRefused | beam_dynamics/bucket.py:500-504 | any number of targets but one is refused with InputError |
| BucketModel.ZeroTargetIsDegenerate | beam_dynamics/bucket.py:506-519 | a zero target takes the outline `[[0, 0], [0, 0]]` whatever the searches would do, and gives zero bunch length, height and emittance |
| BucketModel.OverCapacityIsRefused | beam_dynamics/bucket.py:378-445 | a non-zero target over the bucket's length, area or half height is refused with BunchSizeError whatever the searches would do |
| BucketModel.FallbackFillsBucket | beam_dynamics/bucket.py:471-490 | when the emittance search succeeds and reports a level outside the well, the outline is the separatrix and the bunch has the separatrix's length, the bucket's half height and the bucket's area |
| BucketModel.OutlineAtLevelShape | beam_dynamics/bucket.py:396-410 | a successful outline at a level with n points has 2n times, mirrored, and anti-mirrored energies |
| BucketModel.LengthTargetOutline | beam_dynamics/bucket.py:506-510 | within capacity a length target fails with its search's error, or its outline is the outline at the reported level, with 2000 samples, mirrored times and anti-mirrored energies |
| BucketModel.Minimized | beam_dynamics/bucket.py:394-395 | the objective at each probe in turn, the first error escaping; on success the reported level; the rest is in `BucketModel.MinimizedFirstError` |
| BucketModel.MinimizedFirstError | beam_dynamics/bucket.py:394-395 | the minimiser succeeds iff the objective succeeds at every probe, and otherwise fails with the error of the first failing probe |
| BucketModel.InitialGuess | beam_dynamics/bucket.py:394 | `np.max(self.well)/2`; specified by `BucketModel.SearchFromOutcome` and `BucketModel.GuessWithoutCrossingFails` |
| BucketModel.SearchFrom | beam_dynamics/bucket.py:394-395 | the search from the initial guess over the run's probes; specified by `BucketModel.SearchFromOutcome` |
| BucketModel.SearchFromOutcome | beam_dynamics/bucket.py:394-395 | a search succeeds iff the objective succeeds at the guess `np.max(well)/2` and at every later probe, reporting the run's level; an error at the guess escapes as it is |
| BucketModel.LengthSearch | beam_dynamics/bucket.py:385-395 | the length search reports the run's level, or fails with the IndexError or ValueError `len_func` lets through |
| BucketModel.EmittanceSearch | beam_dynamics/bucket.py:447-469 | the emittance search reports the run's level, or fails with the IndexError or ValueError `emit_func` lets through |
| BucketModel.LengthOutline | beam_dynamics/bucket.py:394-409 | the length search, then the outline at its level; specified by `BucketModel.Bucket.OutlineFromLength` and `BucketModel.LengthTargetOutline` |
| BucketModel.EmittanceOutline | beam_dynamics/bucket.py:468-490 | the emittance search, then the outline at its level or the fallback; specified by `BucketModel.Bucket.OutlineFromEmittance` and `BucketModel.FallbackFillsBucket` |
| BucketModel.GuessWithoutCrossingFails | beam_dynamics/bucket.py:385-395 | when every sample of a well with a positive maximum lies above half that maximum, a length or emittance target within capacity fails with IndexError, whatever the rest of the run |
| BucketModel.WiredMeaning | beam_dynamics/bucket.py:97-111 | after wiring, `hasSubs` holds iff some well is a root; a bucket is a sub-bucket of the primary iff its well is a root; and of another sub-bucket iff it is that well's immediate child and the primary has roots |
| BucketModel.DistinctSpansGiveSubBuckets | beam_dynamics/bucket.py:92-100 | with at least one inner well and no two sharing both end points, the primary has sub-buckets |
| BeamParams.Trunc | interfaces/beam/beam_parameters.py:43 | Python's `int()`: truncation toward zero, within 1 of the argument |
| BeamParams.Range | interfaces/beam/beam_parameters.py:25 | `list(range(n))` has n entries, entry k being k |
| BeamParams.Configure | interfaces/beam/beam_parameters.py:24-45 | the `__init__` validation and defaults; specified by `BeamParams.ConfigureOutcome` and `BeamParams.FractionalResolutionTruncated` |
| BeamParams.ConfigureOutcome | interfaces/beam/beam_parameters.py:24-52 | ZeroDivisionError iff the default coordinate meets a zero divisor; InputError iff, past that, the divisor is not integral; ValueError iff the truncated resolution is negative; the stored samples, coordinates, divisor and truncated resolution are the defaults or the arguments |
| BeamParams.FractionalResolutionTruncated | interfaces/beam/beam_parameters.py:42-45 | a fractional non-negative resolution is accepted and rounded down |
| BeamParams.TimeBounds | interfaces/beam/beam_parameters.py:237-243 | the bounds fail exactly on a zero divisor |
| BeamParams.TimeBoundsSpan | interfaces/beam/beam_parameters.py:237-243 | for positive period and divisor the window straddles zero, is `1.2*t_rev/hd` wide and starts at `-0.1*t_rev/hd` |
| BeamParams.Offsets | interfaces/beam/beam_parameters.py:147 | `np.abs(prev - locs)` element by element |
| BeamParams.FirstMinimum | interfaces/beam/beam_parameters.py:148 | the first index of `np.where(o == np.min(o))` is where o first takes its minimum |
| BeamParams.FirstClosest | interfaces/beam/beam_parameters.py:147-148 | a left-to-right scan for the closest of the first n locations, returning an index below n; specified by `BeamParams.FirstClosestIsClosest` and `BeamParams.NearestIndexIsWhere` |
| BeamParams.FirstClosestIsClosest | interfaces/beam/beam_parameters.py:147-148 | the scan's pick among the first n locations: none of them is closer to prev, and none before it is as close |
| BeamParams.NearestIndex | interfaces/beam/beam_parameters.py:147-148 | ValueError iff there are no locations; otherwise an index into them |
| BeamParams.NearestIndexIsClosest | interfaces/beam/beam_parameters.py:147-148 | the index is that of a closest location, and no earlier location is as close |
| BeamParams.NearestIndexIsWhere | interfaces/beam/beam_parameters.py:147-148 | `np.where(offsets == np.min(offsets))` is non-empty and its first entry is the scan's index |
| BeamParams.Nearest | interfaces/beam/beam_parameters.py:147-150 | ValueError iff there are no minima; otherwise the new location is one of them |
| BeamParams.NearestIsClosest | interfaces/beam/beam_parameters.py:147-150 | no minimum is strictly closer to the previous location than the new one |
| BeamParams.NearestKeepsMinimum | interfaces/beam/beam_parameters.py:161-163 | a particle already on a minimum stays there |
| BeamParams.StartPoint | interfaces/beam/beam_parameters.py:138-139 | the start point is a sample of the first window |
| BeamParams.StartPointMeaning | interfaces/beam/beam_parameters.py:138-139 | IndexError iff every sample is after the coordinate; otherwise the sample is at or before it and every later one after it |
| BeamParams.InitialPosition | interfaces/beam/beam_parameters.py:136-150 | start-point errors and empty minima propagate; a placement is one of the first sample's minima |
| BeamParams.Placements | interfaces/beam/beam_parameters.py:136-150 | one initial position per start coordinate |
| BeamParams.FirstError | interfaces/beam/beam_parameters.py:136-150 | none iff every entry from p on succeeded; otherwise the error of some entry |
| BeamParams.FirstErrorAt | interfaces/beam/beam_parameters.py:136-150 | the first error is that of the first failing entry |
| BeamParams.BeamParameters.constructor | interfaces/beam/beam_parameters.py:24-52 | the validated settings are stored; the particle count, tracks array and dict start from defaults (see "Left out") |
| BeamParams.TrackOutcome | interfaces/beam/beam_parameters.py:109-163 | the error `track_synchronous` raises: the first placement error, then ValueError for a later sample without minima; specified by `BeamParams.BeamParameters.TrackSynchronous`, whose error result it is |
| BeamParams.BeamParameters.TrackSynchronous | interfaces/beam/beam_parameters.py:109-163 | the error raised is `TrackOutcome`; a fresh zero array from sample 0, the same array otherwise; each particle's first sample is its initial position and every later sample after the start is the minimum nearest the one before; no other cell changes |
| BeamParams.BeamParameters.PlaceParticles | interfaces/beam/beam_parameters.py:136-150 | the first placement error is raised; else every particle's first sample is its placement; no other cell changes |
| BeamParams.BeamParameters.FollowMinima | interfaces/beam/beam_parameters.py:154-163 | ValueError iff some sample after the start has no minimum; else every later sample of every particle is the minimum nearest its previous one; other cells unchanged |
| BeamParams.FollowRow | interfaces/beam/beam_parameters.py:155-163 | one particle followed from the sample after the start on: ValueError only when some later sample has no minimum; otherwise each later cell of its row is the minimum nearest the cell before; no other cell changes |
| BeamParams.Insert | interfaces/beam/beam_parameters.py:177 | `d[k] = v` changes only k's value; an existing key keeps its place and a new key goes last |
| BeamParams.InsertShape | interfaces/beam/beam_parameters.py:177 | insertion keeps the key order duplicate-free and in step with the mapping |
| BeamParams.InsertAll | interfaces/beam/beam_parameters.py:174-177 | `d[k] = v` for each entry in turn; specified by `BeamParams.InsertAllShape`, `BeamParams.InsertAllStores` and `BeamParams.InsertAllOrder` |
| BeamParams.InsertAllShape | interfaces/beam/beam_parameters.py:174-177 | so does a sequence of insertions |
| BeamParams.InsertAllSnoc | interfaces/beam/beam_parameters.py:177 | inserting one more entry is one more `d[k] = v` |
| BeamParams.InsertAllAppend | interfaces/beam/beam_parameters.py:174-177 | inserting a + b is inserting a, then b |
| BeamParams.InsertAllCovers | interfaces/beam/beam_parameters.py:174-177 | every key in the order stays mapped through the insertions |
| BeamParams.Row | interfaces/beam/beam_parameters.py:176-177 | one sample's entries: key (s, p) with that sample's p-th bucket |
| BeamParams.Column | interfaces/beam/beam_parameters.py:174-177 | one particle's buckets over the first n samples, in sample order |
| BeamParams.KeysOf | interfaces/beam/beam_parameters.py:174-177 | the keys of a list of entries, in order |
| BeamParams.Entries | interfaces/beam/beam_parameters.py:174-177 | the (s, p) entries of `calc_buckets`, sample-major; specified by `BeamParams.EntriesGrid`, `BeamParams.EntriesDistinct` and `BeamParams.EntryAt` |
| BeamParams.EntriesInGrid | interfaces/beam/beam_parameters.py:174-177 | every inserted entry is some (s, p) below the bounds, holding sample s's bucket for particle p |
| BeamParams.EntriesDistinct | interfaces/beam/beam_parameters.py:174-177 | no key is inserted twice |
| BeamParams.EntriesGrid | interfaces/beam/beam_parameters.py:174-177 | the inserted entries have distinct keys, and each holds that sample's bucket for that particle |
| BeamParams.EntryAt | interfaces/beam/beam_parameters.py:174-177 | every (sample, particle) below the bounds is the key of some inserted entry |
| BeamParams.InsertAllStores | interfaces/beam/beam_parameters.py:174-177 | inserting entries with distinct keys leaves each entry's bucket at its key |
| BeamParams.InsertAllOrder | interfaces/beam/beam_parameters.py:174-177 | into an empty dict the keys land in insertion order |
| BeamParams.GridStored | interfaces/beam/beam_parameters.py:167-177 | after inserting the grid into any dict, every (s, p) holds the p-th bucket of sample s |
| BeamParams.StoredGrid | interfaces/beam/beam_parameters.py:167-177 | the same, and from an empty dict the keys are sample-major, all mapped, and each particle's buckets come out in sample order |
| BeamParams.BeamParameters.CalcBuckets | interfaces/beam/beam_parameters.py:167-177 | the new dict is the old one with the grid inserted, every (s, p) holds the p-th bucket of sample s, and from an empty dict the keys are sample-major and `buckets_by_particle(p)` is that particle's buckets in sample order |
| BeamParams.BeamParameters.StoreSample | interfaces/beam/beam_parameters.py:176-177 | the inner loop leaves the dict with one sample's row of entries inserted |
| BeamParams.BucketsByParticle | interfaces/beam/beam_parameters.py:436-437 | every bucket listed is stored under a key of that particle |
| BeamParams.ByParticleAppend | interfaces/beam/beam_parameters.py:436-437 | the filter distributes over concatenated key lists |
| BeamParams.ByParticleRow | interfaces/beam/beam_parameters.py:436-437 | of one sample's keys only the particle's own is kept |
| BeamParams.ByParticleGrid | interfaces/beam/beam_parameters.py:436-437 | over the grid, the filter gives the particle's buckets sample by sample |
| BeamParams.SizeErrorOnlyOverArea | beam_dynamics/bucket.py:511-515 | the emittance setter raises BunchSizeError iff the request is non-zero and over the bucket's area |
| BeamParams.Filled | interfaces/beam/beam_parameters.py:377-389 | the over-fill try/except for one bucket; specified by `BeamParams.OverFillPolicy` |
| BeamParams.OverFillPolicy | interfaces/beam/beam_parameters.py:377-389 | with over_fill no BunchSizeError escapes and an over-area request fills the bucket to its area; without it, or within the area, the setter's outcome is passed on unchanged |
| BeamParams.FillEmittance | interfaces/beam/beam_parameters.py:377-389 | the bucket takes the bunch that `Filled` gives, or reports its error with the bunch fields unchanged |
| BeamParams.FillAt | interfaces/beam/beam_parameters.py:377-389 | the same step on the b-th bucket of the list, against its outcome computed before the loop; on an error that bucket keeps its bunch; the other buckets' outcomes stay what they were |
| BeamParams.FillParticle | interfaces/beam/beam_parameters.py:373-389 | one particle's buckets in order: no error iff every bucket's outcome succeeds, then each bucket holds its outcome; otherwise the error is that of the first failing bucket, every bucket before it holds its outcome, and it and every later bucket keep their old bunch |

## Left out

- The square root of `pot.potential_to_hamiltonian`, the cubic interpolant `_well_smooth_func`, and `np.interp` values are external numerics. They are parameters (`BucketModel.Numerics`). Only np.interp's error conditions are modelled.
- The Nelder-Mead minimiser (`opt.minimize`) is not modelled. Each search is an input `BucketModel.Search`: the levels the run probed after its initial guess, in order, and the level it reported. The model evaluates the objectives `len_func` and `emit_func` at the guess `np.max(well)/2` and at each probe, so an error they raise escapes as in the source; which levels a real run probes, and that the reported level is a minimum, are not modelled.
- `pot.sort_potential_wells` is an unseen helper. Its output (the outer well and the inner wells) is the input of `BucketModel.NewBucket`. The raw samples are used only to compare their lengths.
- BucketModel.NewBucket assumes that output is non-empty: the outer well and every inner well have at least one sample, and the outer well's energies are as long as its times. An empty outer well, where numpy's max raises ValueError in `basic_parameters` (`beam_dynamics/bucket.py:181`), and an empty inner well, where `times[-1]` raises IndexError (`beam_dynamics/bucket.py:73-75`), are not modelled.
- BucketModel.Bucket.Sub gives a sub-bucket `sub_buckets == []` and `hasSubs == false`. The source's `isSub` branch returns before setting them (`beam_dynamics/bucket.py:40-45`), and when no inner well is a root `_identify_substructure` returns (`beam_dynamics/bucket.py:97-102`) without setting them on the inner buckets, so reading them there raises AttributeError. That AttributeError is not modelled; BucketModel.Bucket.IdentifySubstructure leaves the inner buckets with these defaults in that case.
- `frequency_spread`, `_frequency_spread`, `_inner_max`, `_inner_start` and `_inner_stop` are left out. They are plotting, `sys.exit` and spline root finding, with NaN results.
- `make_profiles` and `compute_action` rely on the unseen distribution module.
- Plots and `warnings.warn` messages are output only.
- `is not times` in `contains` is object identity. It is modelled as index inequality, since the wells are distinct list entries.
- BucketModel.Bucket.SetBunch, BucketModel.Bucket.ChooseOutline and BucketModel.Bucket.OutlineFromHeight require a non-zero beta and energy. The height target's potential divides by them, and the float division the code does is not modelled.
- BucketModel.Bucket.SmoothWell leaves out the `reinterp` argument (`beam_dynamics/bucket.py:152-156`). The model's interpolant is one fixed function of the loaded samples, so rebuilding it changes nothing. The sample count is a `nat`, so np.linspace's ValueError on a negative count is not modelled.
- BucketModel.Bucket.OutlineFromLength, OutlineFromEmittance and the level functions require `nPts > 0`. This does not limit the model, because `_set_bunch` always asks for 1000 points.
- BucketModel.Bucket.WireChildren states that the samples and constants of the sub-buckets are kept. It does not state that their bunch fields are kept, so it is weaker than "no other field changes".
- BeamParams.ConfigureOutcome and BeamParams.TimeBounds report a zero `harmonic_divide` as ZeroDivisionError. With a numpy float period, the code would instead produce an infinity and a warning.
- The `init_coord is None` branch of `track_synchronous` is dead code, since `__init__` always sets `init_coord`. It is not modelled.
- The `bDat` unit-tagged containers are plain arrays and values here. This covers the `particle_tracks` array type, the `bunch_emittance` reshape, and the `heights`/`areas`/`lengths`/`bunch_*` arrays `bucket_parameters` fills. Those array stores are not modelled.
- `calc_potential_wells`, `sample_potential_well`, `_calc_volts`, `_get_pars`, `calc_well`, `cut_well`, `create_particle_bucket` and `create_sample_buckets` are ring, RF and unseen potential helpers. The time windows, the minimum locations of `calc.minmax_location_cubic` and the sample buckets are inputs. The wells behind them are not part of this model.
- `full_update` and the `calc_params` composition in `__init__` only call the modelled steps in sequence, and are not modelled.
- BeamParams.BeamParameters.constructor gives `nParticles` 0, a 0×0 `tracks` array and an empty `buckets` dict. The source sets none of these in `__init__` itself: `particle_tracks` and `n_particles` are first set by `track_synchronous` (`interfaces/beam/beam_parameters.py:119, 132`), and `buckets` only under `calc_params` (`interfaces/beam/beam_parameters.py:67`). Reading them before that raises AttributeError, which is not modelled. The empty dict stands for the `self.buckets = {}` the source runs just before each `calc_buckets` (`interfaces/beam/beam_parameters.py:67, 76`); the empty-dict conclusions of BeamParams.BeamParameters.CalcBuckets are stated under that reset.
- BeamParams.BeamParameters.TrackSynchronous requires an array at least as large as the particles and samples when restarting from a later sample. The IndexError numpy would raise on a smaller array is not modelled.
- On an error, BeamParams.BeamParameters.TrackSynchronous does not state which cells the loops had already written.
- BeamParams.BeamParameters.TrackSynchronous computes the placements before its first loop. The source calls the minimum finder inside the loop, but the finder is pure, so the values are the same.
- BeamParams.FillParticle covers one particle's buckets. The outer loop of `bucket_parameters` over the particles repeats it on disjoint bucket lists. The `update_bunch_parameters=False` path only reads fields, and is not modelled.
- BeamParams.FillParticle requires the buckets to be distinct objects. `buckets_by_particle` returns one bucket per sample, each made fresh by `create_particle_bucket`, so this holds.
- BeamParams.FillParticle and BeamParams.FillAt take the outcomes `Filled` gives each bucket before the loop as a ghost argument. Their precondition ties that argument to the buckets; since each step writes only its own bucket's bunch fields, the outcomes of the buckets still to come do not change.
- All arithmetic is on mathematical reals. Floating-point rounding, infinities and NaN are not modelled.
