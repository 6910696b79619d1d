# SORT tracker — a Dafny model

This project models the SORT multi-object tracker of `project/src/tracker.py`
(Simple Online and Realtime Tracking, Bewley et al., 2016) and proves properties of it.
The model keeps the tracker's per-frame data flow:

1. Predict every motion record.
2. Drop the records whose predicted box is not a number.
3. Associate the detections with the remaining predicted boxes by intersection over union.
4. Correct the matched records.
5. Create one record per unmatched detection.
6. Walk the list from its end, dropping dead records and reporting snapshots of the confirmed ones.

Modules, one per part of the program:

- `Geometry` (`geometry.dfy`):
  - corner boxes and the `[cx, cy, s, r]` measurement;
  - `_iou`, `_bbox_to_z` and `_z_to_bbox`;
  - `Track.get_center`.
- `Records` (`records.dfy`): the detector's `Detection` record and the returned `Track` snapshot.
- `Seqs` (`seqs.dfy`): list helpers:
  - masking rows out (numpy's `compress_rows`);
  - the `to_del` index list;
  - `list.pop(i)` for several indices.
- `Motion` (`motion.dfy`): `KalmanBoxTracker` as a class whose fields `predict` and `update` change in place.
  - The state mean is a 7-field datatype.
  - The constant-velocity matrix F is included.
  - The process-wide id counter `KalmanBoxTracker.count` is one `IdCounter` object shared by every record and every tracker.
- `Association` (`association.dfy`): `_associate_detections_to_tracks`.
  - The loops that build the IoU matrix, filter the solver's proposal by the threshold and collect the unmatched indices are methods.
  - Each method is proved equal to a function (`Associated`), and the properties are lemmas about that function.
- `Lifecycle` (`lifecycle.dfy`): one call of `Tracker.update` as a function of values, `Step`.
  - It maps the records' states, the frame counter and the id counter to their new values and the returned snapshots.
  - The lemmas state what one update does.
- `Sort` (`tracker.dfy`): the `Tracker` class.
  - `Update` changes the shared record objects in place, loop by loop. The list operations (`pop(t)`, `append`, `pop()`) run on a local copy of the record list, which `Commit` installs as the new list at the end.
  - It is proved to leave exactly the state `Step` describes and to return exactly its snapshots.

Behaviour that follows the code rather than the comments:

- Dead records leave from the tail of the list. In the output loop, `self.trackers.pop()` removes the last list entry, not the visited record.
  - After the loop the list is its first `n - d` entries, where `d` counts the visited records with `time_since_update > max_age` (`Survivors`).
  - The loop is modelled on the list iterator of `reversed`. Its position moves down by one per step, and it stops as soon as that position falls outside the shrinking list.
- Label and confidence come from the detection matched to the record's list position in this frame. Otherwise they are `"unknown"` and `0.0`.
  - A record created in this frame is therefore reported with `"unknown"` (`SpawnedReported`, `FirstDetection`): its position is never among the matches.
- Each snapshot is a fresh `Track`, so its history holds exactly one point, the box centre. The 30-point cap can never apply.

Parameters instead of foreign code:

- `sqrt: real -> real` stands for `np.sqrt`. Lemmas that need its meaning require `IsSqrt(sqrt)`: for `x >= 0`, `sqrt(x) >= 0` and `sqrt(x) * sqrt(x) == x`.
- `correct: (Mean, Measurement) -> Mean` stands for filterpy's Kalman correction inside `update`.
- `solve` stands for scipy's `linear_sum_assignment` on the negated IoU matrix. `IsSolver(solve)` states what the tracker relies on: for an `n x k` matrix it returns `min(n, k)` pairs, in range, with rows ascending and no row or column used twice.

## Model

| member | source | states |
|---|---|---|
| Geometry.Center | project/src/tracker.py:54-57 | the midpoint is equidistant from both corners on each axis and lies between them when the corners are ordered |
| Geometry.IoUSymmetric | project/src/tracker.py:401-430 | IoU(a, b) == IoU(b, a) |
| Geometry.IntersectionBounded | project/src/tracker.py:413-420 | the intersection area is non-negative and, when positive, at most either box's area |
| Geometry.IoUInUnitInterval | project/src/tracker.py:401-430 | 0 <= IoU(a, b) <= 1 for all boxes |
| Geometry.IoUIdentical | project/src/tracker.py:401-430 | a box of positive width and height has IoU 1 with itself |
| Geometry.IoUZero | project/src/tracker.py:420-428 | boxes separated along an axis, or a union that is not positive, give IoU 0 |
| Geometry.IoUHalfOverlapExample | project/src/tracker.py:401-430 | IoU([100,100,200,200], [150,100,250,200]) == 1/3 |
| Geometry.BBoxToZ | project/src/tracker.py:123-142 | the measurement holds the box centre and the area; r * h == w when h > 0, and r == 1 otherwise |
| Geometry.BBoxToZExample | project/src/tracker.py:136-142 | [100,100,200,200] becomes (150, 150, 10000, 1) |
| Geometry.ZToBBox | project/src/tracker.py:144-162 | the box is centred on (cx, cy); with a positive width its area is s; without one its height is 0; for a real square root the width squared is s * r |
| Geometry.SqrtOfSquare | project/src/tracker.py:155 | the square root of w * w is w for w > 0 |
| Geometry.RoundTripSides | project/src/tracker.py:136-156 | for a box with w, h > 0, the square root of s * r is w and s / w is h |
| Geometry.BoxRoundTrip | project/src/tracker.py:123-162 | _z_to_bbox(_bbox_to_z(b)) == b for every box with positive width and height |
| Motion.TransitionIsF | project/src/tracker.py:84-92 | the mean step equals the product F x with the constant-velocity matrix |
| Motion.Dot7 | project/src/tracker.py:84-92 | a 7-entry dot product is the sum of its seven products |
| Motion.MatVecAt | project/src/tracker.py:84-92 | entry i of m x is row i of m dotted with x |
| Motion.ClampScaleVelocity | project/src/tracker.py:171-173 | vs becomes 0 exactly when s + vs <= 0; nothing else changes |
| Motion.InitialMean | project/src/tracker.py:113-114 | a new mean holds the box's measurement and zero velocities |
| Motion.StateBox | project/src/tracker.py:196-203 | get_state's box is centred on the mean's centre |
| Motion.PredictEffect | project/src/tracker.py:164-182 | predict keeps id and hits and adds 1 to age and time_since_update; hit_streak becomes 0 when time_since_update was positive and is kept otherwise; cx, cy and s advance by their velocities after the scale guard, and r and the velocities stay |
| Motion.PredictScaleGuard | project/src/tracker.py:171-175 | after the guard the predicted scale is positive or unchanged; a positive scale stays positive |
| Motion.NewStateBox | project/src/tracker.py:113-114 | a new record's get_state returns the box it was created from, for w > 0 and h > 0 |
| Motion.IdCounter.constructor | project/src/tracker.py:71 | the class counter starts at 0 |
| Motion.KalmanBoxTracker.constructor | project/src/tracker.py:73-121 | the new record takes the counter's value as id, has zero counters and the box's initial mean, and the counter goes up by 1 |
| Motion.KalmanBoxTracker.Predict | project/src/tracker.py:164-182 | the record's new state is the predicted state of its old one, and the returned box is that state's box |
| Motion.KalmanBoxTracker.Update | project/src/tracker.py:184-194 | time_since_update becomes 0, hits and hit_streak go up by 1, age is kept, and the mean is the correction of the old mean by the box's measurement |
| Motion.KalmanBoxTracker.GetState | project/src/tracker.py:196-203 | the box of the current mean, centred on its centre |
| Association.IoUMatrix | project/src/tracker.py:347-351 | one row per detection and one column per box, each entry the IoU of that pair |
| Association.BuildIoUMatrix | project/src/tracker.py:347-351 | the nested loop fills exactly the IoU matrix |
| Association.SolverProposal | project/src/tracker.py:353-359 | a solver meeting its contract proposes in-range pairs with no row or column twice, and nothing is proposed for an empty dimension |
| Association.SplitProposal | project/src/tracker.py:361-371 | the threshold loop returns the accepted pairs in order, and the rows and columns of the rejected pairs |
| Association.AppendMissing | project/src/tracker.py:373-391 | the loop appends, in ascending order, the indices below n that the proposal does not use |
| Association.Associate | project/src/tracker.py:324-399 | the method returns exactly the function Associated, including the early return for zero boxes |
| Association.MissingMembers | project/src/tracker.py:379-391 | an index is collected as unused exactly when it is below n and not used |
| Association.SplitCount | project/src/tracker.py:366-371 | accepted and rejected pairs together use each proposed row (column) exactly as often as the proposal does |
| Association.AcceptedMembers | project/src/tracker.py:366-371 | every accepted pair is proposed and has IoU at or above the threshold |
| Association.RejectedMembers | project/src/tracker.py:366-371 | every rejected pair is proposed and has IoU below the threshold |
| Association.SplitIff | project/src/tracker.py:366-371 | a proposed pair is accepted if and only if its IoU is at or above the threshold, and rejected if and only if it is below |
| Association.AcceptedInjective | project/src/tracker.py:366-371 | the accepted pairs of a one-to-one proposal are one-to-one |
| Association.AssociatedNoTrackers | project/src/tracker.py:340-345 | with zero boxes: no matches, no unmatched boxes, and the detection indices 0..N-1 in order as unmatched |
| Association.AssociatedNoDetections | project/src/tracker.py:324-399 | with zero detections: no matches, no unmatched detections, and every box index in order as unmatched |
| Association.AssociatedSound | project/src/tracker.py:361-399 | every match is a proposed pair with IoU at or above the threshold, and every returned index is in range |
| Association.AssociatedComplete | project/src/tracker.py:361-399 | every proposed pair with IoU at or above the threshold is a match, and the detection and tracker indices of every proposed pair below it are reported unmatched |
| Association.AssociatedPartition | project/src/tracker.py:361-399 | for a one-to-one proposal the matches are one-to-one, and each detection (box) index occurs exactly once among matches and unmatched detections (boxes) |
| Seqs.TrueIndices | project/src/tracker.py:238-244 | to_del holds exactly the flagged positions, strictly ascending, and can be popped from the highest down |
| Seqs.PopAllIsKeep | project/src/tracker.py:246-249 | popping the flagged positions from the highest down leaves exactly the unflagged entries in order, as compress_rows does for the box rows |
| Seqs.KeepDistinct | project/src/tracker.py:246-249 | removing entries keeps distinct entries distinct |
| Lifecycle.KeepBoxes | project/src/tracker.py:246-247 | masking box rows equals taking the boxes of the masked records |
| Lifecycle.LiveNotFresh | project/src/tracker.py:236-249 | every record surviving the prediction step has time_since_update > 0, and none is added |
| Lifecycle.LiveIds | project/src/tracker.py:236-249 | the prediction step keeps ids distinct and below the counter |
| Lifecycle.Assign | project/src/tracker.py:251-254 | the association of the live boxes gives in-range, one-to-one matches and in-range unmatched detections |
| Lifecycle.ApplyMatchesAt | project/src/tracker.py:256-259 | a matched record received its detection's update and an unmatched record is untouched |
| Lifecycle.ApplyMatchesFresh | project/src/tracker.py:256-259 | after the update loop, a record that had gone without an update has time_since_update 0 exactly when it was matched |
| Lifecycle.Spawned | project/src/tracker.py:261-264 | one new record per unmatched detection, with consecutive ids from the counter |
| Lifecycle.ExtendEffect | project/src/tracker.py:256-264 | the list before the output loop: updated matched records, untouched unmatched ones, then the new records at the end |
| Lifecycle.ExtendIds | project/src/tracker.py:261-264 | new ids keep all ids distinct and below the advanced counter |
| Lifecycle.DeadFromSpec | project/src/tracker.py:273-277 | nothing is popped exactly when no visited record is dead, and everything exactly when all are |
| Lifecycle.EmittedIndicesSpec | project/src/tracker.py:270-280 | the reported positions are exactly those whose record is alive and confirmed, and they descend |
| Lifecycle.MatchedDetectionSpec | project/src/tracker.py:281-291 | the first match for a position gives its label and confidence; with none, "unknown" and 0.0 |
| Lifecycle.SnapshotContents | project/src/tracker.py:293-316 | a snapshot copies id, age, hits, time_since_update and velocity, holds the predicted box and one history point at its centre, and carries the matched detection's label, or "unknown" |
| Lifecycle.EmittedOrder | project/src/tracker.py:266-322 | the snapshots are those of the alive and confirmed records, from the end of the list towards its start |
| Lifecycle.EmittedIff | project/src/tracker.py:274-280 | with distinct ids, a record is reported exactly when time_since_update <= max_age and (hit_streak >= min_hits or frame_count <= min_hits) |
| Lifecycle.AllDead | project/src/tracker.py:273-277 | when every record is dead the list empties and nothing is reported |
| Lifecycle.SurvivorsIds | project/src/tracker.py:273-277 | popping from the tail keeps ids distinct and below the counter |
| Lifecycle.StepBookkeeping | project/src/tracker.py:234-277 | frame_count goes up by 1 and the id counter by the number of new records; the list grows by one per unmatched detection and then keeps its first entries, one fewer per dead record |
| Lifecycle.StepMatchedIffFresh | project/src/tracker.py:256-259 | within one update a live record has time_since_update 0 exactly when it was matched |
| Lifecycle.StepPreservesIds | project/src/tracker.py:117-118 | distinct ids below the counter stay so from update to update, and the counter never goes down |
| Lifecycle.StepKeepsIds | project/src/tracker.py:117-118 | the same for Step with its association |
| Lifecycle.StepEmitsIff | project/src/tracker.py:266-280 | a record of the list is reported by an update exactly when it is alive and confirmed |
| Lifecycle.EmptyFirstFrame | project/src/tracker.py:224-322 | an empty first frame reports nothing, keeps no record and sets frame_count to 1 |
| Lifecycle.SpawnedReported | project/src/tracker.py:261-322 | a lone unclaimed detection in the first frame is reported at once under the next id, with label "unknown" and zero counters |
| Lifecycle.FirstDetection | project/src/tracker.py:224-322 | the first frame with one detection reports it at once, under the next id |
| Lifecycle.NoDetections | project/src/tracker.py:324-399 | without detections nothing is matched or created |
| Lifecycle.EmptyFrameAges | project/src/tracker.py:236-264 | after a frame without detections every record has time_since_update >= 1 |
| Lifecycle.EmptyFramesExpire | project/src/tracker.py:270-277 | with max_age 1, two frames without detections leave no record and the second reports nothing |
| Sort.LookupDetection | project/src/tracker.py:281-291 | the loop over the matches finds the label and confidence of the first match for the position, or "unknown" and 0.0 |
| Sort.PredictionRowsSpec | project/src/tracker.py:236-244 | the prediction loop's rows, NaN flags and to_del are the states' boxes, their NaN flags, and the flagged positions |
| Sort.PredictRow | project/src/tracker.py:240-244 | one loop turn predicts one record, adds its row and flag, and leaves the other records alone |
| Sort.PredictAll | project/src/tracker.py:236-244 | every record is predicted, and the loop's rows, flags and to_del are those of the predicted states |
| Sort.PopRows | project/src/tracker.py:248-249 | popping to_del in reverse order gives PopAll |
| Sort.PredictedRowsLive | project/src/tracker.py:246-249 | after masking and popping, the records left are the live ones in order, and the box rows are theirs |
| Sort.PredictAndPrune | project/src/tracker.py:236-249 | the records left are the live records, distinct and taken from the list, and the boxes handed on are their boxes |
| Sort.AssociateLive | project/src/tracker.py:251-254 | the association of the live boxes, as the Assign function states |
| Sort.UpdateMatched | project/src/tracker.py:256-259 | the records' new states are those the matches give |
| Sort.Spawn | project/src/tracker.py:261-264 | new records appended in order with ids from the shared counter; the old ones come first and unchanged |
| Sort.CorrectAndSpawn | project/src/tracker.py:256-264 | the list after the update and creation loops holds exactly the Extend states, and the counter advanced by the number created |
| Sort.MakeTrack | project/src/tracker.py:293-318 | the Track built for a confirmed record is its snapshot, with a single history point at the box centre |
| Sort.Emit | project/src/tracker.py:266-322 | the output loop leaves a prefix of the list, the survivors, and returns exactly the snapshots the function states |
| Sort.CorrectSpawnEmit | project/src/tracker.py:256-322 | correction, creation and the output loop give the survivors and the snapshots of the extended list |
| Sort.PredictAndAssociate | project/src/tracker.py:236-254 | prediction, pruning and association give the live records and Assign's result |
| Sort.Frame | project/src/tracker.py:236-322 | the body of update after frame_count is advanced gives exactly the state and snapshots of StepWith |
| Sort.Tracker.constructor | project/src/tracker.py:209-222 | the parameters (default max_age 1, min_hits 3, iou_threshold 0.3) are stored, the record list is empty, frame_count is 0, and the id invariant holds |
| Sort.Tracker.Update | project/src/tracker.py:224-322 | the new value of the tracker and the returned snapshots are exactly those of Step; ids stay distinct and below the shared counter |
| Sort.Tracker.Commit | project/src/tracker.py:248-249 | the record list is replaced by the new one; the records themselves are untouched |

## Left out

- Kalman covariance, gain and noise matrices (P, Q, R, H and filterpy's covariance propagation and matrix inversion) are not modelled. They are floating-point linear algebra in a foreign library. `predict` models the mean only, and the correction inside `update` is the parameter `correct`.
- Optimality of `linear_sum_assignment` is not modelled. The solver is a parameter constrained only by `IsSolver`.
- NaN is not modelled as a value, because reals have none. Over reals, a predicted box holds NaN only when `np.sqrt` is taken of a negative `s * r`; `SqrtOfNegative` marks that case, and records whose prediction is so marked are dropped exactly as `to_del` drops them.
- Geometry.ZToBBox: for a negative `s * r` the model gives `[cx, cy, cx, cy]` where the source gives `[NaN, cy, NaN, cy]`. Both have height 0, because `w > 0` fails for NaN as well. Such a box reaches a snapshot in two ways: a correction that yields a negative `s * r`, or a new record created from a detection with positive width and negative height. For the detection `[0, 10, 10, 0]`, `_bbox_to_z` gives `s = -100` and `r = 1.0`. The source then reports `[NaN, 5, NaN, 5]` in the warm-up frames, and the model reports `[5, 5, 5, 5]`.
- The 5th column of the `trks` matrix (always 0) is not modelled; only the box is kept.
- The 30-point cap on `Track.history` cannot be reached and is kept as a dead branch: every snapshot is freshly built with one history point.
- `Track.get_speed` and `__repr__` are left out: they are float square roots for display and string formatting.
- The detector's optional segmentation mask is left out (`project/src/detector.py` beyond the bbox, label and confidence fields).
- Visualization, video I/O, the command-line programs and the benchmarks are left out.
- Sort.Tracker.Update: the in-place mutations of `self.trackers` (`pop(t)`, `append`, `pop()`) are modelled on a local list that `Commit` installs at the end. The record objects themselves are changed in place.
- Coordinates are exact reals, so float rounding is not modelled.
