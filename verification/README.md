# Verified model of the detection runtime

A Dafny model of the stateful and algorithmic parts of the detection runtime, with proofs. Files that
work by changing state are modelled as classes and methods over arrays and fields; each such method is
proved against a specification, and what the code promises is proved about the specification. Protocols
between threads or processes are transition systems with inductive invariants.

| files | what they model |
|---|---|
| `Sums`, `FlatMatrix`, `Assignments`, `MunkresState`, `AlternatingPath`, `MunkresSteps`, `Hungarian` | the assignment solver on flat column-major buffers, with its zero tolerance `DBL_EPSILON` |
| `Boxes`, `SortTracks`, `SortTracker`, `SortFrames` | the SORT tracker on top of the solver, and what a frame means for each track and detection |
| `ThreadPool`, `AsyncJobs` | the worker pool, the in-flight gates, shutdown and plugin unloading, over every interleaving |
| `FaceTracks`, `FaceFrames`, `FacePlugin`, `FaceRuns` | the face plugin's per-track state machine, and its frames interleaved with its jobs |
| `TrackerProcessor` | giving track ids to detections |
| `DescendingSort`, `Suppression` | the in-place quicksort and the three suppression algorithms |
| `Canvas`, `Painting`, `Drawing`, `Columns`, `Lines`, `Circle` | the rasterisers on an NV12 frame |
| `Lifecycle`, `Components`, `PluginLoader`, `ProcessorChain`, `SceneRuntime` | loading and unloading components from dynamic libraries |
| `HwIds`, `HwIdSharing` | the table of hardware ids shared by processes that may crash |
| `Options` | a value or none |

How to read it:

- Costs, boxes and probabilities are real numbers. The solver compares with its tolerance exactly as the
  code does, so it is proved optimal to within one tolerance per pair, exactly optimal where costs lie on
  a grid coarser than that, and for one row or one column the exact condition for optimality is given,
  with an input on which the tolerance costs.
- Answers from outside (the Kalman filter's predicted boxes, services, `dlopen`, `Init`, probes of pids,
  the order `std::sort` leaves) are parameters; results hold for all of them.
- Where code and promise part, the code is kept, with an input on which they differ and the exact condition
  for them to agree: the tolerance (`ToleranceCanCost`, `SingleRowExactness`, `SingleColumnExactness`), the
  two overlap tests (`RoundingKeepsDuplicates`, `ThresholdDiffers`; `TestsAgreeExactly`, `PairAgrees`), the
  chroma of vertical lines (`FastColSkips`; `VertLineExact`), the nearest pixel of a circle (`NearestFails`;
  `NearestForRadius`).
- Ghost parameters carry proof state: in the solver the potentials and stars, in the sort the pivot.

## Model

| member | source | states |
|---|---|---|
| Hungarian.Solve | tmp/tracker_sort/hungarian.cpp:21-64 | an accepted matrix gets an injective assignment of min(rows, columns) rows whose cost is within one tolerance per pair of every other such assignment's, 3/10^12 at most; any other matrix gets -1 and no assignment |
| Hungarian.SolvedExactlyOnGrid | tmp/tracker_sort/hungarian.cpp:21-64 | when all costs are multiples of a unit above the total tolerance, no assignment is cheaper than the one returned |
| Hungarian.SingleRowExactness | tmp/tracker_sort/hungarian.cpp:101-139 | with one row the result is the cheapest entry if and only if no dearer entry within the tolerance stands before it |
| Hungarian.SingleColumnExactness | tmp/tracker_sort/hungarian.cpp:141-176 | with one column and more rows likewise: the cheapest entry if and only if no dearer entry within the tolerance stands before it |
| Hungarian.ToleranceCanCost | tmp/tracker_sort/hungarian.cpp:129-139 | an input on which the tolerance makes the solver return a dearer assignment |
| Hungarian.AssignmentOptimal | tmp/tracker_sort/hungarian.cpp:69-194 | for any rectangular matrix, either way round: near-optimal, as large as can be, and the cost returned is the assignment's |
| Hungarian.Preliminaries | tmp/tracker_sort/hungarian.cpp:101-177 | reduction and first stars establish the invariant of all steps in both orientations |
| Hungarian.ReduceRows | tmp/tracker_sort/hungarian.cpp:106-127 | subtracting row minima leaves a non-negative matrix equal to the input less potentials |
| Hungarian.ReduceColumns | tmp/tracker_sort/hungarian.cpp:144-162 | the same for columns when rows outnumber them |
| Hungarian.InitialStarsByRow | tmp/tracker_sort/hungarian.cpp:129-138 | first stars are a matching of zeros, and exactly the starred columns are covered |
| Hungarian.InitialStarsByColumn | tmp/tracker_sort/hungarian.cpp:164-176 | the same column by column, with row covers as scratch |
| Hungarian.SingleRow | tmp/tracker_sort/hungarian.cpp:101-139 | with one row the first star falls on the first entry within the tolerance of the least |
| Hungarian.SingleColumn | tmp/tracker_sort/hungarian.cpp:144-176 | with one column the first star falls on the first entry within the tolerance of the least |
| Hungarian.SolvedFlat | tmp/tracker_sort/hungarian.cpp:33-63 | optimality on the flat column-major buffer is optimality on the matrix of rows |
| Hungarian.Flatten | tmp/tracker_sort/hungarian.cpp:45-47 | the buffer holds entry (i, j) at i + rows * j |
| Hungarian.InRange | tmp/tracker_sort/hungarian.cpp:34-42 | accepts exactly the matrices with every entry in [0, 1] |
| MunkresSteps.Step2a | tmp/tracker_sort/hungarian.cpp:228-250 | terminates with a near-optimal assignment from any state in which stars are a matching on zeros and potentials are extreme |
| MunkresSteps.Step2b | tmp/tracker_sort/hungarian.cpp:253-273 | finishes exactly when the stars are complete, else goes on; the assignment is then the stars |
| MunkresSteps.Step3 | tmp/tracker_sort/hungarian.cpp:276-316 | priming terminates: covered rows grow until a zero without a star in its row is found or no uncovered zero is left |
| MunkresSteps.PrimePass | tmp/tracker_sort/hungarian.cpp:284-312 | one pass either finds such a zero, covers a row more, or leaves no uncovered zero |
| MunkresSteps.Step4 | tmp/tracker_sort/hungarian.cpp:319-370 | augmenting terminates and leaves one star more |
| MunkresSteps.Augment | tmp/tracker_sort/hungarian.cpp:324-356 | the loop over stars and primes follows the alternating path to its end in the copy of the stars |
| MunkresSteps.Step5 | tmp/tracker_sort/hungarian.cpp:373-404 | the shift keeps the invariant and exposes an uncovered zero, so step 3 makes progress |
| MunkresSteps.LeastUncovered | tmp/tracker_sort/hungarian.cpp:378-388 | an uncovered entry exists and the scan finds the least one |
| MunkresSteps.BuildAssignmentVector | tmp/tracker_sort/hungarian.cpp:197-212 | the assignment is read off the stars, unstarred rows keep -1 |
| MunkresSteps.ComputeAssignmentCost | tmp/tracker_sort/hungarian.cpp:215-225 | the cost is the sum of the assigned entries of the input |
| MunkresState.PrimeKeepsCovered | tmp/tracker_sort/hungarian.cpp:290-311 | priming a zero and swapping a column cover for a row cover keeps covers, primes and their time order consistent |
| MunkresState.CoversCountStars | tmp/tracker_sort/hungarian.cpp:276-316 | covered rows and covered columns together are as many as the stars |
| MunkresState.SomeUncovered | tmp/tracker_sort/hungarian.cpp:378-388 | while stars are missing some entry is uncovered |
| MunkresState.ShiftKeeps | tmp/tracker_sort/hungarian.cpp:390-400 | adding to covered rows and taking off uncovered columns keeps the matrix reduced and non-negative, stars on zeros, and unstarred lines at the extreme potential |
| MunkresState.FullIsNearOptimal | tmp/tracker_sort/hungarian.cpp:263-267 | a complete star set under the invariant is near-optimal |
| AlternatingPath.PathStarts | tmp/tracker_sort/hungarian.cpp:328-335 | the found zero starts an alternating path |
| AlternatingPath.PathExtends | tmp/tracker_sort/hungarian.cpp:337-356 | each prime leads to a star whose row was primed strictly earlier, so the path never cycles |
| AlternatingPath.PathEnds | tmp/tracker_sort/hungarian.cpp:337-363 | at the end the stars are a matching of zeros, one more than before, and no starred line has lost its star |
| Assignments.DualityBound | tmp/tracker_sort/hungarian.cpp:69-194 | feasible potentials, extreme on unmatched lines, make a full matching on near-tight entries near-optimal among rectangular assignments |
| Assignments.LeastPotential | tmp/tracker_sort/hungarian.cpp:69-194 | a matching that is full on the matched lines has the least potential of all assignments |
| Assignments.MatchingCounts | tmp/tracker_sort/hungarian.cpp:253-273 | a matching pairs as many rows as columns, at most the shorter side |
| Sums.Pigeonhole | tmp/tracker_sort/hungarian.cpp:253-273 | an injective choice by all rows uses every column when there are no more columns |
| SortTracks.IouInRange | tmp/tracker_sort/sort_track.cpp:4-11 | overlap is between 0 and 1 for any boxes, even of negative extent, so costs pass the solver's range check |
| SortTracks.IouMeans | tmp/tracker_sort/sort_track.cpp:4-11 | overlap times union is the area of any box whose inner points are those inside both; 0 for a union below the tolerance |
| SortTracks.IouExtremes | tmp/tracker_sort/sort_track.cpp:4-11 | overlap is 0 if and only if no point is inside both boxes, and for boxes with an extent 1 if and only if they are equal |
| SortTracker.SortTracker.Update | tmp/tracker_sort/sort_track.cpp:14-161 | one frame: survivors of prediction are matched by a best assignment filtered by overlap, left-over detections seed fresh ids, the dead go; counters and ids stay sane |
| SortTracker.SortTracker.PredictAll | tmp/tracker_sort/sort_track.cpp:36-53 | predicted boxes stay aligned with the surviving trackers |
| SortTracker.SortTracker.Assign | tmp/tracker_sort/sort_track.cpp:55-79 | the cost matrix is always accepted and a best assignment returned |
| SortTracker.SortTracker.FindMatches | tmp/tracker_sort/sort_track.cpp:81-119 | pairs, unmatched detections and unmatched trackers come out right although the code looks for unassigned detections only when these outnumber trackers |
| SortTracks.AssignmentCovers | tmp/tracker_sort/sort_track.cpp:87-107 | the completeness that this relies on: the shorter side is fully assigned |
| SortTracker.SortTracker.UpdateMatched | tmp/tracker_sort/sort_track.cpp:124-132 | every matched tracker takes in its own detection, no other changes |
| SortTracker.SortTracker.SeedUnmatched | tmp/tracker_sort/sort_track.cpp:134-140 | left-over detections, in order, become trackers with consecutive fresh ids |
| SortTracker.SortTracker.RemoveDead | tmp/tracker_sort/sort_track.cpp:146-157 | exactly the trackers lost too long are erased, order kept |
| SortTracker.SortTracker.GetReport | tmp/tracker_sort/sort_track.cpp:164-188 | reports exactly the trackers observed at least 3 times, with latest box, confidence and class, and positive distinct ids |
| SortTracker.FrameLandsEveryDetection | tmp/tracker_sort/sort_track.cpp:81-140 | every detection updates exactly one surviving tracker that it overlaps by the threshold, or seeds exactly one new one, which is in the list after the frame |
| SortFrames.TrackFate | tmp/tracker_sort/sort_track.cpp:36-157 | what a frame makes of each track, field by field: dropped off screen; with an assigned detection that overlaps by 0.3 its box, counters and confidence; else its predicted box, and it stays if and only if unseen for at most 3 frames and not new and unseen for two |
| SortFrames.DetectionFate | tmp/tracker_sort/sort_track.cpp:81-140 | what a frame makes of each detection: seen by a visible track that it overlaps by 0.3, or a new track with a fresh id, seen once |
| SortFrames.ClearDetectionUpdates | tmp/tracker_sort/sort_track.cpp:14-132 | a detection at the box a track is predicted at updates that track, when no other visible track's box and no other detection has a point in common with it |
| SortFrames.NoBetterPair | tmp/tracker_sort/sort_track.cpp:73-79 | no exchange of one pair in the frame's assignment gains more than the tolerance |
| SortFrames.MissedOverlap | tmp/tracker_sort/sort_track.cpp:81-119 | a track and a detection that a frame leaves without each other overlap by less than 0.6 and the tolerance |
| SortTracker.FrameKeepsValid | tmp/tracker_sort/sort_track.cpp:14-161 | every frame keeps: distinct ids, observed <= age, hit streak < observed, at most 3 frames unseen, none seen once past age 2 |
| SortTracks.FrameKeeps | tmp/tracker_sort/sort_track.cpp:14-161 | the same for any predicted boxes and any injective pairing |
| SortTracks.EveryDetectionLands | tmp/tracker_sort/sort_track.cpp:121-140 | there is one and only one place for each detection |
| SortTracks.SeenTracksHaveDetections | tmp/tracker_sort/sort_track.cpp:121-140 | conversely a track last seen this frame got a detection |
| SortTracks.SurvivorsAligned | tmp/tracker_sort/sort_track.cpp:38-53 | boxes and tracks stay index-aligned when off-screen ones are erased from both |
| SortTracks.ReportsDistinct | tmp/tracker_sort/sort_track.cpp:164-188 | reported ids are positive, distinct, and those of live tracks |
| SortTracks.ReportedIff | tmp/tracker_sort/sort_track.cpp:164-188 | a track is reported if and only if it was observed at least 3 times |
| SortTracker.KalmanTracker.constructor | tmp/tracker_sort/kalman_tracker.h:19-31 | a new tracker's counters and id |
| SortTracker.KalmanTracker.Predict | tmp/tracker_sort/kalman_tracker.cpp:41-57 | one more frame of age; the hit streak ends after too long unseen |
| SortTracker.KalmanTracker.Update | tmp/tracker_sort/kalman_tracker.cpp:60-80 | an observation resets the time unseen and counts |
| ThreadPool.Pool.Submit | utils/thread_pool.h:72-78 | a job is refused if and only if the pool is stopped or holds exactly its maximum; an accepted one goes to the back |
| ThreadPool.Pool.Next | utils/thread_pool.h:87-95 | a worker sleeps, leaves, or takes the front task, and leaves only a stopped and empty pool |
| ThreadPool.Pool.RequestStop | utils/thread_pool.h:38-45 | only the first caller goes on to join |
| AsyncJobs.StepKeeps | plugin/host_services.cpp:230-282 | every atomic step of submitters, workers, stopper and unloaders keeps the invariant |
| AsyncJobs.RunInv | plugin/host_services.cpp:230-282 | every state of every run satisfies it |
| AsyncJobs.GateCountsItsJobs | plugin/host_services.cpp:237-259 | a gate's count is exactly the plugin's jobs queued or with a worker plus submissions awaiting their outcome |
| AsyncJobs.NoJobAfterUnload | plugin/plugin_loader.cpp:171-191 | once WaitQuiesce has let an unload through, no job body of the plugin is queued, running or run later, before or after destroy and dlclose |
| AsyncJobs.NoLostWakeup | plugin/host_services.cpp:240-281 | a waiter blocked at count 0 has a notifier on its way, and a non-empty queue an awake worker or a notification |
| AsyncJobs.NothingAcceptedAfterStop | utils/thread_pool.h:72-78 | nothing is accepted after stop |
| AsyncJobs.RefusedOnlyWhenFull | utils/thread_pool.h:72-78 | in every run a job is refused if and only if the pool is stopped or full to the last place at that step |
| AsyncJobs.JoinedHasRunEverything | utils/thread_pool.h:38-98 | when the workers have been joined every accepted task was run exactly once |
| AsyncJobs.StartedInOrder | utils/thread_pool.h:84-97 | tasks start in the order of acceptance and none is run twice |
| AsyncJobs.ShutdownNeverStuck | utils/thread_pool.h:38-53 | while Shutdown joins, every remaining worker can go on or waits for a gate about to be released |
| AsyncJobs.JoiningProgresses | utils/thread_pool.h:38-98 | while Shutdown joins, every step of a worker leaves less work - four steps a queued task, and those of the workers' stages - and no other step adds any |
| AsyncJobs.ShutdownEnds | utils/thread_pool.h:38-98 | so in every run the workers take no more steps after Shutdown begins to join than the work left then |
| AsyncJobs.QuiescedHasNoJob | plugin/host_services.cpp:262-282 | quiescence means no job of the plugin anywhere |
| FacePlugin.Plugin.OnFrame | plugins/face_recognition/face_plugin.cpp:55-362 | a frame submits exactly the faces seen, not identified, not in flight and frontal whose feature and image came, and field by field says each entry before pruning, which stay, and which tracks are pushed as lost; it keeps the per-track promise |
| FacePlugin.Plugin.Identify | plugins/face_recognition/face_plugin.cpp:70-195 | entries and batch after the first half of a frame, as functions of the entries before |
| FacePlugin.Plugin.DrainIdentifyResults | plugins/face_recognition/face_plugin.cpp:370-395 | each undrained result settles its track's entry |
| FacePlugin.Plugin.CollectBatch | plugins/face_recognition/face_plugin.cpp:117-154 | exactly the faces with a feature and an image are put in flight |
| FacePlugin.Plugin.RollbackInflight | plugins/face_recognition/face_plugin.cpp:397-407 | a batch that was not submitted is taken out of flight, nothing else changes |
| FacePlugin.Plugin.SubmitBatch | plugins/face_recognition/face_plugin.cpp:156-195 | submitted, or rolled back to the entries before |
| FacePlugin.Plugin.PruneLost | plugins/face_recognition/face_plugin.cpp:197-342 | an entry stays if and only if seen within 60 frames, awaited within 1500, or its push was refused; its track is pushed as lost if and only if it was unseen for longer, never identified, not awaited, had its frame, and every service took part |
| FacePlugin.Plugin.PostIdentifyResult | plugins/face_recognition/face_plugin.cpp:364-368 | a posted result takes the place of an outstanding item |
| FacePlugin.Plugin.RunIdentify | plugins/face_recognition/face_plugin.cpp:438-471 | an identification job posts exactly one result for each item, in order, good exactly when the clients are there and the search succeeds |
| FacePlugin.Plugin.Shutdown | plugins/face_recognition/face_plugin.cpp:48-53 | forgetting everything keeps the promise |
| FaceFrames.BatchReady | plugins/face_recognition/face_plugin.cpp:95-154 | the faces chosen after marking are those eligible after draining, distinct and not in flight |
| FaceFrames.RolledBack | plugins/face_recognition/face_plugin.cpp:397-407 | rolling a batch back restores the entries exactly |
| FaceFrames.PruneMeans | plugins/face_recognition/face_plugin.cpp:197-342 | when an entry stays and when its track is pushed, in fields of the entry and the services' answers |
| FaceFrames.PrunedMeans | plugins/face_recognition/face_plugin.cpp:197-342 | the pruning loop as a whole does that to every entry |
| FaceFrames.EntriesBefore | plugins/face_recognition/face_plugin.cpp:70-195 | each entry before pruning in terms of what it was, the results posted, the frame, and what was sent |
| FaceFrames.SentMeans | plugins/face_recognition/face_plugin.cpp:95-195 | the n-th face asked for is sent if and only if the n-th feature and image came and services and pool took part; no other face is |
| FaceTracks.IdentifiedOrLostOnce | plugins/face_recognition/face_plugin.cpp:70-342 | per track identification and lost-track push exclude each other and happen at most once; a live track is in flight exactly when one item or result is out |
| FaceTracks.PostKeeps | plugins/face_recognition/face_plugin.cpp:364-368 | a post at any moment keeps the promise, also between collecting and submitting a batch |
| FaceTracks.DrainKeeps | plugins/face_recognition/face_plugin.cpp:377-394 | taking in a result keeps it |
| FaceTracks.SettledByItsResult | plugins/face_recognition/face_plugin.cpp:370-395 | with at most one result out, draining leaves the entry settled by that result |
| FaceTracks.SeeKeeps | plugins/face_recognition/face_plugin.cpp:76-93 | marking a track as seen keeps the promise |
| FaceTracks.BatchKeeps | plugins/face_recognition/face_plugin.cpp:140-146 | so does putting a track in flight |
| FaceTracks.SubmitKeeps | plugins/face_recognition/face_plugin.cpp:179-187 | so does submitting the batch |
| FaceTracks.RollbackKeeps | plugins/face_recognition/face_plugin.cpp:397-407 | so does rolling a track back |
| FaceTracks.PruneKeeps | plugins/face_recognition/face_plugin.cpp:197-342 | so does pruning, whatever clone and submit answer |
| FaceRuns.RunKeeps | plugins/face_recognition/face_plugin.cpp:55-407 | the promise holds at every moment of every interleaving in which jobs post between any two steps of a frame, a half-drained queue and a half-made batch included |
| FaceRuns.OncePerTrack | plugins/face_recognition/face_plugin.cpp:55-407 | at every such moment each track was identified or pushed as lost at most once in all, and a live one is in flight exactly when one item or result of it is out |
| FaceRuns.HappenedStays | plugins/face_recognition/face_plugin.cpp:55-407 | what has happened to a track stays counted, so once in all really is once over the run |
| TrackerProcessor.Process | postprocessors/tracker/tracker_processor.cpp:329-389 | old ids are cleared; each label's tracks choose greedily among their detections, the last of the best from 0.1 on; no id is given twice |
| TrackerProcessor.BestDetection | postprocessors/tracker/tracker_processor.cpp:364-379 | the last of the best unassigned detections, or none below the threshold |
| TrackerProcessor.OverlapMeans | postprocessors/tracker/tracker_processor.cpp:169-188 | overlap times union is the area of any box whose inner points are those inside detection and track |
| TrackerProcessor.SameOverlap | postprocessors/tracker/tracker_processor.cpp:169-188 | for boxes with an extent it equals the overlap of the SORT tracker |
| TrackerProcessor.AssignLabel | postprocessors/tracker/tracker_processor.cpp:361-386 | ids go where the greedy choice says, other objects keep theirs |
| TrackerProcessor.GreedyUnique | postprocessors/tracker/tracker_processor.cpp:361-386 | the greedy choice is determined by boxes and tracks |
| TrackerProcessor.GreedyDistinct | postprocessors/tracker/tracker_processor.cpp:361-386 | no detection is chosen twice |
| TrackerProcessor.IdsGivenOnce | postprocessors/tracker/tracker_processor.cpp:329-389 | distinct objects never share an id |
| TrackerProcessor.IdMeans | postprocessors/tracker/tracker_processor.cpp:361-386 | an object's id is that of a track of its label which it overlaps by 0.1 |
| TrackerProcessor.NoneMissed | postprocessors/tracker/tracker_processor.cpp:361-386 | an object without an id and a track of its label whose id nobody has overlap by less than 0.1 |
| TrackerProcessor.IdsSuitFacePlugin | postprocessors/tracker/tracker_processor.cpp:329-389 | these ids meet what the face plugin asks of a frame |
| DescendingSort.QsortDescentInplace | models/detail/detection.h:69-107 | terminates; the range becomes descending, a permutation of itself, and nothing outside it changes |
| DescendingSort.Partition | models/detail/detection.h:73-93 | ends with the crossing indices inside the range and the range split at the pivot, at most one element between |
| DescendingSort.ScanUp | models/detail/detection.h:79-80 | the unguarded upward scan never leaves the range |
| DescendingSort.ScanDown | models/detail/detection.h:82-83 | nor does the downward one |
| DescendingSort.HalvesSorted | models/detail/detection.h:94-106 | sorting first the left of the two ranges that the partition leaves, then the right one, sorts the whole |
| DescendingSort.HalvesSortedTogether | models/detail/detection.h:94-106 | the parallel sections: whatever order their steps come in, the two ranges sorted each by its own thread make the whole sorted |
| DescendingSort.QsortDescent | models/detail/detection.h:109-116 | all inputs, the empty one included: a descending permutation |
| Suppression.NmsSortedBboxes | models/detail/detection.h:118-152 | computes the greedy selection for its overlap test; in terms of points: no two selected boxes have more than the threshold of their area in common, each other one has so with a selected one before it, and at a positive threshold a box with no point in any earlier one is always selected |
| Suppression.Nms | models/scrfd.cpp:42-67 | the same for its own test and order, with the sides of the common part rounded to the nearest whole numbers, at a positive threshold |
| Suppression.NmsRotatedSortedBboxes | models/detail/detection.h:3077-3105 | picks exactly the detections below the threshold against all earlier ones |
| Suppression.GreedyMeans | models/detail/detection.h:132-151 | the greedy selection: selected detections never overlap pairwise, each other one overlaps a selected one before it |
| Suppression.GreedyIs | models/detail/detection.h:132-151 | any selection with this property is the greedy one |
| Suppression.KeepsMeans | models/detail/detection.h:132-151 | greedy means: kept ones never overlap pairwise and each dropped one overlaps an earlier kept one |
| Suppression.KeepsUnique | models/detail/detection.h:132-151 | there is only one selection like that |
| Suppression.AlgorithmsAgree | models/scrfd.cpp:42-67 | where every two detections of different, descending probability fall on the same side of the cut, both algorithms return the same detections in the same order, for boxes with an extent and a positive threshold |
| Suppression.PairAgrees | models/scrfd.cpp:42-67 | and this is needed of every two: on two detections alone the algorithms return the same if and only if the two fall on the same side of the cut |
| Suppression.GreedySame | models/detail/detection.h:132-151 | greedy suppression depends only on how each detection overlaps the later ones |
| Suppression.MoreMeans | models/detail/detection.h:118-152 | the first overlap test says that more than the threshold of the two areas is common, for whatever box has the common points |
| Suppression.AtLeastMeans | models/scrfd.cpp:29-40 | the second the same with rounded sides, at least the threshold |
| Suppression.DisjointIsClear | models/scrfd.cpp:29-40 | boxes without a common point pass neither test at a positive threshold |
| Suppression.TestsByArea | models/scrfd.cpp:29-40 | both overlap tests as cuts on areas, for all boxes and thresholds, an empty rounded part and a union of nothing included |
| Suppression.TestsAgreeExactly | models/scrfd.cpp:29-40 | for boxes with an extent and a positive threshold the two tests agree if and only if the exact and the rounded common part fall on the same side of the threshold's cut of both areas |
| Suppression.TestsBelowZero | models/scrfd.cpp:29-40 | what each test comes to at a threshold of 0 or less |
| Suppression.TestsAgree | models/scrfd.cpp:29-40 | where the common part has whole extents the two tests agree if and only if the overlap is not exactly the threshold |
| Suppression.RoundingKeepsDuplicates | models/scrfd.cpp:29-40 | rounding to whole pixels can keep two equal boxes that the other test reduces to one |
| Suppression.ThresholdDiffers | models/detail/detection.h:145-146 | at exactly the threshold the two tests differ |
| Suppression.RotatedPicksFewer | models/detail/detection.h:3087-3104 | the rotated variant picks a subset of the greedy selection |
| Suppression.StrictKeepsFewer | models/detail/detection.h:3087-3104 | comparing against all earlier ones keeps no more than comparing against kept ones |
| Suppression.RelationsSymmetric | models/detail/detection.h:62-67 | both overlap relations are symmetric |
| Suppression.SortAndSuppress | models/detail/detection.h:2225-2227 | sorting then suppressing gives that selection of a descending permutation |
| Boxes.IntersectionWithin | models/detail/detection.h:62-67 | the area of the common part is never larger than either box's |
| Boxes.IntersectPoints | models/detail/detection.h:62-67 | a point is inside the intersection if and only if it is inside both boxes |
| Boxes.CommonPartIs | models/detail/detection.h:62-67 | any box with these points has the intersection's area and is the intersection when it has an extent; it has one if and only if the boxes have a common point |
| Drawing.DrawHorizLine | hal/drawing.cpp:86-114 | clipping, memset, 128-byte copies and tail loop have exactly the effect of setting each pixel of the row, for all bytes of both planes |
| Drawing.FillChroma | hal/drawing.cpp:103-113 | whole patterns then pairs fill exactly the chroma run with alternating bytes |
| Drawing.UvPattern.Get | hal/drawing.cpp:72-83 | the cached pattern always agrees with its colour |
| Drawing.SetPixel | hal/drawing.cpp:163-177 | one pixel: exactly its luma byte and the two chroma bytes of the pair it shares, by index; nothing off the screen |
| Canvas.RowFilled | hal/drawing.cpp:93-113 | the pixel-by-pixel row as runs of bytes |
| Canvas.RowClipped | hal/drawing.cpp:88-91 | the parts of a row off the screen do not matter |
| Columns.DrawVertLine | hal/drawing.cpp:117-139 | the fast column: all its luma, chroma of its odd rows |
| Columns.FastColExact | hal/drawing.cpp:131-138 | between ends on the screen, the fast column equals setting its pixels if and only if it is one pixel, ends on an odd row, or the last pair already has the colour; luma always agrees |
| Columns.VertLineExact | hal/drawing.cpp:117-139 | for any two ends the line drawn is the pixel-by-pixel one if and only if it is off the screen, clips to one pixel or to an odd last row, or its last pair already has the colour; luma always agrees |
| Columns.FastColPlanes | hal/drawing.cpp:124-138 | luma is that of the pixel-by-pixel column, chroma that of one which ends a row earlier when the last row is even |
| Columns.FastColSkips | hal/drawing.cpp:131-138 | a column whose last chroma row is left as it was |
| Columns.ColFilled | hal/drawing.cpp:117-139 | the pixel-by-pixel column as luma rows and chroma rows |
| Lines.DrawLine | hal/drawing.cpp:189-275 | what drawing leaves in every branch; painted are, for a width of w = max(1, lineWidth): a rectangle of rows y - w/2 on for a horizontal line, of columns for a vertical one with chroma that may end a row earlier, the strokes with offsets -w/2 on for a sloped one; nothing for a centre off the screen; -1 for a bad frame |
| Lines.LineMeans | hal/drawing.cpp:189-275 | the effect in each branch as a set of painted pixels |
| Lines.StrokeIsShifted | hal/drawing.cpp:235-273 | a stroke's points are the nearest pixels of the segment, its offset added to y when the line is flatter than it is steep and to x otherwise |
| Lines.DrawStroke | hal/drawing.cpp:252-272 | the error-accumulating loop plots exactly the stroke's points |
| Lines.StrokeStep | hal/drawing.cpp:252-272 | from one point of a stroke to the next: the step and the error after it, in either direction |
| Lines.StrokeShape | hal/drawing.cpp:252-272 | max(dx, dy) + 1 points from end to end without gaps; the last one is the shifted endpoint |
| Lines.StrokeIsNear | hal/drawing.cpp:252-272 | every point is within half a pixel of the ideal line across its direction, -d <= 2 eps < d |
| Lines.NearLineExact | hal/drawing.cpp:252-272 | being that near determines the point |
| Lines.MinorGrows | hal/drawing.cpp:259-260 | the minor step is taken exactly when the error reaches half |
| Lines.ThickPaints | hal/drawing.cpp:235-273 | a thick sloped line paints the points of its strokes and no other byte |
| Lines.ThickRowPaints | hal/drawing.cpp:197-215 | a thick horizontal line paints exactly a rectangle, luma and chroma |
| Lines.VertPaints | hal/drawing.cpp:117-139 | a vertical line paints the luma of its pixels; its chroma may end a row earlier |
| Lines.ThickColPaints | hal/drawing.cpp:217-233 | a thick vertical line paints the luma of exactly a rectangle, and the chroma of the rectangle that may end a row earlier |
| Circle.DrawCircle | hal/drawing.cpp:309-333 | terminates and paints exactly the disc M(M-1) + m*m <= r*r of the centred offsets, without gaps, or nothing when the centre is off the screen or the radius not positive |
| Circle.TracingSteps | hal/drawing.cpp:319-332 | err = x*x - x + (y+1)*(y+1) - r*r throughout, and every plotted pair has x*x - x + y*y <= r*r < x*x + x + y*y |
| Circle.RoundGrows | hal/drawing.cpp:320-324 | the four rows of a turn extend the painted set by the next row and its mirror image |
| Circle.RoundIsDisc | hal/drawing.cpp:320-332 | when the loop stops, rows and mirrored rows together are the disc |
| Circle.NearestExact | hal/drawing.cpp:319-332 | a plotted x is the integer nearest to the root of r*r - y*y if and only if x*x - x + y*y differs from r*r |
| Circle.NearestForRadius | hal/drawing.cpp:309-333 | for which radii every plotted x is nearest: exactly those for which no x*x - x + y*y on an octant equals r*r |
| Circle.NearestFails | hal/drawing.cpp:319-332 | radius 1 plots a corner that is not nearest |
| Circle.HalfWidthCuts | hal/drawing.cpp:319-332 | the half-width bounds cut out exactly the columns of the disc's row |
| Painting.PaintedIsUnique | hal/drawing.cpp:163-177 | with an even stride a painted shape and its colour determine every byte, in whatever order it was drawn |
| Painting.PaintedJoin | hal/drawing.cpp:163-177 | drawing shapes one after another paints their union |
| Painting.RowPaints | hal/drawing.cpp:86-114 | a row paints its span |
| Painting.PointsPaint | hal/drawing.cpp:163-177 | setting pixels in a list paints the points of the list |
| Lifecycle.EverythingFinished | plugin/postprocessor_chain.cpp:28-43 | once nothing is open, every library was closed once, every instance destroyed once, and shut down exactly when Init was called |
| Lifecycle.WellNested | plugin/plugin_loader.cpp:19-40 | at any time each library has had exactly the calls of its phase |
| Lifecycle.LastOpenedFirstClosed | plugin/postprocessor_chain.cpp:191-208 | when a library is closed, every later one is closed already |
| Lifecycle.ShutdownIffInit | plugin/plugin_loader.cpp:24-35 | an instance is destroyed once, after a shutdown if and only if Init was called on it |
| Lifecycle.FedWhenReady | plugin/postprocessor_chain.cpp:174-189 | only instances initialised and not shut down are given frames |
| Lifecycle.BusinessStaysOnTop | plugin/scene_runtime.cpp:57-61 | the business plugin is always above the processors |
| Components.LoadKeepsNesting | plugin/plugin_loader.cpp:58-158 | a load attempt is in order for every outcome and leaves a ready instance or nothing |
| Components.TearDownPops | plugin/plugin_loader.cpp:171-191 | taking down the top component removes exactly it |
| Components.ResultMeans | plugin/plugin_loader.cpp:58-158 | a load attempt returns Init's status when every check before it passed, -1 otherwise |
| Components.InitCalledWhen | plugin/plugin_loader.cpp:125-148 | Init is called if and only if the library opened, symbols and instance were there, the name matched and both versions are 1 |
| PluginLoader.Platform.TryLoad | plugin/postprocessor_chain.cpp:73-160 | the calls and the result of a load attempt for every outcome of dlopen, dlsym, create, the checks and Init; 0 if and only if all succeed with both versions 1 |
| PluginLoader.Platform.DestroyUnloaded | plugin/plugin_loader.cpp:19-40 | an instance that was not stored is shut down only if Init was invoked |
| PluginLoader.PluginManager.Load | plugin/plugin_loader.cpp:49-159 | unloads first, opens nothing without a host, and holds the plugin exactly on success, which needs a host, a matching name, both versions 1 and a good Init |
| PluginLoader.PluginManager.Unload | plugin/plugin_loader.cpp:171-191 | quiesce, shutdown, destroy, close, in this order, once |
| PluginLoader.PluginManager.OnFrame | plugin/plugin_loader.cpp:161-169 | -1 without a plugin, else its answer |
| ProcessorChain.PostProcessorChain.Load | plugin/postprocessor_chain.cpp:61-172 | the calls, the result and what stays loaded, as a function of the outcomes; 0 if and only if every enabled processor opens, has its symbols, is created, has both versions 1, and its Init returns 0 |
| ProcessorChain.PostProcessorChain.Unload | plugin/postprocessor_chain.cpp:191-208 | teardown in reverse order of loading |
| ProcessorChain.PostProcessorChain.Process | plugin/postprocessor_chain.cpp:174-189 | each processor gets the track ids as the one before left them, in order of loading, up to the first that fails |
| ProcessorChain.ProcessedInOrder | plugin/postprocessor_chain.cpp:174-189 | the result means: a sequence of states from the ids given, each processor's answer to one being the next, all but the last answering 0, and the chain's code the last one's |
| ProcessorChain.ChainResult | plugin/postprocessor_chain.cpp:61-172 | the chain loads if and only if every enabled component starts; else nothing stays and the first failure is returned |
| ProcessorChain.ChainInits | plugin/postprocessor_chain.cpp:61-172 | Init is called on exactly the enabled components that pass their checks after all before them started |
| ProcessorChain.ChainKeepsNesting | plugin/postprocessor_chain.cpp:61-172 | loading any list is well nested and leaves exactly the loaded components ready |
| SceneRuntime.Runtime.Init | plugin/scene_runtime.cpp:13-30 | 0 if and only if there is a host and every enabled processor and the business plugin start; then all are up, else nothing is left open; the trace stays well nested |
| SceneRuntime.InitMeans | plugin/scene_runtime.cpp:13-30 | that condition, in fields of the components |
| SceneRuntime.StartInits | plugin/scene_runtime.cpp:13-30 | no Init is called for an instance that fails a check, nor for any after the first failure |
| SceneRuntime.Runtime.Shutdown | plugin/scene_runtime.cpp:57-61 | business plugin first, then the chain in reverse; nothing is left open |
| SceneRuntime.Runtime.Process | plugin/scene_runtime.cpp:32-55 | every track id is cleared before the first processor sees it; exactly the processors up to the first that fails are given the frame, then the business plugin if none did; ids, calls, stage and code follow from their answers |
| HwIds.HwIdAllocator.Acquire | hal/ax/hw_id_allocator.cpp:205-249 | the least slot that is 0 or whose pid's probe says there is no such process becomes the caller's; -1 and no change if and only if there is none, or the table or lock is not to be had |
| HwIds.HwIdAllocator.Release | hal/ax/hw_id_allocator.cpp:251-280 | frees the slot of its owner only; any other call changes nothing |
| HwIds.HwIdAllocator.LockMu | hal/ax/hw_id_allocator.cpp:192-201 | a lock left by a dead owner is taken over |
| HwIdSharing.StepKeeps | hal/ax/hw_id_allocator.cpp:192-280 | every step of every process, crashes at any point included, keeps the invariant |
| HwIdSharing.NoTwoLiveHolders | hal/ax/hw_id_allocator.cpp:205-280 | in every run no id has two live holders |
| HwIdSharing.TakesTheLeast | hal/ax/hw_id_allocator.cpp:227-236 | the slot taken has no live owner, and every lower one had an owner alive when the mutex was taken |
| HwIdSharing.ExhaustedWhenFull | hal/ax/hw_id_allocator.cpp:240-245 | exhaustion is reported only when every slot had an owner alive when the mutex was taken |
| HwIdSharing.SinceTheLock | hal/ax/hw_id_allocator.cpp:218-236 | the state a scan is judged by is the one in which its thread took the mutex |
| HwIdSharing.ClearsItsOwn | hal/ax/hw_id_allocator.cpp:272-278 | giving back a held id always finds it still owned and frees it |
| HwIdSharing.NeverStuck | hal/ax/hw_id_allocator.cpp:192-201 | a call in progress can take the mutex or, having it, go on; or else the live thread that has the mutex can go on, also after an owner of the mutex has crashed |
| HwIdSharing.HolderProgresses | hal/ax/hw_id_allocator.cpp:205-280 | each move of the thread with the mutex brings it nearer to unlocking, and no step of anyone else sets it back |
| HwIdSharing.HolderUnlocks | hal/ax/hw_id_allocator.cpp:205-280 | so from any reachable state that thread unlocks by its own moves, at most as many as there are slots left and three |

## Left out

- Hungarian.Solve: states optimality to within the tolerance, because the code takes entries below `DBL_EPSILON` for zero; the exact condition for optimality is given for one row and for one column, and exactness for costs on a grid, but not a condition for every matrix.
- Hungarian.Solve: requires a first row, and rows at least as long as it, as the code reads `DistMatrix[0]` and `DistMatrix[i][j]` unguarded.
- SortTracker.SortTracker.Update: requires a prediction on screen and at most 10000 boxes on either side when there are trackers; otherwise the code indexes an empty matrix or assignment (tmp/tracker_sort/sort_track.cpp:38-108).
- Columns.VertLineExact: asks for a stride of at least 2, which a row needs to hold a chroma pair.
- FacePlugin.Plugin.OnFrame: handles a frame as one step with respect to jobs posting results; posts between the steps of a frame are the subject of `FaceRuns`. The ids of a frame are distinct and dropped ids do not come back.
- FacePlugin.Plugin.RunIdentify: models the results posted, not the alerts and visitor pushes; a job without a host posts nothing in the code (plugins/face_recognition/face_plugin.cpp:434-437), which cannot happen between Init and Shutdown.
- TrackerProcessor.Process: takes the tracks that BYTETracker returns as a parameter, with ids distinct over all labels.
- AsyncJobs.NoJobAfterUnload: is about job bodies; closures are destroyed after the count is taken down. Job bodies do not throw, and a plugin being unloaded is no longer submitted for.
- HwIdSharing.NoTwoLiveHolders: pids are not used again, and an id is released once for each time it was acquired, by its own process.
- SceneRuntime.Runtime.Process: of the objects only the track ids are modelled, as a function of each processor; their boxes and labels are not.
- Floating-point rounding, NaN, infinities and integer overflow. The solver's search for a least entry keeps a flag in place of the start value `DBL_MAX`.
- The Kalman filter's arithmetic: predicted boxes are parameters.
- Several SortTracker objects, which share and reset one id counter.
- Conversion of float rectangles to integer ones is modelled as rounding halves to even, without saturation.
- The probabilistic overlap of rotated boxes is a parameter.
- The first-use race of the drawing pattern cache, null frame pointers, text, and the rectangles and closed polygons that only call the lines above.
- Timeouts of WaitQuiesce, and SubmitAsync without a pool or a function.
- Creating and mapping the shared memory of the id table.
- Parsing of configurations, decoding of network outputs, letterboxing, the pipeline scheduler, HTTP and vector-search clients, logging: mostly easy members beside the ones above.
