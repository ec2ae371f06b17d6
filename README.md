# SleepTracker core, modelled in Dafny

SleepTracker runs a zebrafish behaviour rig. A camera films one or more
multi-well plates. A tracker finds the fish in every well of every frame.
An experiment object decides, frame by frame, when a dark flash is given
and which frames are recorded. The main view model links all of this:

- it builds one dark-flash experiment per plate;
- it merges the plates' flash schedules into one sorted switch schedule;
- it sends the schedules to the microcontroller that moves the plates and
  drives the lights, as length-prefixed little-endian `int` frames;
- on every frame it advances the plate index and gates the reduced-rate
  baseline tracking.

The project models that core in six modules:

- Common: C#'s unchecked 32-bit `int`/`uint` arithmetic, written out on
  unbounded integers, and division truncated toward zero.
- ExperimentBase: the wall-clock day/night bracket and the day counter
  of the experiment base class.
- SimpleDarkFlash: the dark-flash schedule (training blocks with
  random interval gaps, a retention test, a final sentinel), the flash
  trigger and the recording decision.
- MainViewModel: the plate switch queue, the baseline gate, the serial
  framing of schedules and triggers, the track-file line, and the
  creation of the per-plate experiments with their sorted flip schedule.
- Tracker90mmDish: thresholding, per-blob measurement with bounding-box
  line scans, and the choice of the largest blob as the fish.
- TrackerMultiWell: grouping wells into rows and columns, planning the
  parallel chunks, picking one fish per well, and the per-frame tracking
  round with its background rule.

Classes whose fields the C# code updates in place are Dafny classes with
`modifies` frames: `ExperimentBase`, `SimpleDarkFlash`, `MainViewModel`,
`SerialLink`, `Tracker90mmDish` and `TrackerMultiWell`. Every stateful
method is proved against a specification function, and the lemmas beside
each function state what the source promises about it.

Inputs that the modelled code reads from outside become parameters.

- The wall-clock hour is an `hourNow` argument.
- The random interval generator is a nondeterministic pick in the
  half-open range `Random.Next` uses. A ghost record of the picks ties
  the result to the schedule function.
- Image-library primitives become function-typed inputs: connected
  component labelling, the per-well histogram and centroid of a labelled
  plate, and the background difference image.
- The serial port is a `SerialLink` object that records the bytes
  written to it.
- The well layout, which the program loads from a resource file, is a
  constructor argument.

An exception in the C# code becomes `None`, an `OutOfRange` result or an
`ok == false` flag, and the model states exactly which inputs raise it.

Inheritance is modelled by composition. `SimpleDarkFlash` holds its
`ExperimentBase` in a `base` field. `TrackerMultiWell` holds its
`Tracker90mmDish` the same way.

## Model

| member | source | states |
|---|---|---|
| Common.AddI32Assoc | Experiments/SimpleDarkFlash.cs:255-257 | wrapping after each unchecked `int` addition equals wrapping once at the end |
| Common.DivTruncBounds | Experiments/ExperimentBase.cs:107 | C# integer division truncates toward zero: the remainder has the dividend's sign, is smaller than the divisor in magnitude, and the quotient is no larger than the dividend in magnitude |
| ExperimentBase.BracketIsClockArc | Experiments/ExperimentBase.cs:84-97 | for distinct bounds, an hour is inside the bracket exactly when it lies on the clock arc from the start hour (inclusive) to the end hour (exclusive) |
| ExperimentBase.WholeDayBracket | Experiments/ExperimentBase.cs:84-97 | the 0-to-24 bracket the experiments configure accepts exactly the hours 0 to 23 |
| ExperimentBase.EqualBoundsAlwaysIn | Experiments/ExperimentBase.cs:86-90 | equal start and end hours select every hour |
| ExperimentBase.ReversedBracketIsComplement | Experiments/ExperimentBase.cs:84-97 | swapping distinct bounds selects exactly the hours the original bracket rejects |
| ExperimentBase.TimeOffset | Experiments/ExperimentBase.cs:105-109 | the elapsed seconds are the truncated quotient of frame index by frame rate; a zero rate, or `int.MinValue / -1`, throws (`None`) |
| ExperimentBase.Tick | Experiments/ExperimentBase.cs:111-129 | only on frames that are multiples of the global frame rate are the hour and the daytime flag refreshed; the day counter grows by one exactly on a night-to-day edge |
| ExperimentBase.DayCountsSunrises | Experiments/ExperimentBase.cs:117-127 | after any run of frames, the day counter equals its start value plus the number of night-to-day edges seen |
| ExperimentBase.ExperimentBase.constructor | Experiments/ExperimentBase.cs:22-74 | day bracket 9 to 23, day 1, hour and daytime flag from the current hour, recording windows 0, rates as given |
| ExperimentBase.ExperimentBase.PerformAction | Experiments/ExperimentBase.cs:111-129 | the new clock state is `Tick` of the old one |
| SimpleDarkFlash.StepsLength | Experiments/SimpleDarkFlash.cs:251-260 | a stimulus block appends one flash per gap |
| SimpleDarkFlash.StepsElem | Experiments/SimpleDarkFlash.cs:251-260 | flash i of a block is the block start plus the first i gaps, with unchecked `int` addition |
| SimpleDarkFlash.StepsSpacing | Experiments/SimpleDarkFlash.cs:253-257 | within a block each flash follows the previous one by its own gap |
| SimpleDarkFlash.StepsEnd | Experiments/SimpleDarkFlash.cs:251-260 | the counter after a block is its last flash plus the last gap |
| SimpleDarkFlash.TrainingPickCount | Experiments/SimpleDarkFlash.cs:245-261 | the training part holds one flash per pick over all blocks |
| SimpleDarkFlash.UniformPickCount | Experiments/SimpleDarkFlash.cs:245-261 | blocks of equal size S give `|blocks| * S` picks |
| SimpleDarkFlash.TrainingLength | Experiments/SimpleDarkFlash.cs:245-261 | the training part has `nBlocks * StimPerBlock` flashes |
| SimpleDarkFlash.RetEndStep | Experiments/SimpleDarkFlash.cs:265-271 | each retention interval is one more unchecked `int` addition of RetentionISI |
| SimpleDarkFlash.RetentionSnoc | Experiments/SimpleDarkFlash.cs:265-271 | each retention iteration appends the counter after its interval |
| SimpleDarkFlash.TrainingElem | Experiments/SimpleDarkFlash.cs:245-261 | training flash `b * StimPerBlock + i` is flash i of block b, started where the earlier blocks left the counter |
| SimpleDarkFlash.ScheduleLength | Experiments/SimpleDarkFlash.cs:236-276 | the schedule has `nBlocks * S + S + 1` entries and ends with TotalFrames |
| SimpleDarkFlash.ScheduleTraining | Experiments/SimpleDarkFlash.cs:245-261 | schedule entry `b * S + i` is the i-th flash of training block b |
| SimpleDarkFlash.FirstFlash | Experiments/SimpleDarkFlash.cs:242-253 | with at least one block and stimulus, the first flash is at the initial countdown |
| SimpleDarkFlash.WithinBlockSpacing | Experiments/SimpleDarkFlash.cs:253-257 | consecutive flashes of a block differ by the picked gap, which is the fixed interval when min equals max |
| SimpleDarkFlash.BlockBoundary | Experiments/SimpleDarkFlash.cs:247-253 | the first flash of a later block is the previous flash plus its gap plus RestTime |
| SimpleDarkFlash.TrainingEndIsLastPlusGap | Experiments/SimpleDarkFlash.cs:253-261 | the counter after training is the last training flash plus its gap |
| SimpleDarkFlash.RetentionStart | Experiments/SimpleDarkFlash.cs:263-270 | the first retention flash is the last training flash plus its gap, RetentionTime and one RetentionISI |
| SimpleDarkFlash.RetentionSpacing | Experiments/SimpleDarkFlash.cs:265-271 | later retention flashes follow one another by exactly RetentionISI |
| SimpleDarkFlash.ScheduleRetention | Experiments/SimpleDarkFlash.cs:263-271 | retention flash k is the training end plus RetentionTime plus `k + 1` intervals, and it comes before the sentinel |
| SimpleDarkFlash.FlashStep | Experiments/SimpleDarkFlash.cs:194-199 | the flash cursor advances exactly when the flash bracket is open and the frame is the next scheduled flash; it then records that frame, and otherwise nothing changes |
| SimpleDarkFlash.FlashStepKeepsCursorInv | Experiments/SimpleDarkFlash.cs:194-199 | the flash step keeps the cursor within the schedule and the last flash frame equal to the entry just behind the cursor (`uint.MaxValue` before any flash); this is the class invariant `Valid` |
| SimpleDarkFlash.DFrames | Experiments/SimpleDarkFlash.cs:210-212 | the distance to the next flash is never negative: a past flash reads as `int.MaxValue` |
| SimpleDarkFlash.RecordStep | Experiments/SimpleDarkFlash.cs:208-234 | indexing past the schedule (or no schedule) throws; outside the flash bracket nothing is recorded; otherwise record and new-record follow the selected-burst, pre-window and unsigned post-window tests, and the burst counter grows exactly at the end of a real post-window |
| SimpleDarkFlash.PostWindowBeforeFirstFlash | Experiments/SimpleDarkFlash.cs:222 | before any flash the sentinel `uint.MaxValue` makes `last + post` wrap, so the post-window test holds only for frames below post (or post 0) |
| SimpleDarkFlash.PostWindowAfterFlash | Experiments/SimpleDarkFlash.cs:222 | after a real flash without wrap-around the post window is the frames up to flash + RecordPost |
| SimpleDarkFlash.DFramesExact | Experiments/SimpleDarkFlash.cs:210-212 | for non-negative frames, the distance is the plain difference until the flash has passed and `int.MaxValue` after |
| SimpleDarkFlash.NewRecordOneFrameBefore | Experiments/SimpleDarkFlash.cs:225-226 | for a selected burst, a new recording is signalled exactly RecordPre + 1 frames before the next flash |
| SimpleDarkFlash.PreWindowRecords | Experiments/SimpleDarkFlash.cs:222-223 | outside the post window, a frame is recorded exactly when it is at most RecordPre frames before the next flash |
| SimpleDarkFlash.NoBurstBeforeFirstFlash | Experiments/SimpleDarkFlash.cs:229-232 | no burst is counted while no flash has been given |
| SimpleDarkFlash.SimpleDarkFlash.constructor | Experiments/SimpleDarkFlash.cs:65-72 | base state as the base constructor sets it; no flash yet (`_lastFlashFrame = uint.MaxValue`), cursor and burst count 0, no schedule, flash bracket 0 to 24; the cursor invariant `Valid` holds |
| SimpleDarkFlash.SimpleDarkFlash.FlashFrames | Experiments/SimpleDarkFlash.cs:236-276 | throws exactly when a random gap is needed with min > max; otherwise the array is `Schedule` of the configuration and some allowed gap picks |
| SimpleDarkFlash.SimpleDarkFlash.RetentionFlashes | Experiments/SimpleDarkFlash.cs:265-271 | the retention loop yields `Retention` of its start |
| SimpleDarkFlash.SimpleDarkFlash.BlockFlashes | Experiments/SimpleDarkFlash.cs:251-260 | one stimulus block yields `Steps` and `Walk` of allowed gaps, or throws when a random gap is asked with min > max |
| SimpleDarkFlash.SimpleDarkFlash.Init | Experiments/SimpleDarkFlash.cs:178-181 | the stored schedule becomes the one FlashFrames builds; on a throw it is unchanged; a first build from a valid state keeps `Valid` |
| SimpleDarkFlash.SimpleDarkFlash.PerformDarkFlash | Experiments/SimpleDarkFlash.cs:164-172 | the last flash becomes this frame and the cursor moves on by one |
| SimpleDarkFlash.SimpleDarkFlash.PerformAction | Experiments/SimpleDarkFlash.cs:187-200 | builds the schedule lazily (keeping one that exists), then the clock state is `Tick` and the flash state `FlashStep` of the old ones; a throw changes nothing; `Valid` is preserved |
| SimpleDarkFlash.SimpleDarkFlash.RecordFrame | Experiments/SimpleDarkFlash.cs:208-234 | the decision and the new burst count are `RecordStep` of the old state |
| MainViewModel.QueueStep | ViewModels/MainViewModel.cs:482-493 | an empty queue never switches; otherwise the head is dequeued, and its plate becomes current, exactly when its frame is the current frame |
| MainViewModel.Due | ViewModels/MainViewModel.cs:482-493 | the number of flips due before a frame is at most the queue length |
| MainViewModel.SwitchesFollowQueue | ViewModels/MainViewModel.cs:482-493 | over any run of consecutive frames, a strictly ascending queue whose head is not yet past loses exactly the flips due in that run, and the plate is the last one taken |
| MainViewModel.DuplicateFlipStalls | ViewModels/MainViewModel.cs:486 | a head flip whose frame has already passed is never dequeued again, so a duplicate frame stalls the queue for good |
| MainViewModel.BaselineGate | ViewModels/MainViewModel.cs:1250-1259 | no baseline frame is processed in the 2 s after a flip, and every `frameRate / baselineFrameRate`-th frame after that is (in general: a stride frame more than 2 s after the flip by unsigned difference); a forced full update happens exactly when a frame is processed with the countdown positive, and that consumes one count |
| MainViewModel.CountdownConsumedByBaseline | ViewModels/MainViewModel.cs:1250-1259 | over any run of frames, the forced full updates number the smaller of the processed frames and the countdown, and the countdown left is what the processed frames did not use |
| MainViewModel.Int32Bytes | ViewModels/MainViewModel.cs:767-779 | `BitConverter.GetBytes` of an `int` is four bytes |
| MainViewModel.Int32RoundTrip | ViewModels/MainViewModel.cs:767-779 | reading the four little-endian bytes back gives the same `int` |
| MainViewModel.IndexBytesLength | ViewModels/MainViewModel.cs:778-779 | the indices take four bytes each |
| MainViewModel.IndexBytesRoundTrip | ViewModels/MainViewModel.cs:778-779 | the index bytes read back to the same indices |
| MainViewModel.PayloadLength | ViewModels/MainViewModel.cs:748-783 | a payload of n indices is `16 + 4n` bytes: zeros, length, zeros, indices, zeros |
| MainViewModel.PayloadRoundTrip | ViewModels/MainViewModel.cs:748-783 | the receiving side recovers exactly the indices sent |
| MainViewModel.SerialLink.constructor | ViewModels/MainViewModel.cs:1048-1049 | a newly opened port has had nothing written |
| MainViewModel.SerialLink.Write | ViewModels/MainViewModel.cs:762 | a write appends its bytes to what the port has received |
| MainViewModel.SendPayloadToTeensy | ViewModels/MainViewModel.cs:748-783 | the bytes written are exactly the payload of the index array |
| MainViewModel.SendTriggerToTeensy | ViewModels/MainViewModel.cs:805-809 | the trigger is four zero bytes |
| MainViewModel.FishRoundTrip | ViewModels/MainViewModel.cs:719-727 | a well's three fields (centroid and angle, or three NaN) read back to the same fish or to no fish |
| MainViewModel.ParseFishFieldsSnoc | ViewModels/MainViewModel.cs:717-729 | reading the fish fields of a line splits off the last well's triple |
| MainViewModel.AllFishFieldsRoundTrip | ViewModels/MainViewModel.cs:715-730 | the fish fields of a frame are three per well and read back to the same wells |
| MainViewModel.TrackLineRoundTrip | ViewModels/MainViewModel.cs:714-737 | a track line has `2 + 3 * wells` fields and reads back to frame index, fish and timestamp |
| MainViewModel.NoResultReadsAsOneEmptyWell | ViewModels/MainViewModel.cs:731-734 | a frame without a result writes one NaN triple, which reads back as a single empty well |
| MainViewModel.FixedPicksOnly | ViewModels/MainViewModel.cs:1003-1004 | with equal interval bounds the generator has exactly one allowed choice, every gap being the interval |
| MainViewModel.FixedWalk | Experiments/SimpleDarkFlash.cs:254-255 | with a fixed 60 s interval, a block's counter moves 33600 frames per flash without wrap-around |
| MainViewModel.FixedBlockStart | ViewModels/MainViewModel.cs:974-1007 | block j of a plate starts `j * 4099200` frames after that plate's countdown |
| MainViewModel.FixedTrainingEnd | ViewModels/MainViewModel.cs:974-1007 | training ends one block length after the start of the seventh block |
| MainViewModel.FixedTrainingFlash | ViewModels/MainViewModel.cs:974-1012 | training flash k of block b is at countdown + `b * 4099200 + k * 33600` |
| MainViewModel.FixedRetEnd | ViewModels/MainViewModel.cs:1009 | the retention counter moves 33600 frames per interval without wrap-around |
| MainViewModel.FixedRetentionFlash | ViewModels/MainViewModel.cs:1008-1009 | retention flash k is 12 hours after training plus `k + 1` intervals |
| MainViewModel.PlateFramesLength | ViewModels/MainViewModel.cs:1005-1012 | a plate's schedule has 481 entries and ends with NumFrames |
| MainViewModel.PlateFramesClosedForm | ViewModels/MainViewModel.cs:986-1012 | the generator, with a plate's settings, produces the closed-form schedule |
| MainViewModel.FlipsUpToLength | ViewModels/MainViewModel.cs:1014-1027 | after p plates the lists hold 7 flips per plate plus plate 0's extra one |
| MainViewModel.FlipCount | ViewModels/MainViewModel.cs:986-1031 | the flip list has `7 * plates + 1` entries (none without plates) |
| MainViewModel.FlipFollowsBlock | ViewModels/MainViewModel.cs:1014-1017 | flip j of a plate is one second after the end of its block j: last flash, one interval, one second |
| MainViewModel.ExtraFlipAfterRetention | ViewModels/MainViewModel.cs:1021-1026 | the extra flip is one second after plate 0's last real flash, the entry before the sentinel (frame 53491760) |
| MainViewModel.PlateOneFollowsPlateZero | ViewModels/MainViewModel.cs:976-1018 | plate 1's block j starts one minute after plate 0's block j ended, and the flip to plate 1 falls between the two |
| MainViewModel.PlateZeroFollowsPlateOne | ViewModels/MainViewModel.cs:976-1018 | plate 0's next block starts one minute after plate 1's block ended, and the flip back to plate 0 falls between the two |
| MainViewModel.NextBlockFirstFlash | ViewModels/MainViewModel.cs:979-980 | consecutive blocks of a plate start one rest-plus-block period apart |
| MainViewModel.DefaultRunEndsBeforeRetention | ViewModels/MainViewModel.cs:234 | the default run length ends one second plus one interval after plate 1's last flip, before the first retention flash |
| MainViewModel.FlipFrameValue | ViewModels/MainViewModel.cs:1014-1017 | flip j of a plate is at countdown + `2016560 + j * 4099200` |
| MainViewModel.FlipListElems | ViewModels/MainViewModel.cs:986-1027 | the unsorted flip list, entry by entry: plate 0's seven flips to plate `1 % plates`, the extra flip to plate 1, then plate 1's seven flips to plate 0 |
| MainViewModel.FlipFramesDistinct | ViewModels/MainViewModel.cs:986-1027 | no two flips of one or two plates share a frame |
| MainViewModel.SwapPairs | ViewModels/MainViewModel.cs:1033 | swapping the same two places in both arrays keeps the keys and the (key, item) pairs |
| MainViewModel.SortPaired | ViewModels/MainViewModel.cs:1033 | `Array.Sort(keys, items)`: keys ascending, a permutation of the old keys, and every key keeps its item |
| MainViewModel.InsertLast | ViewModels/MainViewModel.cs:1033 | one insertion step extends the sorted prefix by one, keeping the pairs |
| MainViewModel.SwapBoth | ViewModels/MainViewModel.cs:1033 | exchanges the same two neighbours in both arrays |
| MainViewModel.StrictZip | ViewModels/MainViewModel.cs:1078-1082 | strictly ascending keys give a strictly ascending queue |
| MainViewModel.SortedFlipsStrictlyAscend | ViewModels/MainViewModel.cs:1033 | sorted keys that permute flips with distinct frames are strictly ascending |
| MainViewModel.FlipFrameRange | ViewModels/MainViewModel.cs:1017 | every block flip of plates 0 and 1 is a positive `int` |
| MainViewModel.InterleaveMultiset | ViewModels/MainViewModel.cs:1033 | merging the two plates' flips by turns keeps every flip |
| MainViewModel.SwitchScheduleElems | ViewModels/MainViewModel.cs:1014-1033 | the sorted schedule entry by entry: one plate flips to itself every 4099200 frames; two plates alternate every 2049600 frames starting with plate 1; the extra flip to plate 1 is last |
| MainViewModel.SwitchScheduleAscending | ViewModels/MainViewModel.cs:1033 | the switch schedule strictly ascends in frame |
| MainViewModel.SwitchSchedulePermutes | ViewModels/MainViewModel.cs:1033 | the switch schedule holds exactly the flips of the plate loop |
| MainViewModel.AscendingUnique | ViewModels/MainViewModel.cs:1033 | two strictly ascending queues with the same flips are equal, so the sort result is unique |
| MainViewModel.SwitchScheduleFits | ViewModels/MainViewModel.cs:1014-1031 | at most 15 flips, all after frame 0 and inside `int` |
| MainViewModel.SwitchScheduleReady | ViewModels/MainViewModel.cs:1078-1082 | the schedule is a queue the per-frame switch can follow |
| MainViewModel.SortedIsSwitchSchedule | ViewModels/MainViewModel.cs:1030-1033 | any sorted pairing of the plate loop's flips is the switch schedule |
| MainViewModel.SortFlips | ViewModels/MainViewModel.cs:1030-1033 | sorting the plate loop's lists yields the switch schedule |
| MainViewModel.ConfiguredSchedule | ViewModels/MainViewModel.cs:990-1012 | an experiment set up by the plate loop holds its plate's closed-form schedule |
| MainViewModel.CreatedReady | ViewModels/MainViewModel.cs:1012 | every created experiment holds a schedule the per-frame code may index |
| MainViewModel.FullRateAction | ViewModels/MainViewModel.cs:690-691 | PerformAction, then in iris mode RecordFrame on the state PerformAction left; the frame is produced exactly when it is recorded |
| MainViewModel.Frames32 | ViewModels/MainViewModel.cs:1075 | the flips' frames as `int`s, in order |
| MainViewModel.MainViewModel.constructor | ViewModels/MainViewModel.cs:228-237 | NumFrames `29333920 + 560 * 60`, no pre-burst, one second post-burst, iris mode, plate 0 of 2, empty queue, no experiments |
| MainViewModel.MainViewModel.UpdatePlateIndex | ViewModels/MainViewModel.cs:482-493 | the new queue, plate and result are `QueueStep` of the old state |
| MainViewModel.MainViewModel.ProcessFullRateFrame | ViewModels/MainViewModel.cs:685-696 | no experiments: nothing, and no new writer; a missing current experiment throws; otherwise the current experiment takes the full-rate step |
| MainViewModel.MainViewModel.CreateSDFExperiments | ViewModels/MainViewModel.cs:969-1035 | throws exactly for more than two plates or a negative plate count; otherwise one new experiment per plate, each configured for its plate, and flip arrays that are the sorted switch schedule |
| MainViewModel.MainViewModel.PlateLoop | ViewModels/MainViewModel.cs:986-1029 | one new configured experiment per plate, and flip lists that are exactly the unsorted flip list |
| MainViewModel.MainViewModel.AppendExtraFlip | ViewModels/MainViewModel.cs:1021-1027 | appends the flip to plate 1 one second after plate 0's last real flash |
| MainViewModel.MainViewModel.NewPlateExperiment | ViewModels/MainViewModel.cs:988-1012 | a new experiment with plate i's countdown, the protocol's settings and its schedule built |
| MainViewModel.MainViewModel.SetUpPlate | ViewModels/MainViewModel.cs:988-1011 | a new experiment with plate i's countdown and all of the loop's settings |
| MainViewModel.MainViewModel.SetBaseWindow | ViewModels/MainViewModel.cs:1000-1011 | the day bracket becomes 0 to 24 and the recording window the burst window; the clock is unchanged |
| MainViewModel.MainViewModel.SetFlashProtocol | ViewModels/MainViewModel.cs:998-1009 | flash hours 0 to 24, every burst recorded, and the two-plate protocol's block, interval, rest and retention settings; the flash state is unchanged |
| MainViewModel.MainViewModel.PlateFlipArrays | ViewModels/MainViewModel.cs:1014-1019 | appends the plate's seven flips, each to the next plate |
| MainViewModel.MainViewModel.StartExperiment | ViewModels/MainViewModel.cs:1051-1082 | frame 0 and plate 0; throws exactly for more than two plates or a negative plate count; otherwise the experiments are created, each plate's schedule and then (for two plates) the switch frames are sent, and the queue is the switch schedule |
| MainViewModel.MainViewModel.Launch | ViewModels/MainViewModel.cs:1066-1082 | creates the experiments, sends the schedules, and fills the queue with the switch schedule |
| MainViewModel.MainViewModel.CreateAndSend | ViewModels/MainViewModel.cs:1066-1076 | creates the experiments and sends every plate's schedule followed by the switch payload |
| MainViewModel.MainViewModel.SendFlips | ViewModels/MainViewModel.cs:1073-1076 | the switch frames are sent only with more than one plate |
| MainViewModel.MainViewModel.SendSchedules | ViewModels/MainViewModel.cs:1071-1072 | each plate's schedule is sent in plate order |
| MainViewModel.MainViewModel.SendSchedule | ViewModels/MainViewModel.cs:1072 | the bytes sent are the payload of that plate's closed-form schedule |
| MainViewModel.MainViewModel.FillSwitchQueue | ViewModels/MainViewModel.cs:1078-1082 | the queue holds the pairs in array order |
| MainViewModel.MainViewModel.FrameStep | ViewModels/MainViewModel.cs:1160-1332 | one frame of the tracking loop: the trigger on frame 0, the countdown reset after a buffer clear, the full-rate step, then the plate switch (resetting the countdown and the last flip frame), the baseline gate, the unsigned frame increment and the end test against `NumFrames - 1` |
| MainViewModel.MainViewModel.FrameStart | ViewModels/MainViewModel.cs:1163-1224 | the trigger on frame 0, the countdown reset after a buffer clear, then the full-rate step |
| MainViewModel.MainViewModel.AdvanceFrame | ViewModels/MainViewModel.cs:1226-1332 | the plate switch, the baseline gate on the reset or kept countdown, the frame increment and the end test |
| Tracker90mmDish.Im2BwPixel | Tracking/Tracker90mmDish.cs:292-296 | thresholding makes a pixel 255 exactly when it is above the threshold and 0 otherwise; for thresholds below 255 this is what the two library calls compute |
| Tracker90mmDish.Im2BwAsWrittenAt255 | Tracking/Tracker90mmDish.cs:294 | at threshold 255, `(byte)(threshold + 1)` wraps to 0, so the two calls leave every pixel unchanged, and any non-zero pixel is then not binarised |
| Tracker90mmDish.MapRegion | Tracking/Tracker90mmDish.cs:294-295 | an in-place per-pixel operation changes exactly the pixels inside the region |
| Tracker90mmDish.LastBackFacts | Tracking/Tracker90mmDish.cs:389-410 | a backward scan moves in steps of 5, runs only while the guard allows, reads only lines at most 4 below the guard, stops at the first empty line it reads, and every line it passed holds blob pixels |
| Tracker90mmDish.LastForwardFacts | Tracking/Tracker90mmDish.cs:396-418 | the same for the forward scans: steps of 5, guarded, at most 4 past the guard, stopping at the first empty line |
| Tracker90mmDish.ScanBack | Tracking/Tracker90mmDish.cs:389-393 | the scan loop returns the last line read by the backward scan |
| Tracker90mmDish.ScanForward | Tracking/Tracker90mmDish.cs:396-401 | the scan loop returns the last line read by the forward scan |
| Tracker90mmDish.ScansStayInside | Tracking/Tracker90mmDish.cs:380-419 | for a centroid inside the region, every line the four scans read lies inside the region, and the box edges are one line inside where the scans stopped |
| Tracker90mmDish.Blobs | Tracking/Tracker90mmDish.cs:328-333 | one blob slot for each label, the count capped at 254 |
| Tracker90mmDish.Largest | Tracking/Tracker90mmDish.cs:427-439 | the index found is -1 or a valid slot |
| Tracker90mmDish.LargestBlob | Tracking/Tracker90mmDish.cs:427-439 | the max-area loop over the blob array computes `Largest` |
| Tracker90mmDish.LargestIsFirstMaximum | Tracking/Tracker90mmDish.cs:427-439 | the loop finds the largest area, with index -1 exactly when no area is positive, and otherwise the first blob of that area |
| Tracker90mmDish.ExtractedCandidate | Tracking/Tracker90mmDish.cs:316-445 | a returned fish is a measured blob with area in `(MinArea, MaxArea]`, at least as large as every blob and larger than every earlier one |
| Tracker90mmDish.ExtractedNone | Tracking/Tracker90mmDish.cs:326-444 | no fish exactly when there is no label or every blob is below MinArea; an index-out-of-range exactly when labels exist, MinArea is not positive and every blob is empty |
| Tracker90mmDish.Tracker90mmDish.constructor | Tracking/Tracker90mmDish.cs:248-272 | frame 0, threshold 5, areas 10 to 300, full-trust area 20, 7200 background frames and twice that for the initial background, a foreground of the image's size |
| Tracker90mmDish.Tracker90mmDish.SetFramesInBackground | Tracking/Tracker90mmDish.cs:202-214 | the setter throws once tracking has started, and otherwise stores the value |
| Tracker90mmDish.Tracker90mmDish.SetFramesInitialBackground | Tracking/Tracker90mmDish.cs:219-231 | the same guard for the initial-background length |
| Tracker90mmDish.Tracker90mmDish.Im2Bw | Tracking/Tracker90mmDish.cs:292-296 | binarises exactly the pixels inside the region (0 up to the threshold, 255 above) and leaves the rest of the image alone; this is the corrected thresholding, which differs from the code only at threshold 255 (see Findings) |
| Tracker90mmDish.Tracker90mmDish.MeasureBlob | Tracking/Tracker90mmDish.cs:335-422 | label i becomes a fish blob with moments and scanned box when its area is in range, and an empty blob otherwise |
| Tracker90mmDish.Tracker90mmDish.MeasureBlobs | Tracking/Tracker90mmDish.cs:332-423 | the blob array holds `BlobOf` of labels 1 to n in order |
| Tracker90mmDish.Tracker90mmDish.ExtractFish | Tracking/Tracker90mmDish.cs:316-445 | the detection is `Extracted` of the region's labelling, whose properties the two lemmas above state |
| TrackerMultiWell.InRowFacts | Tracking/TrackerMultiWell.cs:228-237 | a row list holds exactly the wells starting at that y, and is non-empty exactly for a row coordinate that occurs |
| TrackerMultiWell.InRowSnoc | Tracking/TrackerMultiWell.cs:228-241 | one more well joins exactly its own row list, in order, and its own column count |
| TrackerMultiWell.AddToRowStep | Tracking/TrackerMultiWell.cs:228-237 | the row-dictionary update keeps the dictionary equal to the row lists of the wells seen so far |
| TrackerMultiWell.CountColumnStep | Tracking/TrackerMultiWell.cs:238-241 | the column-count update keeps every count equal to the number of wells seen so far in that column |
| TrackerMultiWell.GroupWells | Tracking/TrackerMultiWell.cs:214-242 | the dictionaries have the distinct row and column starts as keys, each row's wells in file order, and each column's well count |
| TrackerMultiWell.SetMin | Tracking/TrackerMultiWell.cs:273-277 | the least element of a non-empty set |
| TrackerMultiWell.MinOf | Tracking/TrackerMultiWell.cs:273-277 | a pass over the set finds its least element |
| TrackerMultiWell.SortedKeys | Tracking/TrackerMultiWell.cs:273-277 | `Keys.ToArray()` then `Array.Sort` gives the keys in ascending order |
| TrackerMultiWell.SortedFacts | Tracking/TrackerMultiWell.cs:273-277 | the sorted keys strictly ascend and hold exactly the keys, once each |
| TrackerMultiWell.Bands | Tracking/TrackerMultiWell.cs:270-290 | one (start row, end row) pair per chunk: `i * nPerChunk` on, with the last chunk taking the remainder |
| TrackerMultiWell.BandsTile | Tracking/TrackerMultiWell.cs:270-290 | for 2 to rows chunks, the bands are non-empty, consecutive and cover the sorted rows from first to last |
| TrackerMultiWell.ChainAscends | Tracking/TrackerMultiWell.cs:284-290 | an earlier band ends before a later band starts |
| TrackerMultiWell.RowInOneBand | Tracking/TrackerMultiWell.cs:284-296 | every sorted row lies in exactly one chunk |
| TrackerMultiWell.RowsConcatAppend | Tracking/TrackerMultiWell.cs:294-296 | listing two runs of rows lists the first run's wells, then the second's |
| TrackerMultiWell.RowsConcatSnoc | Tracking/TrackerMultiWell.cs:294-296 | a new well is listed once if its row is listed and not at all otherwise |
| TrackerMultiWell.RowsConcatPermutes | Tracking/TrackerMultiWell.cs:294-296 | listing every row once lists every well of the plate exactly once |
| TrackerMultiWell.RowHeads | Tracking/TrackerMultiWell.cs:298-303 | the first well of every sorted row list is a plate well starting at that row |
| TrackerMultiWell.ChunkRegionCoversWells | Tracking/TrackerMultiWell.cs:298-306 | a chunk's region, with its top at its own first row, contains every well of the chunk's rows |
| TrackerMultiWell.ColumnSpan | Tracking/TrackerMultiWell.cs:276-303 | every well starts between the first and the last sorted column |
| TrackerMultiWell.ChunkRegionWithinAsWritten | Tracking/TrackerMultiWell.cs:298-306 | the constructor's region of a chunk contains the corrected one, and every pixel it adds lies above the chunk's first row |
| TrackerMultiWell.ChunkRegionsAsWrittenOverlap | Tracking/TrackerMultiWell.cs:298 | with `y_top` taken from row 0, every chunk's region contains the plate's top-left well corner, so any two regions overlap |
| TrackerMultiWell.ChunkRegionsDisjoint | Tracking/TrackerMultiWell.cs:298-306 | with the top at the chunk's own first row, and rows at least one well apart, no pixel lies in two chunk regions |
| TrackerMultiWell.FlattenSlots | Tracking/TrackerMultiWell.cs:598-599 | slot `offset(c) + i` of the result list holds well i of chunk c |
| TrackerMultiWell.OffsetsAscend | Tracking/TrackerMultiWell.cs:320-324 | later chunks' slots start after earlier chunks' slots end, and the last offset is the number of wells |
| TrackerMultiWell.SlotOf | Tracking/TrackerMultiWell.cs:598-599 | every result slot belongs to one (chunk, well) pair |
| TrackerMultiWell.SlotsDisjoint | Tracking/TrackerMultiWell.cs:598-599 | no two (chunk, well) pairs write the same result slot |
| TrackerMultiWell.FlattenBands | Tracking/TrackerMultiWell.cs:279-296 | the chunk well lists, one after the other, list the sorted rows' wells in row order |
| TrackerMultiWell.AppendRow | Tracking/TrackerMultiWell.cs:295-296 | adding a row's wells appends them in order |
| TrackerMultiWell.ChunkWells | Tracking/TrackerMultiWell.cs:294-296 | a chunk's list is the wells of its rows, row after row |
| TrackerMultiWell.ChunkRows | Tracking/TrackerMultiWell.cs:270-290 | the start and end row of chunk i are its band |
| TrackerMultiWell.BuildChunk | Tracking/TrackerMultiWell.cs:283-306 | chunk i's well list and region for its band |
| TrackerMultiWell.BuildChunks | Tracking/TrackerMultiWell.cs:279-317 | one well list and region per chunk, bands tiling the rows |
| TrackerMultiWell.CumulativeCounts | Tracking/TrackerMultiWell.cs:320-324 | the cumulative counts are the slot offsets of the chunks, starting at 0 |
| TrackerMultiWell.ChunkRegionInside | Tracking/TrackerMultiWell.cs:298-306 | both the region the constructor builds (top from row 0) and the corrected one lie inside the image when every well does |
| TrackerMultiWell.BestLabelIsFirstMaximum | Tracking/TrackerMultiWell.cs:370-379 | no label exactly when no histogram count is in `(MinArea, MaxArea]`; otherwise the first label of largest qualifying count |
| TrackerMultiWell.HistogramArgMax | Tracking/TrackerMultiWell.cs:370-379 | the histogram scan computes `BestLabel` |
| TrackerMultiWell.ClampBox | Tracking/TrackerMultiWell.cs:422-431 | the clamped box lies inside the well and is no larger than the fixed size |
| TrackerMultiWell.BoxAroundCentroid | Tracking/TrackerMultiWell.cs:422-431 | the box contains the centroid and is non-empty; where the well leaves room it is the unclamped square of side `(int)(1.5 * length)` offset by `(int)(0.75 * length)` |
| TrackerMultiWell.WellFishChoice | Tracking/TrackerMultiWell.cs:360-432 | a well has no fish exactly when no label qualifies; otherwise the fish is the first label of largest qualifying count, with that count as area and its centroid |
| TrackerMultiWell.Detections | Tracking/TrackerMultiWell.cs:661-662 | one detection per well |
| TrackerMultiWell.PlateFish | Tracking/TrackerMultiWell.cs:360-435 | one result entry per well |
| TrackerMultiWell.NoFish | Tracking/TrackerMultiWell.cs:618 | a new result array: one null entry per well |
| TrackerMultiWell.ExtractEachWell | Tracking/TrackerMultiWell.cs:659-663 | the per-well loop returns the detections, or throws at the first well whose extraction throws |
| TrackerMultiWell.CollectResults | Tracking/TrackerMultiWell.cs:640-641 | copying the chunk results gives the same outcome as the detections they hold |
| TrackerMultiWell.Fill | Tracking/TrackerMultiWell.cs:612-616 | every pixel of the image gets the given value |
| TrackerMultiWell.BackgroundRule | Tracking/TrackerMultiWell.cs:668-676 | frame 0 seeds the background; later frames update it unless the rate reduction applies after the initial background; a forced full frame updates fully, otherwise the update is selective around the fish |
| TrackerMultiWell.CoveredStep | Tracking/TrackerMultiWell.cs:635 | thresholding one more chunk region extends the thresholded area by exactly that region |
| TrackerMultiWell.PlanChunks | Tracking/TrackerMultiWell.cs:265-325 | the chunk lists, regions and offsets together make the constructor's parallel plan |
| TrackerMultiWell.PlanParallel | Tracking/TrackerMultiWell.cs:265-325 | the parallel block of the constructor establishes that plan |
| TrackerMultiWell.Layout | Tracking/TrackerMultiWell.cs:214-325 | the chunk count is the requested one capped at the number of rows, and with more than one chunk the plan holds |
| TrackerMultiWell.ChunkSlots | Tracking/TrackerMultiWell.cs:598-599 | chunk c's wells go to the slots from its offset on, in order |
| TrackerMultiWell.DetectionsSlice | Tracking/TrackerMultiWell.cs:598-599 | detecting a chunk's wells gives the same entries as the plate-wide detections at those slots |
| TrackerMultiWell.FillSlots | Tracking/TrackerMultiWell.cs:597-599 | writes exactly the chunk's slots with its detections and leaves every other slot alone |
| TrackerMultiWell.TrackerMultiWell.constructor | Tracking/TrackerMultiWell.cs:184-326 | the base defaults, fish length 30, per-well tracking, the chunk count capped at the number of rows, and the parallel plan |
| TrackerMultiWell.TrackerMultiWell.SetTypicalFishLength | Tracking/TrackerMultiWell.cs:136-148 | lengths below 1 throw; otherwise the length is stored |
| TrackerMultiWell.TrackerMultiWell.SetTrackMethod | Tracking/TrackerMultiWell.cs:157-167 | the track method is stored |
| TrackerMultiWell.TrackerMultiWell.ExtractAll | Tracking/TrackerMultiWell.cs:338-436 | the shared result array, and the value returned, is the per-well choice over the plate labelling |
| TrackerMultiWell.TrackerMultiWell.TrackChunk | Tracking/TrackerMultiWell.cs:579-600 | thresholds exactly the chunk's region and writes exactly the chunk's result slots, with the same detections as the plate-wide list |
| TrackerMultiWell.TrackerMultiWell.RunChunks | Tracking/TrackerMultiWell.cs:633-638 | after every chunk, exactly the union of the chunk regions is thresholded, and the result array is the detections of all wells in slot order |
| TrackerMultiWell.TrackerMultiWell.TrackedFish | Tracking/TrackerMultiWell.cs:633-664 | a tracked result has one entry per well |
| TrackerMultiWell.TrackerMultiWell.FrameResult | Tracking/TrackerMultiWell.cs:610-681 | a frame without tracking returns one null per well; tracking without a background throws |
| TrackerMultiWell.TrackerMultiWell.TrackFrame | Tracking/TrackerMultiWell.cs:626-664 | the foreground is the difference image, binarised everywhere except, on the parallel path, outside the (corrected) chunk regions; the result is the tracked fish, and only the path taken touches its result array |
| TrackerMultiWell.TrackerMultiWell.TrackMultiWell | Tracking/TrackerMultiWell.cs:610-681 | the result is `FrameResult`; a throw leaves the frame counter and background alone; otherwise the background step follows `BackgroundRule`, the frame counter advances with `int` wrap, and the foreground and result arrays are exactly those of the path taken (frame 0 clears the foreground) |

## Left out

- Camera acquisition, the NI driver declarations, the camera wrapper, the UI, the application bootstrap and the experiment interface. They are driver, UI or declarations only, with no logic of the core. MainViewModel.MainViewModel.FrameStep is one loop iteration with an acquired frame; the timeout and failed-acquisition retries (ViewModels/MainViewModel.cs:1185-1202: the trigger re-sent while the frame index is 0, the buffer-clear reset run again, and the abort after 100 retries) are not modelled.
- File and stream output: the flash-frame file line of PerformDarkFlash, the track writer, TIFF writers, `Saver`, and the ROI resource file. The model keeps the state changes and the line layout. The well list is a constructor argument.
- The ack byte read after a payload (ViewModels/MainViewModel.cs:785-798). It is logged only and changes no state.
- Image-library primitives: connected-component labelling, moments, `Sum`, the histogram, `AbsDiff`, `Close3x3`, the median filter, and the selective background model's internals. They are inputs to the model:
  - `Labelling` gives a region's label count, per-label area and centroid, and per-line sums;
  - `PlateLabelling` gives per-well histogram counts and centroids;
  - `difference` is the background difference image.
- The in-place rewrite of the foreground by labelling and closing. The model's foreground stops at thresholding.
- `DoMedianFiltering` is taken as false, since the median filter is library code.
- Tracking with `BlobWithMoments`: only the area, the centroid, the marker and the bounding box are kept. The other moments and the angle are floating point.
- TrackerMultiWell.TrackerMultiWell.constructor: needs at least two wells, because the C# reads `_wells[1]` for its compare buffer. It also needs a non-negative chunk count (a negative array size throws), wells of one size (the code assumes it), and wells inside the image.
- TrackerMultiWell.TrackerMultiWell.TrackChunk: ExtractWellParallel (Tracking/TrackerMultiWell.cs:444-572) repeats ExtractFish's logic on per-chunk buffers, so it is modelled by the dish's `Extracted`.
- Concurrency. The chunk regions the constructor builds overlap (every one contains row 0, see Findings), so in the program the chunks threshold, close and label shared pixels in place at the same time; that race is not modelled. The model runs the chunks one after the other. For the modelled thresholding this order does not matter, because thresholding a pixel twice gives the same value (`TrackerMultiWell.CoveredStep`), and the result slots of different chunks are disjoint (`TrackerMultiWell.SlotsDisjoint`). An exception in one chunk is modelled as the whole frame throwing, without the partial results of the other chunks. The burst-writer task, `_burstLock` and the ring buffer are left out.
- The chunk regions: the model builds every chunk region with its top at the chunk's own first row (`TrackerMultiWell.ChunkRegion`), the corrected half of the Findings row for Tracking/TrackerMultiWell.cs:298. The program takes the top from row 0 (`TrackerMultiWell.ChunkRegionAsWritten`). On the parallel path the program therefore also thresholds the pixels above each chunk's first row that lie between the bands of earlier chunks; the model leaves those pixels at their difference value. `TrackerMultiWell.ChunkRegionWithinAsWritten` states that these are the only pixels by which the two regions differ. The members that carry the corrected regions are listed next.
- TrackerMultiWell.BuildChunk: the region is the corrected `ChunkRegion`, not the region with the row-0 top of Tracking/TrackerMultiWell.cs:298.
- TrackerMultiWell.BuildChunks: its regions are the corrected ones.
- TrackerMultiWell.PlanChunks: the plan it states holds the corrected regions.
- TrackerMultiWell.PlanParallel: it establishes the plan with the corrected regions.
- TrackerMultiWell.Layout: its plan holds the corrected regions.
- TrackerMultiWell.TrackerMultiWell.constructor: the stored `parallelImageRegions` are the corrected regions.
- TrackerMultiWell.TrackerMultiWell.TrackChunk: thresholds the corrected region of the chunk, with the corrected threshold.
- TrackerMultiWell.TrackerMultiWell.RunChunks: the thresholded area is the union of the corrected regions, so the gaps between the bands of consecutive chunks stay unthresholded, where the program thresholds them.
- TrackerMultiWell.TrackerMultiWell.TrackFrame: its foreground differs from the program's in those gaps on the parallel path, and everywhere in the thresholded area at threshold 255.
- TrackerMultiWell.TrackerMultiWell.TrackMultiWell: it inherits TrackFrame's foreground.
- Tracker90mmDish.Tracker90mmDish.Im2Bw: it applies the corrected thresholding `Binarize` (the corrected half of the Findings row for Tracking/Tracker90mmDish.cs:294). The code's `(byte)(_threshold + 1)` equals it for every threshold below 255 (`Tracker90mmDish.Im2BwPixel`). At threshold 255, which the public byte setter allows, the code leaves every pixel unchanged (`Tracker90mmDish.Im2BwAsWrittenAt255`), while the model zeroes them. TrackChunk, TrackFrame and TrackMultiWell inherit this.
- Aliasing of `_allFish`: ExtractAll returns the shared array itself. The model returns its contents and states that the array holds them.
- TrackerMultiWell.TrackerMultiWell.TrackMultiWell: the `currentFish == null` test of the background step never holds, because the array is always allocated. The pixel coordinates of wells, centroids and boxes are unbounded integers rather than 32-bit. With at most one chunk the chunk lists are empty and unused.
- MainViewModel.MainViewModel.FrameStep: the timestamp-based frame jump (ViewModels/MainViewModel.cs:1283-1321) is floating point, so the model takes the path where at most one frame elapsed.
- The display writes, the burst TIFF writer creation, `CheckAndClearBuffers` (its outcome is the `bufferCleared` input), the stop event, `ComputeAndWriteDeltaPixels`, the angle-to-degrees conversion and dispose patterns.
- The wall clock (`DateTime.Now.Hour`) is the `hourNow` parameter.
- SimpleDarkFlash.SimpleDarkFlash.RecordFrame: `_burstCount` is an unbounded integer. Reaching the 32-bit wrap would take 2^31 bursts. The same holds for `CurrentDay` in `ExperimentBase.ExperimentBase.PerformAction`.
- SimpleDarkFlash.SimpleDarkFlash.FlashFrames: requires `StimPerBlock < int.MaxValue`. At `int.MaxValue` the C# loop `i <= StimPerBlock` never ends, because `i` wraps.
- MainViewModel.SortPaired: `Array.Sort` is an unstable introspective sort. The model uses an insertion sort and states the result (ascending keys, the same pairs). With distinct flip frames, `MainViewModel.AscendingUnique` makes that result unique, so the algorithm does not matter.
- The base-rate processing of MainViewModel (ProcessBaseRateFrame) is modelled as its output line, `TrackLine`. The tracker call it makes is `TrackerMultiWell.TrackerMultiWell.TrackMultiWell`, and the two are not composed.

## Findings

| source | as written | input that shows it | evidently intended | confidence | as-written member | corrected member |
|---|---|---|---|---|---|---|
| Tracking/Tracker90mmDish.cs:294 | the lower threshold is `(byte)(_threshold + 1)`, which wraps to 0 when the threshold is 255, so no pixel is zeroed and every pixel keeps its value | threshold 255, any pixel value 1 to 254 (stays unchanged instead of becoming 0) | a binary image: 255 above the threshold, 0 otherwise | not executed | Tracker90mmDish.Im2BwAsWritten, Tracker90mmDish.Im2BwAsWrittenAt255 | Tracker90mmDish.Im2BwPixel, Tracker90mmDish.Tracker90mmDish.Im2Bw |
| Tracking/TrackerMultiWell.cs:298 | every chunk region's top is taken from row 0, not from the chunk's own first row, so all chunk regions overlap; while the chunks run in parallel, a later chunk thresholds and labels in place pixels that an earlier chunk is labelling | two rows of wells at y = 0 and y = 100, height 90, two chunks: chunk 1's region starts at y = 0 and contains all of chunk 0's region | each chunk region starts at its own first row, so the regions are disjoint | not executed | TrackerMultiWell.ChunkRegionAsWritten, TrackerMultiWell.ChunkRegionsAsWrittenOverlap | TrackerMultiWell.ChunkRegion, TrackerMultiWell.ChunkRegionsDisjoint |
