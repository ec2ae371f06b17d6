/** The simple dark-flash experiment: the schedule of dark flashes (training
    blocks, rest gaps, a retention block and a trailing sentinel), the
    next-flash cursor, and the per-frame recording decision. */
module SimpleDarkFlash {
  import opened Common
  import ExperimentBase

  // ---------------------------------------------------------------------
  // The schedule, as a function of the configuration and of the interval
  // picks the random generator made (one sequence of gaps per block).
  // ---------------------------------------------------------------------

  /** The experiment parameters the schedule depends on. */
  datatype FlashConfig = FlashConfig(
    initialCountdown: i32, totalFrames: i32,
    nBlocks: i32, stimPerBlock: i32,
    intervalMin: i32, intervalMax: i32,
    restTime: i32, retentionTime: i32, retentionIsi: i32)

  /** How often the block loop runs (`block < nBlocks` from 0). */
  function BlockCount(c: FlashConfig): nat {
    if c.nBlocks < 0 then 0 else c.nBlocks
  }

  /** How often each stimulus loop runs (`i <= StimPerBlock` from 1). */
  function StimCount(c: FlashConfig): nat {
    if c.stimPerBlock < 0 then 0 else c.stimPerBlock
  }

  /** A gap the generator may produce: the fixed interval when both bounds
      agree, otherwise `Random.Next(min, max)`, which lies in [min, max). */
  predicate GapAllowed(c: FlashConfig, g: int) {
    if c.intervalMin == c.intervalMax then g == c.intervalMin
    else c.intervalMin <= g < c.intervalMax
  }

  /** `Random.Next(min, max)` throws when min > max; it is reached only if
      there is at least one stimulus and the bounds differ. */
  predicate RandomThrows(c: FlashConfig) {
    BlockCount(c) > 0 && StimCount(c) > 0 && c.intervalMin > c.intervalMax
  }

  predicate BlockAllowed(c: FlashConfig, gaps: seq<int>) {
    |gaps| == StimCount(c) && forall i :: 0 <= i < |gaps| ==> GapAllowed(c, gaps[i])
  }

  predicate PicksAllowed(c: FlashConfig, picks: seq<seq<int>>) {
    |picks| == BlockCount(c) && forall b :: 0 <= b < |picks| ==> BlockAllowed(c, picks[b])
  }

  /** The frame counter after adding the gaps one by one (unchecked `int`). */
  function Walk(start: i32, gaps: seq<int>): i32
    decreases |gaps|
  {
    if gaps == [] then start
    else AddI32(Walk(start, gaps[..|gaps| - 1]), gaps[|gaps| - 1])
  }

  /** The frames a block appends: the counter before each gap is added. */
  function Steps(start: i32, gaps: seq<int>): seq<i32>
    decreases |gaps|
  {
    if gaps == [] then []
    else Steps(start, gaps[..|gaps| - 1]) + [Walk(start, gaps[..|gaps| - 1])]
  }

  /** The frame counter when block |done| begins: the initial countdown, or
      the end of the previous block plus the rest time. */
  function BlockStart(c: FlashConfig, done: seq<seq<int>>): i32
    decreases |done|, 1
  {
    if done == [] then c.initialCountdown
    else AddI32(TrainingEnd(c, done), c.restTime)
  }

  /** The frame counter after the blocks `picks`. */
  function TrainingEnd(c: FlashConfig, picks: seq<seq<int>>): i32
    decreases |picks|, 0
  {
    if picks == [] then c.initialCountdown
    else Walk(BlockStart(c, picks[..|picks| - 1]), picks[|picks| - 1])
  }

  /** All training flashes, block after block. */
  function Training(c: FlashConfig, picks: seq<seq<int>>): seq<i32>
    decreases |picks|
  {
    if picks == [] then []
    else Training(c, picks[..|picks| - 1]) + Steps(BlockStart(c, picks[..|picks| - 1]), picks[|picks| - 1])
  }

  /** The frame counter after n retention intervals from `start`: the
      `int` sum, wrapped once (RetEndStep: the same as wrapping after every
      addition, as the loop does). */
  function RetEnd(start: i32, isi: int, n: nat): i32 {
    WrapI32(start + n * isi)
  }

  /** The retention flashes: the interval is added before each flash, so
      flash k is k + 1 intervals after the start. */
  function Retention(start: i32, isi: int, n: nat): seq<i32> {
    seq(n, k requires 0 <= k < n => RetEnd(start, isi, k + 1))
  }

  /** The whole dark-flash timeline: training, retention after the
      retention delay, and the total frame count as a sentinel. */
  function Schedule(c: FlashConfig, picks: seq<seq<int>>): seq<i32> {
    Training(c, picks)
      + Retention(AddI32(TrainingEnd(c, picks), c.retentionTime), c.retentionIsi, StimCount(c))
      + [c.totalFrames]
  }

  // ---------------------------------------------------------------------
  // Properties of the schedule
  // ---------------------------------------------------------------------

  lemma {:induction false} StepsLength(start: i32, gaps: seq<int>)
    ensures |Steps(start, gaps)| == |gaps|
    decreases |gaps|
  {
    if gaps != [] {
      StepsLength(start, gaps[..|gaps| - 1]);
    }
  }

  /** Flash i of a block is the block start plus the first i gaps. */
  lemma {:induction false} StepsElem(start: i32, gaps: seq<int>, i: nat)
    requires i < |gaps|
    ensures |Steps(start, gaps)| == |gaps|
    ensures Steps(start, gaps)[i] == Walk(start, gaps[..i])
    decreases |gaps|
  {
    var p := gaps[..|gaps| - 1];
    StepsLength(start, gaps);
    StepsLength(start, p);
    if i < |p| {
      StepsElem(start, p, i);
      assert p[..i] == gaps[..i];
    } else {
      assert p == gaps[..i];
    }
  }

  /** Within a block, each flash follows the previous one by its gap. */
  lemma StepsSpacing(start: i32, gaps: seq<int>, i: nat)
    requires i + 1 < |gaps|
    ensures |Steps(start, gaps)| == |gaps|
    ensures Steps(start, gaps)[i + 1] == AddI32(Steps(start, gaps)[i], gaps[i])
  {
    StepsElem(start, gaps, i);
    StepsElem(start, gaps, i + 1);
    assert gaps[..i + 1][..i] == gaps[..i];
  }

  /** The counter after a block is its last flash plus the last gap. */
  lemma StepsEnd(start: i32, gaps: seq<int>)
    requires |gaps| > 0
    ensures |Steps(start, gaps)| == |gaps|
    ensures Walk(start, gaps) == AddI32(Steps(start, gaps)[|gaps| - 1], gaps[|gaps| - 1])
  {
    StepsElem(start, gaps, |gaps| - 1);
  }

  /** The total number of picks over all blocks. */
  function PickCount(picks: seq<seq<int>>): nat
    decreases |picks|
  {
    if picks == [] then 0 else PickCount(picks[..|picks| - 1]) + |picks[|picks| - 1]|
  }

  lemma {:induction false} TrainingPickCount(c: FlashConfig, picks: seq<seq<int>>)
    ensures |Training(c, picks)| == PickCount(picks)
    decreases |picks|
  {
    if picks != [] {
      var p := picks[..|picks| - 1];
      TrainingPickCount(c, p);
      StepsLength(BlockStart(c, p), picks[|picks| - 1]);
    }
  }

  lemma {:induction false} UniformPickCount(picks: seq<seq<int>>, S: nat)
    requires forall b :: 0 <= b < |picks| ==> |picks[b]| == S
    ensures PickCount(picks) == |picks| * S
    decreases |picks|
  {
    if picks != [] {
      var n := |picks|;
      var p := picks[..n - 1];
      forall b | 0 <= b < |p| ensures |p[b]| == S {
        assert p[b] == picks[b];
      }
      UniformPickCount(p, S);
      assert |picks[n - 1]| == S;
      assert (n - 1) * S + S == n * S;
    }
  }

  lemma TrainingLength(c: FlashConfig, picks: seq<seq<int>>)
    requires forall b :: 0 <= b < |picks| ==> BlockAllowed(c, picks[b])
    ensures |Training(c, picks)| == |picks| * StimCount(c)
  {
    TrainingPickCount(c, picks);
    UniformPickCount(picks, StimCount(c));
  }

  /** One more retention interval is one more wrapped `int` addition. */
  lemma RetEndStep(start: i32, isi: int, n: nat)
    ensures RetEnd(start, isi, n + 1) == AddI32(RetEnd(start, isi, n), isi)
  {
    assert start + (n + 1) * isi == (start + n * isi) + isi;
    AddI32Assoc(start + n * isi, isi);
  }

  /** The retention loop appends one flash per interval. */
  lemma RetentionSnoc(start: i32, isi: int, n: nat)
    ensures Retention(start, isi, n + 1) == Retention(start, isi, n) + [RetEnd(start, isi, n + 1)]
  {
  }

  /** Training flash i of block b is flash i of that block's own run. */
  lemma {:induction false} TrainingElem(c: FlashConfig, picks: seq<seq<int>>, b: nat, i: nat)
    requires forall k :: 0 <= k < |picks| ==> BlockAllowed(c, picks[k])
    requires b < |picks| && i < StimCount(c)
    ensures |Training(c, picks)| == |picks| * StimCount(c)
    ensures b * StimCount(c) + i < |picks| * StimCount(c)
    ensures |Steps(BlockStart(c, picks[..b]), picks[b])| == StimCount(c)
    ensures Training(c, picks)[b * StimCount(c) + i] == Steps(BlockStart(c, picks[..b]), picks[b])[i]
    decreases |picks|
  {
    var n := |picks|;
    var S := StimCount(c);
    var p := picks[..n - 1];
    assert forall k :: 0 <= k < |p| ==> p[k] == picks[k];
    TrainingLength(c, picks);
    TrainingLength(c, p);
    StepsLength(BlockStart(c, p), picks[n - 1]);
    MulLeMono(b + 1, n, S);
    assert b * S + i < (b + 1) * S;
    if b < n - 1 {
      TrainingElem(c, p, b, i);
      MulLeMono(b + 1, n - 1, S);
      assert p[..b] == picks[..b];
    } else {
      assert p == picks[..b];
      assert b * S + i - (n - 1) * S == i;
    }
  }

  /** The schedule has nBlocks*StimPerBlock + StimPerBlock + 1 entries (for
      non-negative counts) and ends with the total frame count. */
  lemma ScheduleLength(c: FlashConfig, picks: seq<seq<int>>)
    requires PicksAllowed(c, picks)
    ensures |Schedule(c, picks)| == BlockCount(c) * StimCount(c) + StimCount(c) + 1
    ensures Schedule(c, picks)[|Schedule(c, picks)| - 1] == c.totalFrames
  {
    TrainingLength(c, picks);
  }

  /** Schedule entry b*S + i is the i-th flash of training block b. */
  lemma ScheduleTraining(c: FlashConfig, picks: seq<seq<int>>, b: nat, i: nat)
    requires PicksAllowed(c, picks)
    requires b < BlockCount(c) && i < StimCount(c)
    ensures b * StimCount(c) + i < |Schedule(c, picks)|
    ensures |Steps(BlockStart(c, picks[..b]), picks[b])| == StimCount(c)
    ensures Schedule(c, picks)[b * StimCount(c) + i] == Steps(BlockStart(c, picks[..b]), picks[b])[i]
  {
    ScheduleLength(c, picks);
    TrainingElem(c, picks, b, i);
  }

  /** The first flash is at the initial countdown. */
  lemma FirstFlash(c: FlashConfig, picks: seq<seq<int>>)
    requires PicksAllowed(c, picks)
    requires BlockCount(c) > 0 && StimCount(c) > 0
    ensures |Schedule(c, picks)| > 1
    ensures Schedule(c, picks)[0] == c.initialCountdown
  {
    ScheduleTraining(c, picks, 0, 0);
    StepsElem(BlockStart(c, picks[..0]), picks[0], 0);
    assert picks[..0] == [];
  }

  /** Consecutive flashes of one block differ by the picked gap; with a
      fixed interval (min == max) that gap is the interval itself. */
  lemma WithinBlockSpacing(c: FlashConfig, picks: seq<seq<int>>, b: nat, i: nat)
    requires PicksAllowed(c, picks)
    requires b < BlockCount(c) && i + 1 < StimCount(c)
    ensures 0 <= b * StimCount(c) + i && b * StimCount(c) + i + 1 < |Schedule(c, picks)|
    ensures var s, k := Schedule(c, picks), b * StimCount(c) + i;
            s[k + 1] == AddI32(s[k], picks[b][i])
            && (c.intervalMin == c.intervalMax ==> s[k + 1] == AddI32(s[k], c.intervalMin))
  {
    ScheduleTraining(c, picks, b, i);
    ScheduleTraining(c, picks, b, i + 1);
    StepsSpacing(BlockStart(c, picks[..b]), picks[b], i);
    assert GapAllowed(c, picks[b][i]);
  }

  /** The first flash of block b > 0 is the previous block's last flash
      plus its last gap plus the rest time. */
  lemma BlockBoundary(c: FlashConfig, picks: seq<seq<int>>, b: nat)
    requires PicksAllowed(c, picks)
    requires 0 < b < BlockCount(c) && StimCount(c) > 0
    ensures b * StimCount(c) < |Schedule(c, picks)|
    ensures Schedule(c, picks)[b * StimCount(c)]
            == AddI32(AddI32(Schedule(c, picks)[b * StimCount(c) - 1], picks[b - 1][StimCount(c) - 1]), c.restTime)
    ensures c.intervalMin == c.intervalMax ==>
              Schedule(c, picks)[b * StimCount(c)]
              == AddI32(AddI32(Schedule(c, picks)[b * StimCount(c) - 1], c.intervalMin), c.restTime)
  {
    var S := StimCount(c);
    ScheduleTraining(c, picks, b, 0);
    ScheduleTraining(c, picks, b - 1, S - 1);
    assert (b - 1) * S + (S - 1) == b * S - 1;
    var done := picks[..b];
    StepsElem(BlockStart(c, done), picks[b], 0);
    assert done[..b - 1] == picks[..b - 1];
    assert done[b - 1] == picks[b - 1];
    StepsEnd(BlockStart(c, picks[..b - 1]), picks[b - 1]);
    assert GapAllowed(c, picks[b - 1][S - 1]);
  }

  /** The counter after training is the last training flash plus its gap. */
  lemma TrainingEndIsLastPlusGap(c: FlashConfig, picks: seq<seq<int>>)
    requires PicksAllowed(c, picks)
    requires BlockCount(c) > 0 && StimCount(c) > 0
    ensures BlockCount(c) * StimCount(c) - 1 < |Schedule(c, picks)|
    ensures TrainingEnd(c, picks)
            == AddI32(Schedule(c, picks)[BlockCount(c) * StimCount(c) - 1],
                      picks[BlockCount(c) - 1][StimCount(c) - 1])
  {
    var B, S := BlockCount(c), StimCount(c);
    var start := BlockStart(c, picks[..B - 1]);
    var gaps := picks[B - 1];
    ScheduleTraining(c, picks, B - 1, S - 1);
    assert (B - 1) * S + (S - 1) == B * S - 1;
    assert |gaps| == S;
    StepsEnd(start, gaps);
    assert TrainingEnd(c, picks) == Walk(start, gaps);
  }

  /** The first retention flash is the last training flash plus its gap,
      the retention delay and one retention interval; with a fixed interval
      d that is last + d + RetentionTime + RetentionISI. */
  lemma RetentionStart(c: FlashConfig, picks: seq<seq<int>>)
    requires PicksAllowed(c, picks)
    requires BlockCount(c) > 0 && StimCount(c) > 0
    ensures BlockCount(c) * StimCount(c) < |Schedule(c, picks)|
    ensures Schedule(c, picks)[BlockCount(c) * StimCount(c)]
            == AddI32(AddI32(AddI32(Schedule(c, picks)[BlockCount(c) * StimCount(c) - 1],
                                    picks[BlockCount(c) - 1][StimCount(c) - 1]),
                             c.retentionTime), c.retentionIsi)
    ensures c.intervalMin == c.intervalMax ==>
              Schedule(c, picks)[BlockCount(c) * StimCount(c)]
              == AddI32(AddI32(AddI32(Schedule(c, picks)[BlockCount(c) * StimCount(c) - 1], c.intervalMin),
                               c.retentionTime), c.retentionIsi)
  {
    var B, S := BlockCount(c), StimCount(c);
    ScheduleLength(c, picks);
    TrainingLength(c, picks);
    TrainingEndIsLastPlusGap(c, picks);
    var r := AddI32(TrainingEnd(c, picks), c.retentionTime);
    assert Schedule(c, picks)[B * S] == Retention(r, c.retentionIsi, S)[0];
    assert GapAllowed(c, picks[B - 1][S - 1]);
  }

  /** Later retention flashes follow one another by exactly RetentionISI. */
  lemma RetentionSpacing(c: FlashConfig, picks: seq<seq<int>>, k: nat)
    requires PicksAllowed(c, picks)
    requires k + 1 < StimCount(c)
    ensures BlockCount(c) * StimCount(c) + k + 1 < |Schedule(c, picks)|
    ensures Schedule(c, picks)[BlockCount(c) * StimCount(c) + k + 1]
            == AddI32(Schedule(c, picks)[BlockCount(c) * StimCount(c) + k], c.retentionIsi)
  {
    var B, S := BlockCount(c), StimCount(c);
    ScheduleLength(c, picks);
    TrainingLength(c, picks);
    var r := AddI32(TrainingEnd(c, picks), c.retentionTime);
    RetEndStep(r, c.retentionIsi, k + 1);
    assert Schedule(c, picks)[B * S + k] == Retention(r, c.retentionIsi, S)[k];
    assert Schedule(c, picks)[B * S + k + 1] == Retention(r, c.retentionIsi, S)[k + 1];
  }

  /** Retention flash k is k + 1 retention intervals after the retention
      delay that follows the end of training. */
  lemma ScheduleRetention(c: FlashConfig, picks: seq<seq<int>>, k: nat)
    requires PicksAllowed(c, picks)
    requires k < StimCount(c)
    ensures BlockCount(c) * StimCount(c) + k < |Schedule(c, picks)| - 1
    ensures Schedule(c, picks)[BlockCount(c) * StimCount(c) + k]
            == RetEnd(AddI32(TrainingEnd(c, picks), c.retentionTime), c.retentionIsi, k + 1)
  {
    var B, S := BlockCount(c), StimCount(c);
    ScheduleLength(c, picks);
    TrainingLength(c, picks);
    var r := AddI32(TrainingEnd(c, picks), c.retentionTime);
    assert Schedule(c, picks)[B * S + k] == Retention(r, c.retentionIsi, S)[k];
  }

  // ---------------------------------------------------------------------
  // The next-flash cursor and the recording decision, as pure steps
  // ---------------------------------------------------------------------

  /** The experiment's per-frame state. */
  datatype FlashState = FlashState(nextFlashIndex: nat, lastFlashFrame: u32, burstCount: nat)

  /** The recording window settings (RecordPre, RecordPost, RecordEvery). */
  datatype RecordWindow = RecordWindow(pre: u32, post: u32, every: int)

  /** What RecordFrame answers: record this frame, start a new recording,
      and the burst counter afterwards. */
  datatype RecordDecision = RecordDecision(record: bool, newRecord: bool, burstCount: nat)

  /** The cursor part of PerformAction: inside the flash hours, when the
      frame is the next scheduled flash frame, flash and advance. */
  function FlashStep(s: FlashState, frames: seq<i32>, index: u32, hammer: bool): (s': FlashState)
    ensures s'.burstCount == s.burstCount
    ensures s'.nextFlashIndex == s.nextFlashIndex || s'.nextFlashIndex == s.nextFlashIndex + 1
    ensures s'.nextFlashIndex == s.nextFlashIndex + 1 <==>
              hammer && s.nextFlashIndex < |frames| && index == frames[s.nextFlashIndex]
    ensures s'.nextFlashIndex == s.nextFlashIndex + 1 ==> s'.lastFlashFrame == index
    ensures s'.nextFlashIndex == s.nextFlashIndex ==> s' == s
  {
    if hammer && s.nextFlashIndex < |frames| && index == frames[s.nextFlashIndex] then
      s.(nextFlashIndex := s.nextFlashIndex + 1, lastFlashFrame := index)
    else s
  }

  /** The cursor never passes the end of the schedule, and the last flash
      frame is the schedule entry just behind the cursor, or uint.MaxValue
      while no flash has happened. */
  predicate CursorInv(s: FlashState, frames: seq<i32>) {
    s.nextFlashIndex <= |frames| &&
    (s.nextFlashIndex == 0 ==> s.lastFlashFrame == UINT_MAX) &&
    (s.nextFlashIndex > 0 ==> s.lastFlashFrame == frames[s.nextFlashIndex - 1])
  }

  lemma FlashStepKeepsCursorInv(s: FlashState, frames: seq<i32>, index: u32, hammer: bool)
    requires CursorInv(s, frames)
    ensures CursorInv(FlashStep(s, frames, index, hammer), frames)
  {
  }

  /** The frames between this frame and the next flash, in unchecked `int`
      arithmetic; a negative distance reads as int.MaxValue. */
  function DFrames(flash: i32, index: u32): (d: i32)
    ensures d >= 0
  {
    var d := WrapI32(flash - U32ToI32(index));
    if d < 0 then INT_MAX else d
  }

  /** The burst selection test: every burst when RecordEvery <= 1, else every
      RecordEvery-th one, and always the first bursts. */
  predicate Selected(burstCount: nat, every: int) {
    every <= 1 || (burstCount + 1) % every == 0 || burstCount <= 1
  }

  /** The post-flash window test, in 32-bit unsigned arithmetic. */
  predicate InPostWindow(index: u32, lastFlashFrame: u32, post: u32) {
    index <= WrapU32(lastFlashFrame + post)
  }

  /** RecordFrame as a function of the state. None is the exception C#
      raises when there is no schedule or the cursor is past its end. */
  function RecordStep(frames: Option<seq<i32>>, s: FlashState, index: u32, hammer: bool, w: RecordWindow)
    : (r: Option<RecordDecision>)
    ensures r.None? <==> frames.None? || s.nextFlashIndex >= |frames.value|
    ensures r.Some? && !hammer ==> r.value == RecordDecision(false, false, s.burstCount)
    ensures r.Some? && hammer ==>
              var d := DFrames(frames.value[s.nextFlashIndex], index);
              (r.value.newRecord <==> Selected(s.burstCount, w.every) && d - w.pre == 1) &&
              (r.value.record <==> Selected(s.burstCount, w.every) &&
                                   (d - w.pre <= 0 || InPostWindow(index, s.lastFlashFrame, w.post)))
    ensures r.Some? ==> r.value.burstCount == s.burstCount || r.value.burstCount == s.burstCount + 1
    ensures r.Some? ==> (r.value.burstCount == s.burstCount + 1 <==>
              hammer && s.lastFlashFrame < UINT_MAX && index == WrapU32(s.lastFlashFrame + w.post))
  {
    if frames.None? || s.nextFlashIndex >= |frames.value| then None
    else
      var d := DFrames(frames.value[s.nextFlashIndex], index);
      if !hammer then Some(RecordDecision(false, false, s.burstCount))
      else
        var sel := Selected(s.burstCount, w.every);
        var record := sel && (d - w.pre <= 0 || InPostWindow(index, s.lastFlashFrame, w.post));
        var newRecord := sel && d - w.pre == 1;
        var burst := if s.lastFlashFrame < UINT_MAX && index == WrapU32(s.lastFlashFrame + w.post)
                     then s.burstCount + 1 else s.burstCount;
        Some(RecordDecision(record, newRecord, burst))
  }

  /** Before the first flash uint.MaxValue + RecordPost wraps around, so
      every frame below RecordPost (every frame at all when RecordPost is 0)
      counts as inside the post window. */
  lemma PostWindowBeforeFirstFlash(index: u32, post: u32)
    ensures InPostWindow(index, UINT_MAX, post) <==> post == 0 || index < post
  {
    if post > 0 {
      assert WrapU32(UINT_MAX + post) == post - 1;
    }
  }

  /** After a real flash at f, with no wrap, the post window is the
      RecordPost frames after it. */
  lemma PostWindowAfterFlash(index: u32, f: u32, post: u32)
    requires f < UINT_MAX && f + post <= UINT_MAX
    ensures InPostWindow(index, f, post) <==> index <= f + post
  {
  }

  /** For frame indices and flash frames within `int` range the distance is
      exact while the flash is ahead, and int.MaxValue once it has passed. */
  lemma DFramesExact(flash: i32, index: u32)
    requires flash >= 0 && index <= INT_MAX
    ensures flash >= index ==> DFrames(flash, index) == flash - index
    ensures flash < index ==> DFrames(flash, index) == INT_MAX
  {
    WrapI32Id(flash - index);
  }

  /** A new recording is signalled exactly one frame before the RecordPre
      window ahead of the next flash opens. */
  lemma NewRecordOneFrameBefore(frames: seq<i32>, s: FlashState, index: u32, w: RecordWindow)
    requires s.nextFlashIndex < |frames|
    requires frames[s.nextFlashIndex] >= index && index <= INT_MAX
    requires Selected(s.burstCount, w.every)
    ensures RecordStep(Some(frames), s, index, true, w).Some?
    ensures RecordStep(Some(frames), s, index, true, w).value.newRecord <==>
              index + w.pre + 1 == frames[s.nextFlashIndex]
  {
    DFramesExact(frames[s.nextFlashIndex], index);
  }

  /** With the flash ahead, a frame is recorded in the pre window exactly
      when it is at most RecordPre frames before the flash. */
  lemma PreWindowRecords(frames: seq<i32>, s: FlashState, index: u32, w: RecordWindow)
    requires s.nextFlashIndex < |frames|
    requires frames[s.nextFlashIndex] >= index && index <= INT_MAX
    requires Selected(s.burstCount, w.every)
    requires !InPostWindow(index, s.lastFlashFrame, w.post)
    ensures RecordStep(Some(frames), s, index, true, w).Some?
    ensures RecordStep(Some(frames), s, index, true, w).value.record <==>
              frames[s.nextFlashIndex] - w.pre <= index
  {
    DFramesExact(frames[s.nextFlashIndex], index);
  }

  /** A burst is counted only after a real flash. */
  lemma NoBurstBeforeFirstFlash(frames: Option<seq<i32>>, s: FlashState, index: u32, hammer: bool, w: RecordWindow)
    requires s.lastFlashFrame == UINT_MAX
    requires RecordStep(frames, s, index, hammer, w).Some?
    ensures RecordStep(frames, s, index, hammer, w).value.burstCount == s.burstCount
  {
  }

  // ---------------------------------------------------------------------
  // The experiment object
  // ---------------------------------------------------------------------

  /** SimpleDarkFlash, an ExperimentBase (held as `base`). */
  class SimpleDarkFlash {
    const base: ExperimentBase.ExperimentBase
    var lastFlashFrame: u32
    var burstCount: nat
    const initialCountdown: i32
    var flashFrames: Option<seq<i32>>
    /** The interval picks behind `flashFrames` (the generator's choices). */
    ghost var schedulePicks: seq<seq<int>>
    var nextFlashIndex: nat
    var DarkFlashStartHour: int
    var DarkFlashStopHour: int
    var RecordEvery: int
    var DarkFlashIntervalMin: i32
    var DarkFlashIntervalMax: i32
    var StimPerBlock: i32
    var RestTime: i32
    var nBlocks: i32
    var RetentionTime: i32
    var RetentionISI: i32

    function Config(): FlashConfig
      reads this
    {
      FlashConfig(initialCountdown, base.TotalFrames, nBlocks, StimPerBlock,
                  DarkFlashIntervalMin, DarkFlashIntervalMax, RestTime, RetentionTime, RetentionISI)
    }

    function State(): FlashState
      reads this
    {
      FlashState(nextFlashIndex, lastFlashFrame, burstCount)
    }

    function Window(): RecordWindow
      reads this, base
    {
      RecordWindow(base.RecordPre, base.RecordPost, RecordEvery)
    }

    /** Dark flashes are given only inside the flash hour bracket. */
    predicate HammerTime()
      reads this, base
    {
      ExperimentBase.InHourBracket(DarkFlashStartHour, DarkFlashStopHour, base.CurrentHour)
    }

    function BurstCount(): int
      reads this
    {
      burstCount
    }

    /** The cursor invariant over the schedule built so far (the empty one
        before Init). */
    predicate Valid()
      reads this
    {
      CursorInv(State(), if flashFrames.Some? then flashFrames.value else [])
    }

    /** The wall-clock hour the base constructor reads is `hourNow`. */
    constructor (initialCountdown: i32, frameRate: i32, totalFrames: i32, hourNow: int)
      ensures fresh(base)
      ensures base.FrameRate == frameRate && base.TotalFrames == totalFrames
      ensures base.DayStart == 9 && base.DayEnd == 23 && base.CurrentDay == 1
      ensures base.CurrentHour == hourNow && base.Daytime == ExperimentBase.InHourBracket(9, 23, hourNow)
      ensures base.RecordPre == 0 && base.RecordPost == 0
      ensures this.initialCountdown == initialCountdown
      ensures State() == FlashState(0, UINT_MAX, 0) && flashFrames == None
      ensures DarkFlashStartHour == 0 && DarkFlashStopHour == 24 && RecordEvery == 0
      ensures Config() == FlashConfig(initialCountdown, totalFrames, 0, 0, 0, 0, 0, 0, 0)
      ensures Valid()
    {
      base := new ExperimentBase.ExperimentBase(frameRate, totalFrames, hourNow);
      lastFlashFrame := UINT_MAX;
      burstCount := 0;
      this.initialCountdown := initialCountdown;
      nextFlashIndex := 0;
      flashFrames := None;
      schedulePicks := [];
      DarkFlashStartHour := 0;
      DarkFlashStopHour := 24;
      RecordEvery := 0;
      DarkFlashIntervalMin := 0;
      DarkFlashIntervalMax := 0;
      StimPerBlock := 0;
      RestTime := 0;
      nBlocks := 0;
      RetentionTime := 0;
      RetentionISI := 0;
    }

    /** Builds the dark-flash timeline. None is the exception Random.Next
        raises for min > max. The stimulus counter is a C# `int`, so
        StimPerBlock == int.MaxValue would never end the loop. */
    method FlashFrames() returns (r: Option<seq<i32>>, ghost picks: seq<seq<int>>)
      requires StimPerBlock < INT_MAX
      ensures r.None? <==> RandomThrows(Config())
      ensures r.Some? ==> PicksAllowed(Config(), picks) && r.value == Schedule(Config(), picks)
    {
      ghost var c := Config();
      var frames: seq<i32> := [];
      var frame: i32 := initialCountdown;
      picks := [];
      var block := 0;
      while block < nBlocks
        invariant 0 <= block <= BlockCount(c)
        invariant |picks| == block
        invariant forall b :: 0 <= b < block ==> BlockAllowed(c, picks[b])
        invariant RandomThrows(c) ==> block == 0
        invariant frames == Training(c, picks)
        invariant frame == TrainingEnd(c, picks)
      {
        if block > 0 {
          frame := AddI32(frame, RestTime);
        }
        assert frame == BlockStart(c, picks);
        var flashes, thrown;
        ghost var gaps;
        flashes, frame, gaps, thrown := BlockFlashes(frame);
        if thrown {
          return None, picks;
        }
        assert (picks + [gaps])[..|picks|] == picks;
        frames := frames + flashes;
        picks := picks + [gaps];
        block := block + 1;
      }
      frame := AddI32(frame, RetentionTime);
      var retention := RetentionFlashes(frame);
      frames := frames + retention + [base.TotalFrames];
      r := Some(frames);
    }

    /** The retention loop of FlashFrames: StimPerBlock flashes, the
        interval added before each. */
    method RetentionFlashes(start: i32) returns (flashes: seq<i32>)
      ensures flashes == Retention(start, RetentionISI, StimCount(Config()))
    {
      flashes := [];
      var frame := start;
      var i := 1;
      while i <= StimPerBlock
        invariant 1 <= i <= StimCount(Config()) + 1
        invariant flashes == Retention(start, RetentionISI, i - 1)
        invariant frame == RetEnd(start, RetentionISI, i - 1)
      {
        RetEndStep(start, RetentionISI, i - 1);
        RetentionSnoc(start, RetentionISI, i - 1);
        frame := AddI32(frame, RetentionISI);
        flashes := flashes + [frame];
        i := i + 1;
      }
    }

    /** The inner loop of FlashFrames: one training block of StimPerBlock
        flashes from `start`. `thrown` is the exception of Random.Next. */
    method BlockFlashes(start: i32) returns (flashes: seq<i32>, frame: i32, ghost gaps: seq<int>, thrown: bool)
      requires StimPerBlock < INT_MAX
      ensures thrown <==> StimCount(Config()) > 0 && DarkFlashIntervalMin > DarkFlashIntervalMax
      ensures !thrown ==> BlockAllowed(Config(), gaps) && flashes == Steps(start, gaps) && frame == Walk(start, gaps)
    {
      ghost var c := Config();
      flashes, frame, gaps, thrown := [], start, [], false;
      var i := 1;
      while i <= StimPerBlock
        invariant 1 <= i <= StimCount(c) + 1
        invariant |gaps| == i - 1
        invariant forall k :: 0 <= k < |gaps| ==> GapAllowed(c, gaps[k])
        invariant DarkFlashIntervalMin > DarkFlashIntervalMax ==> i == 1
        invariant flashes == Steps(start, gaps)
        invariant frame == Walk(start, gaps)
      {
        flashes := flashes + [frame];
        var gap: int;
        if DarkFlashIntervalMin == DarkFlashIntervalMax {
          gap := DarkFlashIntervalMin;
        } else {
          if DarkFlashIntervalMin > DarkFlashIntervalMax {
            thrown := true;
            return;
          }
          assert DarkFlashIntervalMin <= DarkFlashIntervalMin < DarkFlashIntervalMax;
          gap :| DarkFlashIntervalMin <= gap < DarkFlashIntervalMax;
        }
        assert GapAllowed(c, gap);
        assert (gaps + [gap])[..|gaps|] == gaps;
        frame := AddI32(frame, gap);
        gaps := gaps + [gap];
        i := i + 1;
      }
    }

    /** Called once all parameters are set: builds the schedule. When the
        generator throws, the schedule is left as it was. */
    method Init() returns (ok: bool)
      requires StimPerBlock < INT_MAX
      modifies this`flashFrames, this`schedulePicks
      ensures ok <==> !RandomThrows(Config())
      ensures !ok ==> flashFrames == old(flashFrames)
      ensures ok ==> flashFrames.Some? && PicksAllowed(Config(), schedulePicks)
                     && flashFrames.value == Schedule(Config(), schedulePicks)
      ensures old(flashFrames).None? && old(Valid()) ==> Valid()
    {
      var r;
      ghost var picks;
      r, picks := FlashFrames();
      if r.None? {
        return false;
      }
      flashFrames := r;
      schedulePicks := picks;
      ok := true;
    }

    /** Marks a dark flash at this frame (writing the frame number to the
        flash file is not modelled). */
    method PerformDarkFlash(index: u32)
      modifies this`lastFlashFrame, this`nextFlashIndex
      ensures lastFlashFrame == index && nextFlashIndex == old(nextFlashIndex) + 1
    {
      lastFlashFrame := index;
      nextFlashIndex := nextFlashIndex + 1;
    }

    /** Reacts to a frame: builds the schedule on first use, runs the base
        class bookkeeping with the wall-clock hour `hourNow`, then flashes if
        this is the next scheduled flash frame inside the flash hours.
        `ok` is false when building the schedule throws. */
    method PerformAction(index: u32, hourNow: int) returns (ok: bool)
      requires flashFrames.Some? || StimPerBlock < INT_MAX
      modifies this`flashFrames, this`schedulePicks, this`lastFlashFrame, this`nextFlashIndex
      modifies base`CurrentHour, base`CurrentDay, base`Daytime
      ensures ok <==> old(flashFrames).Some? || !RandomThrows(Config())
      ensures !ok ==> flashFrames == old(flashFrames) && State() == old(State())
                      && base.ClockState() == old(base.ClockState())
      ensures ok ==> flashFrames.Some?
      ensures ok && old(flashFrames).Some? ==> flashFrames == old(flashFrames)
      ensures ok && old(flashFrames).None? ==>
                PicksAllowed(Config(), schedulePicks) && flashFrames.value == Schedule(Config(), schedulePicks)
      ensures ok ==> base.ClockState()
                     == ExperimentBase.Tick(old(base.ClockState()), index, hourNow, base.DayStart, base.DayEnd)
      ensures ok ==> State() == FlashStep(old(State()), flashFrames.value, index, HammerTime())
      ensures old(Valid()) ==> Valid()
    {
      if flashFrames.None? {
        ok := Init();
        if !ok {
          return;
        }
      }
      ok := true;
      base.PerformAction(index, hourNow);
      if HammerTime() {
        if nextFlashIndex < |flashFrames.value| && index == flashFrames.value[nextFlashIndex] {
          PerformDarkFlash(index);
        }
      }
    }

    /** Whether this frame goes to the burst buffer, and whether a new
        recording starts. `ok` is false when C# would throw (no schedule,
        or the cursor is past its end). */
    method RecordFrame(index: u32) returns (ok: bool, record: bool, newRecord: bool)
      modifies this`burstCount
      ensures var d := RecordStep(flashFrames, old(State()), index, HammerTime(), Window());
              (ok <==> d.Some?) &&
              (ok ==> record == d.value.record && newRecord == d.value.newRecord
                      && burstCount == d.value.burstCount) &&
              (!ok ==> burstCount == old(burstCount))
    {
      if flashFrames.None? || nextFlashIndex >= |flashFrames.value| {
        return false, false, false;
      }
      ok := true;
      var dFrames := WrapI32(flashFrames.value[nextFlashIndex] - U32ToI32(index));
      if dFrames < 0 {
        dFrames := INT_MAX;
      }
      newRecord := false;
      if !HammerTime() {
        return ok, false, newRecord;
      }
      record := false;
      if RecordEvery <= 1 || (burstCount + 1) % RecordEvery == 0 || burstCount <= 1 {
        if dFrames - base.RecordPre <= 0 || index <= WrapU32(lastFlashFrame + base.RecordPost) {
          record := true;
        }
        if dFrames - base.RecordPre == 1 {
          newRecord := true;
        }
      }
      if lastFlashFrame < UINT_MAX && index == WrapU32(lastFlashFrame + base.RecordPost) {
        burstCount := burstCount + 1;
      }
    }
  }
}
