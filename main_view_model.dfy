/** The main view model: the plate-switch queue, the flip schedule built
    with the dark-flash experiments, the per-frame orchestration of the
    tracking loop, the byte framing sent to the flash controller and the
    layout of one line of the track file. */
module MainViewModel {
  import opened Common
  import ExperimentBase
  import SimpleDarkFlash

  /** The camera frame rate. */
  const FrameRate: int := 560
  /** The desired frame rate of baseline tracking. */
  const BaselineFrameRate: int := 7
  /** Baseline frames are every (frameRate / baselineFrameRate)-th frame. */
  const BaselineStride: int := FrameRate / BaselineFrameRate
  /** No baseline tracking within 2 s of a mirror flip. */
  const FlipSettleFrames: int := 2 * FrameRate
  /** 120 s worth of baseline frames of forced full background updates. */
  const ReInitFrames: int := BaselineFrameRate * 120

  // ---------------------------------------------------------------------
  // The plate-switch queue
  // ---------------------------------------------------------------------

  /** A pending mirror flip: at frame `frame`, switch to plate `plate`. */
  datatype Flip = Flip(frame: int, plate: int)

  datatype SwitchState = SwitchState(queue: seq<Flip>, plateIndex: int)

  /** UpdatePlateIndex as a function: dequeue the head exactly on its frame. */
  function QueueStep(s: SwitchState, frameIndex: int): (r: (SwitchState, bool))
    ensures s.queue == [] ==> r == (s, false)
    ensures r.1 <==> s.queue != [] && s.queue[0].frame == frameIndex
    ensures r.1 ==> r.0 == SwitchState(s.queue[1..], s.queue[0].plate)
    ensures !r.1 ==> r.0 == s
  {
    if s.queue != [] && s.queue[0].frame == frameIndex then
      (SwitchState(s.queue[1..], s.queue[0].plate), true)
    else (s, false)
  }

  /** The switch state after the frames f, f+1, ..., f+n-1. */
  function QueueRun(s: SwitchState, f: int, n: nat): SwitchState
    decreases n
  {
    if n == 0 then s else QueueRun(QueueStep(s, f).0, f + 1, n - 1)
  }

  /** The flips' frames strictly increase along the queue. */
  predicate StrictlyAscending(q: seq<Flip>)
    decreases |q|
  {
    |q| <= 1 || (q[0].frame < q[1].frame && StrictlyAscending(q[1..]))
  }

  /** The number of leading flips due before frame `bound`. */
  function Due(q: seq<Flip>, bound: int): (k: nat)
    ensures k <= |q|
  {
    if q == [] || q[0].frame >= bound then 0 else 1 + Due(q[1..], bound)
  }

  /** What a run of n frames from f leaves: the flips due before f + n
      taken from the queue, and the plate the last of them targets. */
  predicate RunTaken(s: SwitchState, f: int, n: nat) {
    var k := Due(s.queue, f + n);
    QueueRun(s, f, n).queue == s.queue[k..] &&
    QueueRun(s, f, n).plateIndex == (if k == 0 then s.plateIndex else s.queue[k - 1].plate)
  }

  lemma EmptyRun(s: SwitchState, f: int)
    requires s.queue == [] || s.queue[0].frame >= f
    ensures RunTaken(s, f, 0)
  {
    assert Due(s.queue, f) == 0;
    assert s.queue[0..] == s.queue;
  }

  /** The run step that takes the head flip, given the run of the rest. */
  lemma TakeHead(s: SwitchState, f: int, n: nat)
    requires n > 0 && s.queue != [] && s.queue[0].frame == f
    requires RunTaken(SwitchState(s.queue[1..], s.queue[0].plate), f + 1, n - 1)
    ensures RunTaken(s, f, n)
  {
    var q := s.queue;
    var s1 := SwitchState(q[1..], q[0].plate);
    assert QueueRun(s, f, n) == QueueRun(s1, f + 1, n - 1);
    var k := Due(q[1..], f + n);
    assert Due(q, f + n) == 1 + k;
    assert q[1..][k..] == q[1 + k..];
    if k > 0 {
      assert q[1..][k - 1] == q[k];
    }
  }

  /** The run step on a frame without a due flip, given the run after it. */
  lemma SkipHead(s: SwitchState, f: int, n: nat)
    requires n > 0 && (s.queue == [] || s.queue[0].frame != f)
    requires RunTaken(s, f + 1, n - 1)
    ensures RunTaken(s, f, n)
  {
    assert QueueRun(s, f, n) == QueueRun(s, f + 1, n - 1);
  }

  /** Run over consecutive frames with a strictly ascending queue whose
      flips all lie ahead: exactly the flips due before the end of the run
      have been taken, in order, and the plate is the last one's target. */
  lemma {:induction false} SwitchesFollowQueue(s: SwitchState, f: int, n: nat)
    requires StrictlyAscending(s.queue)
    requires s.queue == [] || s.queue[0].frame >= f
    ensures RunTaken(s, f, n)
    decreases n
  {
    var q := s.queue;
    if n == 0 {
      EmptyRun(s, f);
    } else if q != [] && q[0].frame == f {
      SwitchesFollowQueue(SwitchState(q[1..], q[0].plate), f + 1, n - 1);
      TakeHead(s, f, n);
    } else {
      SwitchesFollowQueue(s, f + 1, n - 1);
      SkipHead(s, f, n);
    }
  }

  /** With two flips on the same frame the second never fires: the queue
      stalls at it for ever. */
  lemma DuplicateFlipStalls(a: Flip, b: Flip, rest: seq<Flip>, p: int, f: int, n: nat)
    requires a.frame == b.frame && a.frame < f
    ensures QueueRun(SwitchState([b] + rest, p), f, n) == SwitchState([b] + rest, p)
    decreases n
  {
    if n > 0 {
      DuplicateFlipStalls(a, b, rest, p, f + 1, n - 1);
    }
  }

  // ---------------------------------------------------------------------
  // Baseline gating and the forced-full-background countdown
  // ---------------------------------------------------------------------

  datatype Gate = Gate(process: bool, forceFull: bool, reInitCount: int)

  /** The baseline test of the tracking loop: a baseline frame, and not
      within 2 s (unsigned frame difference) of the last flip; a baseline
      frame forces a full background update while the countdown is
      positive and consumes one count. No baseline frame is processed in
      the 2 s after a flip, and every stride frame after that is. */
  function BaselineGate(frameIndex: u32, lastFlipFrame: u32, reInitCount: int): (g: Gate)
    ensures g.process <==> frameIndex % BaselineStride == 0 && WrapU32(frameIndex - lastFlipFrame) > FlipSettleFrames
    ensures lastFlipFrame <= frameIndex <= lastFlipFrame + FlipSettleFrames ==> !g.process
    ensures lastFlipFrame + FlipSettleFrames < frameIndex && frameIndex % BaselineStride == 0 ==> g.process
    ensures g.forceFull <==> g.process && reInitCount > 0
    ensures g.reInitCount == if g.forceFull then reInitCount - 1 else reInitCount
  {
    var process := frameIndex % (FrameRate / BaselineFrameRate) == 0
                   && WrapU32(frameIndex - lastFlipFrame) > 2 * FrameRate;
    Gate(process, process && reInitCount > 0, if process && reInitCount > 0 then reInitCount - 1 else reInitCount)
  }

  /** Forced frames and the remaining countdown over a run of frames. */
  function GateRun(frames: seq<u32>, lastFlipFrame: u32, reInitCount: int): (r: (nat, nat, int))
    decreases |frames|
  {
    if frames == [] then (0, 0, reInitCount)
    else
      var g := BaselineGate(frames[0], lastFlipFrame, reInitCount);
      var rest := GateRun(frames[1..], lastFlipFrame, g.reInitCount);
      (rest.0 + (if g.process then 1 else 0), rest.1 + (if g.forceFull then 1 else 0), rest.2)
  }

  /** Over any run without a flip, of P processed baseline frames the first
      min(P, countdown) force a full update, and the countdown ends at
      max(0, countdown - P): the countdown is consumed only by processed
      frames and never goes negative. */
  lemma {:induction false} CountdownConsumedByBaseline(frames: seq<u32>, lastFlipFrame: u32, reInitCount: nat)
    ensures var r := GateRun(frames, lastFlipFrame, reInitCount);
            r.1 == Min(r.0, reInitCount) && r.2 == Max(0, reInitCount - r.0)
    decreases |frames|
  {
    if frames != [] {
      var g := BaselineGate(frames[0], lastFlipFrame, reInitCount);
      CountdownConsumedByBaseline(frames[1..], lastFlipFrame, g.reInitCount);
    }
  }

  // ---------------------------------------------------------------------
  // Byte framing for the flash controller
  // ---------------------------------------------------------------------

  /** BitConverter.GetBytes for an `int`: little-endian two's complement. */
  function Int32Bytes(x: i32): (b: seq<u8>)
    ensures |b| == 4
  {
    var u := if x < 0 then x + TWO_32 else x;
    [u % 256, (u / 256) % 256, (u / 256 / 256) % 256, u / 256 / 256 / 256]
  }

  /** Reads four little-endian bytes back as an `int`. */
  function BytesInt32(b: seq<u8>): i32
    requires |b| == 4
  {
    var u := b[0] as int + 256 * (b[1] as int) + 65536 * (b[2] as int) + 16777216 * (b[3] as int);
    if u > INT_MAX then u - TWO_32 else u
  }

  lemma Int32RoundTrip(x: i32)
    ensures BytesInt32(Int32Bytes(x)) == x
  {
    var u := if x < 0 then x + TWO_32 else x;
    var q1 := u / 256;
    var q2 := q1 / 256;
    var q3 := q2 / 256;
    assert u == 256 * q1 + u % 256;
    assert q1 == 256 * q2 + q1 % 256;
    assert q2 == 256 * q3 + q2 % 256;
    assert q3 < 256;
  }

  /** The four zero bytes that frame the payload (and form the trigger). */
  const Zero4: seq<u8> := [0, 0, 0, 0]

  /** The indices, four bytes each, in order. */
  function IndexBytes(xs: seq<i32>): seq<u8>
    decreases |xs|
  {
    if xs == [] then [] else IndexBytes(xs[..|xs| - 1]) + Int32Bytes(xs[|xs| - 1])
  }

  /** The whole payload: zeros, the count, zeros, the indices, zeros. */
  function Payload(xs: seq<i32>): seq<u8>
    requires |xs| <= INT_MAX
  {
    Zero4 + Int32Bytes(|xs|) + Zero4 + IndexBytes(xs) + Zero4
  }

  /** Reads n indices back from 4n bytes. */
  function ParseIndices(b: seq<u8>, n: nat): seq<i32>
    requires |b| == 4 * n
    decreases n
  {
    if n == 0 then [] else ParseIndices(b[..4 * (n - 1)], n - 1) + [BytesInt32(b[4 * (n - 1)..])]
  }

  /** The receiving side: checks the framing and reads the indices. */
  function ParsePayload(b: seq<u8>): Option<seq<i32>> {
    if |b| < 16 || b[..4] != Zero4 || b[8..12] != Zero4 || b[|b| - 4..] != Zero4 then None
    else
      var n := BytesInt32(b[4..8]);
      if n < 0 || |b| != 16 + 4 * n then None
      else Some(ParseIndices(b[12..12 + 4 * n], n))
  }

  lemma {:induction false} IndexBytesLength(xs: seq<i32>)
    ensures |IndexBytes(xs)| == 4 * |xs|
    decreases |xs|
  {
    if xs != [] {
      IndexBytesLength(xs[..|xs| - 1]);
    }
  }

  lemma {:induction false} IndexBytesRoundTrip(xs: seq<i32>)
    ensures |IndexBytes(xs)| == 4 * |xs|
    ensures ParseIndices(IndexBytes(xs), |xs|) == xs
    decreases |xs|
  {
    IndexBytesLength(xs);
    if xs != [] {
      var n := |xs|;
      var p := xs[..n - 1];
      IndexBytesRoundTrip(p);
      var b := IndexBytes(xs);
      assert b[..4 * (n - 1)] == IndexBytes(p);
      assert b[4 * (n - 1)..] == Int32Bytes(xs[n - 1]);
      Int32RoundTrip(xs[n - 1]);
      assert p + [xs[n - 1]] == xs;
    }
  }

  /** The payload is 16 + 4n bytes long. */
  lemma PayloadLength(xs: seq<i32>)
    requires |xs| <= INT_MAX
    ensures |Payload(xs)| == 16 + 4 * |xs|
  {
    IndexBytesLength(xs);
  }

  /** The receiver recovers exactly the indices that were sent. */
  lemma PayloadRoundTrip(xs: seq<i32>)
    requires |xs| <= INT_MAX
    ensures ParsePayload(Payload(xs)) == Some(xs)
  {
    var n := |xs|;
    var h, ib := Zero4 + Int32Bytes(n) + Zero4, IndexBytes(xs);
    var b := h + ib + Zero4;
    IndexBytesRoundTrip(xs);
    Int32RoundTrip(n);
    assert |h| == 12 && |b| == 16 + 4 * n;
    assert b[..12] == h;
    assert b[..4] == h[..4] == Zero4;
    assert b[4..8] == h[4..8] == Int32Bytes(n);
    assert b[8..12] == h[8..12] == Zero4;
    assert b[12..12 + 4 * n] == ib;
    assert b[|b| - 4..] == Zero4;
  }

  /** The serial port, as the bytes written to it so far. */
  class SerialLink {
    var written: seq<u8>

    constructor ()
      ensures written == []
    {
      written := [];
    }

    method Write(buf: seq<u8>)
      modifies this`written
      ensures written == old(written) + buf
    {
      written := written + buf;
    }
  }

  /** Sends the indices to the controller (the acknowledgement byte it
      answers with is only logged, so it is not modelled). */
  method SendPayloadToTeensy(indices: array<i32>, teensy: SerialLink)
    requires indices.Length <= INT_MAX
    modifies teensy`written
    ensures teensy.written == old(teensy.written) + Payload(indices[..])
  {
    var signalBuffer := Zero4;
    teensy.Write(signalBuffer);
    teensy.Write(Int32Bytes(indices.Length));
    teensy.Write(signalBuffer);
    ghost var head := old(teensy.written) + Zero4 + Int32Bytes(indices.Length) + Zero4;
    var k := 0;
    while k < indices.Length
      invariant 0 <= k <= indices.Length
      invariant teensy.written == head + IndexBytes(indices[..k])
    {
      assert indices[..k + 1][..k] == indices[..k];
      teensy.Write(Int32Bytes(indices[k]));
      k := k + 1;
    }
    assert indices[..indices.Length] == indices[..];
    teensy.Write(signalBuffer);
  }

  /** Signals the controller to start triggering. */
  method SendTriggerToTeensy(teensy: SerialLink)
    modifies teensy`written
    ensures teensy.written == old(teensy.written) + Zero4
  {
    teensy.Write(Zero4);
  }

  // ---------------------------------------------------------------------
  // One line of the track file
  // ---------------------------------------------------------------------

  /** A tracked fish as written: centroid and angle in whole degrees (the
      floating-point conversion of the angle is not modelled). */
  datatype FishPos = FishPos(x: int, y: int, angleDeg: int)

  /** One tab-separated field of the track file. */
  datatype TrackField = Frame(index: int) | Num(value: int) | NaN | Stamp(seconds: real)

  function FishFields(f: Option<FishPos>): seq<TrackField> {
    match f
    case Some(p) => [Num(p.x), Num(p.y), Num(p.angleDeg)]
    case None => [NaN, NaN, NaN]
  }

  function AllFishFields(fish: seq<Option<FishPos>>): seq<TrackField>
    decreases |fish|
  {
    if fish == [] then [] else AllFishFields(fish[..|fish| - 1]) + FishFields(fish[|fish| - 1])
  }

  /** The line ProcessBaseRateFrame writes: the frame index, three fields
      per well (NaN for a well without fish, one NaN triple when there is no
      result at all), and the frame timestamp last. */
  function TrackLine(frameIndex: u32, allFish: Option<seq<Option<FishPos>>>, timeStamp: real): seq<TrackField> {
    [Frame(frameIndex)]
      + (match allFish case Some(fish) => AllFishFields(fish) case None => FishFields(None))
      + [Stamp(timeStamp)]
  }

  function ParseFish(t: seq<TrackField>): Option<Option<FishPos>>
    requires |t| == 3
  {
    if t[0].NaN? && t[1].NaN? && t[2].NaN? then Some(None)
    else if t[0].Num? && t[1].Num? && t[2].Num? then Some(Some(FishPos(t[0].value, t[1].value, t[2].value)))
    else None
  }

  function ParseFishFields(t: seq<TrackField>): Option<seq<Option<FishPos>>>
    decreases |t|
  {
    if t == [] then Some([])
    else if |t| < 3 then None
    else
      var init := ParseFishFields(t[..|t| - 3]);
      var last := ParseFish(t[|t| - 3..]);
      if init.Some? && last.Some? then Some(init.value + [last.value]) else None
  }

  /** Reads a track line back: frame index, per-well fish, timestamp. */
  function ParseTrackLine(line: seq<TrackField>): Option<(int, seq<Option<FishPos>>, real)> {
    if |line| < 2 || !line[0].Frame? || !line[|line| - 1].Stamp? then None
    else
      match ParseFishFields(line[1..|line| - 1])
      case Some(fish) => Some((line[0].index, fish, line[|line| - 1].seconds))
      case None => None
  }

  lemma FishRoundTrip(f: Option<FishPos>)
    ensures |FishFields(f)| == 3 && ParseFish(FishFields(f)) == Some(f)
  {
  }

  /** Reading a line's fish fields peels off the last well's triple. */
  lemma ParseFishFieldsSnoc(a: seq<TrackField>, b: seq<TrackField>)
    requires |b| == 3
    ensures ParseFishFields(a + b)
            == (if ParseFishFields(a).Some? && ParseFish(b).Some?
                then Some(ParseFishFields(a).value + [ParseFish(b).value]) else None)
  {
    var t := a + b;
    assert t[..|t| - 3] == a;
    assert t[|t| - 3..] == b;
  }

  lemma {:induction false} AllFishFieldsRoundTrip(fish: seq<Option<FishPos>>)
    ensures |AllFishFields(fish)| == 3 * |fish|
    ensures ParseFishFields(AllFishFields(fish)) == Some(fish)
    decreases |fish|
  {
    if fish != [] {
      var p := fish[..|fish| - 1];
      var last := fish[|fish| - 1];
      var a, b := AllFishFields(p), FishFields(last);
      assert AllFishFields(fish) == a + b;
      AllFishFieldsRoundTrip(p);
      FishRoundTrip(last);
      ParseFishFieldsSnoc(a, b);
      assert p + [last] == fish;
    }
  }

  /** A line has 2 + 3 fields per well and reads back to what was written. */
  lemma TrackLineRoundTrip(frameIndex: u32, fish: seq<Option<FishPos>>, timeStamp: real)
    ensures |TrackLine(frameIndex, Some(fish), timeStamp)| == 2 + 3 * |fish|
    ensures ParseTrackLine(TrackLine(frameIndex, Some(fish), timeStamp)) == Some((frameIndex as int, fish, timeStamp))
  {
    AllFishFieldsRoundTrip(fish);
    var line := TrackLine(frameIndex, Some(fish), timeStamp);
    assert line[1..|line| - 1] == AllFishFields(fish);
  }

  /** Without any tracking result the line has one NaN triple, read back as
      a single well without fish. */
  lemma NoResultReadsAsOneEmptyWell(frameIndex: u32, timeStamp: real)
    ensures |TrackLine(frameIndex, None, timeStamp)| == 5
    ensures ParseTrackLine(TrackLine(frameIndex, None, timeStamp)) == Some((frameIndex as int, [None], timeStamp))
  {
    assert AllFishFields([None]) == [] + FishFields(None);
    assert TrackLine(frameIndex, None, timeStamp) == TrackLine(frameIndex, Some([None]), timeStamp);
    TrackLineRoundTrip(frameIndex, [None], timeStamp);
  }

  // ---------------------------------------------------------------------
  // The two-plate dark-flash protocol of CreateSDFExperiments
  // ---------------------------------------------------------------------

  /** 60 s between dark flashes. */
  const DarkFlashInterval: int := 33600
  const StimPerBlock: int := 60
  /** The rest is two minutes longer than a block. */
  const RestElongation: int := 67200
  /** DarkFlashInterval * StimPerBlock. */
  const TotalBlockLength: int := 2016000
  /** TotalBlockLength + RestElongation. */
  const RestTime: int := 2083200
  /** 20 minutes of acclimatization before plate 0's first flash. */
  const Acclimatization: int := 672000
  const NBlocks: int := 7
  /** 12 hours between training and the retention block. */
  const RetentionTime: int := 24192000
  const RetentionISI: int := 33600
  /** One training block plus the rest after it. */
  const Period: int := TotalBlockLength + RestTime
  /** The constructor's NumFrames. */
  const DefaultNumFrames: int := 29333920 + 560 * 60

  /** Plate 0 starts after the acclimatization; every later plate one
      minute (half the rest elongation) after plate 0's first block. */
  function Countdown(plate: int): i32 {
    if plate == 0 then Acclimatization else Acclimatization + RestElongation / 2 + TotalBlockLength
  }

  /** The experiment settings CreateSDFExperiments gives plate `plate`. */
  function PlateConfig(plate: int, numFrames: i32): SimpleDarkFlash.FlashConfig {
    SimpleDarkFlash.FlashConfig(Countdown(plate), numFrames, NBlocks, StimPerBlock,
                                DarkFlashInterval, DarkFlashInterval, RestTime, RetentionTime, RetentionISI)
  }

  /** With equal interval bounds every gap is the interval. */
  function FixedPicks(c: SimpleDarkFlash.FlashConfig): seq<seq<int>> {
    seq(SimpleDarkFlash.BlockCount(c), b => seq(SimpleDarkFlash.StimCount(c), k => c.intervalMin))
  }

  /** With a fixed interval the generator has exactly one choice. */
  lemma FixedPicksOnly(c: SimpleDarkFlash.FlashConfig, picks: seq<seq<int>>)
    requires c.intervalMin == c.intervalMax
    ensures SimpleDarkFlash.PicksAllowed(c, picks) <==> picks == FixedPicks(c)
  {
    var P := FixedPicks(c);
    if SimpleDarkFlash.PicksAllowed(c, picks) {
      forall b | 0 <= b < |picks| ensures picks[b] == P[b] {
        assert SimpleDarkFlash.BlockAllowed(c, picks[b]);
        forall k | 0 <= k < |picks[b]| ensures picks[b][k] == P[b][k] {
          assert SimpleDarkFlash.GapAllowed(c, picks[b][k]);
        }
      }
    }
    if picks == P {
      forall b | 0 <= b < |P| ensures SimpleDarkFlash.BlockAllowed(c, P[b]) {
        forall k | 0 <= k < |P[b]| ensures SimpleDarkFlash.GapAllowed(c, P[b][k]) {
        }
      }
    }
  }

  /** The dark-flash frames of plate `plate`. */
  function PlateFrames(plate: int, numFrames: i32): seq<i32> {
    var c := PlateConfig(plate, numFrames);
    SimpleDarkFlash.Schedule(c, FixedPicks(c))
  }

  // In the lemmas below 60 is StimPerBlock, 33600 the dark-flash interval
  // and 4099200 the Period, a block plus its rest.

  lemma FixedWalk(start: i32, gaps: seq<int>)
    requires forall k :: 0 <= k < |gaps| ==> gaps[k] == DarkFlashInterval
    requires 0 <= start <= 30000000 && |gaps| <= StimPerBlock
    ensures SimpleDarkFlash.Walk(start, gaps) == start + |gaps| * 33600
    decreases |gaps|
  {
    if gaps != [] {
      var p := gaps[..|gaps| - 1];
      FixedWalk(start, p);
      WrapI32Id(start + |gaps| * 33600);
    }
  }

  /** Block j of a plate starts j periods after the plate's countdown. */
  lemma {:induction false} FixedBlockStart(plate: int, numFrames: i32, j: nat)
    requires j <= NBlocks
    ensures SimpleDarkFlash.BlockStart(PlateConfig(plate, numFrames), FixedPicks(PlateConfig(plate, numFrames))[..j])
            == Countdown(plate) + j * 4099200
  {
    var c := PlateConfig(plate, numFrames);
    var P := FixedPicks(c);
    if j == 0 {
      assert P[..0] == [];
    } else {
      var done := P[..j];
      FixedBlockStart(plate, numFrames, j - 1);
      assert done[..j - 1] == P[..j - 1];
      var start := SimpleDarkFlash.BlockStart(c, P[..j - 1]);
      MulLeMono(j - 1, 6, 4099200);
      FixedWalk(start, done[j - 1]);
      assert SimpleDarkFlash.TrainingEnd(c, done) == start + TotalBlockLength;
      WrapI32Id(start + TotalBlockLength + RestTime);
      assert SimpleDarkFlash.BlockStart(c, done) == start + 4099200;
      assert (j - 1) * 4099200 + 4099200 == j * 4099200;
    }
  }

  /** Training ends one block after the start of the last block. */
  lemma FixedTrainingEnd(plate: int, numFrames: i32)
    ensures SimpleDarkFlash.TrainingEnd(PlateConfig(plate, numFrames), FixedPicks(PlateConfig(plate, numFrames)))
            == Countdown(plate) + 6 * 4099200 + TotalBlockLength
  {
    var c := PlateConfig(plate, numFrames);
    var P := FixedPicks(c);
    FixedBlockStart(plate, numFrames, NBlocks - 1);
    FixedWalk(Countdown(plate) + 6 * 4099200, P[NBlocks - 1]);
  }

  /** Training flash k of block b: the block start plus k intervals. */
  lemma FixedTrainingFlash(plate: int, numFrames: i32, b: nat, k: nat)
    requires b < NBlocks && k < StimPerBlock
    ensures b * 60 + k < |PlateFrames(plate, numFrames)|
    ensures PlateFrames(plate, numFrames)[b * 60 + k]
            == Countdown(plate) + b * 4099200 + k * 33600
  {
    var c := PlateConfig(plate, numFrames);
    var P := FixedPicks(c);
    FixedPicksOnly(c, P);
    SimpleDarkFlash.ScheduleTraining(c, P, b, k);
    var start := SimpleDarkFlash.BlockStart(c, P[..b]);
    var gaps := P[b];
    SimpleDarkFlash.StepsElem(start, gaps, k);
    FixedBlockStart(plate, numFrames, b);
    MulLeMono(b, 6, 4099200);
    assert forall i :: 0 <= i < k ==> gaps[..k][i] == DarkFlashInterval;
    FixedWalk(start, gaps[..k]);
  }

  lemma FixedRetEnd(start: i32, n: nat)
    requires 0 <= start && start + n * 33600 <= INT_MAX
    ensures SimpleDarkFlash.RetEnd(start, RetentionISI, n) == start + n * 33600
  {
    WrapI32Id(start + n * 33600);
  }

  /** Retention flash k: 12 hours after training plus k + 1 intervals. */
  lemma FixedRetentionFlash(plate: int, numFrames: i32, k: nat)
    requires k < StimPerBlock
    ensures 420 + k < |PlateFrames(plate, numFrames)| - 1
    ensures PlateFrames(plate, numFrames)[420 + k]
            == Countdown(plate) + 6 * 4099200 + TotalBlockLength + RetentionTime + (k + 1) * 33600
  {
    var c := PlateConfig(plate, numFrames);
    var P := FixedPicks(c);
    FixedPicksOnly(c, P);
    SimpleDarkFlash.ScheduleRetention(c, P, k);
    FixedTrainingEnd(plate, numFrames);
    var e := Countdown(plate) + 6 * 4099200 + TotalBlockLength;
    WrapI32Id(e + RetentionTime);
    FixedRetEnd(e + RetentionTime, k + 1);
  }

  /** A plate's schedule: 7 blocks of 60 flashes, 60 retention flashes and
      the frame-count sentinel. */
  lemma PlateFramesLength(plate: int, numFrames: i32)
    ensures |PlateFrames(plate, numFrames)| == 481
    ensures PlateFrames(plate, numFrames)[|PlateFrames(plate, numFrames)| - 1] == numFrames
  {
    var c := PlateConfig(plate, numFrames);
    FixedPicksOnly(c, FixedPicks(c));
    SimpleDarkFlash.ScheduleLength(c, FixedPicks(c));
  }

  /** Flash k of a plate's schedule written out: training flash k % 60 of
      block k / 60, retention flash k - 420, or the sentinel. */
  function PlateFlash(plate: int, numFrames: i32, k: int): i32
    requires 0 <= k < 481
  {
    if k < 420 then
      var b, j := k / 60, k % 60;
      Countdown(plate) + b * 4099200 + j * 33600
    else if k < 480 then
      Countdown(plate) + 6 * 4099200 + TotalBlockLength + RetentionTime + (k - 419) * 33600
    else numFrames
  }

  /** A plate's schedule in closed form. */
  function PlateSchedule(plate: int, numFrames: i32): seq<i32> {
    seq(481, k requires 0 <= k < 481 => PlateFlash(plate, numFrames, k))
  }

  /** The generator, given a plate's settings, produces the closed form. */
  lemma PlateFramesClosedForm(plate: int, numFrames: i32)
    ensures PlateFrames(plate, numFrames) == PlateSchedule(plate, numFrames)
  {
    var fr, cf := PlateFrames(plate, numFrames), PlateSchedule(plate, numFrames);
    PlateFramesLength(plate, numFrames);
    forall k | 0 <= k < 481 ensures fr[k] == cf[k] {
      if k < 420 {
        var b, j := k / 60, k % 60;
        assert b * 60 + j == k;
        FixedTrainingFlash(plate, numFrames, b, j);
      } else if k < 480 {
        FixedRetentionFlash(plate, numFrames, k - 420);
      }
    }
  }

  /** Flip j of a plate: one second after the end of its block j. */
  function FlipFrame(plate: int, j: int): int {
    Countdown(plate) + TotalBlockLength + FrameRate + j * Period
  }

  /** The nBlocks flips a plate contributes, each to the next plate. */
  function PlateFlips(plate: int, plateCount: int): seq<Flip>
    requires plateCount > 0
  {
    seq(NBlocks, j => Flip(FlipFrame(plate, j), (plate + 1) % plateCount))
  }

  /** Plate 0's extra flip, one second after its last retention flash (the
      entry before the sentinel), back to plate 1. */
  function ExtraFlip(numFrames: i32): Flip {
    Flip(AddI32(PlateFlash(0, numFrames, 479), FrameRate), 1)
  }

  /** The flips of plates 0 .. p-1, in the order the plate loop adds them. */
  function FlipsUpTo(p: nat, plateCount: int, numFrames: i32): seq<Flip>
    requires plateCount > 0
  {
    if p == 0 then []
    else FlipsUpTo(p - 1, plateCount, numFrames) + PlateFlips(p - 1, plateCount)
         + (if p - 1 == 0 then [ExtraFlip(numFrames)] else [])
  }

  /** All flips of CreateSDFExperiments, before sorting. */
  function FlipList(plateCount: int, numFrames: i32): seq<Flip> {
    if plateCount <= 0 then [] else FlipsUpTo(plateCount, plateCount, numFrames)
  }

  lemma {:induction false} FlipsUpToLength(p: nat, plateCount: int, numFrames: i32)
    requires plateCount > 0
    ensures |FlipsUpTo(p, plateCount, numFrames)| == NBlocks * p + (if p > 0 then 1 else 0)
  {
    if p > 0 {
      FlipsUpToLength(p - 1, plateCount, numFrames);
    }
  }

  /** nBlocks flips per plate and plate 0's extra one. */
  lemma FlipCount(plateCount: int, numFrames: i32)
    requires plateCount >= 0
    ensures |FlipList(plateCount, numFrames)| == NBlocks * plateCount + (if plateCount > 0 then 1 else 0)
  {
    if plateCount > 0 {
      FlipsUpToLength(plateCount, plateCount, numFrames);
    }
  }

  /** The mirror flips one interval plus one second after the last flash of
      each training block. */
  lemma FlipFollowsBlock(plate: int, numFrames: i32, j: nat)
    requires j < NBlocks
    ensures j * 60 + 59 < |PlateFrames(plate, numFrames)|
    ensures FlipFrame(plate, j)
            == PlateFrames(plate, numFrames)[j * 60 + 59] + DarkFlashInterval + FrameRate
  {
    FixedTrainingFlash(plate, numFrames, j, 59);
  }

  /** The extra flip comes one second after plate 0's last retention flash,
      at frame 53491760. */
  lemma ExtraFlipAfterRetention(numFrames: i32)
    ensures |PlateFrames(0, numFrames)| == 481
    ensures ExtraFlip(numFrames).frame
            == PlateFrames(0, numFrames)[479] + FrameRate
    ensures ExtraFlip(numFrames).frame == 53491760
  {
    PlateFramesClosedForm(0, numFrames);
    WrapI32Id(53491760);
  }

  /** The plates take turns: plate 1's block j starts one minute after
      plate 0's block j ends, and the flip to plate 1 falls in between. */
  lemma PlateOneFollowsPlateZero(numFrames: i32, j: nat)
    requires j < NBlocks
    ensures |PlateFrames(0, numFrames)| == |PlateFrames(1, numFrames)| == 481
    ensures PlateFrames(1, numFrames)[j * 60]
            == PlateFrames(0, numFrames)[j * 60 + 59] + DarkFlashInterval + RestElongation / 2
    ensures PlateFrames(0, numFrames)[j * 60 + 59] < FlipFrame(0, j)
            < PlateFrames(1, numFrames)[j * 60]
  {
    PlateFramesLength(0, numFrames);
    PlateFramesLength(1, numFrames);
    FixedTrainingFlash(0, numFrames, j, 59);
    FixedTrainingFlash(1, numFrames, j, 0);
  }

  /** ... and plate 0's next block starts one minute after plate 1's block
      j ends, with the flip back to plate 0 in between. */
  lemma PlateZeroFollowsPlateOne(numFrames: i32, j: nat)
    requires j + 1 < NBlocks
    ensures |PlateFrames(0, numFrames)| == |PlateFrames(1, numFrames)| == 481
    ensures PlateFrames(0, numFrames)[j * 60 + 60]
            == PlateFrames(1, numFrames)[j * 60 + 59] + DarkFlashInterval + RestElongation / 2
    ensures PlateFrames(1, numFrames)[j * 60 + 59] < FlipFrame(1, j)
            < PlateFrames(0, numFrames)[j * 60 + 60]
  {
    PlateFramesLength(0, numFrames);
    PlateFramesLength(1, numFrames);
    FixedTrainingFlash(1, numFrames, j, 59);
    NextBlockFirstFlash(0, numFrames, j);
    var a := PlateFrames(1, numFrames)[j * 60 + 59];
    var b := PlateFrames(0, numFrames)[j * 60 + 60];
    assert a == 4704000 + j * 4099200;
    assert b == 4771200 + j * 4099200;
  }

  lemma NextBlockFirstFlash(plate: int, numFrames: i32, j: nat)
    requires j + 1 < NBlocks
    ensures j * 60 + 60 < |PlateFrames(plate, numFrames)|
    ensures PlateFrames(plate, numFrames)[j * 60 + 60] == Countdown(plate) + j * 4099200 + 4099200
  {
    FixedTrainingFlash(plate, numFrames, j + 1, 0);
    assert (j + 1) * 60 + 0 == j * 60 + 60;
    assert (j + 1) * 4099200 + 0 * 33600 == j * 4099200 + 4099200;
  }

  /** With the default frame count the run stops 61 s after the last flip
      back to plate 0, long before plate 0's retention block. */
  lemma DefaultRunEndsBeforeRetention()
    ensures DefaultNumFrames == FlipFrame(1, NBlocks - 1) + FrameRate + DarkFlashInterval
    ensures 420 < |PlateFrames(0, DefaultNumFrames)|
    ensures PlateFrames(0, DefaultNumFrames)[420] > DefaultNumFrames
  {
    FixedRetentionFlash(0, DefaultNumFrames, 0);
  }

  /** Flip frame j of a plate with the period written out. */
  lemma FlipFrameValue(plate: int, j: int)
    ensures FlipFrame(plate, j) == Countdown(plate) + 2016560 + j * 4099200
  {
    assert Period == 4099200;
  }

  /** With one or two plates: plate 0's flips (to plate 1 % plateCount),
      the extra flip, then plate 1's flips back to plate 0. */
  lemma FlipListElems(plateCount: int, numFrames: i32)
    requires 1 <= plateCount <= 2
    ensures |FlipList(plateCount, numFrames)| == 7 * plateCount + 1
    ensures forall k :: 0 <= k < 7 ==>
              FlipList(plateCount, numFrames)[k] == Flip(2688560 + k * 4099200, 1 % plateCount)
    ensures FlipList(plateCount, numFrames)[7] == Flip(53491760, 1)
    ensures plateCount == 2 ==> forall k :: 8 <= k < 15 ==>
              FlipList(plateCount, numFrames)[k] == Flip(4738160 + (k - 8) * 4099200, 0)
  {
    FlipCount(plateCount, numFrames);
    ExtraFlipAfterRetention(numFrames);
    var q0 := PlateFlips(0, plateCount);
    forall k | 0 <= k < 7 ensures q0[k] == Flip(2688560 + k * 4099200, 1 % plateCount) {
      FlipFrameValue(0, k);
    }
    assert FlipsUpTo(1, plateCount, numFrames) == q0 + [ExtraFlip(numFrames)];
    if plateCount == 2 {
      var q1 := PlateFlips(1, plateCount);
      forall k | 0 <= k < 7 ensures q1[k] == Flip(4738160 + k * 4099200, 0) {
        FlipFrameValue(1, k);
      }
      assert FlipList(plateCount, numFrames) == q0 + [ExtraFlip(numFrames)] + q1;
    } else {
      assert FlipList(plateCount, numFrames) == q0 + [ExtraFlip(numFrames)];
    }
  }

  /** No two flips share a frame. */
  predicate DistinctFrames(q: seq<Flip>) {
    forall i, j :: 0 <= i < j < |q| ==> q[i].frame != q[j].frame
  }

  lemma FlipFramesDistinct(plateCount: int, numFrames: i32)
    requires 0 <= plateCount <= 2
    ensures DistinctFrames(FlipList(plateCount, numFrames))
  {
    if plateCount > 0 {
      FlipListElems(plateCount, numFrames);
    }
  }

  // ---------------------------------------------------------------------
  // Array.Sort(keys, items): the paired sort of the flip arrays
  // ---------------------------------------------------------------------

  /** Pairs frame k with target k. */
  function Zip(frames: seq<int>, targets: seq<int>): (q: seq<Flip>)
    requires |frames| == |targets|
    ensures |q| == |frames|
    ensures forall i :: 0 <= i < |q| ==> q[i] == Flip(frames[i], targets[i])
  {
    seq(|frames|, i requires 0 <= i < |frames| => Flip(frames[i], targets[i]))
  }

  /** The frames of the flips, in order. */
  function Frames(q: seq<Flip>): (f: seq<int>)
    ensures |f| == |q|
    ensures forall i :: 0 <= i < |q| ==> f[i] == q[i].frame
  {
    seq(|q|, i requires 0 <= i < |q| => q[i].frame)
  }

  predicate Ascending(s: seq<int>) {
    forall i, j :: 0 <= i < j < |s| ==> s[i] <= s[j]
  }

  function Swap<T>(s: seq<T>, a: nat, b: nat): seq<T>
    requires a < |s| && b < |s|
  {
    s[a := s[b]][b := s[a]]
  }

  /** Swapping the same two places in both arrays swaps two pairs. */
  lemma SwapPairs(k: seq<int>, v: seq<int>, a: nat, b: nat)
    requires |k| == |v| && a < |k| && b < |k|
    ensures multiset(Swap(k, a, b)) == multiset(k)
    ensures multiset(Zip(Swap(k, a, b), Swap(v, a, b))) == multiset(Zip(k, v))
  {
    assert Zip(Swap(k, a, b), Swap(v, a, b)) == Swap(Zip(k, v), a, b);
  }

  /** Array.Sort(keys, items): sorts the keys and moves each item with its
      key (insertion sort stands for .NET's introspective sort; neither
      promises an order among equal keys). */
  method SortPaired(keys: array<i32>, items: array<i32>)
    requires keys != items && keys.Length == items.Length
    modifies keys, items
    ensures Ascending(keys[..])
    ensures multiset(keys[..]) == multiset(old(keys[..]))
    ensures multiset(Zip(keys[..], items[..])) == multiset(Zip(old(keys[..]), old(items[..])))
  {
    ghost var K0, V0 := keys[..], items[..];
    var i := 0;
    while i < keys.Length
      invariant 0 <= i <= keys.Length
      invariant SortedPrefix(keys[..], i)
      invariant multiset(keys[..]) == multiset(K0)
      invariant multiset(Zip(keys[..], items[..])) == multiset(Zip(K0, V0))
    {
      InsertLast(keys, items, i);
      i := i + 1;
    }
  }

  /** The first n entries are in ascending order. */
  predicate SortedPrefix(s: seq<int>, n: nat)
    requires n <= |s|
  {
    forall a, b :: 0 <= a < b < n ==> s[a] <= s[b]
  }

  /** Insertion of entry i is under way at place j: apart from place j the
      first i + 1 entries are ascending, and every entry after j up to i is
      larger than the one at j. */
  predicate Inserting(s: seq<int>, i: nat, j: nat)
    requires j <= i < |s|
  {
    (forall a, b :: 0 <= a < b <= i && a != j && b != j ==> s[a] <= s[b]) &&
    (forall b :: j < b <= i ==> s[j] < s[b])
  }

  lemma InsertingStart(s: seq<int>, i: nat)
    requires i < |s| && SortedPrefix(s, i)
    ensures Inserting(s, i, i)
  {
  }

  lemma InsertingStep(s: seq<int>, i: nat, j: nat)
    requires 0 < j <= i < |s| && Inserting(s, i, j) && s[j - 1] > s[j]
    ensures Inserting(Swap(s, j - 1, j), i, j - 1)
  {
    var t := Swap(s, j - 1, j);
    assert t[j - 1] == s[j] && t[j] == s[j - 1];
    assert forall a :: 0 <= a <= i && a != j - 1 && a != j ==> t[a] == s[a];
  }

  lemma InsertingDone(s: seq<int>, i: nat, j: nat)
    requires j <= i < |s| && Inserting(s, i, j) && (j == 0 || s[j - 1] <= s[j])
    ensures SortedPrefix(s, i + 1)
  {
    forall a, b | 0 <= a < b <= i ensures s[a] <= s[b] {
      if a == j {
      } else if b == j {
        assert s[a] <= s[j - 1];
      } else {
      }
    }
  }

  /** One insertion-sort pass: moves keys[i] (with its item) left past the
      larger keys, so that the first i + 1 keys are sorted. */
  method InsertLast(keys: array<i32>, items: array<i32>, i: nat)
    requires keys != items && keys.Length == items.Length && i < keys.Length
    requires SortedPrefix(keys[..], i)
    modifies keys, items
    ensures SortedPrefix(keys[..], i + 1)
    ensures multiset(keys[..]) == multiset(old(keys[..]))
    ensures multiset(Zip(keys[..], items[..])) == multiset(Zip(old(keys[..]), old(items[..])))
  {
    ghost var K0, V0 := keys[..], items[..];
    InsertingStart(keys[..], i);
    var j := i;
    while j > 0 && keys[j - 1] > keys[j]
      invariant 0 <= j <= i
      invariant Inserting(keys[..], i, j)
      invariant multiset(keys[..]) == multiset(K0)
      invariant multiset(Zip(keys[..], items[..])) == multiset(Zip(K0, V0))
    {
      ghost var K, V := keys[..], items[..];
      SwapBoth(keys, items, j);
      SwapPairs(K, V, j - 1, j);
      InsertingStep(K, i, j);
      j := j - 1;
    }
    InsertingDone(keys[..], i, j);
  }

  /** Exchanges places j - 1 and j in both arrays. */
  method SwapBoth(keys: array<i32>, items: array<i32>, j: nat)
    requires keys != items && keys.Length == items.Length && 0 < j < keys.Length
    modifies keys, items
    ensures keys[..] == Swap(old(keys[..]), j - 1, j)
    ensures items[..] == Swap(old(items[..]), j - 1, j)
  {
    keys[j - 1], keys[j] := keys[j], keys[j - 1];
    items[j - 1], items[j] := items[j], items[j - 1];
  }

  /** A sequence without repeats holds every value at most once. */
  lemma {:induction false} DistinctOnce(s: seq<int>, x: int)
    requires forall i, j :: 0 <= i < j < |s| ==> s[i] != s[j]
    ensures multiset(s)[x] <= 1
    decreases |s|
  {
    if s != [] {
      var p := s[..|s| - 1];
      DistinctOnce(p, x);
      assert s == p + [s[|s| - 1]];
      if s[|s| - 1] == x {
        assert x !in p;
      }
    }
  }

  /** Two equal neighbours make a value occur twice. */
  lemma NeighboursTwice(s: seq<int>, i: nat)
    requires i + 1 < |s| && s[i] == s[i + 1]
    ensures multiset(s)[s[i]] >= 2
  {
    assert s == s[..i] + [s[i], s[i + 1]] + s[i + 2..];
  }

  lemma {:induction false} StrictZip(k: seq<int>, v: seq<int>)
    requires |k| == |v|
    requires forall i :: 0 <= i < |k| - 1 ==> k[i] < k[i + 1]
    ensures StrictlyAscending(Zip(k, v))
    decreases |k|
  {
    if |k| > 1 {
      StrictZip(k[1..], v[1..]);
      assert Zip(k, v)[1..] == Zip(k[1..], v[1..]);
    }
  }

  /** Sorted keys drawn from flips with distinct frames make a strictly
      ascending switch queue. */
  lemma SortedFlipsStrictlyAscend(keys: seq<int>, targets: seq<int>, q: seq<Flip>)
    requires |keys| == |targets|
    requires Ascending(keys) && multiset(keys) == multiset(Frames(q)) && DistinctFrames(q)
    ensures StrictlyAscending(Zip(keys, targets))
  {
    var f := Frames(q);
    forall i | 0 <= i < |keys| - 1 ensures keys[i] < keys[i + 1] {
      if keys[i] == keys[i + 1] {
        NeighboursTwice(keys, i);
        DistinctOnce(f, keys[i]);
        assert false;
      }
    }
    StrictZip(keys, targets);
  }

  /** Flip frames of plates 0 and 1 fit an `int` with room to spare. */
  lemma FlipFrameRange(plate: int, j: nat)
    requires j < NBlocks
    ensures 0 < FlipFrame(plate, j) <= 29333360
  {
    FlipFrameValue(plate, j);
    MulLeMono(j, 6, 4099200);
  }

  lemma ZipSnoc(k: seq<int>, v: seq<int>, a: int, b: int)
    requires |k| == |v|
    ensures Zip(k + [a], v + [b]) == Zip(k, v) + [Flip(a, b)]
  {
  }

  // ---------------------------------------------------------------------
  // The switch schedule in frame order
  // ---------------------------------------------------------------------

  /** The flip arrays after Array.Sort: the protocol's flips, frames
      ascending, each frame kept with its target plate. */
  predicate SortedFlips(fi: seq<i32>, ft: seq<i32>, plateCount: int, numFrames: i32) {
    |fi| == |ft| == |FlipList(plateCount, numFrames)| && Ascending(fi)
    && multiset(fi) == multiset(Frames(FlipList(plateCount, numFrames)))
    && multiset(Zip(fi, ft)) == multiset(FlipList(plateCount, numFrames))
  }

  /** a[0], b[0], a[1], b[1], ...: two plates taking turns. */
  function Interleave(a: seq<Flip>, b: seq<Flip>): (r: seq<Flip>)
    requires |a| == |b|
    ensures |r| == 2 * |a|
    decreases |a|
  {
    if a == [] then [] else [a[0], b[0]] + Interleave(a[1..], b[1..])
  }

  lemma {:induction false} InterleaveElem(a: seq<Flip>, b: seq<Flip>, k: nat)
    requires |a| == |b| && k < 2 * |a|
    ensures Interleave(a, b)[k] == if k % 2 == 0 then a[k / 2] else b[k / 2]
    decreases |a|
  {
    if k >= 2 {
      InterleaveElem(a[1..], b[1..], k - 2);
      assert (k - 2) % 2 == k % 2 && (k - 2) / 2 + 1 == k / 2;
    }
  }

  /** Interleaving keeps every flip of both plates. */
  lemma {:induction false} InterleaveMultiset(a: seq<Flip>, b: seq<Flip>)
    requires |a| == |b|
    ensures multiset(Interleave(a, b)) == multiset(a) + multiset(b)
    decreases |a|
  {
    if a != [] {
      InterleaveMultiset(a[1..], b[1..]);
      assert a == [a[0]] + a[1..];
      assert b == [b[0]] + b[1..];
    }
  }

  /** The flips of CreateSDFExperiments in the order Array.Sort leaves
      them: with two plates the plates take turns, plate 0's flip j before
      plate 1's flip j, and plate 0's extra flip comes last. */
  function SwitchSchedule(plateCount: int, numFrames: i32): seq<Flip> {
    if plateCount == 1 then PlateFlips(0, 1) + [ExtraFlip(numFrames)]
    else if plateCount == 2 then Interleave(PlateFlips(0, 2), PlateFlips(1, 2)) + [ExtraFlip(numFrames)]
    else []
  }

  /** The sorted schedule written out: with two plates a flip every
      2049600 frames (half a period), alternating the target, then the
      extra flip at frame 53491760. */
  lemma SwitchScheduleElems(plateCount: int, numFrames: i32)
    requires 1 <= plateCount <= 2
    ensures |SwitchSchedule(plateCount, numFrames)| == 7 * plateCount + 1
    ensures plateCount == 1 ==> forall k :: 0 <= k < 7 ==>
              SwitchSchedule(plateCount, numFrames)[k] == Flip(2688560 + k * 4099200, 0)
    ensures plateCount == 2 ==> forall k :: 0 <= k < 14 ==>
              SwitchSchedule(plateCount, numFrames)[k] == Flip(2688560 + k * 2049600, 1 - k % 2)
    ensures SwitchSchedule(plateCount, numFrames)[7 * plateCount] == Flip(53491760, 1)
  {
    ExtraFlipAfterRetention(numFrames);
    var q := SwitchSchedule(plateCount, numFrames);
    if plateCount == 1 {
      forall k | 0 <= k < 7 ensures q[k] == Flip(2688560 + k * 4099200, 0) {
        FlipFrameValue(0, k);
      }
    } else {
      var a, b := PlateFlips(0, 2), PlateFlips(1, 2);
      forall k | 0 <= k < 14 ensures q[k] == Flip(2688560 + k * 2049600, 1 - k % 2) {
        InterleaveElem(a, b, k);
        var h, r := k / 2, k % 2;
        FlipFrameValue(r, h);
        assert k * 2049600 == h * 4099200 + r * 2049600;
      }
    }
  }

  lemma {:induction false} AscendingByNeighbours(q: seq<Flip>)
    requires forall i :: 0 <= i < |q| - 1 ==> q[i].frame < q[i + 1].frame
    ensures StrictlyAscending(q)
    decreases |q|
  {
    if |q| > 1 {
      AscendingByNeighbours(q[1..]);
    }
  }

  lemma {:induction false} AscendingHeadLeast(q: seq<Flip>, i: nat)
    requires StrictlyAscending(q) && 0 < i < |q|
    ensures q[0].frame < q[i].frame
    decreases i
  {
    if i > 1 {
      AscendingHeadLeast(q[1..], i - 1);
    }
  }

  /** The least flip of two ascending queues with the same flips is the
      head of both. */
  lemma HeadsAgree(a: seq<Flip>, b: seq<Flip>)
    requires multiset(a) == multiset(b) && a != []
    requires StrictlyAscending(a) && StrictlyAscending(b)
    ensures b != [] && a[0] == b[0]
  {
    assert a[0] in multiset(b);
    assert b[0] in multiset(a);
    var j :| 0 <= j < |b| && b[j] == a[0];
    var i :| 0 <= i < |a| && a[i] == b[0];
    if j > 0 {
      AscendingHeadLeast(b, j);
    }
    if i > 0 {
      AscendingHeadLeast(a, i);
    }
  }

  lemma MultisetCancel(x: Flip, m1: multiset<Flip>, m2: multiset<Flip>)
    requires multiset{x} + m1 == multiset{x} + m2
    ensures m1 == m2
  {
    assert forall y :: m1[y] == (multiset{x} + m1)[y] - multiset{x}[y];
    assert forall y :: m2[y] == (multiset{x} + m2)[y] - multiset{x}[y];
  }

  /** Two strictly ascending queues holding the same flips are equal. */
  lemma {:induction false} AscendingUnique(a: seq<Flip>, b: seq<Flip>)
    requires multiset(a) == multiset(b)
    requires StrictlyAscending(a) && StrictlyAscending(b)
    ensures a == b
    decreases |a|
  {
    if a == [] {
      assert |multiset(b)| == 0;
    } else {
      HeadsAgree(a, b);
      assert a == [a[0]] + a[1..];
      assert b == [a[0]] + b[1..];
      MultisetCancel(a[0], multiset(a[1..]), multiset(b[1..]));
      AscendingUnique(a[1..], b[1..]);
    }
  }

  lemma SwitchScheduleAscending(plateCount: int, numFrames: i32)
    ensures StrictlyAscending(SwitchSchedule(plateCount, numFrames))
  {
    if 1 <= plateCount <= 2 {
      SwitchScheduleElems(plateCount, numFrames);
      AscendingByNeighbours(SwitchSchedule(plateCount, numFrames));
    }
  }

  /** The sorted schedule holds exactly the flips the plate loop adds. */
  lemma SwitchSchedulePermutes(plateCount: int, numFrames: i32)
    requires 0 <= plateCount <= 2
    ensures multiset(SwitchSchedule(plateCount, numFrames)) == multiset(FlipList(plateCount, numFrames))
  {
    if plateCount > 0 {
      var q0, e := PlateFlips(0, plateCount), [ExtraFlip(numFrames)];
      assert FlipsUpTo(1, plateCount, numFrames) == q0 + e;
      if plateCount == 2 {
        var q1 := PlateFlips(1, 2);
        assert FlipList(2, numFrames) == q0 + e + q1;
        InterleaveMultiset(q0, q1);
      }
    }
  }

  /** Every flip of the schedule is after frame 0 and fits an `int`. */
  lemma SwitchScheduleFits(plateCount: int, numFrames: i32)
    ensures |SwitchSchedule(plateCount, numFrames)| <= 15
    ensures forall k :: 0 <= k < |SwitchSchedule(plateCount, numFrames)| ==>
              0 < SwitchSchedule(plateCount, numFrames)[k].frame <= INT_MAX
  {
    if 1 <= plateCount <= 2 {
      SwitchScheduleElems(plateCount, numFrames);
    }
  }

  /** The switch queue StartExperiment leaves keeps every promise of the
      protocol: the flip list's flips, strictly ascending, all after
      frame 0. */
  lemma SwitchScheduleReady(plateCount: int, numFrames: i32)
    requires 0 <= plateCount <= 2
    ensures QueueReady(SwitchSchedule(plateCount, numFrames), plateCount, numFrames)
  {
    SwitchScheduleAscending(plateCount, numFrames);
    SwitchSchedulePermutes(plateCount, numFrames);
    SwitchScheduleFits(plateCount, numFrames);
    FlipCount(plateCount, numFrames);
    if plateCount > 0 {
      SwitchScheduleElems(plateCount, numFrames);
    }
  }

  /** Array.Sort's result does not depend on how it sorts: the flip frames
      are distinct, so sorted keys with their items form the switch
      schedule. */
  lemma SortedIsSwitchSchedule(fi: seq<i32>, ft: seq<i32>, plateCount: int, numFrames: i32)
    requires 0 <= plateCount <= 2 && SortedFlips(fi, ft, plateCount, numFrames)
    ensures Zip(fi, ft) == SwitchSchedule(plateCount, numFrames)
  {
    FlipFramesDistinct(plateCount, numFrames);
    SortedFlipsStrictlyAscend(fi, ft, FlipList(plateCount, numFrames));
    SwitchScheduleAscending(plateCount, numFrames);
    SwitchSchedulePermutes(plateCount, numFrames);
    AscendingUnique(Zip(fi, ft), SwitchSchedule(plateCount, numFrames));
  }

  /** The bytes StartExperiment sends for the switch schedule: its flip
      frames, with more than one plate only. */
  function SwitchPayload(plateCount: int, numFrames: i32): seq<u8> {
    if plateCount > 1 then
      SwitchScheduleFits(plateCount, numFrames);
      Payload(Frames32(SwitchSchedule(plateCount, numFrames)))
    else []
  }

  /** Array.Sort(flipIndices, flipTo) in CreateSDFExperiments, on arrays
      built from the plate loop's lists. */
  method SortFlips(fl: seq<i32>, ft: seq<i32>, ghost plateCount: int, ghost numFrames: i32)
    returns (flipIndices: seq<i32>, flipTo: seq<i32>)
    requires 0 <= plateCount <= 2 && |fl| == |ft| && Zip(fl, ft) == FlipList(plateCount, numFrames)
    ensures |flipIndices| == |flipTo| && Zip(flipIndices, flipTo) == SwitchSchedule(plateCount, numFrames)
  {
    var keys := new i32[|fl|](k requires 0 <= k < |fl| => fl[k]);
    var items := new i32[|ft|](k requires 0 <= k < |ft| => ft[k]);
    assert keys[..] == fl && items[..] == ft;
    assert Frames(Zip(fl, ft)) == fl;
    SortPaired(keys, items);
    flipIndices, flipTo := keys[..], items[..];
    SortedIsSwitchSchedule(flipIndices, flipTo, plateCount, numFrames);
  }

  // ---------------------------------------------------------------------
  // The view model and its tracking loop
  // ---------------------------------------------------------------------

  /** What CreateSDFExperiments leaves on the experiment of plate `plate`:
      the two-plate protocol's settings, its schedule built, no flash yet,
      and the clock as the base constructor set it from `hourNow`. */
  ghost predicate Configured(e: SimpleDarkFlash.SimpleDarkFlash, plate: int, numFrames: i32,
                       pre: u32, post: u32, hourNow: int)
    reads e, e.base
  {
    e.Config() == PlateConfig(plate, numFrames)
    && e.flashFrames.Some? && |e.flashFrames.value| == 481 && Regenerates(e)
    && e.State() == SimpleDarkFlash.FlashState(0, UINT_MAX, 0)
    && e.DarkFlashStartHour == 0 && e.DarkFlashStopHour == 24 && e.RecordEvery == 1
    && e.base.DayStart == 0 && e.base.DayEnd == 24
    && e.base.RecordPre == pre && e.base.RecordPost == post
    && e.base.FrameRate == FrameRate
    && e.base.ClockState() == ExperimentBase.Clock(hourNow, 1, ExperimentBase.InHourBracket(9, 23, hourNow))
  }

  /** Building the schedule again gives the stored one: FlashFrames does
      not throw for the experiment's settings, and every choice it may make
      yields the schedule the experiment holds. */
  ghost predicate Regenerates(e: SimpleDarkFlash.SimpleDarkFlash)
    reads e, e.base
  {
    e.flashFrames.Some? && e.StimPerBlock < INT_MAX && !SimpleDarkFlash.RandomThrows(e.Config())
    && forall picks :: SimpleDarkFlash.PicksAllowed(e.Config(), picks) ==>
         e.flashFrames.value == SimpleDarkFlash.Schedule(e.Config(), picks)
  }

  /** A configured experiment holds its plate's schedule in closed form. */
  lemma ConfiguredSchedule(e: SimpleDarkFlash.SimpleDarkFlash, plate: int, numFrames: i32,
                           pre: u32, post: u32, hourNow: int)
    requires Configured(e, plate, numFrames, pre, post, hourNow)
    ensures e.flashFrames == Some(PlateSchedule(plate, numFrames))
  {
    var c := PlateConfig(plate, numFrames);
    FixedPicksOnly(c, FixedPicks(c));
    PlateFramesClosedForm(plate, numFrames);
  }

  /** The schedules of plates 0 .. n-1, framed one after the other. */
  function PlatePayloads(n: nat, numFrames: i32): seq<u8>
  {
    if n == 0 then [] else PlatePayloads(n - 1, numFrames) + Payload(PlateSchedule(n - 1, numFrames))
  }

  /** n distinct experiments, experiment i configured for plate i. */
  ghost predicate Created(ex: seq<SimpleDarkFlash.SimpleDarkFlash>, n: int, numFrames: i32,
                    pre: u32, post: u32, hourNow: int)
    reads set e | e in ex, set e | e in ex :: e.base
  {
    |ex| == n
    && (forall i :: 0 <= i < |ex| ==> Configured(ex[i], i, numFrames, pre, post, hourNow))
    && (forall i, j :: 0 <= i < j < |ex| ==> ex[i] != ex[j] && ex[i].base != ex[j].base)
  }

  /** Created experiments hold schedules the per-frame code may index. */
  lemma CreatedReady(ex: seq<SimpleDarkFlash.SimpleDarkFlash>, n: int, numFrames: i32,
                     pre: u32, post: u32, hourNow: int)
    requires Created(ex, n, numFrames, pre, post, hourNow)
    ensures forall e :: e in ex ==> e.flashFrames.Some? && |e.flashFrames.value| <= INT_MAX
  {
    forall e | e in ex
      ensures e.flashFrames.Some? && |e.flashFrames.value| <= INT_MAX
    {
      var i :| 0 <= i < |ex| && ex[i] == e;
      assert Configured(ex[i], i, numFrames, pre, post, hourNow);
    }
  }

  /** The full-rate step of one experiment (ProcessFullRateFrame on a plate
      that has one): PerformAction first, then, in iris mode only,
      RecordFrame on the state PerformAction left. */
  twostate predicate FullRateStep(e: SimpleDarkFlash.SimpleDarkFlash, index: u32, hourNow: int, irisMode: bool,
                                  ok: bool, produce: bool, createNewWriter: bool)
    reads e, e.base
  {
    old(e.flashFrames).Some? && e.flashFrames == old(e.flashFrames)
    && e.base.ClockState()
       == ExperimentBase.Tick(old(e.base.ClockState()), index, hourNow, e.base.DayStart, e.base.DayEnd)
    && var mid := SimpleDarkFlash.FlashStep(old(e.State()), e.flashFrames.value, index, e.HammerTime());
    if irisMode then
      var d := SimpleDarkFlash.RecordStep(e.flashFrames, mid, index, e.HammerTime(), e.Window());
      (ok <==> d.Some?)
      && (ok ==> produce == d.value.record && createNewWriter == d.value.newRecord
                 && e.State() == SimpleDarkFlash.FlashState(mid.nextFlashIndex, mid.lastFlashFrame, d.value.burstCount))
      && (!ok ==> e.State() == mid)
    else
      ok && !produce && !createNewWriter && e.State() == mid
  }

  /** The calls ProcessFullRateFrame makes on the current experiment once
      its schedule exists: PerformAction, then in iris mode RecordFrame. */
  method FullRateAction(e: SimpleDarkFlash.SimpleDarkFlash, index: u32, hourNow: int, irisMode: bool)
    returns (ok: bool, produce: bool, createNewWriter: bool)
    requires e.flashFrames.Some?
    modifies e, e.base
    ensures FullRateStep(e, index, hourNow, irisMode, ok, produce, createNewWriter)
  {
    createNewWriter := false;
    produce := false;
    var acted := e.PerformAction(index, hourNow);
    ok := true;
    if irisMode {
      var record;
      ok, record, createNewWriter := e.RecordFrame(index);
      produce := ok && record;
    }
  }

  class MainViewModel {
    var FrameIndex: u32
    var plateIndex: int
    /** Two plates; no code reassigns it. */
    var plateCount: int
    var lastFlipFrame: u32
    var switchQueue: seq<Flip>
    var experiments: Option<seq<SimpleDarkFlash.SimpleDarkFlash>>
    /** A local of the tracking loop: baseline frames of forced full
        background updates still to come. */
    var reInitCount: int
    var IrisMode: bool
    var NumFrames: i32
    var BurstPreFrames: u32
    var BurstPostFrames: u32

    /** The defaults of the view model's constructor (the queue, created
        only when an experiment starts, is empty here). */
    constructor ()
      ensures NumFrames == DefaultNumFrames && BurstPreFrames == 0 && BurstPostFrames == FrameRate && IrisMode
      ensures FrameIndex == 0 && plateIndex == 0 && plateCount == 2 && lastFlipFrame == 0
      ensures switchQueue == [] && experiments == None && reInitCount == 0
    {
      NumFrames := 29333920 + 560 * 60;
      BurstPreFrames := 0;
      BurstPostFrames := FrameRate;
      IrisMode := true;
      FrameIndex := 0;
      plateIndex := 0;
      plateCount := 2;
      lastFlipFrame := 0;
      switchQueue := [];
      experiments := None;
      reInitCount := 0;
    }

    function Switches(): SwitchState
      reads this
    {
      SwitchState(switchQueue, plateIndex)
    }

    /** The experiment of the current plate, if there is one. */
    function Current(): Option<SimpleDarkFlash.SimpleDarkFlash>
      reads this
    {
      if experiments.Some? && 0 <= plateIndex < |experiments.value| then Some(experiments.value[plateIndex])
      else None
    }

    function ExperimentObjects(): set<object>
      reads this
    {
      if experiments.None? then {}
      else (set e | e in experiments.value :: e as object) + (set e | e in experiments.value :: e.base as object)
    }

    /** Every experiment has its schedule. */
    predicate Ready()
      reads this, ExperimentObjects()
    {
      experiments.Some? ==> forall e :: e in experiments.value ==> e.flashFrames.Some? && |e.flashFrames.value| <= INT_MAX
    }

    /** Switches the plate when the head of the queue is due exactly now. */
    method UpdatePlateIndex(frameIndex: u32) returns (switched: bool)
      modifies this`switchQueue, this`plateIndex
      ensures (Switches(), switched) == QueueStep(old(Switches()), frameIndex)
    {
      if |switchQueue| < 1 {
        return false;
      }
      if switchQueue[0].frame == frameIndex {
        var swPair := switchQueue[0];
        switchQueue := switchQueue[1..];
        plateIndex := swPair.plate;
        return true;
      }
      return false;
    }

    /** Hands the frame to the current plate's experiment. `ok` is false
        where C# throws: the plate index outside the experiments, or
        RecordFrame past the end of the schedule. `produce`: the frame goes
        to the burst buffer. */
    method ProcessFullRateFrame(hourNow: int) returns (ok: bool, produce: bool, createNewWriter: bool)
      requires Ready()
      modifies if Current().Some? then {Current().value, Current().value.base} else {}
      ensures experiments.None? ==> ok && !produce && !createNewWriter
      ensures experiments.Some? && Current().None? ==> !ok
      ensures Current().Some? ==>
                FullRateStep(Current().value, FrameIndex, hourNow, IrisMode, ok, produce, createNewWriter)
      ensures Ready()
    {
      createNewWriter := false;
      produce := false;
      if experiments.None? {
        return true, produce, createNewWriter;
      }
      if !(0 <= plateIndex < |experiments.value|) {
        return false, produce, createNewWriter;
      }
      var e := experiments.value[plateIndex];
      assert e in experiments.value;
      ok, produce, createNewWriter := FullRateAction(e, FrameIndex, hourNow, IrisMode);
    }

    /** Creates one experiment per plate and the flip schedule between the
        plates, sorted by frame. `ok` is false where C# throws: more than two
        plates, or a negative plate count. The flash files each experiment
        writes to are not modelled. */
    method CreateSDFExperiments(hourNow: int)
      returns (ok: bool, ex: seq<SimpleDarkFlash.SimpleDarkFlash>, flipIndices: seq<i32>, flipTo: seq<i32>)
      ensures ok <==> 0 <= plateCount <= 2
      ensures ok ==> Created(ex, plateCount, NumFrames, BurstPreFrames, BurstPostFrames, hourNow)
      ensures ok ==> forall i :: 0 <= i < |ex| ==> fresh(ex[i]) && fresh(ex[i].base)
      ensures ok ==> |flipIndices| == |flipTo| && Zip(flipIndices, flipTo) == SwitchSchedule(plateCount, NumFrames)
    {
      ex, flipIndices, flipTo := [], [], [];
      if plateCount > 2 || plateCount < 0 {
        ok := false;
        return;
      }
      var fl, ft;
      ex, fl, ft := PlateLoop(hourNow);
      flipIndices, flipTo := SortFlips(fl, ft, plateCount, NumFrames);
      ok := true;
    }

    /** The plate loop: experiment i for plate i, and the flips in the
        order the loop adds them. */
    method PlateLoop(hourNow: int) returns (ex: seq<SimpleDarkFlash.SimpleDarkFlash>, fl: seq<i32>, ft: seq<i32>)
      requires 0 <= plateCount <= 2
      ensures Created(ex, plateCount, NumFrames, BurstPreFrames, BurstPostFrames, hourNow)
      ensures forall k :: 0 <= k < |ex| ==> fresh(ex[k]) && fresh(ex[k].base)
      ensures |fl| == |ft| && Zip(fl, ft) == FlipList(plateCount, NumFrames)
    {
      ex, fl, ft := [], [], [];
      var i := 0;
      while i < plateCount
        invariant 0 <= i <= plateCount
        invariant |fl| == |ft|
        invariant i == 0 ==> fl == [] && ft == []
        invariant plateCount > 0 ==> Zip(fl, ft) == FlipsUpTo(i, plateCount, NumFrames)
        invariant Created(ex, i, NumFrames, BurstPreFrames, BurstPostFrames, hourNow)
        invariant forall k :: 0 <= k < |ex| ==> fresh(ex[k]) && fresh(ex[k].base)
      {
        var dflash := NewPlateExperiment(i, hourNow);
        fl, ft := PlateFlipArrays(dflash, i, fl, ft);
        if i == 0 {
          fl, ft := AppendExtraFlip(dflash, hourNow, fl, ft);
        }
        ex := ex + [dflash];
        i := i + 1;
      }
    }

    /** Plate 0's flip back to plate 1 one second after its last retention
        flash; FlashFrames runs again for it. */
    method AppendExtraFlip(dflash: SimpleDarkFlash.SimpleDarkFlash, hourNow: int, fl: seq<i32>, ft: seq<i32>)
      returns (fl': seq<i32>, ft': seq<i32>)
      requires Configured(dflash, 0, NumFrames, BurstPreFrames, BurstPostFrames, hourNow)
      requires |fl| == |ft|
      ensures |fl'| == |ft'| && Zip(fl', ft') == Zip(fl, ft) + [ExtraFlip(NumFrames)]
    {
      var all;
      ghost var picks;
      all, picks := dflash.FlashFrames();
      ConfiguredSchedule(dflash, 0, NumFrames, BurstPreFrames, BurstPostFrames, hourNow);
      var lastFlash := all.value[|all.value| - 2];
      ZipSnoc(fl, ft, AddI32(lastFlash, FrameRate), 1);
      fl', ft' := fl + [AddI32(lastFlash, FrameRate)], ft + [1];
    }

    /** The settings of Configured, before the schedule is built. */
    predicate Settings(e: SimpleDarkFlash.SimpleDarkFlash, plate: int, hourNow: int)
      reads this, e, e.base
    {
      e.Config() == PlateConfig(plate, NumFrames)
      && e.State() == SimpleDarkFlash.FlashState(0, UINT_MAX, 0)
      && e.DarkFlashStartHour == 0 && e.DarkFlashStopHour == 24 && e.RecordEvery == 1
      && e.base.DayStart == 0 && e.base.DayEnd == 24
      && e.base.RecordPre == BurstPreFrames && e.base.RecordPost == BurstPostFrames
      && e.base.FrameRate == FrameRate
      && e.base.ClockState() == ExperimentBase.Clock(hourNow, 1, ExperimentBase.InHourBracket(9, 23, hourNow))
    }

    /** One plate's experiment as the plate loop sets it up and initialises it. */
    method NewPlateExperiment(i: int, hourNow: int) returns (dflash: SimpleDarkFlash.SimpleDarkFlash)
      requires 0 <= i <= 1
      ensures fresh(dflash) && fresh(dflash.base)
      ensures Configured(dflash, i, NumFrames, BurstPreFrames, BurstPostFrames, hourNow)
    {
      dflash := SetUpPlate(i, hourNow);
      var initOk := dflash.Init();
      ghost var c := dflash.Config();
      forall picks | SimpleDarkFlash.PicksAllowed(c, picks)
        ensures dflash.flashFrames.value == SimpleDarkFlash.Schedule(c, picks)
      {
        FixedPicksOnly(c, picks);
        FixedPicksOnly(c, dflash.schedulePicks);
      }
      FixedPicksOnly(c, dflash.schedulePicks);
      PlateFramesLength(i, NumFrames);
    }

    /** The constructor call and the settings of the plate loop. */
    method SetUpPlate(i: int, hourNow: int) returns (dflash: SimpleDarkFlash.SimpleDarkFlash)
      requires 0 <= i <= 1
      ensures fresh(dflash) && fresh(dflash.base)
      ensures Settings(dflash, i, hourNow)
    {
      var countdown: i32 := if i == 0 then Acclimatization else Acclimatization + RestElongation / 2 + TotalBlockLength;
      dflash := new SimpleDarkFlash.SimpleDarkFlash(countdown, FrameRate, NumFrames, hourNow);
      SetBaseWindow(dflash.base);
      SetFlashProtocol(dflash);
    }

    /** The day bracket and the recording window of the plate loop. */
    method SetBaseWindow(b: ExperimentBase.ExperimentBase)
      modifies b
      ensures b.DayStart == 0 && b.DayEnd == 24 && b.RecordPre == BurstPreFrames && b.RecordPost == BurstPostFrames
      ensures b.ClockState() == old(b.ClockState())
    {
      b.DayStart := 0;
      b.DayEnd := 24;
      b.RecordPre := BurstPreFrames;
      b.RecordPost := BurstPostFrames;
    }

    /** The flash hours and the two-plate protocol's constants. */
    method SetFlashProtocol(dflash: SimpleDarkFlash.SimpleDarkFlash)
      modifies dflash
      ensures dflash.DarkFlashStartHour == 0 && dflash.DarkFlashStopHour == 24 && dflash.RecordEvery == 1
      ensures dflash.Config() == SimpleDarkFlash.FlashConfig(dflash.initialCountdown, dflash.base.TotalFrames, NBlocks,
                StimPerBlock, DarkFlashInterval, DarkFlashInterval, RestTime, RetentionTime, RetentionISI)
      ensures dflash.State() == old(dflash.State())
    {
      dflash.DarkFlashStartHour := 0;
      dflash.DarkFlashStopHour := 24;
      dflash.RecordEvery := 1;
      dflash.DarkFlashIntervalMin := DarkFlashInterval;
      dflash.DarkFlashIntervalMax := DarkFlashInterval;
      dflash.StimPerBlock := StimPerBlock;
      dflash.nBlocks := 7;
      dflash.RestTime := RestTime;
      dflash.RetentionTime := RetentionTime;
      dflash.RetentionISI := RetentionISI;
    }

    /** Appends plate i's flips: one second after each of its training
        blocks, to the next plate. */
    method PlateFlipArrays(dflash: SimpleDarkFlash.SimpleDarkFlash, i: int, fl: seq<i32>, ft: seq<i32>)
      returns (fl': seq<i32>, ft': seq<i32>)
      requires 0 <= i < plateCount <= 2 && |fl| == |ft|
      requires dflash.initialCountdown == Countdown(i) && dflash.nBlocks == NBlocks && dflash.RestTime == RestTime
      ensures |fl'| == |ft'|
      ensures Zip(fl', ft') == Zip(fl, ft) + PlateFlips(i, plateCount)
    {
      var firstFlip := dflash.initialCountdown + TotalBlockLength + FrameRate;
      fl', ft' := fl, ft;
      var j := 0;
      while j < dflash.nBlocks
        invariant 0 <= j <= NBlocks
        invariant |fl'| == |ft'|
        invariant Zip(fl', ft') == Zip(fl, ft) + PlateFlips(i, plateCount)[..j]
      {
        FlipFrameRange(i, j);
        var f: i32 := firstFlip + j * (TotalBlockLength + dflash.RestTime);
        var to: i32 := (i + 1) % plateCount;
        ZipSnoc(fl', ft', f, to);
        assert PlateFlips(i, plateCount)[..j + 1] == PlateFlips(i, plateCount)[..j] + [PlateFlips(i, plateCount)[j]];
        fl' := fl' + [f];
        ft' := ft' + [to];
        j := j + 1;
      }
      assert PlateFlips(i, plateCount)[..NBlocks] == PlateFlips(i, plateCount);
    }

    /** The start of TrackThreadRun: frame 0 on plate 0, the experiments
        and flips created, each plate's schedule and (with more than one
        plate) the sorted flip frames sent to the controller, and the
        switch queue filled in sorted order. `ok` is false where
        CreateSDFExperiments throws. The last flip frame is not reset. */
    method StartExperiment(teensy: SerialLink, hourNow: int) returns (ok: bool)
      modifies this, teensy`written
      ensures FrameIndex == 0 && plateIndex == 0 && lastFlipFrame == old(lastFlipFrame)
      ensures plateCount == old(plateCount) && NumFrames == old(NumFrames) && IrisMode == old(IrisMode)
      ensures BurstPreFrames == old(BurstPreFrames) && BurstPostFrames == old(BurstPostFrames)
      ensures ok <==> 0 <= plateCount <= 2
      ensures ok ==> experiments.Some? && Ready()
                     && Created(experiments.value, plateCount, NumFrames, BurstPreFrames, BurstPostFrames, hourNow)
      ensures ok ==> forall k :: 0 <= k < |experiments.value| ==> fresh(experiments.value[k]) && fresh(experiments.value[k].base)
      ensures ok ==> switchQueue == SwitchSchedule(plateCount, NumFrames)
      ensures ok ==> teensy.written == old(teensy.written) + PlatePayloads(plateCount, NumFrames)
                                      + SwitchPayload(plateCount, NumFrames)
      ensures ok ==> reInitCount == 0
    {
      FrameIndex := 0;
      plateIndex := 0;
      reInitCount := 0;
      ok := Launch(teensy, hourNow);
    }

    /** The experiments of all plates, their schedules and the flips sent to
        the controller, the switch queue filled. */
    method Launch(teensy: SerialLink, hourNow: int) returns (ok: bool)
      modifies this`switchQueue, this`experiments, teensy`written
      ensures ok <==> 0 <= plateCount <= 2
      ensures ok ==> experiments.Some? && Ready()
                     && Created(experiments.value, plateCount, NumFrames, BurstPreFrames, BurstPostFrames, hourNow)
      ensures ok ==> forall k :: 0 <= k < |experiments.value| ==> fresh(experiments.value[k]) && fresh(experiments.value[k].base)
      ensures ok ==> switchQueue == SwitchSchedule(plateCount, NumFrames)
      ensures ok ==> teensy.written == old(teensy.written) + PlatePayloads(plateCount, NumFrames)
                                      + SwitchPayload(plateCount, NumFrames)
    {
      var ex, flipIndices, flipTo;
      ok, ex, flipIndices, flipTo := CreateAndSend(teensy, hourNow);
      if !ok {
        return;
      }
      FillSwitchQueue(flipIndices, flipTo);
      experiments := Some(ex);
      CreatedReady(ex, plateCount, NumFrames, BurstPreFrames, BurstPostFrames, hourNow);
    }

    /** CreateSDFExperiments, then every plate's schedule and (with more
        than one plate) the flip frames written to the controller. */
    method CreateAndSend(teensy: SerialLink, hourNow: int)
      returns (ok: bool, ex: seq<SimpleDarkFlash.SimpleDarkFlash>, flipIndices: seq<i32>, flipTo: seq<i32>)
      modifies teensy`written
      ensures ok <==> 0 <= plateCount <= 2
      ensures ok ==> Created(ex, plateCount, NumFrames, BurstPreFrames, BurstPostFrames, hourNow)
      ensures ok ==> forall i :: 0 <= i < |ex| ==> fresh(ex[i]) && fresh(ex[i].base)
      ensures ok ==> |flipIndices| == |flipTo| && Zip(flipIndices, flipTo) == SwitchSchedule(plateCount, NumFrames)
      ensures ok ==> teensy.written == old(teensy.written) + PlatePayloads(plateCount, NumFrames)
                                      + SwitchPayload(plateCount, NumFrames)
    {
      ok, ex, flipIndices, flipTo := CreateSDFExperiments(hourNow);
      if !ok {
        return;
      }
      SendSchedules(ex, teensy, hourNow);
      SendFlips(flipIndices, flipTo, teensy);
    }

    /** With more than one plate, the flip frames in switch order go to the
        controller. */
    method SendFlips(flipIndices: seq<i32>, flipTo: seq<i32>, teensy: SerialLink)
      requires |flipIndices| == |flipTo| && Zip(flipIndices, flipTo) == SwitchSchedule(plateCount, NumFrames)
      modifies teensy`written
      ensures teensy.written == old(teensy.written) + SwitchPayload(plateCount, NumFrames)
    {
      SwitchScheduleFits(plateCount, NumFrames);
      if plateCount > 1 {
        var arr := new i32[|flipIndices|](n requires 0 <= n < |flipIndices| => flipIndices[n]);
        assert arr[..] == flipIndices == Frames32(SwitchSchedule(plateCount, NumFrames));
        SendPayloadToTeensy(arr, teensy);
      }
    }

    /** Sends each experiment's schedule, plate by plate. */
    method SendSchedules(ex: seq<SimpleDarkFlash.SimpleDarkFlash>, teensy: SerialLink, hourNow: int)
      requires Created(ex, |ex|, NumFrames, BurstPreFrames, BurstPostFrames, hourNow)
      modifies teensy`written
      ensures teensy.written == old(teensy.written) + PlatePayloads(|ex|, NumFrames)
    {
      var k := 0;
      while k < |ex|
        invariant 0 <= k <= |ex|
        invariant teensy.written == old(teensy.written) + PlatePayloads(k, NumFrames)
      {
        SendSchedule(ex[k], k, teensy, hourNow);
        k := k + 1;
      }
    }

    /** FlashFrames runs again on plate k's experiment, giving the schedule
        it gave before, and its frames are sent. */
    method SendSchedule(e: SimpleDarkFlash.SimpleDarkFlash, k: int, teensy: SerialLink, hourNow: int)
      requires Configured(e, k, NumFrames, BurstPreFrames, BurstPostFrames, hourNow)
      modifies teensy`written
      ensures teensy.written == old(teensy.written) + Payload(PlateSchedule(k, NumFrames))
    {
      ConfiguredSchedule(e, k, NumFrames, BurstPreFrames, BurstPostFrames, hourNow);
      var r;
      ghost var picks;
      r, picks := e.FlashFrames();
      var frames := r.value;
      var arr := new i32[|frames|](n requires 0 <= n < |frames| => frames[n]);
      assert arr[..] == frames == PlateSchedule(k, NumFrames);
      SendPayloadToTeensy(arr, teensy);
    }

    /** Enqueues the flips pair by pair. */
    method FillSwitchQueue(flipIndices: seq<i32>, flipTo: seq<i32>)
      requires |flipIndices| == |flipTo|
      modifies this`switchQueue
      ensures switchQueue == Zip(flipIndices, flipTo)
    {
      switchQueue := [];
      for i := 0 to |flipIndices|
        invariant switchQueue == Zip(flipIndices[..i], flipTo[..i])
      {
        assert flipIndices[..i + 1] == flipIndices[..i] + [flipIndices[i]];
        assert flipTo[..i + 1] == flipTo[..i] + [flipTo[i]];
        ZipSnoc(flipIndices[..i], flipTo[..i], flipIndices[i], flipTo[i]);
        switchQueue := switchQueue + [Flip(flipIndices[i], flipTo[i])];
      }
      assert flipIndices == flipIndices[..|flipIndices|];
      assert flipTo == flipTo[..|flipTo|];
    }

    /** One acquired frame of the tracking loop: the trigger on frame 0, the
        forced background updates after a buffer clear, the experiment's
        full-rate step, the plate switch, the baseline gate and the next
        frame index. `ok` is false where ProcessFullRateFrame throws; the
        loop then ends. The image work and the writers are not modelled. */
    method FrameStep(bufferCleared: bool, hourNow: int, teensy: SerialLink)
      returns (ok: bool, produce: bool, createNewWriter: bool, gate: Gate, done: bool)
      requires Ready()
      modifies this, teensy`written
      modifies if Current().Some? then {Current().value, Current().value.base} else {}
      ensures experiments == old(experiments) && NumFrames == old(NumFrames) && IrisMode == old(IrisMode)
      ensures plateCount == old(plateCount) && Ready()
      ensures teensy.written == old(teensy.written) + (if old(FrameIndex) == 0 then Zero4 else [])
      ensures old(experiments).None? ==> ok && !produce && !createNewWriter
      ensures old(Current()).Some? ==>
                FullRateStep(old(Current()).value, old(FrameIndex), hourNow, IrisMode, ok, produce, createNewWriter)
      ensures old(experiments).Some? && old(Current()).None? ==> !ok
      ensures !ok ==> Switches() == old(Switches()) && FrameIndex == old(FrameIndex)
                      && lastFlipFrame == old(lastFlipFrame)
                      && reInitCount == (if bufferCleared then ReInitFrames else old(reInitCount))
      ensures ok ==>
                var q := QueueStep(old(Switches()), old(FrameIndex));
                var r := if q.1 || bufferCleared then ReInitFrames else old(reInitCount);
                Switches() == q.0
                && lastFlipFrame == (if q.1 then old(FrameIndex) else old(lastFlipFrame))
                && gate == BaselineGate(old(FrameIndex), lastFlipFrame, r)
                && reInitCount == gate.reInitCount
                && FrameIndex == WrapU32(old(FrameIndex) + 1)
                && (done <==> FrameIndex >= AddI32(NumFrames, -1))
    {
      ok, produce, createNewWriter := FrameStart(bufferCleared, hourNow, teensy);
      if !ok {
        gate, done := Gate(false, false, reInitCount), true;
        return;
      }
      gate, done := AdvanceFrame();
    }

    /** The part of a frame up to the experiment's step: the trigger on
        frame 0, the forced background updates after a buffer clear, and
        ProcessFullRateFrame. */
    method FrameStart(bufferCleared: bool, hourNow: int, teensy: SerialLink)
      returns (ok: bool, produce: bool, createNewWriter: bool)
      requires Ready()
      modifies this`reInitCount, teensy`written
      modifies if Current().Some? then {Current().value, Current().value.base} else {}
      ensures Ready()
      ensures teensy.written == old(teensy.written) + (if FrameIndex == 0 then Zero4 else [])
      ensures reInitCount == (if bufferCleared then ReInitFrames else old(reInitCount))
      ensures experiments.None? ==> ok && !produce && !createNewWriter
      ensures experiments.Some? && Current().None? ==> !ok
      ensures Current().Some? ==>
                FullRateStep(Current().value, FrameIndex, hourNow, IrisMode, ok, produce, createNewWriter)
    {
      if FrameIndex == 0 {
        SendTriggerToTeensy(teensy);
      }
      if bufferCleared {
        reInitCount := ReInitFrames;
      }
      ok, produce, createNewWriter := ProcessFullRateFrame(hourNow);
    }

    /** The rest of a frame once the experiment has acted: the plate
        switch, which also restarts the forced background updates, the
        baseline gate and the next frame index. */
    method AdvanceFrame() returns (gate: Gate, done: bool)
      modifies this`switchQueue, this`plateIndex, this`reInitCount, this`lastFlipFrame, this`FrameIndex
      ensures var q := QueueStep(old(Switches()), old(FrameIndex));
              var r := if q.1 then ReInitFrames else old(reInitCount);
              Switches() == q.0
              && lastFlipFrame == (if q.1 then old(FrameIndex) else old(lastFlipFrame))
              && gate == BaselineGate(old(FrameIndex), lastFlipFrame, r)
              && reInitCount == gate.reInitCount
              && FrameIndex == WrapU32(old(FrameIndex) + 1)
              && (done <==> FrameIndex >= AddI32(NumFrames, -1))
    {
      var switched := UpdatePlateIndex(FrameIndex);
      if switched {
        reInitCount := ReInitFrames;
        lastFlipFrame := FrameIndex;
      }
      gate := BaselineGate(FrameIndex, lastFlipFrame, reInitCount);
      reInitCount := gate.reInitCount;
      FrameIndex := WrapU32(FrameIndex + 1);
      done := FrameIndex >= AddI32(NumFrames, -1);
    }
  }

  predicate FramesFitInt(q: seq<Flip>) {
    forall k :: 0 <= k < |q| ==> INT_MIN <= q[k].frame <= INT_MAX
  }

  /** The frames of flips whose frames fit an `int`. */
  function Frames32(q: seq<Flip>): (f: seq<i32>)
    requires FramesFitInt(q)
    ensures |f| == |q| && forall k :: 0 <= k < |q| ==> f[k] == q[k].frame
  {
    seq(|q|, k requires 0 <= k < |q| => q[k].frame)
  }

  /** The switch queue as StartExperiment leaves it: the protocol's flips,
      strictly ascending and all after frame 0. */
  predicate QueueReady(q: seq<Flip>, plateCount: int, numFrames: i32) {
    |q| == |FlipList(plateCount, numFrames)| && |q| <= 15 && FramesFitInt(q)
    && StrictlyAscending(q) && multiset(q) == multiset(FlipList(plateCount, numFrames))
    && forall k :: 0 <= k < |q| ==> q[k].frame > 0
  }

}
