/** The experiment base class: hour-of-day bookkeeping shared by all
    experiments, the clock-bracket test and the frame-to-time conversion. */
module ExperimentBase {
  import opened Common

  /** The camera frame rate of the view model (560 Hz); PerformAction uses
      this global constant, not the experiment's own FrameRate. */
  const GlobalFrameRate: int := 560

  /** True when `currentHour` lies in the bracket [hourStart, hourEnd) read on
      a 24-hour clock, so that a bracket may wrap around midnight. */
  function InHourBracket(hourStart: int, hourEnd: int, currentHour: int): bool {
    if hourStart < hourEnd then
      currentHour >= hourStart && currentHour < hourEnd
    else
      currentHour >= hourStart || currentHour < hourEnd
  }

  /** Reference reading of the bracket on the clock face: walking forward from
      hourStart, h is reached before hourEnd. */
  lemma BracketIsClockArc(hourStart: int, hourEnd: int, h: int)
    requires 0 <= hourStart < 24 && 0 <= hourEnd < 24 && 0 <= h < 24
    requires hourStart != hourEnd
    ensures InHourBracket(hourStart, hourEnd, h) <==> (h - hourStart) % 24 < (hourEnd - hourStart) % 24
  {
    var d := (h - hourStart) % 24;
    var len := (hourEnd - hourStart) % 24;
    if hourStart <= h {
      assert d == h - hourStart;
    } else {
      assert d == h - hourStart + 24;
    }
    if hourStart < hourEnd {
      assert len == hourEnd - hourStart;
    } else {
      assert len == hourEnd - hourStart + 24;
    }
  }

  /** The 0-to-24 bracket the experiments configure holds at every hour of
      the day, and at no other value. */
  lemma WholeDayBracket(h: int)
    ensures InHourBracket(0, 24, h) <==> 0 <= h < 24
  {
  }

  /** Equal bounds select the whole day. */
  lemma EqualBoundsAlwaysIn(hour: int, h: int)
    ensures InHourBracket(hour, hour, h)
  {
  }

  /** On the clock face the reversed bracket is exactly the complement. */
  lemma ReversedBracketIsComplement(hourStart: int, hourEnd: int, h: int)
    requires hourStart != hourEnd
    ensures InHourBracket(hourEnd, hourStart, h) <==> !InHourBracket(hourStart, hourEnd, h)
  {
  }

  /** TimeOffset: whole seconds since the experiment start for a frame index,
      by C#'s truncating integer division `frameIndex / FrameRate`. None is the
      exception C# raises (division by zero, or int.MinValue / -1). */
  function TimeOffset(frameIndex: i32, frameRate: i32): (seconds: Option<int>)
    ensures seconds.None? <==> frameRate == 0 || (frameIndex == INT_MIN && frameRate == -1)
    ensures seconds.Some? && frameIndex >= 0 ==>
              0 <= frameIndex - seconds.value * frameRate < Abs(frameRate)
    ensures seconds.Some? && frameIndex < 0 ==>
              -(Abs(frameRate) as int) < frameIndex - seconds.value * frameRate <= 0
    ensures seconds.Some? ==> Abs(seconds.value) <= Abs(frameIndex)
  {
    if frameRate == 0 || (frameIndex == INT_MIN && frameRate == -1) then None
    else
      DivTruncBounds(frameIndex, frameRate);
      Some(DivTrunc(frameIndex, frameRate))
  }

  /** The hour/day part of an experiment's state. */
  datatype Clock = Clock(currentHour: int, currentDay: int, daytime: bool)

  /** One PerformAction of the base class with the wall clock reading
      `hourNow`: on every 560th frame the hour is refreshed, Daytime follows
      the day bracket, and the day counter advances on a night-to-day edge. */
  function Tick(c: Clock, index: u32, hourNow: int, dayStart: int, dayEnd: int): (c': Clock)
    ensures index % GlobalFrameRate != 0 ==> c' == c
    ensures index % GlobalFrameRate == 0 ==>
              c'.currentHour == hourNow && c'.daytime == InHourBracket(dayStart, dayEnd, hourNow)
    ensures c'.currentDay == c.currentDay || c'.currentDay == c.currentDay + 1
    ensures c'.currentDay == c.currentDay + 1 <==> index % GlobalFrameRate == 0 && !c.daytime && c'.daytime
  {
    if index % GlobalFrameRate == 0 then
      var inDay := InHourBracket(dayStart, dayEnd, hourNow);
      Clock(hourNow, if inDay && !c.daytime then c.currentDay + 1 else c.currentDay, inDay)
    else
      c
  }

  /** The clock after a run of frames, frame k seeing wall-clock hour hours[k]. */
  function Run(c: Clock, indices: seq<u32>, hours: seq<int>, dayStart: int, dayEnd: int): Clock
    requires |indices| == |hours|
    decreases |indices|
  {
    if indices == [] then c
    else Run(Tick(c, indices[0], hours[0], dayStart, dayEnd), indices[1..], hours[1..], dayStart, dayEnd)
  }

  /** The number of night-to-day edges the clock sees along a run. */
  function Sunrises(c: Clock, indices: seq<u32>, hours: seq<int>, dayStart: int, dayEnd: int): nat
    requires |indices| == |hours|
    decreases |indices|
  {
    if indices == [] then 0
    else
      var c' := Tick(c, indices[0], hours[0], dayStart, dayEnd);
      (if !c.daytime && c'.daytime then 1 else 0) + Sunrises(c', indices[1..], hours[1..], dayStart, dayEnd)
  }

  /** Over any run the day counter never decreases and advances exactly once
      per night-to-day transition. */
  lemma {:induction false} DayCountsSunrises(c: Clock, indices: seq<u32>, hours: seq<int>, dayStart: int, dayEnd: int)
    requires |indices| == |hours|
    ensures Run(c, indices, hours, dayStart, dayEnd).currentDay
            == c.currentDay + Sunrises(c, indices, hours, dayStart, dayEnd)
    decreases |indices|
  {
    if indices != [] {
      var c' := Tick(c, indices[0], hours[0], dayStart, dayEnd);
      DayCountsSunrises(c', indices[1..], hours[1..], dayStart, dayEnd);
    }
  }

  /** ExperimentBase: the state every experiment keeps about the time of day. */
  class ExperimentBase {
    var CurrentHour: int
    var CurrentDay: int
    var Daytime: bool
    const FrameRate: i32
    const TotalFrames: i32
    var DayStart: int
    var DayEnd: int
    var RecordPre: u32
    var RecordPost: u32

    function ClockState(): Clock
      reads this
    {
      Clock(CurrentHour, CurrentDay, Daytime)
    }

    /** The constructor reads the wall-clock hour; here it is `hourNow`. */
    constructor (frameRate: i32, totalFrames: i32, hourNow: int)
      ensures DayStart == 9 && DayEnd == 23
      ensures CurrentHour == hourNow && CurrentDay == 1 && Daytime == InHourBracket(9, 23, hourNow)
      ensures FrameRate == frameRate && TotalFrames == totalFrames
      ensures RecordPre == 0 && RecordPost == 0
    {
      DayStart := 9;
      DayEnd := 23;
      CurrentDay := 1;
      RecordPre := 0;
      RecordPost := 0;
      CurrentHour := hourNow;
      Daytime := InHourBracket(9, 23, hourNow);
      FrameRate := frameRate;
      TotalFrames := totalFrames;
    }

    /** Once per second of frames refresh the hour and the day counter. */
    method PerformAction(index: u32, hourNow: int)
      modifies this`CurrentHour, this`CurrentDay, this`Daytime
      ensures ClockState() == Tick(old(ClockState()), index, hourNow, DayStart, DayEnd)
    {
      if index % GlobalFrameRate == 0 {
        CurrentHour := hourNow;
        if InHourBracket(DayStart, DayEnd, CurrentHour) {
          if !Daytime {
            CurrentDay := CurrentDay + 1;
          }
          Daytime := true;
        } else {
          Daytime := false;
        }
      }
    }
  }
}
