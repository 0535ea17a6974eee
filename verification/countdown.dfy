/**
 * The countdown timer of the chronometer view (`TimerTool` in
 * src/components/ToolsView.tsx). React keeps its state in hooks and the view
 * changes it one event at a time; here the state is the fields of one object
 * and each event handler is a method.
 */
module Countdown {
  import opened Wrappers
  import opened Chronometer
  import opened Text

  /** How far apart two integers are. */
  function Gap(a: int, b: int): nat {
    if a <= b then b - a else a - b
  }

  /**
   * An input field's value: `Math.min(hi, Math.max(0, parseInt(text) || 0))`,
   * where `parsed` is what `parseInt` gave (`None` for `NaN`). The field takes
   * the allowed value nearest to what was typed, and 0 when nothing was typed.
   */
  function Clamp(parsed: Option<int>, hi: nat): (r: nat)
    ensures r <= hi
    ensures parsed.None? ==> r == 0
    ensures parsed.Some? ==> forall k :: 0 <= k <= hi ==> Gap(r, parsed.value) <= Gap(k, parsed.value)
    ensures parsed.Some? && 0 <= parsed.value <= hi ==> r == parsed.value
  {
    var v := parsed.GetOr(0);
    if v < 0 then 0 else if v > hi then hi else v
  }

  /** A quick-select button: its caption and the hours, minutes and seconds it sets. */
  datatype Preset = Preset(name: string, h: Hour, m: Minute, s: Minute)

  const Presets: seq<Preset> := [
    Preset("1m", 0, 1, 0), Preset("5m", 0, 5, 0), Preset("15m", 0, 15, 0),
    Preset("25m", 0, 25, 0), Preset("30m", 0, 30, 0), Preset("1h", 1, 0, 0)
  ]

  /** Every quick-select button sets a duration the Start button accepts. */
  lemma PresetsAreNonZero(i: nat)
    requires i < |Presets|
    ensures Duration(Presets[i].h, Presets[i].m, Presets[i].s) > 0
  {
    var p := Presets[i];
    assert p.h > 0 || p.m > 0 by {
      if i < 5 {
        assert p.m > 0;
      } else {
        assert p.h == 1;
      }
    }
  }

  class TimerTool {
    var hours: Hour
    var minutes: Minute
    var seconds: Minute
    var timeLeft: int
    var isActive: bool
    var isEditing: bool
    var timerComplete: bool

    /** The duration the three inputs set, in seconds. */
    function SetDuration(): nat
      reads this
    {
      Duration(hours, minutes, seconds)
    }

    /**
     * What every handler keeps: the count never goes negative; while the
     * inputs are shown nothing runs; a started countdown never exceeds the
     * duration it was started from, so the ring's filled fraction stays
     * within [0, 1]; a completed one stands at zero.
     */
    ghost predicate Valid()
      reads this
    {
      && timeLeft >= 0
      && (isEditing ==> !isActive && !timerComplete && timeLeft == 0)
      && (!isEditing ==> timeLeft <= SetDuration())
      && (timerComplete ==> timeLeft == 0)
    }

    /** The initial state: 00:05:00 in the inputs, nothing running. */
    constructor ()
      ensures Valid()
      ensures hours == 0 && minutes == 5 && seconds == 0
      ensures timeLeft == 0 && !isActive && isEditing && !timerComplete
    {
      hours, minutes, seconds := 0, 5, 0;
      timeLeft := 0;
      isActive, isEditing, timerComplete := false, true, false;
    }

    /** Typing into the hours input, which is shown only while editing. */
    method SetHours(parsed: Option<int>)
      requires Valid() && isEditing
      modifies this`hours
      ensures Valid()
      ensures hours == Clamp(parsed, 23)
    {
      hours := Clamp(parsed, 23);
    }

    /** Typing into the minutes input, which is shown only while editing. */
    method SetMinutes(parsed: Option<int>)
      requires Valid() && isEditing
      modifies this`minutes
      ensures Valid()
      ensures minutes == Clamp(parsed, 59)
    {
      minutes := Clamp(parsed, 59);
    }

    /** Typing into the seconds input, which is shown only while editing. */
    method SetSeconds(parsed: Option<int>)
      requires Valid() && isEditing
      modifies this`seconds
      ensures Valid()
      ensures seconds == Clamp(parsed, 59)
    {
      seconds := Clamp(parsed, 59);
    }

    /** Pressing quick-select button `i`, which is shown only while editing. */
    method ApplyPreset(i: nat)
      requires Valid() && isEditing && i < |Presets|
      modifies this`hours, this`minutes, this`seconds
      ensures Valid()
      ensures hours == Presets[i].h && minutes == Presets[i].m && seconds == Presets[i].s
      ensures SetDuration() > 0
    {
      var p := Presets[i];
      PresetsAreNonZero(i);
      hours, minutes, seconds := p.h, p.m, p.s;
    }

    /** `startTimer`: nothing happens at a zero duration; otherwise the count starts from it. */
    method Start()
      requires Valid()
      modifies this`timeLeft, this`isActive, this`isEditing, this`timerComplete
      ensures Valid()
      ensures old(SetDuration()) == 0 ==> unchanged(this)
      ensures old(SetDuration()) > 0 ==>
        timeLeft == SetDuration() && isActive && !isEditing && !timerComplete
    {
      if SetDuration() == 0 {
        return;
      }
      timeLeft := SetDuration();
      isActive := true;
      isEditing := false;
      timerComplete := false;
    }

    /**
     * One step of the running effect. At a positive count it is one firing of
     * the one-second interval, which counts down by one. At zero it is the
     * effect's re-run after the count reached zero, which stops the timer and
     * completes it (`rang` is the moment the sound plays). A paused timer does
     * not change.
     */
    method Tick() returns (rang: bool)
      requires Valid()
      modifies this`timeLeft, this`isActive, this`timerComplete
      ensures Valid()
      ensures old(isActive) && old(timeLeft) > 0 ==>
        timeLeft == old(timeLeft) - 1 && isActive && timerComplete == old(timerComplete) && !rang
      ensures old(isActive) && old(timeLeft) == 0 ==>
        timeLeft == 0 && !isActive && timerComplete && rang
      ensures !old(isActive) ==> unchanged(this) && !rang
    {
      rang := false;
      if isActive && timeLeft > 0 {
        timeLeft := timeLeft - 1;
      } else if timeLeft == 0 && isActive {
        isActive := false;
        timerComplete := true;
        rang := true;
      }
    }

    /**
     * The timer left to run out: `n` interval firings take a running count of
     * `n` down to zero and the effect's re-run at zero completes it, so `n + 1`
     * ticks in all, and the sound plays once.
     */
    method RunOut() returns (ticks: nat, rings: nat)
      requires Valid() && isActive
      modifies this`timeLeft, this`isActive, this`timerComplete
      ensures Valid()
      ensures ticks == old(timeLeft) + 1 && rings == 1
      ensures !isActive && timerComplete && timeLeft == 0
    {
      ticks, rings := 0, 0;
      while isActive
        invariant Valid()
        invariant isActive ==> ticks + timeLeft == old(timeLeft) && rings == 0
        invariant !isActive ==> ticks == old(timeLeft) + 1 && rings == 1 && timerComplete && timeLeft == 0
        decreases timeLeft, isActive
      {
        var rang := Tick();
        ticks := ticks + 1;
        if rang {
          rings := rings + 1;
        }
      }
    }

    /** The Pause button: the count keeps its value. */
    method Pause()
      requires Valid()
      modifies this`isActive
      ensures Valid()
      ensures !isActive
    {
      isActive := false;
    }

    /** The Resume button, which is shown only once the timer has been started. */
    method Resume()
      requires Valid() && !isEditing
      modifies this`isActive
      ensures Valid()
      ensures isActive
    {
      isActive := true;
    }

    /** `resetTimer` (also the Done button of the overlay): back to the inputs, the inputs kept. */
    method Reset()
      modifies this`timeLeft, this`isActive, this`isEditing, this`timerComplete
      ensures Valid()
      ensures !isActive && timeLeft == 0 && isEditing && !timerComplete
    {
      isActive := false;
      timeLeft := 0;
      isEditing := true;
      timerComplete := false;
    }

    /** The big display: the set duration while editing, the count once started. */
    function Display(): (r: string)
      reads this
      requires Valid()
      ensures ClockShaped(r) && FieldsInRange(r)
      ensures var shown := if isEditing then SetDuration() else timeLeft;
        ClockValue(r) == shown && (|r| == 5 <==> shown < 3600)
    ensures var shown := if isEditing then SetDuration() else timeLeft;
        ClockReads(r, shown / 3600, shown % 3600 / 60, shown % 60)
    ensures var shown := if isEditing then SetDuration() else timeLeft;
        |r| > 5 ==> HourField(r, PadStart2(Decimal(shown / 3600)))
    {
      if isEditing then Format(SetDuration()) else Format(timeLeft)
    }
  }
}
