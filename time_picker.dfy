/** The analogue time picker (src/components/TimePicker.tsx): reading an
    "HH:MM" value into hours and minutes with fallbacks, the dial click that
    picks an hour (then switches to minutes) or a minute, the padded "HH:MM" it
    emits, the hand angle and the dial labels. A click enters the model as
    the integer dial step the pointer's angle rounds to. */
module TimePicker {
  import opened Wrappers
  import opened JsText

  datatype Mode = Hours | Minutes

  /** `value.split(":")[i]`, `None` (undefined) past the last part. */
  function TimePart(value: string, i: nat): Option<string>
  {
    var parts := Split(value, ':');
    if i < |parts| then Some(parts[i]) else None
  }

  /** `parseInt` of a part that may be undefined. */
  function ParsePart(part: Option<string>): Option<int>
  {
    if part.Some? then ParseInt(part.value) else None
  }

  /** `Number` of a part that may be undefined. */
  function NumberPart(part: Option<string>): Option<int>
  {
    if part.Some? then ToNumber(part.value) else None
  }

  /** Initial state: `parseInt(value.split(":")[0]) || 8`. */
  function InitialHours(value: string): (h: int)
    ensures h != 0
  {
    NumberOr(ParsePart(TimePart(value, 0)), 8)
  }

  /** Initial state: `parseInt(value.split(":")[1]) || 0`. */
  function InitialMinutes(value: string): int
  {
    NumberOr(ParsePart(TimePart(value, 1)), 0)
  }

  /** The effect on a new value: `h || 8` with `[h, m] = value.split(":").map(Number)`. */
  function SyncedHours(value: string): (h: int)
    ensures h != 0
  {
    NumberOr(NumberPart(TimePart(value, 0)), 8)
  }

  /** The effect on a new value: `m || 0`. */
  function SyncedMinutes(value: string): int
  {
    NumberOr(NumberPart(TimePart(value, 1)), 0)
  }

  /** Reading back an emitted time gives the numbers that were written, except
      that an hour of 0 reads as 8 (0 is falsy); initial state and the value
      effect agree on it. */
  lemma {:induction false} ReadBackFormatted(h: int, m: int)
    requires 0 <= h < 100 && 0 <= m < 100
    ensures InitialHours(HhMm(h, m)) == SyncedHours(HhMm(h, m)) == (if h == 0 then 8 else h)
    ensures InitialMinutes(HhMm(h, m)) == SyncedMinutes(HhMm(h, m)) == m
  {
    var value := HhMm(h, m);
    HhMmParts(h, m);
    assert TimePart(value, 0) == Some(Pad2(h));
    assert TimePart(value, 1) == Some(Pad2(m));
    ParseDigits(Pad2(h));
    ParseDigits(Pad2(m));
  }

  /** "00:30" shows hour 8 and minute 30. */
  lemma MidnightShowsEight()
    ensures InitialHours("00:30") == 8 && SyncedHours("00:30") == 8
    ensures InitialMinutes("00:30") == 30 && SyncedMinutes("00:30") == 30
  {
    assert Pad2(0) == "00";
    assert NatToString(30) == "30" by {
      assert NatToString(3) == "3";
    }
    assert HhMm(0, 30) == "00:30";
    ReadBackFormatted(0, 30);
  }

  /** The hour a dial step picks in hours mode: `step % 12`, with 0 shown as 12. */
  function PickedHour(step: nat): (h: int)
    ensures 1 <= h <= 12 && h % 12 == step % 12
  {
    var newHours := step % 12;
    if newHours == 0 then 12 else newHours
  }

  /** The minute a dial step picks in minutes mode. */
  function PickedMinute(step: nat): (m: int)
    ensures 0 <= m < 60 && m % 60 == step % 60
  {
    step % 60
  }

  /** The numbers drawn on the dial. */
  function DialLabels(mode: Mode): (labels: seq<int>)
    ensures |labels| == 12
  {
    if mode == Hours then seq(12, i => i + 1) else seq(12, i => i * 5)
  }

  /** Hours mode is labelled 1..12, each an hour the dial can pick and every
      pickable hour labelled; minutes mode is labelled 0, 5, ..., 55, each a
      minute the dial can pick. */
  lemma DialLabelsPickable()
    ensures forall n :: n in DialLabels(Hours) <==> 1 <= n <= 12
    ensures forall step: nat :: PickedHour(step) in DialLabels(Hours)
    ensures forall n :: n in DialLabels(Hours) ==> PickedHour(n) == n
    ensures forall n :: n in DialLabels(Minutes) <==> 0 <= n < 60 && n % 5 == 0
    ensures forall n :: n in DialLabels(Minutes) ==> PickedMinute(n) == n
  {
    var hl := DialLabels(Hours);
    var ml := DialLabels(Minutes);
    forall n | 1 <= n <= 12 ensures n in hl {
      assert hl[n - 1] == n;
    }
    forall n | 0 <= n < 60 && n % 5 == 0 ensures n in ml {
      assert ml[n / 5] == n;
    }
  }

  /** A dial label is highlighted when it equals the current hours or minutes. */
  predicate LabelSelected(mode: Mode, hours: int, minutes: int, num: int)
  {
    if mode == Hours then num == hours else num == minutes
  }

  /** In hours mode an hour in 1..12 highlights exactly its own label, and
      any other hour highlights none. */
  lemma {:induction false} SelectedHourLabel(hours: int, minutes: int)
    ensures forall i :: 0 <= i < 12 ==>
      (LabelSelected(Hours, hours, minutes, DialLabels(Hours)[i]) <==> i == hours - 1)
  {
    var labels := DialLabels(Hours);
    forall i | 0 <= i < 12
      ensures LabelSelected(Hours, hours, minutes, labels[i]) <==> i == hours - 1
    {
      assert labels[i] == i + 1;
    }
  }

  /** In minutes mode a label is highlighted only when the minutes are its
      multiple of five, so a minute such as 7 highlights no label. */
  lemma {:induction false} SelectedMinuteLabel(hours: int, minutes: int)
    ensures forall i :: 0 <= i < 12 ==>
      (LabelSelected(Minutes, hours, minutes, DialLabels(Minutes)[i]) <==> minutes == 5 * i)
  {
    var labels := DialLabels(Minutes);
    forall i | 0 <= i < 12
      ensures LabelSelected(Minutes, hours, minutes, labels[i]) <==> minutes == 5 * i
    {
      assert labels[i] == i * 5;
    }
  }

  /** `getHandAngle`: 30 degrees per hour on a 12-hour face, 6 per minute,
      both starting at -90. JavaScript's `%` keeps the sign of `hours`. */
  function HandAngle(mode: Mode, hours: int, minutes: int): (a: int)
    ensures mode == Hours && hours >= 0 ==> -90 <= a < 270 && a + 90 == 30 * (hours % 12)
    ensures mode == Hours && hours < 0 ==> -420 <= a <= -90 && a + 90 == -30 * ((-hours) % 12)
    ensures mode == Minutes ==> a + 90 == 6 * minutes
  {
    if mode == Hours then JsRem(hours, 12) * 30 - 90 else minutes * 6 - 90
  }

  class Picker {
    var mode: Mode
    var hours: int
    var minutes: int

    /** The `useState` initial values, read from the value with `parseInt`. */
    constructor (value: string)
      ensures mode == Hours && hours == InitialHours(value) && minutes == InitialMinutes(value)
    {
      mode := Hours;
      hours := InitialHours(value);
      minutes := InitialMinutes(value);
    }

    /** The effect that re-reads the value with `Number` when it changes. */
    method SyncValue(value: string)
      modifies this`hours, this`minutes
      ensures hours == SyncedHours(value) && minutes == SyncedMinutes(value)
    {
      hours := SyncedHours(value);
      minutes := SyncedMinutes(value);
    }

    /** The "HH" and "MM" buttons above the dial. */
    method SelectMode(m: Mode)
      modifies this`mode
      ensures mode == m
    {
      mode := m;
    }

    /** `handleClockClick` for a click whose angle rounds to dial step `step`:
        in hours mode it sets the hour and switches to minutes, in minutes mode
        it sets the minute and stays; either way it emits the padded time. */
    method Click(step: nat) returns (emitted: string)
      modifies this
      ensures old(mode) == Hours ==>
        hours == PickedHour(step) && minutes == old(minutes) && mode == Minutes
      ensures old(mode) == Minutes ==>
        minutes == PickedMinute(step) && hours == old(hours) && mode == Minutes
      ensures emitted == HhMm(hours, minutes)
    {
      if mode == Hours {
        var finalHours := PickedHour(step);
        hours := finalHours;
        emitted := HhMm(finalHours, minutes);
        mode := Minutes;
      } else {
        var newMinutes := PickedMinute(step);
        minutes := newMinutes;
        emitted := HhMm(hours, newMinutes);
      }
    }
  }

  /** Picking an hour and then a minute emits a value that the value effect
      reads back as exactly the picked hour and minute. */
  method PickHourThenMinute(value: string, hourStep: nat, minuteStep: nat) returns (emitted: string)
    ensures SyncedHours(emitted) == PickedHour(hourStep)
    ensures SyncedMinutes(emitted) == PickedMinute(minuteStep)
  {
    var p := new Picker(value);
    emitted := p.Click(hourStep);
    emitted := p.Click(minuteStep);
    ReadBackFormatted(p.hours, p.minutes);
  }
}
