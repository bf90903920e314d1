/** The main page (src/pages/Index.tsx): the alarm list it owns, the handlers
    that replace that list (toggle, delete, edit-merge, create-append), the
    dialog state, and the once-a-second tick that fires every due alarm. The
    clock enters a tick as (hour, minute, second, getDay()), and `Date.now()`
    enters a create as a number of milliseconds. */
module IndexPage {
  import opened Wrappers
  import opened JsText
  import opened AlarmType
  import opened AddAlarmDialog
  import opened AlarmItem

  /** `(now.getDay() + 6) % 7`: JavaScript counts Sunday as 0, the alarm days
      count Monday as 0. */
  function WeekdayIndex(nativeDay: int): (d: int)
    requires 0 <= nativeDay < 7
    ensures 0 <= d < 7
    ensures nativeDay == 0 ==> d == 6
    ensures nativeDay > 0 ==> d == nativeDay - 1
  {
    (nativeDay + 6) % 7
  }

  /** The `getDay()` number of a Monday-first day index. */
  function NativeDay(d: int): (nd: int)
    requires 0 <= d < 7
    ensures 0 <= nd < 7
  {
    (d + 1) % 7
  }

  /** The remap is a bijection on 0..6, undone by `NativeDay`. */
  lemma WeekdayIndexBijective()
    ensures forall nd :: 0 <= nd < 7 ==> NativeDay(WeekdayIndex(nd)) == nd
    ensures forall d :: 0 <= d < 7 ==> WeekdayIndex(NativeDay(d)) == d
    ensures forall a, b :: 0 <= a < 7 && 0 <= b < 7 && WeekdayIndex(a) == WeekdayIndex(b) ==> a == b
  {
  }

  /** The weekday names in `getDay()` order, Sunday first. */
  const NATIVE_DAY_NAMES: seq<string> := ["Dom", "Lun", "Mar", "Mié", "Jue", "Vie", "Sáb"]

  /** The remapped day is the position of the same weekday among the dialog's
      buttons, so a day picked on "Lun" matches a Monday tick. */
  lemma WeekdayIndexNamesButton(nd: int)
    requires 0 <= nd < 7
    ensures DAYS[WeekdayIndex(nd)] == NATIVE_DAY_NAMES[nd]
  {
  }

  /** `now.toTimeString().slice(0, 5)`: the zero-padded 24-hour "HH:MM". */
  function CurrentTime(hour: int, minute: int): (t: string)
    requires 0 <= hour < 24 && 0 <= minute < 60
    ensures |t| == 5 && t[2] == ':'
    ensures Split(t, ':') == [Pad2(hour), Pad2(minute)]
  {
    HhMmParts(hour, minute);
    HhMm(hour, minute)
  }

  /** The test each alarm passes on a tick. It reads nothing but `enabled`,
      `time` and `days`. */
  predicate IsDue(alarm: Alarm, currentTime: string, currentDay: int)
  {
    alarm.enabled && alarm.time == currentTime && (|alarm.days| == 0 || currentDay in alarm.days)
  }

  /** For an alarm set to an "HH:MM" time: it is due at a clock reading
      exactly when it is enabled, its hour and minute are the clock's, and its
      days are empty or hold the remapped weekday. */
  lemma DueAtClock(alarm: Alarm, h: int, m: int, hour: int, minute: int, nativeDay: int)
    requires 0 <= h < 24 && 0 <= m < 60 && alarm.time == HhMm(h, m)
    requires 0 <= hour < 24 && 0 <= minute < 60 && 0 <= nativeDay < 7
    ensures IsDue(alarm, CurrentTime(hour, minute), WeekdayIndex(nativeDay)) <==>
      alarm.enabled && h == hour && m == minute
      && (|alarm.days| == 0 || WeekdayIndex(nativeDay) in alarm.days)
  {
    HhMmInjective(h, m, hour, minute);
  }

  /** A disabled alarm never fires; an alarm with no days ("Una vez") fires on
      every weekday at its minute, not only once. */
  lemma DisabledAndOnce(alarm: Alarm, currentTime: string)
    ensures !alarm.enabled ==> forall d :: !IsDue(alarm, currentTime, d)
    ensures alarm.enabled && alarm.time == currentTime && alarm.days == [] ==>
      forall nd :: 0 <= nd < 7 ==> IsDue(alarm, currentTime, WeekdayIndex(nd))
  {
  }

  /** The snooze fields and `lastTriggered` have no say in whether an alarm
      fires. */
  lemma DueIgnoresSnooze(alarm: Alarm, currentTime: string, currentDay: int,
                         snoozeEnabled: bool, snoozeInterval: int,
                         snoozeCount: Option<int>, lastTriggered: Option<string>)
    ensures IsDue(alarm.(snoozeEnabled := snoozeEnabled, snoozeInterval := snoozeInterval,
                         snoozeCount := snoozeCount, lastTriggered := lastTriggered),
                  currentTime, currentDay)
        == IsDue(alarm, currentTime, currentDay)
  {
  }

  /** When the row shows day chips, the enabled alarm at its time is due on
      exactly the weekdays whose chip is highlighted. */
  lemma ChipsShowDueDays(alarm: Alarm, currentTime: string, d: int)
    requires 0 <= d < 7 && alarm.enabled && alarm.time == currentTime
    requires DaysSummary(alarm.days).Chips?
    ensures IsDue(alarm, currentTime, d) <==> DaysSummary(alarm.days).chips[d].highlighted
  {
  }

  lemma FirstIsMember(s: seq<int>)
    ensures |s| > 0 ==> s[0] in s
  {
  }

  lemma WithoutTop(s: seq<int>, top: int)
    requires forall x :: x in s ==> 0 <= x <= top
    ensures forall x :: x in Without(s, top) ==> 0 <= x < top
  {
  }

  /** A list of distinct numbers below `n` has at most `n` entries, and one
      with exactly `n` holds every number below `n`. */
  lemma {:induction false} DistinctBelow(s: seq<int>, n: nat)
    requires NoDuplicates(s)
    requires forall x :: x in s ==> 0 <= x < n
    ensures |s| <= n
    ensures |s| == n ==> forall x :: 0 <= x < n ==> x in s
    decreases n
  {
    if n == 0 {
      FirstIsMember(s);
    } else {
      var t := Without(s, n - 1);
      WithoutKeepsNoDuplicates(s, n - 1);
      WithoutLength(s, n - 1);
      WithoutTop(s, n - 1);
      DistinctBelow(t, n - 1);
      if |s| == n {
        assert n - 1 in s;
        forall x | 0 <= x < n - 1
          ensures x in s
        {
          assert x in t;
        }
      }
    }
  }

  /** "Todos los días" tells the truth for the lists the dialog builds (days of
      the week, none repeated): seven of them are every weekday, so the
      enabled alarm at its time is due on every day. */
  lemma EveryDayIsEveryWeekday(alarm: Alarm, currentTime: string)
    requires NoDuplicates(alarm.days)
    requires forall x :: x in alarm.days ==> 0 <= x < 7
    requires DaysSummary(alarm.days) == EveryDay
    requires alarm.enabled && alarm.time == currentTime
    ensures forall d :: 0 <= d < 7 ==> IsDue(alarm, currentTime, d)
  {
    DistinctBelow(alarm.days, 7);
  }

  /** The due alarms of a list, in list order. */
  function DueAlarms(alarms: seq<Alarm>, currentTime: string, currentDay: int): (r: seq<Alarm>)
    ensures |r| <= |alarms|
  {
    if alarms == [] then []
    else
      var last := alarms[|alarms| - 1];
      var init := alarms[..|alarms| - 1];
      assert alarms == init + [last];
      DueAlarms(init, currentTime, currentDay) + (if IsDue(last, currentTime, currentDay) then [last] else [])
  }

  /** An alarm fires on a tick exactly when it is in the list and due. */
  lemma {:induction false} DueAlarmsMembers(alarms: seq<Alarm>, currentTime: string, currentDay: int)
    ensures forall a :: a in DueAlarms(alarms, currentTime, currentDay) <==>
      a in alarms && IsDue(a, currentTime, currentDay)
  {
    if alarms != [] {
      var init := alarms[..|alarms| - 1];
      DueAlarmsMembers(init, currentTime, currentDay);
      assert alarms == init + [alarms[|alarms| - 1]];
    }
  }

  /** The positions of the due alarms. */
  function DueIndices(alarms: seq<Alarm>, currentTime: string, currentDay: int): set<int>
  {
    set i | 0 <= i < |alarms| && IsDue(alarms[i], currentTime, currentDay)
  }

  /** One due alarm per due position, so equal alarms each fire. */
  lemma {:induction false} DueCount(alarms: seq<Alarm>, currentTime: string, currentDay: int)
    ensures |DueAlarms(alarms, currentTime, currentDay)| == |DueIndices(alarms, currentTime, currentDay)|
  {
    if alarms != [] {
      var n := |alarms| - 1;
      var init := alarms[..n];
      DueCount(init, currentTime, currentDay);
      var before := DueIndices(init, currentTime, currentDay);
      assert forall i :: 0 <= i < n ==> alarms[i] == init[i];
      if IsDue(alarms[n], currentTime, currentDay) {
        assert DueIndices(alarms, currentTime, currentDay) == before + {n};
        assert n !in before;
      } else {
        assert DueIndices(alarms, currentTime, currentDay) == before;
      }
    }
  }

  /** The due alarms of two lists joined are those of the first, then those of
      the second: the tick keeps list order. */
  lemma {:induction false} DueAlarmsConcat(a: seq<Alarm>, b: seq<Alarm>, currentTime: string, currentDay: int)
    ensures DueAlarms(a + b, currentTime, currentDay)
         == DueAlarms(a, currentTime, currentDay) + DueAlarms(b, currentTime, currentDay)
  {
    if b == [] {
      assert a + b == a;
    } else {
      var n := |b| - 1;
      DueAlarmsConcat(a, b[..n], currentTime, currentDay);
      assert (a + b)[..|a + b| - 1] == a + b[..n];
      assert (a + b)[|a + b| - 1] == b[n];
    }
  }

  /** What a firing does besides the fixed tone: a toast naming the label, or
      the time when there is no label. */
  datatype FireEvent = FireEvent(title: string, description: string, durationMs: int)

  function Fire(alarm: Alarm): (e: FireEvent)
    ensures e.description == "Tu alarma está sonando" && e.durationMs == 10000
    ensures alarm.labelText.Some? && alarm.labelText.value != "" ==> e.title == "¡Alarma! " + alarm.labelText.value
    ensures alarm.labelText.None? || alarm.labelText.value == "" ==> e.title == "¡Alarma! " + alarm.time
  {
    FireEvent("¡Alarma! " + StringOr(alarm.labelText, alarm.time), "Tu alarma está sonando", 10000)
  }

  function Toasts(due: seq<Alarm>): (events: seq<FireEvent>)
    ensures |events| == |due|
  {
    seq(|due|, i requires 0 <= i < |due| => Fire(due[i]))
  }

  lemma DueAlarmsStep(alarms: seq<Alarm>, i: int, currentTime: string, currentDay: int)
    requires 0 <= i < |alarms|
    ensures DueAlarms(alarms[..i + 1], currentTime, currentDay)
         == DueAlarms(alarms[..i], currentTime, currentDay)
            + (if IsDue(alarms[i], currentTime, currentDay) then [alarms[i]] else [])
  {
    assert alarms[..i + 1][..i] == alarms[..i];
  }

  lemma ToastsAppend(due: seq<Alarm>, alarm: Alarm)
    ensures Toasts(due + [alarm]) == Toasts(due) + [Fire(alarm)]
  {
  }

  /** The events of one tick at a clock reading. */
  function TickEvents(alarms: seq<Alarm>, hour: int, minute: int, nativeDay: int): seq<FireEvent>
    requires 0 <= hour < 24 && 0 <= minute < 60 && 0 <= nativeDay < 7
  {
    Toasts(DueAlarms(alarms, CurrentTime(hour, minute), WeekdayIndex(nativeDay)))
  }

  /** `prev.map(...)` of `handleToggle`. */
  function Toggled(alarms: seq<Alarm>, id: string): (r: seq<Alarm>)
    ensures |r| == |alarms|
    ensures forall i :: 0 <= i < |r| ==>
      r[i].(enabled := alarms[i].enabled) == alarms[i]
      && (r[i].enabled != alarms[i].enabled <==> alarms[i].id == id)
  {
    seq(|alarms|, i requires 0 <= i < |alarms| =>
      if alarms[i].id == id then alarms[i].(enabled := !alarms[i].enabled) else alarms[i])
  }

  /** Toggling the same id twice gives back the list. */
  lemma ToggleTwice(alarms: seq<Alarm>, id: string)
    ensures Toggled(Toggled(alarms, id), id) == alarms
  {
    var once := Toggled(alarms, id);
    var twice := Toggled(once, id);
    forall i | 0 <= i < |alarms|
      ensures twice[i] == alarms[i]
    {
      assert once[i].id == alarms[i].id;
    }
  }

  /** `prev.filter((alarm) => alarm.id !== id)` of `handleDelete`. */
  function Deleted(alarms: seq<Alarm>, id: string): (r: seq<Alarm>)
    ensures |r| <= |alarms|
  {
    if alarms == [] then []
    else
      (if alarms[0].id == id then [] else [alarms[0]]) + Deleted(alarms[1..], id)
  }

  /** Delete keeps exactly the alarms whose id differs. */
  lemma {:induction false} DeletedMembers(alarms: seq<Alarm>, id: string)
    ensures forall a :: a in Deleted(alarms, id) <==> a in alarms && a.id != id
  {
    if alarms != [] {
      DeletedMembers(alarms[1..], id);
      assert alarms == [alarms[0]] + alarms[1..];
    }
  }

  lemma DeletedCons(x: Alarm, rest: seq<Alarm>, id: string)
    ensures Deleted([x] + rest, id) == (if x.id == id then [] else [x]) + Deleted(rest, id)
  {
    assert ([x] + rest)[0] == x;
    assert ([x] + rest)[1..] == rest;
  }

  /** Deleting keeps the order of what stays: it works piece by piece. */
  lemma {:induction false} DeletedConcat(a: seq<Alarm>, b: seq<Alarm>, id: string)
    ensures Deleted(a + b, id) == Deleted(a, id) + Deleted(b, id)
  {
    if a == [] {
      assert a + b == b;
    } else {
      var rest := a[1..];
      var head := if a[0].id == id then [] else [a[0]];
      calc {
        Deleted(a + b, id);
        { assert a + b == [a[0]] + (rest + b); }
        Deleted([a[0]] + (rest + b), id);
        { DeletedCons(a[0], rest + b, id); }
        head + Deleted(rest + b, id);
        { DeletedConcat(rest, b, id); }
        head + (Deleted(rest, id) + Deleted(b, id));
        (head + Deleted(rest, id)) + Deleted(b, id);
        { assert a == [a[0]] + rest; DeletedCons(a[0], rest, id); }
        Deleted(a, id) + Deleted(b, id);
      }
    }
  }

  /** Deleting an id no alarm has changes nothing. */
  lemma {:induction false} DeletedNoMatch(alarms: seq<Alarm>, id: string)
    requires forall a :: a in alarms ==> a.id != id
    ensures Deleted(alarms, id) == alarms
  {
    if alarms != [] {
      assert alarms == [alarms[0]] + alarms[1..];
      DeletedNoMatch(alarms[1..], id);
    }
  }

  /** `{ ...alarm, ...alarmData }`: the saved record always carries `time`,
      `label`, `enabled` and `days`, so those four are overwritten (an empty
      label becomes absent) and the id and snooze fields stay. */
  function Merged(alarm: Alarm, data: SavedAlarm): (r: Alarm)
    ensures r.id == alarm.id && r.time == data.time && r.labelText == data.labelText
    ensures r.enabled == data.enabled && r.days == data.days
    ensures r.snoozeEnabled == alarm.snoozeEnabled && r.snoozeInterval == alarm.snoozeInterval
    ensures r.snoozeCount == alarm.snoozeCount && r.lastTriggered == alarm.lastTriggered
  {
    alarm.(time := data.time, labelText := data.labelText, enabled := data.enabled, days := data.days)
  }

  /** `prev.map(...)` of the edit branch of `handleSave`. */
  function Edited(alarms: seq<Alarm>, id: string, data: SavedAlarm): (r: seq<Alarm>)
    ensures |r| == |alarms|
    ensures forall i :: 0 <= i < |r| && alarms[i].id != id ==> r[i] == alarms[i]
    ensures forall i :: 0 <= i < |r| && alarms[i].id == id ==>
      r[i].id == id && r[i].time == data.time && r[i].labelText == data.labelText
      && r[i].enabled == data.enabled && r[i].days == data.days
      && r[i].snoozeEnabled == alarms[i].snoozeEnabled && r[i].snoozeInterval == alarms[i].snoozeInterval
      && r[i].snoozeCount == alarms[i].snoozeCount && r[i].lastTriggered == alarms[i].lastTriggered
  {
    seq(|alarms|, i requires 0 <= i < |alarms| =>
      if alarms[i].id == id then Merged(alarms[i], data) else alarms[i])
  }

  /** The alarm the create branch appends: the record with an id from the
      clock. The dialog's record has no snooze keys; `false`, `0` and absent
      stand for the `undefined` they read as. */
  function NewAlarm(data: SavedAlarm, nowMillis: nat): (a: Alarm)
    ensures AllDigits(a.id) && DigitsValue(a.id) == nowMillis && a.id != []
    ensures a.time == data.time && a.labelText == data.labelText
    ensures a.enabled == data.enabled && a.days == data.days
    ensures !a.snoozeEnabled && a.snoozeInterval == 0 && a.snoozeCount.None? && a.lastTriggered.None?
  {
    NatToStringValue(nowMillis);
    Alarm(NatToString(nowMillis), data.time, data.enabled, data.days, data.labelText, false, 0, None, None)
  }

  /** Two creates at different milliseconds give different ids. */
  lemma NewAlarmIdsDiffer(d1: SavedAlarm, d2: SavedAlarm, t1: nat, t2: nat)
    requires t1 != t2
    ensures NewAlarm(d1, t1).id != NewAlarm(d2, t2).id
  {
    NatToStringValue(t1);
    NatToStringValue(t2);
  }

  /** Saving a disabled alarm untouched from the dialog re-enables it and
      changes nothing else of it. */
  lemma EditReenables(alarms: seq<Alarm>, i: int)
    requires 0 <= i < |alarms| && !alarms[i].enabled
    requires alarms[i].labelText != Some("")
    ensures var data := SavedAlarm(alarms[i].time,
              if alarms[i].labelText.GetOr("") == "" then None else alarms[i].labelText,
              true, alarms[i].days);
      Edited(alarms, alarms[i].id, data)[i] == alarms[i].(enabled := true)
  {
  }

  class Page {
    var alarms: seq<Alarm>
    var dialogOpen: bool
    var editingAlarm: Option<Alarm>

    /** The `useState` initial values (the stored list is not loaded here). */
    constructor ()
      ensures alarms == [] && !dialogOpen && editingAlarm.None?
    {
      alarms := [];
      dialogOpen := false;
      editingAlarm := None;
    }

    /** `handleToggle`. */
    method HandleToggle(id: string)
      modifies this`alarms
      ensures alarms == Toggled(old(alarms), id)
    {
      alarms := Toggled(alarms, id);
    }

    /** `handleDelete`. */
    method HandleDelete(id: string)
      modifies this`alarms
      ensures alarms == Deleted(old(alarms), id)
    {
      alarms := Deleted(alarms, id);
    }

    /** `handleEdit`: remember the alarm and open the dialog on it. */
    method HandleEdit(alarm: Alarm)
      modifies this`editingAlarm, this`dialogOpen
      ensures editingAlarm == Some(alarm) && dialogOpen
    {
      editingAlarm := Some(alarm);
      dialogOpen := true;
    }

    /** `handleOpenDialog`: open the dialog for a new alarm. */
    method HandleOpenDialog()
      modifies this`editingAlarm, this`dialogOpen
      ensures editingAlarm.None? && dialogOpen
    {
      editingAlarm := None;
      dialogOpen := true;
    }

    /** The dialog's `onOpenChange`. */
    method SetDialogOpen(open: bool)
      modifies this`dialogOpen
      ensures dialogOpen == open
    {
      dialogOpen := open;
    }

    /** `handleSave`: with an alarm being edited, merge the record into every
        alarm with its id and stop editing; otherwise append a new alarm at the
        end. */
    method HandleSave(data: SavedAlarm, nowMillis: nat)
      modifies this`alarms, this`editingAlarm
      ensures old(editingAlarm).Some? ==>
        alarms == Edited(old(alarms), old(editingAlarm).value.id, data) && editingAlarm.None?
      ensures old(editingAlarm).None? ==>
        alarms == old(alarms) + [NewAlarm(data, nowMillis)] && editingAlarm.None?
    {
      match editingAlarm
      case Some(editing) =>
        alarms := Edited(alarms, editing.id, data);
        editingAlarm := None;
      case None =>
        var newAlarm := NewAlarm(data, nowMillis);
        alarms := alarms + [newAlarm];
    }

    /** The dialog's save button: the form's record goes to `handleSave`, and
        then the dialog closes through `onOpenChange(false)`. */
    method SaveDialog(form: Form, nowMillis: nat)
      modifies this
      ensures var data := SavedAlarm(form.time, if form.labelText != "" then Some(form.labelText) else None, true, form.selectedDays);
        (old(editingAlarm).Some? ==> alarms == Edited(old(alarms), old(editingAlarm).value.id, data))
        && (old(editingAlarm).None? ==> alarms == old(alarms) + [NewAlarm(data, nowMillis)])
      ensures editingAlarm.None? && !dialogOpen
    {
      var data := form.Save();
      HandleSave(data, nowMillis);
      SetDialogOpen(false);
    }

    /** `checkAlarms` at a clock reading: visit the alarms in order and fire
        each due one. It changes nothing, and the second plays no part, so
        every tick of a matching minute fires the alarm again. */
    method CheckAlarms(hour: int, minute: int, second: int, nativeDay: int) returns (events: seq<FireEvent>)
      requires 0 <= hour < 24 && 0 <= minute < 60 && 0 <= second < 60 && 0 <= nativeDay < 7
      ensures events == TickEvents(alarms, hour, minute, nativeDay)
      ensures |events| == |DueIndices(alarms, CurrentTime(hour, minute), WeekdayIndex(nativeDay))|
    {
      var currentTime := CurrentTime(hour, minute);
      var currentDay := WeekdayIndex(nativeDay);
      events := [];
      var i := 0;
      while i < |alarms|
        invariant 0 <= i <= |alarms|
        invariant events == Toasts(DueAlarms(alarms[..i], currentTime, currentDay))
      {
        var alarm := alarms[i];
        DueAlarmsStep(alarms, i, currentTime, currentDay);
        if alarm.enabled && alarm.time == currentTime && (|alarm.days| == 0 || currentDay in alarm.days) {
          ToastsAppend(DueAlarms(alarms[..i], currentTime, currentDay), alarm);
          events := events + [Fire(alarm)];
        }
        i := i + 1;
      }
      assert alarms[..|alarms|] == alarms;
      DueCount(alarms, currentTime, currentDay);
    }
  }
}
