/** The create/edit form (src/components/AddAlarmDialog.tsx): its three pieces
    of state, the reset that runs when it opens, the weekday buttons and the
    record it hands to `onSave`. */
module AddAlarmDialog {
  import opened Wrappers
  import opened JsText
  import opened AlarmType

  /** The weekday buttons; a button's position is the day index it toggles. */
  const DAYS: seq<string> := ["Lun", "Mar", "Mié", "Jue", "Vie", "Sáb", "Dom"]

  /** The record handed to `onSave`. All four keys are always present; `label`
      holds `undefined` (`None`) when the label was left empty. */
  datatype SavedAlarm = SavedAlarm(time: string, labelText: Option<string>, enabled: bool, days: seq<int>)

  /** `prev.filter((d) => d !== day)`. */
  function Without(prev: seq<int>, day: int): (r: seq<int>)
    ensures day !in r
    ensures forall d :: d != day ==> (d in r <==> d in prev)
    ensures day !in prev ==> r == prev
  {
    if prev == [] then []
    else
      var r := (if prev[0] == day then [] else [prev[0]]) + Without(prev[1..], day);
      assert prev == [prev[0]] + prev[1..];
      r
  }

  /** The update `toggleDay` applies to the selected days. */
  function ToggleDay(prev: seq<int>, day: int): seq<int>
  {
    if day in prev then Without(prev, day) else prev + [day]
  }

  predicate NoDuplicates(s: seq<int>)
  {
    forall i, j :: 0 <= i < j < |s| ==> s[i] != s[j]
  }

  /** A selected day is removed (every occurrence of it) and nothing else
      changes membership; an unselected day is appended at the end. */
  lemma ToggleDayEffect(prev: seq<int>, day: int)
    ensures day in prev ==> day !in ToggleDay(prev, day)
    ensures day in prev ==> forall d :: d != day ==> (d in ToggleDay(prev, day) <==> d in prev)
    ensures day !in prev ==> ToggleDay(prev, day) == prev + [day]
  {
  }

  lemma {:induction false} WithoutKeepsNoDuplicates(prev: seq<int>, day: int)
    requires NoDuplicates(prev)
    ensures NoDuplicates(Without(prev, day))
  {
    if prev != [] {
      var rest := prev[1..];
      assert NoDuplicates(rest);
      WithoutKeepsNoDuplicates(rest, day);
      var tail := Without(rest, day);
      if prev[0] != day {
        assert prev[0] !in rest;
        assert prev[0] !in tail;
        assert Without(prev, day) == [prev[0]] + tail;
      } else {
        assert Without(prev, day) == tail;
      }
    }
  }

  /** In a list without repeats, removing a day shortens it by one exactly
      when the day was there. */
  lemma {:induction false} WithoutLength(prev: seq<int>, day: int)
    requires NoDuplicates(prev)
    ensures |Without(prev, day)| == |prev| - (if day in prev then 1 else 0)
  {
    if prev != [] {
      var rest := prev[1..];
      assert prev == [prev[0]] + rest;
      assert NoDuplicates(rest);
      WithoutLength(rest, day);
      assert prev[0] !in rest;
    }
  }

  /** Toggling keeps a list without repeated days free of repeats. */
  lemma ToggleDayKeepsNoDuplicates(prev: seq<int>, day: int)
    requires NoDuplicates(prev)
    ensures NoDuplicates(ToggleDay(prev, day))
  {
    if day in prev {
      WithoutKeepsNoDuplicates(prev, day);
    }
  }

  /** Toggling the same day twice restores the set of selected days; when the
      day was not selected it restores the very list. */
  lemma ToggleDayTwice(prev: seq<int>, day: int)
    ensures forall d :: d in ToggleDay(ToggleDay(prev, day), day) <==> d in prev
    ensures day !in prev ==> ToggleDay(ToggleDay(prev, day), day) == prev
  {
    var once := ToggleDay(prev, day);
    if day !in prev {
      assert day in once;
      assert forall d :: d in once <==> d in prev || d == day;
      assert Without(once, day) == prev by {
        WithoutAppend(prev, day);
      }
    }
  }

  /** Removing the day just appended gives back the list. */
  lemma {:induction false} WithoutAppend(prev: seq<int>, day: int)
    requires day !in prev
    ensures Without(prev + [day], day) == prev
  {
    if prev == [] {
      assert Without([day], day) == [] + Without([], day);
    } else {
      assert (prev + [day])[1..] == prev[1..] + [day];
      WithoutAppend(prev[1..], day);
      assert Without(prev + [day], day) == [prev[0]] + Without(prev[1..] + [day], day);
    }
  }

  /** Toggling day buttons keeps every selected index a position of `DAYS`. */
  lemma ToggleDayInWeek(prev: seq<int>, day: int)
    requires forall d :: d in prev ==> 0 <= d < |DAYS|
    requires 0 <= day < |DAYS|
    ensures forall d :: d in ToggleDay(prev, day) ==> 0 <= d < |DAYS|
  {
  }

  class Form {
    var time: string
    var labelText: string
    var selectedDays: seq<int>

    /** The `useState` initial values. */
    constructor ()
      ensures time == "08:00" && labelText == "" && selectedDays == []
    {
      time := "08:00";
      labelText := "";
      selectedDays := [];
    }

    /** The effect that runs when the dialog opens or the edited alarm changes:
        an edit pre-fills the form (a missing label shows as ""), a new alarm
        starts from "08:00", no label and no days. */
    method Reset(editingAlarm: Option<Alarm>)
      modifies this
      ensures editingAlarm.Some? ==>
        time == editingAlarm.value.time
        && labelText == editingAlarm.value.labelText.GetOr("")
        && selectedDays == editingAlarm.value.days
      ensures editingAlarm.None? ==> time == "08:00" && labelText == "" && selectedDays == []
    {
      match editingAlarm
      case Some(a) =>
        time := a.time;
        labelText := StringOr(a.labelText, "");
        selectedDays := a.days;
      case None =>
        time := "08:00";
        labelText := "";
        selectedDays := [];
    }

    /** The time input's `onChange`. */
    method SetTime(value: string)
      modifies this`time
      ensures time == value
    {
      time := value;
    }

    /** The label input's `onChange`. */
    method SetLabel(value: string)
      modifies this`labelText
      ensures labelText == value
    {
      labelText := value;
    }

    /** The weekday button at position `index` of `DAYS`. */
    method ToggleDayButton(index: int)
      modifies this`selectedDays
      ensures selectedDays == ToggleDay(old(selectedDays), index)
      ensures DaySelected(index) <==> !old(DaySelected(index))
      ensures forall j :: j != index ==> (DaySelected(j) <==> old(DaySelected(j)))
    {
      ToggleDayEffect(selectedDays, index);
      selectedDays := ToggleDay(selectedDays, index);
    }

    /** Whether the button at position `index` shows as selected. */
    predicate DaySelected(index: int)
      reads this
    {
      index in selectedDays
    }

    /** `handleSave`'s record: always enabled, the time and days as they are,
        and an empty label turned into an absent one. */
    method Save() returns (r: SavedAlarm)
      ensures r.enabled
      ensures r.time == time && r.days == selectedDays
      ensures r.labelText.None? <==> labelText == ""
      ensures r.labelText.Some? ==> r.labelText.value == labelText
    {
      r := SavedAlarm(time, if labelText != "" then Some(labelText) else None, true, selectedDays);
    }
  }

  /** Opening the dialog on an alarm and saving it untouched hands back its
      time and days, re-enabled, with an empty label dropped. */
  method OpenForEditAndSave(a: Alarm) returns (r: SavedAlarm)
    ensures r.enabled && r.time == a.time && r.days == a.days
    ensures r.labelText.None? <==> a.labelText.GetOr("") == ""
    ensures r.labelText.Some? ==> a.labelText == r.labelText
  {
    var form := new Form();
    form.Reset(Some(a));
    r := form.Save();
  }
}
