/** What one row of the alarm list shows and which callback each of its
    controls calls (src/components/AlarmItem.tsx). */
module AlarmItem {
  import opened Wrappers
  import opened AlarmType
  import opened JsText

  const DAY_LETTERS: seq<string> := ["L", "M", "X", "J", "V", "S", "D"]

  datatype DayChip = DayChip(letter: string, highlighted: bool)

  /** The repeat-days line: "Todos los días", "Una vez", or seven chips. */
  datatype DaysView = EveryDay | Once | Chips(chips: seq<DayChip>)

  function DaysSummary(days: seq<int>): (v: DaysView)
    ensures v == EveryDay <==> |days| == 7
    ensures v == Once <==> |days| == 0
    ensures v.Chips? ==> |v.chips| == 7
    ensures v.Chips? ==> forall i :: 0 <= i < 7 ==> v.chips[i].letter == DAY_LETTERS[i] && (v.chips[i].highlighted <==> i in days)
  {
    if |days| == 7 then EveryDay
    else if |days| == 0 then Once
    else Chips(seq(7, i requires 0 <= i < 7 => DayChip(DAY_LETTERS[i], i in days)))
  }

  /** The text of the repeat-days line, or `None` when chips are drawn instead. */
  function DaysText(v: DaysView): (t: Option<string>)
    ensures t.None? <==> v.Chips?
  {
    match v
    case EveryDay => Some("Todos los días")
    case Once => Some("Una vez")
    case Chips(_) => None
  }

  /** The label line appears only for a present, non-empty label. */
  predicate ShowsLabel(alarm: Alarm)
  {
    alarm.labelText.Some? && alarm.labelText.value != ""
  }

  /** The label line is shown exactly when `label || ""` is non-empty, so an
      absent label and an empty one look the same. */
  lemma ShowsLabelMeaning(alarm: Alarm)
    ensures ShowsLabel(alarm) <==> StringOr(alarm.labelText, "") != ""
    ensures ShowsLabel(alarm) ==> StringOr(alarm.labelText, "") == alarm.labelText.value
  {
  }

  /** The repeat-days line reads "Todos los días" exactly for seven listed
      days, "Una vez" exactly for none, and otherwise shows chips. */
  lemma DaysLine(days: seq<int>)
    ensures DaysText(DaysSummary(days)) == Some("Todos los días") <==> |days| == 7
    ensures DaysText(DaysSummary(days)) == Some("Una vez") <==> |days| == 0
    ensures DaysText(DaysSummary(days)).None? <==> 0 < |days| && |days| != 7
  {
  }

  datatype Control = EnabledSwitch | EditButton | DeleteButton

  /** The parent callback a control calls, with its argument. */
  datatype ItemEvent = ToggleRequested(id: string) | EditRequested(alarm: Alarm) | DeleteRequested(id: string)

  /** The switch and the delete button pass the alarm's id, the edit button
      passes the whole alarm. */
  function Activate(alarm: Alarm, c: Control): (e: ItemEvent)
    ensures e.ToggleRequested? <==> c == EnabledSwitch
    ensures e.DeleteRequested? <==> c == DeleteButton
    ensures e.ToggleRequested? || e.DeleteRequested? ==> e.id == alarm.id
    ensures e.EditRequested? ==> e.alarm == alarm
  {
    match c
    case EnabledSwitch => ToggleRequested(alarm.id)
    case EditButton => EditRequested(alarm)
    case DeleteButton => DeleteRequested(alarm.id)
  }
}
