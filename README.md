# Sunrise alarm — a Dafny model of its scheduling rules

Sunrise alarm is a React/Capacitor alarm clock written in TypeScript. It keeps a
list of alarms, each with a "HH:MM" time, an on/off switch, a set of weekdays
and an optional label. Once a second it checks the list and fires every alarm
that is due at the current minute. Its native-features hook also offers
operations that schedule a local notification for the next occurrence of an
alarm and cancel it again; the page and components modelled here never call
them.

This project models the logic under the user interface:

- the alarm record and the page that owns the list;
- the due-alarm test and the tick;
- the edit dialog's form state;
- the analogue time picker's parsing and dial arithmetic;
- the sound catalog and its dispatch;
- the days summary on each alarm row;
- the native helpers' arithmetic: the next fire instant and the notification id.

The model follows what the code does. In some places that is not what an alarm
clock might be expected to do:

- Nothing reads or writes the snooze fields or `lastTriggered`.
- A tick fires a due alarm on every tick of its minute, with no de-duplication.
- An alarm with no days ("Una vez") fires every day, not once.
- The tick plays one fixed tone, not the alarm's chosen sound, and the record has no sound field.
- The page never schedules or cancels a notification itself.

The modules, one per source file, are:

- `Wrappers`: `Option`.
- `JsText`: the JavaScript built-ins the code leans on, written out:
  - `split` on one character;
  - `replace(/\D/g, '')`;
  - `parseInt` and `Number` on decimal text;
  - `toString` and `padStart(2, "0")`;
  - `||` on numbers and optional strings;
  - the sign-keeping `%`.
- `AlarmType`: the record.
- `AlarmSounds`, `SoundSelector`, `AlarmItem`: pure views and dispatch.
- `AddAlarmDialog`: a class `Form` holding the dialog's three pieces of state.
- `TimePicker`: a class `Picker` holding hours, minutes and mode.
- `NativeFeatures`: the next fire instant, notification ids, and the `isNative` guards.
- `IndexPage`: a class `Page` holding the list and the dialog state, with one method per handler and the tick as a loop.

Some entry points are parameters:

- The clock at a tick is `(hour, minute, second, getDay())`.
- `Date.now()` is a number of local milliseconds.
- `Math.random()` is the integer it is floored to.
- A dial click is the integer step the pointer angle rounds to.

## Model

| member | source | states |
|---|---|---|
| `IndexPage.WeekdayIndex` | src/pages/Index.tsx:30 | maps `getDay()` 0..6 into 0..6, Sunday to 6 and every other day d to d-1 |
| `IndexPage.WeekdayIndexBijective` | src/pages/Index.tsx:30 | the remap is a bijection on 0..6, undone by `NativeDay` |
| `IndexPage.WeekdayIndexNamesButton` | src/components/AddAlarmDialog.tsx:21 | the remapped day indexes the dialog's `DAYS` button of the same weekday (Lun=0 … Dom=6) |
| `IndexPage.CurrentTime` | src/pages/Index.tsx:29 | the current time is five characters, two zero-padded fields around ':' |
| `IndexPage.IsDue` | src/pages/Index.tsx:33-37 | definition of the tick's test (enabled, the same "HH:MM", days empty or holding today's index); characterised by `IndexPage.DueAtClock`, `IndexPage.DisabledAndOnce` and `IndexPage.DueIgnoresSnooze` |
| `IndexPage.DueAtClock` | src/pages/Index.tsx:33-37 | an alarm at "HH:MM" is due at a clock reading iff it is enabled, its hour and minute are the clock's, and its days are empty or hold the remapped weekday |
| `IndexPage.DisabledAndOnce` | src/pages/Index.tsx:34-36 | a disabled alarm is never due; an enabled alarm with no days is due on every weekday at its time |
| `IndexPage.DueIgnoresSnooze` | src/types/alarm.ts:7-10 | whether an alarm is due does not depend on the snooze fields or `lastTriggered` |
| `IndexPage.ChipsShowDueDays` | src/components/AlarmItem.tsx:40-51 | when the row shows chips, the enabled alarm at its time is due on exactly the highlighted weekdays |
| `IndexPage.DistinctBelow` | src/components/AddAlarmDialog.tsx:45-49 | a repeat-free list of numbers below n has at most n entries, and one with n entries holds them all |
| `IndexPage.EveryDayIsEveryWeekday` | src/components/AlarmItem.tsx:35-36 | for a repeat-free list of weekdays, "Todos los días" (seven days) means the alarm is due on every weekday |
| `IndexPage.DueAlarms` | src/pages/Index.tsx:32-44 | the alarms a tick fires, never more than the list holds; characterised by `IndexPage.DueAlarmsMembers`, `IndexPage.DueCount` and `IndexPage.DueAlarmsConcat` |
| `IndexPage.DueAlarmsMembers` | src/pages/Index.tsx:32-44 | an alarm fires on a tick iff it is in the list and due |
| `IndexPage.DueCount` | src/pages/Index.tsx:32-44 | the number of firings is the number of list positions holding a due alarm |
| `IndexPage.DueAlarmsConcat` | src/pages/Index.tsx:32 | the tick visits the list in order: the firings of a joined list are those of the first part, then those of the second |
| `IndexPage.Fire` | src/pages/Index.tsx:39-42 | a firing's toast reads "¡Alarma! " and the label, or the time when the label is absent or empty, with a fixed description and 10000 ms |
| `IndexPage.Toggled` | src/pages/Index.tsx:72-78 | toggle keeps length and order, changes nothing but `enabled`, and flips it exactly on the alarms with the id |
| `IndexPage.ToggleTwice` | src/pages/Index.tsx:72-78 | toggling the same id twice gives back the list |
| `IndexPage.Deleted` | src/pages/Index.tsx:81 | the filter never grows the list; characterised by `IndexPage.DeletedMembers`, `IndexPage.DeletedConcat` and `IndexPage.DeletedNoMatch` |
| `IndexPage.DeletedMembers` | src/pages/Index.tsx:80-81 | delete keeps exactly the alarms whose id differs |
| `IndexPage.DeletedConcat` | src/pages/Index.tsx:81 | delete works piece by piece, so what stays keeps its order |
| `IndexPage.DeletedNoMatch` | src/pages/Index.tsx:81 | deleting an id that no alarm has leaves the list unchanged |
| `IndexPage.Merged` | src/pages/Index.tsx:94 | the edit merge overwrites time, label, enabled and days, and keeps the id, the snooze fields and `lastTriggered` |
| `IndexPage.Edited` | src/pages/Index.tsx:92-96 | edit keeps length and order, leaves other ids untouched, and merges the record into every alarm with the edited id |
| `IndexPage.EditReenables` | src/components/AddAlarmDialog.tsx:51-57 | saving a disabled alarm untouched from the dialog re-enables it and changes nothing else |
| `IndexPage.NewAlarm` | src/pages/Index.tsx:100-103 | a created alarm carries the record's fields and a decimal id whose value is the creation time |
| `IndexPage.NewAlarmIdsDiffer` | src/pages/Index.tsx:102 | alarms created at different milliseconds get different ids |
| `IndexPage.Page.constructor` | src/pages/Index.tsx:11-13 | the page starts with no alarms, the dialog closed and nothing being edited |
| `IndexPage.Page.HandleToggle` | src/pages/Index.tsx:72-78 | the list becomes its toggle |
| `IndexPage.Page.HandleDelete` | src/pages/Index.tsx:80-83 | the list becomes its filter by id |
| `IndexPage.Page.HandleEdit` | src/pages/Index.tsx:85-88 | the alarm becomes the one being edited and the dialog opens |
| `IndexPage.Page.HandleOpenDialog` | src/pages/Index.tsx:109-112 | nothing is being edited and the dialog opens |
| `IndexPage.Page.SetDialogOpen` | src/pages/Index.tsx:160-165 | the dialog's open state becomes the value it reports |
| `IndexPage.Page.HandleSave` | src/pages/Index.tsx:90-107 | with an alarm being edited, the list becomes its edit for that id and editing stops; otherwise the new alarm is appended after the existing ones |
| `IndexPage.Page.SaveDialog` | src/components/AddAlarmDialog.tsx:51-59 | the dialog's save hands the form's record (enabled, an empty label dropped) to `handleSave`, which merges or appends it, and then the dialog is closed with nothing being edited |
| `IndexPage.Page.CheckAlarms` | src/pages/Index.tsx:27-45 | a tick changes nothing and yields one toast per due alarm in list order; the second plays no part, so every tick of a matching minute fires again |
| `NativeFeatures.TriggerHaptic` | src/hooks/useNativeFeatures.ts:50-54 | off native nothing happens; on native the impact style is the given one, `Medium` by default |
| `NativeFeatures.Midnight` | src/hooks/useNativeFeatures.ts:61 | the start of today is a whole number of days, at or before now and less than a day before it |
| `NativeFeatures.ClockFields` | src/hooks/useNativeFeatures.ts:59 | definition of `split(':').map(Number)` keeping the first two fields, the second undefined when absent; characterised by `NativeFeatures.ClockFieldsOfHhMm` |
| `NativeFeatures.ClockFieldsOfHhMm` | src/hooks/useNativeFeatures.ts:59 | an in-range "HH:MM" splits and converts to its hour and minute |
| `NativeFeatures.NextFireInstant` | src/hooks/useNativeFeatures.ts:60-65 | the date is invalid for a NaN field, else today at HH:MM if strictly after now, else the same time a day later |
| `NativeFeatures.NextFireOnTheClock` | src/hooks/useNativeFeatures.ts:61-65 | choosing today or tomorrow at an offset within the day gives an instant in (now, now + 1 day] at that offset into its day |
| `NativeFeatures.OffsetReadsAsClock` | src/hooks/useNativeFeatures.ts:61 | an instant that far into its day reads as that hour and minute, second 0 |
| `NativeFeatures.NextFireReadsAsTime` | src/hooks/useNativeFeatures.ts:59-65 | for an in-range hour and minute the next fire instant lies in (now, now + 1 day] and reads as exactly that hour and minute, second 0 |
| `NativeFeatures.AlarmTimeScheduled` | src/hooks/useNativeFeatures.ts:59-65 | an alarm whose time the picker wrote is scheduled within the coming day at its own hour and minute |
| `NativeFeatures.IdDigits` | src/hooks/useNativeFeatures.ts:72 | the id's digits cut to nine: only digits, at most nine of them, a prefix of all the id's digits, and all of them when there are fewer than nine |
| `NativeFeatures.ParsedIdDigits` | src/hooks/useNativeFeatures.ts:72 | the first nine digits of the id parse to NaN iff the id has no digit, and otherwise to the decimal value of those digits, a number in [0, 10^9) |
| `NativeFeatures.ScheduledId` | src/hooks/useNativeFeatures.ts:72 | definition of the digit value `\|\| random`; characterised by `NativeFeatures.ScheduleAndCancelIds` |
| `NativeFeatures.CancelledId` | src/hooks/useNativeFeatures.ts:86 | definition of the digit value `\|\| 0`; characterised by `NativeFeatures.ScheduleAndCancelIds` |
| `NativeFeatures.ScheduleAndCancelIds` | src/hooks/useNativeFeatures.ts:72-86 | both ids lie in [0, 10^9); a non-zero digit value gives both the same id; otherwise schedule uses the random number and cancel uses 0 |
| `NativeFeatures.SharedDigitsCollide` | src/hooks/useNativeFeatures.ts:72 | alarm ids with the same first nine digits get the same notification id |
| `NativeFeatures.TimestampIdDigits` | src/hooks/useNativeFeatures.ts:72 | an id from a 13-digit `Date.now()` gets notification id `t / 10000`, so alarms created in the same ten-second window (equal `t / 10000`) collide |
| `NativeFeatures.ScheduleNotification` | src/hooks/useNativeFeatures.ts:56-81 | off native nothing is scheduled; on native one notification with the fixed title, a body of the label or "Alarma a las " + time, the derived id, the next fire instant, "beep.wav", and the alarm id unchanged in its extra data |
| `NativeFeatures.CancelNotification` | src/hooks/useNativeFeatures.ts:83-88 | off native nothing is cancelled; on native the id cancelled is the digit-derived id or 0, in [0, 10^9) |
| `AddAlarmDialog.Without` | src/components/AddAlarmDialog.tsx:47 | the filter removes every copy of the day, keeps every other day, and changes nothing when the day is absent |
| `AddAlarmDialog.ToggleDay` | src/components/AddAlarmDialog.tsx:45-49 | definition of the toggle (filter out a selected day, append an unselected one); characterised by `AddAlarmDialog.ToggleDayEffect`, `AddAlarmDialog.ToggleDayTwice` and `AddAlarmDialog.ToggleDayKeepsNoDuplicates` |
| `AddAlarmDialog.ToggleDayEffect` | src/components/AddAlarmDialog.tsx:45-49 | a selected day is removed and no other day's membership changes; an unselected day is appended at the end |
| `AddAlarmDialog.WithoutLength` | src/components/AddAlarmDialog.tsx:47 | in a repeat-free list, the filter shortens it by one exactly when the day was there |
| `AddAlarmDialog.WithoutKeepsNoDuplicates` | src/components/AddAlarmDialog.tsx:47 | the filter keeps a repeat-free list repeat-free |
| `AddAlarmDialog.ToggleDayKeepsNoDuplicates` | src/components/AddAlarmDialog.tsx:45-49 | toggling keeps a repeat-free list repeat-free |
| `AddAlarmDialog.ToggleDayTwice` | src/components/AddAlarmDialog.tsx:45-49 | toggling a day twice restores the set of days, and the very list when the day was unselected |
| `AddAlarmDialog.WithoutAppend` | src/components/AddAlarmDialog.tsx:47 | removing the day just appended gives back the list |
| `AddAlarmDialog.ToggleDayInWeek` | src/components/AddAlarmDialog.tsx:95-98 | toggling buttons keeps every selected index a position of `DAYS` |
| `AddAlarmDialog.Form.constructor` | src/components/AddAlarmDialog.tsx:29-31 | the form starts at "08:00", no label and no days |
| `AddAlarmDialog.Form.Reset` | src/components/AddAlarmDialog.tsx:33-43 | an edit pre-fills time, label (a missing one as "") and days; a new alarm resets to "08:00", "" and [] |
| `AddAlarmDialog.Form.SetTime` | src/components/AddAlarmDialog.tsx:77 | the time becomes the input's value |
| `AddAlarmDialog.Form.SetLabel` | src/components/AddAlarmDialog.tsx:88 | the label becomes the input's value |
| `AddAlarmDialog.Form.ToggleDayButton` | src/components/AddAlarmDialog.tsx:95-98 | the selected days become their toggle at the button's index; that button's shown selection flips and no other button's changes |
| `AddAlarmDialog.Form.DaySelected` | src/components/AddAlarmDialog.tsx:100 | a day button shows as selected iff its index is among the selected days; characterised by `AddAlarmDialog.Form.ToggleDayButton` |
| `AddAlarmDialog.Form.Save` | src/components/AddAlarmDialog.tsx:51-57 | the record is always enabled, passes time and days through, and has an absent label exactly when the label is empty; the dialog's close after it is part of `IndexPage.Page.SaveDialog` |
| `AddAlarmDialog.OpenForEditAndSave` | src/components/AddAlarmDialog.tsx:33-57 | opening on an alarm and saving untouched gives its time and days, enabled, with an empty label dropped |
| `TimePicker.ReadBackFormatted` | src/components/TimePicker.tsx:10-17 | both readers turn "HH:MM" back into its numbers, except that hour 0 becomes 8 |
| `TimePicker.InitialHours` | src/components/TimePicker.tsx:10 | the initial hour `parseInt(...) \|\| 8` is never 0; characterised by `TimePicker.ReadBackFormatted` and `TimePicker.MidnightShowsEight` |
| `TimePicker.InitialMinutes` | src/components/TimePicker.tsx:11 | definition of `parseInt(...) \|\| 0` on the second field; characterised by `TimePicker.ReadBackFormatted` |
| `TimePicker.SyncedHours` | src/components/TimePicker.tsx:15-16 | the re-read hour `h \|\| 8` is never 0; characterised by `TimePicker.ReadBackFormatted` and `TimePicker.PickHourThenMinute` |
| `TimePicker.SyncedMinutes` | src/components/TimePicker.tsx:15-17 | definition of `m \|\| 0` on the second field; characterised by `TimePicker.ReadBackFormatted` and `TimePicker.PickHourThenMinute` |
| `TimePicker.MidnightShowsEight` | src/components/TimePicker.tsx:10-17 | "00:30" shows hour 8 and minute 30 |
| `TimePicker.PickedHour` | src/components/TimePicker.tsx:33-34 | a picked hour lies in 1..12 and agrees with the step modulo 12 |
| `TimePicker.PickedMinute` | src/components/TimePicker.tsx:39 | a picked minute lies in 0..59 and agrees with the step modulo 60 |
| `TimePicker.DialLabels` | src/components/TimePicker.tsx:46 | the dial draws twelve labels; characterised by `TimePicker.DialLabelsPickable` |
| `TimePicker.DialLabelsPickable` | src/components/TimePicker.tsx:46 | hour labels are exactly 1..12 and cover every pickable hour; minute labels are exactly the multiples of 5 below 60; each label picks itself |
| `TimePicker.LabelSelected` | src/components/TimePicker.tsx:54 | definition of the highlight test; characterised by `TimePicker.SelectedHourLabel` and `TimePicker.SelectedMinuteLabel` |
| `TimePicker.SelectedHourLabel` | src/components/TimePicker.tsx:46-54 | in hours mode an hour in 1..12 highlights exactly its own label and any other hour highlights none |
| `TimePicker.SelectedMinuteLabel` | src/components/TimePicker.tsx:46-54 | in minutes mode label i is highlighted iff the minutes are 5·i, so a minute off the five-minute grid highlights none |
| `TimePicker.HandAngle` | src/components/TimePicker.tsx:74-80 | hours mode gives 30 degrees per hour on a 12-hour face from -90, and for negative hours the sign-keeping `%` gives -30 degrees per hour of `-hours % 12` from -90; minutes mode gives 6 degrees per minute from -90 |
| `TimePicker.Picker.constructor` | src/components/TimePicker.tsx:9-11 | the picker starts in hours mode with the value read by `parseInt` and its fallbacks |
| `TimePicker.Picker.SyncValue` | src/components/TimePicker.tsx:14-18 | a new value is re-read by `Number` with its fallbacks |
| `TimePicker.Picker.SelectMode` | src/components/TimePicker.tsx:86-95 | the mode buttons set the mode |
| `TimePicker.Picker.Click` | src/components/TimePicker.tsx:32-42 | an hours click sets the hour and switches to minutes; a minutes click sets the minute and stays; either emits the padded "HH:MM" |
| `TimePicker.PickHourThenMinute` | src/components/TimePicker.tsx:32-42 | picking an hour then a minute emits a value that reads back as exactly the picked hour and minute |
| `JsText.HhMmParts` | src/components/TimePicker.tsx:36-41 | the emitted text splits into two two-digit fields holding the hour and the minute |
| `JsText.HhMmInjective` | src/components/TimePicker.tsx:36-41 | different in-range hour and minute pairs give different texts |
| `JsText.JoinSplit` | src/components/TimePicker.tsx:15 | splitting at ':' loses nothing but the separators: joining the parts with ':' gives back the text |
| `JsText.ParseDigits` | src/components/TimePicker.tsx:10-17 | `parseInt` and `Number` both read a non-empty run of digits as its value; on empty text `parseInt` is NaN and `Number` is 0 |
| `JsText.NumberOr` | src/components/TimePicker.tsx:10-17 | `x \|\| fallback` is x when x is a non-zero number and the fallback otherwise |
| `JsText.StringOr` | src/hooks/useNativeFeatures.ts:71 | `label \|\| fallback` is the label when it is non-empty and the fallback otherwise |
| `JsText.StripNonDigitsEmpty` | src/hooks/useNativeFeatures.ts:72 | removing non-digits leaves nothing iff the id has no digit |
| `JsText.JsRem` | src/components/TimePicker.tsx:76 | `%` keeps the dividend's sign; for a non-negative dividend it is the mathematical remainder |
| `AlarmSounds.CatalogDistinct` | src/utils/alarmSounds.ts:7-38 | the catalog has six entries with pairwise distinct ids, matched to six distinct tone routines |
| `AlarmSounds.PlaySound` | src/utils/alarmSounds.ts:40-65 | no argument plays the classic routine, every catalog id plays its own routine, any other id plays the classic one |
| `SoundSelector.Find` | src/components/SoundSelector.tsx:34 | `find` returns an entry iff some entry has the id, and then the first such entry |
| `SoundSelector.IsCustomSound` | src/components/SoundSelector.tsx:34 | definition of `value && !find(...)`; characterised by `SoundSelector.CustomSoundMeaning` and `SoundSelector.ExactlyOneHighlighted` |
| `SoundSelector.CustomSoundMeaning` | src/components/SoundSelector.tsx:34 | a value is custom iff it is non-empty and no catalog id |
| `SoundSelector.OptionHighlighted` | src/components/SoundSelector.tsx:45 | definition of `value === sound.id`; characterised by `SoundSelector.HighlightedSingleton` and `SoundSelector.ExactlyOneHighlighted` |
| `SoundSelector.HighlightedSingleton` | src/components/SoundSelector.tsx:45 | a catalog id highlights its own option and no other |
| `SoundSelector.ExactlyOneHighlighted` | src/components/SoundSelector.tsx:34-82 | an empty value highlights nothing; a custom value highlights only the custom entry; any other value highlights exactly one catalog option |
| `SoundSelector.ChooseOption` | src/components/SoundSelector.tsx:43 | choosing an option sets a value that is not custom and highlights exactly that option |
| `AlarmItem.DaysSummary` | src/components/AlarmItem.tsx:35-52 | seven days show "every day", none show "once", anything else shows seven lettered chips, chip i highlighted iff i is a day |
| `AlarmItem.DaysText` | src/components/AlarmItem.tsx:35-38 | the line has a text exactly when no chips are drawn |
| `AlarmItem.DaysLine` | src/components/AlarmItem.tsx:35-52 | the line reads "Todos los días" iff seven days are listed, "Una vez" iff none, and shows chips otherwise |
| `AlarmItem.ShowsLabel` | src/components/AlarmItem.tsx:30 | definition of the label test; characterised by `AlarmItem.ShowsLabelMeaning` |
| `AlarmItem.ShowsLabelMeaning` | src/components/AlarmItem.tsx:30 | the label line is shown iff `label \|\| ""` is non-empty, and then it shows the label |
| `AlarmItem.Activate` | src/components/AlarmItem.tsx:24-72 | the switch and the delete button pass the alarm's id; the edit button passes the whole alarm |

## Left out

- Web Audio synthesis (oscillators, gain ramps, frequencies, timings) in `alarmSounds.ts` and the page's own tone is floating-point browser output. `PlaySound` models only which routine is chosen, and a tick's firing stands for the fixed tone plus its toast.
- Timers and React lifecycle (`setInterval`, `useEffect`, `useState`, re-rendering) are left out. A tick is one call with the clock as parameters, and each effect is a method called when it would run.
- `localStorage` and `JSON.parse`/`JSON.stringify` persistence is I/O with no logic; the page starts from an empty list.
- Capacitor plugin calls (`Haptics`, `LocalNotifications`, `StatusBar`, `SplashScreen`, `App` listeners) and `async`/`await` are left out. The model returns the request each call would receive. The status bar, splash screen and back-button setup of `useNativeFeatures.ts:12-48` is not modelled.
- `Date.now()`, `new Date()` and `Math.random()` are parameters. Time is local milliseconds with a day of exactly 86 400 000 of them: no time zones or daylight-saving shifts, which `setDate` would follow.
- The time picker's pointer geometry (`atan2` and float rounding) and the trigonometric label placement are left out; a click enters as an integer dial step.
- `FileReader` loading of a custom sound, `toast` banners other than a firing's content, JSX, CSS class strings, `CurrentTime.tsx`'s locale formatting and `capacitor.config.ts` are left out.
- `JsText.ToNumber`: models `Number` only for text that is blank or an optionally signed run of decimal digits. Decimals, exponents, hex, "Infinity" and digit separators read as NaN in the model.
- `JsText.ParseInt`: does not model a "0x" prefix or digits past IEEE double precision.
- `IndexPage.NewAlarm`: the record the dialog hands over has no `snoozeEnabled` or `snoozeInterval` keys, so a created alarm lacks them in the source. The model fills in `false`, `0` and absent for the `undefined` they would read as.
- `IndexPage.Page.CheckAlarms`: the second is a parameter that nothing reads, because the source compares only "HH:MM".
- `IndexPage.Deleted`: states only that the list does not grow. What stays, and in what order, is stated by `IndexPage.DeletedMembers` and `IndexPage.DeletedConcat`.
- The alarm record's shape (required `id`, `time`, `enabled`, `days`, snooze settings; optional label, snooze count and last trigger; no sound field) is carried by the `AlarmType.Alarm` datatype itself and needs no lemma.
