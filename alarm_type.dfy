/** The alarm record (src/types/alarm.ts). A field declared with `?` may be
    absent and is an `Option`; the others are always present. The record has
    no sound field. The field `label` is spelled `labelText` (`label` is a
    Dafny keyword). */
module AlarmType {
  import opened Wrappers

  datatype Alarm = Alarm(
    id: string,
    time: string,
    enabled: bool,
    days: seq<int>,
    labelText: Option<string>,
    snoozeEnabled: bool,
    snoozeInterval: int,
    snoozeCount: Option<int>,
    lastTriggered: Option<string>)
}
