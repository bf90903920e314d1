/** The sound catalog and the choice of tone routine in `playSound`
    (src/utils/alarmSounds.ts). The routines themselves synthesise audio and
    are represented only by which one is chosen. */
module AlarmSounds {
  import opened Wrappers

  datatype AlarmSound = AlarmSound(id: string, name: string, description: string)

  const ALARM_SOUNDS: seq<AlarmSound> := [
    AlarmSound("classic", "Clásico", "Tono tradicional de alarma"),
    AlarmSound("gentle", "Suave", "Despertar gradual y relajante"),
    AlarmSound("urgent", "Urgente", "Alarma intensa para despertar rápido"),
    AlarmSound("melody", "Melodía", "Secuencia musical agradable"),
    AlarmSound("birdsong", "Canto de pájaros", "Sonidos de naturaleza"),
    AlarmSound("chimes", "Campanas", "Sonido de campanas suaves")
  ]

  /** The six tone routines `playSound` can call. */
  datatype ToneRoutine =
    | ClassicAlarm
    | GentleAlarm
    | UrgentAlarm
    | MelodyAlarm
    | BirdsongAlarm
    | ChimesAlarm

  /** The routine written for each catalog entry, in catalog order. */
  const CATALOG_ROUTINES: seq<ToneRoutine> :=
    [ClassicAlarm, GentleAlarm, UrgentAlarm, MelodyAlarm, BirdsongAlarm, ChimesAlarm]

  predicate IsCatalogId(id: string)
  {
    exists i :: 0 <= i < |ALARM_SOUNDS| && ALARM_SOUNDS[i].id == id
  }

  /** `playSound(soundId)`: `None` is a call without an argument, which the
      default parameter turns into "classic"; the `switch` picks the routine
      of a catalog id and falls back to the classic one for anything else. */
  function PlaySound(soundId: Option<string>): (r: ToneRoutine)
    ensures soundId.None? ==> r == ClassicAlarm
    ensures forall i :: 0 <= i < |ALARM_SOUNDS| && soundId == Some(ALARM_SOUNDS[i].id) ==> r == CATALOG_ROUTINES[i]
    ensures soundId.Some? && !IsCatalogId(soundId.value) ==> r == ClassicAlarm
  {
    CatalogDistinct();
    assert ALARM_SOUNDS[1].id == "gentle" && ALARM_SOUNDS[2].id == "urgent" && ALARM_SOUNDS[3].id == "melody";
    assert ALARM_SOUNDS[4].id == "birdsong" && ALARM_SOUNDS[5].id == "chimes";
    var id := soundId.GetOr("classic");
    if id == "classic" then ClassicAlarm
    else if id == "gentle" then GentleAlarm
    else if id == "urgent" then UrgentAlarm
    else if id == "melody" then MelodyAlarm
    else if id == "birdsong" then BirdsongAlarm
    else if id == "chimes" then ChimesAlarm
    else ClassicAlarm
  }

  /** The catalog has six entries with pairwise distinct ids, and no two of
      them reach the same routine. */
  lemma CatalogDistinct()
    ensures |ALARM_SOUNDS| == 6 && |CATALOG_ROUTINES| == 6
    ensures forall i, j :: 0 <= i < j < 6 ==> ALARM_SOUNDS[i].id != ALARM_SOUNDS[j].id
    ensures forall i, j :: 0 <= i < j < 6 ==> CATALOG_ROUTINES[i] != CATALOG_ROUTINES[j]
  {
    // the ids differ in their first letter, except "classic" and "chimes"
    assert ALARM_SOUNDS[0].id[1] != ALARM_SOUNDS[5].id[1];
    forall i, j | 0 <= i < j < 6 && !(i == 0 && j == 5)
      ensures ALARM_SOUNDS[i].id[0] != ALARM_SOUNDS[j].id[0]
    {
    }
  }
}
