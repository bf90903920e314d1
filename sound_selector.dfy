/** Which option of the sound selector is highlighted
    (src/components/SoundSelector.tsx). The file-reader path that turns a
    chosen file into a data URL is not modelled. */
module SoundSelector {
  import opened Wrappers
  import opened AlarmSounds

  /** `sounds.find(s => s.id === id)`: the first entry with that id. */
  function Find(sounds: seq<AlarmSound>, id: string): (r: Option<AlarmSound>)
    ensures r.Some? <==> exists i :: 0 <= i < |sounds| && sounds[i].id == id
    ensures r.Some? ==> exists i :: 0 <= i < |sounds| && sounds[i] == r.value && r.value.id == id
                                    && forall j :: 0 <= j < i ==> sounds[j].id != id
  {
    if sounds == [] then None
    else if sounds[0].id == id then Some(sounds[0])
    else
      var r := Find(sounds[1..], id);
      assert forall i :: 1 <= i < |sounds| ==> sounds[i] == sounds[1..][i - 1];
      r
  }

  /** `isCustomSound`: a non-empty value that is no catalog id. */
  predicate IsCustomSound(value: string)
  {
    value != "" && Find(ALARM_SOUNDS, value).None?
  }

  /** The custom-sound button is highlighted exactly when the value is non-empty
      and no catalog entry carries it. */
  lemma CustomSoundMeaning(value: string)
    ensures IsCustomSound(value) <==> value != "" && !IsCatalogId(value)
  {
  }

  /** Catalog option i is highlighted when the value is its id. */
  predicate OptionHighlighted(value: string, i: int)
    requires 0 <= i < |ALARM_SOUNDS|
  {
    value == ALARM_SOUNDS[i].id
  }

  /** The positions of the highlighted catalog options. */
  function HighlightedOptions(value: string): set<int>
  {
    set i | 0 <= i < |ALARM_SOUNDS| && OptionHighlighted(value, i)
  }

  /** The option carrying the value is the only highlighted one. */
  lemma HighlightedSingleton(value: string, i: int)
    requires 0 <= i < |ALARM_SOUNDS| && ALARM_SOUNDS[i].id == value
    ensures HighlightedOptions(value) == {i}
  {
    CatalogDistinct();
    assert forall j :: j in HighlightedOptions(value) ==> j == i;
  }

  /** A non-empty value highlights exactly one button (a catalog option or the
      custom one); the empty value highlights none. */
  lemma {:induction false} ExactlyOneHighlighted(value: string)
    ensures value == "" ==> HighlightedOptions(value) == {} && !IsCustomSound(value)
    ensures value != "" && IsCustomSound(value) ==> HighlightedOptions(value) == {}
    ensures value != "" && !IsCustomSound(value) ==> exists i :: 0 <= i < |ALARM_SOUNDS| && HighlightedOptions(value) == {i}
  {
    if IsCatalogId(value) {
      var i :| 0 <= i < |ALARM_SOUNDS| && ALARM_SOUNDS[i].id == value;
      HighlightedSingleton(value, i);
      assert value != "" by {
        assert |ALARM_SOUNDS[i].id| > 0;
      }
    } else {
      assert forall j :: j !in HighlightedOptions(value);
    }
  }

  /** Clicking catalog option i sets the value to its id; that value is not
      custom and highlights option i alone. */
  function ChooseOption(i: int): (value: string)
    requires 0 <= i < |ALARM_SOUNDS|
    ensures !IsCustomSound(value)
    ensures HighlightedOptions(value) == {i}
  {
    var value := ALARM_SOUNDS[i].id;
    assert |value| > 0;
    HighlightedSingleton(value, i);
    value
  }
}
