/** The arithmetic behind the native helpers (src/hooks/useNativeFeatures.ts):
    when a wake notification is set to fire, which numeric id it gets, what it
    says, and that every helper does nothing off a native platform. The plugin
    calls themselves are represented by the request they would receive.
    Instants are local milliseconds; a day is 86 400 000 of them. */
module NativeFeatures {
  import opened Wrappers
  import opened JsText
  import opened AlarmType

  const MINUTE_MS: int := 60000
  const HOUR_MS: int := 3600000
  const DAY_MS: int := 86400000

  datatype ImpactStyle = Light | Medium | Heavy

  /** `triggerHaptic(style)`: the style handed to `Haptics.impact`, or `None`
      off native. Leaving the argument out (`None`) means `Medium`. */
  function TriggerHaptic(isNative: bool, style: Option<ImpactStyle>): (r: Option<ImpactStyle>)
    ensures r.Some? <==> isNative
    ensures r.Some? ==> r.value == style.GetOr(Medium)
  {
    if isNative then Some(style.GetOr(Medium)) else None
  }

  /** A `Date`: an instant, or the invalid date that a NaN field produces. */
  datatype DateValue = At(ms: int) | InvalidDate

  /** The local midnight that starts the day `now` falls on. */
  function Midnight(now: int): (d: int)
    ensures d <= now < d + DAY_MS && d % DAY_MS == 0
  {
    now - now % DAY_MS
  }

  /** `const [hours, minutes] = time.split(':').map(Number)`; a missing second
      part is `undefined`, which the `Date` constructor reads as NaN. */
  function ClockFields(time: string): (Option<int>, Option<int>)
  {
    var parts := Split(time, ':');
    (ToNumber(parts[0]), if |parts| > 1 then ToNumber(parts[1]) else None)
  }

  /** An in-range "HH:MM" text reads as its hour and minute. */
  lemma ClockFieldsOfHhMm(h: int, m: int)
    requires 0 <= h < 24 && 0 <= m < 60
    ensures ClockFields(HhMm(h, m)) == (Some(h), Some(m))
  {
    HhMmParts(h, m);
    ParseDigits(Pad2(h));
    ParseDigits(Pad2(m));
  }

  /** What the next-fire computation promises for the parsed fields: with a
      NaN field the date is invalid; otherwise it is today at HH:MM:00 when
      that is strictly after `now`, and the same time a day later when it is
      not. */
  ghost predicate IsNextFire(hours: Option<int>, minutes: Option<int>, now: int, at: DateValue)
  {
    if hours.None? || minutes.None? then at == InvalidDate
    else
      var today := Midnight(now) + hours.value * HOUR_MS + minutes.value * MINUTE_MS;
      (at == At(today) && today > now) || (at == At(today + DAY_MS) && today <= now)
  }

  /** The `scheduledTime` of `scheduleNotification` from the parsed fields:
      built for today at that hour and minute, pushed one day on
      (`setDate(getDate() + 1)`) when it is not after `now`. */
  method NextFireInstant(hours: Option<int>, minutes: Option<int>, now: int) returns (at: DateValue)
    ensures IsNextFire(hours, minutes, now, at)
  {
    var scheduledTime: DateValue;
    if hours.Some? && minutes.Some? {
      scheduledTime := At(Midnight(now) + hours.value * HOUR_MS + minutes.value * MINUTE_MS);
    } else {
      scheduledTime := InvalidDate;
    }
    // A comparison with an invalid date is false, so it is never pushed on.
    if scheduledTime.At? && scheduledTime.ms <= now {
      scheduledTime := At(scheduledTime.ms + DAY_MS);
    }
    at := scheduledTime;
  }

  /** For an hour in 0..23 and a minute in 0..59 the next-fire instant lies
      in (now, now + 1 day] and reads as exactly that hour and minute, second
      0. */
  lemma NextFireReadsAsTime(h: int, m: int, now: int, at: DateValue)
    requires 0 <= h < 24 && 0 <= m < 60
    requires IsNextFire(Some(h), Some(m), now, at)
    ensures at.At? && now < at.ms <= now + DAY_MS
    ensures LocalHour(at.ms) == h && LocalMinute(at.ms) == m && LocalSecond(at.ms) == 0
  {
    var offset := h * HOUR_MS + m * MINUTE_MS;
    assert 0 <= offset < DAY_MS;
    NextFireOnTheClock(now, offset, at.ms);
    OffsetReadsAsClock(at.ms, h, m);
  }

  /** An alarm set to "HH:MM" by the picker is scheduled within the coming day
      at exactly that hour and minute. */
  lemma AlarmTimeScheduled(h: int, m: int, now: int, at: DateValue)
    requires 0 <= h < 24 && 0 <= m < 60
    requires IsNextFire(ClockFields(HhMm(h, m)).0, ClockFields(HhMm(h, m)).1, now, at)
    ensures at.At? && now < at.ms <= now + DAY_MS
    ensures LocalHour(at.ms) == h && LocalMinute(at.ms) == m && LocalSecond(at.ms) == 0
  {
    ClockFieldsOfHhMm(h, m);
    NextFireReadsAsTime(h, m, now, at);
  }

  /** The instant chosen from today and tomorrow at an offset within the day. */
  lemma NextFireOnTheClock(now: int, offset: int, at: int)
    requires 0 <= offset < DAY_MS
    requires var today := Midnight(now) + offset;
      (at == today && today > now) || (at == today + DAY_MS && today <= now)
    ensures now < at <= now + DAY_MS
    ensures at % DAY_MS == offset
  {
    var k := now / DAY_MS;
    assert Midnight(now) == k * DAY_MS;
    if at == Midnight(now) + offset {
      DivExact(at, DAY_MS, k, offset);
    } else {
      DivExact(at, DAY_MS, k + 1, offset);
    }
  }

  /** Division by one of the clock's units, from the quotient and remainder. */
  lemma DivExact(x: int, d: int, q: int, r: int)
    requires d == DAY_MS || d == HOUR_MS || d == MINUTE_MS || d == 1000
    requires 0 <= r < d && x == q * d + r
    ensures x / d == q && x % d == r
  {
  }

  /** Local hour, minute and second of an instant. */
  function LocalHour(ms: int): int { ms % DAY_MS / HOUR_MS }
  function LocalMinute(ms: int): int { ms % HOUR_MS / MINUTE_MS }
  function LocalSecond(ms: int): int { ms % MINUTE_MS / 1000 }

  /** An instant that is `h * HOUR_MS + m * MINUTE_MS` into its day reads as
      h:m:00 on a clock. */
  lemma OffsetReadsAsClock(ms: int, h: int, m: int)
    requires 0 <= h < 24 && 0 <= m < 60
    requires ms % DAY_MS == h * HOUR_MS + m * MINUTE_MS
    ensures LocalHour(ms) == h && LocalMinute(ms) == m && LocalSecond(ms) == 0
  {
    var q := ms / DAY_MS;
    assert ms == q * DAY_MS + h * HOUR_MS + m * MINUTE_MS;
    DivExact(ms % DAY_MS, HOUR_MS, h, m * MINUTE_MS);
    DivExact(ms, HOUR_MS, q * 24 + h, m * MINUTE_MS);
    DivExact(m * MINUTE_MS, MINUTE_MS, m, 0);
    DivExact(ms, MINUTE_MS, (q * 24 + h) * 60 + m, 0);
    DivExact(0, 1000, 0, 0);
  }

  /** `alarmId.replace(/\D/g, '').slice(0, 9)`: the first nine of the id's
      digits, or all of them when there are fewer. */
  function IdDigits(alarmId: string): (d: string)
    ensures AllDigits(d) && |d| <= 9
    ensures d <= StripNonDigits(alarmId)
    ensures |d| == 9 || d == StripNonDigits(alarmId)
  {
    var digits := StripNonDigits(alarmId);
    if |digits| <= 9 then digits else digits[..9]
  }

  lemma {:induction false} Pow10Monotone(i: nat, j: nat)
    requires i <= j
    ensures Pow10(i) <= Pow10(j)
  {
    if i < j {
      Pow10Monotone(i, j - 1);
    }
  }

  /** `parseInt` of those digits: NaN exactly when the id has no digit, and
      otherwise their decimal value, a number in [0, 10^9). */
  function ParsedIdDigits(alarmId: string): (r: Option<int>)
    ensures r.None? <==> forall i :: 0 <= i < |alarmId| ==> !IsDigit(alarmId[i])
    ensures r.Some? ==> r.value == DigitsValue(IdDigits(alarmId))
    ensures r.Some? ==> 0 <= r.value < 1000000000
  {
    var d := IdDigits(alarmId);
    StripNonDigitsEmpty(alarmId);
    ParseDigits(d);
    DigitsValueBound(d);
    Pow10Monotone(|d|, 9);
    assert Pow10(9) == 1000000000;
    ParseInt(d)
  }

  /** The id `scheduleNotification` gives the notification:
      `parseInt(...) || Math.floor(Math.random() * 1000000)`. */
  function ScheduledId(alarmId: string, random: int): int
  {
    NumberOr(ParsedIdDigits(alarmId), random)
  }

  /** The id `cancelNotification` cancels: `parseInt(...) || 0`. */
  function CancelledId(alarmId: string): int
  {
    NumberOr(ParsedIdDigits(alarmId), 0)
  }

  /** Scheduling and cancelling agree on the id when the digit prefix reads
      as a non-zero number. Otherwise scheduling uses the random number and
      cancelling uses 0, so they agree only if the random number was 0. */
  lemma ScheduleAndCancelIds(alarmId: string, random: int)
    requires 0 <= random < 1000000
    ensures 0 <= ScheduledId(alarmId, random) < 1000000000
    ensures 0 <= CancelledId(alarmId) < 1000000000
    ensures ParsedIdDigits(alarmId).Some? && ParsedIdDigits(alarmId).value != 0 ==>
      ScheduledId(alarmId, random) == CancelledId(alarmId) == ParsedIdDigits(alarmId).value
    ensures ParsedIdDigits(alarmId).None? || ParsedIdDigits(alarmId).value == 0 ==>
      ScheduledId(alarmId, random) == random && CancelledId(alarmId) == 0
  {
  }

  /** Two alarm ids whose first nine digits agree share one notification id. */
  lemma SharedDigitsCollide(a: string, b: string, random: int)
    requires IdDigits(a) == IdDigits(b)
    ensures ScheduledId(a, random) == ScheduledId(b, random)
    ensures CancelledId(a) == CancelledId(b)
  {
  }

  lemma Pow10Table()
    ensures Pow10(4) == 10000 && Pow10(12) == 1000000000000 && Pow10(13) == 10000000000000
  {
    assert Pow10(1) == 10;
    assert Pow10(2) == 100;
    assert Pow10(3) == 1000;
    assert Pow10(4) == 10000;
    assert Pow10(5) == 100000;
    assert Pow10(6) == 1000000;
    assert Pow10(7) == 10000000;
    assert Pow10(8) == 100000000;
    assert Pow10(9) == 1000000000;
    assert Pow10(10) == 10000000000;
    assert Pow10(11) == 100000000000;
    assert Pow10(12) == 1000000000000;
  }

  lemma DropFourDigits(n: nat)
    ensures DropDigits(n, 4) == n / 10000
  {
    var a := n / 10;
    var b := a / 10;
    var c := b / 10;
    var d := c / 10;
    assert DropDigits(n, 4) == DropDigits(a, 3) == DropDigits(b, 2) == DropDigits(c, 1) == DropDigits(d, 0);
    assert n == 10000 * d + 1000 * (c % 10) + 100 * (b % 10) + 10 * (a % 10) + n % 10;
  }

  /** An id made by `Date.now().toString()` for a 13-digit timestamp gets the
      notification id `t / 10000`: ids created within the same ten-second
      window collide. */
  lemma TimestampIdDigits(t: nat)
    requires 1000000000000 <= t < 10000000000000
    ensures ParsedIdDigits(NatToString(t)) == Some(t / 10000)
  {
    Pow10Table();
    var s := NatToString(t);
    NatToStringLength(t, 13);
    StripNonDigitsOfDigits(s);
    DropFourDigits(t);
    var q := t / 10000;
    NatToStringDropDigits(t, 4);
    assert IdDigits(s) == NatToString(q);
    ParseDigits(NatToString(q));
    NatToStringValue(q);
  }

  /** What `LocalNotifications.schedule` receives. */
  datatype LocalNotification = LocalNotification(
    title: string,
    body: string,
    id: int,
    at: DateValue,
    sound: string,
    actionTypeId: string,
    alarmId: string)

  /** `scheduleNotification(alarm)`: nothing off native; otherwise one
      notification whose body is the label, or "Alarma a las HH:MM" without
      one, whose id comes from the alarm id's digits (falling back to the
      random number), that fires at the next occurrence of the alarm's time,
      and whose extra data carries the alarm id unchanged. */
  method ScheduleNotification(isNative: bool, alarm: Alarm, now: int, random: int)
    returns (request: Option<LocalNotification>)
    requires 0 <= random < 1000000
    ensures request.Some? <==> isNative
    ensures request.Some? ==>
      var n := request.value;
      && n.title == "⏰ Alarma"
      && n.body == StringOr(alarm.labelText, "Alarma a las " + alarm.time)
      && n.id == ScheduledId(alarm.id, random)
      && 0 <= n.id < 1000000000
      && IsNextFire(ClockFields(alarm.time).0, ClockFields(alarm.time).1, now, n.at)
      && n.sound == "beep.wav"
      && n.actionTypeId == ""
      && n.alarmId == alarm.id
  {
    if !isNative {
      return None;
    }
    var (hours, minutes) := ClockFields(alarm.time);
    var scheduledTime := NextFireInstant(hours, minutes, now);
    ScheduleAndCancelIds(alarm.id, random);
    request := Some(LocalNotification(
      "⏰ Alarma",
      StringOr(alarm.labelText, "Alarma a las " + alarm.time),
      ScheduledId(alarm.id, random),
      scheduledTime,
      "beep.wav",
      "",
      alarm.id));
  }

  /** `cancelNotification(alarmId)`: the id handed to
      `LocalNotifications.cancel`, or `None` off native. */
  function CancelNotification(isNative: bool, alarmId: string): (r: Option<int>)
    ensures r.Some? <==> isNative
    ensures r.Some? ==> r.value == CancelledId(alarmId) && 0 <= r.value < 1000000000
  {
    ScheduleAndCancelIds(alarmId, 0);
    if isNative then Some(CancelledId(alarmId)) else None
  }
}
