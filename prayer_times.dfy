/** Next-prayer resolution, time remaining and the display list of
    `lambda/prayerTimesService.js`. Clock times of the timings map are minutes of the
    day; "now" is the second of the day, so that moment's strict `isAfter`, its
    truncating `diff(..., 'minutes')` and the `isNow` flag are stated to the whole
    second (the milliseconds of `moment()` are not modelled). */
module PrayerTimes {
  import opened Common
  import opened Prayers

  /** `moment(time, 'HH:mm').isAfter(now)`: the prayer's start, today, is strictly
      later than now. */
  predicate IsAfter(time: MinuteOfDay, now: SecondOfDay) {
    time * 60 > now
  }

  /** The position in `Order`, from `k` on, of the first prayer after now. */
  function FirstAfter(t: Timings, now: SecondOfDay, k: nat): (r: Option<nat>)
    requires k <= 5
    ensures r.Some? ==> k <= r.value < 5 && IsAfter(t.Of(Order[r.value]), now)
    ensures r.Some? ==> forall j :: k <= j < r.value ==> !IsAfter(t.Of(Order[j]), now)
    ensures r.None? ==> forall j :: k <= j < 5 ==> !IsAfter(t.Of(Order[j]), now)
    decreases 5 - k
  {
    if k == 5 then None
    else if IsAfter(t.Of(Order[k]), now) then Some(k)
    else FirstAfter(t, now, k + 1)
  }

  /** The object `getNextPrayer` returns: the spread prayer entry, `minutesUntil`, and
      either `isNow` (a prayer found today) or `tomorrow: true` (the rollover). */
  datatype NextPrayer = NextPrayer(name: string, nameAr: string, time: MinuteOfDay,
                                   minutesUntil: int, isNow: Option<bool>, tomorrow: bool)

  /** `getNextPrayer(timings)` (lines 110-141). */
  function GetNextPrayer(t: Timings, now: SecondOfDay): (r: NextPrayer)
    ensures r.minutesUntil >= 0
    ensures r.tomorrow <==> forall i :: 0 <= i < 5 ==> !IsAfter(t.Of(Order[i]), now)
    ensures r.tomorrow ==> r.isNow.None? && r.name == "Fajr" && r.nameAr == "الفجر" && r.time == t.fajr
    ensures r.tomorrow ==> r.minutesUntil == (t.fajr * 60 + 86400 - now) / 60
    ensures !r.tomorrow ==> IsAfter(r.time, now) && r.minutesUntil == (r.time * 60 - now) / 60
    ensures !r.tomorrow ==> r.isNow == Some(r.minutesUntil == 0)
  {
    match FirstAfter(t, now, 0)
    case Some(i) =>
      var p := Order[i];
      var minutesUntil := (t.Of(p) * 60 - now) / 60;
      NextPrayer(English(p), Arabic(p), t.Of(p), minutesUntil, Some(minutesUntil == 0), false)
    case None =>
      NextPrayer("Fajr", "الفجر", t.fajr, (t.fajr * 60 + 86400 - now) / 60, None, true)
  }

  /** The result is the first prayer, in the order Fajr, Dhuhr, Asr, Maghrib, Isha,
      whose time is strictly after now, with the truncated minutes to it. */
  lemma NextPrayerIsFirstAfter(t: Timings, now: SecondOfDay, i: nat)
    requires i < 5 && IsAfter(t.Of(Order[i]), now)
    requires forall j :: 0 <= j < i ==> !IsAfter(t.Of(Order[j]), now)
    ensures var r := GetNextPrayer(t, now);
            && r.name == English(Order[i]) && r.nameAr == Arabic(Order[i]) && r.time == t.Of(Order[i])
            && !r.tomorrow
            && r.minutesUntil * 60 <= t.Of(Order[i]) * 60 - now < r.minutesUntil * 60 + 60
  {
    var r := FirstAfter(t, now, 0);
    assert r.Some? && r.value == i;
  }

  /** A prayer whose time is exactly now is never the one found today. */
  lemma PrayerAtNowNotSelected(t: Timings, now: SecondOfDay, p: Prayer)
    requires t.Of(p) * 60 == now
    ensures GetNextPrayer(t, now).tomorrow || GetNextPrayer(t, now).name != English(p)
  {
  }

  /** `isNow` holds exactly when the prayer starts within the current minute. */
  lemma IsNowWithinOneMinute(t: Timings, now: SecondOfDay)
    requires !GetNextPrayer(t, now).tomorrow
    ensures GetNextPrayer(t, now).isNow == Some(true) <==> GetNextPrayer(t, now).time * 60 - now < 60
  {
  }

  /** The seconds from now to the next occurrence of a `HH:mm` time: today's when it is
      not before now, tomorrow's otherwise (`getTimeUntilPrayer`, lines 202-207). */
  function SecondsUntil(time: MinuteOfDay, now: SecondOfDay): (d: int)
    ensures 0 <= d < 86400
    ensures (now + d) % 86400 == time * 60
    ensures d == time * 60 - now <==> time * 60 >= now
  {
    if time * 60 < now then time * 60 + 86400 - now else time * 60 - now
  }

  /** What `getTimeUntilPrayer` says: hours and minutes, minutes only, or "now". */
  datatype Remaining = HoursAndMinutes(hours: nat, minutes: nat) | Minutes(minutes: nat) | Now

  /** `Math.floor(duration.asHours())` and `duration.minutes()`, then the choice of
      message (lines 209-219). */
  function RemainingOf(d: nat): (r: Remaining)
    ensures r.HoursAndMinutes? <==> d >= 3600
    ensures r.Minutes? <==> 60 <= d < 3600
    ensures r.Now? <==> d < 60
    ensures r.HoursAndMinutes? ==>
              (r.minutes < 60 && r.hours * 3600 + r.minutes * 60 <= d < r.hours * 3600 + r.minutes * 60 + 60)
    ensures r.Minutes? ==> 1 <= r.minutes < 60 && r.minutes * 60 <= d < r.minutes * 60 + 60
  {
    var hours := d / 3600;
    var minutes := (d / 60) % 60;
    if hours > 0 then HoursAndMinutes(hours, minutes)
    else if minutes > 0 then Minutes(minutes)
    else Now
  }

  function Render(r: Remaining): string {
    match r
    case HoursAndMinutes(h, m) => "بعد " + NatToString(h) + " ساعة و " + NatToString(m) + " دقيقة"
    case Minutes(m) => "بعد " + NatToString(m) + " دقيقة"
    case Now => "الآن"
  }

  /** `getTimeUntilPrayer(prayerTime)`. */
  function TimeUntilPrayer(time: MinuteOfDay, now: SecondOfDay): (r: string)
    ensures r == "الآن" <==> SecondsUntil(time, now) < 60
    ensures SecondsUntil(time, now) >= 60 ==> "بعد " <= r
  {
    var rem := RemainingOf(SecondsUntil(time, now));
    if rem.Now? then "الآن"
    else
      assert Render(rem)[..4] == "بعد ";
      Render(rem)
  }

  /** The message names the hours and minutes exactly when at least an hour remains,
      the minutes alone between one minute and an hour, and says "now" below a minute. */
  lemma TimeUntilThreeMessages(time: MinuteOfDay, now: SecondOfDay)
    ensures var d := SecondsUntil(time, now);
            && (d >= 3600 ==>
                  TimeUntilPrayer(time, now)
                  == "بعد " + NatToString(d / 3600) + " ساعة و " + NatToString((d / 60) % 60) + " دقيقة")
            && (60 <= d < 3600 ==> TimeUntilPrayer(time, now) == "بعد " + NatToString(d / 60) + " دقيقة")
            && (d < 60 ==> TimeUntilPrayer(time, now) == "الآن")
  {
  }

  /** One row of `formatPrayersForDisplay`. */
  datatype DisplayEntry = DisplayEntry(name: string, nameEn: string, time: MinuteOfDay, icon: string,
                                       description: string, isNotPrayer: bool)

  function Icon(p: Prayer): string {
    match p
    case Fajr => "\U{1F305}"
    case Dhuhr => "\U{2600}\U{FE0F}"
    case Asr => "\U{1F324}\U{FE0F}"
    case Maghrib => "\U{1F307}"
    case Isha => "\U{1F319}"
  }

  function PrayerEntry(t: Timings, p: Prayer): DisplayEntry {
    DisplayEntry(Arabic(p), English(p), t.Of(p), Icon(p), "صلاة " + Arabic(p), false)
  }

  /** `formatPrayersForDisplay(timings)` (lines 148-194): Fajr, Sunrise, Dhuhr, Asr,
      Maghrib, Isha, with Sunrise the only entry that is not a prayer. */
  function FormatPrayersForDisplay(t: Timings): (r: seq<DisplayEntry>)
    ensures |r| == 6
    ensures forall i :: 0 <= i < 6 ==> (r[i].isNotPrayer <==> i == 1)
    ensures r[1].nameEn == "Sunrise" && r[1].time == t.sunrise
    ensures forall i :: 0 <= i < 5 ==> r[if i == 0 then 0 else i + 1] == PrayerEntry(t, Order[i])
  {
    [PrayerEntry(t, Fajr),
     DisplayEntry("الشروق", "Sunrise", t.sunrise, "\U{2600}\U{FE0F}", "وقت الشروق", true),
     PrayerEntry(t, Dhuhr), PrayerEntry(t, Asr), PrayerEntry(t, Maghrib), PrayerEntry(t, Isha)]
  }

  /** Without Sunrise, the display lists the five prayers in order with their times. */
  lemma DisplayWithoutSunrise(t: Timings)
    ensures var r := FormatPrayersForDisplay(t);
            var prayers := [r[0]] + r[2..];
            |prayers| == 5 && forall i :: 0 <= i < 5 ==>
              prayers[i].nameEn == English(Order[i]) && prayers[i].time == t.Of(Order[i])
              && !prayers[i].isNotPrayer
  {
    var r := FormatPrayersForDisplay(t);
    var prayers := [r[0]] + r[2..];
    forall i | 0 <= i < 5
      ensures prayers[i] == PrayerEntry(t, Order[i])
    {
      assert r[if i == 0 then 0 else i + 1] == PrayerEntry(t, Order[i]);
    }
  }
}
