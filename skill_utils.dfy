/** The utility functions of the skill's entry point, `lambda/index.js`: the simpler
    next-prayer lookup, the Arabic-name-to-key mapping and the APL data source of the
    prayer-times screen. */
module SkillUtils {
  import opened Common
  import opened Prayers
  import PrayerTimes

  /** `PRAYER_NAMES[name]` (lines 18-24): the Arabic name of each English key. */
  function PrayerNameAr(p: Prayer): (r: string)
    ensures r == Arabic(p)
  {
    match p
    case Fajr => "الفجر"
    case Dhuhr => "الظهر"
    case Asr => "العصر"
    case Maghrib => "المغرب"
    case Isha => "العشاء"
  }

  /** `{ name, nameAr, time }`. */
  datatype PrayerRef = PrayerRef(name: string, nameAr: string, time: MinuteOfDay)

  /** `getNextPrayer(prayerTimes)` (lines 421-442): the first prayer after now, or
      Fajr with today's Fajr time when none is left (no rollover flag, no minutes). */
  function GetNextPrayer(t: Timings, now: SecondOfDay): (r: PrayerRef)
    ensures exists i :: 0 <= i < 5 && r == PrayerRef(English(Order[i]), PrayerNameAr(Order[i]), t.Of(Order[i]))
    ensures (forall i :: 0 <= i < 5 ==> !PrayerTimes.IsAfter(t.Of(Order[i]), now))
            ==> r == PrayerRef("Fajr", "الفجر", t.fajr)
  {
    match PrayerTimes.FirstAfter(t, now, 0)
    case Some(i) =>
      PrayerRef(English(Order[i]), PrayerNameAr(Order[i]), t.Of(Order[i]))
    case None =>
      assert Order[0] == Fajr;
      PrayerRef("Fajr", PrayerNameAr(Fajr), t.fajr)
  }

  /** The result is the first prayer strictly after now, in list order. */
  lemma NextPrayerIsFirstAfter(t: Timings, now: SecondOfDay, i: nat)
    requires i < 5 && PrayerTimes.IsAfter(t.Of(Order[i]), now)
    requires forall j :: 0 <= j < i ==> !PrayerTimes.IsAfter(t.Of(Order[j]), now)
    ensures GetNextPrayer(t, now) == PrayerRef(English(Order[i]), Arabic(Order[i]), t.Of(Order[i]))
  {
    var r := PrayerTimes.FirstAfter(t, now, 0);
    assert r.Some? && r.value == i;
  }

  /** Both lookups name the same prayer with the same Arabic name and time; they
      differ only in the fields the service adds. */
  lemma AgreesWithService(t: Timings, now: SecondOfDay)
    ensures var a := GetNextPrayer(t, now);
            var b := PrayerTimes.GetNextPrayer(t, now);
            a.name == b.name && a.nameAr == b.nameAr && a.time == b.time
  {
    assert Order[0] == Fajr;
  }

  /** `getPrayerKeyFromArabic(arabicName)` (lines 447-462): the key of an Arabic prayer
      name given with or without the article; undefined for anything else. */
  function GetPrayerKeyFromArabic(arabicName: string): (r: Option<Prayer>)
    ensures forall p :: (r == Some(p)) == (arabicName == Arabic(p) || arabicName == ArabicBare(p))
  {
    if arabicName == "الفجر" || arabicName == "فجر" then Some(Fajr)
    else if arabicName == "الظهر" || arabicName == "ظهر" then Some(Dhuhr)
    else if arabicName == "العصر" || arabicName == "عصر" then Some(Asr)
    else if arabicName == "المغرب" || arabicName == "مغرب" then Some(Maghrib)
    else if arabicName == "العشاء" || arabicName == "عشاء" then Some(Isha)
    else None
  }

  /** Both spellings of every prayer map back to it, and the article can be dropped. */
  lemma ArabicKeyRoundTrip(p: Prayer)
    ensures GetPrayerKeyFromArabic(Arabic(p)) == Some(p)
    ensures GetPrayerKeyFromArabic(ArabicBare(p)) == Some(p)
    ensures GetPrayerKeyFromArabic("ال" + ArabicBare(p)) == Some(p)
  {
    ArabicHasArticle(p);
  }

  /** One prayer of the APL screen. */
  datatype APLPrayer = APLPrayer(name: string, time: MinuteOfDay, icon: string)

  datatype APLDataSource = APLDataSource(city: string, date: string, hijriDate: string,
                                         prayers: seq<APLPrayer>)

  /** `generateAPLDataSource(prayerTimes, city)` (lines 485-523); `date` is the clock's
      `DD/MM/YYYY` rendering, passed in. */
  function GenerateAPLDataSource(t: Timings, city: string, date: string): (r: APLDataSource)
    ensures r.city == city && r.date == date && r.hijriDate == ""
    ensures |r.prayers| == 5
    ensures forall i :: 0 <= i < 5 ==> r.prayers[i].name == Arabic(Order[i]) && r.prayers[i].time == t.Of(Order[i])
    ensures forall i :: 0 <= i < 5 ==> r.prayers[i].icon == PrayerTimes.Icon(Order[i])
  {
    APLDataSource(city, date, "",
                  [APLEntry(t, Fajr), APLEntry(t, Dhuhr), APLEntry(t, Asr), APLEntry(t, Maghrib), APLEntry(t, Isha)])
  }

  function APLEntry(t: Timings, p: Prayer): APLPrayer {
    APLPrayer(Arabic(p), t.Of(p), PrayerTimes.Icon(p))
  }
}
