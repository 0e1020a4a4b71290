/** The daily dhikr service of `lambda/dhikrService.js`: the collection of eight
    adhkar, the daily pick by category, the selection by time of day, the spoken
    message and the APL data with their language fallback, and the reminder schedules.
    The day of the year, which the service reads from the clock, is a parameter.

    An entry of the collection is split in two: the fields the selection reads (id,
    category, count, time) and its wording (the Arabic text, transliteration,
    translation and reward), looked up by id. `ToDhikr` puts them back together into
    the object the service hands out. */
module Dhikr {
  import opened Common


  /** The fields of a `DHIKR_COLLECTION` entry that the selection reads. */
  datatype Entry = Entry(id: nat, category: string, count: nat, time: string)

  /** `DHIKR_COLLECTION` (lines 8-153), without the wording. */
  const Collection: seq<Entry> := [Entry(1, "morning", 100, "morning"),
                                   Entry(2, "morning", 33, "after_prayer"),
                                   Entry(3, "evening", 3, "evening"),
                                   Entry(4, "general", 10, "anytime"),
                                   Entry(5, "morning", 4, "morning"),
                                   Entry(6, "before_sleep", 1, "before_sleep"),
                                   Entry(7, "ayat_kursi", 1, "before_sleep"),
                                   Entry(8, "istighfar", 100, "anytime")]

  /** The texts of an entry. */
  datatype Wording = Wording(arabic: string, transliteration: string, translation: Texts, reward: Texts)

  /** The wording of the entry with id `id` (lines 8-153). */
  function WordingOf(id: nat): Wording
    requires 1 <= id <= 8
  {
    match id
    case 1 =>
      Wording("سُبْحَانَ اللهِ وَبِحَمْدِهِ",
              "SubhanAllahi wa bihamdihi",
              Texts("سبحان الله وبحمده",
                    "Gloire et louange à Allah",
                    "Glory and praise be to Allah"),
              Texts(("من قالها مائة مرة حُطَّتْ " + "خطاياه وإن كانت مثل زبد البحر"),
                    ("Celui qui la récite 100 fois, " + "ses péchés seront effacés " + "même s'ils sont comme l'écume " + "de la mer"),
                    ("Whoever says it 100 times, " + "his sins will be forgiven " + "even if they are like the " + "foam of the sea")))
    case 2 =>
      Wording(("سُبْحَانَ اللهِ وَالْحَمْدُ " + "لِلَّهِ وَلاَ إِلَهَ إِلاَّ " + "اللهُ وَاللهُ أَكْبَرُ"),
              ("SubhanAllah, walhamdulillah, " + "wa la ilaha illallah, wallahu akbar"),
              Texts(("سبحان الله والحمد لله ولا إله " + "إلا الله والله أكبر"),
                    ("Gloire à Allah, louange à " + "Allah, il n'y a de divinité " + "qu'Allah, Allah est le plus Grand"),
                    ("Glory be to Allah, praise be " + "to Allah, there is no god but " + "Allah, Allah is the Greatest")),
              Texts("أحب الكلام إلى الله",
                    "Les paroles les plus aimées d'Allah",
                    "The most beloved words to Allah"))
    case 3 =>
      Wording(("أَعُوذُ بِكَلِمَاتِ اللَّهِ " + "التَّامَّاتِ مِنْ شَرِّ مَا خَلَقَ"),
              ("A'udhu bikalimatillahit-tammat" + "i min sharri ma khalaq"),
              Texts("أعوذ بكلمات الله التامات من شر ما خلق",
                    ("Je cherche refuge auprès des " + "paroles parfaites d'Allah " + "contre le mal de ce qu'Il a créé"),
                    ("I seek refuge in the perfect " + "words of Allah from the evil " + "of what He has created")),
              Texts("من قالها لم يضره شيء",
                    ("Celui qui la dit ne sera pas " + "touché par le mal"),
                    ("Whoever says it will not be " + "harmed by anything")))
    case 4 =>
      Wording(("لاَ إِلَهَ إِلاَّ اللهُ " + "وَحْدَهُ لاَ شَرِيكَ لَهُ، " + "لَهُ الْمُلْكُ وَلَهُ " + "الْحَمْدُ وَهُوَ عَلَى كُلِّ " + "شَيْءٍ قَدِيرٌ"),
              ("La ilaha illallahu wahdahu la " + "sharika lah, lahul-mulku " + "walahul-hamdu wahuwa 'ala " + "kulli shay'in qadir"),
              Texts(("لا إله إلا الله وحده لا شريك " + "له له الملك وله الحمد وهو على " + "كل شيء قدير"),
                    ("Il n'y a de divinité qu'Allah," + " Unique, sans associé. A Lui " + "la royauté, à Lui la louange " + "et Il est capable de toute chose"),
                    ("There is no god but Allah " + "alone, without partner. His " + "is the dominion and His is " + "the praise, and He is capable " + "of all things")),
              Texts(("من قالها عشر مرات كمن أعتق " + "أربعة أنفس من ولد إسماعيل"),
                    ("Celui qui la dit 10 fois, " + "c'est comme s'il avait " + "affranchi quatre esclaves des " + "descendants d'Ismaël"),
                    ("Whoever says it 10 times, it " + "is as if he freed four slaves " + "from the descendants of Ismail")))
    case 5 =>
      Wording(("اللَّهُمَّ إِنِّي أَصْبَحْتُ " + "أُشْهِدُكَ وَأُشْهِدُ " + "حَمَلَةَ عَرْشِكَ " + "وَمَلاَئِكَتَكَ وَجَمِيعَ " + "خَلْقِكَ أَنَّكَ أَنْتَ اللهُ " + "لاَ إِلَهَ إِلاَّ أَنْتَ " + "وَأَنَّ مُحَمَّداً عَبْدُكَ " + "وَرَسُولُكَ"),
              ("Allahumma inni asbaḥtu " + "ushhiduka wa ushhidu ḥamalata " + "'arshika wa mala'ikataka wa " + "jami'a khalqika annaka " + "antallahu la ilaha illa anta " + "wa anna Muhammadan 'abduka wa rasuluk"),
              Texts(("اللهم إني أصبحت أشهدك وأشهد " + "حملة عرشك وملائكتك وجميع خلقك " + "أنك أنت الله لا إله إلا أنت " + "وأن محمداً عبدك ورسولك"),
                    ("Ô Allah, je Te prends à " + "témoin ainsi que les porteurs " + "de Ton Trône, Tes anges et " + "toutes Tes créatures que Tu " + "es Allah, il n'y a de " + "divinité que Toi et que " + "Muhammad est Ton serviteur et " + "Ton messager"),
                    ("O Allah, I bear witness to " + "You and I call to witness the " + "bearers of Your Throne, Your " + "angels and all Your creation " + "that You are Allah, there is " + "no god but You, and that " + "Muhammad is Your servant and messenger")),
              Texts("من قالها مرة أعتق الله ربعه من النار",
                    ("Celui qui la dit une fois, " + "Allah affranchit un quart de " + "lui du Feu"),
                    ("Whoever says it once, Allah " + "will free a quarter of him " + "from the Fire")))
    case 6 =>
      Wording("بِاسْمِكَ اللَّهُمَّ أَمُوتُ وَأَحْيَا",
              "Bismika Allahumma amutu wa ahya",
              Texts("باسمك اللهم أموت وأحيا",
                    "En Ton nom, Ô Allah, je meurs et je vis",
                    "In Your name, O Allah, I die and I live"),
              Texts("دعاء قبل النوم",
                    "Invocation avant de dormir",
                    "Supplication before sleep"))
    case 7 =>
      Wording(("اللَّهُ لاَ إِلَهَ إِلاَّ " + "هُوَ الْحَيُّ الْقَيُّومُ لاَ " + "تَأْخُذُهُ سِنَةٌ وَلاَ " + "نَوْمٌ لَّهُ مَا فِي " + "السَّمَاوَاتِ وَمَا فِي الأَرْضِ"),
              ("Allahu la ilaha illa " + "Huwal-Hayyul-Qayyum, la " + "ta'khudhuhu sinatun wala nawm," + " lahu ma fis-samawati wa ma fil-ard"),
              Texts("الله لا إله إلا هو الحي القيوم",
                    ("Allah, point de divinité à " + "part Lui, le Vivant, Celui " + "qui subsiste par Lui-même"),
                    ("Allah - there is no deity " + "except Him, the Ever-Living, " + "the Sustainer of existence")),
              Texts(("من قرأها في ليلة لم يزل عليه " + "من الله حافظ"),
                    ("Celui qui la récite la nuit, " + "Allah le protégera"),
                    ("Whoever recites it at night, " + "Allah will protect him")))
    case _ =>
      Wording(("أَسْتَغْفِرُ اللهَ الَّذِي " + "لاَ إِلَهَ إِلاَّ هُوَ " + "الْحَيُّ الْقَيُّومُ " + "وَأَتُوبُ إِلَيْهِ"),
              ("Astaghfirullah alladhi la " + "ilaha illa Huwal-Hayyul-Qayyum" + " wa atubu ilayh"),
              Texts(("أستغفر الله الذي لا إله إلا " + "هو الحي القيوم وأتوب إليه"),
                    ("Je demande pardon à Allah, il " + "n'y a de divinité que Lui, le " + "Vivant, Celui qui subsiste " + "par Lui-même, et je me repens à Lui"),
                    ("I seek forgiveness from Allah," + " there is no god but Him, the " + "Ever-Living, the Sustainer, " + "and I repent to Him")),
              Texts("يغفر له وإن كان فر من الزحف",
                    ("Il lui sera pardonné même " + "s'il a fui le combat"),
                    ("He will be forgiven even if " + "he fled from battle")))
  }

  /** A dhikr object: `{ id, category, arabic, transliteration, translation, reward,
      count, time }`. */
  datatype Dhikr = Dhikr(id: nat, category: string, arabic: string, transliteration: string,
                         translation: Texts, reward: Texts, count: nat, time: string)

  /** The full object of a collection entry. */
  function ToDhikr(e: Entry): (d: Dhikr)
    requires e in Collection
    ensures d.id == e.id && d.category == e.category && d.count == e.count && d.time == e.time
  {
    var w := WordingOf(e.id);
    Dhikr(e.id, e.category, w.arabic, w.transliteration, w.translation, w.reward, e.count, e.time)
  }

  /** The ids tell the entries apart. */
  lemma IdsDistinct(i: nat, j: nat)
    requires i < j < |Collection|
    ensures Collection[i].id != Collection[j].id
  {
  }

  /** `r` is `s` with some elements left out, the rest in their order. */
  predicate SubsequenceOf(r: seq<Entry>, s: seq<Entry>)
    decreases |s|
  {
    if r == [] then true
    else if s == [] then false
    else (r[0] == s[0] && SubsequenceOf(r[1..], s[1..])) || SubsequenceOf(r, s[1..])
  }

  /** The filter of line 161. */
  predicate ForCategory(category: string, d: Entry) {
    d.category == category || d.time == category
  }

  /** `filter(d => d.category === category || d.time === category)`: the entries of
      `s` in that category or at that time, in order. */
  function ByCategory(s: seq<Entry>, category: string): (r: seq<Entry>)
    ensures SubsequenceOf(r, s)
    ensures forall x :: x in r <==> x in s && ForCategory(category, x)
  {
    if s == [] then []
    else
      var rest := ByCategory(s[1..], category);
      if ForCategory(category, s[0]) then
        assert ([s[0]] + rest)[1..] == rest;
        [s[0]] + rest
      else
        assert [] + rest == rest;
        rest
  }

  /** The candidates of `getDailyDhikr` (lines 161-162): the entries whose category or
      time is `category`, or the whole collection when there are none. */
  function Candidates(category: string): (r: seq<Entry>)
    ensures |r| > 0 && SubsequenceOf(r, Collection)
    ensures forall x :: x in r ==> x in Collection
    ensures (exists x :: x in Collection && ForCategory(category, x)) ==>
              (forall x :: x in r <==> x in Collection && ForCategory(category, x))
    ensures (forall x :: x in Collection ==> !ForCategory(category, x)) ==> r == Collection
  {
    var filtered := ByCategory(Collection, category);
    if |filtered| > 0 then
      assert filtered[0] in filtered;
      filtered
    else Collection
  }

  /** `dhikrs[dayOfYear % dhikrs.length]` (lines 165-168). */
  function Pick(dhikrs: seq<Entry>, dayOfYear: nat): (r: Entry)
    requires |dhikrs| > 0
    ensures r in dhikrs
  {
    dhikrs[dayOfYear % |dhikrs|]
  }

  /** The pick repeats after as many days as there are entries. */
  lemma PickCycles(dhikrs: seq<Entry>, dayOfYear: nat)
    requires |dhikrs| > 0
    ensures Pick(dhikrs, dayOfYear + |dhikrs|) == Pick(dhikrs, dayOfYear)
  {
    ModCycle(dayOfYear, |dhikrs|);
  }

  /** Over the first days the pick takes the entries in order, so each one has its day. */
  lemma PickReaches(dhikrs: seq<Entry>, i: nat)
    requires i < |dhikrs|
    ensures Pick(dhikrs, i) == dhikrs[i]
  {
    ModUnique(i, |dhikrs|, 0, i);
  }

  /** `getDailyDhikr(category)` (lines 160-169) on day `dayOfYear` of the year: the
      candidates taken in turn, one a day. */
  function GetDailyDhikr(category: string, dayOfYear: nat): (r: Entry)
    ensures r in Candidates(category) && r in Collection
    ensures (exists x :: x in Collection && ForCategory(category, x)) ==> ForCategory(category, r)
    ensures (forall x :: x in Collection ==> !ForCategory(category, x)) ==> r == Collection[dayOfYear % 8]
  {
    Pick(Candidates(category), dayOfYear)
  }

  /** The daily pick repeats after as many days as there are candidates, and every
      candidate is the dhikr of some day. */
  lemma DailyDhikrCycles(category: string, dayOfYear: nat)
    ensures GetDailyDhikr(category, dayOfYear + |Candidates(category)|) == GetDailyDhikr(category, dayOfYear)
  {
    PickCycles(Candidates(category), dayOfYear);
  }

  lemma EveryCandidateHasItsDay(category: string, x: Entry)
    requires x in Candidates(category)
    ensures exists day: nat :: GetDailyDhikr(category, day) == x
  {
    var c := Candidates(category);
    var i :| 0 <= i < |c| && c[i] == x;
    PickReaches(c, i);
    assert GetDailyDhikr(category, i) == x;
  }

  /** The general category, the default one, has a single candidate, the fourth
      entry, so its dhikr is the same every day. */
  lemma GeneralCandidates(c: string)
    requires c == "general"
    ensures forall x :: x in Candidates(c) <==> x == Collection[3]
    ensures forall day: nat :: GetDailyDhikr(c, day) == Collection[3]
  {
    assert ForCategory(c, Collection[3]);
    forall x | x in Collection && ForCategory(c, x)
      ensures x == Collection[3]
    {
      var i :| 0 <= i < |Collection| && Collection[i] == x;
      assert i == 3;
    }
  }

  /** The filter of line 186. */
  predicate AtTime(time: string, d: Entry) {
    d.time == time || d.time == "anytime"
  }

  /** `filter(d => d.time === time || d.time === 'anytime')` on `s`. */
  function ByTime(s: seq<Entry>, time: string): (r: seq<Entry>)
    ensures SubsequenceOf(r, s)
    ensures forall x :: x in r <==> x in s && AtTime(time, x)
  {
    if s == [] then []
    else
      var rest := ByTime(s[1..], time);
      if AtTime(time, s[0]) then
        assert ([s[0]] + rest)[1..] == rest;
        [s[0]] + rest
      else
        assert [] + rest == rest;
        rest
  }

  /** `getDhikrByTime(time)` (lines 185-187): the entries of that time of day and those
      for any time, in collection order. */
  function GetDhikrByTime(time: string): (r: seq<Entry>)
    ensures SubsequenceOf(r, Collection)
    ensures forall x :: x in r <==> x in Collection && (x.time == time || x.time == "anytime")
  {
    ByTime(Collection, time)
  }

  /** The entries for any time are offered whatever the time asked for. */
  lemma AnytimeAlwaysOffered(time: string)
    ensures Collection[3] in GetDhikrByTime(time) && Collection[7] in GetDhikrByTime(time)
  {
  }

  /** For a time no entry names, only the entries for any time are offered. */
  lemma OnlyAnytimeOtherwise(time: string)
    requires forall x :: x in Collection ==> x.time != time
    ensures forall x :: x in GetDhikrByTime(time) <==> x == Collection[3] || x == Collection[7]
  {
    forall x | x in Collection && x.time == "anytime"
      ensures x == Collection[3] || x == Collection[7]
    {
      var i :| 0 <= i < |Collection| && Collection[i] == x;
      assert i == 3 || i == 7;
    }
  }

  // ---------------------------------------------------------------------------
  // The spoken message and the APL data.

  /** The template of line 201, 202 or 203, split into its pieces. */
  function MessagePieces(l: Lang, d: Dhikr): (ps: seq<string>)
    ensures |ps| == 9
    ensures ps[1] == d.arabic && ps[3] == d.translation.In(l) && ps[5] == d.reward.In(l)
    ensures ps[7] == NatToString(d.count)
  {
    match l
    case Ar => ["ذكر اليوم: ", d.arabic, ". ", d.translation.ar, ". ", d.reward.ar, ". يُكرر ", NatToString(d.count), " مرة."]
    case Fr => ["Dhikr du jour: ", d.arabic, ". Traduction: ", d.translation.fr, ". Mérite: ", d.reward.fr,
                ". À répéter ", NatToString(d.count), " fois."]
    case En => ["Daily Dhikr: ", d.arabic, ". Translation: ", d.translation.en, ". Reward: ", d.reward.en,
                ". Repeat ", NatToString(d.count), " times."]
  }

  /** `formatDhikrMessage(dhikr, locale)` (lines 195-207): the message of the locale's
      language, Arabic by default, naming the dhikr, its translation, its reward and
      how many times to repeat it. */
  function FormatDhikrMessage(d: Dhikr, locale: string): (r: string)
    ensures Infix(NatToString(d.count), r)
    ensures Infix(d.arabic, r)
    ensures Infix(d.translation.In(LangOrArabic(locale)), r)
    ensures Infix(d.reward.In(LangOrArabic(locale)), r)
  {
    var ps := MessagePieces(LangOrArabic(locale), d);
    ConcatHasPiece(ps, 1);
    ConcatHasPiece(ps, 3);
    ConcatHasPiece(ps, 5);
    ConcatHasPiece(ps, 7);
    Concat(ps)
  }

  /** A locale whose language is not Arabic, French or English gets the Arabic message. */
  lemma UnknownLanguageIsArabic(d: Dhikr, locale: string)
    requires LangOf(BeforeDash(locale)).None?
    ensures FormatDhikrMessage(d, locale) == FormatDhikrMessage(d, "ar-SA")
  {
    BeforeDashOfConcat("ar", "SA");
    assert "ar" + "-" + "SA" == "ar-SA";
  }

  /** The three languages open their messages differently, so the language chosen can
      be read off the message. */
  lemma MessageOpensInItsLanguage(d: Dhikr, locale: string)
    ensures LangOrArabic(locale) == Ar ==> "ذكر اليوم: " <= FormatDhikrMessage(d, locale)
    ensures LangOrArabic(locale) == Fr ==> "Dhikr du jour: " <= FormatDhikrMessage(d, locale)
    ensures LangOrArabic(locale) == En ==> "Daily Dhikr: " <= FormatDhikrMessage(d, locale)
  {
  }

  /** The `properties` of `generateDhikrAPLData`. */
  datatype DhikrView = DhikrView(arabic: string, transliteration: string, translation: string,
                                 reward: string, count: nat, category: string, time: string)

  /** `generateDhikrAPLData(dhikr, locale)` (lines 215-234): the dhikr with the
      translation and reward of one language, Arabic by default. */
  function GenerateDhikrAPLData(d: Dhikr, locale: string): (r: DhikrView)
    ensures r.arabic == d.arabic && r.transliteration == d.transliteration
    ensures r.count == d.count && r.category == d.category && r.time == d.time
    ensures r.translation in {d.translation.ar, d.translation.fr, d.translation.en}
    ensures LangOf(BeforeDash(locale)).None? ==> r.translation == d.translation.ar && r.reward == d.reward.ar
    ensures LangOf(BeforeDash(locale)) == Some(Ar) ==> r.translation == d.translation.ar && r.reward == d.reward.ar
    ensures LangOf(BeforeDash(locale)) == Some(Fr) ==> r.translation == d.translation.fr && r.reward == d.reward.fr
    ensures LangOf(BeforeDash(locale)) == Some(En) ==> r.translation == d.translation.en && r.reward == d.reward.en
  {
    var l := LangOrArabic(locale);
    DhikrView(d.arabic, d.transliteration, d.translation.In(l), d.reward.In(l), d.count, d.category, d.time)
  }

  /** The screen and the speech use the same language: what the screen shows is said. */
  lemma ScreenMatchesSpeech(d: Dhikr, locale: string)
    ensures Infix(GenerateDhikrAPLData(d, locale).translation, FormatDhikrMessage(d, locale))
    ensures Infix(GenerateDhikrAPLData(d, locale).reward, FormatDhikrMessage(d, locale))
  {
  }

  // ---------------------------------------------------------------------------
  // Reminder schedules.

  /** One reminder of a schedule, at a minute of the day (`'07:00'` is 420). */
  datatype Reminder = Reminder(time: nat, category: string, name: string)

  /** `scheduleDhikrReminders(time)` (lines 241-259), with the morning schedule for any
      other key. */
  function ScheduleDhikrReminders(time: string): (r: seq<Reminder>)
    ensures |r| == (if time == "both" then 3 else 2)
    ensures forall i, j :: 0 <= i < j < |r| ==> r[i].time < r[j].time
    ensures forall i :: 0 <= i < |r| ==> r[i].time < 24 * 60
    ensures time == "both" ==> r[0].category == "morning" && r[1].category == "evening"
  {
    var morning := Reminder(7 * 60, "morning", "Morning Dhikr");
    var evening := Reminder(18 * 60, "evening", "Evening Dhikr");
    var sleep := Reminder(21 * 60, "before_sleep", "Before Sleep Dhikr");
    if time == "evening" then [evening, sleep]
    else if time == "both" then [morning, evening, sleep]
    else [morning, Reminder(9 * 60, "general", "General Dhikr")]
  }

  /** Any key other than the three schedules gets the morning schedule. */
  lemma UnknownScheduleIsMorning(time: string)
    requires time != "morning" && time != "evening" && time != "both"
    ensures ScheduleDhikrReminders(time) == ScheduleDhikrReminders("morning")
  {
  }

  /** Every reminder names a category with adhkar of its own, so the dhikr it announces
      never comes from the whole-collection fallback. */
  lemma ScheduledCategoriesHaveAdhkar(time: string, i: nat)
    requires i < |ScheduleDhikrReminders(time)|
    ensures exists x :: x in Collection && x.category == ScheduleDhikrReminders(time)[i].category
  {
    var c := ScheduleDhikrReminders(time)[i].category;
    var k := if c == "morning" then 0 else if c == "general" then 3 else if c == "evening" then 2 else 5;
    assert Collection[k].category == c;
  }
}
