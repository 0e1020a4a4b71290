/** The duaa service of `lambda/duaaService.js`: which duaa goes with a prayer, the
    after-prayer sequence, the SSML message built piece by piece, the APL data and the
    reminder that announces a prayer with a duaa. A duaa of the collection is named by
    `DuaaName`; `DuaaOf` gives its texts. */
module Duaa {
  import opened Common
  import opened Prayers

  /** A duaa object. `reward`, `count` and `audio` are absent from some entries. */
  datatype Duaa = Duaa(arabic: string, transliteration: string, translation: Texts,
                       reward: Option<Texts>, count: Option<nat>, audio: Option<string>)

  /** The entries of `DUAA_COLLECTION`: three before the prayer, three after it and
      two for specific prayers. */
  datatype DuaaName = Adhan | AfterAdhan | EnteringMosque | General | Tasbih | AyatKursi | FajrDuaa | MaghribDuaa

  /** The texts of an entry: the Arabic, its transliteration and its translations. */
  datatype Wording = Wording(arabic: string, transliteration: string, translation: Texts)

  /** `DUAA_COLLECTION` (lines 8-108), put together from its texts and its optional
      parts. */
  function DuaaOf(n: DuaaName): Duaa {
    var w := WordingOf(n);
    Duaa(w.arabic, w.transliteration, w.translation, RewardOf(n), CountOf(n), Some(AudioOf(n)))
  }

  function WordingOf(n: DuaaName): Wording {
    match n
    case Adhan =>
      Wording(("اللَّهُ أَكْبَرُ اللَّهُ " + "أَكْبَرُ، أَشْهَدُ أَنْ لاَ " + "إِلَهَ إِلاَّ اللَّهُ، " + "أَشْهَدُ أَنَّ مُحَمَّداً " + "رَسُولُ اللَّهِ"),
              ("Allahu Akbar Allahu Akbar, " + "Ashhadu an la ilaha illallah, " + "Ashhadu anna Muhammadan Rasulullah"),
              Texts(("الله أكبر الله أكبر، أشهد أن " + "لا إله إلا الله، أشهد أن " + "محمداً رسول الله"),
                    ("Allah est le Plus Grand (2x), " + "J'atteste qu'il n'y a de " + "divinité qu'Allah, J'atteste " + "que Muhammad est le Messager d'Allah"),
                    ("Allah is the Greatest (2x), I " + "bear witness that there is no " + "god but Allah, I bear witness " + "that Muhammad is the " + "Messenger of Allah")))
    case AfterAdhan =>
      Wording(("اللَّهُمَّ رَبَّ هَذِهِ " + "الدَّعْوَةِ التَّامَّةِ، " + "وَالصَّلاَةِ الْقَائِمَةِ، " + "آتِ مُحَمَّداً الْوَسِيلَةَ " + "وَالْفَضِيلَةَ، وَابْعَثْهُ " + "مَقَاماً مَحْمُوداً الَّذِي وَعَدْتَهُ"),
              ("Allahumma Rabba " + "hadhihid-da'watit-tammah, " + "was-salatil-qa'imah, ati " + "Muhammadan al-wasilata " + "wal-fadilah, wab'athu maqaman " + "mahmudan alladhi wa'adtah"),
              Texts(("اللهم رب هذه الدعوة التامة " + "والصلاة القائمة آت محمداً " + "الوسيلة والفضيلة وابعثه " + "مقاماً محموداً الذي وعدته"),
                    ("Ô Allah, Seigneur de cet " + "appel parfait et de cette " + "prière établie, accorde à " + "Muhammad le Wasila et la " + "prééminence, et ressuscite-le " + "dans la position louable que " + "Tu lui as promise"),
                    ("O Allah, Lord of this perfect " + "call and established prayer, " + "grant Muhammad the Wasila and " + "excellence, and raise him to " + "the praised position You have " + "promised him")))
    case EnteringMosque =>
      Wording(("اللَّهُمَّ افْتَحْ لِي " + "أَبْوَابَ رَحْمَتِكَ"),
              "Allahumma aftah li abwaba rahmatik",
              Texts("اللهم افتح لي أبواب رحمتك",
                    ("Ô Allah, ouvre-moi les portes " + "de Ta miséricorde"),
                    ("O Allah, open for me the " + "gates of Your mercy")))
    case General =>
      Wording(("أَسْتَغْفِرُ اللهَ (ثلاثاً)، " + "اللَّهُمَّ أَنْتَ السَّلاَمُ " + "وَمِنْكَ السَّلاَمُ، " + "تَبَارَكْتَ يَا ذَا " + "الْجَلاَلِ وَالإِكْرَامِ"),
              ("Astaghfirullah (3x), " + "Allahumma antas-salam wa " + "minkas-salam, tabarakta ya " + "dhal-jalali wal-ikram"),
              Texts(("أستغفر الله (ثلاثاً)، اللهم " + "أنت السلام ومنك السلام، " + "تباركت يا ذا الجلال والإكرام"),
                    ("Je demande pardon à Allah " + "(3x), Ô Allah, Tu es la Paix " + "et de Toi vient la paix, Tu " + "es béni, Ô Majestueux et Généreux"),
                    ("I seek forgiveness from Allah " + "(3x), O Allah, You are Peace " + "and from You comes peace, " + "blessed are You, O Possessor " + "of Majesty and Honor")))
    case Tasbih =>
      Wording(("سُبْحَانَ اللهِ (33)، " + "الْحَمْدُ لِلَّهِ (33)، اللهُ " + "أَكْبَرُ (33)، لاَ إِلَهَ " + "إِلاَّ اللهُ وَحْدَهُ لاَ " + "شَرِيكَ لَهُ، لَهُ الْمُلْكُ " + "وَلَهُ الْحَمْدُ وَهُوَ عَلَى " + "كُلِّ شَيْءٍ قَدِيرٌ"),
              ("SubhanAllah (33x), " + "Alhamdulillah (33x), Allahu " + "Akbar (33x), La ilaha " + "illallahu wahdahu la sharika lah..."),
              Texts(("سبحان الله (33)، الحمد لله " + "(33)، الله أكبر (33)، لا إله " + "إلا الله وحده لا شريك له..."),
                    ("Gloire à Allah (33x), Louange " + "à Allah (33x), Allah est le " + "Plus Grand (33x), Il n'y a de " + "divinité qu'Allah..."),
                    ("Glory be to Allah (33x), " + "Praise be to Allah (33x), " + "Allah is the Greatest (33x), " + "There is no god but Allah...")))
    case AyatKursi =>
      Wording(("اللَّهُ لاَ إِلَهَ إِلاَّ " + "هُوَ الْحَيُّ الْقَيُّومُ..."),
              ("Allahu la ilaha illa " + "Huwal-Hayyul-Qayyum..."),
              Texts("الله لا إله إلا هو الحي القيوم...",
                    ("Allah, point de divinité à " + "part Lui, le Vivant, Celui " + "qui subsiste par Lui-même..."),
                    ("Allah - there is no deity " + "except Him, the Ever-Living, " + "the Sustainer...")))
    case FajrDuaa =>
      Wording(("أَصْبَحْنَا وَأَصْبَحَ " + "الْمُلْكُ لِلَّهِ، " + "وَالْحَمْدُ لِلَّهِ، لاَ " + "إِلَهَ إِلاَّ اللهُ وَحْدَهُ " + "لاَ شَرِيكَ لَهُ"),
              ("Asbahna wa asbahal-mulku " + "lillah, walhamdulillah, la " + "ilaha illallahu wahdahu la sharika lah"),
              Texts(("أصبحنا وأصبح الملك لله، " + "والحمد لله، لا إله إلا الله " + "وحده لا شريك له"),
                    ("Nous voilà au matin et le " + "règne appartient à Allah, " + "louange à Allah, il n'y a de " + "divinité qu'Allah, Unique, " + "sans associé"),
                    ("We have entered morning and " + "the kingdom belongs to Allah, " + "praise be to Allah, there is " + "no god but Allah alone, " + "without partner")))
    case MaghribDuaa =>
      Wording(("أَمْسَيْنَا وَأَمْسَى " + "الْمُلْكُ لِلَّهِ، " + "وَالْحَمْدُ لِلَّهِ، لاَ " + "إِلَهَ إِلاَّ اللهُ وَحْدَهُ " + "لاَ شَرِيكَ لَهُ"),
              ("Amsayna wa amsal-mulku lillah," + " walhamdulillah, la ilaha " + "illallahu wahdahu la sharika lah"),
              Texts(("أمسينا وأمسى الملك لله، " + "والحمد لله، لا إله إلا الله " + "وحده لا شريك له"),
                    ("Nous voilà au soir et le " + "règne appartient à Allah, " + "louange à Allah, il n'y a de " + "divinité qu'Allah, Unique, " + "sans associé"),
                    ("We have entered evening and " + "the kingdom belongs to Allah, " + "praise be to Allah, there is " + "no god but Allah alone, " + "without partner")))
  }

  function RewardOf(n: DuaaName): Option<Texts> {
    match n
    case Adhan => None
    case AfterAdhan => Some(Texts("حلت له شفاعتي يوم القيامة",
                  ("Mon intercession lui sera " + "garantie le Jour de la Résurrection"),
                  ("My intercession will be " + "guaranteed for him on the Day " + "of Resurrection")))
    case EnteringMosque => None
    case General => None
    case Tasbih => None
    case AyatKursi => Some(Texts(("من قرأها دبر كل صلاة لم يمنعه " + "من دخول الجنة إلا أن يموت"),
                  ("Celui qui la récite après " + "chaque prière, rien ne " + "l'empêchera d'entrer au " + "Paradis sauf la mort"),
                  ("Whoever recites it after each " + "prayer, nothing will prevent " + "him from entering Paradise " + "except death")))
    case FajrDuaa => None
    case MaghribDuaa => None
  }

  function CountOf(n: DuaaName): Option<nat> {
    match n
    case Adhan => None
    case AfterAdhan => None
    case EnteringMosque => None
    case General => None
    case Tasbih => Some(100)
    case AyatKursi => None
    case FajrDuaa => None
    case MaghribDuaa => None
  }

  function AudioOf(n: DuaaName): string {
    match n
    case Adhan => "duaa-adhan.mp3"
    case AfterAdhan => "duaa-after-adhan.mp3"
    case EnteringMosque => "duaa-entering-mosque.mp3"
    case General => "duaa-after-prayer.mp3"
    case Tasbih => "duaa-tasbih.mp3"
    case AyatKursi => "ayat-kursi.mp3"
    case FajrDuaa => "duaa-fajr.mp3"
    case MaghribDuaa => "duaa-maghrib.mp3"
  }

  /** `duaa.audio` is truthy: present and not empty. */
  predicate HasAudio(d: Duaa) {
    d.audio.Some? && d.audio.value != ""
  }

  /** Every entry of the collection has an audio file. */
  lemma EveryDuaaHasAudio(n: DuaaName)
    ensures AudioOf(n) != ""
  {
  }

  /** Only the duaa after the adhan and Ayat al-Kursi carry a reward. */
  lemma RewardedDuaas(n: DuaaName)
    ensures RewardOf(n).Some? <==> n == AfterAdhan || n == AyatKursi
  {
  }

  /** Only the tasbih carries a count, 100. */
  lemma CountedDuaas(n: DuaaName)
    ensures CountOf(n).Some? <==> n == Tasbih
    ensures n == Tasbih ==> CountOf(n) == Some(100)
  {
  }

  // ---------------------------------------------------------------------------
  // Choosing a duaa.

  /** `String.prototype.toLowerCase` on the ASCII letters. */
  function ToLower(s: string): (r: string)
    ensures |r| == |s|
    ensures forall i :: 0 <= i < |s| ==> r[i] == LowerChar(s[i])
  {
    if s == [] then [] else [LowerChar(s[0])] + ToLower(s[1..])
  }

  function LowerChar(c: char): (r: char)
    ensures !('A' <= r <= 'Z')
    ensures 'a' <= c <= 'z' ==> r == c
  {
    if 'A' <= c <= 'Z' then (c as int + 32) as char else c
  }

  /** Lowering twice is lowering once. */
  lemma ToLowerIdempotent(s: string)
    ensures ToLower(ToLower(s)) == ToLower(s)
  {
    var t := ToLower(s);
    assert forall i :: 0 <= i < |t| ==> LowerChar(t[i]) == t[i];
  }

  /** `getDuaaForPrayer(prayerName, timing)` (lines 116-130): before the prayer the duaa
      after the adhan; after it the duaa of Fajr or Maghrib, whatever the case of the
      name, and the general duaa for every other prayer. */
  function GetDuaaForPrayer(prayerName: string, timing: string): (r: DuaaName)
    ensures timing == "before" ==> r == AfterAdhan
    ensures timing != "before" ==> (r == FajrDuaa <==> ToLower(prayerName) == "fajr")
    ensures timing != "before" ==> (r == MaghribDuaa <==> ToLower(prayerName) == "maghrib")
    ensures timing != "before" ==> r in {FajrDuaa, MaghribDuaa, General}
  {
    var prayer := ToLower(prayerName);
    if timing == "before" then AfterAdhan
    else if prayer == "fajr" then FajrDuaa
    else if prayer == "maghrib" then MaghribDuaa
    else General
  }

  /** The choice ignores the case of the prayer's name. */
  lemma DuaaIgnoresCase(prayerName: string, timing: string)
    ensures GetDuaaForPrayer(ToLower(prayerName), timing) == GetDuaaForPrayer(prayerName, timing)
  {
    ToLowerIdempotent(prayerName);
  }

  lemma CapitalisedNamesFindTheirDuaa()
    ensures GetDuaaForPrayer("Fajr", "after") == FajrDuaa
    ensures GetDuaaForPrayer("MAGHRIB", "after") == MaghribDuaa
    ensures GetDuaaForPrayer("Dhuhr", "after") == General
  {
    assert ToLower("Fajr") == "fajr";
    assert ToLower("MAGHRIB") == "maghrib";
    assert ToLower("Dhuhr") == "dhuhr";
  }

  /** `getAllAfterPrayerDuaa()` (line 137): the after-prayer entries in their order. */
  function GetAllAfterPrayerDuaa(): (r: seq<DuaaName>)
    ensures |r| == 3 && r[0] == General
    ensures forall n :: n in r <==> n in {General, Tasbih, AyatKursi}
  {
    [General, Tasbih, AyatKursi]
  }

  /** One step of `getAfterPrayerSequence`. */
  datatype Step = Step(step: nat, name: string, duaa: DuaaName)

  /** `getAfterPrayerSequence()` (lines 204-210). */
  function GetAfterPrayerSequence(): (r: seq<Step>)
    ensures |r| == 3
    ensures forall i :: 0 <= i < 3 ==> r[i].step == i + 1
    ensures r[0].name == "Istighfar" && r[1].name == "Tasbih" && r[2].name == "Ayat al-Kursi"
  {
    [Step(1, "Istighfar", General), Step(2, "Tasbih", Tasbih), Step(3, "Ayat al-Kursi", AyatKursi)]
  }

  /** The sequence walks through all the after-prayer duaas, in their order. */
  lemma SequenceCoversAfterPrayer()
    ensures forall i :: 0 <= i < 3 ==> GetAfterPrayerSequence()[i].duaa == GetAllAfterPrayerDuaa()[i]
  {
  }

  // ---------------------------------------------------------------------------
  // The SSML message.

  function AudioTag(file: string): string {
    ("<audio src=\"https://" + "your-s3-bucket.s3.amazonaws.com/audio/") + file + "\"/>"
  }

  const ShortBreak := "<break time=\"500ms\"/>"
  const Break := "<break time=\"1s\"/>"

  /** The pieces `formatDuaaMessage` appends, in order (lines 151-167). */
  function SpeechPieces(d: Duaa, l: Lang): seq<string> {
    ["<speak>"]
    + (if HasAudio(d) then [AudioTag(d.audio.value), ShortBreak] else [])
    + [d.arabic, Break, d.translation.In(l)]
    + (if d.reward.Some? then [Break, d.reward.value.In(l)] else [])
    + ["</speak>"]
  }

  /** The message of `formatDuaaMessage(duaa, locale)`. */
  function Speech(d: Duaa, l: Lang): string {
    Concat(SpeechPieces(d, l))
  }

  /** `formatDuaaMessage(duaa, locale)` (lines 146-170): the message is built by
      appending to it step by step. */
  method FormatDuaaMessage(d: Duaa, locale: string) returns (message: string)
    ensures message == Speech(d, LangOrArabic(locale))
  {
    var l := LangOrArabic(locale);
    ghost var ps: seq<string> := [];
    message := "";
    message, ps := Append(message, ps, "<speak>");
    ghost var audio := if HasAudio(d) then [AudioTag(d.audio.value), ShortBreak] else [];
    if HasAudio(d) {
      message, ps := Append(message, ps, AudioTag(d.audio.value));
      message, ps := Append(message, ps, ShortBreak);
    }
    assert ps == ["<speak>"] + audio;
    message, ps := Append(message, ps, d.arabic);
    message, ps := Append(message, ps, Break);
    message, ps := Append(message, ps, d.translation.In(l));
    ghost var body := ["<speak>"] + audio + [d.arabic, Break, d.translation.In(l)];
    assert ps == body;
    ghost var reward := if d.reward.Some? then [Break, d.reward.value.In(l)] else [];
    if d.reward.Some? {
      message, ps := Append(message, ps, Break);
      message, ps := Append(message, ps, d.reward.value.In(l));
    }
    assert ps == body + reward;
    message, ps := Append(message, ps, "</speak>");
    assert ps == SpeechPieces(d, l);
  }

  /** `message += piece`, with the pieces appended so far kept alongside. */
  method Append(message: string, ghost ps: seq<string>, piece: string) returns (r: string, ghost qs: seq<string>)
    requires message == Concat(ps)
    ensures qs == ps + [piece] && r == Concat(qs)
  {
    ConcatPush(ps, piece);
    r := message + piece;
    qs := ps + [piece];
  }

  /** The message is one SSML document: it opens with `<speak>` and closes with
      `</speak>`. */
  lemma SpeechIsOneDocument(d: Duaa, l: Lang)
    ensures "<speak>" <= Speech(d, l)
    ensures var s := Speech(d, l); |s| >= 8 && s[|s| - 8..] == "</speak>"
  {
    ConcatEndsWithLast(SpeechPieces(d, l));
  }

  /** With audio, the message opens with the audio tag and a short pause before the
      Arabic text. */
  lemma SpeechWithAudio(d: Duaa, l: Lang)
    requires HasAudio(d)
    ensures "<speak>" + AudioTag(d.audio.value) + ShortBreak + d.arabic <= Speech(d, l)
  {
    var ps := SpeechPieces(d, l);
    var p4 := ["<speak>", AudioTag(d.audio.value), ShortBreak, d.arabic];
    assert ps == p4 + ps[4..];
    ConcatAppend(p4, ps[4..]);
    assert Concat(p4[3..]) == d.arabic + Concat([]);
    assert Concat(p4[2..]) == ShortBreak + Concat(p4[3..]);
    assert Concat(p4[1..]) == AudioTag(d.audio.value) + Concat(p4[2..]);
  }

  /** Without audio, the Arabic text follows `<speak>` directly. */
  lemma SpeechWithoutAudio(d: Duaa, l: Lang)
    requires !HasAudio(d)
    ensures "<speak>" + d.arabic <= Speech(d, l)
  {
    var ps := SpeechPieces(d, l);
    var p2 := ["<speak>", d.arabic];
    assert ps == p2 + ps[2..];
    ConcatAppend(p2, ps[2..]);
    assert Concat(p2[1..]) == d.arabic + Concat([]);
  }

  /** The translation of the chosen language is always said; the reward is said when
      the duaa has one, and otherwise the translation closes the message. */
  lemma SpeechTexts(d: Duaa, l: Lang)
    ensures Infix(d.translation.In(l), Speech(d, l))
    ensures d.reward.Some? ==> Infix(d.reward.value.In(l), Speech(d, l))
    ensures d.reward.None? ==> var s := Speech(d, l); var tail := d.translation.In(l) + "</speak>";
              |tail| <= |s| && s[|s| - |tail|..] == tail
  {
    var ps := SpeechPieces(d, l);
    var k := if HasAudio(d) then 3 else 1;
    assert ps[k + 2] == d.translation.In(l);
    ConcatHasPiece(ps, k + 2);
    if d.reward.Some? {
      assert ps[k + 4] == d.reward.value.In(l);
      ConcatHasPiece(ps, k + 4);
    } else {
      var tail := d.translation.In(l) + "</speak>";
      var head := ps[..k + 2];
      assert ps == head + [d.translation.In(l), "</speak>"];
      ConcatAppend(head, [d.translation.In(l), "</speak>"]);
      assert Concat([d.translation.In(l), "</speak>"]) == d.translation.In(l) + ("</speak>" + Concat([]));
      var s := Speech(d, l);
      assert s == Concat(head) + tail;
      assert s[|s| - |tail|..] == tail;
    }
  }

  /** A locale whose language is not Arabic, French or English is answered in Arabic. */
  lemma UnknownLanguageIsArabic(d: Duaa, locale: string)
    requires LangOf(BeforeDash(locale)).None?
    ensures LangOrArabic(locale) == Ar
  {
  }

  // ---------------------------------------------------------------------------
  // The APL data.

  /** The `properties` of `generateDuaaAPLData`. */
  datatype DuaaView = DuaaView(prayerName: string, arabic: string, transliteration: string,
                               translation: string, reward: string, count: nat, hasAudio: bool)

  /** `generateDuaaAPLData(duaa, prayerName, locale)` (lines 179-198). */
  function GenerateDuaaAPLData(d: Duaa, prayerName: string, locale: string): (r: DuaaView)
    ensures r.prayerName == prayerName && r.arabic == d.arabic && r.transliteration == d.transliteration
    ensures r.translation == d.translation.In(LangOrArabic(locale))
    ensures r.reward == "" <== d.reward.None?
    ensures d.reward.Some? ==> r.reward == d.reward.value.In(LangOrArabic(locale))
    ensures r.count >= 1
    ensures d.count.Some? && d.count.value > 0 ==> r.count == d.count.value
    ensures d.count.None? ==> r.count == 1
    ensures d.count == Some(0) ==> r.count == 1
    ensures r.hasAudio <==> HasAudio(d)
  {
    var l := LangOrArabic(locale);
    DuaaView(prayerName, d.arabic, d.transliteration, d.translation.In(l),
             if d.reward.Some? then d.reward.value.In(l) else "",
             if d.count.Some? && d.count.value != 0 then d.count.value else 1,
             HasAudio(d))
  }

  /** The screen and the speech agree: the translation shown is the one said. */
  lemma ScreenMatchesSpeech(d: Duaa, prayerName: string, locale: string)
    ensures Infix(GenerateDuaaAPLData(d, prayerName, locale).translation, Speech(d, LangOrArabic(locale)))
  {
    SpeechTexts(d, LangOrArabic(locale));
  }

  // ---------------------------------------------------------------------------
  // The reminder that announces a prayer with its duaa.

  /** The prayer whose lower-case key is `key`, if any. */
  function PrayerOfKey(key: string): (r: Option<Prayer>)
    ensures forall p :: r == Some(p) <==> key == Key(p)
  {
    if key == "fajr" then Some(Fajr)
    else if key == "dhuhr" then Some(Dhuhr)
    else if key == "asr" then Some(Asr)
    else if key == "maghrib" then Some(Maghrib)
    else if key == "isha" then Some(Isha)
    else None
  }

  /** `prayerNames[lang][prayerName]` (lines 221-225): the Arabic names in Arabic, the
      transliterated ones in French and English, and `undefined` for any other key. */
  function PrayerNameIn(l: Lang, key: string): (r: Option<string>)
    ensures forall p :: key == Key(p) ==> r == Some(if l == Ar then Arabic(p) else English(p))
    ensures r.None? <==> PrayerOfKey(key).None?
  {
    match PrayerOfKey(key)
    case Some(p) => Some(if l == Ar then Arabic(p) else English(p))
    case None => None
  }

  /** The opening shared by the three templates: the Makkah adhan and a pause. */
  const ReminderOpening := ("<speak>\n            <audio " + "src=\"https://your-s3-bucket." + "s3.amazonaws.com/audio/" + "athan-makkah.mp3\"/>\n          " + "  <break time=\"1s\"/>\n            ")

  const ReminderPause := ("\n            <break time=\"1s\"/" + ">\n            ")

  /** The announcement around the prayer's name, in each language. */
  function Announce(l: Lang): (string, string) {
    match l
    case Ar => ("حان الآن موعد صلاة ", ".")
    case Fr => ("C'est l'heure de la prière ", ".")
    case En => ("It's time for ", " prayer.")
  }

  /** The closing exhortation and `</speak>`. */
  function ReminderClosing(l: Lang): string {
    var exhortation := match l
      case Ar => "حافظ على الصلاة في أوقاتها."
      case Fr => "Maintenez la prière à ses heures."
      case En => "Maintain prayer at its prescribed times.";
    ReminderPause + exhortation + "\n        </speak>"
  }

  /** The duaa's text in a message: the Arabic itself, or its translation. */
  function SaidText(d: Duaa, l: Lang): string {
    if l == Ar then d.arabic else d.translation.In(l)
  }

  /** The pieces of `messages[lang]` (lines 227-255), with the name as it is rendered. */
  function ReminderPieces(l: Lang, name: string, d: Duaa): seq<string> {
    [ReminderOpening, Announce(l).0, name, Announce(l).1, ReminderPause, SaidText(d, l), ReminderClosing(l)]
  }

  /** `messages[lang] || messages['ar']` for a rendered name and a duaa. */
  function ReminderMessage(prayerName: string, locale: string, d: Duaa): string {
    var l := LangOrArabic(locale);
    Concat(ReminderPieces(l, OrUndefined(PrayerNameIn(l, prayerName)), d))
  }

  /** `createPrayerReminderWithDuaa(prayerName, locale)` (lines 218-259): the message
      always carries the duaa said after the adhan, whatever the prayer. */
  function CreatePrayerReminderWithDuaa(prayerName: string, locale: string): (r: string)
    ensures r == ReminderMessage(prayerName, locale, DuaaOf(AfterAdhan))
  {
    ReminderMessage(prayerName, locale, DuaaOf(GetDuaaForPrayer(prayerName, "before")))
  }

  /** The message opens with the adhan and ends with `</speak>`; it says the duaa in
      the message's language, the Arabic text in Arabic and the translation otherwise. */
  lemma ReminderShape(prayerName: string, locale: string, d: Duaa)
    ensures ReminderOpening <= ReminderMessage(prayerName, locale, d)
    ensures Infix(SaidText(d, LangOrArabic(locale)), ReminderMessage(prayerName, locale, d))
    ensures LangOrArabic(locale) == Ar ==> Infix(d.arabic, ReminderMessage(prayerName, locale, d))
    ensures LangOrArabic(locale) != Ar ==> Infix(d.translation.In(LangOrArabic(locale)), ReminderMessage(prayerName, locale, d))
  {
    var l := LangOrArabic(locale);
    ConcatHasPiece(ReminderPieces(l, OrUndefined(PrayerNameIn(l, prayerName)), d), 5);
  }

  /** A lower-case prayer key is announced by its name in the message's language. */
  lemma ReminderNamesPrayer(p: Prayer, locale: string, d: Duaa)
    ensures var l := LangOrArabic(locale);
            Infix(Announce(l).0 + (if l == Ar then Arabic(p) else English(p)) + Announce(l).1,
                  ReminderMessage(Key(p), locale, d))
  {
    var l := LangOrArabic(locale);
    var name := if l == Ar then Arabic(p) else English(p);
    var ps := ReminderPieces(l, OrUndefined(PrayerNameIn(l, Key(p))), d);
    assert ps[2] == name;
    ConcatHasRun(ps, 1, 4);
    assert ps[1..4] == [Announce(l).0, name, Announce(l).1];
    ConcatThree(Announce(l).0, name, Announce(l).1);
  }

  /** The names table is keyed by lower-case keys while `getDuaaForPrayer` lowers the
      name it is given: a capitalised name such as "Fajr" finds its duaa but is
      announced as `undefined`. */
  lemma CapitalisedNameSaysUndefined(locale: string, d: Duaa)
    ensures var l := LangOrArabic(locale);
            Infix(Announce(l).0 + "undefined" + Announce(l).1, ReminderMessage("Fajr", locale, d))
    ensures GetDuaaForPrayer("Fajr", "after") == FajrDuaa
  {
    var l := LangOrArabic(locale);
    assert PrayerNameIn(l, "Fajr").None?;
    var ps := ReminderPieces(l, "undefined", d);
    ConcatHasRun(ps, 1, 4);
    assert ps[1..4] == [Announce(l).0, "undefined", Announce(l).1];
    ConcatThree(Announce(l).0, "undefined", Announce(l).1);
    CapitalisedNamesFindTheirDuaa();
  }

  /** The reminder with the name lowered before the table lookup, as the duaa lookup
      beside it does. */
  function IntendedReminderMessage(prayerName: string, locale: string, d: Duaa): string {
    ReminderMessage(ToLower(prayerName), locale, d)
  }

  function CreatePrayerReminderWithDuaaIntended(prayerName: string, locale: string): (r: string)
    ensures r == IntendedReminderMessage(prayerName, locale, DuaaOf(AfterAdhan))
  {
    ReminderMessage(ToLower(prayerName), locale, DuaaOf(GetDuaaForPrayer(prayerName, "before")))
  }

  /** With the name lowered, every spelling of a prayer's key is announced by the
      prayer's name, and a lower-case key gets the message it gets today. */
  lemma IntendedNamesPrayerAnyCase(prayerName: string, p: Prayer, locale: string, d: Duaa)
    requires ToLower(prayerName) == Key(p)
    ensures var l := LangOrArabic(locale);
            Infix(Announce(l).0 + (if l == Ar then Arabic(p) else English(p)) + Announce(l).1,
                  IntendedReminderMessage(prayerName, locale, d))
    ensures IntendedReminderMessage(Key(p), locale, d) == ReminderMessage(Key(p), locale, d)
  {
    ReminderNamesPrayer(p, locale, d);
    ToLowerIdempotent(prayerName);
  }
}
