# Prayer-times skill: a verified model of its rules

This project models, in Dafny, the deterministic rules of an Alexa skill for the five
daily Islamic prayers. It proves properties of that model. The skill is written in
JavaScript under `lambda/`. The model covers:

- the per-user prayer statistics: recording a prayer, the consecutive-day streak, the
  week, month and period roll-ups, the spoken summary and the screen data;
- next-prayer resolution and the time left until a prayer;
- the Qibla direction once the trigonometry has produced a bearing: normalising,
  rounding, the eight cardinal sectors and the city table;
- the Hijri date rendering, the table of Islamic events, the events of a month and
  the scan for upcoming events;
- the adhkar (remembrances) and duaas (supplications): daily choice, filtering, SSML
  speech and screen data;
- the reminder rules: when a reminder rings, the athan audio fallback, setting up the
  five reminders with per-prayer failure isolation, and updating them.

One module per source file:

- `Statistics` models `lambda/statisticsService.js`. The record is the class
  `PrayerStats`, which is updated in place. The user's attributes are the class
  `UserAttributes`.
- `PrayerTimes` models `lambda/prayerTimesService.js`.
- `SkillUtils` models the utility functions of `lambda/index.js`.
- `Qibla`, `Hijri`, `Dhikr`, `Duaa` and `Notifications` model the services of the same
  names. In `Notifications`, the Alexa reminders service is the class `ReminderClient`.
  Its answer to each creation request is a function given to it.
- `Common` holds JavaScript's remainder and `Math.round`, decimal rendering, the locale
  prefix, and template literals as lists of pieces.
- `Prayers` holds the five prayers and their names.

Conventions:

- Clock times are minutes of the day. "Now" is a whole second of the day, or, for
  reminders, whole seconds since a local midnight; the milliseconds are dropped (see
  "Left out").
- Dates are day ordinals.
- "Today", the day of the year and the calendar facts of the current week and month
  are parameters.

## Model

| member | source | states |
|---|---|---|
| Statistics.PrayerOfKey | lambda/statisticsService.js:41-43 | a name has a `byPrayer` counter exactly when it is one of the five keys |
| Statistics.Marked | lambda/statisticsService.js:57-58 | the day's flag for the named prayer is set, the other flags are kept, and `count` grows by one even when the flag was set (to 2 for the name `count`) |
| Statistics.RecordCounters | lambda/statisticsService.js:38-43 | each call adds 1 to `total`, adds 1 to the named prayer's counter when the name is one of the five keys, and leaves every other counter alone |
| Statistics.RecordDay | lambda/statisticsService.js:46-58 | a missing day starts all false with count 0; the call marks the prayer, adds one to the count even if it was already marked, and leaves other days untouched |
| Statistics.StreakExtends | lambda/statisticsService.js:81-92 | with yesterday complete, or no last date, every call adds 1 to the streak (repeated same-day calls included) and the longest streak becomes the maximum |
| Statistics.StreakBreaksOrHolds | lambda/statisticsService.js:93-96 | otherwise the streak restarts at 1 after a gap and is kept when the last date is today or yesterday; the longest streak is kept |
| Statistics.RecordKeepsConsistent | lambda/statisticsService.js:88-98 | recording keeps "longest ≥ streak, longest ≥ 1 once a date is recorded, total ≥ sum of counters", sets `lastPrayerDate` to the day and never lowers the longest streak |
| Statistics.RunKeepsConsistent | lambda/statisticsService.js:14-99 | over any run of calls the invariant holds, `total` grows by the number of calls and the longest streak never decreases |
| Statistics.ZeroConsistent | lambda/statisticsService.js:18-31 | the fresh record satisfies the invariant |
| Statistics.PrayerStats.UpdateStreak | lambda/statisticsService.js:76-99 | the in-place update equals the streak rule on the old record; only the streak fields change |
| Statistics.PrayerStats.RecordCompleted | lambda/statisticsService.js:37-61 | the in-place update equals counting then the streak rule on the old record |
| Statistics.UserAttributes.RecordPrayerCompleted | lambda/statisticsService.js:14-69 | a record is created all-zero when absent (fresh object), else the stored one is updated in place and returned |
| Statistics.AsWrittenStreakAfterFullDays | lambda/statisticsService.js:81-92 | `n` consecutive complete days from a fresh record leave a streak of `5n − 4` |
| Statistics.TwoFullDaysCounterexample | lambda/statisticsService.js:81-92 | two complete days give streak 6 as written, 2 with the intended rule |
| Statistics.IntendedStreakAfterFullDays | lambda/statisticsService.js:81-92 | with the intended rule, `n` consecutive complete days give a streak of exactly `n` |
| Statistics.AsWrittenSameDayHolds | lambda/statisticsService.js:93-98 | after an incomplete yesterday, repeated calls on the same day keep the streak |
| Statistics.IntendedSameDayHolds | lambda/statisticsService.js:88-98 | with the intended rule, further calls on the same day never change the streak |
| Statistics.MarkedInRun | lambda/statisticsService.js:57 | a prayer recorded at any point of a run is marked for its day at the end |
| Statistics.FullDayCompletes | lambda/statisticsService.js:81-86 | recording the five prayers of a day makes the day complete |
| Statistics.RollUp | lambda/statisticsService.js:157-171 | `completed` is the sum of the counts of the range's existing days, `total` is 5 per day, and `percentage` is the rounded ratio (0 for an empty range) |
| Statistics.WeekStatistics | lambda/statisticsService.js:153-173 | the seven days holding today: 35 prayers, completed summed over them |
| Statistics.MonthStatistics | lambda/statisticsService.js:180-200 | every day of the month holding today: 5 prayers per day |
| Statistics.PeriodStatistics | lambda/statisticsService.js:216-241 | one breakdown entry per day in ascending order, with 0 and no entry for a day without a record, and the totals of the range |
| Statistics.PercentageBounds | lambda/statisticsService.js:171 | 0 for an empty total, between 0 and 100 while completed ≤ total, 100 when they are equal |
| Statistics.PercentageCanExceedHundred | lambda/statisticsService.js:58 | repeated records make percentages above 100 possible (6 of 5 is 120) |
| Statistics.TodayPercentage | lambda/statisticsService.js:141 | today's percentage is 20 per prayer counted |
| Statistics.UserAttributes.GetStatistics | lambda/statisticsService.js:106-146 | the summary of the stored record, or the zero summary without week and month for a user with no record |
| Statistics.UserAttributes.GetStatisticsForPeriod | lambda/statisticsService.js:209-242 | the period's dates, count, total and percentage over the stored days (over none without a record), with day `start + i` at position `i` carrying its count and its entry |
| Statistics.UserAttributes.ResetStatistics | lambda/statisticsService.js:300-319 | a fresh all-zero record with empty `byDate` and no last date replaces the old one |
| Statistics.ResetSummaryIsZero | lambda/statisticsService.js:300-315 | after a reset the summary is zero: today 0 of 5 at 0 %, empty week (35) and month at 0 % |
| Statistics.EmptyRangeCompletesNothing | lambda/statisticsService.js:162-164 | a range of days without records completes nothing |
| Statistics.GenerateStatisticsAPLData | lambda/statisticsService.js:266-293 | the screen copies every figure of the summary (total, streaks, today's, the week's and the month's completed, total and percentage) and lists the five prayers in order with their counters; it fails exactly when the week or month roll-up is absent |
| Statistics.FreshUserHasNoAPLData | lambda/statisticsService.js:109-127 | the summary of a user with no record makes the screen data fail |
| Statistics.FormatStatisticsMessage | lambda/statisticsService.js:250-258 | the message of the exact locale `fr-FR` or `en-US`, Arabic for any other; it states the total and the streak |
| PrayerTimes.FirstAfter | lambda/prayerTimesService.js:112-129 | the position of the first prayer strictly after now, or none when no prayer is after now |
| PrayerTimes.GetNextPrayer | lambda/prayerTimesService.js:110-141 | `minutesUntil ≥ 0`; rollover exactly when no prayer is after now, then Fajr with the truncated minutes to tomorrow's Fajr; otherwise `isNow` is `minutesUntil = 0` |
| PrayerTimes.NextPrayerIsFirstAfter | lambda/prayerTimesService.js:112-129 | the result is the first prayer in the order Fajr to Isha strictly after now, with the truncated minutes to it |
| PrayerTimes.PrayerAtNowNotSelected | lambda/prayerTimesService.js:122 | a prayer whose time is exactly now is never selected |
| PrayerTimes.IsNowWithinOneMinute | lambda/prayerTimesService.js:123-127 | `isNow` holds exactly when the prayer starts less than a minute from now |
| PrayerTimes.SecondsUntil | lambda/prayerTimesService.js:202-207 | the target moves to tomorrow only when it is strictly before now; the result is below a day and lands on the prayer's time |
| PrayerTimes.RemainingOf | lambda/prayerTimesService.js:209-219 | hours and minutes exactly from an hour on, minutes alone from one minute, "now" below a minute |
| PrayerTimes.TimeUntilPrayer | lambda/prayerTimesService.js:201-220 | "الآن" exactly when less than a minute remains to the next occurrence of the time, a message opening with "بعد " otherwise |
| PrayerTimes.TimeUntilThreeMessages | lambda/prayerTimesService.js:201-220 | the three messages, each with its hours and minutes |
| PrayerTimes.FormatPrayersForDisplay | lambda/prayerTimesService.js:148-194 | six entries Fajr, Sunrise, Dhuhr, Asr, Maghrib, Isha with times from the timings; only Sunrise is not a prayer |
| PrayerTimes.DisplayWithoutSunrise | lambda/prayerTimesService.js:148-194 | without Sunrise the display is the five prayers in order with their times |
| SkillUtils.GetNextPrayer | lambda/index.js:421-442 | one of the five prayers with its Arabic name and time; Fajr with today's Fajr time when none is after now |
| SkillUtils.NextPrayerIsFirstAfter | lambda/index.js:421-434 | the first prayer in list order strictly after now |
| SkillUtils.AgreesWithService | lambda/index.js:421-442 | names the same prayer, Arabic name and time as the service's lookup |
| SkillUtils.PrayerNameAr | lambda/index.js:18-24 | `PRAYER_NAMES` gives each prayer's Arabic name |
| SkillUtils.GetPrayerKeyFromArabic | lambda/index.js:447-462 | a prayer exactly for its Arabic name with or without the article; undefined for anything else |
| SkillUtils.ArabicKeyRoundTrip | lambda/index.js:447-462 | both spellings of each prayer map back to it |
| SkillUtils.GenerateAPLDataSource | lambda/index.js:485-523 | five prayers in order Fajr to Isha with their Arabic names, times and icons |
| Qibla.NormalizeBearing | lambda/qiblaService.js:50 | the result is in [0, 360); bearings from 0 are unchanged and negative ones gain a turn |
| Qibla.NormalizeKeepsDirection | lambda/qiblaService.js:50 | normalising moves a bearing by at most one whole turn |
| Qibla.RoundHundredths | lambda/qiblaService.js:53 | the displayed degrees are a whole number of hundredths within (−0.005, 0.005] of the bearing, which singles out the half-up rounding to hundredths |
| Qibla.DisplayedDegreesRange | lambda/qiblaService.js:53 | the displayed degrees stay within 0 to 360 |
| Qibla.DisplayedDegreesCanReach360 | lambda/qiblaService.js:53-54 | 359.996 is displayed as 360 while its direction is North |
| Qibla.CardinalIndex | lambda/qiblaService.js:99 | the index is in 0..7 from -22.5 degrees on |
| Qibla.GetCardinalDirection | lambda/qiblaService.js:87-101 | every angle from -22.5 on has a direction from the table |
| Qibla.CardinalBucket | lambda/qiblaService.js:99 | direction `k mod 8` covers [45k − 22.5, 45k + 22.5), so [337.5, 360) is North |
| Qibla.BoundariesRoundUp | lambda/qiblaService.js:99 | 22.5 is North-East, 67.5 East, 337.5 North, 22.4 North |
| Qibla.CalculateQiblaDirection | lambda/qiblaService.js:49-57 | the direction comes from the unrounded normalised bearing; the degrees are its half-up rounding to whole hundredths, within 0 to 360; the distance is passed on |
| Qibla.CityCoordinates | lambda/qiblaService.js:115-125 | the table's coordinates, Paris for any other city |
| Qibla.GetQiblaDirectionByCity | lambda/qiblaService.js:109-127 | the answer for the city's coordinates (Paris's for an unknown city): the direction of its normalised bearing, degrees rounded to hundredths, and its distance |
| Qibla.UnknownCityIsParis | lambda/qiblaService.js:125-126 | a city outside the table gets exactly Paris's answer |
| Qibla.KnownCitiesDistinct | lambda/qiblaService.js:115-123 | no two cities of the table share coordinates |
| Hijri.MonthName | lambda/hijriCalendarService.js:14-27 | a month name exists exactly for months 1 to 12 |
| Hijri.FormatHijriDate | lambda/hijriCalendarService.js:153-165 | '' for no date; fails exactly for a date in an unknown language; otherwise the language's template |
| Hijri.DateTemplateShape | lambda/hijriCalendarService.js:158-162 | the date names its month; English opens with the month, Arabic and French end with هـ and H |
| Hijri.GetIslamicEvent | lambda/hijriCalendarService.js:172-177 | null for no date |
| Hijri.IslamicEventIffInTable | lambda/hijriCalendarService.js:172-177 | an event is found exactly when the table has an entry for that month and day, and it is that entry |
| Hijri.EventKeyInjective | lambda/hijriCalendarService.js:175 | different dates have different keys |
| Hijri.KeyPartsOfEventKey | lambda/hijriCalendarService.js:188 | splitting a key gives back its month and day |
| Hijri.GetMonthEvents | lambda/hijriCalendarService.js:184-198 | the month's events, sorted by day, a permutation of the month's table entries |
| Hijri.MonthEventsExact | lambda/hijriCalendarService.js:184-198 | an event is listed exactly when the table has it in that month on that day |
| Hijri.SortByDay | lambda/hijriCalendarService.js:197 | the sorted list is a permutation and is ordered by day |
| Hijri.InsertBound | lambda/hijriCalendarService.js:197 | inserting an event keeps every day at or above a lower bound the list and the event share |
| Hijri.SortSortedIsIdentity | lambda/hijriCalendarService.js:197 | the stable sort leaves an ordered list unchanged |
| Hijri.RamadanEvents | lambda/hijriCalendarService.js:32-105 | Ramadan lists its three events on days 1, 21 and 27 |
| Hijri.RamadanInTable | lambda/hijriCalendarService.js:32-105 | the table's Ramadan entries, in table order, are exactly those of days 1, 21 and 27 |
| Hijri.ScanMonth | lambda/hijriCalendarService.js:214 | the scanned month is in 1..12 and starts at the current month |
| Hijri.ScanMonthsDistinct | lambda/hijriCalendarService.js:213-214 | the twelve steps visit twelve different months |
| Hijri.GetUpcomingEvents | lambda/hijriCalendarService.js:205-235 | the loop equals the scan that stops at the first month reaching `count`, cut to `count` |
| Hijri.UpcomingEventsAreNext | lambda/hijriCalendarService.js:212-234 | for a count of 0 or more, the result is the first `count` events of the whole twelve-month scan, so stopping early changes nothing |
| Hijri.ScanStopsInFullScan | lambda/hijriCalendarService.js:212-231 | where the loop stops, it has collected a prefix of the full scan that is all of it or holds at least `count` events |
| Hijri.PushUpcoming | lambda/hijriCalendarService.js:218-229 | one month's non-past events are appended in order |
| Hijri.UpcomingEventsValid | lambda/hijriCalendarService.js:214-227 | every upcoming event has a month in 1..12, its Arabic month name, and is not a past day of the current month |
| Hijri.UpcomingEventsBound | lambda/hijriCalendarService.js:234 | at most `count` events are returned |
| Hijri.EnoughInCurrentMonth | lambda/hijriCalendarService.js:231-232 | when the current month already has `count` events ahead, all returned events are in it |
| Hijri.NoDateNoEvents | lambda/hijriCalendarService.js:207 | no date gives no events |
| Hijri.FormatHijriAnnouncement | lambda/hijriCalendarService.js:305-328 | '' for no date; fails exactly for an unknown language; else the announcement |
| Hijri.AnnouncementAppendsEvent | lambda/hijriCalendarService.js:311-327 | the event's name is appended exactly when an event is found |
| Hijri.UnknownLanguageThrows | lambda/hijriCalendarService.js:156 | the announcement for `de-DE` and the date for `de` both fail |
| Hijri.FormatHijriDateIntended | lambda/hijriCalendarService.js:153-165 | the intended date uses Arabic for an unknown language |
| Hijri.IntendedAnnouncementAgrees | lambda/hijriCalendarService.js:305-328 | the intended announcement agrees with the code for known languages and is the Arabic one otherwise |
| Dhikr.ToDhikr | lambda/dhikrService.js:8-153 | an entry keeps its id, category, count and time |
| Dhikr.IdsDistinct | lambda/dhikrService.js:8-153 | the ids of the collection are distinct |
| Dhikr.ByCategory | lambda/dhikrService.js:161 | a subsequence holding exactly the entries whose category or time is the given one |
| Dhikr.Candidates | lambda/dhikrService.js:161-162 | the matching entries in order; the whole collection when none matches |
| Dhikr.Pick | lambda/dhikrService.js:165-168 | the chosen entry is one of the candidates |
| Dhikr.PickCycles | lambda/dhikrService.js:167 | the choice repeats after as many days as there are candidates |
| Dhikr.PickReaches | lambda/dhikrService.js:167 | candidate `i` is chosen on day `i` |
| Dhikr.GetDailyDhikr | lambda/dhikrService.js:160-169 | the choice is a candidate that matches when some entry matches, and `Collection[day mod 8]` otherwise |
| Dhikr.DailyDhikrCycles | lambda/dhikrService.js:160-169 | the daily choice is periodic in the number of candidates |
| Dhikr.EveryCandidateHasItsDay | lambda/dhikrService.js:160-169 | every candidate is chosen on some day |
| Dhikr.GeneralCandidates | lambda/dhikrService.js:160-169 | the default category `general` always gives its single entry |
| Dhikr.ByTime | lambda/dhikrService.js:186 | a subsequence holding exactly the entries of that time |
| Dhikr.GetDhikrByTime | lambda/dhikrService.js:185-187 | exactly the entries whose time is the given one or `anytime`, in collection order |
| Dhikr.AnytimeAlwaysOffered | lambda/dhikrService.js:186 | the `anytime` entries are offered at every time |
| Dhikr.OnlyAnytimeOtherwise | lambda/dhikrService.js:186 | a time no entry has gives only the `anytime` entries |
| Dhikr.MessagePieces | lambda/dhikrService.js:200-204 | the template holds the Arabic text, the translation, the reward and the count |
| Dhikr.FormatDhikrMessage | lambda/dhikrService.js:195-207 | the message says the count, the Arabic text and the translation and reward of the locale's language |
| Dhikr.UnknownLanguageIsArabic | lambda/dhikrService.js:196-198 | an unknown language prefix gives the Arabic message |
| Dhikr.MessageOpensInItsLanguage | lambda/dhikrService.js:201-203 | each language's message opens with its own heading |
| Dhikr.GenerateDhikrAPLData | lambda/dhikrService.js:215-234 | the screen copies the dhikr with the translation and reward of the language, Arabic for an unknown one |
| Dhikr.ScreenMatchesSpeech | lambda/dhikrService.js:195-234 | the translation and reward shown are the ones said |
| Dhikr.ScheduleDhikrReminders | lambda/dhikrService.js:241-259 | three reminders for `both`, two otherwise, in increasing times within the day |
| Dhikr.UnknownScheduleIsMorning | lambda/dhikrService.js:258 | an unknown key gives the morning schedule |
| Dhikr.ScheduledCategoriesHaveAdhkar | lambda/dhikrService.js:241-259 | every scheduled category has adhkar in the collection |
| Duaa.EveryDuaaHasAudio | lambda/duaaService.js:8-108 | every entry has an audio file |
| Duaa.RewardedDuaas | lambda/duaaService.js:8-108 | only the duaa after the adhan and Ayat al-Kursi carry a reward |
| Duaa.CountedDuaas | lambda/duaaService.js:8-108 | only the tasbih carries a count, 100 |
| Duaa.ToLower | lambda/duaaService.js:117 | lowering keeps the length and lowers each letter |
| Duaa.ToLowerIdempotent | lambda/duaaService.js:117 | lowering twice is lowering once |
| Duaa.GetDuaaForPrayer | lambda/duaaService.js:116-130 | 'before' gives the duaa after the adhan; otherwise Fajr's or Maghrib's duaa exactly for those names in any case, the general one for the rest |
| Duaa.DuaaIgnoresCase | lambda/duaaService.js:117 | the choice does not depend on the case of the name |
| Duaa.GetAllAfterPrayerDuaa | lambda/duaaService.js:136-138 | exactly the three after-prayer entries, general first |
| Duaa.GetAfterPrayerSequence | lambda/duaaService.js:204-210 | three steps numbered 1, 2, 3 and named Istighfar, Tasbih and Ayat al-Kursi |
| Duaa.SequenceCoversAfterPrayer | lambda/duaaService.js:204-210 | step `i` carries the `i`-th after-prayer duaa, so the steps walk through all of them in their order |
| Duaa.FormatDuaaMessage | lambda/duaaService.js:146-170 | the message built by appending equals the speech of the duaa in the locale's language, Arabic for an unknown one |
| Duaa.SpeechIsOneDocument | lambda/duaaService.js:151-167 | the message starts with `<speak>` and ends with `</speak>` |
| Duaa.SpeechWithAudio | lambda/duaaService.js:152-155 | with audio, the audio tag and a 500ms pause come before the Arabic text |
| Duaa.SpeechWithoutAudio | lambda/duaaService.js:152-158 | without audio, the Arabic text follows `<speak>` directly |
| Duaa.SpeechTexts | lambda/duaaService.js:158-165 | the translation is always said; the reward is said when present, else the translation closes the message |
| Duaa.UnknownLanguageIsArabic | lambda/duaaService.js:147-149 | an unknown language prefix is answered in Arabic |
| Duaa.GenerateDuaaAPLData | lambda/duaaService.js:179-198 | the screen copies the duaa; the reward is '' when absent, the count is 1 when absent or 0, and `hasAudio` holds exactly when audio is set and not empty |
| Duaa.ScreenMatchesSpeech | lambda/duaaService.js:146-198 | the translation shown is the one said |
| Duaa.PrayerOfKey | lambda/duaaService.js:221-225 | a prayer exactly for its lower-case key |
| Duaa.PrayerNameIn | lambda/duaaService.js:221-225 | Arabic names in Arabic, transliterations in French and English, undefined for any other key |
| Duaa.CreatePrayerReminderWithDuaa | lambda/duaaService.js:218-259 | the reminder always carries the duaa said after the adhan |
| Duaa.ReminderShape | lambda/duaaService.js:227-258 | the reminder opens with the Makkah adhan and says the duaa in Arabic, or in its translation, in the language of the locale, Arabic for an unknown one |
| Duaa.ReminderNamesPrayer | lambda/duaaService.js:221-255 | a lower-case key is announced by the prayer's name in the message's language |
| Duaa.CapitalisedNamesFindTheirDuaa | lambda/duaaService.js:117-129 | "Fajr" and "MAGHRIB" find their duaas; "Dhuhr" finds the general one |
| Duaa.CapitalisedNameSaysUndefined | lambda/duaaService.js:230 | "Fajr" is announced as "undefined" |
| Duaa.IntendedNamesPrayerAnyCase | lambda/duaaService.js:218-259 | with the name lowered, each spelling of a key is announced by its prayer's name, and lower-case keys give today's message |
| Notifications.AthanOf | lambda/notificationService.js:11-37 | an athan exactly for the five types of the table, each with an audio URL |
| Notifications.AthanUrl | lambda/notificationService.js:112 | the type's own audio, the Makkah athan for any other type |
| Notifications.AthanUrlsDistinct | lambda/notificationService.js:11-37 | the five types have five different recordings |
| Notifications.ScheduledTime | lambda/notificationService.js:50-56 | today's time, moved one day on exactly when it is strictly before now: from now on, within a day, at the prayer's clock time |
| Notifications.ScheduledIsNextOccurrence | lambda/notificationService.js:50-56 | the scheduled time is the first instant from now on at the prayer's clock time |
| Notifications.ReminderTime | lambda/notificationService.js:50-56 | the time built and moved in place equals the scheduled time |
| Notifications.Request | lambda/notificationService.js:58-83 | the request is made now, in `ar-SA`, with a daily absolute trigger at the scheduled time in the given zone, with push notification enabled |
| Notifications.RequestSaysPrayer | lambda/notificationService.js:72-76 | the speech plays the athan and names the prayer, and the text is the announcement followed by the name |
| Notifications.ReminderClient.CreateReminder | lambda/notificationService.js:85 | the service's answer; a created reminder is kept with its token |
| Notifications.CreatePrayerReminder | lambda/notificationService.js:48-93 | the answer to the prayer's request, an error being passed on |
| Notifications.EntryOf | lambda/notificationService.js:124-138 | `created` with the token, or `failed` with the error message, for the prayer and its time |
| Notifications.SetupAllPrayerReminders | lambda/notificationService.js:103-142 | one creation call per prayer in order, one entry per prayer, the created reminders added to the service |
| Notifications.SetupOne | lambda/notificationService.js:115-139 | one turn of the loop: one creation call for prayer `i`, its entry, and its reminder kept when created |
| Notifications.EntryIsPrayer | lambda/notificationService.js:104-141 | entry `i` is prayer `i` from Fajr to Isha with its time, created or failed as the service answered its request |
| Notifications.FailureIsolated | lambda/notificationService.js:115-139 | a failure touches only its own prayer: services answering request `i` alike give the same entry `i` |
| Notifications.RequestsAreDaily | lambda/notificationService.js:60-66 | every request is a daily absolute trigger at the prayer's next occurrence with the chosen athan |
| Notifications.DeleteAllPrayerReminders | lambda/notificationService.js:149-164 | every reminder held is deleted, one call per reminder after one read |
| Notifications.DeleteEach | lambda/notificationService.js:155-158 | the reminders just read are all deleted, one call per reminder in their order |
| Notifications.DeleteNext | lambda/notificationService.js:156 | one deletion removes the next reminder's token and records one call |
| Notifications.DeleteStep | lambda/notificationService.js:156 | deleting the next token by itself equals filtering out one more token |
| Notifications.UpdatePrayerReminders | lambda/notificationService.js:174-192 | the old reminders are deleted before the five new ones are requested, so only the new ones remain |
| Notifications.DeletesBeforeCreates | lambda/notificationService.js:177-185 | in an update's calls no deletion comes after a creation |
| Notifications.WithoutAll | lambda/notificationService.js:155-158 | deleting every token of a list leaves none of its reminders |
| Notifications.GenerateAthanSSML | lambda/notificationService.js:200-212 | the message opens an SSML document with `<speak>` |
| Notifications.AthanMessagePlaysChosenAthan | lambda/notificationService.js:200-212 | the message plays the chosen athan, the Makkah one for an unknown type, and names the prayer |
| Common.JsRem | lambda/hijriCalendarService.js:214 | JavaScript's `%`: the sign of the dividend, magnitude below the divisor |
| Common.JsRound | lambda/qiblaService.js:53 | `Math.round`: the integer within half, halves rounded up |
| Common.LangOrArabic | lambda/dhikrService.js:196-198 | a known language prefix, or Arabic |
| Common.ParseNatToString | lambda/hijriCalendarService.js:188 | reading back a rendered number gives the number |
| Common.ConcatHasPiece | lambda/dhikrService.js:201-203 | every piece of a template literal occurs in the rendered text |

## Left out

- Network calls are not modelled: the Aladhan API for timings and Hijri dates, and the
  geocoding the Qibla city lookup would need. This is I/O outside the rules.
- The clock and the time zone are not modelled: `moment()`, `Date.now()`,
  `moment.tz`, the locale's first day of the week and the month lengths. "Now", "today",
  the day of the year and the calendar facts are parameters instead.
- PrayerTimes.GetNextPrayer, PrayerTimes.TimeUntilPrayer and Notifications.ScheduledTime
  take "now" in whole seconds, dropping the milliseconds of `moment()`. Within the second
  before a whole minute the source and the model part: at 04:59:00.500 with Fajr at
  05:00 the source's whole-minute `diff` is 0 and `isNow` holds, while the model gives
  one minute; at 05:00:00.300 a prayer at 05:00 is before now, so the source says
  "after 23 hours 59 minutes" and schedules the reminder tomorrow, while the model says
  "now" and schedules it today.
- The ISO rendering of instants is left out; the request keeps the instant as a number.
- The spherical trigonometry and Haversine distance are left out because they are
  floating-point numerics. The raw bearing and the rounded distance are inputs.
- Statistics.Percentage, Statistics.PeriodStatistics,
  Statistics.UserAttributes.GetStatisticsForPeriod, Qibla.NormalizeBearing,
  Qibla.RoundHundredths and Qibla.CalculateQiblaDirection compute in exact reals, while
  JavaScript numbers are IEEE doubles. Where a double falls just below a rounding tie, or
  a tiny bearing is absorbed by `+ 360`, the source and the model part: 29 prayers over a
  40-day period give 15% in the model and 14% in the source, because 29/200*100 is
  14.499999999999998 as a double; a bearing of 1.005 is shown as 1.01 in the model and 1
  in the source; a bearing of 1e-20 stays 1e-20 in the model where `(b + 360) % 360`
  gives 0, and one of -1e-20 becomes 359.99999999999999999 in the model and 0 in the
  source. The week,
  month and today percentages cannot fall on a tie (their totals are 35, 140 to 155
  and 5), so they agree with the source.
- The Alexa request handlers, the skill builder, persistence (saving attributes) and all
  async sequencing are left out as platform plumbing and concurrency.
- `getRandomDhikr` is left out because it depends on `Math.random`.
- `exportStatistics` is left out because it is a `JSON.stringify` call.
- `sendPrayerTimeNotification` is left out because it is a call to the proactive-events
  service.
- Logging is left out.
- The texts of the adhkar and the Islamic events: the model keeps the metadata literally
  and gives the texts as separate tables.
- Inherited object properties used as lookup keys are not modelled: a prayer name such as
  `constructor` or `toString` finds a truthy value in a JavaScript object. The model
  treats such names like any other unknown key.
- `Duaa.ToLower` lowers ASCII letters only, while `toLowerCase` also lowers other
  alphabets.
- Default parameter values (`locale = 'ar-SA'`, `athanType = 'مكة'`, …) are left out.
  Callers pass every argument.
- Notifications.ReminderClient: the reminders service is a function from request to
  answer. It cannot answer the same request differently over time.
- Notifications.DeleteAllPrayerReminders: deletion is modelled as always succeeding, and
  `getReminders` as always returning a list. The error path of the deletion, and so of
  the update, is not modelled.
- Notifications.CreatePrayerReminder: a timing missing from the map, which moment would
  read as an invalid date, is not modelled. Every timing is a valid minute of the day.
- Hijri.UpcomingEventsBound: stated only for `count ≥ 0`. For a negative count,
  `slice(0, count)` drops elements from the end, as `Hijri.SliceTo` states.
- HijriDate: the day of the Aladhan answer is taken as a number. `convertToHijri` passes
  `hijriData.day` on unparsed (hijriCalendarService.js:120) while it parses the month, so
  a zero-padded day such as `"01"` would give the lookup key `"9-01"`, which misses
  `"9-1"`, and would render as `01`; the model reads that day as 1 in both places.
- Hijri.RamadanEvents: takes its month as a parameter fixed to 9, not as a literal.
- Duaa.EveryDuaaHasAudio, Duaa.RewardedDuaas and Duaa.CountedDuaas: stated about the
  parts `DuaaOf` puts together (`AudioOf`, `RewardOf`, `CountOf`), not about `DuaaOf`
  directly.

## Findings

Each operation below is modelled as the code is written, so the model keeps the
skill's behaviour. The corrected definition sits beside it, and the intended property
is proved about the corrected one.

| source | as written | input that shows it | evidently intended | confidence | as-written member | corrected member |
|---|---|---|---|---|---|---|
| lambda/statisticsService.js:88-92 | with yesterday complete, every call adds one to the streak, including the later calls of the same day | record the five prayers on each of two consecutive days from a fresh record: the streak is 6 | the streak counts consecutive complete days, so 2 | high for the input, medium for the intent; not executed | Statistics.TwoFullDaysCounterexample | Statistics.IntendedStreakAfterFullDays |
| lambda/hijriCalendarService.js:156 | `HIJRI_MONTHS[locale][...]` is read before the `templates[locale] \|\| templates['ar']` fallback, so an unknown language throws | `formatHijriAnnouncement(date, 'de-DE')` | fall back to Arabic, as the last line of the function does | medium; not executed | Hijri.UnknownLanguageThrows | Hijri.IntendedAnnouncementAgrees |
| lambda/duaaService.js:230 | `prayerNames.ar[prayerName]` is looked up without lowering, while `getDuaaForPrayer` lowers the same name | `createPrayerReminderWithDuaa('Fajr', 'en-US')` says "It's time for undefined prayer." | look up the lowered name | low (the function has no caller in the skill); not executed | Duaa.CapitalisedNameSaysUndefined | Duaa.IntendedNamesPrayerAnyCase |
