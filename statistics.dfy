/** The prayer-statistics engine of `lambda/statisticsService.js`: a per-user record of
    completed prayers (a total, a counter per prayer, a per-day map of five flags plus a
    count, and a consecutive-day streak), updated in place on every recorded prayer, and
    the week, month and period roll-ups read from it.

    Dates are day ordinals (`d - 1` is the day before, as moment's
    `subtract(1, 'days')`); "today" and every range bound are parameters. */
module Statistics {
  import opened Common
  import opened Prayers

  type Day = int

  /** The statistics key of a prayer name, when the name is one of the five keys. */
  function PrayerOfKey(name: string): (r: Option<Prayer>)
    ensures forall p :: (r == Some(p)) == (Key(p) == name)
  {
    if name == "fajr" then Some(Fajr)
    else if name == "dhuhr" then Some(Dhuhr)
    else if name == "asr" then Some(Asr)
    else if name == "maghrib" then Some(Maghrib)
    else if name == "isha" then Some(Isha)
    else None
  }

  /** One `byDate` entry: the five flags, the keys of other names that were set to
      `true` on that day, and `count`. */
  datatype DayRecord = DayRecord(fajr: bool, dhuhr: bool, asr: bool, maghrib: bool, isha: bool,
                                 others: set<string>, count: nat)
  {
    function Done(p: Prayer): bool {
      match p
      case Fajr => fajr
      case Dhuhr => dhuhr
      case Asr => asr
      case Maghrib => maghrib
      case Isha => isha
    }

    /** All five prayers are marked, the test `updateStreak` applies to yesterday. */
    predicate Complete() {
      fajr && dhuhr && asr && maghrib && isha
    }

    /** `record[name] = true`. Setting `count` stores `true`, which the following
        `count++` reads as the number 1. */
    function Set(name: string): DayRecord {
      match PrayerOfKey(name)
      case Some(Fajr) => this.(fajr := true)
      case Some(Dhuhr) => this.(dhuhr := true)
      case Some(Asr) => this.(asr := true)
      case Some(Maghrib) => this.(maghrib := true)
      case Some(Isha) => this.(isha := true)
      case None => if name == "count" then this.(count := 1) else this.(others := others + {name})
    }
  }

  /** The entry created for a day seen for the first time. */
  const EmptyDay: DayRecord := DayRecord(false, false, false, false, false, {}, 0)

  /** `record[name] = true; record.count++`. */
  function Marked(d: DayRecord, name: string): (r: DayRecord)
    ensures name != "count" ==> r.count == d.count + 1
    ensures name == "count" ==> r.count == 2
    ensures forall p :: r.Done(p) == (d.Done(p) || Key(p) == name)
  {
    var m := d.Set(name);
    m.(count := m.count + 1)
  }

  /** The `byPrayer` counters. */
  datatype ByPrayer = ByPrayer(fajr: nat, dhuhr: nat, asr: nat, maghrib: nat, isha: nat)
  {
    function Get(p: Prayer): nat {
      match p
      case Fajr => fajr
      case Dhuhr => dhuhr
      case Asr => asr
      case Maghrib => maghrib
      case Isha => isha
    }

    function Inc(p: Prayer): (r: ByPrayer)
      ensures r.Get(p) == Get(p) + 1
      ensures forall q :: q != p ==> r.Get(q) == Get(q)
    {
      match p
      case Fajr => this.(fajr := fajr + 1)
      case Dhuhr => this.(dhuhr := dhuhr + 1)
      case Asr => this.(asr := asr + 1)
      case Maghrib => this.(maghrib := maghrib + 1)
      case Isha => this.(isha := isha + 1)
    }

    function Sum(): nat {
      fajr + dhuhr + asr + maghrib + isha
    }
  }

  const NoPrayers: ByPrayer := ByPrayer(0, 0, 0, 0, 0)

  /** The value of a persisted `prayerStats` record. */
  datatype Stats = Stats(total: nat, byPrayer: ByPrayer, byDate: map<Day, DayRecord>,
                         streak: nat, longestStreak: nat, lastPrayerDate: Option<Day>)

  /** The record created on first use and by a reset. */
  const Zero: Stats := Stats(0, NoPrayers, map[], 0, 0, None)

  predicate DayComplete(byDate: map<Day, DayRecord>, d: Day) {
    d in byDate && byDate[d].Complete()
  }

  /** `updateStreak` (statisticsService.js:76-99) as the code is written. */
  function StreakAfter(s: Stats, today: Day): Stats {
    var s1 :=
      if DayComplete(s.byDate, today - 1) || s.lastPrayerDate.None? then
        var n := s.streak + 1;
        s.(streak := n, longestStreak := if n > s.longestStreak then n else s.longestStreak)
      else if s.lastPrayerDate != Some(today) && s.lastPrayerDate != Some(today - 1) then
        s.(streak := 1)
      else
        s;
    s1.(lastPrayerDate := Some(today))
  }

  /** The counting part of `recordPrayerCompleted` (lines 38-58): total, per-prayer
      counter and the day's entry. */
  function Counted(s: Stats, name: string, today: Day): Stats {
    var bp := match PrayerOfKey(name)
              case Some(p) => s.byPrayer.Inc(p)
              case None => s.byPrayer;
    var day := if today in s.byDate then s.byDate[today] else EmptyDay;
    s.(total := s.total + 1, byPrayer := bp, byDate := s.byDate[today := Marked(day, name)])
  }

  /** `recordPrayerCompleted` on an existing record. */
  function Recorded(s: Stats, name: string, today: Day): Stats {
    StreakAfter(Counted(s, name, today), today)
  }

  /** Each record call adds one to `total`, one to the named prayer's counter when the
      name is one of the five keys, and leaves every other counter alone. */
  lemma RecordCounters(s: Stats, name: string, today: Day)
    ensures Recorded(s, name, today).total == s.total + 1
    ensures forall p :: Recorded(s, name, today).byPrayer.Get(p)
                        == s.byPrayer.Get(p) + (if Key(p) == name then 1 else 0)
  {
  }

  /** Each record call marks the prayer on that day and adds one to the day's count
      even when the flag was already set (two when the name is `count` itself); a new
      day starts all false with count 0; other days are untouched. */
  lemma RecordDay(s: Stats, name: string, today: Day)
    ensures today in Recorded(s, name, today).byDate
    ensures var before := if today in s.byDate then s.byDate[today] else EmptyDay;
            var after := Recorded(s, name, today).byDate[today];
            && (forall p :: after.Done(p) == (before.Done(p) || Key(p) == name))
            && after.count == (if name == "count" then 2 else before.count + 1)
    ensures forall d :: d != today ==>
              (d in Recorded(s, name, today).byDate <==> d in s.byDate) &&
              (d in s.byDate ==> Recorded(s, name, today).byDate[d] == s.byDate[d])
  {
  }

  /** With yesterday complete, or on the very first call, every call extends the
      streak, repeated calls on the same day included, and raises the longest streak
      when it is overtaken. */
  lemma StreakExtends(s: Stats, name: string, today: Day)
    requires DayComplete(s.byDate, today - 1) || s.lastPrayerDate.None?
    ensures Recorded(s, name, today).streak == s.streak + 1
    ensures Recorded(s, name, today).longestStreak == Max(s.longestStreak, s.streak + 1)
  {
    CountedKeepsOtherDays(s, name, today, today - 1);
  }

  /** Otherwise the streak restarts at 1 after a gap (a last date that is neither today
      nor yesterday) and is kept as it is on the same day or right after yesterday. */
  lemma StreakBreaksOrHolds(s: Stats, name: string, today: Day)
    requires !DayComplete(s.byDate, today - 1) && s.lastPrayerDate.Some?
    ensures s.lastPrayerDate != Some(today) && s.lastPrayerDate != Some(today - 1)
            ==> Recorded(s, name, today).streak == 1
    ensures s.lastPrayerDate == Some(today) || s.lastPrayerDate == Some(today - 1)
            ==> Recorded(s, name, today).streak == s.streak
    ensures Recorded(s, name, today).longestStreak == s.longestStreak
  {
    CountedKeepsOtherDays(s, name, today, today - 1);
  }

  lemma CountedKeepsOtherDays(s: Stats, name: string, today: Day, e: Day)
    requires e != today
    ensures DayComplete(Counted(s, name, today).byDate, e) == DayComplete(s.byDate, e)
  {
  }

  function Max(a: nat, b: nat): nat {
    if a >= b then a else b
  }

  /** The record invariant: the longest streak bounds the current one, it is at least 1
      once anything was recorded, and the total bounds the per-prayer counters' sum. */
  predicate Consistent(s: Stats) {
    && s.longestStreak >= s.streak
    && (s.lastPrayerDate.Some? ==> s.longestStreak >= 1)
    && s.total >= s.byPrayer.Sum()
  }

  lemma ZeroConsistent()
    ensures Consistent(Zero)
  {
  }

  /** Recording keeps the invariant, sets `lastPrayerDate` to the recorded day and never
      lowers the longest streak. */
  lemma RecordKeepsConsistent(s: Stats, name: string, today: Day)
    requires Consistent(s)
    ensures Consistent(Recorded(s, name, today))
    ensures Recorded(s, name, today).lastPrayerDate == Some(today)
    ensures Recorded(s, name, today).longestStreak >= s.longestStreak
  {
    var c := Counted(s, name, today);
    assert c.byPrayer.Sum() <= s.byPrayer.Sum() + 1;
  }

  /** One call of `recordPrayerCompleted`. */
  datatype Event = Event(name: string, date: Day)

  /** The record after a sequence of calls. */
  function RecordAll(s: Stats, evs: seq<Event>): Stats
    decreases |evs|
  {
    if evs == [] then s else RecordAll(Recorded(s, evs[0].name, evs[0].date), evs[1..])
  }

  /** Over any run of calls: the invariant holds throughout, the total counts the calls
      and the longest streak never decreases. */
  lemma {:induction false} RunKeepsConsistent(s: Stats, evs: seq<Event>)
    requires Consistent(s)
    ensures Consistent(RecordAll(s, evs))
    ensures RecordAll(s, evs).total == s.total + |evs|
    ensures RecordAll(s, evs).longestStreak >= s.longestStreak
    decreases |evs|
  {
    if evs != [] {
      RecordKeepsConsistent(s, evs[0].name, evs[0].date);
      RecordCounters(s, evs[0].name, evs[0].date);
      RunKeepsConsistent(Recorded(s, evs[0].name, evs[0].date), evs[1..]);
    }
  }

  // ---------------------------------------------------------------------------
  // Streak over full days: the code as written against the evidently intended rule.

  /** `updateStreak` with the evidently intended rule: yesterday's completeness extends
      the streak only on the first call of a new day. */
  function StreakAfterIntended(s: Stats, today: Day): Stats {
    var s1 :=
      if (DayComplete(s.byDate, today - 1) && s.lastPrayerDate != Some(today)) || s.lastPrayerDate.None? then
        var n := s.streak + 1;
        s.(streak := n, longestStreak := if n > s.longestStreak then n else s.longestStreak)
      else if s.lastPrayerDate != Some(today) && s.lastPrayerDate != Some(today - 1) then
        s.(streak := 1)
      else
        s;
    s1.(lastPrayerDate := Some(today))
  }

  function RecordedIntended(s: Stats, name: string, today: Day): Stats {
    StreakAfterIntended(Counted(s, name, today), today)
  }

  function RecordAllIntended(s: Stats, evs: seq<Event>): Stats
    decreases |evs|
  {
    if evs == [] then s else RecordAllIntended(RecordedIntended(s, evs[0].name, evs[0].date), evs[1..])
  }

  /** The five prayers of one day, recorded in order. */
  function FullDay(d: Day): seq<Event> {
    [Event("fajr", d), Event("dhuhr", d), Event("asr", d), Event("maghrib", d), Event("isha", d)]
  }

  /** All five prayers on each of `n` consecutive days starting at `d0`. */
  function FullDays(d0: Day, n: nat): seq<Event>
    decreases n
  {
    if n == 0 then [] else FullDays(d0, n - 1) + FullDay(d0 + n - 1)
  }

  predicate OnDay(evs: seq<Event>, d: Day) {
    forall i :: 0 <= i < |evs| ==> evs[i].date == d
  }

  lemma {:induction false} RecordAllAppend(s: Stats, a: seq<Event>, b: seq<Event>)
    ensures RecordAll(s, a + b) == RecordAll(RecordAll(s, a), b)
    decreases |a|
  {
    if a == [] {
      assert a + b == b;
    } else {
      assert (a + b)[0] == a[0];
      assert (a + b)[1..] == a[1..] + b;
      RecordAllAppend(Recorded(s, a[0].name, a[0].date), a[1..], b);
    }
  }

  lemma {:induction false} RecordAllIntendedAppend(s: Stats, a: seq<Event>, b: seq<Event>)
    ensures RecordAllIntended(s, a + b) == RecordAllIntended(RecordAllIntended(s, a), b)
    decreases |a|
  {
    if a == [] {
      assert a + b == b;
    } else {
      assert (a + b)[0] == a[0];
      assert (a + b)[1..] == a[1..] + b;
      RecordAllIntendedAppend(RecordedIntended(s, a[0].name, a[0].date), a[1..], b);
    }
  }

  /** Calls on day `d` never touch the entry of another day. */
  lemma {:induction false} SameDayKeepsOtherDays(s: Stats, evs: seq<Event>, d: Day, e: Day)
    requires OnDay(evs, d) && e != d
    ensures DayComplete(RecordAll(s, evs).byDate, e) == DayComplete(s.byDate, e)
    ensures DayComplete(RecordAllIntended(s, evs).byDate, e) == DayComplete(s.byDate, e)
    decreases |evs|
  {
    if evs != [] {
      SameDayKeepsOtherDays(Recorded(s, evs[0].name, d), evs[1..], d, e);
      SameDayKeepsOtherDays(RecordedIntended(s, evs[0].name, d), evs[1..], d, e);
    }
  }

  /** Once a prayer is marked on a day it stays marked. */
  lemma {:induction false} MarksPersist(s: Stats, evs: seq<Event>, d: Day, p: Prayer)
    requires d in s.byDate && s.byDate[d].Done(p)
    ensures d in RecordAll(s, evs).byDate && RecordAll(s, evs).byDate[d].Done(p)
    ensures d in RecordAllIntended(s, evs).byDate && RecordAllIntended(s, evs).byDate[d].Done(p)
    decreases |evs|
  {
    if evs != [] {
      MarksPersist(Recorded(s, evs[0].name, evs[0].date), evs[1..], d, p);
      MarksPersist(RecordedIntended(s, evs[0].name, evs[0].date), evs[1..], d, p);
    }
  }

  /** A prayer recorded at any point of a run is marked at its end. */
  lemma {:induction false} MarkedInRun(s: Stats, evs: seq<Event>, k: nat, p: Prayer)
    requires k < |evs| && evs[k].name == Key(p)
    ensures evs[k].date in RecordAll(s, evs).byDate
    ensures RecordAll(s, evs).byDate[evs[k].date].Done(p)
    ensures evs[k].date in RecordAllIntended(s, evs).byDate
    ensures RecordAllIntended(s, evs).byDate[evs[k].date].Done(p)
    decreases k
  {
    var e := evs[0];
    if k == 0 {
      RecordDay(s, e.name, e.date);
      assert Recorded(s, e.name, e.date).byDate == Counted(s, e.name, e.date).byDate;
      assert RecordedIntended(s, e.name, e.date).byDate == Counted(s, e.name, e.date).byDate;
      MarksPersist(Recorded(s, e.name, e.date), evs[1..], e.date, p);
      MarksPersist(RecordedIntended(s, e.name, e.date), evs[1..], e.date, p);
    } else {
      MarkedInRun(Recorded(s, e.name, e.date), evs[1..], k - 1, p);
      MarkedInRun(RecordedIntended(s, e.name, e.date), evs[1..], k - 1, p);
    }
  }

  /** After its five prayers are recorded, a day is complete, under either rule. */
  lemma FullDayCompletes(s: Stats, d: Day)
    ensures DayComplete(RecordAll(s, FullDay(d)).byDate, d)
    ensures DayComplete(RecordAllIntended(s, FullDay(d)).byDate, d)
  {
    var evs := FullDay(d);
    MarkedInRun(s, evs, 0, Fajr);
    MarkedInRun(s, evs, 1, Dhuhr);
    MarkedInRun(s, evs, 2, Asr);
    MarkedInRun(s, evs, 3, Maghrib);
    MarkedInRun(s, evs, 4, Isha);
  }

  /** As written: with yesterday complete, each of the day's calls adds one. */
  lemma {:induction false} AsWrittenEveryCallExtends(s: Stats, evs: seq<Event>, d: Day)
    requires OnDay(evs, d) && DayComplete(s.byDate, d - 1)
    ensures RecordAll(s, evs).streak == s.streak + |evs|
    ensures evs != [] ==> RecordAll(s, evs).lastPrayerDate == Some(d)
    decreases |evs|
  {
    if evs != [] {
      StreakExtends(s, evs[0].name, d);
      SameDayKeepsOtherDays(s, [evs[0]], d, d - 1);
      assert RecordAll(s, [evs[0]]) == Recorded(s, evs[0].name, d);
      AsWrittenEveryCallExtends(Recorded(s, evs[0].name, d), evs[1..], d);
    }
  }

  /** As written: on the day after an incomplete day, repeated calls keep the streak. */
  lemma {:induction false} AsWrittenSameDayHolds(s: Stats, evs: seq<Event>, d: Day)
    requires OnDay(evs, d) && !DayComplete(s.byDate, d - 1) && s.lastPrayerDate == Some(d)
    ensures RecordAll(s, evs).streak == s.streak
    ensures RecordAll(s, evs).lastPrayerDate == Some(d)
    decreases |evs|
  {
    if evs != [] {
      StreakBreaksOrHolds(s, evs[0].name, d);
      SameDayKeepsOtherDays(s, [evs[0]], d, d - 1);
      assert RecordAll(s, [evs[0]]) == Recorded(s, evs[0].name, d);
      AsWrittenSameDayHolds(Recorded(s, evs[0].name, d), evs[1..], d);
    }
  }

  /** Intended rule: a second call on the same day never changes the streak. */
  lemma {:induction false} IntendedSameDayHolds(s: Stats, evs: seq<Event>, d: Day)
    requires OnDay(evs, d) && s.lastPrayerDate == Some(d)
    ensures RecordAllIntended(s, evs).streak == s.streak
    ensures RecordAllIntended(s, evs).lastPrayerDate == Some(d)
    decreases |evs|
  {
    if evs != [] {
      IntendedSameDayHolds(RecordedIntended(s, evs[0].name, d), evs[1..], d);
    }
  }

  lemma FullDayOnDay(d: Day)
    ensures OnDay(FullDay(d), d) && OnDay(FullDay(d)[1..], d) && |FullDay(d)| == 5
  {
  }

  /** As written, the first complete day of a fresh record leaves a streak of 1. */
  lemma AsWrittenFirstDay(d: Day)
    ensures RecordAll(Zero, FullDay(d)).streak == 1
    ensures RecordAll(Zero, FullDay(d)).lastPrayerDate == Some(d)
    ensures DayComplete(RecordAll(Zero, FullDay(d)).byDate, d)
  {
    FullDayCompletes(Zero, d);
    var day := FullDay(d);
    FullDayOnDay(d);
    var first := Recorded(Zero, "fajr", d);
    StreakExtends(Zero, "fajr", d);
    CountedKeepsOtherDays(Zero, "fajr", d, d - 1);
    assert day == [day[0]] + day[1..];
    RecordAllAppend(Zero, [day[0]], day[1..]);
    AsWrittenSameDayHolds(first, day[1..], d);
  }

  /** As written, a complete day after a complete day adds 5 to the streak. */
  lemma AsWrittenNextDay(s: Stats, d: Day)
    requires DayComplete(s.byDate, d - 1)
    ensures RecordAll(s, FullDay(d)).streak == s.streak + 5
    ensures RecordAll(s, FullDay(d)).lastPrayerDate == Some(d)
    ensures DayComplete(RecordAll(s, FullDay(d)).byDate, d)
  {
    FullDayOnDay(d);
    AsWrittenEveryCallExtends(s, FullDay(d), d);
    FullDayCompletes(s, d);
  }

  /** As written, `n` consecutive complete days from a fresh record leave a streak of
      `5n - 4`, not `n`: from the second day on, every one of the five calls adds one. */
  lemma {:induction false} AsWrittenStreakAfterFullDays(d0: Day, n: nat)
    requires n >= 1
    ensures RecordAll(Zero, FullDays(d0, n)).streak == 5 * n - 4
    ensures RecordAll(Zero, FullDays(d0, n)).lastPrayerDate == Some(d0 + n - 1)
    ensures DayComplete(RecordAll(Zero, FullDays(d0, n)).byDate, d0 + n - 1)
    decreases n
  {
    if n == 1 {
      assert FullDays(d0, 1) == FullDays(d0, 0) + FullDay(d0);
      assert FullDays(d0, 0) == [];
      assert FullDays(d0, 1) == FullDay(d0);
      AsWrittenFirstDay(d0);
    } else {
      AsWrittenStreakAfterFullDays(d0, n - 1);
      AsWrittenDaysStep(d0, n);
    }
  }

  lemma AsWrittenDaysStep(d0: Day, n: nat)
    requires n >= 2
    requires RecordAll(Zero, FullDays(d0, n - 1)).streak == 5 * (n - 1) - 4
    requires DayComplete(RecordAll(Zero, FullDays(d0, n - 1)).byDate, d0 + n - 2)
    ensures RecordAll(Zero, FullDays(d0, n)).streak == 5 * n - 4
    ensures RecordAll(Zero, FullDays(d0, n)).lastPrayerDate == Some(d0 + n - 1)
    ensures DayComplete(RecordAll(Zero, FullDays(d0, n)).byDate, d0 + n - 1)
  {
    var s := RecordAll(Zero, FullDays(d0, n - 1));
    var d := d0 + n - 1;
    assert d - 1 == d0 + n - 2;
    AsWrittenNextDay(s, d);
    RecordNextFullDay(d0, n);
  }

  /** Recording `n` full days is recording the first `n - 1`, then the last one. */
  lemma RecordNextFullDay(d0: Day, n: nat)
    requires n >= 1
    ensures RecordAll(Zero, FullDays(d0, n)) == RecordAll(RecordAll(Zero, FullDays(d0, n - 1)), FullDay(d0 + n - 1))
  {
    assert FullDays(d0, n) == FullDays(d0, n - 1) + FullDay(d0 + n - 1);
    RecordAllAppend(Zero, FullDays(d0, n - 1), FullDay(d0 + n - 1));
  }

  /** With the intended rule, a complete day after a complete day (or the first day of
      a fresh record) adds exactly 1 to the streak. */
  lemma IntendedNextDay(s: Stats, d: Day)
    requires (DayComplete(s.byDate, d - 1) && s.lastPrayerDate == Some(d - 1)) || s.lastPrayerDate.None?
    ensures RecordAllIntended(s, FullDay(d)).streak == s.streak + 1
    ensures RecordAllIntended(s, FullDay(d)).lastPrayerDate == Some(d)
    ensures DayComplete(RecordAllIntended(s, FullDay(d)).byDate, d)
  {
    FullDayCompletes(s, d);
    var day := FullDay(d);
    FullDayOnDay(d);
    var first := RecordedIntended(s, "fajr", d);
    CountedKeepsOtherDays(s, "fajr", d, d - 1);
    assert first.streak == s.streak + 1;
    assert day == [day[0]] + day[1..];
    RecordAllIntendedAppend(s, [day[0]], day[1..]);
    IntendedSameDayHolds(first, day[1..], d);
  }

  /** With the intended rule, `n` consecutive complete days from a fresh record leave a
      streak of exactly `n`. */
  lemma {:induction false} IntendedStreakAfterFullDays(d0: Day, n: nat)
    requires n >= 1
    ensures RecordAllIntended(Zero, FullDays(d0, n)).streak == n
    ensures RecordAllIntended(Zero, FullDays(d0, n)).lastPrayerDate == Some(d0 + n - 1)
    ensures DayComplete(RecordAllIntended(Zero, FullDays(d0, n)).byDate, d0 + n - 1)
    decreases n
  {
    if n == 1 {
      assert FullDays(d0, 1) == FullDays(d0, 0) + FullDay(d0);
      assert FullDays(d0, 0) == [];
      assert FullDays(d0, 1) == FullDay(d0);
      IntendedNextDay(Zero, d0);
    } else {
      IntendedStreakAfterFullDays(d0, n - 1);
      IntendedDaysStep(d0, n);
    }
  }

  lemma IntendedDaysStep(d0: Day, n: nat)
    requires n >= 2
    requires RecordAllIntended(Zero, FullDays(d0, n - 1)).streak == n - 1
    requires RecordAllIntended(Zero, FullDays(d0, n - 1)).lastPrayerDate == Some(d0 + n - 2)
    requires DayComplete(RecordAllIntended(Zero, FullDays(d0, n - 1)).byDate, d0 + n - 2)
    ensures RecordAllIntended(Zero, FullDays(d0, n)).streak == n
    ensures RecordAllIntended(Zero, FullDays(d0, n)).lastPrayerDate == Some(d0 + n - 1)
    ensures DayComplete(RecordAllIntended(Zero, FullDays(d0, n)).byDate, d0 + n - 1)
  {
    var d := d0 + n - 1;
    var s := RecordAllIntended(Zero, FullDays(d0, n - 1));
    assert RecordAllIntended(Zero, FullDays(d0, n)) == RecordAllIntended(s, FullDay(d)) by {
      assert FullDays(d0, n) == FullDays(d0, n - 1) + FullDay(d);
      RecordAllIntendedAppend(Zero, FullDays(d0, n - 1), FullDay(d));
    }
    IntendedNextDay(s, d);
  }

  /** Two complete days in a row: the code reports a streak of 6 where 2 is meant. */
  lemma TwoFullDaysCounterexample(d0: Day)
    ensures RecordAll(Zero, FullDays(d0, 2)).streak == 6
    ensures RecordAllIntended(Zero, FullDays(d0, 2)).streak == 2
  {
    AsWrittenStreakAfterFullDays(d0, 2);
    IntendedStreakAfterFullDays(d0, 2);
  }

  // ---------------------------------------------------------------------------
  // Roll-ups over inclusive day ranges.

  /** The count a day contributes: its entry's `count`, or 0 when it has none. */
  function DayCount(byDate: map<Day, DayRecord>, d: Day): nat {
    if d in byDate then byDate[d].count else 0
  }

  /** The sum of `DayCount` over `start..end`, both included. */
  function CompletedIn(byDate: map<Day, DayRecord>, start: Day, end: Day): nat
    decreases end - start
  {
    if start > end then 0 else CompletedIn(byDate, start, end - 1) + DayCount(byDate, end)
  }

  function DaysIn(start: Day, end: Day): nat {
    if start > end then 0 else end - start + 1
  }

  /** `total > 0 ? Math.round((completed / total) * 100) : 0`. */
  function Percentage(completed: nat, total: nat): int {
    if total > 0 then JsRound((completed as real / total as real) * 100.0) else 0
  }

  /** The percentage is 0 for an empty range, 0 to 100 while the count stays within the
      total, and exactly 100 when they are equal. */
  lemma PercentageBounds(completed: nat, total: nat)
    ensures total == 0 ==> Percentage(completed, total) == 0
    ensures Percentage(completed, total) >= 0
    ensures completed <= total ==> Percentage(completed, total) <= 100
    ensures 0 < total == completed ==> Percentage(completed, total) == 100
  {
    if total > 0 {
      var q := completed as real / total as real;
      assert q * total as real == completed as real;
      assert q >= 0.0;
      if completed <= total {
        assert q <= 1.0;
      }
      if completed == total {
        assert q == 1.0;
      }
    }
  }

  /** Repeated records make day counts above 5, so percentages above 100 occur. */
  lemma PercentageCanExceedHundred()
    ensures Percentage(6, 5) == 120
  {
    assert (6 as real / 5 as real) * 100.0 == 120.0;
  }

  /** `{ completed, total, percentage }`. */
  datatype Progress = Progress(completed: nat, total: nat, percentage: int)

  /** The day-by-day loop of `getWeekStatistics` and `getMonthStatistics`
      (lines 157-171 and 184-198). */
  method RollUp(byDate: map<Day, DayRecord>, start: Day, end: Day) returns (p: Progress)
    ensures p.completed == CompletedIn(byDate, start, end)
    ensures p.total == 5 * DaysIn(start, end)
    ensures p.percentage == Percentage(p.completed, p.total)
  {
    var completed: nat := 0;
    var total: nat := 0;
    var day := start;
    while day <= end
      invariant start <= day && (day <= end + 1 || day == start)
      invariant completed == CompletedIn(byDate, start, day - 1)
      invariant total == 5 * (day - start)
      decreases end - day
    {
      if day in byDate {
        completed := completed + byDate[day].count;
      }
      total := total + 5;
      day := day + 1;
    }
    p := Progress(completed, total, if total > 0 then JsRound((completed as real / total as real) * 100.0) else 0);
  }

  /** The clock and calendar facts the roll-ups read from `moment()`: today, its day of
      the week (0 = first day of the locale's week) and of the month, and the length of
      the month. */
  datatype Calendar = Calendar(today: Day, weekday: int, dayOfMonth: int, daysInMonth: int) {
    predicate Valid() {
      0 <= weekday <= 6 && 1 <= dayOfMonth <= daysInMonth && 28 <= daysInMonth <= 31
    }
    function WeekStart(): Day { today - weekday }
    function WeekEnd(): Day { today - weekday + 6 }
    function MonthStart(): Day { today - dayOfMonth + 1 }
    function MonthEnd(): Day { today - dayOfMonth + daysInMonth }
  }

  /** `getWeekStatistics`: the seven days of the current week. */
  method WeekStatistics(byDate: map<Day, DayRecord>, cal: Calendar) returns (p: Progress)
    requires cal.Valid()
    ensures cal.WeekStart() <= cal.today <= cal.WeekEnd()
    ensures p.completed == CompletedIn(byDate, cal.WeekStart(), cal.WeekEnd())
    ensures p.total == 35
    ensures p.percentage == Percentage(p.completed, 35)
  {
    p := RollUp(byDate, cal.today - cal.weekday, cal.today - cal.weekday + 6);
  }

  /** `getMonthStatistics`: every day of the current month. */
  method MonthStatistics(byDate: map<Day, DayRecord>, cal: Calendar) returns (p: Progress)
    requires cal.Valid()
    ensures cal.MonthStart() <= cal.today <= cal.MonthEnd()
    ensures p.completed == CompletedIn(byDate, cal.MonthStart(), cal.MonthEnd())
    ensures p.total == 5 * cal.daysInMonth
    ensures p.percentage == Percentage(p.completed, 5 * cal.daysInMonth)
  {
    p := RollUp(byDate, cal.today - cal.dayOfMonth + 1, cal.today - cal.dayOfMonth + cal.daysInMonth);
  }

  /** One `dailyBreakdown` entry; `prayers` is the day's entry, or None for the
      `{ count: 0 }` placeholder of a day without one. */
  datatype DayBreakdown = DayBreakdown(date: Day, completed: nat, prayers: Option<DayRecord>)

  datatype PeriodSummary = PeriodSummary(startDate: Day, endDate: Day, completed: nat, total: nat,
                                         percentage: int, dailyBreakdown: seq<DayBreakdown>)

  /** The loop of `getStatisticsForPeriod` (lines 216-241): one breakdown entry per day
      of `start..end` in ascending order, days without an entry reporting 0. */
  method PeriodStatistics(byDate: map<Day, DayRecord>, start: Day, end: Day) returns (r: PeriodSummary)
    ensures r.startDate == start && r.endDate == end
    ensures r.completed == CompletedIn(byDate, start, end)
    ensures r.total == 5 * DaysIn(start, end)
    ensures r.percentage == Percentage(r.completed, r.total)
    ensures |r.dailyBreakdown| == DaysIn(start, end)
    ensures forall i :: 0 <= i < |r.dailyBreakdown| ==>
              && r.dailyBreakdown[i].date == start + i
              && r.dailyBreakdown[i].completed == DayCount(byDate, start + i)
              && r.dailyBreakdown[i].prayers == (if start + i in byDate then Some(byDate[start + i]) else None)
  {
    var completed: nat := 0;
    var total: nat := 0;
    var breakdown: seq<DayBreakdown> := [];
    var day := start;
    while day <= end
      invariant start <= day && (day <= end + 1 || day == start)
      invariant completed == CompletedIn(byDate, start, day - 1)
      invariant total == 5 * (day - start)
      invariant |breakdown| == day - start
      invariant forall i :: 0 <= i < |breakdown| ==>
                  && breakdown[i].date == start + i
                  && breakdown[i].completed == DayCount(byDate, start + i)
                  && breakdown[i].prayers == (if start + i in byDate then Some(byDate[start + i]) else None)
      decreases end - day
    {
      var dayData: Option<DayRecord> := if day in byDate then Some(byDate[day]) else None;
      var count: nat := if day in byDate then byDate[day].count else 0;
      completed := completed + count;
      total := total + 5;
      breakdown := breakdown + [DayBreakdown(day, count, dayData)];
      day := day + 1;
    }
    r := PeriodSummary(start, end, completed, total,
                       if total > 0 then JsRound((completed as real / total as real) * 100.0) else 0,
                       breakdown);
  }

  /** The result of `getStatistics`; `thisWeek` and `thisMonth` are absent for a user
      without a record. */
  datatype Summary = Summary(total: nat, byPrayer: ByPrayer, streak: nat, longestStreak: nat,
                             todayProgress: Progress, thisWeek: Option<Progress>,
                             thisMonth: Option<Progress>)

  /** `Math.round((count / 5) * 100)`. */
  function TodayPercentage(count: nat): (r: int)
    ensures r == 20 * count
  {
    var x := (count as real / 5.0) * 100.0;
    assert x == (20 * count) as real;
    JsRound(x)
  }

  /** What `getStatistics` reports for a stored record (or its absence). */
  function SummaryOf(stored: Option<Stats>, cal: Calendar): Summary {
    match stored
    case None => Summary(0, NoPrayers, 0, 0, Progress(0, 5, 0), None, None)
    case Some(s) =>
      var today := DayCount(s.byDate, cal.today);
      Summary(s.total, s.byPrayer, s.streak, s.longestStreak,
              Progress(today, 5, TodayPercentage(today)),
              Some(RangeProgress(s.byDate, cal.WeekStart(), cal.WeekEnd())),
              Some(RangeProgress(s.byDate, cal.MonthStart(), cal.MonthEnd())))
  }

  function RangeProgress(byDate: map<Day, DayRecord>, start: Day, end: Day): Progress {
    var c := CompletedIn(byDate, start, end);
    Progress(c, 5 * DaysIn(start, end), Percentage(c, 5 * DaysIn(start, end)))
  }

  /** A range with no recorded day has nothing completed. */
  lemma {:induction false} EmptyRangeCompletesNothing(start: Day, end: Day)
    ensures CompletedIn(map[], start, end) == 0
    decreases end - start
  {
    if start <= end {
      EmptyRangeCompletesNothing(start, end - 1);
    }
  }

  /** After a reset the summary is all zeros: no total, no streak, today 0 of 5 at 0%,
      and empty week and month roll-ups at 0%. */
  lemma ResetSummaryIsZero(cal: Calendar)
    requires cal.Valid()
    ensures var r := SummaryOf(Some(Zero), cal);
            && r.total == 0 && r.streak == 0 && r.longestStreak == 0
            && r.byPrayer == NoPrayers
            && r.todayProgress == Progress(0, 5, 0)
            && r.thisWeek == Some(Progress(0, 35, 0))
            && r.thisMonth == Some(Progress(0, 5 * cal.daysInMonth, 0))
  {
    EmptyRangeCompletesNothing(cal.WeekStart(), cal.WeekEnd());
    EmptyRangeCompletesNothing(cal.MonthStart(), cal.MonthEnd());
    PercentageBounds(0, 35);
    PercentageBounds(0, 5 * cal.daysInMonth);
    assert (0 as real / 35 as real) * 100.0 == 0.0;
    assert (0 as real / (5 * cal.daysInMonth) as real) * 100.0 == 0.0;
  }

  /** The progress of a complete day: 5 of 5 at 100%. */
  lemma CompleteDayIsHundredPercent()
    ensures TodayPercentage(5) == 100
  {
  }

  /** The English names the APL screen shows, and the locales with their own message. */
  datatype PrayerCount = PrayerCount(name: string, nameAr: string, count: nat)

  datatype StatisticsView = StatisticsView(
    total: nat, todayCompleted: nat, todayTotal: nat, todayPercentage: int,
    streak: nat, longestStreak: nat,
    weekCompleted: nat, weekTotal: nat, weekPercentage: int,
    monthCompleted: nat, monthTotal: nat, monthPercentage: int,
    byPrayer: seq<PrayerCount>)

  /** `generateStatisticsAPLData` (lines 266-293). It reads `thisWeek` and `thisMonth`
      unconditionally, so the summary of a user without a record makes it throw. */
  function GenerateStatisticsAPLData(s: Summary): (r: Result<StatisticsView>)
    ensures r.Ok? <==> s.thisWeek.Some? && s.thisMonth.Some?
    ensures r.Ok? ==> |r.value.byPrayer| == 5
    ensures r.Ok? ==> (forall i :: 0 <= i < 5 ==>
                         r.value.byPrayer[i] == PrayerCount(English(Order[i]), Arabic(Order[i]), s.byPrayer.Get(Order[i])))
    ensures r.Ok? ==> (r.value.total == s.total && r.value.streak == s.streak
                       && r.value.longestStreak == s.longestStreak)
    ensures r.Ok? ==> (r.value.todayCompleted == s.todayProgress.completed
                       && r.value.todayTotal == s.todayProgress.total
                       && r.value.todayPercentage == s.todayProgress.percentage)
    ensures r.Ok? ==> (r.value.weekCompleted == s.thisWeek.value.completed
                       && r.value.weekTotal == s.thisWeek.value.total
                       && r.value.weekPercentage == s.thisWeek.value.percentage)
    ensures r.Ok? ==> (r.value.monthCompleted == s.thisMonth.value.completed
                       && r.value.monthTotal == s.thisMonth.value.total
                       && r.value.monthPercentage == s.thisMonth.value.percentage)
  {
    match (s.thisWeek, s.thisMonth)
    case (Some(w), Some(m)) =>
      Ok(StatisticsView(
        s.total, s.todayProgress.completed, s.todayProgress.total, s.todayProgress.percentage,
        s.streak, s.longestStreak,
        w.completed, w.total, w.percentage,
        m.completed, m.total, m.percentage,
        [PrayerCount("Fajr", "الفجر", s.byPrayer.fajr),
         PrayerCount("Dhuhr", "الظهر", s.byPrayer.dhuhr),
         PrayerCount("Asr", "العصر", s.byPrayer.asr),
         PrayerCount("Maghrib", "المغرب", s.byPrayer.maghrib),
         PrayerCount("Isha", "العشاء", s.byPrayer.isha)]))
    case _ => Err("Cannot read properties of undefined (reading 'completed')")
  }

  /** For a user without a record the APL data cannot be built. */
  lemma FreshUserHasNoAPLData(cal: Calendar)
    ensures GenerateStatisticsAPLData(SummaryOf(None, cal)).Err?
  {
  }

  /** `formatStatisticsMessage` (lines 250-258): the message of the exact locale
      `ar-SA`, `fr-FR` or `en-US`, Arabic for any other. */
  function FormatStatisticsMessage(s: Summary, locale: string): (r: string)
    ensures Infix(NatToString(s.total), r)
    ensures Infix(NatToString(s.streak), r)
    ensures locale != "fr-FR" && locale != "en-US" ==> r == StatisticsMessage(s, Ar)
    ensures locale == "fr-FR" ==> r == StatisticsMessage(s, Fr)
    ensures locale == "en-US" ==> r == StatisticsMessage(s, En)
  {
    var l := if locale == "fr-FR" then Fr else if locale == "en-US" then En else Ar;
    StatisticsMessageMentions(s, l);
    StatisticsMessage(s, l)
  }

  /** The message template of each locale, cut at the total and at the streak. */
  function StatisticsMessage(s: Summary, l: Lang): string {
    MessageHead(l) + NatToString(s.total) + MessageMiddle(s, l) + NatToString(s.streak) + MessageTail(s, l)
  }

  function MessageHead(l: Lang): string {
    match l
    case Ar => "إحصائياتك: أكملت "
    case Fr => "Vos statistiques: Vous avez accompli "
    case En => "Your statistics: You've completed "
  }

  function MessageMiddle(s: Summary, l: Lang): string {
    var done := NatToString(s.todayProgress.completed);
    var of := NatToString(s.todayProgress.total);
    match l
    case Ar => " صلاة إجمالاً. اليوم أكملت " + done + " من " + of + " صلوات. سلسلتك الحالية "
    case Fr => " prières au total. Aujourd'hui, vous avez accompli " + done + " prières sur " + of
               + ". Votre série actuelle est de "
    case En => " prayers in total. Today, you completed " + done + " out of " + of
               + " prayers. Your current streak is "
  }

  function MessageTail(s: Summary, l: Lang): string {
    var longest := NatToString(s.longestStreak);
    match l
    case Ar => " يوم، وأطول سلسلة كانت " + longest + " يوم. ما شاء الله، استمر!"
    case Fr => " jours, et votre plus longue série était de " + longest + " jours. Continuez ainsi!"
    case En => " days, and your longest streak was " + longest + " days. Keep it up!"
  }

  lemma StatisticsMessageMentions(s: Summary, l: Lang)
    ensures Infix(NatToString(s.total), StatisticsMessage(s, l))
    ensures Infix(NatToString(s.streak), StatisticsMessage(s, l))
  {
    InfixOfFive(MessageHead(l), NatToString(s.total), MessageMiddle(s, l), NatToString(s.streak), MessageTail(s, l));
  }

  // ---------------------------------------------------------------------------
  // The persisted record and the user's attribute store.

  /** A `prayerStats` object, updated in place. */
  class PrayerStats {
    var total: nat
    var byPrayer: ByPrayer
    var byDate: map<Day, DayRecord>
    var streak: nat
    var longestStreak: nat
    var lastPrayerDate: Option<Day>

    function Value(): Stats
      reads this
    {
      Stats(total, byPrayer, byDate, streak, longestStreak, lastPrayerDate)
    }

    /** The zero record of lines 18-31 and 302-315. */
    constructor ()
      ensures Value() == Zero
    {
      total := 0;
      byPrayer := NoPrayers;
      byDate := map[];
      streak := 0;
      longestStreak := 0;
      lastPrayerDate := None;
    }

    /** `updateStreak(stats, today)`. */
    method UpdateStreak(today: Day)
      modifies this
      ensures Value() == StreakAfter(old(Value()), today)
      ensures lastPrayerDate == Some(today)
      ensures longestStreak >= old(longestStreak)
      ensures total == old(total) && byPrayer == old(byPrayer) && byDate == old(byDate)
    {
      var yesterday := today - 1;
      var yesterdayComplete := yesterday in byDate && byDate[yesterday].fajr && byDate[yesterday].dhuhr
        && byDate[yesterday].asr && byDate[yesterday].maghrib && byDate[yesterday].isha;
      if yesterdayComplete || lastPrayerDate.None? {
        streak := streak + 1;
        if streak > longestStreak {
          longestStreak := streak;
        }
      } else if lastPrayerDate != Some(today) && lastPrayerDate != Some(yesterday) {
        streak := 1;
      }
      lastPrayerDate := Some(today);
    }

    /** Lines 38-61 of `recordPrayerCompleted`, once the record exists. */
    method RecordCompleted(name: string, today: Day)
      modifies this
      ensures Value() == Recorded(old(Value()), name, today)
    {
      ghost var before := Value();
      total := total + 1;
      match PrayerOfKey(name) {
        case Some(p) => byPrayer := byPrayer.Inc(p);
        case None =>
      }
      if today !in byDate {
        byDate := byDate[today := EmptyDay];
      }
      var day := byDate[today].Set(name);
      byDate := byDate[today := day.(count := day.count + 1)];
      assert Value() == Counted(before, name, today);
      UpdateStreak(today);
    }
  }

  /** The user's persistent attributes; `prayerStats` is absent until first use. */
  class UserAttributes {
    var prayerStats: PrayerStats?

    constructor (stats: PrayerStats?)
      ensures prayerStats == stats
    {
      prayerStats := stats;
    }

    function Stored(): Option<Stats>
      reads this, prayerStats
    {
      if prayerStats == null then None else Some(prayerStats.Value())
    }

    function StoredOrZero(): Stats
      reads this, prayerStats
    {
      if prayerStats == null then Zero else prayerStats.Value()
    }

    /** `recordPrayerCompleted(attributesManager, prayerName, date)`: creates the zero
        record when absent, then records the prayer in place and returns the record. */
    method RecordPrayerCompleted(name: string, date: Day) returns (stats: PrayerStats)
      modifies this, prayerStats
      ensures prayerStats == stats
      ensures old(prayerStats) != null ==> stats == old(prayerStats)
      ensures old(prayerStats) == null ==> fresh(stats)
      ensures stats.Value() == Recorded(old(StoredOrZero()), name, date)
    {
      if prayerStats == null {
        prayerStats := new PrayerStats();
      }
      stats := prayerStats;
      stats.RecordCompleted(name, date);
    }

    /** `getStatistics`: the summary, with the week and month roll-ups when a record
        exists. */
    method GetStatistics(cal: Calendar) returns (s: Summary)
      requires cal.Valid()
      ensures s == SummaryOf(Stored(), cal)
    {
      if prayerStats == null {
        return Summary(0, NoPrayers, 0, 0, Progress(0, 5, 0), None, None);
      }
      var byDate := prayerStats.byDate;
      var today := if cal.today in byDate then byDate[cal.today].count else 0;
      var week := WeekStatistics(byDate, cal);
      var month := MonthStatistics(byDate, cal);
      s := Summary(prayerStats.total, prayerStats.byPrayer, prayerStats.streak, prayerStats.longestStreak,
                   Progress(today, 5, TodayPercentage(today)), Some(week), Some(month));
    }

    /** `getStatisticsForPeriod`: the roll-up of `start..end` over the stored days, or
        over none when there is no record. */
    method GetStatisticsForPeriod(start: Day, end: Day) returns (r: PeriodSummary)
      ensures r.startDate == start && r.endDate == end
      ensures r.completed == CompletedIn(StoredOrZero().byDate, start, end)
      ensures r.total == 5 * DaysIn(start, end)
      ensures r.percentage == Percentage(r.completed, r.total)
      ensures |r.dailyBreakdown| == DaysIn(start, end)
      ensures forall i :: 0 <= i < |r.dailyBreakdown| ==>
                && r.dailyBreakdown[i].date == start + i
                && r.dailyBreakdown[i].completed == DayCount(StoredOrZero().byDate, start + i)
                && r.dailyBreakdown[i].prayers == (if start + i in StoredOrZero().byDate
                                                   then Some(StoredOrZero().byDate[start + i]) else None)
    {
      var byDate := if prayerStats == null then map[] else prayerStats.byDate;
      r := PeriodStatistics(byDate, start, end);
    }

    /** `resetStatistics`: replaces the record by a fresh zero record. */
    method ResetStatistics()
      modifies this
      ensures prayerStats != null && fresh(prayerStats)
      ensures prayerStats.Value() == Zero
    {
      prayerStats := new PrayerStats();
    }
  }
}
