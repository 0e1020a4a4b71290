/** The Hijri calendar service of `lambda/hijriCalendarService.js`: month names, the
    table of Islamic events keyed by `"month-day"`, the per-month event list sorted by
    day, the twelve-month scan for upcoming events and the spoken date announcement.
    Today's Hijri date, which the service fetches from the Aladhan API, is a parameter. */
module Hijri {
  import opened Common

  /** A Hijri date as the service reads it: `day`, `month.number` and `year`. */
  datatype HijriDate = HijriDate(day: nat, month: int, year: nat)

  /** `HIJRI_MONTHS` (lines 14-27). */
  function Months(l: Lang): (r: seq<string>)
    ensures |r| == 12
  {
    match l
    case Ar => ["محرم", "صفر", "ربيع الأول", "ربيع الآخر", "جمادى الأولى", "جمادى الآخرة",
                "رجب", "شعبان", "رمضان", "شوال", "ذو القعدة", "ذو الحجة"]
    case Fr => ["Mouharram", "Safar", "Rabi al-Awwal", "Rabi al-Thani", "Joumada al-Oula", "Joumada al-Akhira",
                "Rajab", "Chaaban", "Ramadan", "Chawwal", "Dhou al-Qi'da", "Dhou al-Hijja"]
    case En => ["Muharram", "Safar", "Rabi' al-Awwal", "Rabi' al-Thani", "Jumada al-Ula", "Jumada al-Akhirah",
                "Rajab", "Sha'ban", "Ramadan", "Shawwal", "Dhu al-Qi'dah", "Dhu al-Hijjah"]
  }

  /** `HIJRI_MONTHS[l][n - 1]`, undefined outside 1..12. */
  function MonthName(l: Lang, n: int): (r: Option<string>)
    ensures r.Some? <==> 1 <= n <= 12
  {
    if 1 <= n <= 12 then Some(Months(l)[n - 1]) else None
  }

  // ---------------------------------------------------------------------------
  // Formatting a date.

  /** The three templates of lines 158-162. */
  function DateTemplate(l: Lang, d: HijriDate): string {
    Template(l, OrUndefined(MonthName(l, d.month)), NatToString(d.day), NatToString(d.year))
  }

  function Template(l: Lang, month: string, day: string, year: string): string {
    match l
    case Ar => day + " " + month + " " + year + " هـ"
    case Fr => day + " " + month + " " + year + " H"
    case En => month + " " + day + ", " + year + " AH"
  }

  /** The suffix each template ends with. */
  function Era(l: Lang): string {
    match l
    case Ar => " هـ"
    case Fr => " H"
    case En => " AH"
  }

  /** `formatHijriDate(hijriDate, locale)` (lines 153-165) as written: `''` without a
      date, and a thrown TypeError for a locale other than `ar`, `fr` or `en`, because
      `HIJRI_MONTHS[locale]` is read before the `|| templates['ar']` fallback. */
  function FormatHijriDate(d: Option<HijriDate>, locale: string): (r: Result<string>)
    ensures d.None? ==> r == Ok("")
    ensures r.Err? <==> d.Some? && LangOf(locale).None?
    ensures r.Ok? && d.Some? ==> r.value == DateTemplate(LangOf(locale).value, d.value)
  {
    match d
    case None => Ok("")
    case Some(date) =>
      match LangOf(locale)
      case None => Err(("Cannot read properties of " + "undefined (reading '") + IntToString(date.month - 1) + "')")
      case Some(l) => Ok(DateTemplate(l, date))
  }

  /** Every rendered date carries the month's name in that language and ends with the
      era suffix; the English template leads with the month. */
  lemma DateTemplateShape(l: Lang, d: HijriDate)
    requires 1 <= d.month <= 12
    ensures Infix(Months(l)[d.month - 1], DateTemplate(l, d))
    ensures var r := DateTemplate(l, d);
            |r| >= |Era(l)| && r[|r| - |Era(l)|..] == Era(l)
    ensures l == En ==> Months(En)[d.month - 1] <= DateTemplate(En, d)
  {
    var m := Months(l)[d.month - 1];
    assert DateTemplate(l, d) == Template(l, m, NatToString(d.day), NatToString(d.year)) by {
      assert MonthName(l, d.month) == Some(m);
    }
    TemplateShape(l, m, NatToString(d.day), NatToString(d.year));
  }

  lemma TemplateShape(l: Lang, m: string, day: string, year: string)
    ensures Infix(m, Template(l, m, day, year))
    ensures var r := Template(l, m, day, year);
            |r| >= |Era(l)| && r[|r| - |Era(l)|..] == Era(l)
    ensures l == En ==> m <= Template(En, m, day, year)
  {
    var r := Template(l, m, day, year);
    match l
    case Ar =>
      assert r == (day + " ") + m + (" " + year + " هـ");
      InfixOfConcat(day + " ", m, " " + year + " هـ");
    case Fr =>
      assert r == (day + " ") + m + (" " + year + " H");
      InfixOfConcat(day + " ", m, " " + year + " H");
    case En =>
      assert r == [] + m + (" " + day + ", " + year + " AH");
      InfixOfConcat([], m, " " + day + ", " + year + " AH");
  }

  // ---------------------------------------------------------------------------
  // The event table.

  /** One event of `ISLAMIC_EVENTS`: its names and its `type`. */
  datatype IslamicEvent = IslamicEvent(names: Texts, kind: string)

  /** The keys of `ISLAMIC_EVENTS` (lines 32-105), in the order `Object.keys` lists
      them. */
  const EventKeys: seq<string> := ["1-1", "1-10", "3-12", "7-27", "8-15", "9-1", "9-21", "9-27",
                                   "10-1", "12-8", "12-9", "12-10"]

  /** The event stored under `EventKeys[i]`. */
  function EventAt(i: nat): IslamicEvent
    requires i < |EventKeys|
  {
    match i
    case 0 => IslamicEvent(Texts("رأس السنة الهجرية", "Nouvel An Islamique", "Islamic New Year"), "holiday")
    case 1 => IslamicEvent(Texts("عاشوراء", "Achoura", "Ashura"), "important")
    case 2 => IslamicEvent(Texts("المولد النبوي الشريف", "Mawlid (Naissance du Prophète)", "Mawlid (Prophet's Birthday)"), "celebration")
    case 3 => IslamicEvent(Texts("الإسراء والمعراج", "Isra et Mi'raj", "Isra and Mi'raj"), "important")
    case 4 => IslamicEvent(Texts("نصف شعبان", "Mi-Sha'ban", "Mid-Sha'ban"), "important")
    case 5 => IslamicEvent(Texts("أول رمضان", "Premier jour de Ramadan", "First Day of Ramadan"), "ramadan")
    case 6 => IslamicEvent(Texts("ليلة القدر المحتملة", "Laylat al-Qadr (probable)", "Laylat al-Qadr (probable)"), "ramadan")
    case 7 => IslamicEvent(Texts("ليلة القدر", "Nuit du Destin", "Night of Decree"), "ramadan")
    case 8 => IslamicEvent(Texts("عيد الفطر", "Aïd al-Fitr", "Eid al-Fitr"), "eid")
    case 9 => IslamicEvent(Texts("يوم عرفة", "Jour d'Arafat", "Day of Arafat"), "important")
    case 10 => IslamicEvent(Texts("وقفة عرفات", "Veille d'Arafat", "Standing at Arafat"), "hajj")
    case _ => IslamicEvent(Texts("عيد الأضحى", "Aïd al-Adha", "Eid al-Adha"), "eid")
  }

  /** The key `${month}-${day}` of line 175. */
  function EventKey(month: nat, day: nat): string {
    NatToString(month) + "-" + NatToString(day)
  }

  /** `key.split('-').map(Number)`, the month and day of a key (line 188). */
  function KeyParts(key: string): (nat, nat) {
    var month := BeforeDash(key);
    var rest := if |month| < |key| then key[|month| + 1..] else "";
    (ParseNat(month), ParseNat(BeforeDash(rest)))
  }

  /** A key read back gives the month and day it was built from. */
  lemma KeyPartsOfEventKey(month: nat, day: nat)
    ensures KeyParts(EventKey(month, day)) == (month, day)
  {
    var m := NatToString(month);
    var d := NatToString(day);
    assert '-' !in m by {
      assert forall i :: 0 <= i < |m| ==> '0' <= m[i] <= '9';
    }
    assert '-' !in d by {
      assert forall i :: 0 <= i < |d| ==> '0' <= d[i] <= '9';
    }
    BeforeDashOfConcat(m, d);
    var key := EventKey(month, day);
    assert key[|m| + 1..] == d;
    assert BeforeDash(d) == d by {
      BeforeDashOfConcat(d, "");
      assert d + "-" + "" == d + "-";
      BeforeDashPrefix(d);
    }
    ParseNatToString(month);
    ParseNatToString(day);
  }

  /** A dash-free text is its own first piece. */
  lemma {:induction false} BeforeDashPrefix(x: string)
    requires '-' !in x
    ensures BeforeDash(x) == x
    decreases |x|
  {
    if x != [] {
      BeforeDashPrefix(x[1..]);
    }
  }

  /** Distinct dates have distinct keys. */
  lemma EventKeyInjective(m1: nat, d1: nat, m2: nat, d2: nat)
    requires EventKey(m1, d1) == EventKey(m2, d2)
    ensures m1 == m2 && d1 == d2
  {
    KeyPartsOfEventKey(m1, d1);
    KeyPartsOfEventKey(m2, d2);
  }

  /** The month and day each key of the table names, in table order. */
  const EventDates: seq<(nat, nat)> := [(1, 1), (1, 10), (3, 12), (7, 27), (8, 15), (9, 1), (9, 21), (9, 27),
                                        (10, 1), (12, 8), (12, 9), (12, 10)]

  /** Every key of the table is the canonical key of its month and day, and reads back
      as them. */
  lemma TableEntry(i: nat)
    requires i < |EventKeys|
    ensures |EventDates| == |EventKeys|
    ensures EventKeys[i] == EventKey(EventDates[i].0, EventDates[i].1)
    ensures KeyParts(EventKeys[i]) == EventDates[i]
  {
    var (m, d) := EventDates[i];
    assert NatToString(m) == EventKeys[i][..|NatToString(m)|] by {
      assert NatToString(10) == "10" && NatToString(12) == "12";
    }
    assert EventKeys[i] == EventKey(m, d) by {
      assert NatToString(10) == "10" && NatToString(12) == "12" && NatToString(15) == "15";
      assert NatToString(21) == "21" && NatToString(27) == "27";
    }
    KeyPartsOfEventKey(m, d);
  }

  /** `ISLAMIC_EVENTS[key] || null`, from position `k` on. */
  function LookupFrom(key: string, k: nat): (r: Option<IslamicEvent>)
    requires k <= |EventKeys|
    ensures r.None? <==> forall i :: k <= i < |EventKeys| ==> EventKeys[i] != key
    ensures r.Some? ==> exists i :: k <= i < |EventKeys| && EventKeys[i] == key && EventAt(i) == r.value
    decreases |EventKeys| - k
  {
    if k == |EventKeys| then None
    else if EventKeys[k] == key then Some(EventAt(k))
    else LookupFrom(key, k + 1)
  }

  /** `getIslamicEvent(hijriDate)` (lines 172-177). */
  function GetIslamicEvent(d: Option<HijriDate>): (r: Option<IslamicEvent>)
    ensures d.None? ==> r.None?
  {
    match d
    case None => None
    case Some(date) => if date.month < 0 then None else LookupFrom(EventKey(date.month, date.day), 0)
  }

  /** An event is found exactly for a month and day that some table entry names, and it
      is that entry's event. */
  lemma IslamicEventIffInTable(date: HijriDate)
    requires date.month >= 0
    ensures GetIslamicEvent(Some(date)).Some? <==>
              exists i :: 0 <= i < |EventKeys| && EventDates[i] == (date.month, date.day)
    ensures GetIslamicEvent(Some(date)).Some? ==>
              exists i :: 0 <= i < |EventKeys| && EventDates[i] == (date.month, date.day)
                          && EventAt(i) == GetIslamicEvent(Some(date)).value
  {
    var key := EventKey(date.month, date.day);
    forall i | 0 <= i < |EventKeys|
      ensures EventKeys[i] == key <==> EventDates[i] == (date.month, date.day)
    {
      TableEntry(i);
      if EventKeys[i] == key {
        EventKeyInjective(EventDates[i].0, EventDates[i].1, date.month, date.day);
      }
    }
  }

  // ---------------------------------------------------------------------------
  // Events of one month.

  /** `{ day, ...ISLAMIC_EVENTS[key] }`. */
  datatype MonthEvent = MonthEvent(day: nat, event: IslamicEvent)

  /** The events of month `m` among the first `n` table entries, in table order. */
  function FilterMonth(m: int, n: nat): seq<MonthEvent>
    requires n <= |EventKeys|
  {
    if n == 0 then []
    else
      var (month, day) := EventDates[n - 1];
      FilterMonth(m, n - 1) + (if month == m then [MonthEvent(day, EventAt(n - 1))] else [])
  }

  predicate SortedByDay(s: seq<MonthEvent>) {
    forall i, j :: 0 <= i < j < |s| ==> s[i].day <= s[j].day
  }

  /** Inserts `x` before the first element with a later day. */
  function InsertByDay(x: MonthEvent, s: seq<MonthEvent>): (r: seq<MonthEvent>)
    ensures multiset(r) == multiset(s) + multiset{x}
    decreases |s|
  {
    if s == [] then [x]
    else if s[0].day > x.day then [x] + s
    else
      assert s == [s[0]] + s[1..];
      [s[0]] + InsertByDay(x, s[1..])
  }

  /** Inserting into a sorted sequence keeps it sorted. */
  lemma {:induction false} InsertKeepsSorted(x: MonthEvent, s: seq<MonthEvent>)
    requires SortedByDay(s)
    ensures SortedByDay(InsertByDay(x, s))
    decreases |s|
  {
    var r := InsertByDay(x, s);
    if s == [] {
    } else if s[0].day > x.day {
      assert r == [x] + s;
      forall i, j | 0 <= i < j < |r|
        ensures r[i].day <= r[j].day
      {
        assert r[j] == s[j - 1];
        if i > 0 {
          assert r[i] == s[i - 1];
        }
      }
    } else {
      var rest := InsertByDay(x, s[1..]);
      InsertKeepsSorted(x, s[1..]);
      assert s == [s[0]] + s[1..];
      assert r == [s[0]] + rest;
      InsertBound(x, s[1..], s[0].day);
      forall i, j | 0 <= i < j < |r|
        ensures r[i].day <= r[j].day
      {
        assert r[j] == rest[j - 1];
        if i > 0 {
          assert r[i] == rest[i - 1];
        }
      }
    }
  }

  /** Inserting keeps a lower bound on the days that `x` and `s` share. */
  lemma {:induction false} InsertBound(x: MonthEvent, s: seq<MonthEvent>, b: nat)
    requires x.day >= b
    requires forall i :: 0 <= i < |s| ==> s[i].day >= b
    ensures forall k :: 0 <= k < |InsertByDay(x, s)| ==> InsertByDay(x, s)[k].day >= b
    decreases |s|
  {
    if s != [] && s[0].day <= x.day {
      InsertBound(x, s[1..], b);
      var rest := InsertByDay(x, s[1..]);
      assert InsertByDay(x, s) == [s[0]] + rest;
    }
  }

  /** An element no earlier than all others goes last: inserting is then appending,
      which is what keeps the sort stable. */
  lemma {:induction false} InsertLast(x: MonthEvent, s: seq<MonthEvent>)
    requires forall i :: 0 <= i < |s| ==> s[i].day <= x.day
    ensures InsertByDay(x, s) == s + [x]
    decreases |s|
  {
    if s != [] {
      InsertLast(x, s[1..]);
      assert s == [s[0]] + s[1..];
    }
  }

  /** `events.sort((a, b) => a.day - b.day)`: a stable sort by day, as the engine's sort
      is. */
  function SortByDay(s: seq<MonthEvent>): (r: seq<MonthEvent>)
    ensures multiset(r) == multiset(s)
    ensures SortedByDay(r)
    decreases |s|
  {
    if s == [] then []
    else
      var init := s[..|s| - 1];
      assert s == init + [s[|s| - 1]];
      InsertKeepsSorted(s[|s| - 1], SortByDay(init));
      InsertByDay(s[|s| - 1], SortByDay(init))
  }

  /** Sorting a sequence already in day order leaves it as it is. */
  lemma {:induction false} SortSortedIsIdentity(s: seq<MonthEvent>)
    requires SortedByDay(s)
    ensures SortByDay(s) == s
    decreases |s|
  {
    if s != [] {
      var init := s[..|s| - 1];
      assert s == init + [s[|s| - 1]];
      assert SortedByDay(init);
      SortSortedIsIdentity(init);
      InsertLast(s[|s| - 1], init);
    }
  }

  /** `getMonthEvents(monthNumber)` (lines 184-198). */
  method GetMonthEvents(m: int) returns (events: seq<MonthEvent>)
    ensures events == MonthEventsOf(m)
    ensures SortedByDay(events)
    ensures multiset(events) == multiset(FilterMonth(m, |EventKeys|))
  {
    events := [];
    var i := 0;
    while i < |EventKeys|
      invariant 0 <= i <= |EventKeys|
      invariant events == FilterMonth(m, i)
    {
      var parts := KeyParts(EventKeys[i]);
      TableEntry(i);
      if parts.0 == m {
        events := events + [MonthEvent(parts.1, EventAt(i))];
      }
      i := i + 1;
    }
    events := SortByDay(events);
  }

  /** The value `getMonthEvents` returns. */
  function MonthEventsOf(m: int): seq<MonthEvent> {
    SortByDay(FilterMonth(m, |EventKeys|))
  }

  /** An element of the filter comes from a table entry of that month. */
  lemma {:induction false} FilterMonthFromTable(m: int, n: nat, x: MonthEvent)
    requires n <= |EventKeys|
    ensures x in FilterMonth(m, n) <==>
              exists i :: 0 <= i < n && EventDates[i] == (m, x.day) && EventAt(i) == x.event
    decreases n
  {
    if n > 0 {
      FilterMonthFromTable(m, n - 1, x);
    }
  }

  /** A month's list holds exactly the table's events of that month. */
  lemma MonthEventsExact(m: int, x: MonthEvent)
    ensures x in MonthEventsOf(m) <==>
              exists i :: 0 <= i < |EventKeys| && EventDates[i] == (m, x.day) && EventAt(i) == x.event
  {
    FilterMonthFromTable(m, |EventKeys|, x);
    assert x in MonthEventsOf(m) <==> x in multiset(FilterMonth(m, |EventKeys|));
  }

  /** Ramadan, the ninth month, holds three events, on days 1, 21 and 27, in that order. */
  lemma RamadanEvents(m: int)
    requires m == 9
    ensures MonthEventsOf(m) == [MonthEvent(1, EventAt(5)), MonthEvent(21, EventAt(6)), MonthEvent(27, EventAt(7))]
  {
    RamadanInTable(m);
    SortSortedIsIdentity(FilterMonth(m, |EventKeys|));
  }

  /** The table lists Ramadan's events at positions 5, 6 and 7. */
  lemma RamadanInTable(m: int)
    requires m == 9
    ensures FilterMonth(m, |EventKeys|) == [MonthEvent(1, EventAt(5)), MonthEvent(21, EventAt(6)), MonthEvent(27, EventAt(7))]
  {
    RamadanFirstEight(m);
    assert FilterMonth(m, 9) == FilterMonth(m, 8);
    assert FilterMonth(m, 10) == FilterMonth(m, 8);
    assert FilterMonth(m, 11) == FilterMonth(m, 8);
  }

  lemma RamadanFirstEight(m: int)
    requires m == 9
    ensures FilterMonth(m, 8) == [MonthEvent(1, EventAt(5)), MonthEvent(21, EventAt(6)), MonthEvent(27, EventAt(7))]
  {
    assert FilterMonth(m, 5) == [] by {
      assert FilterMonth(m, 1) == [] && FilterMonth(m, 2) == [] && FilterMonth(m, 3) == [] && FilterMonth(m, 4) == [];
    }
    assert FilterMonth(m, 6) == [MonthEvent(1, EventAt(5))];
    assert FilterMonth(m, 7) == [MonthEvent(1, EventAt(5)), MonthEvent(21, EventAt(6))];
  }

  // ---------------------------------------------------------------------------
  // Upcoming events.

  /** `{ ...event, month, monthName }`. */
  datatype UpcomingEvent = UpcomingEvent(day: nat, event: IslamicEvent, month: int, monthName: string)

  /** The month visited at step `i`: `((currentMonth + i - 1) % 12) + 1` (line 214). */
  function ScanMonth(current: int, i: int): (m: int)
    ensures 1 <= current && 0 <= i ==> 1 <= m <= 12
    ensures 1 <= current <= 12 && i == 0 ==> m == current
  {
    JsRem(current + i - 1, 12) + 1
  }

  /** The twelve steps of the scan visit twelve different months. */
  lemma ScanMonthsDistinct(current: int, i: int, j: int)
    requires 1 <= current <= 12 && 0 <= i < j < 12
    ensures ScanMonth(current, i) != ScanMonth(current, j)
  {
  }

  /** Whether an event of `month` is skipped as already past (line 220). */
  predicate Past(month: int, day: nat, current: int, currentDay: nat) {
    month == current && day <= currentDay
  }

  /** What the `forEach` of lines 218-229 pushes for the first `n` events of a month. */
  function Keep(es: seq<MonthEvent>, n: nat, month: int, current: int, currentDay: nat): seq<UpcomingEvent>
    requires n <= |es|
  {
    if n == 0 then []
    else
      var e := es[n - 1];
      Keep(es, n - 1, month, current, currentDay)
      + (if Past(month, e.day, current, currentDay) then []
         else [UpcomingEvent(e.day, e.event, month, OrUndefined(MonthName(Ar, month)))])
  }

  function MonthUpcoming(month: int, current: int, currentDay: nat): seq<UpcomingEvent> {
    var es := MonthEventsOf(month);
    Keep(es, |es|, month, current, currentDay)
  }

  /** The scan of lines 212-232 from step `i`, having collected `acc`. */
  function Scan(current: int, currentDay: nat, count: int, i: nat, acc: seq<UpcomingEvent>): seq<UpcomingEvent>
    requires i <= 12
    decreases 12 - i
  {
    if i == 12 then acc
    else
      var acc2 := acc + MonthUpcoming(ScanMonth(current, i), current, currentDay);
      if |acc2| >= count then acc2 else Scan(current, currentDay, count, i + 1, acc2)
  }

  /** `array.slice(0, count)`: a negative count drops that many from the end. */
  function SliceTo<T>(s: seq<T>, count: int): (r: seq<T>)
    ensures count >= 0 ==> |r| == if count < |s| then count else |s|
    ensures count < 0 ==> |r| == if |s| + count > 0 then |s| + count else 0
    ensures r <= s
  {
    var n := if count >= 0 then (if count < |s| then count else |s|)
             else (if |s| + count > 0 then |s| + count else 0);
    s[..n]
  }

  /** What `getUpcomingEvents(count)` returns when today's date is `today`. */
  function UpcomingEvents(today: Option<HijriDate>, count: int): seq<UpcomingEvent> {
    match today
    case None => []
    case Some(t) => SliceTo(Scan(t.month, t.day, count, 0, []), count)
  }

  /** `getUpcomingEvents(count)` (lines 205-235). */
  method GetUpcomingEvents(today: Option<HijriDate>, count: int) returns (r: seq<UpcomingEvent>)
    ensures r == UpcomingEvents(today, count)
  {
    if today.None? {
      return [];
    }
    var upcoming: seq<UpcomingEvent> := [];
    var currentMonth := today.value.month;
    var currentDay := today.value.day;
    ghost var all := Scan(currentMonth, currentDay, count, 0, []);
    var i := 0;
    while i < 12
      invariant 0 <= i <= 12
      invariant Scan(currentMonth, currentDay, count, i, upcoming) == all
    {
      var month := ScanMonth(currentMonth, i);
      var events := GetMonthEvents(month);
      upcoming := PushUpcoming(upcoming, events, month, currentMonth, currentDay);
      if |upcoming| >= count {
        break;
      }
      i := i + 1;
    }
    r := SliceTo(upcoming, count);
  }

  /** The `forEach` of lines 218-229 over one month's events. */
  method PushUpcoming(acc: seq<UpcomingEvent>, events: seq<MonthEvent>, month: int, currentMonth: int, currentDay: nat)
    returns (upcoming: seq<UpcomingEvent>)
    ensures upcoming == acc + Keep(events, |events|, month, currentMonth, currentDay)
  {
    upcoming := acc;
    var j := 0;
    while j < |events|
      invariant 0 <= j <= |events|
      invariant upcoming == acc + Keep(events, j, month, currentMonth, currentDay)
    {
      var event := events[j];
      if !(month == currentMonth && event.day <= currentDay) {
        upcoming := upcoming + [UpcomingEvent(event.day, event.event, month, OrUndefined(MonthName(Ar, month)))];
      }
      j := j + 1;
    }
  }

  /** Every collected event is a table event of a scanned month, carries that month's
      Arabic name, and is not an already past event of the current month. */
  predicate ValidUpcoming(e: UpcomingEvent, current: int, currentDay: nat) {
    && 1 <= e.month <= 12
    && MonthEvent(e.day, e.event) in MonthEventsOf(e.month)
    && MonthName(Ar, e.month) == Some(e.monthName)
    && !Past(e.month, e.day, current, currentDay)
  }

  lemma {:induction false} KeepValid(month: int, n: nat, current: int, currentDay: nat)
    requires n <= |MonthEventsOf(month)|
    ensures forall k :: 0 <= k < |Keep(MonthEventsOf(month), n, month, current, currentDay)| ==>
              ValidUpcoming(Keep(MonthEventsOf(month), n, month, current, currentDay)[k], current, currentDay)
    decreases n
  {
    if n > 0 {
      KeepValid(month, n - 1, current, currentDay);
      var es := MonthEventsOf(month);
      var e := es[n - 1];
      var prev := Keep(es, n - 1, month, current, currentDay);
      var cur := Keep(es, n, month, current, currentDay);
      if Past(month, e.day, current, currentDay) {
        assert cur == prev;
      } else {
        TableMonthsInRange(month, e);
        var u := UpcomingEvent(e.day, e.event, month, OrUndefined(MonthName(Ar, month)));
        assert cur == prev + [u];
        assert ValidUpcoming(u, current, currentDay);
        ValidPush(prev, u, current, currentDay);
      }
    }
  }

  /** Appending a valid event to valid events keeps them all valid. */
  lemma ValidPush(prev: seq<UpcomingEvent>, u: UpcomingEvent, current: int, currentDay: nat)
    requires forall k :: 0 <= k < |prev| ==> ValidUpcoming(prev[k], current, currentDay)
    requires ValidUpcoming(u, current, currentDay)
    ensures forall k :: 0 <= k < |prev + [u]| ==> ValidUpcoming((prev + [u])[k], current, currentDay)
  {
    forall k | 0 <= k < |prev + [u]|
      ensures ValidUpcoming((prev + [u])[k], current, currentDay)
    {
      if k < |prev| {
        assert (prev + [u])[k] == prev[k];
      } else {
        assert (prev + [u])[k] == u;
      }
    }
  }

  /** Table events all fall in months 1 to 12. */
  lemma TableMonthsInRange(month: int, e: MonthEvent)
    requires e in MonthEventsOf(month)
    ensures 1 <= month <= 12
  {
    MonthEventsExact(month, e);
    var i :| 0 <= i < |EventKeys| && EventDates[i] == (month, e.day) && EventAt(i) == e.event;
  }

  lemma {:induction false} ScanValid(current: int, currentDay: nat, count: int, i: nat, acc: seq<UpcomingEvent>)
    requires i <= 12
    requires forall k :: 0 <= k < |acc| ==> ValidUpcoming(acc[k], current, currentDay)
    ensures forall k :: 0 <= k < |Scan(current, currentDay, count, i, acc)| ==>
              ValidUpcoming(Scan(current, currentDay, count, i, acc)[k], current, currentDay)
    decreases 12 - i
  {
    if i < 12 {
      var month := ScanMonth(current, i);
      KeepValid(month, |MonthEventsOf(month)|, current, currentDay);
      var acc2 := acc + MonthUpcoming(month, current, currentDay);
      ScanValid(current, currentDay, count, i + 1, acc2);
    }
  }

  /** The result holds at most `count` events, each one a future table event. */
  lemma UpcomingEventsValid(today: HijriDate, count: int)
    ensures forall k :: 0 <= k < |UpcomingEvents(Some(today), count)| ==>
              ValidUpcoming(UpcomingEvents(Some(today), count)[k], today.month, today.day)
  {
    ghost var all := Scan(today.month, today.day, count, 0, []);
    ScanValid(today.month, today.day, count, 0, []);
    SliceValid(all, count, today.month, today.day);
  }

  lemma SliceValid(all: seq<UpcomingEvent>, count: int, current: int, currentDay: nat)
    requires forall k :: 0 <= k < |all| ==> ValidUpcoming(all[k], current, currentDay)
    ensures forall k :: 0 <= k < |SliceTo(all, count)| ==> ValidUpcoming(SliceTo(all, count)[k], current, currentDay)
  {
    var r := SliceTo(all, count);
    forall k | 0 <= k < |r|
      ensures ValidUpcoming(r[k], current, currentDay)
    {
      assert r[k] == all[k];
    }
  }

  lemma UpcomingEventsBound(today: HijriDate, count: int)
    requires count >= 0
    ensures |UpcomingEvents(Some(today), count)| <= count
  {
  }

  /** The scan stops after the first month: when the rest of the current month already
      holds `count` events, nothing from a later month is returned. */
  lemma EnoughInCurrentMonth(today: HijriDate, count: int)
    requires 1 <= today.month <= 12
    requires |MonthUpcoming(today.month, today.month, today.day)| >= count
    ensures forall k :: 0 <= k < |UpcomingEvents(Some(today), count)| ==>
              UpcomingEvents(Some(today), count)[k].month == today.month
  {
    var first := MonthUpcoming(today.month, today.month, today.day);
    assert Scan(today.month, today.day, count, 0, []) == [] + first;
    KeepMonth(MonthEventsOf(today.month), |MonthEventsOf(today.month)|, today.month, today.month, today.day);
  }

  lemma {:induction false} KeepMonth(es: seq<MonthEvent>, n: nat, month: int, current: int, currentDay: nat)
    requires n <= |es|
    ensures forall k :: 0 <= k < |Keep(es, n, month, current, currentDay)| ==>
              Keep(es, n, month, current, currentDay)[k].month == month
    decreases n
  {
    if n > 0 {
      KeepMonth(es, n - 1, month, current, currentDay);
    }
  }

  /** The events of the first `n` scanned months, as if the loop never stopped early. */
  function FullScan(current: int, currentDay: nat, n: nat): seq<UpcomingEvent>
    requires n <= 12
  {
    if n == 0 then []
    else FullScan(current, currentDay, n - 1) + MonthUpcoming(ScanMonth(current, n - 1), current, currentDay)
  }

  /** For a count of zero or more, the result is the first `count` events of the whole
      twelve-month scan: the early `break` of line 230 changes nothing but the work done. */
  lemma UpcomingEventsAreNext(today: HijriDate, count: int)
    requires count >= 0
    ensures UpcomingEvents(Some(today), count) == SliceTo(FullScan(today.month, today.day, 12), count)
  {
    assert FullScan(today.month, today.day, 0) == [];
    ScanStopsInFullScan(today.month, today.day, count, 0);
    SliceOfPrefix(Scan(today.month, today.day, count, 0, []), FullScan(today.month, today.day, 12), count);
  }

  /** Cutting to `count` cannot tell a prefix from the whole once the prefix holds at
      least `count` elements. */
  lemma SliceOfPrefix<T>(r: seq<T>, all: seq<T>, count: int)
    requires count >= 0 && r <= all
    requires r == all || |r| >= count
    ensures SliceTo(r, count) == SliceTo(all, count)
  {
    if r != all {
      assert SliceTo(r, count) == r[..count];
      assert SliceTo(all, count) == all[..count];
    }
  }

  /** Resuming the scan at step `i` with the first `i` months collected ends on a prefix
      of the full scan that is either all of it or at least `count` long. */
  lemma {:induction false} ScanStopsInFullScan(current: int, currentDay: nat, count: int, i: nat)
    requires i <= 12
    ensures Scan(current, currentDay, count, i, FullScan(current, currentDay, i)) <= FullScan(current, currentDay, 12)
    ensures var r := Scan(current, currentDay, count, i, FullScan(current, currentDay, i));
            r == FullScan(current, currentDay, 12) || |r| >= count
    decreases 12 - i
  {
    if i < 12 {
      ScanStep(current, currentDay, count, i);
      if |FullScan(current, currentDay, i + 1)| >= count {
        FullScanPrefix(current, currentDay, i + 1, 12);
      } else {
        ScanStopsInFullScan(current, currentDay, count, i + 1);
      }
    }
  }

  /** One step of the scan from the first `i` months either stops with the first `i + 1`
      or goes on from them. */
  lemma ScanStep(current: int, currentDay: nat, count: int, i: nat)
    requires i < 12
    ensures var next := FullScan(current, currentDay, i + 1);
            Scan(current, currentDay, count, i, FullScan(current, currentDay, i))
            == if |next| >= count then next else Scan(current, currentDay, count, i + 1, next)
  {
    assert FullScan(current, currentDay, i) + MonthUpcoming(ScanMonth(current, i), current, currentDay)
           == FullScan(current, currentDay, i + 1);
  }

  /** A prefix stays a prefix when the longer sequence is extended. */
  lemma PrefixOfAppend<T>(a: seq<T>, b: seq<T>, c: seq<T>)
    requires a <= b
    ensures a <= b + c
  {
    assert forall k :: 0 <= k < |a| ==> (b + c)[k] == b[k];
  }

  lemma PrefixTrans<T>(a: seq<T>, b: seq<T>, c: seq<T>)
    requires a <= b && b <= c
    ensures a <= c
  {
    assert forall k :: 0 <= k < |a| ==> a[k] == b[k] == c[k];
  }

  /** A shorter scan is a prefix of a longer one. */
  lemma FullScanPrefix(current: int, currentDay: nat, i: nat, j: nat)
    requires i <= j <= 12
    ensures FullScan(current, currentDay, i) <= FullScan(current, currentDay, j)
    decreases j - i
  {
    if i < j {
      FullScanPrefix(current, currentDay, i, j - 1);
      FullScanStep(current, currentDay, j);
      PrefixTrans(FullScan(current, currentDay, i), FullScan(current, currentDay, j - 1), FullScan(current, currentDay, j));
    }
  }

  lemma FullScanStep(current: int, currentDay: nat, j: nat)
    requires 0 < j <= 12
    ensures FullScan(current, currentDay, j - 1) <= FullScan(current, currentDay, j)
  {
    var shorter := FullScan(current, currentDay, j - 1);
    PrefixOfAppend(shorter, shorter, MonthUpcoming(ScanMonth(current, j - 1), current, currentDay));
  }

  /** Without today's date there is nothing upcoming. */
  lemma NoDateNoEvents(count: int)
    ensures UpcomingEvents(None, count) == []
  {
  }

  // ---------------------------------------------------------------------------
  // The announcement.

  function Intro(l: Lang): string {
    match l
    case Ar => "اليوم "
    case Fr => "Aujourd'hui "
    case En => "Today is "
  }

  function Separator(l: Lang): string {
    match l
    case Ar => "، "
    case Fr => ", "
    case En => ", "
  }

  /** The announcement for a known language and a rendered date. */
  function Announcement(l: Lang, dateText: string, event: Option<IslamicEvent>): string {
    match event
    case Some(e) => Intro(l) + dateText + Separator(l) + e.names.In(l)
    case None => Intro(l) + dateText
  }

  /** `formatHijriAnnouncement(hijriDate, locale)` (lines 305-328) as written: the
      language is the locale's prefix, and a prefix other than `ar`, `fr` or `en` makes
      `formatHijriDate` throw before the `|| messages['ar']` fallback applies. */
  function FormatHijriAnnouncement(d: Option<HijriDate>, locale: string): (r: Result<string>)
    ensures d.None? ==> r == Ok("")
    ensures r.Err? <==> d.Some? && LangOf(BeforeDash(locale)).None?
    ensures r.Ok? && d.Some? ==>
              var l := LangOf(BeforeDash(locale)).value;
              r.value == Announcement(l, DateTemplate(l, d.value), GetIslamicEvent(d))
  {
    match d
    case None => Ok("")
    case Some(date) =>
      var lang := BeforeDash(locale);
      match FormatHijriDate(d, lang)
      case Err(msg) => Err(msg)
      case Ok(dateText) =>
        var l := LangOf(lang).value;
        Ok(Announcement(l, dateText, GetIslamicEvent(d)))
  }

  /** The event's name is appended, after a separator, exactly when there is an event
      that day; otherwise the announcement is the introduction and the date alone. */
  lemma AnnouncementAppendsEvent(l: Lang, dateText: string, event: Option<IslamicEvent>)
    ensures event.None? ==> Announcement(l, dateText, event) == Intro(l) + dateText
    ensures event.Some? ==> Announcement(l, dateText, event)
                            == Announcement(l, dateText, None) + Separator(l) + event.value.names.In(l)
    ensures |Announcement(l, dateText, event)| > |Intro(l) + dateText| <==> event.Some?
  {
    if event.Some? {
      assert |Separator(l)| > 0;
    }
  }

  /** A German locale shows the dead fallback: the announcement throws instead of
      falling back to Arabic. */
  lemma UnknownLanguageThrows(date: HijriDate)
    ensures FormatHijriAnnouncement(Some(date), "de-DE").Err?
    ensures FormatHijriDate(Some(date), "de").Err?
  {
    assert BeforeDash("de-DE") == "de";
  }

  /** `formatHijriDate` with the fallback its `templates[locale] || templates['ar']`
      evidently intends: Arabic month names and template for any other locale. */
  function FormatHijriDateIntended(d: Option<HijriDate>, locale: string): (r: string)
    ensures d.None? ==> r == ""
    ensures d.Some? ==> r == DateTemplate(if LangOf(locale).Some? then LangOf(locale).value else Ar, d.value)
  {
    match d
    case None => ""
    case Some(date) =>
      var l := match LangOf(locale) case Some(l) => l case None => Ar;
      DateTemplate(l, date)
  }

  /** `formatHijriAnnouncement` with the intended Arabic fallback. */
  function FormatHijriAnnouncementIntended(d: Option<HijriDate>, locale: string): (r: string) {
    match d
    case None => ""
    case Some(date) =>
      var l := LangOrArabic(locale);
      Announcement(l, FormatHijriDateIntended(d, BeforeDash(locale)), GetIslamicEvent(d))
  }

  /** The intended versions answer for every locale: they agree with the code for `ar`,
      `fr` and `en`, and speak Arabic where the code throws. */
  lemma IntendedAnnouncementAgrees(d: HijriDate, locale: string)
    ensures LangOf(BeforeDash(locale)).Some? ==>
              FormatHijriAnnouncement(Some(d), locale) == Ok(FormatHijriAnnouncementIntended(Some(d), locale))
    ensures LangOf(BeforeDash(locale)).None? ==>
              FormatHijriAnnouncement(Some(d), locale).Err? &&
              FormatHijriAnnouncementIntended(Some(d), locale)
                == Announcement(Ar, DateTemplate(Ar, d), GetIslamicEvent(Some(d)))
  {
  }
}
