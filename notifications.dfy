/** The reminder rules of `lambda/notificationService.js`: the athan audio table and its
    fallback, the time a reminder is scheduled for, the request sent for each prayer,
    the five-entry result of setting up all reminders, where one prayer's failure does
    not stop the others, and the update that deletes the old reminders before creating
    the new ones. The Alexa reminders service is the class `ReminderClient`, whose
    answer to a creation request is a function given to it. Instants are seconds since
    a local midnight, so the time zone is not modelled. */
module Notifications {
  import opened Common
  import opened Prayers

  // ---------------------------------------------------------------------------
  // The athan table.

  /** One entry of `ATHAN_AUDIO_URLS`. */
  datatype Athan = Athan(name: string, url: string, duration: nat)

  const MakkahUrl := ("https://your-s3-bucket.s3." + "amazonaws.com/audio/athan-makkah.mp3")

  /** `ATHAN_AUDIO_URLS[athanType]` (lines 11-37). */
  function AthanOf(athanType: string): (r: Option<Athan>)
    ensures r.Some? <==> athanType in AthanTypes
    ensures r.Some? ==> r.value.url != ""
  {
    if athanType == "مكة" then Some(Athan("أذان الحرم المكي", MakkahUrl, 180))
    else if athanType == "المدينة" then Some(Athan("أذان الحرم المدني", ("https://your-s3-bucket.s3." + "amazonaws.com/audio/athan-madinah.mp3"), 180))
    else if athanType == "مصر" then Some(Athan("الأذان المصري", ("https://your-s3-bucket.s3." + "amazonaws.com/audio/athan-egypt.mp3"), 180))
    else if athanType == "الأقصى" then Some(Athan("أذان المسجد الأقصى", ("https://your-s3-bucket.s3." + "amazonaws.com/audio/athan-aqsa.mp3"), 180))
    else if athanType == "عبدالباسط" then Some(Athan("أذان الشيخ عبد الباسط", ("https://your-s3-bucket.s3." + "amazonaws.com/audio/" + "athan-abdulbasit.mp3"), 200))
    else None
  }

  const AthanTypes: set<string> := {"مكة", "المدينة", "مصر", "الأقصى", "عبدالباسط"}

  /** `ATHAN_AUDIO_URLS[athanType]?.url || ATHAN_AUDIO_URLS['مكة'].url` (lines 112
      and 201): the type's own audio, the Makkah athan for any other type. */
  function AthanUrl(athanType: string): (r: string)
    ensures athanType in AthanTypes ==> r == AthanOf(athanType).value.url
    ensures athanType !in AthanTypes ==> r == MakkahUrl
  {
    match AthanOf(athanType)
    case Some(a) => if a.url != "" then a.url else MakkahUrl
    case None => MakkahUrl
  }

  /** The five types have five different recordings, Makkah's being the default. */
  lemma AthanUrlsDistinct(a: string, b: string)
    requires a in AthanTypes && b in AthanTypes && a != b
    ensures AthanUrl(a) != AthanUrl(b)
    ensures AthanUrl("مكة") == MakkahUrl
  {
  }

  // ---------------------------------------------------------------------------
  // When a reminder rings.

  const Day := 86400

  /** `moment.tz(prayerTime, 'HH:mm', timezone)`: the prayer's time on the day of `now`. */
  function TodayAt(time: MinuteOfDay, now: nat): nat {
    now / Day * Day + time * 60
  }

  /** Today's time, moved to tomorrow exactly when it is strictly before now
      (lines 50-56). */
  function ScheduledTime(time: MinuteOfDay, now: nat): (t: nat)
    ensures now <= t < now + Day
    ensures t % Day == time * 60
    ensures t == TodayAt(time, now) <==> TodayAt(time, now) >= now
    ensures t == TodayAt(time, now) + Day <==> TodayAt(time, now) < now
  {
    var today := TodayAt(time, now);
    var t := if today < now then today + Day else today;
    ModUnique(t, Day, if today < now then now / Day + 1 else now / Day, time * 60);
    t
  }

  /** The scheduled time is the first instant from now on at the prayer's clock time. */
  lemma ScheduledIsNextOccurrence(time: MinuteOfDay, now: nat, u: nat)
    requires u >= now && u % Day == time * 60
    ensures ScheduledTime(time, now) <= u
  {
    var k := u / Day;
    assert u == k * Day + time * 60;
    var q := now / Day;
    assert now < q * Day + Day;
    if k > q {
      MulAtLeast(k - q, Day);
      assert u >= TodayAt(time, now) + Day;
    }
  }

  /** `reminderTime`, created at today's time and moved with `.add(1, 'day')`. */
  method ReminderTime(prayerTime: MinuteOfDay, now: nat) returns (reminderTime: nat)
    ensures reminderTime == ScheduledTime(prayerTime, now)
  {
    reminderTime := TodayAt(prayerTime, now);
    if reminderTime < now {
      reminderTime := reminderTime + Day;
    }
  }

  // ---------------------------------------------------------------------------
  // The reminder request.

  /** The `trigger` of the request: an absolute time repeated every day. */
  datatype Trigger = Trigger(kind: string, scheduledTime: nat, timeZoneId: string, freq: string)

  /** `reminderRequest` (lines 58-83); the instants stand for their ISO renderings. */
  datatype ReminderRequest = ReminderRequest(requestTime: nat, trigger: Trigger, locale: string,
                                             text: string, ssml: string, pushNotification: string)

  /** The spoken text and the SSML of the reminder (lines 72-76). */
  function ReminderText(prayerName: string): string {
    "حان الآن موعد صلاة " + prayerName
  }

  function ReminderSsmlPieces(prayerName: string, athanUrl: string): seq<string> {
    [("<speak>\n                      " + "      <audio src=\""), athanUrl, ("\"/>\n                          " + "  حان الآن موعد صلاة "), prayerName, (". حافظ على الصلاة في أوقاتها.\n" + "                        </speak>")]
  }

  /** The request `createPrayerReminder` sends for a prayer (lines 48-83). */
  function Request(prayerName: string, prayerTime: MinuteOfDay, athanUrl: string, timezone: string,
                   now: nat): (r: ReminderRequest)
    ensures r.requestTime == now && r.locale == "ar-SA" && r.pushNotification == "ENABLED"
    ensures r.trigger.kind == "SCHEDULED_ABSOLUTE" && r.trigger.freq == "DAILY"
    ensures r.trigger.timeZoneId == timezone && r.trigger.scheduledTime == ScheduledTime(prayerTime, now)
  {
    ReminderRequest(now, Trigger("SCHEDULED_ABSOLUTE", ScheduledTime(prayerTime, now), timezone, "DAILY"),
                    "ar-SA", ReminderText(prayerName), Concat(ReminderSsmlPieces(prayerName, athanUrl)), "ENABLED")
  }

  /** The reminder plays the chosen athan and names the prayer, in its text and its
      speech. */
  lemma RequestSaysPrayer(prayerName: string, prayerTime: MinuteOfDay, athanUrl: string, timezone: string, now: nat)
    ensures var r := Request(prayerName, prayerTime, athanUrl, timezone, now);
            && Infix(athanUrl, r.ssml) && Infix(prayerName, r.ssml)
            && "حان الآن موعد صلاة " <= r.text && r.text[|"حان الآن موعد صلاة "|..] == prayerName
  {
    var ps := ReminderSsmlPieces(prayerName, athanUrl);
    ConcatHasPiece(ps, 1);
    ConcatHasPiece(ps, 3);
  }

  // ---------------------------------------------------------------------------
  // The reminders service.

  /** What the service answers to a creation request: a reminder with its token, or an
      error with its message. */
  datatype Outcome = Created(alertToken: string) | Failed(message: string)

  /** A reminder held by the service. */
  datatype Alert = Alert(alertToken: string, request: ReminderRequest)

  /** A call made to the service, in the order it is made. */
  datatype Call = Create(request: ReminderRequest) | Get | Delete(alertToken: string)

  /** The reminders held once every one with token `token` is deleted. */
  function RemoveToken(alerts: seq<Alert>, token: string): (r: seq<Alert>)
    ensures forall a :: a in r <==> a in alerts && a.alertToken != token
  {
    if alerts == [] then []
    else (if alerts[0].alertToken == token then [] else [alerts[0]]) + RemoveToken(alerts[1..], token)
  }

  /** The reminders service of the skill's user. */
  class ReminderClient {
    /** The answer the service gives to each creation request. */
    const answer: ReminderRequest -> Outcome
    /** The reminders the service holds. */
    var alerts: seq<Alert>
    /** Every call made so far. */
    var calls: seq<Call>

    constructor(answer: ReminderRequest -> Outcome, alerts: seq<Alert>)
      ensures this.answer == answer && this.alerts == alerts && calls == []
    {
      this.answer := answer;
      this.alerts := alerts;
      calls := [];
    }

    /** `createReminder(request)`: a created reminder is kept with its token. */
    method CreateReminder(request: ReminderRequest) returns (o: Outcome)
      modifies this
      ensures o == answer(request)
      ensures alerts == old(alerts) + (if o.Created? then [Alert(o.alertToken, request)] else [])
      ensures calls == old(calls) + [Create(request)]
    {
      o := answer(request);
      if o.Created? {
        alerts := alerts + [Alert(o.alertToken, request)];
      }
      calls := calls + [Create(request)];
    }

    /** `getReminders()`. */
    method GetReminders() returns (r: seq<Alert>)
      modifies this
      ensures r == alerts && alerts == old(alerts)
      ensures calls == old(calls) + [Get]
    {
      r := alerts;
      calls := calls + [Get];
    }

    /** `deleteReminder(alertToken)`. */
    method DeleteReminder(token: string)
      modifies this
      ensures alerts == RemoveToken(old(alerts), token)
      ensures calls == old(calls) + [Delete(token)]
    {
      alerts := RemoveToken(alerts, token);
      calls := calls + [Delete(token)];
    }
  }

  /** `createPrayerReminder(...)` (lines 48-93): the service's answer to the prayer's
      request, an error being passed on to the caller. */
  method CreatePrayerReminder(client: ReminderClient, prayerName: string, prayerTime: MinuteOfDay,
                              athanUrl: string, timezone: string, now: nat) returns (o: Outcome)
    modifies client
    ensures o == client.answer(Request(prayerName, prayerTime, athanUrl, timezone, now))
    ensures client.alerts == old(client.alerts)
                             + (if o.Created? then [Alert(o.alertToken, Request(prayerName, prayerTime, athanUrl, timezone, now))] else [])
    ensures client.calls == old(client.calls) + [Create(Request(prayerName, prayerTime, athanUrl, timezone, now))]
  {
    var reminderTime := ReminderTime(prayerTime, now);
    var request := ReminderRequest(now, Trigger("SCHEDULED_ABSOLUTE", reminderTime, timezone, "DAILY"), "ar-SA",
                                   ReminderText(prayerName), Concat(ReminderSsmlPieces(prayerName, athanUrl)), "ENABLED");
    o := client.CreateReminder(request);
  }

  // ---------------------------------------------------------------------------
  // Setting up the five reminders.

  /** One entry of the list `setupAllPrayerReminders` returns. */
  datatype ReminderEntry = ReminderEntry(prayer: string, time: MinuteOfDay, status: string,
                                         reminderId: Option<string>, error: Option<string>)

  /** The entry for a prayer given the service's answer (lines 124-138). */
  function EntryOf(p: Prayer, time: MinuteOfDay, o: Outcome): (e: ReminderEntry)
    ensures e.prayer == Arabic(p) && e.time == time
    ensures e.status == "created" <==> o.Created?
    ensures e.status == "failed" <==> o.Failed?
    ensures o.Created? ==> e.reminderId == Some(o.alertToken) && e.error.None?
    ensures o.Failed? ==> e.error == Some(o.message) && e.reminderId.None?
  {
    match o
    case Created(token) => ReminderEntry(Arabic(p), time, "created", Some(token), None)
    case Failed(message) => ReminderEntry(Arabic(p), time, "failed", None, Some(message))
  }

  /** The request for the `i`-th prayer. */
  function PrayerRequest(t: Timings, i: nat, athanUrl: string, timezone: string, now: nat): ReminderRequest
    requires i < 5
  {
    Request(Arabic(Order[i]), t.Of(Order[i]), athanUrl, timezone, now)
  }

  /** The entries of the first `k` prayers. */
  function Entries(answer: ReminderRequest -> Outcome, t: Timings, k: nat, athanUrl: string, timezone: string,
                   now: nat): (r: seq<ReminderEntry>)
    requires k <= 5
    ensures |r| == k
  {
    if k == 0 then []
    else Entries(answer, t, k - 1, athanUrl, timezone, now)
         + [EntryOf(Order[k - 1], t.Of(Order[k - 1]), answer(PrayerRequest(t, k - 1, athanUrl, timezone, now)))]
  }

  /** The creation calls made for the first `k` prayers. */
  function CreateCalls(t: Timings, k: nat, athanUrl: string, timezone: string, now: nat): (r: seq<Call>)
    requires k <= 5
    ensures |r| == k
    ensures forall i :: 0 <= i < k ==> r[i] == Create(PrayerRequest(t, i, athanUrl, timezone, now))
  {
    if k == 0 then [] else CreateCalls(t, k - 1, athanUrl, timezone, now) + [Create(PrayerRequest(t, k - 1, athanUrl, timezone, now))]
  }

  /** The reminders created for the first `k` prayers. */
  function CreatedAlerts(answer: ReminderRequest -> Outcome, t: Timings, k: nat, athanUrl: string, timezone: string,
                         now: nat): seq<Alert>
    requires k <= 5
  {
    if k == 0 then []
    else
      var request := PrayerRequest(t, k - 1, athanUrl, timezone, now);
      CreatedAlerts(answer, t, k - 1, athanUrl, timezone, now)
      + (if answer(request).Created? then [Alert(answer(request).alertToken, request)] else [])
  }

  /** `setupAllPrayerReminders(client, prayerTimings, athanType, timezone)`
      (lines 103-142): one creation per prayer, in order, each failure recorded and the
      loop carried on. */
  method SetupAllPrayerReminders(client: ReminderClient, t: Timings, athanType: string, timezone: string,
                                 now: nat) returns (reminders: seq<ReminderEntry>)
    modifies client
    ensures reminders == Entries(client.answer, t, 5, AthanUrl(athanType), timezone, now)
    ensures client.calls == old(client.calls) + CreateCalls(t, 5, AthanUrl(athanType), timezone, now)
    ensures client.alerts == old(client.alerts) + CreatedAlerts(client.answer, t, 5, AthanUrl(athanType), timezone, now)
  {
    var athanUrl := AthanUrl(athanType);
    ghost var calls0, alerts0 := client.calls, client.alerts;
    reminders := [];
    for i := 0 to 5
      invariant reminders == Entries(client.answer, t, i, athanUrl, timezone, now)
      invariant client.calls == calls0 + CreateCalls(t, i, athanUrl, timezone, now)
      invariant client.alerts == alerts0 + CreatedAlerts(client.answer, t, i, athanUrl, timezone, now)
    {
      var entry := SetupOne(client, t, i, athanUrl, timezone, now);
      SetupStep(client.answer, t, i, athanUrl, timezone, now);
      reminders := reminders + [entry];
    }
  }

  /** One turn of the loop of `setupAllPrayerReminders` (lines 115-139): the `i`-th
      prayer's reminder is requested and its entry made, created or failed. */
  method SetupOne(client: ReminderClient, t: Timings, i: nat, athanUrl: string, timezone: string, now: nat)
    returns (entry: ReminderEntry)
    requires i < 5
    modifies client
    ensures entry == EntryOf(Order[i], t.Of(Order[i]), client.answer(PrayerRequest(t, i, athanUrl, timezone, now)))
    ensures client.calls == old(client.calls) + [Create(PrayerRequest(t, i, athanUrl, timezone, now))]
    ensures var o := client.answer(PrayerRequest(t, i, athanUrl, timezone, now));
            client.alerts == old(client.alerts)
                             + (if o.Created? then [Alert(o.alertToken, PrayerRequest(t, i, athanUrl, timezone, now))] else [])
  {
    var prayers := [Fajr, Dhuhr, Asr, Maghrib, Isha];
    var prayer := prayers[i];
    assert prayer == Order[i];
    var o := CreatePrayerReminder(client, Arabic(prayer), t.Of(prayer), athanUrl, timezone, now);
    match o
    case Created(token) =>
      entry := ReminderEntry(Arabic(prayer), t.Of(prayer), "created", Some(token), None);
    case Failed(message) =>
      entry := ReminderEntry(Arabic(prayer), t.Of(prayer), "failed", None, Some(message));
  }

  /** One more prayer adds its entry, its creation call and, when created, its reminder. */
  lemma SetupStep(answer: ReminderRequest -> Outcome, t: Timings, i: nat, athanUrl: string, timezone: string, now: nat)
    requires i < 5
    ensures var o := answer(PrayerRequest(t, i, athanUrl, timezone, now));
            && Entries(answer, t, i + 1, athanUrl, timezone, now)
               == Entries(answer, t, i, athanUrl, timezone, now) + [EntryOf(Order[i], t.Of(Order[i]), o)]
            && CreateCalls(t, i + 1, athanUrl, timezone, now)
               == CreateCalls(t, i, athanUrl, timezone, now) + [Create(PrayerRequest(t, i, athanUrl, timezone, now))]
            && CreatedAlerts(answer, t, i + 1, athanUrl, timezone, now)
               == CreatedAlerts(answer, t, i, athanUrl, timezone, now)
                  + (if o.Created? then [Alert(o.alertToken, PrayerRequest(t, i, athanUrl, timezone, now))] else [])
  {
  }

  /** The `i`-th entry is the `i`-th prayer, Fajr to Isha, with its time; it is created
      with the service's token or failed with its message, as the service answered
      that prayer's request. */
  lemma {:induction false} EntryIsPrayer(answer: ReminderRequest -> Outcome, t: Timings, k: nat, i: nat,
                                         athanUrl: string, timezone: string, now: nat)
    requires i < k <= 5
    ensures var e := Entries(answer, t, k, athanUrl, timezone, now)[i];
            var o := answer(PrayerRequest(t, i, athanUrl, timezone, now));
            && e.prayer == Arabic(Order[i]) && e.time == t.Of(Order[i])
            && (e.status == "created" <==> o.Created?)
            && (o.Created? ==> e.reminderId == Some(o.alertToken))
            && (o.Failed? ==> e.status == "failed" && e.error == Some(o.message))
  {
    if i < k - 1 {
      EntryIsPrayer(answer, t, k - 1, i, athanUrl, timezone, now);
    }
  }

  /** A failure touches only its own prayer: two services that answer the `i`-th
      request alike give the same `i`-th entry, whatever they answer the others. */
  lemma FailureIsolated(a: ReminderRequest -> Outcome, b: ReminderRequest -> Outcome, t: Timings, i: nat,
                        athanUrl: string, timezone: string, now: nat)
    requires i < 5
    requires a(PrayerRequest(t, i, athanUrl, timezone, now)) == b(PrayerRequest(t, i, athanUrl, timezone, now))
    ensures Entries(a, t, 5, athanUrl, timezone, now)[i] == Entries(b, t, 5, athanUrl, timezone, now)[i]
  {
    EntryIsPrayer(a, t, 5, i, athanUrl, timezone, now);
    EntryIsPrayer(b, t, 5, i, athanUrl, timezone, now);
    EntryAt(a, t, 5, i, athanUrl, timezone, now);
    EntryAt(b, t, 5, i, athanUrl, timezone, now);
  }

  /** The `i`-th entry is the entry of the `i`-th prayer and its answer. */
  lemma {:induction false} EntryAt(answer: ReminderRequest -> Outcome, t: Timings, k: nat, i: nat,
                                   athanUrl: string, timezone: string, now: nat)
    requires i < k <= 5
    ensures Entries(answer, t, k, athanUrl, timezone, now)[i]
            == EntryOf(Order[i], t.Of(Order[i]), answer(PrayerRequest(t, i, athanUrl, timezone, now)))
  {
    if i < k - 1 {
      EntryAt(answer, t, k - 1, i, athanUrl, timezone, now);
    }
  }

  /** Every request asks for a daily reminder at the prayer's next occurrence, with the
      same athan. */
  lemma RequestsAreDaily(t: Timings, i: nat, athanType: string, timezone: string, now: nat)
    requires i < 5
    ensures var r := PrayerRequest(t, i, AthanUrl(athanType), timezone, now);
            && r.trigger.kind == "SCHEDULED_ABSOLUTE" && r.trigger.freq == "DAILY"
            && r.trigger.scheduledTime == ScheduledTime(t.Of(Order[i]), now)
            && Infix(AthanUrl(athanType), r.ssml)
  {
    RequestSaysPrayer(Arabic(Order[i]), t.Of(Order[i]), AthanUrl(athanType), timezone, now);
  }

  // ---------------------------------------------------------------------------
  // Updating the reminders.

  /** The deletion calls for a list of reminders. */
  function DeleteCalls(alerts: seq<Alert>): (r: seq<Call>)
    ensures |r| == |alerts|
    ensures forall i :: 0 <= i < |alerts| ==> r[i] == Delete(alerts[i].alertToken)
  {
    if alerts == [] then [] else [Delete(alerts[0].alertToken)] + DeleteCalls(alerts[1..])
  }

  /** The reminders whose tokens are not in `tokens`. */
  function Without(alerts: seq<Alert>, tokens: set<string>): (r: seq<Alert>)
    ensures forall a :: a in r <==> a in alerts && a.alertToken !in tokens
  {
    if alerts == [] then []
    else (if alerts[0].alertToken in tokens then [] else [alerts[0]]) + Without(alerts[1..], tokens)
  }

  /** The tokens of a list of reminders. */
  function Tokens(alerts: seq<Alert>): (r: set<string>)
    ensures forall a :: a in alerts ==> a.alertToken in r
  {
    if alerts == [] then {}
    else Tokens(alerts[..|alerts| - 1]) + {alerts[|alerts| - 1].alertToken}
  }

  lemma {:induction false} RemoveFromWithout(alerts: seq<Alert>, tokens: set<string>, token: string)
    ensures RemoveToken(Without(alerts, tokens), token) == Without(alerts, tokens + {token})
    decreases |alerts|
  {
    if alerts != [] {
      RemoveFromWithout(alerts[1..], tokens, token);
      var rest := Without(alerts[1..], tokens);
      if alerts[0].alertToken !in tokens {
        assert Without(alerts, tokens) == [alerts[0]] + rest;
        assert ([alerts[0]] + rest)[1..] == rest;
      } else {
        assert Without(alerts, tokens) == rest;
      }
    }
  }

  /** Deleting every token of a list leaves nothing of it. */
  lemma WithoutAll(alerts: seq<Alert>)
    ensures Without(alerts, Tokens(alerts)) == []
  {
    WithoutCovered(alerts, Tokens(alerts));
  }

  lemma {:induction false} WithoutCovered(alerts: seq<Alert>, tokens: set<string>)
    requires forall a :: a in alerts ==> a.alertToken in tokens
    ensures Without(alerts, tokens) == []
    decreases |alerts|
  {
    if alerts != [] {
      assert alerts[0] in alerts;
      WithoutCovered(alerts[1..], tokens);
    }
  }

  /** Deleting no token leaves every reminder. */
  lemma {:induction false} WithoutNothing(alerts: seq<Alert>)
    ensures Without(alerts, {}) == alerts
    decreases |alerts|
  {
    if alerts != [] {
      WithoutNothing(alerts[1..]);
    }
  }

  /** Deleting the next reminder of the list extends the deleted tokens and the calls
      by one. */
  lemma DeleteStep(reminders: seq<Alert>, i: nat)
    requires i < |reminders|
    ensures RemoveToken(Without(reminders, Tokens(reminders[..i])), reminders[i].alertToken)
            == Without(reminders, Tokens(reminders[..i + 1]))
  {
    RemoveFromWithout(reminders, Tokens(reminders[..i]), reminders[i].alertToken);
    assert reminders[..i + 1][..i] == reminders[..i];
  }

  lemma DeleteCallStep(start: seq<Call>, reminders: seq<Alert>, i: nat)
    requires i < |reminders|
    ensures start + DeleteCalls(reminders[..i + 1])
            == (start + DeleteCalls(reminders[..i])) + [Delete(reminders[i].alertToken)]
  {
    var a := DeleteCalls(reminders[..i + 1]);
    var b := DeleteCalls(reminders[..i]) + [Delete(reminders[i].alertToken)];
    assert a == b by {
      assert |a| == |b|;
      forall k | 0 <= k < |a|
        ensures a[k] == b[k]
      {
        assert reminders[..i + 1][k] == reminders[k];
        if k < i {
          assert reminders[..i][k] == reminders[k];
        }
      }
    }
    assert start + b == (start + DeleteCalls(reminders[..i])) + [Delete(reminders[i].alertToken)];
  }

  /** `deleteAllPrayerReminders(client)` (lines 149-164): every reminder the service
      holds is deleted, one after the other. */
  method DeleteAllPrayerReminders(client: ReminderClient)
    modifies client
    ensures client.alerts == []
    ensures client.calls == old(client.calls) + [Get] + DeleteCalls(old(client.alerts))
  {
    var reminders := client.GetReminders();
    DeleteEach(client, reminders);
  }

  /** The loop of lines 155-158: the reminders just read are deleted one by one. */
  method DeleteEach(client: ReminderClient, reminders: seq<Alert>)
    requires client.alerts == reminders
    modifies client
    ensures client.alerts == []
    ensures client.calls == old(client.calls) + DeleteCalls(reminders)
  {
    ghost var start := client.calls;
    DeletedNone(reminders);
    var i := 0;
    while i < |reminders|
      invariant i <= |reminders|
      invariant client.alerts == Without(reminders, Tokens(reminders[..i]))
      invariant client.calls == start + DeleteCalls(reminders[..i])
    {
      DeleteNext(client, start, reminders, i);
      i := i + 1;
    }
    DeletedAll(reminders);
  }

  /** Before the loop nothing is deleted yet. */
  lemma DeletedNone(reminders: seq<Alert>)
    ensures Without(reminders, Tokens(reminders[..0])) == reminders
    ensures DeleteCalls(reminders[..0]) == []
  {
    WithoutNothing(reminders);
    assert Tokens(reminders[..0]) == {};
  }

  /** After the loop every reminder is deleted. */
  lemma DeletedAll(reminders: seq<Alert>)
    ensures Without(reminders, Tokens(reminders[..|reminders|])) == []
    ensures DeleteCalls(reminders[..|reminders|]) == DeleteCalls(reminders)
  {
    assert reminders[..|reminders|] == reminders;
    WithoutAll(reminders);
  }

  /** One turn of that loop: the next reminder of the list is deleted. */
  method DeleteNext(client: ReminderClient, ghost start: seq<Call>, reminders: seq<Alert>, i: nat)
    requires i < |reminders|
    requires client.alerts == Without(reminders, Tokens(reminders[..i]))
    requires client.calls == start + DeleteCalls(reminders[..i])
    modifies client
    ensures client.alerts == Without(reminders, Tokens(reminders[..i + 1]))
    ensures client.calls == start + DeleteCalls(reminders[..i + 1])
  {
    DeleteStep(reminders, i);
    DeleteCallStep(start, reminders, i);
    client.DeleteReminder(reminders[i].alertToken);
  }

  /** `updatePrayerReminders(...)` (lines 174-192): the old reminders are all deleted
      before the five new ones are requested, so only the new ones remain. */
  method UpdatePrayerReminders(client: ReminderClient, t: Timings, athanType: string, timezone: string,
                               now: nat) returns (reminders: seq<ReminderEntry>)
    modifies client
    ensures reminders == Entries(client.answer, t, 5, AthanUrl(athanType), timezone, now)
    ensures client.alerts == CreatedAlerts(client.answer, t, 5, AthanUrl(athanType), timezone, now)
    ensures client.calls == old(client.calls) + [Get] + DeleteCalls(old(client.alerts))
                            + CreateCalls(t, 5, AthanUrl(athanType), timezone, now)
  {
    DeleteAllPrayerReminders(client);
    reminders := SetupAllPrayerReminders(client, t, athanType, timezone, now);
  }

  /** In the calls an update makes, no deletion comes after a creation. */
  lemma DeletesBeforeCreates(old_alerts: seq<Alert>, t: Timings, athanUrl: string, timezone: string, now: nat,
                             i: nat, j: nat)
    requires var log := [Get] + DeleteCalls(old_alerts) + CreateCalls(t, 5, athanUrl, timezone, now);
             i < j < |log|
    ensures var log := [Get] + DeleteCalls(old_alerts) + CreateCalls(t, 5, athanUrl, timezone, now);
            !(log[i].Create? && log[j].Delete?)
  {
    var log := [Get] + DeleteCalls(old_alerts) + CreateCalls(t, 5, athanUrl, timezone, now);
    if log[i].Create? {
      assert i > |old_alerts|;
      assert log[j] == CreateCalls(t, 5, athanUrl, timezone, now)[j - 1 - |old_alerts|];
    }
  }

  // ---------------------------------------------------------------------------
  // The athan message.

  function AthanSsmlPieces(prayerName: string, athanAudio: string): seq<string> {
    ["<speak>", "\n        <audio src=\"", athanAudio, ("\"/>\n        <break time=\"1s\"/" + ">\n        حان الآن موعد صلاة "), prayerName, (".\n        <break time=\"500ms\"/" + ">\n        حافظ على الصلاة في " + "أوقاتها.\n        <break " + "time=\"500ms\"/>\n        اللهم " + "تقبل منا صلاتنا.\n    </speak>")]
  }

  /** `generateAthanSSML(prayerName, athanType)` (lines 200-212). */
  function GenerateAthanSSML(prayerName: string, athanType: string): (r: string)
    ensures "<speak>" <= r
  {
    Concat(AthanSsmlPieces(prayerName, AthanUrl(athanType)))
  }

  /** The message plays the chosen athan, the Makkah one for an unknown type, and names
      the prayer. */
  lemma AthanMessagePlaysChosenAthan(prayerName: string, athanType: string)
    ensures Infix(AthanUrl(athanType), GenerateAthanSSML(prayerName, athanType))
    ensures athanType !in AthanTypes ==> Infix(MakkahUrl, GenerateAthanSSML(prayerName, athanType))
    ensures Infix(prayerName, GenerateAthanSSML(prayerName, athanType))
    ensures athanType !in AthanTypes ==> GenerateAthanSSML(prayerName, athanType) == GenerateAthanSSML(prayerName, "مكة")
  {
    var ps := AthanSsmlPieces(prayerName, AthanUrl(athanType));
    ConcatHasPiece(ps, 2);
    ConcatHasPiece(ps, 4);
  }
}
