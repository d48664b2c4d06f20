/** The reminder cron job: of the events the storage query returned, those whose
    reminder instant (start minus the lead time) fell within the last six
    minutes are announced, each with its lead-time label. */
module CheckReminders {
  import opened Wrappers
  import opened FamilyEvents
  import opened TelegramFamily

  /** The width of the due window: the job runs every few minutes. */
  const WindowMs: int := 6 * 60 * 1000

  /** The lead time in minutes; a missing one multiplies as zero. */
  function LeadMinutes(e: Event): int
  {
    if e.reminderMinutes.None? then 0 else e.reminderMinutes.value
  }

  /** The instant the reminder is due. */
  function ReminderTime(e: Event): (t: int)
    ensures t == e.start - LeadMinutes(e) * MinuteMs
  {
    e.start - LeadMinutes(e) * 60 * 1000
  }

  /** Due now: the reminder instant is at most `now` and less than six minutes
      before it. */
  predicate IsDue(e: Event, now: int)
  {
    var timeDiff := now - ReminderTime(e);
    timeDiff >= 0 && timeDiff < 6 * 60 * 1000
  }

  function DueAt(now: int): Event -> bool
  {
    (e: Event) => IsDue(e, now)
  }

  /** The window is half open: a reminder instant exactly `now` is due, one
      exactly six minutes earlier is not. */
  lemma DueWindow(e: Event, now: int)
    ensures IsDue(e, now) <==> now - WindowMs < ReminderTime(e) <= now
  {
  }

  /** The selection loop: the due events in the order they were fetched. */
  method SelectDue(events: seq<Event>, now: int) returns (due: seq<Event>)
    ensures due == Filter(events, DueAt(now))
  {
    due := [];
    for i := 0 to |events|
      invariant due == Filter(events[..i], DueAt(now))
    {
      var event := events[i];
      var reminderTime := event.start - LeadMinutes(event) * 60 * 1000;
      var timeDiff := now - reminderTime;
      SelectStep(events, i, now);
      if timeDiff >= 0 && timeDiff < 6 * 60 * 1000 {
        due := due + [event];
      }
    }
    assert events[..|events|] == events;
  }

  lemma SelectStep(events: seq<Event>, i: nat, now: int)
    requires i < |events|
    ensures Filter(events[..i + 1], DueAt(now))
         == Filter(events[..i], DueAt(now)) + (if IsDue(events[i], now) then [events[i]] else [])
  {
    var due := DueAt(now);
    assert events[..i + 1] == events[..i] + [events[i]];
    FilterAppend(events[..i], [events[i]], due);
    FilterSingle(events[i], due);
    assert due(events[i]) == IsDue(events[i], now);
  }

  /** Exactly the due events are selected, and they keep the fetched order. */
  lemma SelectedAreDue(events: seq<Event>, now: int)
    ensures forall e :: e in Filter(events, DueAt(now)) <==> e in events && IsDue(e, now)
    ensures IsSubsequence(Filter(events, DueAt(now)), events)
  {
    FilterIsSubsequence(events, DueAt(now));
  }

  /** The label of a reminder message. This chain has no truthiness check: a lead
      time of zero is worded as zero minutes. */
  function DueLabel(e: Event): (r: ReminderText)
    ensures r == ReminderBucket(LeadMinutes(e))
    ensures LeadMinutes(e) == 0 ==> r == MinutesBefore(0)
  {
    ReminderBucket(LeadMinutes(e))
  }

  /** A zero lead time gets a label here but no reminder line in the new-event
      announcement. */
  lemma ZeroLeadTimeLabels(e: Event)
    requires e.reminderMinutes == Some(0)
    ensures DueLabel(e) == MinutesBefore(0) && ReminderLine(e.reminderMinutes) == None
  {
  }

  /** The storage query's answer: an error, or the rows (possibly none at all). */
  datatype Fetch = FetchError(message: string) | Fetched(rows: Option<seq<Event>>)

  /** The reminders selected in one run, with their labels. */
  datatype Reminder = Reminder(event: Event, wording: ReminderText)

  datatype CronResponse =
    | Disabled
    | Failed(message: string)
    | Checked(remindersChecked: nat, remindersSent: nat, reminders: seq<Reminder>)

  /** handleCheckReminders: the DISABLE_CRON_JOBS switch, the storage error, the
      selection and the counts it reports. Sending is left to the caller. */
  method HandleCheckReminders(disableCronJobs: Option<string>, fetch: Fetch, now: int) returns (resp: CronResponse)
    ensures disableCronJobs == Some("true") ==> resp == Disabled
    ensures disableCronJobs != Some("true") && fetch.FetchError? ==> resp == Failed(fetch.message)
    ensures disableCronJobs != Some("true") && fetch.Fetched? ==> resp.Checked?
    ensures resp.Checked? ==>
              var rows := if fetch.rows.Some? then fetch.rows.value else [];
              && resp.remindersChecked == |rows|
              && resp.remindersSent == |resp.reminders|
              && |resp.reminders| == |Filter(rows, DueAt(now))|
              && forall k :: 0 <= k < |resp.reminders| ==>
                   resp.reminders[k] == Reminder(Filter(rows, DueAt(now))[k], DueLabel(Filter(rows, DueAt(now))[k]))
  {
    if disableCronJobs == Some("true") {
      return Disabled;
    }
    if fetch.FetchError? {
      return Failed(fetch.message);
    }
    var rows := if fetch.rows.Some? then fetch.rows.value else [];
    var due := SelectDue(rows, now);
    var reminders := seq(|due|, k requires 0 <= k < |due| => Reminder(due[k], DueLabel(due[k])));
    resp := Checked(if fetch.rows.Some? then |fetch.rows.value| else 0, |due|, reminders);
  }
}
