/** The bot's webhook: what an incoming update asks for (a button press, a voice
    note, a command or free text), the pieces of the add-event flow that do not
    talk to a service (the JSON span of the model's reply, the default end date,
    the time-zone suffix, the confirmation), and the weekly digest. */
module TelegramWebhook {
  import opened Wrappers
  import opened FamilyEvents
  import opened Text
  import opened Schedule
  import opened TelegramFamily

  // ---------------------------------------------------------------------------
  // Routing

  /** The callback data of the delete button, before the event id. */
  const DeletePrefix: string := "delete_event:"

  datatype Callback = Callback(chatId: string, messageId: int, data: string)

  /** A message: its chat, the file id of a voice note if any, its text if any. */
  datatype Message = Message(chatId: string, voice: Option<string>, text: Option<string>)

  datatype Update = Update(callback: Option<Callback>, message: Option<Message>)

  datatype Command = TodayCmd | TomorrowCmd | WeekCmd | SiteCmd | HelpCmd | StartCmd

  function Name(c: Command): (n: string)
    ensures |n| >= 4
  {
    match c
    case TodayCmd => "today"
    case TomorrowCmd => "tomorrow"
    case WeekCmd => "week"
    case SiteCmd => "site"
    case HelpCmd => "help"
    case StartCmd => "start"
  }

  /** The `@bot` suffix a command may carry in a group; nothing when the bot's
      user name is not configured. */
  function BotSuffix(bot: string): string
  {
    if bot == [] then [] else "@" + bot
  }

  /** The trimmed text is the command, with or without the bot suffix. */
  predicate Matches(text: string, c: Command, bot: string)
  {
    text == "/" + Name(c) || text == "/" + Name(c) + BotSuffix(bot)
  }

  /** A matching text begins with the slash and the command's first three
      letters. */
  lemma MatchPrefix(text: string, c: Command, bot: string)
    requires Matches(text, c, bot)
    ensures |text| >= 4 && text[0] == '/'
    ensures text[1] == Name(c)[0] && text[2] == Name(c)[1] && text[3] == Name(c)[2]
  {
    var n := "/" + Name(c);
    if text == n + BotSuffix(bot) {
      assert text[..|n|] == n;
    }
    assert text[..|n|] == n;
    assert text[1] == n[1] && text[2] == n[2] && text[3] == n[3];
  }

  /** No text matches two commands, so the order of the command table does not
      matter. */
  lemma CommandsExclusive(text: string, c1: Command, c2: Command, bot: string)
    requires Matches(text, c1, bot) && Matches(text, c2, bot)
    ensures c1 == c2
  {
    MatchPrefix(text, c1, bot);
    MatchPrefix(text, c2, bot);
  }

  lemma MatchUnique(text: string, c: Command, bot: string)
    requires Matches(text, c, bot)
    ensures forall c' :: Matches(text, c', bot) ==> c' == c
  {
    forall c' | Matches(text, c', bot) ensures c' == c {
      CommandsExclusive(text, c, c', bot);
    }
  }

  /** The command table, in the code's order. */
  function CommandOf(text: string, bot: string): (r: Option<Command>)
    ensures r.Some? ==> Matches(text, r.value, bot)
    ensures r.None? ==> forall c :: !Matches(text, c, bot)
  {
    if Matches(text, TodayCmd, bot) then Some(TodayCmd)
    else if Matches(text, TomorrowCmd, bot) then Some(TomorrowCmd)
    else if Matches(text, WeekCmd, bot) then Some(WeekCmd)
    else if Matches(text, SiteCmd, bot) then Some(SiteCmd)
    else if Matches(text, HelpCmd, bot) then Some(HelpCmd)
    else if Matches(text, StartCmd, bot) then Some(StartCmd)
    else
      NoCommandMatches(text, bot);
      None
  }

  lemma NoCommandMatches(text: string, bot: string)
    requires !Matches(text, TodayCmd, bot) && !Matches(text, TomorrowCmd, bot)
    requires !Matches(text, WeekCmd, bot) && !Matches(text, SiteCmd, bot)
    requires !Matches(text, HelpCmd, bot) && !Matches(text, StartCmd, bot)
    ensures forall c :: !Matches(text, c, bot)
  {
    forall c ensures !Matches(text, c, bot) {
      match c
      case TodayCmd =>
      case TomorrowCmd =>
      case WeekCmd =>
      case SiteCmd =>
      case HelpCmd =>
      case StartCmd =>
    }
  }

  /** A text selects exactly the command it matches. */
  lemma CommandOfMatches(text: string, c: Command, bot: string)
    ensures CommandOf(text, bot) == Some(c) <==> Matches(text, c, bot)
  {
    if Matches(text, c, bot) {
      CommandsExclusive(text, CommandOf(text, bot).value, c, bot);
    }
  }

  /** What the webhook does with an update. */
  datatype Action =
    | NoAction
    | DeleteEvent(chatId: string, messageId: int, eventId: string)
    | Transcribe(chatId: string, fileId: string)
    | DaySchedule(chatId: string, daysAhead: int)
    | WeekSchedule(chatId: string)
    | SiteLink(chatId: string)
    | HelpText(chatId: string)
    | AddEvent(chatId: string, text: string)

  /** Today's and tomorrow's schedule, the week, the site link; help and start
      share one reply. */
  function CommandAction(chatId: string, c: Command): (a: Action)
    ensures c == HelpCmd || c == StartCmd <==> a == HelpText(chatId)
    ensures c == TodayCmd <==> a == DaySchedule(chatId, 0)
    ensures c == TomorrowCmd <==> a == DaySchedule(chatId, 1)
  {
    match c
    case TodayCmd => DaySchedule(chatId, 0)
    case TomorrowCmd => DaySchedule(chatId, 1)
    case WeekCmd => WeekSchedule(chatId)
    case SiteCmd => SiteLink(chatId)
    case HelpCmd => HelpText(chatId)
    case StartCmd => HelpText(chatId)
  }

  /** A message with text, no voice note and no callback beside it. */
  predicate IsTextMessage(u: Update)
  {
    u.callback.None? && u.message.Some? && u.message.value.voice.None?
    && u.message.value.text.Some? && u.message.value.text.value != []
  }

  /** The POST handler's dispatch. The reply to the update is always `ok`,
      whatever the action. */
  function Route(u: Update, bot: string): (a: Action)
    ensures u.callback.Some? ==>
              var cb := u.callback.value;
              && (a.DeleteEvent? <==> StartsWith(cb.data, DeletePrefix))
              && (a.DeleteEvent? ==> a.chatId == cb.chatId && a.messageId == cb.messageId
                                     && DeletePrefix + a.eventId == cb.data)
              && (!a.DeleteEvent? ==> a == NoAction)
    ensures u.callback.None? && u.message.None? ==> a == NoAction
    ensures u.callback.None? && u.message.Some? && u.message.value.voice.Some? ==>
              a == Transcribe(u.message.value.chatId, u.message.value.voice.value)
    ensures (&& u.callback.None? && u.message.Some? && u.message.value.voice.None?
             && (u.message.value.text.None? || u.message.value.text.value == [])) ==> a == NoAction
    ensures IsTextMessage(u) ==>
              var m := u.message.value;
              var t := Trim(m.text.value);
              && (forall c :: Matches(t, c, bot) ==> a == CommandAction(m.chatId, c))
              && (!StartsWith(t, "/") ==> a == AddEvent(m.chatId, t))
              && (StartsWith(t, "/") && (forall c :: !Matches(t, c, bot)) ==> a == NoAction)
  {
    if u.callback.Some? then
      var cb := u.callback.value;
      if StartsWith(cb.data, DeletePrefix) then
        ReplacePrefixStrips(cb.data, DeletePrefix);
        assert DeletePrefix + cb.data[|DeletePrefix|..] == cb.data;
        DeleteEvent(cb.chatId, cb.messageId, ReplaceFirst(cb.data, DeletePrefix, ""))
      else NoAction
    else if u.message.None? then NoAction
    else
      var m := u.message.value;
      if m.voice.Some? then Transcribe(m.chatId, m.voice.value)
      else if m.text.None? || m.text.value == [] then NoAction
      else
        var t := Trim(m.text.value);
        match CommandOf(t, bot)
        case Some(c) =>
          MatchUnique(t, c, bot);
          CommandAction(m.chatId, c)
        case None =>
          if !StartsWith(t, "/") then AddEvent(m.chatId, t) else NoAction
  }

  /** The delete button of a confirmation deletes exactly the event it names. */
  lemma DeleteButtonRoundTrip(chatId: string, messageId: int, id: string, bot: string)
    ensures Route(Update(Some(Callback(chatId, messageId, DeletePrefix + id)), None), bot)
         == DeleteEvent(chatId, messageId, id)
  {
    var data := DeletePrefix + id;
    assert data[..|DeletePrefix|] == DeletePrefix;
    var a := Route(Update(Some(Callback(chatId, messageId, data)), None), bot);
    assert DeletePrefix + a.eventId == DeletePrefix + id;
    assert a.eventId == (DeletePrefix + a.eventId)[|DeletePrefix|..];
    assert id == (DeletePrefix + id)[|DeletePrefix|..];
  }

  /** Text of nothing but white space is trimmed to nothing and, as it does not
      start with a slash, goes to the add-event flow. */
  lemma BlankTextAddsEvent(chatId: string, bot: string)
    ensures Route(Update(None, Some(Message(chatId, None, Some("  ")))), bot) == AddEvent(chatId, "")
  {
    var u := Update(None, Some(Message(chatId, None, Some("  "))));
    assert LeadingSpace("  ") == 2 by {
      assert LeadingSpace(" ") == 1;
    }
    assert Trim("  ") == [];
    assert IsTextMessage(u) && !StartsWith([], "/");
  }

  // ---------------------------------------------------------------------------
  // The JSON object in the model's reply

  /** indexOf for one character. */
  function FirstIndexOf(s: string, c: char): (r: Option<nat>)
    ensures r.Some? ==> r.value < |s| && s[r.value] == c
    ensures forall k :: 0 <= k < |s| && s[k] == c ==> r.Some? && r.value <= k
  {
    if s == [] then None
    else if s[0] == c then Some(0)
    else
      match FirstIndexOf(s[1..], c)
      case None => None
      case Some(i) => Some(i + 1)
  }

  /** lastIndexOf for one character. */
  function LastIndexOf(s: string, c: char): (r: Option<nat>)
    ensures r.Some? ==> r.value < |s| && s[r.value] == c
    ensures forall k :: 0 <= k < |s| && s[k] == c ==> r.Some? && k <= r.value
  {
    if s == [] then None
    else if s[|s| - 1] == c then Some(|s| - 1)
    else LastIndexOf(s[..|s| - 1], c)
  }

  /** Some '{' comes before some '}'. */
  predicate HasBracePair(s: string)
  {
    exists i, j :: 0 <= i < j < |s| && s[i] == '{' && s[j] == '}'
  }

  /** `r` sits at offset `k` of `s`, runs from a '{' to a '}', has no '{' before
      it and no '}' after it. */
  predicate SpanAt(s: string, r: string, k: int)
  {
    && 0 <= k && k + |r| <= |s| && s[k..k + |r|] == r
    && |r| >= 2 && r[0] == '{' && r[|r| - 1] == '}'
    && (forall m :: 0 <= m < k ==> s[m] != '{')
    && (forall m :: k + |r| <= m < |s| ==> s[m] != '}')
  }

  /** The greedy match of a '{', anything, and a '}': from the first '{' through
      the last '}', when there is a '}' after the first '{'. */
  function ExtractJson(s: string): (r: Option<string>)
    ensures r.Some? <==> HasBracePair(s)
    ensures r.Some? ==> exists k :: SpanAt(s, r.value, k)
  {
    match (FirstIndexOf(s, '{'), LastIndexOf(s, '}'))
    case (Some(i), Some(j)) =>
      if i < j then
        assert SpanAt(s, s[i..j + 1], i);
        Some(s[i..j + 1])
      else None
    case _ => None
  }

  /** A reply made of chatter without braces around one object yields that
      object. */
  lemma ExtractJsonAround(pre: string, obj: string, post: string)
    requires '{' !in pre && '}' !in post
    requires |obj| >= 2 && obj[0] == '{' && obj[|obj| - 1] == '}'
    ensures ExtractJson(pre + obj + post) == Some(obj)
  {
    var s := pre + obj + post;
    var i := |pre|;
    var j := |pre| + |obj| - 1;
    assert s[i] == '{' && s[j] == '}';
    forall m | 0 <= m < i
      ensures s[m] != '{'
    {
      assert s[m] == pre[m] && pre[m] in pre;
    }
    forall m | j < m < |s|
      ensures s[m] != '}'
    {
      assert s[m] == post[m - j - 1] && post[m - j - 1] in post;
    }
    assert s[i..j + 1] == obj;
  }

  // ---------------------------------------------------------------------------
  // The event the model read

  /** The fields of the model's JSON reply; a missing or null field is None.
      A None date is interpolated as "undefined"; a JSON null would read "null"
      in the source, and the date parser rejects both texts alike. */
  datatype Parsed = Parsed(
    title: string, person: string, category: string,
    date: Option<string>, endDate: Option<string>,
    startTime: string, endTime: string,
    recurring: Option<bool>, reminderMinutes: Option<int>, notes: Option<string>)

  /** A string field is truthy when present and not empty. */
  predicate Truthy(o: Option<string>)
  {
    o.Some? && o.value != []
  }

  /** `end_date || date`. */
  function EndDate(date: Option<string>, endDate: Option<string>): (r: Option<string>)
    ensures Truthy(endDate) ==> r == endDate
    ensures !Truthy(endDate) ==> r == date
  {
    if Truthy(endDate) then endDate else date
  }

  /** The confirmation shows an end date only when one was given and it differs
      from the start date. */
  predicate MultiDay(date: Option<string>, endDate: Option<string>)
  {
    Truthy(endDate) && endDate != date
  }

  /** The event spans days exactly when its end date is not its start date. */
  lemma MultiDayIff(date: Option<string>, endDate: Option<string>)
    ensures MultiDay(date, endDate) <==> EndDate(date, endDate) != date
  {
  }

  function Abs(n: int): nat
  {
    if n >= 0 then n else -n
  }

  /** The time-zone suffix: the sign, the hours padded to two digits, ":00". */
  function Pad(n: int): (p: string)
    ensures |p| >= 6 && p[0] == (if n >= 0 then '+' else '-') && p[|p| - 3..] == ":00"
    ensures -100 < n < 100 ==> |p| == 6
  {
    var digits := PadStartZeros(NatToString(Abs(n)), 2);
    (if n >= 0 then "+" else "-") + digits + ":00"
  }

  /** The offset a suffix written by Pad stands for. */
  function OffsetValue(p: string): int
    requires |p| >= 4 && AllDigits(p[1..|p| - 3])
  {
    (if p[0] == '-' then -1 else 1) * DecimalValue(p[1..|p| - 3])
  }

  /** Pad writes digits only between the sign and ":00", and they read back as
      the offset. */
  lemma PadRoundTrip(n: int)
    ensures AllDigits(Pad(n)[1..|Pad(n)| - 3])
    ensures OffsetValue(Pad(n)) == n
  {
    var digits := PadStartZeros(NatToString(Abs(n)), 2);
    var p := Pad(n);
    assert p[1..|p| - 3] == digits;
    PadStartZerosValue(NatToString(Abs(n)), 2);
    NatToStringRoundTrip(Abs(n));
  }

  /** A missing field interpolated into a string (a null one is not told apart). */
  function Interpolated(o: Option<string>): string
  {
    if o.Some? then o.value else "undefined"
  }

  /** The local date-time text handed to the date parser: the date, the time,
      seconds ":00" and the zone suffix. */
  function DateTimeText(date: string, time: string, offsetH: int): string
  {
    date + "T" + time + ":00" + Pad(offsetH)
  }

  /** The start's date-time text; a missing date is interpolated as "undefined". */
  function StartText(p: Parsed, offsetH: int): string
  {
    DateTimeText(Interpolated(p.date), p.startTime, offsetH)
  }

  /** The end's date-time text; it falls on the defaulted end date. */
  function EndText(p: Parsed, offsetH: int): string
  {
    DateTimeText(Interpolated(EndDate(p.date, p.endDate)), p.endTime, offsetH)
  }

  /** The row inserted into storage: the instants the parser gave for the two
      texts, and `recurring`, `reminder_minutes` and `notes` with falsy values
      replaced by false or null. */
  datatype NewRow = NewRow(
    title: string, person: string, category: string,
    start: int, end: int,
    recurring: bool, reminderMinutes: Option<int>, notes: Option<string>)

  function RowOf(p: Parsed, start: int, end: int): (row: NewRow)
    ensures row.title == p.title && row.person == p.person && row.category == p.category
    ensures row.start == start && row.end == end
    ensures row.recurring <==> p.recurring == Some(true)
    ensures row.reminderMinutes.None? <==> p.reminderMinutes.None? || p.reminderMinutes.value == 0
    ensures row.reminderMinutes.Some? ==> row.reminderMinutes == p.reminderMinutes
    ensures row.notes.None? <==> !Truthy(p.notes)
    ensures row.notes.Some? ==> row.notes == p.notes
  {
    NewRow(p.title, p.person, p.category, start, end,
      p.recurring.Some? && p.recurring.value,
      if p.reminderMinutes.Some? && p.reminderMinutes.value != 0 then p.reminderMinutes else None,
      if Truthy(p.notes) then p.notes else None)
  }

  /** How far the add-event flow gets before storage is asked to insert. */
  datatype AddStep =
    | MissingKey
    | NotUnderstood
    | NoJson
    | Unreadable
    | BadDate
    | Insert(parsed: Parsed, row: NewRow)

  /** The add-event flow up to the insert. The model's reply, the JSON parser
      and the date parser are parameters. A JSON parse that throws, or a
      date-time text that is not a valid date (toISOString throws on it), ends
      in the generic error reply and nothing is inserted. */
  function PrepareAdd(apiKey: Option<string>, content: Option<string>,
                      parseJson: string -> Option<Parsed>, parseInstant: string -> Option<int>,
                      offsetH: int): (r: AddStep)
    ensures r == MissingKey <==> !Truthy(apiKey)
    ensures r == NotUnderstood <==> Truthy(apiKey) && !Truthy(content)
    ensures r == NoJson <==> Truthy(apiKey) && Truthy(content) && !HasBracePair(content.value)
    ensures r == Unreadable <==> Truthy(apiKey) && Truthy(content) && HasBracePair(content.value)
                                 && parseJson(ExtractJson(content.value).value).None?
    ensures r == BadDate <==> Truthy(apiKey) && Truthy(content) && HasBracePair(content.value)
                              && parseJson(ExtractJson(content.value).value).Some?
                              && var p := parseJson(ExtractJson(content.value).value).value;
                                 (parseInstant(StartText(p, offsetH)).None? || parseInstant(EndText(p, offsetH)).None?)
    ensures r.Insert? ==> Truthy(apiKey) && Truthy(content) && HasBracePair(content.value)
                          && Some(r.parsed) == parseJson(ExtractJson(content.value).value)
                          && parseInstant(StartText(r.parsed, offsetH)) == Some(r.row.start)
                          && parseInstant(EndText(r.parsed, offsetH)) == Some(r.row.end)
                          && r.row == RowOf(r.parsed, r.row.start, r.row.end)
  {
    if !Truthy(apiKey) then MissingKey
    else if !Truthy(content) then NotUnderstood
    else
      match ExtractJson(content.value)
      case None => NoJson
      case Some(json) =>
        match parseJson(json)
        case None => Unreadable
        case Some(p) =>
          match (parseInstant(StartText(p, offsetH)), parseInstant(EndText(p, offsetH)))
          case (Some(st), Some(en)) => Insert(p, RowOf(p, st, en))
          case _ => BadDate
  }

  /** A reply without a date is not inserted when the date parser rejects
      every date-time text whose date is "undefined", as JavaScript's Date does. */
  lemma MissingDateNotInserted(apiKey: Option<string>, content: Option<string>,
                               parseJson: string -> Option<Parsed>, parseInstant: string -> Option<int>,
                               offsetH: int)
    requires forall time :: parseInstant(DateTimeText("undefined", time, offsetH)).None?
    requires Truthy(apiKey) && Truthy(content) && HasBracePair(content.value)
    requires parseJson(ExtractJson(content.value).value).Some?
    requires parseJson(ExtractJson(content.value).value).value.date.None?
    ensures PrepareAdd(apiKey, content, parseJson, parseInstant, offsetH) == BadDate
  {
    var p := parseJson(ExtractJson(content.value).value).value;
    assert StartText(p, offsetH) == DateTimeText("undefined", p.startTime, offsetH);
  }


  datatype InsertResult = InsertFailed(message: string) | Inserted(id: string)

  /** The confirmation's fields; its wording and emoji are left out. */
  datatype AddedReply = AddedReply(
    title: string, person: string, date: string, until: Option<string>,
    startTime: string, endTime: string,
    reminder: Option<ReminderText>, notes: Option<string>, button: string)

  datatype Confirmation = SaveFailed(message: string) | Added(reply: AddedReply)

  /** The reply after the insert: the storage error, or the confirmation with
      its delete button. */
  function Confirm(p: Parsed, res: InsertResult): (c: Confirmation)
    ensures res.InsertFailed? ==> c == SaveFailed(res.message)
    ensures res.Inserted? <==> c.Added?
    ensures c.Added? ==> var r := c.reply;
              && r.title == p.title && r.person == p.person
              && r.date == Interpolated(p.date)
              && r.startTime == p.startTime && r.endTime == p.endTime
              && (r.until.Some? <==> MultiDay(p.date, p.endDate))
              && (r.until.Some? ==> r.until == p.endDate)
              && (r.reminder.None? <==> p.reminderMinutes.None? || p.reminderMinutes.value == 0)
              && (r.reminder.Some? ==> r.reminder.value == ReminderBucket(p.reminderMinutes.value))
              && (r.notes.None? <==> !Truthy(p.notes))
              && (r.notes.Some? ==> r.notes == p.notes)
              && r.button == DeletePrefix + res.id
  {
    match res
    case InsertFailed(message) => SaveFailed(message)
    case Inserted(id) =>
      Added(AddedReply(
        p.title, p.person, Interpolated(p.date),
        if MultiDay(p.date, p.endDate) then p.endDate else None,
        p.startTime, p.endTime,
        ReminderLine(p.reminderMinutes),
        if Truthy(p.notes) then p.notes else None,
        DeletePrefix + id))
  }

  /** Pressing the confirmation's button deletes the event just inserted. */
  lemma ConfirmButtonDeletes(p: Parsed, id: string, chatId: string, messageId: int, bot: string)
    ensures Confirm(p, Inserted(id)).Added?
    ensures Route(Update(Some(Callback(chatId, messageId, Confirm(p, Inserted(id)).reply.button)), None), bot)
         == DeleteEvent(chatId, messageId, id)
  {
    DeleteButtonRoundTrip(chatId, messageId, id, bot);
  }

  // ---------------------------------------------------------------------------
  // The weekly digest

  function OnWeekday(d: int): Event -> bool
  {
    (e: Event) => Weekday(e.start) == d
  }

  function WeekdayBelow(n: int): Event -> bool
  {
    (e: Event) => Weekday(e.start) < n
  }

  /** The `byDay` dictionary after pushing the events in order. */
  function ByDay(s: seq<Event>): map<int, seq<Event>>
  {
    if s == [] then map[]
    else
      var m := ByDay(s[..|s| - 1]);
      var e := s[|s| - 1];
      var d := Weekday(e.start);
      m[d := (if d in m then m[d] else []) + [e]]
  }

  /** Each weekday's list holds that weekday's events in input order, and only
      weekdays with events have a list. */
  lemma {:induction false} ByDayIsFilter(s: seq<Event>)
    ensures forall d :: d in ByDay(s) <==> Filter(s, OnWeekday(d)) != []
    ensures forall d :: d in ByDay(s) ==> ByDay(s)[d] == Filter(s, OnWeekday(d))
  {
    if s != [] {
      var init := s[..|s| - 1];
      var e := s[|s| - 1];
      ByDayIsFilter(init);
      assert s == init + [e];
      forall d
        ensures Filter(s, OnWeekday(d)) == Filter(init, OnWeekday(d)) + (if Weekday(e.start) == d then [e] else [])
      {
        FilterAppend(init, [e], OnWeekday(d));
      }
    }
  }

  datatype DaySection = DaySection(weekday: int, events: seq<Event>)

  /** The digest's sections for the weekdays below `n`: one per weekday that has
      events, in weekday order. */
  function DaySections(events: seq<Event>, n: nat): seq<DaySection>
  {
    if n == 0 then []
    else
      var day := Filter(events, OnWeekday(n - 1));
      DaySections(events, n - 1) + (if day != [] then [DaySection(n - 1, day)] else [])
  }

  lemma DaySectionsStep(events: seq<Event>, i: nat)
    ensures DaySections(events, i + 1)
         == DaySections(events, i) + (if Filter(events, OnWeekday(i)) != [] then [DaySection(i, Filter(events, OnWeekday(i)))] else [])
  {
  }

  datatype WeekReport = EmptyWeek | WeekSummary(sunday: int, sections: seq<DaySection>, total: nat)

  /** The `byDay` dictionary filled by pushing each event onto its weekday's list. */
  method CollectByDay(events: seq<Event>) returns (byDay: map<int, seq<Event>>)
    ensures byDay == ByDay(events)
    ensures forall d :: d in byDay <==> Filter(events, OnWeekday(d)) != []
    ensures forall d :: d in byDay ==> byDay[d] == Filter(events, OnWeekday(d))
  {
    byDay := map[];
    for i := 0 to |events|
      invariant byDay == ByDay(events[..i])
    {
      assert events[..i + 1][..i] == events[..i];
      var day := Weekday(events[i].start);
      if day !in byDay {
        byDay := byDay[day := []];
      }
      byDay := byDay[day := byDay[day] + [events[i]]];
    }
    assert events[..|events|] == events;
    ByDayIsFilter(events);
  }

  /** The loop over weekdays 0..6 that emits a section for each non-empty list. */
  method EmitSections(events: seq<Event>, byDay: map<int, seq<Event>>) returns (sections: seq<DaySection>)
    requires forall d :: d in byDay <==> Filter(events, OnWeekday(d)) != []
    requires forall d :: d in byDay ==> byDay[d] == Filter(events, OnWeekday(d))
    ensures sections == DaySections(events, 7)
  {
    sections := [];
    for i := 0 to 7
      invariant sections == DaySections(events, i)
    {
      DaySectionsStep(events, i);
      if i in byDay && |byDay[i]| > 0 {
        sections := sections + [DaySection(i, byDay[i])];
      }
    }
  }


  /** handleWeek after the query: the fixed reply when the week is empty,
      otherwise the events grouped by weekday and their number. The events come
      ordered by start from storage. */
  method HandleWeek(events: seq<Event>, today: int) returns (report: WeekReport)
    ensures events == [] <==> report == EmptyWeek
    ensures events != [] ==> report == WeekSummary(WeekDates(today)[0], DaySections(events, 7), |events|)
  {
    if |events| == 0 {
      return EmptyWeek;
    }
    var byDay := CollectByDay(events);
    var sections := EmitSections(events, byDay);
    report := WeekSummary(WeekDates(today)[0], sections, |events|);
  }


  predicate HasSection(sections: seq<DaySection>, d: int)
  {
    exists k :: 0 <= k < |sections| && sections[k].weekday == d
  }

  /** The sections run in weekday order, below `n`. */
  lemma {:induction false} DaySectionsOrdered(events: seq<Event>, n: nat)
    ensures forall k :: 0 <= k < |DaySections(events, n)| ==> 0 <= DaySections(events, n)[k].weekday < n
    ensures forall i, j :: 0 <= i < j < |DaySections(events, n)| ==>
              DaySections(events, n)[i].weekday < DaySections(events, n)[j].weekday
  {
    if n > 0 {
      DaySectionsOrdered(events, n - 1);
      var prev := DaySections(events, n - 1);
      var day := Filter(events, OnWeekday(n - 1));
      if day != [] {
        var secs := prev + [DaySection(n - 1, day)];
        assert DaySections(events, n) == secs;
        assert forall k :: 0 <= k < |prev| ==> secs[k] == prev[k];
      } else {
        assert DaySections(events, n) == prev;
      }
    }
  }

  /** Each section holds exactly its weekday's events, in input order, and is
      not empty. */
  lemma {:induction false} DaySectionsContent(events: seq<Event>, n: nat)
    ensures forall k :: 0 <= k < |DaySections(events, n)| ==>
              && DaySections(events, n)[k].events != []
              && DaySections(events, n)[k].events == Filter(events, OnWeekday(DaySections(events, n)[k].weekday))
  {
    if n > 0 {
      DaySectionsContent(events, n - 1);
      var prev := DaySections(events, n - 1);
      var day := Filter(events, OnWeekday(n - 1));
      if day != [] {
        var secs := prev + [DaySection(n - 1, day)];
        assert DaySections(events, n) == secs;
        assert forall k :: 0 <= k < |prev| ==> secs[k] == prev[k];
      } else {
        assert DaySections(events, n) == prev;
      }
    }
  }

  /** Every weekday below `n` with events has a section. */
  lemma {:induction false} DaySectionsComplete(events: seq<Event>, n: nat)
    ensures forall d :: 0 <= d < n && Filter(events, OnWeekday(d)) != [] ==> HasSection(DaySections(events, n), d)
  {
    if n > 0 {
      DaySectionsComplete(events, n - 1);
      var prev := DaySections(events, n - 1);
      var secs := DaySections(events, n);
      assert secs[..|prev|] == prev;
      forall d | 0 <= d < n && Filter(events, OnWeekday(d)) != []
        ensures HasSection(secs, d)
      {
        if d < n - 1 {
          var k :| 0 <= k < |prev| && prev[k].weekday == d;
          assert secs[k] == prev[k];
        } else {
          assert secs[|prev|].weekday == d;
        }
      }
    }
  }

  function SectionTotal(sections: seq<DaySection>): nat
  {
    if sections == [] then 0
    else SectionTotal(sections[..|sections| - 1]) + |sections[|sections| - 1].events|
  }

  lemma SectionTotalSnoc(prev: seq<DaySection>, sec: DaySection)
    ensures SectionTotal(prev + [sec]) == SectionTotal(prev) + |sec.events|
  {
    assert (prev + [sec])[..|prev|] == prev;
  }

  lemma {:induction false} FilterBelowStep(s: seq<Event>, n: int)
    ensures |Filter(s, WeekdayBelow(n + 1))| == |Filter(s, WeekdayBelow(n))| + |Filter(s, OnWeekday(n))|
  {
    if s != [] {
      FilterBelowStep(s[1..], n);
    }
  }

  lemma {:induction false} FilterAllBelowSeven(s: seq<Event>)
    ensures Filter(s, WeekdayBelow(7)) == s
  {
    if s != [] {
      FilterAllBelowSeven(s[1..]);
    }
  }

  lemma {:induction false} DaySectionsCount(events: seq<Event>, n: nat)
    ensures SectionTotal(DaySections(events, n)) == |Filter(events, WeekdayBelow(n))|
  {
    if n == 0 {
      FilterNoneBelowZero(events);
    } else {
      var m := n - 1;
      DaySectionsCount(events, m);
      FilterBelowStep(events, m);
      var day := Filter(events, OnWeekday(m));
      var prev := DaySections(events, m);
      var total := SectionTotal(prev);
      var extra: nat := if day != [] then |day| else 0;
      DaySectionsTotalStep(events, m);
    }
  }

  lemma DaySectionsTotalStep(events: seq<Event>, m: nat)
    ensures SectionTotal(DaySections(events, m + 1)) == SectionTotal(DaySections(events, m)) + |Filter(events, OnWeekday(m))|
  {
    var day := Filter(events, OnWeekday(m));
    var prev := DaySections(events, m);
    if day != [] {
      assert DaySections(events, m + 1) == prev + [DaySection(m, day)];
      SectionTotalSnoc(prev, DaySection(m, day));
    } else {
      assert DaySections(events, m + 1) == prev;
    }
  }

  lemma {:induction false} FilterNoneBelowZero(s: seq<Event>)
    ensures Filter(s, WeekdayBelow(0)) == []
  {
    if s != [] {
      FilterNoneBelowZero(s[1..]);
    }
  }

  /** The sections of the digest together hold every event once: their sizes
      add up to the total the digest reports. */
  lemma WeekTotalAddsUp(events: seq<Event>)
    ensures SectionTotal(DaySections(events, 7)) == |events|
  {
    DaySectionsCount(events, 7);
    FilterAllBelowSeven(events);
  }

  /** The query asks for the events starting between Sunday 00:00 and Saturday
      23:59:59.999 of the current week; such an event is listed under the day of
      the week it starts on. */
  lemma DivModDay(a: int, r: int)
    requires 0 <= r < DayMs
    ensures (a * DayMs + r) / DayMs == a && (a * DayMs + r) % DayMs == r
  {
  }

  lemma EventInItsDay(today: int, e: Event)
    requires WeekDates(today)[0] <= e.start < WeekDates(today)[0] + 7 * DayMs
    ensures var d := Weekday(e.start);
            WeekDates(today)[d] <= e.start < WeekDates(today)[d] + DayMs
  {
    var days := WeekDates(today);
    var s0 := days[0];
    var q := s0 / DayMs;
    assert DayStart(s0) == s0 && Weekday(s0) == 0;
    assert s0 == q * DayMs;
    var off := e.start - s0;
    var k := off / DayMs;
    var r := off % DayMs;
    assert off == k * DayMs + r;
    assert 0 <= k < 7;
    DivModDay(q + k, r);
    assert e.start == (q + k) * DayMs + r;
    assert e.start / DayMs == q + k;
    assert (q + 4) % 7 == 0;
    assert Weekday(e.start) == k;
    assert days[k] == s0 + k * DayMs;
  }

}
