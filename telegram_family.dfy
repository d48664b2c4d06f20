/** The notification helpers of the family bot: HTML escaping of user text, the
    reminder lead-time label, the choice of chats a new event is announced to,
    and the daily schedule digest. Emoji, the Hebrew wording and the clock
    formatting of times are left to the renderer; the structure of each message
    is modelled. */
module TelegramFamily {
  import opened Wrappers
  import opened FamilyEvents
  import opened Text

  // ---------------------------------------------------------------------------
  // HTML escaping

  /** text.replace(/c/g, rep): every occurrence of the character `c` replaced. */
  function ReplaceAll(s: string, c: char, rep: string): (r: string)
    ensures c !in rep ==> c !in r
    ensures forall d :: d !in s && d !in rep ==> d !in r
  {
    if s == [] then [] else (if s[0] == c then rep else [s[0]]) + ReplaceAll(s[1..], c, rep)
  }

  lemma {:induction false} ReplaceAllAppend(a: string, b: string, c: char, rep: string)
    ensures ReplaceAll(a + b, c, rep) == ReplaceAll(a, c, rep) + ReplaceAll(b, c, rep)
  {
    if a == [] {
      assert a + b == b;
    } else {
      assert (a + b)[1..] == a[1..] + b;
      ReplaceAllAppend(a[1..], b, c, rep);
    }
  }

  lemma {:induction false} ReplaceAllAbsent(s: string, c: char, rep: string)
    requires c !in s
    ensures ReplaceAll(s, c, rep) == s
  {
    if s != [] {
      ReplaceAllAbsent(s[1..], c, rep);
      assert [s[0]] + s[1..] == s;
    }
  }

  /** escapeHtml: '&' first, then '<', then '>'. */
  function EscapeHtml(s: string): string
  {
    ReplaceAll(ReplaceAll(ReplaceAll(s, '&', "&amp;"), '<', "&lt;"), '>', "&gt;")
  }

  /** The entity a single character becomes. */
  function EscapeChar(ch: char): string
  {
    if ch == '&' then "&amp;" else if ch == '<' then "&lt;" else if ch == '>' then "&gt;" else [ch]
  }

  /** Escaping in one pass, character by character. */
  function EscapeEach(s: string): string
  {
    if s == [] then [] else EscapeChar(s[0]) + EscapeEach(s[1..])
  }

  lemma ReplaceAllOne(ch: char, c: char, rep: string)
    ensures ReplaceAll([ch], c, rep) == if ch == c then rep else [ch]
  {
    assert [ch][1..] == [];
  }

  lemma EscapeHtmlOfChar(ch: char)
    ensures EscapeHtml([ch]) == EscapeChar(ch)
  {
    ReplaceAllOne(ch, '&', "&amp;");
    ReplaceAllAbsent("&amp;", '<', "&lt;");
    ReplaceAllAbsent("&amp;", '>', "&gt;");
    ReplaceAllAbsent("&lt;", '>', "&gt;");
    if ch != '&' {
      ReplaceAllOne(ch, '<', "&lt;");
      if ch != '<' {
        ReplaceAllOne(ch, '>', "&gt;");
      }
    }
  }

  /** The three global replacements amount to escaping each character on its
      own: replacing '&' first means no entity produced later is escaped again. */
  lemma {:induction false} EscapeHtmlIsEscapeEach(s: string)
    ensures EscapeHtml(s) == EscapeEach(s)
  {
    if s != [] {
      var x, rest := [s[0]], s[1..];
      assert s == x + rest;
      ReplaceAllAppend(x, rest, '&', "&amp;");
      var a, b := ReplaceAll(x, '&', "&amp;"), ReplaceAll(rest, '&', "&amp;");
      ReplaceAllAppend(a, b, '<', "&lt;");
      ReplaceAllAppend(ReplaceAll(a, '<', "&lt;"), ReplaceAll(b, '<', "&lt;"), '>', "&gt;");
      EscapeHtmlOfChar(s[0]);
      EscapeHtmlIsEscapeEach(rest);
    }
  }

  /** No angle bracket survives escaping. */
  lemma EscapeHtmlNoBrackets(s: string)
    ensures '<' !in EscapeHtml(s) && '>' !in EscapeHtml(s)
  {
  }

  /** Text without '&', '<' and '>' is left as it is. */
  lemma EscapeHtmlIdentity(s: string)
    requires '&' !in s && '<' !in s && '>' !in s
    ensures EscapeHtml(s) == s
  {
    ReplaceAllAbsent(s, '&', "&amp;");
    ReplaceAllAbsent(s, '<', "&lt;");
    ReplaceAllAbsent(s, '>', "&gt;");
  }

  /** Each '&' grows by four characters, each '<' and '>' by three. */
  lemma {:induction false} EscapeHtmlLength(s: string)
    ensures |EscapeHtml(s)| == |s| + 4 * Count(s, '&') + 3 * Count(s, '<') + 3 * Count(s, '>')
  {
    EscapeHtmlIsEscapeEach(s);
    EscapeEachLength(s);
  }

  lemma {:induction false} EscapeEachLength(s: string)
    ensures |EscapeEach(s)| == |s| + 4 * Count(s, '&') + 3 * Count(s, '<') + 3 * Count(s, '>')
  {
    if s != [] {
      EscapeEachLength(s[1..]);
    }
  }

  /** An entity that escaping produces starts at index `k` of `r`. */
  predicate EntityAt(r: string, k: int)
  {
    OccursAt(r, "&amp;", k) || OccursAt(r, "&lt;", k) || OccursAt(r, "&gt;", k)
  }

  lemma EntityAtShift(p: string, r: string, k: int)
    requires EntityAt(r, k)
    ensures EntityAt(p + r, |p| + k)
  {
    var t := p + r;
    forall pat | pat in ["&amp;", "&lt;", "&gt;"] && OccursAt(r, pat, k)
      ensures OccursAt(t, pat, |p| + k)
    {
      assert t[|p| + k..|p| + k + |pat|] == r[k..k + |pat|];
    }
  }

  /** Every '&' in escaped text is the start of an entity. */
  lemma {:induction false} EscapeEachAmpersands(s: string)
    ensures forall k :: 0 <= k < |EscapeEach(s)| && EscapeEach(s)[k] == '&' ==> EntityAt(EscapeEach(s), k)
  {
    if s != [] {
      EscapeEachAmpersands(s[1..]);
      var e := EscapeChar(s[0]);
      var rest := EscapeEach(s[1..]);
      var r := e + rest;
      forall k | 0 <= k < |r| && r[k] == '&' ensures EntityAt(r, k) {
        if k < |e| {
          assert k == 0 && e != [s[0]];
          assert r[..|e|] == e;
          assert OccursAt(r, e, 0);
        } else {
          assert r[k] == rest[k - |e|];
          EntityAtShift(e, rest, k - |e|);
        }
      }
    }
  }

  lemma EscapeHtmlAmpersands(s: string)
    ensures forall k :: 0 <= k < |EscapeHtml(s)| && EscapeHtml(s)[k] == '&' ==> EntityAt(EscapeHtml(s), k)
  {
    EscapeHtmlIsEscapeEach(s);
    EscapeEachAmpersands(s);
  }

  /** Escaping is not idempotent: escaped text escapes again. */
  lemma EscapeHtmlNotIdempotent()
    ensures EscapeHtml(EscapeHtml("<")) != EscapeHtml("<")
  {
    EscapeHtmlIsEscapeEach("<");
    EscapeHtmlLength(EscapeHtml("<"));
    assert EscapeHtml("<") == "&lt;";
    assert Count("&lt;", '&') >= 1;
  }

  /** What an HTML reader makes of escaped text: the three entities decoded. */
  function Unescape(r: string): string
    decreases |r|
  {
    if r == [] then []
    else if |r| >= 5 && r[..5] == "&amp;" then "&" + Unescape(r[5..])
    else if |r| >= 4 && r[..4] == "&lt;" then "<" + Unescape(r[4..])
    else if |r| >= 4 && r[..4] == "&gt;" then ">" + Unescape(r[4..])
    else [r[0]] + Unescape(r[1..])
  }

  lemma UnescapeStep(ch: char, rest: string)
    ensures Unescape(EscapeChar(ch) + rest) == [ch] + Unescape(rest)
  {
    var r := EscapeChar(ch) + rest;
    if ch == '&' {
      assert r[..5] == "&amp;" && r[5..] == rest;
    } else if ch == '<' {
      assert r[..4] == "&lt;" && r[4..] == rest;
      assert r[1] == 'l';
      assert |r| >= 5 ==> r[..5][1] == 'l';
    } else if ch == '>' {
      assert r[..4] == "&gt;" && r[4..] == rest;
      assert |r| >= 5 ==> r[..5][1] == 'g';
      assert r[..4][1] == 'g';
    } else {
      assert r[0] == ch && r[1..] == rest;
      assert |r| >= 5 ==> r[..5][0] == ch;
      assert |r| >= 4 ==> r[..4][0] == ch;
    }
  }

  /** The reader recovers exactly the text that was escaped. */
  lemma {:induction false} UnescapeEscapeHtml(s: string)
    ensures Unescape(EscapeHtml(s)) == s
  {
    EscapeHtmlIsEscapeEach(s);
    UnescapeEscapeEach(s);
  }

  lemma {:induction false} UnescapeEscapeEach(s: string)
    ensures Unescape(EscapeEach(s)) == s
  {
    if s != [] {
      UnescapeStep(s[0], EscapeEach(s[1..]));
      UnescapeEscapeEach(s[1..]);
      assert [s[0]] + s[1..] == s;
    }
  }

  // ---------------------------------------------------------------------------
  // Reminder label

  /** The lead time of a reminder as the messages word it. */
  datatype ReminderText =
    | DayBefore
    | HoursBefore(minutes: int)   // worded as minutes / 60 hours
    | HourBefore
    | MinutesBefore(minutes: int)

  /** The thresholds of the label chain: a day from 1440 minutes, hours from
      120, one hour from 60, minutes below that. */
  function ReminderBucket(m: int): (r: ReminderText)
    ensures r == DayBefore <==> m >= 1440
    ensures r.HoursBefore? <==> 120 <= m < 1440
    ensures r == HourBefore <==> 60 <= m < 120
    ensures r.MinutesBefore? <==> m < 60
    ensures (r.HoursBefore? || r.MinutesBefore?) ==> r.minutes == m
  {
    if m >= 1440 then DayBefore
    else if m >= 120 then HoursBefore(m)
    else if m >= 60 then HourBefore
    else MinutesBefore(m)
  }

  function Coarseness(r: ReminderText): nat
  {
    match r
    case MinutesBefore(_) => 0
    case HourBefore => 1
    case HoursBefore(_) => 2
    case DayBefore => 3
  }

  /** A longer lead time never gets a finer label. */
  lemma ReminderBucketMonotone(m1: int, m2: int)
    requires m1 <= m2
    ensures Coarseness(ReminderBucket(m1)) <= Coarseness(ReminderBucket(m2))
  {
  }

  /** reminder_minutes is truthy: present and not zero. */
  predicate HasReminder(reminder: Option<int>)
  {
    reminder.Some? && reminder.value != 0
  }

  /** The reminder line of a new-event message, present only for a truthy value. */
  function ReminderLine(reminder: Option<int>): (r: Option<ReminderText>)
    ensures r.None? <==> reminder.None? || reminder.value == 0
    ensures r.Some? ==> r.value == ReminderBucket(reminder.value)
  {
    if HasReminder(reminder) then Some(ReminderBucket(reminder.value)) else None
  }

  // ---------------------------------------------------------------------------
  // New-event notification

  /** notes is truthy: present and not empty. */
  function NotesLine(notes: Option<string>): (r: Option<string>)
    ensures r.None? <==> notes.None? || notes.value == []
    ensures r.Some? ==> r.value == EscapeHtml(notes.value) && '<' !in r.value
  {
    if notes.Some? && notes.value != [] then
      EscapeHtmlNoBrackets(notes.value);
      Some(EscapeHtml(notes.value))
    else None
  }

  /** The parts of the new-event announcement: escaped title and person, the
      start and end, the optional reminder and notes lines. */
  datatype NewEventMessage = NewEventMessage(
    title: string, person: string, weekday: int, start: int, end: int,
    reminder: Option<ReminderText>, notes: Option<string>)

  function NewEventMessageOf(e: Event): (m: NewEventMessage)
    ensures '<' !in m.title && '<' !in m.person && (m.notes.Some? ==> '<' !in m.notes.value)
    ensures Unescape(m.title) == e.title && Unescape(m.person) == e.person
    ensures 0 <= m.weekday < 7
    ensures m.title == EscapeHtml(e.title) && m.person == EscapeHtml(e.person)
    ensures m.weekday == Weekday(e.start) && m.start == e.start && m.end == e.end
    ensures m.reminder == ReminderLine(e.reminderMinutes) && m.notes == NotesLine(e.notes)
    ensures m.reminder.Some? <==> HasReminder(e.reminderMinutes)
  {
    EscapeHtmlNoBrackets(e.title);
    EscapeHtmlNoBrackets(e.person);
    UnescapeEscapeHtml(e.title);
    UnescapeEscapeHtml(e.person);
    NewEventMessage(EscapeHtml(e.title), EscapeHtml(e.person), Weekday(e.start), e.start, e.end,
                    ReminderLine(e.reminderMinutes), NotesLine(e.notes))
  }

  function NotChat(id: string): string -> bool
  {
    (c: string) => c != id
  }

  /** The chats a new event is announced to: all of them, minus the chat it was
      added from when that id is non-empty. */
  function TargetChats(chatIds: seq<string>, exclude: Option<string>): (r: seq<string>)
    ensures exclude.None? || exclude.value == [] ==> r == chatIds
    ensures forall id :: id in r <==> id in chatIds && (exclude.Some? && exclude.value != [] ==> id != exclude.value)
  {
    if exclude.Some? && exclude.value != [] then Filter(chatIds, NotChat(exclude.value)) else chatIds
  }

  /** The remaining chats keep their configured order. */
  lemma TargetChatsKeepOrder(chatIds: seq<string>, exclude: Option<string>)
    ensures IsSubsequence(TargetChats(chatIds, exclude), chatIds)
  {
    if exclude.Some? && exclude.value != [] {
      FilterIsSubsequence(chatIds, NotChat(exclude.value));
    } else {
      IsSubsequenceRefl(chatIds);
    }
  }

  lemma {:induction false} IsSubsequenceRefl(s: seq<string>)
    ensures IsSubsequence(s, s)
  {
    if s != [] {
      IsSubsequenceRefl(s[1..]);
    }
  }

  datatype NotifyPlan = NotConfigured | NothingToSend | SendTo(targets: seq<string>)

  /** What notifyNewEvent does before any request: give up without a bot token
      or without configured chats, succeed at once when every chat is excluded,
      and otherwise send to the remaining chats. */
  function PlanNotification(token: Option<string>, chatIds: seq<string>, exclude: Option<string>): (p: NotifyPlan)
    ensures p == NotConfigured <==> token.None? || token.value == [] || chatIds == []
    ensures p == NothingToSend <==> p != NotConfigured && TargetChats(chatIds, exclude) == []
    ensures p.SendTo? ==> p.targets == TargetChats(chatIds, exclude) && p.targets != []
  {
    if token.None? || token.value == [] || chatIds == [] then NotConfigured
    else
      var targets := TargetChats(chatIds, exclude);
      if targets == [] then NothingToSend else SendTo(targets)
  }

  /** The value notifyNewEvent returns, given what each request reported
      (None when a request threw). */
  function NotifyResult(p: NotifyPlan, delivered: Option<seq<bool>>): (ok: bool)
    ensures p == NotConfigured ==> !ok
    ensures p == NothingToSend ==> ok
    ensures p.SendTo? ==> (ok <==> delivered.Some? && forall i :: 0 <= i < |delivered.value| ==> delivered.value[i])
  {
    match p
    case NotConfigured => false
    case NothingToSend => true
    case SendTo(_) => delivered.Some? && forall i :: 0 <= i < |delivered.value| ==> delivered.value[i]
  }

  // ---------------------------------------------------------------------------
  // Daily digest

  /** One line of the digest: times, category, escaped title and person, and the
      reminder mark. */
  datatype DigestLine = DigestLine(start: int, end: int, category: string, title: string, person: string, reminderMark: bool)

  datatype PersonCount = PersonCount(person: string, count: nat)

  datatype DailyDigest =
    | NoEventsToday(weekday: int, date: int)
    | Digest(weekday: int, date: int, lines: seq<DigestLine>, total: nat, summary: seq<PersonCount>)

  function LineOf(e: Event): DigestLine
  {
    DigestLine(e.start, e.end, e.category, EscapeHtml(e.title), EscapeHtml(e.person), HasReminder(e.reminderMinutes))
  }

  function Lines(events: seq<Event>): (r: seq<DigestLine>)
    ensures |r| == |events| && forall k :: 0 <= k < |events| ==> r[k] == LineOf(events[k])
  {
    seq(|events|, k requires 0 <= k < |events| => LineOf(events[k]))
  }

  function Persons(events: seq<Event>): (r: seq<string>)
    ensures |r| == |events| && forall k :: 0 <= k < |events| ==> r[k] == events[k].person
  {
    seq(|events|, k requires 0 <= k < |events| => events[k].person)
  }

  predicate Distinct(names: seq<string>)
  {
    forall i, j :: 0 <= i < j < |names| ==> names[i] != names[j]
  }

  /** The distinct names in order of first appearance: the order in which the
      count dictionary receives its keys. */
  function FirstAppearance(xs: seq<string>): (r: seq<string>)
    ensures Distinct(r)
    ensures forall x :: x in r <==> x in xs
  {
    if xs == [] then []
    else
      var prev := FirstAppearance(xs[..|xs| - 1]);
      var x := xs[|xs| - 1];
      assert xs == xs[..|xs| - 1] + [x];
      if x in prev then prev else prev + [x]
  }

  /** The counts of `names` in `xs`, added up. */
  function SumCounts(names: seq<string>, xs: seq<string>): nat
  {
    if names == [] then 0 else SumCounts(names[..|names| - 1], xs) + Count(xs, names[|names| - 1])
  }

  lemma {:induction false} CountSnoc(s: seq<string>, y: string, x: string)
    ensures Count(s + [y], x) == Count(s, x) + (if y == x then 1 else 0)
  {
    if s != [] {
      assert (s + [y])[1..] == s[1..] + [y];
      CountSnoc(s[1..], y, x);
    } else {
      assert s + [y] == [y];
    }
  }

  lemma {:induction false} CountAbsent(s: seq<string>, x: string)
    requires x !in s
    ensures Count(s, x) == 0
  {
    if s != [] {
      CountAbsent(s[1..], x);
    }
  }

  /** One more element adds one to the total exactly when its name is counted. */
  lemma {:induction false} SumCountsSnoc(names: seq<string>, xs: seq<string>, y: string)
    requires Distinct(names)
    ensures SumCounts(names, xs + [y]) == SumCounts(names, xs) + (if y in names then 1 else 0)
  {
    if names != [] {
      var init := names[..|names| - 1];
      var last := names[|names| - 1];
      assert names == init + [last];
      SumCountsSnoc(init, xs, y);
      CountSnoc(xs, y, last);
      assert y in names <==> y in init || y == last;
      assert last !in init;
    }
  }

  /** The per-person counts of the summary add up to the number of events. */
  lemma {:induction false} SummaryAddsUp(xs: seq<string>)
    ensures SumCounts(FirstAppearance(xs), xs) == |xs|
  {
    if xs != [] {
      var init := xs[..|xs| - 1];
      var x := xs[|xs| - 1];
      assert xs == init + [x];
      var prev := FirstAppearance(init);
      SummaryAddsUp(init);
      SumCountsSnoc(prev, init, x);
      if x !in prev {
        assert (prev + [x])[..|prev|] == prev;
        CountSnoc(init, x, x);
        CountAbsent(init, x);
        assert SumCounts(prev + [x], xs) == SumCounts(prev, xs) + Count(xs, x);
      }
    }
  }

  /** The count dictionary after the events' names in order. */
  function Tally(xs: seq<string>): map<string, nat>
  {
    if xs == [] then map[]
    else
      var m := Tally(xs[..|xs| - 1]);
      var x := xs[|xs| - 1];
      m[x := (if x in m then m[x] else 0) + 1]
  }

  /** The dictionary holds exactly the names that occur, each with its number
      of occurrences. */
  lemma {:induction false} TallyIsCount(xs: seq<string>)
    ensures forall p :: p in Tally(xs) <==> p in xs
    ensures forall p :: p in Tally(xs) ==> Tally(xs)[p] == Count(xs, p)
  {
    if xs != [] {
      var init := xs[..|xs| - 1];
      var x := xs[|xs| - 1];
      TallyIsCount(init);
      assert xs == init + [x];
      forall p ensures Count(xs, p) == Count(init, p) + (if x == p then 1 else 0) {
        CountSnoc(init, x, p);
      }
      if x !in init {
        CountAbsent(init, x);
      }
    }
  }

  /** One more name: it is appended and counted once, or only counted again. */
  lemma TallyStep(xs: seq<string>, i: nat)
    requires i < |xs|
    ensures var m := Tally(xs[..i]);
            Tally(xs[..i + 1]) == m[xs[i] := (if xs[i] in m then m[xs[i]] else 0) + 1]
    ensures xs[i] in Tally(xs[..i]) <==> xs[i] in FirstAppearance(xs[..i])
    ensures FirstAppearance(xs[..i + 1])
         == if xs[i] in FirstAppearance(xs[..i]) then FirstAppearance(xs[..i]) else FirstAppearance(xs[..i]) + [xs[i]]
  {
    assert xs[..i + 1][..i] == xs[..i];
    TallyIsCount(xs[..i]);
  }

  /** The forEach that fills the count dictionary: the names in order of first
      appearance and how often each occurs. */
  method CountPersons(events: seq<Event>) returns (names: seq<string>, counts: map<string, nat>)
    ensures names == FirstAppearance(Persons(events))
    ensures forall p :: p in counts <==> p in names
    ensures forall p :: p in counts ==> counts[p] == Count(Persons(events), p)
  {
    names, counts := [], map[];
    var xs := Persons(events);
    for i := 0 to |events|
      invariant names == FirstAppearance(xs[..i]) && counts == Tally(xs[..i])
    {
      var person := events[i].person;
      TallyStep(xs, i);
      if person !in counts {
        names := names + [person];
        counts := counts[person := 1];
      } else {
        counts := counts[person := counts[person] + 1];
      }
    }
    assert xs[..|events|] == xs;
    TallyIsCount(xs);
  }

  /** buildDailyScheduleMessage: a fixed message for an empty day; otherwise a
      line per event in order of start (ties in input order), the number of
      events and the per-person summary. The input list itself is not
      reordered. */
  method BuildDailySchedule(events: seq<Event>, date: int) returns (msg: DailyDigest)
    ensures events == [] ==> msg == NoEventsToday(Weekday(date), date)
    ensures events != [] ==> msg.Digest? && msg.weekday == Weekday(date) && msg.date == date
    ensures msg.Digest? ==> msg.lines == Lines(SortByStart(events)) && msg.total == |events|
    ensures msg.Digest? ==> |msg.summary| == |FirstAppearance(Persons(events))| <= |events|
    ensures msg.Digest? ==> forall k :: 0 <= k < |msg.summary| ==>
              msg.summary[k].person == FirstAppearance(Persons(events))[k]
              && msg.summary[k].count == Count(Persons(events), msg.summary[k].person)
  {
    if |events| == 0 {
      return NoEventsToday(Weekday(date), date);
    }
    var sorted := SortByStart(events);
    var lines := Lines(sorted);
    var names, counts := CountPersons(events);
    FirstAppearanceShorter(Persons(events));
    var summary := seq(|names|, k requires 0 <= k < |names| => PersonCount(names[k], counts[names[k]]));
    msg := Digest(Weekday(date), date, lines, |events|, summary);
  }

  lemma {:induction false} FirstAppearanceShorter(xs: seq<string>)
    ensures |FirstAppearance(xs)| <= |xs|
  {
    if xs != [] {
      FirstAppearanceShorter(xs[..|xs| - 1]);
    }
  }

  function SummaryTotal(summary: seq<PersonCount>): nat
  {
    if summary == [] then 0 else SummaryTotal(summary[..|summary| - 1]) + summary[|summary| - 1].count
  }

  /** The counts of any summary the builder produces add up to the number of
      events, and no person appears twice. */
  lemma {:induction false} DigestSummaryAddsUp(events: seq<Event>, summary: seq<PersonCount>)
    requires |summary| == |FirstAppearance(Persons(events))|
    requires forall k :: 0 <= k < |summary| ==>
               summary[k].person == FirstAppearance(Persons(events))[k]
               && summary[k].count == Count(Persons(events), summary[k].person)
    ensures SummaryTotal(summary) == |events|
    ensures forall i, j :: 0 <= i < j < |summary| ==> summary[i].person != summary[j].person
  {
    var xs := Persons(events);
    SummaryMatches(FirstAppearance(xs), xs, summary);
    SummaryAddsUp(xs);
  }

  lemma {:induction false} SummaryMatches(names: seq<string>, xs: seq<string>, summary: seq<PersonCount>)
    requires |summary| == |names|
    requires forall k :: 0 <= k < |summary| ==> summary[k].person == names[k] && summary[k].count == Count(xs, names[k])
    ensures SummaryTotal(summary) == SumCounts(names, xs)
  {
    if names != [] {
      SummaryMatches(names[..|names| - 1], xs, summary[..|summary| - 1]);
    }
  }
}
