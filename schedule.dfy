/** The calendar helpers at the top of the family-schedule client: the per-day
    window, the person conflict detector, the visible hour range, the week strip,
    the person filter and the arithmetic of a drag-and-drop move. */
module Schedule {
  import opened Wrappers
  import opened FamilyEvents

  // ---------------------------------------------------------------------------
  // Day window

  /** An event is shown on a day when it starts no later than the day's last
      millisecond and ends no earlier than its first: both bounds inclusive. */
  predicate TouchesDay(e: Event, day: int)
  {
    e.start <= DayEnd(day) && e.end >= DayStart(day)
  }

  function OnDay(day: int): Event -> bool
  {
    (e: Event) => TouchesDay(e, day)
  }

  /** The events drawn in the column of `day`. */
  function EventsForDay(events: seq<Event>, day: int): (r: seq<Event>)
    ensures |r| <= |events|
    ensures forall e :: e in r <==> e in events && e.start <= DayEnd(day) && e.end >= DayStart(day)
  {
    Filter(events, OnDay(day))
  }

  /** The day's events keep the order they had in the input. */
  lemma EventsForDayKeepsOrder(events: seq<Event>, day: int)
    ensures IsSubsequence(EventsForDay(events, day), events)
  {
    FilterIsSubsequence(events, OnDay(day));
  }

  /** Filtering a concatenation filters each part: the window is decided event
      by event. */
  lemma EventsForDayAppend(a: seq<Event>, b: seq<Event>, day: int)
    ensures EventsForDay(a + b, day) == EventsForDay(a, day) + EventsForDay(b, day)
  {
    FilterAppend(a, b, OnDay(day));
  }

  // ---------------------------------------------------------------------------
  // Conflict detector

  /** Two events can only clash when they share a person or one of them is for
      the whole family. */
  predicate SharePerson(a: Event, b: Event)
  {
    a.person == b.person || a.person == Everyone || b.person == Everyone
  }

  predicate Clash(a: Event, b: Event)
  {
    SharePerson(a, b) && Overlaps(a, b)
  }

  /** The event at index k clashes with an event at another index. */
  ghost predicate Flagged(events: seq<Event>, k: int)
  {
    0 <= k < |events| && exists m :: 0 <= m < |events| && m != k && Clash(events[k], events[m])
  }

  /** The nested loops of the detector have examined the pair p < q once they
      reach row i, column j. */
  predicate PairVisited(p: int, q: int, i: int, j: int)
  {
    p < i || (p == i && q < j)
  }

  ghost predicate FlaggedBy(events: seq<Event>, k: int, i: int, j: int)
  {
    0 <= k < |events| &&
    exists m :: 0 <= m < |events| && m != k && Clash(events[k], events[m])
                && PairVisited(Min(k, m), Max(k, m), i, j)
  }

  /** The ids of all events that clash with another event: a pair is flagged
      only when it shares a person (or involves the whole family) and overlaps
      strictly. */
  method FindConflicts(events: seq<Event>) returns (ids: set<string>)
    ensures forall x :: x in ids <==> exists k :: Flagged(events, k) && events[k].id == x
  {
    ids := {};
    var n := |events|;
    forall k | 0 <= k < n ensures !FlaggedBy(events, k, 0, 1) {}
    for i := 0 to n
      invariant forall x :: x in ids <==> exists k :: FlaggedBy(events, k, i, i + 1) && events[k].id == x
    {
      for j := i + 1 to n
        invariant forall x :: x in ids <==> exists k :: FlaggedBy(events, k, i, j) && events[k].id == x
      {
        var a, b := events[i], events[j];
        forall k | 0 <= k < n { FlaggedStep(events, k, i, j); }
        if a.person != b.person && a.person != Everyone && b.person != Everyone {
          continue;
        }
        if a.start < b.end && b.start < a.end {
          ids := ids + {a.id, b.id};
        }
      }
      forall k | 0 <= k < n { FlaggedRowDone(events, k, i); }
    }
    forall k | 0 <= k < n { FlaggedAllVisited(events, k); }
  }

  lemma FlaggedStep(events: seq<Event>, k: int, i: int, j: int)
    requires 0 <= i < j < |events| && 0 <= k < |events|
    ensures FlaggedBy(events, k, i, j + 1)
        <==> FlaggedBy(events, k, i, j) || (Clash(events[i], events[j]) && (k == i || k == j))
  {
    if FlaggedBy(events, k, i, j + 1) && !FlaggedBy(events, k, i, j) {
      var m :| 0 <= m < |events| && m != k && Clash(events[k], events[m])
               && PairVisited(Min(k, m), Max(k, m), i, j + 1);
      assert Min(k, m) == i && Max(k, m) == j;
    }
    if Clash(events[i], events[j]) && k == i {
      assert PairVisited(Min(k, j), Max(k, j), i, j + 1);
    }
    if Clash(events[i], events[j]) && k == j {
      assert Clash(events[k], events[i]);
      assert PairVisited(Min(k, i), Max(k, i), i, j + 1);
    }
  }

  lemma FlaggedRowDone(events: seq<Event>, k: int, i: int)
    requires 0 <= i < |events| && 0 <= k < |events|
    ensures FlaggedBy(events, k, i, |events|) <==> FlaggedBy(events, k, i + 1, i + 2)
  {
    if FlaggedBy(events, k, i + 1, i + 2) {
      var m :| 0 <= m < |events| && m != k && Clash(events[k], events[m])
               && PairVisited(Min(k, m), Max(k, m), i + 1, i + 2);
      assert PairVisited(Min(k, m), Max(k, m), i, |events|);
    }
  }

  lemma FlaggedAllVisited(events: seq<Event>, k: int)
    requires 0 <= k < |events|
    ensures FlaggedBy(events, k, |events|, |events| + 1) <==> Flagged(events, k)
  {
    if Flagged(events, k) {
      var m :| 0 <= m < |events| && m != k && Clash(events[k], events[m]);
      assert PairVisited(Min(k, m), Max(k, m), |events|, |events| + 1);
    }
  }

  /** Both events of a clashing pair are flagged. */
  lemma ClashFlagsBoth(events: seq<Event>, i: int, j: int)
    requires 0 <= i < |events| && 0 <= j < |events| && i != j
    requires Clash(events[i], events[j])
    ensures Flagged(events, i) && Flagged(events, j)
  {
    assert Clash(events[j], events[i]);
  }

  /** Events of two different people, neither for the whole family, never clash,
      and neither do events that merely touch. */
  lemma NoClashAcrossPeopleOrTouching(a: Event, b: Event)
    requires (a.person != b.person && a.person != Everyone && b.person != Everyone) || a.end == b.start
    ensures !Clash(a, b) && !Clash(b, a)
  {
  }

  // ---------------------------------------------------------------------------
  // Visible hour range

  /** The last hour an event reaches: an end with a nonzero minute counts as the
      next hour, so 9:30 shows through 10. */
  function EndHourRounded(e: Event): (h: int)
    ensures HourOf(e.end) <= h <= HourOf(e.end) + 1 && h <= 24
  {
    if MinuteOf(e.end) > 0 then HourOf(e.end) + 1 else HourOf(e.end)
  }

  /** The running minimum of start and end hours, starting from 23. */
  function LowestHour(events: seq<Event>): (h: int)
    ensures 0 <= h <= 23
  {
    if events == [] then 23
    else
      var e := events[|events| - 1];
      Min(LowestHour(events[..|events| - 1]), Min(HourOf(e.start), HourOf(e.end)))
  }

  /** The running maximum of start hours and rounded end hours, starting from 0. */
  function HighestHour(events: seq<Event>): (h: int)
    ensures 0 <= h <= 24
  {
    if events == [] then 0
    else
      var e := events[|events| - 1];
      Max(HighestHour(events[..|events| - 1]), Max(HourOf(e.start), EndHourRounded(e)))
  }

  /** The bounds before manual expansion: 8 to 18 for an empty list. */
  function FirstHour(events: seq<Event>): int
  {
    if |events| == 0 then 8 else LowestHour(events)
  }

  function LastHour(events: seq<Event>): int
  {
    if |events| == 0 then 18 else HighestHour(events)
  }

  lemma {:induction false} LowestHourIsMinimum(events: seq<Event>)
    ensures forall e :: e in events ==> LowestHour(events) <= HourOf(e.start) && LowestHour(events) <= HourOf(e.end)
    ensures events != [] ==> exists e :: e in events && (LowestHour(events) == HourOf(e.start) || LowestHour(events) == HourOf(e.end))
  {
    if events != [] {
      var init := events[..|events| - 1];
      var e := events[|events| - 1];
      assert events == init + [e];
      LowestHourIsMinimum(init);
      if LowestHour(events) == Min(HourOf(e.start), HourOf(e.end)) {
        assert e in events;
      } else {
        var w :| w in init && (LowestHour(init) == HourOf(w.start) || LowestHour(init) == HourOf(w.end));
        assert w in events;
      }
    }
  }

  lemma {:induction false} HighestHourIsMaximum(events: seq<Event>)
    ensures forall e :: e in events ==> HourOf(e.start) <= HighestHour(events) && EndHourRounded(e) <= HighestHour(events)
    ensures events != [] ==> exists e :: e in events && (HighestHour(events) == HourOf(e.start) || HighestHour(events) == EndHourRounded(e))
  {
    if events != [] {
      var init := events[..|events| - 1];
      var e := events[|events| - 1];
      assert events == init + [e];
      HighestHourIsMaximum(init);
      if HighestHour(events) == Max(HourOf(e.start), EndHourRounded(e)) {
        assert e in events;
      } else {
        var w :| w in init && (HighestHour(init) == HourOf(w.start) || HighestHour(init) == EndHourRounded(w));
        assert w in events;
      }
    }
  }

  datatype HoursInfo = HoursInfo(hours: seq<int>, minHour: int, maxHour: int, canExpandStart: bool, canExpandEnd: bool)

  /** The hour rows of the day and week grids. Every event's start and end hour
      lies inside the range (rounded end hours as far as hour 23 allows); the
      range is the tightest such one widened by the manual expansions, clamped
      to the day, and stretched to at least six hours where the day allows. */
  method HoursRange(events: seq<Event>, expandS: nat, expandE: nat) returns (info: HoursInfo)
    ensures 0 <= info.minHour <= info.maxHour <= 23
    ensures |info.hours| == info.maxHour - info.minHour + 1
    ensures forall k :: 0 <= k < |info.hours| ==> info.hours[k] == info.minHour + k
    ensures info.canExpandStart <==> info.minHour > 0
    ensures info.canExpandEnd <==> info.maxHour < 23
    ensures info.minHour <= 17 ==> info.maxHour - info.minHour >= 6
    ensures info.minHour == Max(0, FirstHour(events) - expandS)
    ensures info.maxHour == Max(Min(23, LastHour(events) + expandE), Min(23, info.minHour + 6))
    ensures forall e :: e in events ==>
              && info.minHour <= HourOf(e.start) <= info.maxHour
              && info.minHour <= HourOf(e.end)
              && Min(23, EndHourRounded(e)) <= info.maxHour
  {
    var mn, mx := 8, 18;
    if |events| > 0 {
      mn, mx := 23, 0;
      for i := 0 to |events|
        invariant mn == LowestHour(events[..i]) && mx == HighestHour(events[..i])
      {
        var e := events[i];
        var sh, eh := HourOf(e.start), HourOf(e.end);
        var em := MinuteOf(e.end);
        var eeh := if em > 0 then eh + 1 else eh;
        mn := Min(mn, Min(sh, eh));
        mx := Max(mx, Max(sh, eeh));
        assert events[..i + 1][..i] == events[..i];
      }
      assert events[..|events|] == events;
    }
    mn := Max(0, mn - expandS);
    mx := Min(23, mx + expandE);
    if mx - mn < 6 {
      mx := Min(23, mn + 6);
    }
    info := HoursInfo(seq(mx - mn + 1, k => mn + k), mn, mx, mn > 0, mx < 23);
    LowestHourIsMinimum(events);
    HighestHourIsMaximum(events);
  }

  // ---------------------------------------------------------------------------
  // Week strip

  /** The seven days, Sunday first, of the week holding `date` (startOfWeek with
      weekStartsOn 0, then addDays). */
  function WeekDates(date: int): (days: seq<int>)
    ensures |days| == 7
    ensures days[0] <= date < days[0] + 7 * DayMs
    ensures forall k :: 0 <= k < 7 ==> days[k] == days[0] + k * DayMs
    ensures forall k :: 0 <= k < 7 ==> DayStart(days[k]) == days[k] && Weekday(days[k]) == k
  {
    var w := Weekday(date);
    var sunday := DayStart(date) - w * DayMs;
    WeekDayFacts(date);
    seq(7, k => sunday + k * DayMs)
  }

  lemma WeekDayFacts(date: int)
    ensures forall k :: 0 <= k < 7 ==>
      var d := DayStart(date) - Weekday(date) * DayMs + k * DayMs;
      DayStart(d) == d && Weekday(d) == k
  {
    var q := date / DayMs;
    assert DayStart(date) == q * DayMs;
    forall k | 0 <= k < 7
      ensures var d := DayStart(date) - Weekday(date) * DayMs + k * DayMs;
              DayStart(d) == d && Weekday(d) == k
    {
      var c := q - Weekday(date) + k;
      var d := c * DayMs;
      assert DayStart(date) - Weekday(date) * DayMs + k * DayMs == d;
      assert d % DayMs == 0 && d / DayMs == c;
      assert (q + 4) % 7 == Weekday(date);
      assert (c + 4) % 7 == k;
    }
  }

  // ---------------------------------------------------------------------------
  // Person filter

  /** Whether an event passes the person filter bar: its person is selected, or
      it is for the whole family and at least one chip is selected. */
  predicate ShownFor(e: Event, selected: set<string>)
  {
    e.person in selected || (e.person == Everyone && |selected| > 0)
  }

  function PersonFilter(selected: set<string>): Event -> bool
  {
    (e: Event) => ShownFor(e, selected)
  }

  function FilteredEvents(events: seq<Event>, selected: set<string>): (r: seq<Event>)
    ensures forall e :: e in r <==> e in events && (e.person in selected || (e.person == Everyone && selected != {}))
    ensures selected == {} ==> r == []
  {
    var r := Filter(events, PersonFilter(selected));
    assert r != [] ==> r[0] in r;
    r
  }

  // ---------------------------------------------------------------------------
  // Drag-and-drop move

  /** date-fns differenceInMinutes: the whole minutes from `earlier` to `later`,
      truncated toward zero. */
  function DifferenceInMinutes(later: int, earlier: int): (m: int)
    ensures later >= earlier ==> m >= 0 && 0 <= (later - earlier) - m * MinuteMs < MinuteMs
    ensures later < earlier ==> m <= 0 && 0 <= m * MinuteMs - (later - earlier) < MinuteMs
  {
    var d := later - earlier;
    if d >= 0 then d / MinuteMs else -((-d) / MinuteMs)
  }

  /** setMinutes(setHours(date, hour), 0): the hour and minute change, the
      seconds and milliseconds of `date` stay. */
  function AtHourOf(date: int, hour: int): int
  {
    DayStart(date) + hour * HourMs + date % MinuteMs
  }

  /** The event dropped on the cell for `hour` of `date`: it starts on that day
      at hour:00, keeps its whole-minute duration, and keeps every other field. */
  function DropAt(ev: Event, date: int, hour: int): (r: Event)
    ensures r == ev.(start := r.start, end := r.end)
    ensures 0 <= hour < 24 ==> DayStart(r.start) == DayStart(date) && HourOf(r.start) == hour && MinuteOf(r.start) == 0
    ensures r.start % MinuteMs == date % MinuteMs
    ensures r.end - r.start == DifferenceInMinutes(ev.end, ev.start) * MinuteMs
    ensures ev.start <= ev.end ==> 0 <= (ev.end - ev.start) - (r.end - r.start) < MinuteMs
    ensures ev.end < ev.start ==> 0 <= (r.end - r.start) - (ev.end - ev.start) < MinuteMs
    ensures (ev.end - ev.start) % MinuteMs == 0 ==> r.end - r.start == ev.end - ev.start
  {
    var dur := DifferenceInMinutes(ev.end, ev.start);
    var ns := AtHourOf(date, hour);
    AtHourFacts(date, hour);
    ev.(start := ns, end := ns + dur * MinuteMs)
  }

  lemma AtHourFacts(date: int, hour: int)
    ensures AtHourOf(date, hour) % MinuteMs == date % MinuteMs
    ensures 0 <= hour < 24 ==>
      var t := AtHourOf(date, hour);
      DayStart(t) == DayStart(date) && HourOf(t) == hour && MinuteOf(t) == 0
  {
    var q := date / DayMs;
    var s := date % MinuteMs;
    var t := AtHourOf(date, hour);
    assert t == (q * 1440 + hour * 60) * MinuteMs + s;
    assert t % MinuteMs == s;
    if 0 <= hour < 24 {
      assert t == q * DayMs + (hour * HourMs + s);
      assert 0 <= hour * HourMs + s < DayMs;
      assert t % DayMs == hour * HourMs + s;
      assert t == (q * 24 + hour) * HourMs + s;
      assert t % HourMs == s;
    }
  }
}
