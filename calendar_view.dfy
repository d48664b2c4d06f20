/** The state the family-schedule component keeps between renders: the view
    mode, the date in view, the manual hour expansions, the people selected in
    the filter bar and the categories the family added; with the handlers that
    change it. Month arithmetic belongs to the date library and is passed in. */
module CalendarView {
  import opened FamilyEvents
  import opened Text
  import opened Schedule

  datatype ViewMode = DayView | WeekView | MonthView

  /** The date one navigation step away from `date`, forwards for `dir` = 1 and
      backwards for `dir` = -1: a day in day view, a week in week view and a
      month, by the library's `addMonths`, in month view. */
  function Stepped(view: ViewMode, date: int, dir: int, addMonths: (int, int) -> int): int
    requires dir == 1 || dir == -1
  {
    match view
    case DayView => date + dir * DayMs
    case WeekView => date + dir * 7 * DayMs
    case MonthView => addMonths(date, dir)
  }

  /** Stepping forward and then back returns to the same instant in day and week
      view. */
  lemma SteppedRoundTrip(view: ViewMode, date: int, addMonths: (int, int) -> int)
    requires view != MonthView
    ensures Stepped(view, Stepped(view, date, 1, addMonths), -1, addMonths) == date
    ensures Stepped(view, Stepped(view, date, -1, addMonths), 1, addMonths) == date
  {
  }

  lemma ShiftByDays(date: int, n: int)
    requires n == 1 || n == -1 || n == 7 || n == -7
    ensures (date + n * DayMs) % DayMs == date % DayMs
    ensures (date + n * DayMs) / DayMs == date / DayMs + n
  {
    var q, r := date / DayMs, date % DayMs;
    assert date == q * DayMs + r;
    assert date + n * DayMs == (q + n) * DayMs + r;
  }

  /** Whole days are whole hours and whole minutes. */
  lemma ShiftByDaysInHours(date: int, n: int)
    requires n == 1 || n == -1 || n == 7 || n == -7
    ensures (date + n * DayMs) % HourMs == date % HourMs
  {
    var q, r := date / HourMs, date % HourMs;
    assert date == q * HourMs + r;
    assert date + n * DayMs == (q + 24 * n) * HourMs + r;
  }

  lemma ShiftByDaysInMinutes(date: int, n: int)
    requires n == 1 || n == -1 || n == 7 || n == -7
    ensures (date + n * DayMs) % MinuteMs == date % MinuteMs
  {
    var q, r := date / MinuteMs, date % MinuteMs;
    assert date == q * MinuteMs + r;
    assert date + n * DayMs == (q + 1440 * n) * MinuteMs + r;
  }

  lemma WeekdayShift(date: int, n: int)
    requires n == 1 || n == -1 || n == 7 || n == -7
    ensures Weekday(date + n * DayMs) == (Weekday(date) + n) % 7
  {
    ShiftByDays(date, n);
    var a := date / DayMs + 4;
    assert Weekday(date + n * DayMs) == (a + n) % 7;
    assert Weekday(date) == a % 7;
    var q := a / 7;
    assert a == 7 * q + a % 7;
    assert a + n == 7 * q + (a % 7 + n);
  }

  /** A day or week step keeps the time of day; a week step keeps the weekday and
      a day step moves it by one. */
  lemma SteppedKeepsClock(view: ViewMode, date: int, dir: int, addMonths: (int, int) -> int)
    requires view != MonthView && (dir == 1 || dir == -1)
    ensures var d := Stepped(view, date, dir, addMonths);
            && HourOf(d) == HourOf(date) && MinuteOf(d) == MinuteOf(date)
            && d % MinuteMs == date % MinuteMs
            && (view == WeekView ==> Weekday(d) == Weekday(date))
            && (view == DayView ==> Weekday(d) == (Weekday(date) + dir) % 7)
  {
    var n := if view == DayView then dir else 7 * dir;
    var d := Stepped(view, date, dir, addMonths);
    assert d == date + n * DayMs;
    ShiftByDays(date, n);
    ShiftByDaysInHours(date, n);
    ShiftByDaysInMinutes(date, n);
    WeekdayShift(date, n);
    if view == WeekView {
      assert (Weekday(date) + 7 * dir) % 7 == Weekday(date);
    }
  }

  /** Selecting a person who is selected deselects them, and the other way round. */
  function Toggle(s: set<string>, p: string): (r: set<string>)
    ensures p in r <==> p !in s
    ensures forall q :: q != p ==> (q in r <==> q in s)
  {
    if p in s then s - {p} else s + {p}
  }

  lemma {:induction false} ToggleTwice(s: set<string>, p: string)
    ensures Toggle(Toggle(s, p), p) == s
  {
    var t := Toggle(Toggle(s, p), p);
    forall q ensures q in t <==> q in s {
      if q == p {
        assert p in t <==> p !in Toggle(s, p);
      }
    }
  }

  /** The custom categories stay trimmed, non-empty, distinct and apart from the
      default ones. */
  predicate CustomCatsOk(defaults: seq<string>, cats: seq<string>)
  {
    forall i :: 0 <= i < |cats| ==>
      && cats[i] != [] && Trim(cats[i]) == cats[i] && cats[i] !in defaults
      && (forall j :: 0 <= j < i ==> cats[j] != cats[i])
  }

  /** The custom categories after adding `c`: its trimmed text is appended unless
      it is empty or already a category. */
  function WithCategory(defaults: seq<string>, cats: seq<string>, c: string): seq<string>
  {
    var t := Trim(c);
    if t == [] || t in defaults + cats then cats else cats + [t]
  }

  /** Adding a category keeps the custom list well formed, and afterwards the
      trimmed text is a category whenever it is not empty. */
  lemma WithCategoryOk(defaults: seq<string>, cats: seq<string>, c: string)
    requires CustomCatsOk(defaults, cats)
    ensures CustomCatsOk(defaults, WithCategory(defaults, cats, c))
    ensures Trim(c) != [] ==> Trim(c) in defaults + WithCategory(defaults, cats, c)
    ensures |WithCategory(defaults, cats, c)| <= |cats| + 1
  {
    TrimIdempotent(c);
  }

  /** Adding the same text twice adds it once. */
  lemma WithCategoryIdempotent(defaults: seq<string>, cats: seq<string>, c: string)
    ensures WithCategory(defaults, WithCategory(defaults, cats, c), c) == WithCategory(defaults, cats, c)
  {
  }

  class CalendarState {
    /** The family members from the configuration, then the whole family. */
    const people: seq<string>
    const defaultCategories: seq<string>
    var view: ViewMode
    var currentDate: int
    var expandStart: nat
    var expandEnd: nat
    var selectedPeople: set<string>
    var customCats: seq<string>

    predicate Valid()
      reads this
    {
      CustomCatsOk(defaultCategories, customCats)
    }

    /** The first render: week view on the current instant, no expansion,
        everybody selected, no custom categories. */
    constructor(members: seq<string>, defaults: seq<string>, now: int)
      ensures people == members + [Everyone] && defaultCategories == defaults
      ensures view == WeekView && currentDate == now
      ensures expandStart == 0 && expandEnd == 0
      ensures selectedPeople == set p | p in members + [Everyone]
      ensures customCats == []
      ensures Valid()
    {
      people := members + [Everyone];
      defaultCategories := defaults;
      view := WeekView;
      currentDate := now;
      expandStart, expandEnd := 0, 0;
      selectedPeople := set p | p in members + [Everyone];
      customCats := [];
    }

    /** The defaults followed by the custom categories. */
    function Categories(): seq<string>
      reads this
    {
      defaultCategories + customCats
    }

    /** Choosing a view; the expansions are reset by an effect that runs only when
        the view actually changes. */
    method SetView(v: ViewMode)
      modifies this
      ensures view == v
      ensures old(view) != v ==> expandStart == 0 && expandEnd == 0
      ensures old(view) == v ==> expandStart == old(expandStart) && expandEnd == old(expandEnd)
      ensures currentDate == old(currentDate) && selectedPeople == old(selectedPeople)
      ensures customCats == old(customCats)
    {
      if v != view {
        expandStart, expandEnd := 0, 0;
      }
      view := v;
    }

    method NavBack(addMonths: (int, int) -> int)
      modifies this
      ensures currentDate == Stepped(old(view), old(currentDate), -1, addMonths)
      ensures expandStart == 0 && expandEnd == 0
      ensures view == old(view) && selectedPeople == old(selectedPeople)
      ensures customCats == old(customCats)
    {
      if view == DayView {
        currentDate := currentDate - DayMs;
      } else if view == WeekView {
        currentDate := currentDate - 7 * DayMs;
      } else {
        currentDate := addMonths(currentDate, -1);
      }
      expandStart, expandEnd := 0, 0;
    }

    method NavForward(addMonths: (int, int) -> int)
      modifies this
      ensures currentDate == Stepped(old(view), old(currentDate), 1, addMonths)
      ensures expandStart == 0 && expandEnd == 0
      ensures view == old(view) && selectedPeople == old(selectedPeople)
      ensures customCats == old(customCats)
    {
      if view == DayView {
        currentDate := currentDate + DayMs;
      } else if view == WeekView {
        currentDate := currentDate + 7 * DayMs;
      } else {
        currentDate := addMonths(currentDate, 1);
      }
      expandStart, expandEnd := 0, 0;
    }

    /** The "today" button moves the date only; the expansions are kept. */
    method GoToday(now: int)
      modifies this
      ensures currentDate == now
      ensures view == old(view) && expandStart == old(expandStart) && expandEnd == old(expandEnd)
      ensures selectedPeople == old(selectedPeople) && customCats == old(customCats)
    {
      currentDate := now;
    }

    /** A day picked in the month grid opens that day in day view. */
    method SelectDayFromMonth(d: int)
      modifies this
      ensures currentDate == d && view == DayView
      ensures old(view) != DayView ==> expandStart == 0 && expandEnd == 0
      ensures old(view) == DayView ==> expandStart == old(expandStart) && expandEnd == old(expandEnd)
      ensures selectedPeople == old(selectedPeople) && customCats == old(customCats)
    {
      currentDate := d;
      SetView(DayView);
    }

    /** "Earlier hours": two more hours above the grid. */
    method ExpandEarlier()
      modifies this
      ensures expandStart == old(expandStart) + 2 && expandEnd == old(expandEnd)
      ensures view == old(view) && currentDate == old(currentDate)
      ensures selectedPeople == old(selectedPeople) && customCats == old(customCats)
    {
      expandStart := expandStart + 2;
    }

    /** "Later hours": two more hours below the grid. */
    method ExpandLater()
      modifies this
      ensures expandEnd == old(expandEnd) + 2 && expandStart == old(expandStart)
      ensures view == old(view) && currentDate == old(currentDate)
      ensures selectedPeople == old(selectedPeople) && customCats == old(customCats)
    {
      expandEnd := expandEnd + 2;
    }

    method TogglePerson(p: string)
      modifies this
      ensures selectedPeople == Toggle(old(selectedPeople), p)
      ensures view == old(view) && currentDate == old(currentDate)
      ensures expandStart == old(expandStart) && expandEnd == old(expandEnd)
      ensures customCats == old(customCats)
    {
      if p in selectedPeople {
        selectedPeople := selectedPeople - {p};
      } else {
        selectedPeople := selectedPeople + {p};
      }
    }

    method AddCustomCat(c: string)
      modifies this
      ensures customCats == WithCategory(defaultCategories, old(customCats), c)
      ensures old(Valid()) ==> Valid()
      ensures view == old(view) && currentDate == old(currentDate)
      ensures expandStart == old(expandStart) && expandEnd == old(expandEnd)
      ensures selectedPeople == old(selectedPeople)
    {
      if old(Valid()) {
        WithCategoryOk(defaultCategories, customCats, c);
      }
      var t := Trim(c);
      if t == [] || t in Categories() {
        return;
      }
      customCats := customCats + [t];
    }

    /** The events the day or week grid shows: the person filter, then in day
        view only those touching the current day. */
    function VisibleEvents(events: seq<Event>): seq<Event>
      reads this
    {
      var shown := FilteredEvents(events, selectedPeople);
      if view == DayView then EventsForDay(shown, currentDate) else shown
    }

    /** The hour rows of the grid in view, with the current expansions. */
    method VisibleHours(events: seq<Event>) returns (info: HoursInfo)
      ensures 0 <= info.minHour <= info.maxHour <= 23
      ensures |info.hours| == info.maxHour - info.minHour + 1
      ensures forall k :: 0 <= k < |info.hours| ==> info.hours[k] == info.minHour + k
      ensures info.canExpandStart <==> info.minHour > 0
      ensures info.canExpandEnd <==> info.maxHour < 23
      ensures info.minHour == Max(0, FirstHour(VisibleEvents(events)) - expandStart)
      ensures info.maxHour == Max(Min(23, LastHour(VisibleEvents(events)) + expandEnd), Min(23, info.minHour + 6))
      ensures forall e :: e in VisibleEvents(events) ==> info.minHour <= HourOf(e.start) <= info.maxHour
      ensures forall e :: e in VisibleEvents(events) ==> e in events && ShownFor(e, selectedPeople)
    {
      info := HoursRange(VisibleEvents(events), expandStart, expandEnd);
    }
  }
}
