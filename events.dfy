/** The family-calendar event record shared by the web client, the notification
    helpers and the bot, with the time arithmetic they all rely on.

    Instants are whole milliseconds read as wall-clock time in the family's single
    fixed time zone, so the hour, minute and weekday of an instant are plain
    Euclidean divisions. */
module FamilyEvents {

  import opened Wrappers

  const MinuteMs: int := 60_000
  const HourMs: int := 3_600_000
  const DayMs: int := 86_400_000

  /** The reserved assignee meaning "the whole family". */
  const Everyone: string := "כולם"

  datatype Event = Event(
    id: string,
    title: string,
    person: string,
    category: string,
    start: int,
    end: int,
    recurring: bool,
    reminderMinutes: Option<int>,
    notes: Option<string>)

  function Min(a: int, b: int): int { if a <= b then a else b }
  function Max(a: int, b: int): int { if a >= b then a else b }

  /** Half-open overlap of two events: touching intervals do not overlap. */
  predicate Overlaps(a: Event, b: Event)
  {
    a.start < b.end && b.start < a.end
  }

  /** The hour of the day of an instant (date-fns getHours). */
  function HourOf(t: int): (h: int)
    ensures 0 <= h < 24
  {
    (t % DayMs) / HourMs
  }

  /** The minute within the hour of an instant (date-fns getMinutes). */
  function MinuteOf(t: int): (m: int)
    ensures 0 <= m < 60
  {
    (t % HourMs) / MinuteMs
  }

  /** Midnight at the start of the day holding `t` (date-fns startOfDay). */
  function DayStart(t: int): (d: int)
    ensures d <= t < d + DayMs
    ensures d % DayMs == 0
  {
    t - t % DayMs
  }

  /** The last millisecond of the day holding `t` (date-fns endOfDay). */
  function DayEnd(t: int): (d: int)
    ensures DayStart(t) <= t <= d && d == DayStart(t) + DayMs - 1
  {
    DayStart(t) + DayMs - 1
  }

  /** Day of the week, 0 = Sunday .. 6 = Saturday (Date.getDay); day 0 of the
      epoch was a Thursday. */
  function Weekday(t: int): (w: int)
    ensures 0 <= w < 7
  {
    (t / DayMs + 4) % 7
  }

  // ---------------------------------------------------------------------------
  // Sequences: filtering, subsequences, counting

  /** `sub` can be obtained from `s` by deleting elements; the kept ones stay in order. */
  predicate IsSubsequence<T(==)>(sub: seq<T>, s: seq<T>)
    decreases |s|
  {
    if sub == [] then true
    else if s == [] then false
    else if sub[0] == s[0] then IsSubsequence(sub[1..], s[1..])
    else IsSubsequence(sub, s[1..])
  }

  /** Array.prototype.filter. */
  function Filter<T(!new)>(s: seq<T>, p: T -> bool): (r: seq<T>)
    ensures |r| <= |s|
    ensures forall x :: x in r <==> x in s && p(x)
    ensures forall i :: 0 <= i < |r| ==> p(r[i])
  {
    if s == [] then [] else (if p(s[0]) then [s[0]] else []) + Filter(s[1..], p)
  }

  lemma {:induction false} FilterIsSubsequence<T(!new)>(s: seq<T>, p: T -> bool)
    ensures IsSubsequence(Filter(s, p), s)
  {
    if s != [] {
      FilterIsSubsequence(s[1..], p);
      if p(s[0]) {
        assert Filter(s, p) == [s[0]] + Filter(s[1..], p);
        assert Filter(s, p)[1..] == Filter(s[1..], p);
      } else {
        assert Filter(s, p) == Filter(s[1..], p);
        IsSubsequenceSkip(Filter(s[1..], p), s[1..], s[0]);
      }
    }
  }

  lemma {:induction false} IsSubsequenceSkip<T>(sub: seq<T>, s: seq<T>, x: T)
    requires IsSubsequence(sub, s)
    ensures IsSubsequence(sub, [x] + s)
    decreases |s|, 1
  {
    assert ([x] + s)[1..] == s;
    if sub != [] && sub[0] == x {
      IsSubsequenceTail(sub, s);
    }
  }

  lemma {:induction false} IsSubsequenceTail<T>(sub: seq<T>, s: seq<T>)
    requires sub != [] && IsSubsequence(sub, s)
    ensures IsSubsequence(sub[1..], s)
    decreases |s|, 0
  {
    assert [s[0]] + s[1..] == s;
    if sub[0] == s[0] {
      IsSubsequenceSkip(sub[1..], s[1..], s[0]);
    } else {
      IsSubsequenceTail(sub, s[1..]);
      IsSubsequenceSkip(sub[1..], s[1..], s[0]);
    }
  }

  lemma {:induction false} FilterAppend<T(!new)>(a: seq<T>, b: seq<T>, p: T -> bool)
    ensures Filter(a + b, p) == Filter(a, p) + Filter(b, p)
  {
    if a != [] {
      assert (a + b)[1..] == a[1..] + b;
      FilterAppend(a[1..], b, p);
    } else {
      assert a + b == b;
    }
  }

  /** How often `x` occurs in `s`. */
  function Count<T(==)>(s: seq<T>, x: T): nat
  {
    if s == [] then 0 else (if s[0] == x then 1 else 0) + Count(s[1..], x)
  }

  // ---------------------------------------------------------------------------
  // Stable sort by start instant: Array.prototype.sort with the comparator
  // (a, b) => start(a) - start(b), which ECMAScript requires to be stable.

  predicate SortedByStart(s: seq<Event>)
  {
    forall i, j :: 0 <= i < j < |s| ==> s[i].start <= s[j].start
  }

  /** Inserts `x` in front of the first element that does not start before it. */
  function InsertByStart(x: Event, s: seq<Event>): (r: seq<Event>)
    ensures |r| == |s| + 1
    ensures multiset(r) == multiset(s) + multiset{x}
    ensures forall i :: 0 <= i < |r| ==> r[i] == x || r[i] in s
    ensures SortedByStart(s) ==> SortedByStart(r)
  {
    if s == [] || x.start <= s[0].start then
      SortedCons(x, s);
      [x] + s
    else
      assert s == [s[0]] + s[1..];
      var rest := InsertByStart(x, s[1..]);
      SortedCons(s[0], rest);
      [s[0]] + rest
  }

  /** A sorted list stays sorted under a new first element starting no later
      than its first element. */
  lemma SortedCons(e: Event, s: seq<Event>)
    ensures SortedByStart(s) && (s == [] || e.start <= s[0].start) ==> SortedByStart([e] + s)
  {
    if SortedByStart(s) && (s == [] || e.start <= s[0].start) {
      var r := [e] + s;
      forall i, j | 0 <= i < j < |r| ensures r[i].start <= r[j].start {
        if i > 0 {
          assert r[i] == s[i - 1] && r[j] == s[j - 1];
        } else {
          assert r[j] == s[j - 1];
        }
      }
    }
  }

  function SortByStart(s: seq<Event>): (r: seq<Event>)
    ensures |r| == |s|
    ensures multiset(r) == multiset(s)
    ensures SortedByStart(r)
  {
    if s == [] then []
    else
      assert s == [s[0]] + s[1..];
      InsertByStart(s[0], SortByStart(s[1..]))
  }

  function StartsAt(t: int): Event -> bool
  {
    (e: Event) => e.start == t
  }

  /** Stability: the events that start at any one instant keep their input order. */
  lemma {:induction false} SortByStartIsStable(s: seq<Event>, t: int)
    ensures Filter(SortByStart(s), StartsAt(t)) == Filter(s, StartsAt(t))
  {
    if s != [] {
      SortByStartIsStable(s[1..], t);
      InsertByStartFilter(s[0], SortByStart(s[1..]), t);
      assert s == [s[0]] + s[1..];
      FilterAppend([s[0]], s[1..], StartsAt(t));
    }
  }

  lemma {:induction false} InsertByStartFilter(x: Event, s: seq<Event>, t: int)
    ensures Filter(InsertByStart(x, s), StartsAt(t))
         == Filter([x], StartsAt(t)) + Filter(s, StartsAt(t))
  {
    var p := StartsAt(t);
    if s == [] || x.start <= s[0].start {
      FilterAppend([x], s, p);
    } else {
      var rest := InsertByStart(x, s[1..]);
      InsertByStartFilter(x, s[1..], t);
      FilterAppend([s[0]], rest, p);
      FilterAppend([s[0]], s[1..], p);
      assert [s[0]] + s[1..] == s;
      FilterSingle(x, p);
      FilterSingle(s[0], p);
      // s[0] starts strictly before x, so at most one of them passes p
      assert Filter([x], p) == [] || Filter([s[0]], p) == [];
    }
  }

  lemma FilterSingle<T(!new)>(y: T, p: T -> bool)
    ensures Filter([y], p) == if p(y) then [y] else []
  {
    assert [y][1..] == [];
  }
}
