/** The overlap layout of one day's events (layoutOverlappingEvents): the events
    are sorted by start, swept into overlap groups, placed first-fit into
    columns within each group, and every event of a group is stamped with the
    number of columns that group needed.

    The functions below define each stage the way the code computes it, one
    event at a time; the methods run the same loops as the code and are proved
    to compute those functions; LayoutProofs states what the result means. */
module Layout {
  import opened FamilyEvents

  datatype LayoutEvent = LayoutEvent(ev: Event, col: nat, totalCols: nat)

  function Last<T>(s: seq<T>): T
    requires s != []
  {
    s[|s| - 1]
  }

  /** The groups (or columns) laid end to end. */
  function Flatten(ss: seq<seq<Event>>): seq<Event>
  {
    if ss == [] then [] else Flatten(ss[..|ss| - 1]) + Last(ss)
  }

  /** The latest end among the events of a non-empty group: the running
      `groupEnd` of the sweep. */
  function MaxEnd(g: seq<Event>): int
    requires g != []
  {
    if |g| == 1 then g[0].end else Max(MaxEnd(g[..|g| - 1]), Last(g).end)
  }

  // ---------------------------------------------------------------------------
  // Stage 1: overlap groups

  /** The sweep's variables: the groups already closed, the current group and
      its running end. */
  datatype Sweep = Sweep(closed: seq<seq<Event>>, current: seq<Event>, groupEnd: int)

  /** An event joins the current group when it starts strictly before the
      group's running end; otherwise it closes the group and opens a new one. */
  function SweepStep(st: Sweep, e: Event): Sweep
  {
    if e.start < st.groupEnd then Sweep(st.closed, st.current + [e], Max(st.groupEnd, e.end))
    else Sweep(st.closed + [st.current], [e], e.end)
  }

  /** The sweep after the events of a non-empty sorted list. */
  function SweepAll(sorted: seq<Event>): (st: Sweep)
    requires sorted != []
    ensures st.current != [] && st.groupEnd == MaxEnd(st.current)
    ensures forall g :: g in st.closed ==> g != []
    ensures Flatten(st.closed) + st.current == sorted
  {
    if |sorted| == 1 then Sweep([], [sorted[0]], sorted[0].end)
    else
      var init := sorted[..|sorted| - 1];
      var prev := SweepAll(init);
      var e := Last(sorted);
      assert sorted == init + [e];
      var st := SweepStep(prev, e);
      assert st.current != [] && st.groupEnd == MaxEnd(st.current) by {
        if e.start < prev.groupEnd {
          assert st.current[..|st.current| - 1] == prev.current;
        }
      }
      assert Flatten(st.closed) + st.current == sorted by {
        if !(e.start < prev.groupEnd) {
          assert st.closed[..|st.closed| - 1] == prev.closed;
        }
      }
      st
  }

  /** The overlap groups of a list sorted by start. */
  function Groups(sorted: seq<Event>): (gs: seq<seq<Event>>)
    ensures Flatten(gs) == sorted
    ensures forall g :: g in gs ==> g != []
    ensures sorted == [] <==> gs == []
  {
    if sorted == [] then []
    else
      var st := SweepAll(sorted);
      var gs := st.closed + [st.current];
      assert gs[..|gs| - 1] == st.closed;
      gs
  }

  // ---------------------------------------------------------------------------
  // Stage 2: first-fit columns within a group

  predicate NonEmptyColumns(cols: seq<seq<Event>>)
  {
    forall c :: 0 <= c < |cols| ==> cols[c] != []
  }

  /** The first column at or after `c` whose last event ends no later than `e`
      starts, or the number of columns when there is none. */
  function FirstFreeColumn(cols: seq<seq<Event>>, e: Event, c: nat): (r: nat)
    requires NonEmptyColumns(cols) && c <= |cols|
    ensures c <= r <= |cols|
    ensures r < |cols| ==> Last(cols[r]).end <= e.start
    ensures forall i :: c <= i < r ==> Last(cols[i]).end > e.start
    decreases |cols| - c
  {
    if c == |cols| then c
    else if Last(cols[c]).end <= e.start then c
    else FirstFreeColumn(cols, e, c + 1)
  }

  /** Places `e` at the end of the first free column, or opens a new column. */
  function Place(cols: seq<seq<Event>>, e: Event): (r: seq<seq<Event>>)
    requires NonEmptyColumns(cols)
    ensures NonEmptyColumns(r)
    ensures |r| == |cols| || |r| == |cols| + 1
  {
    var c := FirstFreeColumn(cols, e, 0);
    if c < |cols| then cols[c := cols[c] + [e]] else cols + [[e]]
  }

  /** The columns of a group, placing its events in order. */
  function Columns(group: seq<Event>): (cols: seq<seq<Event>>)
    ensures NonEmptyColumns(cols)
    ensures |cols| <= |group|
    ensures group != [] ==> |cols| >= 1
  {
    if group == [] then [] else Place(Columns(group[..|group| - 1]), Last(group))
  }

  // ---------------------------------------------------------------------------
  // Stage 3: stamping

  /** One column's events, each with its column index and the group's total. */
  function StampColumn(col: seq<Event>, colIdx: nat, total: nat): (r: seq<LayoutEvent>)
    ensures |r| == |col|
  {
    seq(|col|, k requires 0 <= k < |col| => LayoutEvent(col[k], colIdx, total))
  }

  /** The columns of a group stamped in column order. */
  function StampColumns(cols: seq<seq<Event>>, total: nat): seq<LayoutEvent>
  {
    if cols == [] then []
    else StampColumns(cols[..|cols| - 1], total) + StampColumn(Last(cols), |cols| - 1, total)
  }

  /** A group laid out: its columns stamped with their count. */
  function LayoutGroup(group: seq<Event>): seq<LayoutEvent>
  {
    var cols := Columns(group);
    StampColumns(cols, |cols|)
  }

  function LayoutGroups(groups: seq<seq<Event>>): seq<LayoutEvent>
  {
    if groups == [] then [] else LayoutGroups(groups[..|groups| - 1]) + LayoutGroup(Last(groups))
  }

  /** What layoutOverlappingEvents returns. */
  function LayoutOf(events: seq<Event>): seq<LayoutEvent>
  {
    LayoutGroups(Groups(SortByStart(events)))
  }

  // ---------------------------------------------------------------------------
  // The code's loops

  /** The first-fit placement loop of one event. */
  method PlaceEvent(columns: seq<seq<Event>>, ev: Event) returns (r: seq<seq<Event>>)
    requires NonEmptyColumns(columns)
    ensures r == Place(columns, ev)
  {
    r := columns;
    var placed := false;
    var c := 0;
    while c < |r|
      invariant 0 <= c <= |r| && r == columns
      invariant FirstFreeColumn(columns, ev, 0) == FirstFreeColumn(columns, ev, c)
    {
      var lastInCol := r[c][|r[c]| - 1];
      if lastInCol.end <= ev.start {
        r := r[c := r[c] + [ev]];
        placed := true;
        break;
      }
      c := c + 1;
    }
    if !placed {
      r := r + [[ev]];
    }
  }

  /** The column loop of one group. */
  method AssignColumns(group: seq<Event>) returns (columns: seq<seq<Event>>)
    ensures columns == Columns(group)
  {
    columns := [];
    for k := 0 to |group|
      invariant columns == Columns(group[..k])
    {
      assert group[..k + 1][..k] == group[..k];
      columns := PlaceEvent(columns, group[k]);
    }
    assert group[..|group|] == group;
  }

  /** The sweep loop: consecutive events are grouped while each starts before
      the running end of its group. */
  method GroupEvents(sorted: seq<Event>) returns (groups: seq<seq<Event>>)
    requires sorted != []
    ensures groups == Groups(sorted)
  {
    groups := [];
    var currentGroup := [sorted[0]];
    var groupEnd := sorted[0].end;
    for i := 1 to |sorted|
      invariant Sweep(groups, currentGroup, groupEnd) == SweepAll(sorted[..i])
    {
      assert sorted[..i + 1][..i] == sorted[..i];
      var evStart := sorted[i].start;
      if evStart < groupEnd {
        currentGroup := currentGroup + [sorted[i]];
        groupEnd := Max(groupEnd, sorted[i].end);
      } else {
        groups := groups + [currentGroup];
        currentGroup := [sorted[i]];
        groupEnd := sorted[i].end;
      }
    }
    assert sorted[..|sorted|] == sorted;
    groups := groups + [currentGroup];
  }

  /** The stamping loops of one group: column by column, event by event. */
  method StampGroup(columns: seq<seq<Event>>, totalCols: nat) returns (items: seq<LayoutEvent>)
    ensures items == StampColumns(columns, totalCols)
  {
    items := [];
    for colIdx := 0 to |columns|
      invariant items == StampColumns(columns[..colIdx], totalCols)
    {
      assert columns[..colIdx + 1][..colIdx] == columns[..colIdx];
      var col := columns[colIdx];
      var before := items;
      for k := 0 to |col|
        invariant items == before + StampColumn(col[..k], colIdx, totalCols)
      {
        assert StampColumn(col[..k + 1], colIdx, totalCols)
            == StampColumn(col[..k], colIdx, totalCols) + [LayoutEvent(col[k], colIdx, totalCols)];
        items := items + [LayoutEvent(col[k], colIdx, totalCols)];
      }
      assert col[..|col|] == col;
    }
    assert columns[..|columns|] == columns;
  }

  /** layoutOverlappingEvents. The hour the grid starts at is passed along by
      the views but plays no part in the layout. */
  method LayoutOverlappingEvents(events: seq<Event>, minHour: int) returns (result: seq<LayoutEvent>)
    ensures result == LayoutOf(events)
  {
    if |events| == 0 {
      return [];
    }
    var sorted := SortByStart(events);
    var groups := GroupEvents(sorted);
    result := [];
    for gi := 0 to |groups|
      invariant result == LayoutGroups(groups[..gi])
    {
      var columns := AssignColumns(groups[gi]);
      var items := StampGroup(columns, |columns|);
      LayoutGroupsStep(groups, gi);
      result := result + items;
    }
    assert groups[..|groups|] == groups;
  }

  lemma LayoutGroupsStep(groups: seq<seq<Event>>, gi: nat)
    requires gi < |groups|
    ensures LayoutGroups(groups[..gi + 1]) == LayoutGroups(groups[..gi]) + LayoutGroup(groups[gi])
  {
    assert groups[..gi + 1][..gi] == groups[..gi];
  }
}
