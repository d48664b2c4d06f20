/** What the overlap layout computes: every event exactly once, a column index
    below the group's column count, columns whose events follow one another
    without overlapping, groups split exactly where the running end is reached,
    groups that do not overlap in time, and full width for an event that
    overlaps nothing when every event has positive duration. */
module LayoutProofs {
  import opened FamilyEvents
  import opened Layout
  import opened Wrappers

  /** The events carried by layout items, in order. */
  function Evs(items: seq<LayoutEvent>): (r: seq<Event>)
    ensures |r| == |items|
    ensures forall k :: 0 <= k < |items| ==> r[k] == items[k].ev
  {
    seq(|items|, k requires 0 <= k < |items| => items[k].ev)
  }

  // ---------------------------------------------------------------------------
  // Flattening

  lemma FlattenSnoc(ss: seq<seq<Event>>, s: seq<Event>)
    ensures Flatten(ss + [s]) == Flatten(ss) + s
  {
    assert (ss + [s])[..|ss|] == ss;
  }

  lemma {:induction false} FlattenCons(s: seq<Event>, ss: seq<seq<Event>>)
    ensures Flatten([s] + ss) == s + Flatten(ss)
    decreases |ss|
  {
    if ss == [] {
      assert [s] + ss == [] + [s];
      FlattenSnoc([], s);
    } else {
      var init := ss[..|ss| - 1];
      assert ss == init + [Last(ss)];
      assert [s] + ss == ([s] + init) + [Last(ss)];
      FlattenSnoc([s] + init, Last(ss));
      FlattenCons(s, init);
      FlattenSnoc(init, Last(ss));
    }
  }

  lemma {:induction false} FlattenSplit(ss: seq<seq<Event>>, i: nat)
    requires i <= |ss|
    ensures Flatten(ss) == Flatten(ss[..i]) + Flatten(ss[i..])
    decreases |ss|
  {
    if i < |ss| {
      var init := ss[..|ss| - 1];
      FlattenSplit(init, i);
      assert init[..i] == ss[..i];
      assert ss[i..] == init[i..] + [Last(ss)];
      FlattenSnoc(init[i..], Last(ss));
    } else {
      assert ss[..i] == ss;
      assert ss[i..] == [];
    }
  }

  lemma SliceCons<T>(s: seq<T>, i: nat)
    requires i < |s|
    ensures s[i..] == [s[i]] + s[i + 1..]
  {
  }

  lemma Regroup<T>(x: seq<T>, a: seq<T>, b: seq<T>, c: seq<T>, d: seq<T>)
    requires x == a + b && b == c + d
    ensures x == a + c + d
  {
  }

  /** A group sits in the flattened list between the groups before and after it. */
  lemma GroupInfix(ss: seq<seq<Event>>, i: nat)
    requires i < |ss|
    ensures Flatten(ss) == Flatten(ss[..i]) + ss[i] + Flatten(ss[i + 1..])
  {
    SliceCons(ss, i);
    FlattenSplit(ss, i);
    FlattenCons(ss[i], ss[i + 1..]);
    Regroup(Flatten(ss), Flatten(ss[..i]), Flatten(ss[i..]), ss[i], Flatten(ss[i + 1..]));
  }

  lemma {:induction false} FlattenFind(ss: seq<seq<Event>>, x: Event) returns (i: nat)
    requires x in Flatten(ss)
    ensures i < |ss| && x in ss[i]
    decreases |ss|
  {
    if x in Last(ss) {
      i := |ss| - 1;
    } else {
      i := FlattenFind(ss[..|ss| - 1], x);
    }
  }

  lemma {:induction false} FlattenUpdateAppend(cols: seq<seq<Event>>, c: nat, e: Event)
    requires c < |cols|
    ensures multiset(Flatten(cols[c := cols[c] + [e]])) == multiset(Flatten(cols)) + multiset{e}
    decreases |cols|
  {
    var upd := cols[c := cols[c] + [e]];
    var init := cols[..|cols| - 1];
    if c == |cols| - 1 {
      assert upd[..|upd| - 1] == init;
    } else {
      FlattenUpdateAppend(init, c, e);
      assert upd[..|upd| - 1] == init[c := init[c] + [e]];
    }
  }

  // ---------------------------------------------------------------------------
  // Every event exactly once

  /** First-fit placement loses and duplicates nothing. */
  lemma {:induction false} ColumnsPermutation(g: seq<Event>)
    ensures multiset(Flatten(Columns(g))) == multiset(g)
  {
    if g != [] {
      var init := g[..|g| - 1];
      ColumnsPermutation(init);
      var cols := Columns(init);
      var c := FirstFreeColumn(cols, Last(g), 0);
      if c < |cols| {
        FlattenUpdateAppend(cols, c, Last(g));
      } else {
        FlattenSnoc(cols, [Last(g)]);
      }
      assert g == init + [Last(g)];
    }
  }

  lemma {:induction false} StampColumnsEvs(cols: seq<seq<Event>>, total: nat)
    ensures Evs(StampColumns(cols, total)) == Flatten(cols)
  {
    if cols != [] {
      StampColumnsEvs(cols[..|cols| - 1], total);
      var a := StampColumns(cols[..|cols| - 1], total);
      var b := StampColumn(Last(cols), |cols| - 1, total);
      assert Evs(a + b) == Evs(a) + Evs(b);
      assert Evs(b) == Last(cols);
    }
  }

  lemma {:induction false} LayoutGroupsEvs(gs: seq<seq<Event>>)
    ensures multiset(Evs(LayoutGroups(gs))) == multiset(Flatten(gs))
  {
    if gs != [] {
      LayoutGroupsEvs(gs[..|gs| - 1]);
      var a := LayoutGroups(gs[..|gs| - 1]);
      var b := LayoutGroup(Last(gs));
      assert Evs(a + b) == Evs(a) + Evs(b);
      StampColumnsEvs(Columns(Last(gs)), |Columns(Last(gs))|);
      ColumnsPermutation(Last(gs));
    }
  }

  /** The layout is a permutation of its input. */
  lemma LayoutIsPermutation(events: seq<Event>)
    ensures |LayoutOf(events)| == |events|
    ensures multiset(Evs(LayoutOf(events))) == multiset(events)
  {
    LayoutGroupsEvs(Groups(SortByStart(events)));
    assert |multiset(Evs(LayoutOf(events)))| == |multiset(events)|;
  }

  // ---------------------------------------------------------------------------
  // Column indices

  lemma {:induction false} StampColumnsShape(cols: seq<seq<Event>>, total: nat)
    requires |cols| <= total
    ensures forall x :: x in StampColumns(cols, total) ==> x.col < |cols| && x.totalCols == total
  {
    if cols != [] {
      StampColumnsShape(cols[..|cols| - 1], total);
    }
  }

  /** Every item of a group carries the number of columns the group opened, and
      a column index below it. */
  lemma LayoutGroupShape(g: seq<Event>)
    ensures forall x :: x in LayoutGroup(g) ==> x.col < x.totalCols && x.totalCols == |Columns(g)|
  {
    StampColumnsShape(Columns(g), |Columns(g)|);
  }

  lemma {:induction false} LayoutGroupsShape(gs: seq<seq<Event>>)
    ensures forall x :: x in LayoutGroups(gs) ==> x.col < x.totalCols
  {
    if gs != [] {
      LayoutGroupsShape(gs[..|gs| - 1]);
      LayoutGroupShape(Last(gs));
    }
  }

  lemma LayoutColumnBounds(events: seq<Event>)
    ensures forall x :: x in LayoutOf(events) ==> 0 <= x.col < x.totalCols
  {
    LayoutGroupsShape(Groups(SortByStart(events)));
  }

  // ---------------------------------------------------------------------------
  // Columns are chains

  /** Each event of a column ends no later than the next one starts. */
  predicate Chain(col: seq<Event>)
  {
    forall k :: 0 <= k < |col| - 1 ==> col[k].end <= col[k + 1].start
  }

  predicate Chains(cols: seq<seq<Event>>)
  {
    forall c :: 0 <= c < |cols| ==> Chain(cols[c])
  }

  lemma ChainSnoc(col: seq<Event>, e: Event)
    requires Chain(col) && col != [] && Last(col).end <= e.start
    ensures Chain(col + [e])
  {
    var r := col + [e];
    forall k | 0 <= k < |r| - 1 ensures r[k].end <= r[k + 1].start {
      if k < |col| - 1 {
        assert r[k] == col[k] && r[k + 1] == col[k + 1];
      }
    }
  }

  lemma {:induction false} ColumnsAreChains(g: seq<Event>)
    ensures Chains(Columns(g))
  {
    if g != [] {
      ColumnsAreChains(g[..|g| - 1]);
      var cols := Columns(g[..|g| - 1]);
      var e := Last(g);
      var c := FirstFreeColumn(cols, e, 0);
      if c < |cols| {
        ChainSnoc(cols[c], e);
      }
    }
  }

  lemma {:induction false} ChainOrdered(col: seq<Event>, i: nat, j: nat)
    requires Chain(col) && i < j < |col|
    requires forall k :: 0 <= k < |col| ==> col[k].start <= col[k].end
    ensures col[i].end <= col[j].start
    decreases j - i
  {
    if j > i + 1 {
      ChainOrdered(col, i + 1, j);
    }
  }

  /** Within a column, an earlier event ends no later than a later one starts,
      so two events of one column never overlap (events with start <= end). */
  lemma ColumnNoOverlap(g: seq<Event>, c: nat, i: nat, j: nat)
    requires forall x :: x in g ==> x.start <= x.end
    requires c < |Columns(g)| && i < j < |Columns(g)[c]|
    ensures Columns(g)[c][i].end <= Columns(g)[c][j].start
    ensures !Overlaps(Columns(g)[c][i], Columns(g)[c][j])
  {
    var cols := Columns(g);
    ColumnsAreChains(g);
    ColumnsPermutation(g);
    GroupInfix(cols, c);
    assert multiset(cols[c]) <= multiset(g);
    forall k | 0 <= k < |cols[c]| ensures cols[c][k].start <= cols[c][k].end {
      assert cols[c][k] in multiset(g);
    }
    ChainOrdered(cols[c], i, j);
  }

  // ---------------------------------------------------------------------------
  // Stamped items: an item's col is the column its event was placed in

  lemma {:induction false} StampColumnsPlacement(cols: seq<seq<Event>>, total: nat)
    ensures forall x :: x in StampColumns(cols, total) ==> x.col < |cols| && x.ev in cols[x.col]
  {
    if cols != [] {
      var init := cols[..|cols| - 1];
      StampColumnsPlacement(init, total);
      var last := StampColumn(Last(cols), |cols| - 1, total);
      forall x | x in StampColumns(cols, total) ensures x.col < |cols| && x.ev in cols[x.col] {
        if x in StampColumns(init, total) {
          assert cols[x.col] == init[x.col];
        } else {
          assert x in last;
          var k :| 0 <= k < |last| && last[k] == x;
        }
      }
    }
  }

  /** Every event of a group is laid out in the column that first-fit placed it
      in, and that column index is below the group's column count. */
  lemma LayoutGroupPlacement(g: seq<Event>)
    ensures forall x :: x in LayoutGroup(g) ==> x.col < |Columns(g)| && x.col < x.totalCols && x.ev in Columns(g)[x.col]
  {
    StampColumnsPlacement(Columns(g), |Columns(g)|);
    StampColumnsShape(Columns(g), |Columns(g)|);
  }

  /** Of two items with the same column, the earlier one's event ends no later
      than the later one's starts. */
  predicate SameColumnInSequence(items: seq<LayoutEvent>)
  {
    forall p, q :: 0 <= p < q < |items| && items[p].col == items[q].col ==> items[p].ev.end <= items[q].ev.start
  }

  /** Every event in the columns has start <= end. */
  predicate ColumnsWellFormed(cols: seq<seq<Event>>)
  {
    forall c, k :: 0 <= c < |cols| && 0 <= k < |cols[c]| ==> cols[c][k].start <= cols[c][k].end
  }

  lemma ColumnsPrefixOk(cols: seq<seq<Event>>)
    requires cols != [] && Chains(cols) && ColumnsWellFormed(cols)
    ensures Chains(cols[..|cols| - 1]) && ColumnsWellFormed(cols[..|cols| - 1])
    ensures Chain(Last(cols))
    ensures forall k :: 0 <= k < |Last(cols)| ==> Last(cols)[k].start <= Last(cols)[k].end
  {
    var init := cols[..|cols| - 1];
    forall c | 0 <= c < |init| ensures init[c] == cols[c] { }
  }

  /** A column stamped after columns with smaller indices keeps same-column
      items in sequence. */
  lemma AppendColumnInSequence(a: seq<LayoutEvent>, col: seq<Event>, idx: nat, total: nat)
    requires SameColumnInSequence(a)
    requires forall x :: x in a ==> x.col < idx
    requires Chain(col)
    requires forall k :: 0 <= k < |col| ==> col[k].start <= col[k].end
    ensures SameColumnInSequence(a + StampColumn(col, idx, total))
  {
    var b := StampColumn(col, idx, total);
    var r := a + b;
    forall p | 0 <= p < |a| ensures r[p] == a[p] && r[p].col < idx {
      assert a[p] in a;
    }
    forall q | |a| <= q < |r| ensures r[q] == b[q - |a|] && r[q].col == idx { }
    forall p, q | 0 <= p < q < |r| && r[p].col == r[q].col ensures r[p].ev.end <= r[q].ev.start {
      if q < |a| {
      } else if p < |a| {
        assert false;
      } else {
        ChainOrdered(col, p - |a|, q - |a|);
      }
    }
  }

  lemma {:induction false} StampColumnsInSequence(cols: seq<seq<Event>>, total: nat)
    requires Chains(cols) && ColumnsWellFormed(cols)
    ensures SameColumnInSequence(StampColumns(cols, total))
  {
    if cols != [] {
      var init := cols[..|cols| - 1];
      ColumnsPrefixOk(cols);
      StampColumnsInSequence(init, total);
      StampColumnsPlacement(init, total);
      AppendColumnInSequence(StampColumns(init, total), Last(cols), |cols| - 1, total);
    }
  }


  /** On the items a group is laid out to: two items in the same column never
      strictly overlap, the earlier ending no later than the later starts
      (events with start <= end). */
  lemma LayoutGroupNoOverlap(g: seq<Event>)
    requires forall x :: x in g ==> x.start <= x.end
    ensures SameColumnInSequence(LayoutGroup(g))
    ensures forall p, q :: 0 <= p < |LayoutGroup(g)| && 0 <= q < |LayoutGroup(g)| && p != q
              && LayoutGroup(g)[p].col == LayoutGroup(g)[q].col
              ==> !Overlaps(LayoutGroup(g)[p].ev, LayoutGroup(g)[q].ev)
  {
    var cols: seq<seq<Event>> := Columns(g);
    ColumnsAreChains(g);
    ColumnsPermutation(g);
    forall c: nat, k: nat | 0 <= c < |cols| && 0 <= k < |cols[c]| ensures cols[c][k].start <= cols[c][k].end {
      GroupInfix(cols, c);
      assert multiset(cols[c]) <= multiset(g);
      assert cols[c][k] in multiset(g);
    }
    StampColumnsInSequence(cols, |cols|);
    var r := LayoutGroup(g);
    forall p, q | 0 <= p < |r| && 0 <= q < |r| && p != q && r[p].col == r[q].col
      ensures !Overlaps(r[p].ev, r[q].ev)
    {
      if p < q {
        assert r[p].ev.end <= r[q].ev.start;
      } else {
        assert r[q].ev.end <= r[p].ev.start;
      }
    }
  }

  // ---------------------------------------------------------------------------
  // Groups

  lemma {:induction false} MaxEndBound(g: seq<Event>)
    requires g != []
    ensures forall x :: x in g ==> x.end <= MaxEnd(g)
    decreases |g|
  {
    if |g| > 1 {
      MaxEndBound(g[..|g| - 1]);
      assert g == g[..|g| - 1] + [Last(g)];
    }
  }

  lemma {:induction false} MaxEndWitness(g: seq<Event>) returns (k: nat)
    requires g != []
    ensures k < |g| && g[k].end == MaxEnd(g)
    decreases |g|
  {
    if |g| == 1 {
      k := 0;
    } else {
      var init := g[..|g| - 1];
      var j := MaxEndWitness(init);
      k := if init[j].end >= Last(g).end then j else |g| - 1;
    }
  }

  /** Every event after the first of a group started before the running end of
      the events before it. */
  predicate Joined(g: seq<Event>)
  {
    forall k :: 1 <= k < |g| ==> g[k].start < MaxEnd(g[..k])
  }

  /** Each group after the first starts no earlier than the latest end of the
      group before it. */
  predicate Separated(gs: seq<seq<Event>>)
  {
    forall i :: 0 <= i < |gs| - 1 ==> SeparatedAt(gs, i)
  }

  predicate SeparatedAt(gs: seq<seq<Event>>, i: nat)
    requires i < |gs| - 1
  {
    gs[i] != [] && gs[i + 1] != [] && MaxEnd(gs[i]) <= gs[i + 1][0].start
  }

  /** What the sweep keeps true of its variables after every event. */
  predicate SweepOk(st: Sweep)
  {
    && st.current != [] && st.groupEnd == MaxEnd(st.current)
    && Joined(st.current)
    && (forall g :: g in st.closed ==> Joined(g))
    && Separated(st.closed + [st.current])
  }

  lemma JoinStepOk(st: Sweep, e: Event)
    requires SweepOk(st) && e.start < st.groupEnd
    ensures SweepOk(SweepStep(st, e))
  {
    var cur := st.current + [e];
    assert cur[..|st.current|] == st.current;
    forall k | 1 <= k < |cur| ensures cur[k].start < MaxEnd(cur[..k]) {
      if k < |st.current| {
        assert cur[..k] == st.current[..k];
      }
    }
    var A: seq<seq<Event>> := st.closed + [st.current];
    var B: seq<seq<Event>> := st.closed + [cur];
    forall i | 0 <= i < |B| - 1 ensures SeparatedAt(B, i) {
      assert SeparatedAt(A, i);
      assert B[i] == A[i] && B[i + 1][0] == A[i + 1][0];
    }
  }

  lemma CloseStepOk(st: Sweep, e: Event)
    requires SweepOk(st) && e.start >= st.groupEnd
    ensures SweepOk(SweepStep(st, e))
  {
    var A: seq<seq<Event>> := st.closed + [st.current];
    var B: seq<seq<Event>> := A + [[e]];
    assert SweepStep(st, e).closed + [[e]] == B;
    forall i | 0 <= i < |B| - 1 ensures SeparatedAt(B, i) {
      if i < |A| - 1 {
        assert SeparatedAt(A, i);
        assert B[i] == A[i] && B[i + 1] == A[i + 1];
      }
    }
  }

  lemma {:induction false} SweepAllOk(sorted: seq<Event>)
    requires sorted != []
    ensures SweepOk(SweepAll(sorted))
    decreases |sorted|
  {
    if |sorted| > 1 {
      var init := sorted[..|sorted| - 1];
      SweepAllOk(init);
      var prev := SweepAll(init);
      if Last(sorted).start < prev.groupEnd {
        JoinStepOk(prev, Last(sorted));
      } else {
        CloseStepOk(prev, Last(sorted));
      }
    }
  }

  /** The sweep splits the list exactly where an event starts at or after the
      running end of the group so far: touching events open a new group. */
  lemma GroupsSplit(sorted: seq<Event>)
    ensures forall g :: g in Groups(sorted) ==> Joined(g)
    ensures Separated(Groups(sorted))
  {
    if sorted != [] {
      SweepAllOk(sorted);
    }
  }

  lemma InfixSorted(s: seq<Event>, a: seq<Event>, b: seq<Event>, c: seq<Event>)
    requires s == a + b + c && SortedByStart(s)
    ensures SortedByStart(b)
  {
    forall p, q | 0 <= p < q < |b| ensures b[p].start <= b[q].start {
      assert b[p] == s[|a| + p] && b[q] == s[|a| + q];
    }
  }

  lemma SortedSuffixFirst(s: seq<Event>, a: seq<Event>, c: seq<Event>, x: Event)
    requires s == a + c && SortedByStart(s) && c != [] && x in c
    ensures c[0].start <= x.start
  {
    var q :| 0 <= q < |c| && c[q] == x;
    assert s[|a|] == c[0] && s[|a| + q] == c[q];
  }

  /** The groups from `k` on, flattened, follow the groups before `k`, begin with
      the first event of group `k` and hold every event of those groups. */
  lemma FlattenFrom(gs: seq<seq<Event>>, k: nat, j: nat, b: Event)
    requires k <= j < |gs| && gs[k] != [] && b in gs[j]
    ensures Flatten(gs) == Flatten(gs[..k]) + Flatten(gs[k..])
    ensures Flatten(gs[k..]) != [] && Flatten(gs[k..])[0] == gs[k][0]
    ensures b in Flatten(gs[k..])
  {
    var rest := gs[k..];
    FlattenSplit(gs, k);
    GroupInfix(rest, 0);
    assert rest[..0] == [];
    assert rest[0] == gs[k];
    GroupInfix(rest, j - k);
    assert rest[j - k] == gs[j];
  }

  /** In a sorted list, the events of the groups from `k` on start no earlier
      than the first event of group `k`. */
  lemma LaterGroupsStartLater(gs: seq<seq<Event>>, k: nat, j: nat, b: Event)
    requires SortedByStart(Flatten(gs))
    requires k <= j < |gs| && gs[k] != [] && b in gs[j]
    ensures gs[k][0].start <= b.start
  {
    FlattenFrom(gs, k, j, b);
    SortedSuffixFirst(Flatten(gs), Flatten(gs[..k]), Flatten(gs[k..]), b);
  }

  /** Of two different groups of a sorted list, every event of the earlier one
      ends no later than any event of the later one starts. */
  lemma GroupsTimeDisjoint(sorted: seq<Event>, i: nat, j: nat, a: Event, b: Event)
    requires SortedByStart(sorted)
    requires i < j < |Groups(sorted)| && a in Groups(sorted)[i] && b in Groups(sorted)[j]
    ensures a.end <= b.start
  {
    var gs := Groups(sorted);
    GroupsSplit(sorted);
    assert SeparatedAt(gs, i);
    MaxEndBound(gs[i]);
    LaterGroupsStartLater(gs, i + 1, j, b);
  }

  lemma TwoPositions(s: seq<Event>, i: nat, j: nat)
    requires i < j < |s| && s[i] == s[j]
    ensures multiset(s)[s[i]] >= 2
  {
    assert s == s[..i] + [s[i]] + s[i + 1..j] + [s[j]] + s[j + 1..];
  }

  /** The facts about one group of a sorted list that make an isolated event
      its only member. */
  predicate IsolatedIn(g: seq<Event>, e: Event)
  {
    && SortedByStart(g) && Joined(g)
    && multiset(g)[e] <= 1
    && (forall x :: x in g ==> x.start < x.end)
    && (forall x :: x in g && x != e ==> !Overlaps(x, e))
  }

  /** An isolated event cannot join a group after its first event: some earlier
      member would still be running when it starts. */
  lemma IsolatedIsFirst(g: seq<Event>, e: Event, p: nat)
    requires IsolatedIn(g, e) && p < |g| && g[p] == e
    ensures p == 0
  {
    if p > 0 {
      var k := MaxEndWitness(g[..p]);
      var y := g[k];
      assert g[..p][k] == y;
      assert y != e by {
        if y == e {
          TwoPositions(g, k, p);
        }
      }
      assert Overlaps(y, e);
      assert false;
    }
  }

  /** No event can join the group of an isolated event: it would start before
      the isolated event ends. */
  lemma IsolatedIsAlone(g: seq<Event>, e: Event)
    requires IsolatedIn(g, e) && g != [] && g[0] == e
    ensures g == [e]
  {
    if |g| > 1 {
      var y := g[1];
      assert g[..1] == [e];
      assert y != e by {
        if y == e {
          TwoPositions(g, 0, 1);
        }
      }
      assert Overlaps(y, e);
      assert false;
    }
  }

  /** In a sorted list of events of positive duration, an event that occurs once
      and overlaps no other event forms a group of its own. */
  lemma IsolatedGroup(sorted: seq<Event>, e: Event)
    requires SortedByStart(sorted)
    requires forall x :: x in sorted ==> x.start < x.end
    requires multiset(sorted)[e] == 1
    requires forall x :: x in sorted && x != e ==> !Overlaps(x, e)
    ensures [e] in Groups(sorted)
  {
    var gs := Groups(sorted);
    assert e in multiset(sorted);
    var i := FlattenFind(gs, e);
    var g := gs[i];
    GroupInfix(gs, i);
    InfixSorted(sorted, Flatten(gs[..i]), g, Flatten(gs[i + 1..]));
    GroupsSplit(sorted);
    assert multiset(g) <= multiset(sorted);
    forall x | x in g ensures x in sorted {
      assert x in multiset(g);
    }
    assert IsolatedIn(g, e);
    var p :| 0 <= p < |g| && g[p] == e;
    IsolatedIsFirst(g, e, p);
    IsolatedIsAlone(g, e);
  }

  lemma {:induction false} LayoutGroupsContains(gs: seq<seq<Event>>, g: seq<Event>)
    requires g in gs
    ensures forall x :: x in LayoutGroup(g) ==> x in LayoutGroups(gs)
  {
    if g != Last(gs) {
      assert g in gs[..|gs| - 1];
      LayoutGroupsContains(gs[..|gs| - 1], g);
    }
  }

  /** A group of one event has one column, and the event is stamped 0 of 1. */
  lemma SingletonLayout(e: Event)
    ensures LayoutGroup([e]) == [LayoutEvent(e, 0, 1)]
  {
    assert [e][..0] == [];
    assert Columns([e]) == [[e]];
    assert [[e]][..0] == [];
    assert StampColumn([e], 0, 1) == [LayoutEvent(e, 0, 1)];
    assert StampColumns([[e]], 1) == StampColumns([], 1) + StampColumn([e], 0, 1);
  }

  /** When every event of the day has start < end, an event that occurs once
      and overlaps no other event of the day is laid out alone: column 0 of 1. */
  lemma IsolatedEventFullWidth(events: seq<Event>, e: Event)
    requires forall x :: x in events ==> x.start < x.end
    requires multiset(events)[e] == 1
    requires forall x :: x in events && x != e ==> !Overlaps(x, e)
    ensures LayoutEvent(e, 0, 1) in LayoutOf(events)
  {
    var sorted := SortByStart(events);
    assert multiset(sorted) == multiset(events);
    forall x | x in sorted ensures x in events {
      assert x in multiset(sorted);
    }
    IsolatedGroup(sorted, e);
    SingletonLayout(e);
    LayoutGroupsContains(Groups(sorted), [e]);
    assert LayoutEvent(e, 0, 1) in LayoutGroup([e]);
  }

  lemma SortTwo(e: Event, x: Event)
    requires e.start <= x.start
    ensures SortByStart([e, x]) == [e, x]
  {
    assert [e, x][1..] == [x];
    assert [x][1..] == [];
    assert SortByStart([x]) == InsertByStart(x, []);
  }

  lemma GroupsTwo(e: Event, x: Event)
    requires x.start < e.end
    ensures Groups([e, x]) == [[e, x]]
  {
    assert [e, x][..1] == [e];
    assert SweepAll([e]) == Sweep([], [e], e.end);
    assert SweepAll([e, x]) == SweepStep(SweepAll([e]), x);
    assert SweepAll([e, x]) == Sweep([], [e, x], Max(e.end, x.end));
    assert [] + [[e, x]] == [[e, x]];
  }

  lemma ColumnsTwo(e: Event, x: Event)
    requires x.start < e.end
    ensures Columns([e, x]) == [[e], [x]]
  {
    assert [e, x][..1] == [e];
    assert [e][..0] == [];
    assert Columns([e]) == [[e]];
    assert FirstFreeColumn([[e]], x, 1) == 1;
    assert FirstFreeColumn([[e]], x, 0) == 1;
  }

  lemma StampTwoColumns(e: Event, x: Event)
    ensures StampColumns([[e], [x]], 2) == [LayoutEvent(e, 0, 2), LayoutEvent(x, 1, 2)]
  {
    assert [[e], [x]][..1] == [[e]];
    assert [[e]][..0] == [];
    assert StampColumn([e], 0, 2) == [LayoutEvent(e, 0, 2)];
    assert StampColumn([x], 1, 2) == [LayoutEvent(x, 1, 2)];
    assert StampColumns([[e]], 2) == StampColumns([], 2) + StampColumn([e], 0, 2);
    assert StampColumns([[e], [x]], 2) == StampColumns([[e]], 2) + StampColumn([x], 1, 2);
  }

  /** Two events where the second starts no earlier than the first and before
      it ends share a group and take two columns, the first at column 0 of 2. */
  lemma TwoEventLayout(e: Event, x: Event)
    requires e.start <= x.start < e.end
    ensures LayoutOf([e, x]) == [LayoutEvent(e, 0, 2), LayoutEvent(x, 1, 2)]
  {
    SortTwo(e, x);
    GroupsTwo(e, x);
    ColumnsTwo(e, x);
    StampTwoColumns(e, x);
    assert [[e, x]][..0] == [];
    assert LayoutGroups([[e, x]]) == LayoutGroup([e, x]);
  }

  /** A zero-length event at an event's start neither overlaps it nor equals it. */
  lemma ZeroLengthAtStart(e: Event, x: Event)
    requires e.start == x.start == x.end < e.end
    ensures multiset([e, x])[e] == 1 && !Overlaps(x, e)
  {
    assert e != x;
  }

  /** Without positive durations the full width is lost: a zero-length event
      starting exactly when an isolated event starts, and coming after it in
      input order, overlaps nothing, yet joins its group (it starts before the
      running group end) and takes a second column, halving the isolated
      event's width. Every requirement of IsolatedEventFullWidth but positive
      duration holds here. */
  lemma ZeroLengthEventHalvesWidth(e: Event, x: Event)
    requires e.start == x.start == x.end < e.end
    ensures multiset([e, x])[e] == 1 && !Overlaps(x, e)
    ensures LayoutEvent(e, 0, 1) !in LayoutOf([e, x])
  {
    ZeroLengthAtStart(e, x);
    TwoEventLayout(e, x);
  }
}
