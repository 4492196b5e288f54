/** Grouping a filtered list into conversations: SELECT DISTINCT ON (thread_id) joined to a
    GROUP BY of the same rows, and the resolution of one message to its conversation's row
    (src/mail_verdict/api/mails.py, _list_messages_threaded and _resolve_around_threaded). */
module Conversations {
  import opened Sequences
  import opened Keyset

  function InThread(t: nat): Row -> bool {
    (r: Row) => r.thread == t
  }

  function UnreadInThread(t: nat): Row -> bool {
    (r: Row) => r.thread == t && !r.isSeen
  }

  function NotInThread(t: nat): Row -> bool {
    (r: Row) => r.thread != t
  }

  function Unread(r: Row): bool {
    !r.isSeen
  }

  /** DISTINCT ON (thread_id): the first row of each conversation. */
  function FirstOfEachThread(sorted: seq<Row>): seq<Row>
    decreases |sorted|
  {
    if sorted == [] then []
    else [sorted[0]] + FirstOfEachThread(Filter(sorted[1..], NotInThread(sorted[0].thread)))
  }

  /** The row joined to its conversation's counts over the same filtered rows. */
  function WithCounts(rows: seq<Row>, r: Row): Entry {
    Entry(r, |Filter(rows, InThread(r.thread))|, |Filter(rows, UnreadInThread(r.thread))|)
  }

  function JoinCounts(rows: seq<Row>, representatives: seq<Row>): (r: seq<Entry>)
    ensures |r| == |representatives|
    ensures forall i :: 0 <= i < |r| ==> r[i] == WithCounts(rows, representatives[i])
  {
    if representatives == [] then []
    else [WithCounts(rows, representatives[0])] + JoinCounts(rows, representatives[1..])
  }

  function Representatives(rows: seq<Row>): seq<Row> {
    FirstOfEachThread(SortBy(rows, NewerRow))
  }

  /** One entry per conversation, as the grouped query returns them. */
  function Grouped(rows: seq<Row>): seq<Entry> {
    JoinCounts(rows, Representatives(rows))
  }

  /** The entry of one conversation, found by queries of its own. */
  function ConversationOf(rows: seq<Row>, thread: nat): Option<Entry> {
    var members := Filter(rows, InThread(thread));
    var sorted := SortBy(members, NewerRow);
    if sorted == [] then None else Some(Entry(sorted[0], |members|, |Filter(members, Unread)|))
  }

  // ---------- Sorting rows ----------

  lemma RowsSort(rows: seq<Row>)
    requires UniqueIds(rows)
    ensures Ordered(SortBy(rows, NewerRow), NewerRow)
    ensures forall r :: r in SortBy(rows, NewerRow) <==> r in rows
  {
    NewerIsAnOrder();
    forall x, y | x in rows && y in rows && x != y ensures NewerRow(x, y) || NewerRow(y, x) {
      var i :| 0 <= i < |rows| && rows[i] == x;
      var j :| 0 <= j < |rows| && rows[j] == y;
    }
    SortFacts(rows, NewerRow);
  }

  lemma {:induction false} FilterUniqueIds(rows: seq<Row>, p: Row -> bool)
    requires UniqueIds(rows)
    ensures UniqueIds(Filter(rows, p))
  {
    if rows != [] {
      FilterUniqueIds(rows[1..], p);
      FilterMembers(rows[1..], p);
      var rest := Filter(rows[1..], p);
      forall i | 0 <= i < |rest| ensures rest[i].id != rows[0].id {
        assert rest[i] in rows[1..];
      }
    }
  }

  // ---------- The representative is the newest of its conversation ----------

  lemma OneThreadLess(sorted: seq<Row>)
    requires sorted != [] && Ordered(sorted, NewerRow)
    ensures var rest := Filter(sorted[1..], NotInThread(sorted[0].thread));
            && Ordered(rest, NewerRow)
            && (forall x :: x in rest <==> x in sorted && x.thread != sorted[0].thread)
            && (forall x :: x in sorted && x != sorted[0] ==> NewerRow(sorted[0], x))
            && (forall r :: r in FirstOfEachThread(sorted) <==> r == sorted[0] || r in FirstOfEachThread(rest))
  {
    NewerIsAnOrder();
    HeadSplits(sorted, NewerRow);
    FilterMembers(sorted[1..], NotInThread(sorted[0].thread));
    FilterOrdered(sorted[1..], NotInThread(sorted[0].thread), NewerRow);
  }

  lemma {:induction false} FirstsAreNewest(sorted: seq<Row>)
    requires Ordered(sorted, NewerRow)
    ensures forall r :: r in FirstOfEachThread(sorted) ==>
              r in sorted && forall x :: x in sorted && x.thread == r.thread && x != r ==> NewerRow(r, x)
    decreases |sorted|
  {
    if sorted != [] {
      OneThreadLess(sorted);
      FirstsAreNewest(Filter(sorted[1..], NotInThread(sorted[0].thread)));
    }
  }

  lemma {:induction false} EveryThreadHasAFirst(sorted: seq<Row>, x: Row) returns (r: Row)
    requires Ordered(sorted, NewerRow) && x in sorted
    ensures r in FirstOfEachThread(sorted) && r.thread == x.thread
    decreases |sorted|
  {
    OneThreadLess(sorted);
    if x.thread == sorted[0].thread {
      r := sorted[0];
    } else {
      r := EveryThreadHasAFirst(Filter(sorted[1..], NotInThread(sorted[0].thread)), x);
    }
  }

  ghost predicate OnePerThread(rows: seq<Row>) {
    forall i, j :: 0 <= i < j < |rows| ==> rows[i].thread != rows[j].thread
  }

  lemma {:induction false} FirstsAreOrdered(sorted: seq<Row>)
    requires Ordered(sorted, NewerRow)
    ensures Ordered(FirstOfEachThread(sorted), NewerRow) && OnePerThread(FirstOfEachThread(sorted))
    decreases |sorted|
  {
    if sorted != [] {
      OneThreadLess(sorted);
      var rest := Filter(sorted[1..], NotInThread(sorted[0].thread));
      FirstsAreOrdered(rest);
      FirstsAreNewest(rest);
      var tail := FirstOfEachThread(rest);
      forall i | 0 <= i < |tail|
        ensures NewerRow(sorted[0], tail[i]) && tail[i].thread != sorted[0].thread
      {
        assert tail[i] in tail && tail[i] in rest;
      }
    }
  }

  /** The representatives are exactly the rows newer than every other row of their conversation,
      one for each. */
  lemma RepresentativesAreNewest(rows: seq<Row>)
    requires UniqueIds(rows)
    ensures Ordered(Representatives(rows), NewerRow) && OnePerThread(Representatives(rows))
    ensures forall r :: r in Representatives(rows) <==> NewestOfThread(rows, r)
  {
    var sorted := SortBy(rows, NewerRow);
    RowsSort(rows);
    FirstsAreOrdered(sorted);
    FirstsAreNewest(sorted);
    NewerIsAnOrder();
    forall r | NewestOfThread(rows, r) ensures r in Representatives(rows) {
      var first := EveryThreadHasAFirst(sorted, r);
      assert first != r ==> NewerRow(first, r) && NewerRow(r, first);
    }
  }

  ghost predicate NewestOfThread(rows: seq<Row>, r: Row) {
    r in rows && forall x :: x in rows && x.thread == r.thread && x != r ==> NewerRow(r, x)
  }

  /** The grouped rows: the newest row of every conversation, with its conversation's counts. */
  lemma GroupedRows(rows: seq<Row>)
    requires UniqueIds(rows)
    ensures forall e :: e in Grouped(rows) <==> NewestOfThread(rows, e.row) && e == WithCounts(rows, e.row)
  {
    RepresentativesAreNewest(rows);
    JoinedRows(rows, Representatives(rows));
  }

  lemma JoinedRows(rows: seq<Row>, some: seq<Row>)
    ensures forall e :: e in JoinCounts(rows, some) <==> e.row in some && e == WithCounts(rows, e.row)
  {
    var all := JoinCounts(rows, some);
    forall e ensures e in all <==> e.row in some && e == WithCounts(rows, e.row) {
      if e in all {
        var i :| 0 <= i < |all| && all[i] == e;
        assert some[i] in some;
      }
      if e.row in some && e == WithCounts(rows, e.row) {
        var i :| 0 <= i < |some| && some[i] == e.row;
        assert all[i] == e;
      }
    }
  }

  // ---------- The counts add up ----------

  function Messages(entries: seq<Entry>): nat {
    if entries == [] then 0 else entries[0].threadCount + Messages(entries[1..])
  }

  function UnreadMessages(entries: seq<Entry>): nat {
    if entries == [] then 0 else entries[0].unreadInThread + UnreadMessages(entries[1..])
  }

  ghost function InThreadsOf(some: seq<Row>): Row -> bool {
    (r: Row) => exists f :: f in some && f.thread == r.thread
  }

  ghost function UnreadInThreadsOf(some: seq<Row>): Row -> bool {
    (r: Row) => !r.isSeen && InThreadsOf(some)(r)
  }

  lemma {:induction false} CountsOf(rows: seq<Row>, some: seq<Row>)
    requires OnePerThread(some)
    ensures Messages(JoinCounts(rows, some)) == |Filter(rows, InThreadsOf(some))|
    ensures UnreadMessages(JoinCounts(rows, some)) == |Filter(rows, UnreadInThreadsOf(some))|
  {
    if some == [] {
      FilterNone(rows, InThreadsOf(some));
      FilterNone(rows, UnreadInThreadsOf(some));
    } else {
      var first, rest := some[0], some[1..];
      CountsOf(rows, rest);
      assert some == [first] + rest;
      assert JoinCounts(rows, some)[1..] == JoinCounts(rows, rest);
      FilterDisjointUnion(rows, InThread(first.thread), InThreadsOf(rest), InThreadsOf(some));
      FilterDisjointUnion(rows, UnreadInThread(first.thread), UnreadInThreadsOf(rest), UnreadInThreadsOf(some));
    }
  }

  /** Every matching message, and every unread one, is counted in exactly one conversation. */
  lemma GroupingConservesCounts(rows: seq<Row>)
    requires UniqueIds(rows)
    ensures Messages(Grouped(rows)) == |rows|
    ensures UnreadMessages(Grouped(rows)) == |Filter(rows, Unread)|
  {
    var some := Representatives(rows);
    RepresentativesAreNewest(rows);
    CountsOf(rows, some);
    forall r | r in rows ensures InThreadsOf(some)(r) {
      RowsSort(rows);
      var f := EveryThreadHasAFirst(SortBy(rows, NewerRow), r);
    }
    FilterAll(rows, InThreadsOf(some));
    FilterAgree(rows, UnreadInThreadsOf(some), Unread);
  }

  // ---------- Resolving one conversation agrees with grouping all ----------

  /** A conversation's own queries find exactly the entry that the grouped list shows for it,
      and nothing exactly when the list shows none. */
  lemma ConversationIsGrouped(rows: seq<Row>, thread: nat)
    requires UniqueIds(rows)
    ensures forall e :: ConversationOf(rows, thread) == Some(e) <==> e in Grouped(rows) && e.row.thread == thread
  {
    GroupedRows(rows);
    ConversationFacts(rows, thread);
    forall e | e in Grouped(rows) && e.row.thread == thread ensures ConversationOf(rows, thread) == Some(e) {
      OneNewest(rows, e.row, ConversationOf(rows, thread).value.row);
    }
  }

  lemma OneNewest(rows: seq<Row>, a: Row, b: Row)
    requires NewestOfThread(rows, a) && NewestOfThread(rows, b) && a.thread == b.thread
    ensures a == b
  {
    NewerIsAnOrder();
  }

  lemma ConversationFacts(rows: seq<Row>, thread: nat)
    requires UniqueIds(rows)
    ensures match ConversationOf(rows, thread)
            case None => forall r :: r in rows ==> r.thread != thread
            case Some(e) => e.row.thread == thread && NewestOfThread(rows, e.row) && e == WithCounts(rows, e.row)
  {
    var members := Filter(rows, InThread(thread));
    var sorted := SortBy(members, NewerRow);
    FilterMembers(rows, InThread(thread));
    FilterUniqueIds(rows, InThread(thread));
    RowsSort(members);
    FilterTwice(rows, InThread(thread), Unread, UnreadInThread(thread));
    if sorted == [] {
      forall r | r in rows ensures r.thread != thread {
        assert r in members ==> r in sorted;
      }
    } else {
      NewerIsAnOrder();
      HeadSplits(sorted, NewerRow);
      assert sorted[0] in sorted;
    }
  }
}
