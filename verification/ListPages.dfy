/** What a list shows and what a page of it holds (src/mail_verdict/api/mails.py), in terms of the
    messages themselves. */
module ListPages {
  import opened Sequences
  import opened Keyset
  import opened Conversations
  import opened MessageList

  // ---------- What a list shows, and in which order ----------

  lemma MatchingRowsAre(q: Query)
    ensures forall r :: r in MatchingRows(q) <==> r in q.table && Matches(r, q.filter)
  {
    FilterMembers(q.table, Matching(q.filter));
  }

  /** A flat list shows exactly the messages that are not expunged and meet each filter given: the
      account, the folder, the folders of the view, the read state, and a receipt time that is known
      and not before `since`. */
  lemma FlatListShows(q: Query, r: Row)
    requires UniqueIds(q.table) && !q.threaded
    ensures Entry(r, 0, 0) in List(q) <==>
            && r in q.table && !r.expunged
            && (q.filter.account == None || q.filter.account == Some(r.account))
            && (q.filter.folder == None || q.filter.folder == Some(r.folder))
            && (q.filter.scope == None || r.folder in q.filter.scope.value)
            && (q.filter.isSeen == None || q.filter.isSeen == Some(r.isSeen))
            && (q.filter.since.Some? ==> r.receivedAt.Some? && q.filter.since.value <= r.receivedAt.value)
    ensures forall e :: e in List(q) ==> e == Entry(e.row, 0, 0)
  {
    ListIsOrdered(q);
    MatchingRowsAre(q);
    FilterUniqueIds(q.table, Matching(q.filter));
    FlatRows(MatchingRows(q));
  }

  lemma FlatOf(q: Query)
    requires UniqueIds(q.table)
    ensures forall e :: e in List(q.(threaded := false)) <==> e.row in MatchingRows(q) && e == Entry(e.row, 0, 0)
  {
    ListIsOrdered(q.(threaded := false));
    FilterUniqueIds(q.table, Matching(q.filter));
    FlatRows(MatchingRows(q));
  }

  lemma ThreadedOf(q: Query)
    requires UniqueIds(q.table) && q.threaded
    ensures UniqueIds(MatchingRows(q))
    ensures forall e :: e in List(q) <==>
              NewestOfThread(MatchingRows(q), e.row) && e == WithCounts(MatchingRows(q), e.row)
  {
    ListIsOrdered(q);
    FilterUniqueIds(q.table, Matching(q.filter));
    GroupedRows(MatchingRows(q));
  }

  /** Each entry of a threaded list is a message the flat list of the same table shows, */
  lemma ThreadedEntriesAreShown(q: Query, e: Entry)
    requires UniqueIds(q.table) && q.threaded && e in List(q)
    ensures Entry(e.row, 0, 0) in List(q.(threaded := false))
  {
    FlatOf(q);
    ThreadedOf(q);
  }

  /** and every message that one shows is of a conversation with an entry. */
  lemma EveryConversationIsShown(q: Query, f: Entry) returns (e: Entry)
    requires UniqueIds(q.table) && q.threaded && f in List(q.(threaded := false))
    ensures e in List(q) && e.row.thread == f.row.thread
  {
    FlatOf(q);
    ThreadedOf(q);
    ConversationFacts(MatchingRows(q), f.row.thread);
    e := ConversationOf(MatchingRows(q), f.row.thread).value;
  }

  /** The messages of a conversation that the filters let through, */
  ghost function ShownOf(q: Query, thread: nat): set<Row> {
    set r | r in q.table && Matches(r, q.filter) && r.thread == thread
  }

  /** and those of them not read. */
  ghost function UnreadOf(q: Query, thread: nat): set<Row> {
    set r | r in q.table && Matches(r, q.filter) && r.thread == thread && !r.isSeen
  }

  ghost function Selected(rows: seq<Row>, p: Row -> bool): set<Row> {
    set r | r in rows && p(r)
  }

  lemma OneMoreSelected(first: Row, rest: seq<Row>, p: Row -> bool)
    requires first !in rest
    ensures |Selected([first] + rest, p)| == |Selected(rest, p)| + if p(first) then 1 else 0
  {
    var before, all := Selected(rest, p), Selected([first] + rest, p);
    assert all == before + if p(first) then {first} else {};
  }

  lemma {:induction false} CountIsSize(rows: seq<Row>, p: Row -> bool)
    requires UniqueIds(rows)
    ensures |Filter(rows, p)| == |Selected(rows, p)|
  {
    if rows == [] {
      assert Selected(rows, p) == {};
    } else {
      var first, rest := rows[0], rows[1..];
      CountIsSize(rest, p);
      assert rows == [first] + rest;
      OneMoreSelected(first, rest, p);
    }
  }

  lemma SelectedIs(q: Query, thread: nat)
    ensures Selected(MatchingRows(q), InThread(thread)) == ShownOf(q, thread)
    ensures Selected(MatchingRows(q), UnreadInThread(thread)) == UnreadOf(q, thread)
  {
    MatchingRowsAre(q);
  }

  /** The counts of an entry are those of these messages of its conversation. */
  lemma CountsAreOfTheConversation(q: Query, e: Entry)
    requires UniqueIds(q.table) && q.threaded && e in List(q)
    ensures e.threadCount == |ShownOf(q, e.row.thread)| && e.unreadInThread == |UnreadOf(q, e.row.thread)|
  {
    ThreadedOf(q);
    SelectedIs(q, e.row.thread);
    CountIsSize(MatchingRows(q), InThread(e.row.thread));
    CountIsSize(MatchingRows(q), UnreadInThread(e.row.thread));
  }

  /** Newest first: messages without a receipt time before all others, then by receipt time downwards,
      and by id downwards where those are equal. */
  lemma ListIsNewestFirst(q: Query, i: nat, j: nat)
    requires UniqueIds(q.table) && i < j < |List(q)|
    ensures var a, b := List(q)[i].row, List(q)[j].row;
            && (b.receivedAt.None? ==> a.receivedAt.None?)
            && (a.receivedAt.Some? && b.receivedAt.Some? ==> a.receivedAt.value >= b.receivedAt.value)
            && (a.receivedAt == b.receivedAt ==> a.id > b.id)
  {
    ListIsOrdered(q);
    assert Newer(List(q)[i], List(q)[j]);
  }

  // ---------- What a page holds ----------

  /** A page without `around` is refused exactly when it names a cursor that is no message of the
      table, `after` going before `before`; else it is a stretch of the list of `limit` entries, or all
      there are: the newest of those older than the cursor, the oldest of those newer, or the top of
      the list. Each flag says whether the list goes on in the page's own direction. */
  lemma PageIsTheNextStretch(q: Query, before: Option<nat>, after: Option<nat>, limit: nat)
    returns (lo: nat, hi: nat)
    requires UniqueIds(q.table) && limit >= 1
    ensures var named := if after.Some? then after else before;
            match PageFor(q, before, after, None, limit)
            case Err(error) =>
              named.Some? && error == InvalidCursor(named.value) && forall r :: r in q.table ==> r.id != named.value
            case Ok(page) =>
              && (named.Some? ==> exists c :: c in q.table && c.id == named.value)
              && lo <= hi <= |List(q)| && page.messages == List(q)[lo..hi]
              && (forall i, c :: 0 <= i < |List(q)| && named.Some? && c in q.table && c.id == named.value ==>
                    if after.Some? then (i < hi <==> NewerRow(List(q)[i].row, c))
                    else (i >= lo <==> NewerRow(c, List(q)[i].row)))
              && (named.None? ==> lo == 0)
              && (if after.Some? then lo == 0 || hi - lo == limit else hi == |List(q)| || hi - lo == limit)
              && hi - lo <= limit
              && (page.hasMore <==> after.None? && hi < |List(q)|)
              && (page.hasMoreNewer <==> after.Some? && lo > 0)
  {
    var all := List(q);
    ListIsOrdered(q);
    lo, hi := 0, 0;
    if after.Some? {
      if WithId(q.table, after.value).Some? {
        var c := WithId(q.table, after.value).value;
        lo, hi := StretchAbove(q, c, limit);
        OnlyWithId(q.table, c);
      }
    } else if before.Some? {
      if WithId(q.table, before.value).Some? {
        var c := WithId(q.table, before.value).value;
        lo, hi := StretchBelow(q, c, limit);
        OnlyWithId(q.table, c);
      }
    } else {
      hi := if |all| <= limit then |all| else limit;
      assert all[0..hi] == Take(all, limit);
    }
  }

  lemma OnlyWithId(table: seq<Row>, c: Row)
    requires UniqueIds(table) && c in table
    ensures forall r :: r in table && r.id == c.id ==> r == c
  {
    forall r | r in table && r.id == c.id ensures r == c {
      IdsDecide(table, r, c);
    }
  }

  lemma StretchAbove(q: Query, c: Row, limit: nat) returns (lo: nat, hi: nat)
    requires UniqueIds(q.table) && limit >= 1 && c in q.table
    ensures lo <= hi <= |List(q)| && hi - lo <= limit && (lo == 0 || hi - lo == limit)
    ensures forall i :: 0 <= i < |List(q)| ==> (i < hi <==> NewerRow(List(q)[i].row, c))
    ensures var page := NewerSlice(List(q), c, limit);
            page.messages == List(q)[lo..hi] && !page.hasMore && (page.hasMoreNewer <==> lo > 0)
  {
    var all := List(q);
    ListIsOrdered(q);
    var j, k := SplitAtRow(q.table, all, c);
    SplitIsByOrder(all, c, j, k);
    hi := j;
    lo := SliceAbove(all, c, j, limit);
  }

  lemma SliceAbove(all: seq<Entry>, c: Row, hi: nat, limit: nat) returns (lo: nat)
    requires hi <= |all| && Above(all, c) == all[..hi]
    ensures lo <= hi && hi - lo <= limit && (lo == 0 || hi - lo == limit)
    ensures var page := NewerSlice(all, c, limit);
            page.messages == all[lo..hi] && !page.hasMore && (page.hasMoreNewer <==> lo > 0)
  {
    lo := if hi <= limit then 0 else hi - limit;
    assert LastOf(all[..hi], limit) == all[lo..hi];
  }

  lemma StretchBelow(q: Query, c: Row, limit: nat) returns (lo: nat, hi: nat)
    requires UniqueIds(q.table) && limit >= 1 && c in q.table
    ensures lo <= hi <= |List(q)| && hi - lo <= limit && (hi == |List(q)| || hi - lo == limit)
    ensures forall i :: 0 <= i < |List(q)| ==> (i >= lo <==> NewerRow(c, List(q)[i].row))
    ensures var page := OlderSlice(List(q), Some(c), limit);
            page.messages == List(q)[lo..hi] && !page.hasMoreNewer && (page.hasMore <==> hi < |List(q)|)
  {
    var all := List(q);
    ListIsOrdered(q);
    var j, k := SplitAtRow(q.table, all, c);
    SplitIsByOrder(all, c, j, k);
    lo := k;
    hi := SliceBelow(all, c, k, limit);
  }

  lemma SliceBelow(all: seq<Entry>, c: Row, lo: nat, limit: nat) returns (hi: nat)
    requires lo <= |all| && Below(all, c) == all[lo..]
    ensures lo <= hi <= |all| && hi - lo <= limit && (hi == |all| || hi - lo == limit)
    ensures var page := OlderSlice(all, Some(c), limit);
            page.messages == all[lo..hi] && !page.hasMoreNewer && (page.hasMore <==> hi < |all|)
  {
    hi := if |all| - lo <= limit then |all| else lo + limit;
    assert Take(all[lo..], limit) == all[lo..hi];
  }

  lemma SplitIsByOrder(all: seq<Entry>, c: Row, j: nat, k: nat)
    requires j <= k <= |all| && Above(all, c) == all[..j] && Below(all, c) == all[k..]
    requires k == j || (k == j + 1 && all[j].row == c)
    ensures forall i :: 0 <= i < |all| ==> (i < j <==> NewerRow(all[i].row, c))
    ensures forall i :: 0 <= i < |all| ==> (i >= k <==> NewerRow(c, all[i].row))
  {
    FilterMembers(all, Before(c));
    FilterMembers(all, After(c));
    NewerIsAnOrder();
    forall i | 0 <= i < |all|
      ensures i < j <==> NewerRow(all[i].row, c)
      ensures i >= k <==> NewerRow(c, all[i].row)
    {
      CursorsSplitTheOrder(all[i].row, c);
      if i < j {
        assert all[..j][i] in Above(all, c);
      } else if i >= k {
        assert all[k..][i - k] in Below(all, c);
      }
    }
  }

  // ---------- Which messages resolve ----------

  /** A page around a message is given exactly when the list shows it: in a flat list the message
      itself; in a threaded one the conversation of a message of the account that is not expunged,
      whatever the other filters make of that message. It is refused outright with a cursor. */
  lemma AroundIsGivenIff(q: Query, before: Option<nat>, after: Option<nat>, around: nat, limit: nat)
    requires UniqueIds(q.table) && limit >= 1
    ensures PageFor(q, before, after, Some(around), limit).Ok? <==>
            && before.None? && after.None?
            && if q.threaded then
                 exists m, e :: m in q.table && m.id == around && !m.expunged
                                && (q.filter.account == None || q.filter.account == Some(m.account))
                                && e in List(q) && e.row.thread == m.thread
               else exists e :: e in List(q) && e.row.id == around
    ensures before.Some? || after.Some? ==> PageFor(q, before, after, Some(around), limit) == Err(AroundWithCursor)
  {
    if before.None? && after.None? {
      var all := List(q);
      match Find(all, StandingFor(q, around))
      case None =>
        assert forall e :: e in all ==> !StandingFor(q, around)(e);
      case Some(at) =>
        assert all[at] in all && StandsFor(q, all[at], around);
    }
  }
}
