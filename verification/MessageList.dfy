/** The message list endpoint (src/mail_verdict/api/mails.py): what a list holds, the queries a
    page is read with, and the page they make. A table is the rows of the entity a list queries;
    its ids are its primary key. */
module MessageList {
  import opened Sequences
  import opened Keyset
  import opened Conversations

  datatype ListFilter = ListFilter(
    account: Option<nat>, folder: Option<nat>, scope: Option<set<nat>>, isSeen: Option<bool>, since: Option<int>)

  /** One list: the rows of its entity, its filters, and whether it groups conversations. */
  datatype Query = Query(table: seq<Row>, filter: ListFilter, threaded: bool)

  datatype ListError = AroundWithCursor | InvalidCursor(id: nat) | NotAMember(id: nat)

  // ---------- What a list holds ----------

  predicate Matches(r: Row, f: ListFilter) {
    && !r.expunged
    && (f.account.Some? ==> r.account == f.account.value)
    && (f.folder.Some? ==> r.folder == f.folder.value)
    && (f.scope.Some? ==> r.folder in f.scope.value)
    && (f.isSeen.Some? ==> r.isSeen == f.isSeen.value)
    && (f.since.Some? ==> r.receivedAt.Some? && r.receivedAt.value >= f.since.value)
  }

  function Matching(f: ListFilter): Row -> bool {
    (r: Row) => Matches(r, f)
  }

  function AccountOnly(f: ListFilter): ListFilter {
    ListFilter(f.account, None, None, None, None)
  }

  function MatchingRows(q: Query): seq<Row> {
    Filter(q.table, Matching(q.filter))
  }

  function Flat(rows: seq<Row>): (r: seq<Entry>)
    ensures |r| == |rows| && forall i :: 0 <= i < |r| ==> r[i] == Entry(rows[i], 0, 0)
  {
    if rows == [] then [] else [Entry(rows[0], 0, 0)] + Flat(rows[1..])
  }

  /** What a list query selects from, before any cursor, order or limit. */
  function Candidates(q: Query): seq<Entry> {
    if q.threaded then Grouped(MatchingRows(q)) else Flat(MatchingRows(q))
  }

  /** The whole list, newest first. */
  function List(q: Query): seq<Entry> {
    SortBy(Candidates(q), Newer)
  }

  /** Whether a list shows message `around` by this entry: the message itself, or in a threaded
      list the entry of the conversation that a live message of the account belongs to. */
  predicate StandsFor(q: Query, e: Entry, around: nat) {
    if q.threaded then
      exists r :: r in q.table && r.id == around && Matches(r, AccountOnly(q.filter)) && r.thread == e.row.thread
    else e.row.id == around
  }

  function StandingFor(q: Query, around: nat): Entry -> bool {
    (e: Entry) => StandsFor(q, e, around)
  }

  // ---------- What a page should be ----------

  /** How many entries a page centred on a message takes on either side of it. */
  function HalfOlder(limit: nat): nat {
    (if limit >= 1 then limit - 1 else 0) / 2
  }

  function HalfNewer(limit: nat): nat {
    (if limit >= 1 then limit - 1 else 0) - HalfOlder(limit)
  }

  /** The window of the list around its entry `at`. */
  function Centred(all: seq<Entry>, at: nat, limit: nat): Page
    requires at < |all|
  {
    Window(all, WindowStart(at, HalfNewer(limit)), WindowEnd(|all|, at, HalfOlder(limit)))
  }

  /** Each page as a slice of the whole list. */
  function PageFor(
    q: Query, before: Option<nat>, after: Option<nat>, around: Option<nat>, limit: nat): Result<Page, ListError>
  {
    var all := List(q);
    if around.Some? && (before.Some? || after.Some?) then Err(AroundWithCursor)
    else if around.Some? then
      match Find(all, StandingFor(q, around.value))
      case None => Err(NotAMember(around.value))
      case Some(at) => Ok(Centred(all, at, limit))
    else if after.Some? then
      match WithId(q.table, after.value)
      case None => Err(InvalidCursor(after.value))
      case Some(c) => Ok(NewerSlice(all, c, limit))
    else if before.Some? then
      match WithId(q.table, before.value)
      case None => Err(InvalidCursor(before.value))
      case Some(c) => Ok(OlderSlice(all, Some(c), limit))
    else Ok(OlderSlice(all, None, limit))
  }

  // ---------- How the code reads one ----------

  /** WHERE the filters AND past the cursor, ORDER BY newest first, LIMIT limit + 1. */
  function FetchOlder(q: Query, cursor: Option<Row>, limit: nat): seq<Entry> {
    var all := Candidates(q);
    Take(SortBy(if cursor.Some? then Filter(all, After(cursor.value)) else all, Newer), limit + 1)
  }

  /** The mirror: oldest of the newer first. */
  function FetchNewer(q: Query, cursor: Row, limit: nat): seq<Entry> {
    Take(SortBy(Filter(Candidates(q), Before(cursor)), Older), limit + 1)
  }

  /** The row that represents a message in the list, by queries of its own: its conversation is
      looked up by account alone. */
  function Resolve(q: Query, around: nat): Option<Entry> {
    if q.threaded then
      match WithId(Filter(q.table, Matching(AccountOnly(q.filter))), around)
      case None => None
      case Some(r) => ConversationOf(MatchingRows(q), r.thread)
    else
      match WithId(MatchingRows(q), around)
      case None => None
      case Some(r) => Some(Entry(r, 0, 0))
  }

  /** Reads one page step by step; every page it returns is the slice it should be, and every
      request it refuses is one that names no place in the list. */
  method ReadMessagePage(
    q: Query, before: Option<nat>, after: Option<nat>, around: Option<nat>, limit: nat)
    returns (r: Result<Page, ListError>)
    requires UniqueIds(q.table) && limit >= 1
    ensures r == PageFor(q, before, after, around, limit)
  {
    if around.Some? && (before.Some? || after.Some?) {
      return Err(AroundWithCursor);
    }
    if around.Some? {
      r := ListMessagesAround(q, around.value, limit);
      return;
    }
    var newer := after.Some?;
    var cursorParam := if after.Some? then after else before;
    var cursor: Option<Row> := None;
    if cursorParam.Some? {
      cursor := WithId(q.table, cursorParam.value);
      if cursor.None? {
        return Err(InvalidCursor(cursorParam.value));
      }
    }
    var rows := if newer then FetchNewer(q, cursor.value, limit) else FetchOlder(q, cursor, limit);
    var overflow := |rows| > limit;
    var page := Take(rows, limit);
    if newer {
      page := Reverse(page);
    }
    var hasMore := if newer then false else overflow;
    var hasMoreNewer := if newer then overflow else false;
    r := Ok(PageOf(page, hasMore, hasMoreNewer));
    if newer {
      FetchNewerIsSlice(q, cursor.value, limit);
    } else {
      FetchOlderIsSlice(q, cursor, limit);
    }
  }

  method ListMessagesAround(q: Query, around: nat, limit: nat) returns (r: Result<Page, ListError>)
    requires UniqueIds(q.table) && limit >= 1
    ensures r == PageFor(q, None, None, Some(around), limit)
  {
    var resolved := Resolve(q, around);
    ghost var at := ResolvedPosition(q, around, limit);
    if resolved.None? {
      return Err(NotAMember(around));
    }
    var target := resolved.value;
    var remaining := if limit >= 1 then limit - 1 else 0;
    var halfOlder := remaining / 2;
    var halfNewer := remaining - halfOlder;
    var olderRows := FetchOlder(q, Some(target.row), halfOlder);
    var newerRows := FetchNewer(q, target.row, halfNewer);
    var hasMore := |olderRows| > halfOlder;
    var hasMoreNewer := |newerRows| > halfNewer;
    var messages := Reverse(Take(newerRows, halfNewer)) + [target] + Take(olderRows, halfOlder);
    r := Ok(PageOf(messages, hasMore, hasMoreNewer));
    FetchesAroundEntry(q, at, halfNewer, halfOlder);
    assert halfNewer == HalfNewer(limit) && halfOlder == HalfOlder(limit);
    assert r == Ok(Centred(List(q), at, limit));
  }

  // ---------- The list is in order, one entry per row or conversation ----------

  ghost predicate Keyed(entries: seq<Entry>) {
    forall x, y :: x in entries && y in entries && x.row.id == y.row.id ==> x == y
  }

  ghost predicate OncePerRow(entries: seq<Entry>) {
    Distinct(entries) && Keyed(entries)
  }

  lemma EntriesSort(entries: seq<Entry>)
    requires OncePerRow(entries)
    ensures Ordered(SortBy(entries, Newer), Newer) && Ordered(SortBy(entries, Older), Older)
    ensures forall e :: e in SortBy(entries, Newer) <==> e in entries
    ensures forall e :: e in SortBy(entries, Older) <==> e in entries
  {
    NewerIsAnOrder();
    SortFacts(entries, Newer);
    SortFacts(entries, Older);
  }

  lemma FilterKeyed(entries: seq<Entry>, p: Entry -> bool)
    requires OncePerRow(entries)
    ensures OncePerRow(Filter(entries, p))
  {
    FilterDistinct(entries, p);
    FilterMembers(entries, p);
  }

  lemma FlatRows(rows: seq<Row>)
    requires UniqueIds(rows)
    ensures OncePerRow(Flat(rows))
    ensures forall e :: e in Flat(rows) <==> e.row in rows && e == Entry(e.row, 0, 0)
  {
    var all := Flat(rows);
    forall e ensures e in all <==> e.row in rows && e == Entry(e.row, 0, 0) {
      if e in all {
        var i :| 0 <= i < |all| && all[i] == e;
      }
      if e.row in rows && e == Entry(e.row, 0, 0) {
        var i :| 0 <= i < |rows| && rows[i] == e.row;
        assert all[i] == e;
      }
    }
  }

  lemma GroupedOnce(rows: seq<Row>)
    requires UniqueIds(rows)
    ensures OncePerRow(Grouped(rows))
  {
    GroupedRows(rows);
    RepresentativesAreNewest(rows);
    forall x, y | x in Grouped(rows) && y in Grouped(rows) && x.row.id == y.row.id ensures x == y {
      IdsDecide(rows, x.row, y.row);
    }
  }

  lemma CandidatesFacts(q: Query)
    requires UniqueIds(q.table)
    ensures OncePerRow(Candidates(q))
    ensures forall e :: e in Candidates(q) ==> e.row in MatchingRows(q)
    ensures forall r :: r in MatchingRows(q) <==> r in q.table && Matches(r, q.filter)
  {
    FilterUniqueIds(q.table, Matching(q.filter));
    FilterMembers(q.table, Matching(q.filter));
    if q.threaded {
      GroupedRows(MatchingRows(q));
      GroupedOnce(MatchingRows(q));
    } else {
      FlatRows(MatchingRows(q));
    }
  }

  lemma ListIsOrdered(q: Query)
    requires UniqueIds(q.table)
    ensures Listed(q.table, List(q))
    ensures forall e :: e in List(q) <==> e in Candidates(q)
  {
    CandidatesFacts(q);
    EntriesSort(Candidates(q));
  }

  // ---------- The queries cut the list at the cursor ----------

  lemma CutBelow(q: Query, c: Row)
    requires UniqueIds(q.table)
    ensures SortBy(Filter(Candidates(q), After(c)), Newer) == Below(List(q), c)
  {
    var all := Candidates(q);
    CandidatesFacts(q);
    ListIsOrdered(q);
    NewerIsAnOrder();
    FilterKeyed(all, After(c));
    EntriesSort(Filter(all, After(c)));
    FilterMembers(all, After(c));
    FilterMembers(List(q), After(c));
    FilterOrdered(List(q), After(c), Newer);
    OrderedUnique(SortBy(Filter(all, After(c)), Newer), Below(List(q), c), Newer);
  }

  lemma CutAbove(q: Query, c: Row)
    requires UniqueIds(q.table)
    ensures SortBy(Filter(Candidates(q), Before(c)), Older) == Reverse(Above(List(q), c))
  {
    var all := Candidates(q);
    CandidatesFacts(q);
    ListIsOrdered(q);
    NewerIsAnOrder();
    FilterKeyed(all, Before(c));
    EntriesSort(Filter(all, Before(c)));
    FilterMembers(all, Before(c));
    FilterMembers(List(q), Before(c));
    FilterOrdered(List(q), Before(c), Newer);
    ReverseMembers(Above(List(q), c));
    OrderedUnique(SortBy(Filter(all, Before(c)), Older), Reverse(Above(List(q), c)), Older);
  }

  lemma ReverseMembers(s: seq<Entry>)
    ensures forall e :: e in Reverse(s) <==> e in s
  {
    var r := Reverse(s);
    forall e ensures e in r <==> e in s {
      if e in s {
        var i :| 0 <= i < |s| && s[i] == e;
        assert r[|s| - 1 - i] == e;
      }
    }
  }

  lemma FetchOlderIsSlice(q: Query, cursor: Option<Row>, limit: nat)
    requires UniqueIds(q.table)
    ensures var rows := FetchOlder(q, cursor, limit);
            PageOf(Take(rows, limit), |rows| > limit, false) == OlderSlice(List(q), cursor, limit)
  {
    if cursor.Some? {
      CutBelow(q, cursor.value);
    }
    TakeMore(RestFrom(List(q), cursor), limit);
  }

  lemma FetchNewerIsSlice(q: Query, cursor: Row, limit: nat)
    requires UniqueIds(q.table)
    ensures var rows := FetchNewer(q, cursor, limit);
            PageOf(Reverse(Take(rows, limit)), false, |rows| > limit) == NewerSlice(List(q), cursor, limit)
  {
    CutAbove(q, cursor);
    TakeMore(Reverse(Above(List(q), cursor)), limit);
    ReverseOfTake(Above(List(q), cursor), limit);
  }

  /** Fetching both ways from an entry of the list. */
  lemma FetchesAroundEntry(q: Query, at: nat, halfNewer: nat, halfOlder: nat)
    requires UniqueIds(q.table) && at < |List(q)|
    ensures var all := List(q);
            var older := FetchOlder(q, Some(all[at].row), halfOlder);
            var newer := FetchNewer(q, all[at].row, halfNewer);
            PageOf(Reverse(Take(newer, halfNewer)) + [all[at]] + Take(older, halfOlder),
                   |older| > halfOlder, |newer| > halfNewer)
            == Window(all, WindowStart(at, halfNewer), WindowEnd(|all|, at, halfOlder))
  {
    var all := List(q);
    ListIsOrdered(q);
    SplitAtEntry(q.table, all, at);
    CutBelow(q, all[at].row);
    CutAbove(q, all[at].row);
    TakeMore(all[at + 1..], halfOlder);
    TakeMore(Reverse(all[..at]), halfNewer);
    ReverseOfTake(all[..at], halfNewer);
    HalvesMakeAWindow(all, at, halfNewer, halfOlder);
  }

  // ---------- Resolving a message agrees with the list ----------

  /** The message resolves to an entry exactly when the list shows it by that entry. */
  lemma ResolveAgreesWithList(q: Query, around: nat)
    requires UniqueIds(q.table)
    ensures forall e :: Resolve(q, around) == Some(e) <==> e in List(q) && StandsFor(q, e, around)
  {
    ListIsOrdered(q);
    CandidatesFacts(q);
    if q.threaded {
      ResolveThreadedAgrees(q, around);
    } else {
      FlatRows(MatchingRows(q));
      FilterUniqueIds(q.table, Matching(q.filter));
      forall e | e in List(q) && e.row.id == around ensures Resolve(q, around) == Some(e) {
        IdsDecide(MatchingRows(q), WithId(MatchingRows(q), around).value, e.row);
      }
    }
  }

  lemma ResolveThreadedAgrees(q: Query, around: nat)
    requires UniqueIds(q.table) && q.threaded
    ensures forall e :: Resolve(q, around) == Some(e) <==> e in Candidates(q) && StandsFor(q, e, around)
  {
    var own := AccountOnly(q.filter);
    FilterMembers(q.table, Matching(own));
    FilterUniqueIds(q.table, Matching(q.filter));
    match WithId(Filter(q.table, Matching(own)), around)
    case None =>
    case Some(r) =>
      ConversationIsGrouped(MatchingRows(q), r.thread);
      forall e ensures StandsFor(q, e, around) <==> e.row.thread == r.thread {
        if StandsFor(q, e, around) {
          var m :| m in q.table && m.id == around && Matches(m, own) && m.thread == e.row.thread;
          IdsDecide(q.table, m, r);
        }
      }
  }

  lemma ResolvedPosition(q: Query, around: nat, limit: nat) returns (at: nat)
    requires UniqueIds(q.table)
    ensures var expected := PageFor(q, None, None, Some(around), limit);
            match Resolve(q, around)
            case None => expected == Err(NotAMember(around))
            case Some(target) =>
              at < |List(q)| && List(q)[at] == target && expected == Ok(Centred(List(q), at, limit))
  {
    ResolveAgreesWithList(q, around);
    var found := Find(List(q), StandingFor(q, around));
    at := 0;
    if found.Some? {
      at := found.value;
      assert List(q)[at] in List(q);
    } else {
      assert forall e :: e in List(q) ==> !StandsFor(q, e, around);
    }
  }

  // ---------- What a client sees ----------

  /** A client that follows next_cursor until there is none. */
  ghost function FollowOlder(q: Query, limit: nat, before: Option<nat>): seq<Entry>
    requires UniqueIds(q.table) && limit >= 1
    requires before.Some? ==> WithId(q.table, before.value).Some?
    decreases |RestFrom(List(q), CursorRow(q.table, before))|
  {
    ListIsOrdered(q);
    OlderSliceLeadsOn(q.table, List(q), CursorRow(q.table, before), limit);
    var page := PageFor(q, before, None, None, limit).value;
    page.messages + if page.nextCursor.Some? then FollowOlder(q, limit, page.nextCursor) else []
  }

  /** A client that follows prev_cursor until there is none. */
  ghost function FollowNewer(q: Query, limit: nat, after: nat): seq<Entry>
    requires UniqueIds(q.table) && limit >= 1 && WithId(q.table, after).Some?
    decreases |Above(List(q), WithId(q.table, after).value)|
  {
    ListIsOrdered(q);
    NewerSliceLeadsOn(q.table, List(q), WithId(q.table, after).value, limit);
    var page := PageFor(q, None, Some(after), None, limit).value;
    (if page.prevCursor.Some? then FollowNewer(q, limit, page.prevCursor.value) else []) + page.messages
  }

  /** Following next_cursor enumerates what lies below the cursor, each entry once and in order,
      for any page size: the whole list from the newest edge. */
  lemma {:induction false} OlderPagesEnumerate(q: Query, limit: nat, before: Option<nat>)
    requires UniqueIds(q.table) && limit >= 1
    requires before.Some? ==> WithId(q.table, before.value).Some?
    ensures FollowOlder(q, limit, before) == RestFrom(List(q), CursorRow(q.table, before))
    ensures before.None? ==> FollowOlder(q, limit, before) == List(q)
    decreases |RestFrom(List(q), CursorRow(q.table, before))|
  {
    var cursor := CursorRow(q.table, before);
    ListIsOrdered(q);
    OlderSliceLeadsOn(q.table, List(q), cursor, limit);
    PageAndRest(RestFrom(List(q), cursor), limit);
    if |RestFrom(List(q), cursor)| > limit {
      OlderPagesEnumerate(q, limit, OlderSlice(List(q), cursor, limit).nextCursor);
    }
  }

  /** Following prev_cursor enumerates everything above the cursor, once and in order. */
  lemma {:induction false} NewerPagesEnumerate(q: Query, limit: nat, after: nat)
    requires UniqueIds(q.table) && limit >= 1 && WithId(q.table, after).Some?
    ensures FollowNewer(q, limit, after) == Above(List(q), WithId(q.table, after).value)
    decreases |Above(List(q), WithId(q.table, after).value)|
  {
    var cursor := WithId(q.table, after).value;
    ListIsOrdered(q);
    NewerSliceLeadsOn(q.table, List(q), cursor, limit);
    PageAndRest(Above(List(q), cursor), limit);
    if |Above(List(q), cursor)| > limit {
      NewerPagesEnumerate(q, limit, NewerSlice(List(q), cursor, limit).prevCursor.value);
    }
  }

  /** The newer cursor of a page that starts at `lo`, or none where nothing is above, leads to all
      that is above. */
  lemma CursorLeadsAbove(q: Query, lo: nat, cursor: Option<nat>, limit: nat)
    requires UniqueIds(q.table) && limit >= 1 && lo < |List(q)|
    requires cursor == if lo > 0 then Some(List(q)[lo].row.id) else None
    ensures cursor.Some? ==> WithId(q.table, cursor.value).Some?
    ensures (if cursor.Some? then FollowNewer(q, limit, cursor.value) else []) == List(q)[..lo]
  {
    if cursor.Some? {
      ListIsOrdered(q);
      SplitAtEntry(q.table, List(q), lo);
      NewerPagesEnumerate(q, limit, cursor.value);
    }
  }

  /** The older cursor of a page that ends before `hi`, or none where nothing is left, leads to all
      that is left. */
  lemma CursorLeadsBelow(q: Query, hi: nat, cursor: Option<nat>, limit: nat)
    requires UniqueIds(q.table) && limit >= 1 && 0 < hi <= |List(q)|
    requires cursor == if hi < |List(q)| then Some(List(q)[hi - 1].row.id) else None
    ensures cursor.Some? ==> WithId(q.table, cursor.value).Some?
    ensures (if cursor.Some? then FollowOlder(q, limit, cursor) else []) == List(q)[hi..]
  {
    if cursor.Some? {
      ListIsOrdered(q);
      SplitAtEntry(q.table, List(q), hi - 1);
      OlderPagesEnumerate(q, limit, cursor);
    }
  }

  ghost predicate CursorsResolve(table: seq<Row>, page: Page) {
    && (page.prevCursor.Some? ==> WithId(table, page.prevCursor.value).Some?)
    && (page.nextCursor.Some? ==> WithId(table, page.nextCursor.value).Some?)
  }

  /** The page with everything its two cursors lead to. */
  ghost function Extended(q: Query, page: Page, limit: nat): seq<Entry>
    requires UniqueIds(q.table) && limit >= 1 && CursorsResolve(q.table, page)
  {
    (if page.prevCursor.Some? then FollowNewer(q, limit, page.prevCursor.value) else [])
    + page.messages
    + (if page.nextCursor.Some? then FollowOlder(q, limit, page.nextCursor) else [])
  }

  /** A page around a message is refused exactly when the list does not show that message; else
      it is a window of at most `limit` entries around the one that stands for the message, as many
      newer and older as half the limit allows and the list holds (one more newer where the limit is
      even), so that only an end of the list keeps it from being full; it says exactly whether
      anything lies beyond either end, and following both its cursors (by pages of any size)
      rebuilds the whole list without gap or overlap. */
  lemma AroundRebuildsTheList(q: Query, around: nat, limit: nat, step: nat) returns (lo: nat, at: nat, hi: nat)
    requires UniqueIds(q.table) && limit >= 1 && step >= 1
    ensures match PageFor(q, None, None, Some(around), limit)
            case Err(error) => error == NotAMember(around) && forall e :: e in List(q) ==> !StandsFor(q, e, around)
            case Ok(page) =>
              && lo <= at < hi <= |List(q)| && StandsFor(q, List(q)[at], around)
              && at - lo <= limit / 2 && (lo == 0 || at - lo == limit / 2)
              && hi - at - 1 <= (limit - 1) / 2 && (hi == |List(q)| || hi - at - 1 == (limit - 1) / 2)
              && hi - lo <= limit && (lo > 0 && hi < |List(q)| ==> hi - lo == limit)
              && page.messages == List(q)[lo..hi]
              && (page.hasMore <==> hi < |List(q)|) && (page.hasMoreNewer <==> lo > 0)
              && CursorsResolve(q.table, page) && Extended(q, page, step) == List(q)
  {
    var all := List(q);
    lo, at, hi := 0, 0, 0;
    match Find(all, StandingFor(q, around))
    case None =>
      assert forall e :: e in all ==> !StandingFor(q, around)(e);
    case Some(i) =>
      at := i;
      lo, hi := WindowStart(at, HalfNewer(limit)), WindowEnd(|all|, at, HalfOlder(limit));
      WindowCursors(all, lo, hi);
      CursorLeadsAbove(q, lo, Window(all, lo, hi).prevCursor, step);
      CursorLeadsBelow(q, hi, Window(all, lo, hi).nextCursor, step);
      ThreeParts(all, lo, hi);
  }

  // ---------- What a threaded list shows ----------

  /** A threaded list shows exactly the newest matching message of every conversation, each
      conversation once, and its counts add up to all matching and all unread messages. */
  lemma ThreadedListShowsEveryConversation(q: Query)
    requires UniqueIds(q.table) && q.threaded
    ensures forall e :: e in List(q) <==>
              NewestOfThread(MatchingRows(q), e.row) && e == WithCounts(MatchingRows(q), e.row)
    ensures forall i, j :: 0 <= i < j < |List(q)| ==> List(q)[i].row.thread != List(q)[j].row.thread
    ensures Messages(List(q)) == |MatchingRows(q)|
    ensures UnreadMessages(List(q)) == |Filter(MatchingRows(q), Unread)|
  {
    var rows := MatchingRows(q);
    ListIsOrdered(q);
    NewerIsAnOrder();
    FilterUniqueIds(q.table, Matching(q.filter));
    RepresentativesAreNewest(rows);
    GroupedRows(rows);
    GroupingConservesCounts(rows);
    OrderedUnique(List(q), Grouped(rows), Newer);
  }
}
