/** Keyset paging over a newest-first list (src/mail_verdict/core/cursor.py and the paging half
    of src/mail_verdict/api/mails.py): the two cursor predicates, pages as slices of the list,
    and what a client gets by following their cursors. */
module Keyset {
  import opened Sequences

  datatype Row = Row(
    id: nat, account: nat, folder: nat, thread: nat, receivedAt: Option<int>, isSeen: bool, expunged: bool)

  /** A row as listed; a flat list leaves the counts at zero. */
  datatype Entry = Entry(row: Row, threadCount: nat, unreadInThread: nat)

  datatype Page = Page(
    messages: seq<Entry>, hasMore: bool, nextCursor: Option<nat>, hasMoreNewer: bool, prevCursor: Option<nat>)

  ghost predicate UniqueIds(table: seq<Row>) {
    forall i, j :: 0 <= i < j < |table| ==> table[i].id != table[j].id
  }

  // ---------- Order ----------

  /** `received_at DESC, id DESC` with NULL first, as PostgreSQL sorts it. */
  function NewerRow(a: Row, b: Row): bool {
    match (a.receivedAt, b.receivedAt)
    case (None, None) => a.id > b.id
    case (None, Some(_)) => true
    case (Some(_), None) => false
    case (Some(s), Some(t)) => s > t || (s == t && a.id > b.id)
  }

  function Newer(a: Entry, b: Entry): bool {
    NewerRow(a.row, b.row)
  }

  function Older(a: Entry, b: Entry): bool {
    NewerRow(b.row, a.row)
  }

  lemma NewerIsAnOrder()
    ensures Asymmetric(NewerRow) && Transitive(NewerRow)
    ensures Asymmetric(Newer) && Transitive(Newer) && Asymmetric(Older) && Transitive(Older)
  {
  }

  /** The WHERE clause of `after_cursor`: a comparison with NULL is never true. */
  predicate AfterCursor(r: Row, at: Option<int>, id: nat) {
    match at
    case None => (r.receivedAt.None? && r.id < id) || r.receivedAt.Some?
    case Some(t) =>
      || (r.receivedAt.Some? && r.receivedAt.value < t)
      || (r.receivedAt.Some? && r.receivedAt.value == t && r.id < id)
  }

  predicate BeforeCursor(r: Row, at: Option<int>, id: nat) {
    match at
    case None => r.receivedAt.None? && r.id > id
    case Some(t) =>
      || r.receivedAt.None?
      || (r.receivedAt.Some? && r.receivedAt.value > t)
      || (r.receivedAt.Some? && r.receivedAt.value == t && r.id > id)
  }

  /** The two cursor predicates are the two sides of the list order, NULLs included. */
  lemma CursorsSplitTheOrder(r: Row, c: Row)
    ensures AfterCursor(r, c.receivedAt, c.id) <==> NewerRow(c, r)
    ensures BeforeCursor(r, c.receivedAt, c.id) <==> NewerRow(r, c)
    ensures r.id != c.id ==> AfterCursor(r, c.receivedAt, c.id) != BeforeCursor(r, c.receivedAt, c.id)
  {
  }

  function After(c: Row): Entry -> bool {
    (e: Entry) => AfterCursor(e.row, c.receivedAt, c.id)
  }

  function Before(c: Row): Entry -> bool {
    (e: Entry) => BeforeCursor(e.row, c.receivedAt, c.id)
  }

  // ---------- Pages ----------

  function WithId(table: seq<Row>, id: nat): (r: Option<Row>)
    ensures r.Some? ==> r.value in table && r.value.id == id
    ensures r.None? ==> forall x :: x in table ==> x.id != id
  {
    if table == [] then None
    else if table[0].id == id then Some(table[0])
    else WithId(table[1..], id)
  }

  /** A page names a cursor in each direction it says holds more. */
  function PageOf(messages: seq<Entry>, hasMore: bool, hasMoreNewer: bool): Page {
    Page(
      messages,
      hasMore, if hasMore && messages != [] then Some(messages[|messages| - 1].row.id) else None,
      hasMoreNewer, if hasMoreNewer && messages != [] then Some(messages[0].row.id) else None)
  }

  function LastOf<T>(s: seq<T>, n: nat): seq<T> {
    if |s| <= n then s else s[|s| - n..]
  }

  function Below(all: seq<Entry>, c: Row): seq<Entry> {
    Filter(all, After(c))
  }

  function Above(all: seq<Entry>, c: Row): seq<Entry> {
    Filter(all, Before(c))
  }

  /** What is left of the list from a cursor on: all of it without one. */
  function RestFrom(all: seq<Entry>, cursor: Option<Row>): seq<Entry> {
    if cursor.None? then all else Below(all, cursor.value)
  }

  /** The next `limit` entries after the cursor, and whether more remain that way. */
  function OlderSlice(all: seq<Entry>, cursor: Option<Row>, limit: nat): Page {
    var rest := RestFrom(all, cursor);
    PageOf(Take(rest, limit), |rest| > limit, false)
  }

  /** The `limit` entries just above the cursor, and whether more remain that way. */
  function NewerSlice(all: seq<Entry>, cursor: Row, limit: nat): Page {
    var rest := Above(all, cursor);
    PageOf(LastOf(rest, limit), false, |rest| > limit)
  }

  /** Entries lo to hi of the list, and whether anything lies beyond either end. */
  function Window(all: seq<Entry>, lo: nat, hi: nat): Page
    requires lo <= hi <= |all|
  {
    PageOf(all[lo..hi], hi < |all|, lo > 0)
  }

  // ---------- Splitting the list at a row ----------

  /** The rows of the list are the table's, newest first. */
  ghost predicate Listed(table: seq<Row>, all: seq<Entry>) {
    UniqueIds(table) && Ordered(all, Newer) && forall e :: e in all ==> e.row in table
  }

  lemma IdsDecide(rows: seq<Row>, a: Row, b: Row)
    requires UniqueIds(rows) && a in rows && b in rows && a.id == b.id
    ensures a == b
  {
    var i :| 0 <= i < |rows| && rows[i] == a;
    var j :| 0 <= j < |rows| && rows[j] == b;
  }

  lemma HeadAbove(all: seq<Entry>, c: Row)
    requires all != [] && NewerRow(all[0].row, c)
    ensures Above(all, c) == [all[0]] + Above(all[1..], c) && Below(all, c) == Below(all[1..], c)
  {
    NewerIsAnOrder();
    CursorsSplitTheOrder(all[0].row, c);
  }

  lemma HeadNotAbove(all: seq<Entry>, c: Row)
    requires all != [] && Ordered(all, Newer) && !NewerRow(all[0].row, c)
    requires all[0].row.id == c.id ==> all[0].row == c
    ensures Above(all, c) == [] && Below(all, c) == if all[0].row == c then all[1..] else all
  {
    NewerIsAnOrder();
    HeadSplits(all, Newer);
    forall e | e in all[1..] ensures After(c)(e) && !Before(c)(e) {
      CursorsSplitTheOrder(e.row, c);
    }
    CursorsSplitTheOrder(all[0].row, c);
    FilterAll(all[1..], After(c));
    FilterNone(all[1..], Before(c));
    assert all == [all[0]] + all[1..];
  }

  lemma Unshift(all: seq<Entry>, j: nat, k: nat)
    requires j <= k < |all|
    ensures [all[0]] + all[1..][..j] == all[..j + 1] && all[1..][k..] == all[k + 1..]
  {
  }

  /** Above a row, the row itself if listed, below it: the whole list. */
  lemma {:induction false} SplitAt(all: seq<Entry>, c: Row) returns (j: nat, k: nat)
    requires Ordered(all, Newer) && forall e :: e in all && e.row.id == c.id ==> e.row == c
    ensures j <= k <= |all| && Above(all, c) == all[..j] && Below(all, c) == all[k..]
    ensures k == j || (k == j + 1 && all[j].row == c)
    ensures k == j ==> forall e :: e in all ==> e.row != c
  {
    if all == [] {
      j, k := 0, 0;
    } else {
      assert all[0] in all && forall e :: e in all <==> e == all[0] || e in all[1..];
      NewerIsAnOrder();
      HeadSplits(all, Newer);
      if NewerRow(all[0].row, c) {
        HeadAbove(all, c);
        j, k := SplitAt(all[1..], c);
        Unshift(all, j, k);
        j, k := j + 1, k + 1;
      } else {
        HeadNotAbove(all, c);
        j, k := 0, if all[0].row == c then 1 else 0;
      }
    }
  }

  lemma SplitAtRow(table: seq<Row>, all: seq<Entry>, c: Row) returns (j: nat, k: nat)
    requires Listed(table, all) && c in table
    ensures j <= k <= |all| && Above(all, c) == all[..j] && Below(all, c) == all[k..]
    ensures k == j || (k == j + 1 && all[j].row == c)
    ensures k == j ==> forall e :: e in all ==> e.row != c
  {
    forall e | e in all && e.row.id == c.id ensures e.row == c {
      IdsDecide(table, e.row, c);
    }
    j, k := SplitAt(all, c);
  }

  /** The list on either side of its own entry number `i`. */
  lemma SplitAtEntry(table: seq<Row>, all: seq<Entry>, i: nat)
    requires Listed(table, all) && i < |all|
    ensures WithId(table, all[i].row.id) == Some(all[i].row)
    ensures Above(all, all[i].row) == all[..i] && Below(all, all[i].row) == all[i + 1..]
  {
    assert all[i] in all;
    var j, k := SplitAtRow(table, all, all[i].row);
    assert all[j].row == all[i].row;
    assert j < i ==> Newer(all[j], all[i]);
    assert i < j ==> Newer(all[i], all[j]);
    IdsDecide(table, WithId(table, all[i].row.id).value, all[i].row);
  }

  // ---------- Each page leads to the next ----------

  lemma OlderSliceCursor(rest: seq<Entry>, limit: nat)
    requires limit >= 1
    ensures PageOf(Take(rest, limit), |rest| > limit, false).nextCursor
            == if |rest| > limit then Some(rest[limit - 1].row.id) else None
  {
  }

  lemma NewerSliceCursor(rest: seq<Entry>, limit: nat)
    requires limit >= 1
    ensures PageOf(LastOf(rest, limit), false, |rest| > limit).prevCursor
            == if |rest| > limit then Some(rest[|rest| - limit].row.id) else None
  {
  }

  /** Where the rest of the list after a cursor starts. */
  lemma RestStart(table: seq<Row>, all: seq<Entry>, cursor: Option<Row>) returns (start: nat)
    requires Listed(table, all) && (cursor.Some? ==> cursor.value in table)
    ensures start <= |all| && RestFrom(all, cursor) == all[start..]
  {
    start := 0;
    if cursor.Some? {
      var _, k := SplitAtRow(table, all, cursor.value);
      start := k;
    }
  }

  lemma SliceOfSlice(all: seq<Entry>, start: nat, n: nat)
    requires 1 <= n && start + n < |all|
    ensures all[start..][n - 1] == all[start + n - 1] && all[start..][n..] == all[start + n..]
  {
  }

  lemma StepFrom(table: seq<Row>, all: seq<Entry>, start: nat, n: nat)
    requires Listed(table, all) && 1 <= n && start + n < |all|
    ensures WithId(table, all[start..][n - 1].row.id) == Some(all[start..][n - 1].row)
    ensures Below(all, all[start..][n - 1].row) == all[start..][n..]
  {
    SliceOfSlice(all, start, n);
    SplitAtEntry(table, all, start + n - 1);
  }

  /** Stepping down from a cursor by `n` entries leaves the rest without them. */
  lemma StepDown(table: seq<Row>, all: seq<Entry>, cursor: Option<Row>, n: nat)
    requires Listed(table, all) && (cursor.Some? ==> cursor.value in table)
    requires 1 <= n < |RestFrom(all, cursor)|
    ensures var rest := RestFrom(all, cursor);
            && WithId(table, rest[n - 1].row.id) == Some(rest[n - 1].row)
            && Below(all, rest[n - 1].row) == rest[n..]
  {
    var start := RestStart(table, all, cursor);
    StepFrom(table, all, start, n);
  }

  /** An older slice's cursor stands where the rest of the list starts. */
  lemma OlderSliceLeadsOn(table: seq<Row>, all: seq<Entry>, cursor: Option<Row>, limit: nat)
    requires Listed(table, all) && limit >= 1 && (cursor.Some? ==> cursor.value in table)
    ensures var rest := RestFrom(all, cursor);
            var page := OlderSlice(all, cursor, limit);
            && (page.nextCursor.Some? <==> |rest| > limit)
            && (|rest| > limit ==>
                  && WithId(table, page.nextCursor.value).Some?
                  && RestFrom(all, WithId(table, page.nextCursor.value)) == rest[limit..])
  {
    var rest := RestFrom(all, cursor);
    OlderSliceCursor(rest, limit);
    if |rest| > limit {
      StepDown(table, all, cursor, limit);
    }
  }

  lemma NewerSliceLeadsOn(table: seq<Row>, all: seq<Entry>, cursor: Row, limit: nat)
    requires Listed(table, all) && limit >= 1 && cursor in table
    ensures var rest := Above(all, cursor);
            var page := NewerSlice(all, cursor, limit);
            && (page.prevCursor.Some? <==> |rest| > limit)
            && (|rest| > limit ==>
                  && WithId(table, page.prevCursor.value).Some?
                  && Above(all, WithId(table, page.prevCursor.value).value) == rest[..|rest| - limit])
  {
    var rest := Above(all, cursor);
    var j, _ := SplitAtRow(table, all, cursor);
    NewerSliceCursor(rest, limit);
    if |rest| > limit {
      SplitAtEntry(table, all, j - limit);
      assert rest[j - limit] == all[j - limit];
      assert rest[..j - limit] == all[..j - limit];
    }
  }

  // ---------- Following the cursors ----------

  function CursorRow(table: seq<Row>, id: Option<nat>): Option<Row> {
    if id.Some? then WithId(table, id.value) else None
  }

  lemma PageAndRest(s: seq<Entry>, n: nat)
    ensures Take(s, n) + (if |s| > n then s[n..] else []) == s
    ensures (if |s| > n then s[..|s| - n] else []) + LastOf(s, n) == s
  {
  }

  lemma WindowCursors(all: seq<Entry>, lo: nat, hi: nat)
    requires lo < hi <= |all|
    ensures Window(all, lo, hi).messages == all[lo..hi]
    ensures Window(all, lo, hi).prevCursor == if lo > 0 then Some(all[lo].row.id) else None
    ensures Window(all, lo, hi).nextCursor == if hi < |all| then Some(all[hi - 1].row.id) else None
  {
  }

  lemma ThreeParts(all: seq<Entry>, lo: nat, hi: nat)
    requires lo < hi <= |all|
    ensures all[..lo] + all[lo..hi] + all[hi..] == all
  {
  }

  // ---------- Halves of a window ----------

  lemma TakeMore(rest: seq<Entry>, limit: nat)
    ensures Take(Take(rest, limit + 1), limit) == Take(rest, limit)
    ensures |Take(rest, limit + 1)| > limit <==> |rest| > limit
  {
  }

  lemma ReverseOfTake(s: seq<Entry>, n: nat)
    ensures Reverse(Take(Reverse(s), n)) == LastOf(s, n)
  {
  }

  /** Where a window around entry `at` starts and ends. */
  function WindowStart(at: nat, halfNewer: nat): nat {
    if at <= halfNewer then 0 else at - halfNewer
  }

  function WindowEnd(length: nat, at: nat, halfOlder: nat): nat
    requires at < length
  {
    if length - at - 1 <= halfOlder then length else at + 1 + halfOlder
  }

  lemma NewerHalf(all: seq<Entry>, at: nat, half: nat)
    requires at < |all|
    ensures LastOf(all[..at], half) == all[WindowStart(at, half)..at]
  {
  }

  lemma OlderHalf(all: seq<Entry>, at: nat, half: nat)
    requires at < |all|
    ensures Take(all[at + 1..], half) == all[at + 1..WindowEnd(|all|, at, half)]
  {
  }

  lemma AroundEntry(all: seq<Entry>, lo: nat, at: nat, hi: nat)
    requires lo <= at < hi <= |all|
    ensures all[lo..at] + [all[at]] + all[at + 1..hi] == all[lo..hi]
  {
  }

  lemma HalvesMakeAWindow(all: seq<Entry>, at: nat, halfNewer: nat, halfOlder: nat)
    requires at < |all|
    ensures LastOf(all[..at], halfNewer) + [all[at]] + Take(all[at + 1..], halfOlder)
            == all[WindowStart(at, halfNewer)..WindowEnd(|all|, at, halfOlder)]
  {
    NewerHalf(all, at, halfNewer);
    OlderHalf(all, at, halfOlder);
    AroundEntry(all, WindowStart(at, halfNewer), at, WindowEnd(|all|, at, halfOlder));
  }
}
