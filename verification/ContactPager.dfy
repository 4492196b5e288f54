/** The drop-and-refill contact pager (src/mail_verdict/api/contacts.py, list_contacts): cards are
    dropped after the database has applied the limit, and the page is refilled by reading on. */
module ContactPager {
  import opened Sequences

  /** One card; `summary` is the place of its summary in the collation, which equal summaries share,
      and `id` stands for everything else on it. */
  datatype Card = Card(id: nat, summary: nat, isGroup: bool, categories: set<string>)

  datatype ContactPage = ContactPage(contacts: seq<Card>, hasMore: bool, nextCursor: Option<nat>)

  /** A card that may show on the page: no group card, and of the category asked for. */
  function Kept(category: Option<string>): Card -> bool {
    (c: Card) => !c.isGroup && (category.Some? ==> category.value in c.categories)
  }

  // ---------- What a page should be ----------

  /** How far to read from `from` on to find `need` kept cards, or else to the end. */
  function ScanEnd(order: seq<Card>, keep: Card -> bool, need: nat, from: nat): (end: nat)
    ensures from <= end && (from <= |order| ==> end <= |order|)
    decreases |order| - from
  {
    if need == 0 || from >= |order| then from
    else ScanEnd(order, keep, if keep(order[from]) then need - 1 else need, from + 1)
  }

  function PageAt(order: seq<Card>, keep: Card -> bool, limit: nat, from: nat): ContactPage {
    if from > |order| then ContactPage([], false, None)
    else
      var end := ScanEnd(order, keep, limit, from);
      ContactPage(Filter(order[from..end], keep), end < |order|, if end < |order| then Some(end) else None)
  }

  // ---------- How the code reads one ----------

  /** How many cards one read asks for that there are. */
  function ReadSize(n: nat, need: nat, from: nat): nat
    requires from <= n
  {
    if n - from < need then n - from else need
  }

  /** ORDER BY summary LIMIT limit + 1 OFFSET offset, the one row more telling of more. */
  method SearchContacts(order: seq<Card>, limit: nat, offset: nat) returns (rows: seq<Card>, hasMore: bool)
    ensures offset >= |order| ==> rows == []
    ensures offset < |order| ==> rows == order[offset..offset + ReadSize(|order|, limit, offset)]
    ensures hasMore <==> offset + limit < |order|
  {
    var fetched := if offset > |order| then [] else Take(order[offset..], limit + 1);
    rows, hasMore := Take(fetched, limit), |fetched| > limit;
  }

  /** Drops group cards. */
  method ParsePage(rows: seq<Card>) returns (parsed: seq<Card>)
    ensures parsed == Filter(rows, Kept(None))
  {
    parsed := [];
    for i := 0 to |rows|
      invariant parsed == Filter(rows[..i], Kept(None))
    {
      FilterOneMore(rows, i, Kept(None));
      if rows[i].isGroup {
        continue;
      }
      parsed := parsed + [rows[i]];
    }
    assert rows[..|rows|] == rows;
  }

  function InCategory(category: string): Card -> bool {
    (c: Card) => category in c.categories
  }

  // ---------- Reads that may differ ----------

  /** The orders in which the database answers one read after the other, the last one standing for
      all that follow it. All are of the same number of cards. */
  ghost predicate Sized(orders: seq<seq<Card>>, n: nat) {
    orders != [] && forall o :: o in orders ==> |o| == n
  }

  function OrderAt(orders: seq<seq<Card>>, k: nat): (r: seq<Card>)
    requires orders != []
    ensures r in orders
  {
    orders[if k < |orders| then k else |orders| - 1]
  }

  ghost predicate SomeHas(orders: seq<seq<Card>>, i: nat, card: Card) {
    exists o :: o in orders && i < |o| && o[i] == card
  }

  /** At every place, the card that one of the orders has there. */
  ghost predicate Composite(orders: seq<seq<Card>>, n: nat, seen: seq<Card>) {
    |seen| == n && forall i :: 0 <= i < n ==> SomeHas(orders, i, seen[i])
  }

  lemma OneOrderIsItself(order: seq<Card>, seen: seq<Card>)
    requires Composite([order], |order|, seen)
    ensures seen == order
  {
    forall i | 0 <= i < |order| ensures seen[i] == order[i] {
      assert SomeHas([order], i, seen[i]);
    }
  }

  /** What the read at `from` saw is put in place. */
  lemma Seeing(orders: seq<seq<Card>>, n: nat, seen: seq<Card>, order: seq<Card>, from: nat)
    requires Sized(orders, n) && Composite(orders, n, seen) && order in orders && from <= n
    ensures Composite(orders, n, seen[..from] + order[from..])
  {
    var more := seen[..from] + order[from..];
    forall i | 0 <= i < n ensures SomeHas(orders, i, more[i]) {
      assert SomeHas(orders, i, seen[i]);
      assert i >= from ==> more[i] == order[i];
    }
  }

  lemma FirstIsComposite(orders: seq<seq<Card>>, n: nat)
    requires Sized(orders, n)
    ensures Composite(orders, n, OrderAt(orders, 0))
  {
    forall i | 0 <= i < n ensures SomeHas(orders, i, OrderAt(orders, 0)[i]) {
    }
  }

  // ---------- The loop ----------

  /** What has been read so far is the start of the page. */
  ghost predicate Reading(
    seen: seq<Card>, keep: Card -> bool, limit: nat, cursor: nat, scanned: nat, parsed: seq<Card>)
  {
    && cursor <= scanned && |parsed| <= limit
    && (cursor > |seen| ==> scanned == cursor && parsed == [])
    && (cursor <= |seen| ==>
          && scanned <= |seen| && parsed == Filter(seen[cursor..scanned], keep)
          && ScanEnd(seen[..scanned], keep, limit, cursor) == scanned)
  }

  /** A scan that has read up to `mid` goes on from there. */
  lemma {:induction false} ScanSplit(order: seq<Card>, keep: Card -> bool, need: nat, from: nat, mid: nat)
    requires from <= mid <= |order| && ScanEnd(order[..mid], keep, need, from) == mid
    ensures |Filter(order[from..mid], keep)| <= need
    ensures ScanEnd(order, keep, need, from) == ScanEnd(order, keep, need - |Filter(order[from..mid], keep)|, mid)
    decreases mid - from
  {
    if from < mid {
      assert order[from..mid][1..] == order[from + 1..mid] && order[..mid][from] == order[from];
      ScanSplit(order, keep, if keep(order[from]) then need - 1 else need, from + 1, mid);
    }
  }

  lemma StillReading(
    seen: seq<Card>, more: seq<Card>, keep: Card -> bool, limit: nat, cursor: nat, scanned: nat,
    parsed: seq<Card>, size: nat, batch: seq<Card>)
    requires Reading(seen, keep, limit, cursor, scanned, parsed)
    requires |more| == |seen| && scanned < |seen| && more[..scanned] == seen[..scanned]
    requires size <= limit - |parsed| && scanned + size <= |seen|
    requires batch == Filter(more[scanned..scanned + size], keep)
    ensures Reading(more, keep, limit, cursor, scanned + size, parsed + batch)
  {
    var end := scanned + size;
    var order := more[..end];
    assert order[..scanned] == seen[..scanned] && order[cursor..scanned] == seen[cursor..scanned];
    ScanSplit(order, keep, limit, cursor, scanned);
    assert order[scanned..end] == more[scanned..end] && order[cursor..end] == more[cursor..end];
    ReadOn(order, keep, limit - |parsed|, scanned, size);
    FilterJoin(order, keep, cursor, scanned, end);
  }

  lemma OneMoreRead(
    orders: seq<seq<Card>>, n: nat, seen: seq<Card>, order: seq<Card>, keep: Card -> bool, limit: nat, cursor: nat,
    scanned: nat, parsed: seq<Card>, size: nat, batch: seq<Card>)
    returns (more: seq<Card>)
    requires Sized(orders, n) && Composite(orders, n, seen) && order in orders
    requires Reading(seen, keep, limit, cursor, scanned, parsed)
    requires scanned < n && size <= limit - |parsed| && scanned + size <= n
    requires batch == Filter(order[scanned..scanned + size], keep)
    ensures Composite(orders, n, more) && Reading(more, keep, limit, cursor, scanned + size, parsed + batch)
  {
    Seeing(orders, n, seen, order, scanned);
    more := seen[..scanned] + order[scanned..];
    assert more[scanned..scanned + size] == order[scanned..scanned + size];
    StillReading(seen, more, keep, limit, cursor, scanned, parsed, size, batch);
  }

  lemma PageOfReading(
    seen: seq<Card>, keep: Card -> bool, limit: nat, cursor: nat, scanned: nat, parsed: seq<Card>)
    requires Reading(seen, keep, limit, cursor, scanned, parsed) && (|parsed| == limit || scanned >= |seen|)
    ensures PageAt(seen, keep, limit, cursor)
            == ContactPage(parsed, scanned < |seen|, if scanned < |seen| then Some(scanned) else None)
  {
    if cursor <= |seen| {
      ScanSplit(seen, keep, limit, cursor, scanned);
    }
  }

  /** The rows of a batch without group cards, narrowed to the category. */
  method KeptOf(rows: seq<Card>, category: Option<string>) returns (batch: seq<Card>)
    ensures batch == Filter(rows, Kept(category))
  {
    batch := ParsePage(rows);
    if category.Some? {
      FilterTwice(rows, Kept(None), InCategory(category.value), Kept(category));
      batch := Filter(batch, InCategory(category.value));
    } else {
      FilterAgree(rows, Kept(None), Kept(category));
    }
  }

  /** One read of the loop: how many rows it got, and those of them that are kept. */
  method ReadBatch(order: seq<Card>, category: Option<string>, need: nat, offset: nat)
    returns (size: nat, batch: seq<Card>, hasMore: bool)
    ensures offset >= |order| ==> size == 0
    ensures need > 0 && offset < |order| ==> size > 0
    ensures !hasMore ==> offset + size >= |order|
    ensures offset < |order| ==>
              && size == ReadSize(|order|, need, offset)
              && batch == Filter(order[offset..offset + size], Kept(category))
    ensures hasMore <==> offset + need < |order|
  {
    var rows;
    rows, hasMore := SearchContacts(order, need, offset);
    size := |rows|;
    batch := KeptOf(rows, category);
  }

  /** One turn of the loop, with what its read saw. */
  method ReadMore(
    orders: seq<seq<Card>>, n: nat, k: nat, category: Option<string>, limit: nat, cursor: nat,
    scanned: nat, parsed: seq<Card>, ghost seen: seq<Card>)
    returns (size: nat, all: seq<Card>, hasMore: bool, ghost more: seq<Card>)
    requires Sized(orders, n) && Composite(orders, n, seen)
    requires Reading(seen, Kept(category), limit, cursor, scanned, parsed) && |parsed| < limit
    ensures Composite(orders, n, more) && Reading(more, Kept(category), limit, cursor, scanned + size, all)
    ensures |more| == n && |all| <= limit
    ensures hasMore ==> scanned + size < n
    ensures !hasMore ==> scanned + size >= n
    ensures hasMore ==> size > 0
  {
    var batch;
    size, batch, hasMore := ReadBatch(OrderAt(orders, k), category, limit - |parsed|, scanned);
    if size == 0 {
      all, more := parsed, seen;
    } else {
      all := parsed + batch;
      more := OneMoreRead(orders, n, seen, OrderAt(orders, k), Kept(category), limit, cursor,
                          scanned, parsed, size, batch);
    }
  }

  /** A page of an order put together from the given ones. */
  ghost predicate IsPage(
    orders: seq<seq<Card>>, n: nat, keep: Card -> bool, limit: nat, cursor: nat, page: ContactPage)
  {
    exists seen :: Composite(orders, n, seen) && page == PageAt(seen, keep, limit, cursor)
  }

  /** One page: that of the order put together from what its reads saw, which is the order itself if
      they all see the same. */
  method ListContacts(orders: seq<seq<Card>>, n: nat, category: Option<string>, limit: nat, cursor: nat)
    returns (page: ContactPage)
    requires limit >= 1 && Sized(orders, n)
    ensures IsPage(orders, n, Kept(category), limit, cursor, page)
    ensures |orders| == 1 ==> page == PageAt(orders[0], Kept(category), limit, cursor)
  {
    var scanned := cursor;
    var parsed: seq<Card> := [];
    var hasMore := false;
    var k := 0;
    ghost var keep := Kept(category);
    ghost var seen := OrderAt(orders, 0);
    FirstIsComposite(orders, n);
    while |parsed| < limit
      invariant |seen| == n && Composite(orders, n, seen)
      invariant |parsed| <= limit && Reading(seen, keep, limit, cursor, scanned, parsed)
      invariant hasMore ==> scanned < n
      invariant |parsed| == limit && scanned < n ==> hasMore
      decreases n - scanned
    {
      var size;
      size, parsed, hasMore, seen :=
        ReadMore(orders, n, k, category, limit, cursor, scanned, parsed, seen);
      scanned, k := scanned + size, k + 1;
      // No rows, the first of the original's two exits, leave `hasMore` false as well.
      if !hasMore {
        break;
      }
    }
    PageOfReading(seen, keep, limit, cursor, scanned, parsed);
    page := ContactPage(parsed, hasMore, if hasMore then Some(scanned) else None);
    assert IsPage(orders, n, keep, limit, cursor, page);
    if |orders| == 1 {
      assert orders == [orders[0]];
      OneOrderIsItself(orders[0], seen);
    }
  }

  lemma FilterOneMore(s: seq<Card>, i: nat, p: Card -> bool)
    requires i < |s|
    ensures Filter(s[..i + 1], p) == if p(s[i]) then Filter(s[..i], p) + [s[i]] else Filter(s[..i], p)
  {
    FilterConcat(s[..i], [s[i]], p);
    assert s[..i + 1] == s[..i] + [s[i]];
    assert [s[i]][1..] == [];
  }

  lemma FilterJoin(order: seq<Card>, keep: Card -> bool, a: nat, b: nat, c: nat)
    requires a <= b <= c <= |order|
    ensures Filter(order[a..c], keep) == Filter(order[a..b], keep) + Filter(order[b..c], keep)
  {
    FilterConcat(order[a..b], order[b..c], keep);
    assert order[a..c] == order[a..b] + order[b..c];
  }

  /** Reading no more cards than are needed never reads past the end of the page. */
  lemma {:induction false} ReadOn(order: seq<Card>, keep: Card -> bool, need: nat, from: nat, n: nat)
    requires n <= need && from + n <= |order|
    ensures |Filter(order[from..from + n], keep)| <= n
    ensures ScanEnd(order, keep, need, from)
            == ScanEnd(order, keep, need - |Filter(order[from..from + n], keep)|, from + n)
    decreases n
  {
    if n > 0 {
      assert order[from..from + n][1..] == order[from + 1..from + n];
      ReadOn(order, keep, if keep(order[from]) then need - 1 else need, from + 1, n - 1);
    }
  }

  // ---------- What a client gets ----------

  /** A page is full, or it has read to the end; and when it names a cursor, it has advanced. */
  lemma PageIsFullOrLast(order: seq<Card>, keep: Card -> bool, limit: nat, from: nat)
    requires limit >= 1
    ensures var page := PageAt(order, keep, limit, from);
            && |page.contacts| <= limit
            && (page.hasMore ==> |page.contacts| == limit)
            && (|page.contacts| < limit ==> !page.hasMore)
            && (page.nextCursor.Some? <==> page.hasMore)
            && (page.hasMore ==> from < page.nextCursor.value < |order|)
  {
    if from <= |order| {
      FoundByTheEnd(order, keep, limit, from);
    }
  }

  lemma {:induction false} FoundByTheEnd(order: seq<Card>, keep: Card -> bool, need: nat, from: nat)
    requires from <= |order|
    ensures var end := ScanEnd(order, keep, need, from);
            && |Filter(order[from..end], keep)| <= need
            && (end < |order| ==> |Filter(order[from..end], keep)| == need)
    decreases |order| - from
  {
    var end := ScanEnd(order, keep, need, from);
    if need > 0 && from < |order| {
      FoundByTheEnd(order, keep, if keep(order[from]) then need - 1 else need, from + 1);
      assert order[from..end][1..] == order[from + 1..end];
    }
  }

  /** The pages a client gets by following next_cursor. */
  ghost function FollowPages(order: seq<Card>, keep: Card -> bool, limit: nat, from: nat): seq<Card>
    requires limit >= 1
    decreases |order| - from
  {
    PageIsFullOrLast(order, keep, limit, from);
    var page := PageAt(order, keep, limit, from);
    page.contacts + if page.nextCursor.Some? then FollowPages(order, keep, limit, page.nextCursor.value) else []
  }

  /** Together they are the order without what is dropped: no card twice, none missed. */
  lemma {:induction false} PagesAreTheFilteredOrder(order: seq<Card>, keep: Card -> bool, limit: nat, from: nat)
    requires limit >= 1 && from <= |order|
    ensures FollowPages(order, keep, limit, from) == Filter(order[from..], keep)
    decreases |order| - from
  {
    PageIsFullOrLast(order, keep, limit, from);
    var end := ScanEnd(order, keep, limit, from);
    if end < |order| {
      PagesAreTheFilteredOrder(order, keep, limit, end);
      FilterConcat(order[from..end], order[end..], keep);
      assert order[from..] == order[from..end] + order[end..];
    } else {
      assert order[from..] == order[from..end];
    }
  }

  /** What the pages show is every card of the order that is no group card and, where a category is
      asked for, is of it. */
  lemma ShownExactly(order: seq<Card>, category: Option<string>, limit: nat, card: Card)
    requires limit >= 1
    ensures card in FollowPages(order, Kept(category), limit, 0) <==>
            card in order && !card.isGroup && (category == None || category.value in card.categories)
  {
    PagesAreTheFilteredOrder(order, Kept(category), limit, 0);
    assert order[0..] == order;
    FilterMembers(order, Kept(category));
  }
}
