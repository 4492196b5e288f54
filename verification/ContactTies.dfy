/** Contact pages when the database may break ties between equal summaries differently from read to
    read: the query orders by summary alone (src/mail_verdict/calendar/repository.py,
    search_contacts) and pages by offset. */
module ContactTies {
  import opened Sequences
  import opened ContactPager

  // ---------- What a client is shown ----------

  ghost predicate Square(seens: seq<seq<Card>>) {
    forall o :: o in seens ==> |o| == |seens|
  }

  /** What following next_cursor shows, where `seens[c]` is the order put together from what the reads
      of the page at cursor `c` saw. */
  ghost function Shown(seens: seq<seq<Card>>, keep: Card -> bool, limit: nat, from: nat): seq<Card>
    requires limit >= 1 && Square(seens)
    decreases |seens| - from
  {
    if from >= |seens| then []
    else
      PageIsFullOrLast(seens[from], keep, limit, from);
      var page := PageAt(seens[from], keep, limit, from);
      page.contacts + if page.nextCursor.Some? then Shown(seens, keep, limit, page.nextCursor.value) else []
  }

  predicate SameKept(a: Card, b: Card, keep: Card -> bool) {
    keep(a) == keep(b) && (keep(b) ==> a == b)
  }

  /** Both orders have the same kept cards at the same places. */
  ghost predicate Agree(a: seq<Card>, b: seq<Card>, keep: Card -> bool) {
    |a| == |b| && forall i :: 0 <= i < |a| ==> SameKept(a[i], b[i], keep)
  }

  lemma {:induction false} AgreeingFilter(a: seq<Card>, b: seq<Card>, keep: Card -> bool)
    requires Agree(a, b, keep)
    ensures Filter(a, keep) == Filter(b, keep)
  {
    if a != [] {
      assert SameKept(a[0], b[0], keep);
      AgreeingFilter(a[1..], b[1..], keep);
    }
  }

  lemma {:induction false} AgreeingScan(a: seq<Card>, b: seq<Card>, keep: Card -> bool, need: nat, from: nat)
    requires Agree(a, b, keep)
    ensures ScanEnd(a, keep, need, from) == ScanEnd(b, keep, need, from)
    decreases |a| - from
  {
    if need > 0 && from < |a| {
      assert SameKept(a[from], b[from], keep);
      AgreeingScan(a, b, keep, if keep(a[from]) then need - 1 else need, from + 1);
    }
  }

  lemma AgreeingPage(a: seq<Card>, b: seq<Card>, keep: Card -> bool, limit: nat, from: nat)
    requires Agree(a, b, keep)
    ensures PageAt(a, keep, limit, from) == PageAt(b, keep, limit, from)
  {
    AgreeingScan(a, b, keep, limit, from);
    if from <= |a| {
      var end := ScanEnd(a, keep, limit, from);
      AgreeingFilter(a[from..end], b[from..end], keep);
    }
  }

  lemma {:induction false} AgreeingPages(
    seens: seq<seq<Card>>, order: seq<Card>, keep: Card -> bool, limit: nat, from: nat)
    requires limit >= 1 && |order| == |seens| && forall o :: o in seens ==> Agree(o, order, keep)
    requires from <= |order|
    ensures Square(seens) && Shown(seens, keep, limit, from) == Filter(order[from..], keep)
    decreases |order| - from
  {
    PagesAreTheFilteredOrder(order, keep, limit, from);
    if from < |order| {
      AgreeingPage(seens[from], order, keep, limit, from);
      PageIsFullOrLast(order, keep, limit, from);
      var page := PageAt(order, keep, limit, from);
      if page.nextCursor.Some? {
        AgreeingPages(seens, order, keep, limit, page.nextCursor.value);
        PagesAreTheFilteredOrder(order, keep, limit, page.nextCursor.value);
      }
    } else {
      assert order[from..] == [];
    }
  }

  // ---------- Equal summaries ----------

  /** An order the database may give the cards: by summary, ties in any way. */
  ghost predicate IsOrder(table: set<Card>, o: seq<Card>) {
    && |o| == |table| && Distinct(o) && (forall x :: x in o <==> x in table)
    && forall i, j :: 0 <= i < j < |o| ==> o[i].summary <= o[j].summary
  }

  ghost predicate AreOrders(table: set<Card>, orders: seq<seq<Card>>) {
    orders != [] && forall o :: o in orders ==> IsOrder(table, o)
  }

  /** No kept card shares its summary with another card, kept or not. */
  ghost predicate AloneIfKept(table: set<Card>, keep: Card -> bool) {
    forall x, y :: x in table && y in table && x != y && keep(x) ==> x.summary != y.summary
  }

  lemma {:induction false} DistinctSize(s: seq<Card>)
    requires Distinct(s)
    ensures |set x | x in s| == |s|
  {
    if s != [] {
      var rest := s[1..];
      DistinctSize(rest);
      assert (set x | x in s) == {s[0]} + (set x | x in rest);
      assert s[0] !in rest;
    }
  }

  lemma SubsetSize(a: set<Card>, b: set<Card>)
    requires a <= b
    ensures |a| <= |b|
  {
    assert b == a + (b - a);
  }

  /** A card alone with its summary stands no later in one order than in another, */
  lemma NoLater(table: set<Card>, a: seq<Card>, b: seq<Card>, i: nat, j: nat)
    requires IsOrder(table, a) && IsOrder(table, b) && i < |a| && j < |b| && a[i] == b[j]
    requires forall y :: y in table && y != a[i] ==> y.summary != a[i].summary
    ensures j <= i
  {
    var before := b[..j];
    assert Distinct(before);
    assert forall q :: i <= q < |a| ==> a[i].summary <= a[q].summary;
    forall x | x in before ensures x in a[..i] {
      var p :| 0 <= p < j && b[p] == x;
      assert b[p] != b[j] && x in table;
      assert x.summary < a[i].summary;
      var q :| 0 <= q < |a| && a[q] == x;
      assert a[..i][q] == x;
    }
    DistinctSize(before);
    DistinctSize(a[..i]);
    SubsetSize(set x | x in before, set x | x in a[..i]);
  }

  /** and so at the same place in all of them. */
  lemma AloneIsFixed(table: set<Card>, keep: Card -> bool, a: seq<Card>, b: seq<Card>, i: nat)
    requires IsOrder(table, a) && IsOrder(table, b) && AloneIfKept(table, keep) && i < |a| && keep(a[i])
    ensures a[i] == b[i]
  {
    assert a[i] in table;
    assert a[i] in b;
    var j :| 0 <= j < |b| && b[j] == a[i];
    NoLater(table, a, b, i, j);
    NoLater(table, b, a, j, i);
  }

  /** The pages of a client, each put together from reads in any of the orders. */
  ghost predicate MaySee(table: set<Card>, seens: seq<seq<Card>>) {
    |seens| == |table| && forall o :: o in seens ==> MayBeSeen(table, o)
  }

  ghost predicate MayBeSeen(table: set<Card>, seen: seq<Card>) {
    exists orders :: AreOrders(table, orders) && Composite(orders, |table|, seen)
  }

  lemma SeenAgrees(table: set<Card>, keep: Card -> bool, seen: seq<Card>, order: seq<Card>)
    requires MayBeSeen(table, seen) && IsOrder(table, order) && AloneIfKept(table, keep)
    ensures Agree(seen, order, keep)
  {
    var orders :| AreOrders(table, orders) && Composite(orders, |table|, seen);
    forall i | 0 <= i < |seen| ensures SameKept(seen[i], order[i], keep) {
      assert SomeHas(orders, i, seen[i]);
      var o :| o in orders && i < |o| && o[i] == seen[i];
      if keep(o[i]) {
        AloneIsFixed(table, keep, o, order, i);
      } else if keep(order[i]) {
        AloneIsFixed(table, keep, order, o, i);
      }
    }
  }

  /** However the database breaks ties from read to read, a client sees every kept card once, in
      order, if no kept card shares its summary with another card. */
  lemma TiesDoNotMatter(table: set<Card>, seens: seq<seq<Card>>, order: seq<Card>, keep: Card -> bool, limit: nat)
    requires MaySee(table, seens) && IsOrder(table, order) && AloneIfKept(table, keep) && limit >= 1
    ensures Square(seens) && Shown(seens, keep, limit, 0) == Filter(order, keep)
  {
    forall o | o in seens ensures Agree(o, order, keep) {
      SeenAgrees(table, keep, o, order);
    }
    AgreeingPages(seens, order, keep, limit, 0);
    assert order[0..] == order;
  }

  // ---------- and where one does ----------

  /** The page that is full at `q` ends no later. */
  lemma {:induction false} ScanStops(order: seq<Card>, keep: Card -> bool, need: nat, from: nat, q: nat)
    requires from <= q <= |order| && |Filter(order[from..q], keep)| >= need
    ensures ScanEnd(order, keep, need, from) <= q
    decreases q - from
  {
    if need > 0 && from < q {
      assert order[from..q][1..] == order[from + 1..q];
      ScanStops(order, keep, if keep(order[from]) then need - 1 else need, from + 1, q);
    }
  }

  /** The pages up to the place `q` are answered in the order `a`, those from there on in `b`. */
  ghost function Switching(a: seq<Card>, b: seq<Card>, q: nat): (r: seq<seq<Card>>)
    ensures |r| == |a| && forall i :: 0 <= i < |a| ==> r[i] == if i < q then a else b
  {
    seq(|a|, i => if i < q then a else b)
  }

  lemma SwitchingIsSquare(a: seq<Card>, b: seq<Card>, q: nat)
    requires |a| == |b|
    ensures Square(Switching(a, b, q))
  {
    var seens := Switching(a, b, q);
    forall o | o in seens ensures |o| == |seens| {
      var i :| 0 <= i < |seens| && seens[i] == o;
    }
  }

  lemma {:induction false} ShownAfter(a: seq<Card>, b: seq<Card>, q: nat, keep: Card -> bool, limit: nat, from: nat)
    requires limit >= 1 && |a| == |b| && q <= from <= |a|
    ensures Square(Switching(a, b, q))
    ensures Shown(Switching(a, b, q), keep, limit, from) == Filter(b[from..], keep)
    decreases |a| - from
  {
    SwitchingIsSquare(a, b, q);
    PagesAreTheFilteredOrder(b, keep, limit, from);
    if from < |a| {
      PageIsFullOrLast(b, keep, limit, from);
      var page := PageAt(b, keep, limit, from);
      if page.nextCursor.Some? {
        ShownAfter(a, b, q, keep, limit, page.nextCursor.value);
        PagesAreTheFilteredOrder(b, keep, limit, page.nextCursor.value);
      }
    } else {
      assert b[from..] == [];
    }
  }

  lemma OnePageLess(total: nat, pages: nat, limit: nat)
    requires limit >= 1 && total == pages * limit && total > 0
    ensures pages >= 1 && total >= limit && total - limit == (pages - 1) * limit
  {
  }

  lemma SomethingKept(a: seq<Card>, q: nat, keep: Card -> bool, from: nat)
    requires from < q <= |a| && keep(a[q - 1])
    ensures |Filter(a[from..q], keep)| > 0
  {
    FilterMembers(a[from..q], keep);
    assert a[from..q][q - 1 - from] == a[q - 1];
  }

  /** A page read in `a` before a place `q` that some page ends at ends no later than that. */
  lemma EndsByThen(a: seq<Card>, q: nat, keep: Card -> bool, limit: nat, from: nat, pages: nat)
    requires limit >= 1 && from < q < |a| && keep(a[q - 1]) && |Filter(a[from..q], keep)| == pages * limit
    ensures var end := ScanEnd(a, keep, limit, from);
            && pages >= 1 && from < end <= q
            && Filter(a[from..q], keep) == Filter(a[from..end], keep) + Filter(a[end..q], keep)
            && |Filter(a[end..q], keep)| == (pages - 1) * limit
  {
    SomethingKept(a, q, keep, from);
    OnePageLess(|Filter(a[from..q], keep)|, pages, limit);
    var end := ScanEnd(a, keep, limit, from);
    ScanStops(a, keep, limit, from, q);
    FoundByTheEnd(a, keep, limit, from);
    FilterJoin(a, keep, from, end, q);
  }

  lemma ShownFrom(seens: seq<seq<Card>>, a: seq<Card>, keep: Card -> bool, limit: nat, from: nat)
    requires limit >= 1 && Square(seens) && from < |seens| && seens[from] == a
    requires from < ScanEnd(a, keep, limit, from) < |a|
    ensures Shown(seens, keep, limit, from)
            == Filter(a[from..ScanEnd(a, keep, limit, from)], keep)
               + Shown(seens, keep, limit, ScanEnd(a, keep, limit, from))
  {
  }

  /** Where the page size divides the number of kept cards up to `q`, some page ends there. */
  lemma {:induction false} ShownAcross(
    a: seq<Card>, b: seq<Card>, q: nat, keep: Card -> bool, limit: nat, from: nat, pages: nat)
    requires limit >= 1 && |a| == |b| && from < q < |a| && keep(a[q - 1])
    requires |Filter(a[from..q], keep)| == pages * limit
    ensures Square(Switching(a, b, q))
    ensures Shown(Switching(a, b, q), keep, limit, from) == Filter(a[from..q], keep) + Filter(b[q..], keep)
    decreases q - from
  {
    SwitchingIsSquare(a, b, q);
    EndsByThen(a, q, keep, limit, from, pages);
    ShownFrom(Switching(a, b, q), a, keep, limit, from);
    var end := ScanEnd(a, keep, limit, from);
    if end < q {
      ShownAcross(a, b, q, keep, limit, end, pages - 1);
      Associative(Filter(a[from..end], keep), Filter(a[end..q], keep), Filter(b[q..], keep));
    } else {
      ShownAfter(a, b, q, keep, limit, q);
    }
  }

  lemma Swapped(table: set<Card>, o: seq<Card>, p: nat) returns (t: seq<Card>)
    requires IsOrder(table, o) && p + 1 < |o| && o[p].summary == o[p + 1].summary
    ensures IsOrder(table, t) && t == o[p := o[p + 1]][p + 1 := o[p]]
  {
    t := o[p := o[p + 1]][p + 1 := o[p]];
    assert t[p] == o[p + 1] && t[p + 1] == o[p];
    forall x ensures x in t <==> x in table {
      if x in o {
        var i :| 0 <= i < |o| && o[i] == x;
        assert x == t[if i == p then p + 1 else if i == p + 1 then p else i];
      }
    }
  }

  /** Up to the first of two swapped cards in one order, from the second on in the other. */
  lemma SwapTwice(a: seq<Card>, b: seq<Card>, p: nat, keep: Card -> bool)
    requires Distinct(a) && p + 1 < |a| && b == a[p := a[p + 1]][p + 1 := a[p]] && keep(a[p])
    ensures var shown := Filter(a[..p + 1], keep) + Filter(b[p + 1..], keep);
            multiset(shown)[a[p]] >= 2 && a[p + 1] !in shown
  {
    var before, after := a[..p + 1], b[p + 1..];
    FilterMembers(before, keep);
    FilterMembers(after, keep);
    assert before[p] == a[p] && after[0] == a[p];
    assert a[p] in Filter(before, keep) && a[p] in Filter(after, keep);
    forall i | 0 <= i < |after| ensures after[i] != a[p + 1] {
      assert after[i] == b[p + 1 + i];
    }
  }

  /** Two orders that differ in one pair of ties, the pages answered in one up to the first of the two
      and in the other from the second on: the card that moves back is shown twice and the other
      never, whenever a page ends between them. */
  lemma SwapShowsTwice(
    table: set<Card>, a: seq<Card>, b: seq<Card>, p: nat, keep: Card -> bool, limit: nat, pages: nat)
    requires IsOrder(table, a) && IsOrder(table, b) && p + 1 < |a| && b == a[p := a[p + 1]][p + 1 := a[p]]
    requires limit >= 1 && keep(a[p]) && |Filter(a[..p + 1], keep)| == pages * limit
    ensures MaySee(table, Switching(a, b, p + 1)) && Square(Switching(a, b, p + 1))
    ensures var shown := Shown(Switching(a, b, p + 1), keep, limit, 0);
            multiset(shown)[a[p]] >= 2 && a[p + 1] !in shown
  {
    assert a[0..p + 1] == a[..p + 1];
    ShownAcross(a, b, p + 1, keep, limit, 0, pages);
    SwapTwice(a, b, p, keep);
    SwitchingMayBeSeen(table, a, b, p + 1);
  }

  lemma SwitchingMayBeSeen(table: set<Card>, a: seq<Card>, b: seq<Card>, q: nat)
    requires IsOrder(table, a) && IsOrder(table, b)
    ensures MaySee(table, Switching(a, b, q))
  {
    OrderMayBeSeen(table, a);
    OrderMayBeSeen(table, b);
    var seens := Switching(a, b, q);
    forall o | o in seens ensures MayBeSeen(table, o) {
      var i :| 0 <= i < |seens| && seens[i] == o;
    }
  }

  lemma OrderMayBeSeen(table: set<Card>, o: seq<Card>)
    requires IsOrder(table, o)
    ensures MayBeSeen(table, o)
  {
    FirstIsComposite([o], |table|);
    assert AreOrders(table, [o]);
  }

  /** Where a kept card has a tie, it has one next to it. */
  lemma TieNextTo(table: set<Card>, o: seq<Card>, keep: Card -> bool) returns (i: nat, p: nat)
    requires IsOrder(table, o) && !AloneIfKept(table, keep)
    ensures p + 1 < |o| && (i == p || i == p + 1) && keep(o[i]) && o[p].summary == o[p + 1].summary
  {
    var x, y :| x in table && y in table && x != y && keep(x) && x.summary == y.summary;
    i :| 0 <= i < |o| && o[i] == x;
    var j :| 0 <= j < |o| && o[j] == y;
    if i < j {
      p := i;
      assert o[i].summary <= o[i + 1].summary <= o[j].summary;
    } else {
      p := i - 1;
      assert o[j].summary <= o[i - 1].summary <= o[i].summary;
    }
  }

  /** Wherever a kept card has a tie, pages of one card, for some way of breaking it, show one twice. */
  lemma TiesMatter(table: set<Card>, o: seq<Card>, keep: Card -> bool) returns (seens: seq<seq<Card>>, x: Card)
    requires IsOrder(table, o) && !AloneIfKept(table, keep)
    ensures MaySee(table, seens) && Square(seens)
    ensures multiset(Shown(seens, keep, 1, 0))[x] >= 2
  {
    var i, p := TieNextTo(table, o, keep);
    var t := Swapped(table, o, p);
    x := o[i];
    var a, b := if i == p then o else t, if i == p then t else o;
    assert b == a[p := a[p + 1]][p + 1 := a[p]];
    seens := Switching(a, b, p + 1);
    SwapShowsTwice(table, a, b, p, keep, 1, |Filter(a[..p + 1], keep)|);
  }

  /** Every kept card once, in order. */
  ghost predicate ShowsAll(seens: seq<seq<Card>>, keep: Card -> bool, limit: nat, order: seq<Card>)
    requires limit >= 1
  {
    Square(seens) && Shown(seens, keep, limit, 0) == Filter(order, keep)
  }

  /** A client sees every kept card once, in order, however the database breaks ties from read to read
      and whatever the page size, if and only if no kept card shares its summary. */
  lemma PagesAreRightIff(table: set<Card>, order: seq<Card>, keep: Card -> bool)
    requires IsOrder(table, order)
    ensures AloneIfKept(table, keep) <==>
            forall seens, limit: nat :: MaySee(table, seens) && limit >= 1 ==> ShowsAll(seens, keep, limit, order)
  {
    if AloneIfKept(table, keep) {
      forall seens, limit: nat | MaySee(table, seens) && limit >= 1
        ensures ShowsAll(seens, keep, limit, order)
      {
        TiesDoNotMatter(table, seens, order, keep, limit);
      }
    } else {
      var seens, x := TiesMatter(table, order, keep);
      FilterDistinct(order, keep);
      OnceEach(Filter(order, keep), x);
      assert !ShowsAll(seens, keep, 1, order);
    }
  }

  lemma {:induction false} OnceEach(s: seq<Card>, x: Card)
    requires Distinct(s)
    ensures multiset(s)[x] <= 1
  {
    if s != [] {
      OnceEach(s[1..], x);
      assert s == [s[0]] + s[1..] && s[0] !in s[1..];
    }
  }
}
