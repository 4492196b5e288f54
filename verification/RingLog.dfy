/** What an event ring holds, as a function of everything ever added to it
    (src/mail_verdict/api/event_ring.py). The log is the unbounded history; the ring
    of one account is the end of that account's share of it. */
module RingLog {
  import opened Sequences
  import opened Json

  type AccountId = string

  datatype Event = Event(id: nat, account: AccountId, eventType: string, data: Json)

  function ById(a: Event, b: Event): bool {
    a.id < b.id
  }

  /** The global counter numbers the log 1, 2, 3, ... */
  ghost predicate Numbered(log: seq<Event>) {
    forall i :: 0 <= i < |log| ==> log[i].id == i + 1
  }

  function IsOf(a: AccountId): Event -> bool {
    (e: Event) => e.account == a
  }

  function NewerThan(last: int): Event -> bool {
    (e: Event) => e.id > last
  }

  function OfAccount(log: seq<Event>, a: AccountId): seq<Event> {
    Filter(log, IsOf(a))
  }

  function Accounts(log: seq<Event>): set<AccountId> {
    set e | e in log :: e.account
  }

  /** A `deque(maxlen=n)` after appending `s` to it one by one. */
  function LastN<T>(s: seq<T>, n: nat): seq<T> {
    if |s| <= n then s else s[|s| - n..]
  }

  function Ring(log: seq<Event>, a: AccountId, max: nat): seq<Event> {
    LastN(OfAccount(log, a), max)
  }

  function RetainedAfter(log: seq<Event>, max: nat, last: int): Event -> bool {
    (e: Event) => e.id > last && e in Ring(log, e.account, max)
  }

  /** The answer of `replay_from`: for one account, or merged over all of them. */
  function Replay(log: seq<Event>, max: nat, last: int, filter: Option<AccountId>): seq<Event> {
    match filter
    case None => Filter(log, RetainedAfter(log, max, last))
    case Some(a) =>
      var ring := Ring(log, a, max);
      if ring == [] || last < ring[0].id then [] else Filter(ring, NewerThan(last))
  }

  /** The answer of `has_events_after`: the gap test. */
  predicate HasEventsAfter(log: seq<Event>, max: nat, last: int, filter: Option<AccountId>) {
    match filter
    case None => forall a :: a in Accounts(log) && Ring(log, a, max) != [] ==> Ring(log, a, max)[0].id <= last
    case Some(a) => Ring(log, a, max) != [] && Ring(log, a, max)[0].id <= last
  }

  predicate Matches(filter: Option<AccountId>, e: Event) {
    filter.None? || e.account == filter.value
  }

  function Wanted(filter: Option<AccountId>, lo: int, hi: int, skipped: set<nat>): Event -> bool {
    (e: Event) => lo < e.id <= hi && Matches(filter, e) && e.id !in skipped
  }

  /** The log entries a stream is about, with ids in (lo, hi], less the skipped ones. */
  function Segment(log: seq<Event>, filter: Option<AccountId>, lo: int, hi: int, skipped: set<nat>): seq<Event> {
    Filter(log, Wanted(filter, lo, hi, skipped))
  }

  /** The newest id this account's ring has already dropped; 0 when it has dropped none. */
  function DroppedUpTo(log: seq<Event>, a: AccountId, max: nat): nat {
    var all := OfAccount(log, a);
    if |all| <= max then 0 else all[|all| - max - 1].id
  }

  // ---------- Order and membership ----------

  lemma ByIdIsAnOrder()
    ensures Asymmetric(ById) && Transitive(ById)
  {
  }

  lemma OfAccountFacts(log: seq<Event>, a: AccountId)
    requires Numbered(log)
    ensures Ordered(log, ById) && Ordered(OfAccount(log, a), ById)
    ensures forall e :: e in OfAccount(log, a) <==> e in log && e.account == a
  {
    FilterOrdered(log, IsOf(a), ById);
    FilterMembers(log, IsOf(a));
  }

  lemma SegmentFacts(log: seq<Event>, filter: Option<AccountId>, lo: int, hi: int, skipped: set<nat>)
    requires Numbered(log)
    ensures Ordered(Segment(log, filter, lo, hi, skipped), ById)
    ensures forall e :: e in Segment(log, filter, lo, hi, skipped) <==>
                          e in log && lo < e.id <= hi && Matches(filter, e) && e.id !in skipped
  {
    FilterOrdered(log, Wanted(filter, lo, hi, skipped), ById);
    FilterMembers(log, Wanted(filter, lo, hi, skipped));
  }

  /** What follows a place in a list ordered by id is what is newer than the entry before it. */
  lemma SuffixById(all: seq<Event>, cut: nat)
    requires Ordered(all, ById) && 0 < cut <= |all|
    ensures Ordered(all[cut..], ById)
    ensures forall e :: e in all[cut..] <==> e in all && e.id > all[cut - 1].id
  {
    var ring := all[cut..];
    forall e ensures e in ring <==> e in all && e.id > all[cut - 1].id {
      if e in all {
        var i :| 0 <= i < |all| && all[i] == e;
        if i >= cut {
          assert ring[i - cut] == e;
        }
      }
    }
  }

  lemma IdsArePositive(log: seq<Event>)
    requires Numbered(log)
    ensures forall e :: e in log ==> e.id > 0
  {
    forall e | e in log ensures e.id > 0 {
      var i :| 0 <= i < |log| && log[i] == e;
    }
  }

  /** The last `max` of a list ordered by id, against what it leaves out. */
  lemma LastNById(all: seq<Event>, max: nat)
    requires Ordered(all, ById) && forall e :: e in all ==> e.id > 0
    ensures var dropped := if |all| <= max then 0 else all[|all| - max - 1].id;
            && Ordered(LastN(all, max), ById)
            && (forall e :: e in LastN(all, max) <==> e in all && e.id > dropped)
            && (dropped > 0 ==> exists e :: e in all && e.id == dropped)
  {
    if |all| > max {
      SuffixById(all, |all| - max);
      assert all[|all| - max - 1] in all;
    }
  }

  /** A ring holds exactly its account's entries newer than the newest dropped one. */
  lemma RingFacts(log: seq<Event>, a: AccountId, max: nat)
    requires Numbered(log)
    ensures Ordered(Ring(log, a, max), ById)
    ensures forall e :: e in Ring(log, a, max) <==> e in log && e.account == a && e.id > DroppedUpTo(log, a, max)
    ensures DroppedUpTo(log, a, max) > 0 ==>
              exists e :: e in log && e.account == a && e.id == DroppedUpTo(log, a, max)
  {
    OfAccountFacts(log, a);
    IdsArePositive(log);
    LastNById(OfAccount(log, a), max);
  }

  /** With room for at least one entry, an account that has one has a nonempty ring, and the
      ring is what lies at or after its oldest entry. */
  lemma RingFromOldest(log: seq<Event>, a: AccountId, max: nat)
    requires Numbered(log) && max >= 1
    ensures Ring(log, a, max) == [] <==> OfAccount(log, a) == []
    ensures var ring := Ring(log, a, max);
            ring != [] ==> forall e :: e in ring <==> e in log && e.account == a && e.id >= ring[0].id
  {
    RingFacts(log, a, max);
    OfAccountFacts(log, a);
    var ring := Ring(log, a, max);
    if ring != [] {
      assert ring[0] in ring;
      forall e | e in ring ensures e.id >= ring[0].id {
        var i :| 0 <= i < |ring| && ring[i] == e;
        assert i > 0 ==> ById(ring[0], ring[i]);
      }
    }
  }

  lemma ReplayFacts(log: seq<Event>, max: nat, last: int, filter: Option<AccountId>)
    requires Numbered(log)
    ensures Ordered(Replay(log, max, last, filter), ById)
    ensures forall e :: e in Replay(log, max, last, filter) ==>
              e in log && e.id > last && Matches(filter, e) && e in Ring(log, e.account, max)
    ensures Replay(log, max, last, filter) != [] || filter.None? || HasEventsAfter(log, max, last, filter) ==>
              forall e :: e in log && e.id > last && Matches(filter, e) && e in Ring(log, e.account, max) ==>
                e in Replay(log, max, last, filter)
  {
    match filter
    case None =>
      assert Ordered(log, ById);
      FilterOrdered(log, RetainedAfter(log, max, last), ById);
      FilterMembers(log, RetainedAfter(log, max, last));
    case Some(a) =>
      RingFacts(log, a, max);
      FilterOrdered(Ring(log, a, max), NewerThan(last), ById);
      FilterMembers(Ring(log, a, max), NewerThan(last));
  }

  lemma UnknownAccountHasNoRing(log: seq<Event>, a: AccountId, max: nat)
    requires a !in Accounts(log)
    ensures Ring(log, a, max) == []
  {
    FilterNone(log, IsOf(a));
  }

  // ---------- Appending ----------

  lemma OfAccountAppend(log: seq<Event>, x: Event, a: AccountId)
    ensures OfAccount(log + [x], a) == OfAccount(log, a) + (if x.account == a then [x] else [])
  {
    FilterConcat(log, [x], IsOf(a));
  }

  /** Adding an event appends to its account's bounded ring and leaves the others alone. */
  lemma RingAppend(log: seq<Event>, x: Event, a: AccountId, max: nat)
    ensures Ring(log + [x], a, max) ==
            if x.account == a then LastN(Ring(log, a, max) + [x], max) else Ring(log, a, max)
  {
    OfAccountAppend(log, x, a);
  }

  lemma AccountsAppend(log: seq<Event>, x: Event)
    ensures Accounts(log + [x]) == Accounts(log) + {x.account}
  {
    assert forall e :: e in log + [x] <==> e in log || e == x;
  }

  /** What has been dropped stays dropped. */
  lemma DroppedStaysDropped(log: seq<Event>, x: Event, max: nat, e: Event)
    requires Numbered(log + [x]) && e in log && e in Ring(log + [x], e.account, max)
    ensures e in Ring(log, e.account, max)
  {
    RingAppend(log, x, e.account, max);
    var i :| 0 <= i < |log| && log[i] == e;
    assert (log + [x])[i] == e && (log + [x])[|log|] == x;
  }

  lemma SegmentAppend(log: seq<Event>, x: Event, filter: Option<AccountId>, lo: int, hi: int, skipped: set<nat>)
    requires Numbered(log + [x]) && hi <= |log|
    ensures Segment(log + [x], filter, lo, hi, skipped) == Segment(log, filter, lo, hi, skipped)
  {
    FilterConcat(log, [x], Wanted(filter, lo, hi, skipped));
    assert (log + [x])[|log|] == x;
  }

  // ---------- When a replay is complete ----------

  /** A replay that passed the gap test is every entry after `last`, in order: no gap. */
  lemma GapTestIsSound(log: seq<Event>, max: nat, last: int, filter: Option<AccountId>)
    requires Numbered(log) && max >= 1
    requires HasEventsAfter(log, max, last, filter)
    ensures Replay(log, max, last, filter) == Segment(log, filter, last, |log|, {})
    ensures forall e :: e in log && e.id > last && Matches(filter, e) ==> e in Ring(log, e.account, max)
  {
    forall e | e in log && e.id > last && Matches(filter, e) ensures e in Ring(log, e.account, max) {
      OfAccountFacts(log, e.account);
      RingFromOldest(log, e.account, max);
      assert e.account in Accounts(log);
    }
    ReplayFacts(log, max, last, filter);
    SameAsSegment(log, max, last, filter);
  }

  lemma SameAsSegment(log: seq<Event>, max: nat, last: int, filter: Option<AccountId>)
    requires Numbered(log)
    requires forall e :: e in log && e.id > last && Matches(filter, e) ==> e in Replay(log, max, last, filter)
    ensures Replay(log, max, last, filter) == Segment(log, filter, last, |log|, {})
  {
    ReplayFacts(log, max, last, filter);
    SegmentFacts(log, filter, last, |log|, {});
    ByIdIsAnOrder();
    forall e | e in log ensures e.id <= |log| {
      var i :| 0 <= i < |log| && log[i] == e;
    }
    OrderedUnique(Replay(log, max, last, filter), Segment(log, filter, last, |log|, {}), ById);
  }

  /** An unfiltered replay is complete exactly when no account has dropped an id above `last`. */
  lemma UnfilteredReplayCompleteIff(log: seq<Event>, max: nat, last: nat)
    requires Numbered(log)
    ensures Replay(log, max, last, None) == Segment(log, None, last, |log|, {}) <==>
            forall a :: a in Accounts(log) ==> DroppedUpTo(log, a, max) <= last
  {
    ReplayFacts(log, max, last, None);
    SegmentFacts(log, None, last, |log|, {});
    if Replay(log, max, last, None) == Segment(log, None, last, |log|, {}) {
      forall a | a in Accounts(log) ensures DroppedUpTo(log, a, max) <= last {
        RingFacts(log, a, max);
        if DroppedUpTo(log, a, max) > 0 {
          var e :| e in log && e.account == a && e.id == DroppedUpTo(log, a, max);
          assert e !in Ring(log, a, max);
          var i :| 0 <= i < |log| && log[i] == e;
          assert e.id > last ==> e in Segment(log, None, last, |log|, {});
        }
      }
    }
    if forall a :: a in Accounts(log) ==> DroppedUpTo(log, a, max) <= last {
      forall e | e in log && e.id > last ensures e in Replay(log, max, last, None) {
        RingFacts(log, e.account, max);
        assert e.account in Accounts(log);
      }
      SameAsSegment(log, max, last, None);
    }
  }

  /** A replay for one account is complete exactly when there is nothing to deliver or the
      gap test passes; otherwise it is empty, whatever is still retained. */
  lemma FilteredReplayCompleteIff(log: seq<Event>, max: nat, last: nat, a: AccountId)
    requires Numbered(log) && max >= 1
    ensures Replay(log, max, last, Some(a)) == Segment(log, Some(a), last, |log|, {}) <==>
            Segment(log, Some(a), last, |log|, {}) == [] || HasEventsAfter(log, max, last, Some(a))
    ensures !HasEventsAfter(log, max, last, Some(a)) ==> Replay(log, max, last, Some(a)) == []
  {
    if HasEventsAfter(log, max, last, Some(a)) {
      GapTestIsSound(log, max, last, Some(a));
    }
  }

  // ---------- The same by counting ----------

  /** How many events of an account came after the id `last`. */
  function NewerCount(log: seq<Event>, a: AccountId, last: int): nat {
    |Filter(OfAccount(log, a), NewerThan(last))|
  }

  /** The accounts a stream is about. */
  function Concerned(log: seq<Event>, filter: Option<AccountId>): set<AccountId> {
    match filter
    case None => Accounts(log)
    case Some(a) => {a}
  }

  /** In a list ordered by id, what is newer than `last` is its end. */
  lemma {:induction false} NewerAreTheLast(all: seq<Event>, last: int)
    requires Ordered(all, ById)
    ensures var k := |Filter(all, NewerThan(last))|;
            forall i :: 0 <= i < |all| ==> (all[i].id > last <==> i >= |all| - k)
  {
    if all != [] {
      if all[0].id > last {
        forall e | e in all ensures NewerThan(last)(e) {
          var i :| 0 <= i < |all| && all[i] == e;
          assert i > 0 ==> ById(all[0], all[i]);
        }
        FilterAll(all, NewerThan(last));
      } else {
        NewerAreTheLast(all[1..], last);
        assert forall i :: 0 < i < |all| ==> all[i] == all[1..][i - 1];
      }
    }
  }

  /** An account has dropped an id after `last` exactly when more of its events came after `last`
      than its ring can hold. */
  lemma DroppedPastIff(log: seq<Event>, a: AccountId, max: nat, last: nat)
    requires Numbered(log)
    ensures DroppedUpTo(log, a, max) > last <==> NewerCount(log, a, last) > max
  {
    OfAccountFacts(log, a);
    NewerAreTheLast(OfAccount(log, a), last);
  }

  /** A ring holds an entry at or before `last`. */
  ghost predicate KeepsOneBy(log: seq<Event>, a: AccountId, max: nat, last: int) {
    exists e :: e in Ring(log, a, max) && e.id <= last
  }

  /** It does exactly when its oldest entry is one; that is, when the account has an event that early
      and fewer later ones than the ring can hold. */
  lemma KeepsOneByIff(log: seq<Event>, a: AccountId, max: nat, last: int)
    requires Numbered(log) && max >= 1
    ensures KeepsOneBy(log, a, max, last) <==> Ring(log, a, max) != [] && Ring(log, a, max)[0].id <= last
    ensures KeepsOneBy(log, a, max, last) <==>
            NewerCount(log, a, last) < max && NewerCount(log, a, last) < |OfAccount(log, a)|
  {
    var all, ring := OfAccount(log, a), Ring(log, a, max);
    OfAccountFacts(log, a);
    NewerAreTheLast(all, last);
    RingFromOldest(log, a, max);
    assert ring != [] ==> ring[0] == all[|all| - |ring|];
    if ring != [] && ring[0].id <= last {
      assert ring[0] in ring;
    }
  }

  /** The gap test passes exactly when every account the stream is about keeps an entry at or before
      `last`. */
  lemma GapTestIff(log: seq<Event>, max: nat, last: int, filter: Option<AccountId>)
    requires Numbered(log) && max >= 1
    ensures HasEventsAfter(log, max, last, filter) <==>
            forall a :: a in Concerned(log, filter) ==> KeepsOneBy(log, a, max, last)
  {
    forall a ensures KeepsOneBy(log, a, max, last) <==> Ring(log, a, max) != [] && Ring(log, a, max)[0].id <= last {
      KeepsOneByIff(log, a, max, last);
    }
    forall a | a in Accounts(log) ensures Ring(log, a, max) != [] {
      OfAccountFacts(log, a);
      RingFromOldest(log, a, max);
    }
  }

  /** Everything a stream is about after `last` is still in its ring. */
  ghost predicate AllRetained(log: seq<Event>, max: nat, last: nat, filter: Option<AccountId>) {
    forall e :: e in log && e.id > last && Matches(filter, e) ==> e in Ring(log, e.account, max)
  }

  lemma AllRetainedIff(log: seq<Event>, max: nat, last: nat, filter: Option<AccountId>)
    requires Numbered(log)
    ensures AllRetained(log, max, last, filter) <==>
            forall a :: a in Concerned(log, filter) ==> NewerCount(log, a, last) <= max
  {
    if AllRetained(log, max, last, filter) {
      forall a | a in Concerned(log, filter) ensures NewerCount(log, a, last) <= max {
        DroppedPastIff(log, a, max, last);
        RingFacts(log, a, max);
      }
    }
    if forall a :: a in Concerned(log, filter) ==> NewerCount(log, a, last) <= max {
      forall e | e in log && e.id > last && Matches(filter, e) ensures e in Ring(log, e.account, max) {
        assert e.account in Concerned(log, filter);
        DroppedPastIff(log, e.account, max, last);
        RingFacts(log, e.account, max);
      }
    }
  }

  /** The gap test refuses a replay that would have been complete exactly when no account got more
      events after `last` than its ring holds, and one of those the stream is about got exactly as
      many, or has no event at or before `last`. */
  lemma RefusedThoughRetainedIff(log: seq<Event>, max: nat, last: nat, filter: Option<AccountId>)
    requires Numbered(log) && max >= 1
    ensures AllRetained(log, max, last, filter) && !HasEventsAfter(log, max, last, filter) <==>
            && (forall a :: a in Concerned(log, filter) ==> NewerCount(log, a, last) <= max)
            && (exists a :: a in Concerned(log, filter) &&
                  (NewerCount(log, a, last) == max || NewerCount(log, a, last) == |OfAccount(log, a)|))
  {
    AllRetainedIff(log, max, last, filter);
    GapTestIff(log, max, last, filter);
    forall a
      ensures NewerCount(log, a, last) <= |OfAccount(log, a)|
      ensures KeepsOneBy(log, a, max, last) <==>
              NewerCount(log, a, last) < max && NewerCount(log, a, last) < |OfAccount(log, a)|
    {
      KeepsOneByIff(log, a, max, last);
    }
  }

  /** A ring that can hold nothing passes every gap test and replays nothing. */
  lemma ZeroSizeRingHidesGaps(x: Event)
    requires x.id == 1
    ensures Numbered([x]) && HasEventsAfter([x], 0, 0, None)
    ensures Replay([x], 0, 0, None) != Segment([x], None, 0, 1, {})
  {
    assert Ring([x], x.account, 0) == [];
    SegmentFacts([x], None, 0, 1, {});
    ReplayFacts([x], 0, 0, None);
    assert x in [x];
  }
}
