/** The in-memory event ring (src/mail_verdict/api/event_ring.py): bounded per-account rings
    under one counter, and the waiters an arrival wakes. No method suspends between taking
    the lock and releasing it, so each is one atomic step. */
module EventRing {
  import opened Sequences
  import opened Json
  import opened RingLog

  const MAIL_EVENT_TYPES: set<string> := {
    "mail.deleted", "mail.new", "mail.updated", "folder.changed", "folder.synced", "outbox.updated",
    "pipeline.document_changed", "pipeline.notify", "pipeline.run_finished"
  }
  const CALENDAR_EVENT_TYPES: set<string> := {
    "calendar.account", "calendar.collection", "calendar.links_changed", "calendar.object",
    "contact.collection", "contact.object"
  }
  const OTHER_EVENT_TYPES: set<string> := {
    "account.changed", "alert.dismissed", "alert.new", "connected", "identity.changed",
    "notification.new", "order.updated", "resync", "settings.changed", "verdict.issued"
  }
  const SSE_EVENT_TYPES: set<string> := MAIL_EVENT_TYPES + CALENDAR_EVENT_TYPES + OTHER_EVENT_TYPES

  datatype AddError = UnregisteredType(eventType: string)

  /** Who a waiter listens for. */
  datatype WaiterKey = AllAccounts | OneAccount(a: AccountId)

  function KeyOf(filter: Option<AccountId>): WaiterKey {
    match filter
    case None => AllAccounts
    case Some(a) => OneAccount(a)
  }

  /** An `asyncio.Event`. */
  class Waiter {
    var isSet: bool

    constructor ()
      ensures !isSet
    {
      isSet := false;
    }

    method Set()
      modifies this
      ensures isSet
    {
      isSet := true;
    }

    method Clear()
      modifies this
      ensures !isSet
    {
      isSet := false;
    }
  }

  ghost predicate HoldsRings(rings: map<AccountId, seq<Event>>, log: seq<Event>, max: nat) {
    && rings.Keys == Accounts(log)
    && forall a :: a in rings ==> rings[a] == Ring(log, a, max)
  }

  /** One append keeps the rings in step with the log. */
  lemma RingsFollowLog(rings: map<AccountId, seq<Event>>, log: seq<Event>, event: Event, max: nat)
    requires HoldsRings(rings, log, max)
    ensures var before := if event.account in rings then rings[event.account] else [];
            HoldsRings(rings[event.account := LastN(before + [event], max)], log + [event], max)
  {
    var before := if event.account in rings then rings[event.account] else [];
    var after := rings[event.account := LastN(before + [event], max)];
    AccountsAppend(log, event);
    if event.account !in rings {
      UnknownAccountHasNoRing(log, event.account, max);
    }
    forall a | a in after ensures after[a] == Ring(log + [event], a, max) {
      RingAppend(log, event, a, max);
    }
  }

  lemma NumberedAppend(log: seq<Event>, event: Event)
    requires Numbered(log) && event.id == |log| + 1
    ensures Numbered(log + [event])
  {
  }

  /** The entries newer than `last` of the rings of `accounts`, each once. */
  ghost predicate Collected(
    rings: map<AccountId, seq<Event>>, accounts: set<AccountId>, last: int, events: seq<Event>)
  {
    && Distinct(events)
    && forall e :: e in events <==> e.account in accounts && e.account in rings && e in rings[e.account] && e.id > last
  }

  lemma CollectOneMore(
    rings: map<AccountId, seq<Event>>, log: seq<Event>, max: nat,
    accounts: set<AccountId>, last: int, events: seq<Event>, a: AccountId)
    requires Numbered(log) && HoldsRings(rings, log, max)
    requires Collected(rings, accounts, last, events) && a in rings && a !in accounts
    ensures Collected(rings, accounts + {a}, last, events + Filter(rings[a], NewerThan(last)))
  {
    var newer := Filter(rings[a], NewerThan(last));
    RingFacts(log, a, max);
    FilterMembers(rings[a], NewerThan(last));
    FilterOrdered(rings[a], NewerThan(last), ById);
    assert forall e :: e in newer ==> e.account == a;
  }

  predicate StartsBy(ring: seq<Event>, last: int) {
    ring != [] ==> ring[0].id <= last
  }

  lemma GapTestOfRings(rings: map<AccountId, seq<Event>>, log: seq<Event>, max: nat, last: int)
    requires HoldsRings(rings, log, max)
    ensures RingLog.HasEventsAfter(log, max, last, None) <==> forall a :: a in rings ==> StartsBy(rings[a], last)
  {
    forall a | a in rings ensures StartsBy(rings[a], last) <==> StartsBy(Ring(log, a, max), last) {
    }
  }

  class EventRing {
    const maxSize: nat
    var latestSeq: nat
    var rings: map<AccountId, seq<Event>>
    var waiters: map<WaiterKey, seq<Waiter>>
    ghost var log: seq<Event>

    /** The rings are exactly what the whole history determines. */
    ghost predicate Valid()
      reads this
    {
      && Numbered(log)
      && latestSeq == |log|
      && HoldsRings(rings, log, maxSize)
    }

    function Listening(key: WaiterKey): seq<Waiter>
      reads this`waiters
    {
      if key in waiters then waiters[key] else []
    }

    ghost function Registered(): set<Waiter>
      reads this`waiters
    {
      set k, w | k in waiters && w in waiters[k] :: w
    }

    constructor (maxSize: nat)
      ensures Valid() && log == [] && this.maxSize == maxSize && waiters == map[]
    {
      this.maxSize := maxSize;
      latestSeq, rings, waiters, log := 0, map[], map[], [];
    }

    method Add(account: AccountId, eventType: string, data: Json) returns (r: Result<nat, AddError>)
      requires Valid()
      modifies this`latestSeq, this`rings, this`log, Registered()
      ensures Valid()
      ensures eventType !in SSE_EVENT_TYPES ==>
                r == Err(UnregisteredType(eventType)) && log == old(log) && unchanged(Registered())
      ensures eventType in SSE_EVENT_TYPES ==>
                && r == Ok(|log|)
                && log == old(log) + [Event(|log|, account, eventType, data)]
                && (forall w :: w in Listening(OneAccount(account)) || w in Listening(AllAccounts) ==> w.isSet)
                && (forall w :: w in Registered() && !old(w.isSet) && w.isSet ==>
                      w in Listening(OneAccount(account)) || w in Listening(AllAccounts))
      ensures forall w :: w in Registered() && old(w.isSet) ==> w.isSet
    {
      if eventType !in SSE_EVENT_TYPES {
        return Err(UnregisteredType(eventType));
      }
      Record(account, eventType, data);
      WakeListeners(account);
      r := Ok(latestSeq);
    }

    /** Those of the account, and those of all accounts. */
    method WakeListeners(account: AccountId)
      modifies Registered()
      ensures forall w :: w in Listening(OneAccount(account)) || w in Listening(AllAccounts) ==> w.isSet
      ensures forall w :: w in Registered() && !(w in Listening(OneAccount(account)) || w in Listening(AllAccounts)) ==>
                w.isSet == old(w.isSet)
      ensures forall w :: w in Registered() && old(w.isSet) ==> w.isSet
    {
      assert forall k, w :: w in Listening(k) ==> w in Registered();
      Wake(OneAccount(account));
      Wake(AllAccounts);
    }

    /** Number the event and append it to its account's ring. */
    method Record(account: AccountId, eventType: string, data: Json)
      requires Valid()
      modifies this`latestSeq, this`rings, this`log
      ensures Valid()
      ensures log == old(log) + [Event(|old(log)| + 1, account, eventType, data)]
    {
      latestSeq := latestSeq + 1;
      var event := Event(latestSeq, account, eventType, data);
      RingsFollowLog(rings, log, event, maxSize);
      NumberedAppend(log, event);
      if account !in rings {
        rings := rings[account := []];
      }
      rings := rings[account := LastN(rings[account] + [event], maxSize)];
      log := log + [event];
    }

    method Wake(key: WaiterKey)
      modifies Listening(key)
      ensures forall w :: w in Listening(key) ==> w.isSet
    {
      if key in waiters {
        var all := waiters[key];
        for i := 0 to |all|
          invariant forall j :: 0 <= j < i ==> all[j].isSet
        {
          all[i].Set();
        }
      }
    }

    method ReplayFrom(last: int, filter: Option<AccountId>) returns (events: seq<Event>)
      requires Valid()
      ensures events == Replay(log, maxSize, last, filter)
    {
      match filter
      case Some(a) =>
        var ring := if a in rings then rings[a] else [];
        if a !in rings {
          UnknownAccountHasNoRing(log, a, maxSize);
        }
        if ring == [] || last < ring[0].id {
          return [];
        }
        events := Newer(ring, last);
      case None =>
        events := Collect(last);
        MergedIsReplay(events, last);
        events := SortBy(events, ById);
    }

    /** The newer entries of every ring, account by account. */
    method Collect(last: int) returns (events: seq<Event>)
      requires Valid()
      ensures Collected(rings, rings.Keys, last, events)
    {
      events := [];
      var todo := rings.Keys;
      while todo != {}
        invariant todo <= rings.Keys && Collected(rings, rings.Keys - todo, last, events)
        decreases todo
      {
        var a :| a in todo;
        var newer := Newer(rings[a], last);
        CollectOneMore(rings, log, maxSize, rings.Keys - todo, last, events, a);
        events := events + newer;
        assert rings.Keys - (todo - {a}) == rings.Keys - todo + {a};
        todo := todo - {a};
      }
      assert rings.Keys - {} == rings.Keys;
    }

    lemma MergedIsReplay(events: seq<Event>, last: int)
      requires Valid() && Collected(rings, rings.Keys, last, events)
      ensures SortBy(events, ById) == Replay(log, maxSize, last, None)
    {
      ByIdIsAnOrder();
      forall e | e in events ensures e in log {
        RingFacts(log, e.account, maxSize);
      }
      forall x, y | x in log && y in log && x != y ensures ById(x, y) || ById(y, x) {
        var i :| 0 <= i < |log| && log[i] == x;
        var j :| 0 <= j < |log| && log[j] == y;
      }
      SortFacts(events, ById);
      ReplayFacts(log, maxSize, last, None);
      assert forall e :: e in log ==> e.account in Accounts(log);
      OrderedUnique(SortBy(events, ById), Replay(log, maxSize, last, None), ById);
    }

    method HasEventsAfter(last: int, filter: Option<AccountId>) returns (safe: bool)
      requires Valid()
      ensures safe == RingLog.HasEventsAfter(log, maxSize, last, filter)
    {
      match filter
      case Some(a) =>
        if a !in rings {
          UnknownAccountHasNoRing(log, a, maxSize);
          return false;
        }
        safe := rings[a] != [] && rings[a][0].id <= last;
      case None =>
        safe := NothingStartsAfter(last);
        GapTestOfRings(rings, log, maxSize, last);
    }

    method NothingStartsAfter(last: int) returns (safe: bool)
      ensures safe <==> forall a :: a in rings ==> StartsBy(rings[a], last)
    {
      var todo := rings.Keys;
      while todo != {}
        invariant todo <= rings.Keys
        invariant forall a :: a in rings && a !in todo ==> StartsBy(rings[a], last)
        decreases todo
      {
        var a :| a in todo;
        if !StartsBy(rings[a], last) {
          return false;
        }
        todo := todo - {a};
      }
      safe := true;
    }

    method RegisterWaiter(filter: Option<AccountId>) returns (waiter: Waiter)
      modifies this`waiters
      ensures fresh(waiter) && !waiter.isSet
      ensures Listening(KeyOf(filter)) == old(Listening(KeyOf(filter))) + [waiter]
      ensures forall k :: k != KeyOf(filter) ==> Listening(k) == old(Listening(k))
    {
      waiter := new Waiter();
      var key := KeyOf(filter);
      waiters := waiters[key := Listening(key) + [waiter]];
    }

    method UnregisterWaiter(waiter: Waiter, filter: Option<AccountId>)
      modifies this`waiters
      ensures Listening(KeyOf(filter)) == RemoveFirst(old(Listening(KeyOf(filter))), waiter)
      ensures forall k :: k != KeyOf(filter) ==> Listening(k) == old(Listening(k))
      ensures KeyOf(filter) in waiters ==> waiters[KeyOf(filter)] != []
      ensures forall k, w :: w != waiter ==> (w in Listening(k) <==> w in old(Listening(k)))
    {
      var key := KeyOf(filter);
      OthersStay(Listening(key), waiter);
      var left := RemoveFirst(Listening(key), waiter);
      waiters := if left == [] then waiters - {key} else waiters[key := left];
    }
  }

  function RemoveFirst<T(==)>(s: seq<T>, x: T): seq<T> {
    if s == [] then [] else if s[0] == x then s[1..] else [s[0]] + RemoveFirst(s[1..], x)
  }

  /** Only the first place of `x` is left out; everyone else stays, in order. */
  lemma {:induction false} RemovesOne<T>(s: seq<T>, x: T) returns (i: nat)
    ensures x !in s ==> RemoveFirst(s, x) == s
    ensures x in s ==> i < |s| && s[i] == x && x !in s[..i] && RemoveFirst(s, x) == s[..i] + s[i + 1..]
  {
    i := 0;
    if s != [] && s[0] != x {
      var rest := s[1..];
      assert s == [s[0]] + rest;
      i := RemovesOne(rest, x);
      if x in rest {
        OnePlaceOn(s, i);
        i := i + 1;
      }
    }
  }

  lemma OnePlaceOn<T>(s: seq<T>, i: nat)
    requires i + 1 < |s|
    ensures s[..i + 1] == [s[0]] + s[1..][..i] && s[i + 2..] == s[1..][i + 1..]
  {
  }

  /** So no one else loses a place. */
  lemma {:induction false} OthersStay<T>(s: seq<T>, x: T)
    ensures forall y :: y != x ==> (y in RemoveFirst(s, x) <==> y in s)
  {
    if s != [] && s[0] != x {
      assert s == [s[0]] + s[1..];
      OthersStay(s[1..], x);
    }
  }

  /** The entries of one ring newer than `last`. */
  method Newer(ring: seq<Event>, last: int) returns (events: seq<Event>)
    ensures events == Filter(ring, NewerThan(last))
  {
    events := [];
    for i := 0 to |ring|
      invariant events == Filter(ring[..i], NewerThan(last))
    {
      FilterConcat(ring[..i], [ring[i]], NewerThan(last));
      assert ring[..i + 1] == ring[..i] + [ring[i]];
      if ring[i].id > last {
        events := events + [ring[i]];
      }
    }
    assert ring[..|ring|] == ring;
  }
}
