/** What every run of SseProtocol guarantees its client, and exactly when it does not. */
module SseGuarantees {
  import opened Sequences
  import opened Json
  import opened RingLog
  import opened SseGenerator
  import opened SseProtocol

  // ---------- What had been evicted before a look ----------

  /** The ids after `lastSeen` that the rings have dropped: known before the ring is looked at. */
  function EvictedPast(log: seq<Event>, max: nat, lastSeen: nat): set<nat> {
    set e | e in log && lastSeen < e.id <= DroppedUpTo(log, e.account, max) :: e.id
  }

  /** An entry after the last id seen is either evicted or delivered by an unfiltered look; and an
      evicted one lies before something that is delivered. */
  lemma EvictedOrDelivered(c: Config, log: seq<Event>, lastSeen: nat, e: Event)
    requires Numbered(log) && c.max >= 1 && e in log && e.id > lastSeen
    ensures var events := Replay(log, c.max, lastSeen, None);
            && (e in events <==> e.id > DroppedUpTo(log, e.account, c.max))
            && (e.id <= DroppedUpTo(log, e.account, c.max) ==> e.id <= LastId(events, lastSeen))
  {
    var events := Replay(log, c.max, lastSeen, None);
    ReplayFacts(log, c.max, lastSeen, None);
    RingFacts(log, e.account, c.max);
    if e.id <= DroppedUpTo(log, e.account, c.max) {
      NewerIsRetained(log, e.account, c.max);
      var newer :| newer in log && newer.account == e.account && newer in Ring(log, e.account, c.max)
                   && newer.id > DroppedUpTo(log, e.account, c.max);
      assert newer in events;
      LastIsNewest(events);
    }
  }

  /** What an unfiltered look steps over is exactly what was evicted past the last id seen. */
  lemma SteppedOverIsWhatWasEvicted(c: Config, log: seq<Event>, lastSeen: nat)
    requires Numbered(log) && c.max >= 1 && c.filter.None?
    ensures SteppedOver(log, c.filter, lastSeen, Replay(log, c.max, lastSeen, c.filter))
            == EvictedPast(log, c.max, lastSeen)
  {
    forall e | e in log && e.id > lastSeen
      ensures (e.id <= LastId(Replay(log, c.max, lastSeen, None), lastSeen)
               && e !in Replay(log, c.max, lastSeen, None)) <==> e.id <= DroppedUpTo(log, e.account, c.max)
    {
      EvictedOrDelivered(c, log, lastSeen, e);
      ReplayBounds(Config(c.max, None), log, lastSeen);
    }
  }

  /** Nothing was evicted past the last id seen exactly when no account got more events after it than
      its ring holds. */
  lemma NothingEvictedIff(log: seq<Event>, max: nat, lastSeen: nat)
    requires Numbered(log)
    ensures EvictedPast(log, max, lastSeen) == {} <==>
            forall a :: a in Accounts(log) ==> DroppedUpTo(log, a, max) <= lastSeen
    ensures EvictedPast(log, max, lastSeen) == {} <==>
            forall a :: a in Accounts(log) ==> NewerCount(log, a, lastSeen) <= max
  {
    forall a ensures DroppedUpTo(log, a, max) <= lastSeen <==> NewerCount(log, a, lastSeen) <= max {
      DroppedPastIff(log, a, max, lastSeen);
    }
    DroppedIsInLog(log, max);
    if EvictedPast(log, max, lastSeen) == {} {
      forall a | a in Accounts(log) ensures DroppedUpTo(log, a, max) <= lastSeen {
        if DroppedUpTo(log, a, max) > 0 {
          var e :| e in log && e.account == a && e.id == DroppedUpTo(log, a, max);
          assert lastSeen < e.id ==> e.id in EvictedPast(log, max, lastSeen);
        }
      }
    } else {
      var k :| k in EvictedPast(log, max, lastSeen);
      var e :| e in log && lastSeen < e.id <= DroppedUpTo(log, e.account, max) && e.id == k;
      assert e.account in Accounts(log);
    }
  }

  lemma DroppedIsInLog(log: seq<Event>, max: nat)
    requires Numbered(log)
    ensures forall a :: DroppedUpTo(log, a, max) > 0 ==>
              exists e :: e in log && e.account == a && e.id == DroppedUpTo(log, a, max)
  {
    forall a | DroppedUpTo(log, a, max) > 0
      ensures exists e :: e in log && e.account == a && e.id == DroppedUpTo(log, a, max)
    {
      RingFacts(log, a, max);
    }
  }

  /** A ring that has dropped an entry still holds a newer one. */
  lemma NewerIsRetained(log: seq<Event>, a: AccountId, max: nat)
    requires Numbered(log) && max >= 1 && DroppedUpTo(log, a, max) > 0
    ensures exists e :: e in log && e.account == a && e in Ring(log, a, max) && e.id > DroppedUpTo(log, a, max)
  {
    RingFacts(log, a, max);
    var ring := Ring(log, a, max);
    assert ring[0] in ring;
  }

  // ---------- What the looks of a run found evicted ----------

  predicate Looks(step: Step) {
    step.LookAtRing? || step.Wake?
  }

  function LastSeenAt(s: State): nat
    requires s.stage.Some? && !s.stage.value.Opened?
  {
    s.stage.value.lastSeen
  }

  /** Everything that had been evicted past the last id seen, at any look of the process `epoch`. */
  function EvictedAtLooks(c: Config, s: State, steps: seq<Step>, epoch: nat): set<nat>
    requires Run(c, s, steps).Some?
    decreases |steps|
  {
    if steps == [] then {}
    else
      (if Looks(steps[0]) && s.epoch == epoch then EvictedPast(s.logs[s.epoch], c.max, LastSeenAt(s)) else {})
      + EvictedAtLooks(c, Next(c, s, steps[0]), steps[1..], epoch)
  }

  function SkipsOf(s: State, epoch: nat): set<nat> {
    if epoch in s.skips then s.skips[epoch] else {}
  }

  lemma NextSkips(c: Config, s: State, step: Step, epoch: nat)
    requires c.max >= 1 && c.filter.None? && Inv(c, s) && Enabled(c, s, step)
    ensures SkipsOf(Next(c, s, step), epoch) == SkipsOf(s, epoch) +
            if Looks(step) && s.epoch == epoch then EvictedPast(s.logs[s.epoch], c.max, LastSeenAt(s)) else {}
  {
    if Looks(step) {
      SteppedOverIsWhatWasEvicted(c, s.logs[s.epoch], LastSeenAt(s));
    }
  }

  /** The ids an unfiltered stream stepped over are those its looks found evicted, no fewer and
      no more. */
  lemma {:induction false} SkipsAreEvictions(c: Config, s: State, steps: seq<Step>, epoch: nat)
    requires c.max >= 1 && c.filter.None? && Inv(c, s) && Run(c, s, steps).Some?
    ensures SkipsOf(Run(c, s, steps).value, epoch) == SkipsOf(s, epoch) + EvictedAtLooks(c, s, steps, epoch)
    decreases |steps|
  {
    if steps != [] {
      NextSkips(c, s, steps[0], epoch);
      NextKeepsInv(c, s, steps[0]);
      SkipsAreEvictions(c, Next(c, s, steps[0]), steps[1..], epoch);
    }
  }

  // ---------- What every run guarantees ----------

  lemma ReachedInv(c: Config, steps: seq<Step>, s: State)
    requires c.max >= 1 && Run(c, INITIAL, steps) == Some(s)
    ensures Inv(c, s) && Exact(c, s, s.view)
  {
    RunKeepsInv(c, INITIAL, steps);
    ViewIsExact(c, s);
  }

  /** Over every run an unfiltered page has received, since its last sync frame, exactly the entries
      after that frame's id up to its last id, each once and in order, less those that some look of
      the run found evicted past the last id seen. It has them all if and only if no look had found
      one of them evicted. */
  lemma DeliveryIsExact(c: Config, steps: seq<Step>, s: State)
    requires c.max >= 1 && c.filter.None? && Run(c, INITIAL, steps) == Some(s) && s.view.View?
    ensures var v := s.view;
            var evicted := EvictedAtLooks(c, INITIAL, steps, v.epoch);
            && v.epoch in s.logs && v.base <= v.last <= |s.logs[v.epoch]|
            && v.received == Segment(s.logs[v.epoch], None, v.base, v.last, evicted)
            && Ordered(v.received, ById)
            && (v.received == Segment(s.logs[v.epoch], None, v.base, v.last, {}) <==>
                  forall k :: k in evicted ==> !(v.base < k <= v.last))
  {
    ReachedInv(c, steps, s);
    RunKeepsInv(c, INITIAL, []);
    SkipsAreEvictions(c, INITIAL, steps, s.view.epoch);
    assert SkipsOf(INITIAL, s.view.epoch) == {};
    CompleteIff(s.logs[s.view.epoch], s.view.base, s.view.last, s.skips[s.view.epoch]);
  }

  lemma CompleteIff(log: seq<Event>, lo: nat, hi: nat, skipped: set<nat>)
    requires Numbered(log) && hi <= |log|
    ensures Ordered(Segment(log, None, lo, hi, skipped), ById)
    ensures Segment(log, None, lo, hi, skipped) == Segment(log, None, lo, hi, {}) <==>
            forall k :: k in skipped ==> !(lo < k <= hi)
  {
    SegmentFacts(log, None, lo, hi, skipped);
    SegmentFacts(log, None, lo, hi, {});
    if forall k :: k in skipped ==> !(lo < k <= hi) {
      FilterAgree(log, Wanted(None, lo, hi, skipped), Wanted(None, lo, hi, {}));
    } else {
      var k :| k in skipped && lo < k <= hi;
      IdsAreIndexes(log);
      assert log[k - 1] in log && log[k - 1].id == k;
      assert log[k - 1] in Segment(log, None, lo, hi, {});
    }
  }

  /** The looks of a run are in time while no account got more events after the last id seen than its
      ring holds. */
  ghost predicate InTime(c: Config, s: State, steps: seq<Step>)
    requires Run(c, s, steps).Some?
    decreases |steps|
  {
    steps == [] ||
    (&& (Looks(steps[0]) ==>
           forall a :: a in Accounts(s.logs[s.epoch]) ==> NewerCount(s.logs[s.epoch], a, LastSeenAt(s)) <= c.max)
     && InTime(c, Next(c, s, steps[0]), steps[1..]))
  }

  lemma {:induction false} InTimeNothingIsEvicted(c: Config, s: State, steps: seq<Step>, epoch: nat)
    requires c.max >= 1 && c.filter.None? && Inv(c, s) && Run(c, s, steps).Some? && InTime(c, s, steps)
    ensures EvictedAtLooks(c, s, steps, epoch) == {}
    decreases |steps|
  {
    if steps != [] {
      if Looks(steps[0]) {
        NothingEvictedIff(s.logs[s.epoch], c.max, LastSeenAt(s));
      }
      NextKeepsInv(c, s, steps[0]);
      InTimeNothingIsEvicted(c, Next(c, s, steps[0]), steps[1..], epoch);
    }
  }

  /** While at every look no account got more events after the last id seen than its ring holds, the
      page has received every entry since its last sync frame, once and in order. */
  lemma TimelyDeliveryIsComplete(c: Config, steps: seq<Step>, s: State)
    requires c.max >= 1 && c.filter.None? && Run(c, INITIAL, steps) == Some(s) && s.view.View?
    requires InTime(c, INITIAL, steps)
    ensures s.view.epoch in s.logs
    ensures s.view.received == Segment(s.logs[s.view.epoch], None, s.view.base, s.view.last, {})
  {
    DeliveryIsExact(c, steps, s);
    RunKeepsInv(c, INITIAL, []);
    InTimeNothingIsEvicted(c, INITIAL, steps, s.view.epoch);
  }

  /** An entry of the running process a live look stepped over is one the ring had dropped. */
  lemma OnlyDroppedEntriesAreSkipped(c: Config, s: State, e: Event)
    requires c.max >= 1 && Reachable(c, s)
    requires s.epoch in s.logs && s.epoch in s.skips && e in s.logs[s.epoch] && e.id in s.skips[s.epoch]
    ensures e !in Ring(s.logs[s.epoch], e.account, c.max)
  {
    ReachableInv(c, s);
    IdsAreIndexes(s.logs[s.epoch]);
    assert Lost(c, s.logs[s.epoch], s.logs[s.epoch][e.id - 1]);
  }

  /** A stream filtered to one account never steps over anything. */
  lemma FilteredDeliveryHasNoGap(c: Config, s: State)
    requires c.max >= 1 && Reachable(c, s) && s.view.View? && c.filter.Some?
    ensures s.view.epoch in s.logs
    ensures s.view.received == Segment(s.logs[s.view.epoch], c.filter, s.view.base, s.view.last, {})
  {
    ReachableInv(c, s);
    ViewIsExact(c, s);
  }

  /** A one-account stream whose last seen id lies below everything the account's ring holds: the
      guard of replay_from then refuses to replay. */
  predicate Behind(c: Config, log: seq<Event>, lastSeen: nat) {
    c.filter.Some? && var ring := Ring(log, c.filter.value, c.max); ring != [] && lastSeen < ring[0].id
  }

  lemma EmptyReplayIff(c: Config, log: seq<Event>, lastSeen: nat)
    requires Numbered(log) && c.max >= 1
    requires Replay(log, c.max, lastSeen, c.filter) == []
    ensures (forall e :: e in log && Matches(c.filter, e) ==> e.id <= lastSeen) <==> !Behind(c, log, lastSeen)
  {
    match c.filter
    case None =>
      forall e | e in log ensures e.id <= lastSeen {
        if e.id > lastSeen {
          EvictedOrDelivered(c, log, lastSeen, e);
        }
      }
    case Some(a) =>
      var ring := Ring(log, a, c.max);
      RingFromOldest(log, a, c.max);
      OfAccountFacts(log, a);
      FilterMembers(ring, NewerThan(lastSeen));
      assert ring != [] ==> ring[0] in ring;
  }

  /** A generator asleep with its waiter unset finds nothing to replay; and it has delivered all
      there is for it, unless its stream is one account's and behind that account's ring. */
  lemma NoLostWakeup(c: Config, s: State, lastSeen: nat)
    requires c.max >= 1 && Reachable(c, s)
    requires s.stage == Some(Waiting(lastSeen)) && !s.waiterSet
    ensures s.epoch in s.logs && Replay(s.logs[s.epoch], c.max, lastSeen, c.filter) == []
    ensures (forall e :: e in s.logs[s.epoch] && Matches(c.filter, e) ==> e.id <= lastSeen) <==>
            !Behind(c, s.logs[s.epoch], lastSeen)
  {
    ReachableInv(c, s);
    EmptyReplayIff(c, s.logs[s.epoch], lastSeen);
  }

  /** Once a stream is quiet -- asleep, unset, nothing in flight -- the page stands at the last id
      seen, and has received everything for it since its last sync frame that no look stepped over,
      if and only if the stream is not starving. */
  lemma QuietMeansCaughtUp(c: Config, s: State, lastSeen: nat)
    requires c.max >= 1 && Reachable(c, s)
    requires s.stage == Some(Waiting(lastSeen)) && !s.waiterSet && s.wire == []
    ensures s.epoch in s.logs && s.epoch in s.skips
    ensures s.view.View? && s.view.epoch == s.epoch && s.view.last == lastSeen
    ensures c.filter.Some? ==> s.skips[s.epoch] == {}
    ensures (forall e :: e in s.logs[s.epoch] && Matches(c.filter, e) && e.id > s.view.base ==>
               e in s.view.received || e.id in s.skips[s.epoch]) <==> !Starving(c, s)
  {
    ReachableInv(c, s);
    ViewIsExact(c, s);
    var log := s.logs[s.epoch];
    NoLostWakeup(c, s, lastSeen);
    SegmentFacts(log, c.filter, s.view.base, s.view.last, s.skips[s.epoch]);
    if Behind(c, log, lastSeen) {
      var a := c.filter.value;
      RingFacts(log, a, c.max);
      assert Ring(log, a, c.max)[0] in Ring(log, a, c.max);
    }
  }

  // ---------- What a late look costs ----------

  lemma {:induction false} YieldAll(c: Config, s: State) returns (steps: seq<Step>, t: State)
    requires s.epoch in s.logs && s.epoch in s.skips && s.stage.Some? && s.stage.value.Sending?
    ensures Run(c, s, steps) == Some(t) && forall step :: step in steps ==> step.Yield?
    ensures t == s.(stage := Some(Sending([], s.stage.value.lastSeen)), wire := s.wire + s.stage.value.queue)
    decreases |s.stage.value.queue|
  {
    var queue := s.stage.value.queue;
    if queue == [] {
      steps, t := [], s;
      assert s.wire + [] == s.wire;
    } else {
      var next := Next(c, s, Yield);
      var more;
      more, t := YieldAll(c, next);
      steps := [Yield] + more;
      assert steps[1..] == more;
      assert s.wire + queue == next.wire + queue[1..];
    }
  }

  lemma {:induction false} ReceiveAll(c: Config, s: State) returns (steps: seq<Step>, t: State)
    requires s.epoch in s.logs && s.epoch in s.skips
    ensures Run(c, s, steps) == Some(t) && forall step :: step in steps ==> step.Receive?
    ensures t == s.(wire := [], view := Fold(s.view, s.epoch, s.wire))
    decreases |s.wire|
  {
    if s.wire == [] {
      steps, t := [], s;
    } else {
      var more;
      more, t := ReceiveAll(c, Next(c, s, Receive));
      steps := [Receive] + more;
      assert steps[1..] == more;
    }
  }

  /** Everything queued and in flight reaches the page. */
  lemma Drain(c: Config, s: State) returns (steps: seq<Step>, t: State)
    requires s.epoch in s.logs && s.epoch in s.skips && s.stage.Some? && s.stage.value.Sending?
    ensures Run(c, s, steps) == Some(t) && forall step :: step in steps ==> step.Yield? || step.Receive?
    ensures t == s.(stage := Some(Sending([], s.stage.value.lastSeen)), wire := [],
                    view := Fold(s.view, s.epoch, s.wire + s.stage.value.queue))
  {
    var sent, u := YieldAll(c, s);
    var received;
    received, t := ReceiveAll(c, u);
    steps := sent + received;
    RunConcat(c, s, sent, received);
  }

  lemma {:induction false} FoldConcat(v: View, epoch: nat, a: seq<Frame>, b: seq<Frame>)
    ensures Fold(v, epoch, a + b) == Fold(Fold(v, epoch, a), epoch, b)
    decreases |a|
  {
    if a == [] {
      assert a + b == b;
    } else {
      FoldConcat(Apply(v, epoch, a[0]), epoch, a[1..], b);
      assert (a + b)[1..] == a[1..] + b;
    }
  }

  lemma {:induction false} EventsKeepTheBase(v: View, epoch: nat, events: seq<Event>)
    requires v.View? && v.epoch == epoch
    ensures var end := Fold(v, epoch, Frames(events));
            end.View? && end.epoch == epoch && end.base == v.base && end.last == LastId(events, v.last)
    decreases |events|
  {
    if events != [] {
      assert Frames(events)[1..] == Frames(events[1..]);
      EventsKeepTheBase(Apply(v, epoch, Deliver(events[0])), epoch, events[1..]);
    }
  }

  /** Some account got more events after the last id seen than its ring holds. */
  ghost predicate Late(c: Config, s: State)
    requires s.epoch in s.logs && s.stage.Some? && !s.stage.value.Opened?
  {
    exists a :: a in Accounts(s.logs[s.epoch]) && NewerCount(s.logs[s.epoch], a, LastSeenAt(s)) > c.max
  }

  /** What a look that comes late finds: an evicted entry, before something it delivers. */
  lemma LateLookStepsOver(c: Config, s: State, step: Step) returns (e: Event)
    requires c.max >= 1 && c.filter.None? && Inv(c, s) && Enabled(c, s, step) && Looks(step) && Late(c, s)
    ensures var log := s.logs[s.epoch];
            var events := Replay(log, c.max, LastSeenAt(s), None);
            && e in log && LastSeenAt(s) < e.id <= DroppedUpTo(log, e.account, c.max)
            && e.id in Next(c, s, step).skips[s.epoch] && e.id <= LastId(events, LastSeenAt(s))
            && Next(c, s, step).stage == Some(Sending(Frames(events), LastId(events, LastSeenAt(s))))
  {
    var log := s.logs[s.epoch];
    var a :| a in Accounts(log) && NewerCount(log, a, LastSeenAt(s)) > c.max;
    DroppedPastIff(log, a, c.max, LastSeenAt(s));
    DroppedIsInLog(log, c.max);
    e :| e in log && e.account == a && e.id == DroppedUpTo(log, a, c.max);
    EvictedOrDelivered(c, log, LastSeenAt(s), e);
    SteppedOverIsWhatWasEvicted(c, log, LastSeenAt(s));
  }

  /** Every late look of a live stream loses an entry: once what it found has reached the page, the
      page has gone past that entry, with no sync frame since, and does not have it. */
  lemma LateLookLosesAnEntry(c: Config, s: State, step: Step) returns (e: Event, steps: seq<Step>, t: State)
    requires c.max >= 1 && c.filter.None? && Inv(c, s) && Enabled(c, s, step) && Looks(step) && Late(c, s)
    ensures e in s.logs[s.epoch] && e.id > LastSeenAt(s)
    ensures Run(c, Next(c, s, step), steps) == Some(t)
    ensures forall step :: step in steps ==> step.Yield? || step.Receive?
    ensures t.epoch == s.epoch && t.logs == s.logs && t.wire == [] && t.view.View?
    ensures t.stage == Some(Sending([], t.view.last)) && t.view.last == LastIdAfter(c, s)
    ensures t.view.epoch == s.epoch && t.view.base <= LastSeenAt(s) && e.id <= t.view.last
    ensures e !in t.view.received && e.id in SkipsOf(t, s.epoch)
  {
    e := LateLookStepsOver(c, s, step);
    var log, next := s.logs[s.epoch], Next(c, s, step);
    var events := Replay(log, c.max, LastSeenAt(s), None);
    NextKeepsInv(c, s, step);
    steps, t := Drain(c, next);
    assert s.wire + [] == s.wire;
    FoldIsExact(c, s, s.view, s.wire, LastSeenAt(s));
    FoldConcat(s.view, s.epoch, s.wire, Frames(events));
    EventsKeepTheBase(Fold(s.view, s.epoch, s.wire), s.epoch, events);
    RunKeepsInv(c, next, steps);
    ViewIsExact(c, t);
    SegmentFacts(log, c.filter, t.view.base, t.view.last, t.skips[t.epoch]);
  }

  function LastIdAfter(c: Config, s: State): nat
    requires s.epoch in s.logs && s.stage.Some? && !s.stage.value.Opened?
  {
    LastId(Replay(s.logs[s.epoch], c.max, LastSeenAt(s), None), LastSeenAt(s))
  }

  /** What was stepped over never comes: whatever follows, only a sync frame takes the page past it. */
  lemma LostForGood(c: Config, t: State, more: seq<Step>, e: Event)
    requires c.max >= 1 && c.filter.None? && Inv(c, t) && Run(c, t, more).Some?
    requires e.id in SkipsOf(t, t.epoch)
    ensures var v := Run(c, t, more).value.view;
            v.View? && v.epoch == t.epoch && v.base < e.id ==> e !in v.received
  {
    RunKeepsInv(c, t, more);
    var u := Run(c, t, more).value;
    ViewIsExact(c, u);
    SkipsAreEvictions(c, t, more, t.epoch);
    if u.view.View? {
      SegmentFacts(u.logs[u.view.epoch], c.filter, u.view.base, u.view.last, u.skips[u.view.epoch]);
    }
  }

  // ---------- It happens, whatever the ring's size ----------

  /** A page just connected, `n` events after the process started, and now up to date. */
  function Live(n: nat): State {
    State(0, map[0 := Burst(n)], map[0 := {}], Some(Sending([], n)), false, [], View(0, n, n, []))
  }

  /** `n` events of one account. */
  function Burst(n: nat): (log: seq<Event>)
    ensures |log| == n
    ensures forall i :: 0 <= i < n ==> log[i] == Event(i + 1, "a", "mail.new", JNull)
  {
    if n == 0 then [] else Burst(n - 1) + [Event(n, "a", "mail.new", JNull)]
  }

  predicate HearsTheBurst(c: Config) {
    c.filter.None? || c.filter == Some("a")
  }

  lemma {:induction false} BurstArrives(c: Config, s: State, k: nat, n: nat) returns (steps: seq<Step>)
    requires HearsTheBurst(c) && s.epoch == 0 && s.logs == map[0 := Burst(k)] && 0 in s.skips
    ensures Run(c, s, steps) == Some(s.(logs := map[0 := Burst(k + n)], waiterSet := s.waiterSet || n > 0))
    decreases n
  {
    if n == 0 {
      steps := [];
    } else {
      var before := BurstArrives(c, s, k, n - 1);
      var t := s.(logs := map[0 := Burst(k + n - 1)], waiterSet := s.waiterSet || n > 1);
      var one := [Add("a", "mail.new", JNull)];
      RunOne(c, t, one[0]);
      assert Next(c, t, one[0]).logs == map[0 := Burst(k + n)];
      RunConcat(c, s, before, one);
      steps := before + one;
    }
  }

  lemma RunOne(c: Config, s: State, step: Step)
    requires Enabled(c, s, step)
    ensures Run(c, s, [step]) == Some(Next(c, s, step))
  {
    assert [step][1..] == [];
  }

  lemma BurstCounts(n: nat, last: nat)
    requires last <= n
    ensures Numbered(Burst(n)) && OfAccount(Burst(n), "a") == Burst(n) && NewerCount(Burst(n), "a", last) == n - last
    ensures Accounts(Burst(n)) == if n == 0 then {} else {"a"}
  {
    var log := Burst(n);
    assert n > 0 ==> log[0] in log;
    FilterAll(log, IsOf("a"));
    var k := NewerCount(log, "a", last);
    NewerAreTheLast(log, last);
    assert last < n ==> log[last].id > last;
    assert last > 0 ==> log[last - 1].id <= last;
  }

  /** A page connected to an idle server, and `n` events since then. */
  function LiveBut(n: nat): State {
    Live(0).(logs := map[0 := Burst(n)], waiterSet := true)
  }

  lemma OneTooMany(c: Config) returns (steps: seq<Step>)
    requires c.max >= 1 && c.filter.None?
    ensures Run(c, INITIAL, steps) == Some(LiveBut(c.max + 1)) && Inv(c, LiveBut(c.max + 1))
  {
    var open := [Open, Start, Yield, Receive];
    RunOpening(c, INITIAL, 0);
    var adds := BurstArrives(c, Live(0), 0, c.max + 1);
    RunConcat(c, INITIAL, open, adds);
    steps := open + adds;
    RunKeepsInv(c, INITIAL, steps);
  }

  lemma OneTooManyIsLate(c: Config)
    requires c.max >= 1
    ensures Enabled(c, LiveBut(c.max + 1), LookAtRing) && Late(c, LiveBut(c.max + 1))
  {
    BurstCounts(c.max + 1, 0);
  }

  lemma RunFirst(c: Config, s: State, step: Step, rest: seq<Step>)
    requires Enabled(c, s, step)
    ensures Run(c, s, [step] + rest) == Run(c, Next(c, s, step), rest)
  {
    assert ([step] + rest)[1..] == rest;
  }

  /** Whatever the ring holds, one more event than that between two looks is an event lost for good
      to a live stream, with nothing in flight and no resync to say so. */
  lemma LiveStreamCanLoseAnEvent(max: nat) returns (steps: seq<Step>, s: State, e: Event)
    requires max >= 1
    ensures Run(Config(max, None), INITIAL, steps) == Some(s)
    ensures s.epoch in s.logs && s.logs[s.epoch] == Burst(max + 1) && e in s.logs[s.epoch]
    ensures s.view.View? && s.view.epoch == s.epoch && s.view.base == 0 && e !in s.view.received
    ensures e.id <= s.view.last && s.wire == [] && s.stage == Some(Sending([], s.view.last))
    ensures e.id in SkipsOf(s, s.epoch)
  {
    var c := Config(max, None);
    var before := OneTooMany(c);
    OneTooManyIsLate(c);
    var rest;
    e, rest, s := LateLookLosesAnEntry(c, LiveBut(max + 1), LookAtRing);
    RunFirst(c, LiveBut(max + 1), LookAtRing, rest);
    RunConcat(c, INITIAL, before, [LookAtRing] + rest);
    steps := before + ([LookAtRing] + rest);
  }

  lemma RunOpening(c: Config, s: State, n: nat)
    requires s == State(0, map[0 := Burst(n)], map[0 := {}], None, s.waiterSet, [], NoView)
    ensures Run(c, s, [Open, Start, Yield, Receive]) == Some(Live(n))
  {
    var s1 := s.(stage := Some(Opened(None)));
    var s2 := s.(stage := Some(Sending([Connected(n)], n)), waiterSet := false);
    var s3 := s2.(stage := Some(Sending([], n)), wire := [Connected(n)]);
    assert Next(c, s, Open) == s1 && Next(c, s1, Start) == s2;
    assert [Connected(n)][1..] == [] && [] + [Connected(n)] == [Connected(n)];
    assert Next(c, s2, Yield) == s3 && Next(c, s3, Receive) == s3.(wire := [], view := View(0, n, n, []));
    RunTwo(c, s, [Open, Start]);
    RunTwo(c, s2, [Yield, Receive]);
    RunConcat(c, s, [Open, Start], [Yield, Receive]);
    assert [Open, Start] + [Yield, Receive] == [Open, Start, Yield, Receive];
  }

  lemma RunTwo(c: Config, s: State, steps: seq<Step>)
    requires |steps| == 2 && Enabled(c, s, steps[0]) && Enabled(c, Next(c, s, steps[0]), steps[1])
    ensures Run(c, s, steps) == Some(Next(c, Next(c, s, steps[0]), steps[1]))
  {
    var t := Next(c, s, steps[0]);
    assert Run(c, s, steps) == Run(c, t, steps[1..]);
    assert Run(c, t, steps[1..]) == Run(c, Next(c, t, steps[1]), steps[1..][1..]);
  }

  lemma {:induction false} RunConcat(c: Config, s: State, a: seq<Step>, b: seq<Step>)
    requires Run(c, s, a).Some?
    ensures Run(c, s, a + b) == Run(c, Run(c, s, a).value, b)
    decreases |a|
  {
    if a == [] {
      assert a + b == b;
    } else {
      RunConcat(c, Next(c, s, a[0]), a[1..], b);
      assert (a + b)[1..] == a[1..] + b;
    }
  }

  // ---------- A stream of one account ----------

  /** A live stream that is behind, with nothing but heartbeats still to send. */
  predicate Starving(c: Config, s: State) {
    && s.epoch in s.logs && s.epoch in s.skips && s.stage.Some?
    && (s.stage.value.Waiting? || (s.stage.value.Sending? && forall f :: f in s.stage.value.queue ==> f == Ping))
    && (forall f :: f in s.wire ==> f == Ping)
    && Behind(c, s.logs[s.epoch], s.stage.value.lastSeen)
  }

  predicate KeepsConnection(step: Step) {
    !step.Drop? && !step.Restart?
  }

  /** Once starving, the stream delivers nothing more for as long as the connection lives,
      however many events arrive for its account. */
  lemma {:induction false} StarvingForever(c: Config, s: State, steps: seq<Step>)
    requires c.max >= 1 && Starving(c, s) && Run(c, s, steps).Some?
    requires Numbered(s.logs[s.epoch])
    requires forall step :: step in steps ==> KeepsConnection(step)
    ensures Starving(c, Run(c, s, steps).value) && Run(c, s, steps).value.view == s.view
    decreases |steps|
  {
    if steps != [] {
      assert steps[0] in steps;
      StarvingStep(c, s, steps[0]);
      StarvingForever(c, Next(c, s, steps[0]), steps[1..]);
    }
  }

  lemma StarvingStep(c: Config, s: State, step: Step)
    requires c.max >= 1 && Starving(c, s) && Numbered(s.logs[s.epoch])
    requires Enabled(c, s, step) && KeepsConnection(step)
    ensures var t := Next(c, s, step);
            Starving(c, t) && t.view == s.view && t.epoch == s.epoch && Numbered(t.logs[t.epoch])
  {
    match step
    case Add(account, eventType, data) =>
      var log := s.logs[s.epoch];
      OldestOnlyAdvances(log, Event(|log| + 1, account, eventType, data), c.filter.value, c.max);
    case Receive =>
      assert s.wire[0] in s.wire && forall f :: f in s.wire[1..] ==> f in s.wire;
    case Yield =>
      var queue := s.stage.value.queue;
      assert queue[0] in queue && forall f :: f in queue[1..] ==> f in queue;
    case _ =>
  }

  lemma OldestOnlyAdvances(log: seq<Event>, x: Event, a: AccountId, max: nat)
    requires Numbered(log + [x]) && max >= 1 && Ring(log, a, max) != []
    ensures Ring(log + [x], a, max) != [] && Ring(log + [x], a, max)[0].id >= Ring(log, a, max)[0].id
  {
    assert Numbered(log) by {
      assert forall i :: 0 <= i < |log| ==> (log + [x])[i] == log[i];
    }
    RingAppend(log, x, a, max);
    OldestBounds(log, a, max);
    assert (log + [x])[|log|] == x;
    LastNHead(Ring(log, a, max), x, max);
  }

  lemma OldestBounds(log: seq<Event>, a: AccountId, max: nat)
    requires Numbered(log) && Ring(log, a, max) != []
    ensures Ordered(Ring(log, a, max), ById) && Ring(log, a, max)[0].id <= |log|
  {
    RingFacts(log, a, max);
    IdsAreIndexes(log);
    assert Ring(log, a, max)[0] in Ring(log, a, max);
  }

  lemma LastNHead(ring: seq<Event>, x: Event, max: nat)
    requires ring != [] && Ordered(ring, ById) && x.id >= ring[0].id && max >= 1
    ensures LastN(ring + [x], max) != [] && LastN(ring + [x], max)[0].id >= ring[0].id
  {
    var all := ring + [x];
    forall i | 0 <= i < |all| ensures all[i].id >= ring[0].id {
      assert 0 < i < |ring| ==> ById(ring[0], ring[i]);
    }
  }

  /** Any stream of one account that is live, with nothing to send, before that account's first
      event starves from that event on. */
  lemma FilteredStreamOpenedEarlyStarves(c: Config, s: State, eventType: string, data: Json)
    requires c.max >= 1 && c.filter.Some? && Reachable(c, s) && s.wire == []
    requires s.stage.Some? && (s.stage.value.Waiting? || (s.stage.value.Sending? && s.stage.value.queue == []))
    requires s.epoch in s.logs && OfAccount(s.logs[s.epoch], c.filter.value) == []
    ensures Enabled(c, s, Add(c.filter.value, eventType, data))
    ensures Starving(c, Next(c, s, Add(c.filter.value, eventType, data)))
  {
    ReachableInv(c, s);
    var log := s.logs[s.epoch];
    OfAccountAppend(log, Event(|log| + 1, c.filter.value, eventType, data), c.filter.value);
  }

  /** There are such streams, for every account and any size of ring. */
  lemma FilteredStreamsOpenEarly(max: nat, a: AccountId) returns (steps: seq<Step>)
    ensures Run(Config(max, Some(a)), INITIAL, steps) == Some(Live(0))
    ensures OfAccount(Live(0).logs[Live(0).epoch], a) == []
  {
    steps := [Open, Start, Yield, Receive];
    RunOpening(Config(max, Some(a)), INITIAL, 0);
  }
}
