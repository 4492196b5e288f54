/** What a connected page gets from SseProtocol: every look sends what the ring still holds for it,
    and any connection left to itself comes to rest with all of that delivered. */
module SseLiveness {
  import opened Sequences
  import opened Json
  import opened RingLog
  import opened SseGenerator
  import opened SseProtocol
  import opened SseGuarantees

  // ---------- One look ----------

  /** An entry a look should send: after the last id seen, for this stream, and still in its ring. */
  predicate Due(c: Config, log: seq<Event>, lastSeen: nat, e: Event) {
    e in log && e.id > lastSeen && Matches(c.filter, e) && e in Ring(log, e.account, c.max)
  }

  lemma ReplayIsWhatIsDue(c: Config, log: seq<Event>, lastSeen: nat)
    requires Numbered(log) && c.max >= 1
    ensures Ordered(Replay(log, c.max, lastSeen, c.filter), ById)
    ensures forall e :: e in Replay(log, c.max, lastSeen, c.filter) <==>
              Due(c, log, lastSeen, e) && !Behind(c, log, lastSeen)
  {
    ReplayFacts(log, c.max, lastSeen, c.filter);
    if c.filter.Some? {
      RingFacts(log, c.filter.value, c.max);
      if Ring(log, c.filter.value, c.max) == [] {
        assert forall e :: !Due(c, log, lastSeen, e);
      }
    }
  }

  /** In every reachable state a look queues exactly the entries that are due, each once and in order,
      unless its stream is one account's and behind that account's ring, when it queues none; and
      one that finds none at the top of the loop falls asleep, its waiter unset. */
  lemma LookSendsWhatIsDue(c: Config, s: State, step: Step) returns (events: seq<Event>)
    requires c.max >= 1 && Reachable(c, s) && Enabled(c, s, step) && Looks(step)
    ensures Ordered(events, ById)
    ensures forall e :: e in events <==>
              Due(c, s.logs[s.epoch], LastSeenAt(s), e) && !Behind(c, s.logs[s.epoch], LastSeenAt(s))
    ensures var stage := Next(c, s, step).stage;
            if events == [] && step.LookAtRing?
            then stage == Some(Waiting(LastSeenAt(s))) && !Next(c, s, step).waiterSet
            else
              && stage.Some? && stage.value.Sending? && |stage.value.queue| == |events|
              && (forall i :: 0 <= i < |events| ==> stage.value.queue[i] == Deliver(events[i]))
              && stage.value.lastSeen == if events == [] then LastSeenAt(s) else events[|events| - 1].id
  {
    ReachableInv(c, s);
    ReplayIsWhatIsDue(c, s.logs[s.epoch], LastSeenAt(s));
    events := Replay(s.logs[s.epoch], c.max, LastSeenAt(s), c.filter);
  }

  /** A heartbeat goes out whenever the wait times out, and leaves the page as it was. */
  lemma TimeOutSendsAHeartbeat(c: Config, s: State)
    requires Enabled(c, s, TimeOut)
    ensures Run(c, s, [TimeOut, Yield])
            == Some(s.(wire := s.wire + [Ping], stage := Some(Sending([], LastSeenAt(s)))))
    ensures Apply(s.view, s.epoch, Ping) == s.view
  {
    RunTwo(c, s, [TimeOut, Yield]);
    assert [Ping][1..] == [];
  }

  // ---------- Coming to rest ----------

  /** Asleep, unset, nothing in flight. */
  predicate Quiet(s: State) {
    s.stage.Some? && s.stage.value.Waiting? && !s.waiterSet && s.wire == []
  }

  lemma NothingDueTwice(c: Config, log: seq<Event>, lastSeen: nat)
    requires Numbered(log) && c.max >= 1
    ensures var events := Replay(log, c.max, lastSeen, c.filter);
            lastSeen <= LastId(events, lastSeen) && Replay(log, c.max, LastId(events, lastSeen), c.filter) == []
  {
    var events := Replay(log, c.max, lastSeen, c.filter);
    var hi := LastId(events, lastSeen);
    var again := Replay(log, c.max, hi, c.filter);
    assert (events == [] || events[0] in events) && (again == [] || again[0] in again);
    ReplayBounds(c, log, lastSeen);
    ReplayIsWhatIsDue(c, log, lastSeen);
    ReplayIsWhatIsDue(c, log, hi);
    if events != [] {
      LastIsNewest(events);
      assert forall e :: e in again ==> Due(c, log, lastSeen, e);
    }
  }

  ghost predicate OnlySends(steps: seq<Step>) {
    forall step :: step in steps ==> step.Yield? || step.Receive? || step.LookAtRing?
  }

  /** Between two looks with everything sent so far received. */
  predicate Drained(s: State) {
    && s.stage.Some? && s.stage.value.Sending? && s.stage.value.queue == [] && s.wire == []
    && s.view.View? && s.view.epoch == s.epoch && s.view.base <= s.view.last == s.stage.value.lastSeen
  }

  lemma DrainsTo(c: Config, s: State) returns (steps: seq<Step>, t: State)
    requires c.max >= 1 && Inv(c, s) && s.stage.Some? && s.stage.value.Sending?
    ensures Run(c, s, steps) == Some(t) && OnlySends(steps) && Inv(c, t)
    ensures Drained(t) && LastSeenAt(t) == LastSeenAt(s) && t.epoch == s.epoch && t.logs == s.logs
    ensures t.view == Fold(s.view, s.epoch, s.wire + s.stage.value.queue)
  {
    steps, t := Drain(c, s);
    RunKeepsInv(c, s, steps);
    ViewIsExact(c, t);
    assert t.wire + [] == [];
  }

  /** One look of a drained stream, and what it found received: nothing is due any more. */
  lemma LooksAndDrains(c: Config, u: State) returns (steps: seq<Step>, v: State)
    requires c.max >= 1 && Inv(c, u) && Drained(u)
    ensures Run(c, u, steps) == Some(v) && OnlySends(steps) && Inv(c, v) && Drained(v)
    ensures v.epoch == u.epoch && v.logs == u.logs && v.view.base == u.view.base && u.view.last <= v.view.last
    ensures Replay(v.logs[v.epoch], c.max, v.view.last, c.filter) == []
  {
    var events := Replay(u.logs[u.epoch], c.max, u.view.last, c.filter);
    NothingDueTwice(c, u.logs[u.epoch], u.view.last);
    if events == [] {
      steps, v := [], u;
    } else {
      var looked := Next(c, u, LookAtRing);
      RunOne(c, u, LookAtRing);
      NextKeepsInv(c, u, LookAtRing);
      var rest;
      rest, v := DrainsTo(c, looked);
      RunConcat(c, u, [LookAtRing], rest);
      steps := [LookAtRing] + rest;
      assert looked.wire + Frames(events) == Frames(events);
      EventsKeepTheBase(u.view, u.epoch, events);
    }
  }

  lemma FallsAsleep(c: Config, v: State)
    requires c.max >= 1 && Inv(c, v) && Drained(v)
    requires Replay(v.logs[v.epoch], c.max, v.view.last, c.filter) == []
    ensures Enabled(c, v, LookAtRing)
    ensures var t := Next(c, v, LookAtRing);
            Inv(c, t) && Quiet(t) && t.epoch == v.epoch && t.logs == v.logs && t.view == v.view
            && LastSeenAt(t) == v.view.last
  {
    NextKeepsInv(c, v, LookAtRing);
  }

  /** From any state of a run in which the generator is sending, it comes to rest by sending,
      receiving and looking alone, with the page at the last id seen. */
  lemma SendingComesToRest(c: Config, s: State) returns (steps: seq<Step>, t: State)
    requires c.max >= 1 && Inv(c, s) && s.stage.Some? && s.stage.value.Sending?
    ensures Run(c, s, steps) == Some(t) && OnlySends(steps) && Inv(c, t)
    ensures Quiet(t) && t.epoch == s.epoch && t.logs == s.logs
    ensures t.view.View? && t.view.base <= LastSeenAt(s) <= t.view.last == LastSeenAt(t)
  {
    var first, u := DrainsTo(c, s);
    var second, v := LooksAndDrains(c, u);
    FallsAsleep(c, v);
    t := Next(c, v, LookAtRing);
    RunOne(c, v, LookAtRing);
    RunConcat(c, u, second, [LookAtRing]);
    RunConcat(c, s, first, second + [LookAtRing]);
    steps := first + (second + [LookAtRing]);
  }

  /** What a connection does of its own: everything but dropping. */
  ghost predicate OfTheConnection(steps: seq<Step>) {
    forall step :: step in steps ==>
      step.Start? || step.Wake? || step.Yield? || step.Receive? || step.LookAtRing?
  }

  /** The first step towards rest, unless the generator is sending or asleep already. */
  lemma BeginsSending(c: Config, s: State) returns (steps: seq<Step>, t: State)
    requires c.max >= 1 && Inv(c, s) && s.stage.Some? && (s.stage.value.Waiting? ==> s.waiterSet)
    ensures Run(c, s, steps) == Some(t) && OfTheConnection(steps) && Inv(c, t)
    ensures t.stage.Some? && t.stage.value.Sending? && t.epoch == s.epoch && t.logs == s.logs
  {
    if s.stage.value.Sending? {
      steps, t := [], s;
    } else {
      var step := if s.stage.value.Opened? then Start else Wake;
      RunOne(c, s, step);
      NextKeepsInv(c, s, step);
      steps, t := [step], Next(c, s, step);
    }
  }

  /** Any connection, left to itself, comes to rest; and the page has then received every entry for it
      since its last sync frame that no look stepped over, if and only if the stream is not starving. */
  lemma ConnectionsComeToRest(c: Config, s: State) returns (steps: seq<Step>, t: State)
    requires c.max >= 1 && Reachable(c, s) && s.stage.Some?
    ensures Run(c, s, steps) == Some(t) && OfTheConnection(steps) && Reachable(c, t)
    ensures Quiet(t) && t.epoch == s.epoch && t.logs == s.logs
    ensures s.epoch in t.logs && s.epoch in t.skips
    ensures t.view.View? && t.view.epoch == s.epoch && t.view.last == LastSeenAt(t)
    ensures (forall e :: e in t.logs[s.epoch] && Matches(c.filter, e) && e.id > t.view.base ==>
               e in t.view.received || e.id in t.skips[s.epoch]) <==> !Starving(c, t)
  {
    ReachableInv(c, s);
    if s.stage.value.Waiting? && !s.waiterSet {
      steps, t := ReceiveAll(c, s);
    } else {
      var first, u := BeginsSending(c, s);
      var second;
      second, t := SendingComesToRest(c, u);
      RunConcat(c, s, first, second);
      steps := first + second;
    }
    ReachesFurther(c, s, steps, t);
    QuietMeansCaughtUp(c, t, LastSeenAt(t));
  }

  lemma ReachesFurther(c: Config, s: State, steps: seq<Step>, t: State)
    requires Reachable(c, s) && Run(c, s, steps) == Some(t)
    ensures Reachable(c, t)
  {
    var before :| Run(c, INITIAL, before) == Some(s);
    RunConcat(c, INITIAL, before, steps);
  }

  /** In any reachable state of a sending stream, an entry that is due and not behind reaches the page
      by sending, receiving and looking alone. */
  lemma WhatIsDueArrives(c: Config, s: State, e: Event) returns (steps: seq<Step>, t: State)
    requires c.max >= 1 && Reachable(c, s) && s.stage.Some? && s.stage.value.Sending?
    requires s.epoch in s.logs && Due(c, s.logs[s.epoch], LastSeenAt(s), e)
    requires !Behind(c, s.logs[s.epoch], LastSeenAt(s))
    ensures Run(c, s, steps) == Some(t) && OnlySends(steps) && Quiet(t) && t.logs == s.logs
    ensures t.view.View? && t.view.epoch == s.epoch && e in t.view.received
  {
    ReachableInv(c, s);
    steps, t := SendingComesToRest(c, s);
    ReachesFurther(c, s, steps, t);
    QuietMeansCaughtUp(c, t, LastSeenAt(t));
    if e.id in t.skips[t.epoch] {
      OnlyDroppedEntriesAreSkipped(c, t, e);
    }
  }
}
