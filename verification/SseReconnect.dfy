/** What a client that comes back is first sent (src/mail_verdict/api/events.py, `_sse_generator`, up
    to its live loop), and exactly when that is what it missed. */
module SseReconnect {
  import opened Sequences
  import opened RingLog
  import opened SseGenerator
  import opened SseProtocol
  import opened SseGuarantees

  /** The generator about to send everything after `last`. */
  function CatchUp(c: Config, log: seq<Event>, last: nat): Stage {
    var missed := Segment(log, c.filter, last, |log|, {});
    Sending(Frames(missed), LastId(missed, last))
  }

  /** The generator about to tell the page to start over. */
  function StartOver(log: seq<Event>): Stage {
    Sending([Resync(|log|)], |log|)
  }

  lemma CatchUpIsNoResync(c: Config, log: seq<Event>, last: nat)
    ensures CatchUp(c, log, last) != StartOver(log)
  {
    var frames := Frames(Segment(log, c.filter, last, |log|, {}));
    assert frames == [] || frames[0].Deliver?;
  }

  /** The page was served by the running process, and every account its stream is about keeps an
      entry at or before the last id it received. */
  ghost predicate CanCatchUp(c: Config, s: State)
    requires s.epoch in s.logs && s.view.View?
  {
    && s.view.epoch == s.epoch
    && forall a :: a in Concerned(s.logs[s.epoch], c.filter) ==> KeepsOneBy(s.logs[s.epoch], a, c.max, s.view.last)
  }

  /** In every reachable state a client that comes back is sent everything it missed, and no sync
      frame, if and only if it can catch up; otherwise it is sent a sync frame alone. */
  lemma ReconnectCatchesUpOrResyncs(c: Config, s: State)
    requires c.max >= 1 && Reachable(c, s) && Enabled(c, s, Start)
    ensures var log, first := s.logs[s.epoch], Next(c, s, Start).stage;
            match s.view
            case NoView => first == Some(Sending([Connected(|log|)], |log|))
            case View(_, _, last, _) =>
              && (first == Some(CatchUp(c, log, last)) <==> CanCatchUp(c, s))
              && (first == Some(StartOver(log)) <==> !CanCatchUp(c, s))
  {
    ReachableInv(c, s);
    if s.view.View? {
      var log, last := s.logs[s.epoch], s.view.last;
      GapTestIff(log, c.max, last, c.filter);
      CatchUpIsNoResync(c, log, last);
      if CanCatchUp(c, s) {
        GapTestIsSound(log, c.max, last, c.filter);
      }
    }
  }

  /** A client of the running process is told to start over, although all it missed is still in the
      rings, exactly when no account of its stream got more events since than its ring holds, and
      one of them got exactly as many, or had none before. */
  lemma NeedlessResyncIff(c: Config, s: State)
    requires c.max >= 1 && Reachable(c, s) && Enabled(c, s, Start)
    requires s.view.View? && s.view.epoch == s.epoch
    ensures var log, last := s.logs[s.epoch], s.view.last;
            && Next(c, s, Start).stage == Some(StartOver(log))
            && AllRetained(log, c.max, last, c.filter) <==>
            && (forall a :: a in Concerned(log, c.filter) ==> NewerCount(log, a, last) <= c.max)
            && (exists a :: a in Concerned(log, c.filter) &&
                  (NewerCount(log, a, last) == c.max || NewerCount(log, a, last) == |OfAccount(log, a)|))
  {
    ReachableInv(c, s);
    ReconnectCatchesUpOrResyncs(c, s);
    GapTestIff(s.logs[s.epoch], c.max, s.view.last, c.filter);
    RefusedThoughRetainedIff(s.logs[s.epoch], c.max, s.view.last, c.filter);
  }

  // ---------- The id of `connected` does not make every gap replayable ----------

  /** A page that connected `k` events after the process started, received nothing but `connected`,
      and comes back `n` events later. */
  function BackAfter(k: nat, n: nat): State {
    State(0, map[0 := Burst(k + n)], map[0 := {}], Some(Opened(Some(k))), n > 0, [], View(0, k, k, []))
  }

  lemma ConnectsAndGoes(c: Config, k: nat) returns (steps: seq<Step>)
    requires HearsTheBurst(c)
    ensures Run(c, INITIAL, steps) == Some(Live(k).(stage := None))
  {
    var before := BurstArrives(c, INITIAL, 0, k);
    var open := [Open, Start, Yield, Receive];
    RunOpening(c, INITIAL.(logs := map[0 := Burst(k)], waiterSet := k > 0), k);
    RunConcat(c, INITIAL, before, open);
    RunOne(c, Live(k), Drop);
    RunConcat(c, INITIAL, before + open, [Drop]);
    steps := before + open + [Drop];
  }

  lemma BackAfterIsReached(c: Config, k: nat, n: nat) returns (steps: seq<Step>)
    requires HearsTheBurst(c)
    ensures Run(c, INITIAL, steps) == Some(BackAfter(k, n))
  {
    var before := ConnectsAndGoes(c, k);
    var gone := Live(k).(stage := None);
    var after := BurstArrives(c, gone, k, n);
    RunConcat(c, INITIAL, before, after);
    var missed := gone.(logs := map[0 := Burst(k + n)], waiterSet := n > 0);
    assert Next(c, missed, Open) == BackAfter(k, n);
    RunOne(c, missed, Open);
    RunConcat(c, INITIAL, before + after, [Open]);
    steps := before + after + [Open];
  }

  lemma BurstConcerns(c: Config, k: nat, n: nat)
    requires HearsTheBurst(c) && n >= 1
    ensures var log := Burst(k + n);
            && "a" in Concerned(log, c.filter)
            && forall a :: a in Concerned(log, c.filter) ==>
                 NewerCount(log, a, k) == n && |OfAccount(log, a)| == k + n
  {
    BurstCounts(k + n, k);
  }

  /** Such a page is told to start over although all it missed is retained exactly when the events
      it missed are no more than the ring holds, and as many, or the first of their account; whatever
      the size of the ring, and for the stream of that account as for that of all. */
  lemma ConnectedIdIsNotAlwaysReplayable(c: Config, k: nat, n: nat) returns (steps: seq<Step>)
    requires c.max >= 1 && HearsTheBurst(c) && n >= 1
    ensures Run(c, INITIAL, steps) == Some(BackAfter(k, n)) && Enabled(c, BackAfter(k, n), Start)
    ensures && Next(c, BackAfter(k, n), Start).stage == Some(StartOver(Burst(k + n)))
            && AllRetained(Burst(k + n), c.max, k, c.filter) <==>
            n <= c.max && (n == c.max || k == 0)
  {
    steps := BackAfterIsReached(c, k, n);
    assert Reachable(c, BackAfter(k, n));
    NeedlessResyncIff(c, BackAfter(k, n));
    BurstConcerns(c, k, n);
  }
}
