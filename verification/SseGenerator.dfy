/** The generator behind one stream (src/mail_verdict/api/events.py, `_sse_generator`). It
    suspends only at a `yield` or an `await`; what happens between two suspensions is one
    method here, and one function of the ring's history. */
module SseGenerator {
  import opened Sequences
  import opened RingLog
  import opened EventRing

  datatype Frame = Connected(id: nat) | Resync(id: nat) | Deliver(event: Event) | Ping

  /** Where the generator is suspended. While sending, `lastSeen` is the value the variable of
      that name will have once the queue is out; nothing reads it earlier. */
  datatype Stage =
    | Opened(lastEventId: Option<int>)
    | Sending(queue: seq<Frame>, lastSeen: nat)
    | Waiting(lastSeen: nat)

  /** The Last-Event-ID of a client whose id this ring never issued. */
  const FOREIGN_EVENT_ID: int := -1

  function Frames(events: seq<Event>): (r: seq<Frame>)
    ensures |r| == |events|
    ensures forall i :: 0 <= i < |r| ==> r[i] == Deliver(events[i])
  {
    if events == [] then [] else [Deliver(events[0])] + Frames(events[1..])
  }

  function LastId(events: seq<Event>, otherwise: nat): nat {
    if events == [] then otherwise else events[|events| - 1].id
  }

  /** From the first line to the first suspension: replay, resync or connected. */
  function Begin(log: seq<Event>, max: nat, filter: Option<AccountId>, lastEventId: Option<int>): Stage {
    match lastEventId
    case Some(n) =>
      if 0 <= n <= |log| && RingLog.HasEventsAfter(log, max, n, filter) then
        var missed := Replay(log, max, n, filter);
        Sending(Frames(missed), LastId(missed, n))
      else Sending([Resync(|log|)], |log|)
    case None => Sending([Connected(|log|)], |log|)
  }

  /** The top of the live loop: clear the waiter, then look at the ring. */
  function Look(log: seq<Event>, max: nat, filter: Option<AccountId>, lastSeen: nat): Stage {
    var events := Replay(log, max, lastSeen, filter);
    if events == [] then Waiting(lastSeen) else Sending(Frames(events), LastId(events, lastSeen))
  }

  /** The waiter was set. */
  function Woken(log: seq<Event>, max: nat, filter: Option<AccountId>, lastSeen: nat): Stage {
    var events := Replay(log, max, lastSeen, filter);
    Sending(Frames(events), LastId(events, lastSeen))
  }

  function TimedOut(lastSeen: nat): Stage {
    Sending([Ping], lastSeen)
  }

  class SseGenerator {
    const ring: EventRing
    const filter: Option<AccountId>
    var stage: Stage
    var waiter: Waiter?

    constructor (ring: EventRing, filter: Option<AccountId>, lastEventId: Option<int>)
      ensures this.ring == ring && this.filter == filter && stage == Opened(lastEventId)
    {
      this.ring := ring;
      this.filter := filter;
      stage := Opened(lastEventId);
      waiter := null;
    }

    method Start()
      requires ring.Valid() && stage.Opened?
      modifies this, ring`waiters
      ensures stage == Begin(ring.log, ring.maxSize, filter, old(stage).lastEventId)
      ensures waiter != null && !waiter.isSet && waiter in ring.Listening(KeyOf(filter))
      ensures ring.Valid()
    {
      waiter := ring.RegisterWaiter(filter);
      match stage.lastEventId
      case Some(n) =>
        var replayable := false;
        if 0 <= n <= ring.latestSeq {
          replayable := ring.HasEventsAfter(n, filter);
        }
        if replayable {
          var missed := ring.ReplayFrom(n, filter);
          stage := Sending(Frames(missed), LastId(missed, n));
        } else {
          stage := Sending([Resync(ring.latestSeq)], ring.latestSeq);
        }
      case None =>
        stage := Sending([Connected(ring.latestSeq)], ring.latestSeq);
    }

    method LookAtRing()
      requires ring.Valid() && stage.Sending? && stage.queue == [] && waiter != null
      modifies this`stage, waiter
      ensures !waiter.isSet
      ensures stage == Look(ring.log, ring.maxSize, filter, old(stage).lastSeen)
    {
      waiter.Clear();
      var events := ring.ReplayFrom(stage.lastSeen, filter);
      stage := if events == [] then Waiting(stage.lastSeen)
               else Sending(Frames(events), LastId(events, stage.lastSeen));
    }

    method Wake()
      requires ring.Valid() && stage.Waiting? && waiter != null && waiter.isSet
      modifies this`stage
      ensures stage == Woken(ring.log, ring.maxSize, filter, old(stage).lastSeen)
    {
      var events := ring.ReplayFrom(stage.lastSeen, filter);
      stage := Sending(Frames(events), LastId(events, stage.lastSeen));
    }

    method TimeOut()
      requires stage.Waiting?
      modifies this`stage
      ensures stage == TimedOut(old(stage).lastSeen)
    {
      stage := Sending([Ping], stage.lastSeen);
    }

    method Yield() returns (frame: Frame)
      requires stage.Sending? && stage.queue != []
      modifies this`stage
      ensures stage.Sending? && stage.lastSeen == old(stage).lastSeen
      ensures [frame] + stage.queue == old(stage).queue
    {
      frame := stage.queue[0];
      stage := Sending(stage.queue[1..], stage.lastSeen);
    }

    /** The `finally` clause, whatever ended the stream. */
    method Close()
      requires waiter != null
      modifies ring`waiters
      ensures ring.Listening(KeyOf(filter)) == RemoveFirst<Waiter>(old(ring.Listening(KeyOf(filter))), waiter)
    {
      ring.UnregisterWaiter(waiter, filter);
    }
  }
}
