/** One client of the event stream over its whole life: arrivals, the generator's turns,
    frames in flight, lost connections, reconnects with the last id received, and process
    restarts under a fresh epoch, in any interleaving. */
module SseProtocol {
  import opened Sequences
  import opened Json
  import opened RingLog
  import opened SseGenerator

  /** The ring size and the stream's account filter. The server builds its ring with 500. */
  datatype Config = Config(max: nat, filter: Option<AccountId>)

  /** What the page knows: the epoch and id of the last `connected` or `resync` it received,
      the last id received, and the events received since. */
  datatype View =
    | NoView
    | View(epoch: nat, base: nat, last: nat, received: seq<Event>)

  /** Every process has an epoch and a log; the last one is the running one. `skips` is
      history: the ids a live look stepped over because the ring had already dropped them. */
  datatype State = State(
    epoch: nat,
    logs: map<nat, seq<Event>>,
    skips: map<nat, set<nat>>,
    stage: Option<Stage>,
    waiterSet: bool,
    wire: seq<Frame>,
    view: View)

  datatype Step =
    | Add(account: AccountId, eventType: string, data: Json)
    | Open
    | Start
    | LookAtRing
    | Wake
    | TimeOut
    | Yield
    | Receive
    | Drop
    | Reload
    | Restart(newEpoch: nat)

  const INITIAL := State(0, map[0 := []], map[0 := {}], None, false, [], NoView)

  /** The client's Last-Event-ID as `sse_endpoint` parses it. */
  function Presented(v: View, epoch: nat): Option<int> {
    match v
    case NoView => None
    case View(e, _, last, _) => Some(if e == epoch then last else FOREIGN_EVENT_ID)
  }

  function Apply(v: View, epoch: nat, f: Frame): View {
    match f
    case Connected(id) => View(epoch, id, id, [])
    case Resync(id) => View(epoch, id, id, [])
    case Deliver(e) => if v.View? then View(epoch, v.base, e.id, v.received + [e]) else v
    case Ping => v
  }

  function SteppedOver(log: seq<Event>, filter: Option<AccountId>, lastSeen: nat, events: seq<Event>): set<nat> {
    set e | e in log && lastSeen < e.id <= LastId(events, lastSeen) && Matches(filter, e) && e !in events :: e.id
  }

  predicate Enabled(c: Config, s: State, step: Step) {
    s.epoch in s.logs && s.epoch in s.skips &&
    match step
    case Add(_, _, _) => true
    case Open => s.stage.None?
    case Start => s.stage.Some? && s.stage.value.Opened?
    case LookAtRing => s.stage.Some? && s.stage.value.Sending? && s.stage.value.queue == []
    case Wake => s.stage.Some? && s.stage.value.Waiting? && s.waiterSet
    case TimeOut => s.stage.Some? && s.stage.value.Waiting?
    case Yield => s.stage.Some? && s.stage.value.Sending? && s.stage.value.queue != []
    case Receive => s.wire != []
    case Drop => s.stage.Some?
    case Reload => s.stage.None?
    case Restart(newEpoch) => newEpoch !in s.logs
  }

  function Next(c: Config, s: State, step: Step): State
    requires Enabled(c, s, step)
  {
    var log := s.logs[s.epoch];
    match step
    case Add(account, eventType, data) =>
      var e := Event(|log| + 1, account, eventType, data);
      s.(logs := s.logs[s.epoch := log + [e]], waiterSet := s.waiterSet || Matches(c.filter, e))
    case Open => s.(stage := Some(Opened(Presented(s.view, s.epoch))))
    case Start => s.(stage := Some(Begin(log, c.max, c.filter, s.stage.value.lastEventId)), waiterSet := false)
    case LookAtRing =>
      var lastSeen := s.stage.value.lastSeen;
      s.(stage := Some(Look(log, c.max, c.filter, lastSeen)), waiterSet := false,
         skips := NoteSkips(c, s, lastSeen))
    case Wake =>
      var lastSeen := s.stage.value.lastSeen;
      s.(stage := Some(Woken(log, c.max, c.filter, lastSeen)), skips := NoteSkips(c, s, lastSeen))
    case TimeOut => s.(stage := Some(TimedOut(s.stage.value.lastSeen)))
    case Yield =>
      var queue := s.stage.value.queue;
      s.(wire := s.wire + [queue[0]], stage := Some(Sending(queue[1..], s.stage.value.lastSeen)))
    case Receive => s.(view := Apply(s.view, s.epoch, s.wire[0]), wire := s.wire[1..])
    case Drop => s.(stage := None, wire := [])
    case Reload => s.(view := NoView)
    case Restart(newEpoch) =>
      s.(epoch := newEpoch, logs := s.logs[newEpoch := []], skips := s.skips[newEpoch := {}],
         stage := None, wire := [])
  }

  function NoteSkips(c: Config, s: State, lastSeen: nat): map<nat, set<nat>>
    requires s.epoch in s.logs && s.epoch in s.skips
  {
    var log := s.logs[s.epoch];
    s.skips[s.epoch := s.skips[s.epoch] + SteppedOver(log, c.filter, lastSeen, Replay(log, c.max, lastSeen, c.filter))]
  }

  /** The state after a run, if every step of it was enabled. */
  function Run(c: Config, s: State, steps: seq<Step>): Option<State>
    decreases |steps|
  {
    if steps == [] then Some(s)
    else if Enabled(c, s, steps[0]) then Run(c, Next(c, s, steps[0]), steps[1..])
    else None
  }

  ghost predicate Reachable(c: Config, s: State) {
    exists steps :: Run(c, INITIAL, steps) == Some(s)
  }

  // ---------- The invariant ----------

  /** The page received exactly the entries of the segment it claims to have covered, once
      and in order, less those stepped over. */
  ghost predicate Exact(c: Config, s: State, v: View) {
    v.View? ==>
      && v.epoch in s.logs && v.epoch in s.skips
      && v.base <= v.last <= |s.logs[v.epoch]|
      && v.received == Segment(s.logs[v.epoch], c.filter, v.base, v.last, s.skips[v.epoch])
  }

  predicate Within(s: State, v: View, hi: nat) {
    v.View? && v.epoch == s.epoch ==> v.last <= hi
  }

  /** Exact now, and after each of the frames still to come. */
  ghost predicate StaysExact(c: Config, s: State, v: View, frames: seq<Frame>, hi: nat)
    decreases |frames|
  {
    Exact(c, s, v) && Within(s, v, hi) &&
    (frames != [] ==> StaysExact(c, s, Apply(v, s.epoch, frames[0]), frames[1..], hi))
  }

  function Fold(v: View, epoch: nat, frames: seq<Frame>): View
    decreases |frames|
  {
    if frames == [] then v else Fold(Apply(v, epoch, frames[0]), epoch, frames[1..])
  }

  ghost predicate LogsOk(c: Config, s: State) {
    && s.epoch in s.logs && s.logs.Keys == s.skips.Keys
    && (forall e :: e in s.logs ==> Numbered(s.logs[e]))
    && (forall k :: k in s.skips[s.epoch] ==>
          1 <= k <= |s.logs[s.epoch]| && Lost(c, s.logs[s.epoch], s.logs[s.epoch][k - 1]))
    && (c.filter.Some? ==> forall e :: e in s.skips ==> s.skips[e] == {})
  }

  ghost predicate Lost(c: Config, log: seq<Event>, e: Event) {
    e !in Ring(log, e.account, c.max)
  }

  ghost predicate StageOk(c: Config, s: State)
    requires s.epoch in s.logs
  {
    var log := s.logs[s.epoch];
    match s.stage
    case None => s.wire == [] && Exact(c, s, s.view)
    case Some(Opened(last)) =>
      s.wire == [] && Exact(c, s, s.view) && last == Presented(s.view, s.epoch)
    case Some(Sending(queue, lastSeen)) => InFlight(c, s, s.wire + queue, lastSeen)
    case Some(Waiting(lastSeen)) =>
      && InFlight(c, s, s.wire, lastSeen)
      && (!s.waiterSet ==> Replay(log, c.max, lastSeen, c.filter) == [])
  }

  ghost predicate InFlight(c: Config, s: State, frames: seq<Frame>, lastSeen: nat)
    requires s.epoch in s.logs
  {
    && lastSeen <= |s.logs[s.epoch]|
    && StaysExact(c, s, s.view, frames, lastSeen)
    && var end := Fold(s.view, s.epoch, frames);
       end.View? && end.epoch == s.epoch && end.last == lastSeen
  }

  ghost predicate Inv(c: Config, s: State) {
    LogsOk(c, s) && StageOk(c, s)
  }

  // ---------- Segments ----------

  lemma SegmentSplit(log: seq<Event>, filter: Option<AccountId>, lo: nat, mid: nat, hi: nat, skipped: set<nat>)
    requires Numbered(log) && lo <= mid <= hi
    ensures Segment(log, filter, lo, hi, skipped) ==
            Segment(log, filter, lo, mid, skipped) + Segment(log, filter, mid, hi, skipped)
  {
    SegmentFacts(log, filter, lo, mid, skipped);
    SegmentFacts(log, filter, mid, hi, skipped);
    SegmentFacts(log, filter, lo, hi, skipped);
    ByIdIsAnOrder();
    var a, b := Segment(log, filter, lo, mid, skipped), Segment(log, filter, mid, hi, skipped);
    forall i, j | 0 <= i < j < |a + b| ensures ById((a + b)[i], (a + b)[j]) {
      if i < |a| <= j {
        assert a[i] in a && b[j - |a|] in b;
      }
    }
    assert forall e :: e in a + b <==> e in a || e in b;
    OrderedUnique(Segment(log, filter, lo, hi, skipped), a + b, ById);
  }

  /** A nonempty segment starts with its first entry, and the rest starts after that. */
  lemma SegmentHead(log: seq<Event>, filter: Option<AccountId>, lo: nat, hi: nat, skipped: set<nat>)
    requires Numbered(log) && Segment(log, filter, lo, hi, skipped) != []
    ensures var all := Segment(log, filter, lo, hi, skipped);
            && lo < all[0].id <= hi
            && Segment(log, filter, lo, all[0].id, skipped) == [all[0]]
            && Segment(log, filter, all[0].id, hi, skipped) == all[1..]
  {
    var all := Segment(log, filter, lo, hi, skipped);
    SegmentFacts(log, filter, lo, hi, skipped);
    ByIdIsAnOrder();
    assert all[0] in all;
    HeadSplits(all, ById);
    var mid := all[0].id;
    SegmentFacts(log, filter, lo, mid, skipped);
    SegmentFacts(log, filter, mid, hi, skipped);
    forall e | e in log && e.id == mid ensures e == all[0] {
      var i :| 0 <= i < |log| && log[i] == e;
      var j :| 0 <= j < |log| && log[j] == all[0];
    }
    OrderedUnique(Segment(log, filter, lo, mid, skipped), [all[0]], ById);
    OrderedUnique(Segment(log, filter, mid, hi, skipped), all[1..], ById);
  }

  lemma SegmentSameSkips(log: seq<Event>, filter: Option<AccountId>, lo: nat, hi: nat, a: set<nat>, b: set<nat>)
    requires forall k: nat :: lo < k <= hi ==> (k in a <==> k in b)
    ensures Segment(log, filter, lo, hi, a) == Segment(log, filter, lo, hi, b)
  {
    FilterAgree(log, Wanted(filter, lo, hi, a), Wanted(filter, lo, hi, b));
  }

  lemma ReplayBounds(c: Config, log: seq<Event>, lastSeen: nat)
    requires Numbered(log)
    ensures var events := Replay(log, c.max, lastSeen, c.filter);
            var hi := LastId(events, lastSeen);
            && lastSeen <= hi && (events != [] ==> hi <= |log|)
            && (forall e :: e in events ==> lastSeen < e.id <= hi)
  {
    ReplayFacts(log, c.max, lastSeen, c.filter);
    IdsAreIndexes(log);
    LastIsNewest(Replay(log, c.max, lastSeen, c.filter));
  }

  lemma LastIsNewest(events: seq<Event>)
    requires Ordered(events, ById)
    ensures forall e :: e in events ==> events[|events| - 1] in events && e.id <= events[|events| - 1].id
  {
    forall e | e in events ensures events[|events| - 1] in events && e.id <= events[|events| - 1].id {
      var i :| 0 <= i < |events| && events[i] == e;
      assert i < |events| - 1 ==> ById(events[i], events[|events| - 1]);
    }
  }

  /** The ids a live look steps over are ids the ring has dropped; a filtered look has none. */
  lemma SteppedOverIsLost(c: Config, log: seq<Event>, lastSeen: nat)
    requires Numbered(log) && c.max >= 1
    ensures var over := SteppedOver(log, c.filter, lastSeen, Replay(log, c.max, lastSeen, c.filter));
            && (forall k :: k in over ==> lastSeen < k && 1 <= k <= |log| && Lost(c, log, log[k - 1]))
            && (c.filter.Some? ==> over == {})
  {
    var events := Replay(log, c.max, lastSeen, c.filter);
    ReplayFacts(log, c.max, lastSeen, c.filter);
    IdsAreIndexes(log);
    if c.filter.Some? {
      RingFromOldest(log, c.filter.value, c.max);
    }
  }

  /** What a live look delivers is the segment up to its last id, less the ids stepped over. */
  lemma ReplayIsSegment(c: Config, log: seq<Event>, lastSeen: nat, skipped: set<nat>)
    requires Numbered(log)
    requires forall k :: k in skipped ==> 1 <= k <= |log| && Lost(c, log, log[k - 1])
    ensures var events := Replay(log, c.max, lastSeen, c.filter);
            var over := SteppedOver(log, c.filter, lastSeen, events);
            events == Segment(log, c.filter, lastSeen, LastId(events, lastSeen), skipped + over)
  {
    ReplayBounds(c, log, lastSeen);
    ReplayFacts(log, c.max, lastSeen, c.filter);
    LessSteppedOver(c, log, lastSeen, Replay(log, c.max, lastSeen, c.filter), skipped);
  }

  lemma LessSteppedOver(c: Config, log: seq<Event>, lastSeen: nat, events: seq<Event>, skipped: set<nat>)
    requires Numbered(log) && Ordered(events, ById)
    requires forall k :: k in skipped ==> 1 <= k <= |log| && Lost(c, log, log[k - 1])
    requires forall e :: e in events ==>
               e in log && lastSeen < e.id <= LastId(events, lastSeen) && Matches(c.filter, e) && !Lost(c, log, e)
    ensures events == Segment(log, c.filter, lastSeen, LastId(events, lastSeen),
                              skipped + SteppedOver(log, c.filter, lastSeen, events))
  {
    var hi := LastId(events, lastSeen);
    var over := SteppedOver(log, c.filter, lastSeen, events);
    var expected := Segment(log, c.filter, lastSeen, hi, skipped + over);
    SegmentFacts(log, c.filter, lastSeen, hi, skipped + over);
    forall e | e in events ensures e in expected {
      IdsAreIndexes(log);
      assert log[e.id - 1] == e && e.id !in skipped && e.id !in over;
    }
    forall e | e in expected ensures e in events {
      assert e.id !in over;
    }
    ByIdIsAnOrder();
    OrderedUnique(events, expected, ById);
  }

  lemma IdsAreIndexes(log: seq<Event>)
    requires Numbered(log)
    ensures forall e :: e in log ==> 1 <= e.id <= |log| && log[e.id - 1] == e
  {
    forall e | e in log ensures 1 <= e.id <= |log| && log[e.id - 1] == e {
      var i :| 0 <= i < |log| && log[i] == e;
    }
  }

  // ---------- Frames still to come ----------

  lemma {:induction false} StaysExactAppend(c: Config, s: State, v: View, a: seq<Frame>, b: seq<Frame>,
                                            lo: nat, hi: nat)
    requires StaysExact(c, s, v, a, lo) && lo <= hi
    requires StaysExact(c, s, Fold(v, s.epoch, a), b, hi)
    ensures StaysExact(c, s, v, a + b, hi)
    ensures Fold(v, s.epoch, a + b) == Fold(Fold(v, s.epoch, a), s.epoch, b)
    decreases |a|
  {
    if a == [] {
      assert a + b == b;
    } else {
      StaysExactAppend(c, s, Apply(v, s.epoch, a[0]), a[1..], b, lo, hi);
      assert (a + b)[1..] == a[1..] + b;
    }
  }

  /** The log growing, or ids above `hi` being noted as skipped, takes nothing back. */
  ghost predicate Extends(s: State, t: State, hi: nat) {
    && t.epoch == s.epoch && s.epoch in s.logs && s.epoch in s.skips
    && t.logs.Keys == s.logs.Keys && t.skips.Keys == s.skips.Keys
    && (forall e :: e in s.logs && e != s.epoch ==> t.logs[e] == s.logs[e])
    && (forall e :: e in s.skips && e != s.epoch ==> t.skips[e] == s.skips[e])
    && Numbered(t.logs[s.epoch])
    && (t.logs[s.epoch] == s.logs[s.epoch] || exists x :: t.logs[s.epoch] == s.logs[s.epoch] + [x])
    && (forall k: nat :: k <= hi ==> (k in t.skips[s.epoch] <==> k in s.skips[s.epoch]))
  }

  lemma ExactExtends(c: Config, s: State, t: State, v: View, hi: nat)
    requires Extends(s, t, hi) && Exact(c, s, v) && Within(s, v, hi)
    ensures Exact(c, t, v)
  {
    if v.View? && v.epoch == s.epoch {
      SegmentSameSkips(t.logs[v.epoch], c.filter, v.base, v.last, s.skips[v.epoch], t.skips[v.epoch]);
      if t.logs[s.epoch] != s.logs[s.epoch] {
        var x :| t.logs[s.epoch] == s.logs[s.epoch] + [x];
        SegmentAppend(s.logs[s.epoch], x, c.filter, v.base, v.last, s.skips[s.epoch]);
      }
    }
  }

  lemma {:induction false} StaysExactExtends(c: Config, s: State, t: State, v: View, frames: seq<Frame>, hi: nat)
    requires Extends(s, t, hi) && StaysExact(c, s, v, frames, hi)
    ensures StaysExact(c, t, v, frames, hi)
    decreases |frames|
  {
    ExactExtends(c, s, t, v, hi);
    if frames != [] {
      StaysExactExtends(c, s, t, Apply(v, s.epoch, frames[0]), frames[1..], hi);
    }
  }

  /** Only epoch, logs and skips matter to exactness. */
  lemma {:induction false} StaysExactFrame(c: Config, s: State, t: State, v: View, frames: seq<Frame>, hi: nat)
    requires t.epoch == s.epoch && t.logs == s.logs && t.skips == s.skips
    requires StaysExact(c, s, v, frames, hi)
    ensures StaysExact(c, t, v, frames, hi)
    decreases |frames|
  {
    if frames != [] {
      StaysExactFrame(c, s, t, Apply(v, s.epoch, frames[0]), frames[1..], hi);
    }
  }

  /** Delivering the whole next segment one entry at a time is exact at every step. */
  lemma {:induction false} DeliverSegment(c: Config, s: State, v: View, events: seq<Event>)
    requires LogsOk(c, s) && Exact(c, s, v) && v.View? && v.epoch == s.epoch
    requires var hi := LastId(events, v.last);
             hi <= |s.logs[s.epoch]| &&
             events == Segment(s.logs[s.epoch], c.filter, v.last, hi, s.skips[s.epoch])
    ensures var hi := LastId(events, v.last);
            && StaysExact(c, s, v, Frames(events), hi)
            && var end := Fold(v, s.epoch, Frames(events));
               end.View? && end.epoch == s.epoch && end.last == hi
    decreases |events|
  {
    if events != [] {
      var log, skipped := s.logs[s.epoch], s.skips[s.epoch];
      var hi := LastId(events, v.last);
      SegmentHead(log, c.filter, v.last, hi, skipped);
      SegmentSplit(log, c.filter, v.base, v.last, events[0].id, skipped);
      var w := Apply(v, s.epoch, Deliver(events[0]));
      assert Frames(events)[0] == Deliver(events[0]) && Frames(events)[1..] == Frames(events[1..]);
      assert LastId(events[1..], w.last) == hi;
      DeliverSegment(c, s, w, events[1..]);
    }
  }

  // ---------- Every step keeps the invariant ----------

  lemma AddKeepsInv(c: Config, s: State, account: AccountId, eventType: string, data: Json)
    requires Inv(c, s)
    ensures Inv(c, Next(c, s, Add(account, eventType, data)))
  {
    var t := Next(c, s, Add(account, eventType, data));
    var log := s.logs[s.epoch];
    var x := Event(|log| + 1, account, eventType, data);
    forall k | k in s.skips[s.epoch] ensures Lost(c, log + [x], (log + [x])[k - 1]) {
      assert Lost(c, log, log[k - 1]);
      if (log + [x])[k - 1] in Ring(log + [x], log[k - 1].account, c.max) {
        DroppedStaysDropped(log, x, c.max, log[k - 1]);
      }
    }
    ViewsSurvive(c, s, t, |log|);
    match s.stage
    case None =>
    case Some(Opened(_)) =>
    case Some(Sending(queue, lastSeen)) => StaysExactExtends(c, s, t, s.view, s.wire + queue, lastSeen);
    case Some(Waiting(lastSeen)) =>
      StaysExactExtends(c, s, t, s.view, s.wire, lastSeen);
      if !t.waiterSet {
        RingAppend(log, x, c.filter.value, c.max);
      }
  }

  lemma ViewsSurvive(c: Config, s: State, t: State, hi: nat)
    requires Extends(s, t, hi) && s.view == t.view
    requires Exact(c, s, s.view) && Within(s, s.view, hi)
    ensures Exact(c, t, t.view)
  {
    ExactExtends(c, s, t, s.view, hi);
  }

  lemma StartKeepsInv(c: Config, s: State)
    requires c.max >= 1 && Inv(c, s) && Enabled(c, s, Start)
    ensures Inv(c, Next(c, s, Start))
  {
    var t := Next(c, s, Start);
    var log, skipped := s.logs[s.epoch], s.skips[s.epoch];
    var n := |log|;
    match Presented(s.view, s.epoch)
    case None =>
      SyncIsExact(c, t, Connected(n), n);
    case Some(last) =>
      if 0 <= last <= n && RingLog.HasEventsAfter(log, c.max, last, c.filter) {
        CatchUpIsSegment(c, log, last, skipped);
        var missed := Replay(log, c.max, last, c.filter);
        DeliverSegment(c, t, s.view, missed);
        assert t.wire + Frames(missed) == Frames(missed);
      } else {
        SyncIsExact(c, t, Resync(n), n);
      }
  }

  /** A replay that passed the gap test delivers every entry after `last`. */
  lemma CatchUpIsSegment(c: Config, log: seq<Event>, last: nat, skipped: set<nat>)
    requires Numbered(log) && c.max >= 1 && last <= |log|
    requires RingLog.HasEventsAfter(log, c.max, last, c.filter)
    requires forall k :: k in skipped ==> 1 <= k <= |log| && Lost(c, log, log[k - 1])
    ensures var missed := Replay(log, c.max, last, c.filter);
            && LastId(missed, last) <= |log|
            && missed == Segment(log, c.filter, last, |log|, {})
            && missed == Segment(log, c.filter, last, LastId(missed, last), skipped)
  {
    var missed := Replay(log, c.max, last, c.filter);
    GapTestIsSound(log, c.max, last, c.filter);
    ReplayBounds(c, log, last);
    ReplayIsSegment(c, log, last, skipped);
    SegmentFacts(log, c.filter, last, |log|, {});
    IdsAreIndexes(log);
    assert SteppedOver(log, c.filter, last, missed) == {};
    assert skipped + {} == skipped;
  }

  lemma SyncIsExact(c: Config, t: State, f: Frame, n: nat)
    requires LogsOk(c, t) && Exact(c, t, t.view) && n == |t.logs[t.epoch]|
    requires f == Connected(n) || f == Resync(n)
    ensures StaysExact(c, t, t.view, [f], n)
    ensures Fold(t.view, t.epoch, [f]) == View(t.epoch, n, n, [])
  {
    var log := t.logs[t.epoch];
    FilterNone(log, Wanted(c.filter, n, n, t.skips[t.epoch]));
    assert [f][1..] == [];
    assert StaysExact(c, t, View(t.epoch, n, n, []), [], n);
  }

  /** A look at the ring from the live loop, whether or not it finds anything. */
  lemma LiveReplayKeepsInv(c: Config, s: State, lastSeen: nat, t: State)
    requires c.max >= 1 && LogsOk(c, s) && InFlight(c, s, s.wire, lastSeen)
    requires t.epoch == s.epoch && t.logs == s.logs && t.wire == s.wire && t.view == s.view
    requires t.skips == NoteSkips(c, s, lastSeen)
    ensures LogsOk(c, t)
    ensures var events := Replay(s.logs[s.epoch], c.max, lastSeen, c.filter);
            InFlight(c, t, t.wire + Frames(events), LastId(events, lastSeen))
  {
    var log := s.logs[s.epoch];
    var events := Replay(log, c.max, lastSeen, c.filter);
    ReplayBounds(c, log, lastSeen);
    SteppedOverIsLost(c, log, lastSeen);
    ReplayIsSegment(c, log, lastSeen, s.skips[s.epoch]);
    StaysExactExtends(c, s, t, s.view, s.wire, lastSeen);
    var end := Fold(s.view, s.epoch, s.wire);
    FoldIsExact(c, t, s.view, s.wire, lastSeen);
    DeliverSegment(c, t, end, events);
    StaysExactAppend(c, t, s.view, s.wire, Frames(events), lastSeen, LastId(events, lastSeen));
  }

  lemma {:induction false} FoldIsExact(c: Config, s: State, v: View, frames: seq<Frame>, hi: nat)
    requires StaysExact(c, s, v, frames, hi)
    ensures Exact(c, s, Fold(v, s.epoch, frames))
    decreases |frames|
  {
    if frames != [] {
      FoldIsExact(c, s, Apply(v, s.epoch, frames[0]), frames[1..], hi);
    }
  }

  lemma LookKeepsInv(c: Config, s: State)
    requires c.max >= 1 && Inv(c, s) && Enabled(c, s, LookAtRing)
    ensures Inv(c, Next(c, s, LookAtRing))
  {
    var t := Next(c, s, LookAtRing);
    var lastSeen := s.stage.value.lastSeen;
    assert s.wire + [] == s.wire;
    LiveReplayKeepsInv(c, s, lastSeen, t);
    assert t.wire + [] == t.wire;
  }

  lemma WakeKeepsInv(c: Config, s: State)
    requires c.max >= 1 && Inv(c, s) && Enabled(c, s, Wake)
    ensures Inv(c, Next(c, s, Wake))
  {
    LiveReplayKeepsInv(c, s, s.stage.value.lastSeen, Next(c, s, Wake));
  }

  lemma TimeOutKeepsInv(c: Config, s: State)
    requires Inv(c, s) && Enabled(c, s, TimeOut)
    ensures Inv(c, Next(c, s, TimeOut))
  {
    var t := Next(c, s, TimeOut);
    var lastSeen := s.stage.value.lastSeen;
    StaysExactFrame(c, s, t, s.view, s.wire, lastSeen);
    var end := Fold(s.view, s.epoch, s.wire);
    FoldIsExact(c, t, s.view, s.wire, lastSeen);
    assert StaysExact(c, t, end, [], lastSeen) && [Ping][1..] == [];
    assert StaysExact(c, t, end, [Ping], lastSeen);
    StaysExactAppend(c, t, s.view, s.wire, [Ping], lastSeen, lastSeen);
  }

  lemma YieldKeepsInv(c: Config, s: State)
    requires Inv(c, s) && Enabled(c, s, Yield)
    ensures Inv(c, Next(c, s, Yield))
  {
    var t := Next(c, s, Yield);
    var queue := s.stage.value.queue;
    assert t.wire + queue[1..] == s.wire + queue;
    StaysExactFrame(c, s, t, s.view, s.wire + queue, s.stage.value.lastSeen);
  }

  lemma ReceiveKeepsInv(c: Config, s: State)
    requires Inv(c, s) && Enabled(c, s, Receive)
    ensures Inv(c, Next(c, s, Receive))
  {
    var t := Next(c, s, Receive);
    var queue, lastSeen := (if s.stage.value.Sending? then s.stage.value.queue else []), s.stage.value.lastSeen;
    var frames := s.wire + queue;
    assert s.wire + [] == s.wire && t.wire + [] == t.wire;
    assert frames[0] == s.wire[0] && frames[1..] == t.wire + queue;
    StaysExactFrame(c, s, t, s.view, frames, lastSeen);
  }

  lemma RestartKeepsInv(c: Config, s: State, newEpoch: nat)
    requires Inv(c, s) && Enabled(c, s, Restart(newEpoch))
    ensures Inv(c, Next(c, s, Restart(newEpoch)))
  {
    ViewIsExact(c, s);
  }

  lemma ViewIsExact(c: Config, s: State)
    requires Inv(c, s)
    ensures Exact(c, s, s.view)
  {
  }

  lemma NextKeepsInv(c: Config, s: State, step: Step)
    requires c.max >= 1 && Inv(c, s) && Enabled(c, s, step)
    ensures Inv(c, Next(c, s, step))
  {
    match step
    case Add(account, eventType, data) => AddKeepsInv(c, s, account, eventType, data);
    case Open =>
    case Start => StartKeepsInv(c, s);
    case LookAtRing => LookKeepsInv(c, s);
    case Wake => WakeKeepsInv(c, s);
    case TimeOut => TimeOutKeepsInv(c, s);
    case Yield => YieldKeepsInv(c, s);
    case Receive => ReceiveKeepsInv(c, s);
    case Drop => ViewIsExact(c, s);
    case Reload =>
    case Restart(newEpoch) => RestartKeepsInv(c, s, newEpoch);
  }

  lemma {:induction false} RunKeepsInv(c: Config, s: State, steps: seq<Step>)
    requires c.max >= 1 && Inv(c, s) && Run(c, s, steps).Some?
    ensures Inv(c, Run(c, s, steps).value)
    decreases |steps|
  {
    if steps != [] {
      NextKeepsInv(c, s, steps[0]);
      RunKeepsInv(c, Next(c, s, steps[0]), steps[1..]);
    }
  }

  lemma ReachableInv(c: Config, s: State)
    requires c.max >= 1 && Reachable(c, s)
    ensures Inv(c, s)
  {
    var steps :| Run(c, INITIAL, steps) == Some(s);
    RunKeepsInv(c, INITIAL, steps);
  }
}
