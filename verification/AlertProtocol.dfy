/** Mail alerts over whole runs (src/mail_verdict/alerts/dispatch.py): arrivals, the two statements
    of a finalizer tick, resolution, dismissal, announcement, mail changing underneath, and the
    process dying, interleaved in any order. The finalizer's advisory lock admits one tick at a
    time; rows a tick has written are locked until it commits, and a tick that dies rolls back. */
module AlertProtocol {
  import opened Sequences
  import opened AlertTable

  /** A tick between its two statements: the table and mail its first statement saw. */
  datatype Tick = Tick(alerts: Alerts, messages: Messages)

  datatype Announcement = Announcement(id: nat, key: nat)

  /** `arriving`: delivered at insert, not yet checked against read mail. `outgoing`: to be
      announced, held in memory only. `announced` is the history of announcements. */
  datatype State = State(
    messages: Messages, alerts: Alerts, nextId: nat,
    arriving: set<nat>, outgoing: set<nat>, tick: Option<Tick>, announced: seq<Announcement>)

  datatype Step =
    | MailChanges(messages: Messages)
    | Arrive(key: nat, account: nat, message: nat, folder: Option<nat>, createdAt: int, immediate: bool)
    | CheckArrival(id: nat)
    | Announce(id: nat)
    | TickBegins
    | TickCommits(batch: set<nat>, cutoff: int)
    | Dismiss(id: nat)
    | ResolveSome(scope: set<nat>)
    | Crash

  /** The alerts an open tick has resolved, and so locked. */
  function TickResolved(t: Tick): set<nat> {
    ResolvableIn(t.alerts, t.messages, Staged(t.alerts))
  }

  function LockedBy(s: State): set<nat> {
    if s.tick.Some? then TickResolved(s.tick.value) else {}
  }

  /** The table as an open tick's second statement sees it. */
  function SeenByTick(s: State): Alerts
    requires s.tick.Some?
  {
    Stamped(s.alerts, TickResolved(s.tick.value))
  }

  predicate KeyTaken(alerts: Alerts, key: nat) {
    exists id :: id in alerts && alerts[id].key == key
  }

  ghost predicate Enabled(s: State, step: Step) {
    match step
    case CheckArrival(id) => id in s.arriving
    case Announce(id) => id in s.outgoing && id in s.alerts
    case TickBegins => s.tick.None?
    case TickCommits(batch, _) => s.tick.Some? && batch <= Staged(SeenByTick(s)) && |batch| <= FINALIZE_BATCH_SIZE
    case Dismiss(id) => id in s.alerts && id !in LockedBy(s)
    case ResolveSome(scope) => ResolvableIn(s.alerts, s.messages, scope) !! LockedBy(s)
    case _ => true
  }

  function Next(s: State, step: Step): State
    requires Enabled(s, step)
  {
    match step
    case MailChanges(messages) => s.(messages := messages)
    case Arrive(key, account, message, folder, createdAt, immediate) =>
      if KeyTaken(s.alerts, key) then s
      else
        var alert := Alert(key, account, message, folder, createdAt, immediate, false);
        s.(alerts := s.alerts[s.nextId := alert], nextId := s.nextId + 1,
           arriving := if immediate then s.arriving + {s.nextId} else s.arriving)
    case CheckArrival(id) =>
      if Resolvable(s.alerts, s.messages, id) then
        s.(alerts := Resolve(s.alerts, s.messages, {id}), arriving := s.arriving - {id})
      else
        s.(arriving := s.arriving - {id}, outgoing := s.outgoing + {id})
    case Announce(id) =>
      s.(outgoing := s.outgoing - {id}, announced := s.announced + [Announcement(id, s.alerts[id].key)])
    case TickBegins => s.(tick := Some(Tick(s.alerts, s.messages)))
    case TickCommits(batch, cutoff) =>
      var seen := SeenByTick(s);
      s.(alerts := Finalized(seen, s.messages, cutoff, batch),
         outgoing := s.outgoing + Delivered(seen, s.messages, cutoff, batch),
         tick := None)
    case Dismiss(id) => s.(alerts := s.alerts[id := s.alerts[id].(dismissed := true)])
    case ResolveSome(scope) => s.(alerts := Resolve(s.alerts, s.messages, scope))
    case Crash => s.(arriving := {}, outgoing := {}, tick := None)
  }

  ghost predicate Run(s: State, steps: seq<Step>)
    decreases |steps|
  {
    steps == [] || (Enabled(s, steps[0]) && Run(Next(s, steps[0]), steps[1..]))
  }

  ghost function After(s: State, steps: seq<Step>): State
    requires Run(s, steps)
    decreases |steps|
  {
    if steps == [] then s else After(Next(s, steps[0]), steps[1..])
  }

  function Start(messages: Messages): State {
    State(messages, map[], 0, {}, {}, None, [])
  }

  // ---------- What every step keeps ----------

  ghost predicate UniqueKeys(alerts: Alerts) {
    forall a, b :: a in alerts && b in alerts && alerts[a].key == alerts[b].key ==> a == b
  }

  ghost predicate Fresh(s: State) {
    forall id :: id in s.alerts ==> id < s.nextId
  }

  /** What waits to be checked or announced is delivered, each in one place. */
  ghost predicate InFlight(s: State) {
    && s.arriving !! s.outgoing
    && forall id :: id in s.arriving + s.outgoing ==> id in s.alerts && s.alerts[id].delivered
  }

  /** Every announcement has its delivered row as its record, and no second one to come. */
  ghost predicate Recorded(s: State) {
    && (forall a :: a in s.announced ==>
          && a.id in s.alerts && s.alerts[a.id].delivered && s.alerts[a.id].key == a.key
          && a.id !in s.arriving && a.id !in s.outgoing)
    && (forall i, j :: 0 <= i < j < |s.announced| ==> s.announced[i].id != s.announced[j].id)
  }

  /** Rows an open tick has resolved stay as it found them; none it saw delivered is not; and a row
      it saw is still about the same message. */
  ghost predicate LocksHold(s: State) {
    && (forall id :: id in LockedBy(s) ==> id in s.alerts && s.alerts[id] == s.tick.value.alerts[id])
    && (s.tick.Some? ==> SeenStays(s.tick.value.alerts, s))
  }

  ghost predicate SeenStays(seen: Alerts, s: State) {
    forall id :: id in seen ==>
      && id < s.nextId
      && (seen[id].delivered ==> id in s.alerts && s.alerts[id].delivered)
      && (id in s.alerts ==> s.alerts[id].message == seen[id].message)
  }

  ghost predicate Inv(s: State) {
    UniqueKeys(s.alerts) && Fresh(s) && InFlight(s) && Recorded(s) && LocksHold(s)
  }

  /** No step takes back a delivery or a dedupe record, or hands out an id again. */
  ghost predicate Keeps(s: State, t: State) {
    && s.nextId <= t.nextId
    && (forall id :: id in t.alerts && id < s.nextId ==> id in s.alerts && t.alerts[id].key == s.alerts[id].key)
    && (forall id :: id in s.alerts && s.alerts[id].delivered ==> id in t.alerts && t.alerts[id].delivered)
    && (forall id :: id in s.alerts && id in t.alerts ==> t.alerts[id].createdAt == s.alerts[id].createdAt)
  }

  lemma ArriveKeeps(s: State, step: Step)
    requires Inv(s) && step.Arrive? && Enabled(s, step)
    ensures Inv(Next(s, step)) && Keeps(s, Next(s, step))
  {
    var t := Next(s, step);
    if !KeyTaken(s.alerts, step.key) {
      assert s.nextId !in s.alerts;
      assert forall id :: id in s.alerts ==> t.alerts[id] == s.alerts[id];
    }
  }

  /** Stamping alerts resolved keeps every key, and undoes no delivery. */
  lemma StampKeeps(s: State, t: State, ids: set<nat>)
    requires Inv(s) && ids !! LockedBy(s)
    requires t == s.(alerts := Stamped(s.alerts, ids))
    ensures Inv(t) && Keeps(s, t)
  {
  }

  lemma CheckArrivalKeeps(s: State, step: Step)
    requires Inv(s) && step.CheckArrival? && Enabled(s, step)
    ensures Inv(Next(s, step)) && Keeps(s, Next(s, step))
  {
    var id := step.id;
    assert id !in LockedBy(s);
    if Resolvable(s.alerts, s.messages, id) {
      var stamped := s.(alerts := Resolve(s.alerts, s.messages, {id}));
      StampKeeps(s, stamped, ResolvableIn(s.alerts, s.messages, {id}));
      CheckedKeeps(stamped, id);
    } else {
      CheckedKeeps(s, id);
    }
  }

  lemma CheckedKeeps(s: State, id: nat)
    requires Inv(s) && id in s.arriving
    ensures Inv(s.(arriving := s.arriving - {id}))
    ensures Inv(s.(arriving := s.arriving - {id}, outgoing := s.outgoing + {id}))
  {
  }

  lemma AnnounceKeeps(s: State, step: Step)
    requires Inv(s) && step.Announce? && Enabled(s, step)
    ensures Inv(Next(s, step)) && Keeps(s, Next(s, step))
  {
    var t := Next(s, step);
    forall i | 0 <= i < |s.announced| ensures t.announced[i].id != step.id {
      assert s.announced[i] in s.announced;
    }
    assert forall a :: a in t.announced <==> a in s.announced || a == Announcement(step.id, s.alerts[step.id].key);
  }

  predicate SameRecord(a: Alert, b: Alert) {
    a.key == b.key && a.createdAt == b.createdAt
  }

  /** What a commit does to one row: drop it staged, deliver it, or leave what the tick saw. */
  lemma CommittedRow(s: State, step: Step, id: nat)
    requires Inv(s) && step.TickCommits? && Enabled(s, step) && id in s.alerts
    ensures var t := Next(s, step);
            && (s.alerts[id].delivered ==> id in t.alerts && t.alerts[id].delivered && id !in step.batch)
            && (id in t.alerts ==> SameRecord(s.alerts[id], t.alerts[id]))
            && (id in t.outgoing && id !in s.outgoing ==>
                  id in t.alerts && t.alerts[id].delivered && !s.alerts[id].delivered)
  {
    assert id in step.batch ==> id in Staged(SeenByTick(s));
  }

  lemma CommitKeeps(s: State, step: Step)
    requires Inv(s) && step.TickCommits? && Enabled(s, step)
    ensures Inv(Next(s, step)) && Keeps(s, Next(s, step))
  {
    var t := Next(s, step);
    assert forall id :: id in t.alerts ==> id in s.alerts;
    assert forall id :: id in t.outgoing ==> id in s.alerts;
    forall id | id in s.alerts
      ensures s.alerts[id].delivered ==>
                id in t.alerts && t.alerts[id].delivered && (id in t.outgoing <==> id in s.outgoing)
      ensures id in t.alerts ==> SameRecord(s.alerts[id], t.alerts[id])
      ensures id in t.outgoing ==> id in t.alerts && t.alerts[id].delivered
    {
      CommittedRow(s, step, id);
    }
  }

  /** The whole invariant survives every step, and no step takes back a delivery. */
  lemma NextKeepsInv(s: State, step: Step)
    requires Inv(s) && Enabled(s, step)
    ensures Inv(Next(s, step)) && Keeps(s, Next(s, step))
  {
    match step
    case Arrive(_, _, _, _, _, _) => ArriveKeeps(s, step);
    case CheckArrival(_) => CheckArrivalKeeps(s, step);
    case Announce(_) => AnnounceKeeps(s, step);
    case TickCommits(_, _) => CommitKeeps(s, step);
    case ResolveSome(scope) => StampKeeps(s, Next(s, step), ResolvableIn(s.alerts, s.messages, scope));
    case MailChanges(_) =>
    case TickBegins =>
    case Dismiss(_) =>
    case Crash =>
  }

  lemma {:induction false} RunKeepsInv(s: State, steps: seq<Step>)
    requires Inv(s) && Run(s, steps)
    ensures Inv(After(s, steps)) && Keeps(s, After(s, steps))
    decreases |steps|
  {
    if steps != [] {
      NextKeepsInv(s, steps[0]);
      RunKeepsInv(Next(s, steps[0]), steps[1..]);
    }
  }

  ghost predicate Reachable(s: State) {
    exists messages, steps :: ReachedBy(messages, steps, s)
  }

  ghost predicate ReachedBy(messages: Messages, steps: seq<Step>, s: State) {
    Run(Start(messages), steps) && After(Start(messages), steps) == s
  }

  lemma ReachableInv(s: State)
    requires Reachable(s)
    ensures Inv(s)
  {
    var messages, steps :| ReachedBy(messages, steps, s);
    RunKeepsInv(Start(messages), steps);
  }

  // ---------- At most once ----------

  /** However arrivals, resyncs, staging, ticks, drops, resolution, dismissal and crashes
      interleave, no dedupe key is announced twice. */
  lemma AtMostOneAnnouncementPerKey(s: State)
    requires Reachable(s)
    ensures forall i, j :: 0 <= i < j < |s.announced| ==> s.announced[i].key != s.announced[j].key
  {
    ReachableInv(s);
    forall i, j | 0 <= i < j < |s.announced| ensures s.announced[i].key != s.announced[j].key {
      assert s.announced[i] in s.announced && s.announced[j] in s.announced;
    }
  }

  /** A delivered alert is delivered for good, so no later tick has it as a candidate. */
  lemma DeliveredIsNeverACandidateAgain(s: State, id: nat, steps: seq<Step>, last: Step)
    requires Reachable(s) && id in s.alerts && s.alerts[id].delivered && Run(s, steps)
    requires last.TickCommits? && Enabled(After(s, steps), last)
    ensures id !in last.batch
  {
    ReachableInv(s);
    RunKeepsInv(s, steps);
    var t := After(s, steps);
    assert id in SeenByTick(t) && SeenByTick(t)[id].delivered;
  }

  /** An alert that was dropped had not been announced, and never is: whatever comes later, its
      id is in no announcement. */
  lemma DroppedIsNeverAnnounced(s: State, id: nat, steps: seq<Step>)
    requires Reachable(s) && id in s.alerts && Run(s, steps) && id !in After(s, steps).alerts
    ensures !s.alerts[id].delivered
    ensures forall a :: a in After(s, steps).announced ==> a.id != id
  {
    ReachableInv(s);
    RunKeepsInv(s, steps);
  }

  // ---------- What a tick announces ----------

  /** The alerts a commit hands over to be announced. */
  function HandedOver(s: State, step: Step): set<nat>
    requires step.TickCommits? && Enabled(s, step)
  {
    Delivered(SeenByTick(s), s.messages, step.cutoff, step.batch)
  }

  /** What a commit does with each alert of its batch, in any reachable state: one whose mail is gone
      or expunged is removed and not announced; one whose run has ended, that no run will reach, or
      that has waited out the bound, is handed over with the folder its mail is in now; any other is
      left as it was. An alert not in the batch changes only if the tick found its mail read. */
  lemma CommitDecidesByTheMessage(s: State, step: Step, id: nat)
    requires Reachable(s) && step.TickCommits? && Enabled(s, step) && id in s.alerts
    ensures var a, t := s.alerts[id], Next(s, step);
            if id !in step.batch then
              && id !in HandedOver(s, step) && id in t.alerts
              && t.alerts[id] == if id in LockedBy(s) then a.(dismissed := true, delivered := true) else a
            else if MailGone(s.messages, a) then id !in t.alerts && id !in HandedOver(s, step) && id !in t.outgoing
            else if SettledByPipeline(s.messages[a.message]) || a.createdAt <= step.cutoff then
              && id in HandedOver(s, step) && id in t.outgoing && id in t.alerts
              && t.alerts[id] == a.(folder := Some(s.messages[a.message].folder), delivered := true)
            else id in t.alerts && t.alerts[id] == a && id !in HandedOver(s, step)
  {
    ReachableInv(s);
    assert id in step.batch ==> id in Staged(SeenByTick(s));
    FinalizedByTheMessage(SeenByTick(s), s.messages, step.cutoff, step.batch, id);
  }

  /** An arrival delivered at insert is handed on to be announced exactly when its mail is unread, or
      it has been dismissed meanwhile; otherwise it is resolved. */
  lemma ArrivalIsHandedOnIff(s: State, id: nat)
    requires Reachable(s) && Enabled(s, CheckArrival(id))
    ensures var t := Next(s, CheckArrival(id));
            && id in s.alerts && id in t.alerts && id !in t.arriving
            && (id in t.outgoing <==> !IsRead(s.messages, s.alerts[id].message) || s.alerts[id].dismissed)
            && t.alerts[id] == if id in t.outgoing then s.alerts[id] else s.alerts[id].(dismissed := true)
  {
    ReachableInv(s);
  }

  /** An alert undelivered when the second statement runs, whose mail was read when the tick began,
      is still one to select if and only if it was staged since, or had been dismissed by then. */
  lemma ReadMailIsSelectedIff(s: State, id: nat)
    requires Reachable(s) && s.tick.Some? && id in Staged(s.alerts)
    requires IsRead(s.tick.value.messages, s.alerts[id].message)
    ensures var begun := s.tick.value.alerts;
            id in Staged(SeenByTick(s)) <==> id !in begun || begun[id].dismissed
  {
    ReachableInv(s);
  }

  /** So a tick announces no mail that was read when it began but for those two cases, and of those
      exactly the ones that are among the batch and decided to be delivered. */
  lemma TickAnnouncesReadMailIff(s: State, step: Step, id: nat)
    requires Reachable(s) && step.TickCommits? && Enabled(s, step) && id in s.alerts
    requires IsRead(s.tick.value.messages, s.alerts[id].message)
    ensures var begun := s.tick.value.alerts;
            id in HandedOver(s, step) <==>
              && id in step.batch && Decide(s.alerts[id], s.messages, step.cutoff).Deliver?
              && (id !in begun || begun[id].dismissed)
  {
    ReachableInv(s);
    if id in Staged(s.alerts) {
      ReadMailIsSelectedIff(s, id);
    }
  }

  /** A tick announces no mail that was read when it began, unless its alert was staged after that
      or had been dismissed while still staged. */
  lemma TickAnnouncesUnreadMail(s: State, step: Step, id: nat)
    requires Reachable(s) && step.TickCommits? && Enabled(s, step) && id in HandedOver(s, step)
    ensures var begun := s.tick.value;
            || id !in begun.alerts
            || begun.alerts[id].dismissed
            || !IsRead(begun.messages, begun.alerts[id].message)
  {
    ReachableInv(s);
    assert id in Staged(SeenByTick(s)) && id !in TickResolved(s.tick.value);
  }

  /** Mail in an ordinary folder, no draft, whose pipeline run has yet to end: what the code stages
      rather than delivers at once. */
  const READ_MAIL: Messages := map[7 := Message(1, None, true, true, false, 3, "", Some("pending"))]
  const UNREAD_MAIL: Messages := map[7 := Message(1, None, false, true, false, 3, "", Some("pending"))]
  const RUN_ENDED: Messages := map[7 := Message(1, None, true, true, false, 3, "", Some("done"))]
  const READ_MAIL_ALERT := Alert(5, 1, 7, None, 0, false, false)

  /** Both exceptions happen: an alert staged between a tick's two statements, its run ending just
      then, is announced though its mail was read all along, */
  lemma StagedMidTickIsAnnounced()
    ensures var steps := [TickBegins, Arrive(5, 1, 7, None, 0, false), MailChanges(RUN_ENDED),
                          TickCommits({0}, -1), Announce(0)];
            var s := Start(READ_MAIL);
            Run(s, steps) && After(s, steps).announced == [Announcement(0, 5)] && IsRead(READ_MAIL, 7)
  {
    assert SameMail(READ_MAIL, 7, 7);
    var s := Start(READ_MAIL);
    var arrive := Arrive(5, 1, 7, None, 0, false);
    var staged := Next(Next(Next(s, TickBegins), arrive), MailChanges(RUN_ENDED));
    CommitAnnounces(staged, READ_MAIL_ALERT);
    RunOfFour(Next(s, TickBegins), arrive, MailChanges(RUN_ENDED), TickCommits({0}, -1), Announce(0));
    RunStartsWith(s, TickBegins, [arrive, MailChanges(RUN_ENDED), TickCommits({0}, -1), Announce(0)]);
    assert [TickBegins] + [arrive, MailChanges(RUN_ENDED), TickCommits({0}, -1), Announce(0)]
        == [TickBegins, arrive, MailChanges(RUN_ENDED), TickCommits({0}, -1), Announce(0)];
  }

  /** and so is one dismissed while staged, since a dismissed alert is not resolved. (The endpoint
      dismisses any alert whose id it is given, but nothing tells a client the id of one not yet
      delivered: lists, dismissing all and announcements are of delivered alerts.) */
  lemma DismissedWhileStagedIsAnnounced()
    ensures var s := Next(Next(Start(UNREAD_MAIL), Arrive(5, 1, 7, None, 0, false)), Dismiss(0));
            var steps := [MailChanges(RUN_ENDED), TickBegins, TickCommits({0}, -1), Announce(0)];
            && s.alerts[0].dismissed && IsRead(RUN_ENDED, 7)
            && Run(s, steps) && After(s, steps).announced == [Announcement(0, 5)]
  {
    assert SameMail(RUN_ENDED, 7, 7);
    var s := Next(Next(Start(UNREAD_MAIL), Arrive(5, 1, 7, None, 0, false)), Dismiss(0));
    assert s.alerts == map[0 := READ_MAIL_ALERT.(dismissed := true)];
    CommitAnnounces(Next(Next(s, MailChanges(RUN_ENDED)), TickBegins), READ_MAIL_ALERT.(dismissed := true));
    RunOfFour(s, MailChanges(RUN_ENDED), TickBegins, TickCommits({0}, -1), Announce(0));
  }

  lemma CommitAnnounces(s: State, alert: Alert)
    requires s.alerts == map[0 := alert] && s.messages == RUN_ENDED && s.outgoing == {} && s.announced == []
    requires alert.message == 7 && alert.account == 1 && alert.key == 5 && !alert.delivered
    requires s.tick.Some? && TickResolved(s.tick.value) == {}
    ensures Enabled(s, TickCommits({0}, -1)) && Enabled(Next(s, TickCommits({0}, -1)), Announce(0))
    ensures Next(Next(s, TickCommits({0}, -1)), Announce(0)).announced == [Announcement(0, 5)]
  {
    var commit := TickCommits({0}, -1);
    assert Staged(SeenByTick(s)) == {0};
    assert Decide(alert, RUN_ENDED, -1) == Deliver(3);
    assert 0 in HandedOver(s, commit) && 0 in Next(s, commit).alerts;
  }

  lemma RunStartsWith(s: State, step: Step, rest: seq<Step>)
    requires Enabled(s, step) && Run(Next(s, step), rest)
    ensures Run(s, [step] + rest) && After(s, [step] + rest) == After(Next(s, step), rest)
  {
    assert ([step] + rest)[1..] == rest;
  }

  lemma RunOfThree(s: State, a: Step, b: Step, c: Step)
    requires Enabled(s, a) && Enabled(Next(s, a), b) && Enabled(Next(Next(s, a), b), c)
    ensures Run(s, [a, b, c]) && After(s, [a, b, c]) == Next(Next(Next(s, a), b), c)
  {
    var t := Next(s, a);
    var u := Next(t, b);
    RunStartsWith(u, c, []);
    RunStartsWith(t, b, [c]);
    RunStartsWith(s, a, [b, c]);
    assert [c] + [] == [c] && [b] + [c] == [b, c] && [a] + [b, c] == [a, b, c];
  }

  lemma RunOfFour(s: State, a: Step, b: Step, c: Step, d: Step)
    requires Enabled(s, a) && Enabled(Next(s, a), b) && Enabled(Next(Next(s, a), b), c)
    requires Enabled(Next(Next(Next(s, a), b), c), d)
    ensures Run(s, [a, b, c, d]) && After(s, [a, b, c, d]) == Next(Next(Next(Next(s, a), b), c), d)
  {
    RunOfThree(Next(s, a), b, c, d);
    RunStartsWith(s, a, [b, c, d]);
    assert [a] + [b, c, d] == [a, b, c, d];
  }

  // ---------- How long an expired alert can wait ----------

  /** The staged alerts at least as old as `id`. */
  function NotNewer(alerts: Alerts, id: nat): set<nat>
    requires id in alerts
  {
    set o | o in Staged(alerts) && o != id && alerts[o].createdAt <= alerts[id].createdAt
  }

  /** ORDER BY created_at LIMIT 100, with no row locked by anyone else. */
  ghost predicate Oldest(alerts: Alerts, batch: set<nat>) {
    && batch <= Staged(alerts)
    && (|batch| < FINALIZE_BATCH_SIZE ==> batch == Staged(alerts))
    && forall b, o :: b in batch && o in Staged(alerts) - batch ==> alerts[b].createdAt <= alerts[o].createdAt
  }

  /** Every tick takes the oldest staged alerts, by its time `createdAt` has waited out the bound,
      and what arrives is newer. */
  ghost predicate Prompt(s: State, steps: seq<Step>, createdAt: int)
    requires Run(s, steps)
    decreases |steps|
  {
    steps == [] ||
    (&& (steps[0].Arrive? ==> steps[0].createdAt > createdAt)
     && (steps[0].TickCommits? ==> Oldest(SeenByTick(s), steps[0].batch) && createdAt <= steps[0].cutoff)
     && Prompt(Next(s, steps[0]), steps[1..], createdAt))
  }

  function Commits(steps: seq<Step>): nat {
    if steps == [] then 0 else (if steps[0].TickCommits? then 1 else 0) + Commits(steps[1..])
  }

  lemma SubsetSize(a: set<nat>, b: set<nat>)
    requires a <= b
    ensures |a| <= |b|
  {
    if a != {} {
      var x :| x in a;
      SubsetSize(a - {x}, b - {x});
    }
  }

  /** A commit that leaves the alert staged has taken a full batch of alerts no newer. */
  lemma CommitTakesABatch(s: State, step: Step, id: nat)
    requires Inv(s) && step.TickCommits? && Enabled(s, step) && id in s.alerts
    requires Oldest(SeenByTick(s), step.batch) && s.alerts[id].createdAt <= step.cutoff
    requires id in Staged(Next(s, step).alerts)
    ensures NotNewer(Next(s, step).alerts, id) <= NotNewer(s.alerts, id) - step.batch
    ensures step.batch <= NotNewer(s.alerts, id) && |step.batch| == FINALIZE_BATCH_SIZE
  {
    var seen := SeenByTick(s);
    assert id in Staged(seen) && id !in step.batch;
    forall b | b in step.batch ensures b in NotNewer(s.alerts, id) && b !in Staged(Next(s, step).alerts) {
      assert b in Staged(seen) && Decide(seen[b], s.messages, step.cutoff) != Wait;
    }
  }

  lemma StepDoesNotAge(s: State, step: Step, id: nat)
    requires Inv(s) && Enabled(s, step) && id in Staged(s.alerts) && id in Staged(Next(s, step).alerts)
    requires step.Arrive? ==> step.createdAt > s.alerts[id].createdAt
    requires step.TickCommits? ==> Oldest(SeenByTick(s), step.batch) && s.alerts[id].createdAt <= step.cutoff
    ensures |NotNewer(Next(s, step).alerts, id)| + (if step.TickCommits? then FINALIZE_BATCH_SIZE else 0)
            <= |NotNewer(s.alerts, id)|
  {
    if step.TickCommits? {
      CommitTakesABatch(s, step, id);
      SubsetSize(NotNewer(Next(s, step).alerts, id), NotNewer(s.alerts, id) - step.batch);
    } else {
      OtherStepsOnlyTake(s, step, id);
      SubsetSize(NotNewer(Next(s, step).alerts, id), NotNewer(s.alerts, id));
    }
  }

  lemma OtherStepsOnlyTake(s: State, step: Step, id: nat)
    requires Inv(s) && Enabled(s, step) && id in Staged(s.alerts) && !step.TickCommits?
    requires step.Arrive? ==> step.createdAt > s.alerts[id].createdAt
    ensures id in Next(s, step).alerts && NotNewer(Next(s, step).alerts, id) <= NotNewer(s.alerts, id)
  {
    var t := Next(s, step);
    match step
    case Arrive(_, _, _, _, _, _) =>
      assert s.nextId !in s.alerts;
      assert forall o :: o in t.alerts ==>
        (o in s.alerts && t.alerts[o] == s.alerts[o]) || t.alerts[o].createdAt == step.createdAt;
    case CheckArrival(_) =>
    case ResolveSome(_) =>
    case Dismiss(_) =>
    case MailChanges(_) =>
    case Announce(_) =>
    case TickBegins =>
    case Crash =>
  }

  lemma {:induction false} WaitShrinks(s: State, steps: seq<Step>, id: nat)
    requires Inv(s) && Run(s, steps) && id in Staged(s.alerts) && Prompt(s, steps, s.alerts[id].createdAt)
    requires id in Staged(After(s, steps).alerts)
    ensures |NotNewer(After(s, steps).alerts, id)| + FINALIZE_BATCH_SIZE * Commits(steps) <= |NotNewer(s.alerts, id)|
    decreases |steps|
  {
    if steps != [] {
      var t := Next(s, steps[0]);
      NextKeepsInv(s, steps[0]);
      RunKeepsInv(t, steps[1..]);
      assert id < s.nextId && id in t.alerts && !t.alerts[id].delivered;
      StepDoesNotAge(s, steps[0], id);
      WaitShrinks(t, steps[1..], id);
    }
  }

  /** An expired alert with r staged alerts no newer than it is delivered, dropped or resolved by
      the time floor(r / 100) + 1 ticks have committed, whatever else happens in between. */
  lemma ExpiredAlertsLeaveInTime(s: State, steps: seq<Step>, id: nat)
    requires Reachable(s) && Run(s, steps) && id in Staged(s.alerts) && Prompt(s, steps, s.alerts[id].createdAt)
    requires Commits(steps) >= |NotNewer(s.alerts, id)| / 100 + 1
    ensures id !in Staged(After(s, steps).alerts)
  {
    ReachableInv(s);
    if id in Staged(After(s, steps).alerts) {
      WaitShrinks(s, steps, id);
      assert false;
    }
  }
}
