/** The event path of alert resolution as it runs (src/mail_verdict/server.py and
    src/mail_verdict/alerts/resolve.py): the database changes many rows at a time, each names itself
    in one event, and the handler takes the events one by one with further changes in between. */
module AlertEvents {
  import opened AlertTable
  import opened AlertResolve

  /** `pending` are the rows whose event has yet to be handled. */
  datatype State = State(messages: Messages, alerts: Alerts, pending: set<nat>)

  /** Mail changes, with an event for each of the rows `ids`; an alert is created delivered, and
      resolved at birth; or it is staged while its message's own event is being handled; that event
      is handled to the end; an alert is dismissed; everything is swept; or the event is missed. */
  datatype Step =
    | MailChanges(messages: Messages, ids: set<nat>)
    | Create(id: nat, alert: Alert)
    | Stage(id: nat, alert: Alert)
    | Handle(row: nat)
    | Dismiss(id: nat)
    | Sweep
    | Miss(row: nat)

  ghost predicate Enabled(s: State, step: Step) {
    match step
    case MailChanges(after, ids) => OnlyChanged(s.messages, after, ids)
    case Create(id, _) => id !in s.alerts
    case Stage(id, alert) => id !in s.alerts && alert.message in s.pending
    case Handle(row) => row in s.pending
    case Dismiss(id) => id in s.alerts
    case Sweep => true
    case Miss(row) => row in s.pending
  }

  function Next(s: State, step: Step): State {
    match step
    case MailChanges(after, ids) => s.(messages := after, pending := s.pending + ids)
    case Create(id, alert) => s.(alerts := Resolve(s.alerts[id := alert], s.messages, {id}))
    case Stage(id, alert) => s.(alerts := s.alerts[id := alert])
    case Handle(row) =>
      s.(alerts := Resolve(s.alerts, s.messages, OfMessages(s.alerts, s.messages, {row})), pending := s.pending - {row})
    case Dismiss(id) =>
      if id in s.alerts then s.(alerts := s.alerts[id := s.alerts[id].(dismissed := true)]) else s
    case Sweep => s.(alerts := Resolve(s.alerts, s.messages, s.alerts.Keys))
    case Miss(row) => s.(pending := s.pending - {row})
  }

  ghost predicate Run(s: State, steps: seq<Step>)
    decreases |steps|
  {
    steps == [] || (Enabled(s, steps[0]) && Run(Next(s, steps[0]), steps[1..]))
  }

  function After(s: State, steps: seq<Step>): State
    decreases |steps|
  {
    if steps == [] then s else After(Next(s, steps[0]), steps[1..])
  }

  // ---------- What is not settled is pending ----------

  /** An unresolved alert and a live read row of its mail. */
  ghost predicate Unsettled(s: State, id: nat, row: nat) {
    && id in s.alerts && !s.alerts[id].dismissed && s.alerts[id].message in s.messages && row in s.messages
    && SameMail(s.messages, row, s.alerts[id].message) && s.messages[row].seen && s.messages[row].live
  }

  /** For each of these, the event of that row or of the alert's own is pending. */
  ghost predicate Covered(s: State) {
    forall id, row :: Unsettled(s, id, row) ==> row in s.pending || s.alerts[id].message in s.pending
  }

  lemma ResolvedAreSettled(s: State, scope: set<nat>, t: State, id: nat, row: nat)
    requires t.messages == s.messages && t.alerts == Resolve(s.alerts, s.messages, scope)
    requires Unsettled(t, id, row)
    ensures Unsettled(s, id, row) && id !in scope
  {
    assert Resolvable(s.alerts, s.messages, id);
  }

  lemma ChangeKeepsCovered(s: State, after: Messages, ids: set<nat>)
    requires Covered(s) && OnlyChanged(s.messages, after, ids)
    ensures Covered(Next(s, MailChanges(after, ids)))
  {
    var t := Next(s, MailChanges(after, ids));
    forall id, row | Unsettled(t, id, row) ensures row in t.pending || t.alerts[id].message in t.pending {
      var origin := t.alerts[id].message;
      if row !in ids && origin !in ids {
        assert Unremarkable(s.messages, after, row) && Unremarkable(s.messages, after, origin);
        assert Unsettled(s, id, row);
      }
    }
  }

  lemma CreateKeepsCovered(s: State, id: nat, alert: Alert)
    requires Covered(s) && id !in s.alerts
    ensures Covered(Next(s, Create(id, alert)))
  {
    var t := Next(s, Create(id, alert));
    var made := s.(alerts := s.alerts[id := alert]);
    forall other, row | Unsettled(t, other, row) ensures row in t.pending || t.alerts[other].message in t.pending {
      ResolvedAreSettled(made, {id}, t, other, row);
      assert Unsettled(s, other, row);
    }
  }

  lemma HandleKeepsCovered(s: State, handled: nat)
    requires Covered(s)
    ensures Covered(Next(s, Handle(handled)))
  {
    var t := Next(s, Handle(handled));
    forall id, row | Unsettled(t, id, row) ensures row in t.pending || t.alerts[id].message in t.pending {
      ResolvedAreSettled(s, OfMessages(s.alerts, s.messages, {handled}), t, id, row);
      var origin := s.alerts[id].message;
      assert SameMail(s.messages, origin, row) && SameMail(s.messages, origin, origin);
      assert row != handled && origin != handled;
    }
  }

  /** A sweep covers everything from any state at all: what the events missed, it makes good. */
  lemma SweepCovers(s: State)
    ensures Covered(Next(s, Sweep)) && Settled(Next(s, Sweep).alerts, s.messages)
  {
    SweepSettles(s.alerts, s.messages);
    var t := Next(s, Sweep);
    forall id, row ensures !Unsettled(t, id, row) {
      assert Unsettled(t, id, row) ==> Resolvable(t.alerts, t.messages, id);
    }
  }

  lemma NextKeepsCovered(s: State, step: Step)
    requires Covered(s) && Enabled(s, step) && !step.Miss?
    ensures Covered(Next(s, step))
  {
    var t := Next(s, step);
    match step
    case MailChanges(after, ids) => ChangeKeepsCovered(s, after, ids);
    case Create(id, alert) => CreateKeepsCovered(s, id, alert);
    case Stage(id, alert) =>
      assert forall other, row :: other != id && Unsettled(t, other, row) ==> Unsettled(s, other, row);
    case Handle(row) => HandleKeepsCovered(s, row);
    case Dismiss(id) =>
      assert forall other, row :: Unsettled(t, other, row) ==> Unsettled(s, other, row);
    case Sweep => SweepCovers(s);
  }

  ghost predicate MissesNone(steps: seq<Step>) {
    forall step :: step in steps ==> !step.Miss?
  }

  lemma {:induction false} RunKeepsCovered(s: State, steps: seq<Step>)
    requires Covered(s) && Run(s, steps) && MissesNone(steps)
    ensures Covered(After(s, steps))
    decreases |steps|
  {
    if steps != [] {
      assert steps[0] in steps;
      NextKeepsCovered(s, steps[0]);
      RunKeepsCovered(Next(s, steps[0]), steps[1..]);
    }
  }

  /** Over any run from a settled table in which no event is missed, every alert a sweep would still
      resolve is of the mail of a row whose event is pending; so with none pending, none is left. */
  lemma WhatIsLeftIsPending(s: State, steps: seq<Step>)
    requires Settled(s.alerts, s.messages) && Run(s, steps) && MissesNone(steps)
    ensures var t := After(s, steps);
            && (forall id :: Resolvable(t.alerts, t.messages, id) ==> id in OfMessages(t.alerts, t.messages, t.pending))
            && (t.pending == {} ==> Settled(t.alerts, t.messages))
  {
    forall id, row ensures !Unsettled(s, id, row) {
      assert Unsettled(s, id, row) ==> Resolvable(s.alerts, s.messages, id);
    }
    RunKeepsCovered(s, steps);
    CoveredIsOfPending(After(s, steps));
  }

  lemma CoveredIsOfPending(t: State)
    requires Covered(t)
    ensures forall id :: Resolvable(t.alerts, t.messages, id) ==> id in OfMessages(t.alerts, t.messages, t.pending)
  {
    forall id | Resolvable(t.alerts, t.messages, id) ensures id in OfMessages(t.alerts, t.messages, t.pending) {
      var origin := t.alerts[id].message;
      var row :| row in t.messages && SameMail(t.messages, row, origin)
                 && t.messages[row].seen && t.messages[row].live;
      assert Unsettled(t, id, row);
      assert SameMail(t.messages, origin, row) && SameMail(t.messages, origin, origin);
    }
  }

  // ---------- Handling what is pending is a sweep ----------

  function Handles(rows: seq<nat>): (r: seq<Step>)
    ensures |r| == |rows|
  {
    if rows == [] then [] else [Handle(rows[0])] + Handles(rows[1..])
  }

  /** Handling rows one after the other resolves what resolving for them all at once would. */
  lemma {:induction false} HandledOneByOne(s: State, rows: seq<nat>)
    requires forall i, j :: 0 <= i < j < |rows| ==> rows[i] != rows[j]
    requires forall row :: row in rows ==> row in s.pending
    ensures Run(s, Handles(rows))
    ensures var all := set row | row in rows;
            After(s, Handles(rows))
            == s.(alerts := Resolve(s.alerts, s.messages, OfMessages(s.alerts, s.messages, all)),
                  pending := s.pending - all)
    decreases |rows|
  {
    var all := set row | row in rows;
    if rows == [] {
      assert Resolve(s.alerts, s.messages, OfMessages(s.alerts, s.messages, all)) == s.alerts;
    } else {
      var t, rest := Next(s, Handle(rows[0])), rows[1..];
      HandledOneByOne(t, rest);
      assert Handles(rows)[1..] == Handles(rest);
      var others := set row | row in rest;
      assert all == {rows[0]} + others;
      ResolvedInTwo(s.alerts, s.messages, {rows[0]}, others);
      assert s.pending - {rows[0]} - others == s.pending - all;
    }
  }

  lemma ResolvedInTwo(alerts: Alerts, messages: Messages, a: set<nat>, b: set<nat>)
    ensures var once := Resolve(alerts, messages, OfMessages(alerts, messages, a));
            Resolve(once, messages, OfMessages(once, messages, b))
            == Resolve(alerts, messages, OfMessages(alerts, messages, a + b))
  {
    var once := Resolve(alerts, messages, OfMessages(alerts, messages, a));
    assert OfMessages(once, messages, b) == OfMessages(alerts, messages, b);
    assert OfMessages(alerts, messages, a + b) == OfMessages(alerts, messages, a) + OfMessages(alerts, messages, b);
    forall id | id in alerts
      ensures Resolvable(once, messages, id) <==>
              Resolvable(alerts, messages, id) && id !in OfMessages(alerts, messages, a)
    {
    }
  }

  /** Once the events still pending have been handled, in whatever order, the table is exactly what
      a sweep would have left. */
  lemma DrainingIsSweeping(s: State, steps: seq<Step>, rows: seq<nat>)
    requires Settled(s.alerts, s.messages) && Run(s, steps) && MissesNone(steps)
    requires forall i, j :: 0 <= i < j < |rows| ==> rows[i] != rows[j]
    requires (set row | row in rows) == After(s, steps).pending
    ensures var t := After(s, steps);
            Run(t, Handles(rows)) && After(t, Handles(rows)).alerts == Next(t, Sweep).alerts
  {
    var t := After(s, steps);
    WhatIsLeftIsPending(s, steps);
    assert forall row :: row in rows ==> row in (set r | r in rows);
    HandledOneByOne(t, rows);
    IncrementalEqualsFullIff(t.alerts, t.messages, t.pending);
  }

  /** Whatever was missed before it, a sweep makes good for any run after it that misses none. */
  lemma SweepMakesGood(s: State, steps: seq<Step>)
    requires Run(Next(s, Sweep), steps) && MissesNone(steps)
    ensures var t := After(Next(s, Sweep), steps);
            && (forall id :: Resolvable(t.alerts, t.messages, id) ==> id in OfMessages(t.alerts, t.messages, t.pending))
            && (t.pending == {} ==> Settled(t.alerts, t.messages))
  {
    SweepCovers(s);
    WhatIsLeftIsPending(Next(s, Sweep), steps);
  }
}
