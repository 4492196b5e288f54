/** Resolving alerts as messages change (src/mail_verdict/alerts/resolve.py): the resolver that
    looks only at what changed agrees with the sweep over everything. */
module AlertResolve {
  import opened Sequences
  import opened AlertTable

  // ---------- The predicate ----------

  /** Being the same mail is an equivalence within one account. */
  lemma SameMailIsAnEquivalence(messages: Messages, a: nat, b: nat, c: nat)
    requires a in messages && b in messages && c in messages
    ensures SameMail(messages, a, a)
    ensures SameMail(messages, a, b) ==> SameMail(messages, b, a) && messages[a].account == messages[b].account
    ensures SameMail(messages, a, b) && SameMail(messages, b, c) ==> SameMail(messages, a, c)
  {
  }

  /** Mail without a Message-ID header is only ever itself. */
  lemma HeaderlessMailMatchesItself(messages: Messages, a: nat, b: nat)
    requires a in messages && b in messages && messages[a].header.None?
    ensures SameMail(messages, a, b) <==> a == b
    ensures SameMail(messages, b, a) <==> a == b
  {
  }

  /** A move made in another client (the row expunged, a fresh one with its header, read) settles
      the alert of the expunged row. */
  lemma FollowsAMoveElsewhere(alerts: Alerts, messages: Messages, id: nat, copy: nat)
    requires id in alerts && !alerts[id].dismissed && alerts[id].message in messages && copy in messages
    requires messages[copy].seen && messages[copy].live
    requires messages[copy].account == messages[alerts[id].message].account
    requires messages[copy].header.Some? && messages[copy].header == messages[alerts[id].message].header
    ensures Resolvable(alerts, messages, id)
    ensures Resolve(alerts, messages, {id})[id].dismissed
  {
    assert SameMail(messages, copy, alerts[id].message);
  }

  /** An alert is resolved exactly when it is in scope, not dismissed, its row is there, and a row of
      the same account that is that one, or has its Message-ID, is read and not expunged. */
  lemma ResolvedIff(alerts: Alerts, messages: Messages, scope: set<nat>, id: nat)
    requires id in alerts
    ensures var a, after := alerts[id], Resolve(alerts, messages, scope);
            && after.Keys == alerts.Keys
            && after[id] == if
                 && id in scope && !a.dismissed && a.message in messages
                 && exists m :: m in messages && messages[m].seen && messages[m].live
                             && messages[m].account == messages[a.message].account
                             && (m == a.message || (messages[m].header.Some?
                                                    && messages[m].header == messages[a.message].header))
               then a.(dismissed := true, delivered := true) else a
  {
  }

  // ---------- Incremental equals full ----------

  ghost predicate Settled(alerts: Alerts, messages: Messages) {
    forall id :: id in alerts ==> !Resolvable(alerts, messages, id)
  }

  /** A change that needs no reaction: the row was there, keeps its account and header, and is not
      live and read where it was not before. Unreading, moving, expunging and deleting are such. */
  ghost predicate Unremarkable(before: Messages, after: Messages, m: nat) {
    && (m in after ==>
          && m in before && after[m].account == before[m].account && after[m].header == before[m].header
          && (after[m].seen && after[m].live ==> before[m].seen && before[m].live))
  }

  /** Only the rows `ids` were inserted or changed in any way that could matter. */
  ghost predicate OnlyChanged(before: Messages, after: Messages, ids: set<nat>) {
    forall m :: m !in ids ==> Unremarkable(before, after, m)
  }

  /** A row that is read now and was not before was settled by one of the changed rows. */
  lemma NewlyReadIsOfTheChanged(before: Messages, after: Messages, ids: set<nat>, origin: nat)
    requires OnlyChanged(before, after, ids) && IsRead(after, origin) && !IsRead(before, origin)
    ensures exists src :: src in ids && src in after && SameMail(after, origin, src)
  {
    var m :| m in after && SameMail(after, m, origin) && after[m].seen && after[m].live;
    if origin in ids {
      assert SameMail(after, origin, origin);
    } else {
      assert Unremarkable(before, after, origin);
      assert m !in ids ==> IsRead(before, origin) by {
        assert m !in ids ==> Unremarkable(before, after, m) && m in before && SameMail(before, m, origin);
      }
      assert SameMail(after, origin, m);
    }
  }

  /** Where no unresolved alert was resolvable before, resolving for the mail of the rows `ids` alone
      resolves exactly what a full sweep would, whatever happened to those rows. */
  lemma IncrementalEqualsFull(alerts: Alerts, before: Messages, after: Messages, ids: set<nat>)
    requires Settled(alerts, before) && OnlyChanged(before, after, ids)
    ensures Resolve(alerts, after, OfMessages(alerts, after, ids)) == Resolve(alerts, after, alerts.Keys)
  {
    forall id | id in alerts && Resolvable(alerts, after, id) ensures id in OfMessages(alerts, after, ids) {
      assert !Resolvable(alerts, before, id);
      NewlyReadIsOfTheChanged(before, after, ids, alerts[id].message);
    }
  }

  /** On any table, the two agree exactly when no resolvable alert lies outside the scope. */
  lemma IncrementalEqualsFullIff(alerts: Alerts, messages: Messages, ids: set<nat>)
    ensures Resolve(alerts, messages, OfMessages(alerts, messages, ids))
            == Resolve(alerts, messages, alerts.Keys) <==>
            forall id :: id in alerts && Resolvable(alerts, messages, id) ==> id in OfMessages(alerts, messages, ids)
  {
    var some := Resolve(alerts, messages, OfMessages(alerts, messages, ids));
    var all := Resolve(alerts, messages, alerts.Keys);
    if some == all {
      forall id | id in alerts && Resolvable(alerts, messages, id) ensures id in OfMessages(alerts, messages, ids) {
        assert all[id].dismissed && some[id].dismissed;
      }
    }
  }

  /** A sweep leaves nothing to resolve and removes no alert: each resolved one stays as the
      record of its dedupe key, out of the staging queue. */
  lemma SweepSettles(alerts: Alerts, messages: Messages)
    ensures var after := Resolve(alerts, messages, alerts.Keys);
            && Settled(after, messages) && after.Keys == alerts.Keys
            && (forall id :: id in alerts ==> after[id].key == alerts[id].key)
            && (forall id :: Resolvable(alerts, messages, id) ==> id !in Staged(after))
            && Resolve(after, messages, after.Keys) == after
  {
    var after := Resolve(alerts, messages, alerts.Keys);
    forall id | id in after ensures !Resolvable(after, messages, id) {
      assert Resolvable(after, messages, id) ==> Resolvable(alerts, messages, id);
    }
  }

  // ---------- Over whole runs ----------

  /** What happens to mail and alerts. Some rows change, and the server reacts to those inserted or
      read or unread; an alert is created and, as the immediate path does, resolved at birth if its
      mail is read; or one is staged, and the handler of the same arrival resolves for its message
      afterwards. */
  datatype Happening =
    | Changed(messages: Messages, reactedTo: set<nat>)
    | Created(id: nat, alert: Alert)
    | StagedFor(id: nat, alert: Alert)

  ghost predicate Follows(messages: Messages, alerts: Alerts, h: Happening) {
    match h
    case Changed(after, ids) => OnlyChanged(messages, after, ids)
    case Created(id, _) => id !in alerts
    case StagedFor(id, _) => id !in alerts
  }

  function MessagesAfter(messages: Messages, h: Happening): Messages {
    if h.Changed? then h.messages else messages
  }

  function Incrementally(alerts: Alerts, messages: Messages, h: Happening): Alerts {
    match h
    case Changed(after, ids) => Resolve(alerts, after, OfMessages(alerts, after, ids))
    case Created(id, alert) => Resolve(alerts[id := alert], messages, {id})
    case StagedFor(id, alert) =>
      Resolve(alerts[id := alert], messages, OfMessages(alerts[id := alert], messages, {alert.message}))
  }

  function BySweeping(alerts: Alerts, messages: Messages, h: Happening): Alerts {
    match h
    case Changed(after, _) => Resolve(alerts, after, alerts.Keys)
    case Created(id, alert) => Resolve(alerts[id := alert], messages, alerts.Keys + {id})
    case StagedFor(id, alert) => Resolve(alerts[id := alert], messages, alerts.Keys + {id})
  }

  function RunIncrementally(alerts: Alerts, messages: Messages, hs: seq<Happening>): Alerts
    decreases |hs|
  {
    if hs == [] then alerts
    else RunIncrementally(Incrementally(alerts, messages, hs[0]), MessagesAfter(messages, hs[0]), hs[1..])
  }

  function RunSweeping(alerts: Alerts, messages: Messages, hs: seq<Happening>): Alerts
    decreases |hs|
  {
    if hs == [] then alerts
    else RunSweeping(BySweeping(alerts, messages, hs[0]), MessagesAfter(messages, hs[0]), hs[1..])
  }

  ghost predicate RunFollows(alerts: Alerts, messages: Messages, hs: seq<Happening>)
    decreases |hs|
  {
    hs == [] ||
    (&& Follows(messages, alerts, hs[0])
     && RunFollows(Incrementally(alerts, messages, hs[0]), MessagesAfter(messages, hs[0]), hs[1..]))
  }

  function LastMessages(messages: Messages, hs: seq<Happening>): Messages
    decreases |hs|
  {
    if hs == [] then messages else LastMessages(MessagesAfter(messages, hs[0]), hs[1..])
  }

  lemma OneHappening(alerts: Alerts, messages: Messages, h: Happening)
    requires Settled(alerts, messages) && Follows(messages, alerts, h)
    ensures Incrementally(alerts, messages, h) == BySweeping(alerts, messages, h)
    ensures Settled(BySweeping(alerts, messages, h), MessagesAfter(messages, h))
  {
    match h
    case Changed(after, ids) =>
      IncrementalEqualsFull(alerts, messages, after, ids);
      SweepSettles(alerts, after);
    case Created(id, alert) =>
      OneMoreAlert(alerts, messages, id, alert, {id});
    case StagedFor(id, alert) =>
      assert IsRead(messages, alert.message) ==> SameMail(messages, alert.message, alert.message);
      OneMoreAlert(alerts, messages, id, alert, OfMessages(alerts[id := alert], messages, {alert.message}));
  }

  /** One more alert on a settled table: any scope that holds it if its mail is read will do. */
  lemma OneMoreAlert(alerts: Alerts, messages: Messages, id: nat, alert: Alert, scope: set<nat>)
    requires Settled(alerts, messages) && id !in alerts && (IsRead(messages, alert.message) ==> id in scope)
    ensures Resolve(alerts[id := alert], messages, scope)
            == Resolve(alerts[id := alert], messages, alerts.Keys + {id})
    ensures Settled(Resolve(alerts[id := alert], messages, alerts.Keys + {id}), messages)
  {
    var created := alerts[id := alert];
    assert created.Keys == alerts.Keys + {id};
    forall other | other in alerts ensures !Resolvable(created, messages, other) {
      assert !Resolvable(alerts, messages, other);
    }
    assert ResolvableIn(created, messages, scope) == ResolvableIn(created, messages, created.Keys);
    SweepSettles(created, messages);
  }

  /** Reacting to each change alone keeps the table, over any run, exactly as sweeping everything
      after each change would, and never leaves anything to sweep. */
  lemma {:induction false} IncrementalRunsNeedNoSweep(alerts: Alerts, messages: Messages, hs: seq<Happening>)
    requires Settled(alerts, messages) && RunFollows(alerts, messages, hs)
    ensures RunIncrementally(alerts, messages, hs) == RunSweeping(alerts, messages, hs)
    ensures Settled(RunIncrementally(alerts, messages, hs), LastMessages(messages, hs))
    decreases |hs|
  {
    if hs != [] {
      OneHappening(alerts, messages, hs[0]);
      IncrementalRunsNeedNoSweep(Incrementally(alerts, messages, hs[0]), MessagesAfter(messages, hs[0]), hs[1..]);
    }
  }
}
