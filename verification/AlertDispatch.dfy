/** Turning arrivals into alerts and staged alerts into announcements
    (src/mail_verdict/alerts/dispatch.py; src/mail_verdict/database/repository.py,
    create_mail_alert): the code paths one at a time, each against the table functions the run
    theorems of AlertProtocol are about. */
module AlertDispatch {
  import opened Sequences
  import opened AlertTable
  import P = AlertProtocol

  function ToSet(ids: seq<nat>): set<nat> {
    set id | id in ids
  }

  function DropsIt(alerts: Alerts, messages: Messages, cutoff: int): nat -> bool {
    (id: nat) => id in alerts && Decide(alerts[id], messages, cutoff) == Drop
  }

  function DeliversIt(alerts: Alerts, messages: Messages, cutoff: int): nat -> bool {
    (id: nat) => id in alerts && Decide(alerts[id], messages, cutoff).Deliver?
  }

  /** The table once staged alerts whose mail is read are resolved. */
  function StagedResolved(alerts: Alerts, messages: Messages): Alerts {
    Resolve(alerts, messages, Staged(alerts))
  }

  /** The candidates to deliver, in the order selected. */
  function Outbox(batch: seq<nat>, alerts: Alerts, messages: Messages, cutoff: int): seq<nat> {
    Filter(batch, DeliversIt(alerts, messages, cutoff))
  }

  /** One announcement each, in order, under the alert's dedupe key. */
  function Announcements(alerts: Alerts, ids: seq<nat>): seq<P.Announcement>
    requires forall id :: id in ids ==> id in alerts
  {
    if ids == [] then []
    else Announcements(alerts, ids[..|ids| - 1]) + [P.Announcement(ids[|ids| - 1], alerts[ids[|ids| - 1]].key)]
  }

  lemma {:induction false} AnnouncementsAre(alerts: Alerts, ids: seq<nat>, i: nat)
    requires (forall id :: id in ids ==> id in alerts) && i < |ids|
    ensures |Announcements(alerts, ids)| == |ids|
    ensures Announcements(alerts, ids)[i] == P.Announcement(ids[i], alerts[ids[i]].key)
  {
    var before := ids[..|ids| - 1];
    if i < |before| {
      AnnouncementsAre(alerts, before, i);
    } else if before != [] {
      AnnouncementsAre(alerts, before, 0);
    }
  }

  /** Alerts to deliver, each with the folder decided for it. */
  ghost predicate AsDecided(ids: seq<nat>, folders: seq<nat>, alerts: Alerts, messages: Messages, cutoff: int) {
    && |ids| == |folders|
    && forall i :: 0 <= i < |ids| ==>
         ids[i] in alerts && Decide(alerts[ids[i]], messages, cutoff) == AlertTable.Deliver(folders[i])
  }

  lemma DecidedToo(
    ids: seq<nat>, folders: seq<nat>, id: nat, folder: nat, alerts: Alerts, messages: Messages, cutoff: int)
    requires AsDecided(ids, folders, alerts, messages, cutoff)
    requires id in alerts && Decide(alerts[id], messages, cutoff) == AlertTable.Deliver(folder)
    ensures AsDecided(ids + [id], folders + [folder], alerts, messages, cutoff)
  {
  }

  /** Delivering one more alert, with the folder decided for it. */
  lemma DeliverOne(alerts: Alerts, messages: Messages, cutoff: int, ids: set<nat>, id: nat, folder: nat)
    requires id in alerts && id !in ids && Decide(alerts[id], messages, cutoff) == AlertTable.Deliver(folder)
    ensures WithDelivered(alerts, messages, cutoff, ids)[id := alerts[id].(folder := Some(folder), delivered := true)]
            == WithDelivered(alerts, messages, cutoff, ids + {id})
  {
  }

  lemma FilterOneMore<T>(s: seq<T>, i: nat, p: T -> bool)
    requires i < |s|
    ensures Filter(s[..i + 1], p) == if p(s[i]) then Filter(s[..i], p) + [s[i]] else Filter(s[..i], p)
  {
    FilterConcat(s[..i], [s[i]], p);
    assert s[..i + 1] == s[..i] + [s[i]];
    assert [s[i]][1..] == [];
  }

  lemma TickIsValid(alerts: Alerts, messages: Messages, cutoff: int, batch: set<nat>, nextId: nat)
    requires P.UniqueKeys(alerts) && forall id :: id in alerts ==> id < nextId
    ensures var after := Finalized(StagedResolved(alerts, messages), messages, cutoff, batch);
            P.UniqueKeys(after) && forall id :: id in after ==> id < nextId
  {
    var after := Finalized(StagedResolved(alerts, messages), messages, cutoff, batch);
    assert forall id :: id in after ==> id in alerts && after[id].key == alerts[id].key;
  }

  class AlertStore {
    var messages: Messages
    var alerts: Alerts
    var nextId: nat

    /** What has gone out over SSE and push. */
    var announced: seq<P.Announcement>

    constructor (messages: Messages)
      ensures Valid() && this.messages == messages && alerts == map[] && announced == []
    {
      this.messages, alerts, nextId, announced := messages, map[], 0, [];
    }

    /** The primary key, and the unique index on dedupe_key. */
    ghost predicate Valid()
      reads this
    {
      (forall id :: id in alerts ==> id < nextId) && P.UniqueKeys(alerts)
    }

    /** INSERT ... ON CONFLICT (dedupe_key) DO NOTHING RETURNING */
    method CreateMailAlert(
      key: nat, account: nat, message: nat, folder: Option<nat>, createdAt: int, delivered: bool)
      returns (id: Option<nat>)
      requires Valid()
      modifies `alerts, `nextId
      ensures Valid()
      ensures id.None? <==> P.KeyTaken(old(alerts), key)
      ensures id.None? ==> alerts == old(alerts) && nextId == old(nextId)
      ensures id.Some? ==>
                && id.value == old(nextId) && id.value !in old(alerts) && nextId == old(nextId) + 1
                && alerts == old(alerts)[id.value := Alert(key, account, message, folder, createdAt, delivered, false)]
    {
      if P.KeyTaken(alerts, key) {
        return None;
      }
      id := Some(nextId);
      alerts := alerts[nextId := Alert(key, account, message, folder, createdAt, delivered, false)];
      nextId := nextId + 1;
    }

    /** The UPDATE every resolver shares, on the alerts in scope; returns those it stamped. */
    method Resolve(scope: set<nat>) returns (resolved: set<nat>)
      modifies `alerts
      ensures resolved == ResolvableIn(old(alerts), messages, scope)
      ensures alerts == AlertTable.Resolve(old(alerts), messages, scope)
    {
      resolved := ResolvableIn(alerts, messages, scope);
      alerts := Stamped(alerts, resolved);
    }

    method Deliver(id: nat)
      requires id in alerts
      modifies `announced
      ensures announced == old(announced) + [P.Announcement(id, alerts[id].key)]
    {
      announced := announced + [P.Announcement(id, alerts[id].key)];
    }

    /** The immediate path, undisturbed: a new arrival is announced exactly when its row is there, its
        key new and its mail unread; a repeated one, or one whose row is gone, changes nothing. */
    method InsertAndDeliver(key: nat, account: nat, message: nat, folder: Option<nat>, createdAt: int)
      requires Valid()
      modifies `alerts, `nextId, `announced
      ensures Valid()
      ensures message !in messages || P.KeyTaken(old(alerts), key) ==>
                alerts == old(alerts) && announced == old(announced)
      ensures message in messages && !P.KeyTaken(old(alerts), key) ==>
                var id := old(nextId);
                var read := IsRead(messages, message);
                && alerts == old(alerts)[id := Alert(key, account, message, folder, createdAt, true, read)]
                && announced == if read then old(announced) else old(announced) + [P.Announcement(id, key)]
    {
      if message !in messages {
        return;
      }
      var inserted := CreateMailAlert(key, account, message, folder, createdAt, true);
      if inserted.None? {
        return;
      }
      var resolved := Resolve({inserted.value});
      if resolved != {} {
        assert resolved == {inserted.value} by {
          assert forall id :: id in resolved ==> id == inserted.value;
        }
        return;
      }
      assert inserted.value !in resolved;
      Deliver(inserted.value);
    }

    /** The staged path: the same insert, undelivered, and nothing announced. */
    method Stage(key: nat, account: nat, message: nat, folder: Option<nat>, createdAt: int)
      requires Valid()
      modifies `alerts, `nextId
      ensures Valid()
      ensures alerts == if message !in messages || P.KeyTaken(old(alerts), key) then old(alerts)
                        else old(alerts)[old(nextId) := Alert(key, account, message, folder, createdAt, false, false)]
    {
      if message !in messages {
        return;
      }
      var _ := CreateMailAlert(key, account, message, folder, createdAt, false);
    }

    /** The candidates into those to drop and those to deliver, with the folder each is in now. */
    method Sort(batch: seq<nat>, cutoff: int) returns (toDrop: seq<nat>, toDeliver: seq<nat>, folders: seq<nat>)
      requires forall id :: id in batch ==> id in alerts
      ensures toDrop == Filter(batch, DropsIt(alerts, messages, cutoff))
      ensures toDeliver == Filter(batch, DeliversIt(alerts, messages, cutoff))
      ensures AsDecided(toDeliver, folders, alerts, messages, cutoff)
    {
      toDrop, toDeliver, folders := [], [], [];
      for i := 0 to |batch|
        invariant toDrop == Filter(batch[..i], DropsIt(alerts, messages, cutoff))
        invariant toDeliver == Filter(batch[..i], DeliversIt(alerts, messages, cutoff))
        invariant AsDecided(toDeliver, folders, alerts, messages, cutoff)
      {
        var id := batch[i];
        var a := alerts[id];
        FilterOneMore(batch, i, DropsIt(alerts, messages, cutoff));
        FilterOneMore(batch, i, DeliversIt(alerts, messages, cutoff));
        if a.message !in messages || messages[a.message].account != a.account || !messages[a.message].live {
          toDrop := toDrop + [id];
        } else {
          var m := messages[a.message];
          var terminal := m.run.Some? && m.run.value !in {"pending", "claimed"};
          var neverEligible := m.draft || m.specialUse in SKIP_FOLDER_SPECIAL_USE;
          if terminal || neverEligible || a.createdAt <= cutoff {
            DecidedToo(toDeliver, folders, id, m.folder, alerts, messages, cutoff);
            toDeliver, folders := toDeliver + [id], folders + [m.folder];
          }
        }
      }
      assert batch[..|batch|] == batch;
    }

    method Drop(toDrop: seq<nat>)
      modifies `alerts
      ensures alerts == old(alerts) - ToSet(toDrop)
    {
      for i := 0 to |toDrop|
        invariant alerts == old(alerts) - ToSet(toDrop[..i])
      {
        alerts := alerts - {toDrop[i]};
        assert ToSet(toDrop[..i + 1]) == ToSet(toDrop[..i]) + {toDrop[i]};
      }
      assert toDrop[..|toDrop|] == toDrop;
    }

    /** Stamps each alert still undelivered, and returns those it stamped. */
    method StampDelivered(toDeliver: seq<nat>, folders: seq<nat>, ghost cutoff: int) returns (delivered: seq<nat>)
      requires Distinct(toDeliver) && AsDecided(toDeliver, folders, alerts, messages, cutoff)
      requires forall id :: id in toDeliver ==> !alerts[id].delivered
      modifies `alerts
      ensures delivered == toDeliver
      ensures alerts == WithDelivered(old(alerts), messages, cutoff, ToSet(delivered))
    {
      delivered := [];
      for i := 0 to |toDeliver|
        invariant delivered == toDeliver[..i]
        invariant alerts == WithDelivered(old(alerts), messages, cutoff, ToSet(delivered))
      {
        var id := toDeliver[i];
        assert id in toDeliver && id !in delivered;
        if !alerts[id].delivered {
          DeliverOne(old(alerts), messages, cutoff, ToSet(delivered), id, folders[i]);
          alerts := alerts[id := alerts[id].(folder := Some(folders[i]), delivered := true)];
          assert ToSet(delivered + [id]) == ToSet(delivered) + {id};
          delivered := delivered + [id];
        }
      }
      assert toDeliver[..|toDeliver|] == toDeliver;
    }

    method DeliverAll(delivered: seq<nat>)
      requires forall id :: id in delivered ==> id in alerts
      modifies `announced
      ensures announced == old(announced) + Announcements(alerts, delivered)
    {
      for i := 0 to |delivered|
        invariant announced == old(announced) + Announcements(alerts, delivered[..i])
      {
        Deliver(delivered[i]);
        assert delivered[..i + 1][..i] == delivered[..i];
      }
      assert delivered[..|delivered|] == delivered;
    }

    /** The second statement's half of a tick: every candidate dropped, delivered or left. */
    method Settle(batch: seq<nat>, cutoff: int) returns (delivered: seq<nat>)
      requires Distinct(batch) && ToSet(batch) <= Staged(alerts)
      modifies `alerts
      ensures alerts == Finalized(old(alerts), messages, cutoff, ToSet(batch))
      ensures delivered == Outbox(batch, old(alerts), messages, cutoff)
      ensures forall id :: id in delivered ==> id in alerts
    {
      ghost var seen := alerts;
      assert forall id :: id in batch ==> id in ToSet(batch);
      var toDrop, toDeliver, folders := Sort(batch, cutoff);
      DropsAreDropped(seen, messages, cutoff, batch);
      Drop(toDrop);
      DeliveriesAreDelivered(seen, messages, cutoff, batch, folders);
      delivered := StampDelivered(toDeliver, folders, cutoff);
    }

    /** The transaction of a tick and then its announcements. */
    method Tick(batch: seq<nat>, cutoff: int)
      requires Distinct(batch)
      requires ToSet(batch) <= Staged(StagedResolved(alerts, messages))
      modifies `alerts, `announced
      ensures alerts == Finalized(StagedResolved(old(alerts), messages), messages, cutoff, ToSet(batch))
      ensures Announces(old(announced), Outbox(batch, StagedResolved(old(alerts), messages), messages, cutoff))
    {
      var _ := Resolve(Staged(alerts));
      var delivered := Settle(batch, cutoff);
      DeliverAll(delivered);
    }

    /** The announcements are those before, and one for each of `out`, in order. */
    ghost predicate Announces(before: seq<P.Announcement>, out: seq<nat>)
      reads this
    {
      (forall id :: id in out ==> id in alerts) && announced == before + Announcements(alerts, out)
    }

    /** One tick, undisturbed: the table it leaves and what it announces. `batch` is what the SELECT
        returns of the alerts still staged once those whose mail is read are resolved. */
    method FinalizeOnce(batch: seq<nat>, cutoff: int)
      requires Valid() && Distinct(batch)
      requires ToSet(batch) <= Staged(StagedResolved(alerts, messages))
      modifies `alerts, `announced
      ensures Valid()
      ensures alerts == Finalized(StagedResolved(old(alerts), messages), messages, cutoff, ToSet(batch))
      ensures Announces(old(announced), Outbox(batch, StagedResolved(old(alerts), messages), messages, cutoff))
    {
      TickIsValid(alerts, messages, cutoff, ToSet(batch), nextId);
      Tick(batch, cutoff);
    }
  }

  lemma DropsAreDropped(seen: Alerts, messages: Messages, cutoff: int, batch: seq<nat>)
    ensures ToSet(Filter(batch, DropsIt(seen, messages, cutoff))) == Dropped(seen, messages, cutoff, ToSet(batch))
  {
    FilterMembers(batch, DropsIt(seen, messages, cutoff));
  }

  lemma DeliveriesAreDelivered(seen: Alerts, messages: Messages, cutoff: int, batch: seq<nat>, folders: seq<nat>)
    requires Distinct(batch) && ToSet(batch) <= Staged(seen)
    requires AsDecided(Filter(batch, DeliversIt(seen, messages, cutoff)), folders, seen, messages, cutoff)
    ensures ToSet(Filter(batch, DeliversIt(seen, messages, cutoff))) == Delivered(seen, messages, cutoff, ToSet(batch))
    ensures var left := seen - Dropped(seen, messages, cutoff, ToSet(batch));
            var ids := Filter(batch, DeliversIt(seen, messages, cutoff));
            && Distinct(ids) && AsDecided(ids, folders, left, messages, cutoff)
            && forall id :: id in ids ==> id in left && !left[id].delivered
  {
    FilterMembers(batch, DeliversIt(seen, messages, cutoff));
    FilterDistinct(batch, DeliversIt(seen, messages, cutoff));
    forall id | id in Filter(batch, DeliversIt(seen, messages, cutoff)) ensures id in Staged(seen) {
      assert id in ToSet(batch);
    }
  }

  /** An undisturbed tick is the run steps of its two statements, one after the other. */
  lemma TickIsTwoSteps(s: P.State, batch: seq<nat>, cutoff: int)
    requires s.tick.None? && ToSet(batch) <= Staged(StagedResolved(s.alerts, s.messages))
    requires |ToSet(batch)| <= FINALIZE_BATCH_SIZE
    ensures var begun := P.Next(s, P.TickBegins);
            && P.Enabled(begun, P.TickCommits(ToSet(batch), cutoff))
            && P.Next(begun, P.TickCommits(ToSet(batch), cutoff)).alerts
               == Finalized(StagedResolved(s.alerts, s.messages), s.messages, cutoff, ToSet(batch))
  {
    assert P.SeenByTick(P.Next(s, P.TickBegins)) == StagedResolved(s.alerts, s.messages);
  }
}
