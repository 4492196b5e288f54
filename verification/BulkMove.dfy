/** The bulk move of named messages (src/mail_verdict/api/mails.py, _apply_bulk_action with its
    move_groups and _write_guards; src/mail_verdict/postimap/actions.py): ids are checked once
    against the folders the caller saw them in, then moved by one guarded statement per folder,
    while other sessions move, expunge or add messages between any two statements. */
module BulkMove {
  import opened Sequences

  datatype Msg = Msg(account: nat, folder: nat, live: bool, seen: bool, imapUid: Option<nat>)

  /** One UPDATE: the mailbox it met, the folder it was guarded to, and the ids it moved. */
  datatype Write = Write(before: map<nat, Msg>, expected: Option<nat>, moved: seq<nat>)

  datatype Group = Group(expected: Option<nat>, ids: seq<nat>)

  datatype Response = Response(affected: nat, skipped: seq<nat>)

  datatype BulkError = CountChanged(now: nat) | ForeignTarget

  // ---------- Which ids are acted on ----------

  /** The caller saw the message in a folder other than the one it is in. */
  predicate Elsewhere(id: nat, live: map<nat, nat>, guards: map<nat, nat>) {
    id in live && id in guards && guards[id] != live[id]
  }

  function ToMove(live: map<nat, nat>, guards: map<nat, nat>): nat -> bool {
    (id: nat) => id in live && !Elsewhere(id, live, guards)
  }

  function ToSkip(live: map<nat, nat>, guards: map<nat, nat>, target: nat): nat -> bool {
    (id: nat) => id !in live || (Elsewhere(id, live, guards) && live[id] != target)
  }

  /** Not where the caller saw it, because it already is where the action files it. */
  predicate AlreadyThere(id: nat, live: map<nat, nat>, guards: map<nat, nat>, target: nat) {
    Elsewhere(id, live, guards) && live[id] == target
  }

  /** The folder a message's write is guarded to. */
  function WriteGuard(live: map<nat, nat>, guards: map<nat, nat>): nat -> Option<nat> {
    (id: nat) => if id in guards && id in live then Some(live[id]) else None
  }

  /** Each distinct id once, in the order first named, into those to move and those to skip. */
  method Classify(ids: seq<nat>, live: map<nat, nat>, guards: map<nat, nat>, target: nat)
    returns (toMove: seq<nat>, skipped: seq<nat>)
    ensures Distinct(toMove) && Distinct(skipped)
    ensures forall id :: id in toMove <==> id in ids && ToMove(live, guards)(id)
    ensures forall id :: id in skipped <==> id in ids && ToSkip(live, guards, target)(id)
  {
    toMove, skipped := [], [];
    var seen: set<nat> := {};
    for i := 0 to |ids|
      invariant forall id :: id in seen <==> id in ids[..i]
      invariant Distinct(toMove) && Distinct(skipped)
      invariant forall id :: id in toMove <==> id in seen && ToMove(live, guards)(id)
      invariant forall id :: id in skipped <==> id in seen && ToSkip(live, guards, target)(id)
    {
      var id := ids[i];
      assert ids[..i + 1] == ids[..i] + [id];
      if id !in seen {
        seen := seen + {id};
        if Elsewhere(id, live, guards) {
          if live[id] != target {
            skipped := skipped + [id];
          }
        } else if id !in live {
          skipped := skipped + [id];
        } else {
          toMove := toMove + [id];
        }
      }
    }
    assert ids[..|ids|] == ids;
  }

  // ---------- Grouping by guard ----------

  /** A dict of lists, its keys in insertion order. */
  datatype Groups = Groups(keys: seq<Option<nat>>, ids: map<Option<nat>, seq<nat>>)

  /** Every id in one group, that of its guard. */
  ghost predicate Grouping(groups: Groups, ids: seq<nat>, guardOf: nat -> Option<nat>) {
    && Distinct(groups.keys)
    && (forall k :: k in groups.keys <==> k in groups.ids)
    && (forall id :: id in ids ==> guardOf(id) in groups.ids)
    && (forall k :: k in groups.ids ==> OfGuard(groups.ids[k], ids, guardOf, k))
  }

  ghost predicate OfGuard(some: seq<nat>, ids: seq<nat>, guardOf: nat -> Option<nat>, k: Option<nat>) {
    Distinct(some) && forall id :: id in some <==> id in ids && guardOf(id) == k
  }

  /** groups.setdefault(expected, []).append(id) */
  function Appended(groups: Groups, expected: Option<nat>, id: nat): Groups {
    if expected in groups.ids then Groups(groups.keys, groups.ids[expected := groups.ids[expected] + [id]])
    else Groups(groups.keys + [expected], groups.ids[expected := [id]])
  }

  lemma AppendKeepsGrouping(groups: Groups, ids: seq<nat>, guardOf: nat -> Option<nat>, id: nat)
    requires Grouping(groups, ids, guardOf) && id !in ids
    ensures Grouping(Appended(groups, guardOf(id), id), ids + [id], guardOf)
  {
    var expected := guardOf(id);
    var after := Appended(groups, expected, id);
    forall k | k in after.ids ensures OfGuard(after.ids[k], ids + [id], guardOf, k) {
      if k in groups.ids {
        assert OfGuard(groups.ids[k], ids, guardOf, k);
      }
    }
  }

  method GroupByGuard(ids: seq<nat>, guardOf: nat -> Option<nat>) returns (groups: Groups)
    requires Distinct(ids)
    ensures Grouping(groups, ids, guardOf)
  {
    groups := Groups([], map[]);
    for i := 0 to |ids|
      invariant Grouping(groups, ids[..i], guardOf)
    {
      assert ids[..i + 1] == ids[..i] + [ids[i]] && ids[i] !in ids[..i];
      AppendKeepsGrouping(groups, ids[..i], guardOf, ids[i]);
      groups := Appended(groups, guardOf(ids[i]), ids[i]);
    }
    assert ids[..|ids|] == ids;
  }

  // ---------- The mailbox ----------

  /** The folder each named live message of the account is in. */
  function LiveFolders(rows: map<nat, Msg>, account: nat, ids: seq<nat>): map<nat, nat> {
    map id | id in rows && id in ids && rows[id].account == account && rows[id].live :: rows[id].folder
  }

  function Moved(rows: map<nat, Msg>, ids: seq<nat>, target: nat): map<nat, Msg> {
    map id | id in rows :: if id in ids then rows[id].(folder := target, imapUid := None) else rows[id]
  }

  function MarkedSeen(rows: map<nat, Msg>, ids: seq<nat>): map<nat, Msg> {
    map id | id in rows :: if id in ids then rows[id].(seen := true) else rows[id]
  }

  function NotIn(rows: map<nat, Msg>, target: nat): nat -> bool {
    (id: nat) => id in rows && rows[id].folder != target
  }

  function StillIn(rows: map<nat, Msg>, source: nat): nat -> bool {
    (id: nat) => id in rows && rows[id].folder == source && rows[id].live
  }

  /** A move files the named rows in the target, without the UID they had elsewhere, and changes
      nothing else of them and nothing of the others; so does marking read, but for `seen`. */
  lemma MovedIs(rows: map<nat, Msg>, ids: seq<nat>, target: nat, id: nat)
    requires id in rows
    ensures id in Moved(rows, ids, target) && id in MarkedSeen(rows, ids)
    ensures var r, m := rows[id], Moved(rows, ids, target)[id];
            if id in ids then m == Msg(r.account, target, r.live, r.seen, None) else m == r
    ensures var r, m := rows[id], MarkedSeen(rows, ids)[id];
            if id in ids then m == Msg(r.account, r.folder, r.live, true, r.imapUid) else m == r
  {
  }

  function Only(rows: map<nat, Msg>, ids: set<nat>): map<nat, Msg> {
    map id | id in rows && id in ids :: rows[id]
  }

  // ---------- What a request's statements keep ----------

  /** A statement moves only messages of its group, and a guarded one only those still live in
      the folder they were expected in. */
  ghost predicate GuardKept(w: Write, ids: seq<nat>, guardOf: nat -> Option<nat>, target: nat) {
    forall id :: id in w.moved ==>
      && id in ids && guardOf(id) == w.expected && NotIn(w.before, target)(id)
      && (w.expected.Some? ==> StillIn(w.before, w.expected.value)(id))
  }

  ghost predicate WrittenBy(log: seq<Write>, id: nat) {
    exists w :: w in log && id in w.moved
  }

  /** Why an id counts as landed: written, or its write would have been no write. */
  ghost predicate Landed(log: seq<Write>, id: nat, guard: Option<nat>, target: nat) {
    guard.None? || guard.value == target || WrittenBy(log, id)
  }

  /** Why an id counts as skipped: the statement for its folder found it there no more. */
  ghost predicate Missed(log: seq<Write>, id: nat, guard: Option<nat>, target: nat) {
    && guard.Some? && guard.value != target
    && exists w :: w in log && w.expected == guard && !StillIn(w.before, guard.value)(id)
  }

  /** What moving some of the groups has done: `keys` are those done. */
  ghost predicate GroupsDone(
    keys: seq<Option<nat>>, ids: seq<nat>, guardOf: nat -> Option<nat>, target: nat,
    log: seq<Write>, landed: seq<nat>, skipped: seq<nat>)
  {
    && (forall w :: w in log ==> w.expected in keys && GuardKept(w, ids, guardOf, target))
    && (forall i, j :: 0 <= i < j < |log| ==> log[i].expected != log[j].expected)
    && (forall id :: id in ids && guardOf(id) in keys <==> id in landed || id in skipped)
    && (forall id :: id in landed ==> Landed(log, id, guardOf(id), target))
    && (forall id :: id in skipped ==> Missed(log, id, guardOf(id), target))
  }

  lemma SkippedIsNotWritten(
    keys: seq<Option<nat>>, ids: seq<nat>, guardOf: nat -> Option<nat>, target: nat,
    log: seq<Write>, landed: seq<nat>, skipped: seq<nat>, id: nat)
    requires GroupsDone(keys, ids, guardOf, target, log, landed, skipped) && id in skipped
    ensures !WrittenBy(log, id) && id !in landed
  {
    assert Missed(log, id, guardOf(id), target);
    var w :| w in log && w.expected == guardOf(id) && !StillIn(w.before, guardOf(id).value)(id);
    forall v | v in log ensures id !in v.moved {
      assert GuardKept(v, ids, guardOf, target);
      if v.expected == w.expected {
        OneStatementPerGuard(log, v, w);
      }
    }
    assert id in landed ==> Landed(log, id, guardOf(id), target);
  }

  lemma OneStatementPerGuard(log: seq<Write>, v: Write, w: Write)
    requires forall i, j :: 0 <= i < j < |log| ==> log[i].expected != log[j].expected
    requires v in log && w in log && v.expected == w.expected
    ensures v == w
  {
    var i :| 0 <= i < |log| && log[i] == v;
    var j :| 0 <= j < |log| && log[j] == w;
  }

  /** One more statement: what it keeps of the groups already done. */
  lemma StepKeeps(
    keys: seq<Option<nat>>, ids: seq<nat>, guardOf: nat -> Option<nat>, target: nat,
    log: seq<Write>, landed: seq<nat>, skipped: seq<nat>, k: Option<nat>, more: seq<Write>)
    requires GroupsDone(keys, ids, guardOf, target, log, landed, skipped) && k !in keys
    requires |more| <= 1 && forall w :: w in more ==> w.expected == k && GuardKept(w, ids, guardOf, target)
    ensures forall w :: w in log + more ==> w.expected in keys + [k] && GuardKept(w, ids, guardOf, target)
    ensures forall i, j :: 0 <= i < j < |log + more| ==> (log + more)[i].expected != (log + more)[j].expected
    ensures forall id :: id in landed ==> Landed(log + more, id, guardOf(id), target)
    ensures forall id :: id in skipped ==> Missed(log + more, id, guardOf(id), target)
  {
    forall i, j | 0 <= i < j < |log + more| ensures (log + more)[i].expected != (log + more)[j].expected {
      assert log[i] in log;
    }
    forall id | id in landed ensures Landed(log + more, id, guardOf(id), target) {
      assert Landed(log, id, guardOf(id), target);
      if WrittenBy(log, id) {
        var w :| w in log && id in w.moved;
        assert w in log + more;
      }
    }
    forall id | id in skipped ensures Missed(log + more, id, guardOf(id), target) {
      assert Missed(log, id, guardOf(id), target);
      var w :| w in log && w.expected == guardOf(id) && !StillIn(w.before, guardOf(id).value)(id);
      assert w in log + more;
    }
  }

  lemma UnguardedStep(
    keys: seq<Option<nat>>, ids: seq<nat>, guardOf: nat -> Option<nat>, target: nat,
    log: seq<Write>, landed: seq<nat>, skipped: seq<nat>, group: seq<nat>, w: Write)
    requires GroupsDone(keys, ids, guardOf, target, log, landed, skipped)
    requires None !in keys && OfGuard(group, ids, guardOf, None)
    requires w.expected == None && w.moved == Filter(group, NotIn(w.before, target))
    ensures GroupsDone(keys + [None], ids, guardOf, target, log + [w], landed + group, skipped)
  {
    FilterMembers(group, NotIn(w.before, target));
    StepKeeps(keys, ids, guardOf, target, log, landed, skipped, None, [w]);
  }

  lemma AlreadyThereStep(
    keys: seq<Option<nat>>, ids: seq<nat>, guardOf: nat -> Option<nat>, target: nat,
    log: seq<Write>, landed: seq<nat>, skipped: seq<nat>, group: seq<nat>)
    requires GroupsDone(keys, ids, guardOf, target, log, landed, skipped)
    requires Some(target) !in keys && OfGuard(group, ids, guardOf, Some(target))
    ensures GroupsDone(keys + [Some(target)], ids, guardOf, target, log, landed + group, skipped)
  {
    StepKeeps(keys, ids, guardOf, target, log, landed, skipped, Some(target), []);
    assert log + [] == log;
  }

  lemma GuardedStep(
    keys: seq<Option<nat>>, ids: seq<nat>, guardOf: nat -> Option<nat>, target: nat,
    log: seq<Write>, landed: seq<nat>, skipped: seq<nat>, group: seq<nat>, w: Write, source: nat)
    requires GroupsDone(keys, ids, guardOf, target, log, landed, skipped)
    requires Some(source) !in keys && OfGuard(group, ids, guardOf, Some(source)) && source != target
    requires w.expected == Some(source) && w.moved == Filter(group, StillIn(w.before, source))
    ensures GroupsDone(keys + [Some(source)], ids, guardOf, target,
                       log + [w], landed + w.moved, skipped + Filter(group, NotAmong(w.moved)))
  {
    FilterMembers(group, StillIn(w.before, source));
    FilterMembers(group, NotAmong(w.moved));
    StepKeeps(keys, ids, guardOf, target, log, landed, skipped, Some(source), [w]);
    assert w in log + [w];
  }

  function NotAmong(moved: seq<nat>): nat -> bool {
    (id: nat) => id !in moved
  }

  function ToSet(s: seq<nat>): set<nat> {
    set id | id in s
  }

  lemma {:induction false} DistinctCount(s: seq<nat>)
    requires Distinct(s)
    ensures |ToSet(s)| == |s|
  {
    if s != [] {
      DistinctCount(s[1..]);
      assert ToSet(s) == {s[0]} + ToSet(s[1..]);
    }
  }

  predicate ExactlyOne(a: bool, b: bool, c: bool) {
    (a && !b && !c) || (!a && b && !c) || (!a && !b && c)
  }

  /** What was written was asked for, and where guarded, was live in the guarded folder then. */
  ghost predicate NeverPulledBack(log: seq<Write>, ids: seq<nat>, guards: map<nat, nat>) {
    forall w, id :: w in log && id in w.moved ==>
      id in ids && (id in guards ==> StillIn(w.before, guards[id])(id))
  }

  ghost predicate Classified(
    ids: seq<nat>, live: map<nat, nat>, guards: map<nat, nat>, target: nat, toMove: seq<nat>, skipped: seq<nat>)
  {
    && (forall id :: id in toMove <==> id in ids && ToMove(live, guards)(id))
    && (forall id :: id in skipped <==> id in ids && ToSkip(live, guards, target)(id))
  }

  /** The ids the request resolves to when it is read. */
  function Resolved(ids: seq<nat>, live: map<nat, nat>, guards: map<nat, nat>): set<nat> {
    set id | id in ids && ToMove(live, guards)(id)
  }

  lemma CountOfResolved(ids: seq<nat>, live: map<nat, nat>, guards: map<nat, nat>, toMove: seq<nat>)
    requires Distinct(toMove) && forall id :: id in toMove <==> id in ids && ToMove(live, guards)(id)
    ensures |toMove| == |Resolved(ids, live, guards)|
  {
    DistinctCount(toMove);
    assert ToSet(toMove) == Resolved(ids, live, guards);
  }

  /** Every distinct id in exactly one place, skipped ones not written, landed guarded ones
      written or filed already, and no guarded message taken from anywhere but its folder. */
  ghost predicate Fulfilled(
    log: seq<Write>, ids: seq<nat>, live: map<nat, nat>, guards: map<nat, nat>, target: nat,
    landed: seq<nat>, skipped: seq<nat>)
  {
    && NeverPulledBack(log, ids, guards)
    && (forall id :: id in ids ==>
          ExactlyOne(id in landed, id in skipped, AlreadyThere(id, live, guards, target)))
    && (forall id :: id in skipped ==> id in ids && !WrittenBy(log, id))
    && (forall id :: id in landed && id in guards ==> guards[id] == target || WrittenBy(log, id))
  }

  // ---------- The same by the messages themselves ----------

  /** A message of the account that is not expunged. */
  predicate Found(rows: map<nat, Msg>, account: nat, id: nat) {
    id in rows && rows[id].account == account && rows[id].live
  }

  /** The ids whose message is there, where the caller saw it if the caller said where. */
  function Acted(rows: map<nat, Msg>, account: nat, ids: seq<nat>, guards: map<nat, nat>): set<nat> {
    set id | id in ids && Found(rows, account, id) && (id in guards ==> guards[id] == rows[id].folder)
  }

  /** Why an id is skipped: no such message; seen elsewhere by the caller, and not filed already; or
      gone from where it was seen by the time of the write. */
  ghost predicate SkippedFor(
    rows: map<nat, Msg>, account: nat, guards: map<nat, nat>, target: nat, log: seq<Write>, id: nat)
  {
    || !Found(rows, account, id)
    || (id in guards && guards[id] != rows[id].folder && rows[id].folder != target)
    || (id in guards && guards[id] == rows[id].folder && guards[id] != target
        && exists w :: w in log && w.expected == Some(guards[id]) && !StillIn(w.before, guards[id])(id))
  }

  /** Nothing but messages of the account that were there is written or counts as landed; and exactly
      the ids that have a reason to be are skipped. */
  ghost predicate ByTheMessages(
    rows: map<nat, Msg>, account: nat, ids: seq<nat>, guards: map<nat, nat>, target: nat,
    log: seq<Write>, landed: seq<nat>, skipped: seq<nat>)
  {
    && (forall id :: WrittenBy(log, id) || id in landed ==> id in Acted(rows, account, ids, guards))
    && (forall id :: id in skipped <==> id in ids && SkippedFor(rows, account, guards, target, log, id))
  }

  lemma ActedIsResolved(rows: map<nat, Msg>, account: nat, ids: seq<nat>, guards: map<nat, nat>)
    ensures Acted(rows, account, ids, guards) == Resolved(ids, LiveFolders(rows, account, ids), guards)
  {
  }

  lemma NothingActedOn(
    rows: map<nat, Msg>, account: nat, ids: seq<nat>, guards: map<nat, nat>, target: nat, skipped: seq<nat>)
    requires Classified(ids, LiveFolders(rows, account, ids), guards, target, [], skipped)
    ensures ByTheMessages(rows, account, ids, guards, target, [], [], skipped)
  {
    var live := LiveFolders(rows, account, ids);
    forall id | id in ids ensures !ToMove(live, guards)(id) {
    }
  }

  lemma ConcludeByMessages(
    rows: map<nat, Msg>, account: nat, ids: seq<nat>, guards: map<nat, nat>, target: nat,
    toMove: seq<nat>, skipped: seq<nat>, keys: seq<Option<nat>>, log: seq<Write>, landed: seq<nat>, missed: seq<nat>)
    requires Classified(ids, LiveFolders(rows, account, ids), guards, target, toMove, skipped)
    requires GroupsDone(keys, toMove, WriteGuard(LiveFolders(rows, account, ids), guards), target, log, landed, missed)
    requires forall id :: id in toMove ==> WriteGuard(LiveFolders(rows, account, ids), guards)(id) in keys
    ensures ByTheMessages(rows, account, ids, guards, target, log, landed, skipped + missed)
  {
    var live := LiveFolders(rows, account, ids);
    var guardOf := WriteGuard(live, guards);
    forall id | WrittenBy(log, id) ensures id in toMove {
      var w :| w in log && id in w.moved;
      assert GuardKept(w, toMove, guardOf, target);
    }
    forall id ensures id in skipped + missed <==> id in ids && SkippedFor(rows, account, guards, target, log, id) {
      if id in toMove {
        MissedIsSkipped(keys, toMove, guardOf, target, log, landed, missed, id);
        assert guardOf(id) == if id in guards then Some(guards[id]) else None;
      }
    }
  }

  /** What landed was found where it was expected. */
  lemma MissedIsSkipped(
    keys: seq<Option<nat>>, ids: seq<nat>, guardOf: nat -> Option<nat>, target: nat,
    log: seq<Write>, landed: seq<nat>, missed: seq<nat>, id: nat)
    requires GroupsDone(keys, ids, guardOf, target, log, landed, missed) && id in ids && guardOf(id) in keys
    ensures id in missed <==> Missed(log, id, guardOf(id), target)
  {
    if id in landed && guardOf(id).Some? && guardOf(id).value != target {
      assert Landed(log, id, guardOf(id), target);
      var w :| w in log && id in w.moved;
      assert GuardKept(w, ids, guardOf, target);
      forall v | v in log && v.expected == guardOf(id) ensures StillIn(v.before, guardOf(id).value)(id) {
        OneStatementPerGuard(log, v, w);
      }
    }
  }

  lemma NothingToMove(ids: seq<nat>, live: map<nat, nat>, guards: map<nat, nat>, target: nat, skipped: seq<nat>)
    requires Classified(ids, live, guards, target, [], skipped)
    ensures Fulfilled([], ids, live, guards, target, [], skipped)
  {
    forall id | id in ids ensures !ToMove(live, guards)(id) {
    }
  }

  lemma Conclusion(
    ids: seq<nat>, live: map<nat, nat>, guards: map<nat, nat>, target: nat, toMove: seq<nat>, skipped: seq<nat>,
    keys: seq<Option<nat>>, log: seq<Write>, landed: seq<nat>, missed: seq<nat>)
    requires Classified(ids, live, guards, target, toMove, skipped)
    requires GroupsDone(keys, toMove, WriteGuard(live, guards), target, log, landed, missed)
    requires forall id :: id in toMove ==> WriteGuard(live, guards)(id) in keys
    ensures Fulfilled(log, ids, live, guards, target, landed, skipped + missed)
  {
    var guardOf := WriteGuard(live, guards);
    forall w, id | w in log && id in w.moved
      ensures id in ids && (id in guards ==> StillIn(w.before, guards[id])(id))
    {
      assert GuardKept(w, toMove, guardOf, target);
    }
    forall id | id in missed ensures !WrittenBy(log, id) && id !in landed {
      SkippedIsNotWritten(keys, toMove, guardOf, target, log, landed, missed, id);
    }
    forall id | id in skipped ensures !WrittenBy(log, id) {
      forall w | w in log ensures id !in w.moved {
        assert GuardKept(w, toMove, guardOf, target) && id !in toMove;
      }
    }
    forall id | id in landed && id in guards ensures guards[id] == target || WrittenBy(log, id) {
      assert Landed(log, id, guardOf(id), target);
    }
  }

  // ---------- What has been written stays ----------

  /** A moved message as the statement that moved it found it, but for the folder, the UID it no
      longer has, and being read where that was asked for. */
  function Filed(was: Msg, target: nat, read: bool): Msg {
    Msg(was.account, target, was.live, was.seen || read, None)
  }

  ghost predicate AsFiled(rows: map<nat, Msg>, log: seq<Write>, target: nat, read: bool) {
    forall w, id :: w in log && id in w.moved ==>
      id in rows && id in w.before && rows[id] == Filed(w.before[id], target, read)
  }

  /** What has been written is locked, and stays as it was filed. */
  ghost predicate HeldIn(rows: map<nat, Msg>, locked: set<nat>, log: seq<Write>, target: nat) {
    (forall id :: id in locked <==> WrittenBy(log, id)) && AsFiled(rows, log, target, false)
  }

  lemma OthersKeep(rows: map<nat, Msg>, locked: set<nat>, log: seq<Write>, target: nat, others: map<nat, Msg>)
    requires HeldIn(rows, locked, log, target)
    ensures HeldIn(others + Only(rows, locked), locked, log, target)
  {
    forall w, id | w in log && id in w.moved ensures id in locked {
      assert WrittenBy(log, id);
    }
  }

  lemma UpdateKeeps(
    rows: map<nat, Msg>, locked: set<nat>, log: seq<Write>, moved: seq<nat>, expected: Option<nat>, target: nat)
    requires HeldIn(rows, locked, log, target) && forall id :: id in moved ==> NotIn(rows, target)(id)
    ensures HeldIn(Moved(rows, moved, target), locked + ToSet(moved), log + [Write(rows, expected, moved)], target)
    ensures locked !! ToSet(moved)
  {
    var w := Write(rows, expected, moved);
    forall id ensures WrittenBy(log + [w], id) <==> WrittenBy(log, id) || id in moved {
      assert (log + [w])[|log|] == w;
      if WrittenBy(log, id) {
        var v :| v in log && id in v.moved;
        assert v in log + [w];
      }
    }
    forall id | id in locked ensures id !in moved {
      var v :| v in log && id in v.moved;
    }
  }

  lemma WrittenLanded(
    keys: seq<Option<nat>>, ids: seq<nat>, guardOf: nat -> Option<nat>, target: nat,
    log: seq<Write>, landed: seq<nat>, skipped: seq<nat>)
    requires GroupsDone(keys, ids, guardOf, target, log, landed, skipped)
    ensures forall id :: WrittenBy(log, id) ==> id in landed
  {
    forall id | WrittenBy(log, id) ensures id in landed {
      var w :| w in log && id in w.moved;
      assert GuardKept(w, ids, guardOf, target);
      if id in skipped {
        SkippedIsNotWritten(keys, ids, guardOf, target, log, landed, skipped, id);
      }
    }
  }

  /** Marking the written messages read leaves them as filed and read. */
  lemma MarkingFiles(rows: map<nat, Msg>, log: seq<Write>, target: nat, ids: seq<nat>)
    requires AsFiled(rows, log, target, false) && forall id :: WrittenBy(log, id) ==> id in ids
    ensures AsFiled(MarkedSeen(rows, ids), log, target, true)
  {
    forall w, id | w in log && id in w.moved ensures id in ids {
      assert WrittenBy(log, id);
    }
  }

  // ---------- The mailbox and one request on it ----------

  class Mailbox {
    var rows: map<nat, Msg>

    /** The rows the request's transaction has written, locked until it commits. */
    var locked: set<nat>

    /** The statements of the request so far; not part of the program. */
    ghost var log: seq<Write>

    constructor (rows: map<nat, Msg>)
      ensures this.rows == rows && locked == {} && log == []
    {
      this.rows, locked, log := rows, {}, [];
    }

    ghost predicate Holds(target: nat)
      reads this
    {
      HeldIn(rows, locked, log, target)
    }

    /** Anything other sessions do between two statements: whatever mailbox they leave, but for
        the locked rows. */
    method OthersAct(others: map<nat, Msg>, ghost target: nat)
      requires Holds(target)
      modifies `rows
      ensures rows == others + Only(old(rows), locked) && Holds(target)
    {
      OthersKeep(rows, locked, log, target, others);
      rows := others + Only(rows, locked);
    }

    /** UPDATE ... WHERE id = ANY(ids) AND folder_id != target */
    method MoveMessageBulk(ids: seq<nat>, target: nat) returns (count: nat)
      requires Distinct(ids) && Holds(target)
      modifies this
      ensures var moved := Filter(ids, NotIn(old(rows), target));
              && rows == Moved(old(rows), moved, target) && count == |moved|
              && log == old(log) + [Write(old(rows), None, moved)]
              && locked == old(locked) + ToSet(moved) && old(locked) !! ToSet(moved)
      ensures Holds(target)
    {
      var moved := Filter(ids, NotIn(rows, target));
      FilterMembers(ids, NotIn(rows, target));
      Update(moved, None, target);
      count := |moved|;
    }

    /** UPDATE ... WHERE id = ANY(ids) AND folder_id = source AND expunged_at IS NULL RETURNING id */
    method MoveMessagesFrom(ids: seq<nat>, source: nat, target: nat) returns (moved: seq<nat>)
      requires Distinct(ids) && source != target && Holds(target)
      modifies this
      ensures moved == Filter(ids, StillIn(old(rows), source))
      ensures rows == Moved(old(rows), moved, target)
      ensures log == old(log) + [Write(old(rows), Some(source), moved)]
      ensures locked == old(locked) + ToSet(moved) && old(locked) !! ToSet(moved)
      ensures Holds(target)
    {
      moved := Filter(ids, StillIn(rows, source));
      FilterMembers(ids, StillIn(rows, source));
      Update(moved, Some(source), target);
    }

    method Update(moved: seq<nat>, expected: Option<nat>, target: nat)
      requires Holds(target) && forall id :: id in moved ==> NotIn(rows, target)(id)
      modifies this
      ensures rows == Moved(old(rows), moved, target) && log == old(log) + [Write(old(rows), expected, moved)]
      ensures locked == old(locked) + ToSet(moved) && old(locked) !! ToSet(moved)
      ensures Holds(target)
    {
      UpdateKeeps(rows, locked, log, moved, expected, target);
      log := log + [Write(rows, expected, moved)];
      rows := Moved(rows, moved, target);
      locked := locked + ToSet(moved);
    }

    /** One group: its statement, and which of its ids landed or were missed. */
    method MoveGroup(
      expected: Option<nat>, group: seq<nat>, target: nat,
      ghost keys: seq<Option<nat>>, ghost ids: seq<nat>, ghost guardOf: nat -> Option<nat>,
      ghost landed: seq<nat>, ghost skipped: seq<nat>)
      returns (here: seq<nat>, missed: seq<nat>, count: nat)
      requires GroupsDone(keys, ids, guardOf, target, log, landed, skipped) && Holds(target)
      requires expected !in keys && OfGuard(group, ids, guardOf, expected)
      modifies this
      ensures GroupsDone(keys + [expected], ids, guardOf, target, log, landed + here, skipped + missed)
      ensures |locked| == old(|locked|) + count && Holds(target)
    {
      here, missed, count := group, [], 0;
      assert skipped + [] == skipped;
      if expected.None? {
        ghost var w := Write(rows, None, Filter(group, NotIn(rows, target)));
        FilterDistinct(group, NotIn(rows, target));
        DistinctCount(w.moved);
        UnguardedStep(keys, ids, guardOf, target, log, landed, skipped, group, w);
        count := MoveMessageBulk(group, target);
      } else if expected.value == target {
        AlreadyThereStep(keys, ids, guardOf, target, log, landed, skipped, group);
      } else {
        ghost var w := Write(rows, expected, Filter(group, StillIn(rows, expected.value)));
        FilterDistinct(group, StillIn(rows, expected.value));
        DistinctCount(w.moved);
        GuardedStep(keys, ids, guardOf, target, log, landed, skipped, group, w, expected.value);
        here := MoveMessagesFrom(group, expected.value, target);
        missed := Filter(group, NotAmong(here));
        count := |here|;
      }
    }

    /** Moves every group, other sessions acting before each. */
    method MoveGroups(
      groups: Groups, target: nat, others: nat -> map<nat, Msg>, ghost ids: seq<nat>, ghost guardOf: nat -> Option<nat>)
      returns (landed: seq<nat>, skipped: seq<nat>, affected: nat)
      requires Grouping(groups, ids, guardOf) && log == [] && locked == {}
      modifies this
      ensures GroupsDone(groups.keys, ids, guardOf, target, log, landed, skipped)
      ensures affected == |locked| && Holds(target)
    {
      landed, skipped, affected := [], [], 0;
      for n := 0 to |groups.keys|
        invariant GroupsDone(groups.keys[..n], ids, guardOf, target, log, landed, skipped)
        invariant affected == |locked| && Holds(target)
      {
        var expected := groups.keys[n];
        assert groups.keys[..n + 1] == groups.keys[..n] + [expected];
        OthersAct(others(n), target);
        var here, missed, count := MoveGroup(
          expected, groups.ids[expected], target, groups.keys[..n], ids, guardOf, landed, skipped);
        landed, skipped, affected := landed + here, skipped + missed, affected + count;
      }
      assert groups.keys[..|groups.keys|] == groups.keys;
    }

    /** UPDATE ... SET is_seen WHERE id = ANY(ids) AND is_seen IS NOT true */
    method MarkSeen(ids: seq<nat>)
      modifies `rows
      ensures rows == MarkedSeen(old(rows), ids)
    {
      rows := MarkedSeen(rows, ids);
    }

    /** The writes of a request, and marking read on filing when the target asks for it. */
    method MoveAndMark(
      groups: Groups, target: nat, markRead: bool, others: nat -> map<nat, Msg>,
      ghost ids: seq<nat>, ghost guardOf: nat -> Option<nat>)
      returns (landed: seq<nat>, skipped: seq<nat>, affected: nat)
      requires Grouping(groups, ids, guardOf) && log == [] && locked == {}
      modifies this
      ensures GroupsDone(groups.keys, ids, guardOf, target, log, landed, skipped)
      ensures affected == |locked| && forall id :: id in locked <==> WrittenBy(log, id)
      ensures AsFiled(rows, log, target, markRead)
      ensures markRead ==> forall id :: id in landed && id in rows ==> rows[id].seen
    {
      landed, skipped, affected := MoveGroups(groups, target, others, ids, guardOf);
      WrittenLanded(groups.keys, ids, guardOf, target, log, landed, skipped);
      MarkingFiles(rows, log, target, landed);
      if landed != [] && markRead {
        OthersAct(others(|groups.keys|), target);
        MarkingFiles(rows, log, target, landed);
        MarkSeen(landed);
      }
    }

    /** The whole request. A message the caller guarded is written only if it is still live in the
        folder the caller saw it in at the moment of the write; every distinct id ends in exactly
        one of landed, skipped, or already at the target; only messages of the account are written;
        what is counted is what was written, and it is as filed; and a refusal writes nothing. */
    method Apply(
      account: nat, ids: seq<nat>, guards: map<nat, nat>, target: nat, targetIsOwn: bool,
      confirm: Option<nat>, markRead: bool, others: nat -> map<nat, Msg>)
      returns (r: Result<Response, BulkError>, ghost landed: seq<nat>)
      requires log == [] && locked == {}
      modifies this
      ensures var live := LiveFolders(old(rows), account, ids);
              var now := |Acted(old(rows), account, ids, guards)|;
              match r
              case Err(CountChanged(n)) =>
                rows == old(rows) && log == [] && n == now && confirm.Some? && confirm.value != now
              case Err(ForeignTarget) => rows == old(rows) && log == [] && !targetIsOwn
              case Ok(response) =>
                && (confirm.Some? ==> confirm.value == now)
                && Fulfilled(log, ids, live, guards, target, landed, response.skipped)
                && ByTheMessages(old(rows), account, ids, guards, target, log, landed, response.skipped)
                && response.affected == |locked| && (forall id :: id in locked <==> WrittenBy(log, id))
                && AsFiled(rows, log, target, markRead)
                && (markRead ==> forall id :: id in landed && id in rows ==> rows[id].seen)
    {
      var live := LiveFolders(rows, account, ids);
      var toMove, skipped := Classify(ids, live, guards, target);
      landed := [];
      CountOfResolved(ids, live, guards, toMove);
      ActedIsResolved(rows, account, ids, guards);
      if confirm.Some? && confirm.value != |toMove| {
        return Err(CountChanged(|toMove|)), [];
      }
      if toMove == [] {
        NothingToMove(ids, live, guards, target, skipped);
        NothingActedOn(rows, account, ids, guards, target, skipped);
        return Ok(Response(0, skipped)), [];
      }
      var guardOf := WriteGuard(live, guards);
      var groups := GroupByGuard(toMove, guardOf);
      if !targetIsOwn {
        return Err(ForeignTarget), [];
      }
      var done, missed, affected := MoveAndMark(groups, target, markRead, others, toMove, guardOf);
      landed := done;
      r := Ok(Response(affected, skipped + missed));
      Conclusion(ids, live, guards, target, toMove, skipped, groups.keys, log, landed, missed);
      ConcludeByMessages(old(rows), account, ids, guards, target, toMove, skipped, groups.keys, log, landed, missed);
    }
  }
}
