/** Mail alerts and the mail they announce (src/mail_verdict/alerts/resolve.py and the decisions
    of src/mail_verdict/alerts/dispatch.py) as values: which alerts are settled by mail being
    read, and what a finalizer tick does with each staged one. All alerts here are of kind mail. */
module AlertTable {
  import opened Sequences

  /** A mirrored row; `run` is the status of the pipeline run for it, if there is one. */
  datatype Message = Message(
    account: nat, header: Option<string>, seen: bool, live: bool,
    draft: bool, folder: nat, specialUse: string, run: Option<string>)

  /** A staged alert is one not yet delivered. */
  datatype Alert = Alert(
    key: nat, account: nat, message: nat, folder: Option<nat>, createdAt: int, delivered: bool, dismissed: bool)

  type Messages = map<nat, Message>
  type Alerts = map<nat, Alert>

  const SKIP_FOLDER_SPECIAL_USE: set<string> := {"sent", "drafts", "trash", "junk", "archive"}
  const FINALIZE_BATCH_SIZE: nat := 100

  // ---------- Resolution ----------

  /** The same row, or a row of the same account with the same Message-ID header; NULL equals
      nothing. */
  predicate SameMail(messages: Messages, a: nat, b: nat)
    requires a in messages && b in messages
  {
    && messages[a].account == messages[b].account
    && (a == b || (messages[a].header.Some? && messages[a].header == messages[b].header))
  }

  /** Some live row of the same mail as `origin` is read. */
  predicate IsRead(messages: Messages, origin: nat) {
    && origin in messages
    && exists m :: m in messages && SameMail(messages, m, origin) && messages[m].seen && messages[m].live
  }

  predicate Resolvable(alerts: Alerts, messages: Messages, id: nat) {
    id in alerts && !alerts[id].dismissed && IsRead(messages, alerts[id].message)
  }

  function ResolvableIn(alerts: Alerts, messages: Messages, scope: set<nat>): set<nat> {
    set id | id in alerts && id in scope && Resolvable(alerts, messages, id)
  }

  /** Stamped dismissed, and delivered too so that it is never announced. */
  function Stamped(alerts: Alerts, ids: set<nat>): Alerts {
    map id | id in alerts :: if id in ids then alerts[id].(dismissed := true, delivered := true) else alerts[id]
  }

  /** The one UPDATE every entry point shares, on the alerts in its scope. */
  function Resolve(alerts: Alerts, messages: Messages, scope: set<nat>): Alerts {
    Stamped(alerts, ResolvableIn(alerts, messages, scope))
  }

  function Staged(alerts: Alerts): set<nat> {
    set id | id in alerts && !alerts[id].delivered
  }

  /** The alerts of whichever mail the rows `ids` are. */
  function OfMessages(alerts: Alerts, messages: Messages, ids: set<nat>): set<nat> {
    set id | id in alerts && alerts[id].message in messages &&
             exists src :: src in ids && src in messages && SameMail(messages, alerts[id].message, src)
  }

  // ---------- A finalizer tick ----------

  datatype Decision = Drop | Deliver(folder: nat) | Wait

  /** A message that is gone drops its alert; one whose run has ended, that no run will reach, or
      that waited out the bound is delivered with the folder it is in. */
  function Decide(a: Alert, messages: Messages, cutoff: int): Decision {
    if a.message !in messages || messages[a.message].account != a.account || !messages[a.message].live then Drop
    else
      var m := messages[a.message];
      var terminal := m.run.Some? && m.run.value != "pending" && m.run.value != "claimed";
      var neverEligible := m.draft || m.specialUse in SKIP_FOLDER_SPECIAL_USE;
      if terminal || neverEligible || a.createdAt <= cutoff then Deliver(m.folder) else Wait
  }

  function Dropped(alerts: Alerts, messages: Messages, cutoff: int, batch: set<nat>): set<nat> {
    set id | id in batch && id in alerts && Decide(alerts[id], messages, cutoff) == Drop
  }

  function Delivered(alerts: Alerts, messages: Messages, cutoff: int, batch: set<nat>): set<nat> {
    set id | id in batch && id in alerts && Decide(alerts[id], messages, cutoff).Deliver?
  }

  /** The alert once delivered with the folder its message is in by then. */
  function Outcome(a: Alert, messages: Messages, cutoff: int): Alert {
    match Decide(a, messages, cutoff)
    case Deliver(folder) => a.(folder := Some(folder), delivered := true)
    case _ => a
  }

  function WithDelivered(alerts: Alerts, messages: Messages, cutoff: int, ids: set<nat>): Alerts {
    map id | id in alerts :: if id in ids then Outcome(alerts[id], messages, cutoff) else alerts[id]
  }

  /** The table once the tick's candidates are dropped, delivered or left. */
  function Finalized(alerts: Alerts, messages: Messages, cutoff: int, batch: set<nat>): Alerts {
    WithDelivered(alerts - Dropped(alerts, messages, cutoff, batch), messages, cutoff,
                  Delivered(alerts, messages, cutoff, batch))
  }

  // ---------- What a tick does, by the message ----------

  /** The alert's message is gone from its account, or expunged. */
  predicate MailGone(messages: Messages, a: Alert) {
    !(a.message in messages && messages[a.message].account == a.account && messages[a.message].live)
  }

  /** Its pipeline run has ended, or none will reach it. */
  predicate SettledByPipeline(m: Message) {
    || (m.run.Some? && m.run.value !in {"pending", "claimed"})
    || m.draft
    || m.specialUse in {"sent", "drafts", "trash", "junk", "archive"}
  }

  /** Of the alerts a tick takes up, those whose mail is gone are removed; those whose mail is settled
      by the pipeline, or that have waited out the bound, are delivered, with the folder their mail is
      in; all others are left exactly as they were, and so is every alert not taken up. */
  lemma FinalizedByTheMessage(alerts: Alerts, messages: Messages, cutoff: int, batch: set<nat>, id: nat)
    requires id in alerts
    ensures var a, after := alerts[id], Finalized(alerts, messages, cutoff, batch);
            var out := Delivered(alerts, messages, cutoff, batch);
            if id !in batch then id in after && after[id] == a && id !in out
            else if MailGone(messages, a) then id !in after && id !in out
            else if SettledByPipeline(messages[a.message]) || a.createdAt <= cutoff then
              && id in out && id in after
              && after[id] == a.(folder := Some(messages[a.message].folder), delivered := true)
            else id in after && after[id] == a && id !in out
  {
  }
}
