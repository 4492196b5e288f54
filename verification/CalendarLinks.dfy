/** The identity-to-calendar mapping (src/mail_verdict/api/calendars.py, update_calendar_links and
    get_calendar_links): a whole document replaces the mapping, one row of calendar_prefs written
    at a time, under the partial unique index of one intake calendar per identity
    (alembic/versions/0011_calendar.py). Each write reaches the database before the next row is
    read, since the session flushes before it queries. */
module CalendarLinks {
  import opened Sequences

  /** The two columns the mapping lives in. */
  datatype Prefs = Prefs(identity: Option<nat>, intake: bool)

  type Table = map<nat, Prefs>

  datatype Row = Row(identity: nat, calendarIds: seq<nat>, intake: Option<nat>)

  datatype LinksError =
    | Stale(current: nat)
    | NamesNoIntake(identity: nat)
    | IntakeNotLinked(identity: nat)
    | LinkedTwice(calendar: nat)
    | UniqueViolation

  // ---------- The table ----------

  /** Two calendars that both receive one identity's invitations. */
  predicate Clash(table: Table, a: nat, b: nat) {
    && a != b && a in table && b in table && table[a].intake && table[b].intake
    && table[a].identity.Some? && table[a].identity == table[b].identity
  }

  /** uq_calendar_prefs_intake: (identity_id) WHERE intake; NULLs do not collide. */
  predicate UniqueIntake(table: Table) {
    forall a, b :: a in table && b in table ==> !Clash(table, a, b)
  }

  function CalendarsOf(row: Row): set<nat> {
    set c | c in row.calendarIds
  }

  predicate Links(rows: seq<Row>, identity: nat, calendar: nat) {
    exists row :: row in rows && row.identity == identity && calendar in row.calendarIds
  }

  /** What is no longer asked for is unlinked. */
  function Unlinked(table: Table, rows: seq<Row>): Table {
    map c | c in table ::
      if table[c].identity.Some? && !Links(rows, table[c].identity.value, c) then Prefs(None, false) else table[c]
  }

  // ---------- What a request must say ----------

  predicate RowValid(row: Row) {
    && (row.calendarIds != [] ==> row.intake.Some?)
    && (row.intake.Some? ==> row.intake.value in row.calendarIds)
  }

  /** No calendar with two identities. */
  predicate OneIdentityEach(rows: seq<Row>) {
    forall r, s, c :: r in rows && s in rows && c in r.calendarIds && c in s.calendarIds ==> r.identity == s.identity
  }

  predicate ValidRequest(rows: seq<Row>) {
    (forall r :: r in rows ==> RowValid(r)) && OneIdentityEach(rows)
  }

  ghost predicate DistinctIdentities(rows: seq<Row>) {
    forall i, j :: 0 <= i < j < |rows| ==> rows[i].identity != rows[j].identity
  }

  // ---------- What a request should do ----------

  /** The row that links a calendar. */
  function Linking(rows: seq<Row>, calendar: nat): (r: Option<Row>)
    ensures r.Some? ==> r.value in rows && calendar in r.value.calendarIds
    ensures r.None? ==> forall row :: row in rows ==> calendar !in row.calendarIds
  {
    if rows == [] then None
    else if calendar in rows[0].calendarIds then Some(rows[0])
    else Linking(rows[1..], calendar)
  }

  function Asked(rows: seq<Row>, calendar: nat): Prefs
    requires Linking(rows, calendar).Some?
  {
    var row := Linking(rows, calendar).value;
    Prefs(Some(row.identity), row.intake == Some(calendar))
  }

  function AllCalendars(rows: seq<Row>): (r: set<nat>)
    ensures forall c :: c in r <==> Linking(rows, c).Some?
  {
    if rows == [] then {} else CalendarsOf(rows[0]) + AllCalendars(rows[1..])
  }

  /** The table when the calendars `written` of the request have been written. */
  function Halfway(table: Table, rows: seq<Row>, written: set<nat>): Table
    requires written <= AllCalendars(rows)
  {
    map c | c in table.Keys + written :: if c in written then Asked(rows, c) else table[c]
  }

  function Replaced(table: Table, rows: seq<Row>): Table {
    Halfway(Unlinked(table, rows), rows, AllCalendars(rows))
  }

  /** The identity's previous intake calendar, where it stays linked but no longer is the intake,
      comes before position `j` of the list. */
  predicate ClearedBy(table: Table, row: Row, j: nat)
    requires j < |row.calendarIds|
  {
    forall previous ::
      (previous in row.calendarIds && previous in table && table[previous] == Prefs(Some(row.identity), true)
       && row.intake != Some(previous)) ==> previous in row.calendarIds[..j]
  }

  /** ... before the new one is written. */
  predicate HandsOverInOrder(table: Table, row: Row) {
    forall j :: 0 <= j < |row.calendarIds| && row.intake == Some(row.calendarIds[j]) ==> ClearedBy(table, row, j)
  }

  predicate Accepts(table: Table, rows: seq<Row>) {
    forall row :: row in rows ==> HandsOverInOrder(table, row)
  }

  // ---------- Reading it back ----------

  function LinkedTo(table: Table, identity: nat): set<nat> {
    set c | c in table && table[c].identity == Some(identity)
  }

  ghost predicate ReceivesInvitations(table: Table, identity: nat, calendar: nat) {
    calendar in LinkedTo(table, identity) && table[calendar].intake
  }

  // ---------- The endpoint ----------

  /** Each calendar seen, with the identity of a row that links it. */
  ghost predicate SeenIn(seen: map<nat, nat>, rows: seq<Row>) {
    && (forall c :: c in seen ==> Links(rows, seen[c], c))
    && (forall row, c :: row in rows && c in row.calendarIds ==> c in seen && seen[c] == row.identity)
  }

  /** Whether an error is one the request has. */
  ghost predicate Justified(rows: seq<Row>, error: LinksError) {
    match error
    case NamesNoIntake(i) => exists r :: r in rows && r.identity == i && r.calendarIds != [] && r.intake.None?
    case IntakeNotLinked(i) =>
      exists r :: r in rows && r.identity == i && r.intake.Some? && r.intake.value !in r.calendarIds
    case LinkedTwice(c) => exists i, k :: i != k && Links(rows, i, c) && Links(rows, k, c)
    case _ => false
  }

  lemma JustifiedIsInvalid(rows: seq<Row>, error: LinksError)
    requires Justified(rows, error)
    ensures !ValidRequest(rows)
  {
  }

  lemma SeenAreOne(seen: map<nat, nat>, rows: seq<Row>)
    requires SeenIn(seen, rows)
    ensures OneIdentityEach(rows)
  {
    forall r, s, c | r in rows && s in rows && c in r.calendarIds && c in s.calendarIds
      ensures r.identity == s.identity
    {
      assert seen[c] == r.identity && seen[c] == s.identity;
    }
  }

  /** One row's calendars against those seen so far. */
  method CheckRow(row: Row, seen: map<nat, nat>, ghost rows: seq<Row>) returns (clash: Option<nat>, now: map<nat, nat>)
    requires SeenIn(seen, rows)
    ensures clash.None? ==> SeenIn(now, rows + [row])
    ensures clash.Some? ==> Justified(rows + [row], LinkedTwice(clash.value))
  {
    now := seen;
    assert row in rows + [row];
    for j := 0 to |row.calendarIds|
      invariant forall c :: c in now <==> c in seen || c in row.calendarIds[..j]
      invariant forall c :: c in seen ==> now[c] == seen[c]
      invariant forall c :: c in row.calendarIds[..j] ==> now[c] == row.identity
    {
      var c := row.calendarIds[j];
      if c in now && now[c] != row.identity {
        assert Links(rows, now[c], c) && Links(rows + [row], now[c], c) && Links(rows + [row], row.identity, c);
        return Some(c), now;
      }
      now := now[c := row.identity];
    }
    clash := None;
    assert row.calendarIds[..|row.calendarIds|] == row.calendarIds;
    forall c | c in now ensures Links(rows + [row], now[c], c) {
      if c in seen {
        assert Links(rows, seen[c], c);
      }
    }
  }

  /** The first thing wrong with the request, if anything is. */
  method Validate(rows: seq<Row>) returns (error: Option<LinksError>)
    ensures error.None? <==> ValidRequest(rows)
    ensures error.Some? ==> Justified(rows, error.value)
  {
    var seen: map<nat, nat> := map[];
    for n := 0 to |rows|
      invariant SeenIn(seen, rows[..n]) && forall r :: r in rows[..n] ==> RowValid(r)
    {
      var row := rows[n];
      assert rows[..n + 1] == rows[..n] + [row] && row in rows;
      error := None;
      if row.calendarIds != [] && row.intake.None? {
        error := Some(NamesNoIntake(row.identity));
      } else if row.intake.Some? && row.intake.value !in row.calendarIds {
        error := Some(IntakeNotLinked(row.identity));
      } else {
        var clash, now := CheckRow(row, seen, rows[..n]);
        if clash.Some? {
          error := Some(LinkedTwice(clash.value));
        }
        seen := now;
      }
      if error.Some? {
        PrefixJustifies(rows, n + 1, error.value);
        JustifiedIsInvalid(rows, error.value);
        return;
      }
    }
    assert rows[..|rows|] == rows;
    SeenAreOne(seen, rows);
    error := None;
  }

  lemma PrefixJustifies(rows: seq<Row>, n: nat, error: LinksError)
    requires n <= |rows| && Justified(rows[..n], error)
    ensures Justified(rows, error)
  {
    assert forall r :: r in rows[..n] ==> r in rows;
    if error.LinkedTwice? {
      var i, k :| i != k && Links(rows[..n], i, error.calendar) && Links(rows[..n], k, error.calendar);
      assert Links(rows, i, error.calendar) && Links(rows, k, error.calendar);
    }
  }

  // ---------- One write ----------

  lemma RowsByIdentity(rows: seq<Row>, r: Row, s: Row)
    requires DistinctIdentities(rows) && r in rows && s in rows && r.identity == s.identity
    ensures r == s
  {
    var i :| 0 <= i < |rows| && rows[i] == r;
    var j :| 0 <= j < |rows| && rows[j] == s;
  }

  /** The calendar links to its row and no other. */
  lemma LinkingIs(rows: seq<Row>, row: Row, c: nat)
    requires DistinctIdentities(rows) && OneIdentityEach(rows) && row in rows && c in row.calendarIds
    ensures Linking(rows, c) == Some(row)
  {
    RowsByIdentity(rows, Linking(rows, c).value, row);
  }

  /** An intake calendar not written yet was its identity's before, and stays linked to it. */
  lemma UnwrittenIntake(table: Table, rows: seq<Row>, row: Row, c: nat)
    requires DistinctIdentities(rows) && row in rows
    requires c in Unlinked(table, rows) && Unlinked(table, rows)[c] == Prefs(Some(row.identity), true)
    ensures table[c] == Prefs(Some(row.identity), true) && c in row.calendarIds
  {
    var other :| other in rows && other.identity == row.identity && c in other.calendarIds;
    RowsByIdentity(rows, other, row);
  }

  ghost predicate WrittenOf(row: Row, written: set<nat>, j: nat) {
    j <= |row.calendarIds| && forall x :: x in row.calendarIds ==> (x in written <==> x in row.calendarIds[..j])
  }

  /** A request under way: its calendars `written` are, and the index holds. */
  ghost predicate UnderWay(table: Table, rows: seq<Row>, written: set<nat>, row: Row, j: nat) {
    && UniqueIntake(table) && ValidRequest(rows) && DistinctIdentities(rows) && row in rows
    && j < |row.calendarIds| && WrittenOf(row, written, j) && written <= AllCalendars(rows)
    && UniqueIntake(Halfway(Unlinked(table, rows), rows, written))
  }

  /** The table once calendar number `j` of the row is written too. */
  function Written(table: Table, rows: seq<Row>, written: set<nat>, row: Row, j: nat): Table
    requires j < |row.calendarIds| && written <= AllCalendars(rows) && row in rows
  {
    assert Linking(rows, row.calendarIds[j]).Some?;
    Halfway(Unlinked(table, rows), rows, written + {row.calendarIds[j]})
  }

  lemma WrittenDoNotClash(rows: seq<Row>, a: nat, b: nat)
    requires ValidRequest(rows) && DistinctIdentities(rows) && a != b
    requires Linking(rows, a).Some? && Linking(rows, b).Some? && Asked(rows, a).identity == Asked(rows, b).identity
    ensures !(Asked(rows, a).intake && Asked(rows, b).intake)
  {
    RowsByIdentity(rows, Linking(rows, a).value, Linking(rows, b).value);
  }

  /** A written calendar and one not written clash only where the one just written is the new
      intake, and the previous one is still to come. */
  lemma MixedDoNotClash(table: Table, rows: seq<Row>, written: set<nat>, row: Row, j: nat, a: nat, b: nat)
    requires UnderWay(table, rows, written, row, j)
    requires row.intake == Some(row.calendarIds[j]) ==> ClearedBy(table, row, j)
    requires a in written + {row.calendarIds[j]} && b !in written + {row.calendarIds[j]}
    ensures !Clash(Written(table, rows, written, row, j), a, b)
  {
    LinkingIs(rows, row, row.calendarIds[j]);
    assert !Clash(Halfway(Unlinked(table, rows), rows, written), a, b);
    if Clash(Written(table, rows, written, row, j), a, b) {
      UnwrittenIntake(table, rows, Linking(rows, a).value, b);
    }
  }

  lemma BothWritten(table: Table, rows: seq<Row>, written: set<nat>, row: Row, j: nat, a: nat, b: nat)
    requires UnderWay(table, rows, written, row, j)
    requires a in written + {row.calendarIds[j]} && b in written + {row.calendarIds[j]}
    ensures !Clash(Written(table, rows, written, row, j), a, b)
  {
    LinkingIs(rows, row, row.calendarIds[j]);
    if a != b && Asked(rows, a).identity == Asked(rows, b).identity {
      WrittenDoNotClash(rows, a, b);
    }
  }

  lemma NeitherWritten(table: Table, rows: seq<Row>, written: set<nat>, row: Row, j: nat, a: nat, b: nat)
    requires UnderWay(table, rows, written, row, j)
    requires a !in written + {row.calendarIds[j]} && b !in written + {row.calendarIds[j]}
    ensures !Clash(Written(table, rows, written, row, j), a, b)
  {
    assert !Clash(Halfway(Unlinked(table, rows), rows, written), a, b);
  }

  lemma NothingClashes(table: Table, rows: seq<Row>, written: set<nat>, row: Row, j: nat, a: nat, b: nat)
    requires UnderWay(table, rows, written, row, j)
    requires row.intake == Some(row.calendarIds[j]) ==> ClearedBy(table, row, j)
    ensures !Clash(Written(table, rows, written, row, j), a, b)
  {
    var now := written + {row.calendarIds[j]};
    if a in now && b in now {
      BothWritten(table, rows, written, row, j, a, b);
    } else if a in now {
      MixedDoNotClash(table, rows, written, row, j, a, b);
    } else if b in now {
      MixedDoNotClash(table, rows, written, row, j, b, a);
    } else {
      NeitherWritten(table, rows, written, row, j, a, b);
    }
  }

  lemma HandoverClashes(table: Table, rows: seq<Row>, written: set<nat>, row: Row, j: nat) returns (previous: nat)
    requires UnderWay(table, rows, written, row, j)
    requires row.intake == Some(row.calendarIds[j]) && !ClearedBy(table, row, j)
    ensures Clash(Written(table, rows, written, row, j), row.calendarIds[j], previous)
  {
    previous :| previous in row.calendarIds && previous in table
                && table[previous] == Prefs(Some(row.identity), true)
                && row.intake != Some(previous) && previous !in row.calendarIds[..j];
    LinkingIs(rows, row, row.calendarIds[j]);
    assert Links(rows, row.identity, previous);
  }

  /** Writing the next calendar of a row keeps the index exactly when it is not the row's new
      intake calendar, or the identity's previous one has been written before it. */
  lemma WriteIsUniqueIff(table: Table, rows: seq<Row>, written: set<nat>, row: Row, j: nat)
    requires UnderWay(table, rows, written, row, j)
    ensures UniqueIntake(Written(table, rows, written, row, j)) <==>
            (row.intake == Some(row.calendarIds[j]) ==> ClearedBy(table, row, j))
  {
    if row.intake == Some(row.calendarIds[j]) ==> ClearedBy(table, row, j) {
      forall a, b ensures !Clash(Written(table, rows, written, row, j), a, b) {
        NothingClashes(table, rows, written, row, j, a, b);
      }
    } else {
      var previous := HandoverClashes(table, rows, written, row, j);
    }
  }

  // ---------- The whole replacement ----------

  lemma EarlierIsAnother(rows: seq<Row>, n: nat, other: Row)
    requires DistinctIdentities(rows) && n < |rows| && other in rows[..n]
    ensures other in rows && other.identity != rows[n].identity
  {
    var i :| 0 <= i < n && rows[i] == other;
  }

  lemma EarlierRowsShareNothing(rows: seq<Row>, n: nat)
    requires ValidRequest(rows) && DistinctIdentities(rows) && n < |rows|
    ensures WrittenOf(rows[n], AllCalendars(rows[..n]), 0)
  {
    forall other | other in rows[..n] ensures other in rows && other.identity != rows[n].identity {
      EarlierIsAnother(rows, n, other);
    }
    assert rows[n] in rows;
  }

  lemma {:induction false} CalendarsOfBoth(a: seq<Row>, b: seq<Row>)
    ensures AllCalendars(a + b) == AllCalendars(a) + AllCalendars(b)
  {
    if a == [] {
      assert a + b == b;
    } else {
      assert a + b == [a[0]] + (a[1..] + b);
      CalendarsOfBoth(a[1..], b);
    }
  }

  lemma CalendarsOfOne(row: Row)
    ensures AllCalendars([row]) == CalendarsOf(row)
  {
    assert [row][1..] == [];
  }

  lemma CalendarsOfPrefix(rows: seq<Row>, n: nat)
    requires n < |rows|
    ensures AllCalendars(rows[..n + 1]) == AllCalendars(rows[..n]) + CalendarsOf(rows[n])
    ensures AllCalendars(rows[..n + 1]) <= AllCalendars(rows)
  {
    var before, row, after := rows[..n], rows[n], rows[n + 1..];
    assert rows[..n + 1] == before + [row];
    assert rows == (before + [row]) + after;
    CalendarsOfBoth(before, [row]);
    CalendarsOfBoth(before + [row], after);
    CalendarsOfOne(row);
  }

  lemma OneMoreWritten(table: Table, rows: seq<Row>, written: set<nat>, row: Row, j: nat)
    requires UnderWay(table, rows, written, row, j)
    ensures var c := row.calendarIds[j];
            Written(table, rows, written, row, j)
            == Halfway(Unlinked(table, rows), rows, written)[c := Prefs(Some(row.identity), row.intake == Some(c))]
  {
    LinkingIs(rows, row, row.calendarIds[j]);
  }

  /** The first `n` rows of the request have been written. */
  ghost predicate Reached(prefs: Table, table: Table, rows: seq<Row>, n: nat) {
    && n <= |rows| && AllCalendars(rows[..n]) <= AllCalendars(rows)
    && prefs == Halfway(Unlinked(table, rows), rows, AllCalendars(rows[..n]))
  }

  /** So have the first `j` calendars of row `n`. */
  ghost predicate MidRow(prefs: Table, table: Table, rows: seq<Row>, n: nat, j: nat, written: set<nat>) {
    && ValidRequest(rows) && DistinctIdentities(rows) && UniqueIntake(table) && UniqueIntake(prefs)
    && n < |rows| && j <= |rows[n].calendarIds|
    && written == AllCalendars(rows[..n]) + (set c | c in rows[n].calendarIds[..j])
    && written <= AllCalendars(rows) && WrittenOf(rows[n], written, j)
    && prefs == Halfway(Unlinked(table, rows), rows, written)
    && forall k :: 0 <= k < j && rows[n].intake == Some(rows[n].calendarIds[k]) ==> ClearedBy(table, rows[n], k)
  }

  lemma MidRowStart(prefs: Table, table: Table, rows: seq<Row>, n: nat)
    requires ValidRequest(rows) && DistinctIdentities(rows) && UniqueIntake(table) && UniqueIntake(prefs)
    requires n < |rows| && Reached(prefs, table, rows, n)
    ensures MidRow(prefs, table, rows, n, 0, AllCalendars(rows[..n]))
  {
    EarlierRowsShareNothing(rows, n);
  }

  lemma MidRowStep(prefs: Table, table: Table, rows: seq<Row>, n: nat, j: nat, written: set<nat>)
    requires MidRow(prefs, table, rows, n, j, written) && j < |rows[n].calendarIds|
    requires rows[n].intake == Some(rows[n].calendarIds[j]) ==> ClearedBy(table, rows[n], j)
    ensures MidRow(Written(table, rows, written, rows[n], j), table, rows, n, j + 1, written + {rows[n].calendarIds[j]})
  {
    var cs := rows[n].calendarIds;
    WriteIsUniqueIff(table, rows, written, rows[n], j);
    LinkingIs(rows, rows[n], cs[j]);
    assert cs[..j + 1] == cs[..j] + [cs[j]];
  }

  lemma MidRowEnd(prefs: Table, table: Table, rows: seq<Row>, n: nat, written: set<nat>)
    requires n < |rows| && MidRow(prefs, table, rows, n, |rows[n].calendarIds|, written)
    ensures HandsOverInOrder(table, rows[n]) && Reached(prefs, table, rows, n + 1)
  {
    var cs := rows[n].calendarIds;
    assert cs[..|cs|] == cs;
    CalendarsOfPrefix(rows, n);
  }

  // ---------- Any request, write by write ----------

  datatype Write = Write(calendar: nat, identity: nat, intake: bool)

  /** The first `j` writes of a row. */
  function RowWrites(row: Row, j: nat): (ws: seq<Write>)
    requires j <= |row.calendarIds|
    ensures |ws| == j
  {
    if j == 0 then []
    else
      var c := row.calendarIds[j - 1];
      RowWrites(row, j - 1) + [Write(c, row.identity, row.intake == Some(c))]
  }

  function AllWrites(rows: seq<Row>): seq<Write> {
    if rows == [] then []
    else
      var last := rows[|rows| - 1];
      AllWrites(rows[..|rows| - 1]) + RowWrites(last, |last.calendarIds|)
  }

  function LastWord(ws: seq<Write>, calendar: nat): Option<Write> {
    if ws == [] then None
    else if ws[|ws| - 1].calendar == calendar then Some(ws[|ws| - 1])
    else LastWord(ws[..|ws| - 1], calendar)
  }

  /** Whether, after these writes, the calendar receives the identity's invitations: by the last word
      on it, or by the link it keeps. */
  predicate Receives(left: Table, ws: seq<Write>, calendar: nat, identity: nat) {
    match LastWord(ws, calendar)
    case Some(w) => w.intake && w.identity == identity
    case None => calendar in left && left[calendar] == Prefs(Some(identity), true)
  }

  /** No other calendar still receives the identity's invitations when a new one is to. */
  ghost predicate Lets(left: Table, ws: seq<Write>, w: Write) {
    w.intake ==> forall c: nat :: c != w.calendar ==> !Receives(left, ws, c, w.identity)
  }

  ghost predicate RunsThrough(left: Table, ws: seq<Write>) {
    ws == [] || (RunsThrough(left, ws[..|ws| - 1]) && Lets(left, ws[..|ws| - 1], ws[|ws| - 1]))
  }

  /** The table says of every calendar what the last word on it was. */
  ghost predicate Shows(prefs: Table, left: Table, ws: seq<Write>) {
    forall c: nat ::
      match LastWord(ws, c)
      case Some(w) => c in prefs && prefs[c] == Prefs(Some(w.identity), w.intake)
      case None => (c in prefs <==> c in left) && (c in prefs ==> prefs[c] == left[c])
  }

  lemma OneMoreWord(ws: seq<Write>, w: Write, c: nat)
    ensures LastWord(ws + [w], c) == if w.calendar == c then Some(w) else LastWord(ws, c)
  {
    assert (ws + [w])[..|ws|] == ws;
  }

  lemma ShowsOneMore(prefs: Table, left: Table, ws: seq<Write>, w: Write)
    requires Shows(prefs, left, ws)
    ensures Shows(prefs[w.calendar := Prefs(Some(w.identity), w.intake)], left, ws + [w])
  {
    forall c: nat ensures LastWord(ws + [w], c) == if w.calendar == c then Some(w) else LastWord(ws, c) {
      OneMoreWord(ws, w, c);
    }
  }

  lemma ReceivesIsShown(prefs: Table, left: Table, ws: seq<Write>, c: nat, identity: nat)
    requires Shows(prefs, left, ws)
    ensures Receives(left, ws, c, identity) <==> c in prefs && prefs[c] == Prefs(Some(identity), true)
  {
    var _ := LastWord(ws, c);
  }

  /** One more write keeps the index exactly when the words so far let it. */
  lemma LetsIff(prefs: Table, left: Table, ws: seq<Write>, w: Write)
    requires Shows(prefs, left, ws) && UniqueIntake(prefs)
    ensures UniqueIntake(prefs[w.calendar := Prefs(Some(w.identity), w.intake)]) <==> Lets(left, ws, w)
  {
    var after := prefs[w.calendar := Prefs(Some(w.identity), w.intake)];
    forall c: nat
      ensures Receives(left, ws, c, w.identity) <==> c in prefs && prefs[c] == Prefs(Some(w.identity), true)
    {
      ReceivesIsShown(prefs, left, ws, c, w.identity);
    }
    if Lets(left, ws, w) {
      forall a, b | a in after && b in after ensures !Clash(after, a, b) {
        assert a in prefs && b in prefs ==> !Clash(prefs, a, b);
      }
    } else {
      var c: nat :| c != w.calendar && Receives(left, ws, c, w.identity);
      assert Clash(after, w.calendar, c);
    }
  }

  lemma {:induction false} EarlierWritesRun(left: Table, a: seq<Write>, b: seq<Write>)
    requires RunsThrough(left, a + b)
    ensures RunsThrough(left, a)
    decreases |b|
  {
    if b == [] {
      assert a + b == a;
    } else {
      assert (a + b)[..|a + b| - 1] == a + b[..|b| - 1];
      EarlierWritesRun(left, a, b[..|b| - 1]);
    }
  }

  lemma {:induction false} RowWritesFrom(row: Row, j: nat, k: nat) returns (more: seq<Write>)
    requires j <= k <= |row.calendarIds|
    ensures RowWrites(row, k) == RowWrites(row, j) + more
    decreases k - j
  {
    if j == k {
      more := [];
    } else {
      more := RowWritesFrom(row, j, k - 1);
      more := more + [RowWrites(row, k)[k - 1]];
    }
  }

  lemma {:induction false} AllWritesFrom(rows: seq<Row>, n: nat) returns (more: seq<Write>)
    requires n <= |rows|
    ensures AllWrites(rows) == AllWrites(rows[..n]) + more
    decreases |rows| - n
  {
    if n == |rows| {
      more := [];
      assert rows[..n] == rows;
    } else {
      var before, last := rows[..|rows| - 1], rows[|rows| - 1];
      more := AllWritesFrom(before, n);
      assert before[..n] == rows[..n];
      more := more + RowWrites(last, |last.calendarIds|);
    }
  }

  class LinksStore {
    var prefs: Table
    var revision: nat

    constructor (prefs: Table)
      requires UniqueIntake(prefs)
      ensures this.prefs == prefs && revision == 0
    {
      this.prefs, revision := prefs, 0;
    }

    /** Clears every existing link the request does not name. */
    method Unlink(rows: seq<Row>)
      modifies `prefs
      ensures prefs == Unlinked(old(prefs), rows)
    {
      var newLinks := set row, c | row in rows && c in row.calendarIds :: (row.identity, c);
      var existing := set c | c in prefs && prefs[c].identity.Some?;
      ghost var table := prefs;
      while existing != {}
        invariant prefs.Keys == table.Keys && existing <= prefs.Keys
        invariant forall c :: c in existing ==> prefs[c] == table[c] && table[c].identity.Some?
        invariant forall c :: c in prefs && c !in existing ==> prefs[c] == Unlinked(table, rows)[c]
        decreases |existing|
      {
        var c :| c in existing;
        assert (prefs[c].identity.value, c) in newLinks <==> Links(rows, prefs[c].identity.value, c);
        if (prefs[c].identity.value, c) !in newLinks {
          prefs := prefs[c := Prefs(None, false)];
        }
        existing := existing - {c};
      }
    }

    /** One link written and flushed: whether the index allows it. */
    method WriteLink(row: Row, j: nat, ghost table: Table, ghost rows: seq<Row>, ghost written: set<nat>)
      returns (ok: bool)
      requires j < |row.calendarIds|
      requires ValidRequest(rows) && DistinctIdentities(rows) ==>
                 UnderWay(table, rows, written, row, j) && prefs == Halfway(Unlinked(table, rows), rows, written)
      modifies `prefs
      ensures ok <==> UniqueIntake(prefs)
      ensures var c := row.calendarIds[j];
              prefs == old(prefs)[c := Prefs(Some(row.identity), row.intake == Some(c))]
      ensures ValidRequest(rows) && DistinctIdentities(rows) ==>
                && prefs == Written(table, rows, written, row, j)
                && (ok <==> (row.intake == Some(row.calendarIds[j]) ==> ClearedBy(table, row, j)))
    {
      var c := row.calendarIds[j];
      prefs := prefs[c := Prefs(Some(row.identity), row.intake == Some(c))];
      ok := UniqueIntake(prefs);
      if ValidRequest(rows) && DistinctIdentities(rows) {
        OneMoreWritten(table, rows, written, row, j);
        WriteIsUniqueIff(table, rows, written, row, j);
      }
    }

    /** Writes one row's links, each flushed before the next is read. */
    method WriteRow(
      row: Row, ghost table: Table, ghost rows: seq<Row>, ghost n: nat, ghost left: Table, ghost done: seq<Write>)
      returns (ok: bool)
      requires n < |rows| && rows[n] == row
      requires UniqueIntake(prefs) && UniqueIntake(table)
      requires Shows(prefs, left, done) && RunsThrough(left, done)
      requires ValidRequest(rows) && DistinctIdentities(rows) ==> Reached(prefs, table, rows, n)
      modifies `prefs
      ensures ok ==> UniqueIntake(prefs) && Shows(prefs, left, done + RowWrites(row, |row.calendarIds|))
      ensures ok <==> RunsThrough(left, done + RowWrites(row, |row.calendarIds|))
      ensures ValidRequest(rows) && DistinctIdentities(rows) ==>
                && (ok <==> HandsOverInOrder(table, row))
                && (ok ==> Reached(prefs, table, rows, n + 1))
    {
      ghost var nice := ValidRequest(rows) && DistinctIdentities(rows);
      ghost var written := AllCalendars(rows[..n]);
      assert done + RowWrites(row, 0) == done;
      if nice {
        MidRowStart(prefs, table, rows, n);
      }
      for j := 0 to |row.calendarIds|
        invariant UniqueIntake(prefs)
        invariant Shows(prefs, left, done + RowWrites(row, j)) && RunsThrough(left, done + RowWrites(row, j))
        invariant nice ==> MidRow(prefs, table, rows, n, j, written)
      {
        ghost var before := prefs;
        ok := WriteLink(row, j, table, rows, written);
        WriteRuns(before, left, done, row, j);
        if !ok {
          return;
        }
        if nice {
          MidRowStep(before, table, rows, n, j, written);
        }
        written := written + {row.calendarIds[j]};
      }
      if nice {
        MidRowEnd(prefs, table, rows, n, written);
      }
      ok := true;
    }

    /** Writes every row's links in turn, until the index refuses one. */
    method WriteAll(rows: seq<Row>, ghost table: Table) returns (ok: bool)
      requires UniqueIntake(table) && prefs == Unlinked(table, rows)
      modifies `prefs
      ensures ok ==> UniqueIntake(prefs) && Shows(prefs, Unlinked(table, rows), AllWrites(rows))
      ensures ok <==> RunsThrough(Unlinked(table, rows), AllWrites(rows))
      ensures ValidRequest(rows) && DistinctIdentities(rows) ==>
                (ok <==> Accepts(table, rows)) && (ok ==> prefs == Replaced(table, rows))
    {
      NothingWritten(table, rows);
      ghost var left := prefs;
      ghost var nice := ValidRequest(rows) && DistinctIdentities(rows);
      for n := 0 to |rows|
        invariant UniqueIntake(prefs)
        invariant Shows(prefs, left, AllWrites(rows[..n])) && RunsThrough(left, AllWrites(rows[..n]))
        invariant nice ==> Reached(prefs, table, rows, n)
        invariant nice ==> forall row :: row in rows[..n] ==> HandsOverInOrder(table, row)
      {
        ok := WriteRow(rows[n], table, rows, n, left, AllWrites(rows[..n]));
        assert rows[..n + 1] == rows[..n] + [rows[n]] && rows[n] in rows && rows[..n + 1][..n] == rows[..n];
        if !ok {
          RefusedEarly(left, rows, n);
          return;
        }
      }
      assert rows[..|rows|] == rows;
      ok := true;
    }

    /** PUT: refused with nothing changed when it is stale, says something it must not, or meets the
        index. It meets the index exactly when some write would make a calendar receive an identity's
        invitations while, by the writes before it and the links that stay, another still does. For
        identities named once each that is when one's previous intake calendar stays linked but is
        written after the new one. What is accepted leaves the last word on every calendar. */
    method Put(baseRevision: nat, rows: seq<Row>) returns (error: Option<LinksError>)
      requires UniqueIntake(prefs)
      modifies this
      ensures error.Some? ==> prefs == old(prefs) && revision == old(revision)
      ensures error.None? ==> UniqueIntake(prefs) && revision == old(revision) + 1
      ensures baseRevision != old(revision) <==> error == Some(Stale(old(revision)))
      ensures baseRevision == old(revision) && !ValidRequest(rows) ==> error.Some? && Justified(rows, error.value)
      ensures baseRevision == old(revision) && ValidRequest(rows) ==>
                && (error.None? || error == Some(UniqueViolation))
                && (error.None? <==> RunsThrough(Unlinked(old(prefs), rows), AllWrites(rows)))
                && (error.None? ==> Shows(prefs, Unlinked(old(prefs), rows), AllWrites(rows)))
      ensures baseRevision == old(revision) && ValidRequest(rows) && DistinctIdentities(rows) ==>
                && (error.None? <==> Accepts(old(prefs), rows))
                && (error.None? ==> prefs == Replaced(old(prefs), rows))
    {
      if baseRevision != revision {
        return Some(Stale(revision));
      }
      error := Validate(rows);
      if error.Some? {
        return;
      }
      var saved := prefs;
      Unlink(rows);
      var ok := WriteAll(rows, saved);
      if !ok {
        prefs := saved;
        return Some(UniqueViolation);
      }
      revision := revision + 1;
    }
  }

  /** Whether the next write of a row lets the writes run on; if not, no more of the row will. */
  lemma WriteRuns(prefs: Table, left: Table, done: seq<Write>, row: Row, j: nat)
    requires j < |row.calendarIds| && UniqueIntake(prefs)
    requires Shows(prefs, left, done + RowWrites(row, j)) && RunsThrough(left, done + RowWrites(row, j))
    ensures var c := row.calendarIds[j];
            var after := prefs[c := Prefs(Some(row.identity), row.intake == Some(c))];
            && Shows(after, left, done + RowWrites(row, j + 1))
            && (UniqueIntake(after) <==> RunsThrough(left, done + RowWrites(row, j + 1)))
            && (!UniqueIntake(after) ==> !RunsThrough(left, done + RowWrites(row, |row.calendarIds|)))
  {
    var c := row.calendarIds[j];
    var w := Write(c, row.identity, row.intake == Some(c));
    var ws := done + RowWrites(row, j);
    assert done + RowWrites(row, j + 1) == ws + [w];
    assert (ws + [w])[..|ws|] == ws;
    ShowsOneMore(prefs, left, ws, w);
    LetsIff(prefs, left, ws, w);
    var more := RowWritesFrom(row, j + 1, |row.calendarIds|);
    assert done + RowWrites(row, |row.calendarIds|) == (ws + [w]) + more;
    if RunsThrough(left, (ws + [w]) + more) {
      EarlierWritesRun(left, ws + [w], more);
    }
  }

  lemma RefusedEarly(left: Table, rows: seq<Row>, n: nat)
    requires n < |rows| && !RunsThrough(left, AllWrites(rows[..n + 1]))
    ensures !RunsThrough(left, AllWrites(rows))
  {
    var more := AllWritesFrom(rows, n + 1);
    if RunsThrough(left, AllWrites(rows)) {
      EarlierWritesRun(left, AllWrites(rows[..n + 1]), more);
    }
  }

  lemma NothingWritten(table: Table, rows: seq<Row>)
    requires UniqueIntake(table)
    ensures UniqueIntake(Unlinked(table, rows)) && Reached(Unlinked(table, rows), table, rows, 0)
    ensures Shows(Unlinked(table, rows), Unlinked(table, rows), [])
  {
    forall a, b | a in Unlinked(table, rows) && b in Unlinked(table, rows) ensures !Clash(Unlinked(table, rows), a, b) {
      assert !Clash(table, a, b);
    }
  }

  // ---------- What is read back ----------

  /** After an accepted request each identity it names has exactly the calendars and the invitation
      calendar asked for, whatever was there before, and every other identity has none. */
  lemma ReadsBackWhatWasAsked(table: Table, rows: seq<Row>, identity: nat)
    requires ValidRequest(rows) && DistinctIdentities(rows)
    ensures forall row :: row in rows && row.identity == identity ==>
              && LinkedTo(Replaced(table, rows), identity) == CalendarsOf(row)
              && forall c: nat :: ReceivesInvitations(Replaced(table, rows), identity, c) <==> row.intake == Some(c)
    ensures (forall row :: row in rows ==> row.identity != identity) ==>
              LinkedTo(Replaced(table, rows), identity) == {}
  {
    var after := Replaced(table, rows);
    forall row | row in rows && row.identity == identity
      ensures LinkedTo(after, identity) == CalendarsOf(row)
      ensures forall c: nat :: ReceivesInvitations(after, identity, c) <==> row.intake == Some(c)
    {
      forall c ensures c in LinkedTo(after, identity) <==> c in row.calendarIds {
        LinkedExactly(table, rows, row, c);
      }
      forall c: nat ensures ReceivesInvitations(after, identity, c) <==> row.intake == Some(c) {
        LinkedExactly(table, rows, row, c);
      }
    }
  }

  lemma LinkedExactly(table: Table, rows: seq<Row>, row: Row, c: nat)
    requires ValidRequest(rows) && DistinctIdentities(rows) && row in rows
    ensures c in LinkedTo(Replaced(table, rows), row.identity) <==> c in row.calendarIds
    ensures c in row.calendarIds ==> Replaced(table, rows)[c] == Prefs(Some(row.identity), row.intake == Some(c))
  {
    if c in row.calendarIds {
      LinkingIs(rows, row, c);
    } else {
      forall other | other in rows && other.identity == row.identity ensures other == row {
        RowsByIdentity(rows, other, row);
      }
    }
  }

  /** So an identity with calendars has one that receives its invitations, and only one. */
  lemma OneIntakeEach(table: Table, rows: seq<Row>, row: Row)
    requires ValidRequest(rows) && DistinctIdentities(rows) && row in rows && row.calendarIds != []
    ensures row.intake.Some? && forall c: nat ::
              ReceivesInvitations(Replaced(table, rows), row.identity, c) <==> c == row.intake.value
  {
    ReadsBackWhatWasAsked(table, rows, row.identity);
  }

  /** After an accepted request a calendar is linked as the row that names it asks; one no row names is
      unlinked if it was linked, and otherwise as it was, without a row if it had none. */
  lemma WhatBecomesOfACalendar(table: Table, rows: seq<Row>, row: Row, c: nat)
    requires ValidRequest(rows) && DistinctIdentities(rows)
    ensures var after := Replaced(table, rows);
            && (row in rows && c in row.calendarIds ==>
                  c in after && after[c] == Prefs(Some(row.identity), row.intake == Some(c)))
            && ((forall r :: r in rows ==> c !in r.calendarIds) ==>
                  && (c in after <==> c in table)
                  && (c in table ==> after[c] == if table[c].identity == None then table[c] else Prefs(None, false)))
  {
    if row in rows && c in row.calendarIds {
      LinkingIs(rows, row, c);
    }
  }

  /** A valid document can be refused: where an identity's intake passes from a calendar that stays
      linked to one listed before it, the index refuses it, and the same document with the two the
      other way round is accepted. */
  lemma HandoverAgainstTheListIsRefused(identity: nat, previous: nat, next: nat)
    requires previous != next
    ensures var table: Table := map[previous := Prefs(Some(identity), true)];
            var against := [Row(identity, [next, previous], Some(next))];
            var along := [Row(identity, [previous, next], Some(next))];
            && UniqueIntake(table)
            && ValidRequest(against) && DistinctIdentities(against) && !Accepts(table, against)
            && ValidRequest(along) && DistinctIdentities(along) && Accepts(table, along)
  {
    var table: Table := map[previous := Prefs(Some(identity), true)];
    var against := Row(identity, [next, previous], Some(next));
    assert against in [against] && against.calendarIds[0] == next && previous in against.calendarIds;
    assert !ClearedBy(table, against, 0);
    var along := Row(identity, [previous, next], Some(next));
    assert along.calendarIds[..1] == [previous];
  }

  /** The endpoint on such a pair: the first document is refused by the index and changes nothing. */
  method RefusesTheHandover(store: LinksStore, identity: nat, previous: nat, next: nat)
    returns (error: Option<LinksError>)
    requires previous != next && store.prefs == map[previous := Prefs(Some(identity), true)]
    modifies store
    ensures error == Some(UniqueViolation) && store.prefs == old(store.prefs)
  {
    HandoverAgainstTheListIsRefused(identity, previous, next);
    error := store.Put(store.revision, [Row(identity, [next, previous], Some(next))]);
  }
}
