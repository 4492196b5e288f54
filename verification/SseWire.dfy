/** The bytes of the stream (src/mail_verdict/api/events.py) and what a client makes of them
    under sections 9.2.5 and 9.2.6 of the HTML Living Standard. */
module SseWire {
  import opened Sequences
  import opened EventIds
  import opened Json
  import JsonReader

  const PING_FRAME := "event: ping\ndata: {}\n\n"

  /** The comment every stream opens with; the server pads it with 2048 spaces. */
  function Preamble(width: nat): string {
    ":" + Spaces(width) + "\n\n"
  }

  function Spaces(n: nat): (s: string)
    ensures |s| == n && forall c :: c in s ==> c == ' '
  {
    if n == 0 then "" else " " + Spaces(n - 1)
  }

  function FormatSse(id: string, eventType: string, data: Json): string {
    "id: " + id + "\nevent: " + eventType + "\ndata: " + Dumps(data) + "\n\n"
  }

  /** One thing the generator yields. */
  datatype Chunk = Event(id: string, eventType: string, data: Json) | Heartbeat

  function Text(chunk: Chunk): string {
    match chunk
    case Event(id, eventType, data) => FormatSse(id, eventType, data)
    case Heartbeat => PING_FRAME
  }

  function Stream(chunks: seq<Chunk>): string {
    if chunks == [] then "" else Text(chunks[0]) + Stream(chunks[1..])
  }

  /** What a ring's ids and registered event names always are. */
  predicate WellFormed(chunk: Chunk) {
    chunk.Event? ==> Printable(chunk.id) && Printable(chunk.eventType) && chunk.eventType != ""
  }

  // ---------- The client's side: section 9.2.6 ----------

  datatype Message = Message(lastEventId: string, eventType: string, data: string)

  datatype Parser = Parser(
    idBuffer: string, typeBuffer: string, dataBuffer: string,
    lastEventId: string, dispatched: seq<Message>)

  const START := Parser("", "", "", "", [])

  predicate IsBreak(c: char) {
    c == '\n' || c == '\r'
  }

  function FirstBreak(s: string): (i: nat)
    ensures i <= |s| && (i < |s| ==> IsBreak(s[i]))
  {
    if s == "" || IsBreak(s[0]) then 0 else 1 + FirstBreak(s[1..])
  }

  /** The terminated lines of the stream; a line is ended by CR LF, LF or CR. */
  function Lines(s: string): seq<string>
    decreases |s|
  {
    var i := FirstBreak(s);
    if i == |s| then []
    else
      var next := if s[i] == '\r' && i + 1 < |s| && s[i + 1] == '\n' then i + 2 else i + 1;
      [s[..i]] + Lines(s[next..])
  }

  function ProcessField(p: Parser, field: string, value: string): Parser {
    if field == "event" then p.(typeBuffer := value)
    else if field == "data" then p.(dataBuffer := p.dataBuffer + value + "\n")
    else if field == "id" && '\0' !in value then p.(idBuffer := value)
    else p
  }

  function Dispatch(p: Parser): Parser {
    var q := p.(lastEventId := p.idBuffer, typeBuffer := "", dataBuffer := "");
    if p.dataBuffer == "" then q
    else
      var last := |p.dataBuffer| - 1;
      var data := if p.dataBuffer[last] == '\n' then p.dataBuffer[..last] else p.dataBuffer;
      var eventType := if p.typeBuffer == "" then "message" else p.typeBuffer;
      q.(dispatched := p.dispatched + [Message(p.idBuffer, eventType, data)])
  }

  function ProcessLine(p: Parser, line: string): Parser {
    if line == "" then Dispatch(p)
    else
      var colon := IndexOf(line, ':');
      if colon == 0 then p
      else if colon == |line| then ProcessField(p, line, "")
      else
        var rest := line[colon + 1..];
        ProcessField(p, line[..colon], if rest != "" && rest[0] == ' ' then rest[1..] else rest)
  }

  function Fold<P>(p: P, lines: seq<string>, step: (P, string) -> P): P
    decreases |lines|
  {
    if lines == [] then p else Fold(step(p, lines[0]), lines[1..], step)
  }

  function Feed(p: Parser, lines: seq<string>): Parser {
    Fold(p, lines, ProcessLine)
  }

  /** The parser when the stream has ended, or has been cut, after `s`. */
  function Interpret(s: string): Parser {
    Feed(START, Lines(s))
  }

  // ---------- What the client should see ----------

  function IdAfter(chunk: Chunk, before: string): string {
    if chunk.Event? then chunk.id else before
  }

  function Seen(chunk: Chunk, before: string): Message {
    match chunk
    case Event(id, eventType, data) => Message(id, eventType, Dumps(data))
    case Heartbeat => Message(before, "ping", "{}")
  }

  function LastIdOf(chunks: seq<Chunk>, before: string): string {
    if chunks == [] then before else LastIdOf(chunks[1..], IdAfter(chunks[0], before))
  }

  function Expected(chunks: seq<Chunk>, before: string): seq<Message> {
    if chunks == [] then []
    else [Seen(chunks[0], before)] + Expected(chunks[1..], IdAfter(chunks[0], before))
  }

  /** What a client makes of a message: its id, its type, and its data read as JSON. */
  datatype Heard = Heard(id: string, eventType: string, payload: Option<Json>)

  function HeardIn(messages: seq<Message>): seq<Heard> {
    if messages == [] then []
    else
      [Heard(messages[0].lastEventId, messages[0].eventType, JsonReader.Read(messages[0].data))]
      + HeardIn(messages[1..])
  }

  /** What the generator had to say: each event with its own id, type and payload, and each heartbeat
      as an empty ping under the id before it. */
  function Sent(chunks: seq<Chunk>, before: string): seq<Heard> {
    if chunks == [] then []
    else
      match chunks[0]
      case Event(id, eventType, data) => [Heard(id, eventType, Some(data))] + Sent(chunks[1..], id)
      case Heartbeat => [Heard(before, "ping", Some(JObject([])))] + Sent(chunks[1..], before)
  }

  lemma {:induction false} WhatIsSentIsHeard(chunks: seq<Chunk>, before: string)
    ensures HeardIn(Expected(chunks, before)) == Sent(chunks, before)
  {
    if chunks != [] {
      var next := IdAfter(chunks[0], before);
      WhatIsSentIsHeard(chunks[1..], next);
      var first, rest := Seen(chunks[0], before), Expected(chunks[1..], next);
      assert ([first] + rest)[1..] == rest;
      match chunks[0]
      case Event(_, _, data) => JsonReader.ReadsBack(data);
      case Heartbeat =>
        JsonReader.ReadsBack(JObject([]));
        assert Dumps(JObject([])) == "{}";
    }
  }

  /** How many whole chunks lie within the first `k` characters. */
  function Whole(chunks: seq<Chunk>, k: nat): (n: nat)
    ensures n <= |chunks|
  {
    if chunks == [] || k < |Text(chunks[0])| then 0 else 1 + Whole(chunks[1..], k - |Text(chunks[0])|)
  }

  // ---------- Lines ----------

  predicate NoBreak(s: string) {
    forall c :: c in s ==> !IsBreak(c)
  }

  lemma {:induction false} FirstBreakAfter(line: string, rest: string)
    requires NoBreak(line) && (rest == "" || IsBreak(rest[0]))
    ensures FirstBreak(line + rest) == |line|
  {
    if line == "" {
      assert line + rest == rest;
    } else {
      assert line[0] in line;
      FirstBreakAfter(line[1..], rest);
      assert (line + rest)[1..] == line[1..] + rest;
    }
  }

  /** Cutting a stream anywhere within or after its first line. */
  lemma CutLine(line: string, rest: string, k: nat)
    requires NoBreak(line) && k <= |line| + 1 + |rest|
    ensures Lines((line + "\n" + rest)[..k]) ==
            if k <= |line| then [] else [line] + Lines(rest[..k - |line| - 1])
  {
    var s := (line + "\n" + rest)[..k];
    if k <= |line| {
      FirstBreakAfter(line[..k], "");
      assert s == line[..k] + "";
    } else {
      var tail := rest[..k - |line| - 1];
      FirstBreakAfter(line, "\n" + tail);
      assert s == line + ("\n" + tail);
      assert s[..|line|] == line && s[|line| + 1..] == tail;
    }
  }

  // ---------- Frames ----------

  function Terminated(lines: seq<string>): string
    decreases |lines|
  {
    if lines == [] then "" else lines[0] + "\n" + Terminated(lines[1..])
  }

  predicate WholeLines(lines: seq<string>)
    decreases |lines|
  {
    lines == [] || (NoBreak(lines[0]) && WholeLines(lines[1..]))
  }

  /** The stream of `lines` and `rest` cut after `k` characters. */
  function Cut(lines: seq<string>, rest: string, k: nat): string
    requires k <= |Terminated(lines)| + |rest|
  {
    (Terminated(lines) + rest)[..k]
  }

  lemma CutOffLine<P>(p: P, step: (P, string) -> P, lines: seq<string>, rest: string, k: nat)
    requires lines != [] && NoBreak(lines[0]) && k <= |Terminated(lines)| + |rest|
    ensures |Terminated(lines)| == |lines[0]| + 1 + |Terminated(lines[1..])|
    ensures Fold(p, Lines(Cut(lines, rest, k)), step) ==
            if k <= |lines[0]| then p
            else Fold(step(p, lines[0]), Lines(Cut(lines[1..], rest, k - |lines[0]| - 1)), step)
  {
    JoinLine(lines[0], Terminated(lines[1..]), rest);
    CutFirstLine(p, step, lines[0], Terminated(lines[1..]) + rest, k);
  }

  lemma CutNothing(rest: string, k: nat)
    requires k <= |rest|
    ensures Cut([], rest, k) == rest[..k]
  {
    assert Terminated([]) + rest == rest;
  }

  /** Cut after its lines or later: they are fed, and then what is left of the rest. */
  lemma {:induction false} CutAfterLines<P>(
    p: P, step: (P, string) -> P, lines: seq<string>, rest: string, k: nat, cut: string, left: string)
    requires |Terminated(lines)| <= k <= |Terminated(lines)| + |rest|
    requires cut == Cut(lines, rest, k) && left == rest[..k - |Terminated(lines)|]
    requires WholeLines(lines)
    ensures Fold(p, Lines(cut), step) == Fold(Fold(p, lines, step), Lines(left), step)
    decreases |lines|
  {
    if lines == [] {
      CutNothing(rest, k);
    } else {
      var line, others := lines[0], lines[1..];
      CutOffLine(p, step, lines, rest, k);
      var k1 := k - |line| - 1;
      CutAfterLines(step(p, line), step, others, rest, k1, Cut(others, rest, k1), left);
    }
  }

  /** Cut within its lines: those that are whole are fed, and no more. */
  lemma {:induction false} CutWithinLines<P>(
    p: P, step: (P, string) -> P, lines: seq<string>, rest: string, k: nat, cut: string)
    returns (n: nat)
    requires k < |Terminated(lines)| && cut == Cut(lines, rest, k)
    requires WholeLines(lines)
    ensures n < |lines| && Fold(p, Lines(cut), step) == Fold(p, lines[..n], step)
    decreases |lines|
  {
    n := 0;
    var line, others := lines[0], lines[1..];
    CutOffLine(p, step, lines, rest, k);
    if k > |line| {
      var k1 := k - |line| - 1;
      n := CutWithinLines(step(p, line), step, others, rest, k1, Cut(others, rest, k1));
      FoldPrefix(p, step, lines, n);
      n := n + 1;
    }
  }

  lemma JoinLine(line: string, body: string, rest: string)
    ensures (line + "\n" + body) + rest == line + "\n" + (body + rest)
  {
  }

  lemma FoldPrefix<P>(p: P, step: (P, string) -> P, lines: seq<string>, n: nat)
    requires n < |lines|
    ensures Fold(p, lines[..n + 1], step) == Fold(step(p, lines[0]), lines[1..][..n], step)
  {
    assert lines[..n + 1][1..] == lines[1..][..n];
  }

  lemma CutFirstLine<P>(p: P, step: (P, string) -> P, line: string, rest: string, k: nat)
    requires NoBreak(line) && k <= |line| + 1 + |rest|
    ensures Fold(p, Lines((line + "\n" + rest)[..k]), step) ==
            if k <= |line| then p else Fold(step(p, line), Lines(rest[..k - |line| - 1]), step)
  {
    CutLine(line, rest, k);
    if k > |line| {
      var others := Lines(rest[..k - |line| - 1]);
      assert ([line] + others)[1..] == others;
    }
  }

  /** Only a blank line dispatches anything or moves the last event id. */
  lemma {:induction false} FieldsDispatchNothing(p: Parser, lines: seq<string>)
    requires "" !in lines
    ensures Feed(p, lines).dispatched == p.dispatched && Feed(p, lines).lastEventId == p.lastEventId
    decreases |lines|
  {
    if lines != [] {
      assert lines[0] in lines && forall line :: line in lines[1..] ==> line in lines;
      FieldsDispatchNothing(ProcessLine(p, lines[0]), lines[1..]);
    }
  }

  lemma FieldLine(p: Parser, field: string, value: string)
    requires field != "" && ':' !in field
    ensures ProcessLine(p, field + ": " + value) == ProcessField(p, field, value)
  {
    var line := field + ": " + value;
    assert line == field + [':'] + (" " + value);
    IndexOfConcat(field, ':', " " + value);
    assert line[..|field|] == field && line[|field| + 1..] == " " + value;
    assert (" " + value)[1..] == value;
  }

  function FieldsOf(chunk: Chunk): seq<string> {
    match chunk
    case Event(id, eventType, data) => ["id: " + id, "event: " + eventType, "data: " + Dumps(data)]
    case Heartbeat => ["event: " + "ping", "data: " + "{}"]
  }

  /** Between frames: nothing buffered, and the last id is the one dispatched with. */
  predicate Settled(p: Parser) {
    p.typeBuffer == "" && p.dataBuffer == "" && p.lastEventId == p.idBuffer
  }

  function After(p: Parser, chunk: Chunk): Parser {
    var id := IdAfter(chunk, p.lastEventId);
    Parser(id, "", "", id, p.dispatched + [Seen(chunk, p.lastEventId)])
  }

  lemma FrameLines(chunk: Chunk)
    requires WellFormed(chunk)
    ensures Text(chunk) == Terminated(FieldsOf(chunk) + [""])
    ensures "" !in FieldsOf(chunk) && WholeLines(FieldsOf(chunk) + [""])
  {
    match chunk
    case Heartbeat =>
      assert FieldsOf(chunk) + [""] == ["event: " + "ping", "data: " + "{}", ""];
      TerminatedThree("event: " + "ping", "data: " + "{}");
      PingText();
      PrintableHasNoBreak("event: " + "ping");
      PrintableHasNoBreak("data: " + "{}");
      WholeThree("event: " + "ping", "data: " + "{}");
    case Event(id, eventType, payload) =>
      DumpsPrintable(payload);
      var data := Dumps(payload);
      assert FieldsOf(chunk) + [""] == ["id: " + id, "event: " + eventType, "data: " + data, ""];
      TerminatedFour("id: " + id, "event: " + eventType, "data: " + data);
      JoinFrame(id, eventType, data);
      PrintableHasNoBreak("id: " + id);
      PrintableHasNoBreak("event: " + eventType);
      PrintableHasNoBreak("data: " + data);
      WholeThree("event: " + eventType, "data: " + data);
      WholeOneMore("id: " + id, ["event: " + eventType, "data: " + data, ""]);
  }

  lemma WholeOneMore(line: string, lines: seq<string>)
    requires NoBreak(line) && WholeLines(lines)
    ensures WholeLines([line] + lines)
  {
    assert ([line] + lines)[1..] == lines;
  }

  lemma WholeThree(a: string, b: string)
    requires NoBreak(a) && NoBreak(b)
    ensures WholeLines([a, b, ""])
  {
    WholeOneMore("", []);
    WholeOneMore(b, [""]);
    WholeOneMore(a, [b, ""]);
    assert [a] + [b, ""] == [a, b, ""] && [b] + [""] == [b, ""] && [""] + [] == [""];
  }

  lemma PingText()
    ensures ("event: " + "ping") + "\n" + ("data: " + "{}") + "\n\n" == PING_FRAME
  {
  }

  lemma PrintableHasNoBreak(s: string)
    requires Printable(s)
    ensures NoBreak(s)
  {
    assert forall c :: c in s ==> ' ' <= c;
  }

  lemma TerminatedThree(a: string, b: string)
    ensures Terminated([a, b, ""]) == a + "\n" + b + "\n\n"
  {
    assert [a, b, ""][1..] == [b, ""] && [b, ""][1..] == [""] && [""][1..] == [];
    assert Terminated([""]) == "\n";
    assert Terminated([b, ""]) == b + "\n\n";
  }

  lemma TerminatedFour(a: string, b: string, c: string)
    ensures Terminated([a, b, c, ""]) == a + "\n" + b + "\n" + c + "\n\n"
  {
    assert [a, b, c, ""][1..] == [b, c, ""];
    TerminatedThree(b, c);
    assert a + "\n" + (b + "\n" + c + "\n\n") == a + "\n" + b + "\n" + c + "\n\n";
  }

  lemma JoinFrame(id: string, eventType: string, data: string)
    ensures ("id: " + id) + "\n" + ("event: " + eventType) + "\n" + ("data: " + data) + "\n\n" ==
            "id: " + id + "\nevent: " + eventType + "\ndata: " + data + "\n\n"
  {
  }

  /** A whole frame fed to a settled parser is dispatched with its id, type and data. */
  lemma FeedFrame(p: Parser, chunk: Chunk)
    requires WellFormed(chunk) && Settled(p)
    ensures Feed(p, FieldsOf(chunk) + [""]) == After(p, chunk)
  {
    match chunk
    case Heartbeat =>
      FeedTypeAndData(p, "ping", "{}");
      assert FieldsOf(chunk) + [""] == ["event: " + "ping", "data: " + "{}", ""];
    case Event(id, eventType, payload) =>
      DumpsPrintable(payload);
      FeedEvent(p, id, eventType, Dumps(payload));
      assert FieldsOf(chunk) + [""] == ["id: " + id, "event: " + eventType, "data: " + Dumps(payload), ""];
  }

  lemma IdLine(p: Parser, id: string)
    requires Printable(id)
    ensures ProcessLine(p, "id: " + id) == p.(idBuffer := id)
  {
    assert forall c :: c in id ==> ' ' <= c;
    FieldLine(p, "id", id);
    assert "id" + ": " + id == "id: " + id && "id" != "event" && "id" != "data";
  }

  lemma EventLine(p: Parser, eventType: string)
    ensures ProcessLine(p, "event: " + eventType) == p.(typeBuffer := eventType)
  {
    FieldLine(p, "event", eventType);
    assert "event" + ": " + eventType == "event: " + eventType;
  }

  lemma DataLine(p: Parser, data: string)
    requires p.dataBuffer == ""
    ensures ProcessLine(p, "data: " + data) == p.(dataBuffer := data + "\n")
  {
    FieldLine(p, "data", data);
    assert "data" + ": " + data == "data: " + data && "data" != "event";
    assert "" + data + "\n" == data + "\n";
  }

  lemma FeedEvent(p: Parser, id: string, eventType: string, data: string)
    requires Printable(id) && eventType != "" && p.typeBuffer == p.dataBuffer == ""
    ensures Feed(p, ["id: " + id, "event: " + eventType, "data: " + data, ""]) ==
            Parser(id, "", "", id, p.dispatched + [Message(id, eventType, data)])
  {
    var line, rest := "id: " + id, ["event: " + eventType, "data: " + data, ""];
    IdLine(p, id);
    FeedTypeAndData(p.(idBuffer := id), eventType, data);
    FeedOne(p, line, rest);
    assert ["id: " + id, "event: " + eventType, "data: " + data, ""] == [line] + rest;
  }

  lemma FeedOne(p: Parser, line: string, rest: seq<string>)
    ensures Feed(p, [line] + rest) == Feed(ProcessLine(p, line), rest)
  {
    assert ([line] + rest)[1..] == rest;
  }

  lemma FeedTypeAndData(p: Parser, eventType: string, data: string)
    requires eventType != "" && p.typeBuffer == p.dataBuffer == ""
    ensures Feed(p, ["event: " + eventType, "data: " + data, ""]) ==
            Parser(p.idBuffer, "", "", p.idBuffer, p.dispatched + [Message(p.idBuffer, eventType, data)])
  {
    var p1 := p.(typeBuffer := eventType);
    EventLine(p, eventType);
    DataLine(p1, data);
    DispatchOneLine(p1.(dataBuffer := data + "\n"), data);
    FoldThree(p, ProcessLine, "event: " + eventType, "data: " + data, "");
  }

  lemma DispatchOneLine(p: Parser, data: string)
    requires p.dataBuffer == data + "\n" && p.typeBuffer != ""
    ensures ProcessLine(p, "") ==
            Parser(p.idBuffer, "", "", p.idBuffer, p.dispatched + [Message(p.idBuffer, p.typeBuffer, data)])
  {
    assert p.dataBuffer[|data|] == '\n' && p.dataBuffer[..|data|] == data;
  }

  lemma FoldThree<P>(p: P, step: (P, string) -> P, a: string, b: string, c: string)
    ensures Fold(p, [a, b, c], step) == step(step(step(p, a), b), c)
  {
    assert [a, b, c][1..] == [b, c] && [b, c][1..] == [c] && [c][1..] == [];
    assert Fold(step(p, a), [b, c], step) == Fold(step(step(p, a), b), [c], step);
  }

  /** One frame cut anywhere: either it is whole and dispatched, or nothing is seen of it. */
  lemma CutFrame(p: Parser, chunk: Chunk, rest: string, k: nat)
    requires WellFormed(chunk) && Settled(p) && k <= |Text(chunk)| + |rest|
    ensures var q := Feed(p, Lines((Text(chunk) + rest)[..k]));
            if k < |Text(chunk)| then q.dispatched == p.dispatched && q.lastEventId == p.lastEventId
            else q == Feed(After(p, chunk), Lines(rest[..k - |Text(chunk)|]))
  {
    var fields := FieldsOf(chunk);
    FrameLines(chunk);
    FeedFrame(p, chunk);
    if k < |Text(chunk)| {
      var n := CutWithinLines(p, ProcessLine, fields + [""], rest, k, (Text(chunk) + rest)[..k]);
      assert (fields + [""])[..n] == fields[..n];
      FieldsDispatchNothing(p, fields[..n]);
    } else {
      CutAfterLines(p, ProcessLine, fields + [""], rest, k, (Text(chunk) + rest)[..k], rest[..k - |Text(chunk)|]);
    }
  }

  /** A parser at the start of a connection: empty buffers, whatever id its event source carries. */
  function Reconnecting(carried: string): Parser {
    START.(lastEventId := carried)
  }

  /** The preamble is a comment and an empty event: cut, nothing is seen of it; whole, its blank line
      alone sets the last event id to the empty buffer's. */
  lemma CutPreamble(carried: string, width: nat, rest: string, k: nat)
    requires k <= |Preamble(width)| + |rest|
    ensures var q := Feed(Reconnecting(carried), Lines((Preamble(width) + rest)[..k]));
            if k < |Preamble(width)| then q == Reconnecting(carried)
            else q == Feed(START, Lines(rest[..k - |Preamble(width)|]))
  {
    var p := Reconnecting(carried);
    var comment := ":" + Spaces(width);
    var lines := [comment, ""];
    assert lines[1..] == [""] && [""][1..] == [];
    assert Preamble(width) == Terminated(lines);
    assert comment[0] == ':' && ProcessLine(p, comment) == p && ProcessLine(p, "") == START;
    assert Feed(p, [""]) == START && Feed(p, lines) == START;
    if k < |Preamble(width)| {
      var n := CutWithinLines(p, ProcessLine, lines, rest, k, (Preamble(width) + rest)[..k]);
      assert lines[..0] == [] && lines[..1] == [comment] && [comment][1..] == [];
    } else {
      CutAfterLines(p, ProcessLine, lines, rest, k, (Preamble(width) + rest)[..k], rest[..k - |Preamble(width)|]);
    }
  }

  /** From `p` to `q` the client saw exactly `chunks`. */
  predicate Advances(p: Parser, q: Parser, chunks: seq<Chunk>) {
    && q.dispatched == p.dispatched + Expected(chunks, p.lastEventId)
    && q.lastEventId == LastIdOf(chunks, p.lastEventId)
  }

  lemma AdvancesOneMore(p: Parser, q: Parser, chunk: Chunk, rest: seq<Chunk>)
    requires Advances(After(p, chunk), q, rest)
    ensures Advances(p, q, [chunk] + rest)
  {
    var all := [chunk] + rest;
    assert all[1..] == rest;
    var head, tail := [Seen(chunk, p.lastEventId)], Expected(rest, IdAfter(chunk, p.lastEventId));
    assert Expected(all, p.lastEventId) == head + tail;
    assert (p.dispatched + head) + tail == p.dispatched + (head + tail);
  }

  lemma NothingOfIt(p: Parser, q: Parser)
    requires q.dispatched == p.dispatched && q.lastEventId == p.lastEventId
    ensures Advances(p, q, [])
  {
  }

  function FeedStream(p: Parser, chunks: seq<Chunk>, k: nat): Parser
    requires k <= |Stream(chunks)|
  {
    Feed(p, Lines(Stream(chunks)[..k]))
  }

  lemma CutFirstFrame(p: Parser, chunks: seq<Chunk>, k: nat)
    requires chunks != [] && WellFormed(chunks[0]) && Settled(p) && k <= |Stream(chunks)|
    ensures k < |Text(chunks[0])| ==> Advances(p, FeedStream(p, chunks, k), [])
    ensures k >= |Text(chunks[0])| ==>
              FeedStream(p, chunks, k) == FeedStream(After(p, chunks[0]), chunks[1..], k - |Text(chunks[0])|)
  {
    CutFrame(p, chunks[0], Stream(chunks[1..]), k);
    if k < |Text(chunks[0])| {
      NothingOfIt(p, FeedStream(p, chunks, k));
    }
  }

  lemma OneMore(chunks: seq<Chunk>, n: nat)
    requires n < |chunks|
    ensures chunks[..n + 1] == [chunks[0]] + chunks[1..][..n]
  {
  }

  /** If what follows a whole frame is decoded, so is all of it. */
  lemma FrameDecodes(p: Parser, chunks: seq<Chunk>, k: nat, n: nat)
    requires chunks != [] && WellFormed(chunks[0]) && Settled(p) && |Text(chunks[0])| <= k <= |Stream(chunks)|
    requires n <= |chunks| - 1
    requires var q := After(p, chunks[0]);
             Advances(q, FeedStream(q, chunks[1..], k - |Text(chunks[0])|), chunks[1..][..n])
    ensures Advances(p, FeedStream(p, chunks, k), chunks[..n + 1])
  {
    CutFirstFrame(p, chunks, k);
    OneMore(chunks, n);
    AdvancesOneMore(p, FeedStream(p, chunks, k), chunks[0], chunks[1..][..n]);
  }

  predicate AllWellFormed(chunks: seq<Chunk>) {
    chunks == [] || (WellFormed(chunks[0]) && AllWellFormed(chunks[1..]))
  }

  lemma {:induction false} EachWellFormed(chunks: seq<Chunk>)
    requires forall chunk :: chunk in chunks ==> WellFormed(chunk)
    ensures AllWellFormed(chunks)
  {
    if chunks != [] {
      assert chunks[0] in chunks;
      EachWellFormed(chunks[1..]);
    }
  }

  lemma {:induction false} CutFrames(p: Parser, chunks: seq<Chunk>, k: nat)
    requires Settled(p) && k <= |Stream(chunks)| && AllWellFormed(chunks)
    ensures Advances(p, FeedStream(p, chunks, k), chunks[..Whole(chunks, k)])
    decreases |chunks|
  {
    if chunks == [] {
      NothingOfIt(p, FeedStream(p, chunks, k));
    } else if k < |Text(chunks[0])| {
      CutFirstFrame(p, chunks, k);
    } else {
      var left := k - |Text(chunks[0])|;
      CutFrames(After(p, chunks[0]), chunks[1..], left);
      FrameDecodes(p, chunks, k, Whole(chunks[1..], left));
    }
  }

  /** How many whole chunks a stream cut after `k` characters holds. */
  function Arrived(width: nat, chunks: seq<Chunk>, k: nat): (n: nat)
    ensures n <= |chunks|
  {
    if k < |Preamble(width)| then 0 else Whole(chunks, k - |Preamble(width)|)
  }

  /** A fresh client saw exactly `chunks`. */
  predicate Decodes(q: Parser, chunks: seq<Chunk>) {
    Advances(START, q, chunks)
  }

  lemma HeardIfDecoded(q: Parser, chunks: seq<Chunk>)
    requires Decodes(q, chunks)
    ensures HeardIn(q.dispatched) == Sent(chunks, "")
  {
    WhatIsSentIsHeard(chunks, "");
    assert [] + Expected(chunks, "") == Expected(chunks, "");
  }

  lemma CutStreamAdvances(width: nat, chunks: seq<Chunk>, k: nat)
    requires k <= |Preamble(width)| + |Stream(chunks)|
    requires forall chunk :: chunk in chunks ==> WellFormed(chunk)
    ensures Decodes(Interpret((Preamble(width) + Stream(chunks))[..k]), chunks[..Arrived(width, chunks, k)])
  {
    CutPreamble("", width, Stream(chunks), k);
    assert Reconnecting("") == START;
    if k < |Preamble(width)| {
      NothingSeen(START);
    } else {
      EachWellFormed(chunks);
      CutFrames(START, chunks, k - |Preamble(width)|);
    }
  }

  /** A stream cut after any number of characters yields exactly the frames that arrived whole,
      with the payloads that were sent, in order, with heartbeats carrying the id before them; the
      last event id is that of the last whole event frame. */
  lemma CutStreamDecodes(width: nat, chunks: seq<Chunk>, k: nat)
    requires k <= |Preamble(width)| + |Stream(chunks)|
    requires forall chunk :: chunk in chunks ==> WellFormed(chunk)
    ensures Decodes(Interpret((Preamble(width) + Stream(chunks))[..k]), chunks[..Arrived(width, chunks, k)])
    ensures HeardIn(Interpret((Preamble(width) + Stream(chunks))[..k]).dispatched)
            == Sent(chunks[..Arrived(width, chunks, k)], "")
  {
    CutStreamAdvances(width, chunks, k);
    HeardIfDecoded(Interpret((Preamble(width) + Stream(chunks))[..k]), chunks[..Arrived(width, chunks, k)]);
  }

  /** What an event source that reconnects by itself carries on: the id it had while the preamble is
      incomplete; then that of the last whole event frame of the new connection, and none before the
      first. */
  lemma CarriedIdAfter(carried: string, width: nat, chunks: seq<Chunk>, k: nat)
    requires k <= |Preamble(width)| + |Stream(chunks)|
    requires forall chunk :: chunk in chunks ==> WellFormed(chunk)
    ensures Feed(Reconnecting(carried), Lines((Preamble(width) + Stream(chunks))[..k])).lastEventId
            == if k < |Preamble(width)| then carried else LastIdOf(chunks[..Arrived(width, chunks, k)], "")
  {
    CutPreamble(carried, width, Stream(chunks), k);
    CutPreamble("", width, Stream(chunks), k);
    assert Reconnecting("") == START;
    CutStreamDecodes(width, chunks, k);
  }

  lemma NothingSeen(p: Parser)
    ensures Advances(p, p, [])
  {
  }

  /** The whole stream decodes to the whole sequence of frames: what a client reads are the ids, types
      and payloads that were sent. */
  lemma StreamDecodes(width: nat, chunks: seq<Chunk>)
    requires forall chunk :: chunk in chunks ==> WellFormed(chunk)
    ensures Decodes(Interpret(Preamble(width) + Stream(chunks)), chunks)
    ensures HeardIn(Interpret(Preamble(width) + Stream(chunks)).dispatched) == Sent(chunks, "")
  {
    var s := Preamble(width) + Stream(chunks);
    CutStreamDecodes(width, chunks, |s|);
    WholeOfAll(chunks);
    assert s[..|s|] == s && chunks[..|chunks|] == chunks;
  }

  lemma {:induction false} WholeOfAll(chunks: seq<Chunk>)
    ensures Whole(chunks, |Stream(chunks)|) == |chunks|
  {
    if chunks != [] {
      WholeOfAll(chunks[1..]);
    }
  }

  lemma {:induction false} IdsOfEventsAlone(chunks: seq<Chunk>, before: string)
    ensures LastIdOf(chunks, before) == LastIdOf(Filter(chunks, IsEvent), before)
  {
    if chunks != [] {
      var rest := Filter(chunks[1..], IsEvent);
      IdsOfEventsAlone(chunks[1..], IdAfter(chunks[0], before));
      assert ([chunks[0]] + rest)[1..] == rest && [] + rest == rest;
    }
  }

  /** A heartbeat is dispatched, and leaves both ids of the parser where they were. */
  lemma HeartbeatKeepsTheIds(p: Parser)
    requires Settled(p)
    ensures var q := Feed(p, Lines(PING_FRAME));
            && q.lastEventId == p.lastEventId && q.idBuffer == p.idBuffer
            && q.dispatched == p.dispatched + [Message(p.lastEventId, "ping", "{}")]
  {
    CutFrame(p, Heartbeat, "", |PING_FRAME|);
    assert (PING_FRAME + "")[..|PING_FRAME|] == PING_FRAME;
    assert ""[..0] == "" && Lines("") == [];
  }

  /** The parser's last event id at the end of a stream is what it is with the heartbeats left out. */
  lemma HeartbeatsKeepTheId(width: nat, chunks: seq<Chunk>)
    requires forall chunk :: chunk in chunks ==> WellFormed(chunk)
    ensures Interpret(Preamble(width) + Stream(chunks)).lastEventId
            == Interpret(Preamble(width) + Stream(Filter(chunks, IsEvent))).lastEventId
  {
    FilterMembers(chunks, IsEvent);
    StreamDecodes(width, chunks);
    StreamDecodes(width, Filter(chunks, IsEvent));
    IdsOfEventsAlone(chunks, "");
  }

  function IsEvent(chunk: Chunk): bool {
    chunk.Event?
  }
}
