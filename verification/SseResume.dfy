/** What a client presents after its connection was cut: the bytes of src/mail_verdict/api/events.py
    joined to the ids of src/mail_verdict/api/event_ring.py. */
module SseResume {
  import opened Sequences
  import opened EventIds
  import opened Json
  import EventRing
  import opened SseGenerator
  import SseWire

  function ChunkOf(epoch: string, f: Frame): SseWire.Chunk {
    match f
    case Connected(n) => SseWire.Event(FormatEventId(epoch, n), "connected", JObject([]))
    case Resync(n) => SseWire.Event(FormatEventId(epoch, n), "resync", JObject([]))
    case Deliver(e) => SseWire.Event(FormatEventId(epoch, e.id), e.eventType, e.data)
    case Ping => SseWire.Heartbeat
  }

  function ChunksOf(epoch: string, frames: seq<Frame>): (r: seq<SseWire.Chunk>)
    ensures |r| == |frames|
    ensures forall i :: 0 <= i < |r| ==> r[i] == ChunkOf(epoch, frames[i])
  {
    if frames == [] then [] else [ChunkOf(epoch, frames[0])] + ChunksOf(epoch, frames[1..])
  }

  function SeqAfter(f: Frame, before: Option<nat>): Option<nat> {
    match f
    case Connected(n) => Some(n)
    case Resync(n) => Some(n)
    case Deliver(e) => Some(e.id)
    case Ping => before
  }

  /** The id of the last frame that carries one. */
  function LastSeq(frames: seq<Frame>, before: Option<nat>): Option<nat> {
    if frames == [] then before else LastSeq(frames[1..], SeqAfter(frames[0], before))
  }

  predicate Registered(f: Frame) {
    f.Deliver? ==> f.event.eventType in EventRing.SSE_EVENT_TYPES
  }

  lemma MailTypesArePrintable(t: string)
    requires t in EventRing.MAIL_EVENT_TYPES
    ensures Printable(t) && t != ""
  {
  }

  lemma CalendarTypesArePrintable(t: string)
    requires t in EventRing.CALENDAR_EVENT_TYPES
    ensures Printable(t) && t != ""
  {
  }

  lemma OtherTypesArePrintable(t: string)
    requires t in EventRing.OTHER_EVENT_TYPES
    ensures Printable(t) && t != ""
  {
  }

  lemma RegisteredTypesArePrintable(t: string)
    requires t in EventRing.SSE_EVENT_TYPES
    ensures Printable(t) && t != ""
  {
    if t in EventRing.MAIL_EVENT_TYPES {
      MailTypesArePrintable(t);
    } else if t in EventRing.CALENDAR_EVENT_TYPES {
      CalendarTypesArePrintable(t);
    } else {
      OtherTypesArePrintable(t);
    }
  }

  lemma FormattedIdIsPrintable(epoch: string, n: nat)
    requires IsEpoch(epoch)
    ensures Printable(FormatEventId(epoch, n)) && FormatEventId(epoch, n) != ""
  {
    assert forall c :: c in epoch ==> IsHexDigit(c);
    assert forall c :: c in Decimal(n) ==> IsDigit(c);
    forall c | c in FormatEventId(epoch, n) ensures ' ' <= c <= '~' {
      assert c in epoch || c == '-' || c in Decimal(n);
    }
  }

  lemma {:induction false} LastIdIsLastSeq(epoch: string, frames: seq<Frame>, raw: string, before: Option<nat>)
    requires IsEpoch(epoch)
    requires if before.None? then raw == "" else ParseEventId(epoch, raw) == before
    ensures var last := SseWire.LastIdOf(ChunksOf(epoch, frames), raw);
            if LastSeq(frames, before).None? then last == ""
            else ParseEventId(epoch, last) == LastSeq(frames, before)
    decreases |frames|
  {
    if frames != [] {
      var chunk := ChunkOf(epoch, frames[0]);
      assert ChunksOf(epoch, frames)[0] == chunk && ChunksOf(epoch, frames)[1..] == ChunksOf(epoch, frames[1..]);
      var next := SeqAfter(frames[0], before);
      if !frames[0].Ping? {
        EventIdRoundTrip(epoch, epoch, next.value);
      }
      LastIdIsLastSeq(epoch, frames[1..], SseWire.IdAfter(chunk, raw), next);
    }
  }

  /** However a first connection is cut, the event source's id is, to the same process, that of the
      last frame that reached it whole; with no such frame it has none. */
  lemma CutClientResumesAtLastWholeFrame(epoch: string, width: nat, frames: seq<Frame>, k: nat)
    requires IsEpoch(epoch) && forall f :: f in frames ==> Registered(f)
    requires k <= |SseWire.Preamble(width)| + |SseWire.Stream(ChunksOf(epoch, frames))|
    ensures var chunks := ChunksOf(epoch, frames);
            var raw := SseWire.Interpret((SseWire.Preamble(width) + SseWire.Stream(chunks))[..k]).lastEventId;
            var whole := frames[..SseWire.Arrived(width, chunks, k)];
            if LastSeq(whole, None).None? then raw == ""
            else ParseEventId(epoch, raw) == LastSeq(whole, None)
  {
    var chunks := ChunksOf(epoch, frames);
    AllChunksWellFormed(epoch, frames);
    SseWire.CutStreamDecodes(width, chunks, k);
    var n := SseWire.Arrived(width, chunks, k);
    assert ChunksOf(epoch, frames[..n]) == chunks[..n];
    LastIdIsLastSeq(epoch, frames[..n], "", None);
  }

  lemma ChunkIsWellFormed(epoch: string, f: Frame)
    requires IsEpoch(epoch) && Registered(f)
    ensures SseWire.WellFormed(ChunkOf(epoch, f))
  {
    match f
    case Connected(n) => FormattedIdIsPrintable(epoch, n);
    case Resync(n) => FormattedIdIsPrintable(epoch, n);
    case Deliver(e) =>
      FormattedIdIsPrintable(epoch, e.id);
      RegisteredTypesArePrintable(e.eventType);
    case Ping =>
  }

  // ---------- The page, over all its connections ----------

  /** One connection of the page: the process it reached, the frames sent, and how many characters
      of the stream arrived. */
  datatype Connection = Connection(epoch: string, frames: seq<Frame>, cut: nat)

  /** The page has a listener for every registered type but one, and notes the id of each event that
      a listener hears, except for heartbeats, which carry none of their own. */
  predicate Hears(eventType: string) {
    eventType in EventRing.SSE_EVENT_TYPES && eventType != "pipeline.notify"
  }

  function TypeOf(f: Frame): string {
    match f
    case Connected(_) => "connected"
    case Resync(_) => "resync"
    case Deliver(e) => e.eventType
    case Ping => "ping"
  }

  /** What the page has noted after hearing these messages. */
  function Noted(messages: seq<SseWire.Message>, before: string): string {
    if messages == [] then before
    else Noted(messages[1..], if Hears(messages[0].eventType) then messages[0].lastEventId else before)
  }

  function StreamOf(width: nat, c: Connection): string {
    SseWire.Preamble(width) + SseWire.Stream(ChunksOf(c.epoch, c.frames))
  }

  predicate Fits(width: nat, c: Connection) {
    c.cut <= |StreamOf(width, c)|
  }

  ghost predicate ByServer(c: Connection) {
    IsEpoch(c.epoch) && forall f :: f in c.frames ==> Registered(f)
  }

  /** The frames of a connection that arrived whole. */
  function WholeFrames(width: nat, c: Connection): seq<Frame> {
    c.frames[..SseWire.Arrived(width, ChunksOf(c.epoch, c.frames), c.cut)]
  }

  /** What the page has noted at the end of a connection, a new event source each. */
  function NotedOn(width: nat, c: Connection, before: string): string
    requires Fits(width, c)
  {
    Noted(SseWire.Interpret(StreamOf(width, c)[..c.cut]).dispatched, before)
  }

  /** The page keeps its note from one connection to the next. */
  function NotedAfter(width: nat, cs: seq<Connection>, before: string): string
    requires forall c :: c in cs ==> Fits(width, c)
  {
    if cs == [] then before else NotedAfter(width, cs[1..], NotedOn(width, cs[0], before))
  }

  /** The id of the last of these frames that the page hears, as its process formats it. */
  function LastHeard(epoch: string, frames: seq<Frame>, before: string): string {
    if frames == [] then before
    else LastHeard(epoch, frames[1..], if Hears(TypeOf(frames[0])) then ChunkOf(epoch, frames[0]).id else before)
  }

  function LastHeardOver(width: nat, cs: seq<Connection>, before: string): string {
    if cs == [] then before
    else LastHeardOver(width, cs[1..], HeardOn(width, cs[0], before))
  }

  function HeardOn(width: nat, c: Connection, before: string): string {
    LastHeard(c.epoch, WholeFrames(width, c), before)
  }

  lemma HeartbeatsAreNotHeard()
    ensures !Hears("ping") && Hears("connected") && Hears("resync")
  {
    assert "ping"[0] == 'p' && |"ping"| == 4;
    assert |"connected"| == 9 && |"resync"| == 6 && |"pipeline.notify"| == 15;
  }

  lemma {:induction false} NotedIsLastHeard(epoch: string, frames: seq<Frame>, id: string, before: string)
    ensures Noted(SseWire.Expected(ChunksOf(epoch, frames), id), before) == LastHeard(epoch, frames, before)
    decreases |frames|
  {
    HeartbeatsAreNotHeard();
    if frames != [] {
      var chunks := ChunksOf(epoch, frames);
      assert chunks[0] == ChunkOf(epoch, frames[0]) && chunks[1..] == ChunksOf(epoch, frames[1..]);
      var rest := SseWire.Expected(chunks[1..], SseWire.IdAfter(chunks[0], id));
      assert SseWire.Expected(chunks, id)[1..] == rest;
      var heard := Hears(TypeOf(frames[0]));
      NotedIsLastHeard(epoch, frames[1..], SseWire.IdAfter(chunks[0], id),
                       if heard then ChunkOf(epoch, frames[0]).id else before);
    }
  }

  lemma OneConnection(width: nat, c: Connection, before: string)
    requires Fits(width, c) && ByServer(c)
    ensures NotedOn(width, c, before) == HeardOn(width, c, before)
  {
    var chunks := ChunksOf(c.epoch, c.frames);
    AllChunksWellFormed(c.epoch, c.frames);
    SseWire.CutStreamDecodes(width, chunks, c.cut);
    assert ChunksOf(c.epoch, WholeFrames(width, c)) == chunks[..SseWire.Arrived(width, chunks, c.cut)];
    NotedIsLastHeard(c.epoch, WholeFrames(width, c), "", before);
    var expected := SseWire.Expected(ChunksOf(c.epoch, WholeFrames(width, c)), "");
    assert [] + expected == expected;
  }

  /** Over any number of connections, each cut anywhere, the page comes back with the id of the last
      frame it heard that arrived whole on any of them: heartbeats, preambles and connections that
      brought nothing leave it as it was. */
  lemma {:induction false} PageComesBackWithLastHeard(width: nat, cs: seq<Connection>, before: string)
    requires forall c :: c in cs ==> Fits(width, c)
    requires forall c :: c in cs ==> ByServer(c)
    ensures NotedAfter(width, cs, before) == LastHeardOver(width, cs, before)
    decreases |cs|
  {
    if cs != [] {
      var c, others := cs[0], cs[1..];
      assert c in cs && forall x :: x in others ==> x in cs;
      OneConnection(width, c, before);
      PageComesBackWithLastHeard(width, others, HeardOn(width, c, before));
    }
  }

  lemma AllChunksWellFormed(epoch: string, frames: seq<Frame>)
    requires IsEpoch(epoch) && forall f :: f in frames ==> Registered(f)
    ensures forall chunk :: chunk in ChunksOf(epoch, frames) ==> SseWire.WellFormed(chunk)
  {
    var chunks := ChunksOf(epoch, frames);
    forall chunk | chunk in chunks ensures SseWire.WellFormed(chunk) {
      var i :| 0 <= i < |chunks| && chunks[i] == chunk;
      assert frames[i] in frames && chunk == ChunkOf(epoch, frames[i]);
      ChunkIsWellFormed(epoch, frames[i]);
    }
  }
}
