# MailVerdict: verified models

MailVerdict is a self-hosted mail, calendar and contacts server. This project models the parts of
it whose correctness rests on an algorithm or a protocol rather than on I/O, and proves what they
promise. Source lines below are relative to the repository.

**Event stream** (`RingLog`, `EventRing`, `SseGenerator`, `SseProtocol`, `SseGuarantees`, `SseLiveness`,
`SseReconnect`, `SseWire`, `SseResume`, `EventIds`, `Json`, `JsonReader`). `EventRing` is a class of bounded per-account rings under one counter, proved
against its unbounded history. `SseGenerator` is the generator behind one stream, cut where the
original suspends; `SseProtocol` interleaves it with arrivals, frames in flight, lost connections,
reconnects with the last id received, and process restarts; `SseGuarantees` proves what every run
guarantees and exactly when it does not, `SseLiveness` what every look sends and that connections come
to rest, `SseReconnect` exactly when a client that comes back is sent
what it missed. `SseWire` is the byte stream and the client's side of
section 9.2.6 of the HTML Living Standard, `JsonReader` its reading of the payloads by RFC 8259;
`SseResume` joins the two.

**Message lists** (`Keyset`, `Conversations`, `MessageList`, `ListPages`). A page is read by a WHERE, ORDER BY,
LIMIT query past a cursor, or by two of them around a message; each page is proved to be the slice
of the whole list it should be, with exact flags, and following cursors is proved to enumerate;
`ListPages` says what lists and pages show in terms of the messages.

**Bulk move** (`BulkMove`). Ids are checked once, grouped by the folder the caller saw them in, and
moved by one guarded statement per folder; between any two statements other sessions may leave any
mailbox whatever, but for the rows the request's transaction has locked.

**Mail alerts** (`AlertTable`, `AlertResolve`, `AlertEvents`, `AlertProtocol`, `AlertDispatch`). Staging, the two
statements of a finalizer tick, resolution, dismissal, announcement and crashes as one state
machine; resolution by one event per changed row, with further changes before each is handled; and
the code paths as methods of a class proved against the same table functions.

**Smaller algorithms.** `AddressHeader`, `Mailboxes` and `ReplyRecipients` (whom a reply goes to),
`ContactPager` and `ContactTies` (drop-and-refill paging, and what equal summaries do to it),
`CalendarLinks` (replacing the identity-to-calendar document under a unique index), `TaskProviders`
(a settings migration and its inverse).

`Sequences` holds what several modules need of filters, sorting and ordered sequences.

Where a promise is not kept by the code as it is, the project keeps the code and says exactly when:

- a live stream loses an event without a resync exactly when it looks after some account got more
  events past the last id seen than its ring holds (`SseGuarantees.DeliveryIsExact`,
  `SseGuarantees.LateLookLosesAnEntry`, `SseGuarantees.LiveStreamCanLoseAnEvent`), and a stream filtered
  to one account can starve (`SseGuarantees.FilteredStreamOpenedEarlyStarves`, `SseGuarantees.StarvingForever`);
- the comment at `src/mail_verdict/api/events.py:259-261`, that a gap after `connected` is replayable,
  does not always hold: a client is told to start over, although everything it missed is still in the
  rings, exactly when no account of its stream got more events since than its ring holds and one of
  them got exactly as many, or has none from before (`SseReconnect.NeedlessResyncIff`,
  `SseReconnect.ConnectedIdIsNotAlwaysReplayable`);
- a tick announces mail that was read when it began exactly in two cases
  (`AlertProtocol.TickAnnouncesReadMailIff`, `AlertProtocol.StagedMidTickIsAnnounced`, and
  `AlertProtocol.DismissedWhileStagedIsAnnounced`, which takes a request to dismiss an alert whose id
  no list, event or page has shown yet);
- contacts are paged by offset in an order without a tie-break, so pages are right however ties are
  broken exactly when no kept card shares its summary with another (`ContactTies.PagesAreRightIff`);
- an address with an escaped quote in its display name may be cut (`Mailboxes.QuotedMailboxIsWholeIff`);
- a valid links document is refused by the unique index when the new intake calendar is listed
  before the old one (`CalendarLinks.HandoverAgainstTheListIsRefused`);
- the migration's way there and back is the identity only for blobs of one form
  (`TaskProviders.RoundTripIff`).

## Model

| member | source | states |
|---|---|---|
| `EventIds.EventIdRoundTrip` | src/mail_verdict/api/event_ring.py:54-72 | an id a ring formats parses back to its number in the same process, and to nothing under any other epoch |
| `EventIds.ParsedIdsCarryTheEpoch` | src/mail_verdict/api/event_ring.py:58-72 | whatever parses starts with the ring's own epoch and a dash |
| `RingLog.RingFacts` | src/mail_verdict/api/event_ring.py:106-109 | a bounded ring holds exactly its account's entries newer than the newest it has dropped, in order |
| `RingLog.GapTestIsSound` | src/mail_verdict/api/event_ring.py:120-187 | where the gap test passes, a replay is exactly the log entries after the given id, for one account or merged over all |
| `RingLog.GapTestIff` | src/mail_verdict/api/event_ring.py:160-187 | the gap test passes if and only if every account the stream is about keeps an entry at or before the given id |
| `RingLog.KeepsOneByIff` | src/mail_verdict/api/event_ring.py:106-109 | an account does exactly when its oldest retained entry is one; that is, when it has an event that early and fewer later ones than its ring holds |
| `RingLog.DroppedPastIff` | src/mail_verdict/api/event_ring.py:106-109 | an account has dropped an id after the given one exactly when more of its events came after that than its ring holds |
| `RingLog.RefusedThoughRetainedIff` | src/mail_verdict/api/event_ring.py:160-187 | the gap test refuses a replay that would have been complete exactly when no account concerned got more events after the id than its ring holds, and one got exactly as many, or has none before |
| `RingLog.ReplayFacts` | src/mail_verdict/api/event_ring.py:120-158 | with or without the test, a replay is strictly increasing, holds only retained entries after the id, and unless refused holds all of them |
| `RingLog.UnfilteredReplayCompleteIff` | src/mail_verdict/api/event_ring.py:150-187 | a merged replay is complete if and only if no account has dropped an id after the given one |
| `RingLog.FilteredReplayCompleteIff` | src/mail_verdict/api/event_ring.py:138-149 | a one-account replay is complete if and only if there is nothing to deliver or the oldest retained id is at or before the given one |
| `RingLog.ZeroSizeRingHidesGaps` | src/mail_verdict/api/event_ring.py:106-109 | a ring of size zero passes the gap test with everything lost: the reason the stream theorems ask for a size of at least one |
| `EventRing.EventRing.Add` | src/mail_verdict/api/event_ring.py:74-118 | an unregistered type is refused and changes nothing; else the history grows by one numbered entry, the rings still follow it, and exactly the waiters of that account and of all accounts are woken |
| `EventRing.EventRing.ReplayFrom` | src/mail_verdict/api/event_ring.py:120-158 | the loops over the rings, filtered or merged and sorted, return what the history alone determines |
| `EventRing.EventRing.HasEventsAfter` | src/mail_verdict/api/event_ring.py:160-187 | the test over the rings is the test on the history |
| `EventRing.RingsFollowLog` | src/mail_verdict/api/event_ring.py:94-109 | appending to one bounded deque keeps every ring the last entries of its account's history |
| `EventRing.EventRing.RegisterWaiter` | src/mail_verdict/api/event_ring.py:193-208 | a fresh unset waiter joins its own list and no other |
| `EventRing.EventRing.UnregisterWaiter` | src/mail_verdict/api/event_ring.py:210-226 | the first occurrence leaves its list, nobody else leaves any list, and an emptied list leaves the table |
| `EventRing.RemovesOne` | src/mail_verdict/api/event_ring.py:220-221 | what is left is the list without that one place, in order |
| `SseGenerator.SseGenerator.Start` | src/mail_verdict/api/events.py:226-264 | a new stream replays, resyncs or connects as the ring's history and the presented id determine, its waiter registered and unset |
| `SseGenerator.SseGenerator.LookAtRing` | src/mail_verdict/api/events.py:267-281 | the waiter is cleared before the ring is read, and the stream goes on with what the ring then holds |
| `SseGenerator.SseGenerator.Wake` | src/mail_verdict/api/events.py:285-291 | once woken the stream goes on with what the ring holds after the last id seen |
| `SseProtocol.NextKeepsInv` | src/mail_verdict/api/events.py:207-296 | every step of every interleaving keeps the page exact, now and after each frame in flight, and keeps a sleeping generator with an unset waiter caught up |
| `SseGuarantees.SteppedOverIsWhatWasEvicted` | src/mail_verdict/api/event_ring.py:150-158 | what an unfiltered look steps over is exactly what the rings had dropped past the last id seen |
| `SseGuarantees.NothingEvictedIff` | src/mail_verdict/api/event_ring.py:106-109 | that is nothing exactly when no account has dropped an id after the last one seen, and exactly when none got more events after it than its ring holds |
| `SseGuarantees.SkipsAreEvictions` | src/mail_verdict/api/events.py:278-291 | over any run, the ids stepped over are those its looks found evicted, no fewer and no more |
| `SseGuarantees.DeliveryIsExact` | src/mail_verdict/api/events.py:207-296 | over all runs, an unfiltered page has received since its last sync frame exactly the entries up to its last id, once each and in order, less those some look found already evicted; and all of them if and only if no look found one of them evicted |
| `SseGuarantees.TimelyDeliveryIsComplete` | src/mail_verdict/api/events.py:267-291 | while no look comes after some account got more events past the last id seen than its ring holds, the page has received every entry since its last sync frame, once and in order |
| `SseGuarantees.LateLookLosesAnEntry` | src/mail_verdict/api/events.py:278-291 | every look that does come later loses an entry: once what it found has arrived the page has gone past that entry, with no sync frame, and does not have it |
| `SseGuarantees.LostForGood` | src/mail_verdict/api/events.py:267-291 | and whatever follows, only a sync frame takes the page past it |
| `SseGuarantees.OnlyDroppedEntriesAreSkipped` | src/mail_verdict/api/events.py:278-291 | what a live look stepped over is still dropped now (that all that was dropped is stepped over is SkipsAreEvictions) |
| `SseGuarantees.FilteredDeliveryHasNoGap` | src/mail_verdict/api/events.py:207-296 | a stream of one account never has a gap inside what it delivered |
| `SseGuarantees.NoLostWakeup` | src/mail_verdict/api/events.py:271-285 | in every reachable state a generator asleep on an unset waiter finds nothing to replay; and it has delivered all there is for it if and only if its stream is not one account's and behind that account's ring |
| `SseGuarantees.QuietMeansCaughtUp` | src/mail_verdict/api/events.py:267-291 | a quiet stream, of one account or of all, stands at the last id seen and lacks nothing since its sync frame but what was stepped over, if and only if it is not starving |
| `SseGuarantees.LiveStreamCanLoseAnEvent` | src/mail_verdict/api/events.py:278-291 | for a ring of any size, a run in which one event more than it holds, between two looks, is an event lost with nothing in flight and no resync |
| `SseGuarantees.StarvingForever` | src/mail_verdict/api/event_ring.py:143-146 | a filtered stream behind its ring's oldest entry delivers nothing more while the connection lives |
| `SseGuarantees.FilteredStreamOpenedEarlyStarves` | src/mail_verdict/api/event_ring.py:138-146 | in every run, a stream of one account that is live with nothing to send before that account's first event starves from that event on |
| `SseGuarantees.FilteredStreamsOpenEarly` | src/mail_verdict/api/events.py:262-264 | such a stream is reached for every account and any ring size |
| `SseLiveness.LookSendsWhatIsDue` | src/mail_verdict/api/events.py:278-295 | in every reachable state a look queues exactly the entries after the last id seen that are for this stream and still in their ring, once each and in order, or none if its stream is one account's and behind that ring; finding none at the top of the loop it falls asleep, unset |
| `SseLiveness.WhatIsDueArrives` | src/mail_verdict/api/events.py:267-295 | each such entry reaches the page by sending, receiving and looking alone |
| `SseLiveness.SendingComesToRest` | src/mail_verdict/api/events.py:267-295 | from every state in which the generator sends, those steps alone lead to it asleep, its waiter unset, nothing in flight and the page at the last id seen |
| `SseLiveness.ConnectionsComeToRest` | src/mail_verdict/api/events.py:226-295 | so any connection, at whatever point, left to itself, comes to rest, the page then lacking nothing but what was stepped over if and only if the stream is not starving |
| `SseLiveness.TimeOutSendsAHeartbeat` | src/mail_verdict/api/events.py:280-284 | a wait that times out puts one heartbeat on the wire, which leaves the page as it was |
| `SseReconnect.ReconnectCatchesUpOrResyncs` | src/mail_verdict/api/events.py:229-264 | in every reachable state a client coming back is sent all it missed if and only if the process is the one it knew and every account of its stream keeps an entry at or before its last id; otherwise, and only then, a resync; a new client is sent `connected` |
| `SseReconnect.NeedlessResyncIff` | src/mail_verdict/api/events.py:229-256 | it is told to start over although all it missed is retained exactly when no account of its stream got more events since than its ring holds, and one got exactly as many, or has none from before |
| `SseReconnect.ConnectedIdIsNotAlwaysReplayable` | src/mail_verdict/api/events.py:257-264 | runs that show it, for any ring size, filtered or not: a page whose only frame was `connected`, with id k, coming back n events of one account later, is so treated exactly when n is at most the ring's size and either equal to it or k is 0 |
| `SseWire.FeedFrame` | src/mail_verdict/api/events.py:192-204 | one formatted event or heartbeat fed to the standard's parser dispatches its id, type and data and leaves nothing buffered |
| `SseWire.CutStreamDecodes` | src/mail_verdict/api/events.py:79-89 | preamble and any interleaving of events and heartbeats, cut after any number of characters, decode to exactly the frames that arrived whole, and read as JSON to the payloads that were sent |
| `SseWire.StreamDecodes` | src/mail_verdict/api/events.py:192-204 | uncut, the stream decodes to the whole sequence: what a client reads are the ids, event types and payloads sent |
| `SseWire.HeartbeatsKeepTheId` | src/mail_verdict/api/events.py:74-80 | at the end of any stream the parser's last event id is what it is with the heartbeats left out |
| `SseWire.HeartbeatKeepsTheIds` | src/mail_verdict/api/events.py:74-80 | one heartbeat fed to the parser between frames is dispatched and leaves both of its ids alone |
| `SseWire.CarriedIdAfter` | src/mail_verdict/api/events.py:82-89 | an event source that reconnects by itself keeps its id while the preamble is incomplete; then it has that of the last whole event frame of the new connection, and none before the first |
| `Json.DumpsPrintable` | src/mail_verdict/api/events.py:204-204 | the dumped payload has no line break, whatever strings it holds |
| `JsonReader.ReadsBack` | src/mail_verdict/api/events.py:204-204 | a reader of the grammar of RFC 8259 reads every dumped payload back as itself |
| `SseResume.CutClientResumesAtLastWholeFrame` | src/mail_verdict/api/events.py:192-264 | however a first connection is cut, the event source's id parses, in the same process, to that of the last whole frame that carried one, and there is none if none arrived |
| `SseResume.PageComesBackWithLastHeard` | ui/src/hooks/use-sse.ts:241-318 | over any number of connections, each cut anywhere, the page, which opens a new event source each time and notes ids itself, comes back with the id of the last frame it heard that arrived whole on any of them |
| `Keyset.CursorsSplitTheOrder` | src/mail_verdict/core/cursor.py:33-123 | the two cursor predicates are the two sides of the list order, NULL dates included |
| `Keyset.SplitAt` | src/mail_verdict/core/cursor.py:33-123 | any cursor row cuts the ordered list into a prefix, itself if listed, and a suffix |
| `Keyset.OlderSliceLeadsOn` | src/mail_verdict/api/mails.py:391-405 | a slice names a next cursor exactly when more remain, and what lies past that cursor is what the slice left |
| `Keyset.NewerSliceLeadsOn` | src/mail_verdict/api/mails.py:391-405 | the same towards newer mail |
| `MessageList.ReadMessagePage` | src/mail_verdict/api/mails.py:321-405 | every page read by queries is the slice of the whole list it should be, with exact flags and cursors, and each refusal is the right one |
| `MessageList.ListMessagesAround` | src/mail_verdict/api/mails.py:514-601 | two fetches and the resolved row make the window of the list around it |
| `MessageList.CutBelow` | src/mail_verdict/api/mails.py:685-738 | filtering by the cursor before sorting is cutting the sorted list at it |
| `MessageList.CutAbove` | src/mail_verdict/api/mails.py:685-738 | the same for the ascending fetch, reversed |
| `MessageList.OlderPagesEnumerate` | src/mail_verdict/api/mails.py:351-405 | following next_cursor from the newest edge enumerates the whole list once and in order, for any page size, flat or threaded |
| `MessageList.NewerPagesEnumerate` | src/mail_verdict/api/mails.py:351-405 | following prev_cursor enumerates everything above the cursor once and in order |
| `MessageList.AroundRebuildsTheList` | src/mail_verdict/api/mails.py:514-601 | a page around a message is refused exactly when the list does not show it; else it is a window around the one that stands for it, of as many newer and older entries as half the limit allows and the list holds, full unless at an end of the list, with exact flags, and both its cursors together rebuild the whole list |
| `ListPages.PageIsTheNextStretch` | src/mail_verdict/api/mails.py:351-405 | any other page is refused exactly for a cursor that is no message, `after` going before `before`; else it is the `limit` entries next to the cursor, or all there are, and says whether more follow |
| `ListPages.ListIsNewestFirst` | src/mail_verdict/api/mails.py:719-731 | a list is in descending order of receipt time, unknown times first, and of id where those are equal |
| `ListPages.FlatListShows` | src/mail_verdict/api/mails.py:477-511 | a flat list shows exactly the messages that are not expunged and meet every filter given |
| `ListPages.ThreadedEntriesAreShown` | src/mail_verdict/api/mails.py:741-839 | each entry of a threaded list is a message the flat one shows |
| `ListPages.EveryConversationIsShown` | src/mail_verdict/api/mails.py:741-839 | and every message the flat one shows is of a conversation with an entry |
| `ListPages.CountsAreOfTheConversation` | src/mail_verdict/api/mails.py:801-810 | whose counts are those of its own messages that the filters let through, and of the unread ones |
| `ListPages.AroundIsGivenIff` | src/mail_verdict/api/mails.py:336-339 | a page around a message is given exactly when there is no other cursor and the list shows it: itself, or the conversation of any unexpunged message of the account |
| `MessageList.ResolveAgreesWithList` | src/mail_verdict/api/mails.py:604-682 | a message resolves to an entry, counts included, if and only if the list shows it by that entry |
| `MessageList.ThreadedListShowsEveryConversation` | src/mail_verdict/api/mails.py:741-839 | the threaded list is exactly the newest matching message of each conversation with its counts, each conversation once, and the counts add up to all matching and all unread messages |
| `Conversations.RepresentativesAreNewest` | src/mail_verdict/api/mails.py:793-799 | taking the first row of each thread selects exactly the rows newer than all others of their thread |
| `Conversations.GroupingConservesCounts` | src/mail_verdict/api/mails.py:801-810 | every matching message is counted in exactly one conversation, and so is every unread one |
| `Conversations.ConversationIsGrouped` | src/mail_verdict/api/mails.py:628-682 | a conversation looked up by itself is exactly the entry the grouped query shows for it, or absent with it |
| `BulkMove.Classify` | src/mail_verdict/api/mails.py:2225-2237 | each distinct id is kept, skipped, or left as already filed, by what was read |
| `BulkMove.GroupByGuard` | src/mail_verdict/api/mails.py:2286-2288 | grouping puts every id in one group, that of its guard |
| `BulkMove.SkippedIsNotWritten` | src/mail_verdict/api/mails.py:2295-2312 | an id reported as skipped is written by no statement and is not among those that landed |
| `BulkMove.Mailbox.MoveMessagesFrom` | src/mail_verdict/postimap/actions.py:465-501 | exactly the named messages still live in the source folder move, and are returned |
| `BulkMove.Mailbox.MoveMessageBulk` | src/mail_verdict/postimap/actions.py:429-462 | exactly the named messages not yet in the target move, and are counted |
| `BulkMove.Mailbox.MoveGroups` | src/mail_verdict/api/mails.py:2295-2312 | whatever other sessions do in between, each guarded statement moves only messages still in their expected folder, every id of a group lands or is skipped, and the count is what was written |
| `BulkMove.Mailbox.Apply` | src/mail_verdict/api/mails.py:2204-2312 | the whole request: only live messages of the account are written, no guarded one from anywhere but the folder it was seen in, every distinct id ends in exactly one of landed, skipped, already at the target, skipped are exactly those not found, seen elsewhere or gone by the time of the write, the count is right, what was written is as filed, and a refusal writes nothing |
| `BulkMove.MovedIs` | src/mail_verdict/postimap/actions.py:429-501 | a move changes the folder and clears the UID of the named rows and nothing else; marking read changes only that |
| `AlertResolve.SameMailIsAnEquivalence` | src/mail_verdict/alerts/resolve.py:43-50 | being the same mail is reflexive, symmetric and transitive, within one account |
| `AlertResolve.HeaderlessMailMatchesItself` | src/mail_verdict/alerts/resolve.py:43-50 | a row with a NULL Message-ID is the same mail as itself only |
| `AlertResolve.FollowsAMoveElsewhere` | src/mail_verdict/alerts/resolve.py:6-11 | a read copy with the header of an expunged row settles that row's alert |
| `AlertResolve.IncrementalEqualsFull` | src/mail_verdict/alerts/resolve.py:95-126 | where nothing was resolvable, resolving for the inserted or read rows dismisses exactly what the full sweep would, whatever else was moved, unread, expunged or deleted |
| `AlertResolve.IncrementalEqualsFullIff` | src/mail_verdict/alerts/resolve.py:95-126 | on any table the two agree exactly when no resolvable alert lies outside the changed rows' mail |
| `AlertResolve.SweepSettles` | src/mail_verdict/alerts/resolve.py:122-126 | a sweep leaves nothing resolvable, keeps every alert and key, and takes what it resolved out of staging |
| `AlertResolve.ResolvedIff` | src/mail_verdict/alerts/resolve.py:43-92 | an alert is resolved exactly when it is in scope, not dismissed, its row is there, and a live read row of the account is that row or has its Message-ID |
| `AlertResolve.IncrementalRunsNeedNoSweep` | src/mail_verdict/server.py:396-425 | over any run of changes, alerts created delivered and alerts staged, reacting to each change before the next keeps the table that sweeping after each would |
| `AlertEvents.NextKeepsCovered` | src/mail_verdict/server.py:383-425 | with one event per changed row, handled one by one among further changes, every step keeps for each unresolved alert and each live read row of its mail the event of that row or of the alert's own pending |
| `AlertEvents.WhatIsLeftIsPending` | src/mail_verdict/alerts/resolve.py:140-164 | so over any run in which no event is missed, whatever a sweep would still resolve is of the mail of a row whose event is pending, and with none pending nothing is left |
| `AlertEvents.DrainingIsSweeping` | src/mail_verdict/alerts/resolve.py:95-126 | handling the pending events, in any order, leaves exactly the table a sweep would |
| `AlertEvents.SweepMakesGood` | src/mail_verdict/alerts/resolve.py:122-126 | after a sweep all that holds again, whatever events were missed before it |
| `AlertProtocol.NextKeepsInv` | src/mail_verdict/alerts/dispatch.py:176-372 | every step of every interleaving keeps dedupe keys unique, deliveries final, announcements recorded and a tick's locks |
| `AlertProtocol.AtMostOneAnnouncementPerKey` | src/mail_verdict/alerts/dispatch.py:24-36 | over every run no dedupe key is announced twice |
| `AlertProtocol.DeliveredIsNeverACandidateAgain` | src/mail_verdict/alerts/dispatch.py:319-369 | a delivered alert is in no later tick's batch |
| `AlertProtocol.DroppedIsNeverAnnounced` | src/mail_verdict/alerts/dispatch.py:341-358 | a dropped alert had not been announced and never is |
| `AlertProtocol.ReadMailIsSelectedIff` | src/mail_verdict/alerts/dispatch.py:307-337 | an undelivered alert whose mail was read when the tick began is still a candidate at its second statement if and only if it was staged since, or had been dismissed |
| `AlertProtocol.TickAnnouncesReadMailIff` | src/mail_verdict/alerts/dispatch.py:307-369 | and it is handed over to be announced if and only if, besides, it is in the batch and decided to be delivered |
| `AlertProtocol.TickAnnouncesUnreadMail` | src/mail_verdict/alerts/dispatch.py:307-369 | what a tick announces was unread when it began, or staged since, or dismissed by its id before it was delivered |
| `AlertProtocol.StagedMidTickIsAnnounced` | src/mail_verdict/alerts/dispatch.py:310-337 | a run where an alert staged between a tick's two statements, its pipeline run ending then, is announced though its mail was read all along |
| `AlertProtocol.DismissedWhileStagedIsAnnounced` | src/mail_verdict/alerts/resolve.py:75-88 | a run where an alert dismissed by its id before it was delivered is announced though its mail was read when the tick began |
| `AlertProtocol.CommitDecidesByTheMessage` | src/mail_verdict/alerts/dispatch.py:341-369 | in any reachable state a commit removes the alerts of its batch whose mail is gone or expunged, unannounced; delivers, with the folder their mail is in, those whose run has ended, that no run will reach, or that waited out the bound; and leaves all others as they were, but for those the tick found read |
| `AlertProtocol.ArrivalIsHandedOnIff` | src/mail_verdict/alerts/dispatch.py:192-199 | an immediate arrival is handed on to be announced exactly when its mail is unread or it has been dismissed meanwhile |
| `AlertProtocol.CommitTakesABatch` | src/mail_verdict/alerts/dispatch.py:331-333 | a tick that leaves an expired alert staged has removed a full batch of alerts no newer |
| `AlertProtocol.ExpiredAlertsLeaveInTime` | src/mail_verdict/alerts/dispatch.py:313-369 | an expired alert with r staged alerts no newer is delivered, dropped or resolved within floor(r / 100) + 1 committed ticks |
| `AlertDispatch.AlertStore.CreateMailAlert` | src/mail_verdict/database/repository.py:1824-1893 | an insert happens exactly when the dedupe key is free, and otherwise changes nothing |
| `AlertDispatch.AlertStore.InsertAndDeliver` | src/mail_verdict/alerts/dispatch.py:176-199 | the immediate path announces exactly a new key whose row is there and whose mail is unread, and keeps the row of a read one; a repeated key or a row that is gone changes nothing |
| `AlertDispatch.AlertStore.Stage` | src/mail_verdict/alerts/dispatch.py:202-212 | the staged path inserts the same row undelivered under the same conditions |
| `AlertDispatch.AlertStore.Sort` | src/mail_verdict/alerts/dispatch.py:341-354 | the candidates are split into those to drop and those to deliver, each with its current folder |
| `AlertTable.FinalizedByTheMessage` | src/mail_verdict/alerts/dispatch.py:341-366 | what the table and the deliveries are after that, said by the message of each alert |
| `AlertDispatch.AlertStore.FinalizeOnce` | src/mail_verdict/alerts/dispatch.py:277-372 | one tick keeps the table valid, leaves the table the run theorems speak of, and announces each delivered alert once, in order |
| `AlertDispatch.AnnouncementsAre` | src/mail_verdict/alerts/dispatch.py:370-372 | the announcements of a tick are one for each delivered alert, in order, under its key |
| `AlertDispatch.TickIsTwoSteps` | src/mail_verdict/alerts/dispatch.py:307-366 | an undisturbed tick is the two steps of the run model, one after the other |
| `AddressHeader.ExtractsTheFirstMatch` | src/mail_verdict/api/mcp_reply.py:35-40 | the address is the group of the leftmost match of the pattern, or the string itself where there is none |
| `AddressHeader.ExtractionIsBare` | src/mail_verdict/api/mcp_reply.py:35-40 | extracting again changes nothing, and nothing becomes empty |
| `AddressHeader.SplitAddressHeader` | src/mail_verdict/api/mcp_reply.py:52-75 | the loop returns the trimmed pieces of the header |
| `AddressHeader.SplitCutsOnlyAtTopLevel` | src/mail_verdict/api/mcp_reply.py:52-75 | the cuts are exactly the separators outside quotes and angle brackets, each after an even number of quotes, and the pieces are the text between them |
| `AddressHeader.SplitUndoesJoin` | src/mail_verdict/api/mcp_reply.py:52-75 | whole entries joined with a comma and a blank split back into the same list |
| `AddressHeader.StripIs` | src/mail_verdict/api/mcp_reply.py:75-75 | trimming takes all the space at both ends and nothing else |
| `Mailboxes.QuotedMailboxIsWholeIff` | src/mail_verdict/api/mcp_reply.py:52-75 | a mailbox of section 3.4 of RFC 5322 with a quoted display name is such a whole entry exactly when the name's escaped quotes are even in number, and so before each separator in it |
| `Mailboxes.UnescapedMailboxIsWhole` | src/mail_verdict/api/mcp_reply.py:52-75 | it always is when the name has no escaped quote, whatever separators and brackets it holds |
| `Mailboxes.EscapedQuoteCutsAMailbox` | src/mail_verdict/api/mcp_reply.py:61-71 | a name with one escaped quote and a comma makes a mailbox that is cut |
| `ReplyRecipients.DedupeExcluding` | src/mail_verdict/api/mcp_reply.py:78-87 | the loop keeps the first address of each key not excluded |
| `ReplyRecipients.DedupedKeys` | src/mail_verdict/api/mcp_reply.py:78-87 | one address for each wanted key and no empty one |
| `ReplyRecipients.DedupedAreFirsts` | src/mail_verdict/api/mcp_reply.py:78-87 | each address kept is the first of its key |
| `ReplyRecipients.DedupedInOrder` | src/mail_verdict/api/mcp_reply.py:78-87 | and they keep their order |
| `ReplyRecipients.MergeAddresses` | src/mail_verdict/api/mcp_reply.py:90-109 | the base stays a prefix, only addresses new to it and to the exclusions are appended, in order, and none is left without a place |
| `ReplyRecipients.DeriveRecipients` | src/mail_verdict/api/mcp_reply.py:189-213 | To and Cc have no duplicates, share nothing, hold no own address, and together name exactly whom the reply answers plus, in a reply to all, everyone the original went to |
| `ReplyRecipients.WhomAReplyAnswers` | src/mail_verdict/api/mcp_reply.py:200-208 | a reply answers those one's own mail was sent to, else those Reply-To names, else the sender |
| `ContactPager.ListContacts` | src/mail_verdict/api/contacts.py:194-222 | the refill loop returns exactly the page that scanning to the last needed card gives, in the order put together from what its reads saw, or in the one order they all see |
| `ContactPager.PageIsFullOrLast` | src/mail_verdict/api/contacts.py:170-176 | a page holds exactly `limit` rows or has read to the end, and a cursor always advances |
| `ContactPager.PagesAreTheFilteredOrder` | src/mail_verdict/api/contacts.py:194-222 | where all reads see one order, the pages along next_cursor concatenate to it without group cards and other categories |
| `ContactPager.ShownExactly` | src/mail_verdict/api/contacts.py:194-214 | they show exactly the cards that are no group card and of the category asked for |
| `ContactTies.TiesDoNotMatter` | src/mail_verdict/calendar/repository.py:285-312 | however the database breaks ties from read to read, the pages are the kept cards, once each and in order, if no kept card shares its summary |
| `ContactTies.SwapShowsTwice` | src/mail_verdict/calendar/repository.py:309-312 | where a page ends between two cards of one summary, another order for the pages after it shows the first twice and the second never |
| `ContactTies.PagesAreRightIff` | src/mail_verdict/calendar/repository.py:309-312 | for all page sizes and all ways of breaking ties the pages are right if and only if no kept card shares its summary with another card |
| `CalendarLinks.Validate` | src/mail_verdict/api/calendars.py:341-362 | a request passes if and only if each identity names one of its calendars and no calendar has two identities; an error is one the request has |
| `CalendarLinks.WriteIsUniqueIff` | src/mail_verdict/api/calendars.py:381-391 | the next write meets the unique index exactly when it is the new intake and the identity's previous one is still to come |
| `CalendarLinks.LinksStore.Put` | src/mail_verdict/api/calendars.py:326-394 | stale, invalid and index-breaking requests change nothing; a valid one meets the index exactly when some write would let a calendar receive invitations that another, by earlier writes or a kept link, still receives; for identities named once each, exactly when a hand-over is against list order; what is accepted is the table asked for |
| `CalendarLinks.LetsIff` | src/mail_verdict/api/calendars.py:381-391 | one more write keeps the index exactly when no other calendar still receives the identity's invitations by the last word on it |
| `CalendarLinks.ReadsBackWhatWasAsked` | src/mail_verdict/api/calendars.py:293-321 | after an accepted request each identity reads back exactly its calendars and invitation calendar, and an unnamed one none, whatever was there before |
| `CalendarLinks.OneIntakeEach` | src/mail_verdict/api/calendars.py:326-330 | an identity with calendars has one invitation calendar and only one |
| `CalendarLinks.WhatBecomesOfACalendar` | src/mail_verdict/api/calendars.py:364-392 | a calendar a row names is linked as that row asks, any other linked one is unlinked, and the rest stay |
| `CalendarLinks.HandoverAgainstTheListIsRefused` | alembic/versions/0011_calendar.py:41-47 | for any identity and two calendars, a valid document the index refuses, and the same one in the other order accepted |
| `CalendarLinks.RefusesTheHandover` | src/mail_verdict/api/calendars.py:381-392 | the endpoint answers that document with the unique violation and changes nothing |
| `TaskProviders.Settings.Upgrade` | alembic/versions/0048_task_providers.py:71-95 | the nested defaulting loops leave the settings the migration should |
| `TaskProviders.Settings.Downgrade` | alembic/versions/0048_task_providers.py:98-117 | the folding loop leaves the settings the downgrade should |
| `TaskProviders.TasksStartOnTheSharedValues` | alembic/versions/0048_task_providers.py:78-90 | each of the two tasks starts on its own value if it has one, else on the ai provider setting or the effective shared value |
| `TaskProviders.UpgradeStores` | alembic/versions/0048_task_providers.py:71-90 | the stored orders are there after the upgrade if they were, or if a provider setting is stored for ai; their keys of neither task stay but for the shared ones, and so do other categories |
| `TaskProviders.UpgradeStartsTasks` | alembic/versions/0048_task_providers.py:78-90 | and each of their task keys is what was stored under it, else the stored ai setting, else what the stored shared one effectively was |
| `TaskProviders.UnstoredSettingsStartOnTheDefaults` | alembic/versions/0048_task_providers.py:44-44 | where only some shared setting was stored the others start on the old defaults |
| `TaskProviders.DowngradeFoldsTheDecideTask` | alembic/versions/0048_task_providers.py:107-117 | the stored orders after the downgrade hold the decide task's values under the shared names and no task key, the rest as it was |
| `TaskProviders.OtherKeysStay` | alembic/versions/0048_task_providers.py:82-90 | every other orders key is kept and the shared ones are gone |
| `TaskProviders.AssistantStartsOnTheAiSettings` | alembic/versions/0048_task_providers.py:92-95 | an existing assistant category stays; a missing one is made of the stored ai settings, if any |
| `TaskProviders.UpgradeIsIdempotent` | alembic/versions/0048_task_providers.py:21-22 | upgrading again changes nothing |
| `TaskProviders.OrdersRoundTrip` | alembic/versions/0048_task_providers.py:98-117 | where orders has no key of either kind, there and back restores every effective shared value and keeps every other key |
| `TaskProviders.RoundTripIff` | alembic/versions/0048_task_providers.py:71-117 | there and back is the identity if and only if orders stores none or all shared keys and no prefixed key, no assistant category exists, and no provider setting stands without orders |

## Left out

- SseGuarantees.DeliveryIsExact: completeness is conditional, since the live loop does not re-check for a gap; streams of one account never step over anything (FilteredDeliveryHasNoGap). It and the other stream theorems ask for a ring size of at least one (the server uses the default of 500), see RingLog.ZeroSizeRingHidesGaps.
- SseWire.CutStreamDecodes: the preamble is a comment of any width; the server's has 2048 blanks. Payloads hold integers, strings, booleans, nulls, arrays and objects, no floats, and no lone surrogates; characters stand for bytes, the stream being ASCII.
- SseProtocol.NextKeepsInv: the page is one that notes the id of every event it receives; the web page has no listener for `pipeline.notify`, so after one it comes back with the id before it (SseResume.PageComesBackWithLastHeard).
- EventIds.ParsedIdsCarryTheEpoch: digits are ASCII, while str.isdigit accepts others.
- EventIds.EventIdRoundTrip: numbers are written in ASCII digits. A restart's random epoch is taken to be new.
- EventRing.EventRing.Add: the entry's timestamp is not modelled, and neither is clear_account, which drops a ring outright and with it the correspondence to the history.
- MessageList.ReadMessagePage: the table is one fixed list entity with unique ids; choosing between live, glacier and united tables, row marks and `as_of` are not modelled.
- BulkMove.Mailbox.Apply: named ids and an ordinary target folder only; scopes, conversation expansion, glacier folders, flag, expunge and spam actions are not modelled. A scope's unguarded entry wins over a guard, and expansion reads several snapshots, so the guard property does not hold there. Marking read on filing names the landed ids without a folder, as the code does. The order in which a statement returns ids is taken to be that of the list.
- AlertProtocol.TickAnnouncesUnreadMail: two exceptions, each shown to occur; TickAnnouncesReadMailIff says exactly when.
- AlertResolve.IncrementalRunsNeedNoSweep: each change is reacted to before the next, AlertEvents takes them interleaved; in both a row whose expunge is undone, or whose Message-ID changes, without is_seen changing too, is a change the event handler does not react to, and is excluded from the runs.
- AlertProtocol.ExpiredAlertsLeaveInTime: assumes later arrivals have later created_at, no alert row locked by another session, and at most one live pipeline run for a message.
- AlertDispatch.AlertStore.FinalizeOnce: what the SELECT returns is a parameter; alerts of other kinds, titles, bodies and timestamps are not modelled, and push and SSE are one announcement.
- AlertProtocol.NextKeepsInv: mail may change in any way at any time; whether an arrival is staged is a parameter, since the pipeline's eligibility rules are not part of this model.
- AddressHeader.SplitUndoesJoin: what str.strip removes is a parameter that includes the blank.
- Mailboxes.QuotedMailboxIsWholeIff: a display name with both escaped quotes and angle brackets is not covered, the scanner then reading brackets as quoted text does not; other forms of mailbox (comments, several quoted strings) are not modelled.
- ReplyRecipients.DeriveRecipients: own addresses are compared as they are written, so they are bare ones; str.lower is a parameter; subject, quoting and threading headers are left out as easy members, and so is merging a caller's own To and Cc, which may share an address.
- ContactPager.ListContacts: the cards do not change between reads, only the order of equal summaries may; the base64 form of the cursor, and narrowing by address book, search text and group card, which happen before the order, are not modelled.
- CalendarLinks.LinksStore.Put: that identities exist, and the revision check racing another request, are not modelled. The session is taken to flush before each query, SQLAlchemy's default.
- TaskProviders.Settings.Upgrade: the alert-kind constraint and the deletion of alerts on downgrade are not modelled; a settings row holding NULL is taken as an empty blob.
- Glacier copy and restore, folder operations, pipeline documents, identity defaults, settings CRUD and plain schema migrations: not modelled, as they would add easy members or their code is I/O.
