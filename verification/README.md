# Cavitation message pipeline: a verified model

Cavitation receives a message, gives its conversation an identity, writes it to
SQLite tables, announces it through coalesced events, diffs it into the open
transcript and renders it as escaped HTML. Beside that pipeline run two
lock-based protocols, the two-factor circle sessions and the queue of messages
awaiting the user interface, and a saved sign-in state. This project models
those parts and proves what they promise, over all inputs and all runs.

How it is laid out:

- `TextLinks.dfy`: the linkifier and escaper. The loops are methods, proved
  against functions; the results are a parse-back theorem, "no URL is missed"
  and "nothing else is linked".
- `ChatGuids.dfy`: sorting, removing repetitions and joining addresses into a
  chat guid, as a canonical form.
- `Tables.dfy`, `StorageObject.dfy`: every SQL statement as a function on the tables,
  with keys, foreign keys, cascades and REPLACE; the class `Storage` does the
  same in place and is proved against those functions.
- `Receive.dfy`, `Sends.dfy`: `store_message`, cut off at any failing storage
  call, and the storage writes of a local send. What a cut between the statements
  of one call does is said in `Tables.dfy` and `UnreadCounts.dfy`.
- `Runs.dfy`, `UnreadCounts.dfy`: whole runs over all storage operations: schema
  invariants, stable handles, chats that lead back to themselves, unread counts.
- `Queries.dfy`, `Transcript.dfy`: the newest messages of a chat, and the list
  model that refreshes by append or by reset, with a view that replays signals.
- `Pipeline.dfy`: these put together: a stored message reaches the screen, what
  takes the fast path, and the run in which the view goes stale.
- `Events.dfy`: one poll, and the two signals a burst is folded into.
- `Circle.dfy`, `RetryQueue.dfy`: the protocols as atomic steps, one for each
  time a lock is held; a run is any sequence of steps, so any interleaving.
- `SharedItems.dfy`, `AuthLabels.dfy`: repeated directory scans; the sign-in label.
- `Tally.dfy`, `Wrappers.dfy`: counting tokens; optional values and outcomes.

Where the code and its comments disagree the model follows the code:

- `app/text_links.cpp:8-9` says that only http and https are matched. The pattern
  is caseless over Unicode text, so the letter s also matches U+017F (long s).
  `TextLinks.LinkSchemeExactly` says exactly which links have a plain scheme.
- `app/message_list_model.cpp:154-156` means the fast path for a list otherwise
  unchanged, but compares guids only. When the refresh after an edit also finds an
  arrival that was not yet polled, the view keeps the old text
  (`Pipeline.EditSeenWithArrivalGoesStale`); `Transcript.ViewIsExactly` says of every
  run exactly when model and view agree.
- Approvals look a session up by its transaction id twice, in two critical
  sections. If two sessions share that id a message can reach the wrong one
  (`SharedTxnMisdelivers`); `DeliveryTarget` says exactly where it goes.

Parameters stand for what the code asks of the outside: the lowercasing of an
address, the calendar day of a timestamp, the clock, fresh guids, the answers of
the opaque session objects and of the directory listing. `char` is a Unicode
scalar value.

## Model

| member | source | states |
|---|---|---|
| TextLinks.FindMatch | app/text_links.cpp:10-16 | the match found is the leftmost from a position on, greedy, and none is missed before it |
| TextLinks.MatchExactly | app/text_links.cpp:12-14 | a match is a scheme, then all the URL characters that follow, and at least one |
| TextLinks.PlainSchemeIsRecognised | app/text_links.cpp:12-14 | a plain http or https scheme is recognised wherever it stands, in either case of every letter |
| TextLinks.UrlCharsExactly | app/text_links.cpp:13 | which characters a URL may hold |
| TextLinks.TrimTrailing | app/text_links.cpp:22-43 | the chopping loop ends with the specified trimmed text |
| TextLinks.TrimmedIsLongest | app/text_links.cpp:18-43 | the result of trimming is, if and only if, the longest prefix ending neither on sentence punctuation nor on a bracket that outnumbers its opener |
| TextLinks.MayEndExactly | app/text_links.cpp:27-40 | what may be a URL, spelled out with the number of each bracket in it |
| TextLinks.TrimmingIsIdempotent | app/text_links.cpp:22-43 | trimming twice is trimming once |
| TextLinks.Escape | app/text_links.cpp:45-61 | the loop prints every character through the five references and the line break |
| TextLinks.MatchKeepsScheme | app/text_links.cpp:10-43 | trimming a match never removes any of its scheme and slashes, and leaves no quote, bracket or space |
| TextLinks.ScanIsPlaced | app/text_links.cpp:70-87 | the kept parts of the matches are non-empty, disjoint and in order: the cursor never moves back |
| TextLinks.ToRichText | app/text_links.cpp:65-91 | the cursor loop prints exactly the specified nodes, and its output read as HTML is those nodes |
| TextLinks.ParseRender | app/text_links.cpp:45-90 | printed nodes lie in the grammar of plain characters, five references, line breaks and un-nested anchors, and read back as themselves |
| TextLinks.LinkifiedIsWellFormed | app/text_links.cpp:10-16 | every link of the output starts with a scheme and holds only URL characters |
| TextLinks.ParseBack | app/text_links.cpp:65-91 | for every text the output read as HTML, anchors removed and references decoded, is exactly that text |
| TextLinks.RenderingIsInjective | app/text_links.cpp:65-91 | two texts never share a rendering |
| TextLinks.EveryUrlIsLinked | app/text_links.cpp:70-87 | every position where the pattern matches lies inside an anchor |
| TextLinks.EveryLinkIsATrimmedMatch | app/text_links.cpp:70-87 | an anchor begins only where the pattern matches, and holds that match, trimmed |
| TextLinks.LinkSchemeExactly | app/text_links.cpp:8-16 | a link has a plain http or https scheme if and only if its fifth character is not the long s |
| TextLinks.LongSIsLinked | app/text_links.cpp:8-16 | a concrete text whose link does not have a plain scheme |
| ChatGuids.ComputeChatGuid | rust/src/receive.rs:24-30 | the in-place steps compute the specified guid |
| ChatGuids.GuidSpellsOutPeople | rust/src/receive.rs:24-30 | after its transport prefix a guid, cut at the commas, lists everyone in it once and in order |
| ChatGuids.LeqExactly | rust/src/receive.rs:26 | the order is that of the first character that differs |
| ChatGuids.CanonicalExactly | rust/src/receive.rs:25-27 | sorting and removing repetitions forgets order and repetition and nothing else |
| ChatGuids.JoinsEqualExactly | rust/src/receive.rs:29 | two lists join to the same text if and only if cutting their parts at the commas gives the same pieces |
| ChatGuids.JoinInjective | rust/src/receive.rs:29 | joining non-empty, comma-free parts loses nothing |
| ChatGuids.SamePeopleSameGuid | rust/src/receive.rs:18-30 | the same lowercased addresses over the same transport always give the same guid |
| ChatGuids.GuidsEqualExactly | rust/src/receive.rs:24-30 | for all addresses two guids are equal if and only if the transports are and the sorted, deduplicated, lowercased lists are once cut at their commas |
| ChatGuids.GuidIsCanonical | rust/src/receive.rs:18-30 | for non-empty, comma-free addresses two guids are equal if and only if transport and sets of lowercased addresses are |
| ChatGuids.CommaMergesChats | rust/src/receive.rs:29 | two different sets of people with one guid, by a comma inside an address |
| Tables.UpsertHandleKeepsValid | rust/src/storage.rs:215-227 | the id returned stands for the address and service asked for, and every old id for what it stood for |
| Tables.UpsertHandleExactly | rust/src/storage.rs:215-227 | the one row with the address and service takes the name; its creation time and every other row stay |
| Tables.UpsertChatExactly | rust/src/storage.rs:246-265 | title, transport and kind are set; pin, archive, count, date, preview and creation time survive a conflict and start empty otherwise |
| Tables.SetParticipantsExactly | rust/src/storage.rs:267-278 | afterwards exactly the given handles take part, or, if one does not fit, exactly those before; other chats keep theirs |
| Tables.SetPinExactly | rust/src/storage.rs:280-286 | a pin sets its two columns, and setting the old values undoes it |
| Tables.SetArchivedExactly | rust/src/storage.rs:288-294 | archiving sets its column, and setting the old value undoes it |
| Tables.InsertMessageExactly | rust/src/storage.rs:356-390 | the row is the one given and the others stay; its chat shows its text, the newer date and one more unread if received; nothing changes on a broken foreign key |
| Tables.InsertMessageKeepsValid | rust/src/storage.rs:356-390 | REPLACE with cascades keeps every key, foreign key, attachment flag and date bound |
| Tables.CutInsertIsValidExactly | rust/src/storage.rs:356-390 | stopped between its three statements an insertion breaks an invariant if and only if only the first ran and the row is newer than its chat |
| Tables.CutAttachmentIsValidExactly | rust/src/storage.rs:476-495 | an attachment row without the second statement is harmless if and only if its message has the flag already |
| Tables.InsertMessageClears | rust/src/storage.rs:126-145 | a replaced message loses exactly the reactions and attachments of the old row |
| Tables.SetParticipantsKeepsValid | rust/src/storage.rs:267-278 | replacing participants, all or nothing, keeps the schema's invariants |
| Tables.MarkReadKeepsValid | rust/src/storage.rs:391-403 | marking read keeps the schema's invariants |
| Tables.MarkReadExactly | rust/src/storage.rs:391-403 | exactly the unread received rows of the chat take the date, and only its count is cleared |
| Tables.TextUpdatesExactly | rust/src/storage.rs:405-420 | an edit sets text and date, an unsend empties and marks the row, and neither touches anything else |
| Tables.AddReactionKeepsValid | rust/src/storage.rs:422-435 | adding a reaction keeps foreign and primary keys |
| Tables.AddReactionExactly | rust/src/storage.rs:422-435 | the new reaction is last; exactly those with its non-NULL key are gone |
| Tables.ReactionIsAloneExactly | rust/src/storage.rs:126-134 | one reaction a key holds after an insert if and only if the handle is not NULL or there was none before |
| Tables.InsertAttachmentKeepsValid | rust/src/storage.rs:476-495 | the attachment hangs on an existing message, which is flagged |
| Tables.InsertAttachmentExactly | rust/src/storage.rs:476-495 | the row is stored under its guid and its message flagged, and nothing else changes |
| StorageObject.Storage.UpsertHandle | rust/src/storage.rs:215-227 | the two statements have the specified effect and id |
| StorageObject.Storage.UpsertChat | rust/src/storage.rs:246-265 | the old boolean follows the service, and no chat loses its count, last date or preview |
| StorageObject.Storage.SetChatParticipants | rust/src/storage.rs:267-278 | the loop in its transaction replaces all rows or, failing, none |
| StorageObject.Storage.DeleteMessage | rust/src/storage.rs:126-145 | the row goes with its reactions and attachments, as the cascades of the schema ask |
| StorageObject.Storage.InsertMessage | rust/src/storage.rs:356-390 | the three statements have the specified effect; fails exactly on a foreign key |
| StorageObject.Storage.MarkChatRead | rust/src/storage.rs:391-403 | the two statements have the specified effect |
| StorageObject.Storage.AddReaction | rust/src/storage.rs:422-435 | replaces rows with the same non-NULL key and appends; fails exactly without its message |
| StorageObject.Storage.InsertAttachment | rust/src/storage.rs:476-495 | the row, then the flag on its message; fails exactly without its message |
| Receive.Store | rust/src/receive.rs:37-102 | store_message on the storage object is the specified function, for every point at which a storage call may fail |
| Receive.StoreConversation | rust/src/receive.rs:52-69 | chat, participant handles and participant rows, call by call |
| Receive.FinishStore | rust/src/receive.rs:71-102 | the sender's handle, the row, then the one event |
| Receive.StoreKeepsValid | rust/src/receive.rs:37-102 | between whichever storage calls it is cut off every schema invariant survives, and no chat but the message's own is opened |
| Receive.StoreCoherence | rust/src/receive.rs:43-75 | between whichever storage calls it is cut off coherent chats stay coherent; on success the message's chat is coherent |
| Receive.StoreDelivers | rust/src/receive.rs:56-94 | success is one more row and one more unread in its chat, failure is neither, and handles without a name keep their rows |
| Receive.StoredExactlyWhenAnnounced | rust/src/receive.rs:94-101 | success means one event and the message's own row, in its chat, under its sender; failure means no event |
| Receive.StoredRowSays | rust/src/receive.rs:78-93 | every column of the stored row: text, date in whole seconds, attachment flag, received, unread, neither edited nor unsent |
| Receive.StoredUnderItsTransport | rust/src/receive.rs:48-75 | the chat carries the name, kind and transport of the message, and its members and sender are handles of that transport |
| Receive.StoredUnderItsNames | rust/src/receive.rs:50-54 | the conversation's name is the title, and the sender's address stands behind the row |
| Receive.ParticipantAddressesExactly | rust/src/storage.rs:332-342 | the stored participants are one address a member, in order |
| Receive.StoreSucceedsExactly | rust/src/receive.rs:43-94 | it succeeds if and only if there is a conversation and no storage call fails: no foreign key ever stands in the way |
| Receive.ReplyBelongsToTheChat | rust/src/storage.rs:332-342 | a message among the stored participants of a coherent chat lands in that chat and opens no other |
| Receive.SetParticipantsFollows | rust/src/storage.rs:267-278 | replacing the participants makes the chat regenerate its guid and leaves other chats as they were |
| Receive.UpsertChatFollows | rust/src/receive.rs:54-61 | upserting a computed guid never moves a coherent chat to the other transport |
| Sends.SendMessageLocal | rust/src/ffi.rs:397-419 | the row of a local send, then its event; fails exactly without the chat |
| Sends.AttachFileLocal | rust/src/ffi.rs:330-356 | the row, its attachment and then its event; fails exactly without the chat |
| Sends.SentExactly | rust/src/ffi.rs:397-419 | the row is ours, in its chat, with its text and time, and announced under its guid; without the chat nothing happens |
| Sends.AttachedExactly | rust/src/ffi.rs:330-356 | the same, flagged, and the file hangs on it as it was given and is the only one that does |
| Runs.ReachableTablesAreValid | rust/src/storage.rs:69-151 | in every run: keys and foreign keys hold, every message with an attachment is flagged, last_message_date bounds every message date of its chat |
| Runs.HandlesAreStable | rust/src/storage.rs:215-227 | in every run a handle id keeps its address and service for good |
| Runs.ChatsStayCoherent | rust/src/receive.rs:43-75 | in every run of the app each chat's participants regenerate its guid, or were never stored |
| Runs.ChatIsCoherentExactly | rust/src/receive.rs:43-75 | a chat regenerates its guid if and only if it has stored participants or is the chat of nobody |
| Runs.CutOffChatIsNotCoherent | rust/src/receive.rs:56-69 | the run that leaves a chat which does not regenerate its guid: cut off after its first storage call |
| Runs.HandlesStayAnonymous | rust/src/receive.rs:65-75 | in every run that gives no names, as only store_message writes handles, no handle has a display name |
| Runs.LaterRunsFollow | rust/src/receive.rs:43-75 | once a chat is coherent no continuation of the run makes it incoherent |
| Runs.EveryChatLeadsBack | rust/src/receive.rs:43-75 | while no storage call fails, chat_guid_for of the stored participants is the chat's guid, for every chat |
| Runs.RepliesStayInTheThread | rust/src/receive.rs:20-23 | in every such run a reply to the stored addresses never opens a second copy of the thread |
| UnreadCounts.ArrivalDrifts | rust/src/storage.rs:356-390 | by how much an arrival moves the count away from the rows |
| UnreadCounts.StepMoves | rust/src/storage.rs:356-403 | every operation but reading the chat moves count and rows as its arrival, if any, says |
| UnreadCounts.UnreadCountExactly | rust/src/storage.rs:356-403 | in every run unread_count is the number of unread rows plus the drift gathered since the last read |
| UnreadCounts.UnreadCountBoundsRows | rust/src/storage.rs:356-403 | while the clock is not zero it is never below the unread rows, and equals them if and only if nothing drifted |
| UnreadCounts.BadgeIsExact | rust/src/storage.rs:383-403 | with new guids, unread arrivals and a running clock it is exactly the unread rows |
| UnreadCounts.CutInsertGap | rust/src/storage.rs:356-390 | stopped before its last statement the insertion of a received row leaves the count exactly one short |
| UnreadCounts.ClockAtZeroHidesARow | rust/src/storage.rs:153-158 | the run that shows the clock condition is needed: a message received, then read at clock zero |
| UnreadCounts.RedeliveryCountsTwice | rust/src/receive.rs:78-94 | the run that shows that new guids are needed: one message received twice |
| Queries.AnswersExactly | rust/src/storage.rs:437-474 | the answers of the double sort are exactly: min(limit, count) messages of the chat, ascending, nothing newer left out |
| Queries.AnswerExists | rust/src/storage.rs:437-474 | every query has an answer |
| Queries.DatesAreDetermined | rust/src/storage.rs:438-453 | whichever way ties fall every answer shows the same dates |
| Queries.NewestIsAlwaysListed | rust/src/ffi.rs:210-212 | with the bridge's clamp the newest message of a chat is always returned |
| Transcript.FetchBubbles | app/message_list_model.cpp:92-124 | the fetch loop gives one specified bubble a message, in order |
| Transcript.BubbleShowsItsText | app/message_list_model.cpp:100-101 | what a bubble renders, read back as HTML, is its message's text |
| Transcript.BubbleSaysExactly | app/message_list_model.cpp:95-122 | sender, text, date, direction, edited and unsent marks, and each file with its image mark, column by column |
| Transcript.FlaggedFetchIsComplete | app/message_list_model.cpp:107-122 | querying attachments only for flagged messages shows the same as querying for all |
| Transcript.Annotate | app/message_list_model.cpp:130-148 | the index loop fills both flags in place, which `RunExactly` and `DaySeparatorExactly` give their meaning |
| Transcript.AnnotatePrefix | app/message_list_model.cpp:130-148 | annotating a longer list agrees with annotating its prefix |
| Transcript.RunExactly | app/message_list_model.cpp:139-146 | no run starts within a stretch of rows if and only if all of it is one sender, one direction and one day |
| Transcript.FirstRowStarts | app/message_list_model.cpp:134-138 | the first row starts a run and a day, and every day starts a run |
| Transcript.DaySeparatorExactly | app/message_list_model.cpp:143-146 | in date order a row shows the separator if and only if it is the first of its day |
| Transcript.ListedDaysAscend | app/message_list_model.cpp:92-126 | what the query lists comes in date order, so each day of a fetched transcript is announced once |
| Transcript.MessageListModel.FetchRows | app/message_list_model.cpp:87-128 | no rows without a chat, otherwise the annotated bubbles |
| Transcript.MessageListModel.Refresh | app/message_list_model.cpp:150-181 | the guid loop takes the append path exactly on a longer list with the same beginning, and resets otherwise |
| Transcript.MessageListModel.SetChatGuid | app/message_list_model.cpp:72-78 | opening another chat refreshes, opening the same one does nothing |
| Transcript.MessageListModel.OnCoreMessagesChanged | app/message_list_model.cpp:80-85 | refreshes on an empty guid or the open chat's, and only then |
| Transcript.ActExactly | app/message_list_model.cpp:72-93 | what the model holds after each input: nothing without a chat, its own fetch after a refresh, and what it held otherwise |
| Transcript.FastPathExactly | app/message_list_model.cpp:157-174 | rows are inserted if and only if a longer list begins, by guid, with a non-empty old one, and then the rest of it |
| Transcript.ViewHoldsTheGuids | app/message_list_model.cpp:150-181 | in every run a view that replays resets and inserts holds the model's guids in order |
| Transcript.RefreshIsExact | app/message_list_model.cpp:154-175 | one refresh keeps an exact view exact if and only if no bubble that stays changed |
| Transcript.ViewRowAsTold | app/message_list_model.cpp:166-180 | in every run each row of the view is the row of the fetch in which it was last told |
| Transcript.ViewIsExactly | app/message_list_model.cpp:150-181 | in every run the view holds the model's rows if and only if every row comes out of the last fetch as it came out of the one in which it was last told |
| Transcript.AppendRefinesReset | app/message_list_model.cpp:150-181 | in every run where no old bubble changed since the last reset the view holds the model's rows, flags included; a reset needs nothing |
| Pipeline.EditSeenWithArrivalGoesStale | app/core_bridge.cpp:165-171 | a run of receiving, sending, editing and receiving in which the view keeps the old text of our own message |
| Transcript.ArrivalTakesTheFastPath | app/message_list_model.cpp:154-165 | a newest message in a chat without date ties and below the limit is one appended row; the old rows are exact if and only if their messages still show the same senders and files |
| Pipeline.ReceivedTakesTheFastPath | rust/src/receive.rs:65-94 | such a message stored by store_message is one inserted row behind unchanged ones, whatever new handles it brings |
| Pipeline.SentTakesTheFastPath | rust/src/ffi.rs:397-415 | and so is a message of ours |
| Pipeline.AttachedFileIsShown | rust/src/ffi.rs:330-351 | after a successful attach the bubble of the new message shows that file and no other, whatever order the query answers in |
| Pipeline.RecentIsListed | rust/src/storage.rs:438-453 | a message with fewer than limit others at least as new is in every answer |
| Pipeline.ArrivalReachesTheScreen | app/core_bridge.cpp:101-114 | after a message is stored into the open chat the poll signals its refresh, and if it is among the newest 500 model and view hold a row whose HTML reads back as its text |
| Transcript.FullHistoryAlwaysResets | app/message_list_model.cpp:12-14 | once the list is as long as the limit every refresh is a reset |
| Events.Mark | app/core_bridge.cpp:71-78 | from the one chat that the marks so far name, or none, to the one that all of them name with one more |
| Events.MarkMessages | app/core_bridge.cpp:71-78 | marking folds to the one chat that all marks name, or to none |
| Events.CoreBridge.PollEvents | app/core_bridge.cpp:60-115 | the loop over the mutable flags presents the burst as `BurstPresents` says, then signals chats and messages at most once each |
| Events.BurstPresents | app/core_bridge.cpp:80-111 | the label is the text of the last sign-in event and the line that of the last sign-in or info event; every error, warning and failure is one toast, in order; label and line are signalled once for each event that changes them, and nothing else is |
| Events.ClosingExactly | app/core_bridge.cpp:113-114 | one signal for the chats if and only if one was touched, and at most one for the messages |
| Events.EventMeans | rust/src/ffi.rs:663-684 | which toast, label, line and chat each of the core's events turns into |
| Events.DtoLosesNothing | rust/src/ffi.rs:663-694 | two events never cross the bridge as the same |
| Events.ChatsTouchedExactly | app/core_bridge.cpp:97-113 | the chat list is signalled if and only if some event of the burst touches it |
| Events.CoalescingIsExact | app/core_bridge.cpp:65-114 | the message signal names a chat if and only if all message events of the burst name it |
| Events.OpenChatIsRefreshed | app/message_list_model.cpp:80-85 | the open chat is refreshed whenever any event of the burst concerns it or is unattributed |
| Events.OpenChatIsSpared | app/message_list_model.cpp:80-85 | it is left alone if and only if no message moved or all of them in one other chat |
| Events.ArrivalRefreshesOpenChat | rust/src/ffi.rs:663-684 | from the core's own events: an arrival in the open chat refreshes it |
| Circle.CircleSessions.HandleCircle | rust/src/api/api.rs:1630-1711 | the critical section on the shared list is the step whose effect `OddMessageExactly` and `ClientFinishesExactly` spell out |
| Circle.OddMessageExactly | rust/src/api/api.rs:1653-1711 | every odd message for a listed session is handed to that session and no other, beside that only discards are logged, and the sign-in is announced exactly for an answer at step 3 |
| Circle.UnlistedMessageIsAdmittedOrIgnored | rust/src/api/api.rs:1654-1693 | otherwise a first message with a signed-in account becomes the last session, with this message and code; anything else changes nothing |
| Circle.ClientFinishesExactly | rust/src/api/api.rs:1631-1651 | even messages end our own session, announced, exactly when it is logged in, and touch nothing else |
| Circle.CircleSessions.ApproveCircle | rust/src/api/api.rs:1713-1738 | the first critical section of an approval is the specified step, with its answer |
| Circle.ApprovalAnswersExactly | rust/src/api/api.rs:1714-1737 | the account's code if no session has the id, an error if its message is gone, else the code that session was made with while its own first message goes out |
| Circle.CircleSessions.RunSpawned | rust/src/api/api.rs:1726-1736 | the message reaches the session it was taken from if and only if that is still listed, and none if and only if no session has its transaction id |
| Circle.ReachableStatesAreValid | rust/src/api/api.rs:1653-1738 | in every run: at most 5 sessions, distinct atxnids, creation order, and every stored message in exactly one place |
| Circle.StoredMessageIsSettledAtMostOnce | rust/src/api/api.rs:1720-1736 | over every interleaving a stored message is delivered, lost or discarded at most once in all |
| Circle.NoStoredMessageIsLost | rust/src/api/api.rs:1681-1690 | it is always held, in flight or settled, and exactly one of these |
| Circle.DeliveredToItsOwnSession | rust/src/api/api.rs:1726-1736 | with distinct transaction ids it reaches only the session it was taken from |
| Circle.DeliveryTarget | rust/src/api/api.rs:1728-1731 | it reaches its own session if and only if that is still listed; to none if and only if none shares its id |
| Circle.SharedTxnMisdelivers | rust/src/api/api.rs:1715-1736 | the run that delivers to the wrong session |
| Circle.EvictedIsOldest | rust/src/api/api.rs:1688-1690 | what admission evicts is older than everything retained, and nothing leaves a short list |
| Circle.UnknownAndFinalMessages | rust/src/api/api.rs:1654-1658 | an unknown atxnid with a step other than 1 changes nothing; step 5 leaves no session with its atxnid and all others |
| Circle.SecondApprovalFails | rust/src/api/api.rs:1720-1722 | a second approval finds the message missing and changes nothing |
| RetryQueue.MessageQueue.Pump | rust/src/native.rs:163-219 | one turn of the receive loop is the specified step |
| RetryQueue.MessageQueue.EmitPending | rust/src/native.rs:198-199 | the message is emitted for the first time, exactly once, under its own key |
| RetryQueue.MessageQueue.Retry | rust/src/native.rs:180-196 | one turn of a retry task is the specified step |
| RetryQueue.MessageQueue.CompleteMsg | rust/src/api/api.rs:1186-1190 | the key is gone, and every other key holds what it held |
| RetryQueue.MessageQueue.PtrToDart | rust/src/api/api.rs:1180-1184 | looking finds exactly what is queued and removes nothing |
| RetryQueue.ReachableStatesAreValid | rust/src/native.rs:173-199 | in every run: keys in order with wrap-around, a live task for every queued message, every message accounted for, emissions in order |
| RetryQueue.RetriesInOrder | rust/src/native.rs:181-195 | re-emissions of a message are 1, 2, ... in order and never beyond 5, beside at most one first emission |
| RetryQueue.EmittedKeyFindsThePayload | rust/src/native.rs:173-199 | in every run each emission carries its message's own key, and while the message is queued a lookup under it finds the payload that was polled for it |
| RetryQueue.TwoFasAreHandedOn | rust/src/native.rs:168-171 | sign-in results reach the handler all, in order, and never through the queue |
| RetryQueue.StoppedExactly | rust/src/native.rs:202 | the poll that says stop, and nothing else, stops the loop |
| RetryQueue.StoppedLoopTakesNothing | rust/src/native.rs:202-219 | a stopped loop takes nothing more |
| RetryQueue.EachMessageLeavesOnce | rust/src/native.rs:184-189 | every message is in the map or has left it exactly once |
| RetryQueue.EndedTaskLeavesNothing | rust/src/native.rs:184-196 | when a task ends its key is gone |
| RetryQueue.WaitingMessageHasATask | rust/src/native.rs:180-196 | nothing waits in the map without a live task for its key |
| RetryQueue.OneTaskPerKeyExactly | rust/src/native.rs:173-180 | a key has at most one task throughout if and only if no key is handed out while a live task holds it |
| RetryQueue.FewMessagesFindKeysFree | rust/src/native.rs:173-176 | that holds for the first 2^64 messages |
| RetryQueue.CheckSeesOwnMessage | rust/src/native.rs:184 | while no key has two live tasks a check goes on if and only if its own message is still queued |
| RetryQueue.SettledMessageStaysSilent | rust/src/native.rs:184-194 | no check made after a message left the map emits it, in any continuation that hands out only free keys |
| RetryQueue.NothingIsOverwritten | rust/src/native.rs:175 | while keys are free when handed out every message leaves completed or dropped |
| RetryQueue.QueueKeepsItsPromise | rust/src/native.rs:173-196 | from the start and up to 2^64 messages, without conditions on keys: one task a key throughout, and every message leaves completed or dropped |
| RetryQueue.EveryCheckSeesItsOwnMessage | rust/src/native.rs:184 | in such a run every check goes on if and only if its own message is still queued |
| RetryQueue.CompletedMessageIsNeverReemitted | rust/src/native.rs:184-194 | in such a run nothing emits a message again once it left the map and its task sleeps |
| RetryQueue.EveryMessageLeavesExactly | rust/src/native.rs:184-196 | in such a run a message leaves if and only if its key is completed, or its own task drops it, after exactly five re-emissions |
| RetryQueue.TaskStepsAreBounded | rust/src/native.rs:181-195 | a measure on 6 - retry bounds the steps of all tasks by the messages queued |
| SharedItems.Scan | rust/src/api/api.rs:816-830 | the nested loops compute what is remembered and what is new |
| SharedItems.ListedExactly | rust/src/api/api.rs:820-826 | a path is listed if and only if a readable entry of a readable folder names it |
| SharedItems.ReportedExactly | rust/src/api/api.rs:816-830 | a path is reported if and only if it is listed now and no earlier scan listed it since which it existed at every scan |
| SharedItems.ReportedAgainOnlyAfterAbsence | rust/src/api/api.rs:819-826 | a file that stays is reported once; one that was gone and is listed again is reported again |
| AuthLabels.RoundTripExactly | rust/src/app.rs:50-67 | restoring a saved label gives the state back if and only if it is not the unpaired one and its payload does not start with its own prefix |
| AuthLabels.RestoreIsIdempotent | rust/src/app.rs:50-67 | whatever is restored survives every further round |
| AuthLabels.UnpairedExactly | rust/src/app.rs:50-67 | the application opens unpaired if and only if no device is paired |
| AuthLabels.AsksForCredentialsExactly | rust/src/app.rs:51-63 | a paired one asks for credentials if and only if nothing is saved or no later state has the saved label |
| AuthLabels.LabelsInFull | rust/src/integration.rs:29-41 | the label of every state, as stored databases hold it |
| AuthLabels.TrimStartExactly | rust/src/app.rs:57-62 | the result is, if and only if, what is left of some number of leading copies of the prefix and does not start with another |
| AuthLabels.AppState.constructor | rust/src/app.rs:50-67 | opening restores from the stored label |
| AuthLabels.AppState.SetAuth | rust/src/app.rs:81-88 | memory always changes, the stored label if the write succeeds, with a warning otherwise and the event in both cases |
| AuthLabels.SetThenReopen | rust/src/integration.rs:28-41 | set, save and reopen on a paired device is the identity exactly under the round-trip condition |

## Left out

- Network and cryptography: push, identity and sign-in services and the library's session objects are not visible; what they answer is a parameter of a step.
- SQLite itself: engine, parsing, disk format. In `store_message` any call may fail, before it changes anything; a failure between the statements of `insert_message` or `insert_attachment` is treated on its own (`CutInsertIsValidExactly`, `CutInsertGap`, `CutAttachmentIsValidExactly`) and not carried through runs.
- The two list queries of one fetch each take the storage lock; `FlaggedFetchIsComplete` speaks of one state for both. The other transcript theorems do not, as the fetched bubbles are arbitrary there.
- Integer widths: 64- and 32-bit columns, times and counts are unbounded integers; the queue's key is a wrapping 64-bit word as in the code.
- AUTOINCREMENT: new handle ids are consecutive here; ids the engine may skip are not modelled, and nothing depends on gaps.
- Regular expression engine: the one URL pattern is a leftmost greedy scan, caseless as the engine folds it. Unpaired surrogates cannot occur in a `char`.
- Lowercasing and calendar days are arbitrary functions; `ListedDaysAscend` asks that later timestamps never fall on earlier days.
- `ptr.parse().unwrap()` on a malformed pointer panics in the code; keys are numbers here.
- Panics of the receive loop's poll are a result of the poll; panics inside a critical section are not modelled.
- Reading an event queue, key-value entries other than the sign-in label, `from_login_state`, and agreement between memory and stored label across threads.
- Uniqueness of reactions without a handle: the primary key does not bind them; `ReactionIsAloneExactly` says when a reaction is alone.
- `last_message_preview` follows insertion order and is not updated by edits and unsends; no freshness is claimed.
- `list_chats`, `list_handles`, `participants_summary` and the schema migration: easy claims, or claims the code does not keep.
- `rust/src/lib.rs` does not list the modules of `api.rs` and `native.rs`; the two protocols are modelled as those files are written.
- The signals `CoreBridge` emits after its own calls (send, edit, unsend, mark read); the transcript takes any signal, so they are covered there.
- QML, clock and size labels, toasts, windows and fonts.
- Protobuf, plist, base64 and JSON codecs, the keystore and the type mirrors.
