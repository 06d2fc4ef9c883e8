# Verified model of the messaging protocol

A Dafny model of a messaging system: a per-conversation sequence allocator, receipts kept as two cursors
per member, and a browser that merges answers, pushes and its own unsent messages. The tables, the service
methods, the client store and the network between them are modelled, and what the system promises is proved
over all inputs, all runs and all interleavings. `dafny verify dfyconfig.toml` checks the whole project.

## How it is built

Server log. `Database` holds the tables as values, `ServerSpec` says what each operation does to them,
`LogInvariant` is what every operation keeps. `SendProtocol` has many sends in flight at once: each checks
committed state, allocates its seq under the single write lock, works on an uncommitted copy and commits or
aborts; `RunRefines` shows every interleaving to be its commits in order, and `SendTheorems` draws the
conclusions. `SendChecks` and `Operations` say what the checks decide and what every operation does, in terms of
characters, rows and fields. `MessageService` is the source's classes with their tables as fields, each method proved
against `ServerSpec`.

Receipts. `Receipts` keeps, beside the cursors, the naive table of one row per message and recipient, and
shows the two to agree. `TickDelivery` adds a network that loses, repeats and reorders receipt events, and
`TickSync` says exactly when a screen that gets them all is right. `Unread` relates the counter to what it
counts, and `ReadRaces` takes mark_read apart into load, flush, count and commit beside other people's sends.

Client. `Thread` and `Merge` are the store's sorted merge; `Paging` the server's pages, backward paging and
gap recovery; `Holes` lets a recovery wait for its page while the conversation grows and messages are pushed;
`Loading` does the same for opening a conversation and loading older messages; `ServerLog` ties the logs those
are about to the server's rows; `Replica` is a peer that follows events; `ClientStore` and `Outbox` are the store
and the queue as classes; `FlushProgress` says which queued messages a flush gets to, and `StuckQueue` what a
message refused for good does to the queue. `Delivery` puts browser, outbox, network and server together for
exactly-once sending, and `Progress` shows that nothing keeps a queued message from getting through.

Rooms. `Groups` is the roster machine of one group; `GroupRaces` lets its operations overlap between check and
write; `RosterEffects` says what each operation does, row by row; `Rooms` adds the refusals and the direct keys;
`ConversationService` is the class proved against them; `DirectThreads` lets create_direct calls race, and
`DirectCalls` says what one call comes to; `Pagination` is the conversation list, `ConversationPages` one page of
it. `Ordering` is string order, `Collections` holds facts about sets.

Smaller machines. `Registry` (sockets), `Announcements` (the order presence is told in), `Sessions`,
`TokenLife`, `SingleFlight` and `BrowserHistory` (refresh tokens, server and browser), `Presence` (typing timers).

## Where the code and its promises part

Some promises fail in states the code can reach. The model follows the code, and the exact condition is
proved.

- `README.md:293-296` has recovery close the gap after a reconnect. A recovery captures every loaded thread
  once and asks after the newest seq each held then. What it leaves missing is exactly what the thread missed
  below that seq and what lies beyond the page of fifty, except what is pushed before the page arrives
  (`Holes.GapClosesExactly`; with nothing arriving, `Paging.RecoveryClosesGapExactly`). A push that skips a
  message leaves a hole (`Holes.PushLeavesHoleExactly`). If it lands after the capture the page closes the hole;
  if it lands before, which the awaited `loadConversations` leaves time for, the recovery does not ask for it
  (`Holes.PushBeforeAskDiffers`), and only a late push of the missing message or a recovery captured earlier
  still closes it (`Holes.HoleLastsExactly`, `Holes.LaterRecoveriesNeverFill`).
- A push to a conversation that is not opened yet creates a thread that counts as opened and as having nothing
  older, so its history is never loaded (`Loading.PushCutsOffExactly`, `Loading.CutOffExactly`,
  `Loading.CutOffForGood`). A request for older messages that fails is never followed by another one: nothing takes
  the loading mark off (`Loading.FailedLoadBlocks`).
- `loadOlder` writes back the thread it captured before its request: messages pushed meanwhile disappear, and
  only those among the next fifty come back with the next recovery (`Loading.WriteBackLosesExactly`,
  `Loading.LostIsRestoredExactly`).
- The handler around the commit in `send` (lines 90-97) looks up the winner of a race, but the unique
  constraint already fails at the flush on line 78, if and only if the key was committed meanwhile
  (`SendTheorems.RaceLoserFailsExactly`, `SendTheorems.RaceHappens`): the loser gets the integrity error and
  the handler never runs (`SendTheorems.CommitNeverConflicts`).
- The store matches an incoming message by client id alone, while the server keeps client ids unique per
  sender only: a second sender's reuse of a client id replaces the first one's message on screen
  (`Replica.CreatedMirrorsExactly`, `ServerLog.ClientIdClashHappens`).
- Receipts agree with the rows they stand for exactly as long as no message is posted while a member other
  than its sender has acknowledged past the log (`Receipts.AgreementIsExact`). The service accepts such
  acknowledgements (`Receipts.OverAckHappens`); the web client sends none.
- Posting moves the poster's own cursors and announces no receipt, so until their next receipt the ticks of earlier
  messages stay behind (`TickSync.InStepExactly`); never ahead (`TickDelivery.TicksNeverOverstate`).
- The unread counter can miss a message or keep one too many when others send while mark_read runs, and a
  slower mark_read can move the cursors back (`ReadRaces.UnlockedReadExactly`, `ReadRaces.LockedReadExactly`,
  `ReadRaces.CursorsMoveBackExactly`, each with a run that does it). The next undisturbed mark_read repairs the
  counter (`Unread.MarkReadRecounts`).
- A group can lose its last admin to operations that overlap, by a write whose check is out of date and by
  nothing else (`GroupRaces.AdminsStayExactly`, `GroupRaces.OnlyStaleChecksStrip`, `GroupRaces.TwoLeavesHappen`).
- A flush of the outbox stops at a message that fails while it is not on screen. The message of a user who has
  left the conversation is refused for good; once it is the oldest in the queue and the page was reloaded, no
  flush ever asks for anything queued after it (`StuckQueue.OnlyTheHeadIsCalled`).
- A refresh token is redeemed twice exactly when two of its refreshes are past their check at once
  (`Sessions.RedeemedTwiceExactly`); the row is read before the transaction that writes it begins. Ending all
  sessions on a replay does not reach a refresh that has passed its check (`Sessions.PunishedUntilReopened`).
- A browser hands a token in twice through a second tab, a request given up on, or a sign-out that crosses a
  refresh (`SingleFlight.PresentsAgainExactly`); with one tab and no request given up on, the last is the only way
  (`SingleFlight.OneTabNeverRepeatsExactly`). The server may then end the user's sessions elsewhere
  (`SingleFlight.SignOutCrossesRefresh`).
- Presence announcements alternate while sends succeed; a dropped socket can have a user announced online or
  offline twice in a row, and `Registry.AlternatesExactly` says exactly when. The last notice issued about a user
  without sockets is always offline (`Registry.LastRemovalIsAnnounced`), but notices are published after awaits:
  peers are left with the wrong word exactly when an odd number of notices about the user were issued after the
  one published last (`Announcements.ToldExactly`, `Announcements.ReconnectShowsOffline`).

## Model

| member | source | states |
|---|---|---|
| `LogInvariant.PostedTables` | `backend/app/services/message_service.py:57-88` | the four tables after a successful send: the allocator one further and pointing at the new row, the row itself, every active peer bumped, the sender caught up, the attachments claimed |
| `LogInvariant.PostKeepsLog` | `backend/app/services/message_service.py:41-97` | a send keeps the log: seqs exactly 1..last_seq, one row per (sender, client id), last_message_id at last_seq, owners and kinds of attachments right |
| `LogInvariant.ExecKeepsLog` | `backend/app/models/message.py:22-31` | every operation of the service keeps that log |
| `LogInvariant.RunKeepsLog` | `backend/app/services/message_service.py:215-222` | so does every run of operations |
| `LogInvariant.ClaimedSets` | `backend/app/services/attachment_service.py:106-113` | a claim gives one message exactly the named attachments and takes none from any other |
| `SendProtocol.StepRefines` | `backend/app/services/message_service.py:41-97` | a small step of a send in flight changes the committed tables only by the atomic operation it commits, and keeps the uncommitted copy right |
| `SendProtocol.StepKeepsInvariant` | `backend/app/services/message_service.py:41-97` | any step, of any send in flight, keeps the log, the checks already passed, and every answer already given |
| `SendProtocol.RunRefines` | `backend/app/services/message_service.py:41-97` | every interleaving of sends, retries, aborts and other operations equals its commits performed one after another |
| `SendTheorems.EveryRunIsSafe` | `README.md:404-404` | from an empty database every interleaving keeps the whole invariant, and no request is answered twice |
| `SendTheorems.RowsMatchAllocator` | `backend/app/services/message_service.py:215-222` | in every interleaving a conversation has exactly last_seq rows, however many sends failed: no seq is burnt |
| `SendTheorems.LockHolds` | `backend/app/services/message_service.py:58-88` | while a send holds the write lock no step of anybody else reaches the tables |
| `SendTheorems.AbortedSendLeavesNoTrace` | `backend/app/services/message_service.py:58-97` | a send that aborts after allocating, whatever ran beside it, leaves the tables as it found them and its seq free |
| `SendTheorems.RaceLoserFailsExactly` | `backend/app/services/message_service.py:77-78` | a send past its checks gets the integrity error at the flush if and only if another send with its key was committed since; otherwise it goes on holding the lock |
| `SendTheorems.RaceLoserFails` | `backend/app/services/message_service.py:77-78` | the loser fails outside the handler and leaves the tables and the seq as they were |
| `SendTheorems.RaceHappens` | `backend/app/services/message_service.py:43-78` | a run from the empty database in which two sends of one key both pass their checks: one is saved, one gets the integrity error |
| `SendTheorems.CommitNeverConflicts` | `backend/app/services/message_service.py:90-97` | what reaches the commit satisfies both unique constraints already: the handler around the commit never runs |
| `SendTheorems.RetryReplays` | `backend/app/services/message_service.py:43-45` | a member's retry of a committed send is answered with that very row and changes no table |
| `SendTheorems.UninterruptedSend` | `backend/app/services/message_service.py:41-97` | with nothing beside it, the small steps end exactly as the one-piece send does, for every verdict of the checks and every way to fail |
| `SendTheorems.ClaimsAreFinal` | `backend/app/services/attachment_service.py:106-111` | a committed claim is never changed in any interleaving |
| `SendTheorems.PostClaimsExactly` | `backend/app/services/attachment_service.py:88-113` | a successful send claims exactly the attachments it named |
| `SendChecks.SpaceIsWhite` | `backend/app/services/message_service.py:51-51` | which characters strip takes off, by code point |
| `SendChecks.BlankExactly` | `backend/app/services/message_service.py:51-51` | nothing is left of a body exactly when every character of it is white space |
| `SendChecks.StripLeavesBare` | `backend/app/services/message_service.py:51-51` | a stripped body has no white space at either end |
| `SendChecks.StripTakesWhite` | `backend/app/services/message_service.py:51-51` | stripping takes nothing but white space off the ends |
| `SendChecks.VerdictExactly` | `backend/app/services/message_service.py:41-55` | exactly what the checks decide, for every state and request: not found, replay, invalid or proceed, in terms of rows and characters |
| `Operations.OutsidersChangeNothing` | `backend/app/services/membership.py:8-16` | somebody not, or no longer, in a conversation reads, acknowledges, deletes and reacts to nothing in it |
| `Operations.SavesExactly` | `backend/app/services/message_service.py:41-88` | a message is saved exactly when it has text or attachments, its reply is in the conversation, its key and place are free, and its at most five attachments are its sender's and free |
| `Operations.SavedRows` | `backend/app/services/message_service.py:57-88` | every table after a saved message, field by field |
| `Operations.ReadRow` | `backend/app/services/message_service.py:158-172` | mark_read changes the member's own row only: cursors raised, the counter the live messages of others above the new cursor |
| `Operations.DeliveredRow` | `backend/app/services/message_service.py:174-184` | mark_delivered changes the delivered cursor of the member's own row only |
| `Operations.DeletedRow` | `backend/app/services/message_service.py:138-156` | a delete by the sender leaves a tombstone without body at its place, by anybody else nothing |
| `Operations.ReactedRow` | `backend/app/services/reaction_service.py:17-28` | a reaction is that user's alone on that message alone |
| `Operations.ClearedRow` | `backend/app/services/reaction_service.py:30-38` | clearing takes that user's reaction alone off |
| `Operations.Comings` | `backend/app/services/conversation_service.py:239-250` | who comes back has the cursors and the counter they left with |
| `Operations.Goings` | `backend/app/services/conversation_service.py:263-286` | who leaves keeps the row, marked as left |
| `Operations.OpenedRoom` | `backend/app/services/conversation_service.py:93-123` | a new room has exactly its members, nothing read and nothing posted |
| `Operations.Uploads` | `backend/app/services/attachment_service.py:50-60` | an upload is its owner's and claimed by no message |
| `MessageService.RequireMembership` | `backend/app/services/membership.py:8-16` | an absent or departed member sees a missing conversation |
| `MessageService.ClaimAttachments` | `backend/app/services/attachment_service.py:88-113` | succeeds exactly when at most five attachments are named, all the sender's and free, and then claims them all; each error only for its reason |
| `MessageService.MessageService.NextSeq` | `backend/app/services/message_service.py:215-222` | on a healthy log the seq handed out is the first that no message of the conversation has |
| `MessageService.MessageService.AdvanceSenderCursors` | `backend/app/services/message_service.py:235-243` | overwrites the sender's cursors with the new seq and clears its counter, without a maximum |
| `MessageService.MessageService.ByClientMessageId` | `backend/app/services/message_service.py:258-265` | finds a row exactly when the (sender, client id) pair has one |
| `MessageService.MessageService.FlushRow` | `backend/app/services/message_service.py:77-78` | inserts a row exactly when primary key and both unique constraints allow it, else restores the tables |
| `MessageService.MessageService.Attach` | `backend/app/services/message_service.py:80-84` | all claims and the media kind when the claims may be made; otherwise an error and no message changed, the claims begun being left to the caller's rollback |
| `MessageService.MessageService.Store` | `backend/app/services/message_service.py:57-104` | past the checks: exactly the posted tables and the new row, or the untouched tables; an integrity error exactly when the flush is refused |
| `MessageService.MessageService.Send` | `backend/app/services/message_service.py:41-104` | refusals in the source's order, replay of a committed key, else the atomic post |
| `MessageService.MessageService.CountUnread` | `backend/app/services/message_service.py:245-256` | the number of live messages of others above a cursor, counted row by row |
| `MessageService.MessageService.MarkRead` | `backend/app/services/message_service.py:158-172` | both cursors raised to at least the seq, the counter recounted, nothing else |
| `MessageService.MessageService.MarkDelivered` | `backend/app/services/message_service.py:174-184` | the delivered cursor raised to at least the seq, nothing else |
| `MessageService.MessageService.Delete` | `backend/app/services/message_service.py:138-156` | a tombstone by the sender only; a second delete changes nothing |
| `MessageService.ReactionService.VisibleMessage` | `backend/app/services/reaction_service.py:40-45` | only an active member of the conversation sees the message |
| `MessageService.ReactionService.React` | `backend/app/services/reaction_service.py:17-28` | one reaction per person: the new one replaces the old |
| `MessageService.ReactionService.Clear` | `backend/app/services/reaction_service.py:30-38` | removes that person's reaction only |
| `Receipts.RunRefinesTable` | `backend/app/services/message_service.py:158-184` | with acknowledgements within the log, two integers per member agree with one row per (message, recipient) after every run |
| `Receipts.StatusIsTableStatus` | `frontend/src/lib/conversation.ts:48-63` | the tick computed from cursors equals the one counted from those rows, in every reachable state |
| `Receipts.AgreementIsExact` | `backend/app/services/message_service.py:158-184` | without any assumption on acknowledgements: over every run cursors and rows agree all along if and only if no message is posted while another member's cursor is past the end |
| `Receipts.PostRefinesExactly` | `backend/app/services/message_service.py:235-243` | a new message's ticks are right if and only if nobody but its sender has a cursor past the end of the log |
| `Receipts.AckBoundIsExact` | `backend/app/schemas/message.py:79-80` | one acknowledgement keeps the next message's ticks right if and only if its seq is within the log or its member sends that message; the schema asks for neither |
| `Receipts.OverAckHappens` | `backend/app/schemas/message.py:79-80` | a run whose acknowledgement is accepted too early, after which a message shows as delivered to somebody who has not got it |
| `Receipts.ReadWithinDelivered` | `backend/app/services/message_service.py:161-164` | read never passes delivered, whatever is acknowledged |
| `Receipts.CursorsNeverDecrease` | `backend/app/services/message_service.py:235-243` | with acknowledgements within the log no cursor ever moves back or past last_seq |
| `Receipts.SendDropsCursorExactly` | `backend/app/services/message_service.py:242-242` | a send moves the sender's cursors back exactly when one was past the new seq |
| `TickDelivery.BehindRanksLower` | `frontend/src/lib/conversation.ts:57-62` | a member list whose cursors are no greater than the server's never shows a higher tick |
| `TickDelivery.TicksNeverOverstate` | `frontend/src/lib/store/chat.ts:383-401` | under loss, repetition and reordering of receipt events the tick shown never exceeds the true one |
| `TickSync.InStepExactly` | `backend/app/services/message_service.py:186-196` | over every run in which all receipts are shown at once, the screen has a member's true cursors if and only if the member has not posted since their last receipt: posting moves the poster's cursors and announces none |
| `TickSync.TickIsTrue` | `frontend/src/lib/conversation.ts:48-63` | if no peer has, the tick on screen is the true one |
| `TickSync.NetworkDelivers` | `frontend/src/lib/store/chat.ts:383-401` | such a run is one of the network's: an operation and its receipt, or a listing that arrives, put on screen what the server has |
| `Unread.UnreadIsSandwiched` | `backend/app/services/message_service.py:224-256` | for a founding member who never left, live unread <= unread_count <= unread including deleted, over every run |
| `Unread.UnreadIsExact` | `backend/app/services/message_service.py:166-168` | equality right after mark_read, and whenever nothing above the cursor was deleted |
| `Unread.MarkReadRecounts` | `backend/app/services/message_service.py:166-168` | whatever the counter was, an undisturbed mark_read makes it exact |
| `ReadRaces.UndisturbedIsMarkRead` | `backend/app/services/message_service.py:158-172` | load, flush, count and commit with nobody in between are the one-piece mark_read |
| `ReadRaces.FlushWritesExactly` | `backend/app/services/message_service.py:161-164` | the cursors are written before the count exactly when one of them changes |
| `ReadRaces.LockedReadExactly` | `backend/app/services/message_service.py:161-169` | with messages posted between load and flush, exactly when the counter comes out right |
| `ReadRaces.UnlockedReadExactly` | `backend/app/services/message_service.py:161-169` | when no cursor moves, so that the count is taken outside the lock: right if and only if nothing was posted between count and commit, or the count equalled the loaded counter |
| `ReadRaces.CursorsMoveBackExactly` | `backend/app/services/message_service.py:161-164` | a cursor moves back exactly when a larger one was committed between load and flush |
| `ReadRaces.SlowerReadWins` | `backend/app/services/message_service.py:158-172` | a run of two overlapping calls in which it does |
| `ReadRaces.ReadLosesBump` | `backend/app/services/message_service.py:224-256` | a run in which the counter shows one for two unread messages |
| `ReadRaces.ReadKeepsStaleCount` | `backend/app/services/message_service.py:158-172` | a run in which it shows two for one |
| `Thread.SortIsStable` | `frontend/src/lib/store/chat.ts:304-304` | sorting by seq keeps pending entries in their order |
| `Thread.SortedSplits` | `frontend/src/lib/store/chat.ts:304-304` | a sorted thread is its server entries followed by its pending ones |
| `Thread.RealsAscend` | `frontend/src/lib/store/chat.ts:299-304` | server entries with no two alike are strictly ascending by seq |
| `Thread.AscendingIsUnique` | `frontend/src/lib/store/chat.ts:304-304` | two ascending threads with the same entries are equal |
| `Thread.NewestRealSeq` | `frontend/src/lib/store/chat.ts:78-83` | an upper bound of the server seqs held, and one of them unless none is |
| `Merge.MergedThread` | `frontend/src/lib/store/chat.ts:290-304` | the merge in closed form: newest versions of the server entries ascending, then the still unanswered pending entries in their order; no id or client id twice |
| `Merge.MergeIsConfluent` | `frontend/src/lib/store/chat.ts:290-304` | the same messages in any order and with any repetition give the same thread |
| `Merge.LastSeqIsMaximum` | `frontend/src/lib/store/chat.ts:306-313` | the conversation's last_seq after a merge is the maximum |
| `Paging.PageAfter` | `backend/app/services/message_service.py:123-127` | the page after a seq is the next stretch of the log, with has_more exact |
| `Paging.PageBefore` | `backend/app/services/message_service.py:129-136` | the page before a seq is the stretch that ends there, with has_more exact |
| `Paging.PageNewest` | `backend/app/services/message_service.py:132-136` | without a seq, the end of the log, of a hundred messages at most |
| `Paging.BackwardPagingTiles` | `frontend/src/lib/store/chat.ts:127-146` | from the page an opening shows, pages read backwards hold every message once, ascending, and has_more is false exactly when seq 1 is loaded |
| `Paging.RecoverAdds` | `frontend/src/lib/store/chat.ts:452-460` | one recovery adds exactly the next fifty seqs after the newest one held |
| `Paging.RecoveriesExtend` | `frontend/src/lib/store/chat.ts:445-461` | from lo..k, i recoveries reach exactly lo..min(n, k + 50 i) |
| `Paging.RecoveriesReachEnd` | `frontend/src/lib/store/chat.ts:445-461` | ceil((n - k) / 50) recoveries reach n |
| `Paging.RecoveryClosesGapExactly` | `README.md:293-296` | a recovery with nothing arriving beside it leaves no gap if and only if the thread had no hole and at most fifty messages were missing; also for a thread with only unsent entries |
| `Holes.PushLeavesHoleExactly` | `frontend/src/lib/store/chat.ts:290-322` | a push leaves a hole after what is held if and only if some server message is held and the push skips the next one |
| `Holes.HeldExactly` | `frontend/src/lib/store/chat.ts:445-461` | over every run of recoveries captured, answered late from the log as it was at some moment, or lost, pushes in any version and order, composing and edits, a thread holds exactly what it held and what the pages and pushes brought |
| `Holes.HoleLastsExactly` | `frontend/src/lib/store/chat.ts:445-461` | over every such run a hole between two held messages lasts until a late push of the missing one, or the page of a recovery that asked below it and reaches it, and only until then |
| `Holes.LaterRecoveriesNeverFill` | `frontend/src/lib/store/chat.ts:448-460` | unless a recovery was out that had asked below the hole when it opened, only a late push closes it, however many recoveries follow |
| `Holes.GapClosesExactly` | `README.md:293-296` | of a recovery with anything landing between capture and page: nothing is missing from lo on if and only if whatever was missing below the seq asked after, and whatever lies beyond the page, came meanwhile |
| `Holes.PushBeforeAskDiffers` | `frontend/src/lib/store/chat.ts:446-460` | the same push leaves a hole the recovery closes when it lands after the capture, and one it does not ask for when it lands before |
| `Holes.PushesKeepContiguity` | `frontend/src/lib/store/chat.ts:457-459` | any pushes of messages from the first held on, repeated or new, leave a recovery of at most one page without a gap |
| `Holes.RecoveryHappens` | `frontend/src/lib/store/chat.ts:448-460` | a recovery answered after a push, as a run: it applies the page after the newest seq it captured |
| `Paging.PushesDuringRecovery` | `frontend/src/lib/store/chat.ts:457-459` | pushes of messages on the page that arrive meanwhile do not change the result |
| `Loading.OpeningShows` | `frontend/src/lib/store/chat.ts:106-125` | undisturbed, opening a conversation shows its newest page, ready to load more |
| `Loading.LoadingShows` | `frontend/src/lib/store/chat.ts:127-146` | undisturbed, loading older messages shows the page before the first in front, ready to load more; a thread already shown is not opened again |
| `Loading.PushesAreShown` | `frontend/src/lib/store/chat.ts:290-322` | any posted message can be pushed, and changes nothing but the messages shown |
| `Loading.FailureShows` | `frontend/src/lib/store/chat.ts:127-146` | a failed request takes the call off and leaves what is shown |
| `Loading.PushCutsOffExactly` | `frontend/src/lib/store/chat.ts:291-292` | a push to a conversation not opened yet puts its history out of reach if and only if it is not of the first message |
| `Loading.CutOffExactly` | `frontend/src/lib/store/chat.ts:106-146` | over every run of openings, loads, late pages and pushes: messages are shown, none older can be asked for and seq 1 is missing, if and only if the thread does not go back to a fetched page and seq 1 was not pushed |
| `Loading.HasMoreExactly` | `frontend/src/lib/store/chat.ts:127-146` | of a thread that goes back to a fetched page, has_more tells whether seq 1 is missing, as long as seq 1 is not pushed |
| `Loading.CutOffForGood` | `frontend/src/lib/store/chat.ts:106-129` | once cut off, with no page on its way, a thread stays cut off until seq 1 is pushed and only until then; no page is ever asked for |
| `Loading.FailedLoadBlocks` | `frontend/src/lib/store/chat.ts:127-145` | a failed request for older messages leaves the thread marked as loading, so that none is ever asked for again |
| `Loading.WriteBackLosesExactly` | `frontend/src/lib/store/chat.ts:128-145` | writing back the thread captured before the wait loses exactly the messages pushed meanwhile that it did not hold and that are not on the page |
| `Loading.LostIsRestoredExactly` | `frontend/src/lib/store/chat.ts:448-460` | the next recovery brings a lost message back if and only if it is one of the fifty after the newest one captured |
| `ServerLog.RowsFormALog` | `backend/app/services/message_service.py:117-136` | in every state of the log invariant a conversation's rows, serialised in order, are a log that paging and recovery can rely on |
| `ServerLog.OpenedThreadMirrors` | `frontend/src/lib/store/chat.ts:106-146` | a thread opened and paged back any number of times shows exactly the server's rows from its first seq on |
| `Replica.CreatedMirrorsExactly` | `frontend/src/lib/store/chat.ts:294-302` | a new message is mirrored if and only if no entry of the thread carries its client id, whoever sent that entry |
| `ServerLog.ClientIdClashHappens` | `frontend/src/lib/store/chat.ts:294-302` | a run in which two senders' messages with one client id are both accepted, and a reader loses the first to the second |
| `Replica.EditMirrors` | `frontend/src/lib/store/chat.ts:337-381` | delete and reaction events do to the thread what the operation did to the rows |
| `Replica.EditedReactions` | `frontend/src/lib/store/chat.ts:346-353` | replacing one user's reaction in the list is replacing it in the table: one entry per user |
| `Replica.SilentMirrors` | `backend/app/services/message_service.py:146-156` | operations that announce nothing about a conversation leave what its readers show |
| `Replica.EmitsAbout` | `backend/app/services/message_service.py:146-156` | an event is announced to a conversation exactly if the operation did something there; a repeated delete is not |
| `Replica.PeersHearExactly` | `backend/app/services/message_service.py:198-203` | an event is applied exactly by those in the conversation when it is sent who did not cause it |
| `Replica.ReplicaFollowsServer` | `frontend/src/lib/store/chat.ts:290-381` | a peer that applies every event in order shows exactly the server's rows after every server step |
| `ClientStore.FlushKeepsUnanswered` | `frontend/src/lib/store/chat.ts:416-443` | a queued message without a positive answer is still queued, unchanged, after any flush |
| `ClientStore.FlushEmptiesQueue` | `frontend/src/lib/store/chat.ts:416-443` | if every request is answered exactly the listed messages leave the queue |
| `ClientStore.ChatStore.ApplyIncomingMessage` | `frontend/src/lib/store/chat.ts:290-322` | the message is in its thread, entries it does not match stay, other threads stay |
| `ClientStore.ChatStore.Compose` | `frontend/src/lib/store/chat.ts:148-186` | the draft can be read back both from the outbox and from its entry in the thread, which shows as being sent; earlier entries and other threads stay |
| `ClientStore.ChatStore.RetryMessage` | `frontend/src/lib/store/chat.ts:191-236` | answered, the saved message is shown with a tick for its sender, leaves the outbox, and every other entry stays; failed, that entry alone is marked and shows as failed; off screen, nothing happens; other threads stay |
| `ClientStore.SentShowsTick` | `frontend/src/lib/conversation.ts:53-62` | a message neither pending nor failed shows a tick to its sender and nothing to anybody else |
| `ClientStore.ChatStore.FlushOutbox` | `frontend/src/lib/store/chat.ts:416-443` | one request per queued message in turn, stopping at a failure of one that is not on screen |
| `ClientStore.ChatStore.RecoverMissedMessages` | `frontend/src/lib/store/chat.ts:445-461` | every loaded thread, also one with unsent entries only, gets the fifty after the newest seq it holds; threads that are empty or whose request failed stay |
| `ClientStore.ChatStore.LoadOlderMessages` | `frontend/src/lib/store/chat.ts:127-146` | the page before the first entry is put in front of the thread |
| `Outbox.PutReplaces` | `frontend/src/lib/offline/outbox.ts:47-49` | a put keeps the store ordered by key and replaces exactly the record with that key |
| `Outbox.QueueIsReadInTime` | `frontend/src/lib/offline/outbox.ts:55-58` | the queue is read back whole, oldest first, in one definite order |
| `Outbox.Outbox.Enqueue` | `frontend/src/lib/offline/outbox.ts:47-49` | the new record and every other one with another key |
| `Outbox.Outbox.Dequeue` | `frontend/src/lib/offline/outbox.ts:51-53` | every record but that one |
| `Outbox.Outbox.Queued` | `frontend/src/lib/offline/outbox.ts:55-58` | all records in order of queuing; the store is unchanged |
| `FlushProgress.FlushProgressExactly` | `frontend/src/lib/store/chat.ts:416-443` | a listed message leaves the queue if and only if its request is answered and no message before it fails while off screen |
| `FlushProgress.TurnShows` | `frontend/src/lib/store/chat.ts:419-441` | one turn: an answer is shown in the message's conversation, on screen before or not; a failure marks the message on screen and changes nothing off screen |
| `FlushProgress.FlushLeaves` | `frontend/src/lib/store/chat.ts:416-443` | entries the flush is not about stay as they are |
| `FlushProgress.AnswersAreShown` | `frontend/src/lib/store/chat.ts:416-443` | every answer the flush gets to is shown when it is over |
| `StuckQueue.RefusedForGood` | `backend/app/services/membership.py:8-16` | a user who left a conversation is refused every message to it after any operations of anybody but joining again |
| `StuckQueue.ReloadedIsStuck` | `frontend/src/lib/store/chat.ts:417-423` | a page reload, with such a message the oldest in the queue, starts the state below |
| `StuckQueue.OnlyTheHeadIsCalled` | `frontend/src/lib/store/chat.ts:416-443` | beside composing, pushes, loads, retries, other flushes and the whole server, over every run that leaves that message refused, hidden and oldest, no flush ever asks for any other message, and it stays queued |
| `StuckQueue.FlushTurns` | `frontend/src/lib/store/chat.ts:419-442` | one turn of a flush: answered, the message leaves the queue and the next follows; failed, the next follows if it was on screen, and the flush ends if not |
| `StuckQueue.FlushBegins` | `frontend/src/lib/offline/outbox.ts:55-58` | a flush reads the whole queue, oldest first |
| `StuckQueue.BesidesAre` | `frontend/src/lib/store/chat.ts:148-189` | what goes on beside a flush leaves it alone, but for a reload |
| `Delivery.StepOk` | `frontend/src/lib/store/chat.ts:148-236` | every step of client, network or server keeps what exactly-once sending rests on |
| `Delivery.SentExactlyOnce` | `frontend/src/lib/store/chat.ts:148-236` | over every run with losses, repeats, failures, reloads, retries and flushes, a message whose enqueue completed is in the outbox as composed or is one row with the composed body, reply and attachments |
| `Delivery.ReplayChangesNothing` | `backend/app/services/message_service.py:43-45` | a replay of a committed send changes nothing on the server |
| `Progress.FlushGetsThrough` | `frontend/src/lib/store/chat.ts:416-443` | from every state a queued message that is off screen can be sent by a flush, saved as composed, shown and taken off the queue |
| `Progress.RetryGetsThrough` | `frontend/src/lib/store/chat.ts:191-219` | so can a message on screen, by a retry |
| `Progress.ComposedIsQueued` | `frontend/src/lib/store/chat.ts:148-186` | a composed message is on screen and then in the queue |
| `Progress.StepFrame` | `frontend/src/lib/store/chat.ts:148-322` | a client step changes its own thread only, and only enqueue and dequeue change the queue |
| `Progress.StepShows` | `frontend/src/lib/store/chat.ts:191-322` | what each step leaves of its thread, entry by entry |
| `Progress.RecordsAre` | `frontend/src/lib/offline/outbox.ts:51-53` | a reload forgets all but the queue and what is out; taking a message off the queue takes that one off |
| `Groups.GroupsKeepAnAdmin` | `backend/app/services/conversation_service.py:227-305` | in every history of a group, whoever is in it, somebody active is an admin |
| `Groups.EmptyGroupsStayEmpty` | `backend/app/services/conversation_service.py:227-305` | an emptied group is never entered again |
| `Groups.RemovingOneselfExactly` | `backend/app/api/v1/conversations.py:124-133` | why the router sends it to leave: an admin removing itself keeps the rule exactly when another admin stays or nobody does |
| `GroupRaces.WriteKeepsExactly` | `backend/app/services/conversation_service.py:227-305` | of an operation checked earlier, exactly which writes leave a group that had an admin without one |
| `GroupRaces.UndisturbedIsStep` | `backend/app/services/conversation_service.py:227-305` | with nobody in between, check and write are the one-piece step |
| `GroupRaces.ChecksNote` | `backend/app/services/conversation_service.py:227-305` | what the reading half of an operation notes down, user by user |
| `GroupRaces.OnlyStaleChecksStrip` | `backend/app/services/conversation_service.py:227-305` | a write whose check still holds never takes the last admin away |
| `GroupRaces.PendingIsWritable` | `backend/app/services/conversation_service.py:227-305` | what was checked can always be written: rows are never deleted |
| `GroupRaces.AdminsStayExactly` | `backend/app/services/conversation_service.py:227-305` | over every interleaving the group has an admin all along if and only if no write strips it |
| `GroupRaces.TwoLeavesExactly` | `backend/app/services/conversation_service.py:263-286` | two admins who check before either writes leave the group an admin if and only if there is a third or nobody else |
| `GroupRaces.TwoLeavesHappen` | `backend/app/services/conversation_service.py:263-286` | a run in which a group of three loses both its admins |
| `RosterEffects.AddingIs` | `backend/app/services/conversation_service.py:227-253` | add_members in terms of rows: who may, who comes in as what, who stays as they were |
| `RosterEffects.RemovingIs` | `backend/app/services/conversation_service.py:255-261` | remove_member in terms of rows |
| `RosterEffects.LeavingIs` | `backend/app/services/conversation_service.py:263-286` | leave in terms of rows: the last admin hands over to one of those who joined first, and nothing else changes |
| `RosterEffects.StrangersDoNotLeave` | `backend/app/services/conversation_service.py:263-265` | who is not in cannot leave |
| `RosterEffects.AssigningIs` | `backend/app/services/conversation_service.py:288-305` | set_role in terms of rows |
| `RosterEffects.RefusalSays` | `backend/app/services/conversation_service.py:315-327` | exactly when an operation is refused as not found, invalid, forbidden or a conflict |
| `RosterEffects.SeeingIs` | `backend/app/services/conversation_service.py:321-327` | a room is shown to its active members only, with exactly them listed |
| `RosterEffects.ChangingIs` | `backend/app/services/conversation_service.py:227-305` | a changed roster leaves the rest of its room and every other room |
| `RosterEffects.FoundingIs` | `backend/app/services/conversation_service.py:93-123` | a new group: the creator as admin, the others as plain members |
| `Rooms.RefusalIsExact` | `backend/app/services/conversation_service.py:315-327` | the service refuses exactly the operations the roster machine does not accept |
| `ConversationService.Dispatched` | `backend/app/api/v1/conversations.py:124-133` | the router never asks for a removal of oneself |
| `ConversationService.LastAdmin` | `backend/app/services/conversation_service.py:267-269` | counting admins tells whether the member is the only one |
| `ConversationService.ConversationService.Distinct` | `backend/app/services/conversation_service.py:233-233` | the ids without repetition |
| `ConversationService.ConversationService.RequireGroupAdmin` | `backend/app/services/conversation_service.py:315-327` | no refusal exactly for an active admin of a group; a direct thread is invalid, a room the caller cannot see is not found |
| `ConversationService.ConversationService.CreateGroup` | `backend/app/services/conversation_service.py:93-123` | a new room with the creator as its one admin, or an unknown user and nothing created |
| `ConversationService.ConversationService.Enrol` | `backend/app/services/conversation_service.py:239-250` | absent users get a row, departed ones come back as plain members, the others stay as they are |
| `ConversationService.ConversationService.AddMembers` | `backend/app/services/conversation_service.py:227-253` | one step of the roster machine, or the refusal and nothing changed |
| `ConversationService.ConversationService.RemoveMember` | `backend/app/services/conversation_service.py:255-261` | likewise |
| `ConversationService.ConversationService.Successor` | `backend/app/services/conversation_service.py:273-282` | an active member nobody active joined before, unless nobody is left |
| `ConversationService.ConversationService.Leave` | `backend/app/services/conversation_service.py:263-286` | one step of the roster machine, with succession when the last admin goes |
| `ConversationService.ConversationService.SetRole` | `backend/app/services/conversation_service.py:288-305` | one step of the roster machine; the last admin cannot be demoted |
| `ConversationService.ConversationService.Delete` | `backend/app/api/v1/conversations.py:124-133` | leaving for oneself, removal for others |
| `ConversationService.ConversationService.ByDirectKey` | `backend/app/services/conversation_service.py:307-313` | finds a room exactly when the key is taken |
| `ConversationService.ConversationService.CreateDirect` | `backend/app/services/conversation_service.py:57-91` | the existing thread or one new thread of exactly the pair |
| `Ordering.SplitAtFirst` | `backend/app/models/conversation.py:24-26` | a join at a character in neither first part can be undone |
| `Rooms.DirectKeySymmetric` | `backend/app/models/conversation.py:24-26` | the key does not depend on who asks |
| `Rooms.DirectKeyInjective` | `backend/app/models/conversation.py:24-26` | for ids without colons, equal keys if and only if equal pairs |
| `DirectThreads.ThreadsAreUnique` | `backend/app/services/conversation_service.py:57-91` | however calls race, all finished calls about a pair gave the same answer; success exactly for two different known users, and the integrity error never gets out |
| `DirectThreads.OneThreadPerPair` | `README.md:192-192` | two direct threads are the same one if and only if they have the same members |
| `DirectThreads.ThreadsAreForever` | `backend/app/services/conversation_service.py:321-327` | no operation ever changes a direct thread: its active members are the pair for good |
| `DirectCalls.RoomIsMade` | `backend/app/services/conversation_service.py:57-84` | a call that finds no room makes the pair's, of two plain members, and answers with it |
| `DirectCalls.RoomIsFound` | `backend/app/services/conversation_service.py:66-69` | a call that finds one answers with it |
| `DirectCalls.RaceIsLost` | `backend/app/services/conversation_service.py:84-91` | a call whose insert meets the key ends with the winner's room |
| `DirectCalls.BadCall` | `backend/app/services/conversation_service.py:57-64` | a call for oneself is invalid, one for an unknown user not found, and no room changes |
| `DirectCalls.GoodCall` | `backend/app/services/conversation_service.py:65-69` | any other call begins by looking for the room |
| `DirectCalls.OthersWait` | `backend/app/services/conversation_service.py:57-91` | a step of one call moves no other |
| `DirectCalls.ChangesGoOn` | `backend/app/services/conversation_service.py:227-305` | group operations happen beside them as the roster machine says |
| `DirectCalls.GroupsGoOn` | `backend/app/services/conversation_service.py:93-123` | and so does the founding of groups |
| `DirectThreads.ColonsCollide` | `backend/app/models/conversation.py:24-26` | with colons in ids two pairs could share a key |
| `Pagination.SplitOnce` | `backend/app/services/conversation_service.py:47-47` | the parts around the first bar, or none |
| `Pagination.CursorRoundTrip` | `backend/app/services/conversation_service.py:40-50` | decode_cursor undoes encode_cursor, also for ids with bars in them |
| `Pagination.ListingIsUnique` | `backend/app/services/conversation_service.py:159-159` | a set of conversations has one descending order |
| `Pagination.FollowGoes` | `backend/app/services/conversation_service.py:163-171` | a cursor the service handed out is never refused and resumes after the entry it carries |
| `Pagination.WalkIsTrail` | `backend/app/services/conversation_service.py:163-187` | a chain of cursors is a chain of bounds |
| `Pagination.WalkIsComplete` | `backend/app/services/conversation_service.py:148-188` | on a fixed table, following the cursors visits exactly the user's active conversations, each once, descending, and ends after the least number of pages |
| `Pagination.StableEntriesVisitedOnce` | `backend/app/services/conversation_service.py:163-187` | on a table that changes between pages, a conversation that stays put is on exactly one page, once |
| `Ordering.PrecedesExactly` | `backend/app/services/conversation_service.py:167-170` | strings are ordered by their first difference, a prefix before what it begins |
| `ConversationPages.RefusedExactly` | `backend/app/services/conversation_service.py:45-50` | a cursor is refused exactly when it spells no time and id |
| `ConversationPages.PageExactly` | `backend/app/services/conversation_service.py:148-188` | every page, for every cursor and limit: the conversations the user is in, after the cursor, newest first, nothing skipped, at most fifty, with a cursor exactly if more are left |
| `Registry.ConnectionRegistry.Add` | `backend/app/realtime/registry.py:13-16` | adds the socket; true exactly for a user with none before |
| `Registry.ConnectionRegistry.Remove` | `backend/app/realtime/registry.py:18-23` | removes the socket; true exactly if the user is unreachable after it, whose entry is then gone |
| `Registry.ConnectionRegistry.Drop` | `backend/app/realtime/registry.py:45-49` | takes the socket from every user and leaves no empty set |
| `Registry.ConnectionRegistry.Deliver` | `backend/app/realtime/registry.py:28-43` | the targets are exactly the recipients' sockets, and exactly the failing ones among them are dropped |
| `Registry.LastRemovalIsAnnounced` | `backend/app/realtime/registry.py:13-23` | with any failed sends: a reachable user has an open socket and the last notice issued about them says online; after the last removal the user is unreachable and the last notice issued says offline |
| `Registry.NoticesAlternate` | `backend/app/realtime/registry.py:13-23` | without failed sends the announcements alternate per user and say what is the case |
| `Registry.AlternatesExactly` | `backend/app/realtime/registry.py:13-49` | with any failed sends the announcements about a user alternate if and only if no add finds the user unreachable but announced online and no remove leaves the user unreachable who was announced offline |
| `Registry.RepeatsComeFromDrops` | `backend/app/realtime/registry.py:45-49` | a repeated announcement is about a user with open sockets all of which were dropped |
| `Registry.DropsRepeatOnline` | `backend/app/realtime/registry.py:13-16` | a run in which online is announced twice |
| `Registry.DropsRepeatOffline` | `backend/app/realtime/registry.py:18-23` | a run in which offline is announced twice |
| `Announcements.Parity` | `backend/app/realtime/handler.py:53-65` | of alternating notices, two prefixes end in the same word about a user exactly when an even number about them lies between |
| `Announcements.LastToldIs` | `backend/app/realtime/handler.py:68-72` | the notice published last about a user, in terms of the order of publication |
| `Announcements.ToldExactly` | `backend/app/realtime/handler.py:53-72` | over every run in which notices are published late and in any order, what peers were told last about a user is right if and only if an even number of notices about the user were issued after the one published last |
| `Announcements.ReconnectShowsOffline` | `backend/app/services/presence_service.py:15-33` | a run in which every notice is published and a user with an open socket was last told to be offline |
| `Sessions.AuthService.StartSession` | `backend/app/services/auth_service.py:112-128` | one more live session of the user |
| `Sessions.AuthService.Refresh` | `backend/app/services/auth_service.py:130-153` | trades the token and keeps the number of live sessions; a replay ends them all; anything else changes nothing |
| `Sessions.AuthService.Logout` | `backend/app/services/auth_service.py:155-164` | revokes that session only |
| `Sessions.AuthService.RevokeAllForUser` | `backend/app/services/auth_service.py:166-172` | the user has no live session left |
| `TokenLife.PresentDecides` | `backend/app/services/auth_service.py:133-150` | a refresh passes its check exactly for a row that is there, not revoked, not expired and of a known user, and is taken for a replay exactly for a revoked row |
| `TokenLife.RefreshPassesExactly` | `backend/app/services/auth_service.py:130-153` | over every run: a refresh passes for a user if and only if a sign-in or refresh gave them that token less than thirty days ago and no refresh, sign-out or punishment has ended it since; it is a replay if and only if one has |
| `Sessions.RotationCounts` | `backend/app/services/auth_service.py:152-153` | a rotation keeps the number of live sessions exactly when the token was unrevoked as it wrote |
| `Sessions.RedeemersMeet` | `backend/app/services/auth_service.py:133-153` | as the first of two redemptions is written, the second one's request is past its check |
| `Sessions.RedeemedTwiceExactly` | `backend/app/services/auth_service.py:133-153` | over every run that leaves no refresh of the token half done, it is redeemed twice if and only if at some moment two of its refreshes were past their check |
| `Sessions.TwoPastCanRedeemTwice` | `backend/app/services/auth_service.py:133-153` | from every run ending with two of them past the check, both writes are open and redeem the token twice |
| `Sessions.OverlapHappens` | `backend/app/services/auth_service.py:133-153` | a run in which it is |
| `Sessions.PunishedUntilReopened` | `backend/app/services/auth_service.py:141-153` | a caught replay ends every session of its user, and they stay ended exactly until a sign-in or the write of a refresh that had passed its check by then |
| `Sessions.PunishmentIsOutrun` | `backend/app/services/auth_service.py:141-153` | a run in which such a write gives the user a session again |
| `Sessions.SignOutLooksLikeReplay` | `backend/app/services/auth_service.py:155-164` | a run in which a sign-out before a refresh of the same token ends the user's other session |
| `Sessions.NoFalseAlarm` | `backend/app/services/auth_service.py:141-143` | if no token is handed in twice nobody is taken for a replayer |
| `SingleFlight.PresentsAgainExactly` | `frontend/src/lib/api/client.ts:80-107` | a refresh or sign-out hands in a token handed in before exactly when a refresh of it or a sign-out with it is in flight, or one was given up on |
| `SingleFlight.NeverTwiceExactly` | `frontend/src/lib/store/session.ts:50-57` | over every run no token is handed in twice if and only if none is handed in while outstanding |
| `SingleFlight.OneTabNeverRepeatsExactly` | `frontend/src/lib/api/client.ts:102-107` | with one tab and nothing given up on: if and only if no sign-out crosses a refresh or another sign-out of the stored token |
| `SingleFlight.CarefulBrowsersRaiseNoAlarm` | `backend/app/services/auth_service.py:141-143` | if every token belongs to such a browser, no order or delay of their requests makes the server take one for a replay |
| `SingleFlight.TwoTabsRepeat` | `frontend/src/lib/api/client.ts:80-107` | two tabs hand one token in twice |
| `SingleFlight.SignOutCrossesRefresh` | `frontend/src/lib/store/session.ts:50-57` | one tab does when a request comes back 401 during a sign-out, and the server ends the user's other session |
| `BrowserHistory.StoredExactly` | `frontend/src/lib/api/client.ts:80-107` | the token stored is the one stored last, unless something cleared it since |
| `BrowserHistory.FlightsExactly` | `frontend/src/lib/api/client.ts:95-107` | a refresh is out with a token exactly if the tab started it with that token and it is not over |
| `BrowserHistory.SignOutsExactly` | `frontend/src/lib/store/session.ts:50-57` | likewise for sign-outs |
| `BrowserHistory.OneRefreshAtATime` | `frontend/src/lib/api/client.ts:102-107` | however many requests of a tab come back 401, one refresh is sent; the first need after a renewal hands in the new token |
| `BrowserHistory.EventsGoOn` | `frontend/src/lib/api/client.ts:80-107` | no state of the browser keeps a refresh, sign-in, sign-out or failure from happening |
| `Presence.PresenceStore.SetTypingOf` | `frontend/src/lib/store/presence.ts:29-47` | clears the pair's timer, sets a new one if typing, and lists the pair accordingly |
| `Presence.PresenceStore.Run` | `frontend/src/lib/store/presence.ts:38-38` | what a timer does when it runs |
| `Presence.KeysApart` | `frontend/src/lib/store/presence.ts:30-30` | conversation ids without colons make the timer keys unambiguous |
| `Presence.ShownMeansOneTimer` | `frontend/src/lib/store/presence.ts:29-47` | in every run, however late timers run, somebody is listed exactly while one timer for them is pending, and never twice |
| `Presence.StepLists` | `frontend/src/lib/store/presence.ts:29-47` | saying so lists, saying not or a timer running unlists, and nobody else's listing changes |
| `Presence.ShownForSixSeconds` | `frontend/src/lib/store/presence.ts:35-40` | with punctual timers somebody is listed for six seconds from when they last said they were typing, and nobody else is |

## Left out

- MessageService.ClaimAttachments: when several attachments fail for different reasons, which of the two errors is raised depends on the order the database returns them in; the contract says which errors are possible.
- MessageService.MessageService.Send: timestamps, message expiry and the publishing of the event are not modelled, and the checks read one committed state; SendProtocol lets anything happen between the checks and the allocation.
- ConversationService.ConversationService.CreateDirect: the integrity-error branch needs a concurrent commit, which DirectThreads models; the method is the run without one.
- ConversationService.ConversationService.AddMembers: one clock reading serves all rows of a call, and the rows' other columns are those of Database.
- ClientStore.ChatStore.LoadOlderMessages: assumes nothing else changes the thread while the page is fetched, and has no loading flag; Loading has both.
- ClientStore.ChatStore.FlushOutbox: the network's answers are parameters, and nothing else touches the store between two of them; Delivery interleaves.
- Outbox.Outbox.Queued: localeCompare is taken as code point order, which it is for ISO timestamps of one form.
- Delivery.SentExactlyOnce: one browser profile and one signed-in user, so not a second user who signs in on the same profile and inherits the outbox; crypto.randomUUID is taken never to repeat an id that anybody has used.
- Replica.ReplicaFollowsServer: for a peer that stays a member and does not act itself, over a connection that delivers in order; gaps are the subject of Paging and Holes.
- Merge.MergeIsConfluent: for messages whose id and client id determine each other, as the server's do when client ids are not shared between senders.
- TickDelivery.TicksNeverOverstate: with fixed membership and acknowledgements within the log.
- Pagination.WalkIsComplete: isoformat and base64 are abstract functions whose decoders undo them.
- Holes.HoleLastsExactly: for runs without opening or loading older messages, which replace the thread as a whole; Loading has those.
- Loading.CutOffForGood: until the page is reloaded or the user leaves the conversation, either of which drops the thread.
- Loading.FailedLoadBlocks: likewise.
- StuckQueue.OnlyTheHeadIsCalled: the clock that stamps queued messages does not go back, and nobody else's message carries the client id; other messages are still sent as they are composed, which is a retry and not a flush.
- Announcements.ToldExactly: without failed sends, as the notices alternate then; a peer is taken to see everything published.
- Presence.ShownForSixSeconds: for timers that run when due; browsers may delay timers of background tabs.
- mark_delivered, delete and reactions are atomic steps everywhere. mark_read and group operations are atomic except in ReadRaces and GroupRaces; those take a group on its own, and a mark_read beside sends or one other mark_read, not beside every operation.
- GroupRaces.AdminsStayExactly: the rows of add_members are taken to be read together, and a request that fails its check is over at once.
- ClientStore.ChatStore.RecoverMissedMessages: nothing else touches the store while it runs, so the captured and the current thread are the same; Holes takes capture and page apart.
- SingleFlight.CarefulBrowsersRaiseNoAlarm: a request reaches the server at most once, as sent.
- Last activity and the preview in the client's conversation list: any applied message, however old, overwrites them.
- Token and code digests, JWT, Argon2, ULIDs and UUIDs: abstracted as equality on ids that do not repeat.
- One-time codes, registration, contacts, search, profile and conversation updates, seed data: query-only or single-row members.
- HTTP routing, schemas, rate limiting, migrations, storage backends, Redis and replication: plumbing and external services.
- WebSocket reconnection and React components: browser callbacks and user interface.
