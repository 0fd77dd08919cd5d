# Verified models of the Orvilo client caches, connection machines and deploy gateway

This project models the parts of the repository that hold state under interleaving or that
transform data users must not lose, and proves what they promise. Each module stands for one
source file or one component of it. Where the source updates fields or runs a loop, a class or a
method does the same and is proved equal to a function of the state before; the laws are lemmas
about that function, or about all runs of it.

- **Channel message cache** (`ChannelCache`, `ChannelConvergence`, `ChannelVersions`,
  `ChannelRedelivery`, `ChannelPages`, `ChannelRefetch`, `ChannelWrites`, `ChannelReconcile`, `ChannelClocks`):
  HTTP pages, realtime echoes and optimistic placeholders merge into one sorted, duplicate-free transcript, flat
  or in cursor windows. `Clock` carries `Date.parse` and `localeCompare`, of which only the laws of a total order are used.
- **Session exchange** (`SessionExchange`, `SessionOutcomes`, `SessionAdapter`): one epoch per run of the exchange
  effect, one program counter per epoch, one event for every point where an await or a timer hands
  control back. The classes carry the code between two such points.
- **WebSocket client** (`WsMachine`, `WsHandshake`, `WsClient`, `ReconnectBackoff`): every call, every timer and
  every event of every socket ever created. Recovery callbacks run between the two halves of
  `onAuthenticated`, so re-entrant callbacks are part of the machine.
- **Production deploy gateway** (`DeployManifest`, `DeployAcceptance`, `DeployMachine`,
  `DeployReleases`, `DeployGateway`): the files under
  the root, one program counter for the deploy that holds the lock, and a crash between any two steps.
  Git, docker, probes and credentials succeed or fail at will.
- **Timelines of the mobile client** (`ReplyThreads`, `ReplyThreadLaws`, `ReplyTermination`, `ReplyOrder`,
  `TimelineCoalesce`, `ToolLifecycles`, `InboxRows`) and its **mention composer** (`Mentions`, `MentionLaws`,
  with the backend's pattern in `MentionReader`).
- **Smaller machines**: `ExceptionFuse`, `JsonRepair`, `PresenceIndex`, `PluginBridge`.
- `Options`, `StableSort`, `CodeOrder`, `Decimals` and `Reachability` are shared: optional fields and map
  lookup, `Array.sort`, names in code order, printed numbers, and states that a machine reaches.

`dafny verify dfyconfig.toml` checks the whole project.

## What is false, and exactly when

- The message comparator is an order exactly for consistent timestamps
  (`ChannelCache.SortableIffConsistent`); one unparseable timestamp can make it cycle.
- A paged upsert duplicates an id exactly when an earlier window holds a placeholder the row answers
  (`ChannelWrites.UpsertKeepsIdsUnique`), and rolling back an optimistic write loses an older identical
  placeholder (`ChannelWrites.RollbackRestores`).
- Refetching cursor windows promises to preserve the placeholders of every loaded window. A placeholder stays
  exactly when its window is refetched and no window then holds a server row with its id or request, whatever
  the age of that row (`ChannelRefetch.PlaceholderSurvivesIff`, `ChannelRefetch.OldAnswerHidesPlaceholder`).
- The success handler of a send promises a deterministic transcript. An echo after it never shows; an echo
  before it makes no difference exactly under the condition of `ChannelReconcile.SuccessIgnoresEarlierEchoIff`,
  which holds for every send whose request is not pending already (`ChannelReconcile.SendingIsDeterministic`,
  failing transcript in `ChannelReconcile.EchoLeavesTwin`).
- Delivering a batch again is silent exactly when one pass over the placeholders of transcript and batch
  finds none that the batch takes from itself (`ChannelRedelivery.RedeliveryIsSilentIff`); for batches that
  name no placeholder of the transcript, exactly when no new placeholder of the batch is followed by a new
  row of its request (`ChannelRedelivery.NewRowsAreSilentIff`, failing batch in
  `ChannelRedelivery.ContestedPlaceholderReturns`).
- The header of `apps/mobile/lib/timeline-thread.ts` promises equal counts for every input. Bundling returns
  exactly when no id below a top-level comment is below itself (`ReplyTermination.BundlingEndsIff`,
  `ReplyTermination.TwinNeverEnds`), and with unique ids it conserves the timeline exactly when no comment is
  its own ancestor (`ReplyThreadLaws.ConservedIffAcyclic`, `ReplyThreadLaws.TwoCycleIsNotShown`).
- It also promises chronological replies. The replies of a row are in timeline order exactly when the parents
  of the entries below it are (`ReplyOrder.RepliesInOrderIff`, `ReplyOrder.LaterReplyStandsEarlier`).
- Coalescing again changes nothing exactly when no two neighbouring runs merge by their last entries
  (`TimelineCoalesce.CoalescingTwice`, `TimelineCoalesce.OutOfOrderCoalescesAgain`).
- A draft links exactly when no mentioned name contains white space (`MentionLaws.SessionLinks`,
  `MentionLaws.SpacedNameIsNotLinked`).
- History and `current.json` disagree exactly from the history write of a redeployment of the current commit
  to the next install, so a crash in between leaves them apart (`DeployMachine.HistoryAgreesIff`,
  `DeployMachine.CrashLeavesApartIffTorn`; failing deploy in `DeployMachine.TornDeploy`).
- An exchange can overtake a logout begun before it exactly when one other than its barrier is waiting and the
  barrier has not failed (`SessionExchange.OvertakesIffUnguarded`, `SessionExchange.EarlierLogoutIsNotAwaited`).
- An authentication is mistaken for a recovery exactly when callbacks have returned since the last disconnect
  and no connection was made (`WsMachine.RecoversExactlySynchronously`,
  `WsMachine.DisconnectInsideCallbackIsForgotten`).
- The comment of `deduplicateInboxItems` promises the newest comment anchor of a group. The row carries it
  exactly unless the newest item has an empty anchor and another item has not (`InboxRows.AnchorPromiseIff`,
  `InboxRows.EmptyAnchorHidesComment`).

## Model

| member | source | states |
|---|---|---|
| `ChannelConvergence.Convergence` | packages/core/channels/cache.ts:58-106 | for every sorted start list with unique ids: two deliveries that bring the same versions of every server row, each row's own versions in the same order, end in the same list, in whatever order rows arrive, however they are split into batches, and however often a version is repeated before the next one of its row (no row has the id of a placeholder, timestamps can be ordered) |
| `ChannelConvergence.UnchangingRowsConverge` | packages/core/channels/cache.ts:58-106 | for rows that never change it is enough that both deliveries hold the same set of rows: an HTTP page followed by the echo of the same row, in either order, or any row delivered any number of times |
| `ChannelConvergence.VersionOrderMatters` | packages/core/channels/cache.ts:78-87 | two versions of one row delivered in the two orders end in different lists: the last one stays |
| `ChannelVersions.RowsAreLastVersions` | packages/core/channels/cache.ts:45-106 | over any run of deliveries, placeholders and repeats included: every row has the id, request and timestamps of the last version from the server that arrived for its id, or of the last placeholder if none did; it is pending only then, and no server row is lost |
| `ChannelVersions.TranscriptInOrder` | packages/core/channels/cache.ts:58-104 | after any run of deliveries to a transcript in order: a row with the earlier parsed time stands first; where times are equal or do not parse the timestamps collate, and rows with the same timestamp stand in the order of their ids |
| `ChannelConvergence.DeliveriesConsumeOldest` | packages/core/channels/cache.ts:89-99 | over any run of deliveries, repeated rows included, a request loses exactly its oldest placeholders, one for each id that first arrives under that request, until none is left |
| `ChannelConvergence.BatchesRefineReceiveAll` | packages/core/channels/cache.ts:71-106 | the loop of list searches, overwrites and sorts refines a table from id to row on which receiving one row is a single step, for any delivery of server rows |
| `ChannelConvergence.ReceiveCommutes` | packages/core/channels/cache.ts:78-101 | receiving two server rows in either order gives the same table, also when both compete for the same placeholders |
| `ChannelConvergence.AbsorbRefinesReceive` | packages/core/channels/cache.ts:78-101 | one turn of the loop is one table step: merge by id, otherwise replace the first matching placeholder, otherwise append |
| `ChannelConvergence.SameTableSameTranscript` | packages/core/channels/cache.ts:104 | two sorted transcripts that hold the same rows are the same list |
| `ChannelCache.MergeMessageLists` | packages/core/channels/cache.ts:71-106 | the loop with its `changed` flag returns the existing list when no turn changed it and the sorted result of all turns otherwise |
| `ChannelCache.MergeInvariants` | packages/core/channels/cache.ts:45-106 | from a sorted list with unique ids the merge is sorted, has unique ids, its server ids are exactly those of both sides, and no placeholder displaces a server row |
| `ChannelCache.AbsorbInvariants` | packages/core/channels/cache.ts:78-101 | one turn keeps ids unique, adds exactly the server id that arrives, and keeps every other server row as it is |
| `ChannelCache.MergeServerIds` | packages/core/channels/cache.ts:71-106 | for any two lists, repeated ids included, the server ids of the merge are exactly those of both |
| `ChannelRedelivery.RedeliveryIsSilentIff` | packages/core/channels/cache.ts:78-103 | for every transcript and batch with unique ids: a second delivery reports no change if and only if one pass over the placeholders of the two, before anything is merged, finds none that the batch takes from itself |
| `ChannelRedelivery.NewRowsAreSilentIff` | packages/core/channels/cache.ts:78-103 | for a batch that names no placeholder of the transcript: a second delivery reports no change if and only if no placeholder of the batch is followed by a row of the same request, counting only rows whose ids are new |
| `ChannelRedelivery.LineOfAbsorbed` | packages/core/channels/cache.ts:79-99 | the placeholders of the transcript, in order, move by a rule of their own that looks at nothing else |
| `ChannelRedelivery.MergeIdempotent` | packages/core/channels/cache.ts:71-106 | whenever that pass finds nothing, delivering the batch a second time returns the list unchanged |
| `ChannelRedelivery.UncontestedLosesNothing` | packages/core/channels/cache.ts:78-101 | in particular for every batch in which no placeholder shares its request with another row, so for every batch without placeholders |
| `ChannelRedelivery.SilentIffIdsHeld` | packages/core/channels/cache.ts:78-103 | a second delivery reports no change if and only if the first one left every id of the batch in the list |
| `ChannelRedelivery.ContestedPlaceholderReturns` | packages/core/channels/cache.ts:92-100 | a batch that holds a placeholder and its own answer is not idempotent: the first merge consumes the placeholder, the second brings it back |
| `ChannelCache.SortableIffConsistent` | packages/core/channels/cache.ts:58-69 | sorting with the comparator orders the rows, and any ordered arrangement exists at all, if and only if no unparseable timestamp collates between two parsed ones whose times run the other way |
| `ChannelCache.LeIsTotal` | packages/core/channels/cache.ts:58-69 | the comparator decides every pair of rows, both ways only for rows with the same id |
| `ChannelCache.LeIsTransitive` | packages/core/channels/cache.ts:58-69 | the comparator is transitive on three rows whose timestamps are consistent |
| `ChannelCache.IndexOfId` | packages/core/channels/cache.ts:79 | the first row with the id, or the length of the list |
| `ChannelCache.IndexOfPlaceholder` | packages/core/channels/cache.ts:92-94 | the first pending row with the same request, or the length of the list |
| `ChannelClocks.UnparseableTimestampCycles` | packages/core/channels/cache.ts:58-69 | three rows, one with an unparseable timestamp, each strictly before the next in a circle, so that no arrangement of them is in order |
| `ChannelClocks.ByCodeIsLawful` | packages/core/channels/cache.ts:67-68 | a collation by character code meets every law that the model asks of `localeCompare` |
| `ChannelPages.FilterPage` | packages/core/channels/cache.ts:135-154 | the filter callback keeps exactly the unshadowed rows whose id was not seen, updates the seen ids, and leaves an unchanged page alone |
| `ChannelPages.DeduplicateInfiniteMessagePages` | packages/core/channels/cache.ts:125-158 | the page loop computes the page-by-page filter, also where it returns the old pages because nothing changed |
| `ChannelPages.DeduplicateLaws` | packages/core/channels/cache.ts:125-158 | after de-duplication ids are unique across all pages, the server ids are exactly the old ones, and no placeholder shares an id or a request with a server row of any page |
| `ChannelPages.DeduplicateIdempotent` | packages/core/channels/cache.ts:125-158 | a second pass changes nothing |
| `ChannelPages.KeptMeaning` | packages/core/channels/cache.ts:136-153 | the filter keeps no id twice, keeps none that was seen or is shadowed, and loses no id of an unshadowed row |
| `ChannelPages.RefetchLaws` | packages/core/channels/cache.ts:177-198 | refetching any pages: unique ids over all pages, server ids exactly those of the incoming pages and of the same-index old pages, no placeholder beside any server row of its request whatever the age of that row, page count, cursor data and row order kept, and nothing left for another pass |
| `ChannelPages.RefetchedCursor` | packages/core/channels/cache.ts:108-118 | a refetched window takes limit, has_more and next_cursor from the response and keeps what the response does not say |
| `ChannelPages.FirstOfItsIdStays` | packages/core/channels/cache.ts:146-152 | of several server rows with one id the first stays, as it is |
| `ChannelRefetch.PlaceholderSurvivesIff` | packages/core/channels/cache.ts:125-198 | when server responses are merged into windows with unique ids, a placeholder is kept if and only if its window is paired with an incoming one and no window then holds a server row with its id or request: no incoming row, and no old server row whose id its incoming window does not bring |
| `ChannelRefetch.OldAnswerHidesPlaceholder` | packages/core/channels/cache.ts:136-147 | a window with a server row and a placeholder of the same request, refetched with the server row alone: the placeholder is dropped, where the flat cache keeps it |
| `ChannelRefetch.AbsorbAllClaims` | packages/core/channels/cache.ts:78-101 | the ids and requests of the server rows after a merge are those of the response and those of the old rows whose ids it does not bring |
| `ChannelReconcile.SuccessIgnoresEarlierEchoIff` | packages/core/channels/mutations.ts:88-109 | for every cached transcript: a realtime echo before the success handler leads to the same transcript as no echo if and only if the echo does not consume the placeholder of this send, or consumes it on the first window while no other row of any window carries the answer's id or is a placeholder it matches |
| `ChannelReconcile.SuccessIgnoresLaterEcho` | packages/core/channels/mutations.ts:88-109 | for every cached transcript, an echo after the success handler changes nothing |
| `ChannelReconcile.SendingIsDeterministic` | packages/core/channels/mutations.ts:65-109 | sending a message whose request is not pending already, from any cached or missing transcript: the final transcript is the same whether the echo comes before the response, after it or never, also when the server returns another author |
| `ChannelReconcile.EchoLeavesTwin` | packages/core/channels/mutations.ts:88-109 | a transcript with two pending placeholders of one request, on which an early echo leads to another transcript |
| `ChannelWrites.MessageCache.constructor` | packages/core/channels/cache.ts:250-313 | a cache that holds no transcript |
| `ChannelWrites.MessageCache.Upsert` | packages/core/channels/cache.ts:250-313 | writes exactly one transcript, and only for a message of that workspace and channel: seeds a missing one when asked, writes the first page that holds the row or a placeholder it answers, otherwise the first page |
| `ChannelWrites.MessageCache.Remove` | packages/core/channels/cache.ts:315-341 | takes the id out of every page of one transcript and changes nothing else |
| `ChannelWrites.TargetPage` | packages/core/channels/cache.ts:284-292 | the first page that holds the row or a placeholder it answers |
| `ChannelWrites.WriteShape` | packages/core/channels/cache.ts:263-313 | a missing transcript is seeded with one window of fifty and no more behind it, only when asked; any other write merges into one window, the first that holds the row or a pending row of its request, or else the first, and leaves the others alone |
| `ChannelWrites.UpsertKeepsIdsUnique` | packages/core/channels/cache.ts:283-305 | a paged write to pages with unique ids keeps them unique if and only if no page before the one that holds the row has a placeholder the row answers |
| `ChannelWrites.UpsertCanDuplicate` | packages/core/channels/cache.ts:284-304 | two pages, a placeholder on the first and its server row on the second: the echo of the row appears on both |
| `ChannelWrites.RollbackRestores` | packages/core/channels/mutations.ts:65-119 | undoing an optimistic write restores a sorted list exactly if and only if no earlier placeholder of the same request was pending |
| `ChannelWrites.RollbackRestoresCache` | packages/core/channels/mutations.ts:65-134 | writing an optimistic row into the flat, paged or missing transcript and rolling it back restores the cache exactly if and only if no row of any window was a placeholder of the same request and a paged transcript has a window and a page parameter |
| `StableSort.SortOrders` | packages/core/channels/cache.ts:104 | the stable sort orders every list on which the comparison is total and transitive |
| `StableSort.OrderedArrangementIsUnique` | packages/core/channels/cache.ts:104 | two ordered arrangements of the same rows are equal when the comparison separates them |
| `SessionExchange.CancelledExchangeWritesNothing` | apps/web/components/clerk-auth-adapter.tsx:57-115 | in every run, whatever event resumes an exchange after its cancellation moves only its own program counter: store, identity, barrier, logouts and other exchanges stay as they are |
| `SessionExchange.ReadyMeansExchanged` | apps/web/components/clerk-auth-adapter.tsx:126-133 | while mounted, the context value is true if and only if the mounted effect run has completed its exchange for the rendered session and user and the store is authenticated; the user in the store is then the one this exchange wrote |
| `SessionExchange.IdentityIsCurrent` | apps/web/components/clerk-auth-adapter.tsx:38-47 | while mounted, the stored identity is empty or that of the mounted effect run, whose exchange has completed |
| `SessionExchange.BarrierHolds` | apps/web/components/clerk-auth-adapter.tsx:52-108 | whatever resumes an exchange past its barrier (a token, a response, a failure that may log out or arm a retry, the retry) comes only after the logout that its effect run found has resolved |
| `SessionExchange.RejectionIsFinal` | apps/web/components/clerk-auth-adapter.tsx:78-97 | after a permanent rejection the exchange arms no timer and sends no request: all that can resume it is the settling of its logout |
| `SessionExchange.MountedExchangeIsLive` | apps/web/components/clerk-auth-adapter.tsx:98-115 | the mounted exchange never ends as cancelled, only the mounted exchange holds an armed timer, and its delay is the one the table gives for its number of failures |
| `SessionExchange.RunKeepsInv` | apps/web/components/clerk-auth-adapter.tsx:41-124 | the invariant of all epochs, the store, the barrier and the identity holds in every state of every run |
| `SessionExchange.StepFollows` | apps/web/components/clerk-auth-adapter.tsx:52-109 | over every step an epoch keeps its session, user and barrier, stays cancelled once cancelled, and stays rejected once rejected |
| `SessionExchange.OvertakesIffUnguarded` | apps/web/components/clerk-auth-adapter.tsx:46-72 | for every reachable signed-in state: the exchange that the effect starts there can be at the API while a logout begun before it still waits, if and only if some logout other than the barrier is waiting and the barrier has not failed |
| `SessionExchange.EarlierLogoutIsNotAwaited` | apps/web/components/clerk-auth-adapter.tsx:46-52 | signed out, a retry of the authentication, then a sign-in: a reachable state in which the exchange is at the API while the first of the two logouts is still waiting |
| `SessionOutcomes.FailureOutcome` | apps/web/components/clerk-auth-adapter.tsx:76-109 | over every run: a login that fails while its exchange is wanted ends the session, with a new logout as barrier, exactly for a status from 400 to 499 other than 408 and 429; in every other case a retry is armed, after k earlier failures of this exchange in 1000, 2000, 4000, 8000, 16000 and then 30000 ms |
| `SessionOutcomes.RetryIndexCounts` | apps/web/components/clerk-auth-adapter.tsx:98-101 | the retry index is the number of retries the exchange has armed |
| `SessionOutcomes.NoTokenStep` | apps/web/components/clerk-auth-adapter.tsx:68-72 | a missing or empty Clerk token arms a retry; any other starts the login request |
| `SessionOutcomes.LoginOutcome` | packages/core/auth/store.ts:89-106 | a login writes its own user; the bearer token is held and persisted in token mode only |
| `SessionOutcomes.CookieModeKeepsNoToken` | packages/core/auth/store.ts:97-105 | in cookie mode no token is held or persisted in any state of any run |
| `SessionOutcomes.IdentityOutcome` | apps/web/components/clerk-auth-adapter.tsx:73-75 | a completed exchange becomes the identity exactly when it was not cancelled and its session has an id |
| `SessionOutcomes.RejectionLogoutOutcome` | apps/web/components/clerk-auth-adapter.tsx:93-96 | after a permanent rejection Clerk is signed out of once, exactly when the logout resolved and the exchange was not cancelled |
| `SessionOutcomes.AttemptOutcome` | apps/web/components/clerk-auth-adapter.tsx:57-66 | the first attempt shows as authenticating and every later one as recovering; a failed barrier ends the exchange |
| `SessionOutcomes.EffectOutcome` | apps/web/components/clerk-auth-adapter.tsx:41-66 | the effect exchanges a loaded signed-in session with a user, logs out of any other loaded one, and does nothing while Clerk is loading |
| `SessionOutcomes.CleanupOutcome` | apps/web/components/clerk-auth-adapter.tsx:111-115 | a new effect run or an unmount cancels the mounted exchange, aborts its request and clears its timer |
| `SessionOutcomes.StoreOutcomes` | packages/core/auth/store.ts:64-70 | a logout clears user and tokens; a retry of the authentication raises the generation and keeps the user |
| `SessionAdapter.AuthStore.constructor` | packages/core/auth/store.ts:58-62 | the initial store: no user, loading, authenticating |
| `SessionAdapter.AuthStore.SetAttempting` | apps/web/components/clerk-auth-adapter.tsx:62-66 | clears the user and sets loading and the status, and keeps the token and the persisted session |
| `SessionAdapter.AuthStore.FinishLogin` | packages/core/auth/store.ts:89-106 | an aborted signal writes nothing; otherwise user, status, token and persisted token are written as the cookie mode asks |
| `SessionAdapter.AuthStore.ClearSession` | packages/core/auth/store.ts:157-172 | user, token and persisted token are gone and the status is unauthenticated before the logout promise settles |
| `SessionAdapter.AuthStore.Retry` | packages/core/auth/store.ts:64-70 | raises the retry generation, sets loading, and keeps the user |
| `SessionAdapter.ClerkAuthAdapter.constructor` | apps/web/components/clerk-auth-adapter.tsx:31-39 | the initial system, with a resolved barrier and no identity |
| `SessionAdapter.ClerkAuthAdapter.StartLogout` | packages/core/auth/store.ts:157-172 | clears the session at once and leaves a new waiting promise |
| `SessionAdapter.ClerkAuthAdapter.RunCleanup` | apps/web/components/clerk-auth-adapter.tsx:111-115 | cancels and aborts the mounted exchange and clears its timer, and touches no other exchange |
| `SessionAdapter.ClerkAuthAdapter.OnEffect` | apps/web/components/clerk-auth-adapter.tsx:41-57 | cleanup followed by setup: the identity is cleared, and the run either waits, starts a logout as the new barrier, or starts an exchange behind the present barrier |
| `SessionAdapter.ClerkAuthAdapter.OnUnmount` | apps/web/components/clerk-auth-adapter.tsx:111-115 | the cleanup without a new setup |
| `SessionAdapter.ClerkAuthAdapter.OnBarrierSettled` | apps/web/components/clerk-auth-adapter.tsx:58-66 | a cancelled exchange stops, a failed logout ends it, otherwise the store is set to authenticating or recovering and the token is requested |
| `SessionAdapter.ClerkAuthAdapter.Catch` | apps/web/components/clerk-auth-adapter.tsx:76-108 | cancelled or aborted: stops; permanent rejection: logs out and makes that the barrier; anything else: recovering, with the next delay armed |
| `SessionAdapter.ClerkAuthAdapter.OnToken` | apps/web/components/clerk-auth-adapter.tsx:68-72 | a token leads to the login request, a missing or empty one to the catch block |
| `SessionAdapter.ClerkAuthAdapter.OnLoginResponse` | packages/core/auth/store.ts:90-105 | the store is written only if the signal is not aborted; otherwise the catch block runs |
| `SessionAdapter.ClerkAuthAdapter.OnFailure` | apps/web/components/clerk-auth-adapter.tsx:76-108 | a failed request runs the catch block with its status |
| `SessionAdapter.ClerkAuthAdapter.OnLoggedIn` | apps/web/components/clerk-auth-adapter.tsx:70-75 | the identity is stored only by an exchange that is not cancelled and has a session id |
| `SessionAdapter.ClerkAuthAdapter.OnRejectionLogout` | apps/web/components/clerk-auth-adapter.tsx:93-96 | signs out of Clerk only if the logout resolved and the exchange is not cancelled |
| `SessionAdapter.ClerkAuthAdapter.OnTimer` | apps/web/components/clerk-auth-adapter.tsx:107 | the timer sends the exchange back to its barrier |
| `SessionAdapter.ClerkAuthAdapter.IsReady` | apps/web/components/clerk-auth-adapter.tsx:126-133 | the value of the context for the present render |
| `WsMachine.MachineSafety` | packages/core/api/ws-client.ts:78-175 | in every run: the held socket is of the current generation and every other one is closed and older; an armed timer is the held one, of the current generation, and excludes a held socket; events of any other socket change nothing; a timer that fires connects |
| `WsMachine.WantedMeansLive` | packages/core/api/ws-client.ts:164-169 | a client that was told to connect and not since to disconnect holds a socket or an armed timer, never both; any other client holds neither |
| `WsMachine.QuietUntilConnect` | packages/core/api/ws-client.ts:230-250 | from a disconnect to the next connect nothing is held, armed, sent, delivered, logged or recovered, whatever old sockets and timers do |
| `WsMachine.AuthenticatesOnce` | packages/core/api/ws-client.ts:107-112 | two authentications of a run are never of the same connection |
| `WsMachine.AttemptCountsLosses` | packages/core/api/ws-client.ts:192-217 | the attempt counter is the number of connections lost since the last authentication or disconnect |
| `WsMachine.LossArmsBackoff` | packages/core/api/ws-client.ts:164-212 | each lost connection arms exactly one timer, of the new generation, whose delay after k earlier losses is within twenty percent of the k-th base delay and never above the cap |
| `WsMachine.RecoversExactlyWhenRemembered` | packages/core/api/ws-client.ts:214-228 | over every run, re-entrant callbacks included: recovery callbacks run at an event if and only if it authenticates and either a connection was lost since the last authentication or disconnect, or since the last disconnect callbacks have returned or a connection authenticated without them |
| `WsMachine.RecoversExactlySynchronously` | packages/core/api/ws-client.ts:214-228 | with synchronous callbacks that may call the client: recovery callbacks run at an authentication if and only if since the last disconnect the client authenticated, lost a connection or returned from callbacks; so an authentication is mistaken for a recovery if and only if callbacks have returned and no connection was made since the last disconnect |
| `WsMachine.RecoversExactlyAfterConnection` | packages/core/api/ws-client.ts:214-228 | with callbacks that do not call back into the client the mistake never happens |
| `WsMachine.DisconnectInsideCallbackIsForgotten` | packages/core/api/ws-client.ts:216-227 | a reachable run in which a recovery callback disconnects and the next first connection is nevertheless treated as a recovery |
| `WsMachine.RunKeepsInv` | packages/core/api/ws-client.ts:78-250 | the invariant of sockets, timers, generations and recovery rounds holds in every state of every run |
| `WsMachine.LiveStep` | packages/core/api/ws-client.ts:78-250 | only connect ends an idle state and only disconnect starts one |
| `WsHandshake.OpeningOutcome` | packages/core/api/ws-client.ts:102-123 | over every run: when the held socket opens in token mode, and the last setAuth before it was opened gave a token, exactly this token is sent on it and it is not authenticated; in cookie mode or without a token nothing is sent and it is authenticated |
| `WsHandshake.OnlyAckAuthenticates` | packages/core/api/ws-client.ts:107-148 | a socket that was opened with a token in token mode is authenticated by its own acknowledgement while it is held, and by nothing else |
| `WsHandshake.CookieModeSendsNoToken` | packages/core/api/ws-client.ts:116-121 | in cookie mode no auth frame is sent in any run |
| `WsHandshake.SocketHasLastAuth` | packages/core/api/ws-client.ts:73-103 | every socket keeps the token and the workspace of the last setAuth before it was opened |
| `WsHandshake.ListenersAreRegistered` | packages/core/api/ws-client.ts:245-275 | the listeners and recovery callbacks are those added since the last disconnect and not removed |
| `WsHandshake.BadFramesAreReported` | packages/core/api/ws-client.ts:127-143 | every unparseable frame of the held socket is reported, and of its invalid ones the first since the last connect |
| `WsHandshake.DeliveryOutcome` | packages/core/api/ws-client.ts:150-161 | a listener call of the held socket goes through, and one of any other socket does not |
| `ReconnectBackoff.DelayBounds` | packages/core/api/ws-client.ts:192-202 | for every attempt and every draw: at least 0.8 and at most 1.2 times the base, and at most 30 seconds |
| `ReconnectBackoff.DelayGrows` | packages/core/api/ws-client.ts:192-202 | up to the cap a later attempt always waits longer than an earlier one, whatever the draws; from the cap on every wait is 24 to 30 seconds |
| `ReconnectBackoff.BaseDelayStages` | packages/core/api/ws-client.ts:193-196 | the base delays are 1, 2, 4, 8, 16 and from then on 30 seconds |
| `ReconnectBackoff.DelayInNumbers` | packages/core/api/ws-client.ts:192-202 | the delay is the base of its stage times a factor that the draw takes evenly from 0.8 to 1.2, rounded, and thirty seconds at most |
| `WsClient.Connection.constructor` | packages/core/api/ws-client.ts:37-71 | a client without socket, timer or history |
| `WsClient.Connection.SetAuthToken` | packages/core/api/ws-client.ts:73-76 | later connections capture the new token and workspace; sockets that exist keep theirs |
| `WsClient.Connection.AddListener` | packages/core/api/ws-client.ts:252-274 | registers one message listener or recovery callback, once |
| `WsClient.Connection.RemoveListener` | packages/core/api/ws-client.ts:257-274 | removes it, if it is registered, and nothing else |
| `WsClient.Connection.ClearReconnectTimer` | packages/core/api/ws-client.ts:79-80 | no timer is held and the held one is no longer armed |
| `WsClient.Connection.Open` | packages/core/api/ws-client.ts:78-112 | clears the timer, closes the held socket, and holds a new socket of a new generation that captured the present token and workspace |
| `WsClient.Connection.CloseForGood` | packages/core/api/ws-client.ts:230-250 | new generation, no timer, no socket, no memory of an earlier connection, no listener and no recovery callback |
| `WsClient.Connection.Authenticate` | packages/core/api/ws-client.ts:108-112 | only the current socket, and only once, passes on to onAuthenticated |
| `WsClient.Connection.OnCallbacksReturn` | packages/core/api/ws-client.ts:227 | the client has connected before, whatever the callbacks did |
| `WsClient.Connection.OnOpen` | packages/core/api/ws-client.ts:114-124 | the current socket sends the captured token first when there is one outside cookie mode, otherwise authenticates |
| `WsClient.Connection.OnFrame` | packages/core/api/ws-client.ts:126-148 | frames of a stale socket do nothing; an invalid frame is logged once per connection; an acknowledgement authenticates |
| `WsClient.Connection.OnMessage` | packages/core/api/ws-client.ts:149-161 | each listener is called only while the socket is still the current one |
| `WsClient.Connection.ScheduleReconnect` | packages/core/api/ws-client.ts:192-212 | one more attempt, and a new armed timer of the present generation with the delay of the old attempt |
| `WsClient.Connection.OnClose` | packages/core/api/ws-client.ts:164-169 | the current socket is dropped, the generation moves on and a reconnect is scheduled; a stale close does nothing |
| `WsClient.Connection.OnTimer` | packages/core/api/ws-client.ts:208-211 | connects if and only if the generation is still the one that armed the timer |
| `ReplyThreadLaws.ConservedIffAcyclic` | apps/mobile/lib/timeline-thread.ts:37-87 | with unique comment ids the rows show every entry exactly as often as the input holds it if and only if no comment is its own ancestor |
| `ReplyThreadLaws.RepliesAreDescendants` | apps/mobile/lib/timeline-thread.ts:63-80 | the replies of a row are exactly the proper descendants of its entry, each once, breadth first, the kids of one parent in timeline order |
| `ReplyThreadLaws.RowHoldsDescendants` | apps/mobile/lib/timeline-thread.ts:82-86 | the rows are the top-level entries in timeline order, and an entry is among the replies of a row if and only if it descends from the comment of that row |
| `ReplyThreadLaws.HeadsRowIff` | apps/mobile/lib/timeline-thread.ts:40-61 | an entry heads a row if and only if it is no comment whose parent comment is loaded; activities, parentless comments and orphans all do |
| `ReplyThreadLaws.RootIsUnique` | apps/mobile/lib/timeline-thread.ts:48-61 | a reply has at most one root ancestor, so it stands in at most one row |
| `ReplyThreadLaws.CycleIsNotShown` | apps/mobile/lib/timeline-thread.ts:48-61 | a comment on a parent cycle is shown in no row |
| `ReplyThreadLaws.TwoCycleIsNotShown` | apps/mobile/lib/timeline-thread.ts:48-61 | two comments that are each other's reply bundle to an empty timeline |
| `ReplyTermination.BundlingEndsIff` | apps/mobile/lib/timeline-thread.ts:63-86 | for every timeline, repeated ids included: bundling returns if and only if no id below a top-level comment is found below itself |
| `ReplyTermination.EndsIffLoopless` | apps/mobile/lib/timeline-thread.ts:69-78 | the queue of a comment id empties if and only if there is no loop below it |
| `ReplyTermination.TwinNeverEnds` | apps/mobile/lib/timeline-thread.ts:69-78 | the smallest timeline on which it does not: a top-level comment and a reply to it that has the same id |
| `ReplyOrder.RepliesInOrderIff` | apps/mobile/lib/timeline-thread.ts:63-80 | the replies of a row stand in timeline order if and only if, along the timeline, the parents of the entries below it do, the root counted first |
| `ReplyOrder.LaterReplyStandsEarlier` | apps/mobile/lib/timeline-thread.ts:63-80 | a thread whose replies are not in timeline order: a reply to a reply, and after it a reply to the root |
| `ReplyThreads.BuildTimelineRows` | apps/mobile/lib/timeline-thread.ts:37-87 | for every timeline on which it returns: one row for each top-level entry in order, with what the queue loop collects for it |
| `ReplyThreads.BundlesAreRows` | apps/mobile/lib/timeline-thread.ts:37-87 | with unique comment ids it always returns, and what it collects is the breadth-first walk of each top-level comment |
| `ReplyThreads.CollectDescendants` | apps/mobile/lib/timeline-thread.ts:63-80 | the queue loop returns what its turns push, for every comment, with or without unique ids, whose queue empties |
| `ReplyThreads.Partition` | apps/mobile/lib/timeline-thread.ts:40-61 | the top-level entries in order, and for every parent its replies in timeline order |
| `ReplyThreads.PushAll` | apps/mobile/lib/timeline-thread.ts:74-77 | appends the kids to the output and their ids to the queue, in order |
| `ReplyThreads.WalkBounded` | apps/mobile/lib/timeline-thread.ts:69-78 | a walk holds at most as many comments as the timeline has comment ids |
| `ReplyThreads.KidsAreNew` | apps/mobile/lib/timeline-thread.ts:74-77 | no kid of the next queued comment has been walked before |
| `MentionLaws.SerializeLinksExactlyPairs` | apps/mobile/lib/mention-serialize.ts:122-175 | for every text and marker list: the text is linked if and only if it reads as plain characters, stray separators and runs whose names are the markers in order; then each run is replaced by its link, otherwise the text without separators is returned |
| `MentionReader.BackendReadsMentions` | server/internal/util/mention.go:11-31 | the pattern of the backend, run over the serialized text of a draft that links, finds kind and id of every marker in order; what it captures ends with the marker's label, and is the label where no bracket was typed: the bare name for issues, the name behind an `@` for all others (no link target typed by hand, ids the pattern knows, no empty name) |
| `MentionReader.OutputReads` | apps/mobile/lib/mention-serialize.ts:163-166 | the same for every reading of a text |
| `MentionLaws.SessionLinks` | apps/mobile/lib/mention-serialize.ts:85-175 | after any session of typing and accepting suggestions from left to right, the draft links with every marker used if and only if no accepted name contains white space |
| `MentionLaws.SpacedNameIsNotLinked` | apps/mobile/lib/mention-serialize.ts:85-175 | typing a query and accepting a name with a space: the draft is not linked |
| `MentionLaws.RoundTrip` | apps/mobile/lib/mention-serialize.ts:85-175 | composed text serializes to the same text with one link in place of each run when no name contains white space, and to the text without separators otherwise |
| `MentionLaws.ComposedTextLinks` | apps/mobile/lib/mention-serialize.ts:134-168 | the walk over composed text gives that result, with every marker consumed |
| `MentionLaws.NothingVisibleIsLost` | apps/mobile/lib/mention-serialize.ts:170-174 | the fallback returns everything the writer could see, in order |
| `MentionLaws.SerializedTextIsClean` | apps/mobile/lib/mention-serialize.ts:122-175 | the result never contains the separator when names and ids do not |
| `MentionLaws.TokenIsAfterLastMention` | apps/mobile/lib/mention-serialize.ts:47-106 | a token found behind the last mention starts behind it, so accepting a suggestion there extends the draft to the right |
| `MentionLaws.LinkedTextReads` | apps/mobile/lib/mention-serialize.ts:134-168 | a text that links has a reading whose runs are exactly the markers |
| `Mentions.TokenAtCursor` | apps/mobile/lib/mention-serialize.ts:47-78 | returns the only `@` run that ends at the cursor and starts the text or follows white space, and nothing if and only if there is none |
| `Mentions.SerializeMentions` | apps/mobile/lib/mention-serialize.ts:122-175 | the index loop computes the pairing of runs and markers, with the fallback when they do not pair up |
| `Mentions.Turn` | apps/mobile/lib/mention-serialize.ts:134-168 | one turn of the loop moves the cursor forward and keeps what is still to be produced |
| `Mentions.SentinelTurn` | apps/mobile/lib/mention-serialize.ts:142-167 | a stray separator is dropped, a run whose name is the next marker becomes its link, any other run aborts |
| `Mentions.IndexOfSentinel` | apps/mobile/lib/mention-serialize.ts:135 | the first separator from the cursor on |
| `Mentions.WordEnd` | apps/mobile/lib/mention-serialize.ts:150-152 | the word ends at the first white space or at the end of the text |
| `Mentions.InsertShows` | apps/mobile/lib/mention-serialize.ts:85-106 | accepting a suggestion replaces the `@` and the query by U+2063, `@`, the name and a space, with the cursor behind it |
| `Mentions.SpacesAre` | apps/mobile/lib/mention-serialize.ts:151 | white space by code point |
| `DeployMachine.ProductionStaysSound` | deploy/origin/production_deploy.py:777-826 | in every state of every run of locked deploys from a sound disk, with failures and crashes between any two steps: current.json re-validates, its release stands, and a deployment that is no baseline has its history record |
| `DeployMachine.OnlyInstallMoves` | deploy/origin/production_deploy.py:804-806 | current.json changes only where it is installed, and then to the validated request for the commit fetched as main in the same locked run, recorded and checked out |
| `DeployMachine.FailedApplyChangesNothing` | deploy/origin/production_deploy.py:794-802 | from a failed apply until the next accepted request current.json is unchanged |
| `DeployMachine.ReceiptMeansDeployed` | deploy/origin/production_deploy.py:777-815 | a deploy that answers leaves current.json at the fetched main commit, its release standing, and no other release under a commit name |
| `DeployMachine.HistoryAgreesIff` | deploy/origin/production_deploy.py:804-806 | over every run that starts with the two in agreement, whatever fails and dies in between: history and current.json disagree exactly from the history write of a redeployment of the current commit to the next install |
| `DeployMachine.CrashLeavesApartIffTorn` | deploy/origin/production_deploy.py:804-806 | in such a run a kill leaves history and current.json apart if and only if it, or one before it, came between those two writes and nothing was installed since |
| `DeployMachine.TornDeploy` | deploy/origin/production_deploy.py:777-806 | from every sound idle gateway on which a deployment and its history agree, a deploy of the same commit with other images that is killed between its two writes leaves them apart |
| `DeployMachine.TornDeployExists` | deploy/origin/production_deploy.py:153-197 | there are such a gateway and such a deployment: two sets of digests of one commit |
| `DeployMachine.PruneFrame` | deploy/origin/production_deploy.py:376-403 | one turn of pruning leaves both manifests alone, keeps the retained release, and goes on past another commit-named release only once it is gone |
| `DeployMachine.RunKeepsInv` | deploy/origin/production_deploy.py:777-826 | the invariant of disk and program counter holds in every state of every run |
| `DeployReleases.DeployedReleaseIsItsCommit` | deploy/origin/production_deploy.py:355-374 | over every run: what is installed, and what a receipt is given for, is a worktree that stands at its own commit |
| `DeployReleases.ReleaseMoves` | deploy/origin/production_deploy.py:355-403 | a release appears only by adding a worktree for a commit that has none, and disappears only by pruning a worktree that stands at its own commit and is not the retained one |
| `DeployReleases.HistoryMoves` | deploy/origin/production_deploy.py:794-806 | history is written for the deployed commit and, after a failed apply, under the name of its diagnostics |
| `DeployReleases.DeployGoesOnIff` | deploy/origin/production_deploy.py:777-815 | for every step of a deploy, the condition under which it goes on |
| `DeployGateway.EveryStopIsSound` | deploy/origin/production_deploy.py:777-826 | wherever the steps of a deploy are cut off, the disk left behind is sound |
| `DeployGateway.ProductionDeployment.constructor` | deploy/origin/production_deploy.py:283-293 | an installation without manifests or releases |
| `DeployGateway.ProductionDeployment.ReadCurrentManifest` | deploy/origin/production_deploy.py:784-787 | refuses a missing or invalid current.json and otherwise returns its validated content |
| `DeployGateway.ProductionDeployment.CheckoutRelease` | deploy/origin/production_deploy.py:355-374 | an existing release is only checked for its commit; a missing one is added, and on failure what git left behind stays |
| `DeployGateway.ProductionDeployment.ListNames` | deploy/origin/production_deploy.py:382 | the names that stand under releases, each once, in sorted order |
| `DeployGateway.ProductionDeployment.PruneOne` | deploy/origin/production_deploy.py:383-402 | one turn of the pruning loop is one step of the machine, and the retained release survives it |
| `DeployGateway.ProductionDeployment.PruneEach` | deploy/origin/production_deploy.py:382-403 | the loop is a run of the machine; when it succeeds the retained commit is the only release under a commit name |
| `DeployGateway.ProductionDeployment.PruneReleases` | deploy/origin/production_deploy.py:376-403 | reading the current manifest, listing and pruning is a run of the machine; when it succeeds the current commit is the only release under a commit name |
| `DeployGateway.ProductionDeployment.TryApply` | deploy/origin/production_deploy.py:794-802 | the try block is a run of the machine that ends applied, or failed with its diagnostics |
| `DeployGateway.ProductionDeployment.Finish` | deploy/origin/production_deploy.py:804-807 | after a successful apply, the two writes, unless nothing changed, and the pruning are a run of the machine |
| `DeployGateway.ProductionDeployment.Deploy` | deploy/origin/production_deploy.py:777-815 | a deploy of a valid request is a run of the machine that ends idle, with a receipt for its commit or with none |
| `DeployGateway.ProductionDeployment.Handle` | deploy/origin/production_deploy.py:817-826 | refuses every request that is not a valid deployment without touching a file; runs the deploy of any other |
| `DeployGateway.ProductionDeployment.Bootstrap` | deploy/origin/production_deploy.py:430-469 | from any disk whatever, bootstrap leaves current.json alone or leaves a sound disk; on success it names the fetched main as a baseline and only that release stands; history is untouched |
| `DeployManifest.StoredManifestReadsBack` | deploy/origin/production_deploy.py:178-197 | a manifest that is written re-validates as the same deployment if and only if its commit, services and images are allowed |
| `DeployManifest.AcceptedRequestReadsBack` | deploy/origin/production_deploy.py:153-197 | an accepted request pins all four services to digests of the allow-listed repositories, its manifest reads back from disk as the same deployment and is itself an acceptable request |
| `DeployManifest.AcceptedIsWellFormed` | deploy/origin/production_deploy.py:153-175 | an accepted request has a commit, allow-listed images, a positive run id, and is never a baseline |
| `DeployManifest.NumericRunIds` | deploy/origin/production_deploy.py:113-119 | a numeric run id is accepted if and only if it is positive and below ten to the twentieth |
| `DeployAcceptance.AcceptedIff` | deploy/origin/production_deploy.py:105-175 | a request is accepted if and only if it names protocol, action and repository, a commit of forty hex digits, a run number of at most twenty digits, and for exactly the four services an image `ghcr.io/alexj11324/orvilo-<service>@sha256:` with 64 hex digits; these are what is deployed |
| `DeployAcceptance.UnpinnedIsRefused` | deploy/origin/production_deploy.py:122-136 | a request with any image of another form is refused |
| `DeployAcceptance.TagIsNotPinned` | deploy/origin/production_deploy.py:126-129 | no tag is of that form |
| `DeployAcceptance.StoredIff` | deploy/origin/production_deploy.py:137-197 | a stored manifest reads back if and only if it is of this form; only a baseline may name tags or the repositories from before the move |
| `ToolLifecycles.Fold` | apps/mobile/lib/chat-tool-state.ts:16-50 | the loop that finds and overwrites rows in place computes the fold over the rows sorted by seq |
| `ToolLifecycles.FoldingIsGrouping` | apps/mobile/lib/chat-tool-state.ts:16-50 | folding equals sorting by seq and grouping by call id: each call at its earliest row, a use if any row is one, with the last supplied state, tool, input, output and time |
| `ToolLifecycles.FoldLaws` | apps/mobile/lib/chat-tool-state.ts:16-50 | one row per call id, every call still there, seq order kept, and all other rows as they were, in order |
| `ToolLifecycles.FoldIdempotent` | apps/mobile/lib/chat-tool-state.ts:16-50 | folding again changes nothing |
| `ToolLifecycles.FoldIgnoresArrivalOrder` | apps/mobile/lib/chat-tool-state.ts:20 | with distinct seqs the result does not depend on the order of the input |
| `ToolLifecycles.UpdateCombines` | apps/mobile/lib/chat-tool-state.ts:30-43 | overwriting a row with the next one of its call is the same as combining both |
| `ToolLifecycles.OneRowPerCall` | apps/mobile/lib/chat-tool-state.ts:16-50 | every call with a use or a result has exactly one row with either, every other row is still there, and seqs ascend |
| `ToolLifecycles.UseAndResult` | apps/mobile/lib/chat-tool-state.ts:30-46 | a use and its result become one use at the place of the use, with the fields of the result where it has them |
| `ExceptionFuse.SessionFuse.constructor` | packages/core/analytics/exception-dedupe.ts:82-84 | a session without a stored table |
| `ExceptionFuse.SessionFuse.ShouldDropException` | packages/core/analytics/exception-dedupe.ts:40-78 | drops at three counted events of the fingerprint, otherwise keeps and counts; a missing fingerprint, unavailable or unreadable storage, a full table or a failed write keep the event and the table |
| `ExceptionFuse.DropsOnlyRepeats` | packages/core/analytics/exception-dedupe.ts:40-94 | over every session with arbitrary storage failures: an event is dropped only after three events of its fingerprint were kept, and the table never exceeds fifty keys |
| `ExceptionFuse.HealthyFuseIsExact` | packages/core/analytics/exception-dedupe.ts:40-94 | with working storage an event is dropped if and only if its fingerprint is among the first fifty of the session and has occurred three times; below fifty fingerprints the count alone decides |
| `ExceptionFuse.ThreeOfFifty` | packages/core/analytics/exception-dedupe.ts:26-94 | with working storage and at most fifty fingerprints the fourth event of a fingerprint is the first one dropped; whatever the storage does, none is dropped before three were kept and the table never exceeds fifty entries |
| `ExceptionFuse.TroubleKeepsTheEvent` | packages/core/analytics/exception-dedupe.ts:40-94 | no fingerprint, no storage, a failed read, a corrupt table or a count that is no number keep the event; only a write that succeeds changes the table |
| `TimelineCoalesce.CoalesceTimeline` | apps/mobile/lib/timeline-coalesce.ts:29-58 | the loop that pushes or replaces the last row computes the fold over the entries |
| `TimelineCoalesce.CoalescingShowsRuns` | apps/mobile/lib/timeline-coalesce.ts:29-58 | for every partition of a timeline into maximal runs of mergeable neighbours, the output is one row per run: its newest entry with the number of entries it stands for |
| `TimelineCoalesce.RunsExist` | apps/mobile/lib/timeline-coalesce.ts:33-55 | every timeline has such a partition |
| `TimelineCoalesce.CountsAddUp` | apps/mobile/lib/timeline-coalesce.ts:48-51 | on a timeline without earlier counts the counts of the rows add up to its length |
| `TimelineCoalesce.CoalescingTwice` | apps/mobile/lib/timeline-coalesce.ts:29-58 | for every timeline: a second pass changes nothing if and only if no two neighbouring maximal runs merge by their last entries |
| `TimelineCoalesce.InTimeOrderOnceIsEnough` | apps/mobile/lib/timeline-coalesce.ts:29-58 | on a timeline in time order that is always so |
| `TimelineCoalesce.OutOfOrderCoalescesAgain` | apps/mobile/lib/timeline-coalesce.ts:43-46 | three entries out of time order that a second pass merges further |
| `TimelineCoalesce.NeighboursMergeIff` | apps/mobile/lib/timeline-coalesce.ts:24-55 | two neighbours become one row if and only if both are the same action of the same actor, no team leader's evaluation, and a finished or failed task or at most two minutes apart |
| `JsonRepair.EscapeJsonStringControlCharacters` | packages/core/agents/builder-protocol.ts:61-99 | the scanner with its two flags computes the repair, character by character |
| `JsonRepair.RepairKeepsStep` | packages/core/agents/builder-protocol.ts:61-99 | after every prefix the output leaves a scanner in the same string and escape state as the input, and repairing a prefix gives a prefix of the repair |
| `JsonRepair.RepairIdempotent` | packages/core/agents/builder-protocol.ts:61-99 | repairing again changes nothing |
| `JsonRepair.RepairKeepsStructure` | packages/core/agents/builder-protocol.ts:67-71 | the text outside string literals, quotes included, is untouched |
| `JsonRepair.RepairChangesIffRawBreak` | packages/core/agents/builder-protocol.ts:87-93 | the repair changes a text if and only if it holds a raw newline, return or tab inside a string and not directly after a backslash |
| `JsonRepair.DecodeRepaired` | packages/core/agents/builder-protocol.ts:77-95 | a strict reader of literals (section 7 of RFC 8259) decodes a repaired literal to the characters a reader that tolerates raw breaks gives for the original, and both stop at the same quote |
| `JsonRepair.TokensRepaired` | packages/core/agents/builder-protocol.ts:61-99 | for every text the strict tokens of the repair are the lenient tokens of the original, or both are refused |
| `JsonRepair.StrictTextUnchanged` | packages/core/agents/builder-protocol.ts:61-99 | a text whose literals are already valid is not changed |
| `JsonRepair.DraftParsesLeniently` | packages/core/agents/builder-protocol.ts:37-59 | trying the draft as it is and then its repair is the same as one parse that allows raw breaks in strings, for every grammar over the tokens |
| `InboxRows.DeduplicateInboxItems` | apps/mobile/lib/inbox-display.ts:72-108 | the loops over active items and groups compute one row per key, sorted newest first |
| `InboxRows.GroupByKey` | apps/mobile/lib/inbox-display.ts:74-80 | the groups of all keys, each in input order, and the keys in order of first appearance |
| `InboxRows.MergeGroups` | apps/mobile/lib/inbox-display.ts:81-103 | the row of each group in the order of its keys |
| `InboxRows.InboxLaws` | apps/mobile/lib/inbox-display.ts:72-108 | one row per key of the unarchived items, newest first, each the newest item of its key with the newest non-empty comment anchor of the group when it has none |
| `InboxRows.OneRowPerIssue` | apps/mobile/lib/inbox-display.ts:72-108 | one row for each issue with an unarchived item and for each such item without an issue, newest first; it shows the newest of its items, with the newest other anchor exactly where that item has none at all |
| `InboxRows.AnchorPromiseIff` | apps/mobile/lib/inbox-display.ts:68-102 | a row carries the newest non-empty comment anchor of its group if and only if not both: the newest item has an empty anchor, and some item has a non-empty one |
| `InboxRows.EmptyAnchorHidesComment` | apps/mobile/lib/inbox-display.ts:90-92 | a status event with an empty anchor, newer than a comment of the same issue: the row carries no anchor |
| `InboxRows.InboxIdempotent` | apps/mobile/lib/inbox-display.ts:72-108 | grouping the rows again changes nothing |
| `InboxRows.InboxIgnoresArrivalOrder` | apps/mobile/lib/inbox-display.ts:72-108 | with distinct times the result does not depend on the order of the input |
| `PresenceIndex.BuildPresenceMap` | packages/core/agents/derive-presence.ts:126-155 | with distinct agent and runtime ids the map has exactly the agents as keys, each detail equals the one found by searching runtimes and filtering tasks for that agent alone, and its counts add up to the active tasks of unarchived agents |
| `PresenceIndex.IndexRuntimes` | packages/core/agents/derive-presence.ts:137-138 | looking up the index is finding the runtime in the list |
| `PresenceIndex.GroupTasks` | packages/core/agents/derive-presence.ts:142-147 | looking up the groups is filtering the snapshot by agent |
| `PresenceIndex.DeriveAgentPresenceDetail` | packages/core/agents/derive-presence.ts:59-121 | archived wins over every signal; otherwise the loop counts running and queued tasks and classifies them |
| `PresenceIndex.DetailShows` | packages/core/agents/derive-presence.ts:29-121 | an unarchived agent works if a task runs, waits if none runs and one is queued, dispatched or waiting for its directory, and is idle otherwise; it is online, unstable or offline as its runtime is; an archived one is archived and idle |
| `PresenceIndex.CountsAddUp` | packages/core/agents/derive-presence.ts:59-155 | the running and queued counts in the entries of the map add up to the active tasks of the snapshot that belong to an unarchived agent |
| `PluginBridge.Bridge.constructor` | packages/plugin-sdk/index.ts:100-116 | no request is pending; the channel is ready exactly when the guest port was there |
| `PluginBridge.Bridge.StartRequest` | packages/plugin-sdk/index.ts:155-156 | a call waits for the port |
| `PluginBridge.Bridge.IssueRequest` | packages/plugin-sdk/index.ts:157-166 | a new id, an armed timeout, a pending entry and one posted message |
| `PluginBridge.Bridge.OnPortMessage` | packages/plugin-sdk/index.ts:118-131 | a response to a pending id settles it and clears its timer; any other does nothing |
| `PluginBridge.Bridge.OnTimeout` | packages/plugin-sdk/index.ts:160-163 | a request whose timer fires is rejected with 408 and no longer pending |
| `PluginBridge.RequestsSettleOnce` | packages/plugin-sdk/index.ts:118-167 | in every interleaving: ids never repeat, no request settles twice, and the pending table is exactly the posted unsettled requests, each with an armed timer |
| `PluginBridge.LateResponsesAreIgnored` | packages/plugin-sdk/index.ts:125-126 | a response to an id that was never posted or has settled changes nothing |
| `PluginBridge.SettlesWith` | packages/plugin-sdk/index.ts:118-166 | a request settles with the data or the status of its response, or with 408 at its timeout, and by nothing else |
| `PluginBridge.PostedIdsShow` | packages/plugin-sdk/index.ts:157-165 | requests are numbered from one and a call posts exactly one |
| `PluginBridge.RequestIdsDiffer` | packages/plugin-sdk/index.ts:157 | printed request ids are equal only for equal sequence numbers |

## Left out

- ChannelRedelivery.MergeIdempotent: equality of the lists is stated where a second delivery reports no change; when it does report one the lists can still be equal, as when two placeholders of one request in a batch replace each other, and which of these cases are equal also depends on how the placeholders left over are sorted.
- ChannelConvergence.Convergence: versions of one row are taken in the order in which they arrive; the cache compares no times, so two deliveries that swap them differ (`VersionOrderMatters`).
- ChannelRefetch.PlaceholderSurvivesIff: incoming windows are server responses, so they hold server rows only and each row once.
- MentionReader.BackendReadsMentions: names that are empty and an issue named `@` are left out, because the pattern then reads past the link; text in which the writer typed a link target by hand is read with that target. The removal of repeated mentions after the match is not modelled.
- ChannelWrites.RollbackRestoresCache: nothing else is written to the transcript between the optimistic write and the rollback.
- WsMachine.RecoversExactlySynchronously: stated for callbacks that run to completion before a socket or timer reports, as they do in the browser; `RecoversExactlyWhenRemembered` holds for every interleaving.
- SessionExchange.BarrierHolds: speaks of the logout that was the barrier when the effect ran; other logouts are not awaited by the code, and `OvertakesIffUnguarded` says exactly when that shows.
- ReplyThreadLaws.ConservedIffAcyclic: stated with unique comment ids; with repeated ids `ReplyThreads.BuildTimelineRows` says what is returned and `ReplyTermination.BundlingEndsIff` when.
- DeployGateway.ProductionDeployment.Bootstrap: does not model a deploy running at the same time, because bootstrap does not take the lock, nor the choice of a container's image among its digests.
- `localeCompare`, `Date.parse` and the time zone: a total order on strings and a partial function to integers.
- `Array.prototype.sort` where the comparator is inconsistent: an insertion sort stands for it, and no law about the result is claimed there.
- Object identity of returned rows and pages: lists are values, so "returns the same list" means an equal list.
- Channel list entries, the construction of a placeholder's id and timestamp, and query invalidation: one-branch helpers.
- Server-side effects of a logout, analytics, storage keys and the other login actions of the auth store.
- Which listener hears which event type, URL construction, payload schemas and constructor failures of the WebSocket client; frames are classified by kind.
- Rounding of floating point in the jitter: delays are computed over the reals and rounded as `Math.round` does.
- UTF-16 surrogate pairs in mentions and drafts: text is a sequence of characters, and offsets count characters.
- The environment files, compose calls and probes of the gateway, JSON text on disk, and `deploy/origin/staging_deploy.py`, which repeats the machine.
- The fingerprint and its hash, and fractional counts a foreign writer might store: the fuse takes the fingerprint as given and counts in integers.
- Which drafts are accepted after parsing, the pattern that finds the block, and the syntax of JSON outside string literals: any grammar over the tokens.
- Inbox times that do not parse, titles and labels.
- Theme events and notifications of the plugin bridge.
- Runtime health, which depends on the clock, and the loading states of the presence hooks.
- User interface, configuration, locale files and code driven by regular expressions or URLs: outside the state machines modelled here.
