# Realtime adapters and protocols, modelled and proved

A Dafny model of the stateful parts of a horizontally scaled realtime server: the adapters that keep
presence, the offline queue and the pub/sub bus in a shared Redis, the chat admission path, the signed
session tokens with their kill switch, and the replay lab. Most of these are protocols whose claims are about
whole runs, so each is a state machine over its atomic steps, with theorems over every run, next to a
class whose methods follow the adapter's own code and are proved against the same functions.

Verify everything with `dafny verify dfyconfig.toml`.

## How the model is laid out

- `RedisStore`, `PresenceKeys`, `PresenceModel`: Redis entries, the key scheme, and what the entries mean.
  Keys are a datatype; `PresenceKeys` proves that the string-keyed Redis behaves like the typed store and
  exactly when two keys collide.
- `PresenceStorage`: the presence adapter and tracker as classes. Whether a `MULTI` is discarded is left to
  chance, so every contract holds on both paths.
- `PresenceProtocol`, `PresenceRefinement`, `PresenceTransitions`: one program per connection, one step per
  commit, fallback command or read, all interleavings. `PresenceCalls` ties these programs to the calls.
- `PresenceClaims`, `PresenceKeyed`: the instance sets in those runs, and the strings Redis holds after them.
- `PresenceCrashes`: the protocol when processes crash anywhere and boot again, and what a crash leaves behind.
- `PresenceOwnership`: claims of instances under crashes and discarded transactions, and reclaim at boot.
  `PresenceRestarts` shows that every run of the machine with crashes is a run of this one, and takes both to
  the strings in Redis.
- `PubSubSubscriber`, `FanOut`: the shared subscriber's life, and message delivery across instances.
- `EventIds`, `OfflineQueue`, `OfflineRetention`: id order, paging, retention under interleaving.
- `ChatRateLimiter`, `ChatGateway`: the sliding window and the admission chain over runs.
- `Base64Url`, `SessionTokens`, `Revocation`: token codec and the marker that must outlive sessions.
- `Replay`: the buffer window and the recovery tags.

## Where the code and its comments differ

The model follows the code.

- The presence adapter's comments promise an exactly-once transition (lines 28-34, 147-150). That holds when
  the transactions commit (`TransitionsAlternate`). In general it holds for a user exactly when each of their
  counts is taken while others are held if and only if others are counted in (`ExactlyOnceIff`); two discarded
  additions can both count 2 and nobody announces the arrival (`FallbackLosesArrival`).
- The online set is complete only while operations on one user do not overlap. A delayed cleanup keeps it
  complete exactly when the user has no listed connection at that moment (`CompleteKeptIff`), and a run keeps
  it complete throughout exactly when all its cleanups are so (`CompleteThroughoutIff`); `OverlapDropsLiveUser`
  is a run that does not.
- The adapter's comment calls the sets self-healing after a crash (lines 17-25). Three things no reclaim
  heals. In the connection sets, a pair whose discarded addition crashed between its write to the user's set
  and its claim (`RemovableIff`, `CrashStrandsPair`). In the online set, a user whose last removal crashed
  after its count (`CrashLeavesUserOnline`); `LeftBehindIff` says exactly which users some continuation can
  still take out of it without their connecting anew. In a tenant's index, also a user who is not online any
  more, when a discarded cleanup crashed (`CrashLeavesTenantEntry`).
- The owner separator is said not to occur in either id (`redis-presence-storage.ts` lines 43-50). Only the
  user id matters (`OwnerRoundTrip`).
- The offline queue's comment says retention is enforced atomically (`redis-offline-queue.ts` line 81). The
  commands are a pipeline, so the cap can be exceeded by the appends between their add and their trim:
  never by more (`QueueConserves`), an add does it exactly when the queue is full (`AddWithinCapIff`), and
  the bound is reached for every cap and any number of such appends (`BoundReached`).
- The chat limiter's pruning is right only while the clock does not go back (`AgreeIffClockForward`).
- An event id names a millisecond and a counter, not an instance. When two events share one, a page that ends
  between them loses the second (`PageBoundaryKeepsIff`, `DuplicateIdLost`).
- The web client declares an `id` on each emission of the replay timeline, which the server's entries do not
  carry; the model's rows have the number and the tag.

## Model

| member | source | states |
|---|---|---|
| PresenceKeys.RenderCollides | apps/api/src/realtime/redis-presence-storage.ts:92-110 | Two presence keys are the same string exactly when they are the same key, or one is the connection set of a user named like another user followed by ":tenant". |
| PresenceKeys.FlatRun | apps/api/src/realtime/redis-presence-storage.ts:92-110 | Any list of commands takes the string-keyed Redis and the typed store through corresponding states, provided no user id is another's followed by ":tenant". |
| PresenceKeys.ShadowedKeyClashes | apps/api/src/realtime/redis-presence-storage.ts:93-105 | For such a pair of user ids the remembered tenant of one overwrites the connection set of the other. |
| PresenceKeys.OwnerRoundTrip | apps/api/src/realtime/redis-presence-storage.ts:43-50 | Splitting an ownership member at its first newline gives back user and connection exactly when the user id has no newline. |
| PresenceModel.ViewApply | apps/api/src/realtime/redis-presence-storage.ts:158-286 | Each Redis command changes the meaning of the entries (who holds what, who is indexed, who claims) by one pair and nothing else. |
| PresenceModel.RemoveUndoesAdd | apps/api/src/realtime/redis-presence-storage.ts:158-241 | Removing a connection that was just added, from agreeing indexes, restores every set and string. |
| PresenceStorage.RedisPresenceStorage.AddConnection | apps/api/src/realtime/redis-presence-storage.ts:158-199 | Whether or not the transaction commits: the connection, both indexes, the claim and the tenant are recorded, nothing else changes, and the user's live count is returned. |
| PresenceStorage.RedisPresenceStorage.RemoveConnection | apps/api/src/realtime/redis-presence-storage.ts:227-258 | Whether or not the transaction commits: the connection and its claim go, the indexes go with the last connection only, and the remaining count is returned. |
| PresenceStorage.RedisPresenceStorage.ClearUserIndexes | apps/api/src/realtime/redis-presence-storage.ts:273-286 | The user leaves the global set, the remembered tenant's set and loses the tenant string; a discarded transaction is made good. |
| PresenceStorage.RedisPresenceStorage.ReclaimOwnConnections | apps/api/src/realtime/redis-presence-storage.ts:301-312 | Exactly the pairs this instance claims leave the connection sets, its claims are emptied, other instances keep theirs, the result counts the well-formed members only, and the indexes stay in agreement. |
| PresenceStorage.AddKeepsConsistent | apps/api/src/realtime/redis-presence-storage.ts:158-172 | An addition keeps every user's indexes in agreement with their connections, if the user keeps one tenant. |
| PresenceStorage.RemoveKeepsConsistent | apps/api/src/realtime/redis-presence-storage.ts:227-286 | A removal keeps every user's indexes in agreement with their connections. |
| PresenceStorage.RedisPresenceStorage.IsOnline | apps/api/src/realtime/redis-presence-storage.ts:320-322 | True exactly when the user holds some connection. |
| PresenceStorage.RedisPresenceStorage.ListOnlineByTenant | apps/api/src/realtime/redis-presence-storage.ts:330-332 | Lists each user of the tenant's set once and nobody else. |
| PresenceStorage.RedisPresenceStorage.IsConnectionOwnedByUser | apps/api/src/realtime/redis-presence-storage.ts:353-355 | True exactly when the connection is in that user's set. |
| PresenceStorage.PresenceTracker.OnConnect | apps/api/src/presence/presence.tracker.ts:78-83 | An arrival goes to the tenant exactly when the user held no other connection and the connection has a tenant. |
| PresenceStorage.PresenceTracker.OnDisconnect | apps/api/src/presence/presence.tracker.ts:91-103 | A departure goes to the tenant exactly when the user holds no other connection and the connection has a tenant. |
| PresenceCalls.AddAlone | apps/api/src/realtime/redis-presence-storage.ts:158-199 | The step-by-step addition, run without interference under any pattern of discarded transactions, does what the call promises. |
| PresenceCalls.RemoveAlone | apps/api/src/realtime/redis-presence-storage.ts:227-286 | The same for the removal with its second phase. |
| PresenceProtocol.NoGhostEver | apps/api/src/realtime/redis-presence-storage.ts:158-286 | Under every interleaving, committed or not, a user in the online set holds a connection or has a removal in flight that still has to count or clean up. |
| PresenceProtocol.NoGhostAtRest | apps/api/src/realtime/redis-presence-storage.ts:227-286 | Once nothing is in flight, everybody in the online set holds a live connection. |
| PresenceProtocol.ProcFollowsConnect | apps/api/src/realtime/redis-presence-storage.ts:158-162 | In every run a connection's program has the user, tenant and instance of its connect. |
| PresenceProtocol.SilentIff | apps/api/src/realtime/redis-presence-storage.ts:301-312 | A program is silent exactly if a boot reclaim disconnected it. |
| PresenceProtocol.CompleteKeptIff | apps/api/src/realtime/redis-presence-storage.ts:236-240 | Every step keeps live users in the online set except a delayed cleanup, which does so exactly when the user has no listed connection at that moment. |
| PresenceProtocol.CompleteThroughoutIff | apps/api/src/realtime/redis-presence-storage.ts:236-240 | In any run all listed users are in the online set in every state if and only if no cleanup meets a listed connection of its user. |
| PresenceProtocol.OverlapDropsLiveUser | apps/api/src/realtime/redis-presence-storage.ts:236-240 | Some run ends at rest with a live user absent from the online set. |
| PresenceRefinement.IdleUserAgrees | apps/api/src/realtime/redis-presence-storage.ts:158-286 | If operations on one user never overlap, an idle user's connection set, online flag, tenant string and roster entries are those of the abstract map, whatever other users' operations are doing and whichever transactions were discarded. |
| PresenceRefinement.ReturnedCountAgrees | apps/api/src/realtime/redis-presence-storage.ts:124-130 | In such runs every returned count is the size of the abstract connection set. |
| PresenceRefinement.QueriesAgree | apps/api/src/realtime/redis-presence-storage.ts:320-355 | At rest the connection set, online and tenant queries answer from the abstract map. |
| PresenceRefinement.CountAgrees | apps/api/src/realtime/redis-presence-storage.ts:339-341 | At rest the global count is the number of users with a live connection. |
| PresenceClaims.ClaimsExactEver | apps/api/src/realtime/redis-presence-storage.ts:43-50 | Under every interleaving, committed or not, a member is in an instance set exactly while one connection of that instance is between writing and withdrawing its claim, for newline-free user ids. |
| PresenceClaims.ClaimsAtRest | apps/api/src/realtime/redis-presence-storage.ts:17-25 | At rest an instance set is exactly that instance's live connections, and decodes to exactly their pairs in the user sets. |
| PresenceKeyed.StepEffect | apps/api/src/realtime/redis-presence-storage.ts:158-286 | Each step of the protocol does what the commands it sends to Redis do, a transaction at once, a fallback command alone. |
| PresenceKeyed.RedisHoldsTheState | apps/api/src/realtime/redis-presence-storage.ts:92-110 | After every run each string-keyed entry of Redis is what the protocol's state says, if no user id is another's followed by ":tenant". |
| PresenceKeyed.AgreesIffSeparate | apps/api/src/realtime/redis-presence-storage.ts:92-105 | For a set of users Redis agrees with the state in all runs exactly when no two of their ids are so related. |
| PresenceKeyed.NoGhostInRedis | apps/api/src/realtime/redis-presence-storage.ts:158-286 | No ghosts, on the entries of Redis themselves. |
| PresenceKeyed.IdleUserInRedis | apps/api/src/realtime/redis-presence-storage.ts:158-286 | If operations on one user never overlap, every Redis entry of an idle user is that of the abstract map, whatever other users' operations are doing and whichever transactions were discarded. |
| PresenceKeyed.QueriesInRedis | apps/api/src/realtime/redis-presence-storage.ts:320-355 | At rest Redis answers the connection, tenant and count queries from the live connections. |
| PresenceKeyed.InstanceSetsInRedis | apps/api/src/realtime/redis-presence-storage.ts:17-25 | At rest, overlapping operations or not, an instance's set in Redis is its live connections. |
| PresenceTransitions.TransitionsAlternate | apps/api/src/realtime/redis-presence-storage.ts:145-241 | In every committed run a user's arrivals and departures strictly alternate, starting with an arrival, and arrivals minus departures is 1 exactly while a connection is held. |
| PresenceTransitions.HooksAnnounceTransitions | apps/api/src/presence/presence.tracker.ts:63-103 | In every run a hook announces exactly when the log of counts credits its connection with that transition; boot reclaim is silent. |
| PresenceTransitions.CountCreditsIff | apps/api/src/realtime/redis-presence-storage.ts:124-130 | On either path a count credits a transition exactly when no other connection is held as it is taken, and no other step credits one. |
| PresenceTransitions.AlternationKeptIff | apps/api/src/realtime/redis-presence-storage.ts:112-130 | One step keeps a user's transitions alternating exactly when its count sees others held if and only if others are counted in. |
| PresenceTransitions.ExactlyOnceIff | apps/api/src/realtime/redis-presence-storage.ts:28-34 | In any run, committed or not, transitions stay exactly-once for a user throughout if and only if all counts do that. |
| PresenceTransitions.FallbackLosesArrival | apps/api/src/realtime/redis-presence-storage.ts:170-171 | Some run of two discarded additions ends with the user online and no arrival credited to anyone. |
| PresenceOwnership.OwnershipPartition | apps/api/src/realtime/redis-presence-storage.ts:17-25 | In every run with crashes and discarded transactions at any point, the user sets hold exactly what the instance sets decode to, less pairs already withdrawn, plus pairs not claimed yet; claims never overlap. |
| PresenceOwnership.PartitionedIff | apps/api/src/realtime/redis-presence-storage.ts:158-258 | The instance sets decode to exactly the user sets if and only if no addition or removal stands, or crashed, between its two fallback writes. |
| PresenceOwnership.CommittedPartition | apps/api/src/realtime/redis-presence-storage.ts:158-241 | With all transactions committed they do in every state, crashes or not. |
| PresenceOwnership.ReclaimReleasesAll | apps/api/src/realtime/redis-presence-storage.ts:301-312 | When a boot reclaim ends, on either path and after crashed earlier reclaims: all pairs it found are gone, each was counted once, and the final delete drops nothing. |
| PresenceOwnership.OthersKeepTheirPairs | apps/api/src/realtime/redis-presence-storage.ts:19-23 | No step of one instance, reclaim included, changes another instance's claims or whether the claimed pairs are held. |
| PresenceOwnership.RemovableIff | apps/api/src/realtime/redis-presence-storage.ts:17-25 | After any run a held pair can still be removed by some continuation if and only if it is not an unclaimed pair whose addition has died. |
| PresenceOwnership.CrashStrandsPair | apps/api/src/realtime/redis-presence-storage.ts:189-191 | For every instance, user and connection some run leaves that pair stranded. |
| PresenceCrashes.NoGhostWithCrashes | apps/api/src/realtime/redis-presence-storage.ts:158-286 | With crashes and reclaims anywhere, a user in the online set holds a connection, or a removal, alive or dead, still owes its count or cleanup. |
| PresenceCrashes.HooksAnnounceWithCrashes | apps/api/src/presence/presence.tracker.ts:63-103 | With crashes and reclaims anywhere a hook announces exactly what the counts credit its connection with. |
| PresenceCrashes.ReclaimedIsSilent | apps/api/src/realtime/redis-presence-storage.ts:301-312 | What a boot reclaim took up announces nothing, then or later. |
| PresenceCrashes.LeftBehindIff | apps/api/src/realtime/redis-presence-storage.ts:227-258 | After any such run a user in the online set can be taken out without connecting anew if and only if a live program is about to clear them, or none of their pairs is stranded and some program, alive or claimed, has yet to count. |
| PresenceCrashes.FrozenUserStays | apps/api/src/realtime/redis-presence-storage.ts:273-286 | Once all programs of a user are gone, or dead with nothing claimed, no run of others changes any entry of the user. |
| PresenceCrashes.CrashLeavesUserOnline | apps/api/src/realtime/redis-presence-storage.ts:236-240 | For every instance, user, connection and tenant, a crash after the count leaves the user online and in the tenant's index, with no connection and no claim, for no reclaim to find. |
| PresenceCrashes.CrashLeavesTenantEntry | apps/api/src/realtime/redis-presence-storage.ts:283-285 | A crash within a discarded cleanup leaves the tenant's index listing a user who is not online. |
| PresenceRestarts.OwnershipSimulates | apps/api/src/realtime/redis-presence-storage.ts:158-312 | Every run of the protocol with crashes and reclaims is, event by event, a run of the ownership machine on the same pairs and claims. |
| PresenceRestarts.PartitionedIffNoneHalfway | apps/api/src/realtime/redis-presence-storage.ts:158-258 | In every such run the instance sets decode to exactly the user sets if and only if no program stands, alive or dead, between two fallback writes. |
| PresenceRestarts.RedisHoldsTheSystem | apps/api/src/realtime/redis-presence-storage.ts:92-110 | After every run with crashes each string-keyed entry of Redis is what the state says. |
| PresenceRestarts.ClaimsInRedis | apps/api/src/realtime/redis-presence-storage.ts:17-25 | In Redis a connection stands in its user's set and in no instance's, or the other way round, exactly between two fallback writes, and never in two instances'. |
| PresenceRestarts.ReclaimedInRedis | apps/api/src/realtime/redis-presence-storage.ts:301-312 | When a boot reclaim may end, the instance's set in Redis is already empty and of its former connections only stranded ones are held. |
| PubSubSubscriber.SubscriberSafety | apps/api/src/realtime/redis-realtime-pubsub.ts:109-181 | In every run at most one creation is pending; a pending one means no subscriber and a registered handler waiting; a subscriber means a registered handler; every other connection that is not closed is being torn down. |
| PubSubSubscriber.RegisteredIff | apps/api/src/realtime/redis-realtime-pubsub.ts:109-120 | In every run a handler is registered exactly if it was subscribed, its subscribe did not throw and its handle was not called. |
| PubSubSubscriber.ServedIff | apps/api/src/realtime/redis-realtime-pubsub.ts:109-155 | Whenever no continuation is due, some handler is registered exactly while there is a subscriber or one is being created. |
| PubSubSubscriber.ClosedIff | apps/api/src/realtime/redis-realtime-pubsub.ts:129-138 | In every run a connection is closed exactly once its teardown has run. |
| PubSubSubscriber.AvailableIsLastHeard | apps/api/src/realtime/redis-realtime-pubsub.ts:88-97 | The availability flag is what the last creation outcome, connection event or publish said, and true at first. |
| PubSubSubscriber.RetryStartsAfresh | apps/api/src/realtime/redis-realtime-pubsub.ts:140-155 | Whenever nothing is current or pending, the next subscribe starts a new creation. |
| PubSubSubscriber.FailureUndone | apps/api/src/realtime/redis-realtime-pubsub.ts:109-155 | However many calls wait for one creation, when it fails all of them throw and the bus is left as it was found, marked unavailable. |
| PubSubSubscriber.RedisRealtimePubSub.Subscribe | apps/api/src/realtime/redis-realtime-pubsub.ts:109-155 | The piece up to the await registers the handler and joins the subscriber, the cached creation, or starts one. |
| PubSubSubscriber.RedisRealtimePubSub.Unsubscribe | apps/api/src/realtime/redis-realtime-pubsub.ts:117-138 | The step of the handle, on whose runs the four results above stand: its handler goes, and with the last one the subscriber goes to teardown and the cached creation is forgotten. |
| FanOut.NoEchoNoDuplicate | apps/api/src/realtime/redis-realtime-pubsub.ts:187-198 | In every run no handler sees its own instance's message or any message twice. |
| FanOut.ReceivedIsPeersPublishes | apps/api/src/realtime/counting-pubsub.ts:49-54 | With its queue empty, an instance has seen, in order, exactly its peers' accepted messages since it subscribed, and counted each once. |
| FanOut.EveryPublishReachesEveryPeer | apps/api/src/connections/cluster-stats.service.ts:4-15 | At rest, if all subscribed before the first publish, each instance's published plus received equals the publishes of the whole cluster, and the received total is (n-1) times that. |
| FanOut.CountingRealtimePubSub.Dispatch | apps/api/src/realtime/redis-realtime-pubsub.ts:187-198 | Foreign, malformed and own messages reach nobody; any other is handed to every handler in turn and counted for each, with one warning for each that throws. |
| FanOut.CountingRealtimePubSub.Publish | apps/api/src/realtime/counting-pubsub.ts:38-41 | A publish takes the whole cluster, this instance's counter with it, through the steps of an accepted or a rejected publish. |
| FanOut.PublishedOnce | apps/api/src/realtime/redis-realtime-pubsub.ts:88-97 | Those steps carry the message once to everybody subscribed and count it once at its origin, or do neither. |
| FanOut.CountingRealtimePubSub.Subscribe | apps/api/src/realtime/counting-pubsub.ts:49-54 | The node joins the cluster's channel, with its counters and calls unchanged. |
| FanOut.CountingRealtimePubSub.Receive | apps/api/src/realtime/redis-realtime-pubsub.ts:187-198 | A delivery is the cluster's delivery step, counter and handler calls alike, whichever handlers throw. |
| FanOut.CountingRealtimePubSub.Elsewhere | apps/api/src/connections/cluster-stats.service.ts:4-15 | Whatever step another instance takes, this one's counters and calls still mirror its node. |
| EventIds.IdOrder | apps/api/src/realtime/redis-offline-queue.ts:104-109 | On zero-padded ids string order and equality are those of (milliseconds, counter), both ways. |
| EventIds.IdReads | apps/api/src/replay/replay.constants.ts:19-23 | An id is thirteen digits that read as the milliseconds, a dash, and six that read as the counter. |
| EventIds.MinCursorBelowAll | apps/api/src/replay/replay.constants.ts:19-23 | The cursor '0' is strictly below every id. |
| OfflineQueue.TrimKeepsNewest | apps/api/src/realtime/redis-offline-queue.ts:91-98 | The negative rank trims exactly what exceeds the newest `maxPerUser`. |
| OfflineQueue.ZAddIsExact | apps/api/src/realtime/redis-offline-queue.ts:95-95 | Adding keeps the order by score and text, replaces the entry of the same text and touches no other. |
| OfflineQueue.TrimKeepsHighest | apps/api/src/realtime/redis-offline-queue.ts:96-96 | In an ordered queue the trim keeps exactly the entries with fewer than `maxPerUser` after them. |
| OfflineQueue.PageIsExact | apps/api/src/realtime/redis-offline-queue.ts:116-127 | A page is ascending, newer than the cursor, as long as possible up to the limit, and skips nothing older than its end. |
| OfflineQueue.AcknowledgedExactly | apps/api/src/realtime/redis-offline-queue.ts:135-142 | An acknowledgement removes the events at or below its watermark and no others. |
| OfflineQueue.DrainIsComplete | apps/api/src/realtime/redis-offline-queue.ts:116-142 | Alternating retrieval and acknowledgement terminates, hands out exactly the events above the cursor in id order, and leaves none queued. |
| OfflineQueue.DrainInOrder | apps/api/src/realtime/redis-offline-queue.ts:116-142 | The concatenated pages are strictly ascending, so each event comes once. |
| OfflineQueue.PageBoundaryKeepsIff | apps/api/src/realtime/redis-offline-queue.ts:116-142 | Whatever ids are shared: acknowledging a page keeps everything left for later pages exactly when the next event's id differs from the page's last. |
| OfflineQueue.DuplicateIdLost | apps/api/src/replay/replay.constants.ts:19-23 | Two events given the same padded id: a page ending between them hands out one, and acknowledging it drops both. |
| OfflineRetention.QueueConserves | apps/api/src/realtime/redis-offline-queue.ts:91-142 | Under every interleaving each stored event is queued, trimmed or acknowledged, only one of these, and the queue exceeds the cap by at most the appends not yet trimmed. |
| OfflineRetention.AddWithinCapIff | apps/api/src/realtime/redis-offline-queue.ts:91-98 | After any run an add leaves the queue within the cap exactly when the queue was below it. |
| OfflineRetention.CapExceeded | apps/api/src/realtime/redis-offline-queue.ts:91-98 | Any number of appends whose adds precede their trims are all queued at once, whatever the cap. |
| OfflineRetention.BoundReached | apps/api/src/realtime/redis-offline-queue.ts:91-98 | For every cap, every n and cap + n events, some run ends with n appends untrimmed and cap + n events queued. |
| OfflineRetention.AckTakesOnlyWhatItRead | apps/api/src/realtime/redis-offline-queue.ts:135-142 | Under every interleaving an acknowledgement removes only events at or below its watermark that were stored before its read. |
| OfflineRetention.AckTakesAllItRead | apps/api/src/realtime/redis-offline-queue.ts:135-142 | Whatever runs in between, the removal takes of what is still queued exactly what was queued at its read at or below the watermark. |
| OfflineRetention.AckBackToBack | apps/api/src/realtime/redis-offline-queue.ts:135-142 | Read and removal with nothing in between are the whole call. |
| OfflineRetention.AddIsExact | apps/api/src/realtime/redis-offline-queue.ts:91-98 | After any run an add queues its event under its own time and nothing else. |
| OfflineRetention.TrimTakesLowest | apps/api/src/realtime/redis-offline-queue.ts:91-98 | Under every interleaving, and whatever the clocks of the instances, the queue is in score order and a trim takes exactly the entries with `maxPerUser` or more after them. |
| OfflineRetention.QueueSorted | apps/api/src/realtime/redis-offline-queue.ts:91-142 | After any sequence of calls, with any clocks, the queue is in score order. |
| OfflineRetention.QueueIsPlainList | apps/api/src/realtime/redis-offline-queue.ts:91-142 | After any sequential run in order, the sorted set is a list where append keeps the last `maxPerUser` and acknowledge drops a prefix. |
| OfflineRetention.IdFirstTextsOrdered | apps/api/src/realtime/redis-offline-queue.ts:95-95 | A JSON text that begins with a fixed-width id is ordered like its id, which is what equal scores need. |
| OfflineRetention.RedisOfflineQueue.Append | apps/api/src/realtime/redis-offline-queue.ts:91-102 | Of the old entries and the new one, by score and not by arrival, stay exactly those with fewer than `maxPerUser` after them; other queues are untouched. |
| OfflineRetention.RedisOfflineQueue.Acknowledge | apps/api/src/realtime/redis-offline-queue.ts:135-142 | Exactly the user's events above the watermark remain; other queues are untouched. |
| ChatRateLimiter.PrunedDecidesAsFull | apps/api/src/chat/chat-rate-limiter.ts:33-44 | With a clock that does not go back, the pruned limiter decides as one that filters the full admitted history. |
| ChatRateLimiter.AgreeIffClockForward | apps/api/src/chat/chat-rate-limiter.ts:33-44 | After all runs in order that end at one time, pruned and full limiter agree on a later call if and only if the clock did not go back. |
| ChatRateLimiter.StepsAgreeIffClockForward | apps/api/src/chat/chat-rate-limiter.ts:33-44 | The same for two successive calls from any stored times. |
| ChatRateLimiter.BackwardClockDiffers | apps/api/src/chat/chat-rate-limiter.ts:34-40 | For every step back of the clock, a run in order after which the pruned limiter admits what the full one refuses. |
| ChatRateLimiter.StoredBounded | apps/api/src/chat/chat-rate-limiter.ts:33-44 | At most 20 times are stored per connection, for any clock. |
| ChatRateLimiter.DecidesByLastSecond | apps/api/src/chat/chat-rate-limiter.ts:33-44 | From any stored times a call is admitted exactly while fewer than 20 of them are less than 1000 ms old. |
| ChatRateLimiter.AdmitsIff | apps/api/src/chat/chat-rate-limiter.ts:33-44 | On a forward clock a call is admitted exactly while fewer than 20 earlier calls were admitted less than 1000 ms before it. |
| ChatRateLimiter.AdmissionsAreBounded | apps/api/src/chat/chat-rate-limiter.ts:15-44 | Every window of 1000 ms, wherever it starts, holds at most 20 admissions, every interval of k windows at most 20k. |
| ChatRateLimiter.ConnectionsIndependent | apps/api/src/chat/chat-rate-limiter.ts:24-44 | A connection's state is a function of its own calls only. |
| ChatRateLimiter.RateLimiter.TryConsume | apps/api/src/chat/chat-rate-limiter.ts:33-44 | Admits exactly while fewer than 20 recorded times lie in the window, and stores the pruned times with the admitted one. |
| ChatGateway.EmissionsAreSafe | apps/api/src/chat/chat.gateway.ts:124-138 | In every run whatever is emitted has behind it a registered connection, whose identity it carries, with a join of that room and no later leave or disconnect. |
| ChatGateway.EmitsIff | apps/api/src/chat/chat.gateway.ts:124-138 | A registered connection's message is emitted exactly when it is well formed, its sender a member by history, and fewer than 20 of its admissions since release lie in the window. |
| ChatGateway.EmissionsAreBounded | apps/api/src/chat/chat.gateway.ts:101-138 | Between releases a connection emits at most 20 messages in any 1000 ms and 20k in any k of them. |
| ChatGateway.RoomsFollowHistory | apps/api/src/lifecycle/room-membership.tracker.ts:26-59 | The tracker lists a room exactly when history has a join with no later leave and no disconnect since. |
| ChatGateway.Chat.OnChatMessage | apps/api/src/chat/chat.gateway.ts:124-138 | Consumes rate budget first, and emits at most the one message the admission chain allows. |
| Base64Url.RoundTrip | apps/api/src/auth/session.service.ts:85-88 | Unpadded base64url (section 5 of RFC 4648) decodes to what was encoded, and contains neither '.' nor padding. |
| Base64Url.EncodedAlphabet | apps/api/src/auth/session.service.ts:85-88 | The k-th character spells the k-th six bits of the bytes in the alphabet of section 5 of RFC 4648. |
| Base64Url.DecodesBothAlphabets | apps/api/src/auth/session.service.ts:117-119 | The same text in the standard base64 alphabet decodes to the same bytes. |
| Base64Url.EncodedLength | apps/api/src/auth/session.service.ts:112-114 | The text is as long as unpadded base64url of that many bytes is. |
| SessionTokens.SplitTwo | apps/api/src/auth/session.service.ts:101-104 | Splitting gives two segments exactly when the token is those two around its only '.'. |
| SessionTokens.AcceptedIff | apps/api/src/auth/session.service.ts:97-133 | A token is accepted exactly when it is two non-empty segments around its only '.', the second decoding to the MAC of the first, the first to a schema-valid payload that has not expired. |
| SessionTokens.AuthenticatesIff | apps/api/src/auth/cookie-session.authenticator.ts:43-50 | A connection authenticates as a user exactly if its cookie is two non-empty segments around the only '.', MAC and payload in order, with user, tenant and an expiry to come; without a cookie as nobody. |
| SessionTokens.SignThenVerify | apps/api/src/auth/session.service.ts:85-109 | A signed payload verifies to itself exactly while it is schema-valid and not expired. |
| SessionTokens.IssuedThenAuthenticated | apps/api/src/auth/cookie-session.authenticator.ts:43-50 | A session authenticates its user for exactly eight hours, a bearer for exactly ten minutes; one for an unnamed user or tenant never. |
| Revocation.RevocationOutlastsCredentials | apps/api/src/auth/revocation.store.ts:75-95 | In every run, at every instant, the very token issued up to the latest revocation not undone is refused or its user is reported revoked. |
| Revocation.RefusedIff | apps/api/src/auth/session.service.ts:97-109 | A token issued on the millisecond clock is refused exactly from its lifetime after the whole second of issue. |
| Revocation.HistoryIff | apps/api/src/auth/revocation.store.ts:75-95 | In every run the clock is the sum of its ticks, and credentials and revocations in force are those of the steps that made them, at their times. |
| Revocation.RevokedIff | apps/api/src/auth/cookie-session.authenticator.ts:59-61 | Revalidation fails exactly while a revocation not undone is younger than one session lifetime. |
| Revocation.MarkerLifetimeIsTight | apps/api/src/auth/revocation.store.ts:78-86 | A marker lifetime covers every session it must kill exactly when it is at least the session lifetime. |
| Revocation.RedisRevocationStore.Revoke | apps/api/src/auth/revocation.store.ts:84-86 | The machine's revoke step: from now for exactly one session lifetime the user is revoked, and nobody else's answer changes at any time. |
| Replay.WindowPartitions | apps/api/src/replay/replay.service.ts:98-110 | Evicted followed by retained is the emitted sequence, and as many are retained as the buffer allows. |
| Replay.TagsMeanRanges | apps/web/src/lib/replay-diff.ts:48-60 | One row per emission in order; for distinct numbers each tag means exactly its range. |
| Replay.EvictedShownBufferedIff | apps/web/src/lib/replay-diff.ts:48-60 | An evicted emission is shown as buffered exactly when it is not queued and its number occurs again in the window. |
| Replay.ReplayTimeline.Burst | apps/api/src/replay/replay.service.ts:69-76 | An uninterrupted burst records exactly 1..count, each at its own time, emits the same numbers, and leaves other users' records alone. |

## Left out

- `@bymax-one/nest-realtime`: its registry, replay buffer and emit paths are not part of this model; the registry enters as a map, emitting as a log.
- Redis networking, reconnects and command errors: only commit or discard, and publish accepted or rejected.
- PubSubSubscriber.SubscriberSafety: assumes connection outcomes arrive only after all continuations of settled promises ran, as a JavaScript event loop orders them, and does not cover a direct `close()` during a creation.
- FanOut.NoEchoNoDuplicate: each instance subscribes once, with one handler that does not publish, and stays subscribed; a Redis channel carries each accepted message once, in one order, to everyone subscribed.
- Base64Url.RoundTrip: the decoder skips foreign characters; no result depends on how it treats them.
- SessionTokens.SignThenVerify: HMAC and JSON are parameters, assumed to give 32 bytes and to read back what was written.
- PresenceOwnership.OwnershipPartition: commands on the online and tenant indexes are not steps, since they touch neither connection sets nor claims; user ids have no newline.
- PresenceClaims.ClaimsExactEver: user ids have no newline, as the adapter itself assumes.
- PresenceCrashes.LeftBehindIff: is about the online set; for a tenant's index only the two crashes above are shown. A reclaim works through its list in any order, several removals at a time if need be.
- PresenceProtocol.NoGhostEver: crashes are not steps there but in `PresenceCrashes`; a boot reclaim of a whole connection is a silent disconnect.
- Tenant rosters under overlapping operations of one user, users who change tenant: the code guarantees nothing there.
- Expiry of offline queue keys; numeric precision of scores (they are integers here).
- Reading the wall clock, UUID generation, sort order of room listings by locale: times and ids are inputs, room listings are sets.
- The connection event log, the audit ring, ticket redemption, bearer header parsing and the decorator dispatcher: single-call facts.
- Controllers, guards, schemas, configuration and the web interface other than the replay tags.
