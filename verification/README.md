# Protocol and codec proofs for fbridge's protocol clients

The bridge's clients are mostly network code around a few small stateful cores. This project models those cores in
Dafny and proves what they keep over whole runs. Code that changes fields, maps or buffers step by step is a class or
a method proved against a function on values; whole-run statements are lemmas about those functions. Go's `int` is
unbounded here except where its width shows (8-bit packet digits, 32-bit SMC words). Iteration over a Go map is an
arbitrary choice of the next key. Clocks, servers, write outcomes and the MD5 digest are parameters.

| file | what it covers |
|---|---|
| `BackfillQueue.dfy` | publishers, the bounded task queue and its worker as interleaved atomic steps |
| `RoomProfile.dfy`, `RoomCache.dfy`, `MemberProfile.dfy` | state-event fold, merge precedence, caches, fetch throttling |
| `TiebaPosts.dfy`, `TiebaNewest.dfy`, `TiebaThreads.dfy`, `TiebaHistory.dfy`, `Throttle.dfy` | paging, in-place trim, newest floors of a thread, thread dedupe, runs of rounds and prunes, the rate gate |
| `Lounge.dfy`, `IrcCloud.dfy` | the bounded seen-window; the re-entrant handler with its backlog recursion |
| `EngineIo.dfy`, `Fingerprint.dfy`, `Wbi.dfy`, `SmcCodec.dfy` | wire formats and their round trips |
| `ChargeControl.dfy`, `ChargeHistory.dfy`, `ChargeVerdicts.dfy`, `SmcFirmware.dfy` | hysteresis, strikes and backend failover, the multi-register charge window |
| `Bytes.dfy`, `Options.dfy`, `Sets.dfy`, `CacheTimes.dfy`, `SortedKeys.dfy`, `PercentCodec.dfy`, `Utf8.dfy` | shared vocabulary: split/join, optional values, visiting sets and maps, cache times, sorted listings, escapes, UTF-8 |

`dafny verify dfyconfig.toml` checks everything.

## Where the code and its own words differ

The model follows the code. Each difference is stated by the members named with it.

* A user whose name arrives while their task is queued stays pending for ever: `resolveMember` returns before it
  defers the release, although the comment on `clearMemberPending` says that a consumed task can be queued again
  (`BackfillQueue.LeaksExactlyWhenKnown`, `BackfillQueue.LeakHappens`).
* `memberAttemptAllowed` is said to record the attempt either way; it records only the attempts it allows
  (`MemberProfile.MemberCache.MemberAttemptAllowed`).
* The room `mergeFrom` reports more than "whether anything changed": re-reporting a room type, a version, a federation
  flag or a positive member count counts as a change (`RoomProfile.RoomAttributes.MergeFrom`,
  `RoomProfile.UnchangedYetReported`). The member `mergeFrom` reports exactly.
* An explicit room name can give way to an alias when the same name had already been recorded as an alias, because the
  merge does not raise the quality of a name it does not replace (`RoomProfile.ExplicitNameIsKept`).
* `hasVisibleData` and `wire` are in lockstep except for a lone negative member count
  (`RoomProfile.VisibleIffPublished`).
* A summary fetch whose handling panics leaves no attempt behind, so the cooldown does not cover it
  (`RoomCache.PanicForgetsFetch`).
* `ReadPacket` drops the rest of a decoded body when a pong cannot be written and everything of a body that also
  closes, messages included (`EngineIo.NothingLostIff`, `EngineIo.PongFailureLosesMessage`).
* The first cooldown after a reset is 8 seconds, not 4, because a reset stores the base value that the next hit
  doubles (`Throttle.BackoffSequence`).
* The retry in `bilibili/recommend.go:82-88` signs a map that already holds `w_rid`, so the digest covers the old
  signature as well (`Wbi.SignatureCoversQuery`).
* `uriEncodeCaps` walks runes, so strings that are not valid UTF-8 are replaced rather than encoded
  (`Wbi.EncodeRoundTrip`).
* The paging loop re-tests for the jump page, so it need not end when a server reports more than 2^30 pages there
  (`TiebaPosts.PagingEndsIff`).

## Model

| member | source | states |
|---|---|---|
| BackfillQueue.PendingRoomsArePartitioned | fbprotocols/matrixlite/roomprofile.go:522-639 | In every interleaving of any number of publishers and the worker, the pending rooms are exactly the disjoint union of rooms reserved but not sent, rooms queued and the room in flight; no key is held or queued twice; the queue never exceeds 64. |
| BackfillQueue.RunKeepsInv | fbprotocols/matrixlite/roomprofile.go:522-594 | Every enabled step (reserve, send, find full, roll back, dequeue, learn or forget a user, defer the release, skip, return, panic, unwind) keeps the invariant: each key is in at most one place, the pending keys are those in some place plus the leaked ones, and the release is deferred exactly when the task's body has started. |
| BackfillQueue.FullQueueDropsOwnKeyOnly | fbprotocols/matrixlite/roomprofile.go:555-563 | A publisher that finds the queue full releases its own key, which no one else holds, and changes nothing else. |
| BackfillQueue.NoRoomLeaks | fbprotocols/matrixlite/roomprofile.go:522-570 | When publishers, queue and worker are at rest, no room is pending, whatever panicked before; it rests on the deferred release being run while unwinding. |
| BackfillQueue.RoomIsReleased | fbprotocols/matrixlite/roomprofile.go:523-539 | A room task defers its release before anything that may panic, so unwinding, after a return or a panic, gives back its key and no other. |
| BackfillQueue.OneTaskPerUser | fbprotocols/matrixlite/roomprofile.go:575-594 | At most one task is outstanding per user, and its user is pending. |
| BackfillQueue.LeaksExactlyWhenKnown | fbprotocols/matrixlite/memberprofile.go:375-379 | A user whose task the worker takes leaks if and only if the user is known by name at that moment, whatever happens until the task is unwound; rooms never do. |
| BackfillQueue.LeaksExactlyWhenSkipped | fbprotocols/matrixlite/memberprofile.go:375-379 | A pending key loses its task yet stays pending at exactly one kind of step: the unwinding of a member task that returned in front of its deferred release. |
| BackfillQueue.LeakedUserIsNeverResolved | fbprotocols/matrixlite/memberprofile.go:364-427 | A leaked user stays pending and is nowhere queued in every continuation. |
| BackfillQueue.LeakHappens | fbprotocols/matrixlite/memberprofile.go:375-379 | A concrete six-step run that leaks: the name arrives while the task is queued. |
| BackfillQueue.ReservationIsGranted | fbprotocols/matrixlite/roomprofile.go:545-594 | In every reachable state a reservation is granted if and only if its key has no task anywhere and has not leaked; granted, the publisher holds that task, refused, nothing changes. |
| BackfillQueue.HeldTaskStays | fbprotocols/matrixlite/roomprofile.go:555-594 | A publisher keeps the very task it reserved until it sends or drops that task itself. |
| BackfillQueue.QueueIsFifo | fbprotocols/matrixlite/roomprofile.go:522-594 | Over every run the tasks the worker turns to and those still queued are the tasks queued before and sent, in that order: nothing is lost, repeated or overtaken. |
| BackfillQueue.NeverStuck | fbprotocols/matrixlite/roomprofile.go:522-594 | In every state that is not at rest some publisher or the worker can go on, whatever the queue holds. |
| BackfillQueue.EveryScheduleEnds | fbprotocols/matrixlite/roomprofile.go:522-594 | Once nothing new arrives, every schedule of publishers and worker, with panics, works everything off: it can take no more steps than a number known beforehand, and it can go no further exactly when all is at rest. |
| RoomProfile.FoldIsTitle | fbprotocols/matrixlite/roomprofile.go:351-416 | For every order of events the incremental name and quality equal the declarative title: last room name if non-empty, else last canonical alias if non-empty, else none. |
| RoomProfile.FoldIsLast | fbprotocols/matrixlite/roomprofile.go:351-384 | Avatar and topic are those of their last event, cleared or not; the avatar counts as explicit exactly when there was one. |
| RoomProfile.FoldIsLastCreated | fbprotocols/matrixlite/roomprofile.go:355-366 | Room type and version are the last non-empty ones a room-level create event gives, the federation flag the last one given. |
| RoomProfile.SlidingTitle | fbprotocols/matrixlite/roomprofile.go:422-440 | The server's room name ranks between the explicit name and the alias. |
| RoomProfile.SlidingFills | fbprotocols/matrixlite/roomprofile.go:422-440 | The summary's avatar and topic stand in exactly where no state event set them, and a positive joined count is taken. |
| RoomProfile.RoomAttributes.SetName | fbprotocols/matrixlite/roomprofile.go:389-400 | The in-place update is ApplyName: an emptied name falls back to the alias. |
| RoomProfile.RoomAttributes.SetAlias | fbprotocols/matrixlite/roomprofile.go:405-416 | The in-place update is ApplyAlias: an alias never touches an explicit name. |
| RoomProfile.RoomAttributes.ApplyStateEvent | fbprotocols/matrixlite/roomprofile.go:351-384 | One event updates the object as the fold's step does and is reported as applied exactly when it is room-level. |
| RoomProfile.RoomAttributes.ApplySlidingSummary | fbprotocols/matrixlite/roomprofile.go:422-440 | The in-place summary is ApplySliding. |
| RoomProfile.ProfileFromStateEvents | fbprotocols/matrixlite/roomprofile.go:451-474 | The loop computes the fold of the decodable events, or nothing when none is room-level. |
| RoomProfile.ProfileFromSlidingRoom | fbprotocols/matrixlite/client.go:518-531 | Nothing exactly when neither the events nor the summary supply anything; otherwise the summary applied to the fold. |
| RoomProfile.RoomAttributes.MergeFrom | fbprotocols/matrixlite/roomprofile.go:270-297 | The in-place merge is Merge, and it reports a change if and only if the value changed or the source carries a room type, a version, a federation flag or a positive member count. |
| RoomProfile.MergeIsMonotone | fbprotocols/matrixlite/roomprofile.go:259-297 | A merge never lowers the recorded quality, never empties a published attribute, and replaces a name only by one of at least the recorded quality. |
| RoomProfile.MergeTakesSource | fbprotocols/matrixlite/roomprofile.go:259-297 | A merge takes every attribute its source supplies (avatar, topic, alias, room type, version, federation flag, member count), the name exactly when its quality is no lower or it is the same name; merging the same source again changes nothing. |
| RoomProfile.MergeIsExact | fbprotocols/matrixlite/roomprofile.go:259-297 | The merge is the only profile that covers its source and keeps the rest: attributes not supplied, a name supplied under a lower quality, and the quality and avatar flags of what was not replaced. |
| RoomProfile.ExplicitNameIsKept | fbprotocols/matrixlite/roomprofile.go:259-274 | A merged explicit name resists every later name of lower quality if and only if it was not already recorded at a lower quality. |
| RoomProfile.UnchangedYetReported | fbprotocols/matrixlite/roomprofile.go:266-297 | A merge reports a change that did not happen if and only if everything it would take is there already and the source carries a room type, a version, a federation flag or a positive member count; so a second merge of a source is reported if and only if it carries one. |
| RoomProfile.VisibleIffPublished | fbprotocols/matrixlite/roomprofile.go:304-345 | A profile is visible exactly when something of it is published, unless its only content is a negative member count. |
| RoomCache.ProfileCache.NoteProfiles | fbprotocols/matrixlite/roomprofile.go:221-253 | A sync updates the cache: every visible room of a non-empty batch is cached and seen now; a new one is the source, a cached one takes every attribute the source supplies (a name only of equal or better quality) and keeps the rest; other rooms stay as they were unless last seen more than seven days ago; an empty batch changes nothing. |
| RoomCache.ProfileCache.NoteEach | fbprotocols/matrixlite/roomprofile.go:228-242 | The range loop's result is the pointwise map Noted, independent of order. |
| RoomCache.ProfileCache.RestoreProfiles | fbprotocols/matrixlite/roomprofile.go:200-216 | Whatever order the saved map is visited in: exactly the visible saved rooms take the place of cached ones, with their saved times, and all others stay as they were. |
| RoomCache.ProfileCache.DeleteOld | fbprotocols/matrixlite/roomprofile.go:243-252 | The deleting loops leave exactly the profiles and attempts not older than seven days, unchanged. |
| RoomCache.ProfileCache.BindProfiles | fbprotocols/matrixlite/roomprofile.go:116-124 | Another home server empties both maps, the same one changes nothing. |
| RoomCache.RestoreKeepsVisible | fbprotocols/matrixlite/roomprofile.go:200-216 | Restoring keeps every cached profile publishable. |
| RoomCache.ProfileCache.BeginBackfill | fbprotocols/matrixlite/roomprofile.go:596-620 | A fetch starts if and only if the room is outside its cooldown, not visibly cached and a client exists. |
| RoomCache.ProfileCache.FinishBackfill | fbprotocols/matrixlite/roomprofile.go:621-649 | Failure and an empty answer record an attempt at that time, a visible answer is taken into the cache like a batch of one room, a panic records nothing; in all cases the worker is free again. |
| RoomCache.CacheIsPublishable | fbprotocols/matrixlite/roomprofile.go:116-253 | In every state of every run (syncs, fetches, restores, changes of the home server) every cached profile has something to publish. |
| RoomCache.AttributesAreLastSupplied | fbprotocols/matrixlite/roomprofile.go:116-297 | In every run from a fresh cache a room is cached exactly when it was brought by a sync, a summary or a restore and not forgotten since, with that time; each attribute (avatar, topic, alias, room type, version, federation flag, member count) is the last one supplied since, a restore replacing all of them. |
| RoomCache.CachedRoomNeverDegrades | fbprotocols/matrixlite/roomprofile.go:221-297 | While a room stays cached and no restore replaces it, its recorded quality never falls and no published attribute becomes empty. |
| RoomCache.FetchesAreSpacedOut | fbprotocols/matrixlite/roomprofile.go:221-649 | In every run from a fresh cache two fetches of one room are at least the cooldown apart unless the earlier one panicked, also after it succeeded and was pruned. The worker's readings follow one another; a sync may carry a reading older than what was applied before it, up to the lifetime less the cooldown. |
| RoomCache.StaleSyncForgetsFetch | fbprotocols/matrixlite/roomprofile.go:225-247 | That bound is exact: one nanosecond more lets a prune expose a room before its cooldown is over. |
| RoomCache.PanicForgetsFetch | fbprotocols/matrixlite/roomprofile.go:525-649 | For every cache, room, fetch and outcome: within the cooldown of its end the room may be fetched again if and only if handling the answer panicked. |
| MemberProfile.MemberAttributes.MergeFrom | fbprotocols/matrixlite/memberprofile.go:120-135 | The in-place merge is MergeMember and reports a change if and only if one happened. |
| MemberProfile.MemberCache.NoteMember | fbprotocols/matrixlite/memberprofile.go:152-168 | Sources without an id or without visible data are ignored, others merged or inserted. |
| MemberProfile.MemberCache.MemberAttemptAllowed | fbprotocols/matrixlite/memberprofile.go:247-255 | Allowed exactly outside the cooldown, and then recorded. |
| MemberProfile.MemberCache.PruneMembers | fbprotocols/matrixlite/memberprofile.go:171-187 | The deleting loops leave exactly the entries of the last seven days in all three maps, unchanged. |
| MemberProfile.MemberCache.RestoreMembers | fbprotocols/matrixlite/memberprofile.go:218-229 | Whatever order the saved map is visited in: exactly the visible saved members take the place of cached ones, all others stay as they were. |
| MemberProfile.MemberCache.BindMembers | fbprotocols/matrixlite/memberprofile.go:139-148 | Another home server empties all three maps, the same one changes nothing. |
| MemberProfile.FieldsAreLastNonEmpty | fbprotocols/matrixlite/memberprofile.go:120-229 | For every history of harvests, prunes, restores and changes of the home server: a user is cached exactly when last seen and not forgotten since, with that time, and each field is the last non-empty value given since then, a restore replacing what was there. |
| MemberProfile.CachedIffNotSwept | fbprotocols/matrixlite/memberprofile.go:139-229 | A user is cached if and only if some harvest or restore is the last to mention that user and nothing after it, prune or change of server, made the cache forget it. |
| MemberProfile.AttemptsAreSpacedOut | fbprotocols/matrixlite/memberprofile.go:171-255 | In every run of attempts and prunes, two attempts let through for one user are at least the cooldown apart. |
| MemberProfile.LetThroughIff | fbprotocols/matrixlite/memberprofile.go:171-255 | An attempt is let through if and only if none of the same user was let through within the cooldown before it, whatever was pruned in between. |
| TiebaPosts.TrimToLatest | fbprotocols/bdtieba/posts.go:304-325 | In place: a sub-multiset of the input in non-decreasing time order, all ids above a positive base, of length min(n, eligible), with no eligible post left out that is newer than one kept. |
| TiebaPosts.SortNewestFirst | fbprotocols/bdtieba/posts.go:305-307 | The array becomes a newest-first permutation of itself. |
| TiebaPosts.KeepEligible | fbprotocols/bdtieba/posts.go:308-316 | Compacting in place leaves exactly the eligible posts, in order, at the front. |
| TiebaPosts.ReverseFront | fbprotocols/bdtieba/posts.go:321-323 | Swapping inwards reverses the kept front. |
| TiebaPosts.TrimIsLatest | fbprotocols/bdtieba/posts.go:304-325 | Sorting, filtering, keeping a prefix and reversing is a newest-n choice, whichever way ties fall. |
| TiebaPosts.CollectPages | fbprotocols/bdtieba/posts.go:268-294 | Against every server that lets it end, the loop terminates. It starts at the jump page and goes back page by page from the reported end, each page having announced more; it stops with enough posts, at a failed page, or where no page before this one is announced. |
| TiebaPosts.FetchLatestPosts | fbprotocols/bdtieba/posts.go:264-299 | The result is a newest-n choice from the posts of exactly the pages visited; it fails exactly on a bad id or a failed page. |
| TiebaPosts.PagingEndsIff | fbprotocols/bdtieba/posts.go:274-294 | Against every server, the loop ends if and only if at some request its walk stops, or asks for the jump page and is told of at most 2^30 pages. |
| TiebaPosts.FirstAnswerEnds | fbprotocols/bdtieba/posts.go:286-292 | It is enough that the very first answer is an error or reports at most 2^30 pages. |
| TiebaPosts.FixedCountEndsIff | fbprotocols/bdtieba/posts.go:286-292 | Against a server that always announces more, brings no post and reports one page count, the loop ends if and only if that is at most 2^30. |
| TiebaPosts.LongWalkIsBeyondJump | fbprotocols/bdtieba/posts.go:274-294 | Against any server, more than 2^30 requests happen only after an answer to the jump page reported more than 2^30 pages. |
| TiebaPosts.LatestArePositive | fbprotocols/bdtieba/posts.go:304-325 | Positive ids on the server give positive ids in the result. |
| TiebaNewest.CollectedIsSuffix | fbprotocols/bdtieba/posts.go:274-294 | The first k requests bring exactly the floors of the last k pages. |
| TiebaNewest.StoppedWalkHasNewest | fbprotocols/bdtieba/posts.go:268-299 | Where the walk over such a thread stops, the newest of the floors collected are the newest of all above the base: those on pages not visited are too old or already known. |
| TiebaNewest.NewestOfThread | fbprotocols/bdtieba/posts.go:264-325 | Of a thread that does not change while it is read, whose older pages hold older floors with lower ids and whose server announces older pages, the fetch never fails and brings the newest n floors above the base of the whole thread, however it is cut into pages. |
| TiebaThreads.Poller.DedupeFloors | fbprotocols/bdtieba/posts.go:344-361 | The loop computes first occurrences outside the pid set and the highest id. |
| TiebaThreads.Poller.ProcessLatestPosts | fbprotocols/bdtieba/posts.go:332-371 | The floors returned are the first occurrences not in the pid set, the watermark is the highest id seen, the set is extended and pruned; all floors lie above a positive base. |
| TiebaThreads.Poller.ProcessThread | fbprotocols/bdtieba/bdtieba.go:132-217 | A new thread, or one whose reply count grew, publishes its announcement (if new) and then one batch of exactly the fetched floors that were not in the pid set, each once and in the order of the posts; its entry and watermark advance and the pid set takes the floors in. A thread on top or unchanged leaves all as it was; a nil or migrated entry is only calibrated. |
| TiebaThreads.HandlingPublishes | fbprotocols/bdtieba/bdtieba.go:132-217 | The same of the function on values, for every state, thread and fetch: what is published is stated by membership, distinctness and order of first occurrence. |
| TiebaThreads.Poller.ProcessThreads | fbprotocols/bdtieba/bdtieba.go:123-179 | The backward walk of a listing computes Round. |
| TiebaThreads.Poller.PruneState | fbprotocols/bdtieba/bdtieba.go:260-267 | Exactly the entries not seen for 72 hours disappear. |
| TiebaHistory.PublishedIdsIncrease | fbprotocols/bdtieba/bdtieba.go:123-217 | In every run of rounds and prunes with positive ids: no id repeats inside a batch, and until a thread is forgotten every later batch lies wholly above every earlier one. |
| TiebaHistory.NoFloorTwice | fbprotocols/bdtieba/bdtieba.go:192-217 | Hence no floor of a thread not forgotten in between is published twice, even after it left the pid set. |
| TiebaHistory.EveryFloorIsPublished | fbprotocols/bdtieba/bdtieba.go:123-217 | Nothing is lost: over every run of rounds and prunes each new thread met is announced with the time of its round, and every floor fetched for a new or grown thread is in a published batch, unless it was in the pid set at the start. |
| TiebaHistory.AnnouncementsAreApart | fbprotocols/bdtieba/bdtieba.go:123-179 | Over every run with a monotone clock, two announcements of one thread are more than 72 hours apart. |
| TiebaHistory.EntryAdvances | fbprotocols/bdtieba/bdtieba.go:132-179 | While a thread is not forgotten its reply count (from non-negative listings) and its watermark never decrease. |
| TiebaHistory.NilEntriesNeverAppear | fbprotocols/bdtieba/bdtieba.go:277-292 | After loading has dropped nil entries none ever comes back, so the branch for them is dead. |
| TiebaHistory.VisitForum | fbprotocols/bdtieba/bdtieba.go:103-108 | Processing and pruning one forum are two good actions of a run. |
| TiebaHistory.PollLoop | fbprotocols/bdtieba/bdtieba.go:77-117 | The loop takes exactly the actions of its visits (a prune at the start; for each listing a round whose fetches are what the forum's pages make of them, then a prune; nothing for a failed listing); its log is ordered, its announcements are apart, and every new thread and every floor fetched was published unless known at the start. |
| Throttle.RateGate.NoteRateLimit | fbprotocols/bdtieba/throttle.go:39-52 | Doubles the cooldown up to 20 seconds, starting with 4, and closes the gate until now plus that cooldown. |
| Throttle.RateGate.ClearRateLimit | fbprotocols/bdtieba/throttle.go:58-66 | Opens the gate and resets the cooldown to its base exactly when no cooldown is active; otherwise changes nothing. |
| Throttle.RateGate.WaitRateGate | fbprotocols/bdtieba/throttle.go:24-36 | Waiting passes the first time it wakes to no active cooldown, however other requests moved the deadline meanwhile, and never earlier. |
| Throttle.BackoffSequence | fbprotocols/bdtieba/throttle.go:24-66 | In every interleaving of hits and successes the cooldown is a function of the number of hits since the last reset (4, 8, 16, 20, 20 seconds, one rung higher once there was a reset), and the deadline is the last hit plus that cooldown. |
| Throttle.HitClosesGate | fbprotocols/bdtieba/throttle.go:39-52 | Right after a hit the gate is closed at exactly the times before the hit plus the cooldown it leads to, which is at least 4 seconds. |
| Throttle.ClosedUntilCooldownIsOver | fbprotocols/bdtieba/throttle.go:24-66 | At any time the gate is closed if and only if there was a hit since the last reset and its cooldown is not over. |
| Throttle.NotOpenBefore | fbprotocols/bdtieba/throttle.go:24-66 | Whatever hits and successes follow a hit, the gate is not open before the cooldown of that hit is over. |
| Throttle.WaitAfterHit | fbprotocols/bdtieba/throttle.go:24-52 | A wait entered at or after a hit passes no earlier than the hit plus its cooldown, whatever other requests do during its sleeps. |
| Throttle.DeadlineBound | fbprotocols/bdtieba/throttle.go:39-66 | The cooldown stays within 0 and 20 seconds and the deadline within one cooldown of the last step. |
| Throttle.DeadlineNeverMovesEarlier | fbprotocols/bdtieba/throttle.go:39-66 | Under a monotone clock no step moves a deadline still in force to an earlier time. |
| Lounge.SeenIds.MarkSeen | fbprotocols/irclounge/lounge.go:385-404 | New exactly when not in the window, which then gains the id; while it has at most 50000 ids nothing leaves it, otherwise exactly those more than 50000 behind the highest do, whatever order keys are visited in. |
| Lounge.SeenIds.Emit | fbprotocols/irclounge/lounge.go:423-442 | Own messages are never emitted, those without an id always, others exactly when new. |
| Lounge.RunInvariant | fbprotocols/irclounge/lounge.go:385-404 | After any stream the window holds only presented ids, every presented id within 50000 of the newest, and at most 50001 ids. |
| Lounge.AnswersLikeUnboundedSet | fbprotocols/irclounge/lounge.go:385-404 | For ids no further back than the window the answer is that of an unbounded set; "seen" is never wrong. |
| Lounge.FewIdsArePublishedOnce | fbprotocols/irclounge/lounge.go:385-442 | A stream that brings at most 50000 different ids is published as in front of an unbounded set, however late its repeats. |
| Lounge.EmitAll | fbprotocols/irclounge/lounge.go:423-442 | Emitting any stream of messages publishes exactly Published of it and leaves the window of others' ids. |
| Lounge.StreamRefinesUnboundedSet | fbprotocols/irclounge/lounge.go:385-442 | If no id of others is repeated from further than the window behind the newest (fresh ids may lie anywhere), a stream publishes what it would in front of an unbounded set. |
| Lounge.OthersOnceEach | fbprotocols/irclounge/lounge.go:423-429 | What an unbounded set publishes: every message of others without an id, and of those with one exactly the first occurrence of each id, in order; never an own message. |
| Lounge.StreamIsPublishedOnce | fbprotocols/irclounge/lounge.go:385-442 | Hence the emitter publishes each id of others in such a stream once, at its first arrival, and every message of others without an id. |
| Lounge.FirstOccurrencesAreDistinct | fbprotocols/irclounge/lounge.go:385-404 | First occurrences of a stream of ids contain every id marked exactly once. |
| Lounge.LateRepeatIsPublishedAgain | fbprotocols/irclounge/lounge.go:394-401 | After ids 1..n a repeated id passes as new if and only if it lies before the window. |
| IrcCloud.StreamState.ProcessMessage | fbprotocols/irccloud/irccloud.go:126-290 | Terminates through all recursion. A tracked message handled before leaves only its registration. Any other leaves exactly: registration, connection, publication for a header; registration, restart, publication for a failed include; all lines handled in between for a fetched include; the history pulled to a proper end for a deferred buffer; registration and publication otherwise. No tracked message is published twice, and the log grows as Takes says, event by event. |
| IrcCloud.StreamState.HandleKind | fbprotocols/irccloud/irccloud.go:141-280 | The effect of each message type: a header connects, a failed include restarts, a fetched include handles all its lines, a deferred buffer pulls its history, others change nothing. |
| IrcCloud.StreamState.HandleOob | fbprotocols/irccloud/irccloud.go:185-201 | The lines of an out-of-band include are handled one after another, each to its end. |
| IrcCloud.StreamState.PullBacklog | fbprotocols/irccloud/irccloud.go:310-340 | Pages are consecutive answers to requests made during the call, all their lines are handled in order, and paging ends only when five requests are used up, the page reaches the known messages, or a request made during the call fails; the log is that of Pulls: request, whole page, next request from before its earliest event. |
| IrcCloud.StreamState.ProcessPage | fbprotocols/irccloud/irccloud.go:318-334 | All lines are handled in order and the lowest positive event id is found. |
| IrcCloud.StreamState.Backlog | fbprotocols/irccloud/irccloud.go:311-317 | Each request is counted before it is made and uses up one of the five slots of its buffer, the measure that makes the recursion end. |
| IrcCloud.StreamState.MarkSeen | fbprotocols/irccloud/irccloud.go:292-308 | Untracked messages always pass, a tracked one exactly the first time. |
| IrcCloud.StreamState.Register | fbprotocols/irccloud/irccloud.go:134-139 | Registering extends the resume point and the seen set to match the log of handled messages. |
| IrcCloud.StreamState.RunStream | fbprotocols/irccloud/irccloud.go:519-576 | Over streams of messages: the log is that of handling them one after another; every message of the stream and every message nested in an untracked include has had its effect, with each deferred buffer pulled to a proper end; at most five backlog requests per buffer, nested ones included; every tracked message is published or had been handled earlier. |
| IrcCloud.AllTakenAreFollowed | fbprotocols/irccloud/irccloud.go:126-340 | In any such log every message, at any depth of untracked includes, is handled and published; a header connected, a failed include restarted, a deferred buffer was pulled from its newest end. |
| IrcCloud.LogIsDetermined | fbprotocols/irccloud/irccloud.go:126-340 | The events logged are a function of the messages and the server's answers: two logs of the same messages from the same start are equal. |
| IrcCloud.ResumePointIsHighest | fbprotocols/irccloud/irccloud.go:134-197 | The resume point is the highest event id handled since the last failed out-of-band fetch, zero if there is none. |
| IrcCloud.StreamIsLastConnected | fbprotocols/irccloud/irccloud.go:142-197 | The stream id is that of the last header since the last failed out-of-band fetch. |
| IrcCloud.EarliestIsLowest | fbprotocols/irccloud/irccloud.go:318-334 | The earliest event of a page is its lowest positive event id, zero exactly if there is none. |
| IrcCloud.ExtendsAround | fbprotocols/irccloud/irccloud.go:126-290 | Handling first and publishing last keeps publication at most once, whatever was handled in between. |
| EngineIo.DecodeTextPackets | fbprotocols/irclounge/engineio.go:163-189 | The loop and its recursion over separated parts compute Decode. |
| EngineIo.DecodedWellFormed | fbprotocols/irclounge/engineio.go:163-189 | Whatever bytes arrive, every decoded packet is well-formed. |
| EngineIo.PayloadRoundTrip | fbprotocols/irclounge/engineio.go:155-189 | Decoding the separated encodings of a list returns the list if and only if every packet is well-formed. |
| EngineIo.UnseparatedRoundTrip | fbprotocols/irclounge/engineio.go:155-189 | Decoding the bare concatenation returns the list if and only if it is well-formed and only its last packet may carry data. |
| EngineIo.DecodeIsStable | fbprotocols/irclounge/engineio.go:155-189 | Re-encoding whatever was decoded decodes to the same packets. |
| EngineIo.EioSession.TakePacket | fbprotocols/irclounge/engineio.go:204-214 | The switch on one packet: a ping uses up one write and fails with it, a close empties the buffer, messages and upgrades are buffered. |
| EngineIo.EioSession.HandleBody | fbprotocols/irclounge/engineio.go:203-215 | Handling stops exactly at FirstStop, the messages before it are buffered in order, and each ping before it used up one write. |
| EngineIo.FirstStopIsFirst | fbprotocols/irclounge/engineio.go:203-215 | FirstStop is the first close or unanswerable ping: no close before it, every ping before it answered. |
| EngineIo.ReadEnds | fbprotocols/irclounge/engineio.go:191-217 | What the first body does to a read: a close before any unanswerable ping is handed over and leaves the buffer empty; an unanswerable ping is reported and leaves the messages before it; otherwise the first message is handed over and the rest buffered, and with no message reading goes on with the next poll. |
| EngineIo.EioSession.PollOnce | fbprotocols/irclounge/engineio.go:198-215 | One turn either ends the read as ReadPolls says or has handled the whole first body. |
| EngineIo.PolledIsAccounted | fbprotocols/irclounge/engineio.go:191-217 | Every message of the bodies a read polls is handed over, left in the buffer or lost, in order and once, and the bodies not polled are untouched. |
| EngineIo.HandledIsAnswered | fbprotocols/irclounge/engineio.go:203-208 | Every ping a read handles is answered by a successful write, and no close is among the packets handled. |
| EngineIo.EioSession.ReadPacket | fbprotocols/irclounge/engineio.go:191-217 | Result, buffer, remaining polls and remaining writes are exactly those of Read on the state before the call; all messages are kept if and only if something was buffered or KeepsAll held of the polls and writes to come. |
| EngineIo.NothingLostIff | fbprotocols/irclounge/engineio.go:191-217 | A read keeps every message if and only if something is buffered already, or the first body that stops it has no message at all when it closes, none from its unanswerable ping on otherwise; a condition on the inputs alone. |
| EngineIo.PongFailureLosesMessage | fbprotocols/irclounge/engineio.go:203-208 | A session that shows the loss: one body with a ping and a message and no way to write ends with an error, an empty buffer and nothing left to read. |
| Fingerprint.UrllibQuoteAscii | fbprotocols/xhs/fingerprint.go:124-141 | The loop computes the bytewise quoting. |
| Fingerprint.ReconstructQuoted | fbprotocols/xhs/fingerprint.go:96-115 | The split and reconstruct loop computes Reconstruct, short segments and bad escapes included. |
| Fingerprint.QuoteReplay | fbprotocols/xhs/fingerprint.go:96-141 | For every byte string the replay returns the input from its first unsafe byte on, fails exactly on all-safe input, and never meets a short or malformed segment. |
| Fingerprint.ReplayIsIdentity | fbprotocols/xhs/fingerprint.go:88-115 | It is the identity if and only if the first byte is unsafe. |
| Wbi.UriEncodeCaps | fbprotocols/bilibili/wbi.go:146-162 | The rune loop computes UriEncode. |
| Wbi.EncodeRoundTrip | fbprotocols/bilibili/wbi.go:146-162 | Percent-decoding (RFC 3986, section 2.1) returns the encoded string if and only if it is valid UTF-8. |
| Wbi.EncodedAlphabet | fbprotocols/bilibili/wbi.go:143-162 | Encoded text holds only unreserved bytes (RFC 3986, section 2.3) and '%', never a delimiter. |
| Wbi.OnlyUnreservedStay | fbprotocols/bilibili/wbi.go:146-162 | Nothing is escaped without need: a string is left as it is if and only if all its bytes are unreserved. |
| Wbi.BuildQuery | fbprotocols/bilibili/wbi.go:117-126 | Collecting, sorting and joining gives one query per map, whatever order the keys are visited in. |
| Wbi.QueryRoundTrip | fbprotocols/bilibili/wbi.go:117-126 | A server reads the query back as exactly the map if and only if all keys and values are valid UTF-8. |
| Wbi.SignedRoundTrip | fbprotocols/bilibili/wbi.go:107-141 | The signed query reads back as the caller's parameters plus wts and w_rid if and only if clock text and the caller's other parameters are valid UTF-8. |
| Wbi.SigningRequest.WbiSign | fbprotocols/bilibili/wbi.go:107-141 | The map gains wts and the hex digest of query plus mixin key, and the result is the query of the new map; without a key nothing changes. |
| Wbi.SignatureCoversQuery | fbprotocols/bilibili/wbi.go:107-141 | The signed query without its w_rid pair is the hashed text if and only if the caller's map held no w_rid, which the retry violates. |
| Wbi.DropSignatureOfQuery | fbprotocols/bilibili/wbi.go:127-140 | Removing the w_rid pair from a query text gives the query of the map without w_rid. |
| Wbi.WbiMixinFromKeys | fbprotocols/bilibili/wbi.go:39-51 | The key has 32 bytes if and only if the two raw keys have more than 58 together; byte i is then the raw byte at entry i of the table. |
| Wbi.HexStringReads | fbprotocols/bilibili/wbi.go:127-129 | The digest text has two lower-case digits for each byte, the higher half first, and reads back as the digest. |
| SortedKeys.SortedListingIsUnique | fbprotocols/bilibili/wbi.go:117-121 | Two ascending listings of one set are equal, so map order cannot show. |
| SortedKeys.SortStrings | fbprotocols/bilibili/wbi.go:117-121 | Visiting a set in any order and sorting gives its one ascending listing. |
| SortedKeys.LessIsLexicographic | fbprotocols/bilibili/wbi.go:117-121 | The order of the keys is byte-wise lexicographic: the first differing byte decides, a proper prefix comes first. |
| Utf8.EncodeDecoded | fbprotocols/bilibili/wbi.go:148-158 | Re-encoding a well-formed rune gives the bytes it was decoded from. |
| Utf8.DecodeEncoded | fbprotocols/bilibili/wbi.go:148-158 | Decoding an encoded scalar value returns it with its width. |
| Utf8.SanitiseIsIdentity | fbprotocols/bilibili/wbi.go:148-158 | A pass through runes keeps a string if and only if it is valid UTF-8, and lengthens it otherwise. |
| ChargeControl.Thresholds.SetThresholds | fbprotocols/chargectl/chargectl.go:45-74 | A pair is accepted exactly when it is a window, and whatever was tried the window in force is a valid one. |
| ChargeControl.WriteValue | fbprotocols/chargectl/ctrl_linux.go:603-623 | Succeeds exactly when the node already reads as the value or one of the first twelve attempts works; the node then holds the value, and otherwise nothing changed. |
| ChargeControl.DecimalDenotes | fbprotocols/chargectl/ctrl_linux.go:433-453 | The text written denotes the percentage in decimal digits without a leading zero. |
| ChargeControl.ControlLoop.ProbeControllerSkip | fbprotocols/chargectl/ctrl_linux.go:549-559 | The first candidate that is available and whose label is not on the bad list; none exactly if there is no such candidate. |
| ChargeControl.ControlLoop.ApplyThreshold | fbprotocols/chargectl/ctrl_linux.go:433-447 | End limit first, then start limit, degrading to end-only when the start write fails. |
| ChargeControl.ControlLoop.ApplySwitch | fbprotocols/chargectl/ctrl_linux.go:211-244 | At or above pause disable, at or below resume enable, between them leave everything alone. |
| ChargeControl.ControlLoop.CheckEffective | fbprotocols/chargectl/ctrl_linux.go:346-359 | The count rises by one exactly when the capacity is at or above pause on wall power and the battery is charging or has risen since the last check, otherwise it is zero; the capacity is remembered. |
| ChargeControl.ControlLoop.Begin | fbprotocols/chargectl/ctrl_linux.go:110-132 | The first probe and, if it finds a node, the first check. |
| ChargeControl.ControlLoop.OnTick | fbprotocols/chargectl/ctrl_linux.go:134-161 | One tick of the loop: look for a node, or give one up after three failures or strikes, then check. |
| ChargeHistory.TogglingIsBounded | fbprotocols/chargectl/ctrl_linux.go:211-244 | For any capacity trace and any write failures, T setting changes need at least T - 1 times (pause - resume) of travelled capacity. |
| ChargeHistory.SettingsAreExplained | fbprotocols/chargectl/ctrl_linux.go:211-244 | Along every trace each change of the setting is to disabled at or above pause, or to enabled at or below resume. |
| ChargeHistory.TravelledSinceLastChange | fbprotocols/chargectl/ctrl_linux.go:211-244 | The stronger invariant behind it: the last change is explained by its capacity, and the way travelled since then counts on top of the gaps before. |
| ChargeHistory.LastDecisionDecides | fbprotocols/chargectl/ctrl_linux.go:211-244 | The setting is the one asked for by the last reading at or beyond a threshold whose write succeeded. |
| ChargeHistory.LimitsAreOrdered | fbprotocols/chargectl/ctrl_linux.go:433-453 | A threshold node only ever holds its old limits or the requested ones, no other file changes, and the start limit never moves before the end limit is in force. |
| ChargeHistory.DegradingIsForGood | fbprotocols/chargectl/ctrl_linux.go:433-453 | Once degraded to end-only at some point of a trace, the node stays so at every later one and its start limit is not written again. |
| ChargeHistory.LoopKeepsInv | fbprotocols/chargectl/ctrl_linux.go:110-161 | In every run the counters are bounded by the ticks since the last choice and every abandoned label is on the bad list. |
| ChargeHistory.RunLoop | fbprotocols/chargectl/ctrl_linux.go:110-161 | The loop, from its start through any ticks, is LoopAfter; so its selections are distinct labels, fewer switches than labels, three ticks apart. |
| ChargeHistory.BackendsAreNeverRevisited | fbprotocols/chargectl/ctrl_linux.go:110-161 | With nodes coming and going arbitrarily, an abandoned label is never chosen again, there are fewer switches than labels, and choices are at least three ticks apart. |
| ChargeVerdicts.LevelCheck | fbprotocols/chargectl/ctrl_linux.go:450-453 | An end-only node holds the pause level after every check whose write can be made, and nothing else changes. |
| ChargeVerdicts.ThresholdCheck | fbprotocols/chargectl/ctrl_linux.go:433-447 | The end limit is in force after every check whose write can be made, and the start limit then too; a start limit that cannot be written degrades the node, and a failed end write changes nothing. |
| ChargeVerdicts.SwitchCheck | fbprotocols/chargectl/ctrl_linux.go:211-244 | At or above pause a switch node whose write can be made holds the stop value, at or below resume the allow value, and in between nothing at all changes. |
| ChargeVerdicts.CheckCountsVerdict | fbprotocols/chargectl/ctrl_linux.go:165-359 | What one check finds, stated without the step functions: a write counts as made or failed, a strike as struck or cleared, and between the thresholds of a switch node or without a readable capacity nothing counts. |
| ChargeVerdicts.CountersStandForVerdicts | fbprotocols/chargectl/ctrl_linux.go:110-359 | In every run the two counters are the lengths of the current streaks of failed writes and of strikes since the node was chosen or last given up. |
| ChargeVerdicts.GivenUpIffFailing | fbprotocols/chargectl/ctrl_linux.go:110-161 | In every run, with nodes coming and going and windows changing, a node is given up on a tick if and only if, since it was chosen or last given up, its last three counted writes failed or its last three strike checks were strikes; then its label and nothing else goes on the bad list and the first available candidate not on the list takes over, if there is one; on every other tick the node stays. |
| SmcCodec.Be32RoundTrip | fbprotocols/chargectl/smc_codec.go:50-60 | Writing and reading a big-endian word are inverse in both directions. |
| SmcCodec.PutU32 | fbprotocols/chargectl/smc_codec.go:50-55 | Exactly four bytes of the buffer change. |
| SmcCodec.Le32RoundTrip | fbprotocols/chargectl/smc_codec.go:119-128 | The little-endian percentage codec is a bijection. |
| SmcCodec.WordsArePositional | fbprotocols/chargectl/smc_codec.go:50-128 | The first byte of a word weighs most in key fields and least in percentages. |
| SmcCodec.FourCc | fbprotocols/chargectl/smc_codec.go:28-41 | Accepts exactly texts of one to four bytes, and the shift loop gives the big-endian code of the padded text. |
| SmcCodec.KeyNameRoundTrip | fbprotocols/chargectl/smc_codec.go:28-47 | A key text survives packing and printing if and only if it does not end in NUL. |
| SmcCodec.KeyCodesAreDistinct | fbprotocols/chargectl/smc_codec.go:28-47 | Distinct key texts never share a code, NUL endings aside. |
| SmcFirmware.SmcHandle.CallStruct | fbprotocols/chargectl/smc_darwin.go:136-153 | Success needs both a zero return code and a zero status byte; what the device then did or answered. |
| SmcFirmware.SmcHandle.KeySize | fbprotocols/chargectl/smc_darwin.go:156-173 | Returns the key's data size, and with a fault-free message succeeds exactly when it lies in 1..32. |
| SmcFirmware.SmcHandle.ReadKey | fbprotocols/chargectl/smc_darwin.go:176-193 | Returns the stored bytes, changes no register, and succeeds on a fault-free device for every readable key. |
| SmcFirmware.SmcHandle.WriteKeyRaw | fbprotocols/chargectl/smc_darwin.go:233-248 | One message; success means stored, failure means stored or untouched, no other register changes; a fault-free message succeeds if and only if the key exists with the value's length. |
| SmcFirmware.SmcHandle.WriteKey | fbprotocols/chargectl/smc_darwin.go:196-205 | A value of the wrong length is rejected before anything is written; on a fault-free device writing succeeds if and only if the key is readable and the length is the key's. |
| SmcFirmware.SmcHandle.WindowIsSet | fbprotocols/chargectl/smc_darwin.go:214-220 | True only if the limit is active with the requested window, and true whenever that is so and can be read. |
| SmcFirmware.SmcHandle.WriteFirmware | fbprotocols/chargectl/smc_darwin.go:211-230 | At every message, with any of them failing or failing after having taken effect, an active limit is entirely the old one, which was active, or entirely the requested one; success means active with the requested lower and upper value in their registers, least significant byte first; on a fault-free device it succeeds if and only if the three registers exist with their sizes; other registers are untouched; if it was set already nothing is written. |
| SmcFirmware.WriteWindows | fbprotocols/chargectl/smc_darwin.go:211-230 | Over any number of updates, each failing or not, an active limit is at every message the original active one or one of those requested so far; a fault-free device takes them all. |

## Left out

- TiebaPosts.FetchLatestPosts: requires that the paging loop ends against the server, which the source takes for granted; `TiebaPosts.PagingEndsIff` says exactly when it does.
- TiebaNewest.NewestOfThread: `has_more` is read as announcing older pages, which the loop relies on without saying so; floors posted between two requests are not covered.
- TiebaHistory.EveryFloorIsPublished: speaks of floors fetched; of more than five new floors between two visits the older ones are never fetched, as the source's comments say.
- Throttle.WaitAfterHit: supposes that no other request reads a later clock than the wake-up time.
- RoomCache.AttributesAreLastSupplied: the name, which follows quality as well, is left to `RoomProfile.MergeIsExact` and `RoomCache.CachedRoomNeverDegrades`.
- RoomCache.FetchesAreSpacedOut: excludes a host rebind and a restore, which empty or refill the maps the spacing rests on, and sync readings older than its skew (`RoomCache.StaleSyncForgetsFetch`).
- RoomCache.CachedRoomNeverDegrades: excludes a restore, which replaces the cached room, and speaks of the recorded quality only, since a name repeated with a better quality does not raise it.
- MemberProfile.AttemptsAreSpacedOut: excludes a host rebind, which forgets all attempts.
- RoomCache.ProfileCache.NoteProfiles: profiles are values, so pointer sharing between a caller's profile and the cache is not captured, nor is FetchedAt.
- BackfillQueue.PendingRoomsArePartitioned: each lock-protected section, channel operation and phase of a task is one atomic step on values; the two pending sets appear as one set of tagged keys, and the memory model below that is not captured.
- IrcCloud.StreamState.ProcessMessage: server, status, shard, idle and channel messages count as other; joins, server checks and the second, unified publication are not modelled, and publication always succeeds.
- IrcCloud.StreamState.PullBacklog: event ids are natural numbers, so the conversion of ids beyond 2^63 to a signed request position is not captured.
- IrcCloud.StreamState.RunStream: authentication, redirects and reconnection only decide which messages arrive.
- TiebaThreads.Poller.ProcessLatestPosts: one clock reading per call, and no persistence of the pid set (its loader returns early because the map is never nil).
- TiebaHistory.PollLoop: the state file, its migration and the order in which forums are shuffled are inputs.
- Lounge.SeenIds.Emit: one record per message stands for its raw and unified publications.
- Wbi.SigningRequest.WbiSign: MD5 is an arbitrary function; key retrieval and the nil map are not modelled, and the table's second half is omitted since the loop stops before it.
- Fingerprint.QuoteReplay: the JSON payload, the stream cipher and the custom base64 around the replay are not modelled.
- EngineIo.EioSession.ReadPacket: after a failed write or poll the caller may read again or reconnect; what the server then repeats is not modelled, nor are the handshake, session close and request headers.
- ChargeControl.ControlLoop.OnTick: battery, plug and charging readings are inputs of the tick, the window is read once per tick, and label, warning and status fields that only reach the log are dropped; the charge_type hint and Release are not modelled.
- ChargeControl.ControlLoop.ApplySwitch: as in the source, readings between the thresholds do not reset the strike count, so strikes need not be consecutive ticks.
- ChargeHistory.TogglingIsBounded: for a fixed window and readable capacities; unreadable ones change nothing.
- SmcFirmware.AppleSmc.Transfer: the device is an abstract register file with a fault per message, not IOKit.
- HTTP, WebSocket, JSON decoding, disk writes, message payload formats, login, fedbridge, battery and system readers, per-site hot boards and the macOS adapter loop are not modelled.
- Joined-members seeding and per-user fetches of resolveMember, hexBytes, bfclValue and smcStopAllow would only add easy members.
