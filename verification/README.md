# Wings daemon: verified models

Wings is the daemon that runs game servers for a control panel. This project models the parts of it
whose correctness is hardest to see from the code, and proves what they promise: over every input,
every split of a stream into reads, every failure point and every interleaving.

- **File history** (`HistoryTable.dfy`, `HistoryStore.dfy`, `HistoryStall.dfy`,
  `HistoryDeepChain.dfy`): revisions stored as zstd snapshots and
  deltas in chains, pruned by chain count and by bytes. Every surviving revision within the walk
  limit reads back as the bytes recorded for it.
- **Content search** (`ContentSearch.dfy`, `Utf8.dfy`): Knuth-Morris-Pratt matching over a budgeted,
  limited, cancellable stream, behind a UTF-8 text test on the head. It agrees with naive search.
- **Network policy** (`NetworkWorld.dfy`, `NetworkReconciler.dfy`, `NetworkWakeup.dfy`): bringing the
  firewall and shapers of a running container to the policy on disk, failing closed, and the
  scheduling of the background worker.
- **Concurrent search** (`SearchPool.dfy`, `SearchTrails.dfy`): a worker pool over a counted job
  channel, equivalent to a sequential walk, which finds a match for every way down the tree to it.
- **Power lock** (`PowerLock.dfy`): the one-slot lock that keeps power actions apart.
- **Resumable uploads** (`UploadSessions.dfy`, `UploadAppend.dfy`, `UploadRequests.dfy`): token
  sessions, the append protocol, and both together.
- **Multipart quota** (`UploadQuota.dfy`): the clamped simulation of disk growth.
- **Console sanitizer** (`TerminalSanitizer.dfy`): which bytes reach a terminal.
- **Fingerprints** (`Fingerprint.dfy`): streaming MurmurHash2.
- **Largest directories** (`LargestDirectories.dfy`): saturating subtree totals and the cutoff.
- **Paths** (`Paths.dfy`): canonical roots and joins.

`dafny verify dfyconfig.toml` checks everything.

## How to read the models

Code that changes state step by step is a class or a method with a loop; pure code is a function.
Concurrent code is a state machine: `Enabled` says which steps are possible, `Do` what they do, and
theorems are about every state of every `Run`. Whatever the program cannot control (how much a read
returns, whether a system call fails, in which order a map is visited, when a request is cancelled)
is left undetermined. Where an operation can fail, its contract also says what a failure means, so
that an implementation that always fails does not meet it, unless the failure itself comes from
outside.

Some promises hold only under a condition. Each is given with its condition and with an input on
which the promise fails:

- A revision reads back if and only if its chain walk has at most 1000 rows
  (`HistoryTable.ReconstructionExact`). An anchor interval above 1000 lets a delta be written that
  cannot be read back. `HistoryStore.Store.Record` says when: the newest row is the last one the walk
  reaches, the interval lets the chain grow, and the delta is worth storing.
  `HistoryDeepChain.LastRevisionIsLost` is such a chain. With intervals up to 1000 it never happens
  (`HistoryStore.Run`).
- When the newest revision already carries the digest of the new content, nothing is stored and its
  id is returned (`HistoryStore.Store.Record`). No freedom from collisions is assumed, so this id reads
  back as the new content only if that is what it holds; `HistoryStall.EqualDigest` is a store where it
  does not.
- Server-wide pruning ends within the budget or with nothing left to drop if and only if it does not
  meet an oldest chain without bytes before that (`HistoryStore.Stalls`,
  `HistoryStore.Store.PruneServerHistory`), because the loop stops when a drop frees nothing.
  `HistoryStall.PruneStalls` is a store on which it stops early; with non-empty payloads it never does
  (`HistoryStore.FullPayloadsNeverStall`).
- A reported "applied" is true of the kernel if the status read was live and had the lock; otherwise
  it is the stored status, which drift can make untrue (`NetworkReconciler.Environment.ReadStatus`,
  `NetworkReconciler.ContendedRead`).
- New settings store the policy that came with them if and only if its revision and hash do not pass
  for another policy on disk (`NetworkReconciler.Environment.SetSettings`,
  `NetworkReconciler.CollidingSettings`).
- A request can succeed after another one has completed the upload with the same token, namely if it
  was bound before that: the token is not looked at again under the target's lock
  (`UploadRequests.Run`, `UploadRequests.Overlap`).
- A token serves one target as long as requests use the times they read in order, or the token store
  takes no token for new twice. The time is read before the registry is locked, so the first is not
  guaranteed (`UploadSessions.Registry.Bind`, `UploadSessions.StaleRebind`).
- A rejected append leaves the file as it was, unless truncating back failed, which leaves a part of
  the body, or closing or handing over the file failed, which leaves all of it
  (`UploadAppend.Target.Patch`, `UploadAppend.TornAppend`).

After a failed policy write the published error replaces the one of the reconcile that follows, and
with it the reason why a container could not be quarantined
(`NetworkReconciler.Environment.FailedSave`). Which calls fail is undetermined there, so no single run
is given.

The per-file byte budget never has an effect: its loop refuses to go below the number of chains that
the step before has already reached (`HistoryStore.Store.EnforceFileBudget`).

## Model

| member | source | states |
|---|---|---|
| HistoryTable.Codec.EncodeDelta | server/file_history.go:776-791 | a delta that is handed out decodes back to the content against its base |
| HistoryTable.RebuildYieldsRecorded | server/file_history.go:703-740 | in a linked table whose payloads are faithful, decoding along the chain yields the recorded bytes of any row |
| HistoryTable.ReconstructionExact | server/file_history.go:703-740 | a row reads back as recorded if and only if its walk is within 1000 rows, and fails as unanchored otherwise |
| HistoryTable.DepthWithinChain | server/file_history.go:703-720 | a walk never visits more rows than the chain has |
| HistoryTable.AllReconstruct | server/file_history.go:703-740 | when all chains are within the walk limit every surviving row reads back as recorded |
| HistoryTable.NextId | server/file_history.go:486-509 | a new row id is above all present ones |
| HistoryTable.AddKeepsLinked | server/file_history.go:486-551 | inserting a snapshot or a delta keeps every base an earlier row of the same file and chain |
| HistoryTable.AddKeepsFaithful | server/file_history.go:486-551 | inserting keeps every payload decodable to what was recorded |
| HistoryTable.AddKeepsDepth | server/file_history.go:486-551 | inserting changes no existing walk |
| HistoryTable.DeltaReadableIff | server/file_history.go:306-321 | a new delta reads back if and only if its base is not the last row within the walk limit |
| HistoryTable.AddKeepsChainsAtMost | server/file_history.go:465-469 | adding to a chain shorter than a bound keeps all chains within it |
| HistoryTable.DropKeepsInvariants | server/file_history.go:595-689 | dropping whole chains keeps the table linked and faithful |
| HistoryTable.DropKeepsDepth | server/file_history.go:595-689 | dropping whole chains changes no walk that remains |
| HistoryTable.DropKeepsChainsAtMost | server/file_history.go:595-689 | dropping whole chains keeps chain bounds |
| HistoryTable.DropChainChains | server/file_history.go:647-652 | dropping a chain takes exactly that chain id from its file and nothing from other files |
| HistoryTable.DropChainFrees | server/file_history.go:691-701 | the bytes of the table before are those after plus those of the dropped chain |
| HistoryTable.NewestByThreshold | server/file_history.go:595-621 | a chain is among the newest k exactly when its id is at least that of the last one selected |
| HistoryTable.NewestCount | server/file_history.go:595-621 | the newest k of a set are k, or all when there are fewer |
| HistoryStore.Latest | server/file_history.go:441-454 | the newest row of a file, or that it has none |
| HistoryStore.Oldest | server/file_history.go:660-672 | the chain whose first revision is oldest, ties by id |
| HistoryStore.ReverseChain | server/file_history.go:742-746 | reverses the array in place |
| HistoryStore.CollectChain | server/file_history.go:703-720 | succeeds exactly when the row exists and its walk is within the limit, and fetches the rows from it to its snapshot |
| HistoryStore.Reconstruct | server/file_history.go:703-740 | returns exactly the reconstruction: the content, or the reason |
| HistoryStore.OldChainsPruned | server/file_history.go:595-621 | deleting below the threshold drops whole chains and keeps exactly the newest |
| HistoryStore.DropOneDroppable | server/file_history.go:655-689 | dropping a droppable chain empties no file and spares the protected chain |
| HistoryStore.NewestPrunes | server/file_history.go:327-333 | pruning to the newest chains keeps the chain of the newest row |
| HistoryStore.RecordSummary | server/file_history.go:251-341 | after append and prunes the new row survives, and every other survivor has its old content |
| HistoryStore.Store.constructor | server/file_history.go:234-249 | a new store is empty and valid |
| HistoryStore.Store.UpsertFile | server/file_history.go:416-430 | the id of the path, new only if the path is new |
| HistoryStore.Store.InsertEncodedSnapshot | server/file_history.go:486-509 | adds one row that starts a chain named after its id |
| HistoryStore.Store.InsertSnapshot | server/file_history.go:471-484 | adds the snapshot, or changes nothing exactly when encoding fails |
| HistoryStore.Store.InsertEncodedDelta | server/file_history.go:533-551 | adds one row to the chain of its base |
| HistoryStore.Store.InsertCompact | server/file_history.go:511-531 | stores the delta exactly when it is smaller than nine tenths of the snapshot, else the snapshot |
| HistoryStore.Store.InsertFirst | server/file_history.go:284-292 | a first change stores both contents: the one before as a snapshot without user one millisecond earlier, the new one with its user and time, in the same chain exactly when the delta is worth storing; otherwise each starts a chain |
| HistoryStore.Store.AppendRevision | server/file_history.go:282-325 | adds the new content as newest row of the file with its user and time, based on the latest row exactly when a delta against it is made, beyond the walk limit exactly when that row is the last reachable one, and keeps chains within max(2, anchor interval); a first change stores both contents |
| HistoryStore.Store.AppendTo | server/file_history.go:298-324 | succeeds exactly when the new content can be encoded; the row is based on the latest one exactly when the chain may grow, that row can be read and the delta is worth storing |
| HistoryStore.PriorSurvives | server/file_history.go:284-336 | what the two prunes do to the content before a first change: kept with a delta, kept with two chains when the server prune drops nothing, gone when one chain is kept |
| HistoryStore.Store.PruneOldChains | server/file_history.go:595-621 | the file keeps exactly its newest chains, whole, and other files everything |
| HistoryStore.Store.DropOldestChain | server/file_history.go:623-653 | drops exactly the lowest unprotected chain of a file with more than the minimum, else nothing, and reports its bytes |
| HistoryStore.Store.EnforceFileBudget | server/file_history.go:562-571 | terminates and changes nothing once the file is down to its minimum of chains |
| HistoryStore.Store.PruneHistory | server/file_history.go:553-572 | whatever the byte budget, the file ends with exactly its newest max(KeepChains, 1) chains |
| HistoryStore.Store.DropGloballyOldest | server/file_history.go:655-689 | drops exactly the oldest droppable chain of all files and reports its bytes |
| HistoryStore.Store.PruneServerHistory | server/file_history.go:574-593 | empties no file, spares the protected chain, drops only from a table over budget, and for a non-zero budget ends within it or with nothing droppable if and only if the table before the call does not stall |
| HistoryStore.StallStep | server/file_history.go:584-592 | dropping a chain that holds bytes leaves the question of a stall open, dropping an empty one decides it |
| HistoryStore.FullPayloadsNeverStall | server/file_history.go:574-593 | as long as every payload holds something pruning never stops early |
| HistoryStore.EmptyOldestStalls | server/file_history.go:584-592 | an empty oldest chain before two others stalls any table of single snapshots over budget, whichever other chain is protected |
| HistoryStall.PruneStalls | server/file_history.go:327-336 | a valid store whose newest chain is protected, as after recording it, on which pruning stops over budget with a droppable chain left |
| HistoryStall.EqualDigest | server/file_history.go:299-301 | a store on which recording returns the id of a revision with the same digest and another content |
| HistoryStore.Store.Record | server/file_history.go:251-341 | the returned id reads back as the new content if and only if the newest row does not already carry its digest (then: if and only if that row holds the content within the walk limit) and the change is not a delta beyond the walk limit; it carries user, time and the right base; the content before a first change is kept with a delta and, with two chains kept and no server budget, without one, and goes when one chain is kept; a failure leaves no trace and has its cause; limits hold |
| HistoryDeepChain.NextChangeIsTooDeep | server/file_history.go:306-321 | with an anchor interval above 1000 a valid chain of 1000 alternating contents meets the condition under which the next change is lost |
| HistoryDeepChain.LastRevisionIsLost | server/file_history.go:703-720 | the row stored then fails as unanchored while the thousand before it read back |
| HistoryStore.Store.DeleteFile | server/file_history.go:397-402 | exactly the file of the path and its rows go |
| HistoryStore.Store.RenameFile | server/file_history.go:404-409 | the path changes and the rows stay, unless another file has the new path |
| HistoryStore.Store.ReadContent | server/file_history.go:378-395 | returns the recorded content and the current path of a row within the walk limit, else why not |
| HistoryStore.Run | server/file_history.go:251-409 | after every sequence of changes, deletions and renames every surviving row reads back as the content that its operation recorded, and the id an operation returned reads back as its new content up to the digest until it is deleted or reused |
| Utf8.DecodeExact | router/router_server_files_search_v2.go:684-696 | the decoder accepts exactly the characters of section 4 of RFC 3629 and reports their width |
| Utf8.IncompleteRuneExtends | router/router_server_files_search_v2.go:686-688 | bytes without a full rune can be completed to well-formed text |
| Utf8.ValidTextHead | router/router_server_files_search_v2.go:684-696 | accepts exactly the byte strings that some suffix makes well-formed UTF-8 |
| ContentSearch.FallbackSkips | router/router_server_files_search_v2.go:713-721 | no prefix between the current match and its failure entry ends the text |
| ContentSearch.Advance | router/router_server_files_search_v2.go:759-764 | the state stays the longest pattern prefix that ends the text, and the fallback terminates |
| ContentSearch.BorderIsSelfMatch | router/router_server_files_search_v2.go:713-721 | the longest proper border of a prefix is its longest match against its own tail |
| ContentSearch.NewMatcher | router/router_server_files_search_v2.go:705-727 | the pattern is the folded query and the failure table holds longest proper borders |
| ContentSearch.FillFailure | router/router_server_files_search_v2.go:712-721 | the table it returns holds the longest proper border of every prefix |
| ContentSearch.FoldIdentifies | router/router_server_files_search_v2.go:698-703 | folding maps two bytes to the same one exactly when they are equal or the two cases of one letter |
| ContentSearch.OccursSnoc | router/router_server_files_search_v2.go:765-767 | a pattern newly occurs only by ending with the new byte |
| ContentSearch.LimitedFile.BudgetedRead | router/router_server_files_search_v2.go:605-621 | delivers the next bytes, charges them to the budget and never takes it below zero |
| ContentSearch.LimitedFile.Read | router/router_server_files_search_v2.go:656-660 | delivers the next bytes the limit lets through, ends exactly with them, and charges exactly what it takes from the file |
| ContentSearch.LimitedFile.ReadFull | router/router_server_files_search_v2.go:661-665 | the head and what is left make up what was left before, and exactly the head is charged |
| ContentSearch.Stream.Read | router/router_server_files_search_v2.go:670 | the replayed head and the rest of the file appear as one stream cut at the limit; replaying charges nothing |
| ContentSearch.ScanChunk | router/router_server_files_search_v2.go:755-768 | a chunk hits exactly when the pattern occurs in everything read so far |
| ContentSearch.ReadAndScan | router/router_server_files_search_v2.go:747-778 | one turn: an answer is the answer for the whole stream, an error has its cause |
| ContentSearch.StreamSearch | router/router_server_files_search_v2.go:731-779 | true exactly when the folded query occurs in the folded stream, for every split into reads; every byte taken from the file is charged once; an error has its cause |
| ContentSearch.SearchFile | router/router_server_files_search_v2.go:623-680 | a file is reported exactly when its size, its head and its content match the filters; it is charged at most once per byte and not at all when its size does not match; the read limit is reported only when the content reaches what was left of it |
| NetworkWorld.CeilingBinds | internal/networkpolicy/policy.go:126-145 | an administrator ceiling bounds every effective rate, and nothing required means no shaping |
| NetworkWorld.OwnRateBinds | internal/networkpolicy/policy.go:135-145 | a rate is the policy's own or the ceiling, never above a positive rate of the policy, and the policy's own whenever that is within the ceiling |
| NetworkWorld.RequiredExactly | internal/networkpolicy/policy.go:126-132 | a policy is required exactly when it has a firewall or an effective rate |
| NetworkReconciler.Environment.MatchLinks | environment/docker/network_policy.go:1191-1221 | a pair of devices is found exactly when the bridge has one link, the container one interface beside the loopback, each is the other's peer and the interface has the endpoint's address; the pair is then these two |
| NetworkReconciler.Environment.PublishApplied | environment/docker/network_policy.go:1065-1083 | "applied", with its revision, is published exactly for a numbered and hashed policy, the one on disk, while it is in force or asks for nothing |
| NetworkReconciler.Environment.VerifyPolicy | environment/docker/network_policy.go:1128-1233 | success on a managed container means that it runs, its attachment and bindings are as expected, and rules and both shapers read back as the policy |
| NetworkReconciler.Environment.VerifyNetwork | environment/docker/network_policy.go:1106-1124 | the same under the runtime lease |
| NetworkReconciler.Environment.GateNetwork | environment/docker/network_policy.go:447-460 | success means the drop rules read back |
| NetworkReconciler.Environment.CloseNetwork | environment/docker/network_policy.go:413-438 | success means gated or killed, and only a container with the server's identity is touched |
| NetworkReconciler.Environment.FailSynced | environment/docker/network_policy.go:1334-1359 | a rejected change ends stopped, quarantined or with the reason recorded |
| NetworkReconciler.Environment.ReplaceLive | environment/docker/network_policy.go:1048-1063 | the ungated replacement is in force on success, and a refusal counts as retained only if the previous policy reads back |
| NetworkReconciler.Environment.GateShapeOpen | environment/docker/network_policy.go:959-1042 | shapers change only behind the gate, and rules open only after both read back at the policy's rates |
| NetworkReconciler.Environment.ApplyManaged | environment/docker/network_policy.go:941-1045 | success on a managed container means the policy is in force and verified; a failure publishes nothing |
| NetworkReconciler.Environment.ApplyPolicy | environment/docker/network_policy.go:876-957 | success means stopped, in force, or nothing to enforce; a failure without protection means none was required |
| NetworkReconciler.Environment.Reconcile | environment/docker/network_policy.go:836-1046 | even after drift: success settles the policy on disk; every failure after the load ends unprotected only if none was required, stopped, quarantined, retained as verified, or recorded |
| NetworkReconciler.Environment.AfterFailure | environment/docker/network_policy.go:849-874 | the deferred handler publishes the failure and closes the network when protection is required |
| NetworkReconciler.Environment.ValidateUpdate | environment/docker/network_policy.go:462-474 | revisions never go back, and under an unchanged revision a policy with another hash must carry the same rules; a conflict is reported only for one of these |
| NetworkReconciler.Environment.CheckSupport | environment/docker/network_policy.go:476-507 | a required policy is refused while an unmanaged container runs, and a conflict has that cause |
| NetworkReconciler.Environment.SavePolicy | environment/docker/network_policy.go:331-349 | success means durable; a failure leaves the old or the new policy |
| NetworkReconciler.Environment.UpdatePolicy | environment/docker/network_policy.go:279-329 | even after drift: an accepted policy is on disk and pending before the worker runs, or was read back as still in force; the policy on disk only moves forward; every refusal changes nothing and every conflict has its cause; after a failed write the visible policy is settled or the failure is explained unless its reason is hidden |
| NetworkReconciler.Environment.FailedSave | environment/docker/network_policy.go:321-324 | after a failed write the visible policy is reconciled, and of what that left behind only a recorded quarantine failure is hidden by the published one |
| NetworkReconciler.Environment.SetSettings | environment/docker/network_policy.go:1270-1332 | even after drift: on success allocations are the new ones, and the policy is the new one if and only if revision and hash do not pass for another policy on disk; then it is settled; every failure is explained, or nothing was changed, or the new policy is pending; every conflict has its cause |
| NetworkReconciler.Environment.SwitchTo | environment/docker/network_policy.go:1311-1331 | saves before it switches the allocations; a policy that passes for the one on disk is not stored; success means settled and every failure is explained |
| NetworkReconciler.CollidingSettings | environment/docker/network_policy.go:1312-1321 | a policy with the revision and hash on disk and other rules is not stored, whatever is answered |
| NetworkReconciler.Environment.ReadStatus | environment/docker/network_policy.go:140-227 | with a live request and the lock, "applied" is reported only when it reads back, even after drift; without either the stored status is returned unchecked, and "applied" is true exactly if it was true before |
| NetworkReconciler.Environment.CheckedStatus | environment/docker/network_policy.go:148-227 | the checked part: what is reported as applied reads back |
| NetworkReconciler.ContendedRead | environment/docker/network_policy.go:144-146 | a contended read does report "applied" over a kernel that drops everything |
| NetworkReconciler.Environment.QuarantineForRead | environment/docker/network_policy.go:196-224 | a failed check gates, kills, or records why not |
| NetworkReconciler.Environment.ReconcilePending | environment/docker/network_policy.go:389-411 | the worker settles the policy on disk or leaves a failed status |
| NetworkReconciler.Environment.PrepareContainer | environment/docker/network_policy.go:630-698 | even after drift: nothing stays published while a container is prepared, and success with protection required means gated |
| NetworkReconciler.Run | environment/docker/network_policy.go:140-1332 | over any sequence of operations with arbitrary drift in between: rules only ever opened on shapers at the policy's rates, shapers only changed behind the gate, revisions never went back, exactly the reads report, and every checked "applied" was true |
| NetworkWakeup.RunKeepsInv | environment/docker/network_policy.go:375-411 | in every interleaving the marker stands for a worker that has not yet passed its lock |
| NetworkWakeup.NoLostWakeup | environment/docker/network_policy.go:375-411 | every schedule call is followed by a worker that later takes the lock and serves a policy at least as new, finds the server really deleted, or gives up its wait; a worker that got the lock never gives up |
| NetworkWakeup.EnteredServes | environment/docker/network_policy.go:398-410 | a worker that has the lock ends by serving a policy at least as new as when it entered, or because the server was deleted |
| NetworkWakeup.FollowsToTheEnd | environment/docker/network_policy.go:389-411 | that worker keeps following the saved policy to the end of the run |
| NetworkWakeup.OneReconcileAtATime | environment/docker/network_policy.go:351-373 | two workers never hold the lock together |
| SearchPool.StepKeepsCounted | router/router_server_files_search.go:341-367 | every step keeps the pending counter equal to the jobs queued, being enqueued or being processed |
| SearchPool.StepRemaining | router/router_server_files_search.go:377-505 | every step conserves the matches found, in flight and still to be found, unless stopped or capped, and never adds any |
| SearchPool.RunKeepsInv | router/router_server_files_search.go:301-505 | the invariant and the conservation hold along every run |
| SearchPool.ClosedOnceAndSafely | router/router_server_files_search.go:341-367 | the job channel closes at most once and never while someone could still send |
| SearchPool.SameAsSequentialWalk | router/router_server_files_search.go:593-602 | without cancellation or cap, when all workers have exited and results are drained, the results are exactly those of the sequential walk |
| SearchPool.NeverMoreThanTheWalk | router/router_server_files_search.go:301-339 | at any time the results are part of the sequential walk's |
| SearchPool.NeverMoreThanTheCap | router/router_server_files_search.go:316-339 | a capped search never collects more than its cap |
| SearchTrails.ChildPathEnds | router/router_server_files_search.go:282-299 | an entry's path is its directory's, one slash and its name |
| SearchTrails.WalkFollowsTheTree | router/router_server_files_search.go:413-485 | the walk finds a match once for every trail of searchable folders, within the depth limit, that leads to a matching entry, and nothing else |
| SearchTrails.SearchFollowsTheTree | router/router_server_files_search.go:377-505 | the same of every concurrent search that was neither stopped nor capped |
| PowerLock.RunKeepsInv | system/locker.go:40-112 | the invariant of mutex, slot and claims holds along every run |
| PowerLock.MutualExclusion | system/locker.go:40-97 | at most one client holds the lock in every interleaving |
| PowerLock.AttemptsAreAnswered | system/locker.go:40-97 | an acquire succeeds exactly when nobody has or is about to have the lock, a pending TryAcquire exactly when the lock is not destroyed, and a release empties the slot |
| PowerLock.NoAcquireAfterDestroy | system/locker.go:101-112 | after Destroy no acquire succeeds any more |
| PowerLock.EmptyAfterDestroy | system/locker.go:101-112 | after Destroy the channel is empty once pending TryAcquire calls have drained |
| PowerLock.ActionsNeverOverlap | server/power.go:86-125 | start, stop and restart of one server never overlap |
| UploadSessions.AddCounts | router/router_resumable_upload.go:176-182 | adding a session keeps the per-server counts exact |
| UploadSessions.RemoveCounts | router/router_resumable_upload.go:206-212 | removing one keeps them exact and keeps no zero entry |
| UploadSessions.PruneRemembers | router/router_resumable_upload.go:200-218 | after a prune at any time every past event is still accounted for by a live session or an expiry |
| UploadSessions.BindConsistent | router/router_resumable_upload.go:161-188 | a bind that agrees with the live session, or is the first of its token, agrees with all binds before it, and none follows a retirement |
| UploadSessions.Registry.PruneExpired | router/router_resumable_upload.go:200-218 | the lazy prune leaves exactly the live sessions, the exact minimum expiry and exact counts |
| UploadSessions.Registry.Tick | router/router_resumable_upload.go:161-165 | at any time, stale or not, the registry becomes its live part, and closed tokens stay closed |
| UploadSessions.Registry.Bind | router/router_resumable_upload.go:161-188 | succeeds exactly for a live unretired session of the same server and target or a new unexpired unique token within both limits; as long as times are used in order or no token is taken for new twice, all binds of a token name one server and one target and none follows retirement or expiry |
| UploadSessions.StaleRebind | router/router_resumable_upload.go:161-175 | outside that condition a stale time does let one token be bound to two targets |
| UploadSessions.Registry.Retire | router/router_resumable_upload.go:190-198 | consumes exactly the matching session, for good: a bound token is closed afterwards |
| UploadAppend.UploadLimit | router/router_resumable_upload.go:439-447 | the limit in bytes exactly when it is configured within range |
| UploadAppend.Target.Copy | router/router_resumable_upload.go:356-360 | appends a prefix of the body for every split into reads: all of it or one byte more than allowed, unless the copy fails |
| UploadAppend.Target.Patch | router/router_resumable_upload.go:282-400 | 200 means old contents plus body and its length reported; a rejection leaves the contents, except for a prefix of the body after a failed truncate and all of it after a failed close or chown; what is added is determined in every case, and when nothing outside fails the reply is exactly the verdict on the gates, offset, limits, lengths and body |
| UploadAppend.Target.AppendBody | router/router_resumable_upload.go:356-400 | copy, rollback, final length check and finalization |
| UploadAppend.TornAppend | router/router_resumable_upload.go:345-363 | a rejected append whose truncate fails leaves a part of the body |
| UploadAppend.Session | router/router_resumable_upload.go:282-400 | over any sequence of requests the file is what it was plus a part of each body in order: the whole body at the named offset and within the limits for an accepted request, nothing for a refused one unless truncating or finalizing failed |
| UploadAppend.StaysWithin | router/router_resumable_upload.go:305-372 | without such failures a file within the limit stays within it |
| UploadRequests.Uploads.BindStep | router/router_resumable_upload.go:282-289 | the first step of a request: the registry decides, and a closed token is never bound |
| UploadRequests.Uploads.AppendStep | router/router_resumable_upload.go:305-392 | the locked step: it succeeds only if bound, and its reply depends on the bind and not on a retirement since |
| UploadRequests.Uploads.RetireStep | router/router_resumable_upload.go:394-397 | a completed upload closes its token |
| UploadRequests.Uploads.BoundBeforeRetired | router/router_resumable_upload.go:161-198 | every success was bound before its token was retired |
| UploadRequests.Run | router/router_resumable_upload.go:282-400 | in every interleaving of binds, locked appends and retirements all successful requests of a token are for one server and one target, and one that succeeds after a completed upload was bound before it completed |
| UploadRequests.Overlap | router/router_resumable_upload.go:286-400 | two overlapping requests of one token: the second one appends after the first one has completed the upload |
| UploadQuota.UsageAfterWrite | router/router_server_files.go:671-675 | overwriting a file changes the usage by the difference of the sizes |
| UploadQuota.GrowthStep | router/router_server_files.go:671-683 | the growth after one more overwrite, repeated names included |
| UploadQuota.PeakIsHighest | router/router_server_files.go:684-686 | the peak is the highest growth over all prefixes |
| UploadQuota.AcceptSizes | router/router_server_files.go:739-744 | accepts exactly non-negative sizes that sum to at most the limit, without overflow |
| UploadQuota.PlanGrowth | router/router_server_files.go:659-687 | the clamped simulation in int64 returns exactly the unbounded peak, and no step overflows |
| TerminalSanitizer.ScanCsi | sftp/betterconsole_shell.go:444-459 | finds the final byte and keeps exactly colour sequences |
| TerminalSanitizer.ScanControlString | sftp/betterconsole_shell.go:474-489 | a control string ends with the first BEL, ESC \ or ST at a rune boundary, or with the input |
| TerminalSanitizer.TakeStep | sftp/betterconsole_shell.go:386-418 | takes at least one byte; what it keeps stands in the line as it is (a colour with either introducer), is admissible, and together with what the rest keeps makes up what the line keeps |
| TerminalSanitizer.SanitizeLine | sftp/betterconsole_shell.go:382-426 | the output is everything the scan keeps, with a reset exactly when a colour was kept; the scan terminates |
| TerminalSanitizer.OutputIsSafe | sftp/betterconsole_shell.go:382-426 | for every byte string the output is well-formed UTF-8 in which every control character is a tab or starts a colour sequence of at most 64 parameter bytes |
| TerminalSanitizer.ColorStep | sftp/betterconsole_shell.go:428-459 | a colour sequence is recognized and kept as it is |
| TerminalSanitizer.SafeTextIsKept | sftp/betterconsole_shell.go:382-426 | safe text comes back unchanged, with a reset exactly when it contains an escape |
| TerminalSanitizer.SanitizeTwice | sftp/betterconsole_shell.go:382-426 | sanitizing twice only repeats the reset |
| Fingerprint.BlocksSnoc | router/router_server_files_fingerprints.go:242-250 | one more byte either completes a block or joins the left-over bytes |
| Fingerprint.PackIsLittleEndian | router/router_server_files_fingerprints.go:242-245 | four or-ed bytes are the little-endian block |
| Fingerprint.PackMixesRest | router/router_server_files_fingerprints.go:259-261 | xor-ing the packed tail equals xor-ing its bytes one by one |
| Fingerprint.CountPass | router/router_server_files_fingerprints.go:207-224 | the first pass counts the bytes that are not white space modulo 2^32 |
| Fingerprint.HashPass | router/router_server_files_fingerprints.go:230-258 | the accumulators hold the mixed blocks and the packed rest of the stripped bytes |
| Fingerprint.CurseForgeFingerprint | router/router_server_files_fingerprints.go:206-269 | for every file and chunking the result is MurmurHash2 with seed 1 of the stripped bytes; an error has its cause |
| LargestDirectories.SaturatingAdd | router/router_server_files_largest.go:195-201 | adding a size gives the clamped sum without overflow |
| LargestDirectories.OwnSize | router/router_server_files_largest.go:116-118 | a directory's own size is the clamped sum of the files counted in it |
| LargestDirectories.SumAnyOrder | router/router_server_files_largest.go:128-141 | the sum over a set of directories does not depend on the order |
| LargestDirectories.AddToAncestors | router/router_server_files_largest.go:132-140 | adds a directory's own size to exactly its walked ancestors |
| LargestDirectories.SubtreeTotals | router/router_server_files_largest.go:124-141 | whatever order the map is visited in, each total is the clamped sum over its subtree |
| LargestDirectories.TotalOfFiles | router/router_server_files_largest.go:116-141 | that total is the sum of all files counted at or below the directory, clamped once |
| LargestDirectories.OrderIsDetermined | router/router_server_files_largest.go:149-154 | the order of the candidates does not depend on how they were collected |
| LargestDirectories.Collect | router/router_server_files_largest.go:142-154 | exactly the non-root directories with own files, in order, and their clamped sum |
| LargestDirectories.Reach | router/router_server_files_largest.go:159-168 | the shortest prefix that reaches the threshold |
| LargestDirectories.Cutoff | router/router_server_files_largest.go:159-180 | that prefix, at least ten and at most fifty and never more than there are |
| LargestDirectories.SortByTotal | router/router_server_files_largest.go:189-191 | the stable order by total |
| LargestDirectories.FewestDirectories | router/router_server_files_largest.go:149-168 | no choice of fewer directories reaches the threshold |
| LargestDirectories.Analyze | router/router_server_files_largest.go:122-192 | the reported directories are the first of the candidates by own size, each carries its subtree total, and they are ordered by that total, equal ones as before |
| Paths.CleanKeeps | router/betterfiles_paths.go:38 | without ".." cleaning keeps exactly the components that are neither empty nor "." |
| Paths.NormalizeExact | router/betterfiles_paths.go:27-49 | a root is accepted exactly when it is good, and becomes the slash-prefixed list of its components |
| Paths.NormalizeIdempotent | router/betterfiles_paths.go:27-49 | normalizing twice is normalizing once |
| Paths.JoinExact | router/betterfiles_paths.go:53-77 | under a canonical root a join succeeds exactly when the value is good and short enough, and appends its components |
| Paths.JoinedPath | router/betterfiles_paths.go:53-77 | a joined path is canonical and strictly below the root on a component boundary, and its relative path is the cleaned value |
| Paths.RelativeOfJoined | router/router_server_files_search_v2.go:582-587 | the relative path of root plus relative is relative |
| Paths.JoinsCollide | router/betterfiles_paths.go:53-77 | two joins are equal exactly when the cleaned values are |

## Left out

- HTTP handlers, JSON shapes, logging, activity records and metrics: no deep property.
- zstd, SHA-256 and SQLite: the codec is a record of functions of which only the snapshot round trip is taken for granted; the database is a map of rows whose ids are one above the largest, and deletions cascade.
- Database errors inside a transaction: only a failed commit and a failed encoding are modelled; both roll back.
- Listing revisions, the checks for binary and sensitive paths, and opening the history database: easy members.
- Glob and regular-expression filters, sensitive-file rules and MIME detection of both searches: parameters of the model or not part of it.
- Content of a file that changes while it is searched or hashed: both models read a fixed content.
- Timeouts, idle deadlines and clocks beyond a monotone time: they only appear as failures that can happen at any time.
- Liveness of the search pool when the bounded job channel is full, and of the lock under contention: only safety and completeness on exit are claimed.
- NetworkReconciler.Environment.PrepareContainer: creating the bridge and the host configuration is reduced to the gate.
- NetworkReconciler.Environment.VerifyPolicy: the comparison of network settings and port bindings is an input; MTU and letter case of addresses are left out.
- Removing a server's network state, rejecting a policy from the panel, finishing a start under the runtime wrapper, and the periodic monitor's delays.
- Docker, nftables and netlink: a world of calls that may fail at any time, and whose read-backs tell the truth when they succeed; rules and rates change behind the server's back only between operations.
- Container labels: a container id always carries the same labels.
- NetworkWakeup.NoLostWakeup: a worker whose wait for the lock times out gives up, as the source allows; nothing follows then until the next schedule.
- Admission and lock registries of uploads, header parsing and directory creation: their outcomes are inputs; the lock is why an append is one step.
- Fingerprint.CurseForgeFingerprint: the decimal text of the result and the other algorithms, which are library hashes.
- LargestDirectories.Analyze: the walk that counts files once per inode and its limits are not modelled; the path order is given as a rank.
- TerminalSanitizer.SanitizeLine: the terminal that prints the line, its buffer and its commands.
- Upload destinations: which file names and path manifests are accepted, beyond the sizes.
- Configuration, mounts, backups, transfers, SFTP, FTP and installers.
