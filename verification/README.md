# OptiRoute verification model

OptiRoute is a layer-4 reverse-proxy cluster written in Go: a Center that keeps a registry of Edges and hands
out a rotating secret, Edges that lead clients to the best node, and Server Agents in front of the real
service. This project models the parts of it whose correctness depends on more than one function or on more
than one run of a function, and proves what they promise.

Objects whose methods change their fields are Dafny classes, loops of the source are loops, and each method is
proved against a function of the old state. The properties are lemmas about those functions and about state
machines whose steps are the critical sections of the source: they quantify over every run of those machines, under
the conditions each lemma names.

| file | component |
|---|---|
| `CenterRegistry.dfy` | the two maps of the Center, its records and write queues, one critical section at a time |
| `CenterRuns.dfy` | the whole Center with its goroutines, write loops and Edges as a state machine |
| `CenterSecrets.dfy` | no secret and no answer is lost, and the registry invariant over all runs |
| `CenterOwners.dfy` | when the two maps are inverse to each other |
| `CenterReports.dfy` | report state: client lists, FAKE-IP latencies, Server Agent records |
| `Auth.dfy`, `AuthRuns.dfy` | the AuthManager, and replay, pruning, rotation and grace over whole runs |
| `TopoCache.dfy`, `TopoCacheRuns.dfy`, `TopoCacheObject.dfy` | the write-behind cache as a state machine, what its file holds told from the steps of a run, and the object that runs it |
| `CenterClient.dfy` | the Edge's channel generations across overlapping Disconnects |
| `OnePort.dfy`, `Framing.dfy`, `ByteStreams.dfy` | two protocols on one port, frames, and streams in arbitrary chunks |
| `RouteSelection.dfy`, `Addresses.dfy` | probe items under one-time codes, and the node that is picked |
| `Shuffle.dfy` | the in-place shuffle |
| `ProxyProtocol.dfy` | the PROXY v2 header over two hops |
| `RateLimit.dfy` | the fixed-window limiter |
| `Relay.dfy` | relay, bandwidth sampler, idle checker |
| `LogQueue.dfy` | the bounded log queue |
| `LanguageTag.dfy` | the language-tag parser |
| `Common.dfy` | what several components share |

## What the proofs found

Where the code does not keep a promise in every run, the model keeps the behaviour of the code, a lemma states
exactly when the promise is kept, and another gives a run in which it is not.

- A token can be accepted twice. After an acceptance the next attempt that passes every other check is accepted if
  and only if its nonce check has reached `max(now, ts) + ttl` (`AuthRuns.ReplayExactly`). The window test is closed
  and the nonce test strict, so a verification that makes both in one second succeeds exactly in second `ts + ttl`,
  after a first use at `now <= ts` (`AuthRuns.PromptReplayExactly`, `AuthRuns.PromptReplayHappens`). The two tests
  read the clock separately, so one that stalls between them can succeed at another instant
  (`AuthRuns.StalledReplayHappens`), and even a third time: after a prompt second acceptance, if and only if the
  nonce check comes at `ts + 2 * ttl` or later (`AuthRuns.ThirdAcceptanceExactly`,
  `AuthRuns.StalledThirdAcceptanceHappens`).
- Over any sequence of pushes and reconnects a signature holds if and only if the secret that made it is the one in
  use, or the one replaced last and still in its grace (`AuthRuns.SignatureHoldsExactly`). For one push the grace
  covers the whole window exactly under the condition of `AuthRuns.GraceExactly`. It ends early at a second accepted
  push, and at a reconnect, where the reset version lets the same secret be accepted again and pushes the previous
  one out (`AuthRuns.SecondRotationEndsGrace`, `AuthRuns.ReconnectEndsGrace`).
- The secret in the topology cache is the one in use if and only if the last push carries the newest version
  (`AuthRuns.CachedSecretIsCurrentExactly`, `AuthRuns.CachedSecretMayBeStale`).
- A failing random draw does not leave the order unchanged once earlier draws have succeeded, although the
  comment at src/edge/bootstrap.go:55-57 says so, and the one at src/center/center.go:925 that the real item then
  stays first. It leaves a permutation, and a prefix is untouched exactly when no earlier draw reached into it
  (`Shuffle.FailureKeepsPrefixExactly`).
- Updates and saves may run beside Close: at shutdown only the first control connection is disconnected
  (src/edge/node.go:216-221), while one opened by the background reconnect may still deliver. Close secures the
  memory it found. The file holds the final memory if and only if every store after the snapshot of the flush was
  saved by someone else (`TopoCacheModel.CloseFlushesWhatItFound`, `TopoCacheRuns.CloseHoldsFinalMemoryExactly`), and
  an update can be lost (`TopoCacheModel.CloseMayMissAnUpdate`). With empty memory nothing is flushed
  (`TopoCacheModel.CloseMayKeepOlderDataForEmptyMemory`).
- A topology load reads the file and stores it into memory in two steps, and requests no save. It leaves file and
  memory equal if and only if nothing but rewrites of the file it read is renamed after the read, or some save that
  starts from the loaded memory is (`TopoCacheRuns.LoadLeavesThemEqualExactly`); an undisturbed load does
  (`TopoCacheRuns.UndisturbedLoadLeavesThemEqual`). But a load can undo an update until something else is stored or
  saved (`TopoCacheModel.LoadMayUndoAnUpdate`), an update between its two steps can do no harm
  (`TopoCacheModel.OverlappedLoadMayBeSaved`), and a load that nothing comes between can leave them different
  (`TopoCacheModel.LateRenameMayFollowALoad`).
- Overlapping Disconnects can drop a channel generation that was never closed, with the messages in it
  (`CenterClientModel.OverlapDropsAnOpenGeneration`). Every replaced generation was closed if and only if every
  rebuild has the closing half of some Disconnect between it and the rebuild before
  (`CenterClientModel.ReplacedGenerationsClosedExactly`).
- A connection that registers two UUIDs leaves the first edge registered until that UUID registers again
  (`CenterOwners.TwoUuidsLeaveAnEdgeBehind`); registration keeps the maps inverse exactly when it does not do that
  (`CenterOwners.RegisterKeepsConverseExactly`).
- A version report keeps the Server Agent records naming only registered edges if and only if its edge is still
  registered as it is applied (`CenterReports.StepKeepsServersExactly`). Between its two sections another connection
  may take the UUID over and disconnect (`CenterReports.ReplacedReportNamesAGoneEdge`).
- A nonce stays in the table less than one prune interval after its expiry, in every history in which no nonce is
  recorded after its own expiry, and only there (`AuthRuns.StoredNoncesAreRecentExactly`); a verification that stalls
  adds its delay (`AuthRuns.StoredNoncesAge`, `AuthRuns.LateNonceOutlivesTheBound`).
- The rate limiter reads the clock before it takes its lock (src/util/limit.go:55-56), so readings can reach the
  locked section out of order. Only that order matters, not how long requests wait: at most `2 * maxPerKey - 1`
  requests pass in any interval of one window when the readings never go back in lock order (`RateLimit.RateBound`).
  Over runs whose readings lie at most some number of ticks behind an earlier one, and tables of every capacity, the
  bound holds if and only if that number is 0; so it is with the verdicts being independent of pruning
  (`RateLimit.RateBoundExactly`, `RateLimit.PruningInvisibleExactly`, `RateLimit.LateReadingMeetsPrunedWindow`).
  Without a capacity one tick does no harm (`RateLimit.UnboundedRateBoundExactly`), two ticks do
  (`RateLimit.LateReadingBreaksBound`). A bound on the waiting time bounds the lag, and is exact in the same way
  (`RateLimit.RateBoundByDelayExactly`).
- A key can be evicted and start over. With readings in lock order the bound holds for every key of every run of at most
  n different keys, evictions included, if and only if n is within the capacity (`RateLimit.KeyBoundExactly`).

## Model

| member | source | states |
|---|---|---|
| `CenterSecrets.NoLostSecret` | src/center/center.go:187-201 | over every run of rotations, overtaking broadcasts, registrations, replacements and disconnects: when all sends are done and the queues and wire of a connection are drained, an Edge still mapped on an open connection holds the newest version and its secret |
| `CenterSecrets.NoLostAnswer` | src/center/center.go:1146-1177 | under the same conditions the Edge has received the confirmation of its registration, and the answer to every registration that was not refused and to every topology query it made while mapped |
| `CenterSecrets.EdgesHoldIssuedSecrets` | src/center/center.go:448-454 | at every moment of every run an Edge's version was issued by the Center and its secret is the one issued under that version |
| `CenterSecrets.RegistryHoldsThroughout` | src/center/center.go:382-431 | over every run: no send on a closed queue, no second close, no nil record; every mapped connection has its own record; a record has an open queue while registered and a queue closed exactly once after; at most MaxEdges edges |
| `CenterSecrets.StepKeepsSupply` | src/center/center.go:1085-1096 | each atomic step keeps, for every open mapped connection, the newest version and every answer owed to it with its Edge, on the wire, queued, or still to be sent by some goroutine |
| `CenterSecrets.StepKeepsTruth` | src/center/center.go:187-201 | each atomic step keeps every message, queue and Edge pairing a version with the secret issued under it |
| `CenterSecrets.RotateSupplies` | src/center/center.go:192-199 | a rotation alone puts the new version on its way to every connection |
| `CenterSecrets.RegisterKeepsSupply` | src/center/center.go:382-438 | the locked section of a registration keeps the supply for all connections, the new one through its own greeting |
| `CenterSecrets.DeliverKeepsSupplyOf` | src/edge/edge.go:343-361 | handling a message at an Edge, a newer or older push included, keeps the supply of the newest version and of every answer |
| `CenterRegistry.RegisterKeepsInv` | src/center/center.go:382-431 | registration, replacement and refusal keep names, index soundness, queue closing, capacity, and never panic |
| `CenterRegistry.UnregisterKeepsInv` | src/center/center.go:1124-1140 | unregistering by connection keeps the same invariant |
| `CenterRegistry.EnqueueKeepsInv` | src/center/center.go:1160-1176 | the locked half of sendMsg on any record ever looked up, even one retired meanwhile, keeps the invariant, so it never sends on a closed queue |
| `CenterRegistry.LookupsNeverMeetNil` | src/center/center.go:1151-1158 | under the invariant a mapped connection always has a record, its own, under the UUID it is mapped to, and two connections never share a UUID |
| `CenterRegistry.MessagesAreQueued` | src/center/center.go:1160-1176 | any message to an open record with fewer than 256 queued joins the end of its queue; a closed record changes nothing; a full one is marked closed, its connection closed and its queue kept; nothing else changes |
| `CenterRegistry.ReconnectTakesOver` | src/center/center.go:394-430 | a registered UUID on another connection is stored whatever the capacity; the old connection is unmapped and closed, its queue closed once and kept, and every other record, edge and mapping stays |
| `CenterRegistry.NewUuidNeedsRoom` | src/center/center.go:422-430 | a new UUID is stored exactly while fewer edges are registered than the limit, 1024 unless it is positive; a refused one only has its connection closed |
| `CenterRegistry.RepeatKeepsRegistration` | src/center/center.go:394-414 | a repeat on the same connection keeps maps, record and queue |
| `CenterRegistry.UnregisterRemovesItsEdge` | src/center/center.go:1124-1140 | the edge and the mapping of the connection leave, its queue is closed once and kept, and nothing else changes |
| `CenterRegistry.CenterServer.RegisterLocked` | src/center/center.go:382-431 | outcome and the whole new registry equal those of the transition function, with a record of its own; case by case in `ReconnectTakesOver`, `NewUuidNeedsRoom` and `RepeatKeepsRegistration` |
| `CenterRegistry.CenterServer.ReplaceExisting` | src/center/center.go:416-421 | unmaps and closes the old connection and retires its record, nothing else |
| `CenterRegistry.CenterServer.UnregisterByConn` | src/center/center.go:1124-1140 | removes exactly the registration of the connection and closes its queue |
| `CenterRegistry.CenterServer.LookUp` | src/center/center.go:1151-1158 | tells unmapped, mapped without record, and mapped with record apart |
| `CenterRegistry.CenterServer.Enqueue` | src/center/center.go:1160-1176 | the new registry equals that of the transition function, field by field in `MessagesAreQueued` |
| `CenterRegistry.CenterServer.BumpVersion` | src/center/center.go:192-196 | stores the secret under the next version |
| `CenterRegistry.CenterServer.SnapshotConns` | src/center/center.go:1085-1092 | in any map order, the list holds each connection exactly as often as it has registered records |
| `CenterRuns.StepKeepsShape` | src/center/center.go:1124-1177 | every atomic step of the whole system keeps the registry invariant and that goroutines only use records that exist |
| `CenterOwners.RegisterKeepsConverseExactly` | src/center/center.go:394-430 | registration keeps every edge mapped from its connection if and only if it gives no second UUID to a mapped connection |
| `CenterOwners.MapsAreInverse` | src/center/center.go:429-430 | over every run where no connection registers two UUIDs the two maps are inverse to each other |
| `CenterOwners.TwoUuidsLeaveAnEdgeBehind` | src/center/center.go:1124-1140 | a run of one connection with two UUIDs that ends unregistered leaves the first edge in place |
| `CenterReports.EdgeReports.AddClients` | src/center/center.go:783-790 | the client list is always the last 1000 entries of everything reported to the record |
| `CenterReports.EdgeReports.HandleRTTReport` | src/center/center.go:643-693 | an implausible report changes nothing; otherwise each stored key holds the last value reported for it or its earlier one, the table never exceeds 4096 keys and drops a key only when full |
| `CenterReports.EdgeReports.HandleFakeUpdate` | src/center/center.go:724-737 | exactly the latencies of unlisted addresses are forgotten |
| `CenterReports.EdgeReports.RefreshRegistration` | src/center/center.go:395-408 | a repeated registration replaces the list and forgets every latency |
| `CenterReports.StoredAllIsLatest` | src/center/center.go:684-691 | the store loop equals last-value-wins per key, never loses a key and stays within the cap |
| `CenterReports.AcceptableExactly` | src/center/center.go:643-660 | a report is accepted if and only if its latency and each of at most 1024 entries lies within ten minutes and every entry is an address |
| `CenterReports.LastOfAppend` | src/center/center.go:783-790 | trimming after every batch equals trimming once after all of them |
| `CenterReports.CompactInPlace` | src/center/center.go:1106-1111 | compaction behind the reading position leaves the order-preserving filter of the original list |
| `CenterReports.WithoutOfConcat` | src/center/center.go:1106-1111 | the filter drops exactly the edge, and keeps order and number of all others |
| `CenterReports.ServerTable.RemoveEdge` | src/center/center.go:1102-1118 | the edge is filtered out of every record and records left empty are deleted, in any map order |
| `CenterReports.ServerTable.Report` | src/center/center.go:767-782 | the table is that of the specification, see `ReportAddsItsEdge`; an empty UUID changes nothing |
| `CenterReports.ReportAddsItsEdge` | src/center/center.go:767-782 | edges listed before keep their places, the reporting edge is added at the end unless listed, the reported fields are taken, other records stay |
| `CenterReports.RecordsListReporters` | src/center/center.go:750-1140 | over every run of registrations, replacements, disconnects and reports, a record lists exactly the edges that have reported its server and have not been unregistered since |
| `CenterReports.ContainsString` | src/center/center.go:817-824 | true exactly when the list holds the string |
| `CenterReports.ReportKeepsNamesExactly` | src/center/center.go:755-782 | records name only registered edges after a report if and only if its edge is still registered |
| `CenterReports.StepKeepsServersExactly` | src/center/center.go:755-782 | every step of every connection keeps the records non-empty, duplicate-free and naming only registered edges, a report if and only if its edge is registered as it is applied |
| `CenterReports.ServerRecordsStayExact` | src/center/center.go:764-782 | over every run in which reports are applied while their edge is registered, records are non-empty, duplicate-free and name only registered edges |
| `CenterReports.UnreplacedReportIsInTime` | src/center/center.go:755-762 | a connection that has not been replaced since its report looked it up meets that condition |
| `CenterReports.ReplacedReportNamesAGoneEdge` | src/center/center.go:755-782 | a run in which a connection is replaced between the two sections of its report, and a record names an edge that is gone |
| `Auth.AuthManager.UpdateSecret` | src/auth/token.go:66-84 | only a strictly newer version replaces the secret, and the replaced one stays valid for ttl |
| `Auth.AuthManager.ResetVersion` | src/auth/token.go:51-55 | the version baseline is dropped and nothing else |
| `Auth.AuthManager.GenerateRouteToken` | src/auth/token.go:127-170 | the token signed with the current secret, or the error for a missing secret or UUID |
| `Auth.AuthManager.VerifyRouteToken` | src/auth/token.go:183-261 | verdict and nonce table are those of the specification; what a verdict proves is `AuthRuns.VerifiedExactly`, what it records `AuthRuns.VerificationRecords` |
| `Auth.AuthManager.MarkNonceUsed` | src/auth/token.go:270-283 | records the nonce unless it is there and unexpired, pruning first when due |
| `Auth.AuthManager.PruneNoncesLocked` | src/auth/token.go:287-294 | exactly the expired nonces leave |
| `AuthRuns.VerifiedExactly` | src/auth/token.go:183-261 | a verification succeeds if and only if the token has version 2, is addressed to this edge, comes from the bound address, has the echoed issue time inside the closed window, is signed under the secret in use or the non-empty previous one within its grace, and its nonce is not stored unexpired |
| `AuthRuns.VerificationRecords` | src/auth/token.go:252-283 | a refused verification records nothing, an accepted one its own nonce and no other |
| `AuthRuns.SweepsExactly` | src/auth/token.go:270-294 | a nonce other than the one offered leaves if and only if it has expired and the table holds 4096 nonces or was last swept 30 seconds ago |
| `AuthRuns.AcceptedIsSigned` | src/auth/token.go:228-243 | over every run of pushes and resets from a new AuthManager an accepted token is signed under the secret of the last accepted push, or that of the one before within the grace, or under the empty key before any push |
| `AuthRuns.ForeignSignatureIsRefused` | src/auth/token.go:228-243 | over every such run no token is accepted that is signed under none of the secrets pushed, nor under the empty key |
| `AuthRuns.ReplayBound` | src/auth/token.go:245-260 | over every run, whatever secrets are pushed meanwhile: an accepted nonce is not accepted again before max(now, ts) + ttl |
| `AuthRuns.SecondAcceptance` | src/auth/token.go:216-220 | a second prompt acceptance needs a first one at now <= ts and falls into second ts + ttl |
| `AuthRuns.ThirdAcceptanceExactly` | src/auth/token.go:216-283 | after a prompt second acceptance the next attempt that passes all other checks is accepted if and only if its nonce check comes at second ts + 2 * ttl or later |
| `AuthRuns.NoThirdPromptAcceptance` | src/auth/token.go:252-283 | no third acceptance when the second and third verification each make both tests in one second |
| `AuthRuns.ReplayExactly` | src/auth/token.go:216-283 | over every history and table: after an acceptance, the next attempt with that nonce that passes all other checks is accepted if and only if its nonce reading has reached the expiry of the accepted one |
| `AuthRuns.PromptReplayExactly` | src/auth/token.go:216-283 | for a prompt attempt: if and only if the accepted one came at now <= ts and this one falls into second ts + ttl |
| `AuthRuns.PromptReplayHappens` | src/auth/token.go:216-283 | a history of prompt verifications in which one token is accepted twice |
| `AuthRuns.StalledReplayHappens` | src/auth/token.go:216-283 | a history in which a token first used after its own second is accepted again by a verification that stalls before its nonce check |
| `AuthRuns.StalledThirdAcceptanceHappens` | src/auth/token.go:216-283 | a history of three acceptances of one token, the third by a verification that stalls for ttl seconds |
| `AuthRuns.PruningIsInvisible` | src/auth/token.go:270-294 | under a monotone clock the verdicts of every run equal those of a table that is never pruned |
| `AuthRuns.StoredEntriesAge` | src/auth/token.go:274-294 | after every call each stored nonce is unexpired, or expired less than one prune interval plus the largest delay of a recording beyond its expiry ago |
| `AuthRuns.AttemptsAreMarks` | src/auth/token.go:256-260 | over every history the nonce table is that of the calls made by the attempts that pass all other checks |
| `AuthRuns.StoredNoncesAge` | src/auth/token.go:252-294 | the same over every history, stalled verifications included, in terms of each nonce reading and the expiry it records |
| `AuthRuns.StoredNoncesAreRecentExactly` | src/auth/token.go:252-294 | over all histories with a given delay, the bound of one prune interval holds if and only if no nonce is recorded after its own expiry |
| `AuthRuns.LateNonceOutlivesTheBound` | src/auth/token.go:252-294 | a history with a delay of one tick that misses the bound, for every ttl |
| `AuthRuns.StoredNoncesAreRecent` | src/auth/token.go:252-294 | over every history of prompt verifications the bound is one prune interval |
| `AuthRuns.PromptExpiryIsAhead` | src/auth/token.go:252-256 | a prompt verification records its nonce with an expiry in the future |
| `AuthRuns.IssuedTokenIsAccepted` | src/auth/token.go:127-261 | round trip: an issued token is accepted by the addressed edge with the same secret throughout the window |
| `AuthRuns.IssuedExactly` | src/auth/token.go:127-170 | the two errors exactly on their conditions, and otherwise claims with everything the caller gave, signed under the secret in use |
| `AuthRuns.RotationOrderIndependence` | src/auth/token.go:51-84 | after any reordered or repeated delivery since a reset the version is the maximum pushed and the secret the first one carrying it |
| `AuthRuns.SamePushesSameSecret` | src/auth/token.go:66-84 | edges that received the same versions in different orders hold the same secret |
| `AuthRuns.SignatureHoldsExactly` | src/auth/token.go:51-84 | over any sequence of pushes and resets a signature is valid if and only if its secret is the current one, or the one replaced last with unexpired grace |
| `AuthRuns.KeysAfterEvents` | src/auth/token.go:51-84 | after any such sequence secret, previous secret and expiry are those of the last accepted push |
| `AuthRuns.GraceExactly` | src/auth/token.go:228-239 | the replaced secret is accepted for a token's whole window after the push if and only if the window ends inside the grace |
| `AuthRuns.IssuedTokenSurvivesOneRotation` | src/auth/token.go:66-84 | with ttl of at least 1 a token issued before one accepted rotation passes the signature check throughout its window |
| `AuthRuns.SecondRotationEndsGrace` | src/auth/token.go:66-84 | a second accepted rotation invalidates it at once |
| `AuthRuns.ReconnectEndsGrace` | src/auth/token.go:51-84 | so does a reset followed by a push of the unchanged secret |
| `AuthRuns.CachedSecretIsCurrentExactly` | src/edge/edge.go:357-360 | after any delivery with one secret per version, the secret of the last push, which the cache keeps, is the one in use if and only if that push carries the newest version |
| `AuthRuns.CachedSecretMayBeStale` | src/edge/edge.go:357-360 | two pushes in the wrong order leave the cache with a secret that is not in use |
| `TopoCacheModel.StepKeepsInv` | src/edge/topo_cache.go:61-208 | every atomic step of updaters, loads, write loop, savers and Close, in any order, keeps: an update not on disk has a notification pending, a caller about to notify, or a save that will contain it |
| `TopoCacheModel.QuiescentFileEqualsMemory` | src/edge/topo_cache.go:61-125 | over every run, while the latest store is an update whose save did not fail: memory differs from the file only while such a write is under way, and at rest they are equal |
| `TopoCacheModel.CrashLeavesACompleteFile` | src/edge/topo_cache.go:168-194 | after any prefix of any run the file is one complete snapshot or the one found at start |
| `TopoCacheModel.FileNeverGoesBack` | src/edge/topo_cache.go:168-194 | whoever saves, the file is never replaced by an older snapshot |
| `TopoCacheModel.CloseFlushesWhatItFound` | src/edge/topo_cache.go:94-110 | once Close has ended, whatever ran beside it, the file is no older than the memory Close found, if that was not empty and no save from there on failed |
| `TopoCacheRuns.FileHoldsMemoryExactly` | src/edge/topo_cache.go:168-194 | over every run the file holds the latest store if and only if some snapshot taken after it was renamed into place |
| `TopoCacheRuns.CloseHoldsFinalMemoryExactly` | src/edge/topo_cache.go:94-110 | once Close has ended with a successful flush, the file holds the final memory if and only if every store after the snapshot of the flush was saved by someone else |
| `TopoCacheModel.CloseMayMissAnUpdate` | src/edge/topo_cache.go:94-125 | a run with an update beside Close that ends with non-empty memory, no failed save, and the file one update behind |
| `TopoCacheModel.CloseMayKeepOlderDataForEmptyMemory` | src/edge/topo_cache.go:94-110 | a run that ends with empty memory and an older, non-empty file |
| `TopoCacheRuns.LoadLeavesThemEqualExactly` | src/edge/topo_cache.go:223-244 | after a load that is the last store of a run, file and memory have equal content if and only if only rewrites of the file read were renamed since the read or a save that started from the loaded memory was, unless two contents coincide |
| `TopoCacheRuns.UndisturbedLoadLeavesThemEqual` | src/edge/topo_cache.go:223-244 | a load that starts while no save holds a snapshot, with no store or snapshot between its steps and no later store, leaves file and memory equal |
| `TopoCacheRuns.FileUnchangedExactly` | src/edge/topo_cache.go:168-194 | over every run the file is the one seen earlier if and only if only rewrites of it were renamed since |
| `TopoCacheModel.LoadMayUndoAnUpdate` | src/edge/topo_cache.go:223-244 | a run at rest in which a load has overwritten a saved update in memory only |
| `TopoCacheModel.OverlappedLoadMayBeSaved` | src/edge/topo_cache.go:223-244 | a run at rest in which an update fell between the two steps of a load and file and memory are equal |
| `TopoCacheModel.LateRenameMayFollowALoad` | src/edge/topo_cache.go:168-244 | a run at rest in which nothing fell between the two steps of a load and file and memory differ, because of a snapshot taken before it and renamed after it |
| `TopoCacheObject.TopoCache.Update` | src/edge/topo_cache.go:117-125 | takes the steps store and notify, and changes only the nodes |
| `TopoCacheObject.TopoCache.SetSecret` | src/edge/topo_cache.go:201-208 | takes the steps store and notify, and changes only the secret |
| `TopoCacheObject.TopoCache.RequestSave` | src/edge/topo_cache.go:77-85 | a notification is pending afterwards, one at most |
| `TopoCacheObject.TopoCache.SaveToFile` | src/edge/topo_cache.go:168-194 | the file becomes the memory of the snapshot, or keeps its content on an error |
| `TopoCacheObject.TopoCache.ServeNotification` | src/edge/topo_cache.go:61-73 | one turn of the write loop consumes the notification and saves |
| `TopoCacheObject.TopoCache.LoadFromFile` | src/edge/topo_cache.go:223-244 | takes the steps read and store: memory takes the file's content, and stays untouched when the file is missing or lists no nodes |
| `TopoCacheObject.TopoCache.Close` | src/edge/topo_cache.go:94-110 | flushes non-empty memory, ends the loop, and does nothing when called again |
| `CenterClientModel.CenterClient.SetConn` | src/edge/edge.go:101-103 | sets the connection and leaves the channels alone |
| `CenterClientModel.CenterClient.SendMsg` | src/edge/edge.go:237-259 | drops on a done channel, queues while there is room, closes the connection when the queue is full |
| `CenterClientModel.CenterClient.DisconnectClose` | src/edge/edge.go:579-587 | closes both channels of the generation once |
| `CenterClientModel.CenterClient.DisconnectRebuild` | src/edge/edge.go:593-598 | starts an open, empty generation |
| `CenterClientModel.MessagesAreQueued` | src/edge/edge.go:237-259 | a message joins an open queue of fewer than 256, a full queue and a closed generation change nothing |
| `CenterClientModel.DisconnectClosesOnce` | src/edge/edge.go:578-586 | the first closing half closes both channels and keeps the queue, the next does nothing |
| `CenterClientModel.NeverPanics` | src/edge/edge.go:237-259 | over every interleaving of sends and overlapping Disconnects nobody sends on a closed channel and no channel is closed twice |
| `CenterClientModel.ClosedGenerationOnlyDrains` | src/edge/edge.go:237-259 | a closed generation accepts no further message |
| `CenterClientModel.ReplacedGenerationsClosedExactly` | src/edge/edge.go:578-599 | over every interleaving every replaced generation was closed if and only if every rebuild has a closing half between it and the rebuild before |
| `CenterClientModel.SerialDisconnectsCloseEveryGeneration` | src/edge/edge.go:578-599 | Disconnects that do not overlap meet that condition |
| `CenterClientModel.OverlapDropsAnOpenGeneration` | src/edge/edge.go:578-599 | a run of two overlapping Disconnects in which a generation is replaced without having been closed |
| `OnePort.ClassifyConnection` | src/edge/bootstrap.go:199-219 | for every stream and segmentation the decision and the bytes left are those of the whole-stream specification |
| `OnePort.ReadFirstPacketWithPrefix` | src/edge/business.go:40-76 | likewise for the first business frame from a prefix and the rest of the stream |
| `OnePort.DispatchConnection` | src/edge/bootstrap.go:168-190 | a connection is a bootstrap exactly when its stream starts with the 16 Magic bytes, and yields a payload exactly when its stream starts with a frame, with all later bytes left over |
| `OnePort.BootstrapExactly` | src/protocol/magic.go:37-55 | the two-step decision equals "the stream starts with Magic" and consumes exactly those bytes |
| `OnePort.OrteExceedsTheCap` | src/edge/business.go:44-47 | an ORTE prefix read as a length always fails the frame cap |
| `OnePort.BootstrapIsNoFrame` | src/protocol/magic.go:37-42 | a bootstrap stream is never a readable frame |
| `OnePort.BusinessIsAFrameRead` | src/edge/business.go:40-76 | reading the first packet from either prefix equals reading a frame from the untouched stream, and a 16-byte prefix always fails the cap |
| `OnePort.FirstPacketExactly` | src/edge/business.go:40-76 | for a prefix of any length, reading the first packet equals a frame read on prefix and stream together, unless the prefix reaches beyond the frame |
| `OnePort.WrittenFramesAreBusiness` | src/util/framing.go:25-36 | every sequence of written frames is dispatched as business and gives its first payload with the rest left in place |
| `Framing.WriteFrame` | src/util/framing.go:25-36 | on success exactly the encoded frame was written; a payload above 1 MiB writes nothing |
| `Framing.WriteWithDeadline` | src/util/framing.go:42-60 | on success all data was written, otherwise a prefix of it |
| `Framing.ReadFrame` | src/util/framing.go:80-99 | the result is a function of the byte stream alone, whatever its segmentation, and leaves exactly the bytes behind the frame |
| `Framing.ParseOfEncode` | src/util/framing.go:25-99 | a written frame reads back with the following bytes in place |
| `Framing.EncodeOfParse` | src/util/framing.go:80-99 | a frame read succeeds only on bytes that writing its payload produces |
| `Framing.ParseAllOfEncodeAll` | src/util/framing.go:80-99 | repeated reads recover the whole written sequence and stop at the bytes behind it |
| `Framing.EncodeAllOfParseAll` | src/util/framing.go:80-99 | the frames read account for every consumed byte |
| `RouteSelection.SelectRoute` | src/edge/bootstrap.go:245-386 | for every topology, client, shuffle, code choice, map order and tie order: each abort exactly on its condition, otherwise the node is one a direct minimum over measured (node, item) pairs may choose; without weights and penalties, one with the least sum of client, FAKE node-side and origin latency |
| `RouteSelection.SelectBootstrapRoute` | src/edge/bootstrap.go:258-267 | the same with the source's merge key |
| `RouteSelection.MergeItems` | src/edge/bootstrap.go:251-278 | one distinct code per key, behind it exactly the pairs with that key in topology order, each key probed once |
| `RouteSelection.WithKeyOfConcat` | src/edge/bootstrap.go:257-274 | the pairs behind a code keep topology order |
| `RouteSelection.ReadReports` | src/edge/bootstrap.go:318-330 | per known code the last plausible result, and no other code |
| `RouteSelection.LastAcceptedExactly` | src/edge/bootstrap.go:318-330 | the result for a code is v if and only if a plausible result reports v and no plausible one for the code follows |
| `RouteSelection.BoundOnResults` | src/edge/bootstrap.go:311-316 | the bound is the larger of a minute and twice the probe timeout |
| `RouteSelection.DecodingAgrees` | src/edge/bootstrap.go:318-346 | reading reports by code and by target is the same |
| `RouteSelection.CandidateOf` | src/edge/bootstrap.go:347-371 | the candidate of a pair; its total in numbers is `TotalInNumbers` |
| `RouteSelection.TotalInNumbers` | src/edge/bootstrap.go:347-371 | the front latency (for a FAKE item plus the node side) times the weight, cut toward zero, plus the unweighted origin latency; for a warning node alone that sum times the penalty, cut toward zero |
| `RouteSelection.NodeSideCountsForFakeItems` | src/protocol/message.go:216-221 | a real item does not depend on the node-side latencies; a FAKE one costs what a real one does at the client latency plus the measurement, or plus the fallback when there is none |
| `RouteSelection.PlainTotal` | src/edge/bootstrap.go:347-371 | with weight one and no warning the total is the plain sum |
| `RouteSelection.ChoiceHasLeastSum` | src/edge/bootstrap.go:347-389 | without weights and warning nodes the chosen node has the least plain sum over the measured pairs, overloaded ones only when nothing else was measured |
| `RouteSelection.CollectAll` | src/edge/bootstrap.go:339-373 | in any map order the candidates are exactly what the measured codes offer, overloaded nodes apart |
| `RouteSelection.OffersAreDirect` | src/edge/bootstrap.go:339-373 | a candidate is offered through the codes if and only if some measured pair offers it |
| `RouteSelection.Choose` | src/edge/bootstrap.go:375-389 | a least total, from the overloaded list only when the other is empty; none only when both are |
| `RouteSelection.ChoiceIsDirect` | src/edge/bootstrap.go:375-389 | such a choice is a direct minimum over measured pairs |
| `RouteSelection.HonestReports` | src/edge/bootstrap.go:294-330 | a client that measures targets is decoded to exactly its plausible measurements of the targets shown |
| `RouteSelection.RandomnessDoesNotMatter` | src/edge/bootstrap.go:38-66 | neither the random codes nor the shuffle can change what is decoded, hence which nodes may be chosen |
| `RouteSelection.ChosenNodeWasReported` | src/edge/bootstrap.go:339-389 | the chosen node is in the topology with a measured item, and overloaded only when every measured node is |
| `RouteSelection.PairComesFromTopology` | src/protocol/message.go:196-210 | the pairs of the reference are exactly each node with each of its effective items |
| `RouteSelection.ItemsOfNode` | src/protocol/message.go:196-210 | a listed node has exactly its items, even none; one cached without a list has one real udp item of weight one when it has an address and a port, and none otherwise |
| `RouteSelection.ItemsMergeExactly` | src/edge/bootstrap.go:258-260 | two items of the protocols the Center admits are probed together if and only if host, port and protocol agree, brackets aside |
| `Addresses.KeysAgreeExactly` | src/util/addr.go:18-22 | keys are equal if and only if bare host, port and protocol are, for protocol names without a slash |
| `Addresses.JoinedForm` | src/util/addr.go:18-22 | host, colon, port, with one pair of brackets exactly around a host that has a colon |
| `Addresses.BracketsDoNotMatter` | src/util/addr.go:18-22 | a bracketed host and the bare one give the same address |
| `Shuffle.ShuffleInPlace` | src/edge/bootstrap.go:58-66 | the loop on the caller's slice computes the recursive Fisher-Yates shuffle |
| `Shuffle.ShuffleIsPermutation` | src/center/center.go:934-942 | any draws, a failing one included, leave a permutation |
| `Shuffle.ShuffleIsInjective` | src/edge/bootstrap.go:58-66 | on distinct elements different complete draws give different results |
| `Shuffle.ShuffleIsSurjective` | src/edge/bootstrap.go:58-66 | every permutation is the result of some complete draws |
| `Shuffle.FailureKeepsPrefixExactly` | src/edge/bootstrap.go:53-66 | after a failing draw a prefix is untouched if and only if no earlier draw reached into it |
| `ProxyProtocol.BuildPPv2Header` | src/protocol/proxy_protocol.go:29-70 | the buffer filled at offsets is the layout of section 2.2 of "The PROXY protocol" |
| `ProxyProtocol.ParsePPv2Header` | src/protocol/proxy_protocol.go:76-115 | the result, error by error, is that of the specification |
| `ProxyProtocol.ReadProxyHeader` | src/agent/server.go:162-189 | takes exactly the fixed part and the announced rest off the stream, for every segmentation |
| `ProxyProtocol.TakeHeaderExactly` | src/agent/server.go:162-189 | what is taken is the prefix of 16 bytes and the announced number more, or nothing when the stream is shorter |
| `ProxyProtocol.ParsedIsLayout` | src/protocol/proxy_protocol.go:76-115 | whatever parses is a header of the layout for one of the two families, and the address and port found are its source |
| `ProxyProtocol.LayoutParses` | src/protocol/proxy_protocol.go:76-115 | every such header parses to its source, whatever follows it |
| `ProxyProtocol.ParseErrorsExactly` | src/protocol/proxy_protocol.go:76-115 | each error exactly on its condition, in the order of the checks |
| `ProxyProtocol.HeaderNamesBothEnds` | src/protocol/proxy_protocol.go:29-70 | family, length, both addresses and both ports byte by byte; IPv4 exactly when both ends are, an empty destination being the unspecified address of the source family |
| `ProxyProtocol.LayoutFields` | src/protocol/proxy_protocol.go:29-70 | where each field of a header lies, both addresses and ports included, and what it decodes to |
| `ProxyProtocol.OneHop` | src/agent/server.go:162-189 | a built header in front of any payload is consumed exactly, 28 or 52 bytes, and gives an equal address and the same port |
| `ProxyProtocol.TwoHops` | src/agent/server.go:211-217 | the header the server rebuilds parses to the client's address and port again, whatever the families |
| `ProxyProtocol.EqualAddressesAgree` | src/protocol/proxy_protocol.go:29-70 | address equality is equality of the 16-byte forms |
| `RateLimit.RateLimiter.Allow` | src/util/limit.go:54-79 | verdict and table are those of the specification, the table never exceeds its capacity, evictions are counted; what that is for the key, the victim and all other keys is in `VerdictExactly`, `EvictionExactly` and `OthersKeepTheirWindows` |
| `RateLimit.RateLimiter.PruneLocked` | src/util/limit.go:83-89 | exactly the expired windows leave |
| `RateLimit.RateLimiter.EvictOldestLocked` | src/util/limit.go:93-107 | one key with the earliest window start leaves |
| `RateLimit.VerdictExactly` | src/util/limit.go:70-78 | a live window admits while its count is below the limit; an ended or missing one starts with this request |
| `RateLimit.EvictionExactly` | src/util/limit.go:59-68 | a key is evicted if and only if the requested key is not stored and at least maxKeys live windows are; the victim is one of those that started first |
| `RateLimit.OthersKeepTheirWindows` | src/util/limit.go:54-89 | every other live window but the victim is kept as it is, nothing but the key joins, and nothing leaves when the key is stored or the table is not full |
| `RateLimit.RateBoundForFewKeys` | src/util/limit.go:54-79 | the rate bound for every key of every run with no more different keys than the capacity and readings in lock order, evictions not excluded beforehand |
| `RateLimit.KeyBoundExactly` | src/util/limit.go:54-107 | over all runs of at most n different keys with readings in lock order the bound holds if and only if n is within the capacity |
| `RateLimit.PruningInvisibleExactly` | src/util/limit.go:54-89 | over every run whose readings lie at most d behind an earlier one in lock order, and every capacity, a key that is not evicted gets the verdicts of a table that is never pruned and never full, if and only if d is 0 |
| `RateLimit.RateBoundExactly` | src/util/limit.go:54-79 | over every such run and capacity, any half-open interval of one window holds at most 2 * maxPerKey - 1 admissions of a key that is not evicted, if and only if d is 0 |
| `RateLimit.UnboundedRateBoundExactly` | src/util/limit.go:54-79 | without a capacity the same bound holds if and only if d is at most 1, or the limit is one |
| `RateLimit.RateBoundByDelayExactly` | src/util/limit.go:54-79 | both conditions told by how long requests may wait for the lock |
| `RateLimit.DelayBoundsLag` | src/util/limit.go:55-56 | in every run a bound on the waiting time bounds how far a reading lies behind an earlier one |
| `RateLimit.RateBound` | src/util/limit.go:70-78 | the bound for every run whose readings never go back in lock order, however long its requests wait |
| `RateLimit.LateReadingBreaksBound` | src/util/limit.go:55-78 | for every limit above one and window above one tick, a run with a request two ticks late and 3 * maxPerKey - 2 admissions |
| `RateLimit.LateReadingMeetsPrunedWindow` | src/util/limit.go:55-89 | for every limit and window, a run with requests one tick late and 2 * maxPerKey admissions |
| `RateLimit.RateBoundIsReached` | src/util/limit.go:70-78 | for every limit and every window above one tick, a run without delays that reaches the bound |
| `Relay.CopyLoop` | src/util/relay.go:85-106 | the destination gets the whole source unless a write fails, and the counter grows by the completed writes |
| `Relay.BytesAreConserved` | src/util/relay.go:85-117 | over every interleaving of two directions and the sampler: each destination has a prefix of its source, and samples plus accumulator are the bytes of completed writes |
| `Relay.BandwidthTracker.Tick` | src/edge/bandwidth.go:82-93 | the accumulator becomes one sample, and the window is the last 60 samples |
| `Relay.BandwidthTracker.CurrentBps` | src/edge/bandwidth.go:100-107 | the newest sample, or 0 |
| `Relay.IdleChecker` | src/util/relay.go:58-83 | with on-time ticks it closes at the first tick that finds idleTimeout of silence, and less than one interval after the last activity is that old, an interval being a quarter of idleTimeout or 10 ms |
| `LogQueue.Logger.Enqueue` | src/logx/logx.go:246-252 | one undisturbed call is queued, or takes the two steps of finding the queue full and counting the drop |
| `LogQueue.Logger.WriteNext` | src/logx/logx.go:131-167 | one turn of the writer takes the steps of the state machine on the entry received |
| `LogQueue.CallsAreConserved` | src/logx/logx.go:131-167 | over every interleaving: calls = written + in hand + queued + noticed drops + pending drops + drops about to be counted |
| `LogQueue.DropsAreCallsAtFullQueue` | src/logx/logx.go:246-252 | over every run the drops noticed, pending and about to be counted are exactly the calls that found 4096 entries queued |
| `LogQueue.WrittenInCallOrder` | src/logx/logx.go:131-167 | records are written in call order, each at most once |
| `LogQueue.FiredFlushHasWrittenEarlierRecords` | src/logx/logx.go:259-278 | when the barrier of a Flush fires, every record queued before it has been written |
| `LanguageTag.ComputeSplitTag` | src/i18n/i18n.go:152-189 | the loop computes the specification |
| `LanguageTag.FormsAreAccepted` | src/i18n/i18n.go:152-189 | every tag of the language[-Script][-REGION][-singleton tail] form of section 2.1 of RFC 5646 is accepted with its canonical subtags |
| `LanguageTag.AcceptedTagsHaveTheForm` | src/i18n/i18n.go:152-189 | only such tags are accepted |
| `LanguageTag.FormInCharacters` | src/i18n/i18n.go:152-189 | that form by lengths and characters |
| `LanguageTag.LanguageOfForm` | src/i18n/i18n.go:101-139 | the language of every tag of the form from its language, script and region in any case |
| `LanguageTag.OtherTagsAreRefused` | src/i18n/i18n.go:101-139 | every other tag is not understood |
| `LanguageTag.ParseIgnoresCase` | src/i18n/i18n.go:101-139 | parsing ignores letter case, section 2.1.1 of RFC 5646 |
| `LanguageTag.ParseIsStable` | src/i18n/i18n.go:101-139 | the tag of every result parses to that result |
| `LanguageTag.TailIsIgnored` | src/i18n/i18n.go:101-189 | what follows a singleton never affects the language |
| `LanguageTag.JoinOfSplit` | src/i18n/i18n.go:152-156 | splitting at hyphens loses nothing |
| `LanguageTag.SplitOfJoin` | src/i18n/i18n.go:152-156 | joining hyphen-free subtags and splitting gives them back |

## Left out

- Message contents other than a secret: an answer is its kind and the number of the request it answers, a number the
  program does not send.
- Sockets, WebSocket, HTTP, tickers and goroutine plumbing: a connection is a byte stream in arbitrary chunks, and
  a goroutine is the list of critical sections it still has to pass.
- JSON, base64, hex: messages are values; malformed input is a constructor of its own. The HMAC is an injective
  constructor, so two claims or keys never share a signature.
- Randomness: one-time codes are any unused number, draws are an arbitrary sequence that may contain failures.
- Floating point: weights and penalties are reals; conversion to an integer truncates toward zero.
- Integer width: timestamps, latencies, versions and byte counters are unbounded.
- Registration field validation, the registration rate limit and its reject messages: one event that closes the
  connection before the locked section. The same validation of a FAKE-IP update, which drops the update whole.
- The record fields refreshed by a repeated registration on the same connection, other than the FAKE-IP list and its
  latencies; handleBWReport and handleTopoQuery beyond the message they queue.
- The order between a registration's greeting and later requests of its connection: the greeting is a goroutine of
  its own, so the model has more interleavings than the program.
- The Edge's own length check of a pushed secret: secrets of the Center have 32 bytes, and the only other push is the
  empty one of version 0, which the version test ignores as well.
- CenterClient reconnection, WaitRegistration, heartbeats and reporting loops.
- TopoCache without a file path, a load from another file than the cache file, directory creation and file
  permissions; a process that restarts starts a new run.
- Write deadlines and half-close of the relay: a blocked write is a write that fails.
- The handshake Semaphore, and Len of the limiter.
- Level filtering, rendering and the catalogue of the logger; Flush's timeout.
- i18n Set and Current, the message catalogue.
- Link monitoring, ICMP, TCP and UDP probing, the FAKE-IP health loop, configuration, the open HTTP API.
- QuiescentFileEqualsMemory: speaks of updates whose save did not fail; for loads see `LoadLeavesThemEqualExactly`.
- NoThirdPromptAcceptance: says nothing of verifications that stall between their two tests, see
  `ThirdAcceptanceExactly`.
- IdleChecker: ticks are on time, and activity instants are given.
- RateBoundExactly: the limit is positive, as NewRateLimiter asks of its callers; a limit of 0 or less admits nothing.
  Admissions are placed in time by their clock reading.
