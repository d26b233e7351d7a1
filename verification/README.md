# Nexus CUA in Dafny

A model of the parts of Nexus CUA that carry its guarantees, with proofs over all inputs, all runs and
all interleavings. Nothing here executes the runtime; every statement is about the model.

| modules | what they model |
|---|---|
| `Placement`, `Balance`, `HostRegistry` | the worker registry: a counter-free machine of registrations and leases, how evenly it spreads them, and the class with counters and loops that refines it |
| `Gateway`, `HostGateway` | gateway calls split at their awaits, screenshot tickets, and the class that refines them |
| `SessionSlot` | tool calls, rebuilds and closes competing for the one runtime session |
| `ImageCache` | the bounded image and view cache |
| `Geometry`, `Binary64`, `LongEdge`, `Zoom` | coordinates under rounding error, the rounding itself, crops and clicks |
| `Environment`, `HostEnvironment` | snapshots and clones with an arbitrary provider |
| `PrivateStore`, `Integration` | installing, undoing and removing an integration when any step may fail, also after taking effect |
| `Ledger`, `RetryClient`, `AtMostOnce`, `Overtaking`, `Refusals` | the dispatcher's request ledger, the SDK's retained requests, and both joined by a lossy, reordering transport |
| `Framing`, `InputText` | frames and typed-text packets |
| `Fingerprint`, `FingerprintMatch` | visual signatures, sampled captures and tolerant comparison |
| `ArchivePath`, `Archive` | the release archive inspector |

Machines are written as `Next(state, event, state')`; a class method that models one critical section
ensures exactly such a step. Fresh random identifiers are checked against a history of all issued ones,
and time is a parameter that never decreases. Every floating-point operation is a real operation followed by an
arbitrary monotone rounding that is exact on half-integers and has relative error at most 2^-53 on numbers from
2^-40 upwards and on whole multiples of any representable number; `Binary64` shows that round-to-nearest-even
is one.

Results where the code and its documentation part ways:

- A mutation executes at most once only if results are retained for longer than the SDK's horizon plus the
  delivery delay (`AtMostOnce.AtMostOnceExactly`). Both defaults are ten minutes, and the SDK accepts no
  shorter horizon, so they do not meet it (`AtMostOnce.DefaultsOverlap`).
- Even with enough retention, a request settled as not dispatched can still execute, exactly when an older copy of it
  may arrive after enough results have expired (`Overtaking.SettledStartsExactly`); only a ledger with no more room than slots and copies
  that take no time rule this out (`Refusals.OvertakingExactly`).
- Extending a wait beyond the dispatcher's bound, by default two minutes, can make the SDK settle a running mutation as
  not dispatched (`Refusals.RefusalsTrueExactly`, `Refusals.RefusedWhileRunning`).
- A failed apply that reports an ordinary error restores everything exactly when no discarded clean-up result
  was a failure (`Integration.Machine.Apply`, `Integration.FailedApplyLeavesLiveRegistration`).
- A retained clone has its snapshot as long as no snapshot is removed while a clone of it is in flight; any such
  removal can leave one without (`Environment.RaceFreeRunAnchored`, `Environment.RacyRemovalCanDangle`,
  `Environment.DanglingRun`).
- A fingerprint of an image without pixels does not match itself (`FingerprintMatch.MatchesItselfExactly`).
- A zoom keeps all views current exactly when, after everything that happened since it looked the image up, the
  window's latest observation is still the one looked up (`ImageCache.ImageMappingCache.FinishZoom`,
  `ImageCache.OvertakenZoom`, `ImageCache.ReobservedZoom`).
- A screenshot ticket's deadline is checked at the lookup only; the bytes may be read later
  (`Gateway.ServedFromMintingEndpoint`, `HostGateway.LateRead`).
- Placement by least load keeps equal workers within one lease of each other only while expiry does not unbalance
  them (`Balance.AcquireOnlyRunExactly`, `Balance.ExpiryUnbalances`).

## Model

| member | source | states |
|---|---|---|
| `Placement.StepKeepsInv` | crates/host/src/registry.rs:206-384 | every register, unregister, acquire, release and sweep keeps totals within bounds, each worker within its capacity, every lease on a registered worker at that worker's current epoch, and issued names unique |
| `Placement.RunKeepsInv` | crates/host/src/registry.rs:206-384 | the same in every state of every run |
| `Placement.LeasesFinite` | crates/host/src/registry.rs:257-263 | in every state of every run no lease outlives the clock by more than the longest time the registry grants |
| `Placement.LeaseResolvesExactly` | crates/host/src/registry.rs:341-363 | an issued lease resolves at a later time exactly when the epoch is the one it was placed on, it has not expired and no release or unregister hit it since, and then to the endpoint it was placed on; staleness is permanent, even if the endpoint registers again |
| `Placement.WorkerEpochFilterIsIdle` | crates/host/src/registry.rs:352-360 | in every reachable state the comparison with the worker's own epoch never rejects a live lease by itself |
| `Placement.PlacementUnique` | crates/host/src/registry.rs:272-297 | least load, then smallest id, picks one worker whatever the iteration order |
| `Placement.AskingMoreNarrows` | crates/host/src/registry.rs:108-125 | whoever asks for more has no more workers to choose from |
| `Common.StrLeqExactly` | crates/host/src/registry.rs:281-290 | identifiers compare by their first difference, and without one the shorter comes first |
| `Balance.AcquireBalanceExactly` | crates/host/src/registry.rs:257-316 | over workers of equal capacity, loads after an unconstrained acquire are within one of each other exactly when they were so after the purge or one worker trailed alone |
| `Balance.AcquireOnlyRunExactly` | crates/host/src/registry.rs:257-316 | an acquire-only run is balanced throughout exactly when that condition holds before each of its acquires |
| `Balance.AcquireOnlyRunBalanced` | crates/host/src/registry.rs:257-316 | acquire-only runs stay balanced to the end as long as no purge unbalances them |
| `Balance.ExpiryUnbalances` | crates/host/src/registry.rs:366-378 | expiry does break it: an acquire-only run over two equal workers, from the empty registry, that ends with loads three and one |
| `HostRegistry.DropKeepsCounts` | crates/host/src/registry.rs:380-384 | dropping a lease keeps every active-lease counter equal to the leases stored, and the saturating decrement never clips |
| `HostRegistry.WorkerRegistry.PurgeExpired` | crates/host/src/registry.rs:366-378 | the purge loop leaves exactly the leases that have not expired, in any visiting order |
| `HostRegistry.WorkerRegistry.Register` | crates/host/src/registry.rs:206-238 | accepted exactly within the capacity, environment and worker bounds, each with its own refusal, and then one machine step; a refusal changes nothing but expired leases |
| `HostRegistry.WorkerRegistry.Unregister` | crates/host/src/registry.rs:241-250 | the worker goes together with all its leases |
| `HostRegistry.WorkerRegistry.SelectWorker` | crates/host/src/registry.rs:272-297 | the selection loop finds the unique placement, or shows that no matching worker has spare capacity |
| `HostRegistry.WorkerRegistry.Acquire` | crates/host/src/registry.rs:257-316 | placement, lease and counter as one machine step; the worker granted has the platform, the kind, every capability and the identity asked for; busy exactly when the registry is full or every worker is at capacity or fails one of the four |
| `HostRegistry.WorkerRegistry.Release` | crates/host/src/registry.rs:319-326 | the lease goes and its worker's counter follows |
| `HostRegistry.WorkerRegistry.ResolveLease` | crates/host/src/registry.rs:341-363 | succeeds exactly when the specification resolves, with the placed endpoint; otherwise stale |
| `Gateway.StepKeepsInv` | crates/host/src/gateway.rs:260-454 | each epoch fixes one endpoint, each ticket carries its minting call's lease, epoch and endpoint, and both counts stay bounded, across calls split at their awaits |
| `Gateway.ServedFromMintingEndpoint` | crates/host/src/gateway.rs:328-369 | in every interleaving, served bytes came from the endpoint whose dispatch produced the screenshot, under the minting lease and epoch, through a lookup made before the ticket expired and a read no earlier than that; live tickets and calls stay within their bounds |
| `Gateway.OriginIsMintingStep` | crates/host/src/gateway.rs:415-448 | what is known about a ticket's origin is the record of one earlier finishing step of an executing call |
| `HostGateway.GatewayError` | crates/host/src/gateway.rs:465-521 | which failure gives which code, and no other; for a mutation it is reported as not dispatched; only capacity and internal failures are retryable |
| `HostGateway.WorkerGateway.RegisterWorker` | crates/host/src/registry.rs:206-238 | registering through the gateway is one step of the joint machine, binds the new epoch to its endpoint, and is refused exactly outside the bounds |
| `HostGateway.WorkerGateway.UnregisterWorker` | crates/host/src/registry.rs:241-250 | the worker and its leases go while calls in flight and tickets stay bound |
| `HostGateway.WorkerGateway.AcquireLease` | crates/host/src/registry.rs:257-316 | granted exactly when the bounds leave room and some worker is eligible, on a worker with everything that was asked for, as one step of the joint machine |
| `HostGateway.WorkerGateway.ReleaseLease` | crates/host/src/registry.rs:319-326 | one lease goes, with every binding kept |
| `HostGateway.WorkerGateway.BeginExecute` | crates/host/src/gateway.rs:260-300 | admitted exactly when authenticated, a permit is free and the lease resolves, and then to that endpoint; an error takes no permit and reports a mutation as not dispatched |
| `HostGateway.WorkerGateway.FinishExecute` | crates/host/src/gateway.rs:301-320 | the permit comes back in every case; an error exactly when a screenshot cannot be minted, and it never claims that nothing was dispatched |
| `HostGateway.WorkerGateway.MintTicket` | crates/host/src/gateway.rs:415-448 | a ticket is minted exactly for an acceptable artifact while fewer than the maximum are live |
| `HostGateway.WorkerGateway.BeginFetch` | crates/host/src/gateway.rs:328-345 | admitted exactly when authenticated, a permit is free and the lease resolves; otherwise no call, ticket or permit changes |
| `HostGateway.WorkerGateway.FindTicket` | crates/host/src/gateway.rs:346-357 | found exactly while unexpired and under the lease and epoch it was minted for; a miss returns the permit |
| `HostGateway.WorkerGateway.FinishFetch` | crates/host/src/gateway.rs:358-369 | a found artifact is handed out or its read fails, and the permit comes back either way |
| `HostGateway.WorkerGateway.Abandon` | crates/host/src/gateway.rs:301-325 | a call the worker answers with an error ends with its permit returned, and no ticket or origin changes |
| `HostGateway.LateRead` | crates/host/src/gateway.rs:346-369 | a whole fetch from an empty host whose bytes are read arbitrarily long after the ticket expired: the deadline is on the lookup only |
| `SessionSlot.StepKeepsInv` | crates/mcp/src/server.rs:292-369 | one step of any tool call, rebuild or close keeps every session in one place, accounted for, and the locks consistent |
| `SessionSlot.EverySessionInOnePlace` | crates/mcp/src/server.rs:292-369 | in every interleaving each opened session is in exactly one of: the slot, one call that will close it, the close log, or forgotten as dead |
| `SessionSlot.OpenedLives` | crates/mcp/src/server.rs:534-576 | a session is alive from its opening exactly until it expires, the runtime shuts down or it is sent CloseSession |
| `SessionSlot.ClosedAtMostOnce` | crates/mcp/src/server.rs:534-576 | no session is sent CloseSession twice |
| `SessionSlot.RebuildAchieves` | crates/mcp/src/server.rs:534-576 | a rebuild that returned: if no close had begun when it took the slot, its session was put there and the one before it, and no other, was closed; otherwise its session was closed and is never in the slot |
| `SessionSlot.CloseAchieves` | crates/mcp/src/server.rs:292-305 | a close that returned took the slot, closed what was in it, and left it empty for good |
| `SessionSlot.ReportAchieves` | crates/mcp/src/server.rs:340-369 | a call told that its session is gone empties the slot before it returns, and what it drops was no longer alive |
| `SessionSlot.ExpiryIsReported` | crates/mcp/src/server.rs:340-369 | a session may expire under the call that uses it, which reports it and leaves the slot empty |
| `SessionSlot.ShutdownIsReported` | crates/mcp/src/server.rs:340-369 | the runtime may shut down under a probe or a launch, which reports it and leaves the slot empty |
| `SessionSlot.SlotStaysEmpty` | crates/mcp/src/server.rs:292-305 | once a close took the slot it stays empty |
| `SessionSlot.NoSessionLeftBehind` | crates/mcp/src/server.rs:292-305 | once a close has begun and every call has returned, no session of the adapter is left open |
| `SessionSlot.SomeCallCanStep` | crates/mcp/src/server.rs:534-576 | no reachable state is deadlocked |
| `SessionSlot.CallsProgress` | crates/mcp/src/server.rs:534-576 | each step of a call brings it nearer to its return and disturbs no other call |
| `ImageCache.ImageMappingCache.Clear` | crates/mcp/src/server.rs:129-135 | the empty cache, with every invariant |
| `ImageCache.ImageMappingCache.InvalidateWindow` | crates/mcp/src/server.rs:195-210 | exactly the window's image and views go, everything else stays as it was and in its order, and the byte total stays exact |
| `ImageCache.DroppedBytes` | crates/mcp/src/server.rs:195-206 | the saturating fold and subtraction take off exactly the size of the window's only image |
| `ImageCache.ImageMappingCache.Insert` | crates/mcp/src/server.rs:137-170 | of the other images exactly the longest suffix that leaves room stays, in order; byte total exact, queue and map agree, one image per window, bytes in bounds unless this image alone exceeds them |
| `ImageCache.ImageMappingCache.Evict` | crates/mcp/src/server.rs:146-158 | the eviction loop drops the fewest front images that make room |
| `ImageCache.ImageMappingCache.Get` | crates/mcp/src/server.rs:172-177 | an image is found only under its own window, and is then that window's latest observation |
| `ImageCache.ImageMappingCache.InsertView` | crates/mcp/src/server.rs:179-189 | at most 32 views, oldest out first, nothing else changed; it does not look whether the image is still the latest |
| `ImageCache.ImageMappingCache.GetView` | crates/mcp/src/server.rs:191-193 | while views are current, a found view names its window's latest observation |
| `ImageCache.ImageMappingCache.BeginZoom` | crates/mcp/src/server.rs:1502-1516 | an image is found only under its own window, where it is the latest of all inserts, invalidations and clears so far |
| `ImageCache.ImageMappingCache.FinishZoom` | crates/mcp/src/server.rs:1541-1549 | all views stay current exactly when nothing since the lookup left the window with another latest observation or none |
| `ImageCache.StillLatestExactly` | crates/mcp/src/server.rs:1502-1549 | over any history, an observation is still its window's latest exactly when the last insert, invalidation or clear that touched the window, if any, inserted it again |
| `ImageCache.OvertakenZoom` | crates/mcp/src/server.rs:1502-1549 | a second observation between the two halves of a zoom leaves a view that is not current |
| `ImageCache.ReobservedZoom` | crates/mcp/src/server.rs:485-509 | invalidating the window and inserting the same observation again in between leaves all views current |
| `Geometry.ToPixelAxisInRange` | crates/protocol/src/geometry.rs:66-84 | under any rounding with the stated error, every coordinate of 0..1000 maps inside the axis |
| `Geometry.ToPixelAxisMonotone` | crates/protocol/src/geometry.rs:66-84 | a coordinate further along never maps to an earlier pixel |
| `Geometry.AxisRoundTrip` | crates/protocol/src/geometry.rs:66-97 | pixel to normalized and back is the same pixel, for every u32 length |
| `Geometry.ToPixelAgreesWithIntegerPath` | crates/mcp/src/server.rs:2118-2121 | for whole coordinates the floating-point and the integer path choose the same pixel |
| `Geometry.PointRoundTrip` | crates/protocol/src/geometry.rs:86-97 | a point projects exactly when it is in the image, and comes back as itself |
| `Geometry.ToPixelHitsImage` | crates/protocol/src/geometry.rs:66-84 | a point maps to a pixel exactly when both coordinates are finite numbers in 0..1000 and the image is nonempty, and then inside the image |
| `Geometry.ToScreenContained` | crates/protocol/src/geometry.rs:147-161 | for every positive extent, every pixel maps to a logical point the captured rectangle contains |
| `Binary64.NearestIsRounding` | crates/protocol/src/geometry.rs:66-97 | round-to-nearest-even with 53 bits and gradual underflow has every property the geometry results assume of a rounding |
| `LongEdge.FitsTheBudget` | crates/protocol/src/geometry.rs:112-127 | refused only for an empty image or budget; a fitting image is untouched, any other gets its long edge exactly on the budget with each side rounded up by less than a pixel; fitting twice changes nothing |
| `Zoom.RegionAccepted` | crates/mcp/src/server.rs:2123-2157 | a region is refused exactly when malformed; otherwise its crop is tight around it and inside the image |
| `Zoom.CropRows` | crates/mcp/src/server.rs:2276-2308 | for a rectangle inside the image the row loop takes no error branch and yields the crop; whatever the rectangle, a result has the stated size and every row read lies in the buffer |
| `Zoom.CropShowsSource` | crates/mcp/src/server.rs:2276-2308 | crop pixel (i, j) is source pixel (x + i, y + j), byte for byte |
| `Zoom.ZoomShowsWhatItClicks` | crates/mcp/src/server.rs:1737-1748 | for every image, accepted region and view coordinate, the clicked point lies in the crop, survives normalization, and shows the source pixel displayed there |
| `Zoom.WholeImageZoomIsDirectClick` | crates/mcp/src/server.rs:2111-2157 | a click in a whole-image zoom hits the pixel of the direct normalized click |
| `Environment.StepKeepsInv` | crates/host/src/environment.rs:340-464 | with an arbitrary provider and every call split at its awaits: limits hold, the pending counters are the calls in flight so subtraction never clips, and every retained snapshot and clone matches the descriptor |
| `Environment.RunKeepsInv` | crates/host/src/environment.rs:340-464 | the same in every state of every run |
| `Environment.NamedSnapshotUntouched` | crates/host/src/environment.rs:454-464 | no step removes or replaces a snapshot that a retained clone names |
| `Environment.RaceFreeRunAnchored` | crates/host/src/environment.rs:409-464 | while no snapshot is removed from under a clone in flight, every retained clone names a retained snapshot |
| `Environment.RacyRemovalCanDangle` | crates/host/src/environment.rs:454-464 | from every state where such a removal happens, a provider answer leads to a clone without its snapshot: the guard ignores pending clones |
| `Environment.DanglingRun` | crates/host/src/environment.rs:409-464 | such a state is reached: a run from nothing that ends with a retained clone whose snapshot is gone |
| `Environment.OpaqueExactly` | crates/host/src/environment.rs:551-559 | a name is usable exactly when nonempty, equal to itself trimmed of Unicode white space, and within the bound in UTF-8 |
| `HostEnvironment.EnvironmentManager.BeginSnapshot` | crates/host/src/environment.rs:340-357 | a slot is reserved exactly when capability, names and capacity allow |
| `HostEnvironment.EnvironmentManager.EndSnapshot` | crates/host/src/environment.rs:358-376 | the reservation goes in every case; a snapshot stays exactly when it names this worker, epoch and base image, is well-formed and has a new reference |
| `HostEnvironment.EnvironmentManager.LookUp` | crates/host/src/environment.rs:466-478 | a clone starts exactly from a retained snapshot |
| `HostEnvironment.EnvironmentManager.ReserveClone` | crates/host/src/environment.rs:413-421 | a slot exactly while capacity lasts |
| `HostEnvironment.EnvironmentManager.EndClone` | crates/host/src/environment.rs:422-436 | the reservation goes in every case; a clone stays exactly when it names the snapshot looked up and its image, is well-formed and has a new reference |
| `HostEnvironment.EnvironmentManager.BeginReset` | crates/host/src/environment.rs:389-391 | the provider is asked exactly for a capable provider, valid names and a retained snapshot, with that snapshot |
| `HostEnvironment.EnvironmentManager.FinishReset` | crates/host/src/environment.rs:392-399 | the answer is passed on exactly when it matches the snapshot looked up before and names the same environment |
| `HostEnvironment.EnvironmentManager.ReleaseClone` | crates/host/src/environment.rs:440-447 | one clone goes, and whether there was one |
| `HostEnvironment.EnvironmentManager.RemoveSnapshot` | crates/host/src/environment.rs:454-464 | busy exactly while a retained clone names the snapshot |
| `PrivateStore.Store.Install` | crates/provider/src/registration.rs:191-250 | success exactly when nothing is in the way and no primitive fails; a failed install leaves something behind exactly when a discarded clean-up failed, and a record in force exactly when the write took effect, it or the flush reported failure, and both clean-ups were refused |
| `PrivateStore.Store.Remove` | crates/provider/src/registration.rs:322-328 | the file goes before the secret; success exactly when both removals report it, and then neither is left |
| `Integration.Machine.InstallSkill` | crates/cli/src/integration.rs:1042-1080 | the embedded Skill, or an error that leaves its directory exactly when discarded clean-up failed; an existing directory is never touched |
| `Integration.Machine.RemoveSkill` | crates/cli/src/integration.rs:1082-1098 | a Skill with different content is never deleted; success leaves neither file nor directory |
| `Integration.Machine.Rollback` | crates/cli/src/integration.rs:707-735 | reported clean exactly when every attempted removal succeeded; clean means nothing installed is left and no alias launches the registration |
| `Integration.Machine.Prepare` | crates/cli/src/integration.rs:625-705 | the plan is consumed and returned exactly when it is a conforming plan within its ten minutes and the executables, the Skill, the alias and the configuration agree; outside the ten minutes it is stale and nothing changes |
| `Integration.Machine.Perform` | crates/cli/src/integration.rs:630-651 | how far the installing steps get for each fault schedule, and what exists at that point |
| `Integration.Machine.Apply` | crates/cli/src/integration.rs:617-671 | success within the plan's ten minutes leaves the registration in force, the Skill, an alias that launches exactly it and a receipt that makes it removable, once per plan; an error other than RollbackIncomplete leaves no owned alias and restores the rest exactly when no discarded clean-up failed; RollbackIncomplete exactly when an undo step failed |
| `Integration.FailedApplyLeavesLiveRegistration` | crates/provider/src/registration.rs:240-246 | a plan and fault schedule for which an ordinary error leaves a live registration: the unconditional promise is false |
| `Integration.Machine.RemoveIntegration` | crates/cli/src/integration.rs:737-774 | success leaves nothing; once the registration's removal succeeds it is absent on every later exit; anything else is only touched after that and only where it is what the receipt names; without faults the result is success exactly for an untouched integration on the same host, else drift; a failed removal stays removable while its receipt does |
| `Ledger.BeginTidy` | crates/transport/src/dispatcher.rs:240-276 | admission keeps the counter equal to the pending entries and both bounds |
| `Ledger.FinishTidy` | crates/transport/src/dispatcher.rs:493-519 | completing frees exactly one slot and the saturating subtraction never clips |
| `Ledger.BeginRetains` | crates/transport/src/dispatcher.rs:472-478 | admitting work never evicts or alters a pending entry or an unexpired result |
| `Ledger.RequestLedger.BeginRequest` | crates/transport/src/dispatcher.rs:240-276 | after the purge: conflict for another command under this identity, replay or join for the same one, busy for want of a slot or of room, else a new pending entry |
| `Ledger.RequestLedger.CompleteRequest` | crates/transport/src/dispatcher.rs:493-519 | the pending entry becomes a result with its expiry |
| `Ledger.RequestLedger.Reconcile` | crates/transport/src/dispatcher.rs:319-381 | reads one identity, drops only expired results and admits nothing |
| `RetryClient.MutationRequest.Wait` | sdk/go/client.go:543-582 | exactly which waits are rejected and why; a transmitted wait settles exactly for success or NotDispatched and otherwise leaves the request as it was; over every sequence of waits one request id and one command, non-decreasing waits, nothing sent after completion, past the horizon or under a cancelled context |
| `AtMostOnce.ExecutedAtMostOnce` | crates/transport/src/dispatcher.rs:240-276 | when results outlast horizon plus delivery delay, no identity executes twice in any run of clients, lossy reordering transport and ledger |
| `AtMostOnce.AtMostOnceExactly` | crates/transport/src/dispatcher.rs:472-478 | executing at most once holds in all runs if and only if results outlast horizon plus delay |
| `AtMostOnce.LateCopyExecutesAgain` | sdk/go/client.go:543-582 | otherwise, for all such parameters, a run that executes one mutation twice |
| `AtMostOnce.DefaultsOverlap` | sdk/go/client.go:60-66 | no horizon the SDK accepts is covered by the ten-minute default retention |
| `AtMostOnce.AnswersAreTrue` | crates/transport/src/dispatcher.rs:240-276 | a busy answer of the ledger means never executed, a replay is the one outcome, joining means still running, and an SDK copy never conflicts |
| `AtMostOnce.LearnsTheTruth` | crates/transport/src/dispatcher.rs:192-238 | over each request's one open round trip: an outcome the SDK hears is the one its only execution reached, an elapsed wait means still running, and anything else is a refusal before admission |
| `AtMostOnce.LearnsOfLastCopy` | sdk/go/client.go:543-582 | the reply the SDK learns was given to the copy of its last send, after that send, or is the outcome of the execution that copy joined |
| `AtMostOnce.InconclusiveIsResent` | sdk/go/client.go:572-581 | after a lost, indeterminate or inapplicable reply the next wait, if no shorter and within the horizon and the wire bound, sends another copy of the same command |
| `AtMostOnce.ReconciliationIsTrue` | crates/transport/src/dispatcher.rs:319-381 | reconciliation reports the recorded outcome, a running execution, or unknown only when never executed or past retention |
| `AtMostOnce.WatcherSeesTheOutcome` | crates/transport/src/dispatcher.rs:319-381 | an identity watched while pending completes with the one outcome every later lookup reports, until retention drops it |
| `Overtaking.RefusedForGood` | crates/transport/src/dispatcher.rs:218-226 | a mutation whose last copy is refused for capacity, and which the SDK then settles, never executes in the run if no copy could still start it at the refusal |
| `Overtaking.SettledStartsExactly` | crates/transport/src/dispatcher.rs:240-276 | with sufficient retention, a settled request that never started can still start exactly when an acceptable copy of it is on its way and may arrive after enough results have expired, whatever it was refused for |
| `Refusals.OvertakingExactly` | sdk/go/client.go:543-582 | some run lets a request refused for capacity and settled as not dispatched execute, exactly when the ledger has more room than slots or copies take time to arrive |
| `Refusals.OvertakenBySlot` | sdk/go/client.go:572-578 | from the start: the copy sent last finds no slot, the SDK hears so and settles, and an older copy then executes in a slot freed meanwhile |
| `Refusals.OvertakenByExpiry` | crates/transport/src/dispatcher.rs:472-478 | the same with a ledger full of results, one of which expires before the older copy arrives |
| `Refusals.RefusalsTrueExactly` | crates/transport/src/dispatcher.rs:174-181 | the copy waited for is refused only when its request never started, in all runs, exactly when the dispatcher's longest wait is the longest the SDK can ask for |
| `Refusals.RefusedWhileRunning` | crates/transport/src/dispatcher.rs:102-107 | otherwise a run in which extending the wait settles a running mutation as not dispatched |
| `Framing.TruncationReadsPrefix` | crates/host/src/wire.rs:113-139 | however a stream of frames is cut, exactly the whole frames before the cut are read, and the end is clean exactly between frames |
| `Framing.RoundTrip` | crates/host/src/wire.rs:113-164 | any sequence of payloads within the bound decodes to itself |
| `Framing.ReadOneExactly` | crates/host/src/wire.rs:113-139 | on any bytes: nothing, a cut header, a length outside the bound, a cut payload, or the payload, as the first four bytes decide |
| `Framing.Connection.WriteAll` | sdk/go/transport.go:44-56 | through any short writes the payload arrives whole, exactly when the sink never fails or stalls |
| `Framing.Connection.WriteFrame` | sdk/go/transport.go:16-26 | what was sent is the frames of the payloads written; a payload outside the bound sends nothing |
| `Framing.Source.ReadFrame` | crates/host/src/wire.rs:113-143 | end of stream only before the first byte, UnexpectedEof inside a frame, refusal outside the bound or of an invalid payload, else the payload and the bytes behind it |
| `Framing.UnderstoodIsLongest` | crates/host/src/wire.rs:140-142 | the messages read are the longest valid prefix of the frames, and only an invalid frame cuts it short |
| `Framing.Source.Serve` | crates/host/src/wire.rs:63-90 | refused for a bound of zero or above 64 MiB; if it finishes, exactly the whole requests before the first invalid one were answered, in order; if writing fails, exactly a proper prefix of them was |
| `Framing.Source.ReadResponse` | sdk/go/transport.go:28-42 | the SDK reader accepts the same frames as the gateway's |
| `InputText.Chunks` | crates/platform/src/input_text.rs:3-17 | nonempty packets of at most 20 units, only the last under 19, that join to the input; all well-formed UTF-16 exactly when the input is |
| `InputText.WellFormedExactly` | crates/platform/src/input_text.rs:3-17 | text counts as well-formed exactly when it is the UTF-16 form of some sequence of scalar values |
| `Fingerprint.SampleInside` | crates/platform/src/observation.rs:9-14 | samples are inside the image, and a grid-sized image samples as itself |
| `Fingerprint.SampleNearest` | crates/platform/src/observation.rs:9-14 | a sample is the pixel nearest to its share of the axis, or the last one |
| `Fingerprint.VisualSignature` | crates/platform/src/observation.rs:79-97 | the sampling loops compute the specified 1024 lumas, each a byte, or nothing for an empty image |
| `Fingerprint.SignatureExactly` | crates/platform/src/observation.rs:79-97 | each byte is the mean 54 red, 183 green, 19 blue of the pixel sampled for it, rounded down, read row by row |
| `Fingerprint.CopyBuffer` | crates/platform/src/macos/stream.rs:139-204 | a copy exactly for a readable BGRA buffer with pixels, within the size bound and wide enough in pitch, and then with every pixel in straight-alpha RGBA form, whole or sampled |
| `Fingerprint.CaptureExactly` | crates/platform/src/macos/stream.rs:158-204 | a whole capture has every pixel of the buffer in its place with red and blue exchanged |
| `Fingerprint.StraightExactly` | crates/platform/src/macos/stream.rs:193-198 | opaque and transparent pixels stay; else a channel becomes its share of alpha in 255ths, rounded down and clipped |
| `Fingerprint.SampledSameSignature` | crates/platform/src/observation.rs:79-97 | any complete image and its 32 by 32 sampling have the same 1024-byte signature |
| `Fingerprint.SamplingExists` | crates/platform/src/observation.rs:79-97 | every complete image has such a sampling |
| `Fingerprint.SampledCaptureSameSignature` | crates/platform/src/observation.rs:79-97 | a sampled capture has the signature of the full capture of the same buffer |
| `FingerprintMatch.SplitPrint` | crates/platform/src/observation.rs:20-45 | splitting a printed fingerprint gives back what was printed |
| `FingerprintMatch.SplitExactly` | crates/platform/src/observation.rs:43-49 | any text is split at its first separator, and only if it has one |
| `FingerprintMatch.UnhexHex` | crates/platform/src/observation.rs:20-41 | hexadecimal printing is inverted by decoding |
| `FingerprintMatch.FingerprintsMatch` | crates/platform/src/observation.rs:43-70 | the accumulator loop decides the specified match on any two texts |
| `FingerprintMatch.CloseExactly` | crates/platform/src/observation.rs:57-70 | two signatures are close exactly when nonempty, equally long, at most 8 apart on average and more than 24 apart in at most a fifth of the samples |
| `FingerprintMatch.MatchSymmetric` | crates/platform/src/observation.rs:43-70 | matching is symmetric on all texts |
| `FingerprintMatch.MatchExactly` | crates/platform/src/observation.rs:43-70 | printed fingerprints match exactly when digests agree and neither has an image or both are nonempty and within both tolerances |
| `FingerprintMatch.MatchesItselfExactly` | crates/platform/src/observation.rs:57-59 | a fingerprint matches itself unless its image had no pixels |
| `ArchivePath.CanonicalArchivePath` | scripts/package_channels.py:723-741 | the stripping loop and the part checks compute the specified name |
| `ArchivePath.AcceptedExactly` | scripts/package_channels.py:723-741 | a name is accepted exactly when it is some leading '.' parts, then places of portable characters other than '.' and '..', then, for a directory, empty parts; a place is needed except for the root directory |
| `ArchivePath.CanonicalIsFixed` | scripts/package_channels.py:723-741 | a canonical name is accepted unchanged, as file or directory |
| `ArchivePath.AcceptedIsCanonical` | scripts/package_channels.py:723-741 | every accepted name is canonical, so accepting is idempotent |
| `ArchivePath.NameLeadsTheSameWay` | scripts/package_channels.py:723-741 | walking the raw and the accepted name from the top, with '..' going up, leads to the same place, which is the accepted parts, and neither ever goes up |
| `ArchivePath.ParentIsAbove` | scripts/package_channels.py:755-767 | every parent joined from leading parts is a proper ancestor |
| `ArchivePath.AboveIsParent` | scripts/package_channels.py:755-767 | every proper ancestor is one of those parents |
| `Archive.ReadArchiveFile` | scripts/package_channels.py:770-802 | through any chunking a member is read exactly when its size is the declared one and within bounds, with all its bytes hashed and its mode kept, and never more than one byte past the declared size is taken |
| `Archive.Inspector.RejectsHierarchy` | scripts/package_channels.py:755-767 | refused exactly when a recorded file is above the name or, for a file, the name is above something seen |
| `Archive.Inspector.RecordFile` | scripts/package_channels.py:805-832 | a file is recorded exactly when it fits every earlier member and the bounds |
| `Archive.AcceptableExactly` | scripts/package_channels.py:835-929 | at most 4096 members and 512 MiB, each sound by itself, no two under one name and no file above anything |
| `Archive.TarSoundExactly` | scripts/package_channels.py:847-876 | a tar member is sound exactly when under the root and, unless a directory, a readable regular file of its stated size within the bounds; its bytes and mode are recorded |
| `Archive.ZipSoundExactly` | scripts/package_channels.py:891-926 | the same for ZIP, with encryption, compression method and the file type in the attributes checked, and a zero mode recorded as none |
| `Archive.InspectTar` | scripts/package_channels.py:835-878 | a member sequence is accepted exactly when it describes one bounded file tree, and the result is exactly its regular files with their bytes and modes |
| `Archive.InspectZip` | scripts/package_channels.py:881-929 | the same for the ZIP loop, its format checks and the mode in its external attributes |
| `Archive.AcceptedIsTree` | scripts/package_channels.py:835-929 | accepted files have distinct canonical paths that lead strictly below where the root leads, none above any member, within the count bound, their sizes true and within the byte bound together |
| `Archive.OrderDoesNotMatter` | scripts/package_channels.py:835-929 | any reordering of the members leaves acceptance as it was |

## Left out

- Registry listing: sorted output of a read-only call, an easy member.
- Wall-clock expiry strings, policy and descriptor validators, and protocol enums: one-branch checks without state.
- Geometry.ToScreenContained: screen rectangles are real, so non-finite ones are not covered.
- Cancellation of a task at an await: every call that starts is assumed to run on, and drops of permits by cancelled tasks are not modelled.
- SessionSlot.NoSessionLeftBehind: assumes the runtime honours a CloseSession it receives; the slot read under the operation lock is one step with taking that lock.
- Gateway.StepKeepsInv: taking a permit and resolving the lease are merged into one step, so a call that finds no permit only because another one still waits for the registry is not modelled.
- ImageCache.ImageMappingCache.Insert: requires that an observation id is never shared by two windows, which holds for freshly issued ids; image content is its size.
- ImageCache.ImageMappingCache.Clear: emptiness after `close` is not claimed, since a concurrent observation may insert afterwards.
- Integration.Machine.Apply: assumes no other writer; in particular two applies of one plan at the same time are not modelled. The root directory of the Skill, which `create_dir_all` may create, is not tracked.
- Integration.Machine.Prepare: whether the authority policy accepts the registration request is a boolean of the environment.
- Fingerprint.CopyBuffer: requires the locked memory to hold the rows its height and pitch announce, which the platform guarantees.
- AtMostOnce.ExecutedAtMostOnce: SDK and dispatcher read one clock, and a command stands for its digest; restarts of the runtime, which empty the ledger, are not modelled. How long a written copy may wait before the dispatcher takes it up is the parameter `delay`.
- Framing.Source.ReadFrame: which payloads are valid JSON is a parameter.
- FingerprintMatch.MatchExactly: a geometry digest is its bytes; SHA-256 itself is not modelled.
- Fingerprint.VisualSignature: the pixel index is unbounded, while the source computes it in 64 bits; the two agree for every buffer that fits in memory.
- Archive.InspectTar: a digest is the bytes it was computed over.
- Platform drivers, HTTP and MCP serving, tokens, command-line parsing, PNG, JSON and base64 codecs, and release scripts other than the archive inspector.
