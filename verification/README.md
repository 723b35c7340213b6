# Governance protocols, verified

The repository lets agents act only through a shared store of atoms and a few protocols around it.
This project models the protocols with the most state and proves what they guarantee over every run.

- **Work claims.** A claim is dispatched to a sub-agent and closed only by an attestation that passes
  nine gates and a ground-truth verifier. Modelled twice: as the imperative code (`ClaimSerial`, class
  `ClaimHost`) and as steps between awaits (`ClaimProtocol`, `ClaimRuns`), so that any number of calls,
  dispatches, reaper moves and foreign writes interleave. Both use one step function, and
  `ClaimAlone.AloneEnds` says where a call ends without naming it;
  `ClaimHistories.AloneIsARun` joins them. `ClaimTheorems`, `ClaimAnswers`,
  `ClaimOverlap`, `ClaimTokens` and `ClaimCounting` say what interleavings guarantee and what overlap costs.
- **Provenance walks.** The forward walk to an atom's ancestors (`AuditChain`), the reverse walk to what
  derives from it (`AtomCascade`), both against shortest-path distance (`ProvenanceGraph`), and the
  theorem that says exactly when the two are duals.
- **Console pipelines.** Abandon and resume as file operations interleaved with each other and with other
  writers (`PipelineConsole`, `PipelineAnswers`), the single-flight health cache (`HealthCache`), and the principal-depth and
  source-rank arithmetic (`SourceRank`).
- **Service lock.** Any number of callers over one pid file and one lock file, with crashes, dying
  processes and pid-file removal (`ServiceLock`), and what each caller is told (`ServiceAnswers`).
- **Text.** The message splitter (`TelegramSplit`, `SpoilerSafety`), the git-log record format against a
  printer (`GitLog`, `GitSeparators`, `GitRoundTrip`, `GitExactness`) and the capped, deduplicating ingest
  (`GitIngest`).

## Where the code and its documentation disagree

The model follows the code. Each disagreement has a lemma that exhibits it on a concrete run or input,
and the exact condition under which the documented property does hold.

- A complete claim is documented as terminal. It is when calls do not overlap
  (`ClaimHistories.ClosedStaysClosed`); with overlap a stale call can reopen it
  (`OverlapReopensACompleteClaim`), exactly when `CompletionIsFinalExactlyWhen` says.
- The failure count is meant to count the recorded failures. It does as long as no two calls that have
  passed the gates of the same claim overlap, whatever else interleaves, and no call faults between
  recording and counting (`CountIsExactWithoutOverlap`). With overlap a count can be lost at the closing
  write (`OverlapLosesAFailure`) or erased by a stale flip (`StaleFlipErasesAFailure`);
  `WriteIsExactExactlyWhen` says which writes leave it exact.
- A verifier that throws `null` is recorded as a ground-truth mismatch and not counted, because `null`
  marks the absence of an error (src/substrate/claim-contract.ts:763-803; `ThrownNullIsAMismatch`,
  `ThrownNullHappens`).
- A holder of the token from before a recovery is said to fail its attestation
  (src/runtime/loop/claim-reaper.ts:72-75). Nothing after gate 4 looks at the token, so a call
  already past the gates still completes a recovered claim (`OldTokenCompletes`,
  `OldTokenIsAcceptedExactlyWhen`). And the rotation itself can be undone: a call that read the record
  before the recovery writes the old token back, after which the holder of the new token is refused and
  a call that only then begins, with the old one, is accepted (`RotationIsUndone`). The old token is gone
  for good exactly when no call on the claim is about to write a record that carries it and no open
  dispatch does (`OldTokenIsGoneExactlyWhen`).
- Re-reading the record and merging over it is said to preserve what a concurrent reaper wrote
  (src/substrate/claim-contract.ts:731-737, 841-844). It preserves what was written before the read; a
  write between the read and the update is lost, and the recovery attempts fall back (`RotationIsUndone`).
  They never fall exactly when no call is about to write a record with fewer and no open dispatch would
  start the claim over (`AttemptsNeverFallExactlyWhen`).
- The console's re-read before a state flip is called a compare-and-set, but read and write are separate
  steps: an abandon that succeeded can be undone (`ResumeCanUndoAbandon`, `TerminalIsFinalExactlyWhen`).
- A resume keeps its audit atom when its own final write fails (`ResumeLeavesItsAtom`,
  `ThrowLeavesAtomExactlyWhen`).
- The service lock is said to make exactly one caller win. The pid file is not read again under the lock,
  so two services can run (`TwoServicesCanRun`, `NoDoubleStartExactlyWhen`). A leaked lock is said to cost
  one retry loop; it stops every later start (`CrashOrphansTheLock`, `NoStartEverAgainExactlyWhen`).
- The splitter is said never to cut inside a fenced block or a spoiler pair. It can cut a whole block in
  the window (`WholeBlockInTheWindowIsCut`, `FenceSafeExactlyWhen`), a spoiler that opens within 30% of the
  limit (`EarlySpoilerIsCut`) and one whose closing tag straddles the limit (`StraddlingSpoilerIsCut`);
  `SpoilerSafeExactlyWhen` gives the condition for every text, `OpenSpoilerSafeExactlyWhen` in terms of the
  finder's results alone for texts in which spoilers do not nest.
- The git-log separators are said to let any commit message through: a field separator inside a body cuts
  it (`SeparatorInBodyTruncates`). `RoundTripExactlyWhen` gives the condition.
- A dry run is meant to preview the real one: it counts commits whose ids collide more than once
  (`DryRunCanOvercount`, `DryRunPredictsExactlyWhen`).

## Model

| member | source | states |
|---|---|---|
| `ClaimProtocol.GateIsExact` | src/substrate/claim-contract.ts:654-729 | gates 2 to 7 let a call through exactly when the atom is a claim, executing or attesting, whose token, principal, identifier and kind are the call's; each refusal is given exactly when its gate is the first that fails |
| `ClaimRuns.CountNeverDrops` | src/substrate/claim-contract.ts:998-1041 | as the store grows, no claim has fewer failures on record |
| `ClaimRuns.RecordingCountsOne` | src/substrate/claim-contract.ts:998-1041 | a new failure rejection adds exactly one to the failures on record of its claim and nothing to any other |
| `ClaimInvariant.UpdateIsOk` | src/substrate/claim-contract.ts:738-880 | what a call writes over a claim keeps its terms, and its count stays within the failures on record, however stale the snapshot |
| `ClaimInvariant.UpdateHasCause` | src/substrate/claim-contract.ts:800-940 | an update completes a claim only by a call whose confirmed acceptance is on record, and stalls it only by one whose recorded failure brings the count to its cap |
| `ClaimInvariant.ReaperMoveIsSafe` | src/runtime/loop/claim-reaper.ts:449-480 | no reaper move completes a claim, changes its principal or its brief beyond the deadline, or raises its count |
| `ClaimInvariant.NextKeepsInv` | src/substrate/claim-contract.ts:639-1041 | every step of every participant keeps the protocol invariant |
| `ClaimInvariant.InvHolds` | src/substrate/claim-contract.ts:639-1041 | the invariant holds in every state any interleaving reaches |
| `ClaimTheorems.CompletionIsEarned` | src/substrate/claim-contract.ts:639-854 | in every interleaving, a complete claim has an acceptance on record written by a call that matched token, principal, identifier and kind and whose verifier confirmed |
| `ClaimTheorems.TermsNeverChange` | src/substrate/claim-contract.ts:738-743 | between any two moments of any run a claim keeps its id, principal and brief; only the reaper moves the deadline |
| `ClaimTheorems.StallsAreEarned` | src/substrate/claim-contract.ts:906-940 | in every interleaving the failure count is at most the failures on record, and a claim the reaper has not touched stalls only at the cap of some call, covered by recorded failures |
| `ClaimTheorems.CallsAndAtomsPairOff` | src/substrate/claim-contract.ts:998-1041 | calls that wrote audit atoms are as many as those atoms |
| `ClaimTheorems.ReturnsAndAuditsPairUp` | src/substrate/claim-contract.ts:998-1041 | once all calls returned, each but those that found no claim has its own audit atom with its claim, caller, reason and observed state, and each audit atom belongs to exactly one call |
| `ClaimTheorems.AuditTrailIsExact` | src/substrate/claim-contract.ts:649-729 | once all calls returned, per claim: as many acceptances as accepting returns, as many rejections as rejecting returns reason by reason, and no atom for claim-not-found |
| `ClaimTheorems.StallsLeaveANote` | src/substrate/claim-contract.ts:941-990 | once all calls returned, a claim stalled by attestation has a claim-stalled atom |
| `ClaimTheorems.FinalIsForever` | src/substrate/claim-contract.ts:731-743 | a complete claim with no armed call and no open dispatch stays complete in every continuation |
| `ClaimTheorems.ArmedCallCanReopen` | src/substrate/claim-contract.ts:738-743 | a call that passed the gates earlier can take a complete claim out of complete |
| `ClaimTheorems.CompletionIsFinalExactlyWhen` | src/substrate/claim-contract.ts:731-743 | completion survives every continuation if and only if no armed call is in flight and no dispatch has yet to activate |
| `ClaimAlone.AloneEnds` | src/substrate/claim-contract.ts:639-990 | for every input, store and world, a call with nothing in between ends with the answer, the audit atom, the record and the note that these determine, throws included |
| `ClaimAnswers.StopRefusesTheCall` | src/substrate/claim-contract.ts:646-652 | in every interleaving a call whose first step sees STOP is refused for it whatever follows, with its rejection on record once it returns, and never has a snapshot, a verdict or an acceptance |
| `ClaimAnswers.GateDecidesTheCall` | src/substrate/claim-contract.ts:654-729 | in every interleaving a call that reads the claim goes on with that record if all gates match, and is otherwise refused for good with the first that fails in the store it read |
| `ClaimAnswers.VerdictDecidesTheAnswer` | src/substrate/claim-contract.ts:763-880 | in every reachable state a call that asked the verifier returns what the verdict comes to, with the atom that says so on record |
| `ClaimAnswers.ClosingWriteSays` | src/substrate/claim-contract.ts:841-940 | in every reachable state the closing write changes only state, count and rejection time of the record just re-read; after a mismatch or a failure that time is the time of the write |
| `ClaimAnswers.StepThrowsExactlyWhen` | src/substrate/claim-contract.ts:639-1041 | in every reachable state a step throws if and only if what it awaits throws, its atom id is taken or the cap is not positive, and a throw writes nothing |
| `ClaimAnswers.DispatchWritesTwice` | src/substrate/claim-contract.ts:361-484 | in every interleaving dispatch records the claim as pending with nothing counted, and its second update writes exactly that as executing over whatever became of it |
| `ClaimAnswers.ReaperMoveSays` | src/runtime/loop/claim-reaper.ts:449-920 | a reaper move stalls an open or pending claim, abandons or recovers a stalled one or adds a session, changes nothing else, and a recovery starts over under a new token, tier and deadline with one more attempt |
| `ClaimOverlap.StaleCallCanClose` | src/substrate/claim-contract.ts:889-940 | a call past the gates can by its own steps close the claim with any verdict, whatever others wrote since: a completion, its snapshot's count plus one, or the count of the record it wrote over |
| `ClaimCounting.CountIsExactWithoutOverlap` | src/substrate/claim-contract.ts:906-940 | in every interleaving in which no two calls past the gates of the claim overlap, none faults with a failure uncounted and the reaper leaves it alone: an unfinished claim's count is the failures on record whenever no call is busy with it |
| `ClaimOverlap.WriteIsExactExactlyWhen` | src/substrate/claim-contract.ts:738-743 | in every reachable state a write leaves the count exact if and only if the count it relies on was current: for a failure, when the gate-time snapshot held every other failure on record; for a flip or mismatch, when the record merged over did |
| `ClaimOverlap.OverlapLosesAFailure` | src/substrate/claim-contract.ts:914-940 | a concrete run with two timeouts on record and a count of one |
| `ClaimOverlap.StaleFlipErasesAFailure` | src/substrate/claim-contract.ts:738-743 | a concrete run in which a flip to attesting sets the count back to zero |
| `ClaimOverlap.OverlapReopensACompleteClaim` | src/substrate/claim-contract.ts:738-743 | a concrete run in which a complete claim leaves complete |
| `ClaimOverlap.ThrownNullIsAMismatch` | src/substrate/claim-contract.ts:782-799 | over every run, a call whose verifier threw returns verifier-error if and only if the value was not null, and otherwise a ground-truth mismatch, on record as that and not as a failure |
| `ClaimOverlap.ThrownNullIsNotCounted` | src/substrate/claim-contract.ts:855-880 | its closing write leaves the count it read |
| `ClaimOverlap.ThrownNullHappens` | src/substrate/claim-contract.ts:782-799 | a concrete run in which a verifier throws null and nothing is counted |
| `ClaimOverlap.OldTokenIsAcceptedExactlyWhen` | src/substrate/claim-contract.ts:701-743 | a running call whose token is not its claim's is still accepted by its own steps if and only if it had passed the gates and its verifier may yet confirm, whichever record it is about to write over |
| `ClaimOverlap.OldTokenCompletes` | src/runtime/loop/claim-reaper.ts:718-750 | a concrete run in which a recovered claim is completed by a call that holds the token from before |
| `ClaimTokens.OldTokenIsGoneExactlyWhen` | src/runtime/loop/claim-reaper.ts:72-75 | in every reachable state whose record carries another token than t: t never returns to the record and no call holding it passes the gates any more, in every continuation that does not draw t again, if and only if no call on the claim is about to write back a record that carries t and no open dispatch does |
| `ClaimTokens.AttemptsNeverFallExactlyWhen` | src/substrate/claim-contract.ts:731-743 | in every reachable state: no continuation takes a claim's recovery attempts below what they are if and only if no call on it is about to write back a record with fewer and no open dispatch would start it over |
| `ClaimTokens.RotationIsUndone` | src/substrate/claim-contract.ts:738-743 | a concrete run in which a flip read before a recovery puts the old token and no attempts back: the new token is refused, and a call that only begins then, with the old one, is accepted |
| `ClaimSerial.ClaimHost.PutAtom` | src/substrate/claim-contract.ts:813-840 | a put adds a new atom and nothing else, and fails on an id already taken |
| `ClaimSerial.ClaimHost.WriteRejectionAtom` | src/substrate/claim-contract.ts:998-1041 | the rejection goes on record with its reason, observed state and error, or nothing changes |
| `ClaimSerial.ClaimHost.ReadLatestClaimMeta` | src/substrate/claim-contract.ts:889-904 | returns the stored record exactly when the atom is a claim |
| `ClaimSerial.ClaimHost.FinalizeVerifierInfraFailure` | src/substrate/claim-contract.ts:906-990 | records, counts and at the cap stalls, exactly as the call's steps do |
| `ClaimSerial.ClaimHost.AcceptClaim` | src/substrate/claim-contract.ts:800-854 | records the acceptance and completes the claim exactly as the call's steps do |
| `ClaimSerial.ClaimHost.RejectMismatch` | src/substrate/claim-contract.ts:855-880 | records a mismatch and leaves the claim attesting exactly as the call's steps do |
| `ClaimSerial.ClaimHost.MarkClaimComplete` | src/substrate/claim-contract.ts:639-880 | the imperative code ends where its steps end when nothing runs in between, and where the input, the store and the world say: under STOP one stop-sentinel rejection and nothing else; at a gate the refusal of the first that fails; past the gates, verdict by verdict, one audit atom, the closed record, a note if it stalls; nothing after a throw |
| `ClaimSerial.ClaimHost.DispatchSubAgent` | src/substrate/claim-contract.ts:295-493 | each error exactly when its gate is the first that fails, and then no trace; otherwise one adapter run, entered with the pending claim on record, whose preamble carries the claim, token, caller, kind, identifier, terminal states, deadline and prompt; the record keeps the terms, the token, the tier or `default`, the parent and the reference of a spilled prompt, and ends executing |
| `ClaimHistories.OneAttestation` | src/substrate/claim-contract.ts:639-940 | what one serial attestation can do to any claim: its own open claim at most, one verdict, one count |
| `ClaimHistories.AttestationFollowsTheGraph` | src/substrate/types.ts:889-908 | from any store, every write of a serial attestation follows an edge of the documented state graph or stays put |
| `ClaimHistories.ClosedStaysClosed` | src/substrate/claim-contract.ts:670-699 | in serial histories a complete, abandoned or stalled claim never changes again |
| `ClaimHistories.AtMostOneAcceptance` | src/substrate/claim-contract.ts:800-854 | a serial history accepts a claim at most once |
| `ClaimHistories.StalledExactlyAtCap` | src/substrate/claim-contract.ts:906-940 | in serial histories a claim is stalled if and only if its count has reached the cap |
| `ClaimHistories.CountIsExact` | src/substrate/claim-contract.ts:906-940 | in serial histories an unaccepted claim's count equals the failures on record |
| `ClaimHistories.EchoReachesVerifier` | src/substrate/claim-contract.ts:240-265 | after any serial history, an attestation echoing the preamble reaches the verifier when STOP is off and the claim is open |
| `ClaimHistories.AloneIsARun` | src/substrate/claim-contract.ts:639-880 | a call running alone is an interleaved run in which only that call steps |
| `ProvenanceGraph.NearIsListed` | apps/console/server/audit-chain.ts:188-230 | while everything nearer than n is expanded, everything within n is listed |
| `ProvenanceGraph.WaveDiscovers` | apps/console/server/audit-chain.ts:212-230 | a vertex first met while the k-th is expanded is exactly one step further and no nearer |
| `ProvenanceGraph.WaveEnds` | apps/console/server/audit-chain.ts:188-230 | a breadth-first walk run dry lists exactly the vertices within the bound, once each, in order of shortest distance, cycles included |
| `ProvenanceGraph.WithinReversed` | apps/console/server/index.ts:1147-1174 | distance in a graph is distance in its reversal, the other way round |
| `AuditChain.IndexById` | apps/console/server/audit-chain.ts:160-175 | the index holds each id with the last atom that carries it, and no other id |
| `AuditChain.KeepIdsInOrder` | apps/console/server/audit-chain.ts:118-123 | citations are kept in the order in which they stand |
| `AuditChain.ExpandAtom` | apps/console/server/audit-chain.ts:218-229 | expanding an atom lists its new stored parents one step out and pushes exactly one edge per cited parent, in order |
| `AuditChain.LookAtBoundary` | apps/console/server/audit-chain.ts:196-211 | an atom at the depth limit is not expanded; what it cites beyond the chain counts as missing |
| `AuditChain.ResolveEdges` | apps/console/server/audit-chain.ts:232-250 | keeps each edge to a listed parent once and counts every other parent as missing |
| `AuditChain.MissingIsRight` | apps/console/server/audit-chain.ts:204-248 | the missing ids are exactly the cited parents of listed atoms that are not listed |
| `AuditChain.BuildAuditChain` | apps/console/server/audit-chain.ts:160-261 | exactly the stored ancestors within the depth limit, seed first, by shortest distance and in the order in which expanding them one after the other discovers them, with exact edges in walk order, missing count and depth flag; null for an unknown seed |
| `AtomCascade.IndexReferencers` | apps/console/server/index.ts:1149-1156 | each id points at exactly the atoms that cite it |
| `AtomCascade.LaterReferencersComeLast` | apps/console/server/index.ts:1149-1156 | the id of a later atom goes behind those of earlier ones |
| `AtomCascade.HandleAtomCascade` | apps/console/server/index.ts:1147-1174 | exactly the other atoms within maxDepth + 1 citations of the seed, once each, by shortest distance and in order of discovery, even for an unstored seed |
| `AtomCascade.WalksAreDualExactlyWhen` | apps/console/server/index.ts:1147-1174 | with unique ids, y is in the cascade of x to depth d iff x is in the chain of y to depth d + 1, for all x, y and d, if and only if no atom with the empty id is cited by another |
| `AtomCascade.EmptyIdBreaksDuality` | apps/console/server/audit-chain.ts:118-123 | a citation of a stored empty id is followed by the cascade and dropped by the chain |
| `PipelineConsole.NextKeepsIntegrity` | apps/console/server/index.ts:1640-1723 | every step of calls and other writers keeps reference integrity, stale snapshots included |
| `PipelineConsole.RecordedAtomsAreOnDisk` | apps/console/server/index.ts:1640-1723 | in every interleaving, each audit-atom id on a pipeline file or in a snapshot still to be written names an atom on disk |
| `PipelineConsole.ThrowLeavesAtomExactlyWhen` | apps/console/server/index.ts:1886-2006 | a throwing call leaves its atom behind if and only if the unlink failed or it was a resume failing after the write other than by conflict |
| `PipelineConsole.ResumeLeavesItsAtom` | apps/console/server/index.ts:1717-1721 | a concrete run in which a resume throws at its final write and its atom stays |
| `PipelineConsole.ThrownAbandonIsRolledBack` | apps/console/server/index.ts:1973-2006 | an abandon that throws leaves no atom of its own when unlink succeeds |
| `PipelineConsole.ReturnedAtomIsKept` | apps/console/server/index.ts:1862-1970 | a call that succeeded has its atom on disk for good |
| `PipelineConsole.TerminalIsFinalExactlyWhen` | apps/console/server/index.ts:1676-1715 | a terminal pipeline stays terminal under console calls if and only if no resume that read it earlier is about to write |
| `PipelineConsole.ResumeCanUndoAbandon` | apps/console/server/index.ts:1676-1715 | a concrete run in which a successful abandon is overwritten by a resume |
| `PipelineConsole.Console.HandleAbandonPipeline` | apps/console/server/index.ts:1862-2006 | ends where its steps end; succeeds only if authorised and the pipeline was there and not terminal when re-read, and then the file is abandoned with this atom recorded and nothing else changed; each error exactly when its step is the first that fails, the pipeline file then untouched and the atom gone unless the unlink failed |
| `PipelineConsole.Console.HandleResumePipeline` | apps/console/server/index.ts:1541-1730 | the same from paused to running with this atom as the last resume; only a conflict rolls the atom back |
| `PipelineConsole.AloneIsARun` | apps/console/server/index.ts:1541-2006 | a handler running alone is an interleaved run |
| `PipelineAnswers.OnlySuccessWritesTheFile` | apps/console/server/index.ts:1709-1721 | in every reachable state a step touches a pipeline file only when it makes its call return, and writes what the call had read, open to the request, as abandoned or running with its own atom recorded |
| `PipelineAnswers.ThrowingCallWritesNoFile` | apps/console/server/index.ts:1886-2006 | in every run no step of a call that ends up throwing has touched a pipeline file |
| `PipelineAnswers.RefusedCallWritesNothing` | apps/console/server/index.ts:1554-1588 | in every interleaving a call that is not authorised throws for good and writes neither an atom nor a pipeline file |
| `HealthCache.SystemHealthCache.GetCachedSystemHealth` | apps/console/server/index.ts:228-232 | serves the unexpired entry and changes nothing, or installs a new fill that expires 5000 ms after the installation |
| `HealthCache.SystemHealthCache.OnResolved` | apps/console/server/index.ts:327-339 | a resolved fill restarts its lifetime only if the slot is still its own |
| `HealthCache.SystemHealthCache.OnRejectionHandled` | apps/console/server/index.ts:355-359 | a rejected fill clears the slot only if it is still its own |
| `HealthCache.SlotIsSound` | apps/console/server/index.ts:228-361 | in every run the slot holds the newest fill or nothing, never an evicted one |
| `HealthCache.OlderNeverReplacesNewer` | apps/console/server/index.ts:228-361 | no later event puts an older fill in place of a newer one |
| `HealthCache.EvictedIsNeverServed` | apps/console/server/index.ts:228-361 | a fill whose rejection was handled is never served again |
| `HealthCache.ServedIsFresh` | apps/console/server/index.ts:228-361 | a resolved fill is served only within its time to live |
| `HealthCache.CallersShareUntilExpiry` | apps/console/server/index.ts:228-361 | callers arriving before expiry share the installed fill, and no other starts, unless it was evicted |
| `HealthCache.ServedExactlyWhileAlive` | apps/console/server/index.ts:325-351 | through any events after the arrival that starts it, a fill is served if and only if it is the newest, not evicted, and less than 5000 ms have passed since it was installed or, once resolved, since then; a later caller starts a new one |
| `HealthCache.InFlightFillIsShared` | apps/console/server/index.ts:345-351 | whatever happens in between, every caller within 5000 ms of the installation is given that fill, pending or resolved, and no other starts, unless it was evicted |
| `SourceRank.ComputePrincipalDepth` | apps/console/server/index.ts:1281-1293 | the length of the capped climb from signer to signer, on cyclic graphs too |
| `SourceRank.DepthIsUnique` | apps/console/server/index.ts:1281-1293 | a principal has one depth |
| `SourceRank.RootsAreAtZero` | apps/console/server/index.ts:1281-1293 | a principal without a stored signer has depth 0 |
| `SourceRank.DepthIsOneMoreExactlyWhen` | apps/console/server/index.ts:1281-1293 | depth is min(9, 1 + the signer's depth) if and only if the principal is on no signing cycle of at most eight signatures |
| `SourceRank.RankIsLexicographic` | apps/console/server/index.ts:1295-1317 | layer decides strictly, then provenance strictly, then depth, up to ties between adjacent depths with confidence 1 against less than 0.1 |
| `SourceRank.RankOrderExactlyWhen` | apps/console/server/index.ts:1295-1317 | one rank exceeds another if and only if its atom comes first by layer, provenance, depth and tenths of confidence, but for those ties |
| `SourceRank.LayersAndKindsInOrder` | apps/console/server/index.ts:1298-1310 | by name: L3 over L2 over L1 over L0 and unlisted layers; within a layer operator-seeded over user-directive over bootstrap over agent-observed over llm-derived over any other, whatever depth and confidence |
| `SourceRank.RankSpans` | apps/console/server/index.ts:1295-1317 | ranks run from 1000 to 39100, each end reached by exactly the atoms that should |
| `ServiceLock.LockIsExclusive` | src/lifecycle/ensure-service-running.ts:89-169 | in every interleaving at most one caller is between acquire and release, and without crash or failed removal the lock file exists exactly then |
| `ServiceLock.AllExitsRelease` | src/lifecycle/ensure-service-running.ts:128-169 | when nobody is in flight and nothing leaked, there is no lock |
| `ServiceLock.OnlyHolderStarts` | src/lifecycle/ensure-service-running.ts:128-163 | every spawn and every pid write is the lock holder's |
| `ServiceLock.LateCallerNeverStarts` | src/lifecycle/ensure-service-running.ts:89-93 | a caller whose first pid read follows a recorded start never enters the critical section while that child stays alive and recorded |
| `ServiceLock.NoDoubleStartExactlyWhen` | src/lifecycle/ensure-service-running.ts:89-169 | nothing is started beside a recorded child in any undisturbed continuation if and only if no caller that looked earlier is on its way to a spawn |
| `ServiceLock.TwoServicesCanRun` | src/lifecycle/ensure-service-running.ts:95-101 | a concrete run that starts two services, both alive at its end, against the comment that one caller wins |
| `ServiceLock.NoStartEverAgainExactlyWhen` | src/lifecycle/ensure-service-running.ts:162-164 | no continuation ever starts a service again if and only if the lock file is there and no caller is between acquire and release |
| `ServiceLock.CrashOrphansTheLock` | src/lifecycle/ensure-service-running.ts:102-108 | a concrete run that reaches such a state |
| `ServiceLock.ServiceHost.WaitForWinner` | src/lifecycle/ensure-service-running.ts:110-125 | ends as its steps do: the recorded pid if it is alive and one of ten looks can read it, else a failure, with the files untouched |
| `ServiceLock.ServiceHost.StartUnderLock` | src/lifecycle/ensure-service-running.ts:128-169 | ends as its steps do: a child that is alive, on record and reported as started, or as reclaimed when a dead pid was found; else a failure that records nothing and leaves no child unless the kill failed; the lock gone unless it could not be removed |
| `ServiceLock.ServiceHost.EnsureServiceRunning` | src/lifecycle/ensure-service-running.ts:82-169 | ends where its steps end: a readable live pid is reported and nothing changes; else, by what the lock does, a failure, ten looks, or a start under the lock |
| `ServiceLock.AloneIsARun` | src/lifecycle/ensure-service-running.ts:82-169 | a caller running alone is an interleaved run |
| `ServiceAnswers.ReportedPidWasLive` | src/lifecycle/ensure-service-running.ts:89-93 | over all runs a pid is reported as running only to a caller that read it from the pid file and then found it alive |
| `ServiceAnswers.StarterReports` | src/lifecycle/ensure-service-running.ts:128-169 | over all runs a pid is reported as started or reclaimed only by the caller that spawned it and put it on record, as reclaimed if and only if that caller had read another pid, which it found dead |
| `Text.IndexOfIsFirst` | src/daemon/format.ts:456-470 | a search returns the first occurrence at or after its start, or reports that there is none |
| `TelegramSplit.ScanMarks` | src/daemon/format.ts:456-470 | the scanning loop finds the marks from left to right, each search after the last |
| `TelegramSplit.FindSafeFenceCut` | src/daemon/format.ts:456-470 | the last fence of a window that holds an odd number |
| `TelegramSplit.FindSafeSpoilerCut` | src/daemon/format.ts:472-505 | the last opening tag of a window with more openings than closings |
| `TelegramSplit.SafeCutsAreInside` | src/daemon/format.ts:456-505 | a tag cut lies inside the window and on a real occurrence of its tag |
| `TelegramSplit.SplitMarkdownForTelegram` | src/daemon/format.ts:193-260 | the loop terminates with the chunks of the specification for every text and every limit of at least 1 |
| `TelegramSplit.SplitLosesOnlyBlanks` | src/daemon/format.ts:193-260 | the text is the chunks interleaved with runs of only spaces and newlines |
| `TelegramSplit.SplitFits` | src/daemon/format.ts:193-260 | chunks of a non-empty text are non-empty, at most the limit long or one spoiler from opening to closing tag, and only the first can begin with a blank |
| `TelegramSplit.LeadingSpoilerStaysWholeExactlyWhen` | src/daemon/format.ts:228-240 | a spoiler that opens the text and has no closing tag within the limit keeps one in its chunk if and only if one starts at or after the limit |
| `TelegramSplit.FallbackCutsAtBlank` | src/daemon/format.ts:241-252 | the fallback position is the last newline of the window's second half, else the last space there, else the limit, and no other |
| `TelegramSplit.PrefixMarks` | src/daemon/format.ts:456-470 | scanning a prefix finds exactly the marks of the whole that end inside it |
| `TelegramSplit.FenceSafeExactlyWhen` | src/daemon/format.ts:206-255 | without spoiler openings a chunk holds an even number of fences if and only if the last unpaired fence is beyond 30% of the limit or the last newline of the second half (else space, else limit) is outside every block |
| `TelegramSplit.ChunkStartsTheRest` | src/daemon/format.ts:196-260 | the k-th chunk is the start of what remained after k cuts, which is a suffix of the text; only the last chunk is a whole remainder |
| `TelegramSplit.EveryChunkFenceSafeExactlyWhen` | src/daemon/format.ts:196-255 | in a text without spoiler openings, every chunk but the last holds an even number of fences if and only if the text remaining at its cut met that condition |
| `TelegramSplit.WholeBlockInTheWindowIsCut` | src/daemon/format.ts:182-184 | a concrete text whose fenced block is split |
| `SpoilerSafety.ScanIsExact` | src/daemon/format.ts:480-500 | the scan for a tag finds exactly its occurrences |
| `SpoilerSafety.SafeSpoilerIsLast` | src/daemon/format.ts:500-504 | the reported tag is the last opening one that lies within the limit |
| `SpoilerSafety.SafeSpoilerIsOpen` | src/daemon/format.ts:500-504 | where spoilers do not nest, comparing counts is right: the reported tag has no closing tag within the limit |
| `SpoilerSafety.OpenSpoilerSafeExactlyWhen` | src/daemon/format.ts:228-256 | where spoilers do not nest and one is reported open, the chunk splits no spoiler if and only if that one never closes, or opens the text and closes at or after the limit, or opens beyond 30% of the limit with no fence cut after it |
| `SpoilerSafety.SplitExactlyWhenInside` | src/daemon/format.ts:480-500 | a position lies inside a spoiler if and only if the scanned tag lists say so |
| `SpoilerSafety.CutIsOneOf` | src/daemon/format.ts:206-252 | the cut is behind the closing tag of a spoiler that opens the text and is reported open if one starts at or after the limit, else the later of the fence and the spoiler beyond 30% of the limit, else the fallback |
| `SpoilerSafety.SpoilerSafeExactlyWhen` | src/daemon/format.ts:196-256 | for every text, stray and nested tags included, the chunk splits no spoiler if and only if a spoiler at the start closes at or after the limit, or the later worthwhile tag cut, else the fallback position, is inside none |
| `SpoilerSafety.EveryChunkSpoilerSafeExactlyWhen` | src/daemon/format.ts:196-260 | the same for every chunk but the last, over the text that remained at its cut |
| `SpoilerSafety.FencesSafeInAnyText` | src/daemon/format.ts:196-255 | for every text, spoilers included, the chunk holds an even number of fences if and only if a worthwhile fence cut is not before a worthwhile spoiler cut, or the cut made instead is outside every block |
| `SpoilerSafety.EarlySpoilerIsCut` | src/daemon/format.ts:182-184 | a concrete text whose spoiler opens early, closes at the limit and is split |
| `SpoilerSafety.StraddlingSpoilerIsCut` | src/daemon/format.ts:228-240 | a concrete text whose leading spoiler is split inside its closing tag |
| `GitLog.ParseGitLog` | src/sources/git-log.ts:275-292 | the accumulating loop computes the specification of split, trim, filter and map |
| `GitSeparators.RecordEndsExactlyWhen` | src/sources/git-log.ts:77-79 | the first record separator found in a printed row is the one that ends it if and only if none starts in a field or across a seam |
| `GitSeparators.FieldEndsExactlyWhen` | src/sources/git-log.ts:77-79 | the first field separator found behind a field is the printed one if and only if none starts in the field |
| `GitSeparators.SplitUndoesJoin` | src/sources/git-log.ts:77-79 | splitting undoes joining when the fields keep the separators apart |
| `GitRoundTrip.PrintedRowsComeBack` | src/sources/git-log.ts:275-292 | separable rows of any length, with any white space in and around their fields, come back if they have at least five fields |
| `GitRoundTrip.SplitKeepsWeight` | src/sources/git-log.ts:277-280 | splitting conserves every character count, the separators' included |
| `GitExactness.OnlySeparableRowsComeBack` | src/sources/git-log.ts:275-292 | if a printed list of six-field rows parses to its commits, every row is separable |
| `GitExactness.RoundTripExactlyWhen` | src/sources/git-log.ts:73-79 | printing any list of commits, with any white space in and around the fields, and parsing it gives the list back if and only if in no row a separator starts before its own: no field separator in a field and its seam, no record separator in a field and the seams on its sides |
| `GitExactness.GitOutputRoundTripsExactlyWhen` | src/sources/git-log.ts:77-79 | the same for trimmed commits as git prints them, with a newline behind each body |
| `GitExactness.RoundTrip` | src/sources/git-log.ts:77-79 | in particular the list comes back whenever no field contains `LAG-` |
| `GitExactness.SeparatorInBodyTruncates` | src/sources/git-log.ts:73-79 | a field separator inside a body cuts the body there |
| `GitIngest.GitLogSource.Ingest` | src/sources/git-log.ts:104-222 | the loop with its counters and store writes ends as the specification says, including an unreadable log |
| `GitIngest.ContentHoldsTheMessage` | src/sources/git-log.ts:132-139 | an atom's content is the abbreviated hash with author and day, the subject and the trimmed body, each behind a blank line unless empty, or the marked start of that |
| `GitIngest.ReportIsHonest` | src/sources/git-log.ts:129-222 | however the store answers: stored atoms are untouched, the store grows by exactly what is reported written, never beyond the cap, and scanned commits are all accounted for |
| `GitIngest.ReportNamesIds` | src/sources/git-log.ts:191-208 | however the store answers: the sample is the first five ids written, in order, and the errors name exactly the commits whose put failed, in order |
| `GitIngest.NewsLast` | src/sources/git-log.ts:145-153 | a commit is new exactly when its id is neither stored nor that of an earlier commit |
| `GitIngest.NewsAreNew` | src/sources/git-log.ts:145-153 | new commits have distinct ids and cover every id not yet stored |
| `GitIngest.CallAddsFirstNews` | src/sources/git-log.ts:129-208 | when the store keeps every put, one call adds exactly the first new commits that fit under the cap and counts them |
| `GitIngest.CallAddsFirstLanded` | src/sources/git-log.ts:129-208 | however the store answers each put, one call adds exactly the first commits that are new and kept, under the cap, and counts them |
| `GitIngest.AddAllContents` | src/sources/git-log.ts:141-190 | each added commit is stored under its id with its own content, hash, author, address, date and subject, everything else as before |
| `GitIngest.IngestConverges` | src/sources/git-log.ts:129-208 | when the store keeps every put: from any store, after any number of calls the store holds what it held and exactly the first calls * cap new commits; the next call writes what remains under the cap |
| `GitIngest.IngestCompletes` | src/sources/git-log.ts:17-18 | when the store keeps every put: once enough calls were made every id of the log is stored and re-ingesting writes nothing |
| `GitIngest.DryRunPredictsExactlyWhen` | src/sources/git-log.ts:191-195 | however the store answers the real call: a dry run changes nothing and counts no less, and exactly what the real call writes if and only if the commits that land reach the cap anyway, or the absent commits have distinct ids and are all kept |
| `GitIngest.DryRunCanOvercount` | src/sources/git-log.ts:191-195 | two concrete commits for which the dry run counts two atoms and the real call writes one |

## Left out

- Claim reaper: its stall predicates, sweeps, session tracking and audit atoms; only its updates of the claim record are modelled, each as one revision-guarded step.
- Verifiers, policy readers, notifier, blob store, adapter: what they answer is an input of the step that awaits them.
- Atom ids built by concatenation are structured values: two different parts never make the same id.
- Token randomness and constant-time comparison: tokens are compared by equality.
- Adapter failure inside dispatch, and the claim handle dispatch returns.
- Contents of notifier events and of atoms beyond what the protocols read.
- Provenance entries that are not arrays, the clamping of maxDepth, and atom files that fail to parse.
- Edge keys joined with a NUL character: edges are pairs.
- Pipeline validators: their verdict is an input; which file a pipeline lives in; partial file writes.
- Liveness probes that throw; a lock that could not be removed, or whose holder crashed, is recorded as leaked, and nobody deletes a lock file by hand.
- Floating point: confidence and the cap are reals, and the 30% and 50% thresholds are exact; strings are sequences of characters, not UTF-16 units.
- Atom timestamps and the constant fields (confidence, layer, scope, principal) of ingested atoms; store reads that throw.
- Starting git, its arguments and its exit codes: the log is text, or unreadable.
- Taint, arbitration, promotion, plans and the rate limiter: outside the protocols modelled here.
- Markdown rendering, HTTP, telegraph transport and command-line handling: easy members only.
