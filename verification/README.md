# Verification of the stateful parts of A-FORGE

This project models the components of the repository that keep state over time, and proves what
holds over every run of them.

* **Paradox engine.** Each tick decays the active motifs, detects contradictory pairs, copies them into
  tracked paradoxes, raises a copy that is being dominated, fires emergence events and forgets dead
  paradoxes. `ParadoxModel` computes one tick on values, `ParadoxEngine` and `ParadoxApi` are the classes
  that update motifs and paradoxes in place and are proved to compute exactly that, and the other
  `Paradox*` modules prove what a tick does in numbers and properties of whole runs. `Registry` is the relation between motifs.
* **Kabarkan worker.** A fetch loop and a flush timer share a batch and interleave at their awaits.
* **Redis lock.** Set-if-absent with expiry, compare-and-delete, and a polling context manager.
* **Lease engine.** An append-only log whose newest record per lease decides.
* **Exploration.** The nine-node loop over frontier, visited set and depth, its guardrails, the evidence
  graph and the critic.
* **MCP guard.** Sessions with the budget of the mode that opened them and the budget of each call.
* **Near-duplicate removal.** Greedy grouping by Jaccard similarity.

Where the original updates objects, a class or method with the same fields and loops is proved equal to a
function on values, and the properties are lemmas about that function. What comes from outside (search
answers, pages, clock readings, tokens, interleavings, the classified mode of a request) is a parameter
that the theorems quantify over.

Some behaviour differs from what the code's own comments or names suggest; the model follows the code:

* After `CHECK_STOP` the exploration restarts at `SEED`, not at `SELECT` as the comment in
  `forge_explore/graph.ts:441` says, so `SEARCH` overwrites the frontier before every `FETCH`
  (`Exploration.OnlyHitsAreFetched`). The veto at depth 3 makes `DEPTH_LIMIT` unreachable for a maximum
  above 3, and such a run need not stop by itself (`Exploration.ThreeHitsKeepRunning`).
* A cultural override written in unsorted order never matches (`Registry.OverrideTakesEffect`).
* Boosting A keeps it below the dominant B exactly when B is above 1.5e-8 or more than half as much again
  as A (`ParadoxBounds.BoostOfAKeepsOrder`, with a failing input in `BoostBelowFloorLosesOrder`).
* An acknowledgement that fails after the append counts a message twice (`Kabarkan.DoubleCount`).
* Sealing a revoked lease again makes it valid again (`LeaseEngine.ReactivationRevives`).
* The empty session id escapes the opening budget (`McpGuard.EmptyIdSkipsOpeningBudget`), a destructive
  tool that asks for approval runs unattended below GOVERN (`McpGuard.DestructiveRunsExactly`), and a
  tool's own name or minimum mode can turn a DENY into a HOLD (`McpGuard.HeldExactlyWhenMarked`).
* A release that presents the token of somebody else's running tenure takes that lock away, so exclusion
  needs exactly that nobody does (`RedisLock.ExclusionNeedsGuard`); fresh tokens see to it.
* Keeping the longest duplicates can leave near chunks (`Dedup.LongestNotSeparated`), exactly when a duplicate
  longer than its original is near another chunk that stays (`Dedup.LongestSeparatedExactly`).

`dafny verify dfyconfig.toml` checks the whole project.

## Model

| member | source | states |
|---|---|---|
| Registry.RelationSymmetric | paradox-engine/registry.py:1008-1047 | The relation of two motifs does not depend on the order in which they are named, through overrides, reciprocal templates and cosine alike. |
| Registry.RelationExactly | paradox-engine/registry.py:1008-1047 | Exactly when two motifs are contradictory or complementary: sorted override, declared contradiction, declared complement, then the cosine against -0.3 and 0.5, in that order. |
| Registry.CosineExactly | paradox-engine/registry.py:1036-1040 | Comparing the cosine with a bound is comparing the dot product with the bound times the product of norms plus epsilon. |
| Registry.SortedPairExactly | paradox-engine/registry.py:1019-1019 | Sorting keeps both ids and puts them in order. |
| Registry.AtMostExactly | paradox-engine/registry.py:1019-1019 | The order of ids is decided by the first character in which they differ; a prefix comes first. |
| Registry.PairIdSymmetric | paradox-engine/registry.py:1019-1020 | The sorted pair, and the id built from it, are the same for both orders. |
| Registry.OverrideTakesEffect | paradox-engine/registry.py:1017-1024 | Adding an override changes a pair's relation exactly when it is that pair in sorted order and the pair was not complementary already; an unsorted entry never has an effect. |
| Registry.FindContradictions | paradox-engine/registry.py:1049-1058 | The scan returns exactly the other motifs that contradict the given one, in taxonomy order. |
| ParadoxBounds.TensionBounds | paradox-engine/engine.py:459-498 | The tension of a declared contradiction lies in [0,1] and is at least half the product of the two intensities. |
| ParadoxBounds.EnforceBounds | paradox-engine/engine.py:230-252 | For every block ratio persistence keeps copies in range, never revives or kills one, and never lifts the strongest copy above the epsilon floor or its old value. |
| ParadoxBounds.DominanceTests | paradox-engine/engine.py:240-252 | The two ratio tests of the code mean that one intensity exceeds the block ratio times the other, with epsilon on the side of B. |
| ParadoxBounds.BoostOfBKeepsOrder | paradox-engine/engine.py:240-246 | A dominated copy B is raised by a factor between 1.2 and 1.5, capped at 1, stays strictly below A, and A is untouched. |
| ParadoxBounds.BoostOfAKeepsOrder | paradox-engine/engine.py:247-252 | The same for a dominated copy A, except that it stays strictly below B exactly when B is above one and a half epsilon or more than half as much again as A was. |
| ParadoxBounds.BoostBelowFloorLosesOrder | paradox-engine/engine.py:240-252 | An input that fails that condition: a copy already above its partner is raised further. |
| ParadoxRuns.TickKeeps | paradox-engine/engine.py:114-164 | Every tick keeps the engine invariant: one paradox per id, intensities and tension in [0,1], peak at least tension, duration bounded by age, every due paradox emerged, events of one id spaced apart. |
| ParadoxRuns.RunKeeps | paradox-engine/engine.py:114-164 | The invariant holds, and the tick counter counts ticks, after any sequence of ticks with any motifs handed in. |
| ParadoxRuns.RowsDetect | paradox-engine/engine.py:168-198 | Detection is complete: each pair of listed motifs that is contradictory and strong enough is tracked once its row has been scanned. |
| ParadoxRuns.RowsExtend | paradox-engine/engine.py:168-198 | Detection only appends, only newborn paradoxes of contradictory live motifs, and only under ids not tracked yet. |
| ParadoxRuns.UpdateKeeps | paradox-engine/engine.py:200-228 | An update keeps ranges, identity and birth; the duration grows by one and the peak follows the tension exactly when both copies are alive; a living pair has a duration bounded by its age, a tension of at least half its intensity product, and is a candidate once mature and tense. |
| ParadoxRuns.EventsSpec | paradox-engine/engine.py:256-295 | The events of a tick are exactly those of the paradoxes then due, one per id. |
| ParadoxRuns.KeptSound | paradox-engine/engine.py:500-508 | After cleaning, ids are distinct, every kept paradox is sound, every event of the tick belongs to a kept paradox, and the score is in range. |
| ParadoxRuns.ScoreBounds | paradox-engine/engine.py:394-409 | The score is between 0 and the maturation threshold. |
| ParadoxLives.ContradictionsTracked | paradox-engine/engine.py:168-198 | After a tick every strong contradictory pair of surviving motifs is tracked as a living paradox of just those two motifs. |
| ParadoxLives.PairIdInjective | paradox-engine/engine.py:455-457 | Two pairs of plain names share an id only if they are the same unordered pair. |
| ParadoxLives.KeptOrigin | paradox-engine/engine.py:168-226 | A tracked paradox was tracked before with the same birth tick, or was born in this tick under a free id. |
| ParadoxLives.UndeadIsKept | paradox-engine/engine.py:500-508 | A paradox that has a living motif after update, persistence and emergence is in the engine after the tick. |
| ParadoxLives.FreeBeforeBirth | paradox-engine/engine.py:168-198 | In every run a tracked paradox has a birth tick within the run, just before which its id was free. |
| ParadoxLives.OneEmergencePerLife | paradox-engine/engine.py:256-295 | In every run two events of one id are at least maturation plus one ticks apart, and between them there is a moment at which the id was not tracked at all. |
| ParadoxProgress.AdvanceExactly | paradox-engine/engine.py:200-252 | One tick of one paradox in numbers: which copies are taken, tension at the old duration, one more duration, peak, candidacy, emergence, then the boost; nothing but the copies changes when one is dead. |
| ParadoxProgress.RefreshedExactly | paradox-engine/engine.py:204-216 | A copy is that of the last listed motif of its id, or the old copy less its decay rate, not below 0. |
| ParadoxProgress.EnforceExactly | paradox-engine/engine.py:230-252 | What persistence does to two intensities, in each of its four cases, and when it marks the paradox blocked. |
| ParadoxProgress.TensionExactly | paradox-engine/engine.py:459-498 | Tension is strength times both intensities, half at once and the rest in proportion to the duration up to maturity, capped at 1; a declared contradiction has strength at least 1. |
| ParadoxProgress.TickAdvances | paradox-engine/engine.py:114-164 | In a tick of the engine each tracked paradox advances just so, and stays tracked exactly when one of its new copies is alive. |
| ParadoxProgress.LifeAdvances | paradox-engine/engine.py:200-226 | A paradox tracked before and after a tick keeps its birth and is one tick older exactly if both its copies come out alive. |
| ParadoxProgress.BirthExactly | paradox-engine/engine.py:168-198 | A paradox new after a tick is of two contradictory survivors above 0.1; with one motif per id its duration is 1 and its tension and peak are theirs at duration 0. |
| ParadoxProgress.TrackedExactly | paradox-engine/engine.py:168-198 | With one motif per id, an untracked pair of survivors becomes tracked exactly when they contradict each other and both are above 0.1. |
| ParadoxProgress.RowsInOrder | paradox-engine/engine.py:170-172 | Newborns are tracked in the order of the combinations of the list, the earlier motif as A. |
| ParadoxProgress.NewEventsExactly | paradox-engine/engine.py:256-295 | The events a tick logs are exactly those of the paradoxes emerged after it and not before, with their tick, tension, duration and motifs. |
| ParadoxProgress.EmergenceFires | paradox-engine/engine.py:256-295 | Two contradictory motifs of an untracked pair that survive maturation ticks with a product above 0.4 get their event on the last of those ticks, and the log keeps it. |
| ParadoxProgress.ScoreIsMean | paradox-engine/engine.py:394-409 | Each tick records the mean over living paradoxes of tension times duration up to maturity, 0 without any. |
| ParadoxProgress.SurvivorsInOrder | paradox-engine/engine.py:134-138 | Survivors keep their order, each less its decay rate; the others are those with no more than that. |
| ParadoxProgress.CleanedInOrder | paradox-engine/engine.py:500-508 | Cleaning keeps, in order, the paradoxes with a living copy. |
| ParadoxQuiescence.DriftExact | paradox-engine/models.py:120-130 | After n ticks of any engine an untouched live motif has lost exactly n decay rates, cut at zero: the engine never raises a live motif. |
| ParadoxQuiescence.QuietRunKeeps | paradox-engine/engine.py:114-164 | A run without activations keeps the invariant and the motifs stay within range. |
| ParadoxQuiescence.WeakNotRaised | paradox-engine/engine.py:240-246 | Once A is at or below the floor, persistence never raises B: this is why boosting cannot keep a paradox alive. |
| ParadoxQuiescence.QuietStays | paradox-engine/engine.py:114-164 | An empty engine handed no motifs stays empty and records score 0. |
| ParadoxQuiescence.Quiescence | paradox-engine/engine.py:132-164 | Without activations and with every decay rate at least d > 0, for any block ratio, the engine is empty with score 0 after ceil(1/d) + 2 ceil(1.5e-8/d) ticks and stays so. |
| ParadoxQuiescence.FastQuiescence | paradox-engine/engine.py:132-164 | With d at least 1.5e-8, ceil(1/d) + 1 ticks suffice. |
| ParadoxForgetting.ForgetsExactly | paradox-engine/engine.py:132-164 | A run without activations ends empty if and only if every motif still alive, live or copied, has a positive decay rate. |
| ParadoxForgetting.DecayForgets | paradox-engine/engine.py:132-164 | Positive decay everywhere is enough, with no common lower bound given in advance. |
| ParadoxEngine.MotifState.Decay | paradox-engine/models.py:120-122 | In place: intensity falls by the decay rate, not below 0. |
| ParadoxEngine.MotifState.Boost | paradox-engine/models.py:124-126 | In place: intensity is scaled and capped at 1. |
| ParadoxEngine.MotifState.Copy | paradox-engine/models.py:132-146 | A new object with the same values. |
| ParadoxEngine.ParadoxEngine.ComputeTension | paradox-engine/engine.py:459-498 | The scan for a tracked duration makes the computed tension that of the tracked pair, or of duration 0. |
| ParadoxEngine.ParadoxEngine.DetectNewParadoxes | paradox-engine/engine.py:168-198 | The nested loops over pairs compute the detection function; the copies they store are fresh objects. |
| ParadoxEngine.ParadoxState.RefreshMotifs | paradox-engine/engine.py:204-216 | Copies of live motifs replace the tracked ones; a copy whose motif is gone decays in place; no copy is ever a live motif. |
| ParadoxEngine.ParadoxEngine.UpdateParadoxes | paradox-engine/engine.py:200-228 | The update loop changes each tracked paradox as the update function says and no live motif. |
| ParadoxEngine.ParadoxEngine.EnforceParadoxPersistence | paradox-engine/engine.py:230-252 | The persistence loop changes each paradox as its function says and nothing else. |
| ParadoxEngine.ParadoxEngine.CheckEmergence | paradox-engine/engine.py:256-295 | The emergence loop marks exactly the due paradoxes and appends their events in order. |
| ParadoxEngine.ParadoxEngine.CleanDeadParadoxes | paradox-engine/engine.py:500-508 | Removes exactly the dead paradoxes, keeping order. |
| ParadoxEngine.ParadoxEngine.GetParadoxScore | paradox-engine/engine.py:394-409 | The loop over living paradoxes computes the mean of tension times capped duration. |
| ParadoxEngine.ParadoxEngine.Tick | paradox-engine/engine.py:114-164 | A tick on the heap is the tick on values; live motifs do nothing but decay, and no tracked copy aliases a live motif before or after. |
| ParadoxApi.SomaticStateApi.ActivateMotif | paradox-engine/api.py:49-70 | Succeeds exactly for a known id and an intensity in [0,1], then a new motif with the rate and vector of its template replaces the one of that id; otherwise nothing changes. The engine is untouched. |
| ParadoxApi.AssignedExactly | paradox-engine/api.py:49-70 | Assigning into the dictionary puts the motif in the place of its id, or last, and leaves every other in its place. |
| ParadoxApi.SomaticStateApi.SetIntensity | paradox-engine/api.py:72-78 | Succeeds exactly when the id is active, clamps, and changes that motif only. |
| ParadoxApi.SomaticStateApi.DeactivateMotif | paradox-engine/api.py:80-82 | Exactly the motifs of other ids stay. |
| ParadoxApi.SomaticStateApi.Tick | paradox-engine/api.py:136-152 | Through any sequence of calls the engine invariant holds, and the active dictionary afterwards is exactly the surviving motifs. |
| Kabarkan.StepKeeps | kabarkan/worker.py:297-358 | Every step of either task keeps: flushed, in-flight and pending batches spell the accepted sequence; the table is the insert-if-absent fold of what was written; the counters account for every message; the batch is empty exactly when its deadline is 0. |
| Kabarkan.RunKeeps | kabarkan/worker.py:297-358 | That holds at every await of every interleaving. |
| Kabarkan.BatchingIsTransparent | kabarkan/worker.py:123-190 | While no batch is refused, lost or cancelled, the table is what inserting each message on arrival would have made of all but the pending suffix. |
| Kabarkan.ScheduleIndependent | kabarkan/worker.py:332-358 | Two drained runs with any batch sizes, windows and timing that accepted the same messages leave the same table. |
| Kabarkan.InsertAllExact | kabarkan/worker.py:151-152 | The table holds for each id the row that was there, or else the first record of that id. |
| Kabarkan.RedeliveryIsHarmless | kabarkan/worker.py:123-152 | Redelivering records whose ids are in the table changes nothing. |
| Kabarkan.RedeliveredBacklog | kabarkan/worker.py:123-152 | Redelivering any part of a backlog leaves the table as the backlog made it. |
| Kabarkan.AccountingIsExact | kabarkan/worker.py:184-190 | At every await, received = processed + failed + in flight + pending + lost + being rejected, if and only if as many messages were counted as failed although appended as were rejected uncounted because their last ack raised; without raising acks both are 0. |
| Kabarkan.DoubleCount | kabarkan/worker.py:317-329 | One failed ack after the append suffices to count a message twice. |
| Kabarkan.TakenWhenDue | kabarkan/worker.py:341-348 | A non-empty batch is taken at a timer check exactly when a window has passed since the step that brought its first record, or it is full; otherwise nothing changes. |
| Kabarkan.DeadlineOfFirstRecord | kabarkan/worker.py:315-319 | The deadline of a pending batch is one window after the step that brought its first record, whatever followed. |
| Kabarkan.AcceptedAreArrivals | kabarkan/worker.py:297-315 | At every await the accepted sequence is the well-formed messages received so far, in order, and the received counter counts all. |
| Kabarkan.NothingLost | kabarkan/worker.py:123-190 | With a pool, while no write raises and nothing is cancelled, every batch taken off has been written. |
| Kabarkan.BatchingIsInsertOnArrival | kabarkan/worker.py:123-190 | In such a run the table is what inserting the messages one by one on arrival would have made of all but the pending ones. |
| Kabarkan.FlushesCounted | kabarkan/worker.py:352-354 | The flush counter counts the settled batches, written, refused or without a pool, and no cancelled one. |
| Kabarkan.BatchEffects | kabarkan/worker.py:350-354 | A due batch is taken off whole; then table and counters, for a successful write, a failed one, and no pool. |
| Kabarkan.HandledMessage | kabarkan/worker.py:297-329 | How a message is counted, by its kind and the number of its acks that raise. |
| Kabarkan.Worker.MsgHandler | kabarkan/worker.py:297-329 | The handler up to its first await is the receive step. |
| Kabarkan.Worker.BatchFlushTimer | kabarkan/worker.py:332-352 | The timer's check, swap and start of a write are the timer step. |
| Kabarkan.Worker.ExecuteMany | kabarkan/worker.py:128-181 | The row-by-row insert loop is the insert-if-absent fold. |
| Kabarkan.Worker.WriteReturned | kabarkan/worker.py:352-354 | The counters after a successful write. |
| Kabarkan.Worker.WriteRaised | kabarkan/worker.py:184-188 | The counters after a failed write. |
| RedisLock.StepKeepsExactly | kernel/locks.py:38-55 | A step keeps the store holding exactly the running tenures, at most one per resource, if and only if it is no release presenting the token of somebody else's running tenure of that resource. Tokens may repeat. |
| RedisLock.ExclusionNeedsGuard | kernel/locks.py:38-55 | After a step no acquire by anybody can break exclusion if and only if the step met that guard. |
| RedisLock.RunKeeps | kernel/locks.py:38-55 | The store matches the running tenures after every guarded run. |
| RedisLock.MutualExclusion | kernel/locks.py:38-55 | After any guarded interleaving at most one tenure of a resource is running, and the resource is free exactly when none is. |
| RedisLock.FreshMeetsGuard | kernel/locks.py:42-42 | Runs whose granted tokens are all new, as drawn by acquire, meet the guard throughout. |
| RedisLock.ReleaseDisturbsExactly | kernel/locks.py:48-55 | A release, however late, leaves every other running tenure running and takes its entry exactly when resource and token are the same: an expired owner with its own token never removes the new owner's lock. |
| RedisLock.OverlapNeedsExpiry | kernel/locks.py:58-77 | Of two unreleased tenures of one resource one has outlived its ttl. |
| RedisLock.ReusedTokenBreaksExclusion | kernel/locks.py:38-55 | A run from the start that breaks the guard with a reused token and lets two clients in. |
| RedisLock.TenuresOnlyGrow | kernel/locks.py:38-55 | No operation changes who was granted what: a hold stays entered until its own tenure is released. |
| RedisLock.EnteringIsARun | kernel/locks.py:62-71 | Everything a hold does while entering, with what happens during its sleeps, is a run of acquires and those operations. |
| RedisLock.EnteringIsGuarded | kernel/locks.py:62-71 | That run is guarded as soon as what happens during the sleeps is. |
| RedisLock.HoldsOverlapOnlyByExpiry | kernel/locks.py:58-77 | Two hold objects of one resource that are both entered and not exited, after any guarded run: one has outlived its ttl. |
| RedisLock.RedisServer.TryAcquire | kernel/locks.py:38-45 | Rejects bad arguments, else grants exactly when the key is absent or expired, and stores the token with its expiry. |
| RedisLock.RedisServer.ReleaseToken | kernel/locks.py:48-55 | Deletes, and says so, exactly when the caller's token is the live one. |
| RedisLock.Hold.Enter | kernel/locks.py:62-71 | The polling loop gets the lock, as a new tenure, at its first probe that finds it free, and gives up only when a probe at or after the deadline still finds it held. |
| RedisLock.Hold.Exit | kernel/locks.py:72-75 | The release of the tenure entered, if there is one; the hold is then exited. |
| LeaseEngine.ScanIsLastWrite | leases/lease_engine.py:105-117 | Scanning the log backwards for an id is looking it up in the last-write map. |
| LeaseEngine.OtherIdsNeverMatter | leases/lease_engine.py:47-86 | From any log, dropping every operation on other ids leaves every answer about an id unchanged. |
| LeaseEngine.ValidExactly | leases/lease_engine.py:47-86 | After any history a lease validates exactly when the last operation touching its id is a sealed activation, of a lease not marked revoked, that is unexpired and covers connector and verbs. |
| LeaseEngine.AnsweredExactly | leases/lease_engine.py:57-76 | Every answer by the history of the id: not found, revoked, expired, connector mismatch, first missing verb, or the lease with its expiry, in that order. |
| LeaseEngine.FoundExactly | leases/lease_engine.py:105-117 | An id is in the log exactly when some operation sealed it. |
| LeaseEngine.ActivatedOnce | leases/lease_engine.py:47-86 | For an id activated once at t0: valid exactly until t0 + ttl, while no later revoke names it, for a covered scope; earlier revokes do not count. |
| LeaseEngine.RevokedUntilReactivated | leases/lease_engine.py:78-86 | A revoked lease answers "revoked" to every question while no later operation seals its id. |
| LeaseEngine.ReactivationRevives | leases/lease_engine.py:47-55 | Sealing the requester's own copy after a revoke makes the lease valid again, whatever the history. |
| LeaseEngine.LogOnlyGrows | leases/lease_engine.py:101-103 | The log only grows; each record is active, or revoked and marked so, and has an expiry. |
| LeaseEngine.CoveredExactly | leases/lease_engine.py:71-75 | The verb loop finds no missing verb exactly when every required verb is offered, and otherwise names one that is not. |
| LeaseEngine.LeaseEngine.Activate | leases/lease_engine.py:47-55 | In place: a verdict other than SEAL only marks the caller's lease rejected; SEAL makes it active, sets its expiry and logs a snapshot. |
| LeaseEngine.LeaseEngine.Scan | leases/lease_engine.py:105-117 | The reverse loop returns the newest record of the id. |
| LeaseEngine.LeaseEngine.Check | leases/lease_engine.py:57-76 | The validation, test by test with its verb loop, answers as specified and leaves the log alone; a positive answer is a logged record of that id that covers the scope. |
| LeaseEngine.LeaseEngine.Revoke | leases/lease_engine.py:78-86 | Succeeds exactly when the id is known, and then every question about it is answered "revoked". |
| Exploration.EvaluateGuardrails | forge_explore/guardrails.ts:213-247 | The loop lists the failing rules in registry order and passes exactly when every rule passes. |
| Exploration.GuardrailsExactly | forge_explore/guardrails.ts:71-183 | Exactly when each of the five rules fails, listed in registry order. |
| Exploration.UnvisitedPassExactlyWhenOpen | forge_explore/guardrails.ts:71-183 | For an unvisited URL both tools are let through exactly when depth is below its maximum and below 3 and at most two hypotheses are unresolved. |
| Exploration.RankedIsStableSort | forge_explore/graph.ts:232-238 | Ranking is a permutation, descending, and leaves equal scores in their order. |
| Exploration.ScoreRanks | forge_explore/graph.ts:232-238 | SCORE keeps the entries, puts higher scores first and leaves equal scores as they were. |
| Exploration.PickIsBest | forge_explore/graph.ts:133-136 | The URL picked is unvisited, of the highest score among the unvisited and the first listed of those; there is none exactly when all are visited. |
| Exploration.DispatchVisits | forge_explore/graph.ts:128-199 | One iteration marks visited exactly the URL it hands to the fetcher or follows, which was not visited before; only a follow deepens. |
| Exploration.EachUrlAtMostOnce | forge_explore/graph.ts:420-448 | In every run no URL is fetched or followed twice; visited is the initial set plus the attempts, and so is its size. |
| Exploration.DepthCountsFollows | forge_explore/graph.ts:278-311 | Depth is the number of follows and never exceeds the smaller of its maximum and 3. |
| Exploration.DepthIsAbsorbing | forge_explore/guardrails.ts:71-86 | Once depth reaches that cap nothing is ever fetched, followed or visited again. |
| Exploration.DepthLimitReasonExactly | forge_explore/graph.ts:348-361 | From a seed state CHECK_STOP names DEPTH_LIMIT exactly when the frontier is non-empty and depth equals the maximum, which happens only for a maximum of at most 3. |
| Exploration.FrontierExactly | forge_explore/graph.ts:128-199 | A fetch or follow with a pick drops exactly the entries of the picked URL, blocked or not, and adds exactly the unvisited links of a fetched page; FetchInOrder and DropsInOrder give the order. |
| Exploration.FetchInOrder | forge_explore/graph.ts:173-198 | A fetched page appends its unvisited links, in page order and with score 0.5, to what is left of the frontier in its order; the extractor is asked only when the page lists none. |
| Exploration.DropsInOrder | forge_explore/graph.ts:143-170 | A block, a failed fetch or a follow leaves the other entries in their order. |
| Exploration.SearchInOrder | forge_explore/graph.ts:95-115 | A search lists its hits in order with their scores and no source, nothing without an adapter. |
| Exploration.FollowTakesFirstLink | forge_explore/graph.ts:278-311 | When every other unvisited hit scores below 0.5 the round follows the first unvisited link of the page fetched, other than the page itself. |
| Exploration.EpochCountsRounds | forge_explore/graph.ts:72-80 | The epoch counts the rounds begun. |
| Exploration.Provenance | forge_explore/graph.ts:95-115 | Every frontier entry was there initially, is a search hit with its score, or links from a page fetched in this run. |
| Exploration.VisitedProvenance | forge_explore/graph.ts:420-448 | Every visited URL was visited initially or was such an entry. |
| Exploration.SelfLinkComesBack | forge_explore/graph.ts:173-198 | A fetched URL is back on the frontier, though visited, exactly when its page links to itself. |
| Exploration.OnlyHitsAreFetched | forge_explore/graph.ts:427-443 | Since the cycle restarts at SEED, only hits of the search just made are ever fetched, never extracted links. |
| Exploration.VisitsPerRound | forge_explore/graph.ts:420-448 | After n iterations at most one fetch and one follow per round of nine have been made. |
| Exploration.ThreeHitsKeepRunning | forge_explore/graph.ts:348-361 | With a maximum above 3 and searches of at least three URLs, the run never stops before its iteration limit. |
| Exploration.FetchMakes | forge_explore/graph.ts:128-199 | The URLs on the frontier after a fetch: without the pick, with the unvisited links of a page fetched. |
| Exploration.FollowEmpties | forge_explore/graph.ts:278-311 | A follow leaves an empty frontier exactly when nothing, or one unvisited URL only, was on it. |
| Exploration.EmptyRoundExactly | forge_explore/graph.ts:348-361 | CHECK_STOP finds the frontier empty exactly when, after the fetch of its round, nothing or one unvisited URL only was left of the search hits and the links of the page. |
| Exploration.FetchSeesHits | forge_explore/graph.ts:95-115 | What the fetch of a round finds on the frontier is exactly the hits of the search before it. |
| Exploration.StopsExactlyWhenRoundEmpty | forge_explore/graph.ts:370-375 | From a seed state with a maximum above 3 that is exactly when the run stops by itself at the end of a round. |
| Exploration.RunGraph | forge_explore/graph.ts:420-448 | The runner's loop ends with the state after n iterations, n being the first CHECK_STOP that names a reason, or the limit. |
| EvidenceGraph.EdgesAreWeightedMap | forge_explore/evidence_graph.ts:154-174 | Over any run there is one edge per (from, to, type) ever added and its weight is the sum of the weights added for it. |
| EvidenceGraph.HypothesisWeights | forge_explore/evidence_graph.ts:117-142 | A hypothesis adds to the supports edge from each reference the number of times it is listed as supporting, to the contradicts edge the number of times as contradicting, and changes no other edge. |
| EvidenceGraph.OtherWeights | forge_explore/evidence_graph.ts:60-107 | A claim adds one to the references edge from its source, a source adds no edge, and an added edge adds its weight to its key only. |
| EvidenceGraph.NodesCreated | forge_explore/evidence_graph.ts:60-142 | Each adding function appends one node under the next serial with its type, URL, metadata and a label of at most 80 characters. |
| EvidenceGraph.IdReads | forge_explore/evidence_graph.ts:48-50 | An id is prefix, clock and serial joined by dashes, the numbers in decimal. |
| EvidenceGraph.StatsCount | forge_explore/evidence_graph.ts:240-260 | Over any run the node counts are the numbers of operations of each kind, the edge counts the numbers of pairs ever added with each type, and orphans the nodes no edge touches. |
| EvidenceGraph.ContradictionSays | forge_explore/synthesize.ts:95-113 | Each listed contradiction gives, for the origin and then the target of its edge, the full claim, or the label, or the id, and the URL or the id. |
| EvidenceGraph.PutExact | forge_explore/evidence_graph.ts:154-174 | One addition changes one key's weight by its own and keeps keys unique. |
| EvidenceGraph.NodeIdsDistinct | forge_explore/evidence_graph.ts:46-50 | Node ids are distinct, whatever the clock reads and other explorations draw; their serials ascend. |
| EvidenceGraph.ClaimsAreReferenced | forge_explore/evidence_graph.ts:84-107 | A claim node always has the references edge from the source it names, so it is never an orphan. |
| EvidenceGraph.StatsPartition | forge_explore/evidence_graph.ts:240-260 | Node counts by type and edge counts by type add up to the totals, and orphans are never claims. |
| EvidenceGraph.OneContradictionPerPair | forge_explore/synthesize.ts:95-113 | Synthesis renders, in order, a sequence of distinct pairs that are exactly the ordered pairs ever declared contradicting, however often each was declared. |
| EvidenceGraph.EvidenceStore.InsertEdge | forge_explore/evidence_graph.ts:154-174 | The search and in-place update or append is the addition to the weighted edge list. |
| EvidenceGraph.EvidenceStore.AddSourceNode | forge_explore/evidence_graph.ts:60-75 | Appends the node under a fresh id and no edge. |
| EvidenceGraph.EvidenceStore.AddClaimNode | forge_explore/evidence_graph.ts:84-107 | Appends the node and adds the references edge from its source. |
| EvidenceGraph.EvidenceStore.AddHypothesisNode | forge_explore/evidence_graph.ts:117-142 | Appends the node and adds an edge per supporting, then per contradicting reference. |
| EvidenceGraph.EvidenceStore.GetGraphStats | forge_explore/evidence_graph.ts:240-260 | The loops compute the statistics. |
| EvidenceGraph.EvidenceStore.BuildContradictionsList | forge_explore/synthesize.ts:95-113 | The loop renders the contradicting edges in order. |
| Critic.ClosedForm | forge_explore/critic.ts:121-174 | From any confidence n clamped steps are one clamped step and then the rest at once; within the caps they are clamp(c + n delta). |
| Critic.RevisedClosedForm | forge_explore/critic.ts:121-174 | With the default caps and a confidence within them, the revised confidence is clamp(c + cycles * delta). |
| Critic.VerifiedExactly | forge_explore/critic.ts:121-174 | A hypothesis is verified exactly when it has support, no contradiction and a confidence below the ceiling, or starts below the floor; the result is within the caps. |
| Critic.DeltaSign | forge_explore/critic.ts:73-104 | The step is positive, negative or zero by the kind of evidence, and at least 0.02 in size when there is any: it can never look converged. |
| Critic.DeltaExactly | forge_explore/critic.ts:73-104 | The step: 0.05 down per contradiction; without any, 0.02 up for each of the first three supports. |
| Critic.ResumesWhereItStopped | forge_explore/critic.ts:121-174 | Critiquing m cycles and then n more is critiquing m + n. |
| Critic.Falsify | forge_explore/critic.ts:121-174 | The loop with its two early exits runs all cycles when there is evidence and one otherwise, and yields the iterated confidence, its difference and the verdict. |
| Critic.FalsifyAll | forge_explore/critic.ts:185-202 | Each hypothesis is revised on its own, in order. |
| McpGuard.Accounting | a_think/mcp_guard.py:204-343 | In every run a session keeps the mode and budget of the call that opened it; its tools used are its calls, whatever was decided, and its steps used are its ALLOWs. |
| McpGuard.TraceIsFaithful | a_think/mcp_guard.py:101-120 | The session's trace has one record per call, showing the counts at that moment. |
| McpGuard.AllowedExactly | a_think/mcp_guard.py:204-343 | A call is executed exactly when the session's earlier calls and ALLOWs are below the limits of its own mode, below the opening budget's tools if the session has a name, and the card permits the tool unattended in the mode. |
| McpGuard.DecidedExactly | a_think/mcp_guard.py:204-316 | Exactly when a call is answered STOP, HOLD, DENY or ALLOW, in terms of counts, budgets and card; a permitted GOVERN call whose card asks for a human is held. |
| McpGuard.TraceExactly | a_think/mcp_guard.py:233-343 | The record a call leaves: held when a permitted tool waits for a human, the outcome when executed, blocked otherwise, with the counts shown. |
| McpGuard.KnownExactly | a_think/affordance.py:62-79 | A card is complete exactly when purpose, reads or writes, the four flags and the minimum mode are all declared. |
| McpGuard.LevelsExactly | a_think/affordance.py:158-161 | Modes are ordered, a minimum mode means the mode of that name, and no mode reaches an unknown one. |
| McpGuard.GoesOnExactly | a_think/router.py:277-304 | An agent goes on exactly when none of the five stop rules applies. |
| McpGuard.ShippedCaps | a_think/budgets.yaml:10-36 | With the shipped budgets a named session opened in FAST executes nothing, one opened in THINK at most ten tools, any at most twenty. |
| McpGuard.AllowsWithinOpeningBudget | a_think/mcp_guard.py:183-193 | A named session executes at most as many tools as its opening budget allows, whatever modes come later. |
| McpGuard.NoToolsNeverExecutes | a_think/mcp_guard.py:183-193 | A named session opened in a mode without tools never executes one. |
| McpGuard.EmptyIdSkipsOpeningBudget | a_think/mcp_guard.py:184-184 | Opened in FAST and called in THINK, exactly the empty id executes. |
| McpGuard.ExecutableExactly | a_think/mcp_guard.py:260-316 | A tool is executed in some run exactly when a mode with a positive budget permits it. |
| McpGuard.UnknownIsHeld | a_think/affordance.py:132-156 | An unregistered or incompletely declared tool is never executed: it is held, unless a budget stops the call first. |
| McpGuard.DestructiveNeverUnattended | a_think/affordance.py:132-173 | If every destructive card has minimum mode GOVERN, whatever is executed is registered, complete and not destructive. |
| McpGuard.DestructiveRunsExactly | a_think/affordance.py:158-173 | With the shipped budgets a destructive tool is executed in some run exactly when its card is complete, asks for approval and has minimum mode FAST or THINK. |
| McpGuard.NameTurnsDenyIntoHold | a_think/mcp_guard.py:167-173 | Any refusal is reported as HOLD when the tool's own name contains UNKNOWN. |
| McpGuard.HeldExactlyWhenMarked | a_think/mcp_guard.py:167-173 | The refusal of a tool with a complete card is reported as HOLD exactly when its name or its minimum mode contains one of the two texts searched for, and as DENY otherwise. |
| McpGuard.MCPGuard.Open | a_think/mcp_guard.py:222-229 | Creates the session of an unknown id with the call's mode and budget and leaves others alone. |
| McpGuard.MCPGuard.CheckPermission | a_think/mcp_guard.py:151-202 | The permission check in its order of tests, with the session budget only for a non-empty known id. |
| McpGuard.MCPGuard.GuardedCall | a_think/mcp_guard.py:204-343 | A call changes only its own session and as specified; the tool is reached exactly on ALLOW with a function given. |
| Dedup.FoundSound | rag/asi_vision_gate.py:533-562 | Every entry is an earlier and a later chunk that are eligible and near, with their similarity; no chunk is flagged twice and no original is flagged. |
| Dedup.NearExactly | rag/asi_vision_gate.py:536-556 | Two chunks are near exactly when both are long enough in words and characters and the shared words are at least the threshold part of all words. |
| Dedup.FoundOrdered | rag/asi_vision_gate.py:533-562 | The entries are in order of original, then duplicate. |
| Dedup.FirstNearFlags | rag/asi_vision_gate.py:533-562 | A chunk is flagged by the first unflagged earlier chunk near it. |
| Dedup.LogExactly | rag/asi_vision_gate.py:579-609 | What the removal log says of each duplicate, by policy and lengths. |
| Dedup.NothingFoundExactly | rag/asi_vision_gate.py:511-564 | Nothing is flagged exactly when the eligible chunks are pairwise below the threshold. |
| Dedup.KeepFirstIsMaximalSeparated | rag/asi_vision_gate.py:567-613 | Keeping the first leaves, in order, chunks pairwise below the threshold, and every chunk dropped has an earlier survivor at or above it. |
| Dedup.SecondPassDropsNothing | rag/asi_vision_gate.py:567-613 | A second pass finds nothing and keeps every chunk. |
| Dedup.SurvivorsExact | rag/asi_vision_gate.py:611-611 | The result is the chunks of the indices not removed, in ascending order. |
| Dedup.LongestKeepsExactly | rag/asi_vision_gate.py:583-599 | With keep = "longest" an original stays exactly when no duplicate of it is longer, and a duplicate exactly when it is longer than its original. |
| Dedup.LongestSurvives | rag/asi_vision_gate.py:583-599 | A longest member of every group survives. |
| Dedup.LongestIsFirstExactly | rag/asi_vision_gate.py:583-599 | keep = "longest" removes what keeping the first does exactly when no duplicate is longer than its original. |
| Dedup.LongestSafeWhenNoneGrows | rag/asi_vision_gate.py:583-599 | When no chunk is longer than an earlier one near it, keeping the longest is keeping the first and leaves chunks far apart. |
| Dedup.LongestSeparatedExactly | rag/asi_vision_gate.py:583-599 | The chunks kept are pairwise below the threshold exactly when no duplicate longer than its original is near another chunk that stays. |
| Dedup.LongestNotSeparated | rag/asi_vision_gate.py:583-599 | A family that fails that condition: of three chunks with the same words and growing lengths two survive that are near each other. |
| Dedup.DetectDuplicates | rag/asi_vision_gate.py:511-564 | The nested loops with their seen set compute the flagged pairs. |
| Dedup.DeduplicateChunks | rag/asi_vision_gate.py:567-613 | The removal loop and the final filter compute the kept chunks and the log. |

## Left out

- HTTP servers, proxies, bridges, provider routing, duties, benchmarks, OCR engines and discovery templates: external calls around finite tables.
- Floating point: intensities, tensions, scores, similarities, confidences and times are exact reals, and the rounding of logged similarities is not modelled.
- The paradox snapshot and its texts, `_motif_intensity_history`, `check_output_resolution`, `inject_from_text` and the emergence callback: they do not feed back into the state modelled.
- Unknown motif ids inside the engine: the registry raises; `ParadoxApi` reports the error and the engine itself is modelled for known ids and distinct motif objects.
- Vectors and norms: a dot product over an abstract positive norm that depends on the vector alone; `somatic_distance` and `find_complementary` would repeat the relation.
- ParadoxLives.ContradictionsTracked: needs motif ids without the separator character of pair ids, which holds for the shipped taxonomy.
- ParadoxProgress.TrackedExactly, and the exact birth values: with one motif per id, as the driver's dictionary ensures.
- ParadoxForgetting.ForgetsExactly: for decay rates as the taxonomy sets them; a hand-made motif with another rate is covered by `ParadoxForgetting.DecayForgets` only.
- `archive_to_minio`, health endpoints, connection set-up and the decoding of messages: external services; `executemany` is atomic and a cancelled write may or may not have been applied.
- Kabarkan.StepKeeps: supposes that a clock reading plus the batch window is positive, so that a set deadline is never 0, and that shutdown falls between two messages.
- Redis: a key expires exactly at its time and the scripts are atomic; fractional `ttl_s` (truncated by the client) and reconnection are not modelled.
- RedisLock.Hold.Enter: supposes that every sleep between probes lets time pass, as the loop does not end otherwise.
- RedisLock.MutualExclusion: supposes that no release presents the token of somebody else's running tenure; `RedisLock.ExclusionNeedsGuard` shows that this is needed and `RedisLock.FreshMeetsGuard` that fresh tokens suffice.
- Lease receipts, file encoding of the log, and leases carrying further fields: no decision depends on them.
- A search that throws ends an exploration without a result and is not modelled; a fetch that throws is.
- The interoceptive gate, telemetry other than the epoch, and the nodes EXTRACT_LINKS, SELECT and SYNTHESIZE, which the runner treats as no-ops.
- Regular expressions and adapters of the exploration: arbitrary answers per iteration.
- Edges of the evidence graph handed back to callers share later weight changes; the model returns none. Edges without a weight never arise from the functions modelled. Pairs of contradictions are ordered, as in the code.
- Findings, open questions and the summary text of synthesis: plain mappings.
- The keyword classification of a request into a mode, wall-clock limits and the unused budget fields: the mode is an input. A tool function that calls the guard again is not modelled.
- `may_escalate`, skill selection and registration of cards: single lookups.
- Word splitting and lower-casing of chunks: an arbitrary function from chunk to word set. Gate counters and the other checks of `rag/asi_vision_gate.py` are not part of this model.
