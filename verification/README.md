# Verified model of the work factory and the QA lane

This project models the decision logic of an autonomous work factory: a supervisor that keeps
its state in tables (`agent_pool/`), and the QA lane beside it (`qa_lane/`). Every transaction
is one atomic step, tables are maps and sequences, times are integers or reals, and whatever
the outside world answers (clock, jitter, survey verdicts, GitHub, process launches) is a
parameter of the step. For each stateful part there are two forms: a pure step function, about
which theorems over every run are proved, and a class or method with the loops and in-place
updates of the source, proved against that step function.

| files | subject |
|---|---|
| `Common.dfy` | optional values, `strip`, string order, sorting |
| `Insertion.dfy`, `Regions.dfy`, `KeyedMerge.dfy` | three-way merge of append-only regions |
| `Stalled.dfy` | release of the improvement slot: recursion over a possibly cyclic graph |
| `AdmissionLedger.dfy`, `AdmissionBounds.dfy`, `AdmissionEpisodes.dfy`, `AdmissionLaws.dfy`, `Admission.dfy` | admission ledger: step function, invariants, run theorems, what each call does, class |
| `Relaunch.dfy`, `RelaunchDesk.dfy` | bounded requeue, quiet-window re-arm, recovery |
| `JobLedger.dfy`, `JobTables.dfy` | job table against the replay of its append-only ledger |
| `Findings.dfy`, `FindingsLaws.dfy`, `FindingsLane.dfy` | lifecycle of QA findings |
| `Planning.dfy`, `Publication.dfy` | dependency ordering and the publication loop |
| `Dispatch.dfy`, `DispatchPass.dfy` | area-weighted dispatch |
| `ConflictLoad.dfy` | greedy concentration verdict |
| `ProcessTree.dfy` | process-tree worklist |
| `Revision.dfy`, `Retype.dfy`, `RevisionEdits.dfy` | additive model derivation, lint, incompatible retype |
| `RunQueue.dfy`, `RunTable.dfy` | supersession of queued assessment runs |

`dafny verify dfyconfig.toml` checks the whole project.

## Where an expected property needs a condition

- Replaying the ledger does not always give a job's status. A repair refused on a live job writes
  `blocked` without a ledger row, and a repair whose counters were lowered before reuses a ledger
  key that is then ignored. `JobLedger.StepAgreesExactly` states that these are the only two steps
  that break agreement, `JobLedger.DeniedRepairDiverges` and `JobLedger.LoweredCounterDiverges`
  give inputs, and `JobLedger.LedgerAgreesExactly` follows the divergence over whole runs.
- The incompatible retype is described as linting clean by construction. It fails its final lint
  exactly when the retyped point is journaled and becomes a float (`Retype.RetypeFailsExactly`);
  `Retype.JournaledFloatIsRefused` gives such a document.
- Deriving with two recipes in a row can be refused where the joined recipe is accepted, because a
  signal of the first may source a point of the second; `Revision.DerivationComposes` gives the
  exact condition and `Revision.LateSourceBreaksComposition` an input.
- The process-tree worklist keeps no visited check on pushes. It ends if and only if the process is
  not recorded as its own ancestor (`ProcessTree.WorklistEndsExactly`); `ProcessTree.RingNeverEnds`
  gives a ring of two processes.
- The publication loop can raise half way, leaving issues created. It does so exactly when an item
  it publishes names a number that is neither an existing issue nor one created before
  (`Publication.Publish`); `Publication.RaisesHalfWay` gives an input.

## Model

| member | source | states |
|---|---|---|
| Insertion.FindPureInsertion | agent_pool/merge_resolution.py:135-156 | Returns an insertion exactly when the side is the base with one nonempty block inserted, and then at the largest index at which that is so. |
| Regions.ParseIsWhole | agent_pool/merge_resolution.py:46-59 | The entries read from a residue are whole, each beginning with the line that opens its key, and printing them gives the residue back. |
| Regions.ParseFlatten | agent_pool/merge_resolution.py:46-103 | Printing whole entries and reading the print gives the same entries, for the row region and for the Landed region. |
| Common.BeforeExactly | agent_pool/merge_resolution.py:205-208 | One key sorts before another when it is a prefix of it or has the smaller character where they first differ. |
| Common.StripTakesSpaces | agent_pool/merge_resolution.py:40-43 | Stripping takes spaces off both ends and nothing else. |
| Regions.KeyedRowExactly | agent_pool/merge_resolution.py:29-43 | A line is a keyed row exactly when it is a bar, spaces, a nonempty backticked name, spaces, a bar and more that ends in a bar; its key is the stripped name. |
| Regions.HeadingExactly | agent_pool/merge_resolution.py:36 | A line is a heading exactly when it begins with one to six hashes and a space. |
| Regions.LandedKeyExactly | agent_pool/merge_resolution.py:37-85 | A line opens a Landed block exactly when it is two to six hashes, spaces, the word Landed, spaces and some text; its key is the stripped line. |
| Regions.RefusedExactly | agent_pool/merge_resolution.py:46-88 | A residue is refused exactly when some line is alien or a body line comes before any opener. |
| Regions.RowsReadExactly | agent_pool/merge_resolution.py:46-59 | A residue of the release contract is read exactly when all its lines are keyed rows. |
| Regions.LandedReadExactly | agent_pool/merge_resolution.py:68-88 | A residue of the QA plan is read exactly when it opens with a Landed heading and has no other heading. |
| Regions.ParseEntries | agent_pool/merge_resolution.py:68-88 | The reading loop refuses exactly those residues and cuts the others into whole entries that print back to them. |
| KeyedMerge.AddAllIsJoin | agent_pool/merge_resolution.py:195-205 | Adding one side's entries to the union is the join with that side's own union, refused exactly on a divergent text or a key the base holds. |
| KeyedMerge.InsertionIsFound | agent_pool/merge_resolution.py:135-156 | Whole entries whose first key the base does not hold, inserted anywhere, are found again as the insertion at that very index. |
| KeyedMerge.RenderReparses | agent_pool/merge_resolution.py:159-209 | The printed union re-parses to the same entries at the same anchor. |
| KeyedMerge.ResolveBySummaries | agent_pool/merge_resolution.py:159-209 | A resolution exists exactly when both sides are pure appends of fresh entries at one anchor without divergent text, and it is the base with the join of both printed there. |
| KeyedMerge.ResolvedSummary | agent_pool/merge_resolution.py:159-209 | A resolved document carries exactly the join of what its sides appended. |
| KeyedMerge.ResolveCommutes | agent_pool/merge_resolution.py:159-209 | Swapping the sides gives the same document, or a refusal both ways. |
| KeyedMerge.ResolveAbsorbs | agent_pool/merge_resolution.py:159-209 | Merging a merged document with itself or with one of its sides returns it unchanged. |
| KeyedMerge.ResolveAssociates | agent_pool/merge_resolution.py:159-209 | Merging three sides is associative, (xy)z with x(yz), including when it is defined. |
| KeyedMerge.ResolveIsLeastUpperBound | agent_pool/merge_resolution.py:159-209 | The resolution is the least document above both sides and exists whenever some document is above both. |
| KeyedMerge.MergesExactly | agent_pool/merge_resolution.py:190-209 | Two sides that append entries new to the base merge exactly when they append at one place and no key has two texts, and then to the base with every entry once, in key order, at that place. |
| KeyedMerge.HeldIsRefused | agent_pool/merge_resolution.py:198-200 | A side that inserts a line opening an entry the base already opens is never merged. |
| KeyedMerge.DivergentRowsRefused | agent_pool/merge_resolution.py:201-202 | Two rows with one name and different text are refused, wherever they are appended. |
| KeyedMerge.ResolveKeyedAppend | agent_pool/merge_resolution.py:159-209 | The loops of the resolver compute that resolution. |
| Stalled.StalledIsComplementOfLeastFixpoint | agent_pool/supervisor.py:1036-1051 | On every dependency graph the check terminates and is false exactly on the least set closed under progress. |
| Stalled.WaitingOnEachOtherIsStalled | agent_pool/supervisor.py:1036-1051 | Pending issues that each wait on another of the same set are all stalled. |
| Stalled.Resolved | agent_pool/supervisor.py:1053-1057 | The slot is released exactly when every mapped issue is done, closed or can never progress. |
| AdmissionBounds.ReachableGroup | agent_pool/admission.py:304-374 | In every reachable state minimum <= target <= ceiling, a group is normal exactly when it has no congestion time, and the cooldown length stays within its maximum. |
| AdmissionBounds.ClonesDistinct | agent_pool/admission.py:258-261 | No two leases of a reachable state share a clone. |
| AdmissionBounds.LeasesWithinLimit | agent_pool/admission.py:262-264 | Leases number at most the limit. |
| AdmissionBounds.LeaseCoversItsModel | agent_pool/admission.py:289-291 | Every lease covers exactly its model's quota groups. |
| AdmissionBounds.ActiveWithinSlots | agent_pool/admission.py:265-281 | A group's active leases never exceed max(1, ceiling - external_slots). |
| AdmissionEpisodes.CongestionRemembered | agent_pool/admission.py:335-360 | A recorded report stays on the group's record, or a later one replaces it, until the group is normal again. |
| AdmissionEpisodes.EveryLeaseWasGranted | agent_pool/admission.py:289-292 | Every lease on record was granted by a step of the run and has been held since. |
| AdmissionEpisodes.LeaseRemembersGrant | agent_pool/admission.py:289-292 | A lease keeps the time, groups and probe mark of the step that granted it. |
| AdmissionEpisodes.ProbeLiftsOnlyItsOwnEpisode | agent_pool/admission.py:361-366 | A probe's success moves a group from probing to normal only if no rate, endpoint, auth or credits report was recorded on it since the lease was granted. |
| AdmissionEpisodes.BlockedUntilReset | agent_pool/admission.py:377-388 | A blocked group stays blocked until an operator resets it. |
| AdmissionEpisodes.NoLeaseWhileBlocked | agent_pool/admission.py:270-281 | No lease granted while a group is blocked covers it. |
| AdmissionEpisodes.OneProbePerGroup | agent_pool/admission.py:272-274 | At most one outstanding lease per group was granted while that group was probing, also when groups share models. |
| AdmissionEpisodes.DecreasesBounded | agent_pool/admission.py:338-346 | Over any run a target is decreased at most 1 + reopening probe successes + resets times. |
| AdmissionEpisodes.IncreasesAreSpaced | agent_pool/admission.py:282-288 | Any two increases of a target are at least quiet_seconds apart. |
| AdmissionEpisodes.RepeatedFinishChangesNothing | agent_pool/admission.py:318-325 | Reporting a recorded invocation again, whether named or read from the lease, changes no group and no outcome; it only drops the lease. |
| AdmissionEpisodes.CooldownReach | agent_pool/admission.py:304-374 | No cooldown reaches further than the group's latest report plus the longest honoured delay plus the jitter bound. |
| AdmissionEpisodes.ProbingCools | agent_pool/admission.py:338-356 | In every reachable state a probing group has a cooldown time. |
| AdmissionEpisodes.CooldownNeverEarlier | agent_pool/admission.py:347-356 | Between any two points of one probing episode the cooldown time never moves earlier. |
| AdmissionLaws.CongestionHalves | agent_pool/admission.py:340-347 | A rate or endpoint report on a normal group halves its target, rounding up, not below the minimum, and opens a probing episode that cools down from the report on. |
| AdmissionLaws.CongestionExtends | agent_pool/admission.py:348-356 | On a troubled group it only moves the cooldown later, and doubles its length up to the maximum when it comes from the probe. |
| AdmissionLaws.AuthBlocks | agent_pool/admission.py:357-359 | An auth or credits report blocks the group and ends its cooldown. |
| AdmissionLaws.OtherReports | agent_pool/admission.py:360-372 | A success reopens the group exactly when it comes from a probe that no report outranks, a probe's failure backs off, and every other report leaves the group alone. |
| AdmissionLaws.ClampIsHint | agent_pool/admission.py:74-78 | A claimed delay is rounded up to whole seconds, at least one and at most the longest honoured delay. |
| AdmissionLaws.ReportsExactly | agent_pool/admission.py:318-337 | A recorded report writes its outcome and drops the lease, a repeated one only drops it, and a key clash changes nothing. |
| AdmissionLaws.ReservesExactly | agent_pool/admission.py:249-292 | A lease is granted exactly when nothing is paused, the owner holds none, the clone is free, the limit has room and every covering group is willing; it is a probe exactly when one of them is probing. |
| AdmissionLaws.GrantGrows | agent_pool/admission.py:282-288 | A grant raises a target by one, below the ceiling, exactly when the group is normal, credited, was asked for more, and quiet_seconds have passed. |
| AdmissionLaws.RefusalNotesLoad | agent_pool/admission.py:275-281 | A refused reservation touches a group exactly when that group is the first to refuse, for being at its target. |
| AdmissionLaws.GroupsInOrder | agent_pool/admission.py:213-214 | A model's groups are asked in configuration order. |
| AdmissionLaws.OtherCalls | agent_pool/admission.py:390-438 | A useful completion is credited once per group, a reset reopens its group, and the other calls touch none. |
| AdmissionTables.Admission.constructor | agent_pool/admission.py:181-199 | An empty store reads as the initial ledger. |
| AdmissionTables.Admission.Reserve | agent_pool/admission.py:241-296 | The denial and growth loops take the ledger through exactly the reserve step, and the result says whether the lease is held. |
| AdmissionTables.Admission.Survey | agent_pool/admission.py:266-281 | Finds the first group that denies the lease, and whether a willing one is probing. |
| AdmissionTables.Admission.Attach | agent_pool/admission.py:298-302 | Binds the invocation to a held lease and nothing else. |
| AdmissionTables.Admission.Finish | agent_pool/admission.py:304-375 | Records one deduplicated outcome, releases the lease and feeds every covering group, or rolls back on a key clash. |
| AdmissionTables.Admission.Credit | agent_pool/admission.py:390-409 | Credits a useful completion once, to each group of its outcome row. |
| AdmissionTables.Admission.Release | agent_pool/admission.py:411-414 | Drops one lease and nothing else. |
| AdmissionTables.Admission.Reset | agent_pool/admission.py:416-429 | Reopens a configured group and refuses an unknown name. |
| AdmissionTables.Admission.Reconcile | agent_pool/admission.py:431-438 | Keeps exactly the leases of the owners that still exist. |
| Relaunch.RelaunchesBounded | agent_pool/supervisor.py:520-650 | Over its whole life an issue is relaunched automatically at most (R+1)*Q + R times. |
| Relaunch.BoundIsReached | agent_pool/supervisor.py:520-650 | For every budget and reset bound some run under a clock that never runs backwards reaches that number. |
| Relaunch.AutomaticRelaunchWaits | agent_pool/supervisor.py:1322-1350 | In every run an automatic relaunch comes from a retry pass on a blocked job, at or after the time set by the last step that armed the retry. |
| Relaunch.RearmsExactly | agent_pool/supervisor.py:607-650 | A retry pass re-arms a held job exactly when every held group that exists is normal, past its cooldown and quiet for quiet_seconds, spending one reset for a fresh budget. |
| Relaunch.RetriesExactly | agent_pool/supervisor.py:308-389 | A blocked job is relaunched exactly when it is due, a slot is free, its preserved work is known and the launch succeeds; only that or a third failed restore takes its flag. |
| Relaunch.FailuresExactly | agent_pool/supervisor.py:520-592 | A requeueable kill is armed after its delay while budget is left, and held for the congested groups on a spent budget while a reset is left. |
| Relaunch.BlocksExactly | agent_pool/supervisor.py:143-172 | A block keeps every counter, hold and schedule under the new survey verdict. |
| RelaunchDesk.Desk.Requeue | agent_pool/supervisor.py:520-592 | Arms one bounded retry, holds a spent budget during congestion, or leaves the park permanent. |
| RelaunchDesk.Desk.Block | agent_pool/supervisor.py:143-172 | A block captures a new survey verdict and carries every counter. |
| RelaunchDesk.Desk.WorkerFailed | agent_pool/supervisor.py:685-695 | A failed worker is requeued when its category allows, then blocked. |
| RelaunchDesk.Desk.QuietEpisodeRearm | agent_pool/supervisor.py:607-650 | Re-arms with a fresh budget exactly when every held group is quiet. |
| RelaunchDesk.Desk.RecoverJob | agent_pool/supervisor.py:308-389 | Relaunches once; only a successful launch consumes the flag. |
| RelaunchDesk.Desk.RetryPass | agent_pool/supervisor.py:1322-1350 | One retry pass over a blocked job. |
| JobLedger.ReplayStatus | agent_pool/merge_flow.py:344-358 | The replay loop returns the last status effect before the cut. |
| JobLedger.StepAgreesExactly | agent_pool/state.py:253-349 | From agreement a step keeps the replay equal to the table unless it is a refused repair of a live job or a repair under a used key. |
| JobLedger.AppendEffect | agent_pool/state.py:253-349 | What a step appends replays to the status it leaves in the table, and other issues are untouched. |
| JobLedger.WritingRestoresAgreement | agent_pool/state.py:280-295 | Whatever the ledger missed before, it agrees again after any step that writes a status. |
| JobLedger.LedgerAgreesExactly | agent_pool/merge_flow.py:344-358 | In every run whose counters move forward, the replay equals the table exactly for the issues without a missed park. |
| JobLedger.ReplayIsHistory | agent_pool/merge_flow.py:344-358 | Replaying the final ledger up to a time gives the status the table had at that time, exactly when no park was missed by then. |
| JobLedger.MergesCounted | agent_pool/state.py:316-323 | In every run the merges counter is the number of merged-and-closed rows. |
| JobLedger.LiveWorkersDistinct | agent_pool/state.py:253-349 | In every reachable store no worker has two live jobs. |
| JobLedger.ReservesExactly | agent_pool/state.py:236-278 | A job is reserved exactly when nothing is paused, its dependencies are done, the live jobs are below 5, 10 or 20 by merges, and issue and worker are free. |
| JobLedger.UpdatesExactly | agent_pool/state.py:280-295 | An update changes the named fields and records a change of status, or nothing when it would give a worker a second live job. |
| JobLedger.CompletesExactly | agent_pool/state.py:316-323 | A completion finishes an unfinished job once, with its row and its merge. |
| JobLedger.RetriesExactly | agent_pool/state.py:328-349 | A retry restarts a blocked job whose worker is free, one attempt later with no repairs. |
| JobLedger.RepairsBounded | agent_pool/state.py:297-314 | In every run whose updates keep the counter within three, no attempt is repaired more than three times and a fourth request parks the job. |
| JobLedger.DeniedRepairDiverges | agent_pool/state.py:313-314 | A run from an empty store whose fourth repair request blocks a job the ledger still calls working. |
| JobLedger.LoweredCounterDiverges | agent_pool/state.py:297-312 | A run from an empty store where a lowered repair counter makes a later repair's row vanish. |
| JobTables.State.Reserve | agent_pool/state.py:253-278 | Inserts a live job and its row, or changes nothing when paused, occupied, full or waiting on a dependency. |
| JobTables.State.UpdateJob | agent_pool/state.py:280-295 | Updates fields and records a status change, or is refused by the live-worker index. |
| JobTables.State.Repair | agent_pool/state.py:297-314 | Grants a repair with its row, or parks an unfinished job without one. |
| JobTables.State.Complete | agent_pool/state.py:316-326 | Completes an unfinished job once and counts the merge. |
| JobTables.State.Retry | agent_pool/state.py:328-349 | Retries a blocked job whose worker is free. |
| Findings.RoutedDescends | agent_pool/findings.py:464-534 | Every status change of a routed finding strictly decreases 5*(max_fix_cycles - cycles) + rank, nothing else moves it, and a routed finding stays routed. |
| Findings.CyclesBounded | agent_pool/findings.py:504-534 | In every reachable lane cycles stay within max_fix_cycles. |
| Findings.LifecycleBounded | agent_pool/findings.py:464-534 | The changes a routed finding has made and its remaining measure add up to less than 5*max_fix_cycles. |
| Findings.ChangesBounded | agent_pool/findings.py:464-534 | A routed finding changes status fewer than 5*max_fix_cycles times over any run. |
| Findings.AwaitsItsFix | agent_pool/findings.py:793-818 | A finding awaiting verification of a known fix has done so since that fix merged, in the same cycle. |
| Findings.ParkedForItsFix | agent_pool/findings.py:625-679 | A parked entry passed every gate when it was parked. |
| Findings.ParkedSettlesOnlyItsFix | agent_pool/findings.py:608-691 | If a retry of a parked entry moves the finding, the finding has been awaiting that very fix ever since the entry was parked. |
| FindingsLaws.VerifiedExactly | agent_pool/findings.py:636-672 | A finding becomes verified in a step if and only if the step applies a passed entry, new or parked, about its awaited commit, case and tested revision, with ancestry and evidence, and the lookup confirms containment. |
| FindingsLaws.EntriesExactly | agent_pool/findings.py:625-691 | A passed entry verifies, a failed one gives a follow-up or gives up, nothing else changes the finding, and an entry is parked exactly when only the lookup failed. |
| FindingsLaws.SightingsExactly | agent_pool/findings.py:464-593 | Where a sighting routes its finding, when it may create an issue, and when it is a regression. |
| FindingsLaws.SweepsExactly | agent_pool/findings.py:738-775 | What a sweep makes of a failed, held or recorded finding. |
| FindingsLaws.MergesExactly | agent_pool/findings.py:800-816 | A merge moves a finding with an open issue to fix-merged under the commit it is known by. |
| FindingsLaws.OthersStay | agent_pool/findings.py:464-818 | No step touches another finding or its parked entry. |
| FindingsLane.Lanes.RedispatchFinding | agent_pool/findings.py:504-534 | Publishes a linked follow-up or leaves the finding unresolved, within the cycle bound. |
| FindingsLane.Lanes.ApplyVerification | agent_pool/findings.py:625-679 | The gates in order; only a proven entry about the awaited fix moves the finding. |
| FindingsLane.Lanes.RetryVerification | agent_pool/findings.py:682-691 | Re-applies a parked entry and unparks it unless the lookup failed again. |
| FindingsLane.Lanes.ReconcileFinding | agent_pool/findings.py:793-818 | Moves a finding whose job is done to fix-merged with what is known of the commit. |
| FindingsLane.ReportPublishesBelowMaxOpen | agent_pool/findings.py:485-486 | A report creates an issue only within its own limit and while fewer than max_open findings are open. |
| FindingsLane.Lanes.IngestReport | agent_pool/findings.py:563-593 | The loop takes every sighting in turn through the observation step, with leave to create while fewer than the limit were created, and counts exactly the issues created. |
| FindingsLane.Lanes.SweepAll | agent_pool/findings.py:738-775 | A sweep loop takes the selected keys in order, each while budget and the open cap allow, stops only where they do not, and counts exactly the issues created. |
| FindingsLane.Lanes.RoutePending | agent_pool/findings.py:728-775 | Failed findings in creation order are swept first, then held and recorded ones, these only below max_open; the issues created stay within the budget. |
| Planning.CycleFrom | agent_pool/planning.py:18-19 | Following unresolved dependencies inside a finite set returns to the path, which gives a cycle. |
| Planning.OrderedIsAcyclic | agent_pool/planning.py:11-24 | A proposal that has a topological order has no dependency cycle. |
| Planning.OrderedIssues | agent_pool/planning.py:11-24 | Terminates, returns a permutation with every dependency before its dependent, and raises exactly when there is a cycle. |
| Publication.LookupsSucceed | agent_pool/supervisor.py:1224-1228 | Whenever an item is published, every key it depends on is in the inventory or was created before it. |
| Publication.NothingMissing | agent_pool/supervisor.py:1228-1230 | The resolved dependencies of an item all exist exactly when it names no missing number. |
| Publication.Publish | agent_pool/supervisor.py:1213-1240 | Raises exactly when an item it publishes names a number that does not exist, keeping what came before; created keys are new, distinct and in order, their dependencies are resolved to earlier issues, and the ready count is the initial one plus the created issues that are ready, at most max(initial, 20). |
| Publication.RaisesHalfWay | agent_pool/supervisor.py:1228-1230 | An input that raises on its second item after creating the first. |
| Dispatch.LaunchesInPriorityOrder | agent_pool/supervisor.py:1358-1399 | At every point of a pass launches are in nondecreasing priority number, none beyond a waiting candidate's. |
| Dispatch.ProportionallyFair | agent_pool/areas.py:122-128 | While a candidate of area b waits, an area a launched at its priority has (n_a - 1)*w_b <= n_b*w_a. |
| Dispatch.LaunchedExactly | agent_pool/scheduling.py:6-27 | At every point of every pass a considered candidate was launched exactly when it is open, had no job, is labelled ready, has readable metadata with an area, all its dependencies are closed, its reservation was granted, and its improvement, if any, holds the lane. |
| Dispatch.StopsExactly | agent_pool/supervisor.py:1378-1392 | A pass stops exactly at a ready candidate that fits the lane and finds no slot, worker or lease. |
| Dispatch.LaunchesCounted | agent_pool/areas.py:127-128 | Each area's active count grows by its launches, and every launched issue has its job. |
| Dispatch.TakenIsLeast | agent_pool/supervisor.py:1360-1373 | The next candidate has the least priority number, unreadable metadata counting as 4, then the least invested share, issues without area last, then the least number. |
| Dispatch.WeightsArePercentages | agent_pool/areas.py:14-29 | The area weights add up to one hundred. |
| DispatchPass.Supervisor.Least | agent_pool/supervisor.py:1371-1373 | Finds the first candidate of least (priority, score, number). |
| DispatchPass.Supervisor.Run | agent_pool/supervisor.py:1371-1399 | The loop runs the pass to its end or to its early return; of the candidates not left over it launches exactly the open, jobless, ready ones with an area, closed dependencies, a granted reservation and a fitting improvement. |
| ConflictLoad.PrefixIsBest | agent_pool/merge_flow.py:153-157 | No set of paths carries more conflicts than the ranked prefix of its size. |
| ConflictLoad.LeastCover | agent_pool/merge_flow.py:153-157 | The first ranked prefix to reach half is a smallest set of paths that carries half. |
| ConflictLoad.Classify | agent_pool/merge_flow.py:145-158 | The verdict is concentrated exactly when some set of at most two paths carries at least half of the attributed conflicts. |
| ProcessTree.Read | agent_pool/runtime.py:286-305 | The reading loop records every process and lists it once, under its parent. |
| ProcessTree.PopKeepsBooks | agent_pool/runtime.py:307-312 | Popping a process and pushing its children never pushes one twice, unless the leader is its own ancestor. |
| ProcessTree.ProcessTree | agent_pool/runtime.py:306-313 | Terminates and returns exactly the group members and the recorded descendants-or-self of the process. |
| ProcessTree.OwnAncestorNeverEnds | agent_pool/runtime.py:307-312 | A process recorded as its own ancestor keeps the worklist busy forever. |
| ProcessTree.WorklistEndsExactly | agent_pool/runtime.py:307-312 | The worklist runs dry if and only if the process is not recorded as its own ancestor. |
| ProcessTree.RingNeverEnds | agent_pool/runtime.py:307-312 | Two processes recorded as each other's parent, on which the worklist never runs dry. |
| Revision.LintIsExact | qa_lane/revision.py:197-251 | Lint finds nothing exactly in documents with all sections, distinct ids, well-formed points and resolved sources. |
| Revision.DerivesExactly | qa_lane/revision.py:91-194 | A recipe applies exactly when its points are sound, internal and under new distinct ids, its signals are sound under new distinct ids and names and source a point there is, and the result is clean. |
| Revision.PointsFitJoin | qa_lane/revision.py:91-137 | Checking joined point lists is checking the first and then the second against what the first added. |
| Revision.SignalsFitFewer | qa_lane/revision.py:140-164 | Fewer known points accept a signal list exactly when they source all of it. |
| Revision.DerivationComposes | qa_lane/revision.py:167-194 | One recipe after another succeeds exactly when the joined one does and every signal of the model and the first recipe sources a point already there; the documents are then equal. |
| Revision.LateSourceBreaksComposition | qa_lane/revision.py:155-159 | An input where the joined recipe is accepted and the two in a row are refused. |
| Revision.DerivationIsAdditive | qa_lane/revision.py:167-194 | The mounted lists are prefixes of the result, all else is kept, additions are internal points under new ids, and the result is clean. |
| Revision.AppliesOnce | qa_lane/revision.py:167-194 | Applying a recipe again is refused unless it adds nothing. |
| Retype.RetypeFailsExactly | qa_lane/revision.py:301-394 | On a clean document an acceptable retype fails the final lint exactly when the point is journaled and becomes a float. |
| Retype.JournaledFloatIsRefused | qa_lane/revision.py:388-391 | A clean document and an acceptable retype that the final lint refuses. |
| Retype.RefusalHalfFailsExactly | qa_lane/revision.py:397-420 | Derivation and retype together fail exactly when the derivation does, the specification does not fit, or a journaled point becomes a float. |
| Retype.NoEndNamesRetyped | qa_lane/revision.py:377-386 | No connection end names the retyped point, the number returned is the number repointed, and the substitute gains exactly those ends. |
| Retype.EndsKeepTheirKind | qa_lane/revision.py:313-321 | Every connection end still meets a point of the kind and direction it met before, while the retyped point alone changed. |
| Retype.RetypesExactly | qa_lane/revision.py:301-394 | On a clean document the retype applies exactly when the specification names a writable internal in point, another fitting kind, no float for a journaled point, and an internal substitute of the old kind; it then changes that point and the ends that named it, and nothing else. |
| RevisionEdits.Lint | qa_lane/revision.py:197-251 | Reports the problems in the source's order. |
| RevisionEdits.ApplyRecipe | qa_lane/revision.py:167-194 | The append loops with growing id sets compute the derivation. |
| RevisionEdits.ApplyIncompatible | qa_lane/revision.py:301-394 | The search, edit and rewire loops compute the incompatible variant. |
| RunQueue.OneQueuedAssessment | qa_lane/state.py:89-126 | At most one assessment is queued in every reachable table. |
| RunQueue.ChainEnd | qa_lane/state.py:101-120 | Following supersessions ends at an assessment that is not superseded and answers for the same oldest revision. |
| RunQueue.SupersededIsCovered | qa_lane/state.py:89-126 | In every run that enqueues in commit order, each assessment's revision lies in [range_first, attempted] of the unsuperseded record at the end of its own supersession chain. |
| RunQueue.NoRevisionDropped | qa_lane/state.py:89-139 | From its enqueue on, every revision stays covered by an assessment that is not superseded, whatever dedicated runs do. |
| RunQueue.EnqueuesExactly | qa_lane/state.py:101-126 | An enqueue is a no-op exactly when an assessment of the revision is queued or running or the id is used; else it appends one queued record and supersedes every queued assessment. |
| RunQueue.RangeFromLastEnded | qa_lane/state.py:110-116 | With nothing queued, a new record's range starts where the last ended assessment stopped, unless that is the new revision or nothing has ended. |
| RunQueue.RangesMeet | qa_lane/state.py:110-116 | So the new record starts exactly where the last one stopped. |
| RunQueue.RangeFromQueued | qa_lane/state.py:105-109 | With an assessment queued, the new record takes over its range. |
| RunQueue.OtherCallsExactly | qa_lane/state.py:128-207 | Only a queued run begins, finish and interrupt end a run whatever its status, and no other row changes. |
| RunTable.State.Enqueue | qa_lane/state.py:89-126 | Returns the pending record of the revision, or supersedes the queued assessments and appends a record answering for their oldest revision. |
| RunTable.State.QueueDedicated | qa_lane/state.py:128-139 | Appends a dedicated record and supersedes nothing. |
| RunTable.State.Begin | qa_lane/state.py:183-193 | Only a queued run begins. |
| RunTable.State.Finish | qa_lane/state.py:195-200 | Ends the run with the revision it completed. |
| RunTable.State.Interrupt | qa_lane/state.py:202-207 | Marks the run interrupted and keeps its revisions. |

## Left out

- SQLite itself, migrations and concurrency inside a transaction: a transaction is one atomic step.
- Git, GitHub, containers, `/proc` parsing, signals and process spawning; their answers are parameters.
- Text classification of failures, areas and block causes: the category, area or cause is an input.
- Prompts, logging, dashboards, summaries, report budgets and the shape validators of reports and configuration, beyond the facts the proofs rely on.
- Findings.RoutedDescends: the planner's dispositions of a capability finding are one final status, without the issue they may name.
- Factory mode (unlimited provider waits) and timeout requeues in the supervisor.
- Survey and restore of preserved work: only the verdict and the counters `capture_recovery` carries are kept.
- RelaunchDesk.Desk.RecoverJob: a crash between a launch and the consumption of its flag, and a launch that raises after the worker was spawned, are not steps of the model.
- AdmissionTables.Admission.Finish: does not model the `work_events` row it inserts; an outcome without invocation is keyed by the pair of owner and time instead of their joined text.
- AdmissionTables.Admission.Attach: does not model the `started` and `updated` columns.
- AdmissionTables.Admission.Credit: the outcome row is an input; its lookup by invocation or latest owner is not modelled.
- AdmissionTables.Admission.Reserve: configuration is fixed, so leases that name groups no longer configured do not occur.
- AdmissionEpisodes.ProbeLiftsOnlyItsOwnEpisode: assumes a clock that never runs backwards, as the timing theorems of that module do.
- KeyedMerge.ResolveKeyedAppend: does not model the conflict-marker and trailing-newline checks on the worktree, nor the text of a refusal.
- Regions.ParseEntries: whitespace is the ASCII and control set; other Unicode spaces are not recognised.
- JobLedger.LedgerAgreesExactly: assumes that no update takes an issue's attempt and repair counters backwards; `StepAgreesExactly` covers a single step without that assumption.
- Findings.ParkedSettlesOnlyItsFix: assumes that different merges of one finding's fixes have different commits.
- DispatchPass.Supervisor.Run: slots, free workers and leases are one answer per candidate; `Allocation.from_inventory` and its window are an input.
- Publication.Publish: the issue number the tracker assigns is an input per key; bodies, labels and the improvement map are not modelled.
- Dispatch.ProportionallyFair: scores are exact quotients rather than floating-point ones.
- ProcessTree.ProcessTree: requires that the process is not recorded as its own ancestor, the exact condition for the source to end.
- RevisionEdits.ApplyRecipe: starts from documents whose sections are lists, keeps only the ids of devices and components, and does not say which problem is named first.
- RunTable.State.Enqueue: does not model attempt numbers, days, pids and timestamps; rows are kept in creation order.
- RunQueue.SupersededIsCovered: assumes that revisions are enqueued in commit order and that a run completes no revision newer than the one it attempted.
