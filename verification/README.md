# Verified model of goatest

goatest is an assurance runner for Go tests: it measures which tests cover what, mutates the code, decides
which tests have to run against each mutant, runs them in batches, reuses verdicts of earlier runs, and keeps
its progress in a checkpoint that survives a crash. This project models the parts of it where a subtle mistake
would silently change a verdict or lose work, and proves what those parts promise.

Check everything with `dafny verify dfyconfig.toml` (Dafny 4.11).

## How the model is laid out

| files | component |
|---|---|
| `Checkpoint.dfy`, `Journal.dfy` | the checkpoint state, its base file and append-only journal, down to lines and torn tails |
| `CrashRuns.dfy` | all runs of base writes, appends and deletions, with a crash between any two steps |
| `Resume.dfy` | the controller that drives the journal, and its diff of two states against replay |
| `Leases.dfy`, `LeaseRuns.dfy` | the resource lease manager, and every interleaving of its critical sections |
| `Admission.dfy`, `AdmissionRuns.dfy` | admission to the native build cache, and every interleaving |
| `Collector.dfy`, `Layers.dfy`, `LayerRuns.dfy` | the collector of one cache layer, the two-layer cache, and runs of both |
| `Repair.dfy` | the transactional repair batch |
| `Coverage.dfy` | block coverage, its merge, its lookup and its way through a checkpoint |
| `Routing.dfy`, `RoutingSoundness.dfy` | which tests run against a mutant, and that no killer is pruned |
| `ResumedRoutes.dfy` | the routes a run takes on evidence that comes back from a checkpoint |
| `Groups.dfy` | batching, evaluation of the batches, agreement with running every test |
| `Evidence.dfy`, `EvidenceSoundness.dfy` | verdicts reused from run to run |
| `Evaluation.dfy`, `EvidenceKept.dfy` | the evaluation of a mutant from route to verdict, campaigns of runs, and what one run leaves for the next |
| `Accounting.dfy` | the mutant accounting and its auditor |
| `TraceStream.dfy` | the trace recorder, its ring and its reader |
| `Encoding.dfy` | the length-prefixed encoding behind behaviour keys |
| `Ordering.dfy`, `Wrappers.dfy` | sorting by a total preorder, and Option |

Objects that the program updates in place are classes. Their methods are proved equal to step functions on
values; the theorems about runs, crashes and interleavings are about those step functions. A method that runs
under a mutex is one step. Loops over lists and maps are loops here too, proved against a specification.

## What the theorems rest on

* `Journal.Lawful`: encoding a state or a record loses nothing, a record is one line of text, and digests do
  not collide. `Repair.Rules.CollisionFree` and `Encoding.CollisionFree` are the same for their digests.
* `RoutingSoundness.Explained`: a test that kills a mutant covers its position, enters the body that a narrowed
  condition guards (when the instrumented coverage has that body), and was infected in its probe. Measured
  coverage is canonical and infection lists are sorted.
* `Groups.Faithful`: a conclusive batch kills exactly when one of its tests does.
* `EvidenceSoundness.Oracle` and `Consistent`: in each run there is a truth about which test kills and which
  reads beyond its narrow inputs (`World`), and it may differ from run to run. A behaviour key determines it: a
  narrow key unless the test reads further, a whole-tree key always, the empty key nothing. The observer notices
  a test that reads further (`ObservesSoundly`).
* `Evaluation.SuiteTrusted`: a package suite whose measured coverage misses a mutant, whose probe it never
  infected, or whose run survives, does not kill it. Suite coverage has one entry per path (`SuitesInOrder`).
* `EvidenceKept.Marks` and `Recordable`: the observer marks targets and changes nothing else of them, and the
  targets of the route can be put on record.
* `LayerRuns.Sized` and `RightSizes`: an output identifier determines the size of the object; `Addressed` and
  `RightBodies`, where bytes are concerned: it determines the bytes.
* `ResumedRoutes.WellMeasured`: measured coverage and infection lists are in the order the measurement produces.
* `Encoding.Tellable`: no file has the digest `toolchain` and no dependency the digest `dependencies`, and an
  environment entry has an equals sign; hexadecimal digests meet this (`Encoding.DigestsAreTellable`).

Where such a condition is needed, a lemma shows what happens without it: `LayerRuns.SizesMustAgree`,
`Encoding.SectionsCanBlur`, `EvidenceSoundness.EscapesMustBeObserved`, `Resume.RejectsDuplicate`.

## What the proofs found

* Saving a mutant that is already on record appends a line that recovery rejects. `saveMutant` leaves a
  recoverable checkpoint exactly when the mutant is new and its result valid, and a journaled baseline, which is
  not checked either, exactly when it is valid (`Resume.RunCheckpoint.SaveMutant`, `SaveBaseline`).
* Coverage that was not measured comes back from a checkpoint as measured and empty; it comes back as it was
  exactly when it was measured and canonical (`Coverage.CheckpointRoundTrip`). On resumed evidence a mutant
  takes another route exactly when it lies on a block and a target without measured coverage has its file; in
  every other case the order of files and environments, which the checkpoint changes, does not matter
  (`ResumedRoutes.RouteChangesIffMisled`, `ResumedRoutes.ResumedRouteIsSame`).
* A persisting put is what a later get returns, with its output, size and time, exactly when no scratch record
  shadows it: a readable one that differs from what was put, and whose object is at hand before the put, is the
  object put, or is stored by a later step (`LayerRuns.PersistedUnlessShadowed`).
* A rollback without a complaint loses an edit exactly when it gave a written target its candidate's own text,
  other than the original, before that target's step and nothing touched the path afterwards
  (`Repair.Tree.ApplyCandidates`).
* The accounting always balances. Its audit passes exactly when no line is negative, a reused verdict names its
  provenance and belongs to a mutant of the run that has a finding or was last concluded killed or accepted,
  and every mutant of the run is decided or the verdict is ERROR (`Accounting.AuditPassesIff`).

## Model

| member | source | states |
|---|---|---|
| Checkpoint.Validate | internal/checkpoint/checkpoint.go:175-301 | accepts a state exactly when it is valid as far as the model goes: target, suite and mutant identifiers present and distinct, at most one instrumentation anchor per package, no terminal baseline with open units; race packages, routing suites, probe lists and the fields inside a unit are opaque |
| Checkpoint.CanonicalValid | internal/checkpoint/checkpoint.go:405-568 | ordering targets, suites and mutants by identifier keeps validity, the sets of units and the header; the order of the lists that are opaque here is not part of it |
| Checkpoint.SameUnitsSameCanonical | internal/checkpoint/checkpoint.go:405-568 | two valid states with the same units have one canonical form, whatever their order |
| Journal.SplitJoined | internal/cache/checkpoint.go:215-309 | a journal of complete lines splits back into exactly those lines |
| Journal.CheckpointStore.ApplyCheckpointJournal | internal/cache/checkpoint.go:197-309 | the replay loop yields the replay of the complete lines: stale lines skipped, torn tail ignored, duplicates and foreign or damaged lines refused |
| Journal.CheckpointStore.GetCheckpoint | internal/cache/checkpoint.go:39-67 | returns what recovery of the disk is, and remembers the base digest only then |
| Journal.CheckpointStore.PutCheckpoint | internal/cache/checkpoint.go:95-139 | the disk after an interruption at each step: before the rename, between rename and journal removal, after |
| Journal.CheckpointStore.AppendRecord | internal/cache/checkpoint.go:153-195 | any prefix of the line may reach the journal; success means all of it did |
| Journal.CheckpointStore.DeleteCheckpoint | internal/cache/checkpoint.go:323-351 | the disk after an interruption at each step of the removal |
| CrashRuns.RecoverReadsLayout | internal/cache/checkpoint.go:197-309 | a disk with stale lines, current lines and a torn tail recovers to the base with the current units applied |
| CrashRuns.RecoverReadsAny | internal/cache/checkpoint.go:197-309 | the same for any state such a disk stands for: it recovers to its canonical form when it is valid, and is refused when it is not |
| CrashRuns.RefusesDamage | internal/cache/checkpoint.go:39-309 | recovery refuses an unreadable, invalid or foreign base, and a complete line that is unreadable, foreign, fails its checksum, carries other than one unit or belongs to an older base behind a current line, wherever it stands |
| CrashRuns.StepKeeps | internal/cache/checkpoint.go:95-195 | every step of every operation, and a crash, keeps the disk explainable |
| CrashRuns.CrashSafety | internal/cache/checkpoint.go:39-351 | at every point of every run recovery yields the last acknowledged state or the one in flight, in canonical order, never an error |
| CrashRuns.ResumeContinues | internal/assure/resume.go:38-64 | a process that dies between operations is resumed where it stood, with one more attempt counted |
| Resume.SuffixCompletes | internal/assure/resume.go:157-193 | the previous units with the suffix are the next units: none lost, changed or duplicated |
| Resume.JournalSuffix | internal/assure/resume.go:157-230 | accepts exactly when next extends previous, and returns what it adds, in order |
| Resume.BaselineJournalSuffix | internal/assure/resume.go:157-193 | accepts exactly when the headers agree, the suites are the same and the targets extend |
| Resume.SuiteJournalSuffix | internal/assure/resume.go:195-230 | accepts exactly when the headers agree, the targets are the same and the suites extend |
| Resume.TargetDiffReplays | internal/assure/resume.go:157-193 | replaying the target suffix over any previous state gives the units of the next one, and its canonical form when that is valid, the routing field included |
| Resume.SuiteDiffReplays | internal/assure/resume.go:195-230 | the same for the suite suffix |
| Resume.RunCheckpoint.Open | internal/assure/resume.go:38-64 | on any disk: what recovery finds is resumed with one more attempt, a corrupt checkpoint is deleted and the run starts cold, and a base is published before any append, which the next process would find |
| Resume.RunCheckpoint.SaveBaseline | internal/assure/resume.go:115-155 | the state in memory takes the new units, in order; by suffix, unchecked as in the program, the controller stays enabled exactly when every line is written whole and synchronised, and by base exactly when the state is valid and published; enabled, it leaves the new baseline to the next process exactly when that is valid; disabled, nothing once the base file is deleted |
| Resume.RunCheckpoint.SaveMutant | internal/assure/resume.go:343-374 | the result takes the place of any earlier one in memory; the controller stays enabled exactly when the line is written whole and synchronised; what the next process finds is stated for every outcome: the new state for a new, valid result written whole, a rejected journal for a repeated or invalid one, the old state for a torn line, nothing after a deletion |
| Resume.RunCheckpoint.Persist | internal/assure/resume.go:417-430 | stays enabled exactly on a valid state and a complete publication; a failed one leaves the old state, the new one or nothing, and nothing once the base file is deleted |
| Resume.RejectsDuplicate | internal/cache/checkpoint.go:284-304 | one more line for an identifier already held makes the journal corrupt |
| Leases.Manager.Acquire | internal/resource/resource.go:121-177 | one critical section of Acquire is the acquire step on the abstract manager |
| Leases.Manager.Release | internal/resource/resource.go:196-219 | a release drops one reference and retires the instance at zero |
| Leases.Manager.Close | internal/resource/resource.go:221-244 | closing takes all active instances as victims and wakes every waiter |
| LeaseRuns.StepKeeps | internal/resource/resource.go:121-260 | every step of every thread keeps the invariant of references, stops, exclusivity and waiting |
| LeaseRuns.ExclusiveSafety | internal/resource/resource.go:142-177 | an exclusive capability never has two instances that are not fully stopped |
| LeaseRuns.ReferencesCountLeases | internal/resource/resource.go:186-219 | the references of an active instance are its unreleased leases |
| LeaseRuns.SharedIsOne | internal/resource/resource.go:142-177 | two instances of a shared capability are never in use at once |
| LeaseRuns.AcquireAnswers | internal/resource/resource.go:121-177 | in every state of every run Acquire gives its errors, waits, hands out the shared instance in use or grants a new one, each exactly in its own case; a start that succeeds is granted |
| LeaseRuns.GrantedIsLive | internal/resource/resource.go:121-177 | what Acquire hands out, new or shared, is neither stopped nor about to be |
| LeaseRuns.NoLostWakeUp | internal/resource/resource.go:142-157 | a waiter on an open channel waits for a capability that is still active in an open manager |
| LeaseRuns.ClosedMeansStopped | internal/resource/resource.go:221-244 | once Close and the releases in flight have returned, all that ever started is stopped |
| LeaseRuns.ReleasedMeansStopped | internal/resource/resource.go:196-219 | once all leases are released nothing runs, and no waiter is left on an open channel |
| Admission.NativeProjection.Check | internal/assure/buildcache.go:285-308 | the decision to admit, refuse or drain is the abstract one |
| Admission.NativeProjection.AfterDrain | internal/assure/buildcache.go:308-332 | what follows the drain: refresh, collection and the answer |
| Admission.NativeProjection.Collect | internal/assure/buildcache.go:377-398 | a collection runs when due or forced, and a failure disables the projection |
| AdmissionRuns.ChangesOnlyWhenDrained | internal/assure/buildcache.go:285-332 | in every interleaving the directory changes only with no admitted execution outstanding |
| AdmissionRuns.AdmitsCurrentGeneration | internal/assure/buildcache.go:285-332 | an execution starts only against an enabled projection seeded at the current generation |
| AdmissionRuns.AdmitsWhatWasRead | internal/assure/buildcache.go:248-332 | an execution starts only against a directory whose content was read, by seeding or refresh, after every command that dirtied the cache |
| AdmissionRuns.ChecksExactly | internal/assure/buildcache.go:285-308 | who is refused, admitted or made to drain, with the collection interval spelled out |
| AdmissionRuns.DrainedExactly | internal/assure/buildcache.go:308-398 | when a drain refreshes, collects, disables and admits, and which time of collection it leaves |
| AdmissionRuns.FailureAdmitsNothing | internal/assure/buildcache.go:308-398 | a refresh or collection that fails disables the projection: neither that step nor a later one admits anything |
| AdmissionRuns.DisabledAdmitsNothing | internal/assure/buildcache.go:295-332 | once disabled nothing is admitted again |
| AdmissionRuns.SomebodyCanStep | internal/assure/buildcache.go:285-332 | while anybody is inside, somebody can step: releases need no lock, so the drain cannot deadlock |
| AdmissionRuns.DrainOnlyShrinks | internal/assure/buildcache.go:304-332 | until the draining thread goes on, the outstanding executions only end |
| AdmissionRuns.SeedsBeforeAdmission | internal/assure/buildcache.go:248-281 | seeding happens before anything is admitted |
| Collector.Sweep.Drop | internal/buildcache/layer.go:412-423 | dropping an action keeps the reference counts, the flags and the remaining bytes those of the survivors |
| Collector.Sweep.Collect | internal/buildcache/layer.go:358-468 | the dropped actions are the oldest, none of them younger than the idle time, each past its time to live or in the way of the size limit; even on failure no erased object is young or named by a survivor; on success the two passes stop where a single walk in age order must, what is left is within the size limit or all young and nothing old is left that is not young, and counts, bytes and oldest times are those of what survives |
| Collector.StaysIffNeeded | internal/buildcache/layer.go:399-423 | with unique names an object stays exactly when protected or named by a survivor |
| Collector.CollectionIsIdempotent | internal/buildcache/layer.go:358-468 | the bytes reported are those of the objects that stay, and a second collection at once does nothing |
| Layers.TwoLayers.Get | internal/buildcache/layers.go:51-86 | the loops over sources and holders answer as the specification; a hit is backed by its record and by an object of its size, scratch first, still there afterwards; its action counts as used within the touch interval of its layer, and nothing else changes |
| Layers.TwoLayers.Put | internal/buildcache/layers.go:92-127 | succeeds exactly when the layers can be asked, an object is there or can be written in its size, and the record is written; leaves the record and, when no asked layer held the object, the bytes given; a failure leaves nothing that was neither there nor given, and nothing else ever changes |
| Layers.Layer.Collect | internal/buildcache/layer.go:358-468 | the sweep on the files of a layer: the oldest actions go, for their age or for the size limit; no young object and none named by an action left goes, and a complete collection leaves no other |
| LayerRuns.BaseStaysComplete | internal/buildcache/layer.go:250-315 | over every run each base action keeps its object in the base at the recorded size |
| LayerRuns.SizesMustAgree | internal/buildcache/layer.go:250-272 | without sizes fixed by identifiers one put can break that |
| LayerRuns.HitsHaveTheirBytes | internal/buildcache/layer.go:250-315 | over every run, collections included, a hit names a layer whose object has the bytes put under its identifier |
| LayerRuns.BaseUntouched | internal/buildcache/layers.go:108-127 | runs that never persist and never collect the base leave its contents alone |
| LayerRuns.PutIsWhatGetReturns | internal/buildcache/layers.go:51-127 | a non-persisting put is what every later get of the action returns, record and bytes, through gets and puts of others |
| LayerRuns.PersistedUnlessShadowed | internal/buildcache/layers.go:51-127 | a persisting put is what a later get returns, output, size, time and bytes, exactly when no record shadows it, in terms of the store before the put and the objects later steps store; failing reads can only make the get fail |
| LayerRuns.ShadowExists | internal/buildcache/layers.go:53-80 | such a shadow exists |
| Repair.Tree.InspectAll | internal/repair/repair.go:166-196 | distinct allowed targets, their originals, and whether all match their preimages |
| Repair.Tree.WriteOne | internal/repair/repair.go:198-223 | one target is written, or everything before it is rolled back |
| Repair.Tree.Rollback | internal/repair/repair.go:249-274 | every written target is put back, complained about, or left to an edit; one that an edit gave the candidate's text is put back too |
| Repair.Tree.ApplyCandidates | internal/repair/repair.go:160-225 | all candidates are applied, or none is; the files read as the edits of others alone would leave them, but for targets complained about and edits lost; without a complaint the lost edits are exactly those that gave a written target its candidate's text and were not followed by another; without edits the files are exactly as before, modes included, or exactly overwritten, and the rollback complains only when it cannot look or write; without disturbance a fresh batch is applied |
| Repair.RollbackKeepsRestoring | internal/repair/repair.go:249-274 | one step of the rollback, edits first, in each of its branches |
| Repair.OwnTextIsUndone | internal/repair/repair.go:258-262 | such a lost edit exists |
| Coverage.MergeFileCoverage | internal/golang/coverage.go:159-169 | the merge loop yields the canonical list of the blocks of both sides |
| Coverage.SortedFileCoverage | internal/golang/coverage.go:224-238 | the list is canonical and holds exactly the recorded blocks |
| Coverage.CanonicalUnique | internal/golang/coverage.go:224-252 | canonical coverage is determined by its blocks |
| Coverage.MergeCommutes | internal/golang/coverage.go:159-169 | merging is commutative |
| Coverage.MergeAssociates | internal/golang/coverage.go:159-169 | merging is associative |
| Coverage.MergeIsIdempotent | internal/golang/coverage.go:159-169 | merging with itself is the identity exactly on canonical coverage |
| Coverage.MergeCoversUnion | internal/golang/coverage.go:48-55 | the merge covers a position exactly when one side does |
| Coverage.FindFileCoverage | internal/golang/coverage.go:171-179 | the binary search finds the file exactly when there is one, and with one entry per path its blocks answer for the whole list, each as a half-open interval |
| Coverage.CanonicalCoverage | internal/checkpoint/checkpoint.go:570-587 | the checkpoint's own ordering and compaction |
| Coverage.CheckpointRoundTrip | internal/assure/baseline.go:1047-1108 | coverage comes back canonical with the same blocks, and unchanged exactly when it was measured and canonical |
| Routing.FoundIsMember | internal/assure/mutation.go:86-92 | the search of a sorted infection list is membership |
| Routing.OrderReachingTargets | internal/assure/mutation.go:1175-1189 | measured targets sorted stably by witness, the others behind them |
| Routing.OrderIsByWitness | internal/assure/mutation.go:1175-1207 | probed targets before others, then the fewest infections, then the shortest probe or baseline time; targets without a time last |
| Routing.OrderIsStable | internal/assure/mutation.go:1175-1189 | equal witnesses and targets without a time keep their order |
| Routing.DischargeReachingTargets | internal/assure/mutation.go:1084-1145 | both proofs applied in turn, the discharges listed in order |
| Routing.RouteMutant | internal/assure/mutation.go:1055-1082 | candidates by file, then by position, ordered and discharged; files alone without a position |
| Routing.ApplySuiteCoverageRouting | internal/assure/mutation.go:961-983 | the package suite's coverage of an unrouted mutant, by binary search as by definition |
| Routing.ApplyProbeRouting | internal/assure/mutation.go:1009-1049 | the suite probe, its contradiction, and the targets that probes add |
| RoutingSoundness.NoKillerIsLost | internal/assure/mutation.go:961-1166 | no target that kills the mutant is missing from the final route |
| RoutingSoundness.RouteIsExact | internal/assure/mutation.go:1055-1166 | the route holds exactly the targets of the mutant's file that coverage, the narrowed branch and infections do not rule out, each spelled out over the evidence, and says how it was made |
| RoutingSoundness.FullRouteIsExact | internal/assure/mutation.go:961-1166 | the final route is that and exactly the targets whose probe the mutant infected and which the route does not know, unless the suite itself has to run |
| RoutingSoundness.SuiteEvidenceDecides | internal/assure/mutation.go:961-1049 | the suite flags of the final route in terms of the suite's coverage and infections: measured, reached, probed, infected, with an infection overriding coverage |
| RoutingSoundness.DischargePartitions | internal/assure/mutation.go:1084-1166 | each block reaching target is kept or discharged, never both, with its own reason |
| RoutingSoundness.DischargedNeverKill | internal/assure/mutation.go:1055-1166 | reaching and discharged make up the block reaching targets, and no discharged one kills |
| RoutingSoundness.ProbesOnlyAdd | internal/assure/mutation.go:1009-1049 | probe routing keeps every target and discharge and adds only infected, unrouted ones |
| RoutingSoundness.AddedComplete | internal/assure/mutation.go:1031-1044 | every target infected in its probe ends up routed under its name |
| ResumedRoutes.ResumedRouteIsSame | internal/assure/mutation.go:961-1189 | evidence that the checkpoint reorders takes a mutant along the same route: the resumed targets in the same order, the same discharges, suite and probe fields |
| ResumedRoutes.RouteChangesIffMisled | internal/assure/baseline.go:991-1108 | a mutant takes another route on resumed evidence exactly when it lies on a block and a target without measured coverage has its file |
| ResumedRoutes.UnmeasuredIsLost | internal/assure/baseline.go:1103-1108 | such a target, unless probed along with the mutant, reaches the mutant before the checkpoint and not after it |
| ResumedRoutes.ResumesUnchanged | internal/assure/baseline.go:1047-1108 | evidence resumes unchanged exactly when it was measured and in the checkpoint's order |
| Groups.MutationTargetGroups | internal/assure/mutation.go:797-820 | the loop with its index of keys builds the specified groups |
| Groups.GroupsPartition | internal/assure/mutation.go:797-820 | every target is in exactly one group, with all the others of its key and none else |
| Groups.GroupsInOrder | internal/assure/mutation.go:812-883 | the group with the smallest total time comes first, ties going by key, and members go by package, name, kind and identifier |
| Groups.DurationIsSum | internal/assure/mutation.go:835-883 | the duration of a group is the sum over its members held at the largest duration, in any order |
| Groups.EvaluateGroups | internal/assure/mutation.go:503-567 | the loop stops at the first kill or failure and gathers the rest |
| Groups.VerdictIsJustified | internal/assure/mutation.go:503-567 | a verdict records exactly the groups that justify it |
| Groups.ClassIgnoresOrder | internal/assure/mutation.go:503-567 | killed if any kills, else unknown if any is unknown, else survived, in any order of the groups |
| Groups.EvaluationAgreesWithBruteForce | internal/assure/mutation.go:413-567 | pruning and batching agree with running every target |
| Evidence.MutationEvidence.ReuseKill | internal/assure/mutation_evidence.go:449-467 | reuses a kill exactly when some group of the route holds the recorded killers as they were |
| Evidence.MutationEvidence.ContainsTargetSet | internal/assure/mutation_evidence.go:476-495 | every recorded killer is in the group, passed and matches its key |
| Evidence.MutationEvidence.ReuseVerdict | internal/assure/mutation_evidence.go:497-547 | reuses a survival or an unreached finding exactly when the record still answers for the route |
| Evidence.MutationEvidence.RecordKill | internal/assure/mutation_evidence.go:604-630 | records the keys of the whole killing group, in order, exactly when each member is named, passed its baseline and has a key, and nothing otherwise |
| Evidence.MutationEvidence.RecordSurvived | internal/assure/mutation_evidence.go:572-602 | records the keys of all executed targets exactly when each is measured, passed its baseline and has a key, and nothing otherwise |
| Evidence.MutationEvidence.RecordSuite | internal/assure/mutation_evidence.go:549-570 | records the suite under today's key, over the whole tree when it reads it, or nothing when it has none |
| Evidence.MutationEvidence.WholeSuiteKey | internal/assure/mutation_evidence.go:419-447 | the memoised key is the one computed from the members |
| Evidence.MutationEvidence.Store | internal/assure/mutation_evidence.go:642-671 | for the mutants of the catalog, what this run recorded, and of the others what earlier runs did |
| Evidence.ReuseIsExact | internal/assure/mutation_evidence.go:449-547 | when a kill, a survival or an unreached finding is reused, over the recorded keys and those of today |
| Evidence.WholeMembersExactly | internal/assure/mutation_evidence.go:419-447 | a suite has a key over the whole tree only when each of its targets is measured, passed and has one |
| EvidenceSoundness.RecordingIsSound | internal/assure/mutation_evidence.go:549-630 | whatever is recorded of a truthful run keeps a true killer, or only non-killers |
| EvidenceSoundness.EvaluationIsJustified | internal/assure/mutation.go:503-567 | an evaluation asks to record only what it saw |
| EvidenceSoundness.StoreStaysSound | internal/assure/mutation_evidence.go:642-671 | over any sequence of runs and edits the store stays sound |
| EvidenceSoundness.ReusedKillIsTrue | internal/assure/mutation_evidence.go:449-495 | a reused kill is a kill today by a target of the route |
| EvidenceSoundness.ReusedSurvivalIsTrue | internal/assure/mutation_evidence.go:497-540 | a reused survival is a survival today |
| EvidenceSoundness.ReuseAgreesWithFreshRun | internal/assure/mutation_evidence.go:449-547 | a reused verdict is the one of a fresh, conclusive evaluation and of running every target |
| EvidenceSoundness.EscapesMustBeObserved | internal/assure/mutation_evidence.go:358-377 | a narrow key of a target that reads beyond it matches after a change that matters |
| Evaluation.EvaluateMutationSeed | internal/assure/mutation.go:413-567 | reuse of kills, suite findings, reuse of verdicts, batches and recording, in the program's order, are the specified seed and the specified entry |
| Evaluation.UnreachedIff | internal/assure/mutation.go:413-502 | a mutant is called unreached without a run exactly when nothing routes or discharges it and the suite's evidence misses it, and the other answers each exactly in their own case |
| Evaluation.SeedIsTrue | internal/assure/mutation.go:413-567 | reuse included, a killed mutant is killed by a target, a live one by none, an unreached one not by its suite, and what is recorded is so |
| Evaluation.CampaignsStaySound | internal/assure/mutation_evidence.go:642-671 | over any sequence of runs that evaluate what the last one stored, on any edits, the store stays sound |
| Evaluation.VerdictsAreTrue | internal/assure/mutation.go:413-567 | any verdict of any of those runs, reused or fresh, is the one of running every target |
| EvidenceKept.StoredFor | internal/assure/mutation_evidence.go:642-671 | after a run that tries a mutant once, the store has the run's own record of it when there is one to record, and the earlier one otherwise |
| EvidenceKept.VerdictIsKept | internal/assure/mutation.go:413-567 | the next run on the same tables and route gives the same verdict from the record: a kill as a reused kill, a survival or a suite survival as its finding, under the provenance of the run that found it |
| Accounting.ValidateCatalog | internal/assure/mutation.go:236-267 | accepts exactly the catalogs whose mutants are distinct and either executable or rejected once |
| Accounting.MutationAccounting | internal/assure/mutation.go:269-358 | the loops compute the specified dispositions and counters |
| Accounting.FiguresCount | internal/assure/mutation.go:331-356 | each figure of the run, and of the auditor's own recount, is the number of dispositions of its status |
| Accounting.Audit | internal/report/audit.go:246-349 | the audit accepts exactly when the equations, the dispositions and the recount hold |
| Accounting.SelectedCounted | internal/assure/mutation.go:269-283 | the selected set has as many members as there are dispositions in scope |
| Accounting.StatusOf | internal/assure/mutation.go:284-318 | each status exactly in its own case: out of scope, decided by the last finding as survived or inconclusive, else by the last conclusive evidence as killed, rejected or accepted, else unknown |
| Accounting.DispositionTells | internal/assure/mutation.go:284-330 | a disposition shows the summary or detail of what decided it, and a stored provenance before a resumed one |
| Accounting.AuditPassesIff | internal/report/audit.go:246-349 | the accounting of a valid catalog satisfies every equation and the recount, and passes its audit exactly when lines, provenances, findings and evidence of the input meet the stated conditions |
| TraceStream.MemorySink.Emit | internal/trace/sink.go:197-217 | append, then shift out what exceeds the room, counting it |
| TraceStream.Recorder.EmitLocked | internal/trace/trace.go:157-169 | number the event, count the attempt and a failure |
| TraceStream.Recorder.Finish | internal/trace/trace.go:125-149 | the end of the run is emitted once, with the losses so far |
| TraceStream.ReadSummary | internal/trace/reader.go:51-227 | the reader's loop is the summary of the stream, invalid events refused, with exact counts per type and times per phase and per preparation |
| TraceStream.SummaryIsExact | internal/trace/reader.go:51-121 | a stream is accepted exactly when its events are valid, numbered upwards and hold at most one end of run; then the missing numbers are all up to the last that no event bears, and the end is that of its end of run |
| TraceStream.RunKeeps | internal/trace/trace.go:125-169 | over any run the retained events stay consecutive and the losses stay counted, and the end is on record exactly when it came on an open sink |
| TraceStream.RunFills | internal/trace/sink.go:197-217 | an open ring drops only what it has no room for, one place being kept for the end of the run |
| TraceStream.RunEchoes | internal/trace/trace.go:157-169 | the retained events are what was emitted under their numbers |
| TraceStream.ReaderAgrees | internal/trace/reader.go:86-115 | for any run and any capacity the retained stream is consecutive and read exactly when its events are valid; the end of the run is there, and found, exactly when it came on an open sink, with the verdict and error of the first end, and then as many losses are counted as the run reports |
| Encoding.FieldsRoundTrip | internal/evidence/digest.go:91-98 | fields shorter than 2^32 can be read back from the bytes |
| Encoding.Hasher.WriteMap | internal/evidence/digest.go:79-89 | feeds the name and the pairs in key order |
| Encoding.Hasher.WriteList | internal/evidence/key.go:89-99 | feeds absence, or the count and the values |
| Encoding.TargetBehaviorKey | internal/evidence/key.go:64-87 | the key is the digest of the encoded fields |
| Encoding.NumberRoundTrip | internal/evidence/key.go:80-81 | decimal numbers can be read back |
| Encoding.InputsRoundTrip | internal/evidence/key.go:64-99 | the fields determine maps, sorted environment, nil or present lists and timeouts |
| Encoding.KeyDeterminesInputs | internal/evidence/key.go:64-99 | two inputs share a key exactly when they agree on everything but the order of their environments, whatever their files and modules are called |
| Encoding.DigestsAreTellable | internal/evidence/digest.go:159-171 | inputs whose files and modules have hexadecimal digests meet the condition |
| Encoding.SectionsCanBlur | internal/evidence/digest.go:79-89 | the sections carry no count: with a value that is a section's name, which no digest is, two different inputs share their encoding |

## Left out

- Checkpoint.Validate: the parts of a unit that no cross-unit rule inspects are opaque text, so the shape checks inside one unit (coverage blocks, probe lists, finding fields) and the duplicates of race packages, routing suites and probe lists are not modelled.
- Checkpoint.CanonicalValid: the ordering of those inner lists is left out with them.
- CrashRuns.CrashSafety: an append that is interrupted leaves a prefix of its line; a file system that reorders writes or returns corrupted blocks is not modelled, and encoding is assumed lossless on every state, not only on valid ones.
- Resume.RunCheckpoint.Open: race results, probe results and the completion of the mutation phase are saved by the same base write as `Persist` and add no case of their own.
- Leases.Manager.Acquire: an instance is started in one step under the lock; the subprocess, its protocol and the cancellation of a context are not modelled.
- AdmissionRuns.SomebodyCanStep: `close` and `preparationEnvironment` act outside admission; the generation counter is unbounded where the program's wraps at 2^64; seeding and refreshing are answers given to the protocol.
- Collector.Sweep.Collect: the listing of the directory is given, and no file has the zero time.
- Layers.TwoLayers.Put: a layer without a directory, the import from the native cache, and action files naming outputs in upper case are not modelled; a put with an empty action identifier, for which the program has no path, fails without effect.
- LayerRuns.PutIsWhatGetReturns: collections run between operations, never during one.
- Repair.Tree.ApplyCandidates: edits fall before an inspection, a second look or a rollback step, not between the second look and the write it allows; directories created on the way are not tracked; path normalisation is a parameter.
- Routing.RouteMutant: coverage lists are in path order, as the binary search of the program needs; copies between structurally equal types are identities.
- Coverage.MergeFileCoverage: parsing a profile and restricting coverage to packages.
- Groups.MutationTargetGroups: the batch key, a package with its behaviour environment, is a parameter; the results hold for every key.
- Groups.EvaluateGroups: timeouts, controls and retries of one group run are folded into its outcome.
- Evidence.MutationEvidence.Store: the encoding and the field checks of the stored file.
- Evaluation.EvaluateMutationSeed: the workers that evaluate mutants in parallel, the trace of a route and the wording of findings other than the recorded ones.
- EvidenceSoundness.ReuseAgreesWithFreshRun: a fresh package-suite run for an unrouted mutant is compared through the suite's own key, not through the targets.
- Accounting.MutationAccounting: the package and the rule of a mutant are carried along unread and are not modelled.
- TraceStream.ReadSummary: lines are decoded already; a line of an unknown type, without a timestamp or without exactly its payload is one malformed event, and what a payload holds beyond preparation records, route granularity and run counts is not modelled.
- TraceStream.ReaderAgrees: the sink that writes to a directory, where a lost event may leave a torn line, and the copying of payloads.
- Encoding.TargetBehaviorKey: the keys of package suites and of whole runs are built from the same fields.
- The saturation of group durations is modelled as a rule for ordering groups; the deadlines computed from durations are not.
- Git, terminals, command lines, report formats, subprocesses, retention and lock files are not modelled.
