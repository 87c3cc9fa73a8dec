# A Dafny model of the mikebom operator

The operator reconciles `NamespaceScan` resources: it finds the container images of the pods in the
target namespaces, starts one scan Job per distinct image, folds the Jobs' counters into the status,
and starts over when the schedule is due. This project models that control loop, the Job builder it
relies on, and the leader election around it, and proves what they guarantee over whole runs.

`dafny verify dfyconfig.toml` checks the project.

## How it is organised

| file | about |
|---|---|
| `Basics.dfy`, `Rfc3339.dfy` | string order, ordered sets, trimming; timestamps as strings and as instants |
| `Crd.dfy` | the resource, pods and Jobs as data |
| `JobName.dfy`, `ScanJob.dfy` | Job names and hashes; the Job builder and the reader of a built Job |
| `Aggregator.dfy`, `Conditions.dfy`, `Scheduler.dfy` | outcomes and scan records; the three status mappers; schedules |
| `Cluster.dfy` | the API server with a script of answers and cluster moves; the store invariant |
| `Orchestrator.dfy`, `Reconcile.dfy`, `Runs.dfy` | `ensure_jobs`; one reconcile, stage by stage; runs of the control loop |
| `Decisions.dfy` | what one reconcile says, fires and asks for, case by case |
| `Deletes.dfy`, `Spacing.dfy`, `Records.dfy`, `Coverage.dfy`, `Cycle.dfy`, `Rescan.dfy`, `Fixpoint.dfy`, `Requeue.dfy` | the properties of steps and runs |
| `Scenarios.dfy` | runs at concrete inputs, which show where those properties end |
| `Operator.dfy` | the operator's loops over a mutable API server, proved equal to the functions above |
| `Lease.dfy` | leader election |

An API call is served after any number of cluster moves (time, Job progress, removal, deletion marks,
Jobs of other tenants), and may fail with or without having taken effect. All of that is written in a
script, one entry per call, and the theorems quantify over every script. A run is a sequence of cluster
moves and reconciles, each reconcile with its own view of the specification, its own script and,
where stated, a stale status.

## Assumptions

- The short hash separates the images in play only where a statement says so; `OwnedNamesDetermineHashes`
  and `ReadyCoversScope` say what holds without it.
- No other party creates Jobs that carry the CR's label or the names it claims. Two CRs whose names
  sanitise to one prefix would break this (`PrefixesMayClash`), and so would two CRs of one name in two
  namespaces: the resource is namespaced, but labels and Job names carry its name only.
- Job counters only grow, and a completion time is written once, to the whole second, on success.
- One global clock that does not go back.
- SHA-256, the cron parser and the duration parser are arbitrary functions: 32 bytes; an iterator that
  yields the least tick strictly after its argument; a duration or nothing.
- The fields a status carries came from the operator, so its timestamps parse; instants are integers,
  justified by `StringOrderIsTimeOrder`.
- `RunKeepsRecord` and the statements about transition times assume that each reconcile reads the status
  last stored. Fire spacing and delete safety do not, and `StaleRunKeepsBounded` and `PassKeepsExactly`
  say what is left of the record when a stale one is read.
- The fallback completion time of a Job without one is the clock of the listing, read once.
- Jobs are listed in name order. The order matters only for which failed image is named
  (`KindIgnoresOrder`).
- 409 to a create and 404 to a delete are answered from the store and not at random.

## Where the code and its documents differ

The model follows the code.

- `specs/007-reconciler-spawns-job/contracts/reconciler-orchestrator.md:65` promises that an RBAC denial
  leaves no Job. A create denied after an accepted one leaves the accepted Job (`DenialMayLeaveJobs`).
  Nothing is left exactly when the names before the denial, and the denied one if its create took effect
  all the same, were taken (`AddsNothingIff`).
- The same contract (line 58) has `ensure_jobs` return an error on other API failures; the code reports
  every such failure as RbacInsufficient (`ServerErrorReadsAsDenial`).
- Success criterion SC-001 of feature 009 (schedule honoring) budgets 30 s of firing precision. The
  heartbeat allows 240 s, and 30 s is met exactly under the condition of `ThirtySecondsExactly`.
- Requirement FR-007 of feature 002 (reconciler skeleton) is at most one active replica. The code gives
  that under the timing and atomicity conditions of `MutualExclusion`, and two runs show both are needed
  (`LateRenewalBothLead`, `InterleavedAttemptsBothLead`). The exact condition, over runs and read off the
  Lease, is that of `ExclusionExactly`.
- Requirement FR-006 of feature 008 (Job status feedback) is an entry for every succeeded Job. The code
  records a scan's Jobs only when all of them have succeeded (`UnrecordedExample`); the exact condition is
  that of `SucceededAreRecordedIff`.
- Requirement FR-008 of feature 009 is one catch-up fire after an outage. Deletion is in the foreground: a
  marked Job stays listed until its pods are gone, so a reconcile in that window can find the schedule
  still due and fire over the same Jobs again (`RefireExample`, `UnmovedAnchorFiresAgain`). Spacing is
  therefore about fires whose scan listed a Job not yet being deleted.
- Fires of failed scans are not spaced at all (`FailedExample`), and completion times in whole seconds take
  up to a second off the gap (`GapExample`).
- A repeated reconcile is not idempotent when a completed scan rests on a Job without a completion time, or
  when there is nothing to count the schedule from; `ReconcileIsFixpoint` says exactly when it is.

## Model

The rows marked as main are the results the project is for; the others are their parts, and what the
bodies of the operator's functions are measured against.

| member | source | states |
|---|---|---|
| Spacing.FireSpacing | crates/operator/src/reconcile/namespace_scan.rs:163-195 | **Main.** In every run, with any interleaving of the cluster, failing calls and stale caches: once a fire has completed, a later fire of a completed scan that listed a Job not being deleted is not earlier than the next time its own schedule and jitter name, counted from the whole second of the first fire. |
| Spacing.OneCatchUp | crates/operator/src/reconcile/namespace_scan.rs:230-255 | **Main.** The reconcile that finds the schedule due fires once, at its own clock, and every later fire of a completed scan that listed a live Job is spaced from it: the windows missed are not fired again. |
| Spacing.FiresFitWindow | crates/operator/src/reconcile/scheduler.rs:99-117 | **Main.** `n` completed fires of completed scans that listed live Jobs, under one interval and jitter, span at least `n - 1` times interval plus jitter, in whole seconds. |
| Spacing.UnmovedAnchorFiresAgain | crates/operator/src/reconcile/namespace_scan.rs:230-255 | The converse of spacing: after a fire, a completed scan that reads the anchor of that fire and lists no later completion fires again. |
| Spacing.CompletedScanFiresExactly | crates/operator/src/reconcile/namespace_scan.rs:230-255 | A completed scan fires if and only if the time named by the schedule has come, counted from the later of the anchor it read and the completions it listed. |
| Spacing.NewDeletionSawLive | crates/operator/src/reconcile/scheduler.rs:148-174 | A fire of a completed scan that marks a Job not yet being deleted is one whose scan listed a live Job, so it is spaced. |
| Spacing.GuaranteedGap | crates/operator/src/status.rs:252-264 | For an interval the guaranteed gap is interval plus jitter exactly when the first fire is on a whole second, and short of it by less than one second otherwise. |
| Scenarios.GapIsAttained | crates/operator/src/status.rs:252-264 | Runs in which the gap is exactly the guaranteed one: the new Job completes in the whole second of the first fire, and the next fire comes when interval and jitter have passed since that second. |
| Scenarios.GapIsAlwaysAttained | crates/operator/src/status.rs:252-264 | From every state of the one-image cluster in which the first fire is due there is such a run, so the guaranteed gap cannot be improved for any interval and jitter. |
| Scenarios.GapExample | crates/operator/src/status.rs:252-264 | One such run in figures: interval 60 s, jitter 17 s, two fires 76.5 s apart. |
| Scenarios.RefireOverDeletingJob | crates/operator/src/reconcile/scheduler.rs:142-174 | Runs in which two completed scans fire at any distance over one succeeded Job, which is still being deleted at the second fire. |
| Scenarios.RefireExample | crates/operator/src/reconcile/scheduler.rs:142-174 | One such run in figures: two fires 5 s apart under an interval of 60 s. |
| Scenarios.FailedScansFireClose | crates/operator/src/status.rs:209-214 | Runs in which two failed scans fire at any distance, each over a Job that was not being deleted. |
| Scenarios.FailedExample | crates/operator/src/status.rs:209-214 | One such run in figures: two fires 5 s apart under an interval of 60 s. |
| Spacing.FailedScansFireEveryTime | crates/operator/src/status.rs:209-214 | While scans end in ScanFailed the anchor stands still, so once the schedule is due every reconcile fires: spacing does not hold for failed scans. |
| Spacing.AnchorDominatesLiveJobs | crates/operator/src/status.rs:252-264 | A scan that completes with a live owned Job listed leaves `lastScanCompletedAt` at or above the floor of the store (the second of the last completed fire), whatever status it read. |
| Runs.TerminalStatusPlansAhead | crates/operator/src/reconcile/namespace_scan.rs:161-166 | Every status patched in a terminal scan state names a `nextScheduledScanAt`, later than the anchor it is counted from. |
| Decisions.FiresWhenDue | crates/operator/src/reconcile/namespace_scan.rs:156-195 | **Main.** A reconcile fires if and only if its scan ended in ScanCompleted or ScanFailed and the next scan is due: the next tick of the schedule after the last completion, else the creation of the CR, else now, and the jitter of its uid. |
| Decisions.DueExactly | crates/operator/src/reconcile/namespace_scan.rs:230-255 | There is exactly one such due time, and it is the one the operator computes. |
| Decisions.PlansNextScan | crates/operator/src/reconcile/namespace_scan.rs:161-166 | The status patched is that of the scan, and names that due time when the scan has ended; otherwise the next scan read from the old status stands. |
| Decisions.PatchDecides | crates/operator/src/reconcile/namespace_scan.rs:206-221 | Without a fire, the status is stored unless the patch fails without effect, and a next run is asked for if and only if the patch is answered. |
| Decisions.AsksAgain | crates/operator/src/reconcile/namespace_scan.rs:206-279 | A reconcile asks to run again in 5 s after a fire, one second past a scan due within a minute, and otherwise in 5 minutes; one cut short by a refused Job listing or delete patches nothing and asks for nothing. |
| Runs.RunKeepsGood | crates/operator/src/scan_job/mod.rs:125-206 | **Main.** In every reachable state each Job with the CR label is named, labelled and parameterised by one and the same trimmed image, foreign Jobs stay off the claimed names, and every completion of a live owned Job is at or above the floor. |
| Runs.OwnedNamesDetermineHashes | crates/operator/src/scan_job/mod.rs:213-237 | In every reachable state two owned Jobs have one name if and only if the short hashes of their IMAGE_REF values agree, and each name is the one computed from the image. |
| Cluster.EventKeepsGood | crates/operator/src/reconcile/status_aggregator.rs:43-55 | No move of the cluster (time, progress, TTL removal, deletion marks, other tenants' Jobs) breaks the store invariant. |
| Cluster.ListingMembers | crates/operator/src/reconcile/status_aggregator.rs:204-209 | The listing holds exactly the stored Jobs that carry the CR label. |
| Cluster.DeleteEffectIsExact | crates/operator/src/reconcile/scheduler.rs:148-174 | A delete changes the store it meets by marking the one Job it is recorded for and by nothing else; an accepted delete has such an effect, a 404 has none, and any other failure may have. |
| Runs.RunDeletesSafely | crates/operator/src/reconcile/scheduler.rs:131-174 | **Main.** In every run, with any interleaving of listings, deletes, progress and removals, and whether or not the replies arrive: every Job the operator deletes had a pod that succeeded or three that failed at that moment, and no fire deletes a Job twice. |
| Deletes.CleanupDeletesOnlyTerminal | crates/operator/src/reconcile/scheduler.rs:148-174 | From a stale snapshot, in every interleaving of deletes, progress, TTL removal and other deletions, and also when the reply of a delete is lost: each Job the server deletes is terminal at that moment and was terminal in the snapshot. |
| Deletes.FireDeletesOnlyTerminal | crates/operator/src/reconcile/namespace_scan.rs:180-190 | The same, lost replies included, for the snapshot a fire takes itself, in every reachable store. |
| Deletes.FireDeletesByCounts | crates/operator/src/reconcile/scheduler.rs:131-174 | Each of those Jobs had a pod that succeeded or three that failed. |
| Deletes.CleanupLogWasLive | crates/operator/src/reconcile/scheduler.rs:148-174 | Each Job newly marked by the loop, its reply lost or not, had been stored, owned and live since the loop began. |
| Deletes.FireLogsDistinctNames | crates/operator/src/reconcile/scheduler.rs:148-174 | In every interleaving, the deletes of one fire that take effect are of distinct Jobs. |
| Deletes.FireMarksExactly | crates/operator/src/reconcile/scheduler.rs:131-174 | An undisturbed fire marks exactly the owned Jobs of which a pod succeeded or three failed, touches nothing else, and its count is their number. |
| Deletes.CleanupEndsExactly | crates/operator/src/reconcile/scheduler.rs:148-174 | In every interleaving the delete loop runs to its end if and only if none of its deletes, one an ended Job of the snapshot, fails with other than 404. |
| Deletes.FireCompletesExactly | crates/operator/src/reconcile/namespace_scan.rs:180-194 | So a fire completes, and its status is patched, if and only if neither its listing nor one of those deletes is refused. |
| Deletes.CompletedFireRaisesFloor | crates/operator/src/reconcile/namespace_scan.rs:180-194 | After a fire that completed, in every interleaving, each owned Job left live completed, if at all, in the second of the fire or later. |
| Deletes.CleanupRemovesOld | crates/operator/src/reconcile/scheduler.rs:148-174 | After a cleanup that ran to its end, a live Job that completed before the mark was not terminal in the snapshot. |
| Coverage.ReadyCoversScope | crates/operator/src/reconcile/status_aggregator.rs:142-195 | **Main.** With Jobs progressing freely, a reconcile that ends in ScanCompleted has a `scannedImages` entry, up to a clash of short hashes, for every image that a pod in the answer for any target namespace runs and whose own Job was not removed between its create and the Job listing; unless that Job was already being deleted, the entry is fresh: completed in the second of the last completed fire or later. |
| Coverage.CoveredExactly | crates/operator/src/reconcile/status_aggregator.rs:142-195 | Whatever is removed meanwhile: after a completed scan an image has an entry if and only if it had one before or a Job of that image was still listed. |
| Coverage.InScopeIsListed | crates/operator/src/reconcile/scan_orchestrator.rs:289-364 | After Spawned, the Job under an in-scope image's name is in the listing and belongs to an image of the same short hash, provided that this Job is not removed between its own create and the listing. |
| Coverage.ClashingImageGetsNoJob | crates/operator/src/reconcile/scan_orchestrator.rs:303-352 | Of two images with one short hash only the first gets a Job, which is why coverage is stated up to the hash. |
| Coverage.SucceededAreRecordedIff | crates/operator/src/reconcile/status_aggregator.rs:142-168 | **Main.** Every succeeded Job listed has its record after the scan if and only if all Jobs listed succeeded and none was finally failed, or each succeeded one had it before; both for the current record and for any record of the image. |
| Coverage.CompletedScanHoldsRecord | crates/operator/src/reconcile/status_aggregator.rs:121-135 | A completed scan holds the current record of each Job it listed. |
| Coverage.RecordedLocations | crates/operator/src/reconcile/status_aggregator.rs:81-115 | Each record of a completed scan names the place for the short hash of its own image, and no two records name the same place. |
| Scenarios.SucceededJobGoesUnrecorded | crates/operator/src/reconcile/status_aggregator.rs:156-168 | An undisturbed reconcile leaves a succeeded Job without a record while another owned Job has not succeeded. |
| Scenarios.UnrecordedExample | crates/operator/src/reconcile/status_aggregator.rs:156-168 | There is such a cluster: two owned Jobs, one succeeded and one just started, and the succeeded one has no record after the reconcile. |
| Rescan.RescanAfterFire | crates/operator/src/reconcile/namespace_scan.rs:180-194 | **Main.** A reconcile fires, in either terminal state, and its fire completes in a still cluster; the deleted Jobs go and the others progress; then, after a reconcile whose calls succeed, the owned names are those of the images in its scope and of the Jobs in progress at the fire, and every other in-scope image has a fresh Job. |
| Rescan.ReconcileRegenerates | crates/operator/src/reconcile/scan_orchestrator.rs:289-364 | After an undisturbed reconcile the owned names are the previous ones and those of the images in scope, and every image in scope without a Job has a fresh one. |
| Rescan.SurvivorsWereInProgress | crates/operator/src/reconcile/scheduler.rs:148-174 | In every interleaving, a Job live after a completed fire was live and not terminal when the fire listed it. |
| Rescan.SurvivorsExactly | crates/operator/src/reconcile/scheduler.rs:148-174 | In a still cluster, the Jobs live after a completed fire are exactly those in progress at it. |
| Cycle.ScanCycle | crates/operator/src/reconcile/namespace_scan.rs:68-147 | **Main.** A whole scan: after an undisturbed reconcile and the success of all its Jobs, the next reconcile with the same pods ends in `Ready=True` and has a record for every image in scope, up to a clash of short hashes. |
| Cycle.UndisturbedReconcile | crates/operator/src/reconcile/namespace_scan.rs:68-221 | The whole effect of an undisturbed reconcile: the missing Jobs of its scope started, exactly the terminal owned Jobs marked if it fires, the status patched, a requeue asked for, and nothing else. |
| Cycle.SucceededScopeCompletes | crates/operator/src/reconcile/namespace_scan.rs:125-147 | With every image's Job stored and every owned Job succeeded, a reconcile starts nothing and completes the scan, whatever status it read. |
| Cycle.ScanStartsScope | crates/operator/src/reconcile/scan_orchestrator.rs:289-364 | Undisturbed, a reconcile of a valid specification starts exactly the missing Jobs of its scope and aggregates what is then stored. |
| Records.RunKeepsRecord | crates/operator/src/status.rs:246-272 | **Main.** In every run whose reconciles read the status last stored: `scannedImages` strictly sorted with one entry per image, no image ever lost, `lastScanCompletedAt` never decreasing, at least every `completedAt`, unset exactly while there is no entry, and exactly one condition, Ready. |
| Records.StaleRunKeepsBounded | crates/operator/src/status.rs:246-272 | In every run whose reconciles read any status stored so far: strictly sorted with one entry per image, none later than `lastScanCompletedAt`, and exactly one condition. |
| Records.PassKeepsExactly | crates/operator/src/status.rs:246-272 | Whatever status a reconcile reads, the images recorded after its patch are exactly those it read and those it scanned. |
| Scenarios.StaleReadLosesRecords | crates/operator/src/reconcile/namespace_scan.rs:206-210 | A reconcile that reads a status from before the first scan loses every record and leaves `lastScanCompletedAt` set. |
| Scenarios.StaleExample | crates/operator/src/reconcile/namespace_scan.rs:206-210 | There is such a store: its one record is gone after one reconcile with a stale read. |
| Records.MergeKeepsRecord | crates/operator/src/reconcile/status_aggregator.rs:121-135 | Merging a non-empty batch keeps the record invariant and loses no image. |
| Records.TransitionTimeIsFaithful | crates/operator/src/status.rs:224-241 | **Main.** After any run from an unset status whose reconciles read the status last stored, `lastTransitionTime` is the start of the first reconcile in the maximal suffix of patches with the current (status, reason). |
| Records.RunKeepsFaithful | crates/operator/src/status.rs:224-241 | The same from any state whose condition is faithful to an earlier history. |
| Records.SuffixStartIsMaximal | crates/operator/src/status.rs:67-84 | The start used above is that of the maximal suffix: everything in it shares the last (status, reason) and the entry before it does not. |
| Records.ScanLeaves | crates/operator/src/reconcile/namespace_scan.rs:79-147 | Although up to three mappers overwrite the condition, one Ready condition is left whose transition time follows the rule for the final (status, reason), and the records are the previous ones or a merge. |
| Reconcile.CompletedScan | crates/operator/src/status.rs:246-272 | A completed scan listed succeeded Jobs only and records exactly these, and the anchor is the maximum of the old one and their completions. |
| Records.OtherScansRecordNothing | crates/operator/src/status.rs:209-218 | A scan that does not complete leaves records and anchor alone, even when some of its Jobs succeeded. |
| Records.StoredStatus | crates/operator/src/reconcile/namespace_scan.rs:206-210 | Only the final patch touches the stored status. |
| Records.PatchReplaces | crates/operator/src/reconcile/namespace_scan.rs:206-210 | For the status it was computed from, the merge patch amounts to a replacement. |
| Fixpoint.ReconcileIsFixpoint | crates/operator/src/reconcile/namespace_scan.rs:68-221 | **Main.** With pods, Jobs, specification and API answers unchanged and no fire, a second reconcile leaves the Jobs as they are, and changes only `lastReconciledAt` if and only if no completed scan rests on a Job without a completion time (or the clock stands) and the next scheduled time does not depend on the clock. |
| Fixpoint.ScanRepeats | crates/operator/src/reconcile/namespace_scan.rs:79-147 | Under the first of these conditions the scan stages give the same status up to the clock. |
| Fixpoint.ScanAgain | crates/operator/src/reconcile/namespace_scan.rs:79-147 | In any case the second scan makes the same calls, leaves the same store and lists the same Jobs. |
| Fixpoint.RestampedRecords | crates/operator/src/reconcile/status_aggregator.rs:181-187 | Otherwise a Job without a completion time is recorded anew at the later clock. |
| Fixpoint.OutcomeRepeats | crates/operator/src/status.rs:187-273 | The three mappers applied to their own result, with the same outcome at a later clock, give the same status. |
| Fixpoint.OutcomeIgnoresClock | crates/operator/src/reconcile/status_aggregator.rs:142-195 | The outcome depends on the clock only through Jobs of a completed scan without a completion time. |
| Requeue.RequeuesFireOnTime | crates/operator/src/reconcile/namespace_scan.rs:68-221 | **Main.** From a reconcile that waits for a due time, with a settled status, in a cluster nothing else changes: the checks the operator asks for keep waiting for that time until one reaches it, that one fires for it, and it is the first check of the walk, at most 240 s late. |
| Requeue.NextCheckFiresWhenDue | crates/operator/src/reconcile/namespace_scan.rs:149-205 | After a reconcile that waits, the next one of the unchanged cluster, whenever it comes, fires if and only if the due time has come and the status is settled: the schedule counts from a recorded instant, and a completed scan rests on Jobs with completion times only. Before that, a settled one waits for the same time. |
| Requeue.UnsettledNeverFires | crates/operator/src/reconcile/namespace_scan.rs:230-255 | A scan that ends unsettled never fires, whatever the script and the status read: the time its schedule counts from is its own clock. |
| Requeue.WalkFiresOnTime | crates/operator/src/reconcile/namespace_scan.rs:215-221 | Whatever happens between them: reconciles that follow their own requeues, all but the last waiting for one due time and the last firing for it, fire at the first check of the walk, at most 240 s late. |
| Requeue.FirstCheckExactly | crates/operator/src/reconcile/namespace_scan.rs:261-279 | Following only its own requeues, the loop reaches the due time, and its lateness is a function of the time remaining modulo the heartbeat. |
| Requeue.LatenessBound | crates/operator/src/reconcile/namespace_scan.rs:261-279 | The first check at or after the due time is at most 240 s late. |
| Requeue.LatenessBoundAttained | crates/operator/src/reconcile/namespace_scan.rs:261-279 | A check exactly one minute early is 240 s late. |
| Requeue.ThirtySecondsExactly | crates/operator/src/reconcile/namespace_scan.rs:257-279 | The documented 30 s precision is met if and only if the remaining time modulo the heartbeat is under 60 s or at least 270 s. |
| Reconcile.ReconcileKeepsGood | crates/operator/src/reconcile/namespace_scan.rs:68-221 | A whole reconcile, with any script of answers and cluster moves, keeps the store invariant. |
| Reconcile.CompletedMeansAllSucceeded | crates/operator/src/reconcile/namespace_scan.rs:125-147 | `Ready=True` is written if and only if at least one Job was listed and all listed Jobs succeeded with none finally failed; ScanFailed if and only if one was finally failed. |
| Decisions.ScanDecides | crates/operator/src/reconcile/namespace_scan.rs:79-147 | **Main.** The decision table, in every interleaving: reason, message and `Ready` from the specification, the answers and the Job counters. InvalidSpec for an empty target or an unparsed schedule, before any call; RbacInsufficient for the first listing refused with other than 404 or create refused with other than 409; NoImagesInScope when every namespace was listed or missing and no image is in scope; BuildFailed for images and a specification that cannot be built; ScanFailed for the first listed Job with three failed pods; ScanCompleted, alone with `Ready=True`, when Jobs were listed and each has a pod that succeeded and fewer than three that failed; otherwise Scanning. |
| Orchestrator.EnsureJobsExactly | crates/operator/src/reconcile/scan_orchestrator.rs:248-365 | **Main.** Under every pattern of API answers in a still cluster: the Jobs added are the absent names of a prefix of the sorted set of images that the pods of every answering namespace run, and the length of the prefix is read off the answers; a refused listing adds none; NoImages exactly when the set is empty; Spawned counts the distinct images and means the whole set was handled. |
| Orchestrator.EnsureJobsDecides | crates/operator/src/reconcile/scan_orchestrator.rs:248-365 | **Main.** In every interleaving the result is decided by the answers and the specification: the first refused listing, no image in scope, a specification that cannot be built, the first refused create, or Spawned with the number of images. |
| Orchestrator.ListTargetsExactly | crates/operator/src/reconcile/scan_orchestrator.rs:253-284 | In every interleaving: the listing returns the pods in the answers for all target namespaces; it ends in a denial if and only if some answer is a failure other than 404, and reports the first such answer. |
| Orchestrator.AnsweredExactly | crates/operator/src/reconcile/scan_orchestrator.rs:99-122 | An image is in scope if and only if a pod in the answer for one of the namespaces runs it. |
| Orchestrator.ContributesExactly | crates/operator/src/reconcile/scan_orchestrator.rs:89-122 | A pod runs an image, for this purpose, if and only if it is running, pending or of no phase, and an init, main or ephemeral container names the image up to blanks around it. |
| Orchestrator.CreateAllStops | crates/operator/src/reconcile/scan_orchestrator.rs:303-352 | In every interleaving, where the create loop stops and what it returns is decided by the answers alone: at the end, at the first image that cannot be built, or at the first refused create. |
| Orchestrator.CreateAllAdds | crates/operator/src/reconcile/scan_orchestrator.rs:303-352 | In a still cluster it adds a Job for each free name among the images before the stop, and for the refused one exactly when its create took effect. |
| Orchestrator.AddsNothingIff | crates/operator/src/reconcile/scan_orchestrator.rs:303-352 | **Main.** A create loop, denied or not, leaves the store alone if and only if the names of those images were taken. |
| Orchestrator.DenialMayLeaveJobs | crates/operator/src/reconcile/scan_orchestrator.rs:334-351 | A concrete run in which RbacInsufficient is returned and one Job has been created. |
| Orchestrator.ServerErrorReadsAsDenial | crates/operator/src/reconcile/scan_orchestrator.rs:209-227 | A first create answered with any code but 403 and 409, such as 500, makes `ensure_jobs` return RbacInsufficient. |
| Orchestrator.WithJobsExactly | crates/operator/src/reconcile/scan_orchestrator.rs:303-352 | Existing Jobs are untouched, the names present are the old ones and those of the images, and every new Job is the stamped Job of an image of its name. |
| Orchestrator.EnsureJobsIdempotent | crates/operator/src/reconcile/scan_orchestrator.rs:248-365 | **Main.** A repeated call on the store it left, with the same answers, returns the same result and adds nothing. |
| Orchestrator.BuildFailedIsAllOrNothing | crates/operator/src/reconcile/scan_orchestrator.rs:303-318 | **Main.** In every interleaving, BuildFailed is returned exactly when there are images in scope and the specification cannot be built; it names the least image and the reason, and no create was attempted. |
| Orchestrator.CollectImages | crates/operator/src/reconcile/scan_orchestrator.rs:99-116 | The nested loops collect exactly the images that the pods in scope contribute. |
| Orchestrator.PushAll | crates/operator/src/reconcile/scan_orchestrator.rs:118-122 | One container list adds exactly its trimmed, non-blank images. |
| Orchestrator.CollectedImagesAreClean | crates/operator/src/reconcile/scan_orchestrator.rs:118-122 | No collected image is blank and each is its own trim. |
| Orchestrator.EnsureJobsKeepsGood | crates/operator/src/reconcile/scan_orchestrator.rs:248-365 | In every interleaving, orchestration keeps the store invariant and does not touch the status. |
| ScanJob.BuiltJobRoundTrip | crates/operator/src/scan_job/mod.rs:125-206 | **Main.** Name, hash label and IMAGE_REF of a built Job speak of the trimmed image, the reader returns it, and the hash is recoverable from the name. |
| ScanJob.BuiltPodRuns | crates/operator/src/scan_job/mod.rs:150-206 | **Main.** A built pod pulls, scans from the trimmed image the specification names, and uploads; the image under scan is handed to the pull and run by no container; credentials and backend volumes reach the upload alone, and only for the backend that needs them. |
| Orchestrator.StampedJobIsControlled | crates/operator/src/reconcile/scan_orchestrator.rs:124-133 | The submitted Job is the built one with exactly one owner reference, a controller reference to the name and uid of the CR. |
| ScanJob.BuildErrorsExactly | crates/operator/src/scan_job/mod.rs:121-148 | Which error a build ends in: the scanner image first, then the image, then the block of the chosen backend. |
| ScanJob.BuildIsAllOrNothing | crates/operator/src/scan_job/mod.rs:121-148 | For one specification the builder succeeds on every non-blank image or fails on all of them with the same error. |
| ScanJob.MountsAreDeclared | crates/operator/src/scan_job/mod.rs:150-176 | In all three backends every mounted volume is declared by the pod, although two separate dispatches decide them. |
| JobName.SanitizeDns1123 | crates/operator/src/scan_job/mod.rs:240-260 | **Main.** The sanitiser loop returns the maximal alphanumeric runs, lowercased and joined by single hyphens. |
| JobName.SanitizeIdempotent | crates/operator/src/scan_job/mod.rs:240-260 | Sanitising twice is sanitising once. |
| JobName.SanitizeCollapses | crates/operator/src/scan_job/mod.rs:240-260 | Two strings sanitise alike if and only if their words agree. |
| JobName.JobNameIsLabel | crates/operator/src/scan_job/mod.rs:223-237 | **Main.** Every job name, on any CR name and any 7-digit hash, is a label of at most 63 characters, also after truncation. |
| JobName.ShortHashShape | crates/operator/src/scan_job/mod.rs:213-217 | The short hash is seven lower-case hexadecimal digits. |
| JobName.ShortHashIsDigest | crates/operator/src/scan_job/mod.rs:213-217 | The short hash is the number made of the first 28 bits of the digest, in hexadecimal. |
| JobName.HashesCoincide | crates/operator/src/scan_job/mod.rs:213-217 | Two images share a short hash if and only if their digests agree in those bits. |
| Orchestrator.ImagesShareAName | crates/operator/src/scan_job/mod.rs:213-237 | Two images get one Job name if and only if the digests of the trimmed references agree in those bits. |
| JobName.JobNameExactly | crates/operator/src/scan_job/mod.rs:223-237 | A sanitised CR name of up to 48 characters is kept whole; of a longer one the first 48 are kept, without a hyphen at the cut. |
| JobName.HashRecoverable | crates/operator/src/scan_job/mod.rs:223-237 | The last seven characters of a job name are its hash. |
| JobName.NamesCoincide | crates/operator/src/scan_job/mod.rs:223-237 | **Main.** Two job names are equal if and only if hashes and sanitised CR prefixes are. |
| JobName.PrefixesMayClash | crates/operator/src/scan_job/mod.rs:223-260 | Two distinct CR names can share a prefix. |
| Rfc3339.StringOrderIsTimeOrder | crates/operator/src/status.rs:252-264 | **Main.** Comparing rendered timestamps as strings compares the instants, for every mix of 0, 3, 6 and 9 fraction digits in years 0 to 9999. |
| Rfc3339.RenderedReadsBack | crates/operator/src/status.rs:67-84 | Every field of a rendered timestamp reads back, in its place, as the field of the instant. |
| Rfc3339.EarlierIsLess | crates/operator/src/status.rs:252-264 | Calendar order is the order of instants. |
| Rfc3339.FractionsOrdered | crates/operator/src/reconcile/status_aggregator.rs:181-187 | Second-precision times and fractional ones compare correctly: `+` sorts before the point and before every digit. |
| Conditions.LatestCompletion | crates/operator/src/status.rs:252-264 | The loop over timestamps as strings returns a greatest one, of the accumulator and all completions, whatever the strings are. |
| Conditions.LatestTextIsLatest | crates/operator/src/status.rs:252-264 | For rendered timestamps that is the rendering of the latest instant. |
| Conditions.LatestIsLatest | crates/operator/src/status.rs:252-264 | That fold is the maximum of the accumulator and all completion times. |
| Conditions.LatestIdempotent | crates/operator/src/status.rs:252-264 | Folding the same completions again does not move it. |
| Aggregator.AggregateDecides | crates/operator/src/reconcile/status_aggregator.rs:142-168 | Failure dominates and names the first finally failed Job, the empty list never completes, completion means every Job succeeded: both directions. |
| Aggregator.FinallyFailedExactly | crates/operator/src/reconcile/status_aggregator.rs:47-55 | A Job is finally failed if and only if one pod more has failed than its limit allows, seven where no limit is given. |
| Aggregator.EndsByCounts | crates/operator/src/reconcile/status_aggregator.rs:43-55 | A Job this operator built is succeeded, finally failed or terminal if and only if a pod succeeded, three pods failed, or either. |
| Aggregator.SbomLocationExactly | crates/operator/src/reconcile/status_aggregator.rs:81-115 | The place of an SBOM in each backend, with and without a prefix, in full. |
| Aggregator.LocationsDiffer | crates/operator/src/reconcile/status_aggregator.rs:81-115 | With its block present, a backend keeps the SBOMs of different hashes apart. |
| Aggregator.KindIgnoresOrder | crates/operator/src/reconcile/status_aggregator.rs:142-168 | **Main.** Permuting the Job list changes neither the kind of outcome nor the set of records. |
| Aggregator.FirstFailedIsFirst | crates/operator/src/reconcile/status_aggregator.rs:149-154 | The image named is that of the first finally failed Job. |
| Aggregator.ScannedMembership | crates/operator/src/reconcile/status_aggregator.rs:156-163 | The records are exactly those of the listed Jobs. |
| Aggregator.MergeScannedImagesAppendOnly | crates/operator/src/reconcile/status_aggregator.rs:121-135 | The two insertion loops compute the merge. |
| Aggregator.MergeExactly | crates/operator/src/reconcile/status_aggregator.rs:121-135 | **Main.** The merge is strictly sorted, has exactly the images of both lists, and keeps the last record written for each. |
| Aggregator.MergeAssociates | crates/operator/src/reconcile/status_aggregator.rs:121-135 | Merging in two steps is merging the concatenation. |
| Aggregator.MergeIdempotent | crates/operator/src/reconcile/status_aggregator.rs:121-135 | Merging the same records again changes nothing. |
| Aggregator.MergeIsUnion | crates/operator/src/reconcile/status_aggregator.rs:121-135 | The merge is the right-biased union of the two keyed records. |
| Aggregator.MergeKeepsNew | crates/operator/src/reconcile/status_aggregator.rs:121-135 | A new record that is the only new one about its image is in the merged list. |
| Scheduler.CronGetsSevenFields | crates/operator/src/reconcile/scheduler.rs:67-80 | A cron expression is accepted if and only if it has five fields and the parser accepts it with the seconds and the year added; the schedule is then what the parser yields for those seven fields. |
| Scheduler.IntervalFromAMinute | crates/operator/src/reconcile/scheduler.rs:63-95 | Exactly one of cron and interval must be given, and an interval is accepted from 60 s on; each rejection has its own error. |
| Scheduler.FieldCountJoins | crates/operator/src/reconcile/scheduler.rs:74-79 | Fields on the two sides of a whitespace character are counted separately. |
| Scheduler.NextIsLeastTick | crates/operator/src/reconcile/scheduler.rs:99-111 | **Main.** An instant plus jitter is the next scheduled time if and only if it is the least tick of the cron schedule strictly after the anchor, or the anchor and one interval: no tick is skipped. |
| Scheduler.NextIsMonotone | crates/operator/src/reconcile/scheduler.rs:99-111 | The next time is after the anchor, and a later anchor never brings it forward. |
| Scheduler.JitterSeconds | crates/operator/src/reconcile/scheduler.rs:121-126 | The jitter is a whole number of seconds below 60. |
| Scheduler.JitterIsResidue | crates/operator/src/reconcile/scheduler.rs:121-126 | The jitter is what the first two bytes of the digest of the uid leave modulo 60. |
| Basics.TrimExactly | crates/operator/src/reconcile/scan_orchestrator.rs:118-122 | Trimming drops all the whitespace at the two ends and nothing else. |
| Lease.MutualExclusion | crates/operator/src/leader.rs:102-203 | **Main.** From any lease, with nobody leading: if leaders renew or exit before 16 s and no write falls between an attempt's read and its write, then in every reachable state at most one replica leads, the Lease names it, `renewTime` is its last renewal and the duration is 15; and a lease that is absent or has duration 15 at first always has it. |
| Lease.StepKeepsInv | crates/operator/src/leader.rs:102-203 | The inductive step over begin, read, write, the two halves of a renewal, exit, start and time. |
| Lease.WriterIsAlone | crates/operator/src/leader.rs:137-149 | A write that goes through under those conditions meets no other leader. |
| Lease.ExclusionExactly | crates/operator/src/leader.rs:102-203 | **Main.** From an exclusive state, leadership stays exclusive throughout a run, timely or not, if and only if each lease write that goes through finds that the holder the Lease names, if another replica, has stopped leading. |
| Lease.InterleavedAttemptsBothLead | crates/operator/src/leader.rs:102-171 | Two attempts whose reads both precede both writes end with two leaders. |
| Lease.LateRenewalBothLead | crates/operator/src/leader.rs:175-192 | A leader that renews after its lease was taken leads beside its successor and takes the Lease back. |
| Lease.Failover | crates/operator/src/leader.rs:84-98 | **Main.** In every run that goes on long enough, with the leaders gone, the lease last renewed at r, and one waiter among any number alive and retrying every 3 s, some replica leads before r + 19 s, inside the required 30 s. |
| Lease.MayTakeExactly | crates/operator/src/leader.rs:133-141 | When the truncating test lets a replica take a lease of any duration; for 15 s that is an age of 16 s. |
| Lease.LeaseServer.TryAcquire | crates/operator/src/leader.rs:102-171 | One attempt that is not lost in transit succeeds if and only if the lease is absent, ours or expired, writes all four fields then, and nothing otherwise. |
| Lease.LeaseServer.Acquire | crates/operator/src/leader.rs:84-98 | From any lease and after any number of failing attempts, the retry loop ends holding the lease: at its first attempt to get through if it may take it then, and otherwise within 3 s of its expiry. |
| Operator.ListTargets | crates/operator/src/reconcile/scan_orchestrator.rs:253-284 | The pod-listing loop computes the specification function. |
| Operator.EnsureJobs | crates/operator/src/reconcile/scan_orchestrator.rs:248-365 | **Main.** `ensure_jobs` as written computes the specification function and leaves its store. |
| Operator.CreateAll | crates/operator/src/reconcile/scan_orchestrator.rs:289-364 | The create loop computes the specification function. |
| Operator.CleanupTerminalJobs | crates/operator/src/reconcile/scheduler.rs:148-174 | **Main.** The delete loop leaves the specified store, and when it runs to its end the count it returns is the number of Jobs it deleted. |
| Operator.Aggregate | crates/operator/src/reconcile/namespace_scan.rs:130-142 | The aggregation step lists once and overlays the outcome. |
| Operator.Scan | crates/operator/src/reconcile/namespace_scan.rs:79-147 | The gates around orchestration and aggregation. |
| Operator.HonourSchedule | crates/operator/src/reconcile/namespace_scan.rs:156-195 | The schedule stage: what is planned, whether it fires, what the store is then. |
| Operator.ReconcileOnce | crates/operator/src/reconcile/namespace_scan.rs:68-221 | The whole reconcile leaves the specified store and returns the specified requeue. |

## Left out

- Spacing.FireSpacing: bounds fires after a completed one; a cleanup cut short by an API error does not raise the floor and the next reconcile tries again.
- Conditions.LatestTextIsLatest: years 0 to 9999 only, where the rendering has four-digit years; beyond them the rendered year carries a sign, which is not modelled.
- Coverage.ReadyCoversScope: speaks of images whose own Job is not removed between its create and the listing; `CoveredExactly` covers the others.
- Requeue.RequeuesFireOnTime: assumes no latency between the time a requeue asks for and the reconcile; `NextCheckFiresWhenDue` holds with any.
- Lease.LeaseServer.Acquire: API calls take no time, and a failing one has not taken effect; in the protocol calls take any time.
- Lease.Failover: the attempts of the one waiter it relies on take no time; those of the others do.
- Records.TransitionTimeIsFaithful: assumes reads of the status last stored; a stale read carries on the transition time of the status read (`ScanLeaves`).
- The digests, cron arithmetic and duration syntax of the libraries, and chrono's overflow for very long durations.
- Container commands, arguments, images other than the scanner's, and most environment variables; volumes are modelled by name, and `scanFormat` not at all.
- The texts of status messages beyond the facts they carry.
- That `sbomLocation` is the file the uploader writes: the two are computed from different inputs.
- `target.labelSelector` and `target.kinds` beyond validity, as the code reads only the namespaces; `resolvedSha`, which is always unset.
- Label-value limits: a CR name longer than 63 characters makes creates fail, which is one of the scripted answers.
- The error policy's delays, the watch on Jobs, the controller runtime, logging, CRD generation, the command-line tool, the chart.
