/** A reconcile repeated in an unchanged cluster changes nothing but `lastReconciledAt`. */
module Fixpoint {
  import opened Basics
  import opened Rfc3339
  import opened Crd
  import opened Aggregator
  import opened Scheduler
  import opened Conditions
  import opened Cluster
  import opened Orchestrator
  import opened Reconcile
  import opened Runs
  import opened Records
  import opened Coverage

  /** Every succeeded Job in the list has its completion time. */
  predicate Timed(jobs: seq<Job>) {
    forall j | j in jobs && IsSucceeded(j) :: CompletionOf(j.status).Some?
  }

  lemma {:induction false} RecordsIgnoreClock(jobs: seq<Job>, spec: Spec, t: Instant, u: Instant)
    requires Timed(jobs) && forall j | j in jobs :: IsSucceeded(j)
    ensures ScannedImagesOf(jobs, spec, t) == ScannedImagesOf(jobs, spec, u)
  {
    if jobs != [] {
      assert jobs[0] in jobs;
      RecordsIgnoreClock(jobs[1..], spec, t, u);
    }
  }

  /** The outcome depends on the clock only through the Jobs of a completed scan that have no
      completion time. */
  lemma OutcomeIgnoresClock(jobs: seq<Job>, spec: Spec, t: Instant, u: Instant)
    requires Aggregate(jobs, spec, t).AllSucceeded? ==> Timed(jobs) || t == u
    ensures Aggregate(jobs, spec, t) == Aggregate(jobs, spec, u)
  {
    AggregateDecides(jobs, spec, t);
    if Aggregate(jobs, spec, t).AllSucceeded? && t != u {
      RecordsIgnoreClock(jobs, spec, t, u);
    }
  }

  // ---------------------------------------------------------------------------------------------
  // The mappers, applied to their own result.
  // ---------------------------------------------------------------------------------------------

  /** The same status, reconciled at `now`. */
  function At(status: Status, now: Instant): Status { status.(lastReconciledAt := Some(now)) }

  /** The two passes agree on everything but the clock and the next scheduled time, which the mappers
      pass through. */
  predicate Repeats(first: Status, second: Status, seen: Status, now: Instant) {
    second == At(first, now).(nextScheduledScanAt := seen.nextScheduledScanAt)
  }

  /** `seen` is what the first pass produced, up to the next scheduled time. */
  predicate Produced(first: Status, seen: Status) {
    seen == first.(nextScheduledScanAt := seen.nextScheduledScanAt)
  }

  lemma ConditionRepeats(before: Option<Status>, seen: Status, truth: Truth, reason: Reason, message: Message,
                         t: Instant, u: Instant)
    requires seen.conditions == [ReadyCondition(before, truth, reason, message, t)]
    ensures ReadyCondition(Some(seen), truth, reason, message, u) == ReadyCondition(before, truth, reason, message, t)
  {
  }

  lemma BaseRepeats(lib: Lib, spec: Spec, before: Option<Status>, seen: Status, t: Instant, u: Instant)
    requires Produced(DesiredStatus(lib, spec, t, before), seen)
    ensures Repeats(DesiredStatus(lib, spec, t, before), DesiredStatus(lib, spec, u, Some(seen)), seen, u)
  {
    var first := DesiredStatus(lib, spec, t, before);
    ConditionRepeats(before, seen, False, first.conditions[0].reason.value, first.conditions[0].message.value, t, u);
  }

  lemma OrchestrationRepeats(lib: Lib, spec: Spec, result: Orchestration, before: Option<Status>, seen: Status,
                             t: Instant, u: Instant)
    requires Produced(StatusWithOrchestration(DesiredStatus(lib, spec, t, before), before, result, t), seen)
    ensures Repeats(StatusWithOrchestration(DesiredStatus(lib, spec, t, before), before, result, t),
                    StatusWithOrchestration(DesiredStatus(lib, spec, u, Some(seen)), Some(seen), result, u), seen, u)
  {
    ConditionRepeats(before, seen, False, OrchestrationReason(result), OrchestrationMessage(result), t, u);
  }

  /** Both mappers up to the outcome. */
  function Mapped(lib: Lib, spec: Spec, result: Orchestration, outcome: Outcome, seen: Option<Status>,
                  now: Instant): Status {
    StatusWithOutcome(StatusWithOrchestration(DesiredStatus(lib, spec, now, seen), seen, result, now), seen, outcome,
        now)
  }

  lemma OutcomeRepeats(lib: Lib, spec: Spec, result: Orchestration, outcome: Outcome, before: Option<Status>,
                       seen: Status, t: Instant, u: Instant)
    requires Produced(Mapped(lib, spec, result, outcome, before, t), seen)
    ensures Repeats(Mapped(lib, spec, result, outcome, before, t), Mapped(lib, spec, result, outcome, Some(seen), u),
        seen, u)
  {
    match outcome
    case StillRunning =>
      OrchestrationRepeats(lib, spec, result, before, seen, t, u);
    case AnyFailed(image) =>
      ConditionRepeats(before, seen, False, ScanFailed, ScanFailedFor(image), t, u);
    case AllSucceeded(scanned) =>
      ConditionRepeats(before, seen, True, ScanCompleted, ScannedImages(|scanned|), t, u);
      LatestIdempotent(LastCompleted(before), scanned);
      MergeIdempotent(Images(before), scanned);
  }

  // ---------------------------------------------------------------------------------------------
  // The whole reconcile.
  // ---------------------------------------------------------------------------------------------

  /** A second scan over the store the first one left and with the same answers, whatever status it
      reads: it makes the same calls and lists the same Jobs. */
  lemma ScanAgain(c: Ctx, cr: CrView, before: Option<Status>, s: Server, seen: Option<Status>, t: Server)
    requires Still(s.script) && t.script == s.script && Scan(c, cr, before, s).status.Some?
    requires t.jobs == Scan(c, cr, before, s).server.jobs
    ensures var first, second := Scan(c, cr, before, s), Scan(c, cr, seen, t);
            && second.server == t.(script := first.server.script)
            && second.status.Some? && second.listed == first.listed
  {
    var base := DesiredStatus(c.lib, cr.spec, s.clock, before);
    if ReasonOf(base) != Some(InvalidSpec) && cr.uid.GetOr("") != "" {
      var (s1, result) := EnsureJobs(c, cr, s);
      EnsureStill(c, cr, s);
      if result.Spawned? {
        StillArrive(c, s1);
        assert Scan(c, cr, before, s).server.jobs == s1.jobs;
        EnsureJobsIdempotent(c, cr, s, t);
        StillArrive(c, EnsureJobs(c, cr, t).0);
      } else {
        EnsureJobsIdempotent(c, cr, s, t);
      }
    }
  }

  /** Nothing the scan records depends on the clock: it is not a completed one, all its Jobs have
      completion times, or the clock has not moved. */
  predicate Untouched(jobs: seq<Job>, status: Status, now: Instant, later: Instant) {
    ReasonOf(status) == Some(ScanCompleted) ==> Timed(jobs) || now == later
  }

  /** The second scan produces the same status. */
  lemma ScanRepeats(c: Ctx, cr: CrView, before: Option<Status>, s: Server, seen: Status, t: Server)
    requires Still(s.script) && t.script == s.script && Scan(c, cr, before, s).status.Some?
    requires t.jobs == Scan(c, cr, before, s).server.jobs
    requires Produced(Scan(c, cr, before, s).status.value, seen)
    requires Untouched(Listing(c, t.jobs), seen, s.clock, t.clock)
    ensures var first, second := Scan(c, cr, before, s), Scan(c, cr, Some(seen), t);
            second.status.Some? && Repeats(first.status.value, second.status.value, seen, t.clock)
  {
    var base := DesiredStatus(c.lib, cr.spec, s.clock, before);
    if ReasonOf(base) == Some(InvalidSpec) || cr.uid.GetOr("") == "" {
      BaseRepeats(c.lib, cr.spec, before, seen, s.clock, t.clock);
    } else {
      var (s1, result) := EnsureJobs(c, cr, s);
      EnsureStill(c, cr, s);
      if result.Spawned? {
        StillArrive(c, s1);
        assert Scan(c, cr, before, s).server.jobs == s1.jobs;
        EnsureJobsIdempotent(c, cr, s, t);
        var t1 := EnsureJobs(c, cr, t).0;
        StillArrive(c, t1);
        var outcome := Aggregate(Listing(c, t.jobs), cr.spec, s.clock);
        assert seen.conditions == Mapped(c.lib, cr.spec, result, outcome, before, s.clock).conditions;
        OutcomeIgnoresClock(Listing(c, t.jobs), cr.spec, s.clock, t.clock);
        OutcomeRepeats(c.lib, cr.spec, result, outcome, before, seen, s.clock, t.clock);
      } else {
        EnsureJobsIdempotent(c, cr, s, t);
        OrchestrationRepeats(c.lib, cr.spec, result, before, seen, s.clock, t.clock);
      }
    }
  }

  /** What a reconcile that does not fire leaves of its scan. */
  lemma QuietReconcile(c: Ctx, cr: CrView, seen: Option<Status>, s: Server)
    requires Still(s.script) && Scan(c, cr, seen, s).status.Some? && ReconcileOnce(c, cr, seen, s).fire.None?
    ensures var scan, r := Scan(c, cr, seen, s), ReconcileOnce(c, cr, seen, s);
            var failure := HeadCall(scan.server.script).failure;
            && r.server.jobs == scan.server.jobs && r.server.clock == s.clock
            && (r.patched.Some? <==> failure.None? || failure.value.tookEffect)
            && (r.requeue.Some? <==> failure.None?)
  {
    ScanStill(c, cr, seen, s);
    var scan := Scan(c, cr, seen, s);
    QuietStage(c, cr, scan.server, scan.status.value, s.clock);
    StillArrive(c, scan.server);
  }

  lemma QuietStage(c: Ctx, cr: CrView, s: Server, status: Status, now: Instant)
    requires FireStage(c, cr, s, status, now).fire.None?
    ensures FireStage(c, cr, s, status, now).server == s && FireStage(c, cr, s, status, now).status.Some?
  {
  }

  /** A reconcile of `s` that does not fire and patches, and a state `t` in which nothing but the clock
      has changed since and the API answers as before. */
  predicate Follows(c: Ctx, cr: CrView, s: Server, t: Server) {
    var r := ReconcileOnce(c, cr, s.status, s);
    && Still(s.script) && r.fire.None? && r.patched.Some?
    && t.jobs == r.server.jobs && t.status == r.server.status && t.script == s.script && s.clock <= t.clock
  }

  /** The same where the schedule is not due at `t` either. */
  predicate Unchanged(c: Ctx, cr: CrView, s: Server, t: Server) {
    Follows(c, cr, s, t) && ReconcileOnce(c, cr, t.status, t).fire.None?
  }

  /** What the first reconcile left, and the calls of the second's scan. */
  lemma FollowingScan(c: Ctx, cr: CrView, floor: Instant, s: Server, t: Server)
    requires Good(c, floor, s) && Follows(c, cr, s, t)
    ensures var first, second := Scan(c, cr, s.status, s), Scan(c, cr, t.status, t);
            && first.status.Some? && t.status.Some? && t.jobs == first.server.jobs && Good(c, floor, t)
            && t.status == ReconcileOnce(c, cr, s.status, s).patched
            && Planned(c, cr, first.status.value, s.clock, t.status.value)
            && second.status.Some? && second.server == t.(script := first.server.script)
  {
    PatchedIsPlanned(c, cr, s.status, s);
    QuietReconcile(c, cr, s.status, s);
    StoredStatus(c, cr, s.status, floor, s);
    PatchReplaces(c, cr, s);
    ScanAgain(c, cr, s.status, s, t.status, t);
    ReconcileKeepsGood(c, cr, s.status, floor, s);
  }

  /** What the first reconcile left, and the second's calls. */
  lemma SecondReconcile(c: Ctx, cr: CrView, floor: Instant, s: Server, t: Server)
    requires Good(c, floor, s) && Unchanged(c, cr, s, t)
    ensures Scan(c, cr, s.status, s).status.Some? && t.status.Some?
    ensures Planned(c, cr, Scan(c, cr, s.status, s).status.value, s.clock, t.status.value)
    ensures t.jobs == Scan(c, cr, s.status, s).server.jobs && Good(c, floor, t)
    ensures var first, again := ReconcileOnce(c, cr, s.status, s), ReconcileOnce(c, cr, t.status, t);
            && again.patched.Some? && again.server.jobs == t.jobs
            && (again.requeue.Some? <==> first.requeue.Some?)
  {
    FollowingScan(c, cr, floor, s, t);
    QuietReconcile(c, cr, s.status, s);
    QuietReconcile(c, cr, t.status, t);
  }

  /** What the second reconcile stores is the status its scan produced, planned ahead. */
  lemma SecondStatus(c: Ctx, cr: CrView, floor: Instant, s: Server, t: Server)
    requires Good(c, floor, s) && Unchanged(c, cr, s, t)
    ensures Scan(c, cr, t.status, t).status.Some? && ReconcileOnce(c, cr, t.status, t).server.status.Some?
    ensures Planned(c, cr, Scan(c, cr, t.status, t).status.value, t.clock,
                    ReconcileOnce(c, cr, t.status, t).server.status.value)
  {
    SecondReconcile(c, cr, floor, s, t);
    StoredStatus(c, cr, t.status, floor, t);
    PatchReplaces(c, cr, t);
    PatchedIsPlanned(c, cr, t.status, t);
  }

  /** The condition under which repeating the reconcile changes nothing: the records do not depend on
      the clock, and neither does the next scheduled time, as it does for a CR with neither a completed
      scan nor a creation timestamp to count from. */
  predicate Steady(c: Ctx, cr: CrView, status: Status, jobs: seq<Job>, now: Instant, later: Instant) {
    && Untouched(jobs, status, now, later)
    && (IsTerminalReason(ReasonOf(status)) ==>
          NextScheduled(c, cr, status, now) == NextScheduled(c, cr, status, later))
  }

  /** Pods, Jobs, specification and API answers unchanged, no fire in either pass: the second
      reconcile leaves the Jobs as they are, and patches the same status with a later
      `lastReconciledAt` exactly when the first left the CR steady. */
  lemma ReconcileIsFixpoint(c: Ctx, cr: CrView, floor: Instant, s: Server, t: Server)
    requires Good(c, floor, s) && Unchanged(c, cr, s, t)
    ensures var again := ReconcileOnce(c, cr, t.status, t);
            && again.server.jobs == t.jobs && t.status.Some?
            && (again.server.status == Some(At(t.status.value, t.clock)) <==>
                  Steady(c, cr, t.status.value, Listing(c, t.jobs), s.clock, t.clock))
  {
    SecondReconcile(c, cr, floor, s, t);
    if Untouched(Listing(c, t.jobs), t.status.value, s.clock, t.clock) {
      TimedFixpoint(c, cr, floor, s, t);
    } else {
      RestampedRecords(c, cr, floor, s, t);
    }
  }

  lemma TimedFixpoint(c: Ctx, cr: CrView, floor: Instant, s: Server, t: Server)
    requires Good(c, floor, s) && Unchanged(c, cr, s, t) && t.status.Some?
    requires Untouched(Listing(c, t.jobs), t.status.value, s.clock, t.clock)
    ensures ReconcileOnce(c, cr, t.status, t).server.status == Some(At(t.status.value, t.clock)) <==>
              (IsTerminalReason(ReasonOf(t.status.value)) ==>
                 NextScheduled(c, cr, t.status.value, s.clock) == NextScheduled(c, cr, t.status.value, t.clock))
  {
    SecondReconcile(c, cr, floor, s, t);
    SecondStatus(c, cr, floor, s, t);
    var first, seen := Scan(c, cr, s.status, s).status.value, t.status.value;
    ScanRepeats(c, cr, s.status, s, seen, t);
    var second := Scan(c, cr, Some(seen), t).status.value;
    PlansAgain(c, cr, first, seen, second, ReconcileOnce(c, cr, t.status, t).server.status.value, s.clock, t.clock);
    if IsTerminalReason(ReasonOf(first)) { TerminalMeansParsed(c, cr, s.status, s); }
  }

  lemma PlansAgain(c: Ctx, cr: CrView, first: Status, seen: Status, second: Status, stored: Status, now: Instant,
                   later: Instant)
    requires Planned(c, cr, first, now, seen) && Repeats(first, second, seen, later)
    requires Planned(c, cr, second, later, stored)
    requires IsTerminalReason(ReasonOf(first)) ==> ParseSchedule(c.lib, cr.spec.schedule).Ok?
    ensures stored == At(seen, later) <==>
              (IsTerminalReason(ReasonOf(seen)) ==>
                  NextScheduled(c, cr, seen, now) == NextScheduled(c, cr, seen, later))
  {
    assert ReasonOf(second) == ReasonOf(first) == ReasonOf(seen);
    assert NextScheduled(c, cr, seen, now) == NextScheduled(c, cr, first, now);
    assert NextScheduled(c, cr, seen, later) == NextScheduled(c, cr, second, later);
  }

  /** Both scans complete, over the same Jobs. */
  lemma BothComplete(c: Ctx, cr: CrView, floor: Instant, s: Server, t: Server)
    requires Good(c, floor, s) && Unchanged(c, cr, s, t) && t.status.Some?
    requires ReasonOf(t.status.value) == Some(ScanCompleted)
    ensures var first, second, jobs := Scan(c, cr, s.status, s), Scan(c, cr, t.status, t), Listing(c, t.jobs);
            && first.status.Some? && ReasonOf(first.status.value) == Some(ScanCompleted)
            && second.status.Some? && ReasonOf(second.status.value) == Some(ScanCompleted)
            && first.listed == Some(jobs) && second.listed == Some(jobs)
            && first.server.clock == s.clock && second.server.clock == t.clock
  {
    SecondReconcile(c, cr, floor, s, t);
    ScanStill(c, cr, s.status, s);
    ScanStill(c, cr, t.status, t);
    ScanAgain(c, cr, s.status, s, t.status, t);
    CompletedScan(c, cr, s.status, s);
    CompletedMeansAllSucceeded(c, cr, s.status, s);
    CompletedMeansAllSucceeded(c, cr, t.status, t);
  }

  /** Otherwise a Job without a completion time is recorded anew, at the later clock. */
  lemma RestampedRecords(c: Ctx, cr: CrView, floor: Instant, s: Server, t: Server)
    requires Good(c, floor, s) && Unchanged(c, cr, s, t) && t.status.Some?
    requires !Untouched(Listing(c, t.jobs), t.status.value, s.clock, t.clock)
    ensures ReconcileOnce(c, cr, t.status, t).server.status != Some(At(t.status.value, t.clock))
  {
    SecondReconcile(c, cr, floor, s, t);
    SecondStatus(c, cr, floor, s, t);
    BothComplete(c, cr, floor, s, t);
    var jobs, images := Listing(c, t.jobs), t.status.value.scannedImages;
    var j :| j in jobs && IsSucceeded(j) && CompletionOf(j.status).None?;
    CompletedScanHoldsRecord(c, cr, s.status, floor, s, j);
    CompletedScanHoldsRecord(c, cr, t.status, floor, t, j);
    CompletedScanSorts(c, cr, s.status, floor, s, j);
    assert RecordIn(j, cr.spec, s.clock, images);
    RestampedDiffers(j, cr.spec, images, s.clock, t.clock);
  }

  lemma CompletedScanSorts(c: Ctx, cr: CrView, seen: Option<Status>, floor: Instant, s: Server, job: Job)
    requires Good(c, floor, s) && Scan(c, cr, seen, s).status.Some?
    requires ReasonOf(Scan(c, cr, seen, s).status.value) == Some(ScanCompleted)
    requires Scan(c, cr, seen, s).listed.Some? && job in Scan(c, cr, seen, s).listed.value
    ensures SortedByRef(Scan(c, cr, seen, s).status.value.scannedImages)
  {
    var scan := Scan(c, cr, seen, s);
    CompletedScan(c, cr, seen, s);
    ScanKeepsGood(c, cr, seen, floor, s);
    RecordMerges(c, cr.spec, floor, scan.server, Images(seen), job);
    MergeExactly(Images(seen), ScannedImagesOf(scan.listed.value, cr.spec, scan.server.clock));
  }

  lemma RestampedDiffers(job: Job, spec: Spec, images: seq<ScannedImage>, now: Instant, later: Instant)
    requires SortedByRef(images) && CompletionOf(job.status).None? && now != later
    requires RecordIn(job, spec, now, images)
    ensures !RecordIn(job, spec, later, images)
  {
    if RecordIn(job, spec, later, images) {
      var a, b := ScannedImageOf(job, spec, now).value, ScannedImageOf(job, spec, later).value;
      var i :| 0 <= i < |images| && images[i] == a;
      var k :| 0 <= k < |images| && images[k] == b;
      LessIrreflexive(a.imageRef);
    }
  }
}
