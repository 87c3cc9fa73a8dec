/** What one reconcile says, fires and asks for, case by case, read off the specification, the answers of
    the API and the Jobs' counters. */
module Decisions {
  import opened Basics
  import opened Rfc3339
  import opened Crd
  import opened ScanJob
  import opened Aggregator
  import opened Scheduler
  import opened Conditions
  import opened Cluster
  import opened Orchestrator
  import opened Reconcile
  import opened Runs
  import opened Coverage

  // ---------------------------------------------------------------------------------------------
  // The status a scan ends in.
  // ---------------------------------------------------------------------------------------------

  /** There is a namespace or a label selector that is not blank, and the schedule parses. */
  predicate Valid(c: Ctx, spec: Spec) {
    && (spec.target.namespaces != []
        || (spec.target.labelSelector.Some? && Trim(spec.target.labelSelector.value) != []))
    && ParseSchedule(c.lib, spec.schedule).Ok?
  }

  /** What is wrong with an invalid specification: the target is looked at first. */
  function WhyInvalid(c: Ctx, spec: Spec): Message
    requires !Valid(c, spec)
  {
    if spec.target.namespaces == []
       && (spec.target.labelSelector.None? || Trim(spec.target.labelSelector.value) == []) then TargetInvalid
    else ScheduleInvalid(ParseSchedule(c.lib, spec.schedule).error)
  }

  /** The scan ends, and its one condition says this. */
  predicate Says(scan: ScanPass, truth: Truth, reason: Reason, message: Message) {
    && scan.status.Some? && |scan.status.value.conditions| == 1
    && var condition := scan.status.value.conditions[0];
       && condition.kind == Ready && condition.status == truth
       && condition.reason == Some(reason) && condition.message == Some(message)
  }

  /** No API call is made. */
  predicate Silent(scan: ScanPass, s: Server) { scan.server == s && scan.listed == None && scan.orchestration == None }

  /** A refused listing or create, as it is reported. */
  ghost predicate SaysDenied(scan: ScanPass, denial: Orchestration) {
    && denial.RbacDenied? && scan.listed == None
    && Says(scan, False, RbacInsufficient, LacksRbac(denial.verbResource, denial.namespace, denial.message))
  }

  /** The status of a scan that listed `jobs`, of `n` images in scope. */
  ghost predicate SaysOf(scan: ScanPass, jobs: seq<Job>, n: nat) {
    if exists i | 0 <= i < |jobs| :: ThreePodsFailed(jobs[i]) then
      exists i | 0 <= i < |jobs| ::
        && ThreePodsFailed(jobs[i]) && (forall k | 0 <= k < i :: !ThreePodsFailed(jobs[k]))
        && ImageRefOf(jobs[i]).Some? && Says(scan, False, ScanFailed, ScanFailedFor(ImageRefOf(jobs[i]).value))
    else if jobs != [] && forall i | 0 <= i < |jobs| :: PodSucceeded(jobs[i]) then
      Says(scan, True, ScanCompleted, ScannedImages(|jobs|))
    else Says(scan, False, Scanning, ScanningImages(n))
  }

  /** The decision table.  The cases are taken in order and the reasons differ, so each reason is stored
      exactly in its case. */
  ghost predicate Decision(c: Ctx, cr: CrView, s: Server, scan: ScanPass) {
    var namespaces, images := cr.spec.target.namespaces, SortedKeys(Scope(cr, s));
    var creates := DropCalls(s.script, |namespaces|);
    if !Valid(c, cr.spec) then Silent(scan, s) && Says(scan, False, InvalidSpec, WhyInvalid(c, cr.spec))
    else if cr.uid == None || cr.uid == Some("") then
      Silent(scan, s) && Says(scan, False, NotYetReconciled, NotImplementedYet)
    else if ListingRefused(s.script, |namespaces|) then
      exists denial, i: nat :: DeniesFirst(s.script, namespaces, denial, i) && SaysDenied(scan, denial)
    else if images == [] then scan.listed == None && Says(scan, False, NoImagesInScope, ZeroPods)
    else if !Buildable(cr.spec) then
      scan.listed == None && Says(scan, False, BuildFailed, CannotBuild(images[0], WhyUnbuildable(cr.spec)))
    else if CreateRefused(creates, |images|) then
      exists denial, i: nat :: DeniesCreate(c, creates, |images|, denial, i) && SaysDenied(scan, denial)
    else if CallAt(creates, |images|).failure.Some? then scan.status == None && scan.listed == None
    else scan.listed == Some(Listing(c, scan.server.jobs)) && SaysOf(scan, scan.listed.value, |images|)
  }

  /** In every interleaving, whatever status was read: the reason, the message and whether `Ready` holds. */
  lemma ScanDecides(c: Ctx, cr: CrView, seen: Option<Status>, floor: Instant, s: Server)
    requires Good(c, floor, s)
    ensures Decision(c, cr, s, Scan(c, cr, seen, s))
  {
    GateDecides(c, cr, seen, s);
    if Valid(c, cr.spec) && cr.uid.GetOr("") != "" {
      EnsureJobsDecides(c, cr, s);
      var result := EnsureJobs(c, cr, s).1;
      ResultIsSaid(c, cr, seen, s);
      if result.Spawned? {
        SpawnedDecides(c, cr, seen, floor, s);
      } else if result.RbacDenied? {
        DenialIsSaid(c, cr, s, Scan(c, cr, seen, s), result);
      }
    }
  }

  lemma GateDecides(c: Ctx, cr: CrView, seen: Option<Status>, s: Server)
    ensures var scan := Scan(c, cr, seen, s);
            && (!Valid(c, cr.spec) ==> Silent(scan, s) && Says(scan, False, InvalidSpec, WhyInvalid(c, cr.spec)))
            && (Valid(c, cr.spec) && cr.uid.GetOr("") == "" ==>
                  Silent(scan, s) && Says(scan, False, NotYetReconciled, NotImplementedYet))
  {
  }

  /** What is said of a result other than `Spawned`. */
  lemma ResultIsSaid(c: Ctx, cr: CrView, seen: Option<Status>, s: Server)
    requires Valid(c, cr.spec) && cr.uid.GetOr("") != ""
    ensures var scan := Scan(c, cr, seen, s);
            match EnsureJobs(c, cr, s).1
            case Spawned(_) => true
            case NoImages => scan.listed == None && Says(scan, False, NoImagesInScope, ZeroPods)
            case CannotBuildJob(image, error) =>
              scan.listed == None && Says(scan, False, BuildFailed, CannotBuild(image, error))
            case RbacDenied(_, _, _) => SaysDenied(scan, EnsureJobs(c, cr, s).1)
  {
  }

  lemma DenialIsSaid(c: Ctx, cr: CrView, s: Server, scan: ScanPass, result: Orchestration)
    requires Decides(c, cr, s, result) && SaysDenied(scan, result)
    requires Valid(c, cr.spec) && cr.uid.GetOr("") != ""
    ensures Decision(c, cr, s, scan)
  {
    var namespaces, images := cr.spec.target.namespaces, SortedKeys(Scope(cr, s));
    if ListingRefused(s.script, |namespaces|) {
      var i: nat :| DeniesFirst(s.script, namespaces, result, i);
    } else {
      var creates := DropCalls(s.script, |namespaces|);
      var i: nat :| DeniesCreate(c, creates, |images|, result, i);
    }
  }

  /** After `Spawned` the Jobs are listed, and the scan says what they have come to. */
  lemma SpawnedDecides(c: Ctx, cr: CrView, seen: Option<Status>, floor: Instant, s: Server)
    requires Good(c, floor, s) && Valid(c, cr.spec) && cr.uid.GetOr("") != "" && EnsureJobs(c, cr, s).1.Spawned?
    ensures Decision(c, cr, s, Scan(c, cr, seen, s))
  {
    var n, images := |cr.spec.target.namespaces|, SortedKeys(Scope(cr, s));
    EnsureJobsDecides(c, cr, s);
    CreatesInScope(c, cr, s);
    var s1 := ListTargets(c, s, cr.spec.target.namespaces, []).0;
    SpawnedCalls(c, cr, s1, images, |images|);
    ScanKeepsGood(c, cr, seen, floor, s);
    SpawnedSays(c, cr, seen, s);
    var scan := Scan(c, cr, seen, s);
    if scan.listed.Some? { CountsAreSaid(c, cr.spec, floor, scan, |images|); }
  }

  /** The scan after `Spawned`, in terms of the outcome. */
  lemma SpawnedSays(c: Ctx, cr: CrView, seen: Option<Status>, s: Server)
    requires Valid(c, cr.spec) && cr.uid.GetOr("") != "" && EnsureJobs(c, cr, s).1.Spawned?
    ensures var scan, s2 := Scan(c, cr, seen, s), EnsureJobs(c, cr, s).0;
            if HeadCall(s2.script).failure.Some? then scan.status == None && scan.listed == None
            else
              && scan.listed == Some(Listing(c, scan.server.jobs))
              && SaysOutcome(scan, Aggregate(Listing(c, scan.server.jobs), cr.spec, scan.server.clock),
                             EnsureJobs(c, cr, s).1.distinctImages)
  {
  }

  predicate SaysOutcome(scan: ScanPass, outcome: Outcome, n: nat) {
    match outcome
    case StillRunning => Says(scan, False, Scanning, ScanningImages(n))
    case AnyFailed(image) => Says(scan, False, ScanFailed, ScanFailedFor(image))
    case AllSucceeded(scanned) => Says(scan, True, ScanCompleted, ScannedImages(|scanned|))
  }

  lemma CountsAreSaid(c: Ctx, spec: Spec, floor: Instant, scan: ScanPass, n: nat)
    requires Good(c, floor, scan.server)
    requires SaysOutcome(scan, Aggregate(Listing(c, scan.server.jobs), spec, scan.server.clock), n)
    ensures SaysOf(scan, Listing(c, scan.server.jobs), n)
  {
    var jobs := Listing(c, scan.server.jobs);
    ListedByCounts(c, floor, scan.server);
    AggregateDecides(jobs, spec, scan.server.clock);
    OutcomeByCounts(scan, jobs, spec, scan.server.clock, n);
  }

  lemma ListedByCounts(c: Ctx, floor: Instant, s: Server)
    requires Good(c, floor, s)
    ensures forall i | 0 <= i < |Listing(c, s.jobs)| :: ByCounts(Listing(c, s.jobs)[i])
  {
    var jobs := Listing(c, s.jobs);
    ListingMembers(c, s.jobs);
    forall i | 0 <= i < |jobs| ensures ByCounts(jobs[i]) {
      assert jobs[i] in jobs;
      var n :| n in s.jobs && Owned(c.crName, s.jobs[n]) && s.jobs[n] == jobs[i];
      assert GoodJob(c, floor, n, jobs[i]);
      EndsByCounts(c.lib.digest, c.crName, n, jobs[i]);
    }
  }

  /** A Job with an image and a hash, whose end shows in its counters. */
  predicate ByCounts(job: Job) {
    && ImageRefOf(job).Some? && HashLabelOf(job).Some?
    && (IsSucceeded(job) <==> PodSucceeded(job)) && (IsFinallyFailed(job) <==> ThreePodsFailed(job))
  }

  lemma OutcomeByCounts(scan: ScanPass, jobs: seq<Job>, spec: Spec, clock: Instant, n: nat)
    requires forall i | 0 <= i < |jobs| :: ByCounts(jobs[i])
    requires SaysOutcome(scan, Aggregate(jobs, spec, clock), n)
    ensures SaysOf(scan, jobs, n)
  {
    AggregateDecides(jobs, spec, clock);
    assert forall j | j in jobs :: ByCounts(j);
    match Aggregate(jobs, spec, clock)
    case StillRunning =>
      assert forall i | 0 <= i < |jobs| :: jobs[i] in jobs;
    case AnyFailed(image) =>
      var i :| 0 <= i < |jobs| && IsFinallyFailed(jobs[i]) && (forall k | 0 <= k < i :: !IsFinallyFailed(jobs[k]))
               && image == ImageRefOf(jobs[i]).GetOr("<unknown>");
      assert ByCounts(jobs[i]) && ThreePodsFailed(jobs[i]);
    case AllSucceeded(scanned) =>
      assert forall i | 0 <= i < |jobs| :: jobs[i] in jobs && IsSucceeded(jobs[i]) && !IsFinallyFailed(jobs[i]);
      OneRecordEach(jobs, spec, clock);
  }

  lemma {:induction false} OneRecordEach(jobs: seq<Job>, spec: Spec, clock: Instant)
    requires forall i | 0 <= i < |jobs| :: ByCounts(jobs[i]) && PodSucceeded(jobs[i])
    ensures |ScannedImagesOf(jobs, spec, clock)| == |jobs|
  {
    if jobs != [] {
      assert ByCounts(jobs[0]);
      assert forall i | 0 <= i < |jobs[1..]| :: jobs[1..][i] == jobs[i + 1];
      OneRecordEach(jobs[1..], spec, clock);
    }
  }

  // ---------------------------------------------------------------------------------------------
  // When it fires, what it plans and when it asks to run again.
  // ---------------------------------------------------------------------------------------------

  predicate Ended(status: Status) {
    ReasonOf(status) == Some(ScanCompleted) || ReasonOf(status) == Some(ScanFailed)
  }

  /** The instant the schedule counts from: the last completion, else the creation of the CR, else now. */
  function CountsFrom(cr: CrView, status: Status, now: Instant): Instant {
    match status.lastScanCompletedAt
    case Some(t) => t
    case None => if cr.creation.Some? then cr.creation.value else now
  }

  /** The next scan of this CR is due at `due`: the next tick of its schedule and its jitter, between 0 and
      59 s, which depends on its uid alone. */
  ghost predicate DueAt(c: Ctx, cr: CrView, status: Status, now: Instant, due: Instant) {
    && ParseSchedule(c.lib, cr.spec.schedule).Ok?
    && exists n, jitter: nat ::
         && IsNextTick(ParseSchedule(c.lib, cr.spec.schedule).value, CountsFrom(cr, status, now), n)
         && IsJitter(c, cr, jitter) && due == n + jitter * 1_000_000_000
  }

  ghost predicate IsJitter(c: Ctx, cr: CrView, jitter: nat) {
    var d := c.lib.digest(cr.uid.GetOr(""));
    jitter < 60 && exists k: nat :: d[0] * 256 + d[1] == 60 * k + jitter
  }

  lemma JitterIsUnique(c: Ctx, cr: CrView, jitter: nat)
    ensures IsJitter(c, cr, jitter) <==> jitter * SECOND == Jitter(c, cr)
  {
    var d := c.lib.digest(cr.uid.GetOr(""));
    JitterIsResidue(c.lib.digest, cr.uid.GetOr(""));
    var j := JitterSeconds(c.lib.digest, cr.uid.GetOr(""));
    if IsJitter(c, cr, jitter) {
      var k: nat :| d[0] * 256 + d[1] == 60 * k + jitter;
      ResidueIsUnique(k, jitter, d[0] * 256 + d[1]);
    }
    if jitter * SECOND == j * SECOND { assert jitter == j; }
  }

  lemma ResidueIsUnique(k: nat, r: nat, n: int)
    requires n == 60 * k + r && r < 60
    ensures n % 60 == r
  {
  }

  /** There is exactly one such instant, and it is the one the operator computes. */
  lemma DueExactly(c: Ctx, cr: CrView, status: Status, now: Instant, due: Instant)
    requires ParseSchedule(c.lib, cr.spec.schedule).Ok?
    ensures DueAt(c, cr, status, now, due) <==> NextScheduled(c, cr, status, now) == Some(due)
  {
    var schedule, anchor := ParseSchedule(c.lib, cr.spec.schedule).value, CountsFrom(cr, status, now);
    var j: nat := JitterSeconds(c.lib.digest, cr.uid.GetOr(""));
    JitterIsUnique(c, cr, j);
    NextIsLeastTick(schedule, anchor, Jitter(c, cr), due - Jitter(c, cr));
    if DueAt(c, cr, status, now, due) {
      var n, jitter: nat :| IsNextTick(schedule, anchor, n) && IsJitter(c, cr, jitter)
                            && due == n + jitter * 1_000_000_000;
      JitterIsUnique(c, cr, jitter);
    }
  }

  /** A reconcile fires exactly when its scan ended, completed or failed, and its next scan is due. */
  lemma FiresWhenDue(c: Ctx, cr: CrView, seen: Option<Status>, s: Server)
    ensures var status := Scan(c, cr, seen, s).status;
            ReconcileOnce(c, cr, seen, s).fire.Some? <==>
              status.Some? && Ended(status.value)
              && exists due :: DueAt(c, cr, status.value, s.clock, due) && s.clock >= due
  {
    FiresExactlyWhenDue(c, cr, seen, s);
    var status := Scan(c, cr, seen, s).status;
    if status.Some? && Ended(status.value) {
      TerminalMeansParsed(c, cr, seen, s);
      DueIsNext(c, cr, status.value, s.clock);
    }
  }

  lemma DueIsNext(c: Ctx, cr: CrView, status: Status, now: Instant)
    requires ParseSchedule(c.lib, cr.spec.schedule).Ok?
    ensures (exists due :: DueAt(c, cr, status, now, due) && now >= due) <==>
              now >= NextScheduled(c, cr, status, now).value
  {
    DueExactly(c, cr, status, now, NextScheduled(c, cr, status, now).value);
    if due :| DueAt(c, cr, status, now, due) && now >= due {
      DueExactly(c, cr, status, now, due);
    }
  }

  /** The status patched is that of the scan, and names the instant at which the next scan is due when the
      scan has ended; otherwise the one read stands. */
  lemma PlansNextScan(c: Ctx, cr: CrView, seen: Option<Status>, s: Server)
    requires ReconcileOnce(c, cr, seen, s).patched.Some?
    ensures var status, p := Scan(c, cr, seen, s).status, ReconcileOnce(c, cr, seen, s).patched.value;
            && status.Some? && p == status.value.(nextScheduledScanAt := p.nextScheduledScanAt)
            && if Ended(status.value)
               then p.nextScheduledScanAt.Some? && DueAt(c, cr, status.value, s.clock, p.nextScheduledScanAt.value)
               else p.nextScheduledScanAt == NextAt(seen)
  {
    PatchedIsPlanned(c, cr, seen, s);
    var status := Scan(c, cr, seen, s).status.value;
    if Ended(status) {
      TerminalMeansParsed(c, cr, seen, s);
      DueExactly(c, cr, status, s.clock, NextScheduled(c, cr, status, s.clock).value);
    } else {
      ScanKeepsNext(c, cr, seen, s);
    }
  }

  lemma ScanKeepsNext(c: Ctx, cr: CrView, seen: Option<Status>, s: Server)
    requires Scan(c, cr, seen, s).status.Some?
    ensures Scan(c, cr, seen, s).status.value.nextScheduledScanAt == NextAt(seen)
  {
  }

  /** The last call of a reconcile that was not cut short: the patch takes effect or not as the API has it,
      and a reconcile that patched without an error asks to run again. */
  lemma PatchDecides(c: Ctx, cr: CrView, seen: Option<Status>, s: Server)
    requires Scan(c, cr, seen, s).status.Some?
    ensures var scan, r := Scan(c, cr, seen, s), ReconcileOnce(c, cr, seen, s);
            r.fire.None? ==>
              var failure := CallAt(scan.server.script, 0).failure;
              && (r.patched.Some? <==> failure.None? || failure.value.tookEffect)
              && (r.requeue.Some? <==> failure.None?)
  {
    var scan := Scan(c, cr, seen, s);
    FireStageStays(c, cr, scan.server, scan.status.value, s.clock);
  }

  lemma FireStageStays(c: Ctx, cr: CrView, s: Server, status: Status, now: Instant)
    ensures var pass := FireStage(c, cr, s, status, now);
            pass.fire.None? ==> pass.server == s && pass.status.Some?
  {
  }

  /** When the reconcile asks to run again: 5 s after a fire, one second past a scan due within a minute,
      and otherwise in five minutes.  One that was cut short, by a refused Job listing or delete or by the
      patch itself, asks for nothing, and the first two patch nothing. */
  lemma AsksAgain(c: Ctx, cr: CrView, seen: Option<Status>, s: Server)
    ensures var r, second := ReconcileOnce(c, cr, seen, s), 1_000_000_000;
            && (Scan(c, cr, seen, s).status.None? ==> r.patched == None && r.requeue == None)
            && (r.fire.Some? && !r.fire.value.completed ==> r.patched == None && r.requeue == None)
            && (r.requeue.Some? ==>
                  && r.patched.Some? && (r.fire.Some? ==> r.fire.value.completed)
                  && r.requeue.value ==
                       if r.fire.Some? then 5 * second
                       else
                         match r.patched.value.nextScheduledScanAt
                         case None => 300 * second
                         case Some(due) =>
                           if s.clock < due < s.clock + 60 * second then due - s.clock + second else 300 * second)
  {
    var scan := Scan(c, cr, seen, s);
    if scan.status.Some? { StageCompletes(c, cr, scan.server, scan.status.value, s.clock); }
  }

  lemma StageCompletes(c: Ctx, cr: CrView, s: Server, status: Status, now: Instant)
    ensures var pass := FireStage(c, cr, s, status, now);
            pass.status.Some? <==> (pass.fire.Some? ==> pass.fire.value.completed)
  {
  }
}
