/** One reconcile, stage by stage. */
module Reconcile {
  import opened Basics
  import opened Rfc3339
  import opened Crd
  import opened Aggregator
  import opened Scheduler
  import opened Conditions
  import opened Cluster
  import opened Orchestrator

  const REQUEUE_INTERVAL: int := 300 * SECOND
  const FIRE_REQUEUE: int := 5 * SECOND

  // ---------------------------------------------------------------------------------------------
  // Stage 1: orchestration and aggregation.
  // ---------------------------------------------------------------------------------------------

  /** The status after the scan stages (none when listing failed and the reconcile was abandoned),
      the Jobs aggregated, if any, and the server as it was when they were listed. */
  datatype ScanPass = ScanPass(
    server: Server,
    status: Option<Status>,
    orchestration: Option<Orchestration>,
    listed: Option<seq<Job>>)

  function Scan(c: Ctx, cr: CrView, seen: Option<Status>, s: Server): ScanPass {
    var now := s.clock;
    var base := DesiredStatus(c.lib, cr.spec, now, seen);
    if ReasonOf(base) == Some(InvalidSpec) || cr.uid.GetOr("") == "" then ScanPass(s, Some(base), None, None)
    else
      var (s1, orchestration) := EnsureJobs(c, cr, s);
      var scanning := StatusWithOrchestration(base, seen, orchestration, now);
      if orchestration.Spawned? then AggregatePass(c, cr, seen, scanning, s1, orchestration, now)
      else ScanPass(s1, Some(scanning), Some(orchestration), None)
  }

  /** Only after `Spawned`: list the owned Jobs and overlay their outcome. */
  function AggregatePass(c: Ctx, cr: CrView, seen: Option<Status>, scanning: Status, s: Server,
                         orchestration: Orchestration, now: Instant): ScanPass {
    var (s1, owned) := ListOwned(c, s);
    match owned
    case Err(_) => ScanPass(s1, None, Some(orchestration), None)
    case Ok(jobs) =>
      ScanPass(s1, Some(StatusWithOutcome(scanning, seen, Aggregate(jobs, cr.spec, s1.clock), now)),
               Some(orchestration), Some(jobs))
  }

  // ---------------------------------------------------------------------------------------------
  // Stage 2: the schedule.
  // ---------------------------------------------------------------------------------------------

  function Anchor(cr: CrView, status: Status, now: Instant): Instant {
    status.lastScanCompletedAt.GetOr(cr.creation.GetOr(now))
  }

  function Jitter(c: Ctx, cr: CrView): int { JitterSeconds(c.lib.digest, cr.uid.GetOr("")) * SECOND }

  /** `schedule_decision`: the next scheduled time, if the schedule parses. */
  function NextScheduled(c: Ctx, cr: CrView, status: Status, now: Instant): Option<Instant> {
    match ParseSchedule(c.lib, cr.spec.schedule)
    case Err(_) => None
    case Ok(schedule) => Some(NextScheduledTime(schedule, Anchor(cr, status, now), Jitter(c, cr)))
  }

  /** `cleanup_terminal_jobs` over a snapshot: the deletes that took effect, in order, and whether the
      loop ran to its end.  A refused or unanswered delete ends the loop; if it took effect all the
      same, it is the last of the log. */
  function Cleanup(c: Ctx, s: Server, snapshot: seq<Job>): (Server, seq<Deletion>, bool)
    decreases snapshot
  {
    if snapshot == [] then (s, [], true)
    else if !IsTerminal(snapshot[0]) || snapshot[0].name.None? then Cleanup(c, s, snapshot[1..])
    else
      var name := snapshot[0].name.value;
      var (s1, answer) := DeleteJob(c, s, name);
      var effect := DeleteEffect(c, s, name);
      if answer.Ok? || IsNotFound(answer.error) then
        var (s2, log, done) := Cleanup(c, s1, snapshot[1..]);
        (s2, effect + log, done)
      else (s1, effect, false)
  }

  predicate IsNotFound(error: KubeError) { error.Api? && error.code == NOT_FOUND }

  /** A schedule fire: when, in which scan state, under which schedule, what it deleted, and
      whether its cleanup ran to the end. */
  datatype Fire = Fire(
    at: Instant,
    reason: Reason,
    schedule: ScheduleSpec,
    jitter: int,
    log: seq<Deletion>,
    completed: bool)

  datatype FirePass = FirePass(server: Server, status: Option<Status>, fire: Option<Fire>)

  predicate IsTerminalReason(reason: Option<Reason>) {
    reason == Some(ScanCompleted) || reason == Some(ScanFailed)
  }

  /** The schedule is due: list again, delete the terminal Jobs of that snapshot. */
  function RunFire(c: Ctx, s: Server, planned: Status, fire: Fire): FirePass {
    var (s1, owned) := ListOwned(c, s);
    match owned
    case Err(_) => FirePass(s1, None, Some(fire))
    case Ok(snapshot) =>
      var (s2, log, done) := Cleanup(c, s1, snapshot);
      FirePass(s2, if done then Some(planned) else None, Some(fire.(log := log, completed := done)))
  }

  function FireStage(c: Ctx, cr: CrView, s: Server, status: Status, now: Instant): FirePass {
    var next := NextScheduled(c, cr, status, now);
    if !IsTerminalReason(ReasonOf(status)) || next.None? then FirePass(s, Some(status), None)
    else
      var planned := status.(nextScheduledScanAt := next);
      if !IsScheduleDue(next.value, now) then FirePass(s, Some(planned), None)
      else
        var schedule := ParseSchedule(c.lib, cr.spec.schedule).value;
        RunFire(c, s, planned, Fire(now, ReasonOf(status).value, schedule, Jitter(c, cr), [], false))
  }

  // ---------------------------------------------------------------------------------------------
  // Stage 3: the patch and the requeue.
  // ---------------------------------------------------------------------------------------------

  function NextRequeue(nextScheduled: Option<Instant>, now: Instant): int {
    if nextScheduled.None? then REQUEUE_INTERVAL
    else
      var untilNext := nextScheduled.value - now;
      if 0 < untilNext < 60 * SECOND then untilNext + SECOND else REQUEUE_INTERVAL
  }

  /** The status patched, if the patch took effect; the requeue interval, if the reconcile
      succeeded; the fire, if the schedule was due. */
  datatype Reconciled = Reconciled(
    server: Server,
    patched: Option<Status>,
    requeue: Option<int>,
    fire: Option<Fire>)

  /** One reconcile.  `seen` is the status the operator reads from its cache. */
  function ReconcileOnce(c: Ctx, cr: CrView, seen: Option<Status>, s: Server): Reconciled {
    var now := s.clock;
    var scan := Scan(c, cr, seen, s);
    match scan.status
    case None => Reconciled(scan.server, None, None, None)
    case Some(scanned) =>
      var firing := FireStage(c, cr, scan.server, scanned, now);
      match firing.status
      case None => Reconciled(firing.server, None, None, firing.fire)
      case Some(status) =>
        var (s1, error) := PatchStatus(c, firing.server, status);
        var tookEffect := NextCall(firing.server).failure.None? || NextCall(firing.server).failure.value.tookEffect;
        Reconciled(s1,
                   if tookEffect then Some(status) else None,
                   if error.Some? then None
                   else Some(if firing.fire.Some? then FIRE_REQUEUE else NextRequeue(status.nextScheduledScanAt, now)),
                   firing.fire)
  }

  // ---------------------------------------------------------------------------------------------
  // Every stage keeps the store invariant.
  // ---------------------------------------------------------------------------------------------

  lemma ScanKeepsGood(c: Ctx, cr: CrView, seen: Option<Status>, since: Instant, s: Server)
    requires Good(c, since, s)
    ensures var s' := Scan(c, cr, seen, s).server;
            Good(c, since, s') && s'.clock >= s.clock && s'.status == s.status
  {
    EnsureJobsKeepsGood(c, cr, since, s);
    ArriveKeepsGood(c, since, EnsureJobs(c, cr, s).0);
  }

  lemma {:induction false} CleanupKeepsGood(c: Ctx, since: Instant, s: Server, snapshot: seq<Job>)
    requires Good(c, since, s)
    ensures var s' := Cleanup(c, s, snapshot).0;
            Good(c, since, s') && s'.clock >= s.clock && s'.status == s.status
    decreases snapshot
  {
    if snapshot != [] {
      if IsTerminal(snapshot[0]) && snapshot[0].name.Some? {
        DeleteKeepsGood(c, since, s, snapshot[0].name.value);
        CleanupKeepsGood(c, since, DeleteJob(c, s, snapshot[0].name.value).0, snapshot[1..]);
      } else {
        CleanupKeepsGood(c, since, s, snapshot[1..]);
      }
    }
  }

  lemma RunFireKeepsGood(c: Ctx, since: Instant, s: Server, planned: Status, fire: Fire)
    requires Good(c, since, s)
    ensures var s' := RunFire(c, s, planned, fire).server;
            Good(c, since, s') && s'.clock >= s.clock && s'.status == s.status
  {
    ArriveKeepsGood(c, since, s);
    var (s1, owned) := ListOwned(c, s);
    if owned.Ok? {
      CleanupKeepsGood(c, since, s1, owned.value);
    }
  }

  lemma FireStageKeepsGood(c: Ctx, cr: CrView, since: Instant, s: Server, status: Status, now: Instant)
    requires Good(c, since, s)
    ensures var s' := FireStage(c, cr, s, status, now).server;
            Good(c, since, s') && s'.clock >= s.clock && s'.status == s.status
  {
    var next := NextScheduled(c, cr, status, now);
    if IsTerminalReason(ReasonOf(status)) && next.Some? && IsScheduleDue(next.value, now) {
      var schedule := ParseSchedule(c.lib, cr.spec.schedule).value;
      RunFireKeepsGood(c, since, s, status.(nextScheduledScanAt := next),
                       Fire(now, ReasonOf(status).value, schedule, Jitter(c, cr), [], false));
    }
  }

  lemma PatchKeepsGood(c: Ctx, since: Instant, s: Server, status: Status)
    requires Good(c, since, s)
    ensures Good(c, since, PatchStatus(c, s, status).0) && PatchStatus(c, s, status).0.clock >= s.clock
  {
    ArriveKeepsGood(c, since, s);
  }

  lemma ReconcileKeepsGood(c: Ctx, cr: CrView, seen: Option<Status>, since: Instant, s: Server)
    requires Good(c, since, s)
    ensures Good(c, since, ReconcileOnce(c, cr, seen, s).server)
    ensures ReconcileOnce(c, cr, seen, s).server.clock >= s.clock
  {
    ScanKeepsGood(c, cr, seen, since, s);
    var scan := Scan(c, cr, seen, s);
    if scan.status.Some? {
      FireStageKeepsGood(c, cr, since, scan.server, scan.status.value, s.clock);
      var firing := FireStage(c, cr, scan.server, scan.status.value, s.clock);
      if firing.status.Some? {
        PatchKeepsGood(c, since, firing.server, firing.status.value);
      }
    }
  }

  lemma ScanStill(c: Ctx, cr: CrView, seen: Option<Status>, s: Server)
    requires Still(s.script)
    ensures Still(Scan(c, cr, seen, s).server.script) && Scan(c, cr, seen, s).server.clock == s.clock
  {
    EnsureStill(c, cr, s);
    StillArrive(c, EnsureJobs(c, cr, s).0);
  }

  // ---------------------------------------------------------------------------------------------
  // Which reasons a scan can end in.
  // ---------------------------------------------------------------------------------------------

  /** `Ready=True` is written exactly when Jobs were listed, at least one, and every one of them had
      succeeded and none was finally failed. */
  lemma CompletedMeansAllSucceeded(c: Ctx, cr: CrView, seen: Option<Status>, s: Server)
    requires Scan(c, cr, seen, s).status.Some?
    ensures var scan := Scan(c, cr, seen, s);
            && (ReasonOf(scan.status.value) == Some(ScanCompleted) <==>
                  scan.listed.Some? && scan.listed.value != []
                  && forall j | j in scan.listed.value :: IsSucceeded(j) && !IsFinallyFailed(j))
            && (ReasonOf(scan.status.value) == Some(ScanFailed) <==>
                  scan.listed.Some? && exists j | j in scan.listed.value :: IsFinallyFailed(j))
            && (ReasonOf(scan.status.value) == Some(ScanCompleted) <==> scan.status.value.conditions[0].status == True)
  {
    var (s1, orchestration) := EnsureJobs(c, cr, s);
    var scanning := StatusWithOrchestration(DesiredStatus(c.lib, cr.spec, s.clock, seen), seen, orchestration, s.clock);
    PassDecides(c, cr, seen, scanning, s1, orchestration, s.clock);
  }

  /** A completed scan listed succeeded Jobs only, and recorded exactly these. */
  lemma CompletedScan(c: Ctx, cr: CrView, seen: Option<Status>, s: Server)
    requires Scan(c, cr, seen, s).status.Some?
    requires ReasonOf(Scan(c, cr, seen, s).status.value) == Some(ScanCompleted)
    ensures var scan := Scan(c, cr, seen, s);
            && scan.listed == Some(Listing(c, scan.server.jobs))
            && (forall j | j in scan.listed.value :: IsSucceeded(j))
            && Recorded(seen, ScannedImagesOf(scan.listed.value, cr.spec, scan.server.clock), scan.status.value)
  {
    var scanning, s1, orchestration := ScanAggregates(c, cr, seen, s);
    CompletedPass(c, cr, seen, scanning, s1, orchestration, s.clock);
  }

  /** The aggregation such a scan ends with. */
  lemma ScanAggregates(c: Ctx, cr: CrView, seen: Option<Status>, s: Server)
    returns (scanning: Status, s1: Server, orchestration: Orchestration)
    requires Scan(c, cr, seen, s).status.Some?
    requires ReasonOf(Scan(c, cr, seen, s).status.value) == Some(ScanCompleted)
    ensures Scan(c, cr, seen, s) == AggregatePass(c, cr, seen, scanning, s1, orchestration, s.clock)
    ensures ReasonOf(scanning) != Some(ScanCompleted) && Recorded(seen, [], scanning)
  {
    var ensured := EnsureJobs(c, cr, s);
    s1, orchestration := ensured.0, ensured.1;
    scanning := StatusWithOrchestration(DesiredStatus(c.lib, cr.spec, s.clock, seen), seen, orchestration, s.clock);
  }

  lemma CompletedPass(c: Ctx, cr: CrView, seen: Option<Status>, scanning: Status, s: Server,
                      orchestration: Orchestration, now: Instant)
    requires ReasonOf(scanning) != Some(ScanCompleted) && Recorded(seen, [], scanning)
    ensures var pass := AggregatePass(c, cr, seen, scanning, s, orchestration, now);
            pass.status.Some? && ReasonOf(pass.status.value) == Some(ScanCompleted) ==>
              && pass.listed == Some(Listing(c, pass.server.jobs))
              && (forall j | j in pass.listed.value :: IsSucceeded(j))
              && Recorded(seen, ScannedImagesOf(pass.listed.value, cr.spec, pass.server.clock), pass.status.value)
  {
    var (s1, owned) := ListOwned(c, s);
    if owned.Ok? {
      var outcome := Aggregate(owned.value, cr.spec, s1.clock);
      AggregateDecides(owned.value, cr.spec, s1.clock);
      if outcome.AllSucceeded? {
        assert outcome.scanned == ScannedImagesOf(owned.value, cr.spec, s1.clock);
      } else {
        assert ReasonOf(StatusWithOutcome(scanning, seen, outcome, now)) != Some(ScanCompleted);
      }
    }
  }

  lemma PassDecides(c: Ctx, cr: CrView, seen: Option<Status>, scanning: Status, s: Server,
                    orchestration: Orchestration, now: Instant)
    requires scanning.conditions != [] && scanning.conditions[0].status == False
        && !IsTerminalReason(ReasonOf(scanning))
    ensures var pass := AggregatePass(c, cr, seen, scanning, s, orchestration, now);
            pass.status.Some? ==>
              && pass.listed.Some?
              && (ReasonOf(pass.status.value) == Some(ScanCompleted) <==>
                    pass.listed.value != []
                    && forall j | j in pass.listed.value :: IsSucceeded(j) && !IsFinallyFailed(j))
              && (ReasonOf(pass.status.value) == Some(ScanFailed) <==>
                  exists j | j in pass.listed.value :: IsFinallyFailed(j))
              && pass.status.value.conditions != []
              && (ReasonOf(pass.status.value) == Some(ScanCompleted) <==>
                  pass.status.value.conditions[0].status == True)
  {
    var (s1, owned) := ListOwned(c, s);
    if owned.Ok? {
      AggregateDecides(owned.value, cr.spec, s1.clock);
    }
  }
}
