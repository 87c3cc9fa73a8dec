/** How late the operator's own requeues find a schedule due: the arithmetic of the walk, that any walk
    of reconciles follows it, and that in an unchanged cluster the requeues are such a walk. */
module Requeue {
  import opened Basics
  import opened Rfc3339
  import opened Crd
  import opened Aggregator
  import opened Scheduler
  import opened ScanJob
  import opened Conditions
  import opened Cluster
  import opened Orchestrator
  import opened Reconcile
  import opened Runs
  import opened Coverage
  import opened Fixpoint

  const MINUTE: int := 60 * SECOND

  /** Following only the operator's own requeues from a check at `t`, with no latency: the first check
      at or after `due`.  The remaining time shrinks with every check, so there is one. */
  function FirstCheck(due: Instant, t: Instant): (r: Instant)
    ensures r >= due
    ensures t >= due ==> r == t
    decreases if t >= due then 0 else due - t
  {
    if t >= due then t else FirstCheck(due, t + NextRequeue(Some(due), t))
  }

  /** Lateness as a function of the time remaining at some check, modulo the heartbeat. */
  function Lateness(remaining: int): int {
    var r := remaining % REQUEUE_INTERVAL;
    if r == 0 then 0 else if r < MINUTE then SECOND else REQUEUE_INTERVAL - r
  }

  /** The walk in closed form. */
  lemma {:induction false} FirstCheckExactly(due: Instant, t: Instant)
    requires t < due
    ensures FirstCheck(due, t) == due + Lateness(due - t)
    decreases due - t
  {
    var d, u := due - t, t + NextRequeue(Some(due), t);
    if d < MINUTE {
      assert d % REQUEUE_INTERVAL == d && u == due + SECOND;
      assert FirstCheck(due, u) == u;
    } else if u < due {
      FirstCheckExactly(due, u);
      HeartbeatKeepsPhase(d);
    } else {
      assert FirstCheck(due, u) == u;
      LastHeartbeat(d);
    }
  }

  /** The heartbeat that reaches the due time. */
  lemma LastHeartbeat(d: int)
    requires MINUTE <= d <= REQUEUE_INTERVAL
    ensures Lateness(d) == REQUEUE_INTERVAL - d
  {
    assert d % REQUEUE_INTERVAL == if d == REQUEUE_INTERVAL then 0 else d;
  }

  lemma HeartbeatKeepsPhase(d: int)
    ensures (d - REQUEUE_INTERVAL) % REQUEUE_INTERVAL == d % REQUEUE_INTERVAL
  {
  }

  /** The first check at or after the due time is at most 240 s late. */
  lemma LatenessBound(due: Instant, t: Instant)
    requires t < due
    ensures due <= FirstCheck(due, t) <= due + 240 * SECOND
  {
    FirstCheckExactly(due, t);
  }

  /** The bound is attained: a check exactly one minute early takes the full heartbeat. */
  lemma LatenessBoundAttained(due: Instant)
    ensures FirstCheck(due, due - MINUTE) == due + 240 * SECOND
  {
    FirstCheckExactly(due, due - MINUTE);
    assert MINUTE % REQUEUE_INTERVAL == MINUTE;
  }

  /** So the documented precision of 30 s is not what the code gives.  It is met exactly when the
      heartbeats lead to a check on the due time itself, inside the final minute before it, or
      inside the last 30 s of the heartbeat that passes over it. */
  lemma ThirtySecondsExactly(due: Instant, t: Instant)
    requires t < due
    ensures FirstCheck(due, t) <= due + 30 * SECOND <==>
              var r := (due - t) % REQUEUE_INTERVAL; r < MINUTE || r >= 270 * SECOND
  {
    FirstCheckExactly(due, t);
  }

  // ---------------------------------------------------------------------------------------------
  // The walk is the operator's.
  // ---------------------------------------------------------------------------------------------

  /** A reconcile in a terminal scan state that does not fire and stores `due` as the next scan. */
  predicate Waits(c: Ctx, cr: CrView, s: Server, due: Instant) {
    var r := ReconcileOnce(c, cr, s.status, s);
    && r.patched.Some? && r.requeue.Some? && r.fire.None?
    && IsTerminalReason(ReasonOf(r.patched.value)) && r.patched.value.nextScheduledScanAt == Some(due)
  }

  /** A reconcile that fires for `due`. */
  predicate FiresFor(c: Ctx, cr: CrView, s: Server, due: Instant) {
    && ReconcileOnce(c, cr, s.status, s).fire.Some? && Scan(c, cr, s.status, s).status.Some?
    && NextScheduled(c, cr, Scan(c, cr, s.status, s).status.value, s.clock) == Some(due)
  }

  /** Such a reconcile runs before the due time and asks for the next step of the walk. */
  lemma WaitingIsAStep(c: Ctx, cr: CrView, s: Server, due: Instant)
    requires Waits(c, cr, s, due)
    ensures s.clock < due
    ensures ReconcileOnce(c, cr, s.status, s).requeue.value == NextRequeue(Some(due), s.clock)
  {
    RequeueIsNext(c, cr, s.status, s);
    WaitingIsEarly(c, cr, s, due);
  }

  lemma WaitingIsEarly(c: Ctx, cr: CrView, s: Server, due: Instant)
    requires Waits(c, cr, s, due)
    ensures s.clock < due
  {
    PatchedIsPlanned(c, cr, s.status, s);
    TerminalMeansParsed(c, cr, s.status, s);
    FiresExactlyWhenDue(c, cr, s.status, s);
  }

  lemma RequeueIsNext(c: Ctx, cr: CrView, seen: Option<Status>, s: Server)
    requires var r := ReconcileOnce(c, cr, seen, s); r.patched.Some? && r.requeue.Some? && r.fire.None?
    ensures var r := ReconcileOnce(c, cr, seen, s);
            r.requeue.value == NextRequeue(r.patched.value.nextScheduledScanAt, s.clock)
  {
  }

  /** `s` waits, and `next` is when it asked to be reconciled again. */
  predicate StepsTo(c: Ctx, cr: CrView, s: Server, next: Server, due: Instant) {
    Waits(c, cr, s, due) && next.clock == s.clock + ReconcileOnce(c, cr, s.status, s).requeue.value
  }

  /** Reconciles at the operator's own requeues, each finding the CR as it is then: all but the last wait
      for `due`, and the last one fires for it. */
  ghost predicate Walks(c: Ctx, cr: CrView, walk: seq<Server>, due: Instant) {
    && walk != [] && FiresFor(c, cr, walk[|walk| - 1], due)
    && forall i, k {:trigger StepsTo(c, cr, walk[i], walk[k], due)} ::
         0 <= i && k == i + 1 && k < |walk| ==> StepsTo(c, cr, walk[i], walk[k], due)
  }

  /** The clocks of such a walk: each but the last is early and followed by the requeue it asks for. */
  predicate TicksAt(due: Instant, walk: seq<Server>, i: nat)
    requires i + 1 < |walk|
  {
    walk[i].clock < due && walk[i + 1].clock == walk[i].clock + NextRequeue(Some(due), walk[i].clock)
  }

  ghost predicate TicksBy(due: Instant, walk: seq<Server>)
    requires walk != []
  {
    walk[|walk| - 1].clock >= due && forall i: nat | i + 1 < |walk| :: TicksAt(due, walk, i)
  }

  lemma StepTicks(c: Ctx, cr: CrView, s: Server, next: Server, due: Instant)
    requires StepsTo(c, cr, s, next, due)
    ensures s.clock < due && next.clock == s.clock + NextRequeue(Some(due), s.clock)
  {
    WaitingIsAStep(c, cr, s, due);
  }

  lemma {:induction false} WalkTick(c: Ctx, cr: CrView, walk: seq<Server>, due: Instant, i: nat)
    requires Walks(c, cr, walk, due) && i + 1 < |walk|
    ensures TicksAt(due, walk, i)
  {
    var k := i + 1;
    StepTicks(c, cr, walk[i], walk[k], due);
  }

  lemma {:induction false} WalkEnds(c: Ctx, cr: CrView, walk: seq<Server>, due: Instant)
    requires Walks(c, cr, walk, due)
    ensures walk != [] && walk[|walk| - 1].clock >= due
  {
    FiringIsLate(c, cr, walk[|walk| - 1], due);
  }

  lemma {:induction false} WalkTicks(c: Ctx, cr: CrView, walk: seq<Server>, due: Instant)
    requires Walks(c, cr, walk, due)
    ensures walk != [] && TicksBy(due, walk)
  {
    WalkEnds(c, cr, walk, due);
    forall i: nat | i + 1 < |walk| ensures TicksAt(due, walk, i) {
      WalkTick(c, cr, walk, due, i);
    }
  }

  lemma FiringIsLate(c: Ctx, cr: CrView, s: Server, due: Instant)
    requires FiresFor(c, cr, s, due)
    ensures s.clock >= due
  {
    FiresExactlyWhenDue(c, cr, s.status, s);
  }

  lemma {:induction false} TicksReachFirstCheck(due: Instant, walk: seq<Server>)
    requires walk != [] && TicksBy(due, walk)
    ensures walk[|walk| - 1].clock == FirstCheck(due, walk[0].clock)
    decreases |walk|
  {
    if |walk| > 1 {
      var rest := walk[1..];
      assert TicksAt(due, walk, 0);
      forall i: nat | i + 1 < |rest| ensures TicksAt(due, rest, i) {
        assert TicksAt(due, walk, i + 1);
      }
      TicksReachFirstCheck(due, rest);
    }
  }

  /** On such a walk the fire is at the first check, so it is at most 240 s late. */
  lemma WalkFiresOnTime(c: Ctx, cr: CrView, walk: seq<Server>, due: Instant)
    requires Walks(c, cr, walk, due)
    ensures walk != [] && walk[|walk| - 1].clock == FirstCheck(due, walk[0].clock)
    ensures walk[0].clock < due ==> due <= walk[|walk| - 1].clock <= due + 240 * SECOND
  {
    WalkTicks(c, cr, walk, due);
    TicksReachFirstCheck(due, walk);
    if walk[0].clock < due { LatenessBound(due, walk[0].clock); }
  }

  // ---------------------------------------------------------------------------------------------
  // In an unchanged cluster the operator's requeues are such a walk.
  // ---------------------------------------------------------------------------------------------

  /** The status `p` names a next scan that no later clock moves: the schedule counts from a recorded
      instant, and the records of a completed scan over `jobs` have their completion times. */
  predicate Settled(c: Ctx, cr: CrView, p: Status, jobs: map<string, Job>) {
    && (p.lastScanCompletedAt.Some? || cr.creation.Some?)
    && (ReasonOf(p) == Some(ScanCompleted) ==> Timed(Listing(c, jobs)))
  }

  /** The second scan ends in the state of the first, and its schedule names the same time. */
  lemma DueStands(c: Ctx, cr: CrView, floor: Instant, s: Server, t: Server, due: Instant)
    requires Good(c, floor, s) && Follows(c, cr, s, t) && Waits(c, cr, s, due) && t.status.Some?
    requires Settled(c, cr, t.status.value, t.jobs)
    ensures var second := Scan(c, cr, t.status, t).status;
            && second.Some? && IsTerminalReason(ReasonOf(second.value))
            && NextScheduled(c, cr, second.value, t.clock) == Some(due)
            && second.value == At(t.status.value, t.clock)
  {
    FollowingScan(c, cr, floor, s, t);
    var first, seen := Scan(c, cr, s.status, s).status.value, t.status.value;
    TerminalMeansParsed(c, cr, s.status, s);
    ScanRepeats(c, cr, s.status, s, seen, t);
    SameNext(c, cr, first, seen, Scan(c, cr, t.status, t).status.value, s.clock, t.clock, due);
  }

  lemma SameNext(c: Ctx, cr: CrView, first: Status, seen: Status, second: Status, now: Instant, later: Instant,
                 due: Instant)
    requires Planned(c, cr, first, now, seen) && Repeats(first, second, seen, later)
    requires IsTerminalReason(ReasonOf(first)) && ParseSchedule(c.lib, cr.spec.schedule).Ok?
    requires seen.nextScheduledScanAt == Some(due) && (seen.lastScanCompletedAt.Some? || cr.creation.Some?)
    ensures IsTerminalReason(ReasonOf(second)) && NextScheduled(c, cr, second, later) == Some(due)
    ensures second == At(seen, later)
  {
    assert ReasonOf(second) == ReasonOf(first);
    assert Anchor(cr, second, later) == Anchor(cr, first, now);
  }

  /** Where the status is not settled, the time the schedule counts from moves with the clock, and no
      reconcile that ends in such a state fires. */
  lemma UnsettledNeverFires(c: Ctx, cr: CrView, seen: Option<Status>, floor: Instant, s: Server)
    requires Good(c, floor, s) && Scan(c, cr, seen, s).status.Some?
    requires !Settled(c, cr, Scan(c, cr, seen, s).status.value, Scan(c, cr, seen, s).server.jobs)
    ensures ReconcileOnce(c, cr, seen, s).fire.None?
  {
    var scan := Scan(c, cr, seen, s);
    FiresExactlyWhenDue(c, cr, seen, s);
    if IsTerminalReason(ReasonOf(scan.status.value)) {
      TerminalMeansParsed(c, cr, seen, s);
      if scan.status.value.lastScanCompletedAt.Some? || cr.creation.Some? {
        UntimedMovesAnchor(c, cr, seen, floor, s);
      }
      AheadOfAnchor(c, cr, scan.status.value, s.clock);
    }
  }

  /** A completed scan that listed a Job without a completion time has it counted as completing now. */
  lemma UntimedMovesAnchor(c: Ctx, cr: CrView, seen: Option<Status>, floor: Instant, s: Server)
    requires Good(c, floor, s) && Scan(c, cr, seen, s).status.Some?
    requires ReasonOf(Scan(c, cr, seen, s).status.value) == Some(ScanCompleted)
    requires !Timed(Listing(c, Scan(c, cr, seen, s).server.jobs))
    ensures Anchor(cr, Scan(c, cr, seen, s).status.value, s.clock) >= s.clock
  {
    var scan := Scan(c, cr, seen, s);
    CompletedScan(c, cr, seen, s);
    ScanKeepsGood(c, cr, seen, floor, s);
    UntimedCountsAsNow(c, cr.spec, floor, scan.server, LastCompleted(seen));
  }

  lemma UntimedCountsAsNow(c: Ctx, spec: Spec, floor: Instant, s: Server, acc: Option<Instant>)
    requires Good(c, floor, s) && !Timed(Listing(c, s.jobs))
    ensures var last := Latest(acc, ScannedImagesOf(Listing(c, s.jobs), spec, s.clock));
            last.Some? && last.value >= s.clock
  {
    var jobs := Listing(c, s.jobs);
    var job :| job in jobs && IsSucceeded(job) && CompletionOf(job.status).None?;
    SameImageSameJob(c, floor, s, job, job);
    RecordCountsAsNow(jobs, spec, s.clock, job, acc);
  }

  lemma {:induction false} RecordCountsAsNow(jobs: seq<Job>, spec: Spec, clock: Instant, job: Job, acc: Option<Instant>)
    requires job in jobs && IsSucceeded(job) && CompletionOf(job.status).None?
    requires ImageRefOf(job).Some? && HashLabelOf(job).Some?
    ensures var last := Latest(acc, ScannedImagesOf(jobs, spec, clock));
            last.Some? && last.value >= clock
  {
    var record := ScannedImageOf(job, spec, clock).value;
    ScannedMembership(jobs, spec, clock, record);
    LatestIsBeyond(acc, ScannedImagesOf(jobs, spec, clock), record);
  }

  lemma LatestIsBeyond(acc: Option<Instant>, records: seq<ScannedImage>, record: ScannedImage)
    requires record in records
    ensures Latest(acc, records).Some? && Latest(acc, records).value >= record.completedAt
  {
    LatestIsLatest(acc, records);
    var i :| 0 <= i < |records| && records[i] == record;
  }

  /** A status that is not settled stays so. */
  lemma StaysUnsettled(c: Ctx, cr: CrView, floor: Instant, s: Server, t: Server)
    requires Good(c, floor, s) && Follows(c, cr, s, t) && t.status.Some?
    requires !Settled(c, cr, t.status.value, t.jobs)
    ensures Scan(c, cr, t.status, t).status.Some? && Scan(c, cr, t.status, t).server.jobs == t.jobs
    ensures !Settled(c, cr, Scan(c, cr, t.status, t).status.value, t.jobs)
  {
    FollowingScan(c, cr, floor, s, t);
    if Untouched(Listing(c, t.jobs), t.status.value, s.clock, t.clock) {
      ScanRepeats(c, cr, s.status, s, t.status.value, t);
    } else {
      ScanAgain(c, cr, s.status, s, t.status, t);
      CompletedMeansAllSucceeded(c, cr, s.status, s);
      CompletedMeansAllSucceeded(c, cr, t.status, t);
    }
  }

  /** The next reconcile of an unchanged cluster, whenever it comes, fires exactly when the due time has
      come and the status is settled, and fires for that time; before it, a settled one waits for the
      same time again. */
  lemma NextCheckFiresWhenDue(c: Ctx, cr: CrView, floor: Instant, s: Server, t: Server, due: Instant)
    requires Good(c, floor, s) && Follows(c, cr, s, t) && Waits(c, cr, s, due)
    ensures var settled := Settled(c, cr, ReconcileOnce(c, cr, s.status, s).patched.value, t.jobs);
            && (ReconcileOnce(c, cr, t.status, t).fire.Some? <==> settled && t.clock >= due)
            && (settled ==> if t.clock >= due then FiresFor(c, cr, t, due) else Waits(c, cr, t, due))
  {
    FollowingScan(c, cr, floor, s, t);
    if Settled(c, cr, t.status.value, t.jobs) {
      SettledCheck(c, cr, floor, s, t, due);
    } else {
      StaysUnsettled(c, cr, floor, s, t);
      UnsettledNeverFires(c, cr, t.status, floor, t);
    }
  }

  lemma SettledCheck(c: Ctx, cr: CrView, floor: Instant, s: Server, t: Server, due: Instant)
    requires Good(c, floor, s) && Follows(c, cr, s, t) && Waits(c, cr, s, due) && t.status.Some?
    requires Settled(c, cr, t.status.value, t.jobs)
    ensures ReconcileOnce(c, cr, t.status, t).fire.Some? <==> t.clock >= due
    ensures if t.clock >= due then FiresFor(c, cr, t, due) else Waits(c, cr, t, due)
  {
    DueStands(c, cr, floor, s, t, due);
    FiresExactlyWhenDue(c, cr, t.status, t);
    if t.clock < due { StillWaits(c, cr, floor, s, t, due); }
  }

  lemma StillWaits(c: Ctx, cr: CrView, floor: Instant, s: Server, t: Server, due: Instant)
    requires Good(c, floor, s) && Unchanged(c, cr, s, t) && Waits(c, cr, s, due)
    requires var second := Scan(c, cr, t.status, t).status;
             && second.Some? && IsTerminalReason(ReasonOf(second.value))
             && NextScheduled(c, cr, second.value, t.clock) == Some(due)
    ensures Waits(c, cr, t, due)
  {
    SecondReconcile(c, cr, floor, s, t);
    PatchedIsPlanned(c, cr, t.status, t);
    TerminalMeansParsed(c, cr, t.status, t);
  }

  /** The reconcile that the one of `s` asks for: the same CR, whatever it stored, the API as before. */
  function NextCheck(c: Ctx, cr: CrView, s: Server): Server
    requires ReconcileOnce(c, cr, s.status, s).requeue.Some?
  {
    var r := ReconcileOnce(c, cr, s.status, s);
    r.server.(clock := s.clock + r.requeue.value, script := s.script)
  }

  /** Each state of the walk is the next check of the one before. */
  ghost predicate Requeues(c: Ctx, cr: CrView, walk: seq<Server>) {
    forall i, k {:trigger IsNextCheck(c, cr, walk[i], walk[k])} ::
      0 <= i && k == i + 1 && k < |walk| ==> IsNextCheck(c, cr, walk[i], walk[k])
  }

  predicate IsNextCheck(c: Ctx, cr: CrView, s: Server, next: Server) {
    ReconcileOnce(c, cr, s.status, s).requeue.Some? && next == NextCheck(c, cr, s)
  }

  /** A waiting reconcile of a settled cluster. */
  ghost predicate WaitsSettled(c: Ctx, cr: CrView, floor: Instant, s: Server, due: Instant) {
    && Good(c, floor, s) && Still(s.script) && Waits(c, cr, s, due)
    && Settled(c, cr, ReconcileOnce(c, cr, s.status, s).patched.value, ReconcileOnce(c, cr, s.status, s).server.jobs)
  }

  lemma NextCheckFollows(c: Ctx, cr: CrView, floor: Instant, s: Server, due: Instant)
    requires WaitsSettled(c, cr, floor, s, due)
    ensures s.clock < due && NextCheck(c, cr, s).clock == s.clock + NextRequeue(Some(due), s.clock)
    ensures Follows(c, cr, s, NextCheck(c, cr, s)) && StepsTo(c, cr, s, NextCheck(c, cr, s), due)
  {
    WaitingIsAStep(c, cr, s, due);
  }

  /** The next check fires for the due time, or waits for it, again settled. */
  lemma NextCheckSettled(c: Ctx, cr: CrView, floor: Instant, s: Server, due: Instant)
    requires WaitsSettled(c, cr, floor, s, due)
    ensures var t := NextCheck(c, cr, s);
            if t.clock >= due then FiresFor(c, cr, t, due) else WaitsSettled(c, cr, floor, t, due)
  {
    var t := NextCheck(c, cr, s);
    NextCheckFollows(c, cr, floor, s, due);
    NextCheckFiresWhenDue(c, cr, floor, s, t, due);
    if t.clock < due { StaysSettled(c, cr, floor, s, t, due); }
  }

  lemma StaysSettled(c: Ctx, cr: CrView, floor: Instant, s: Server, t: Server, due: Instant)
    requires WaitsSettled(c, cr, floor, s, due) && Follows(c, cr, s, t) && Waits(c, cr, t, due)
    ensures WaitsSettled(c, cr, floor, t, due)
  {
    FollowingScan(c, cr, floor, s, t);
    DueStands(c, cr, floor, s, t, due);
    SecondReconcile(c, cr, floor, s, t);
    PatchedIsPlanned(c, cr, t.status, t);
  }

  lemma {:induction false} RequeuesCons(c: Ctx, cr: CrView, s: Server, rest: seq<Server>)
    requires Requeues(c, cr, rest) && rest != [] && IsNextCheck(c, cr, s, rest[0])
    ensures Requeues(c, cr, [s] + rest)
  {
    var walk := [s] + rest;
    forall i, k | 0 <= i && k == i + 1 && k < |walk| ensures IsNextCheck(c, cr, walk[i], walk[k]) {
      var j := i - 1;
      if i > 0 { assert IsNextCheck(c, cr, rest[j], rest[i]); }
    }
  }

  lemma {:induction false} WalksCons(c: Ctx, cr: CrView, s: Server, rest: seq<Server>, due: Instant)
    requires Walks(c, cr, rest, due) && StepsTo(c, cr, s, rest[0], due)
    ensures Walks(c, cr, [s] + rest, due)
  {
    var walk := [s] + rest;
    assert walk[|walk| - 1] == rest[|rest| - 1];
    forall i, k | 0 <= i && k == i + 1 && k < |walk| ensures StepsTo(c, cr, walk[i], walk[k], due) {
      var j := i - 1;
      if i > 0 { assert StepsTo(c, cr, rest[j], rest[i], due); }
    }
  }

  /** A reconcile that waits, in a cluster that nothing else changes: the checks the operator asks for
      from there keep waiting for the same time until one reaches it, and that one fires, at the first
      check of the walk and so at most 240 s late. */
  lemma RequeuesFireOnTime(c: Ctx, cr: CrView, floor: Instant, s: Server, due: Instant)
    returns (walk: seq<Server>)
    requires WaitsSettled(c, cr, floor, s, due)
    ensures walk != [] && walk[0] == s && Requeues(c, cr, walk) && Walks(c, cr, walk, due)
    ensures walk[|walk| - 1].clock == FirstCheck(due, s.clock)
    ensures due <= walk[|walk| - 1].clock <= due + 240 * SECOND
  {
    walk := RequeueWalk(c, cr, floor, s, due);
    NextCheckFollows(c, cr, floor, s, due);
    WalkFiresOnTime(c, cr, walk, due);
  }

  lemma {:induction false} RequeueWalk(c: Ctx, cr: CrView, floor: Instant, s: Server, due: Instant)
    returns (walk: seq<Server>)
    requires WaitsSettled(c, cr, floor, s, due)
    ensures walk != [] && walk[0] == s && Requeues(c, cr, walk) && Walks(c, cr, walk, due)
    decreases due - s.clock
  {
    var t := NextCheck(c, cr, s);
    NextCheckFollows(c, cr, floor, s, due);
    NextCheckSettled(c, cr, floor, s, due);
    walk := [t];
    if t.clock < due { walk := RequeueWalk(c, cr, floor, t, due); }
    RequeuesCons(c, cr, s, walk);
    WalksCons(c, cr, s, walk, due);
    walk := [s] + walk;
  }
}
