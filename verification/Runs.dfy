/** Runs of the control loop: the invariant of every run, and when its reconciles fire. */
module Runs {
  import opened Basics
  import opened Rfc3339
  import opened Crd
  import opened JobName
  import opened ScanJob
  import opened Aggregator
  import opened Scheduler
  import opened Conditions
  import opened Cluster
  import opened Orchestrator
  import opened Reconcile
  import opened Deletes

  // ---------------------------------------------------------------------------------------------
  // Runs.
  // ---------------------------------------------------------------------------------------------

  /** The status a reconcile reads: the stored one, or whatever a lagging cache holds. */
  datatype Cache = Fresh | Stale(seen: Option<Status>)

  /** The cluster moves, or the operator reconciles the CR as it then is, with a script for the API
      calls it will make. */
  datatype Move = Environment(event: Event) | Reconciles(cr: CrView, cache: Cache, script: seq<Call>)

  function Seen(cache: Cache, s: Server): Option<Status> {
    match cache case Fresh => s.status case Stale(seen) => seen
  }

  function Pass(c: Ctx, s: Server, m: Move): Reconciled
    requires m.Reconciles?
  {
    ReconcileOnce(c, m.cr, Seen(m.cache, s), s.(script := m.script))
  }

  function Step(c: Ctx, s: Server, m: Move): Server {
    match m
    case Environment(e) => ApplyEvent(c, s, e)
    case Reconciles(_, _, _) => Pass(c, s, m).server.(script := [])
  }

  function Run(c: Ctx, s: Server, moves: seq<Move>): Server
    decreases moves
  {
    if moves == [] then s else Run(c, Step(c, s, moves[0]), moves[1..])
  }

  /** A fire, with the Jobs that the scan of the same reconcile listed. */
  datatype Firing = Firing(fire: Fire, listed: seq<Job>)

  function ScanOf(c: Ctx, s: Server, m: Move): ScanPass
    requires m.Reconciles?
  {
    Scan(c, m.cr, Seen(m.cache, s), s.(script := m.script))
  }

  function FireOf(c: Ctx, s: Server, m: Move): Option<Firing> {
    if m.Reconciles? && Pass(c, s, m).fire.Some?
    then Some(Firing(Pass(c, s, m).fire.value, ScanOf(c, s, m).listed.GetOr([]))) else None
  }

  /** The fires of a run, in order. */
  function Fires(c: Ctx, s: Server, moves: seq<Move>): seq<Firing>
    decreases moves
  {
    if moves == [] then []
    else
      (match FireOf(c, s, moves[0]) case Some(f) => [f] case None => [])
      + Fires(c, Step(c, s, moves[0]), moves[1..])
  }

  lemma StepKeepsGood(c: Ctx, since: Instant, s: Server, m: Move)
    requires Good(c, since, s)
    ensures Good(c, since, Step(c, s, m)) && Step(c, s, m).clock >= s.clock
  {
    match m
    case Environment(e) => EventKeepsGood(c, since, s, e);
    case Reconciles(cr, cache, script) =>
      ReconcileKeepsGood(c, cr, Seen(cache, s), since, s.(script := script));
  }

  /** The store invariant in every reachable state: every owned Job was built by this operator for
      the image in its IMAGE_REF, under the name and hash label that image calls for. */
  lemma {:induction false} RunKeepsGood(c: Ctx, since: Instant, s: Server, moves: seq<Move>)
    requires Good(c, since, s)
    ensures Good(c, since, Run(c, s, moves)) && Run(c, s, moves).clock >= s.clock
    decreases moves
  {
    if moves != [] {
      StepKeepsGood(c, since, s, moves[0]);
      RunKeepsGood(c, since, Step(c, s, moves[0]), moves[1..]);
    }
  }

  /** Read off the invariant: within a run, an owned Job's name determines the image up to the
      short hash. */
  lemma OwnedNamesDetermineHashes(c: Ctx, since: Instant, s: Server, moves: seq<Move>, m: string, n: string)
    requires Good(c, since, s)
    requires var jobs := Run(c, s, moves).jobs;
             m in jobs && Owned(c.crName, jobs[m]) && n in jobs && Owned(c.crName, jobs[n])
    ensures var jobs := Run(c, s, moves).jobs;
            && ImageRefOf(jobs[m]).Some? && ImageRefOf(jobs[n]).Some?
            && HashLabelOf(jobs[m]) == Some(ShortImageHash(c.lib.digest, ImageRefOf(jobs[m]).value))
            && m == NameFor(c, ImageRefOf(jobs[m]).value)
            && (m == n <==> ShortImageHash(c.lib.digest, ImageRefOf(jobs[m]).value)
                            == ShortImageHash(c.lib.digest, ImageRefOf(jobs[n]).value))
  {
    RunKeepsGood(c, since, s, moves);
    var jobs := Run(c, s, moves).jobs;
    assert GoodJob(c, since, m, jobs[m]) && GoodJob(c, since, n, jobs[n]);
    var hm := ShortImageHash(c.lib.digest, ImageRefOf(jobs[m]).value);
    var hn := ShortImageHash(c.lib.digest, ImageRefOf(jobs[n]).value);
    ShortHashShape(c.lib.digest, ImageRefOf(jobs[m]).value);
    ShortHashShape(c.lib.digest, ImageRefOf(jobs[n]).value);
    NamesCoincide(c.crName, hm, c.crName, hn);
  }

  // ---------------------------------------------------------------------------------------------
  // When a reconcile fires.
  // ---------------------------------------------------------------------------------------------

  /** A reconcile attempts a fire exactly when its scan ends in a terminal state, the schedule
      parses and the next time, counted from the anchor, has come: once, however many scheduled
      times have passed. */
  lemma FiresExactlyWhenDue(c: Ctx, cr: CrView, seen: Option<Status>, s: Server)
    ensures var scan := Scan(c, cr, seen, s);
            ReconcileOnce(c, cr, seen, s).fire.Some? <==>
              && scan.status.Some? && IsTerminalReason(ReasonOf(scan.status.value))
              && NextScheduled(c, cr, scan.status.value, s.clock).Some?
              && s.clock >= NextScheduled(c, cr, scan.status.value, s.clock).value
  {
  }

  /** The fire records the instant, the schedule and the jitter it was decided with. */
  lemma FireIsRecorded(c: Ctx, cr: CrView, seen: Option<Status>, s: Server)
    requires ReconcileOnce(c, cr, seen, s).fire.Some?
    ensures var fire := ReconcileOnce(c, cr, seen, s).fire.value;
            var status := Scan(c, cr, seen, s).status.value;
            && fire.at == s.clock && fire.jitter == Jitter(c, cr)
            && ParseSchedule(c.lib, cr.spec.schedule) == Ok(fire.schedule)
            && ReasonOf(status) == Some(fire.reason)
            && s.clock >= NextScheduledTime(fire.schedule, Anchor(cr, status, s.clock), fire.jitter)
  {
    FireComesFromStage(c, cr, seen, s);
    var scan := Scan(c, cr, seen, s);
    StageIsRecorded(c, cr, scan.server, scan.status.value, s.clock);
  }

  lemma FireComesFromStage(c: Ctx, cr: CrView, seen: Option<Status>, s: Server)
    requires ReconcileOnce(c, cr, seen, s).fire.Some?
    ensures var scan := Scan(c, cr, seen, s);
            scan.status.Some? && ReconcileOnce(c, cr, seen, s).fire
                == FireStage(c, cr, scan.server, scan.status.value, s.clock).fire
  {
  }

  lemma StageIsRecorded(c: Ctx, cr: CrView, s: Server, status: Status, now: Instant)
    requires FireStage(c, cr, s, status, now).fire.Some?
    ensures var fire := FireStage(c, cr, s, status, now).fire.value;
            && fire.at == now && fire.jitter == Jitter(c, cr)
            && ParseSchedule(c.lib, cr.spec.schedule) == Ok(fire.schedule)
            && ReasonOf(status) == Some(fire.reason)
            && now >= NextScheduledTime(fire.schedule, Anchor(cr, status, now), fire.jitter)
  {
  }

  /** A fire of the schedule stage is one run of `RunFire` on a blank record of the decision. */
  lemma StageRuns(c: Ctx, cr: CrView, s: Server, status: Status, now: Instant) returns (planned: Status, blank: Fire)
    requires FireStage(c, cr, s, status, now).fire.Some?
    ensures FireStage(c, cr, s, status, now) == RunFire(c, s, planned, blank)
    ensures blank.at == now && blank.log == [] && !blank.completed
  {
    planned := status.(nextScheduledScanAt := NextScheduled(c, cr, status, now));
    blank := Fire(now, ReasonOf(status).value, ParseSchedule(c.lib, cr.spec.schedule).value, Jitter(c, cr), [], false);
  }

  lemma {:induction false} FiresCons(c: Ctx, s: Server, moves: seq<Move>)
    requires moves != []
    ensures var fires, later := Fires(c, s, moves), Fires(c, Step(c, s, moves[0]), moves[1..]);
            fires == later || (fires != [] && FireOf(c, s, moves[0]) == Some(fires[0]) && fires == [fires[0]] + later)
  {
    var later := Fires(c, Step(c, s, moves[0]), moves[1..]);
    match FireOf(c, s, moves[0])
    case None => assert [] + later == later;
    case Some(f) =>
  }

  lemma {:induction false} FiresOf(c: Ctx, s: Server, m: Move, rest: seq<Move>)
    ensures Fires(c, s, [m] + rest)
              == (if FireOf(c, s, m).Some? then [FireOf(c, s, m).value] else []) + Fires(c, Step(c, s, m), rest)
  {
    assert ([m] + rest)[1..] == rest;
  }

  // ---------------------------------------------------------------------------------------------
  // Deletes are safe in every run.
  // ---------------------------------------------------------------------------------------------

  ghost predicate SafeLog(log: seq<Deletion>) {
    DistinctNames(log) && forall d | d in log :: PodSucceeded(d.job) || ThreePodsFailed(d.job)
  }

  lemma ReconcileDeletesSafely(c: Ctx, cr: CrView, seen: Option<Status>, floor: Instant, s: Server)
    requires Good(c, floor, s) && ReconcileOnce(c, cr, seen, s).fire.Some?
    ensures SafeLog(ReconcileOnce(c, cr, seen, s).fire.value.log)
  {
    FireComesFromStage(c, cr, seen, s);
    ScanKeepsGood(c, cr, seen, floor, s);
    var scan := Scan(c, cr, seen, s);
    var planned, blank := StageRuns(c, cr, scan.server, scan.status.value, s.clock);
    FireDeletesByCounts(c, floor, scan.server, planned, blank);
    FireLogsDistinctNames(c, floor, scan.server, planned, blank);
  }

  /** In every run, with any interleaving of listings, deletes, progress and removals, and whether or not
      the replies arrive: every Job the operator deletes has a pod that succeeded or three that failed at
      that moment, and no fire deletes one twice. */
  lemma {:induction false} RunDeletesSafely(c: Ctx, floor: Instant, s: Server, moves: seq<Move>)
    requires Good(c, floor, s)
    ensures forall f | f in Fires(c, s, moves) :: SafeLog(f.fire.log)
    decreases moves
  {
    if moves != [] {
      var m := moves[0];
      StepKeepsGood(c, floor, s, m);
      RunDeletesSafely(c, floor, Step(c, s, m), moves[1..]);
      if FireOf(c, s, m).Some? {
        ReconcileDeletesSafely(c, m.cr, Seen(m.cache, s), floor, s.(script := m.script));
      }
      FiresCons(c, s, moves);
    }
  }

  // ---------------------------------------------------------------------------------------------
  // The advertised next scan.
  // ---------------------------------------------------------------------------------------------

  /** A status patched in a terminal scan state names a next scan, later than the last completion,
      or than the creation of the CR while nothing has completed yet. */
  lemma TerminalStatusPlansAhead(c: Ctx, cr: CrView, seen: Option<Status>, s: Server)
    requires ReconcileOnce(c, cr, seen, s).patched.Some?
    requires IsTerminalReason(ReasonOf(ReconcileOnce(c, cr, seen, s).patched.value))
    ensures var p := ReconcileOnce(c, cr, seen, s).patched.value;
            p.nextScheduledScanAt.Some? && p.nextScheduledScanAt.value > Anchor(cr, p, s.clock)
  {
    PatchedIsPlanned(c, cr, seen, s);
    var status := Scan(c, cr, seen, s).status.value;
    TerminalMeansParsed(c, cr, seen, s);
    AheadOfAnchor(c, cr, status, s.clock);
  }

  lemma AheadOfAnchor(c: Ctx, cr: CrView, status: Status, now: Instant)
    requires ParseSchedule(c.lib, cr.spec.schedule).Ok?
    ensures NextScheduled(c, cr, status, now).Some? && NextScheduled(c, cr, status, now).value > Anchor(cr, status, now)
  {
    var anchor := Anchor(cr, status, now);
    ParsedSchedule(c.lib, cr.spec.schedule);
    NextIsMonotone(ParseSchedule(c.lib, cr.spec.schedule).value, anchor, anchor, Jitter(c, cr));
  }

  lemma TerminalMeansParsed(c: Ctx, cr: CrView, seen: Option<Status>, s: Server)
    requires Scan(c, cr, seen, s).status.Some? && IsTerminalReason(ReasonOf(Scan(c, cr, seen, s).status.value))
    ensures ParseSchedule(c.lib, cr.spec.schedule).Ok? && IsTargetValid(cr.spec.target)
  {
  }

  /** `p` is `status` with the next scheduled time filled in, or kept where there is none. */
  predicate Planned(c: Ctx, cr: CrView, status: Status, now: Instant, p: Status) {
    && p == status.(nextScheduledScanAt := p.nextScheduledScanAt)
    && p.nextScheduledScanAt ==
         if IsTerminalReason(ReasonOf(status)) && ParseSchedule(c.lib, cr.spec.schedule).Ok?
         then NextScheduled(c, cr, status, now) else status.nextScheduledScanAt
  }

  /** What a reconcile patches is the scanned status with the next scheduled time. */
  lemma PatchedIsPlanned(c: Ctx, cr: CrView, seen: Option<Status>, s: Server)
    requires ReconcileOnce(c, cr, seen, s).patched.Some?
    ensures Scan(c, cr, seen, s).status.Some?
    ensures Planned(c, cr, Scan(c, cr, seen, s).status.value, s.clock, ReconcileOnce(c, cr, seen, s).patched.value)
  {
    PatchedComesFromStage(c, cr, seen, s);
    var scan := Scan(c, cr, seen, s);
    StagePlans(c, cr, scan.server, scan.status.value, s.clock);
  }

  lemma PatchedComesFromStage(c: Ctx, cr: CrView, seen: Option<Status>, s: Server)
    requires ReconcileOnce(c, cr, seen, s).patched.Some?
    ensures var scan := Scan(c, cr, seen, s);
            scan.status.Some?
            && ReconcileOnce(c, cr, seen, s).patched == FireStage(c, cr, scan.server, scan.status.value, s.clock).status
  {
  }

  lemma StagePlans(c: Ctx, cr: CrView, s: Server, status: Status, now: Instant)
    ensures var planned := FireStage(c, cr, s, status, now).status;
            planned.Some? ==> Planned(c, cr, status, now, planned.value)
  {
  }
}
