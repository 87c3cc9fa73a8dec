/** How far apart schedule fires are. */
module Spacing {
  import opened Basics
  import opened Rfc3339
  import opened Crd
  import opened ScanJob
  import opened Aggregator
  import opened Scheduler
  import opened Conditions
  import opened Cluster
  import opened Orchestrator
  import opened Reconcile
  import opened Deletes
  import opened Runs
  import opened Coverage

  // ---------------------------------------------------------------------------------------------
  // One fire.
  // ---------------------------------------------------------------------------------------------

  /** A scan that completes moves the anchor to the completion of every live Job it listed, or past
      it; a Job without a completion time counts as completing at the listing. */
  lemma AnchorDominatesLiveJobs(c: Ctx, cr: CrView, seen: Option<Status>, floor: Instant, s: Server, name: string)
    requires Good(c, floor, s) && Scan(c, cr, seen, s).status.Some?
    requires ReasonOf(Scan(c, cr, seen, s).status.value) == Some(ScanCompleted)
    requires Live(c, Scan(c, cr, seen, s).server, name)
    ensures var last := Scan(c, cr, seen, s).status.value.lastScanCompletedAt;
            last.Some? && last.value >= FloorSecond(floor)
  {
    var scan := Scan(c, cr, seen, s);
    CompletedScan(c, cr, seen, s);
    ScanKeepsGood(c, cr, seen, floor, s);
    ListingMembers(c, scan.server.jobs);
    assert scan.server.jobs[name] in scan.listed.value;
    LiveRecordIsFresh(c, cr.spec, floor, scan.server, name);
    var record := ScannedImageOf(scan.server.jobs[name], cr.spec, scan.server.clock).value;
    ScannedMembership(scan.listed.value, cr.spec, scan.server.clock, record);
    LatestReaches(LastCompleted(seen),
                  ScannedImagesOf(scan.listed.value, cr.spec, scan.server.clock), record);
  }

  lemma LatestReaches(acc: Option<Instant>, scanned: seq<ScannedImage>, record: ScannedImage)
    requires record in scanned
    ensures Latest(acc, scanned).Some? && Latest(acc, scanned).value >= record.completedAt
  {
    LatestIsLatest(acc, scanned);
    var i :| 0 <= i < |scanned| && scanned[i] == record;
  }

  /** The scan listed a Job that was not being deleted.  A Job under foreground deletion stays listed
      until its pods are gone, so a scan that sees no other Job sees the previous generation. */
  ghost predicate SawLive(f: Firing) {
    exists j | j in f.listed :: !j.deleting
  }

  /** A fire of a completed scan that saw a live Job is not earlier than the next time its own schedule
      and jitter name, counted from the whole second of `since`. */
  ghost predicate SpacedFrom(f: Firing, since: Instant) {
    f.fire.reason == ScanCompleted && SawLive(f) ==>
      f.fire.at >= NextScheduledTime(f.fire.schedule, FloorSecond(since), f.fire.jitter)
  }

  lemma FireIsSpaced(c: Ctx, floor: Instant, s: Server, m: Move)
    requires Good(c, floor, s) && FireOf(c, s, m).Some?
    ensures SpacedFrom(FireOf(c, s, m).value, floor)
  {
    var f := FireOf(c, s, m).value;
    if f.fire.reason == ScanCompleted && SawLive(f) {
      var seen, s0 := Seen(m.cache, s), s.(script := m.script);
      FireIsRecorded(c, m.cr, seen, s0);
      CompletedScan(c, m.cr, seen, s0);
      ListedLive(c, m.cr, seen, floor, s0);
      ParsedSchedule(c.lib, m.cr.spec.schedule);
      var status := Scan(c, m.cr, seen, s0).status.value;
      NextIsMonotone(f.fire.schedule, FloorSecond(floor), Anchor(m.cr, status, s.clock), f.fire.jitter);
    }
  }

  lemma ListedLive(c: Ctx, cr: CrView, seen: Option<Status>, floor: Instant, s: Server)
    requires Good(c, floor, s) && Scan(c, cr, seen, s).status.Some?
    requires ReasonOf(Scan(c, cr, seen, s).status.value) == Some(ScanCompleted)
    requires Scan(c, cr, seen, s).listed.Some? && exists j | j in Scan(c, cr, seen, s).listed.value :: !j.deleting
    ensures var last := Scan(c, cr, seen, s).status.value.lastScanCompletedAt;
            last.Some? && last.value >= FloorSecond(floor)
  {
    var scan := Scan(c, cr, seen, s);
    CompletedScan(c, cr, seen, s);
    var j :| j in scan.listed.value && !j.deleting;
    ListingMembers(c, scan.server.jobs);
    var n :| n in scan.server.jobs && Owned(c.crName, scan.server.jobs[n]) && scan.server.jobs[n] == j;
    AnchorDominatesLiveJobs(c, cr, seen, floor, s, n);
  }

  /** In particular a fire is spaced when it marks a Job that was not being deleted yet: that Job was
      live when the scan listed it. */
  lemma NewDeletionSawLive(c: Ctx, floor: Instant, s: Server, m: Move)
    requires Good(c, floor, s) && FireOf(c, s, m).Some? && FireOf(c, s, m).value.fire.reason == ScanCompleted
    requires exists d | d in FireOf(c, s, m).value.fire.log :: !d.job.deleting
    ensures SawLive(FireOf(c, s, m).value)
  {
    var f, seen, s0 := FireOf(c, s, m).value, Seen(m.cache, s), s.(script := m.script);
    var d :| d in f.fire.log && !d.job.deleting;
    FireIsRecorded(c, m.cr, seen, s0);
    FireComesFromStage(c, m.cr, seen, s0);
    CompletedScan(c, m.cr, seen, s0);
    ScanKeepsGood(c, m.cr, seen, floor, s0);
    var scan := Scan(c, m.cr, seen, s0);
    var planned, blank := StageRuns(c, m.cr, scan.server, scan.status.value, s.clock);
    DeletedWasLive(c, floor, scan.server, planned, blank, d);
    ListingMembers(c, scan.server.jobs);
    assert scan.server.jobs[d.name] in f.listed;
  }

  lemma DeletedWasLive(c: Ctx, floor: Instant, s: Server, planned: Status, blank: Fire, d: Deletion)
    requires Good(c, floor, s) && blank.log == []
    requires d in RunFire(c, s, planned, blank).fire.value.log && !d.job.deleting
    ensures Live(c, s, d.name)
  {
    ArriveKeepsGood(c, floor, s);
    ArriveAddsNone(c, s);
    var s1 := Arrive(c, s);
    FreshSnapshotHolds(c, floor, s1);
    CleanupLogWasLive(c, floor, s1, Listing(c, s1.jobs));
  }

  lemma FireRaisesFloor(c: Ctx, cr: CrView, seen: Option<Status>, floor: Instant, s: Server)
    requires Good(c, floor, s)
    requires ReconcileOnce(c, cr, seen, s).fire.Some? && ReconcileOnce(c, cr, seen, s).fire.value.completed
    ensures Good(c, s.clock, ReconcileOnce(c, cr, seen, s).server)
  {
    var scan := Scan(c, cr, seen, s);
    ScanKeepsGood(c, cr, seen, floor, s);
    var planned, blank := StageRuns(c, cr, scan.server, scan.status.value, s.clock);
    CompletedFireRaisesFloor(c, floor, scan.server, planned, blank);
    var firing := RunFire(c, scan.server, planned, blank);
    PatchKeepsGood(c, s.clock, firing.server, planned);
  }

  // ---------------------------------------------------------------------------------------------
  // Fire spacing over runs.
  // ---------------------------------------------------------------------------------------------

  lemma {:induction false} LaterFiresAreSpaced(c: Ctx, floor: Instant, s: Server, moves: seq<Move>)
    requires Good(c, floor, s)
    ensures forall f | f in Fires(c, s, moves) :: SpacedFrom(f, floor)
    decreases moves
  {
    if moves != [] {
      var m := moves[0];
      StepKeepsGood(c, floor, s, m);
      LaterFiresAreSpaced(c, floor, Step(c, s, m), moves[1..]);
      FiresCons(c, s, moves);
      if FireOf(c, s, m).Some? { FireIsSpaced(c, floor, s, m); }
    }
  }

  /** Catching up after an outage: the first reconcile to find the schedule due fires, and when that
      fire completes, no completed scan later in the run that sees a live Job fires again for the
      windows missed. */
  lemma OneCatchUp(c: Ctx, floor: Instant, s: Server, m: Move, moves: seq<Move>)
    requires Good(c, floor, s) && FireOf(c, s, m).Some? && FireOf(c, s, m).value.fire.completed
    ensures FireOf(c, s, m).value.fire.at == s.clock
    ensures forall f | f in Fires(c, Step(c, s, m), moves) :: SpacedFrom(f, s.clock)
  {
    var s0 := s.(script := m.script);
    FireIsRecorded(c, m.cr, Seen(m.cache, s), s0);
    FireRaisesFloor(c, m.cr, Seen(m.cache, s), floor, s0);
    LaterFiresAreSpaced(c, s.clock, Step(c, s, m), moves);
  }

  /** Once a fire has completed, every later fire is spaced from it. */
  ghost predicate AllSpaced(fires: seq<Firing>) {
    forall i, j | 0 <= i < j < |fires| && fires[i].fire.completed :: SpacedFrom(fires[j], fires[i].fire.at)
  }

  /** Fire spacing, in every run: any interleaving, any failures, any stale caches. */
  lemma {:induction false} FireSpacing(c: Ctx, floor: Instant, s: Server, moves: seq<Move>)
    requires Good(c, floor, s)
    ensures AllSpaced(Fires(c, s, moves))
    decreases moves
  {
    if moves != [] {
      var s1, rest := Step(c, s, moves[0]), moves[1..];
      var fires, later := Fires(c, s, moves), Fires(c, s1, rest);
      StepKeepsGood(c, floor, s, moves[0]);
      FireSpacing(c, floor, s1, rest);
      FiresCons(c, s, moves);
      if fires != later {
        if fires[0].fire.completed { OneCatchUp(c, floor, s, moves[0], rest); }
        SpacedCons(fires[0], later);
      }
    }
  }

  lemma {:induction false} SpacedCons(first: Firing, later: seq<Firing>)
    requires AllSpaced(later) && (first.fire.completed ==> forall f | f in later :: SpacedFrom(f, first.fire.at))
    ensures AllSpaced([first] + later)
  {
    var fires := [first] + later;
    forall i, j | 0 <= i < j < |fires| && fires[i].fire.completed ensures SpacedFrom(fires[j], fires[i].fire.at) {
      assert fires[j] == later[j - 1];
      if i > 0 { assert fires[i] == later[i - 1]; }
    }
  }

  /** How much the whole-second completion times cost: for an interval schedule the guaranteed gap
      is the full interval and jitter exactly when the first fire falls on a whole second, and is
      always short of it by less than a second. */
  lemma GuaranteedGap(duration: int, jitter: int, at: Instant)
    ensures var bound := NextScheduledTime(Interval(duration), FloorSecond(at), jitter);
            && at + duration + jitter - SECOND < bound <= at + duration + jitter
            && (bound == at + duration + jitter <==> at % SECOND == 0)
  {
  }

  /** Fires chosen from a run, all completed, of completed scans that saw a live Job, under one
      interval and jitter. */
  ghost predicate Eligible(f: Firing, duration: int, jitter: int) {
    && f.fire.completed && f.fire.reason == ScanCompleted && SawLive(f)
    && f.fire.schedule == Interval(duration) && f.fire.jitter == jitter
  }

  ghost predicate Selected(fires: seq<Firing>, idx: seq<nat>, duration: int, jitter: int) {
    && (forall a, b | 0 <= a < b < |idx| :: idx[a] < idx[b])
    && forall a | 0 <= a < |idx| :: idx[a] < |fires| && Eligible(fires[idx[a]], duration, jitter)
  }

  /** `n` such fires span at least `n - 1` intervals, so a window of length L holds at most
      1 + L / (interval + jitter) of them, both counted in whole seconds. */
  lemma {:induction false} FiresFitWindow(c: Ctx, floor: Instant, s: Server, moves: seq<Move>, idx: seq<nat>,
                                          duration: int, jitter: int)
    requires Good(c, floor, s) && idx != [] && Selected(Fires(c, s, moves), idx, duration, jitter)
    ensures var fires := Fires(c, s, moves);
            (|idx| - 1) * FloorSecond(duration + jitter)
              <= FloorSecond(fires[idx[|idx| - 1]].fire.at) - FloorSecond(fires[idx[0]].fire.at)
    decreases |idx|
  {
    if |idx| > 1 {
      var n, x := |idx| - 1, FloorSecond(duration + jitter);
      SelectedPrefix(Fires(c, s, moves), idx, duration, jitter);
      FiresFitWindow(c, floor, s, moves, idx[..n], duration, jitter);
      var fires := Fires(c, s, moves);
      FireSpacing(c, floor, s, moves);
      EligibleApart(fires[idx[n - 1]], fires[idx[n]], duration, jitter);
      assert idx[..n][|idx[..n]| - 1] == idx[n - 1] && idx[..n][0] == idx[0];
      OneMore(n, x);
    }
  }

  lemma {:induction false} SelectedPrefix(fires: seq<Firing>, idx: seq<nat>, duration: int, jitter: int)
    requires Selected(fires, idx, duration, jitter) && idx != []
    ensures Selected(fires, idx[..|idx| - 1], duration, jitter)
  {
    var init := idx[..|idx| - 1];
    assert forall a | 0 <= a < |init| :: init[a] == idx[a];
  }

  lemma EligibleApart(f: Firing, g: Firing, duration: int, jitter: int)
    requires Eligible(f, duration, jitter) && Eligible(g, duration, jitter) && SpacedFrom(g, f.fire.at)
    ensures FloorSecond(g.fire.at) >= FloorSecond(f.fire.at) + FloorSecond(duration + jitter)
  {
    FloorsAdd(f.fire.at, duration + jitter, g.fire.at);
  }

  lemma FloorsAdd(a: Instant, d: int, b: Instant)
    requires b >= FloorSecond(a) + d
    ensures FloorSecond(b) >= FloorSecond(a) + FloorSecond(d)
  {
  }

  lemma OneMore(n: int, x: int)
    ensures n * x == (n - 1) * x + x
  {
  }

  // ---------------------------------------------------------------------------------------------
  // Failed scans are not spaced.
  // ---------------------------------------------------------------------------------------------

  /** A failed scan does not move the anchor. */
  lemma FailedScanKeepsAnchor(c: Ctx, cr: CrView, seen: Option<Status>, s: Server)
    requires Scan(c, cr, seen, s).status.Some? && ReasonOf(Scan(c, cr, seen, s).status.value) == Some(ScanFailed)
    ensures Scan(c, cr, seen, s).status.value.lastScanCompletedAt
              == LastCompleted(seen)
  {
  }

  /** So once the schedule is due, every reconcile that ends in `ScanFailed` fires, at whatever
      distance from the previous fire: the spacing of `FireSpacing` holds for completed scans
      only. */
  lemma FailedScansFireEveryTime(c: Ctx, cr: CrView, seen: Option<Status>, s: Server, seen': Option<Status>, s': Server)
    requires ReconcileOnce(c, cr, seen, s).fire.Some? && ReconcileOnce(c, cr, seen, s).fire.value.reason == ScanFailed
    requires seen'.Some?
    requires seen'.value.lastScanCompletedAt == LastCompleted(seen)
    requires Scan(c, cr, seen', s').status.Some? && ReasonOf(Scan(c, cr, seen', s').status.value) == Some(ScanFailed)
    requires s'.clock >= s.clock
    ensures ReconcileOnce(c, cr, seen', s').fire.Some?
  {
    FireIsRecorded(c, cr, seen, s);
    FailedScanKeepsAnchor(c, cr, seen, s);
    FailedScanKeepsAnchor(c, cr, seen', s');
    FireComesFromStage(c, cr, seen, s);
    var scan, scan' := Scan(c, cr, seen, s), Scan(c, cr, seen', s');
    StageFiresAgain(c, cr, scan.server, scan.status.value, s.clock, scan'.server, scan'.status.value, s'.clock);
    FiresExactlyWhenDue(c, cr, seen', s');
  }

  // ---------------------------------------------------------------------------------------------
  // When a completed scan fires again.
  // ---------------------------------------------------------------------------------------------

  /** A completed scan fires exactly when the next time has come that the schedule names after the
      later of the anchor it read and the completions it listed. */
  lemma CompletedScanFiresExactly(c: Ctx, cr: CrView, seen: Option<Status>, s: Server)
    requires Scan(c, cr, seen, s).status.Some?
    requires ReasonOf(Scan(c, cr, seen, s).status.value) == Some(ScanCompleted)
    ensures var scan := Scan(c, cr, seen, s);
            var last := scan.status.value.lastScanCompletedAt;
            && scan.listed.Some?
            && IsLatest(LastCompleted(seen),
                        ScannedImagesOf(scan.listed.value, cr.spec, scan.server.clock), last)
            && ParseSchedule(c.lib, cr.spec.schedule).Ok?
            && (ReconcileOnce(c, cr, seen, s).fire.Some? <==>
                  s.clock >= NextScheduledTime(ParseSchedule(c.lib, cr.spec.schedule).value,
                                               last.GetOr(cr.creation.GetOr(s.clock)), Jitter(c, cr)))
  {
    CompletedScan(c, cr, seen, s);
    TerminalMeansParsed(c, cr, seen, s);
    FiresExactlyWhenDue(c, cr, seen, s);
    var scan := Scan(c, cr, seen, s);
    LatestIsLatest(LastCompleted(seen),
                   ScannedImagesOf(scan.listed.value, cr.spec, scan.server.clock));
  }

  /** No Job in the list counts as completing later than `last`. */
  predicate NoneLater(jobs: seq<Job>, last: Instant, clock: Instant) {
    forall j | j in jobs :: CompletionOf(j.status).GetOr(clock) <= last
  }

  /** The converse of fire spacing.  After a fire, a completed scan that reads the anchor of that fire
      and lists no later completion, as when it lists only Jobs still being deleted, fires again. */
  lemma UnmovedAnchorFiresAgain(c: Ctx, cr: CrView, seen: Option<Status>, s: Server, seen': Option<Status>, s': Server)
    requires ReconcileOnce(c, cr, seen, s).fire.Some? && s.clock <= s'.clock && seen'.Some?
    requires Scan(c, cr, seen, s).status.Some?
             && seen'.value.lastScanCompletedAt == Scan(c, cr, seen, s).status.value.lastScanCompletedAt
             && seen'.value.lastScanCompletedAt.Some?
    requires Scan(c, cr, seen', s').status.Some? && Scan(c, cr, seen', s').listed.Some?
             && ReasonOf(Scan(c, cr, seen', s').status.value) == Some(ScanCompleted)
             && NoneLater(Scan(c, cr, seen', s').listed.value, seen'.value.lastScanCompletedAt.value,
                          Scan(c, cr, seen', s').server.clock)
    ensures ReconcileOnce(c, cr, seen', s').fire.Some?
  {
    FireComesFromStage(c, cr, seen, s);
    CompletedScan(c, cr, seen', s');
    var scan, scan' := Scan(c, cr, seen, s), Scan(c, cr, seen', s');
    NoneLaterKeepsLatest(seen'.value.lastScanCompletedAt, scan'.listed.value, cr.spec, scan'.server.clock);
    StageFiresAgain(c, cr, scan.server, scan.status.value, s.clock, scan'.server, scan'.status.value, s'.clock);
    FiresExactlyWhenDue(c, cr, seen', s');
  }

  lemma {:induction false} NoneLaterKeepsLatest(acc: Option<Instant>, jobs: seq<Job>, spec: Spec, clock: Instant)
    requires acc.Some? && NoneLater(jobs, acc.value, clock)
    ensures Latest(acc, ScannedImagesOf(jobs, spec, clock)) == acc
  {
    if jobs != [] {
      var rest := ScannedImagesOf(jobs[1..], spec, clock);
      assert jobs[0] in jobs;
      NoneLaterKeepsLatest(acc, jobs[1..], spec, clock);
      match ScannedImageOf(jobs[0], spec, clock)
      case None => assert [] + rest == rest;
      case Some(record) => assert ([record] + rest)[1..] == rest;
    }
  }

  lemma StageFiresAgain(c: Ctx, cr: CrView, s: Server, status: Status, now: Instant, s': Server, status': Status,
                        now': Instant)
    requires FireStage(c, cr, s, status, now).fire.Some? && now <= now'
    requires status'.lastScanCompletedAt == status.lastScanCompletedAt && IsTerminalReason(ReasonOf(status'))
    ensures NextScheduled(c, cr, status', now').Some? && now' >= NextScheduled(c, cr, status', now').value
  {
    StageIsRecorded(c, cr, s, status, now);
    ParsedSchedule(c.lib, cr.spec.schedule);
    if cr.creation.None? && status.lastScanCompletedAt.None? {
      NextIsMonotone(ParseSchedule(c.lib, cr.spec.schedule).value, now, now, Jitter(c, cr));
    }
  }
}
