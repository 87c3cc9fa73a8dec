/** A whole scan: Jobs are started for everything in scope, they succeed, and the next reconcile
    completes the scan and records the scope. */
module Cycle {
  import opened Basics
  import opened Rfc3339
  import opened Crd
  import opened JobName
  import opened ScanJob
  import opened Aggregator
  import opened Scheduler
  import opened Conditions
  import opened Cluster
  import opened Orchestrator
  import opened Reconcile
  import opened Deletes
  import opened Runs
  import opened Coverage

  /** The specification passes every gate before the API is called. */
  predicate Runnable(c: Ctx, cr: CrView) {
    && IsTargetValid(cr.spec.target) && ParseSchedule(c.lib, cr.spec.schedule).Ok?
    && cr.uid.GetOr("") != "" && Buildable(cr.spec)
  }

  lemma {:induction false} ListsEverything(c: Ctx, s: Server, namespaces: seq<string>, acc: seq<Pod>)
    requires Obliging(s.script)
    ensures var (s', r) := ListTargets(c, s, namespaces, acc);
            r.Ok? && Obliging(s'.script) && s' == s.(script := s'.script)
    decreases namespaces
  {
    if namespaces != [] {
      StillArrive(c, s);
      var (s1, answer) := ListPods(c, s);
      assert answer.Ok?;
      ListsEverything(c, s1, namespaces[1..], acc + answer.value);
    }
  }

  lemma {:induction false} ObligingCreates(c: Ctx, cr: CrView, s: Server, images: seq<string>, distinct: nat)
    requires Obliging(s.script) && AllBuild(c, cr, images)
    ensures var s' := CreateAll(c, cr, s, images, distinct).0;
            Obliging(s'.script) && s'.clock == s.clock && s'.status == s.status
    decreases images
  {
    if images != [] {
      StillArrive(c, s);
      var s1 := CreateJob(c, s, NameFor(c, images[0]), StampedJob(c, cr, images[0]).value).0;
      ObligingCreates(c, cr, s1, images[1..], distinct);
    }
  }

  lemma {:induction false} ObligingSpawns(c: Ctx, cr: CrView, s: Server, images: seq<string>, distinct: nat)
    requires Obliging(s.script) && AllBuild(c, cr, images)
    ensures CreateAll(c, cr, s, images, distinct).1 == Spawned(distinct)
    ensures CreateAll(c, cr, s, images, distinct).0.jobs == WithJobs(c, cr, s.jobs, images)
    decreases images
  {
    if images != [] {
      StillArrive(c, s);
      var (s1, answer) := CreateJob(c, s, NameFor(c, images[0]), StampedJob(c, cr, images[0]).value);
      assert s1.jobs == WithJob(c, cr, s.jobs, images[0]);
      ObligingSpawns(c, cr, s1, images[1..], distinct);
    }
  }

  lemma ObligingEnsureJobs(c: Ctx, cr: CrView, s: Server)
    requires Runnable(c, cr) && Obliging(s.script) && Scope(cr, s) != {}
    ensures var (s', result) := EnsureJobs(c, cr, s);
            var images := SortedKeys(Scope(cr, s));
            && AllBuild(c, cr, images) && result == Spawned(|images|)
            && s'.jobs == WithJobs(c, cr, s.jobs, images) && Obliging(s'.script)
            && s'.clock == s.clock && s'.status == s.status
  {
    ListsEverything(c, s, cr.spec.target.namespaces, []);
    ListedScope(c, s, cr.spec.target.namespaces);
    var (s1, listed) := ListTargets(c, s, cr.spec.target.namespaces, []);
    var images := SortedKeys(Scope(cr, s));
    ScopeAllBuilds(c, cr, s);
    ObligingSpawns(c, cr, s1, images, |images|);
    ObligingCreates(c, cr, s1, images, |images|);
  }

  /** Undisturbed, a reconcile starts the missing Jobs of its scope and lists what is then stored. */
  lemma ScanStartsScope(c: Ctx, cr: CrView, seen: Option<Status>, s: Server)
    requires Runnable(c, cr) && Obliging(s.script) && Scope(cr, s) != {}
    ensures var scan := Scan(c, cr, seen, s);
            var images := SortedKeys(Scope(cr, s));
            && AllBuild(c, cr, images) && scan.server.jobs == WithJobs(c, cr, s.jobs, images)
            && scan.status.Some? && scan.listed == Some(Listing(c, scan.server.jobs))
            && scan.server.clock == s.clock && scan.server.status == s.status && Obliging(scan.server.script)
  {
    ObligingEnsureJobs(c, cr, s);
    var (s1, orchestration) := EnsureJobs(c, cr, s);
    var base := DesiredStatus(c.lib, cr.spec, s.clock, seen);
    ObligingPass(c, cr, seen, StatusWithOrchestration(base, seen, orchestration, s.clock), s1, orchestration, s.clock);
  }

  lemma ObligingPass(c: Ctx, cr: CrView, seen: Option<Status>, scanning: Status, s: Server,
                     orchestration: Orchestration, now: Instant)
    requires Obliging(s.script)
    ensures var pass := AggregatePass(c, cr, seen, scanning, s, orchestration, now);
            && pass.status.Some? && pass.listed == Some(Listing(c, s.jobs))
            && pass.server == s.(script := TailCalls(s.script)) && Obliging(pass.server.script)
  {
    StillArrive(c, s);
  }

  /** The same Jobs, with other statuses. */
  ghost predicate Progressed(before: map<string, Job>, after: map<string, Job>) {
    before.Keys == after.Keys && forall n | n in before :: after[n] == before[n].(status := after[n].status)
  }

  ghost predicate AllSucceed(c: Ctx, jobs: map<string, Job>) {
    forall n | n in jobs && Owned(c.crName, jobs[n]) :: IsSucceeded(jobs[n]) && !IsFinallyFailed(jobs[n])
  }

  predicate Taken(c: Ctx, images: set<string>, jobs: map<string, Job>) {
    forall image | image in images :: NameFor(c, image) in jobs
  }

  /** With every image's Job stored and every owned Job succeeded, the reconcile starts nothing and
      ends in `Ready=True`, whatever status it read. */
  lemma SucceededScopeCompletes(c: Ctx, cr: CrView, seen: Option<Status>, floor: Instant, s: Server)
    requires Good(c, floor, s) && Runnable(c, cr) && Obliging(s.script) && Scope(cr, s) != {}
    requires Taken(c, Scope(cr, s), s.jobs) && AllSucceed(c, s.jobs)
    ensures var scan := Scan(c, cr, seen, s);
            scan.server.jobs == s.jobs && scan.status.Some? && ReasonOf(scan.status.value) == Some(ScanCompleted)
  {
    var images := SortedKeys(Scope(cr, s));
    ScanStartsScope(c, cr, seen, s);
    forall i | 0 <= i < |images| ensures NameFor(c, images[i]) in s.jobs {
      assert images[i] in images;
    }
    WithJobsAddsNothingIff(c, cr, s.jobs, images);
    ListingMembers(c, s.jobs);
    assert images[0] in images;
    ScopeIsClean(cr, s);
    NamedJobMatches(c, floor, s, images[0]);
    assert s.jobs[NameFor(c, images[0])] in Listing(c, s.jobs);
    CompletedMeansAllSucceeded(c, cr, seen, s);
  }

  /** One reconcile, the success of all its Jobs, and one more with the same pods: the scan is
      complete, and every image in scope is recorded, up to a clash of short hashes. */
  lemma ScanCycle(c: Ctx, cr: CrView, seen: Option<Status>, seen': Option<Status>, floor: Instant, s: Server,
                  t: Server, image: string)
    returns (r: string)
    requires Runnable(c, cr) && Obliging(s.script) && t.script == s.script && image in Scope(cr, s)
    requires Progressed(Scan(c, cr, seen, s).server.jobs, t.jobs) && Good(c, floor, t) && AllSucceed(c, t.jobs)
    ensures var scan := Scan(c, cr, seen', t);
            && scan.status.Some? && ReasonOf(scan.status.value) == Some(ScanCompleted)
            && HasRecord(scan.status.value.scannedImages, r)
    ensures ShortImageHash(c.lib.digest, r) == ShortImageHash(c.lib.digest, image)
  {
    CycleTakesNames(c, cr, seen, s, t);
    SucceededScopeCompletes(c, cr, seen', floor, t);
    r := ObligingCovers(c, cr, seen', floor, t, image);
  }

  lemma CycleTakesNames(c: Ctx, cr: CrView, seen: Option<Status>, s: Server, t: Server)
    requires Runnable(c, cr) && Obliging(s.script) && t.script == s.script && Scope(cr, s) != {}
    requires Progressed(Scan(c, cr, seen, s).server.jobs, t.jobs)
    ensures Scope(cr, t) == Scope(cr, s) && Taken(c, Scope(cr, t), t.jobs)
  {
    ScanTakesNames(c, cr, seen, s);
    TakenByNames(c, Scope(cr, s), Scan(c, cr, seen, s).server.jobs, t.jobs);
  }

  lemma ScanTakesNames(c: Ctx, cr: CrView, seen: Option<Status>, s: Server)
    requires Runnable(c, cr) && Obliging(s.script) && Scope(cr, s) != {}
    ensures Taken(c, Scope(cr, s), Scan(c, cr, seen, s).server.jobs)
  {
    ScanStartsScope(c, cr, seen, s);
    StartedNames(c, cr, s.jobs, Scope(cr, s));
  }

  lemma TakenByNames(c: Ctx, images: set<string>, jobs: map<string, Job>, jobs': map<string, Job>)
    requires Taken(c, images, jobs) && jobs.Keys == jobs'.Keys
    ensures Taken(c, images, jobs')
  {
    assert forall n :: n in jobs <==> n in jobs.Keys;
  }

  lemma ObligingCovers(c: Ctx, cr: CrView, seen: Option<Status>, floor: Instant, s: Server, image: string)
    returns (r: string)
    requires Good(c, floor, s) && Obliging(s.script) && image in Scope(cr, s) && Scan(c, cr, seen, s).status.Some?
    requires ReasonOf(Scan(c, cr, seen, s).status.value) == Some(ScanCompleted)
    ensures HasRecord(Scan(c, cr, seen, s).status.value.scannedImages, r)
    ensures ShortImageHash(c.lib.digest, r) == ShortImageHash(c.lib.digest, image)
  {
    NothingRemoved(c, s.script, |cr.spec.target.namespaces|, SortedKeys(Scope(cr, s)), image);
    var record := ReadyCoversScope(c, cr, seen, floor, s, image);
    r := record.imageRef;
    var images := Scan(c, cr, seen, s).status.value.scannedImages;
    var i :| 0 <= i < |images| && images[i] == record;
  }

  lemma NothingRemoved(c: Ctx, script: seq<Call>, n: nat, images: seq<string>, image: string)
    requires Still(script)
    ensures KeptUntilListed(c, DropCalls(script, n), images, image)
  {
    DropIsStill(script, n);
  }

  lemma {:induction false} DropIsStill(script: seq<Call>, n: nat)
    requires Still(script)
    ensures Still(DropCalls(script, n))
  {
    if n > 0 { DropIsStill(TailCalls(script), n - 1); }
  }

  lemma {:induction false} StartedNames(c: Ctx, cr: CrView, jobs: map<string, Job>, images: set<string>)
    requires AllBuild(c, cr, SortedKeys(images))
    ensures Taken(c, images, WithJobs(c, cr, jobs, SortedKeys(images)))
  {
    var sorted := SortedKeys(images);
    forall image | image in images ensures NameFor(c, image) in WithJobs(c, cr, jobs, sorted) {
      assert image in sorted;
      var i :| 0 <= i < |sorted| && sorted[i] == image;
      assert Names(c, sorted, i, NameFor(c, image));
      WithJobsExactly(c, cr, jobs, sorted, NameFor(c, image));
    }
  }

  // ---------------------------------------------------------------------------------------------
  // The whole effect of an undisturbed reconcile.
  // ---------------------------------------------------------------------------------------------

  lemma UndisturbedStage(c: Ctx, cr: CrView, floor: Instant, s: Server, status: Status, now: Instant)
    requires Good(c, floor, s) && Obliging(s.script)
    ensures var pass := FireStage(c, cr, s, status, now);
            && pass.status.Some? && (pass.fire.Some? ==> pass.fire.value.completed)
            && pass.server.jobs == (if pass.fire.Some? then Marked(c, s.jobs) else s.jobs)
            && pass.server.clock == s.clock && pass.server.status == s.status && Obliging(pass.server.script)
  {
    if FireStage(c, cr, s, status, now).fire.Some? {
      var planned, blank := StageRuns(c, cr, s, status, now);
      FireMarksExactly(c, floor, s, planned, blank);
    }
  }

  lemma UndisturbedPatch(c: Ctx, s: Server, status: Status)
    requires Obliging(s.script)
    ensures PatchStatus(c, s, status)
              == (s.(script := TailCalls(s.script), status := Some(MergePatch(s.status, status))), None)
  {
    StillArrive(c, s);
  }

  /** What the store holds after an undisturbed reconcile. */
  function StoreAfter(c: Ctx, cr: CrView, s: Server, images: seq<string>, fired: bool): map<string, Job>
    requires AllBuild(c, cr, images)
  {
    if fired then Marked(c, WithJobs(c, cr, s.jobs, images)) else WithJobs(c, cr, s.jobs, images)
  }

  /** An undisturbed reconcile of a valid specification starts the missing Jobs of its scope; if it
      fires, it marks exactly the terminal owned Jobs, and its fire completes; it patches its status
      and is requeued.  Nothing else changes. */
  lemma UndisturbedReconcile(c: Ctx, cr: CrView, seen: Option<Status>, floor: Instant, s: Server)
    requires Good(c, floor, s) && Runnable(c, cr) && Obliging(s.script) && Scope(cr, s) != {}
    ensures var r := ReconcileOnce(c, cr, seen, s);
            var images := SortedKeys(Scope(cr, s));
            && AllBuild(c, cr, images)
            && r.server.jobs == StoreAfter(c, cr, s, images, r.fire.Some?)
            && r.server.clock == s.clock
            && (r.fire.Some? ==> r.fire.value.completed)
            && r.requeue.Some? && r.patched.Some?
            && r.server.status == Some(MergePatch(s.status, r.patched.value))
  {
    ScanStartsScope(c, cr, seen, s);
    ScanKeepsGood(c, cr, seen, floor, s);
    var scan := Scan(c, cr, seen, s);
    UndisturbedStage(c, cr, floor, scan.server, scan.status.value, s.clock);
    var firing := FireStage(c, cr, scan.server, scan.status.value, s.clock);
    UndisturbedPatch(c, firing.server, firing.status.value);
    assert NextCall(firing.server).failure.None?;
  }
}
