/** A rescan: what a fire leaves, and what the reconcile after it regenerates. */
module Rescan {
  import opened Basics
  import opened Rfc3339
  import opened Crd
  import opened JobName
  import opened ScanJob
  import opened Aggregator
  import opened Cluster
  import opened Orchestrator
  import opened Reconcile
  import opened Deletes
  import opened Runs
  import opened Cycle

  // ---------------------------------------------------------------------------------------------
  // What a fire leaves.
  // ---------------------------------------------------------------------------------------------

  /** A Job left live by a cleanup that ran to its end was live before it, and the snapshot did not
      show it as terminal. */
  lemma {:induction false} CleanupSparesOnlyInProgress(c: Ctx, s: Server, snapshot: seq<Job>, name: string)
    requires Cleanup(c, s, snapshot).2 && Live(c, Cleanup(c, s, snapshot).0, name)
    ensures Live(c, s, name)
    ensures forall j | j in snapshot && j.name == Some(name) :: !IsTerminal(j)
    decreases snapshot
  {
    if snapshot != [] {
      var head, rest := snapshot[0], snapshot[1..];
      if !Targets(head) {
        CleanupSparesOnlyInProgress(c, s, rest, name);
      } else {
        var deleted := head.name.value;
        var (s1, answer) := DeleteJob(c, s, deleted);
        DeleteAddsNone(c, s, deleted);
        CleanupSparesOnlyInProgress(c, s1, rest, name);
        if answer.Err? {
          NotFoundMeansAbsent(c, s, deleted);
        }
      }
    }
  }

  /** The Jobs a completed fire leaves live are Jobs its snapshot showed in progress, and only
      those: no terminal Job survives, in whatever state the scan was. */
  lemma SurvivorsWereInProgress(c: Ctx, floor: Instant, s: Server, planned: Status, fire: Fire, name: string)
    requires Good(c, floor, s) && !fire.completed && RunFire(c, s, planned, fire).fire.value.completed
    requires Live(c, RunFire(c, s, planned, fire).server, name)
    ensures Live(c, Arrive(c, s), name) && !IsTerminal(Arrive(c, s).jobs[name])
  {
    var (s1, owned) := ListOwned(c, s);
    ArriveKeepsGood(c, floor, s);
    CleanupSparesOnlyInProgress(c, s1, owned.value, name);
    ListingMembers(c, s1.jobs);
    OwnedJobIsNamed(c, floor, s1, name);
    assert s1.jobs[name] in owned.value;
  }

  lemma {:induction false} CleanupKeepsInProgress(c: Ctx, s: Server, snapshot: seq<Job>, name: string)
    requires Still(s.script) && Live(c, s, name)
    requires forall j | j in snapshot && j.name == Some(name) :: !IsTerminal(j)
    ensures Live(c, Cleanup(c, s, snapshot).0, name)
    decreases snapshot
  {
    if snapshot != [] {
      var head, rest := snapshot[0], snapshot[1..];
      assert head in snapshot;
      if !Targets(head) {
        CleanupKeepsInProgress(c, s, rest, name);
      } else {
        StillArrive(c, s);
        CleanupKeepsInProgress(c, DeleteJob(c, s, head.name.value).0, rest, name);
      }
    }
  }

  predicate InProgress(c: Ctx, s: Server, name: string) { Live(c, s, name) && !IsTerminal(s.jobs[name]) }

  /** While the cluster is still, a completed fire leaves live exactly the Jobs in progress. */
  lemma SurvivorsExactly(c: Ctx, floor: Instant, s: Server, planned: Status, fire: Fire, name: string)
    requires Good(c, floor, s) && Still(s.script)
    requires !fire.completed && RunFire(c, s, planned, fire).fire.value.completed
    ensures Live(c, RunFire(c, s, planned, fire).server, name) <==> InProgress(c, s, name)
  {
    StillArrive(c, s);
    if Live(c, RunFire(c, s, planned, fire).server, name) {
      SurvivorsWereInProgress(c, floor, s, planned, fire, name);
    }
    if InProgress(c, s, name) {
      var (s1, owned) := ListOwned(c, s);
      ListingMembers(c, s1.jobs);
      forall j | j in owned.value && j.name == Some(name) ensures !IsTerminal(j) {
        var n :| n in s.jobs && Owned(c.crName, s.jobs[n]) && s.jobs[n] == j;
        OwnedJobIsNamed(c, floor, s, n);
      }
      CleanupKeepsInProgress(c, s1, owned.value, name);
    }
  }

  /** The store once every foreground deletion has finished. */
  function Reaped(jobs: map<string, Job>): map<string, Job> {
    map n | n in jobs && !jobs[n].deleting :: jobs[n]
  }

  /** The Job under the name is the stamped Job of one of the images, just created. */
  predicate IsRegenerated(c: Ctx, cr: CrView, images: seq<string>, jobs: map<string, Job>, name: string) {
    name in jobs && exists k | 0 <= k < |images| ::
      NameFor(c, images[k]) == name && StampedJob(c, cr, images[k]) == Ok(jobs[name])
  }

  // ---------------------------------------------------------------------------------------------
  // What a reconcile regenerates.
  // ---------------------------------------------------------------------------------------------

  lemma MarkedKeepsNames(c: Ctx, jobs: map<string, Job>)
    ensures OwnedNames(c, Marked(c, jobs)) == OwnedNames(c, jobs)
    ensures forall n | n in jobs && !IsTerminal(jobs[n]) :: n in Marked(c, jobs) && Marked(c, jobs)[n] == jobs[n]
  {
    forall n ensures n in OwnedNames(c, Marked(c, jobs)) <==> n in OwnedNames(c, jobs) {
      if n in jobs { StatusKeepsIdentity(c, n, jobs[n], Marked(c, jobs)[n]); }
    }
  }

  /** In a store where every other Job stays off the claimed names, a name of an image in scope is
      owned or free. */
  lemma NameIsOwnedOrFree(c: Ctx, floor: Instant, s: Server, image: string)
    requires Good(c, floor, s) && NameFor(c, image) in s.jobs
    ensures NameFor(c, image) in OwnedNames(c, s.jobs)
  {
    assert GoodJob(c, floor, NameFor(c, image), s.jobs[NameFor(c, image)]);
    ShortHashShape(c.lib.digest, Trim(image));
    ClaimsOwnNames(c.crName, ShortImageHash(c.lib.digest, Trim(image)));
  }

  lemma StartedName(c: Ctx, cr: CrView, floor: Instant, s: Server, images: seq<string>, name: string)
    requires Good(c, floor, s) && AllBuild(c, cr, images)
    ensures name in OwnedNames(c, WithJobs(c, cr, s.jobs, images)) <==>
              name in OwnedNames(c, s.jobs) || exists k: nat :: Names(c, images, k, name)
  {
    WithJobsExactly(c, cr, s.jobs, images, name);
    if k: nat :| Names(c, images, k, name) {
      if name in s.jobs { NameIsOwnedOrFree(c, floor, s, images[k]); }
    }
    if name in WithJobs(c, cr, s.jobs, images) && name !in s.jobs {
      var k: nat :| Names(c, images, k, name)
                    && WithJobs(c, cr, s.jobs, images)[name] == StampedJob(c, cr, images[k]).value;
      StampedJobIsFresh(c, cr, images[k]);
    }
  }

  lemma StartedJobIsFresh(c: Ctx, cr: CrView, s: Server, images: seq<string>, p: nat)
    requires AllBuild(c, cr, images) && p < |images| && NameFor(c, images[p]) !in s.jobs
    ensures IsRegenerated(c, cr, images, WithJobs(c, cr, s.jobs, images), NameFor(c, images[p]))
    ensures !IsTerminal(WithJobs(c, cr, s.jobs, images)[NameFor(c, images[p])])
  {
    var name := NameFor(c, images[p]);
    assert Names(c, images, p, name);
    WithJobsExactly(c, cr, s.jobs, images, name);
    var k: nat :| Names(c, images, k, name)
                  && WithJobs(c, cr, s.jobs, images)[name] == StampedJob(c, cr, images[k]).value;
    StampedIsNotTerminal(c, cr, images[k]);
  }

  lemma StampedIsNotTerminal(c: Ctx, cr: CrView, image: string)
    requires StampedJob(c, cr, image).Ok?
    ensures !IsTerminal(StampedJob(c, cr, image).value)
  {
    StampedJobIsFresh(c, cr, image);
  }

  /** After an undisturbed reconcile the owned names are those that were there and those of the images
      in scope, and every image in scope that had no Job has a fresh one, whether or not the reconcile
      fired in turn. */
  lemma ReconcileRegenerates(c: Ctx, cr: CrView, seen: Option<Status>, floor: Instant, s: Server)
    requires Good(c, floor, s) && Runnable(c, cr) && Obliging(s.script) && Scope(cr, s) != {}
    ensures var jobs := ReconcileOnce(c, cr, seen, s).server.jobs;
            var images := SortedKeys(Scope(cr, s));
            && (forall n :: n in OwnedNames(c, jobs) <==>
                  n in OwnedNames(c, s.jobs) || exists k: nat :: Names(c, images, k, n))
            && (forall p | 0 <= p < |images| && NameFor(c, images[p]) !in s.jobs ::
                  IsRegenerated(c, cr, images, jobs, NameFor(c, images[p])))
  {
    UndisturbedReconcile(c, cr, seen, floor, s);
    var images := SortedKeys(Scope(cr, s));
    StoreRegenerates(c, cr, floor, s, images, ReconcileOnce(c, cr, seen, s).fire.Some?);
  }

  lemma StoreRegenerates(c: Ctx, cr: CrView, floor: Instant, s: Server, images: seq<string>, fired: bool)
    requires Good(c, floor, s) && AllBuild(c, cr, images)
    ensures var jobs := StoreAfter(c, cr, s, images, fired);
            && (forall n :: n in OwnedNames(c, jobs) <==>
                  n in OwnedNames(c, s.jobs) || exists k: nat :: Names(c, images, k, n))
            && (forall p | 0 <= p < |images| && NameFor(c, images[p]) !in s.jobs ::
                  IsRegenerated(c, cr, images, jobs, NameFor(c, images[p])))
  {
    var jobs := WithJobs(c, cr, s.jobs, images);
    MarkedKeepsNames(c, jobs);
    forall n ensures n in OwnedNames(c, jobs) <==>
        n in OwnedNames(c, s.jobs) || exists k: nat :: Names(c, images, k, n) {
      StartedName(c, cr, floor, s, images, n);
    }
    forall p | 0 <= p < |images| && NameFor(c, images[p]) !in s.jobs
      ensures IsRegenerated(c, cr, images, StoreAfter(c, cr, s, images, fired), NameFor(c, images[p]))
    {
      StartedJobIsFresh(c, cr, s, images, p);
    }
  }

  // ---------------------------------------------------------------------------------------------
  // The two together.
  // ---------------------------------------------------------------------------------------------

  /** What a fire leaves once its deletions have finished, whatever progress the surviving Jobs have
      made since: exactly the Jobs in progress at the fire. */
  lemma ReapedIsInProgress(c: Ctx, cr: CrView, seen: Option<Status>, floor: Instant, s: Server, t: Server, name: string)
    requires Good(c, floor, s) && Still(s.script) && ReconcileOnce(c, cr, seen, s).fire.Some?
    requires ReconcileOnce(c, cr, seen, s).fire.value.completed
    requires Progressed(Reaped(ReconcileOnce(c, cr, seen, s).server.jobs), t.jobs)
    ensures name in OwnedNames(c, t.jobs) <==> InProgress(c, Scan(c, cr, seen, s).server, name)
  {
    var scan, fired := Scan(c, cr, seen, s), ReconcileOnce(c, cr, seen, s).server;
    FiredStoreIsLive(c, cr, seen, floor, s, name);
    if name in t.jobs { StatusKeepsIdentity(c, name, fired.jobs[name], t.jobs[name]); }
    assert Live(c, fired, name) <==> name in Reaped(fired.jobs) && Owned(c.crName, fired.jobs[name]);
  }

  lemma FiredStoreIsLive(c: Ctx, cr: CrView, seen: Option<Status>, floor: Instant, s: Server, name: string)
    requires Good(c, floor, s) && Still(s.script) && ReconcileOnce(c, cr, seen, s).fire.Some?
    requires ReconcileOnce(c, cr, seen, s).fire.value.completed
    ensures Live(c, ReconcileOnce(c, cr, seen, s).server, name) <==> InProgress(c, Scan(c, cr, seen, s).server, name)
  {
    FireComesFromStage(c, cr, seen, s);
    ScanKeepsGood(c, cr, seen, floor, s);
    ScanStill(c, cr, seen, s);
    var scan := Scan(c, cr, seen, s);
    var planned, blank := StageRuns(c, cr, scan.server, scan.status.value, s.clock);
    SurvivorsExactly(c, floor, scan.server, planned, blank, name);
    FiredJobs(c, cr, seen, s, planned, blank);
  }

  /** The patch after a fire leaves the Jobs alone. */
  lemma FiredJobs(c: Ctx, cr: CrView, seen: Option<Status>, s: Server, planned: Status, blank: Fire)
    requires Still(Scan(c, cr, seen, s).server.script) && Scan(c, cr, seen, s).status.Some?
    requires var scan := Scan(c, cr, seen, s);
             FireStage(c, cr, scan.server, scan.status.value, s.clock) == RunFire(c, scan.server, planned, blank)
    ensures ReconcileOnce(c, cr, seen, s).server.jobs
        == RunFire(c, Scan(c, cr, seen, s).server, planned, blank).server.jobs
  {
    var scan := Scan(c, cr, seen, s);
    RunFireStill(c, scan.server, planned, blank);
    StillArrive(c, RunFire(c, scan.server, planned, blank).server);
  }

  lemma RunFireStill(c: Ctx, s: Server, planned: Status, fire: Fire)
    requires Still(s.script)
    ensures Still(RunFire(c, s, planned, fire).server.script)
  {
    StillArrive(c, s);
    var (s1, owned) := ListOwned(c, s);
    if owned.Ok? { CleanupStill(c, s1, owned.value); }
  }

  lemma {:induction false} CleanupStill(c: Ctx, s: Server, snapshot: seq<Job>)
    requires Still(s.script)
    ensures Still(Cleanup(c, s, snapshot).0.script)
    decreases snapshot
  {
    if snapshot != [] {
      if Targets(snapshot[0]) {
        StillArrive(c, s);
        CleanupStill(c, DeleteJob(c, s, snapshot[0].name.value).0, snapshot[1..]);
      } else {
        CleanupStill(c, s, snapshot[1..]);
      }
    }
  }

  /** A rescan regenerates exactly the scope.  A reconcile fires, in whatever terminal state its scan
      ended, and its fire completes; the Jobs it deleted go, and the others make whatever progress
      they make; then comes a reconcile whose calls succeed, perhaps of an edited CR.  The owned names
      are then those of the images in its scope and of the Jobs in progress at the fire, and every
      image whose Job was not in progress, in particular every one whose Job was terminal, has a
      fresh Job. */
  lemma RescanAfterFire(c: Ctx, cr: CrView, cr': CrView, seen: Option<Status>, seen': Option<Status>, floor: Instant,
                        s: Server, t: Server)
    requires Good(c, floor, s) && Still(s.script) && ReconcileOnce(c, cr, seen, s).fire.Some?
    requires ReconcileOnce(c, cr, seen, s).fire.value.completed
    requires Progressed(Reaped(ReconcileOnce(c, cr, seen, s).server.jobs), t.jobs) && Good(c, floor, t)
    requires Runnable(c, cr') && Obliging(t.script) && Scope(cr', t) != {}
    ensures var before := Scan(c, cr, seen, s).server;
            var jobs := ReconcileOnce(c, cr', seen', t).server.jobs;
            var images := SortedKeys(Scope(cr', t));
            && (forall n :: n in OwnedNames(c, jobs) <==>
                  InProgress(c, before, n) || exists k: nat :: Names(c, images, k, n))
            && (forall p | 0 <= p < |images| && !InProgress(c, before, NameFor(c, images[p])) ::
                  IsRegenerated(c, cr', images, jobs, NameFor(c, images[p])))
  {
    ReconcileRegenerates(c, cr', seen', floor, t);
    forall n ensures n in OwnedNames(c, t.jobs) <==> InProgress(c, Scan(c, cr, seen, s).server, n) {
      ReapedIsInProgress(c, cr, seen, floor, s, t, n);
    }
    var images := SortedKeys(Scope(cr', t));
    forall p | 0 <= p < |images| && NameFor(c, images[p]) in t.jobs
      ensures NameFor(c, images[p]) in OwnedNames(c, t.jobs)
    {
      NameIsOwnedOrFree(c, floor, t, images[p]);
    }
  }
}
