/** Runs at concrete inputs: the guarantees of the other modules are as strong as the code allows.
    The lemmas are stated for every cluster with one image in scope, one Job and an interval schedule;
    the last section exhibits one. */
module Scenarios {
  import opened Basics
  import opened Rfc3339
  import opened Crd
  import opened JobName
  import opened ScanJob
  import opened Aggregator
  import opened Scheduler
  import opened Conditions
  import opened Cluster
  import opened Orchestrator
  import opened Reconcile
  import opened Deletes
  import opened Runs
  import opened Spacing
  import opened Records
  import opened Cycle

  // ---------------------------------------------------------------------------------------------
  // A cluster with one image and one Job.
  // ---------------------------------------------------------------------------------------------

  datatype World = World(c: Ctx, cr: CrView, pods: seq<Pod>, image: string, job: Job, duration: int)

  predicate Small(w: World) {
    && Runnable(w.c, w.cr) && |w.cr.spec.target.namespaces| == 1 && ImagesInScope(w.pods) == {w.image}
    && StampedJob(w.c, w.cr, w.image) == Ok(w.job)
    && ParseSchedule(w.c.lib, w.cr.spec.schedule) == Ok(Interval(w.duration))
  }

  /** The pods are listed, and every call succeeds undisturbed. */
  function Calls(w: World): seq<Call> { [Call([], None, w.pods)] }

  function Name(w: World): string { NameFor(w.c, w.image) }

  function JobOf(w: World, status: Option<JobStatus>, deleting: bool): Job {
    w.job.(status := status, deleting := deleting)
  }

  /** The store that holds nothing but this Job. */
  function Only(w: World, status: Option<JobStatus>, deleting: bool): map<string, Job> {
    map[Name(w) := JobOf(w, status, deleting)]
  }

  function Done(completion: Instant): Option<JobStatus> { Some(JobStatus(Some(1), None, Some(completion))) }

  const FAILED: Option<JobStatus> := Some(JobStatus(None, Some(BACKOFF_LIMIT + 1), None))

  function Check(w: World): Move { Reconciles(w.cr, Fresh, Calls(w)) }

  lemma OneListing(c: Ctx, cr: CrView, s: Server, pods: seq<Pod>)
    requires |cr.spec.target.namespaces| == 1 && s.script == [Call([], None, pods)]
    ensures Obliging(s.script) && Scope(cr, s) == ImagesInScope(pods)
  {
    assert CallAt(s.script, 0) == s.script[0] && AnsweredImages(s.script, 0) == {};
  }

  lemma ScopeIsImage(w: World, s: Server)
    requires Small(w) && s.script == Calls(w)
    ensures Obliging(s.script) && Scope(w.cr, s) == {w.image} && SortedKeys({w.image}) == [w.image]
  {
    OneListing(w.c, w.cr, s, w.pods);
    assert SortedKeys({w.image})[0] in SortedKeys({w.image});
  }

  lemma OnlyJob(w: World, status: Option<JobStatus>, deleting: bool)
    requires Small(w)
    ensures var job := JobOf(w, status, deleting);
            && Owned(w.c.crName, job) && OperatorBuilt(w.c.lib.digest, w.c.crName, Name(w), job)
            && ImageRefOf(job).Some? && HashLabelOf(job).Some?
            && job.spec.Some? && job.spec.value.backoffLimit == Some(BACKOFF_LIMIT)
            && Listing(w.c, Only(w, status, deleting)) == [job]
  {
    StampedJobIsFresh(w.c, w.cr, w.image);
    var job := JobOf(w, status, deleting);
    StatusKeepsIdentity(w.c, Name(w), w.job, job);
    OneIsListed(w.c, Name(w), job);
  }

  lemma OneIsListed(c: Ctx, name: string, job: Job)
    requires Owned(c.crName, job)
    ensures Listing(c, map[name := job]) == [job]
  {
    assert OwnedNames(c, map[name := job]) == {name};
    assert SortedKeys({name})[0] in SortedKeys({name});
  }

  /** The store invariant for such a store. */
  lemma OnlyIsGood(w: World, floor: Instant, s: Server, status: Option<JobStatus>, deleting: bool)
    requires Small(w) && s.jobs == Only(w, status, deleting) && floor <= s.clock
    requires CompletionOf(status).Some? ==>
               SucceededCount(status) >= 1 && CompletionOf(status).value >= FloorSecond(floor)
    ensures Good(w.c, floor, s)
  {
    OnlyJob(w, status, deleting);
  }

  lemma TerminalOnly(w: World, status: Option<JobStatus>, deleting: bool)
    requires Small(w)
    ensures var jobs := Only(w, status, deleting);
            Marked(w.c, jobs) == Only(w, status, deleting || IsTerminal(JobOf(w, status, deleting)))
  {
    OnlyJob(w, status, deleting);
    OneIsMarked(w.c, Name(w), JobOf(w, status, deleting));
  }

  lemma OneIsMarked(c: Ctx, name: string, job: Job)
    requires Owned(c.crName, job)
    ensures Marked(c, map[name := job]) == map[name := job.(deleting := job.deleting || IsTerminal(job))]
  {
    var jobs := map[name := job];
    assert name in TerminalNames(c, jobs) <==> IsTerminal(job);
  }

  // ---------------------------------------------------------------------------------------------
  // One reconcile of it.
  // ---------------------------------------------------------------------------------------------

  /** What the reconcile lists, stores and patches. */
  ghost predicate Passes(w: World, seen: Option<Status>, s: Server, status: Option<JobStatus>, deleting: bool) {
    var scan, r := Scan(w.c, w.cr, seen, s), ReconcileOnce(w.c, w.cr, seen, s);
    && scan.status.Some? && scan.listed == Some([JobOf(w, status, deleting)]) && scan.server.clock == s.clock
    && r.server.jobs == Only(w, status, deleting || (r.fire.Some? && IsTerminal(JobOf(w, status, deleting))))
    && r.server.clock == s.clock && r.patched.Some? && (r.fire.Some? ==> r.fire.value.completed)
    && r.server.status == Some(MergePatch(s.status, r.patched.value))
  }

  lemma KnownJobPasses(w: World, seen: Option<Status>, floor: Instant, s: Server, status: Option<JobStatus>,
                       deleting: bool)
    requires Small(w) && Good(w.c, floor, s) && s.script == Calls(w) && s.jobs == Only(w, status, deleting)
    ensures Passes(w, seen, s, status, deleting)
  {
    ScopeIsImage(w, s);
    UndisturbedReconcile(w.c, w.cr, seen, floor, s);
    ScanStartsScope(w.c, w.cr, seen, s);
    WithJobsAddsNothingIff(w.c, w.cr, s.jobs, [w.image]);
    OnlyJob(w, status, deleting);
    TerminalOnly(w, status, deleting);
  }

  lemma NewJobPasses(w: World, seen: Option<Status>, floor: Instant, s: Server)
    requires Small(w) && Good(w.c, floor, s) && s.script == Calls(w) && s.jobs == map[]
    ensures Passes(w, seen, s, None, false)
  {
    ScopeIsImage(w, s);
    UndisturbedReconcile(w.c, w.cr, seen, floor, s);
    ScanStartsScope(w.c, w.cr, seen, s);
    StampedJobIsFresh(w.c, w.cr, w.image);
    assert [w.image][1..] == [];
    assert WithJobs(w.c, w.cr, map[], [w.image]) == WithJobs(w.c, w.cr, Only(w, None, false), []);
    OnlyJob(w, None, false);
    TerminalOnly(w, None, false);
  }

  function NewAnchor(last: Option<Instant>, t: Instant): Instant { Later(last, t).value }

  /** A succeeded Job: the scan completes, the anchor is the later of the old one and its completion. */
  lemma DonePass(w: World, seen: Option<Status>, s: Server, completion: Instant, deleting: bool)
    requires Small(w) && Passes(w, seen, s, Done(completion), deleting)
    ensures var scan, r := Scan(w.c, w.cr, seen, s), ReconcileOnce(w.c, w.cr, seen, s);
            var last := NewAnchor(LastCompleted(seen), completion);
            && ReasonOf(scan.status.value) == Some(ScanCompleted)
            && r.patched.value.lastScanCompletedAt == Some(last)
            && (r.fire.Some? <==> s.clock >= last + w.duration + Jitter(w.c, w.cr))
  {
    DoneScan(w, seen, s, completion, deleting);
    CompletedScanFiresExactly(w.c, w.cr, seen, s);
    PatchedIsPlanned(w.c, w.cr, seen, s);
  }

  lemma DoneScan(w: World, seen: Option<Status>, s: Server, completion: Instant, deleting: bool)
    requires Small(w) && Scan(w.c, w.cr, seen, s).status.Some? && Scan(w.c, w.cr, seen, s).server.clock == s.clock
    requires Scan(w.c, w.cr, seen, s).listed == Some([JobOf(w, Done(completion), deleting)])
    ensures var status := Scan(w.c, w.cr, seen, s).status.value;
            && ReasonOf(status) == Some(ScanCompleted)
            && status.lastScanCompletedAt == Some(NewAnchor(LastCompleted(seen), completion))
  {
    DoneReason(w, seen, s, completion, deleting);
    CompletedScan(w.c, w.cr, seen, s);
    OneRecord(w, completion, deleting, s.clock, LastCompleted(seen));
  }

  lemma DoneReason(w: World, seen: Option<Status>, s: Server, completion: Instant, deleting: bool)
    requires Small(w) && Scan(w.c, w.cr, seen, s).status.Some?
    requires Scan(w.c, w.cr, seen, s).listed == Some([JobOf(w, Done(completion), deleting)])
    ensures ReasonOf(Scan(w.c, w.cr, seen, s).status.value) == Some(ScanCompleted)
  {
    OnlyJob(w, Done(completion), deleting);
    OneListed(w.c, w.cr, seen, s, JobOf(w, Done(completion), deleting));
  }

  /** A scan that listed one Job ends as that Job did. */
  lemma OneListed(c: Ctx, cr: CrView, seen: Option<Status>, s: Server, job: Job)
    requires Scan(c, cr, seen, s).status.Some? && Scan(c, cr, seen, s).listed == Some([job])
    ensures var reason := ReasonOf(Scan(c, cr, seen, s).status.value);
            && (reason == Some(ScanCompleted) <==> IsSucceeded(job) && !IsFinallyFailed(job))
            && (reason == Some(ScanFailed) <==> IsFinallyFailed(job))
  {
    CompletedMeansAllSucceeded(c, cr, seen, s);
    assert job in [job];
  }

  lemma OneRecord(w: World, completion: Instant, deleting: bool, clock: Instant, last: Option<Instant>)
    requires Small(w)
    ensures Latest(last, ScannedImagesOf([JobOf(w, Done(completion), deleting)], w.cr.spec, clock))
              == Some(NewAnchor(last, completion))
  {
    var job := JobOf(w, Done(completion), deleting);
    OnlyJob(w, Done(completion), deleting);
    var record := ScannedImageOf(job, w.cr.spec, clock).value;
    assert [job][1..] == [] && [record] + [] == [record] && [record][1..] == [];
    assert ScannedImagesOf([job], w.cr.spec, clock) == [record];
  }

  /** A finally failed Job: the scan fails and the anchor stands. */
  lemma FailedPass(w: World, seen: Option<Status>, s: Server, deleting: bool)
    requires Small(w) && Passes(w, seen, s, FAILED, deleting)
    ensures var scan, r := Scan(w.c, w.cr, seen, s), ReconcileOnce(w.c, w.cr, seen, s);
            && ReasonOf(scan.status.value) == Some(ScanFailed)
            && r.patched.value.lastScanCompletedAt == LastCompleted(seen)
            && (r.fire.Some? <==>
                  s.clock >= LastCompleted(seen).GetOr(w.cr.creation.GetOr(s.clock)) + w.duration + Jitter(w.c, w.cr))
  {
    FailedScan(w, seen, s, deleting);
    FiresExactlyWhenDue(w.c, w.cr, seen, s);
    PatchedIsPlanned(w.c, w.cr, seen, s);
  }

  lemma FailedScan(w: World, seen: Option<Status>, s: Server, deleting: bool)
    requires Small(w) && Scan(w.c, w.cr, seen, s).status.Some?
    requires Scan(w.c, w.cr, seen, s).listed == Some([JobOf(w, FAILED, deleting)])
    ensures var status := Scan(w.c, w.cr, seen, s).status.value;
            ReasonOf(status) == Some(ScanFailed) && status.lastScanCompletedAt == LastCompleted(seen)
  {
    FailedIsTerminal(w, deleting);
    OneListed(w.c, w.cr, seen, s, JobOf(w, FAILED, deleting));
    FailedScanKeepsAnchor(w.c, w.cr, seen, s);
  }

  /** A Job just started: nothing is recorded and nothing fires. */
  lemma StartPass(w: World, seen: Option<Status>, s: Server)
    requires Small(w) && Passes(w, seen, s, None, false)
    ensures var r := ReconcileOnce(w.c, w.cr, seen, s);
            && r.fire.None? && r.patched.value.lastScanCompletedAt == LastCompleted(seen)
            && r.patched.value.scannedImages == Images(seen)
  {
    StartScan(w, seen, s);
    FiresExactlyWhenDue(w.c, w.cr, seen, s);
    PatchedIsPlanned(w.c, w.cr, seen, s);
  }

  lemma StartScan(w: World, seen: Option<Status>, s: Server)
    requires Small(w) && Scan(w.c, w.cr, seen, s).status.Some?
    requires Scan(w.c, w.cr, seen, s).listed == Some([JobOf(w, None, false)])
    ensures var status := Scan(w.c, w.cr, seen, s).status.value;
            !IsTerminalReason(ReasonOf(status)) && Recorded(seen, [], status)
  {
    StartedUnfinished(w);
    OneListed(w.c, w.cr, seen, s, JobOf(w, None, false));
    OtherScansRecordNothing(w.c, w.cr, seen, s);
  }

  lemma StartedUnfinished(w: World)
    requires Small(w)
    ensures !IsSucceeded(JobOf(w, None, false)) && !IsFinallyFailed(JobOf(w, None, false))
  {
    OnlyJob(w, None, false);
  }

  // ---------------------------------------------------------------------------------------------
  // The same as steps of a run.
  // ---------------------------------------------------------------------------------------------

  /** The state of the run: the clock, the Job and the stored anchor. */
  ghost predicate Shows(w: World, s: Server, clock: Instant, status: Option<JobStatus>, deleting: bool,
                        last: Option<Instant>) {
    s.clock == clock && s.jobs == Only(w, status, deleting) && LastCompleted(s.status) == last
  }

  /** A fire of this cluster, and the state of the Job its scan listed. */
  ghost predicate Fired(w: World, f: Firing, at: Instant, reason: Reason, deleting: bool) {
    && f.fire.at == at && f.fire.reason == reason && f.fire.completed
    && f.fire.schedule == Interval(w.duration) && f.fire.jitter == Jitter(w.c, w.cr)
    && |f.listed| == 1 && f.listed[0].deleting == deleting
  }

  lemma FireShows(w: World, s: Server, status: Option<JobStatus>, deleting: bool, reason: Reason)
    requires ParseSchedule(w.c.lib, w.cr.spec.schedule) == Ok(Interval(w.duration))
    requires Passes(w, s.status, s.(script := Calls(w)), status, deleting)
    requires ReasonOf(Scan(w.c, w.cr, s.status, s.(script := Calls(w))).status.value) == Some(reason)
    requires ReconcileOnce(w.c, w.cr, s.status, s.(script := Calls(w))).fire.Some?
    ensures FireOf(w.c, s, Check(w)).Some? && Fired(w, FireOf(w.c, s, Check(w)).value, s.clock, reason, deleting)
  {
    FireIsRecorded(w.c, w.cr, s.status, s.(script := Calls(w)));
  }

  lemma DoneStep(w: World, floor: Instant, s: Server, clock: Instant, completion: Instant, deleting: bool,
                 last: Option<Instant>)
    requires Small(w) && Good(w.c, floor, s) && Shows(w, s, clock, Done(completion), deleting, last)
    requires clock >= NewAnchor(last, completion) + w.duration + Jitter(w.c, w.cr)
    ensures Shows(w, Step(w.c, s, Check(w)), clock, Done(completion), true, Some(NewAnchor(last, completion)))
    ensures FireOf(w.c, s, Check(w)).Some? && Fired(w, FireOf(w.c, s, Check(w)).value, clock, ScanCompleted, deleting)
  {
    var s0 := s.(script := Calls(w));
    KnownJobPasses(w, s.status, floor, s0, Done(completion), deleting);
    DonePass(w, s.status, s0, completion, deleting);
    FireShows(w, s, Done(completion), deleting, ScanCompleted);
  }

  lemma FailedIsTerminal(w: World, deleting: bool)
    requires Small(w)
    ensures IsFinallyFailed(JobOf(w, FAILED, deleting))
  {
    OnlyJob(w, FAILED, deleting);
  }

  lemma FailedStep(w: World, floor: Instant, s: Server, clock: Instant, deleting: bool, last: Option<Instant>)
    requires Small(w) && Good(w.c, floor, s) && Shows(w, s, clock, FAILED, deleting, last)
    requires clock >= last.GetOr(w.cr.creation.GetOr(clock)) + w.duration + Jitter(w.c, w.cr)
    ensures Shows(w, Step(w.c, s, Check(w)), clock, FAILED, true, last)
    ensures FireOf(w.c, s, Check(w)).Some? && Fired(w, FireOf(w.c, s, Check(w)).value, clock, ScanFailed, deleting)
  {
    var s0 := s.(script := Calls(w));
    KnownJobPasses(w, s.status, floor, s0, FAILED, deleting);
    FailedPass(w, s.status, s0, deleting);
    FireShows(w, s, FAILED, deleting, ScanFailed);
    FailedIsTerminal(w, deleting);
  }

  lemma StartStep(w: World, floor: Instant, s: Server)
    requires Small(w) && Good(w.c, floor, s) && s.jobs == map[]
    ensures Shows(w, Step(w.c, s, Check(w)), s.clock, None, false, LastCompleted(s.status))
    ensures FireOf(w.c, s, Check(w)).None?
  {
    var s0 := s.(script := Calls(w));
    NewJobPasses(w, s.status, floor, s0);
    StartPass(w, s.status, s0);
  }

  // ---------------------------------------------------------------------------------------------
  // The fires of a run, piece by piece.
  // ---------------------------------------------------------------------------------------------

  /** Whatever comes after, the run of `moves` from `s` yields `fires` and leads to `s'`. */
  ghost predicate Emits(c: Ctx, s: Server, moves: seq<Move>, fires: seq<Firing>, s': Server) {
    forall rest: seq<Move> {:trigger Fires(c, s, moves + rest)} ::
      Fires(c, s, moves + rest) == fires + Fires(c, s', rest)
  }

  lemma MoveEmits(c: Ctx, s: Server, m: Move)
    ensures Emits(c, s, [m], if FireOf(c, s, m).Some? then [FireOf(c, s, m).value] else [], Step(c, s, m))
  {
    forall rest: seq<Move>
      ensures Fires(c, s, [m] + rest)
                == (if FireOf(c, s, m).Some? then [FireOf(c, s, m).value] else []) + Fires(c, Step(c, s, m), rest)
    {
      FiresOf(c, s, m, rest);
    }
  }

  lemma {:induction false} EmitsThen(c: Ctx, s: Server, first: seq<Move>, fires: seq<Firing>, s1: Server,
                                     second: seq<Move>, more: seq<Firing>, s2: Server)
    requires Emits(c, s, first, fires, s1) && Emits(c, s1, second, more, s2)
    ensures Emits(c, s, first + second, fires + more, s2)
  {
    forall rest: seq<Move> ensures Fires(c, s, (first + second) + rest) == (fires + more) + Fires(c, s2, rest) {
      EmitsAt(c, s, first, fires, s1, second + rest);
      EmitsAt(c, s1, second, more, s2, rest);
      Reassociate(c, s, first, fires, s1, second, more, s2, rest);
    }
  }

  lemma {:induction false} EmitsAt(c: Ctx, s: Server, moves: seq<Move>, fires: seq<Firing>, s': Server, rest: seq<Move>)
    requires Emits(c, s, moves, fires, s')
    ensures Fires(c, s, moves + rest) == fires + Fires(c, s', rest)
  {
  }

  lemma {:induction false} Reassociate(c: Ctx, s: Server, first: seq<Move>, fires: seq<Firing>, s1: Server,
                                       second: seq<Move>, more: seq<Firing>, s2: Server, rest: seq<Move>)
    requires Fires(c, s, first + (second + rest)) == fires + Fires(c, s1, second + rest)
    requires Fires(c, s1, second + rest) == more + Fires(c, s2, rest)
    ensures Fires(c, s, (first + second) + rest) == (fires + more) + Fires(c, s2, rest)
  {
    MovesAssociate(first, second, rest);
    FiresAssociate(fires, more, Fires(c, s2, rest));
  }

  lemma MovesAssociate(a: seq<Move>, b: seq<Move>, d: seq<Move>)
    ensures (a + b) + d == a + (b + d)
  {
  }

  lemma FiresAssociate(a: seq<Firing>, b: seq<Firing>, d: seq<Firing>)
    ensures (a + b) + d == a + (b + d)
  {
  }

  lemma {:induction false} EmitsAll(c: Ctx, s: Server, moves: seq<Move>, fires: seq<Firing>, s': Server)
    requires Emits(c, s, moves, fires, s')
    ensures Fires(c, s, moves) == fires
  {
    assert moves + [] == moves && fires + [] == fires;
    assert Fires(c, s, moves + []) == fires + Fires(c, s', []);
  }

  function Wait(duration: nat): Move { Environment(Elapse(duration)) }

  /** The deleted Job goes, a reconcile starts a new one, the new one ends as `status`, time passes. */
  function Generation(w: World, status: JobStatus, wait: nat): seq<Move> {
    ([Environment(Remove(Name(w)))] + [Check(w)]) + ([Environment(Progress(Name(w), status))] + [Wait(wait)])
  }

  lemma RemoveStep(w: World, s: Server, clock: Instant, status: Option<JobStatus>, last: Option<Instant>)
    requires Small(w) && Shows(w, s, clock, status, true, last)
    ensures var s' := Step(w.c, s, Environment(Remove(Name(w))));
            s'.jobs == map[] && s'.clock == clock && LastCompleted(s'.status) == last
  {
  }

  lemma ProgressStep(w: World, s: Server, clock: Instant, status: JobStatus, last: Option<Instant>)
    requires Small(w) && Shows(w, s, clock, None, false, last) && Advances(None, Some(status), clock)
    ensures Shows(w, Step(w.c, s, Environment(Progress(Name(w), status))), clock, Some(status), false, last)
  {
    ProgressEffect(w.c, s, Name(w), status);
    ProgressedOnly(w, status);
  }

  lemma ProgressedOnly(w: World, status: JobStatus)
    requires Small(w)
    ensures var jobs := Only(w, None, false);
            && jobs[Name(w)].status.None?
            && jobs[Name(w) := jobs[Name(w)].(status := Some(status))] == Only(w, Some(status), false)
  {
    var job := JobOf(w, None, false);
    assert job.(status := Some(status)) == JobOf(w, Some(status), false);
    UpdatedOnly(Name(w), job, job.(status := Some(status)));
  }

  lemma UpdatedOnly(name: string, job: Job, job': Job)
    ensures map[name := job][name := job'] == map[name := job']
  {
  }

  lemma ProgressEffect(c: Ctx, s: Server, name: string, status: JobStatus)
    requires name in s.jobs && Advances(s.jobs[name].status, Some(status), s.clock)
    ensures ApplyEvent(c, s, Progress(name, status))
              == s.(jobs := s.jobs[name := s.jobs[name].(status := Some(status))])
  {
  }

  lemma Regenerates(w: World, floor: Instant, s: Server, clock: Instant, before: Option<JobStatus>,
                    last: Option<Instant>)
    returns (s': Server)
    requires Small(w) && Good(w.c, floor, s) && Shows(w, s, clock, before, true, last)
    ensures Good(w.c, floor, s') && Shows(w, s', clock, None, false, last)
    ensures Emits(w.c, s, [Environment(Remove(Name(w)))] + [Check(w)], [] + [], s')
  {
    var m := Environment(Remove(Name(w)));
    var s1 := Step(w.c, s, m);
    RemoveStep(w, s, clock, before, last);
    StepKeepsGood(w.c, floor, s, m);
    StartStep(w, floor, s1);
    StepKeepsGood(w.c, floor, s1, Check(w));
    s' := Step(w.c, s1, Check(w));
    MoveEmits(w.c, s, m);
    MoveEmits(w.c, s1, Check(w));
    EmitsThen(w.c, s, [m], [], s1, [Check(w)], [], s');
  }

  lemma Progresses(w: World, floor: Instant, s: Server, clock: Instant, status: JobStatus, last: Option<Instant>,
                   wait: nat)
    returns (s': Server)
    requires Small(w) && Good(w.c, floor, s) && Shows(w, s, clock, None, false, last)
        && Advances(None, Some(status), clock)
    ensures Good(w.c, floor, s') && Shows(w, s', clock + wait, Some(status), false, last)
    ensures Emits(w.c, s, [Environment(Progress(Name(w), status))] + [Wait(wait)], [] + [], s')
  {
    var m := Environment(Progress(Name(w), status));
    var s1 := Step(w.c, s, m);
    ProgressStep(w, s, clock, status, last);
    StepKeepsGood(w.c, floor, s, m);
    StepKeepsGood(w.c, floor, s1, Wait(wait));
    s' := Step(w.c, s1, Wait(wait));
    MoveEmits(w.c, s, m);
    MoveEmits(w.c, s1, Wait(wait));
    EmitsThen(w.c, s, [m], [], s1, [Wait(wait)], [], s');
  }

  /** A generation fires nothing. */
  lemma GenerationRuns(w: World, floor: Instant, s: Server, clock: Instant, before: Option<JobStatus>,
                       status: JobStatus,
                       wait: nat, last: Option<Instant>) returns (s': Server)
    requires Small(w) && Good(w.c, floor, s) && Shows(w, s, clock, before, true, last)
    requires Advances(None, Some(status), clock)
    ensures Good(w.c, floor, s') && Shows(w, s', clock + wait, Some(status), false, last)
    ensures Emits(w.c, s, Generation(w, status, wait), [], s')
  {
    var s1 := Regenerates(w, floor, s, clock, before, last);
    s' := Progresses(w, floor, s1, clock, status, last, wait);
    EmitsThen(w.c, s, [Environment(Remove(Name(w)))] + [Check(w)], [] + [], s1,
              [Environment(Progress(Name(w), status))] + [Wait(wait)], [] + [], s');
  }

  lemma DoneFire(w: World, floor: Instant, s: Server, clock: Instant, completion: Instant, deleting: bool,
                 last: Option<Instant>) returns (s': Server, f: Firing)
    requires Small(w) && Good(w.c, floor, s) && Shows(w, s, clock, Done(completion), deleting, last)
    requires clock >= NewAnchor(last, completion) + w.duration + Jitter(w.c, w.cr)
    ensures Good(w.c, floor, s') && Shows(w, s', clock, Done(completion), true, Some(NewAnchor(last, completion)))
    ensures Fired(w, f, clock, ScanCompleted, deleting) && Emits(w.c, s, [Check(w)], [f], s')
  {
    DoneStep(w, floor, s, clock, completion, deleting, last);
    StepKeepsGood(w.c, floor, s, Check(w));
    MoveEmits(w.c, s, Check(w));
    s', f := Step(w.c, s, Check(w)), FireOf(w.c, s, Check(w)).value;
  }

  lemma FailedFire(w: World, floor: Instant, s: Server, clock: Instant, deleting: bool, last: Option<Instant>)
    returns (s': Server, f: Firing)
    requires Small(w) && Good(w.c, floor, s) && Shows(w, s, clock, FAILED, deleting, last)
    requires clock >= last.GetOr(w.cr.creation.GetOr(clock)) + w.duration + Jitter(w.c, w.cr)
    ensures Good(w.c, floor, s') && Shows(w, s', clock, FAILED, true, last)
    ensures Fired(w, f, clock, ScanFailed, deleting) && Emits(w.c, s, [Check(w)], [f], s')
  {
    FailedStep(w, floor, s, clock, deleting, last);
    StepKeepsGood(w.c, floor, s, Check(w));
    MoveEmits(w.c, s, Check(w));
    s', f := Step(w.c, s, Check(w)), FireOf(w.c, s, Check(w)).value;
  }

  lemma WaitRuns(w: World, floor: Instant, s: Server, clock: Instant, status: Option<JobStatus>, deleting: bool,
                 last: Option<Instant>, wait: nat) returns (s': Server)
    requires Small(w) && Good(w.c, floor, s) && Shows(w, s, clock, status, deleting, last)
    ensures Good(w.c, floor, s') && Shows(w, s', clock + wait, status, deleting, last)
    ensures Emits(w.c, s, [Wait(wait)], [], s')
  {
    StepKeepsGood(w.c, floor, s, Wait(wait));
    MoveEmits(w.c, s, Wait(wait));
    s' := Step(w.c, s, Wait(wait));
  }

  /** A fire, what lies between, and the next fire. */
  lemma {:induction false} TwoFires(w: World, s: Server, f: Firing, s1: Server, between: seq<Move>, s2: Server,
                                    g: Firing, s3: Server)
    requires Emits(w.c, s, [Check(w)], [f], s1) && Emits(w.c, s1, between, [], s2)
        && Emits(w.c, s2, [Check(w)], [g], s3)
    ensures Fires(w.c, s, TwoChecks(w, between)) == [f, g]
  {
    EmitsThen(w.c, s1, between, [], s2, [Check(w)], [g], s3);
    EmitsThen(w.c, s, [Check(w)], [f], s1, between + [Check(w)], [] + [g], s3);
    EmitsAll(w.c, s, TwoChecks(w, between), [f] + ([] + [g]), s3);
  }

  function TwoChecks(w: World, between: seq<Move>): seq<Move> { [Check(w)] + (between + [Check(w)]) }

  lemma FiredSawLive(w: World, f: Firing, at: Instant, reason: Reason, deleting: bool)
    requires Fired(w, f, at, reason, deleting)
    ensures SawLive(f) <==> !deleting
  {
    assert f.listed[0] in f.listed;
  }

  lemma FiredIsEligible(w: World, f: Firing, at: Instant)
    requires Fired(w, f, at, ScanCompleted, false)
    ensures Eligible(f, w.duration, Jitter(w.c, w.cr))
  {
    FiredSawLive(w, f, at, ScanCompleted, false);
  }

  // ---------------------------------------------------------------------------------------------
  // Where fire spacing ends.
  // ---------------------------------------------------------------------------------------------

  /** A fire leaves its Job listed while the deletion lasts, and the next reconcile, however soon, fires
      again over that Job: two fires of completed scans at any distance. */
  lemma RefireOverDeletingJob(w: World, floor: Instant, s: Server, completion: Instant, at: Instant, wait: nat)
    returns (f: Firing, g: Firing)
    requires Small(w) && Good(w.c, floor, s) && Shows(w, s, at, Done(completion), false, None)
    requires at >= completion + w.duration + Jitter(w.c, w.cr)
    ensures Fires(w.c, s, TwoChecks(w, [Wait(wait)])) == [f, g]
    ensures Fired(w, f, at, ScanCompleted, false) && Fired(w, g, at + wait, ScanCompleted, true)
    ensures SawLive(f) && !SawLive(g)
  {
    var s1, s2, s3;
    s1, f := DoneFire(w, floor, s, at, completion, false, None);
    s2 := WaitRuns(w, floor, s1, at, Done(completion), true, Some(completion), wait);
    s3, g := DoneFire(w, floor, s2, at + wait, completion, true, Some(completion));
    TwoFires(w, s, f, s1, [Wait(wait)], s2, g, s3);
    FiredSawLive(w, f, at, ScanCompleted, false);
    FiredSawLive(w, g, at + wait, ScanCompleted, true);
  }

  /** The guaranteed gap is attained.  The new Job completes, as the cluster records it, in the whole
      second `second` of the first fire; the next fire comes when interval and jitter have passed since
      then, so it is short of interval plus jitter after the first fire by `at - second`. */
  lemma GapIsAttained(w: World, floor: Instant, s: Server, completion: Instant, at: Instant, second: Instant, wait: nat)
    returns (f: Firing, g: Firing)
    requires Small(w) && Good(w.c, floor, s) && Shows(w, s, at, Done(completion), false, None)
    requires at >= completion + w.duration + Jitter(w.c, w.cr)
    requires Advances(None, Done(second), at) && completion < second
    requires at + wait == second + w.duration + Jitter(w.c, w.cr)
    ensures Fires(w.c, s, TwoChecks(w, Generation(w, Done(second).value, wait))) == [f, g]
    ensures Fired(w, f, at, ScanCompleted, false) && Fired(w, g, at + wait, ScanCompleted, false)
    ensures SawLive(f) && SawLive(g)
  {
    var s1, s3;
    s1, f := DoneFire(w, floor, s, at, completion, false, None);
    var s2 := GenerationRuns(w, floor, s1, at, Done(completion), Done(second).value, wait, Some(completion));
    s3, g := DoneFire(w, floor, s2, at + wait, second, false, Some(completion));
    TwoFires(w, s, f, s1, Generation(w, Done(second).value, wait), s2, g, s3);
    FiredSawLive(w, f, at, ScanCompleted, false);
    FiredSawLive(w, g, at + wait, ScanCompleted, false);
  }

  /** There is such a second and such a wait whenever the first fire is due, so the gap is attained from
      every such state. */
  lemma GapIsAlwaysAttained(w: World, floor: Instant, s: Server, completion: Instant, at: Instant)
    returns (f: Firing, g: Firing, second: Instant, wait: nat)
    requires Small(w) && Good(w.c, floor, s) && Shows(w, s, at, Done(completion), false, None)
    requires at >= completion + w.duration + Jitter(w.c, w.cr)
    ensures Fires(w.c, s, TwoChecks(w, Generation(w, Done(second).value, wait))) == [f, g]
    ensures Fired(w, f, at, ScanCompleted, false) && Fired(w, g, at + wait, ScanCompleted, false)
    ensures SawLive(f) && SawLive(g)
    ensures second == FloorSecond(at) && at + wait == second + w.duration + Jitter(w.c, w.cr)
  {
    ParsedSchedule(w.c.lib, w.cr.spec.schedule);
    second, wait := GapParameters(completion, at, w.duration, Jitter(w.c, w.cr));
    f, g := GapIsAttained(w, floor, s, completion, at, second, wait);
  }

  lemma GapParameters(completion: Instant, at: Instant, duration: int, jitter: int) returns (second: Instant, wait: nat)
    requires duration >= MINIMUM_INTERVAL && jitter >= 0 && at >= completion + duration + jitter
    ensures Advances(None, Done(second), at) && completion < second && second == FloorSecond(at)
    ensures at + wait == second + duration + jitter
  {
    second := FloorSecond(at);
    wait := second + duration + jitter - at;
  }

  /** Failed scans: two fires at any distance, each over a Job that was not being deleted. */
  lemma FailedScansFireClose(w: World, floor: Instant, s: Server, at: Instant, wait: nat) returns (f: Firing, g: Firing)
    requires Small(w) && Good(w.c, floor, s) && Shows(w, s, at, FAILED, false, None)
    requires w.cr.creation.Some? && at >= w.cr.creation.value + w.duration + Jitter(w.c, w.cr)
    ensures Fires(w.c, s, TwoChecks(w, Generation(w, FAILED.value, wait))) == [f, g]
    ensures Fired(w, f, at, ScanFailed, false) && Fired(w, g, at + wait, ScanFailed, false)
    ensures SawLive(f) && SawLive(g)
  {
    var s1, s3;
    s1, f := FailedFire(w, floor, s, at, false, None);
    var s2 := GenerationRuns(w, floor, s1, at, FAILED, FAILED.value, wait, None);
    s3, g := FailedFire(w, floor, s2, at + wait, false, None);
    TwoFires(w, s, f, s1, Generation(w, FAILED.value, wait), s2, g, s3);
    FiredSawLive(w, f, at, ScanFailed, false);
    FiredSawLive(w, g, at + wait, ScanFailed, false);
  }

  // ---------------------------------------------------------------------------------------------
  // Where the status record ends.
  // ---------------------------------------------------------------------------------------------

  /** A reconcile that reads a status from before the first scan loses every record, and leaves a last
      completion with no record to go with it. */
  lemma StaleReadLosesRecords(w: World, floor: Instant, s: Server)
    requires Small(w) && Good(w.c, floor, s) && s.jobs == map[]
    ensures var s' := Step(w.c, s, Reconciles(w.cr, Stale(None), Calls(w)));
            Images(s'.status) == [] && LastCompleted(s'.status) == LastCompleted(s.status)
  {
    var s0 := s.(script := Calls(w));
    StalePass(w, floor, s0);
    StepStores(w.c, s, Reconciles(w.cr, Stale(None), Calls(w)));
  }

  lemma StepStores(c: Ctx, s: Server, m: Move)
    requires m.Reconciles?
    ensures Step(c, s, m).status == ReconcileOnce(c, m.cr, Seen(m.cache, s), s.(script := m.script)).server.status
  {
  }

  lemma StalePass(w: World, floor: Instant, s: Server)
    requires Small(w) && Good(w.c, floor, s) && s.jobs == map[] && s.script == Calls(w)
    ensures var s' := ReconcileOnce(w.c, w.cr, None, s).server;
            Images(s'.status) == [] && LastCompleted(s'.status) == LastCompleted(s.status)
  {
    NewJobPasses(w, None, floor, s);
    StartPass(w, None, s);
  }

  /** A Job that has succeeded goes unrecorded while another is still running. */
  lemma SucceededJobGoesUnrecorded(c: Ctx, cr: CrView, floor: Instant, s: Server, x: string, y: string)
    requires Good(c, floor, s) && Runnable(c, cr) && Obliging(s.script) && Scope(cr, s) != {}
    requires x in OwnedNames(c, s.jobs) && IsSucceeded(s.jobs[x]) && ImageRefOf(s.jobs[x]).Some?
    requires y in OwnedNames(c, s.jobs) && !IsSucceeded(s.jobs[y])
    requires !HasRecord(Images(s.status), ImageRefOf(s.jobs[x]).value)
    ensures var s' := ReconcileOnce(c, cr, s.status, s).server;
            && x in s'.jobs && Owned(c.crName, s'.jobs[x]) && IsSucceeded(s'.jobs[x])
            && ImageRefOf(s'.jobs[x]) == ImageRefOf(s.jobs[x]) && s'.status.Some?
                && !HasRecord(Images(s'.status), ImageRefOf(s.jobs[x]).value)
  {
    UndisturbedReconcile(c, cr, s.status, floor, s);
    RunningJobBlocksRecords(c, cr, s, y);
    KeptJob(c, cr, s, SortedKeys(Scope(cr, s)), ReconcileOnce(c, cr, s.status, s).fire.Some?, x);
    PatchedIsPlanned(c, cr, s.status, s);
  }

  lemma RunningJobBlocksRecords(c: Ctx, cr: CrView, s: Server, y: string)
    requires Runnable(c, cr) && Obliging(s.script) && Scope(cr, s) != {}
    requires y in OwnedNames(c, s.jobs) && !IsSucceeded(s.jobs[y])
    ensures Scan(c, cr, s.status, s).status.Some? && Recorded(s.status, [], Scan(c, cr, s.status, s).status.value)
  {
    var images := SortedKeys(Scope(cr, s));
    ScanStartsScope(c, cr, s.status, s);
    WithJobsExactly(c, cr, s.jobs, images, y);
    ListingMembers(c, WithJobs(c, cr, s.jobs, images));
    assert s.jobs[y] in Scan(c, cr, s.status, s).listed.value;
    CompletedMeansAllSucceeded(c, cr, s.status, s);
    OtherScansRecordNothing(c, cr, s.status, s);
  }

  lemma KeptJob(c: Ctx, cr: CrView, s: Server, images: seq<string>, fired: bool, x: string)
    requires AllBuild(c, cr, images) && x in s.jobs
    ensures var jobs := StoreAfter(c, cr, s, images, fired);
            && x in jobs && jobs[x].status == s.jobs[x].status && jobs[x].labels == s.jobs[x].labels
            && ImageRefOf(jobs[x]) == ImageRefOf(s.jobs[x])
  {
    WithJobsExactly(c, cr, s.jobs, images, x);
  }

  // ---------------------------------------------------------------------------------------------
  // There are such clusters.
  // ---------------------------------------------------------------------------------------------

  const LIB: Lib := Lib(s => seq(32, i => |s| % 256), s => None, s => Some(60 * SECOND))

  const CTX: Ctx := Ctx(LIB, "web", "ops")

  const CR: CrView := CrView(Some("u"), Some(0),
    Spec(Target(["shop"], None), Schedule(None, Some("1m")), "scanner",
         Output(Pvc, Some(PvcOutput("claim", None)), None, None)))

  function PodOf(image: string): Pod {
    Pod(Some("Running"), Some(PodSpec(None, [Container("main", Some(image), None, None, [])], None, [])))
  }

  lemma PlainIsTrimmed(s: string)
    requires s != [] && !IsWhitespace(s[0]) && !IsWhitespace(s[|s| - 1])
    ensures Trim(s) == s && !Blank(s)
  {
  }

  lemma ConcreteCrRuns()
    ensures Runnable(CTX, CR) && ParseSchedule(LIB, CR.spec.schedule) == Ok(Interval(60 * SECOND))
    ensures Jitter(CTX, CR) == 17 * SECOND
  {
    PlainIsTrimmed("scanner");
    PlainIsTrimmed("claim");
  }

  lemma RunnableIsSmall(c: Ctx, cr: CrView, pods: seq<Pod>, image: string, duration: int) returns (w: World)
    requires Runnable(c, cr) && |cr.spec.target.namespaces| == 1 && ImagesInScope(pods) == {image}
    requires ParseSchedule(c.lib, cr.spec.schedule) == Ok(Interval(duration))
    ensures Small(w) && w.c == c && w.cr == cr && w.image == image && w.duration == duration
  {
    InScopeBuilds(c, cr, pods, image);
    w := World(c, cr, pods, image, StampedJob(c, cr, image).value, duration);
  }

  lemma OnePodInScope(image: string)
    requires Trim(image) == image && image != []
    ensures ImagesInScope([PodOf(image)]) == {image}
  {
    var pods := [PodOf(image)];
    var containers := ContainersOf(pods[0].spec.value);
    assert containers == [Container("main", Some(image), None, None, [])];
    assert containers[0] in containers && pods[0] in pods;
    forall x ensures InScope(pods, x) <==> x == image {
      assert PodContributes(pods[0], x) <==> x == image;
    }
  }

  lemma ConcreteWorld() returns (w: World)
    ensures Small(w) && w.c == CTX && w.cr == CR && w.image == "x" && w.duration == 60 * SECOND
    ensures Jitter(w.c, w.cr) == 17 * SECOND
  {
    ConcreteCrRuns();
    PlainIsTrimmed("x");
    OnePodInScope("x");
    w := RunnableIsSmall(CTX, CR, [PodOf("x")], "x", 60 * SECOND);
  }

  /** Some run of this operator, from a store that satisfies the invariant, has exactly these fires. */
  ghost predicate Occurs(c: Ctx, fires: seq<Firing>) {
    exists s, moves, floor :: Good(c, floor, s) && Fires(c, s, moves) == fires
  }

  lemma Occurrence(c: Ctx, floor: Instant, s: Server, moves: seq<Move>, fires: seq<Firing>)
    requires Good(c, floor, s) && Fires(c, s, moves) == fires
    ensures Occurs(c, fires)
  {
  }

  // With an interval of 60 s and a jitter of 17 s:

  /** two fires of completed scans 5 s apart, over one Job under deletion; */
  lemma RefireExample() returns (f: Firing, g: Firing)
    ensures Occurs(CTX, [f, g]) && f.fire.reason == g.fire.reason == ScanCompleted
    ensures g.fire.at - f.fire.at == 5 * SECOND
  {
    var w := ConcreteWorld();
    f, g := RefireExampleIn(w);
  }

  function Start(w: World, at: Instant, status: Option<JobStatus>): Server {
    Server(at, Only(w, status, false), None, [])
  }

  lemma StartIsGood(w: World, at: Instant, status: Option<JobStatus>)
    requires Small(w) && at >= 0
    requires CompletionOf(status).Some? ==> SucceededCount(status) >= 1 && CompletionOf(status).value >= 0
    ensures Good(w.c, 0, Start(w, at, status))
  {
    OnlyIsGood(w, 0, Start(w, at, status), status, false);
  }

  lemma RefireExampleIn(w: World) returns (f: Firing, g: Firing)
    requires Small(w) && w.duration + Jitter(w.c, w.cr) <= 100 * SECOND
    ensures Occurs(w.c, [f, g]) && f.fire.reason == g.fire.reason == ScanCompleted
    ensures g.fire.at - f.fire.at == 5 * SECOND
  {
    var at, s := 100 * SECOND, Start(w, 100 * SECOND, Done(0));
    StartIsGood(w, at, Done(0));
    f, g := RefireOverDeletingJob(w, 0, s, 0, at, 5 * SECOND);
    Occurrence(w.c, 0, s, TwoChecks(w, [Wait(5 * SECOND)]), [f, g]);
  }

  /** two fires of completed scans that saw live Jobs, 76.5 s apart; */
  lemma GapExample() returns (f: Firing, g: Firing)
    ensures Occurs(CTX, [f, g]) && Eligible(f, 60 * SECOND, 17 * SECOND) && Eligible(g, 60 * SECOND, 17 * SECOND)
    ensures g.fire.at - f.fire.at == 77 * SECOND - SECOND / 2
  {
    var w := ConcreteWorld();
    f, g := GapExampleIn(w);
  }

  lemma GapExampleIn(w: World) returns (f: Firing, g: Firing)
    requires Small(w) && w.duration == 60 * SECOND && Jitter(w.c, w.cr) == 17 * SECOND
    ensures Occurs(w.c, [f, g]) && Eligible(f, 60 * SECOND, 17 * SECOND) && Eligible(g, 60 * SECOND, 17 * SECOND)
    ensures g.fire.at - f.fire.at == 77 * SECOND - SECOND / 2
  {
    var at := HalfPast();
    f, g := GapOccurs(w, at, w.duration + Jitter(w.c, w.cr) - SECOND / 2);
  }

  lemma HalfPast() returns (at: Instant)
    ensures at == 100 * SECOND + SECOND / 2 && FloorSecond(at) - at == -(SECOND / 2)
  {
    at := 100 * SECOND + SECOND / 2;
  }

  lemma GapOccurs(w: World, at: Instant, gap: int) returns (f: Firing, g: Firing)
    requires Small(w) && at >= w.duration + Jitter(w.c, w.cr) >= 0
    requires gap == FloorSecond(at) - at + w.duration + Jitter(w.c, w.cr)
    ensures Occurs(w.c, [f, g]) && g.fire.at - f.fire.at == gap
    ensures Eligible(f, w.duration, Jitter(w.c, w.cr)) && Eligible(g, w.duration, Jitter(w.c, w.cr))
  {
    var s := Start(w, at, Done(0));
    StartIsGood(w, at, Done(0));
    var second, wait;
    f, g, second, wait := GapIsAlwaysAttained(w, 0, s, 0, at);
    FiredIsEligible(w, f, at);
    FiredIsEligible(w, g, at + wait);
    Occurrence(w.c, 0, s, TwoChecks(w, Generation(w, Done(second).value, wait)), [f, g]);
  }

  /** two fires of failed scans over live Jobs, 5 s apart. */
  lemma FailedExample() returns (f: Firing, g: Firing)
    ensures Occurs(CTX, [f, g]) && f.fire.reason == g.fire.reason == ScanFailed && SawLive(f) && SawLive(g)
    ensures g.fire.at - f.fire.at == 5 * SECOND
  {
    var w := ConcreteWorld();
    f, g := FailedExampleIn(w);
  }

  lemma FailedExampleIn(w: World) returns (f: Firing, g: Firing)
    requires Small(w) && w.cr.creation == Some(0) && w.duration + Jitter(w.c, w.cr) <= 100 * SECOND
    ensures Occurs(w.c, [f, g]) && f.fire.reason == g.fire.reason == ScanFailed && SawLive(f) && SawLive(g)
    ensures g.fire.at - f.fire.at == 5 * SECOND
  {
    var at, s := 100 * SECOND, Start(w, 100 * SECOND, FAILED);
    StartIsGood(w, at, FAILED);
    f, g := FailedScansFireClose(w, 0, s, at, 5 * SECOND);
    Occurrence(w.c, 0, s, TwoChecks(w, Generation(w, FAILED.value, 5 * SECOND)), [f, g]);
  }

  /** A store from which one reconcile that reads a status from before the first scan loses a record. */
  ghost predicate LosesRecord(c: Ctx, image: string) {
    exists floor, s, cr, script ::
      && Good(c, floor, s) && HasRecord(Images(s.status), image)
      && Images(Step(c, s, Reconciles(cr, Stale(None), script)).status) == []
  }

  lemma StaleExampleIn(w: World, s: Server)
    requires Small(w) && s.jobs == map[] && 0 <= s.clock && HasRecord(Images(s.status), w.image)
    ensures LosesRecord(w.c, w.image)
  {
    StaleReadLosesRecords(w, 0, s);
    assert Images(Step(w.c, s, Reconciles(w.cr, Stale(None), Calls(w))).status) == [];
  }

  lemma RecordedServer(image: string) returns (s: Server)
    ensures s.jobs == map[] && s.clock == 0 && HasRecord(Images(s.status), image)
  {
    var record := ScannedImage(image, "pvc://claim/x.json", 0);
    s := Server(0, map[], Some(Status([], None, Some(0), [record], None)), []);
    assert Images(s.status)[0] == record;
  }

  /** the record of `x`, lost to one stale read; */
  lemma StaleExample()
    ensures LosesRecord(CTX, "x")
  {
    var w := ConcreteWorld();
    var s := RecordedServer(w.image);
    StaleExampleIn(w, s);
  }

  // Two images whose digests differ, one Job succeeded and one just started:

  function Pair(c: Ctx, cr: CrView, x: string, y: string, pods: seq<Pod>): Server
    requires StampedJob(c, cr, x).Ok? && StampedJob(c, cr, y).Ok?
  {
    Server(100 * SECOND,
           map[NameFor(c, x) := StampedJob(c, cr, x).value.(status := Done(0)),
               NameFor(c, y) := StampedJob(c, cr, y).value],
           None, [Call([], None, pods)])
  }

  lemma HashDigit(digest: Digest, image: string)
    ensures ShortImageHash(digest, image)[1] == HexDigit(digest(image)[0] % 16)
  {
    var bytes := digest(image);
    assert Hex(bytes) == [HexDigit(bytes[0] / 16), HexDigit(bytes[0] % 16)] + Hex(bytes[1..]);
  }

  lemma NamesDiffer(c: Ctx, x: string, y: string)
    requires Trim(x) == x && Trim(y) == y && c.lib.digest(x)[0] == 1 && c.lib.digest(y)[0] == 2
    ensures NameFor(c, x) != NameFor(c, y)
  {
    HashDigit(c.lib.digest, x);
    HashDigit(c.lib.digest, y);
    ShortHashShape(c.lib.digest, x);
    ShortHashShape(c.lib.digest, y);
    NamesCoincide(c.crName, ShortImageHash(c.lib.digest, x), c.crName, ShortImageHash(c.lib.digest, y));
  }

  lemma PairIsGood(c: Ctx, cr: CrView, x: string, y: string, pods: seq<Pod>)
    requires StampedJob(c, cr, x).Ok? && StampedJob(c, cr, y).Ok? && Trim(x) == x && NameFor(c, x) != NameFor(c, y)
    ensures var s, m, n := Pair(c, cr, x, y, pods), NameFor(c, x), NameFor(c, y);
            && Good(c, 0, s)
            && m in OwnedNames(c, s.jobs) && IsSucceeded(s.jobs[m]) && ImageRefOf(s.jobs[m]) == Some(x)
            && n in OwnedNames(c, s.jobs) && !IsSucceeded(s.jobs[n])
  {
    var s, m := Pair(c, cr, x, y, pods), NameFor(c, x);
    StampedJobIsFresh(c, cr, x);
    StampedJobIsFresh(c, cr, y);
    StatusKeepsIdentity(c, m, StampedJob(c, cr, x).value, s.jobs[m]);
    assert ImageRefOf(s.jobs[m]) == ImageRefOf(StampedJob(c, cr, x).value);
  }

  /** A stored, succeeded Job whose image the reconcile of `s` leaves without a record. */
  ghost predicate GoesUnrecorded(c: Ctx, cr: CrView, s: Server, name: string) {
    var s' := ReconcileOnce(c, cr, s.status, s).server;
    && Good(c, 0, s) && Runnable(c, cr) && Obliging(s.script)
    && name in s'.jobs && Owned(c.crName, s'.jobs[name]) && IsSucceeded(s'.jobs[name])
    && ImageRefOf(s'.jobs[name]).Some? && s'.status.Some?
    && !HasRecord(Images(s'.status), ImageRefOf(s'.jobs[name]).value)
  }

  ghost predicate SomeJobGoesUnrecorded() { exists c, cr, s, name :: GoesUnrecorded(c, cr, s, name) }

  lemma PairGoesUnrecorded(c: Ctx, cr: CrView, x: string, y: string, pods: seq<Pod>)
    requires Runnable(c, cr) && |cr.spec.target.namespaces| == 1 && ImagesInScope(pods) == {x}
    requires Trim(x) == x && Trim(y) == y && x != [] && y != []
    requires c.lib.digest(x)[0] == 1 && c.lib.digest(y)[0] == 2
    ensures SomeJobGoesUnrecorded()
  {
    BuildsExactlyWhenBuildable(c.lib.digest, cr.spec, c.crName, x);
    BuildsExactlyWhenBuildable(c.lib.digest, cr.spec, c.crName, y);
    NamesDiffer(c, x, y);
    var s, m := Pair(c, cr, x, y, pods), NameFor(c, x);
    PairIsGood(c, cr, x, y, pods);
    OneListing(c, cr, s, pods);
    SucceededJobGoesUnrecorded(c, cr, 0, s, m, NameFor(c, y));
    assert GoesUnrecorded(c, cr, s, m);
  }

  lemma ConcreteDigests()
    ensures CTX.lib.digest("x")[0] == 1 && CTX.lib.digest("xy")[0] == 2
  {
  }

  lemma ConcretePair() returns (c: Ctx, cr: CrView, pods: seq<Pod>)
    ensures c == CTX && cr == CR && Runnable(c, cr) && |cr.spec.target.namespaces| == 1 && ImagesInScope(pods) == {"x"}
    ensures Trim("x") == "x" && Trim("xy") == "xy" && c.lib.digest("x")[0] == 1 && c.lib.digest("xy")[0] == 2
  {
    ConcreteDigests();
    ConcreteCrRuns();
    PlainIsTrimmed("x");
    PlainIsTrimmed("xy");
    OnePodInScope("x");
    c, cr, pods := CTX, CR, [PodOf("x")];
  }

  /** the succeeded Job has no record after the reconcile, although it is still there to be read. */
  lemma UnrecordedExample()
    ensures SomeJobGoesUnrecorded()
  {
    var c, cr, pods := ConcretePair();
    PairGoesUnrecorded(c, cr, "x", "xy", pods);
  }
}
