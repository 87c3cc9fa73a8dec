/** The operator's own loops, run against a mutable API server and proved to compute the functions
    the other modules reason about. */
module Operator {
  import opened Basics
  import opened Rfc3339
  import opened Crd
  import opened Aggregator
  import opened Scheduler
  import opened Conditions
  import Cluster
  import Orchestrator
  import Reconcile

  class ApiServer {
    const ctx: Cluster.Ctx
    var clock: Instant
    var jobs: map<string, Job>
    var status: Option<Status>
    var script: seq<Cluster.Call>

    constructor (ctx: Cluster.Ctx, clock: Instant, jobs: map<string, Job>, status: Option<Status>,
                 script: seq<Cluster.Call>)
      ensures this.ctx == ctx && State() == Cluster.Server(clock, jobs, status, script)
    {
      this.ctx := ctx;
      this.clock := clock;
      this.jobs := jobs;
      this.status := status;
      this.script := script;
    }

    function State(): Cluster.Server
      reads this
    {
      Cluster.Server(clock, jobs, status, script)
    }

    method Become(s: Cluster.Server)
      modifies this
      ensures State() == s
    {
      clock, jobs, status, script := s.clock, s.jobs, s.status, s.script;
    }

    method ListPods() returns (answer: Result<seq<Pod>, Cluster.KubeError>)
      modifies this
      ensures (State(), answer) == Cluster.ListPods(ctx, old(State()))
    {
      var (s, r) := Cluster.ListPods(ctx, State());
      Become(s);
      answer := r;
    }

    method CreateJob(name: string, job: Job) returns (answer: Result<Job, Cluster.KubeError>)
      modifies this
      ensures (State(), answer) == Cluster.CreateJob(ctx, old(State()), name, job)
    {
      var (s, r) := Cluster.CreateJob(ctx, State(), name, job);
      Become(s);
      answer := r;
    }

    method DeleteJob(name: string) returns (answer: Result<Job, Cluster.KubeError>)
      modifies this
      ensures (State(), answer) == Cluster.DeleteJob(ctx, old(State()), name)
    {
      var (s, r) := Cluster.DeleteJob(ctx, State(), name);
      Become(s);
      answer := r;
    }

    method ListOwned() returns (answer: Result<seq<Job>, Cluster.KubeError>)
      modifies this
      ensures (State(), answer) == Cluster.ListOwned(ctx, old(State()))
    {
      var (s, r) := Cluster.ListOwned(ctx, State());
      Become(s);
      answer := r;
    }

    method PatchStatus(patch: Status) returns (error: Option<Cluster.KubeError>)
      modifies this
      ensures (State(), error) == Cluster.PatchStatus(ctx, old(State()), patch)
    {
      var (s, r) := Cluster.PatchStatus(ctx, State(), patch);
      Become(s);
      error := r;
    }
  }

  /** The pod-listing loop of `ensure_jobs`. */
  method ListTargets(api: ApiServer, namespaces: seq<string>) returns (r: Result<seq<Pod>, Orchestration>)
    modifies api
    ensures (api.State(), r) == Orchestrator.ListTargets(api.ctx, old(api.State()), namespaces, [])
  {
    var allPods: seq<Pod> := [];
    for i := 0 to |namespaces|
      invariant Orchestrator.ListTargets(api.ctx, old(api.State()), namespaces, [])
             == Orchestrator.ListTargets(api.ctx, api.State(), namespaces[i..], allPods)
    {
      assert namespaces[i..][1..] == namespaces[i + 1..];
      var answer := api.ListPods();
      match Orchestrator.ClassifyPodList(answer, namespaces[i])
      case Pods(pods) => allPods := allPods + pods;
      case NamespaceMissing =>
      case Denied(denial) => return Err(denial);
    }
    return Ok(allPods);
  }

  /** `ensure_jobs`. */
  method EnsureJobs(api: ApiServer, cr: Orchestrator.CrView) returns (result: Orchestration)
    modifies api
    ensures (api.State(), result) == Orchestrator.EnsureJobs(api.ctx, cr, old(api.State()))
  {
    var listed := ListTargets(api, cr.spec.target.namespaces);
    if listed.Err? {
      return listed.error;
    }
    var scope := Orchestrator.CollectImages(listed.value);
    if scope == {} {
      return NoImages;
    }
    result := CreateAll(api, cr, SortedKeys(scope));
  }

  /** The create loop of `ensure_jobs`. */
  method CreateAll(api: ApiServer, cr: Orchestrator.CrView, images: seq<string>) returns (result: Orchestration)
    modifies api
    ensures (api.State(), result) == Orchestrator.CreateAll(api.ctx, cr, old(api.State()), images, |images|)
  {
    var distinct := |images|;
    var created, preexisting := 0, 0;
    for i := 0 to |images|
      invariant Orchestrator.CreateAll(api.ctx, cr, old(api.State()), images, distinct)
             == Orchestrator.CreateAll(api.ctx, cr, api.State(), images[i..], distinct)
      invariant created + preexisting == i
    {
      assert images[i..][1..] == images[i + 1..];
      var job := Orchestrator.StampedJob(api.ctx, cr, images[i]);
      if job.Err? {
        return CannotBuildJob(images[i], job.error);
      }
      var answer := api.CreateJob(Orchestrator.NameFor(api.ctx, images[i]), job.value);
      match Orchestrator.ClassifyJobCreate(api.ctx, answer)
      case Created => created := created + 1;
      case Preexisting => preexisting := preexisting + 1;
      case CreateDenied(denial) => return denial;
    }
    return Spawned(distinct);
  }

  /** `cleanup_terminal_jobs`: the number returned is the number of Jobs the loop deleted. */
  method CleanupTerminalJobs(api: ApiServer, owned: seq<Job>) returns (deleted: nat, ok: bool)
    modifies api
    ensures var (s, log, done) := Reconcile.Cleanup(api.ctx, old(api.State()), owned);
            api.State() == s && ok == done && (ok ==> deleted == |log|)
  {
    deleted, ok := 0, true;
    for i := 0 to |owned|
      invariant var (s, log, done) := Reconcile.Cleanup(api.ctx, old(api.State()), owned);
                var (s', log', done') := Reconcile.Cleanup(api.ctx, api.State(), owned[i..]);
                s == s' && done == done' && |log| == deleted + |log'|
    {
      assert owned[i..][1..] == owned[i + 1..];
      var job := owned[i];
      if !IsTerminal(job) || job.name.None? {
        continue;
      }
      var answer := api.DeleteJob(job.name.value);
      if answer.Ok? {
        deleted := deleted + 1;
      } else if !(answer.error.Api? && answer.error.code == Cluster.NOT_FOUND) {
        ok := false;
        return;
      }
    }
  }

  /** The Job half of the scan stage, after `Spawned`. */
  method Aggregate(api: ApiServer, cr: Orchestrator.CrView, seen: Option<Status>, scanning: Status, now: Instant,
                   ghost o: Orchestration)
    returns (status: Option<Status>)
    modifies api
    ensures var pass := Reconcile.AggregatePass(api.ctx, cr, seen, scanning, old(api.State()), o, now);
            api.State() == pass.server && status == pass.status
  {
    var owned := api.ListOwned();
    match owned
    case Err(_) => status := None;
    case Ok(jobs) =>
      var outcome := Aggregator.Aggregate(jobs, cr.spec, api.clock);
      status := Some(StatusWithOutcome(scanning, seen, outcome, now));
  }

  method Scan(api: ApiServer, cr: Orchestrator.CrView, seen: Option<Status>) returns (status: Option<Status>)
    modifies api
    ensures var pass := Reconcile.Scan(api.ctx, cr, seen, old(api.State()));
            api.State() == pass.server && status == pass.status
  {
    var now := api.clock;
    var base := DesiredStatus(api.ctx.lib, cr.spec, now, seen);
    if ReasonOf(base) == Some(InvalidSpec) || cr.uid.GetOr("") == "" {
      return Some(base);
    }
    var orchestration := EnsureJobs(api, cr);
    var scanning := StatusWithOrchestration(base, seen, orchestration, now);
    if !orchestration.Spawned? {
      return Some(scanning);
    }
    status := Aggregate(api, cr, seen, scanning, now, orchestration);
  }

  /** The schedule stage: whether a fire happened, and the status to patch unless it was abandoned. */
  method HonourSchedule(api: ApiServer, cr: Orchestrator.CrView, status: Status, now: Instant)
    returns (planned: Option<Status>, fired: bool)
    modifies api
    ensures var pass := Reconcile.FireStage(api.ctx, cr, old(api.State()), status, now);
            api.State() == pass.server && planned == pass.status && fired == pass.fire.Some?
  {
    var next := Reconcile.NextScheduled(api.ctx, cr, status, now);
    if !Reconcile.IsTerminalReason(ReasonOf(status)) || next.None? {
      return Some(status), false;
    }
    var withNext := status.(nextScheduledScanAt := next);
    if !IsScheduleDue(next.value, now) {
      return Some(withNext), false;
    }
    var owned := api.ListOwned();
    if owned.Err? {
      return None, true;
    }
    var deleted, ok := CleanupTerminalJobs(api, owned.value);
    return if ok then Some(withNext) else None, true;
  }

  /** `reconcile`: the requeue interval, or none when it ended in an error. */
  method ReconcileOnce(api: ApiServer, cr: Orchestrator.CrView, seen: Option<Status>) returns (requeue: Option<int>)
    modifies api
    ensures var r := Reconcile.ReconcileOnce(api.ctx, cr, seen, old(api.State()));
            api.State() == r.server && requeue == r.requeue
  {
    var now := api.clock;
    var scanned := Scan(api, cr, seen);
    if scanned.None? {
      return None;
    }
    var planned, fired := HonourSchedule(api, cr, scanned.value, now);
    if planned.None? {
      return None;
    }
    var error := api.PatchStatus(planned.value);
    if error.Some? {
      return None;
    }
    return Some(if fired then Reconcile.FIRE_REQUEUE
        else Reconcile.NextRequeue(planned.value.nextScheduledScanAt, now));
  }
}
