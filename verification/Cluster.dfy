/** The API server as one operator sees it.

    The cluster moves on its own: Jobs make progress, Jobs are removed (TTL, garbage collection,
    the end of a foreground deletion, an administrator), other operators create Jobs, time passes.
    Any number of such events happen before each API call is served, and a call may fail, with or
    without having taken effect.  What happens is written down in a script, one entry per call;
    statements quantify over all scripts, so over all interleavings. */
module Cluster {
  import opened Basics
  import opened Rfc3339
  import opened Crd
  import opened JobName
  import opened ScanJob
  import opened Aggregator
  import opened Scheduler

  /** What stays fixed: the libraries, the name of the NamespaceScan, and where its Jobs live. */
  datatype Ctx = Ctx(lib: Lib, crName: string, operatorNamespace: string)

  datatype KubeError = Api(code: int, message: string) | Transport(message: string)

  datatype Failure = Failure(error: KubeError, tookEffect: bool)

  datatype Event =
    | Elapse(duration: nat)
    | Progress(name: string, status: JobStatus)
    | Remove(name: string)
    | MarkDeleting(name: string)
    | ForeignCreate(job: Job)

  datatype Call = Call(events: seq<Event>, failure: Option<Failure>, pods: seq<Pod>)

  datatype Server = Server(clock: Instant, jobs: map<string, Job>, status: Option<Status>, script: seq<Call>)

  const FORBIDDEN := 403
  const NOT_FOUND := 404
  const CONFLICT := 409

  // ---------------------------------------------------------------------------------------------
  // The environment.
  // ---------------------------------------------------------------------------------------------

  /** Job counters only grow, and a completion time is written once, to the whole second, when
      the Job has succeeded. */
  predicate Advances(before: Option<JobStatus>, after: Option<JobStatus>, clock: Instant) {
    && SucceededCount(before) <= SucceededCount(after)
    && FailedCount(before) <= FailedCount(after)
    && (CompletionOf(before).Some? ==> CompletionOf(after) == CompletionOf(before))
    && (CompletionOf(before).None? && CompletionOf(after).Some? ==>
          SucceededCount(after) >= 1 && CompletionOf(after).value == FloorSecond(clock))
  }

  /** Another tenant's Job: it does not carry this CR's label and does not take one of its names. */
  predicate IsForeign(c: Ctx, job: Job) {
    job.name.Some? && !Owned(c.crName, job) && !ClaimsName(c.crName, job.name.value)
  }

  /** One move of the environment.  A move the cluster would not make has no effect. */
  function ApplyEvent(c: Ctx, s: Server, e: Event): Server {
    match e
    case Elapse(d) => s.(clock := s.clock + d)
    case Progress(n, status) =>
      if n in s.jobs && Advances(s.jobs[n].status, Some(status), s.clock)
      then s.(jobs := s.jobs[n := s.jobs[n].(status := Some(status))]) else s
    case Remove(n) => s.(jobs := s.jobs - {n})
    case MarkDeleting(n) =>
      if n in s.jobs then s.(jobs := s.jobs[n := s.jobs[n].(deleting := true)]) else s
    case ForeignCreate(job) =>
      if IsForeign(c, job) && job.name.value !in s.jobs
      then s.(jobs := s.jobs[job.name.value := job]) else s
  }

  function ApplyEvents(c: Ctx, s: Server, es: seq<Event>): Server
    decreases es
  {
    if es == [] then s else ApplyEvents(c, ApplyEvent(c, s, es[0]), es[1..])
  }

  // ---------------------------------------------------------------------------------------------
  // API calls.
  // ---------------------------------------------------------------------------------------------

  /** The first call of a script, and the calls after it; a script that has run out lets calls
      succeed undisturbed. */
  function HeadCall(script: seq<Call>): Call {
    if script == [] then Call([], None, []) else script[0]
  }

  function TailCalls(script: seq<Call>): seq<Call> {
    if script == [] then [] else script[1..]
  }

  /** The call at `n`, and what is left after `n` calls. */
  function CallAt(script: seq<Call>, n: nat): Call {
    if n < |script| then script[n] else Call([], None, [])
  }

  function DropCalls(script: seq<Call>, n: nat): seq<Call> {
    if n == 0 then script else DropCalls(TailCalls(script), n - 1)
  }

  lemma TailCallAt(script: seq<Call>, n: nat)
    ensures CallAt(TailCalls(script), n) == CallAt(script, n + 1)
  {
  }

  lemma {:induction false} DroppedCallAt(script: seq<Call>, n: nat, k: nat)
    ensures CallAt(DropCalls(script, n), k) == CallAt(script, n + k)
  {
    if n > 0 {
      DroppedCallAt(TailCalls(script), n - 1, k);
      TailCallAt(script, n - 1 + k);
    }
  }

  function NextCall(s: Server): Call { HeadCall(s.script) }

  /** The environment moves, then the next call is served. */
  function Arrive(c: Ctx, s: Server): Server {
    ApplyEvents(c, s, NextCall(s).events).(script := TailCalls(s.script))
  }

  /** The failure scripted for a call.  The code by which the store itself reports its state (409
      for a create, 404 for a delete) is answered by the store alone. */
  function Injected(call: Call, storeCode: int): Option<Failure> {
    var f := call.failure;
    if f.Some? && f.value.error.Api? && f.value.error.code == storeCode then None else f
  }

  function ListPods(c: Ctx, s: Server): (Server, Result<seq<Pod>, KubeError>) {
    var call := NextCall(s);
    (Arrive(c, s), if call.failure.Some? then Err(call.failure.value.error) else Ok(call.pods))
  }

  function Add(s: Server, name: string, job: Job): Server {
    if name in s.jobs then s else s.(jobs := s.jobs[name := job])
  }

  function CreateJob(c: Ctx, s: Server, name: string, job: Job): (Server, Result<Job, KubeError>) {
    var failure := Injected(NextCall(s), CONFLICT);
    var s1 := Arrive(c, s);
    if failure.Some? then
      (if failure.value.tookEffect then Add(s1, name, job) else s1, Err(failure.value.error))
    else if name in s1.jobs then (s1, Err(Api(CONFLICT, "already exists")))
    else (Add(s1, name, job), Ok(job))
  }

  /** Foreground deletion: the Job is marked and stays until its pods are gone. */
  function Mark(s: Server, name: string): Server {
    if name in s.jobs then s.(jobs := s.jobs[name := s.jobs[name].(deleting := true)]) else s
  }

  function DeleteJob(c: Ctx, s: Server, name: string): (Server, Result<Job, KubeError>) {
    var failure := Injected(NextCall(s), NOT_FOUND);
    var s1 := Arrive(c, s);
    if failure.Some? then
      (if failure.value.tookEffect then Mark(s1, name) else s1, Err(failure.value.error))
    else if name !in s1.jobs then (s1, Err(Api(NOT_FOUND, "not found")))
    else (Mark(s1, name), Ok(s1.jobs[name]))
  }

  /** A delete that took effect, and the Job as it was stored at that moment. */
  datatype Deletion = Deletion(name: string, job: Job)

  /** What a delete does, whatever it answers: a call whose reply is lost may have taken effect. */
  function DeleteEffect(c: Ctx, s: Server, name: string): seq<Deletion> {
    var failure := Injected(NextCall(s), NOT_FOUND);
    var jobs := Arrive(c, s).jobs;
    if name in jobs && (failure.None? || failure.value.tookEffect) then [Deletion(name, jobs[name])] else []
  }

  /** The effect is all there is: the store after a delete is the store it met, with the Job of the
      effect, if any, marked; and an accepted delete has one. */
  lemma DeleteEffectIsExact(c: Ctx, s: Server, name: string)
    ensures var effect := DeleteEffect(c, s, name);
            && DeleteJob(c, s, name).0 == (if effect == [] then Arrive(c, s) else Mark(Arrive(c, s), name))
            && (effect != [] ==> name in Arrive(c, s).jobs && effect == [Deletion(name, Arrive(c, s).jobs[name])])
            && (DeleteJob(c, s, name).1.Ok? ==> effect != [])
            && (DeleteJob(c, s, name).1 == Err(Api(NOT_FOUND, "not found")) ==> effect == [])
  {
  }

  function OwnedNames(c: Ctx, jobs: map<string, Job>): set<string> {
    set n | n in jobs && Owned(c.crName, jobs[n])
  }

  /** The Jobs with this CR's label, in key order as the API server lists them. */
  function Listing(c: Ctx, jobs: map<string, Job>): seq<Job> {
    var names := SortedKeys(OwnedNames(c, jobs));
    seq(|names|, i requires 0 <= i < |names| => assert names[i] in names; jobs[names[i]])
  }

  function ListOwned(c: Ctx, s: Server): (Server, Result<seq<Job>, KubeError>) {
    var failure := NextCall(s).failure;
    var s1 := Arrive(c, s);
    (s1, if failure.Some? then Err(failure.value.error) else Ok(Listing(c, s1.jobs)))
  }

  /** A merge patch: fields the new status leaves out keep their stored value. */
  function MergePatch(stored: Option<Status>, patch: Status): Status {
    if stored.None? then patch
    else
      Status(patch.conditions,
             if patch.lastReconciledAt.Some? then patch.lastReconciledAt else stored.value.lastReconciledAt,
             if patch.lastScanCompletedAt.Some? then patch.lastScanCompletedAt else stored.value.lastScanCompletedAt,
             patch.scannedImages,
             if patch.nextScheduledScanAt.Some? then patch.nextScheduledScanAt else stored.value.nextScheduledScanAt)
  }

  function PatchStatus(c: Ctx, s: Server, status: Status): (Server, Option<KubeError>) {
    var failure := NextCall(s).failure;
    var s1 := Arrive(c, s);
    (if failure.None? || failure.value.tookEffect then s1.(status := Some(MergePatch(s1.status, status))) else s1,
     if failure.Some? then Some(failure.value.error) else None)
  }

  lemma ListingMembers(c: Ctx, jobs: map<string, Job>)
    ensures forall j :: j in Listing(c, jobs) <==> exists n :: n in jobs && Owned(c.crName, jobs[n]) && jobs[n] == j
  {
    var names := SortedKeys(OwnedNames(c, jobs));
    var listing := Listing(c, jobs);
    forall j | j in listing ensures exists n :: n in jobs && Owned(c.crName, jobs[n]) && jobs[n] == j {
      var i :| 0 <= i < |listing| && listing[i] == j;
      assert names[i] in names && jobs[names[i]] == j;
    }
    forall n | n in jobs && Owned(c.crName, jobs[n]) ensures jobs[n] in listing {
      assert n in names;
      var i :| 0 <= i < |names| && names[i] == n;
      assert listing[i] == jobs[n];
    }
  }

  // ---------------------------------------------------------------------------------------------
  // The store invariant.
  // ---------------------------------------------------------------------------------------------

  /** Every Job with this CR's label was built by this operator, every other Job stays off its
      names, and every owned Job that is not being deleted and has a completion time completed in
      the second of `since` or later. */
  ghost predicate GoodJob(c: Ctx, since: Instant, name: string, job: Job) {
    if Owned(c.crName, job) then
      && OperatorBuilt(c.lib.digest, c.crName, name, job)
      && (CompletionOf(job.status).Some? ==> SucceededCount(job.status) >= 1)
      && (!job.deleting && CompletionOf(job.status).Some? ==> CompletionOf(job.status).value >= FloorSecond(since))
    else !ClaimsName(c.crName, name)
  }

  ghost predicate Good(c: Ctx, since: Instant, s: Server) {
    since <= s.clock && forall n | n in s.jobs :: GoodJob(c, since, n, s.jobs[n])
  }

  lemma FloorIsMonotone(a: Instant, b: Instant)
    requires a <= b
    ensures FloorSecond(a) <= FloorSecond(b)
  {
  }

  lemma StatusKeepsIdentity(c: Ctx, name: string, job: Job, job': Job)
    requires job' == job.(status := job'.status, deleting := job'.deleting)
    ensures Owned(c.crName, job') <==> Owned(c.crName, job)
    ensures OperatorBuilt(c.lib.digest, c.crName, name, job') <==> OperatorBuilt(c.lib.digest, c.crName, name, job)
  {
    assert ImageRefOf(job') == ImageRefOf(job);
    assert HashLabelOf(job') == HashLabelOf(job);
  }

  lemma EventKeepsGood(c: Ctx, since: Instant, s: Server, e: Event)
    requires Good(c, since, s)
    ensures Good(c, since, ApplyEvent(c, s, e))
    ensures ApplyEvent(c, s, e).clock >= s.clock
    ensures ApplyEvent(c, s, e).status == s.status && ApplyEvent(c, s, e).script == s.script
  {
    var s' := ApplyEvent(c, s, e);
    FloorIsMonotone(since, s.clock);
    forall n | n in s'.jobs ensures GoodJob(c, since, n, s'.jobs[n]) {
      if n in s.jobs {
        assert GoodJob(c, since, n, s.jobs[n]);
        StatusKeepsIdentity(c, n, s.jobs[n], s'.jobs[n]);
      }
    }
  }

  lemma {:induction false} EventsKeepGood(c: Ctx, since: Instant, s: Server, es: seq<Event>)
    requires Good(c, since, s)
    ensures Good(c, since, ApplyEvents(c, s, es))
    ensures ApplyEvents(c, s, es).clock >= s.clock
    ensures ApplyEvents(c, s, es).status == s.status && ApplyEvents(c, s, es).script == s.script
    decreases es
  {
    if es != [] {
      EventKeepsGood(c, since, s, es[0]);
      EventsKeepGood(c, since, ApplyEvent(c, s, es[0]), es[1..]);
    }
  }

  lemma ArriveKeepsGood(c: Ctx, since: Instant, s: Server)
    requires Good(c, since, s)
    ensures Good(c, since, Arrive(c, s))
    ensures Arrive(c, s).clock >= s.clock && Arrive(c, s).status == s.status
  {
    EventsKeepGood(c, since, s, NextCall(s).events);
  }

  /** A Job fresh from the builder fits the invariant under its own name. */
  ghost predicate IsFresh(c: Ctx, name: string, job: Job) {
    && Owned(c.crName, job) && OperatorBuilt(c.lib.digest, c.crName, name, job)
    && !job.deleting && job.status.None?
  }

  lemma CreateKeepsGood(c: Ctx, since: Instant, s: Server, name: string, job: Job)
    requires Good(c, since, s) && IsFresh(c, name, job)
    ensures Good(c, since, CreateJob(c, s, name, job).0)
    ensures CreateJob(c, s, name, job).0.clock >= s.clock && CreateJob(c, s, name, job).0.status == s.status
  {
    ArriveKeepsGood(c, since, s);
    assert GoodJob(c, since, name, job);
  }

  lemma DeleteKeepsGood(c: Ctx, since: Instant, s: Server, name: string)
    requires Good(c, since, s)
    ensures Good(c, since, DeleteJob(c, s, name).0)
    ensures DeleteJob(c, s, name).0.clock >= s.clock && DeleteJob(c, s, name).0.status == s.status
  {
    ArriveKeepsGood(c, since, s);
    var s1 := Arrive(c, s);
    if name in s1.jobs {
      assert GoodJob(c, since, name, s1.jobs[name]);
      StatusKeepsIdentity(c, name, s1.jobs[name], s1.jobs[name].(deleting := true));
    }
  }

  // ---------------------------------------------------------------------------------------------
  // Without creates by the operator, no live owned Job appears.
  // ---------------------------------------------------------------------------------------------

  predicate Live(c: Ctx, s: Server, name: string) {
    name in s.jobs && Owned(c.crName, s.jobs[name]) && !s.jobs[name].deleting
  }

  ghost predicate NoneAppears(c: Ctx, s: Server, s': Server) {
    forall n | Live(c, s', n) :: Live(c, s, n)
  }

  lemma {:induction false} EventsAddNone(c: Ctx, s: Server, es: seq<Event>)
    ensures NoneAppears(c, s, ApplyEvents(c, s, es))
    decreases es
  {
    if es != [] {
      var s1 := ApplyEvent(c, s, es[0]);
      EventsAddNone(c, s1, es[1..]);
      forall n | Live(c, s1, n) ensures Live(c, s, n) {
        if n in s.jobs {
          StatusKeepsIdentity(c, n, s.jobs[n], s1.jobs[n]);
        }
      }
    }
  }

  lemma ArriveAddsNone(c: Ctx, s: Server)
    ensures NoneAppears(c, s, Arrive(c, s))
  {
    EventsAddNone(c, s, NextCall(s).events);
    var moved := ApplyEvents(c, s, NextCall(s).events);
    assert forall n :: Live(c, Arrive(c, s), n) <==> Live(c, moved, n);
  }

  lemma DeleteAddsNone(c: Ctx, s: Server, name: string)
    ensures NoneAppears(c, s, DeleteJob(c, s, name).0)
  {
    ArriveAddsNone(c, s);
    var s1, s2 := Arrive(c, s), DeleteJob(c, s, name).0;
    forall n | Live(c, s2, n) ensures Live(c, s1, n) {
      assert n != name ==> s2.jobs[n] == s1.jobs[n];
    }
  }
}
