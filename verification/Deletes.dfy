/** Deleting from a stale snapshot. */
module Deletes {
  import opened Basics
  import opened Rfc3339
  import opened Crd
  import opened JobName
  import opened ScanJob
  import opened Aggregator
  import opened Cluster
  import opened Orchestrator
  import opened Reconcile

  // ---------------------------------------------------------------------------------------------
  // Terminal Jobs stay terminal.
  // ---------------------------------------------------------------------------------------------

  /** If a Job is stored under the name, it is terminal. */
  predicate TerminalIfThere(s: Server, name: string) {
    name in s.jobs ==> IsTerminal(s.jobs[name])
  }

  lemma {:induction false} EventsKeepTerminal(c: Ctx, s: Server, es: seq<Event>, name: string)
    requires ClaimsName(c.crName, name) && TerminalIfThere(s, name)
    ensures TerminalIfThere(ApplyEvents(c, s, es), name)
    decreases es
  {
    if es != [] {
      var s1 := ApplyEvent(c, s, es[0]);
      if name in s1.jobs && name in s.jobs {
        assert s1.jobs[name].spec == s.jobs[name].spec;
      }
      EventsKeepTerminal(c, s1, es[1..], name);
    }
  }

  lemma DeleteKeepsTerminal(c: Ctx, s: Server, deleted: string, name: string)
    requires ClaimsName(c.crName, name) && TerminalIfThere(s, name)
    ensures TerminalIfThere(Arrive(c, s), name)
    ensures TerminalIfThere(DeleteJob(c, s, deleted).0, name)
  {
    EventsKeepTerminal(c, s, NextCall(s).events, name);
  }

  /** What the snapshot calls terminal is terminal in the store, if it is still there. */
  ghost predicate SnapshotHolds(c: Ctx, s: Server, snapshot: seq<Job>) {
    forall j | j in snapshot && j.name.Some? ::
      ClaimsName(c.crName, j.name.value) && (IsTerminal(j) ==> TerminalIfThere(s, j.name.value))
  }

  lemma FreshSnapshotHolds(c: Ctx, since: Instant, s: Server)
    requires Good(c, since, s)
    ensures SnapshotHolds(c, s, Listing(c, s.jobs))
  {
    ListingMembers(c, s.jobs);
    forall j | j in Listing(c, s.jobs)
      ensures j.name.Some? && ClaimsName(c.crName, j.name.value) && (IsTerminal(j) ==> TerminalIfThere(s, j.name.value))
    {
      var n :| n in s.jobs && Owned(c.crName, s.jobs[n]) && s.jobs[n] == j;
      OwnedJobIsNamed(c, since, s, n);
    }
  }

  lemma OwnedJobIsNamed(c: Ctx, since: Instant, s: Server, name: string)
    requires Good(c, since, s) && name in s.jobs && Owned(c.crName, s.jobs[name])
    ensures s.jobs[name].name == Some(name) && ClaimsName(c.crName, name)
  {
    assert GoodJob(c, since, name, s.jobs[name]);
    ClaimsOwnNames(c.crName, ShortImageHash(c.lib.digest, ImageRefOf(s.jobs[name]).value));
  }

  // ---------------------------------------------------------------------------------------------
  // The cleanup loop.
  // ---------------------------------------------------------------------------------------------

  /** The head of the snapshot is one the loop sends a delete for. */
  predicate Targets(job: Job) { IsTerminal(job) && job.name.Some? }

  /** However the cluster moves between the deletes, and whether or not their replies arrive: each Job a
      delete takes effect on is, at that moment, terminal, and was terminal in the snapshot; a Job that
      is gone answers 404 and nothing is deleted. */
  lemma {:induction false} CleanupDeletesOnlyTerminal(c: Ctx, s: Server, snapshot: seq<Job>)
    requires SnapshotHolds(c, s, snapshot)
    ensures forall d | d in Cleanup(c, s, snapshot).1 ::
              IsTerminal(d.job) && exists j | j in snapshot :: Targets(j) && j.name == Some(d.name)
    decreases snapshot
  {
    if snapshot != [] {
      var head, rest := snapshot[0], snapshot[1..];
      assert head in snapshot;
      if !Targets(head) {
        CleanupDeletesOnlyTerminal(c, s, rest);
      } else {
        var name := head.name.value;
        var (s1, answer) := DeleteJob(c, s, name);
        forall j | j in rest && j.name.Some?
          ensures ClaimsName(c.crName, j.name.value) && (IsTerminal(j) ==> TerminalIfThere(s1, j.name.value))
        {
          assert j in snapshot;
          if IsTerminal(j) { DeleteKeepsTerminal(c, s, name, j.name.value); }
        }
        DeleteKeepsTerminal(c, s, name, name);
        DeleteEffectIsExact(c, s, name);
        CleanupDeletesOnlyTerminal(c, s1, rest);
      }
    }
  }

  /** The same for the operator's own snapshot: the deletes of a fire are safe in every run of the
      cluster between the listing and the last delete. */
  lemma FireDeletesOnlyTerminal(c: Ctx, since: Instant, s: Server, planned: Crd.Status, fire: Fire)
    requires Good(c, since, s) && fire.log == []
    ensures forall d | d in RunFire(c, s, planned, fire).fire.value.log :: IsTerminal(d.job)
  {
    ArriveKeepsGood(c, since, s);
    var (s1, owned) := ListOwned(c, s);
    if owned.Ok? {
      FreshSnapshotHolds(c, since, s1);
      CleanupDeletesOnlyTerminal(c, s1, owned.value);
    }
  }

  /** Each Job the loop newly marks for deletion, its reply lost or not, had been stored, live, since the
      loop began. */
  lemma {:induction false} CleanupLogWasLive(c: Ctx, since: Instant, s: Server, snapshot: seq<Job>)
    requires Good(c, since, s)
    requires forall j | j in snapshot && j.name.Some? :: ClaimsName(c.crName, j.name.value)
    ensures forall d | d in Cleanup(c, s, snapshot).1 && !d.job.deleting :: Live(c, s, d.name)
    decreases snapshot
  {
    if snapshot != [] {
      var head, rest := snapshot[0], snapshot[1..];
      assert head in snapshot;
      if !Targets(head) {
        CleanupLogWasLive(c, since, s, rest);
      } else {
        var name := head.name.value;
        var s0 := Arrive(c, s);
        var (s1, answer) := DeleteJob(c, s, name);
        ArriveKeepsGood(c, since, s);
        ArriveAddsNone(c, s);
        DeleteKeepsGood(c, since, s, name);
        DeleteAddsNone(c, s, name);
        CleanupLogWasLive(c, since, s1, rest);
        if name in s0.jobs {
          assert GoodJob(c, since, name, s0.jobs[name]);
        }
      }
    }
  }

  /** Each Job a delete takes effect on is one this operator built for the CR. */
  lemma {:induction false} CleanupLogIsOwned(c: Ctx, since: Instant, s: Server, snapshot: seq<Job>)
    requires Good(c, since, s)
    requires forall j | j in snapshot && j.name.Some? :: ClaimsName(c.crName, j.name.value)
    ensures forall d | d in Cleanup(c, s, snapshot).1 :: OperatorBuilt(c.lib.digest, c.crName, d.name, d.job)
    decreases snapshot
  {
    if snapshot != [] {
      var head, rest := snapshot[0], snapshot[1..];
      assert head in snapshot;
      if !Targets(head) {
        CleanupLogIsOwned(c, since, s, rest);
      } else {
        var name := head.name.value;
        var s0 := Arrive(c, s);
        ArriveKeepsGood(c, since, s);
        DeleteKeepsGood(c, since, s, name);
        CleanupLogIsOwned(c, since, DeleteJob(c, s, name).0, rest);
        if name in s0.jobs {
          assert GoodJob(c, since, name, s0.jobs[name]);
        }
      }
    }
  }

  /** In figures: whatever happens during a fire, each Job it deletes had a pod that succeeded or three
      that failed at that moment. */
  lemma FireDeletesByCounts(c: Ctx, since: Instant, s: Server, planned: Crd.Status, fire: Fire)
    requires Good(c, since, s) && fire.log == []
    ensures forall d | d in RunFire(c, s, planned, fire).fire.value.log ::
              PodSucceeded(d.job) || ThreePodsFailed(d.job)
  {
    FireDeletesOnlyTerminal(c, since, s, planned, fire);
    ArriveKeepsGood(c, since, s);
    var (s1, owned) := ListOwned(c, s);
    if owned.Ok? {
      FreshSnapshotHolds(c, since, s1);
      CleanupLogIsOwned(c, since, s1, owned.value);
      forall d | d in RunFire(c, s, planned, fire).fire.value.log
        ensures PodSucceeded(d.job) || ThreePodsFailed(d.job)
      {
        EndsByCounts(c.lib.digest, c.crName, d.name, d.job);
      }
    }
  }

  // ---------------------------------------------------------------------------------------------
  // What an undisturbed fire deletes.
  // ---------------------------------------------------------------------------------------------

  /** The names the loop sends deletes for. */
  function Doomed(snapshot: seq<Job>): seq<string> {
    if snapshot == [] then []
    else (if Targets(snapshot[0]) then [snapshot[0].name.value] else []) + Doomed(snapshot[1..])
  }

  function Elements(names: seq<string>): set<string> { set n | n in names }

  /** `jobs` with the named ones marked for deletion. */
  function MarkAll(jobs: map<string, Job>, names: set<string>): map<string, Job> {
    map n | n in jobs :: if n in names then jobs[n].(deleting := true) else jobs[n]
  }

  lemma MarkOneMore(s: Server, name: string, names: set<string>)
    ensures MarkAll(Mark(s, name).jobs, names) == MarkAll(s.jobs, {name} + names)
  {
    var jobs := Mark(s, name).jobs;
    assert jobs.Keys == s.jobs.Keys;
    assert forall n | n in jobs :: MarkAll(jobs, names)[n] == MarkAll(s.jobs, {name} + names)[n];
  }

  lemma {:induction false} CleanupUndisturbed(c: Ctx, s: Server, snapshot: seq<Job>)
    requires Obliging(s.script)
    requires forall j | j in snapshot && Targets(j) :: j.name.value in s.jobs
    ensures var (s', log, done) := Cleanup(c, s, snapshot);
            && done && |log| == |Doomed(snapshot)| && s'.jobs == MarkAll(s.jobs, Elements(Doomed(snapshot)))
            && s'.clock == s.clock && s'.status == s.status && Obliging(s'.script)
    decreases snapshot
  {
    if snapshot == [] {
      assert MarkAll(s.jobs, {}) == s.jobs;
    } else {
      var head, rest := snapshot[0], snapshot[1..];
      assert head in snapshot;
      if !Targets(head) {
        assert Doomed(snapshot) == Doomed(rest);
        CleanupUndisturbed(c, s, rest);
      } else {
        var name := head.name.value;
        StillArrive(c, s);
        CleanupUndisturbed(c, DeleteJob(c, s, name).0, rest);
        MarkOneMore(s, name, Elements(Doomed(rest)));
        assert Elements(Doomed(snapshot)) == {name} + Elements(Doomed(rest));
      }
    }
  }

  /** Any failure but 404, which stands for a Job that is gone already, refuses a delete. */
  predicate RefusesDelete(call: Call) {
    call.failure.Some? && !(call.failure.value.error.Api? && call.failure.value.error.code == 404)
  }

  predicate DeleteRefused(script: seq<Call>, n: nat) { exists i | 0 <= i < n :: RefusesDelete(CallAt(script, i)) }

  lemma RefusedLater(script: seq<Call>, n: nat)
    ensures DeleteRefused(script, n + 1) <==> RefusesDelete(HeadCall(script)) || DeleteRefused(TailCalls(script), n)
  {
    if i :| 0 <= i < n + 1 && RefusesDelete(CallAt(script, i)) {
      if i > 0 { TailCallAt(script, i - 1); }
    }
    assert CallAt(script, 0) == HeadCall(script);
    if i :| 0 <= i < n && RefusesDelete(CallAt(TailCalls(script), i)) {
      TailCallAt(script, i);
    }
  }

  /** In every interleaving the loop runs to its end exactly when none of its deletes is refused: one call
      a Job of the snapshot that ended. */
  lemma {:induction false} CleanupEndsExactly(c: Ctx, s: Server, snapshot: seq<Job>)
    ensures Cleanup(c, s, snapshot).2 <==> !DeleteRefused(s.script, |Doomed(snapshot)|)
    decreases snapshot
  {
    if snapshot != [] {
      var head, rest := snapshot[0], snapshot[1..];
      if !Targets(head) {
        assert Doomed(snapshot) == Doomed(rest);
        CleanupEndsExactly(c, s, rest);
      } else {
        CleanupEndsExactly(c, DeleteJob(c, s, head.name.value).0, rest);
        RefusedLater(s.script, |Doomed(rest)|);
      }
    }
  }

  /** So a fire completes, and its status is patched, exactly when neither its listing nor any of its
      deletes is refused: one delete a listed Job that ended. */
  lemma FireCompletesExactly(c: Ctx, since: Instant, s: Server, planned: Crd.Status, fire: Fire)
    requires Good(c, since, s) && !fire.completed
    ensures var r := RunFire(c, s, planned, fire);
            && r.fire.Some? && (r.status.Some? <==> r.fire.value.completed)
            && (r.fire.value.completed <==>
                  HeadCall(s.script).failure.None?
                  && !DeleteRefused(TailCalls(s.script), |TerminalNames(c, Arrive(c, s).jobs)|))
  {
    var s1 := Arrive(c, s);
    ArriveKeepsGood(c, since, s);
    CleanupEndsExactly(c, s1, Listing(c, s1.jobs));
    DoomedIsTerminal(c, since, s1);
  }

  lemma {:induction false} DoomedExactly(snapshot: seq<Job>, name: string)
    ensures name in Doomed(snapshot) <==> exists j | j in snapshot :: Targets(j) && j.name.value == name
  {
    if snapshot != [] {
      DoomedExactly(snapshot[1..], name);
      assert snapshot == [snapshot[0]] + snapshot[1..];
    }
  }

  /** Distinct names are counted once each. */
  lemma {:induction false} DoomedCount(snapshot: seq<Job>, names: set<string>)
    requires forall i, j | 0 <= i < j < |snapshot| :: snapshot[i].name != snapshot[j].name
    requires forall n :: n in names <==> n in Doomed(snapshot)
    ensures |Doomed(snapshot)| == |names|
    decreases snapshot
  {
    if snapshot == [] {
      assert names == {};
    } else {
      var head, rest := snapshot[0], snapshot[1..];
      if Targets(head) {
        DoomedExactly(rest, head.name.value);
        assert forall i | 0 <= i < |rest| :: rest[i] == snapshot[i + 1];
        DoomedCount(rest, names - {head.name.value});
      } else {
        DoomedCount(rest, names);
      }
    }
  }

  /** The Jobs a fire is meant to delete. */
  function TerminalNames(c: Ctx, jobs: map<string, Job>): set<string> {
    set n | n in jobs && Owned(c.crName, jobs[n]) && IsTerminal(jobs[n])
  }

  /** `jobs` with every terminal owned Job marked for deletion. */
  function Marked(c: Ctx, jobs: map<string, Job>): map<string, Job> {
    MarkAll(jobs, TerminalNames(c, jobs))
  }

  /** An undisturbed fire marks exactly the terminal owned Jobs, touches nothing else, and counts
      each of them once. */
  lemma FireMarksExactly(c: Ctx, floor: Instant, s: Server, planned: Crd.Status, fire: Fire)
    requires Good(c, floor, s) && Obliging(s.script)
    ensures var r := RunFire(c, s, planned, fire);
            && r.status == Some(planned) && r.fire.value.completed
            && |r.fire.value.log| == |TerminalNames(c, s.jobs)|
            && r.server.jobs == Marked(c, s.jobs)
            && (forall n | n in s.jobs :: MarksByCounts(c, s.jobs, r.server.jobs, n))
            && r.server.clock == s.clock && r.server.status == s.status && Obliging(r.server.script)
  {
    StillArrive(c, s);
    CleanupMarksExactly(c, floor, ListOwned(c, s).0);
    forall n | n in s.jobs ensures MarksByCounts(c, s.jobs, Marked(c, s.jobs), n) {
      assert GoodJob(c, floor, n, s.jobs[n]);
      if Owned(c.crName, s.jobs[n]) { EndsByCounts(c.lib.digest, c.crName, n, s.jobs[n]); }
    }
  }

  /** The Job is left as it was, but marked if it is the CR's and ended: a pod succeeded or three failed. */
  predicate MarksByCounts(c: Ctx, jobs: map<string, Job>, jobs': map<string, Job>, n: string)
    requires n in jobs
  {
    && n in jobs'
    && jobs'[n] == jobs[n].(deleting := jobs[n].deleting
                                         || (Owned(c.crName, jobs[n])
                                             && (PodSucceeded(jobs[n]) || ThreePodsFailed(jobs[n]))))
  }

  lemma CleanupMarksExactly(c: Ctx, floor: Instant, s: Server)
    requires Good(c, floor, s) && Obliging(s.script)
    ensures var (s', log, done) := Cleanup(c, s, Listing(c, s.jobs));
            && done && |log| == |TerminalNames(c, s.jobs)| && s'.jobs == Marked(c, s.jobs)
            && s'.clock == s.clock && s'.status == s.status && Obliging(s'.script)
  {
    DoomedIsTerminal(c, floor, s);
    assert Elements(Doomed(Listing(c, s.jobs))) == TerminalNames(c, s.jobs);
    CleanupUndisturbed(c, s, Listing(c, s.jobs));
  }

  lemma DoomedIsTerminal(c: Ctx, floor: Instant, s: Server)
    requires Good(c, floor, s)
    ensures forall n :: n in Doomed(Listing(c, s.jobs)) <==> n in TerminalNames(c, s.jobs)
    ensures |Doomed(Listing(c, s.jobs))| == |TerminalNames(c, s.jobs)|
    ensures forall j | j in Listing(c, s.jobs) && Targets(j) :: j.name.value in s.jobs
  {
    var listing := Listing(c, s.jobs);
    forall n ensures n in Doomed(listing) <==> n in TerminalNames(c, s.jobs) {
      DoomedNames(c, floor, s, n);
    }
    ListedNamesDiffer(c, floor, s);
    DoomedCount(listing, TerminalNames(c, s.jobs));
    forall j | j in listing && Targets(j) ensures j.name.value in s.jobs {
      DoomedExactly(listing, j.name.value);
    }
  }

  lemma DoomedNames(c: Ctx, floor: Instant, s: Server, name: string)
    requires Good(c, floor, s)
    ensures name in Doomed(Listing(c, s.jobs)) <==> name in TerminalNames(c, s.jobs)
  {
    DoomedExactly(Listing(c, s.jobs), name);
    ListingMembers(c, s.jobs);
    if name in TerminalNames(c, s.jobs) {
      OwnedJobIsNamed(c, floor, s, name);
    }
    if j :| j in Listing(c, s.jobs) && Targets(j) && j.name.value == name {
      var n :| n in s.jobs && Owned(c.crName, s.jobs[n]) && s.jobs[n] == j;
      OwnedJobIsNamed(c, floor, s, n);
    }
  }

  lemma ListedNamesDiffer(c: Ctx, floor: Instant, s: Server)
    requires Good(c, floor, s)
    ensures var listing := Listing(c, s.jobs);
            forall i, j | 0 <= i < j < |listing| :: listing[i].name != listing[j].name
  {
    var names, listing := SortedKeys(OwnedNames(c, s.jobs)), Listing(c, s.jobs);
    forall i | 0 <= i < |listing| ensures listing[i].name == Some(names[i]) {
      assert names[i] in names;
      OwnedJobIsNamed(c, floor, s, names[i]);
    }
    forall i, j | 0 <= i < j < |listing| ensures listing[i].name != listing[j].name {
      LessAsymmetric(names[i], names[j]);
    }
  }

  // ---------------------------------------------------------------------------------------------
  // No Job is counted twice.
  // ---------------------------------------------------------------------------------------------

  ghost predicate DistinctNames(log: seq<Deletion>) {
    forall i, j | 0 <= i < j < |log| :: log[i].name != log[j].name
  }

  lemma {:induction false} CleanupLogsDistinctNames(c: Ctx, s: Server, snapshot: seq<Job>)
    requires forall i, j | 0 <= i < j < |snapshot| :: snapshot[i].name != snapshot[j].name
    ensures DistinctNames(Cleanup(c, s, snapshot).1)
    ensures forall d | d in Cleanup(c, s, snapshot).1 :: d.name in Doomed(snapshot)
    decreases snapshot
  {
    if snapshot != [] {
      var head, rest := snapshot[0], snapshot[1..];
      assert forall i | 0 <= i < |rest| :: rest[i] == snapshot[i + 1];
      if !Targets(head) {
        CleanupLogsDistinctNames(c, s, rest);
      } else {
        CleanupLogsDistinctNames(c, DeleteJob(c, s, head.name.value).0, rest);
        DoomedExactly(rest, head.name.value);
      }
    }
  }

  /** Whatever happens during a fire, its log names each Job at most once. */
  lemma FireLogsDistinctNames(c: Ctx, since: Instant, s: Server, planned: Crd.Status, fire: Fire)
    requires Good(c, since, s) && fire.log == []
    ensures DistinctNames(RunFire(c, s, planned, fire).fire.value.log)
  {
    ArriveKeepsGood(c, since, s);
    var (s1, owned) := ListOwned(c, s);
    if owned.Ok? {
      ListedNamesDiffer(c, since, s1);
      CleanupLogsDistinctNames(c, s1, owned.value);
    }
  }

  // ---------------------------------------------------------------------------------------------
  // What is left after a cleanup.
  // ---------------------------------------------------------------------------------------------

  /** A live owned Job that completed before the second of `mark`. */
  predicate Old(c: Ctx, mark: Instant, s: Server, name: string) {
    Live(c, s, name) && CompletionOf(s.jobs[name].status).Some?
    && CompletionOf(s.jobs[name].status).value < FloorSecond(mark)
  }

  lemma {:induction false} EventsMakeNoneOld(c: Ctx, mark: Instant, s: Server, es: seq<Event>, name: string)
    requires mark <= s.clock && Old(c, mark, ApplyEvents(c, s, es), name)
    ensures Old(c, mark, s, name)
    decreases es
  {
    if es != [] {
      var s1 := ApplyEvent(c, s, es[0]);
      EventsMakeNoneOld(c, mark, s1, es[1..], name);
      EventsAddNone(c, s, [es[0]]);
      assert ApplyEvents(c, s, [es[0]]) == s1 by { assert [es[0]][1..] == []; }
      assert Live(c, s, name);
      FloorIsMonotone(mark, s.clock);
    }
  }

  lemma {:induction false} EventsMoveClock(c: Ctx, s: Server, es: seq<Event>)
    ensures ApplyEvents(c, s, es).clock >= s.clock
    decreases es
  {
    if es != [] {
      EventsMoveClock(c, ApplyEvent(c, s, es[0]), es[1..]);
    }
  }

  lemma ArriveMakesNoneOld(c: Ctx, mark: Instant, s: Server, name: string)
    requires mark <= s.clock
    ensures Old(c, mark, Arrive(c, s), name) ==> Old(c, mark, s, name)
    ensures Arrive(c, s).clock >= s.clock
  {
    EventsMoveClock(c, s, NextCall(s).events);
    if Old(c, mark, Arrive(c, s), name) {
      assert Old(c, mark, ApplyEvents(c, s, NextCall(s).events), name);
      EventsMakeNoneOld(c, mark, s, NextCall(s).events, name);
    }
  }

  lemma DeleteMakesNoneOld(c: Ctx, mark: Instant, s: Server, deleted: string, name: string)
    requires mark <= s.clock
    ensures Old(c, mark, DeleteJob(c, s, deleted).0, name) ==> Old(c, mark, s, name)
    ensures DeleteJob(c, s, deleted).0.clock >= s.clock
    ensures DeleteJob(c, s, deleted).1.Ok? || DeleteJob(c, s, deleted).1 == Err(Api(NOT_FOUND, "not found")) ==>
              !Live(c, DeleteJob(c, s, deleted).0, deleted)
  {
    ArriveMakesNoneOld(c, mark, s, name);
  }

  lemma NotFoundMeansAbsent(c: Ctx, s: Server, name: string)
    requires DeleteJob(c, s, name).1.Err? && DeleteJob(c, s, name).1.error.Api?
             && DeleteJob(c, s, name).1.error.code == NOT_FOUND
    ensures name !in DeleteJob(c, s, name).0.jobs
  {
  }

  /** After a cleanup that ran to its end, a Job that completed before `mark` and is still live was
      so before, and the snapshot did not show it as terminal. */
  lemma {:induction false} CleanupRemovesOld(c: Ctx, mark: Instant, s: Server, snapshot: seq<Job>, name: string)
    requires mark <= s.clock && Cleanup(c, s, snapshot).2 && Old(c, mark, Cleanup(c, s, snapshot).0, name)
    ensures Old(c, mark, s, name)
    ensures forall j | j in snapshot && j.name == Some(name) :: !IsTerminal(j)
    decreases snapshot
  {
    if snapshot != [] {
      var head, rest := snapshot[0], snapshot[1..];
      if !Targets(head) {
        CleanupRemovesOld(c, mark, s, rest, name);
      } else {
        var deleted := head.name.value;
        var (s1, answer) := DeleteJob(c, s, deleted);
        DeleteMakesNoneOld(c, mark, s, deleted, name);
        CleanupRemovesOld(c, mark, s1, rest, name);
        if answer.Err? {
          NotFoundMeansAbsent(c, s, deleted);
        }
      }
    }
  }

  /** A completed fire raises the floor: every owned Job left live afterwards completed, if at all,
      in the second of the fire or later. */
  lemma CompletedFireRaisesFloor(c: Ctx, since: Instant, s: Server, planned: Crd.Status, fire: Fire)
    requires Good(c, since, s) && fire.at <= s.clock && !fire.completed
    requires RunFire(c, s, planned, fire).fire.value.completed
    ensures Good(c, fire.at, RunFire(c, s, planned, fire).server)
  {
    var s' := RunFire(c, s, planned, fire).server;
    RunFireKeepsGood(c, since, s, planned, fire);
    ArriveKeepsGood(c, since, s);
    var (s1, owned) := ListOwned(c, s);
    ListingMembers(c, s1.jobs);
    forall n | n in s'.jobs ensures GoodJob(c, fire.at, n, s'.jobs[n]) {
      assert GoodJob(c, since, n, s'.jobs[n]);
      if Old(c, fire.at, s', n) {
        CleanupRemovesOld(c, fire.at, s1, owned.value, n);
        assert GoodJob(c, since, n, s1.jobs[n]);
        assert s1.jobs[n] in owned.value && IsTerminal(s1.jobs[n]);
        assert false;
      }
    }
  }
}
