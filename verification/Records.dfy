/** The status record over whole runs. */
module Records {
  import opened Basics
  import opened Rfc3339
  import opened Crd
  import opened Aggregator
  import opened Scheduler
  import opened Conditions
  import opened Cluster
  import opened Orchestrator
  import opened Reconcile
  import opened Runs

  // ---------------------------------------------------------------------------------------------
  // One reconcile.
  // ---------------------------------------------------------------------------------------------

  /** `status` came out of the mappers at `now`, `scanned` being the records added. */
  predicate Leaves(status: Status, seen: Option<Status>, scanned: seq<ScannedImage>, now: Instant) {
    && |status.conditions| == 1 && status.conditions[0].reason.Some?
    && CarriesOnly(status, seen, status.conditions[0].status, status.conditions[0].reason.value, now)
    && status.lastReconciledAt == Some(now)
    && status.nextScheduledScanAt == NextAt(seen)
    && Recorded(seen, scanned, status)
  }

  lemma BaseLeaves(lib: Lib, spec: Spec, seen: Option<Status>, now: Instant)
    ensures Leaves(DesiredStatus(lib, spec, now, seen), seen, [], now)
  {
  }

  lemma OrchestrationLeaves(base: Status, seen: Option<Status>, result: Orchestration, now: Instant)
    requires Leaves(base, seen, [], now)
    ensures Leaves(StatusWithOrchestration(base, seen, result, now), seen, [], now)
  {
  }

  lemma OutcomeLeaves(scanning: Status, seen: Option<Status>, outcome: Outcome, now: Instant)
    requires Leaves(scanning, seen, [], now)
    ensures Leaves(StatusWithOutcome(scanning, seen, outcome, now), seen,
                   if outcome.AllSucceeded? then outcome.scanned else [], now)
  {
  }

  /** The three mappers in a row leave one Ready condition whose transition time follows the rule for
      the final (status, reason), although each of them overwrites the condition of the one before. */
  lemma ScanLeaves(c: Ctx, cr: CrView, seen: Option<Status>, s: Server) returns (scanned: seq<ScannedImage>)
    requires Scan(c, cr, seen, s).status.Some?
    ensures Leaves(Scan(c, cr, seen, s).status.value, seen, scanned, s.clock)
  {
    scanned := [];
    var base := DesiredStatus(c.lib, cr.spec, s.clock, seen);
    BaseLeaves(c.lib, cr.spec, seen, s.clock);
    if ReasonOf(base) != Some(InvalidSpec) && cr.uid.GetOr("") != "" {
      var (s1, orchestration) := EnsureJobs(c, cr, s);
      OrchestrationLeaves(base, seen, orchestration, s.clock);
      if orchestration.Spawned? {
        var scanning := StatusWithOrchestration(base, seen, orchestration, s.clock);
        var (s2, owned) := ListOwned(c, s1);
        var outcome := Aggregate(owned.value, cr.spec, s2.clock);
        OutcomeLeaves(scanning, seen, outcome, s.clock);
        scanned := if outcome.AllSucceeded? then outcome.scanned else [];
      }
    }
  }

  /** Any other scan records nothing, however many of its Jobs have succeeded: a succeeded Job enters
      the record only together with all the others. */
  lemma OtherScansRecordNothing(c: Ctx, cr: CrView, seen: Option<Status>, s: Server)
    requires Scan(c, cr, seen, s).status.Some?
    requires ReasonOf(Scan(c, cr, seen, s).status.value) != Some(ScanCompleted)
    ensures Recorded(seen, [], Scan(c, cr, seen, s).status.value)
  {
    var base := DesiredStatus(c.lib, cr.spec, s.clock, seen);
    BaseLeaves(c.lib, cr.spec, seen, s.clock);
    if ReasonOf(base) != Some(InvalidSpec) && cr.uid.GetOr("") != "" {
      OrchestrationLeaves(base, seen, EnsureJobs(c, cr, s).1, s.clock);
    }
  }

  /** Nothing but the final patch touches the stored status. */
  lemma StoredStatus(c: Ctx, cr: CrView, seen: Option<Status>, floor: Instant, s: Server)
    requires Good(c, floor, s)
    ensures var r := ReconcileOnce(c, cr, seen, s);
            r.server.status == if r.patched.Some? then Some(MergePatch(s.status, r.patched.value)) else s.status
  {
    ScanKeepsGood(c, cr, seen, floor, s);
    var scan := Scan(c, cr, seen, s);
    if scan.status.Some? {
      FireStageKeepsGood(c, cr, floor, scan.server, scan.status.value, s.clock);
      var firing := FireStage(c, cr, scan.server, scan.status.value, s.clock);
      if firing.status.Some? {
        ArriveKeepsGood(c, floor, firing.server);
      }
    }
  }

  /** The patch is a merge patch, but for the status the reconcile was computed from it replaces the
      stored one: the fields it leaves out were unset already. */
  lemma PatchReplaces(c: Ctx, cr: CrView, s: Server)
    requires ReconcileOnce(c, cr, s.status, s).patched.Some?
    ensures var p := ReconcileOnce(c, cr, s.status, s).patched.value; MergePatch(s.status, p) == p
  {
    PatchedIsPlanned(c, cr, s.status, s);
    var scanned := ScanLeaves(c, cr, s.status, s);
    LatestIsLatest(LastCompleted(s.status), scanned);
  }

  // ---------------------------------------------------------------------------------------------
  // The record invariant.
  // ---------------------------------------------------------------------------------------------

  /** One record per image, in order, none later than the last completion. */
  ghost predicate Bounded(images: seq<ScannedImage>, last: Option<Instant>) {
    && SortedByRef(images)
    && forall i | 0 <= i < |images| :: last.Some? && images[i].completedAt <= last.value
  }

  ghost predicate RecordOk(images: seq<ScannedImage>, last: Option<Instant>) {
    Bounded(images, last) && (last.None? <==> images == [])
  }

  ghost predicate OneReady(status: Option<Status>) {
    status.Some? ==> |status.value.conditions| == 1 && status.value.conditions[0].kind == Ready
  }

  ghost predicate StatusOk(status: Option<Status>) {
    RecordOk(Images(status), LastCompleted(status)) && OneReady(status)
  }

  /** No image is forgotten and the last completion does not move back. */
  ghost predicate Grows(before: Option<Status>, after: Option<Status>) {
    && (forall r | HasRecord(Images(before), r) :: HasRecord(Images(after), r))
    && (LastCompleted(before).Some? ==>
          LastCompleted(after).Some? && LastCompleted(before).value <= LastCompleted(after).value)
  }

  lemma {:induction false} MergeKeepsRecord(images: seq<ScannedImage>, last: Option<Instant>,
                                            scanned: seq<ScannedImage>)
    requires RecordOk(images, last) && scanned != []
    ensures RecordOk(Merge(images, scanned), Latest(last, scanned))
    ensures forall r | HasRecord(images, r) :: HasRecord(Merge(images, scanned), r)
    ensures last.Some? ==> Latest(last, scanned).Some? && last.value <= Latest(last, scanned).value
  {
    var merged, latest := Merge(images, scanned), Latest(last, scanned);
    MergeExactly(images, scanned);
    LatestIsLatest(last, scanned);
    assert HasRecord(scanned, scanned[0].imageRef);
    assert HasRecord(merged, scanned[0].imageRef);
    forall i | 0 <= i < |merged| ensures merged[i].completedAt <= latest.value {
      MergedIsOld(images, last, scanned, i);
    }
  }

  lemma {:induction false} MergedIsOld(images: seq<ScannedImage>, last: Option<Instant>, scanned: seq<ScannedImage>,
                                       i: nat)
    requires Bounded(images, last) && scanned != [] && i < |Merge(images, scanned)|
    ensures Latest(last, scanned).Some? && Merge(images, scanned)[i].completedAt <= Latest(last, scanned).value
  {
    var s := Merge(images, scanned)[i];
    MergeExactly(images, scanned);
    LatestIsLatest(last, scanned);
    assert s in Merge(images, scanned);
    var k: nat :| IsLastRecord(images + scanned, k, s);
    if k < |images| {
      assert images[k] == s;
    } else {
      assert scanned[k - |images|] == s;
    }
  }

  lemma PassKeepsRecord(c: Ctx, cr: CrView, s: Server)
    requires StatusOk(s.status) && ReconcileOnce(c, cr, s.status, s).patched.Some?
    ensures StatusOk(ReconcileOnce(c, cr, s.status, s).patched)
    ensures Grows(s.status, ReconcileOnce(c, cr, s.status, s).patched)
  {
    PatchedIsPlanned(c, cr, s.status, s);
    var scanned := ScanLeaves(c, cr, s.status, s);
    if scanned != [] {
      MergeKeepsRecord(Images(s.status), LastCompleted(s.status), scanned);
    }
  }

  /** Every reconcile of the run reads the status last stored. */
  predicate AllFresh(moves: seq<Move>) {
    forall i | 0 <= i < |moves| && moves[i].Reconciles? :: moves[i].cache.Fresh?
  }

  lemma FreshRest(moves: seq<Move>)
    requires AllFresh(moves) && moves != []
    ensures AllFresh(moves[1..]) && (moves[0].Reconciles? ==> moves[0].cache.Fresh?)
  {
    assert forall i | 0 <= i < |moves[1..]| :: moves[1..][i] == moves[i + 1];
  }

  lemma StepKeepsRecord(c: Ctx, floor: Instant, s: Server, m: Move)
    requires Good(c, floor, s) && StatusOk(s.status) && (m.Reconciles? ==> m.cache.Fresh?)
    ensures StatusOk(Step(c, s, m).status) && Grows(s.status, Step(c, s, m).status)
  {
    if m.Reconciles? {
      var s0 := s.(script := m.script);
      StoredStatus(c, m.cr, s.status, floor, s0);
      if Pass(c, s, m).patched.Some? {
        PassKeepsRecord(c, m.cr, s0);
        PatchReplaces(c, m.cr, s0);
      }
    } else {
      EventKeepsGood(c, floor, s, m.event);
    }
  }

  lemma GrowsTransitive(a: Option<Status>, b: Option<Status>, d: Option<Status>)
    requires Grows(a, b) && Grows(b, d)
    ensures Grows(a, d)
  {
  }

  /** In every run, from a valid status (in particular from none): the records stay strictly sorted,
      one per image; `lastScanCompletedAt` is unset exactly while there is none and otherwise at
      least every `completedAt`; there is exactly one condition; and relative to any earlier state
      no image is lost and the last completion has not moved back. */
  lemma {:induction false} RunKeepsRecord(c: Ctx, floor: Instant, s: Server, moves: seq<Move>)
    requires Good(c, floor, s) && StatusOk(s.status) && AllFresh(moves)
    ensures StatusOk(Run(c, s, moves).status) && Grows(s.status, Run(c, s, moves).status)
    decreases moves
  {
    if moves != [] {
      var s1 := Step(c, s, moves[0]);
      StepKeepsGood(c, floor, s, moves[0]);
      StepKeepsRecord(c, floor, s, moves[0]);
      FreshRest(moves);
      RunKeepsRecord(c, floor, s1, moves[1..]);
      GrowsTransitive(s.status, s1.status, Run(c, s1, moves[1..]).status);
    }
  }

  // ---------------------------------------------------------------------------------------------
  // Reconciles that read a status stored earlier.
  // ---------------------------------------------------------------------------------------------

  ghost predicate StatusBounded(status: Option<Status>) {
    Bounded(Images(status), LastCompleted(status)) && OneReady(status)
  }

  /** Each reconcile reads the stored status or one of those stored before: `past`, to begin with. */
  ghost predicate ReadsEarlier(c: Ctx, s: Server, moves: seq<Move>, past: seq<Option<Status>>)
    decreases moves
  {
    moves != [] ==>
      && (moves[0].Reconciles? ==> Seen(moves[0].cache, s) in past + [s.status])
      && ReadsEarlier(c, Step(c, s, moves[0]), moves[1..], past + [s.status])
  }

  /** Whatever status a reconcile reads, the records it stores are exactly those it read and those it
      scanned: a stored image it did not read survives only if it was scanned again. */
  lemma PassKeepsExactly(c: Ctx, cr: CrView, seen: Option<Status>, floor: Instant, s: Server)
    returns (scanned: seq<ScannedImage>)
    requires Good(c, floor, s) && ReconcileOnce(c, cr, seen, s).patched.Some?
    ensures Scan(c, cr, seen, s).status.Some? && Recorded(seen, scanned, Scan(c, cr, seen, s).status.value)
    ensures forall r :: HasRecord(Images(ReconcileOnce(c, cr, seen, s).server.status), r) <==>
                          HasRecord(Images(seen), r) || HasRecord(scanned, r)
  {
    StoredStatus(c, cr, seen, floor, s);
    PatchedIsPlanned(c, cr, seen, s);
    scanned := ScanLeaves(c, cr, seen, s);
    if scanned != [] { MergeExactly(Images(seen), scanned); }
  }

  lemma PassKeepsBounded(c: Ctx, cr: CrView, seen: Option<Status>, floor: Instant, s: Server)
    requires Good(c, floor, s) && StatusBounded(seen) && StatusBounded(s.status)
    ensures StatusBounded(ReconcileOnce(c, cr, seen, s).server.status)
  {
    StoredStatus(c, cr, seen, floor, s);
    if ReconcileOnce(c, cr, seen, s).patched.Some? {
      PatchedIsPlanned(c, cr, seen, s);
      var scanned := ScanLeaves(c, cr, seen, s);
      if scanned != [] { MergeKeepsBounded(Images(seen), LastCompleted(seen), scanned); }
    }
  }

  lemma {:induction false} MergeKeepsBounded(images: seq<ScannedImage>, last: Option<Instant>,
                                             scanned: seq<ScannedImage>)
    requires Bounded(images, last) && scanned != []
    ensures Bounded(Merge(images, scanned), Latest(last, scanned))
  {
    var merged, latest := Merge(images, scanned), Latest(last, scanned);
    MergeExactly(images, scanned);
    LatestIsLatest(last, scanned);
    forall i | 0 <= i < |merged| ensures merged[i].completedAt <= latest.value {
      MergedIsOld(images, last, scanned, i);
    }
  }

  /** What survives stale reads, in every run: one record per image, in order, none later than the last
      completion, and one condition.  What does not: that no image is ever lost, and that the last
      completion is unset while there is no record, for the merge patch keeps it. */
  lemma {:induction false} StaleRunKeepsBounded(c: Ctx, floor: Instant, s: Server, moves: seq<Move>,
                                                past: seq<Option<Status>>)
    requires Good(c, floor, s) && StatusBounded(s.status) && ReadsEarlier(c, s, moves, past)
    requires forall status | status in past :: StatusBounded(status)
    ensures StatusBounded(Run(c, s, moves).status)
    decreases moves
  {
    if moves != [] {
      var m := moves[0];
      StepKeepsGood(c, floor, s, m);
      if m.Reconciles? {
        PassKeepsBounded(c, m.cr, Seen(m.cache, s), floor, s.(script := m.script));
      } else {
        EventKeepsGood(c, floor, s, m.event);
      }
      StaleRunKeepsBounded(c, floor, Step(c, s, m), moves[1..], past + [s.status]);
    }
  }

  // ---------------------------------------------------------------------------------------------
  // The transition time is a history variable.
  // ---------------------------------------------------------------------------------------------

  /** A patched condition: when its reconcile started, and what it said. */
  datatype Entry = Entry(at: Instant, status: Truth, reason: Option<Reason>)

  predicate SameKey(a: Entry, b: Entry) { a.status == b.status && a.reason == b.reason }

  function EntryOf(c: Ctx, s: Server, m: Move): seq<Entry> {
    if m.Reconciles? && Pass(c, s, m).patched.Some? && Pass(c, s, m).patched.value.conditions != [] then
      var condition := Pass(c, s, m).patched.value.conditions[0];
      [Entry(s.clock, condition.status, condition.reason)]
    else []
  }

  function History(c: Ctx, s: Server, moves: seq<Move>): seq<Entry>
    decreases moves
  {
    if moves == [] then [] else EntryOf(c, s, moves[0]) + History(c, Step(c, s, moves[0]), moves[1..])
  }

  /** The start of the maximal suffix of the history that shares the last (status, reason). */
  function SuffixStart(h: seq<Entry>): Instant
    requires h != []
  {
    var n := |h| - 1;
    if n > 0 && SameKey(h[n - 1], h[n]) then SuffixStart(h[..n]) else h[n].at
  }

  lemma {:induction false} SuffixStartIsMaximal(h: seq<Entry>) returns (k: nat)
    requires h != []
    ensures k < |h| && SuffixStart(h) == h[k].at
    ensures forall i | k <= i < |h| :: SameKey(h[i], h[|h| - 1])
    ensures k > 0 ==> !SameKey(h[k - 1], h[|h| - 1])
  {
    var n := |h| - 1;
    if n > 0 && SameKey(h[n - 1], h[n]) {
      k := SuffixStartIsMaximal(h[..n]);
      assert forall i | 0 <= i < n :: h[..n][i] == h[i];
    } else {
      k := n;
    }
  }

  ghost predicate Faithful(status: Option<Status>, h: seq<Entry>) {
    if h == [] then status.None?
    else
      && status.Some? && |status.value.conditions| == 1
      && var condition := status.value.conditions[0];
         && condition.kind == Ready
         && condition.status == h[|h| - 1].status && condition.reason == h[|h| - 1].reason
         && condition.lastTransitionTime == Some(SuffixStart(h))
  }

  lemma {:induction false} EntryKeepsFaithful(before: Option<Status>, h: seq<Entry>, after: Status, now: Instant)
    requires Faithful(before, h) && |after.conditions| == 1 && after.conditions[0].reason.Some?
    requires CarriesOnly(after, before, after.conditions[0].status, after.conditions[0].reason.value, now)
    ensures Faithful(Some(after), h + [Entry(now, after.conditions[0].status, after.conditions[0].reason)])
  {
    var h' := h + [Entry(now, after.conditions[0].status, after.conditions[0].reason)];
    assert h'[..|h|] == h;
    if h != [] {
      assert FindReady(before.value.conditions) == Some(before.value.conditions[0]);
    }
  }

  lemma StepKeepsFaithful(c: Ctx, floor: Instant, s: Server, m: Move, h: seq<Entry>)
    requires Good(c, floor, s) && Faithful(s.status, h) && (m.Reconciles? ==> m.cache.Fresh?)
    ensures Faithful(Step(c, s, m).status, h + EntryOf(c, s, m))
  {
    if m.Reconciles? {
      var s0 := s.(script := m.script);
      StoredStatus(c, m.cr, s.status, floor, s0);
      if Pass(c, s, m).patched.Some? {
        PatchReplaces(c, m.cr, s0);
        PatchedIsPlanned(c, m.cr, s.status, s0);
        var _ := ScanLeaves(c, m.cr, s.status, s0);
        var p := Pass(c, s, m).patched.value;
        assert EntryOf(c, s, m) == [Entry(s.clock, p.conditions[0].status, p.conditions[0].reason)];
        EntryKeepsFaithful(s.status, h, p, s.clock);
      } else {
        assert h + EntryOf(c, s, m) == h;
      }
    } else {
      EventKeepsGood(c, floor, s, m.event);
      assert h + EntryOf(c, s, m) == h;
    }
  }

  lemma {:induction false} HistorySplits(c: Ctx, s: Server, moves: seq<Move>, h: seq<Entry>)
    requires moves != []
    ensures h + History(c, s, moves)
              == (h + EntryOf(c, s, moves[0])) + History(c, Step(c, s, moves[0]), moves[1..])
    ensures Run(c, s, moves) == Run(c, Step(c, s, moves[0]), moves[1..])
  {
    var e, tail := EntryOf(c, s, moves[0]), History(c, Step(c, s, moves[0]), moves[1..]);
    assert History(c, s, moves) == e + tail;
    assert h + (e + tail) == (h + e) + tail;
  }

  /** The condition stays faithful to the history, from any state in which it is. */
  lemma {:induction false} RunKeepsFaithful(c: Ctx, floor: Instant, s: Server, moves: seq<Move>, h: seq<Entry>)
    requires Good(c, floor, s) && Faithful(s.status, h) && AllFresh(moves)
    ensures Faithful(Run(c, s, moves).status, h + History(c, s, moves))
    decreases moves
  {
    if moves == [] {
      assert h + History(c, s, moves) == h;
    } else {
      FreshRest(moves);
      StepKeepsGood(c, floor, s, moves[0]);
      StepKeepsFaithful(c, floor, s, moves[0], h);
      RunKeepsFaithful(c, floor, Step(c, s, moves[0]), moves[1..], h + EntryOf(c, s, moves[0]));
      HistorySplits(c, s, moves, h);
    }
  }

  /** From an unset status: after any run, the stored condition is the last one patched, and its
      `lastTransitionTime` is the start of the first reconcile in the maximal suffix of patches that
      share its (status, reason). */
  lemma TransitionTimeIsFaithful(c: Ctx, floor: Instant, s: Server, moves: seq<Move>)
    requires Good(c, floor, s) && s.status.None? && AllFresh(moves)
    ensures Faithful(Run(c, s, moves).status, History(c, s, moves))
  {
    RunKeepsFaithful(c, floor, s, moves, []);
    assert [] + History(c, s, moves) == History(c, s, moves);
  }
}
