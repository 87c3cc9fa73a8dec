/** The three status mappers of one reconcile, and the folds they use. */
module Conditions {
  import opened Basics
  import opened Rfc3339
  import opened Crd
  import opened Scheduler
  import Aggregator

  datatype Orchestration =
    | Spawned(distinctImages: nat)
    | NoImages
    | CannotBuildJob(imageRef: string, error: BuildError)
    | RbacDenied(verbResource: string, namespace: string, message: string)

  predicate IsTargetValid(target: Target) {
    target.namespaces != [] || (target.labelSelector.Some? && !Blank(target.labelSelector.value))
  }

  function FindReady(conditions: seq<Condition>): Option<Condition> {
    if conditions == [] then None
    else if conditions[0].kind == Ready then Some(conditions[0])
    else FindReady(conditions[1..])
  }

  /** The rule the three mappers share: keep the transition time of the previous Ready condition
      while (status, reason) is unchanged, otherwise start a new one now. */
  function TransitionTime(existing: Option<Status>, status: Truth, reason: Reason, now: Instant): Instant {
    if existing.None? then now
    else
      match FindReady(existing.value.conditions)
      case None => now
      case Some(c) => if c.status == status && c.reason == Some(reason) then c.lastTransitionTime.GetOr(now) else now
  }

  function ReadyCondition(existing: Option<Status>, status: Truth, reason: Reason, message: Message,
                          now: Instant): Condition {
    Condition(Ready, status, Some(reason), Some(message), Some(TransitionTime(existing, status, reason, now)))
  }

  function DesiredStatus(lib: Lib, spec: Spec, now: Instant, existing: Option<Status>): Status {
    var (reason, message) :=
      if !IsTargetValid(spec.target) then (InvalidSpec, TargetInvalid)
      else match ParseSchedule(lib, spec.schedule)
        case Ok(_) => (NotYetReconciled, NotImplementedYet)
        case Err(e) => (InvalidSpec, ScheduleInvalid(e));
    Status([ReadyCondition(existing, False, reason, message, now)],
           Some(now),
           if existing.Some? then existing.value.lastScanCompletedAt else None,
           if existing.Some? then existing.value.scannedImages else [],
           if existing.Some? then existing.value.nextScheduledScanAt else None)
  }

  function OrchestrationReason(result: Orchestration): Reason {
    match result
    case Spawned(_) => Scanning
    case NoImages => NoImagesInScope
    case CannotBuildJob(_, _) => BuildFailed
    case RbacDenied(_, _, _) => RbacInsufficient
  }

  function OrchestrationMessage(result: Orchestration): Message {
    match result
    case Spawned(n) => ScanningImages(n)
    case NoImages => ZeroPods
    case CannotBuildJob(image, error) => CannotBuild(image, error)
    case RbacDenied(verb, ns, m) => LacksRbac(verb, ns, m)
  }

  function StatusWithOrchestration(base: Status, existing: Option<Status>, result: Orchestration,
                                   now: Instant): Status {
    base.(conditions := [ReadyCondition(existing, False, OrchestrationReason(result), OrchestrationMessage(result),
        now)])
  }

  /** The running maximum of completion times, starting from `acc`. */
  function Latest(acc: Option<Instant>, scanned: seq<ScannedImage>): Option<Instant>
    decreases scanned
  {
    if scanned == [] then acc
    else Latest(Later(acc, scanned[0].completedAt), scanned[1..])
  }

  function Later(acc: Option<Instant>, t: Instant): Option<Instant> {
    if acc.None? || t > acc.value then Some(t) else acc
  }

  function StatusWithOutcome(base: Status, existing: Option<Status>, outcome: Aggregator.Outcome,
                             now: Instant): Status {
    match outcome
    case StillRunning => base
    case AnyFailed(image) =>
      base.(conditions := [ReadyCondition(existing, False, ScanFailed, ScanFailedFor(image), now)])
    case AllSucceeded(scanned) =>
      base.(conditions := [ReadyCondition(existing, True, ScanCompleted, ScannedImages(|scanned|), now)],
            scannedImages := if scanned == [] then base.scannedImages
                else Aggregator.Merge(base.scannedImages, scanned),
            lastScanCompletedAt := Latest(base.lastScanCompletedAt, scanned))
  }

  function LastCompleted(status: Option<Status>): Option<Instant> {
    if status.Some? then status.value.lastScanCompletedAt else None
  }

  function Images(status: Option<Status>): seq<ScannedImage> {
    if status.Some? then status.value.scannedImages else []
  }

  function NextAt(status: Option<Status>): Option<Instant> {
    if status.Some? then status.value.nextScheduledScanAt else None
  }

  /** What the record part of a status becomes when records are added: nothing, or a merge and the
      running maximum. */
  predicate Recorded(seen: Option<Status>, scanned: seq<ScannedImage>, status: Status) {
    && status.scannedImages == (if scanned == [] then Images(seen) else Aggregator.Merge(Images(seen), scanned))
    && status.lastScanCompletedAt == Latest(LastCompleted(seen), scanned)
  }

  /** The reason of the first condition. */
  function ReasonOf(status: Status): Option<Reason> {
    if status.conditions == [] then None else status.conditions[0].reason
  }

  // ---------------------------------------------------------------------------------------------
  // The fold over completion times.
  // ---------------------------------------------------------------------------------------------

  /** The value the fold must have: `acc` when there is nothing to fold, else the maximum. */
  ghost predicate IsLatest(acc: Option<Instant>, scanned: seq<ScannedImage>, r: Option<Instant>) {
    if scanned == [] then r == acc
    else
      && r.Some? && (acc.Some? ==> acc.value <= r.value)
      && (forall i | 0 <= i < |scanned| :: scanned[i].completedAt <= r.value)
      && (acc == r || exists i | 0 <= i < |scanned| :: scanned[i].completedAt == r.value)
  }

  lemma {:induction false} LatestIsLatest(acc: Option<Instant>, scanned: seq<ScannedImage>)
    ensures IsLatest(acc, scanned, Latest(acc, scanned))
    decreases scanned
  {
    if scanned != [] {
      var acc', rest := Later(acc, scanned[0].completedAt), scanned[1..];
      LatestIsLatest(acc', rest);
      var r := Latest(acc, scanned);
      assert r == Latest(acc', rest);
      assert scanned[0].completedAt <= acc'.value <= r.value;
      forall i | 0 <= i < |scanned| ensures scanned[i].completedAt <= r.value {
        if i > 0 { assert rest[i - 1] == scanned[i]; }
      }
      if acc' != r {
        var i :| 0 <= i < |rest| && rest[i].completedAt == r.value;
        assert scanned[i + 1].completedAt == r.value;
      }
    }
  }

  /** The same for timestamps as strings: `acc` when there is nothing to fold, else a greatest one. */
  ghost predicate IsLatestText(acc: Option<string>, texts: seq<string>, r: Option<string>) {
    if texts == [] then r == acc
    else
      && r.Some? && (acc.Some? ==> !Less(r.value, acc.value))
      && (forall i | 0 <= i < |texts| :: !Less(r.value, texts[i]))
      && (acc == r || exists i | 0 <= i < |texts| :: texts[i] == r.value)
  }

  /** The loop as written: it compares the timestamps as strings, whatever they are. */
  method LatestCompletion(acc: Option<string>, texts: seq<string>) returns (r: Option<string>)
    ensures IsLatestText(acc, texts, r)
  {
    r := acc;
    for i := 0 to |texts|
      invariant IsLatestText(acc, texts[..i], r)
    {
      ghost var before := r;
      if r.None? || Less(r.value, texts[i]) {
        r := Some(texts[i]);
      }
      LatestTextStep(acc, texts, i, before, r);
    }
    assert texts[..|texts|] == texts;
  }

  lemma LatestTextStep(acc: Option<string>, texts: seq<string>, i: nat, before: Option<string>, r: Option<string>)
    requires i < |texts| && IsLatestText(acc, texts[..i], before)
    requires r == (if before.None? || Less(before.value, texts[i]) then Some(texts[i]) else before)
    ensures IsLatestText(acc, texts[..i + 1], r)
  {
    var next := texts[..i + 1];
    assert forall k | 0 <= k < i :: next[k] == texts[..i][k];
    LessIrreflexive(texts[i]);
    forall x: string | before.Some? && !Less(before.value, x) ensures !Less(r.value, x) {
      if Less(r.value, x) && r != before { LessTransitive(before.value, r.value, x); }
    }
    if r != before {
      assert next[i] == r.value;
    } else if acc != r {
      var k :| 0 <= k < i && texts[..i][k] == r.value;
      assert next[k] == r.value;
    }
    if acc.Some? && i == 0 { assert before == acc; LessIrreflexive(acc.value); }
  }

  predicate AllRepresentable(acc: Option<Instant>, scanned: seq<ScannedImage>) {
    && (acc.Some? ==> Representable(acc.value))
    && forall i | 0 <= i < |scanned| :: Representable(scanned[i].completedAt)
  }

  function RenderedTimes(scanned: seq<ScannedImage>): (r: seq<string>)
    requires AllRepresentable(None, scanned)
    ensures |r| == |scanned| && forall i | 0 <= i < |scanned| :: r[i] == ToRfc3339(scanned[i].completedAt)
  {
    seq(|scanned|, i requires 0 <= i < |scanned| => ToRfc3339(scanned[i].completedAt))
  }

  function Rendered(t: Option<Instant>): Option<string>
    requires t.Some? ==> Representable(t.value)
  {
    if t.Some? then Some(ToRfc3339(t.value)) else None
  }

  /** In the years 0 to 9999 the greatest string is the rendering of the latest instant, so the loop
      computes the fold. */
  lemma LatestTextIsLatest(acc: Option<Instant>, scanned: seq<ScannedImage>, r: Option<string>)
    requires AllRepresentable(acc, scanned)
    requires IsLatestText(Rendered(acc), RenderedTimes(scanned), r)
    ensures var latest := Latest(acc, scanned);
            (latest.Some? ==> Representable(latest.value)) && r == Rendered(latest)
  {
    LatestIsLatest(acc, scanned);
    if scanned != [] {
      var t: Instant;
      if r == Rendered(acc) {
        t := acc.value;
      } else {
        var i :| 0 <= i < |scanned| && RenderedTimes(scanned)[i] == r.value;
        t := scanned[i].completedAt;
      }
      assert Representable(t) && r.value == ToRfc3339(t);
      var latest := Latest(acc, scanned).value;
      if latest != t {
        LatestIsReached(acc, scanned, r);
        StringOrderIsTimeOrder(t, latest);
      }
    }
  }

  lemma LatestIsReached(acc: Option<Instant>, scanned: seq<ScannedImage>, r: Option<string>)
    requires AllRepresentable(acc, scanned) && scanned != []
    requires IsLatestText(Rendered(acc), RenderedTimes(scanned), r)
    ensures var latest := Latest(acc, scanned);
            latest.Some? && Representable(latest.value) && !Less(r.value, ToRfc3339(latest.value))
  {
    LatestIsLatest(acc, scanned);
    var latest := Latest(acc, scanned);
    if acc != latest {
      var i :| 0 <= i < |scanned| && scanned[i].completedAt == latest.value;
      assert RenderedTimes(scanned)[i] == ToRfc3339(latest.value);
    }
  }

  /** Folding the same completions again does not move the result. */
  lemma LatestIdempotent(acc: Option<Instant>, scanned: seq<ScannedImage>)
    ensures Latest(Latest(acc, scanned), scanned) == Latest(acc, scanned)
  {
    LatestIsLatest(acc, scanned);
    LatestIsLatest(Latest(acc, scanned), scanned);
  }

  // ---------------------------------------------------------------------------------------------
  // What one pass through the mappers leaves.
  // ---------------------------------------------------------------------------------------------

  /** The status carries exactly one condition: Ready, with `(truth, reason)` and the transition
      time the previous status calls for. */
  predicate CarriesOnly(status: Status, existing: Option<Status>, truth: Truth, reason: Reason, now: Instant) {
    && |status.conditions| == 1
    && status.conditions[0].kind == Ready
    && status.conditions[0].status == truth
    && status.conditions[0].reason == Some(reason)
    && status.conditions[0].lastTransitionTime == Some(TransitionTime(existing, truth, reason, now))
  }
}
