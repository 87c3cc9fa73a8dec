/** Folding Job counters into one outcome, and scan records into the status list. */
module Aggregator {
  import opened Basics
  import opened Rfc3339
  import opened Crd
  import opened JobName
  import opened ScanJob

  const DEFAULT_BACKOFF_LIMIT := 6

  function SucceededCount(status: Option<JobStatus>): int {
    if status.Some? then status.value.succeeded.GetOr(0) else 0
  }

  function FailedCount(status: Option<JobStatus>): int {
    if status.Some? then status.value.failed.GetOr(0) else 0
  }

  function CompletionOf(status: Option<JobStatus>): Option<Instant> {
    if status.Some? then status.value.completionTime else None
  }

  predicate IsSucceeded(job: Job) { SucceededCount(job.status) >= 1 }

  predicate IsFinallyFailed(job: Job) {
    FailedCount(job.status) >
    (if job.spec.Some? then job.spec.value.backoffLimit.GetOr(DEFAULT_BACKOFF_LIMIT) else DEFAULT_BACKOFF_LIMIT)
  }

  /** `should_delete_job`. */
  predicate IsTerminal(job: Job) { IsSucceeded(job) || IsFinallyFailed(job) }

  function SbomLocation(spec: Spec, shortHash: string): string {
    match spec.output.backendType
    case Pvc =>
      if spec.output.pvc.None? then "pvc://unknown"
      else FilePath("pvc://" + Trim(spec.output.pvc.value.claimName), spec.output.pvc.value.pathPrefix, shortHash)
    case S3 =>
      if spec.output.s3.None? then "s3://unknown"
      else FilePath("s3://" + Trim(spec.output.s3.value.bucket), spec.output.s3.value.pathPrefix, shortHash)
    case Oci =>
      if spec.output.oci.None? then "oci://unknown"
      else TagPath("oci://" + Trim(spec.output.oci.value.registry), spec.output.oci.value.repository, shortHash)
  }

  function TagPath(root: string, repository: string, shortHash: string): string {
    root + "/" + Trim(repository) + ":" + shortHash
  }

  function FilePath(root: string, pathPrefix: Option<string>, shortHash: string): string {
    FileStem(root, pathPrefix) + shortHash + ".json"
  }

  function FileStem(root: string, pathPrefix: Option<string>): string {
    var prefix := Trim(pathPrefix.GetOr(""));
    root + (if prefix == [] then "/" else "/" + prefix + "/")
  }

  /** The places SBOMs are said to be, in full. */
  lemma SbomLocationExactly(spec: Spec, hash: string)
    ensures var location := SbomLocation(spec, hash);
            match spec.output
            case Output(Pvc, None, _, _) => location == "pvc://unknown"
            case Output(Pvc, Some(PvcOutput(claim, None)), _, _) =>
              location == "pvc://" + Trim(claim) + "/" + hash + ".json"
            case Output(Pvc, Some(PvcOutput(claim, Some(prefix))), _, _) =>
              location == "pvc://" + Trim(claim) + "/" + (if Blank(prefix) then "" else Trim(prefix) + "/")
                          + hash + ".json"
            case Output(S3, _, None, _) => location == "s3://unknown"
            case Output(S3, _, Some(S3Output(bucket, None, _)), _) =>
              location == "s3://" + Trim(bucket) + "/" + hash + ".json"
            case Output(S3, _, Some(S3Output(bucket, Some(prefix), _)), _) =>
              location == "s3://" + Trim(bucket) + "/" + (if Blank(prefix) then "" else Trim(prefix) + "/")
                          + hash + ".json"
            case Output(Oci, _, _, None) => location == "oci://unknown"
            case Output(Oci, _, _, Some(OciOutput(registry, repository, _))) =>
              location == "oci://" + Trim(registry) + "/" + Trim(repository) + ":" + hash
  {
    assert Trim("") == "";
  }

  /** With its block present, a backend keeps the SBOMs of different hashes apart. */
  lemma LocationsDiffer(spec: Spec, a: string, b: string)
    requires match spec.output.backendType
             case Pvc => spec.output.pvc.Some?
             case S3 => spec.output.s3.Some?
             case Oci => spec.output.oci.Some?
    ensures SbomLocation(spec, a) == SbomLocation(spec, b) <==> a == b
  {
    var root := LocationStem(spec, a, b);
    Cancel(root, a, b, if spec.output.backendType.Oci? then "" else ".json");
  }

  lemma LocationStem(spec: Spec, a: string, b: string) returns (stem: string)
    requires match spec.output.backendType
             case Pvc => spec.output.pvc.Some?
             case S3 => spec.output.s3.Some?
             case Oci => spec.output.oci.Some?
    ensures var ending := if spec.output.backendType.Oci? then "" else ".json";
            SbomLocation(spec, a) == stem + a + ending && SbomLocation(spec, b) == stem + b + ending
  {
    match spec.output.backendType
    case Pvc => stem := FileStem("pvc://" + Trim(spec.output.pvc.value.claimName), spec.output.pvc.value.pathPrefix);
    case S3 => stem := FileStem("s3://" + Trim(spec.output.s3.value.bucket), spec.output.s3.value.pathPrefix);
    case Oci =>
      var oci := spec.output.oci.value;
      stem := "oci://" + Trim(oci.registry) + "/" + Trim(oci.repository) + ":";
  }

  lemma Cancel(stem: string, a: string, b: string, ending: string)
    ensures stem + a + ending == stem + b + ending <==> a == b
  {
    var x, y := stem + a + ending, stem + b + ending;
    if x == y {
      assert a == x[|stem|..|x| - |ending|];
      assert b == y[|stem|..|y| - |ending|];
    }
  }

  /** The record of one finished Job.  A Job without a completion time is stamped with the clock
      at the moment of aggregation. */
  function ScannedImageOf(job: Job, spec: Spec, clock: Instant): Option<ScannedImage> {
    if ImageRefOf(job).None? || HashLabelOf(job).None? || job.status.None? then None
    else Some(ScannedImage(ImageRefOf(job).value, SbomLocation(spec, HashLabelOf(job).value),
                           job.status.value.completionTime.GetOr(clock)))
  }

  function ScannedImagesOf(jobs: seq<Job>, spec: Spec, clock: Instant): seq<ScannedImage> {
    if jobs == [] then []
    else
      (match ScannedImageOf(jobs[0], spec, clock) case Some(s) => [s] case None => [])
      + ScannedImagesOf(jobs[1..], spec, clock)
  }

  datatype Outcome =
    | AllSucceeded(scanned: seq<ScannedImage>)
    | AnyFailed(imageRef: string)
    | StillRunning

  function FirstFailed(jobs: seq<Job>): Option<Job> {
    if jobs == [] then None else if IsFinallyFailed(jobs[0]) then Some(jobs[0]) else FirstFailed(jobs[1..])
  }

  function Aggregate(jobs: seq<Job>, spec: Spec, clock: Instant): Outcome {
    if jobs == [] then StillRunning
    else
      var failed := FirstFailed(jobs);
      if failed.Some? then AnyFailed(ImageRefOf(failed.value).GetOr("<unknown>"))
      else if forall j | j in jobs :: IsSucceeded(j) then AllSucceeded(ScannedImagesOf(jobs, spec, clock))
      else StillRunning
  }

  /** A Job is finally failed when one pod more has failed than its limit allows; where no limit is given,
      when seven have. */
  lemma FinallyFailedExactly(job: Job, failed: int, limit: int)
    requires failed == match job.status { case Some(JobStatus(_, Some(n), _)) => n case _ => 0 }
    requires limit == match job.spec { case Some(JobSpec(Some(n), _, _)) => n case _ => 6 }
    ensures IsFinallyFailed(job) <==> failed >= limit + 1
  {
  }

  /** The counters of a Job, in figures: a pod succeeded, or three pods failed. */
  predicate PodSucceeded(job: Job) { job.status.Some? && job.status.value.succeeded.GetOr(0) >= 1 }

  predicate ThreePodsFailed(job: Job) { job.status.Some? && job.status.value.failed.GetOr(0) >= 3 }

  /** For a Job this operator built these are the two ways to end. */
  lemma EndsByCounts(digest: Digest, crName: string, name: string, job: Job)
    requires OperatorBuilt(digest, crName, name, job)
    ensures IsSucceeded(job) <==> PodSucceeded(job)
    ensures IsFinallyFailed(job) <==> ThreePodsFailed(job)
    ensures IsTerminal(job) <==> PodSucceeded(job) || ThreePodsFailed(job)
  {
  }

  lemma {:induction false} FirstFailedIsFirst(jobs: seq<Job>)
    ensures FirstFailed(jobs).None? <==> forall j | j in jobs :: !IsFinallyFailed(j)
    ensures FirstFailed(jobs).Some? ==>
              exists i | 0 <= i < |jobs| ::
                jobs[i] == FirstFailed(jobs).value && IsFinallyFailed(jobs[i])
                && forall k | 0 <= k < i :: !IsFinallyFailed(jobs[k])
  {
    if jobs != [] && !IsFinallyFailed(jobs[0]) {
      FirstFailedIsFirst(jobs[1..]);
      assert jobs == [jobs[0]] + jobs[1..];
      if FirstFailed(jobs).Some? {
        var i :| 0 <= i < |jobs| - 1 && jobs[1..][i] == FirstFailed(jobs).value && IsFinallyFailed(jobs[1..][i])
                 && forall k | 0 <= k < i :: !IsFinallyFailed(jobs[1..][k]);
        assert jobs[i + 1] == FirstFailed(jobs).value;
        forall k | 0 <= k < i + 1 ensures !IsFinallyFailed(jobs[k]) {
          if k > 0 { assert jobs[k] == jobs[1..][k - 1]; }
        }
      }
    }
  }

  /** The decision table: failure dominates, the empty list never completes, and completion means
      that every Job succeeded. */
  lemma AggregateDecides(jobs: seq<Job>, spec: Spec, clock: Instant)
    ensures Aggregate(jobs, spec, clock).AnyFailed? <==> exists j | j in jobs :: IsFinallyFailed(j)
    ensures Aggregate(jobs, spec, clock).AnyFailed? ==>
              exists i | 0 <= i < |jobs| ::
                IsFinallyFailed(jobs[i]) && (forall k | 0 <= k < i :: !IsFinallyFailed(jobs[k]))
                && Aggregate(jobs, spec, clock).imageRef == ImageRefOf(jobs[i]).GetOr("<unknown>")
    ensures Aggregate(jobs, spec, clock).AllSucceeded? <==>
              jobs != [] && forall j | j in jobs :: IsSucceeded(j) && !IsFinallyFailed(j)
  {
    FirstFailedIsFirst(jobs);
  }

  /** The kind of the outcome does not depend on the order in which Jobs are listed. */
  lemma {:induction false} KindIgnoresOrder(a: seq<Job>, b: seq<Job>, spec: Spec, clock: Instant)
    requires multiset(a) == multiset(b)
    ensures Aggregate(a, spec, clock).AnyFailed? <==> Aggregate(b, spec, clock).AnyFailed?
    ensures Aggregate(a, spec, clock).AllSucceeded? <==> Aggregate(b, spec, clock).AllSucceeded?
    ensures Aggregate(a, spec, clock).AllSucceeded? ==>
              forall s :: s in Aggregate(a, spec, clock).scanned <==> s in Aggregate(b, spec, clock).scanned
  {
    assert forall j :: j in a <==> j in multiset(a);
    assert forall j :: j in b <==> j in multiset(b);
    assert |a| == |multiset(a)| == |b|;
    AggregateDecides(a, spec, clock);
    AggregateDecides(b, spec, clock);
    forall s ensures s in ScannedImagesOf(a, spec, clock) <==> s in ScannedImagesOf(b, spec, clock) {
      ScannedMembership(a, spec, clock, s);
      ScannedMembership(b, spec, clock, s);
    }
  }

  lemma {:induction false} ScannedMembership(jobs: seq<Job>, spec: Spec, clock: Instant, s: ScannedImage)
    ensures s in ScannedImagesOf(jobs, spec, clock) <==>
              exists j | j in jobs :: ScannedImageOf(j, spec, clock) == Some(s)
  {
    if jobs != [] {
      ScannedMembership(jobs[1..], spec, clock, s);
      assert jobs == [jobs[0]] + jobs[1..];
    }
  }

  // ---------------------------------------------------------------------------------------------
  // Merging scan records.
  // ---------------------------------------------------------------------------------------------

  /** The last record of each image, as inserting the records one after another leaves them. */
  function ByRef(images: seq<ScannedImage>): (m: map<string, ScannedImage>)
    ensures forall r | r in m :: m[r].imageRef == r
  {
    if images == [] then map[] else Insert(ByRef(images[..|images| - 1]), images[|images| - 1])
  }

  function Insert(m: map<string, ScannedImage>, image: ScannedImage): map<string, ScannedImage> {
    m[image.imageRef := image]
  }

  lemma {:induction false} ByRefKeys(images: seq<ScannedImage>, r: string)
    ensures r in ByRef(images) <==> HasRecord(images, r)
  {
    if images != [] {
      var init, last := images[..|images| - 1], images[|images| - 1];
      ByRefKeys(init, r);
      if HasRecord(images, r) && last.imageRef != r {
        var i :| 0 <= i < |images| && images[i].imageRef == r;
        assert init[i].imageRef == r;
      }
      if HasRecord(init, r) {
        var i :| 0 <= i < |init| && init[i].imageRef == r;
        assert images[i].imageRef == r;
      }
      assert last.imageRef == r ==> HasRecord(images, r);
    }
  }

  lemma ByRefSnoc(images: seq<ScannedImage>, image: ScannedImage)
    ensures ByRef(images + [image]) == Insert(ByRef(images), image)
  {
    assert (images + [image])[..|images|] == images;
  }

  /** `BTreeMap::into_values`. */
  function InOrder(m: map<string, ScannedImage>): (r: seq<ScannedImage>)
    ensures |r| == |m|
  {
    var keys := SortedKeys(m.Keys);
    seq(|keys|, i requires 0 <= i < |keys| => assert keys[i] in keys; m[keys[i]])
  }

  function Merge(existing: seq<ScannedImage>, newly: seq<ScannedImage>): seq<ScannedImage> {
    InOrder(ByRef(existing + newly))
  }

  ghost predicate SortedByRef(images: seq<ScannedImage>) {
    forall i, j | 0 <= i < j < |images| :: Less(images[i].imageRef, images[j].imageRef)
  }

  ghost predicate HasRecord(images: seq<ScannedImage>, imageRef: string) {
    exists i | 0 <= i < |images| :: images[i].imageRef == imageRef
  }

  /** `merge_scanned_images_append_only`: two loops of insertions into an ordered map. */
  method MergeScannedImagesAppendOnly(existing: seq<ScannedImage>, newly: seq<ScannedImage>)
    returns (merged: seq<ScannedImage>)
    ensures merged == Merge(existing, newly)
  {
    var byRef: map<string, ScannedImage> := map[];
    for i := 0 to |existing|
      invariant byRef == ByRef(existing[..i])
    {
      ByRefSnoc(existing[..i], existing[i]);
      assert existing[..i + 1] == existing[..i] + [existing[i]];
      byRef := byRef[existing[i].imageRef := existing[i]];
    }
    assert existing[..|existing|] == existing + newly[..0];
    for i := 0 to |newly|
      invariant byRef == ByRef(existing + newly[..i])
    {
      ByRefSnoc(existing + newly[..i], newly[i]);
      assert existing + newly[..i + 1] == (existing + newly[..i]) + [newly[i]];
      byRef := byRef[newly[i].imageRef := newly[i]];
    }
    assert newly[..|newly|] == newly;
    merged := InOrder(byRef);
  }

  lemma {:induction false} ByRefConcat(a: seq<ScannedImage>, b: seq<ScannedImage>)
    ensures ByRef(a + b) == ByRef(a) + ByRef(b)
  {
    if b == [] {
      assert a + b == a;
    } else {
      var init, last := b[..|b| - 1], b[|b| - 1];
      ByRefConcat(a, init);
      assert a + b == (a + init) + [last];
      ByRefSnoc(a + init, last);
      InsertIntoUnion(ByRef(a), ByRef(init), last);
    }
  }

  lemma InsertIntoUnion(x: map<string, ScannedImage>, y: map<string, ScannedImage>, image: ScannedImage)
    ensures Insert(x + y, image) == x + Insert(y, image)
  {
  }

  lemma InOrderMembers(m: map<string, ScannedImage>)
    requires forall r | r in m :: m[r].imageRef == r
    ensures SortedByRef(InOrder(m))
    ensures forall s :: s in InOrder(m) <==> s.imageRef in m && m[s.imageRef] == s
  {
    var keys := SortedKeys(m.Keys);
    var r := InOrder(m);
    forall i | 0 <= i < |keys| ensures r[i].imageRef == keys[i] && keys[i] in m {
      assert keys[i] in keys;
    }
    forall s: ScannedImage | s.imageRef in m && m[s.imageRef] == s ensures s in r {
      assert s.imageRef in keys;
      var i :| 0 <= i < |keys| && keys[i] == s.imageRef;
      assert r[i] == s;
    }
  }

  /** Reading the merged list back gives the map it came from. */
  lemma ByRefOfInOrder(m: map<string, ScannedImage>)
    requires forall r | r in m :: m[r].imageRef == r
    ensures ByRef(InOrder(m)) == m
  {
    InOrderMembers(m);
    var r := InOrder(m);
    forall k | k in ByRef(r) ensures k in m && ByRef(r)[k] == m[k] {
      ByRefLast(r, k);
    }
    forall k | k in m ensures k in ByRef(r) {
      assert m[k] in r;
      var i :| 0 <= i < |r| && r[i] == m[k];
      assert HasRecord(r, k);
      ByRefKeys(r, k);
    }
  }

  /** Last write per key wins. */
  lemma {:induction false} ByRefLast(images: seq<ScannedImage>, imageRef: string)
    requires imageRef in ByRef(images)
    ensures exists i | 0 <= i < |images| ::
              ByRef(images)[imageRef] == images[i] && images[i].imageRef == imageRef
              && forall k | i < k < |images| :: images[k].imageRef != imageRef
  {
    var n := |images| - 1;
    if images[n].imageRef != imageRef {
      ByRefLast(images[..n], imageRef);
      var i :| 0 <= i < n && ByRef(images[..n])[imageRef] == images[..n][i] && images[..n][i].imageRef == imageRef
               && forall k | i < k < n :: images[..n][k].imageRef != imageRef;
      assert images[i] == images[..n][i];
      forall k | i < k < |images| ensures images[k].imageRef != imageRef {
        if k < n { assert images[k] == images[..n][k]; }
      }
    }
  }

  /** Position `i` holds the last record of its image. */
  ghost predicate IsLastRecord(all: seq<ScannedImage>, i: nat, s: ScannedImage) {
    i < |all| && all[i] == s && forall k | i < k < |all| :: all[k].imageRef != s.imageRef
  }

  /** The merged list is strictly sorted, holds exactly the images of both lists, and keeps for each
      the last record written. */
  lemma {:induction false} MergeExactly(existing: seq<ScannedImage>, newly: seq<ScannedImage>)
    ensures SortedByRef(Merge(existing, newly))
    ensures forall r :: HasRecord(Merge(existing, newly), r) <==> HasRecord(existing, r) || HasRecord(newly, r)
    ensures forall s :: s in Merge(existing, newly) <==> exists i :: IsLastRecord(existing + newly, i, s)
  {
    InOrderMembers(ByRef(existing + newly));
    forall s ensures s in Merge(existing, newly) <==> exists i :: IsLastRecord(existing + newly, i, s) {
      MergeKeepsLast(existing + newly, s);
    }
    forall r ensures HasRecord(Merge(existing, newly), r) <==> HasRecord(existing, r) || HasRecord(newly, r) {
      MergeKeys(existing, newly, r);
    }
  }

  lemma {:induction false} MergeKeepsLast(all: seq<ScannedImage>, s: ScannedImage)
    ensures s in InOrder(ByRef(all)) <==> exists i :: IsLastRecord(all, i, s)
  {
    InOrderMembers(ByRef(all));
    if s in InOrder(ByRef(all)) {
      ByRefLast(all, s.imageRef);
      var i :| 0 <= i < |all| && ByRef(all)[s.imageRef] == all[i] && all[i].imageRef == s.imageRef
               && forall k | i < k < |all| :: all[k].imageRef != s.imageRef;
      assert IsLastRecord(all, i, s);
    }
    if i :| IsLastRecord(all, i, s) {
      assert HasRecord(all, s.imageRef);
      ByRefKeys(all, s.imageRef);
      ByRefLast(all, s.imageRef);
    }
  }

  lemma {:induction false} MergeKeys(existing: seq<ScannedImage>, newly: seq<ScannedImage>, r: string)
    ensures HasRecord(Merge(existing, newly), r) <==> HasRecord(existing, r) || HasRecord(newly, r)
  {
    ByRefOfInOrder(ByRef(existing + newly));
    ByRefKeys(Merge(existing, newly), r);
    ByRefConcat(existing, newly);
    ByRefKeys(existing, r);
    ByRefKeys(newly, r);
  }

  /** A new record is in the merged list when no other new record is about its image. */
  lemma {:induction false} MergeKeepsNew(existing: seq<ScannedImage>, newly: seq<ScannedImage>, record: ScannedImage)
    requires record in newly && forall other | other in newly && other.imageRef == record.imageRef :: other == record
    ensures record in Merge(existing, newly)
  {
    var p :| 0 <= p < |newly| && newly[p] == record;
    MergeKeys(existing, newly, record.imageRef);
    assert HasRecord(newly, record.imageRef);
    var merged := Merge(existing, newly);
    var m :| 0 <= m < |merged| && merged[m].imageRef == record.imageRef;
    assert merged[m] in merged;
    MergeExactly(existing, newly);
    var i: nat :| IsLastRecord(existing + newly, i, merged[m]);
    assert (existing + newly)[|existing| + p] == record;
    assert newly[i - |existing|] == merged[m];
  }

  /** Merging is the right-biased union of the maps the lists stand for. */
  lemma {:induction false} MergeIsUnion(e: seq<ScannedImage>, a: seq<ScannedImage>)
    ensures Merge(e, a) == InOrder(ByRef(e) + ByRef(a))
    ensures ByRef(Merge(e, a)) == ByRef(e) + ByRef(a)
  {
    ByRefConcat(e, a);
    ByRefOfInOrder(ByRef(e + a));
  }

  /** Merging in two steps is merging the concatenation. */
  lemma {:induction false} MergeAssociates(e: seq<ScannedImage>, a: seq<ScannedImage>, b: seq<ScannedImage>)
    ensures Merge(Merge(e, a), b) == Merge(e, a + b)
  {
    MergeIsUnion(e, a);
    MergeIsUnion(Merge(e, a), b);
    MergeIsUnion(e, a + b);
    ByRefConcat(a, b);
    UnionAssociates(ByRef(e), ByRef(a), ByRef(b));
  }

  lemma UnionAssociates<K, V>(x: map<K, V>, y: map<K, V>, z: map<K, V>)
    ensures (x + y) + z == x + (y + z)
    ensures (x + y) + y == x + y
  {
  }

  /** Merging the same records again changes nothing. */
  lemma {:induction false} MergeIdempotent(e: seq<ScannedImage>, a: seq<ScannedImage>)
    ensures Merge(Merge(e, a), a) == Merge(e, a)
  {
    MergeIsUnion(e, a);
    MergeIsUnion(Merge(e, a), a);
    UnionAssociates(ByRef(e), ByRef(a), ByRef(a));
  }
}
