/** What a scan covers, and which succeeded Jobs it records. */
module Coverage {
  import opened Basics
  import opened Rfc3339
  import opened Crd
  import opened JobName
  import opened ScanJob
  import opened Aggregator
  import opened Conditions
  import opened Cluster
  import opened Orchestrator
  import opened Reconcile
  import opened Records

  // ---------------------------------------------------------------------------------------------
  // `Ready=True` covers everything in scope.
  // ---------------------------------------------------------------------------------------------

  /** The Job of this name is not removed just before any of the calls `from` to `to - 1`. */
  predicate Unremoved(script: seq<Call>, from: nat, to: nat, name: string) {
    forall i | from <= i < to && i < |script| :: Remove(name) !in script[i].events
  }

  lemma UnremovedTail(script: seq<Call>, from: nat, to: nat, name: string)
    requires 1 <= from <= to && Unremoved(script, from, to, name)
    ensures Unremoved(TailCalls(script), from - 1, to - 1, name)
  {
  }

  lemma {:induction false} EventsKeepName(c: Ctx, s: Server, es: seq<Event>, name: string)
    requires Remove(name) !in es && name in s.jobs
    ensures name in ApplyEvents(c, s, es).jobs
    decreases es
  {
    if es != [] {
      assert es[0] in es;
      EventsKeepName(c, ApplyEvent(c, s, es[0]), es[1..], name);
    }
  }

  lemma ArriveKeepsName(c: Ctx, s: Server, name: string)
    requires Remove(name) !in NextCall(s).events && name in s.jobs
    ensures name in Arrive(c, s).jobs
  {
    EventsKeepName(c, s, NextCall(s).events, name);
  }

  lemma CreateKeepsName(c: Ctx, s: Server, created: string, job: Job, name: string)
    requires Remove(name) !in NextCall(s).events && name in s.jobs
    ensures name in CreateJob(c, s, created, job).0.jobs
  {
    ArriveKeepsName(c, s, name);
  }

  lemma CreateTakesName(c: Ctx, s: Server, name: string, job: Job)
    requires !ClassifyJobCreate(c, CreateJob(c, s, name, job).1).CreateDenied?
    ensures name in CreateJob(c, s, name, job).0.jobs
  {
  }

  lemma {:induction false} CreateAllKeepsName(c: Ctx, cr: CrView, s: Server, images: seq<string>, distinct: nat,
                                              name: string)
    requires name in s.jobs && Unremoved(s.script, 0, |images|, name)
    ensures name in CreateAll(c, cr, s, images, distinct).0.jobs
    decreases images
  {
    if images != [] && StampedJob(c, cr, images[0]).Ok? {
      var job := StampedJob(c, cr, images[0]).value;
      CreateKeepsName(c, s, NameFor(c, images[0]), job, name);
      CreateAnswers(c, s, NameFor(c, images[0]), job);
      UnremovedTail(s.script, 1, |images|, name);
      CreateAllKeepsName(c, cr, CreateJob(c, s, NameFor(c, images[0]), job).0, images[1..], distinct, name);
    }
  }

  /** The first create of a loop that ends in `Spawned`, and the rest of it. */
  lemma SpawnedStep(c: Ctx, cr: CrView, s: Server, images: seq<string>, distinct: nat) returns (s1: Server)
    requires images != [] && CreateAll(c, cr, s, images, distinct).1.Spawned?
    ensures CreateAll(c, cr, s, images, distinct) == CreateAll(c, cr, s1, images[1..], distinct)
    ensures s1.script == TailCalls(s.script) && NameFor(c, images[0]) in s1.jobs
  {
    var name, job := NameFor(c, images[0]), StampedJob(c, cr, images[0]).value;
    CreateAnswers(c, s, name, job);
    CreateTakesName(c, s, name, job);
    s1 := CreateJob(c, s, name, job).0;
  }

  /** The creates of such a loop up to and with the image at `i`, and the rest of it. */
  lemma {:induction false} SpawnedSteps(c: Ctx, cr: CrView, s: Server, images: seq<string>, distinct: nat, i: nat)
    returns (s1: Server)
    requires i < |images| && CreateAll(c, cr, s, images, distinct).1.Spawned?
    ensures CreateAll(c, cr, s, images, distinct) == CreateAll(c, cr, s1, images[i + 1..], distinct)
    ensures s1.script == DropCalls(s.script, i + 1) && NameFor(c, images[i]) in s1.jobs
    decreases i
  {
    s1 := SpawnedStep(c, cr, s, images, distinct);
    if i > 0 {
      TailOf(images, i);
      s1 := SpawnedSteps(c, cr, s1, images[1..], distinct, i - 1);
    }
  }

  lemma TailOf(images: seq<string>, i: nat)
    requires 0 < i < |images|
    ensures images[1..][i..] == images[i + 1..] && images[1..][i - 1] == images[i] && i - 1 < |images[1..]|
  {
  }

  lemma {:induction false} UnremovedDrop(script: seq<Call>, n: nat, to: nat, name: string)
    requires n <= to && Unremoved(script, n, to, name)
    ensures Unremoved(DropCalls(script, n), 0, to - n, name)
  {
    if n > 0 {
      UnremovedTail(script, n, to, name);
      UnremovedDrop(TailCalls(script), n - 1, to - 1, name);
    }
  }

  /** A create loop that ends in `Spawned` leaves an image's name taken, unless its Job is removed after
      its own create. */
  lemma SpawnedTakesName(c: Ctx, cr: CrView, s: Server, images: seq<string>, distinct: nat, i: nat)
    requires i < |images| && CreateAll(c, cr, s, images, distinct).1.Spawned?
    requires Unremoved(s.script, i + 1, |images|, NameFor(c, images[i]))
    ensures NameFor(c, images[i]) in CreateAll(c, cr, s, images, distinct).0.jobs
  {
    var rest, name := images[i + 1..], NameFor(c, images[i]);
    var s1 := SpawnedSteps(c, cr, s, images, distinct, i);
    UnremovedDrop(s.script, i + 1, |images|, name);
    assert |rest| == |images| - (i + 1);
    assert Unremoved(s1.script, 0, |rest|, name);
    CreateAllKeepsName(c, cr, s1, rest, distinct, name);
  }

  /** A create loop that ends in `Spawned` has made one call an image. */
  lemma {:induction false} SpawnedCalls(c: Ctx, cr: CrView, s: Server, images: seq<string>, distinct: nat)
    requires CreateAll(c, cr, s, images, distinct).1.Spawned?
    ensures HeadCall(CreateAll(c, cr, s, images, distinct).0.script) == CallAt(s.script, |images|)
    decreases images
  {
    if images != [] {
      var s1 := SpawnedStep(c, cr, s, images, distinct);
      SpawnedCalls(c, cr, s1, images[1..], distinct);
      assert CallAt(TailCalls(s.script), |images| - 1) == CallAt(s.script, |images|);
    }
  }

  /** Jobs are listed only after the create loop has ended in `Spawned`, in the store it left. */
  lemma ListedAfterSpawn(c: Ctx, cr: CrView, seen: Option<Status>, s: Server)
    requires Scan(c, cr, seen, s).listed.Some?
    ensures var s1 := ListTargets(c, s, cr.spec.target.namespaces, []).0;
            var images := SortedKeys(Scope(cr, s));
            var (s2, result) := CreateAll(c, cr, s1, images, |images|);
            && s1.script == DropCalls(s.script, |cr.spec.target.namespaces|)
            && images != [] && result.Spawned? && Scan(c, cr, seen, s).server == Arrive(c, s2)
  {
    var (s2, result) := EnsureJobs(c, cr, s);
    assert result.Spawned? && Scan(c, cr, seen, s).server == Arrive(c, s2);
    SpawnedIsCreated(c, cr, s);
  }

  lemma SpawnedIsCreated(c: Ctx, cr: CrView, s: Server)
    requires EnsureJobs(c, cr, s).1.Spawned?
    ensures var s1 := ListTargets(c, s, cr.spec.target.namespaces, []).0;
            var images := SortedKeys(Scope(cr, s));
            && s1.script == DropCalls(s.script, |cr.spec.target.namespaces|)
            && images != [] && EnsureJobs(c, cr, s) == CreateAll(c, cr, s1, images, |images|)
  {
    EnsureJobsDecides(c, cr, s);
    CreatesInScope(c, cr, s);
  }

  /** The image's Job is not removed between its own create and the listing.  The calls are the creates
      in the order of `images`, then the listing. */
  predicate KeptUntilListed(c: Ctx, script: seq<Call>, images: seq<string>, image: string) {
    forall i | 0 <= i < |images| && images[i] == image :: Unremoved(script, i + 1, |images| + 1, NameFor(c, image))
  }

  /** A pod in the answer for one of the target namespaces runs the image, and its Job is kept until the
      Jobs are listed.  The listings come first, one a namespace. */
  predicate CoveredInScope(c: Ctx, cr: CrView, s: Server, image: string) {
    image in Scope(cr, s)
    && KeptUntilListed(c, DropCalls(s.script, |cr.spec.target.namespaces|), SortedKeys(Scope(cr, s)), image)
  }

  lemma TakenAtListing(c: Ctx, cr: CrView, s: Server, images: seq<string>, image: string)
    requires image in images && KeptUntilListed(c, s.script, images, image)
    requires CreateAll(c, cr, s, images, |images|).1.Spawned?
    ensures NameFor(c, image) in Arrive(c, CreateAll(c, cr, s, images, |images|).0).jobs
  {
    var i :| 0 <= i < |images| && images[i] == image;
    var s2 := CreateAll(c, cr, s, images, |images|).0;
    assert Unremoved(s.script, i + 1, |images| + 1, NameFor(c, image));
    SpawnedTakesName(c, cr, s, images, |images|, i);
    SpawnedCalls(c, cr, s, images, |images|);
    assert Remove(NameFor(c, image)) !in NextCall(s2).events;
    ArriveKeepsName(c, s2, NameFor(c, image));
  }

  /** The image's name is taken when the Jobs are listed. */
  lemma InScopeIsTaken(c: Ctx, cr: CrView, seen: Option<Status>, s: Server, image: string)
    requires Scan(c, cr, seen, s).listed.Some? && CoveredInScope(c, cr, s, image)
    ensures NameFor(c, image) in Scan(c, cr, seen, s).server.jobs && Trim(image) == image
  {
    var s1 := ListTargets(c, s, cr.spec.target.namespaces, []).0;
    ListedAfterSpawn(c, cr, seen, s);
    TakenAtListing(c, cr, s1, SortedKeys(Scope(cr, s)), image);
    ScopeIsClean(cr, s);
  }

  /** The image has a Job in the listing whose own image has the same short hash. */
  lemma InScopeIsListed(c: Ctx, cr: CrView, seen: Option<Status>, floor: Instant, s: Server, image: string)
    requires Good(c, floor, s) && Scan(c, cr, seen, s).listed.Some? && CoveredInScope(c, cr, s, image)
    ensures var store := Scan(c, cr, seen, s).server;
            && NameFor(c, image) in store.jobs && Owned(c.crName, store.jobs[NameFor(c, image)])
            && ImageRefOf(store.jobs[NameFor(c, image)]).Some?
            && ShortImageHash(c.lib.digest, ImageRefOf(store.jobs[NameFor(c, image)]).value)
                 == ShortImageHash(c.lib.digest, image)
  {
    InScopeIsTaken(c, cr, seen, s, image);
    ScanKeepsGood(c, cr, seen, floor, s);
    NamedJobMatches(c, floor, Scan(c, cr, seen, s).server, image);
  }

  lemma NamedJobMatches(c: Ctx, floor: Instant, s: Server, image: string)
    requires Good(c, floor, s) && NameFor(c, image) in s.jobs && Trim(image) == image
    ensures var job := s.jobs[NameFor(c, image)];
            && Owned(c.crName, job) && ImageRefOf(job).Some? && HashLabelOf(job).Some?
            && ShortImageHash(c.lib.digest, ImageRefOf(job).value) == ShortImageHash(c.lib.digest, image)
  {
    var name := NameFor(c, image);
    var job := s.jobs[name];
    assert GoodJob(c, floor, name, job);
    ShortHashShape(c.lib.digest, image);
    ClaimsOwnNames(c.crName, ShortImageHash(c.lib.digest, image));
    ShortHashShape(c.lib.digest, ImageRefOf(job).value);
    NamesCoincide(c.crName, ShortImageHash(c.lib.digest, image), c.crName,
        ShortImageHash(c.lib.digest, ImageRefOf(job).value));
  }

  /** No listed Job scans another image with the short hash of this one. */
  predicate Unclashed(c: Ctx, jobs: seq<Job>, image: string) {
    forall j | j in jobs && ImageRefOf(j).Some? ::
      ShortImageHash(c.lib.digest, ImageRefOf(j).value) == ShortImageHash(c.lib.digest, image) ==>
          ImageRefOf(j).value == image
  }

  /** `Ready=True` means everything in scope was scanned.  Jobs may progress freely between the API
      calls, and be removed: a reconcile that ends in `ScanCompleted` leaves, for every image in scope
      at its pod listing whose own Job is not removed between its create and the listing, a record of
      an image with the same short hash, and of the image itself when no listed Job clashes with it.
      The record is fresh: unless that Job was already being deleted, it completed at or above the
      floor of the store, that is, in the second of the last completed fire or later. */
  lemma ReadyCoversScope(c: Ctx, cr: CrView, seen: Option<Status>, floor: Instant, s: Server, image: string)
    returns (record: ScannedImage)
    requires Good(c, floor, s) && Scan(c, cr, seen, s).status.Some?
    requires ReasonOf(Scan(c, cr, seen, s).status.value) == Some(ScanCompleted)
    requires CoveredInScope(c, cr, s, image)
    ensures record in Scan(c, cr, seen, s).status.value.scannedImages
    ensures ShortImageHash(c.lib.digest, record.imageRef) == ShortImageHash(c.lib.digest, image)
    ensures Scan(c, cr, seen, s).listed.Some?
    ensures Unclashed(c, Scan(c, cr, seen, s).listed.value, image) ==> record.imageRef == image
    ensures var jobs := Scan(c, cr, seen, s).server.jobs;
            NameFor(c, image) in jobs
            && (!jobs[NameFor(c, image)].deleting ==> record.completedAt >= FloorSecond(floor))
  {
    CompletedScan(c, cr, seen, s);
    InScopeIsListed(c, cr, seen, floor, s, image);
    ScanKeepsGood(c, cr, seen, floor, s);
    record := ListedRecord(c, cr, seen, floor, s, NameFor(c, image));
  }

  /** The record a completed scan holds of an owned Job in the store it listed. */
  lemma ListedRecord(c: Ctx, cr: CrView, seen: Option<Status>, floor: Instant, s: Server, name: string)
    returns (record: ScannedImage)
    requires Good(c, floor, s) && Scan(c, cr, seen, s).status.Some?
    requires ReasonOf(Scan(c, cr, seen, s).status.value) == Some(ScanCompleted)
    requires name in Scan(c, cr, seen, s).server.jobs && Owned(c.crName, Scan(c, cr, seen, s).server.jobs[name])
    ensures var scan := Scan(c, cr, seen, s);
            && record in scan.status.value.scannedImages
            && scan.listed.Some? && scan.server.jobs[name] in scan.listed.value
            && ImageRefOf(scan.server.jobs[name]) == Some(record.imageRef)
            && (!scan.server.jobs[name].deleting ==> record.completedAt >= FloorSecond(floor))
  {
    var scan := Scan(c, cr, seen, s);
    var job := scan.server.jobs[name];
    CompletedScan(c, cr, seen, s);
    ListingMembers(c, scan.server.jobs);
    assert job in scan.listed.value;
    CompletedScanHoldsRecord(c, cr, seen, floor, s, job);
    ScanKeepsGood(c, cr, seen, floor, s);
    record := ScannedImageOf(job, cr.spec, scan.server.clock).value;
    if !job.deleting { LiveRecordIsFresh(c, cr.spec, floor, scan.server, name); }
  }

  lemma LiveRecordIsFresh(c: Ctx, spec: Spec, floor: Instant, s: Server, name: string)
    requires Good(c, floor, s) && Live(c, s, name) && IsSucceeded(s.jobs[name])
    ensures ScannedImageOf(s.jobs[name], spec, s.clock).Some?
    ensures ScannedImageOf(s.jobs[name], spec, s.clock).value.completedAt >= FloorSecond(floor)
  {
    assert GoodJob(c, floor, name, s.jobs[name]);
  }

  /** The clash is real: of two images with one short hash only the first gets a Job. */
  lemma ClashingImageGetsNoJob(c: Ctx, cr: CrView, a: string, b: string)
    requires StampedJob(c, cr, a).Ok? && StampedJob(c, cr, b).Ok?
    requires ShortImageHash(c.lib.digest, Trim(a)) == ShortImageHash(c.lib.digest, Trim(b))
    ensures WithJobs(c, cr, map[], [a, b]) == map[NameFor(c, a) := StampedJob(c, cr, a).value]
  {
    assert [a, b][0] == a && [a, b][1] == b && [a, b][1..] == [b] && [b][1..] == [];
    var jobs := WithJob(c, cr, map[], a);
    assert WithJob(c, cr, jobs, b) == jobs;
    assert WithJobs(c, cr, jobs, [b]) == jobs;
  }

  /** What it takes when Jobs are removed meanwhile: a completed scan has a record of an image exactly
      when there was one before or a Job of that image was still there to be listed. */
  lemma CoveredExactly(c: Ctx, cr: CrView, seen: Option<Status>, s: Server, image: string)
    requires Scan(c, cr, seen, s).status.Some? && Scan(c, cr, seen, s).listed.Some?
    requires ReasonOf(Scan(c, cr, seen, s).status.value) == Some(ScanCompleted)
    requires forall j | j in Scan(c, cr, seen, s).listed.value :: HashLabelOf(j).Some?
    ensures var scan := Scan(c, cr, seen, s);
            HasRecord(scan.status.value.scannedImages, image) <==>
              || HasRecord(Images(seen), image)
              || exists j | j in scan.listed.value :: ImageRefOf(j) == Some(image)
  {
    CompletedScan(c, cr, seen, s);
    var scan := Scan(c, cr, seen, s);
    MergeKeys(Images(seen), ScannedImagesOf(scan.listed.value, cr.spec, scan.server.clock), image);
    ScannedKeys(scan.listed.value, cr.spec, scan.server.clock, image);
  }

  lemma {:induction false} ScannedKeys(jobs: seq<Job>, spec: Spec, clock: Instant, image: string)
    requires forall j | j in jobs :: HashLabelOf(j).Some? && IsSucceeded(j)
    ensures HasRecord(ScannedImagesOf(jobs, spec, clock), image) <==>
        exists j | j in jobs :: ImageRefOf(j) == Some(image)
  {
    var scanned := ScannedImagesOf(jobs, spec, clock);
    if HasRecord(scanned, image) {
      var i :| 0 <= i < |scanned| && scanned[i].imageRef == image;
      ScannedMembership(jobs, spec, clock, scanned[i]);
    }
    if j :| j in jobs && ImageRefOf(j) == Some(image) {
      var record := ScannedImageOf(j, spec, clock).value;
      ScannedMembership(jobs, spec, clock, record);
      var i :| 0 <= i < |scanned| && scanned[i] == record;
    }
  }

  // ---------------------------------------------------------------------------------------------
  // Which succeeded Jobs are recorded.
  // ---------------------------------------------------------------------------------------------

  lemma SameImageSameJob(c: Ctx, floor: Instant, s: Server, j: Job, k: Job)
    requires Good(c, floor, s) && j in Listing(c, s.jobs) && k in Listing(c, s.jobs)
    ensures ImageRefOf(j).Some? && HashLabelOf(j).Some?
    ensures ImageRefOf(j) == ImageRefOf(k) ==> j == k
  {
    ListingMembers(c, s.jobs);
    var m :| m in s.jobs && Owned(c.crName, s.jobs[m]) && s.jobs[m] == j;
    var n :| n in s.jobs && Owned(c.crName, s.jobs[n]) && s.jobs[n] == k;
    assert GoodJob(c, floor, m, j) && GoodJob(c, floor, n, k);
  }

  /** The record of the Job is in the list. */
  predicate RecordIn(job: Job, spec: Spec, clock: Instant, images: seq<ScannedImage>) {
    ScannedImageOf(job, spec, clock).Some? && ScannedImageOf(job, spec, clock).value in images
  }

  /** A completed scan holds the current record of each Job it listed. */
  lemma CompletedScanHoldsRecord(c: Ctx, cr: CrView, seen: Option<Status>, floor: Instant, s: Server, job: Job)
    requires Good(c, floor, s) && Scan(c, cr, seen, s).status.Some?
    requires ReasonOf(Scan(c, cr, seen, s).status.value) == Some(ScanCompleted)
    requires Scan(c, cr, seen, s).listed.Some? && job in Scan(c, cr, seen, s).listed.value
    ensures var scan := Scan(c, cr, seen, s);
            RecordIn(job, cr.spec, scan.server.clock, scan.status.value.scannedImages)
  {
    var scan := Scan(c, cr, seen, s);
    CompletedScan(c, cr, seen, s);
    ScanKeepsGood(c, cr, seen, floor, s);
    RecordMerges(c, cr.spec, floor, scan.server, Images(seen), job);
  }

  lemma RecordMerges(c: Ctx, spec: Spec, floor: Instant, s: Server, images: seq<ScannedImage>, job: Job)
    requires Good(c, floor, s) && job in Listing(c, s.jobs) && forall j | j in Listing(c, s.jobs) :: IsSucceeded(j)
    ensures var scanned := ScannedImagesOf(Listing(c, s.jobs), spec, s.clock);
            scanned != [] && RecordIn(job, spec, s.clock, Merge(images, scanned))
  {
    var listing := Listing(c, s.jobs);
    var scanned := ScannedImagesOf(listing, spec, s.clock);
    SameImageSameJob(c, floor, s, job, job);
    assert IsSucceeded(job);
    var record := ScannedImageOf(job, spec, s.clock).value;
    ScannedMembership(listing, spec, s.clock, record);
    forall other | other in scanned && other.imageRef == record.imageRef ensures other == record {
      RecordIsUnique(c, spec, floor, s, job, other);
    }
    MergeKeepsNew(images, scanned, record);
  }

  lemma RecordIsUnique(c: Ctx, spec: Spec, floor: Instant, s: Server, job: Job, other: ScannedImage)
    requires Good(c, floor, s) && job in Listing(c, s.jobs) && ImageRefOf(job) == Some(other.imageRef)
    requires other in ScannedImagesOf(Listing(c, s.jobs), spec, s.clock)
    ensures ScannedImageOf(job, spec, s.clock) == Some(other)
  {
    ScannedMembership(Listing(c, s.jobs), spec, s.clock, other);
    var k :| k in Listing(c, s.jobs) && ScannedImageOf(k, spec, s.clock) == Some(other);
    SameImageSameJob(c, floor, s, job, k);
  }

  /** The records of a completed scan name the place of their own image's SBOM, and no two name the same. */
  lemma RecordedLocations(c: Ctx, cr: CrView, seen: Option<Status>, floor: Instant, s: Server, a: ScannedImage,
                          b: ScannedImage)
    requires Good(c, floor, s) && Scan(c, cr, seen, s).status.Some?
    requires ReasonOf(Scan(c, cr, seen, s).status.value) == Some(ScanCompleted)
    requires var scan := Scan(c, cr, seen, s);
             && scan.listed.Some?
             && a in ScannedImagesOf(scan.listed.value, cr.spec, scan.server.clock)
             && b in ScannedImagesOf(scan.listed.value, cr.spec, scan.server.clock)
    ensures a.sbomLocation == SbomLocation(cr.spec, ShortImageHash(c.lib.digest, a.imageRef))
    ensures a.sbomLocation == b.sbomLocation <==> a == b
  {
    CompletedScan(c, cr, seen, s);
    ScanKeepsGood(c, cr, seen, floor, s);
    ListedIsBuildable(c, cr, seen, s);
    ListedLocations(c, cr.spec, floor, Scan(c, cr, seen, s).server, a, b);
  }

  lemma ListedIsBuildable(c: Ctx, cr: CrView, seen: Option<Status>, s: Server)
    requires Scan(c, cr, seen, s).listed.Some?
    ensures Buildable(cr.spec)
  {
    assert EnsureJobs(c, cr, s).1.Spawned?;
    EnsureJobsDecides(c, cr, s);
  }

  lemma ListedLocations(c: Ctx, spec: Spec, floor: Instant, s: Server, a: ScannedImage, b: ScannedImage)
    requires Good(c, floor, s) && Buildable(spec)
    requires a in ScannedImagesOf(Listing(c, s.jobs), spec, s.clock)
    requires b in ScannedImagesOf(Listing(c, s.jobs), spec, s.clock)
    ensures a.sbomLocation == SbomLocation(spec, ShortImageHash(c.lib.digest, a.imageRef))
    ensures a.sbomLocation == b.sbomLocation <==> a == b
  {
    var j, m := RecordedJob(c, spec, floor, s, a);
    var k, n := RecordedJob(c, spec, floor, s, b);
    LocationsDiffer(spec, ShortImageHash(c.lib.digest, a.imageRef), ShortImageHash(c.lib.digest, b.imageRef));
  }

  lemma RecordedJob(c: Ctx, spec: Spec, floor: Instant, s: Server, record: ScannedImage)
    returns (job: Job, name: string)
    requires Good(c, floor, s) && record in ScannedImagesOf(Listing(c, s.jobs), spec, s.clock)
    ensures name in s.jobs && s.jobs[name] == job && ScannedImageOf(job, spec, s.clock) == Some(record)
    ensures name == JobNameOf(c.crName, ShortImageHash(c.lib.digest, record.imageRef))
    ensures record.sbomLocation == SbomLocation(spec, ShortImageHash(c.lib.digest, record.imageRef))
  {
    ScannedMembership(Listing(c, s.jobs), spec, s.clock, record);
    ListingMembers(c, s.jobs);
    job :| job in Listing(c, s.jobs) && ScannedImageOf(job, spec, s.clock) == Some(record);
    name :| name in s.jobs && Owned(c.crName, s.jobs[name]) && s.jobs[name] == job;
    assert GoodJob(c, floor, name, job);
  }

  predicate AllDone(jobs: seq<Job>) { forall j | j in jobs :: IsSucceeded(j) && !IsFinallyFailed(j) }

  predicate SucceededIn(jobs: seq<Job>, spec: Spec, clock: Instant, images: seq<ScannedImage>) {
    forall j | j in jobs && IsSucceeded(j) :: RecordIn(j, spec, clock, images)
  }

  ghost predicate SucceededNamed(jobs: seq<Job>, images: seq<ScannedImage>) {
    forall j | j in jobs && IsSucceeded(j) :: ImageRefOf(j).Some? && HasRecord(images, ImageRefOf(j).value)
  }

  /** Whether every succeeded Job listed has its record afterwards: exactly when all the Jobs listed
      succeeded and none was finally failed, or when each succeeded one had it before. */
  lemma SucceededAreRecordedIff(c: Ctx, cr: CrView, seen: Option<Status>, floor: Instant, s: Server)
    requires Good(c, floor, s) && Scan(c, cr, seen, s).status.Some? && Scan(c, cr, seen, s).listed.Some?
    ensures var scan := Scan(c, cr, seen, s);
            var jobs, clock := scan.listed.value, scan.server.clock;
            && (SucceededIn(jobs, cr.spec, clock, scan.status.value.scannedImages) <==>
                  AllDone(jobs) || SucceededIn(jobs, cr.spec, clock, Images(seen)))
            && (SucceededNamed(jobs, scan.status.value.scannedImages) <==>
                  AllDone(jobs) || SucceededNamed(jobs, Images(seen)))
  {
    var scan := Scan(c, cr, seen, s);
    var jobs, clock := scan.listed.value, scan.server.clock;
    CompletedMeansAllSucceeded(c, cr, seen, s);
    if ReasonOf(scan.status.value) == Some(ScanCompleted) {
      forall j | j in jobs ensures RecordIn(j, cr.spec, clock, scan.status.value.scannedImages) {
        CompletedScanHoldsRecord(c, cr, seen, floor, s, j);
      }
      RecordsAreNamed(jobs, cr.spec, clock, scan.status.value.scannedImages);
    } else {
      OtherScansRecordNothing(c, cr, seen, s);
    }
  }

  lemma {:induction false} RecordsAreNamed(jobs: seq<Job>, spec: Spec, clock: Instant, images: seq<ScannedImage>)
    requires SucceededIn(jobs, spec, clock, images)
    ensures SucceededNamed(jobs, images)
  {
    forall j | j in jobs && IsSucceeded(j) ensures ImageRefOf(j).Some? && HasRecord(images, ImageRefOf(j).value) {
      assert RecordIn(j, spec, clock, images);
      var i :| 0 <= i < |images| && images[i] == ScannedImageOf(j, spec, clock).value;
    }
  }
}
