/** From pods to Jobs: which images are in scope, and one Job for each. */
module Orchestrator {
  import opened Basics
  import opened Rfc3339
  import opened Crd
  import opened JobName
  import opened ScanJob
  import opened Conditions
  import opened Cluster

  /** The CR as one reconcile sees it, besides its name and status. */
  datatype CrView = CrView(uid: Option<string>, creation: Option<Instant>, spec: Spec)

  // ---------------------------------------------------------------------------------------------
  // Images in scope.
  // ---------------------------------------------------------------------------------------------

  predicate IsPodInScope(pod: Pod) {
    pod.phase.None? || pod.phase.value == "Running" || pod.phase.value == "Pending"
  }

  function ContainersOf(pod: PodSpec): seq<Container> {
    pod.initContainers.GetOr([]) + pod.containers + pod.ephemeralContainers.GetOr([])
  }

  /** `container` contributes `image` to the scan. */
  predicate Contributes(container: Container, image: string) {
    container.image.Some? && Trim(container.image.value) == image && image != []
  }

  predicate PodContributes(pod: Pod, image: string) {
    IsPodInScope(pod) && pod.spec.Some? && exists k | k in ContainersOf(pod.spec.value) :: Contributes(k, image)
  }

  predicate InScope(pods: seq<Pod>, image: string) {
    exists p | p in pods :: PodContributes(p, image)
  }

  function PodImages(pod: Pod): (images: set<string>)
    ensures forall image :: image in images <==> PodContributes(pod, image)
  {
    if !IsPodInScope(pod) || pod.spec.None? then {}
    else set k | k in ContainersOf(pod.spec.value) && k.image.Some? && !Blank(k.image.value) :: Trim(k.image.value)
  }

  function ImagesInScope(pods: seq<Pod>): (images: set<string>)
    ensures forall image :: image in images <==> InScope(pods, image)
  {
    if pods == [] then {} else PodImages(pods[0]) + ImagesInScope(pods[1..])
  }

  function PushImage(images: set<string>, image: Option<string>): set<string> {
    if image.Some? && Trim(image.value) != [] then images + {Trim(image.value)} else images
  }

  method PushAll(images: set<string>, containers: seq<Container>) returns (r: set<string>)
    ensures forall image :: image in r <==> image in images || exists k | k in containers :: Contributes(k, image)
  {
    r := images;
    for i := 0 to |containers|
      invariant forall image :: image in r <==>
          image in images || exists k | k in containers[..i] :: Contributes(k, image)
    {
      ghost var before := r;
      assert containers[..i + 1] == containers[..i] + [containers[i]];
      r := PushImage(r, containers[i].image);
      assert forall image :: image in r <==> image in before || Contributes(containers[i], image);
      assert containers[i] in containers[..i + 1];
      assert forall k :: k in containers[..i + 1] <==> k in containers[..i] || k == containers[i];
    }
    assert containers[..|containers|] == containers;
  }

  /** `collect_images_from_pods`. */
  method CollectImages(pods: seq<Pod>) returns (images: set<string>)
    ensures images == ImagesInScope(pods)
  {
    images := {};
    for i := 0 to |pods|
      invariant forall image :: image in images <==> InScope(pods[..i], image)
    {
      ghost var before := images;
      var pod := pods[i];
      if IsPodInScope(pod) && pod.spec.Some? {
        var spec := pod.spec.value;
        images := PushAll(images, spec.initContainers.GetOr([]));
        images := PushAll(images, spec.containers);
        images := PushAll(images, spec.ephemeralContainers.GetOr([]));
        assert forall image :: image in images <==>
            image in before || exists k | k in ContainersOf(spec) :: Contributes(k, image) by {
          assert forall k :: k in ContainersOf(spec) <==>
              k in spec.initContainers.GetOr([]) || k in spec.containers || k in spec.ephemeralContainers.GetOr([]);
        }
      }
      assert forall image :: image in images <==> image in before || PodContributes(pod, image);
      assert pods[..i + 1] == pods[..i] + [pod];
    }
    assert pods[..|pods|] == pods;
  }

  /** A pod that is running, pending or of no known phase, and runs the image in one of its init, main or
      ephemeral containers, up to blanks around the reference. */
  predicate RunsImage(pod: Pod, image: string) {
    && (pod.phase == None || pod.phase == Some("Running") || pod.phase == Some("Pending"))
    && pod.spec.Some? && image != []
    && var spec := pod.spec.value;
       || (exists k | k in spec.containers :: k.image.Some? && Trim(k.image.value) == image)
       || (spec.initContainers.Some?
           && exists k | k in spec.initContainers.value :: k.image.Some? && Trim(k.image.value) == image)
       || (spec.ephemeralContainers.Some?
           && exists k | k in spec.ephemeralContainers.value :: k.image.Some? && Trim(k.image.value) == image)
  }

  lemma ContributesExactly(pod: Pod, image: string)
    ensures PodContributes(pod, image) <==> RunsImage(pod, image)
  {
    if pod.spec.Some? {
      var spec, all := pod.spec.value, ContainersOf(pod.spec.value);
      assert forall k :: k in all <==>
          k in spec.initContainers.GetOr([]) || k in spec.containers || k in spec.ephemeralContainers.GetOr([]);
      if k :| k in all && Contributes(k, image) { assert k.image.Some? && Trim(k.image.value) == image; }
      if k :| k in all && k.image.Some? && Trim(k.image.value) == image && image != [] {
        assert Contributes(k, image);
      }
    }
  }

  lemma CollectedImagesAreClean(pods: seq<Pod>)
    ensures forall image | image in ImagesInScope(pods) :: !Blank(image) && Trim(image) == image
  {
    forall image | image in ImagesInScope(pods) ensures !Blank(image) && Trim(image) == image {
      var p :| p in pods && PodContributes(p, image);
      var k :| k in ContainersOf(p.spec.value) && Contributes(k, image);
      TrimIdempotent(k.image.value);
    }
  }

  // ---------------------------------------------------------------------------------------------
  // `ensure_jobs`.
  // ---------------------------------------------------------------------------------------------

  datatype PodList = Pods(pods: seq<Pod>) | NamespaceMissing | Denied(denial: Orchestration)

  function ClassifyPodList(result: Result<seq<Pod>, KubeError>, namespace: string): PodList {
    match result
    case Ok(pods) => Pods(pods)
    case Err(Api(code, message)) =>
      if code == FORBIDDEN then Denied(RbacDenied("list pods", namespace, message))
      else if code == NOT_FOUND then NamespaceMissing
      else Denied(RbacDenied("list pods", namespace, "unexpected kube error: " + message))
    case Err(Transport(message)) => Denied(RbacDenied("list pods", namespace, "unexpected kube error: " + message))
  }

  datatype JobCreation = Created | Preexisting | CreateDenied(denial: Orchestration)

  function ClassifyJobCreate(c: Ctx, result: Result<Job, KubeError>): JobCreation {
    match result
    case Ok(_) => Created
    case Err(Api(code, message)) =>
      if code == CONFLICT then Preexisting
      else if code == FORBIDDEN then CreateDenied(RbacDenied("create batch/v1.jobs", c.operatorNamespace, message))
      else CreateDenied(RbacDenied("create batch/v1.jobs", c.operatorNamespace, "unexpected kube error: " + message))
    case Err(Transport(message)) =>
      CreateDenied(RbacDenied("create batch/v1.jobs", c.operatorNamespace, "unexpected kube error: " + message))
  }

  /** List the pods of every namespace in turn; the first denial ends the listing. */
  function ListTargets(c: Ctx, s: Server, namespaces: seq<string>, acc: seq<Pod>)
    : (Server, Result<seq<Pod>, Orchestration>)
    decreases namespaces
  {
    if namespaces == [] then (s, Ok(acc))
    else
      var (s1, answer) := ListPods(c, s);
      match ClassifyPodList(answer, namespaces[0])
      case Pods(pods) => ListTargets(c, s1, namespaces[1..], acc + pods)
      case NamespaceMissing => ListTargets(c, s1, namespaces[1..], acc)
      case Denied(denial) => (s1, Err(denial))
  }

  function MakeOwnerReference(c: Ctx, uid: string): OwnerReference {
    OwnerReference("kusari.dev/v1alpha1", "NamespaceScan", c.crName, uid, true, true)
  }

  function NameFor(c: Ctx, image: string): string {
    JobNameOf(c.crName, ShortImageHash(c.lib.digest, Trim(image)))
  }

  /** The Job submitted for an image: what the builder returns, with the owner reference added. */
  function StampedJob(c: Ctx, cr: CrView, image: string): Result<Job, BuildError> {
    match BuildScanJob(c.lib.digest, cr.spec, c.crName, image)
    case Err(e) => Err(e)
    case Ok(job) => Ok(job.(owners := job.owners + [MakeOwnerReference(c, cr.uid.GetOr(""))]))
  }

  /** Create a Job for each image in turn; the first refusal ends the loop. */
  function CreateAll(c: Ctx, cr: CrView, s: Server, images: seq<string>, distinct: nat): (Server, Orchestration)
    decreases images
  {
    if images == [] then (s, Spawned(distinct))
    else
      match StampedJob(c, cr, images[0])
      case Err(e) => (s, CannotBuildJob(images[0], e))
      case Ok(job) =>
        var (s1, answer) := CreateJob(c, s, NameFor(c, images[0]), job);
        match ClassifyJobCreate(c, answer)
        case CreateDenied(denial) => (s1, denial)
        case _ => CreateAll(c, cr, s1, images[1..], distinct)
  }

  /** The second half of `ensure_jobs`, from the pods on. */
  function Orchestrate(c: Ctx, cr: CrView, s: Server, pods: seq<Pod>): (Server, Orchestration) {
    var images := SortedKeys(ImagesInScope(pods));
    if images == [] then (s, NoImages) else CreateAll(c, cr, s, images, |images|)
  }

  function EnsureJobs(c: Ctx, cr: CrView, s: Server): (Server, Orchestration) {
    var (s1, listed) := ListTargets(c, s, cr.spec.target.namespaces, []);
    match listed
    case Err(denial) => (s1, denial)
    case Ok(pods) => Orchestrate(c, cr, s1, pods)
  }

  // ---------------------------------------------------------------------------------------------
  // What the listings answer, read off the script: the call at `i` is for the namespace at `i`.
  // ---------------------------------------------------------------------------------------------

  /** The pod is in the answer for the namespace at `i`. */
  predicate Lists(script: seq<Call>, i: nat, pod: Pod) {
    CallAt(script, i).failure.None? && pod in CallAt(script, i).pods
  }

  /** Any failure but 404, which stands for a namespace that is not there, refuses the listing. */
  predicate RefusesListing(call: Call) {
    call.failure.Some? && !(call.failure.value.error.Api? && call.failure.value.error.code == 404)
  }

  predicate RefusesFirstAt(script: seq<Call>, i: nat) {
    RefusesListing(CallAt(script, i)) && forall k | 0 <= k < i :: !RefusesListing(CallAt(script, k))
  }

  predicate ListingRefused(script: seq<Call>, n: nat) {
    exists i | 0 <= i < n :: RefusesListing(CallAt(script, i))
  }

  /** What a refused call is reported as. */
  function Denial(verbResource: string, namespace: string, error: KubeError): Orchestration {
    RbacDenied(verbResource, namespace,
               match error
               case Api(code, message) => if code == 403 then message else "unexpected kube error: " + message
               case Transport(message) => "unexpected kube error: " + message)
  }

  /** The images that the pods of the first `n` namespaces run. */
  function AnsweredImages(script: seq<Call>, n: nat): set<string> {
    if n == 0 then {}
    else
      AnsweredImages(script, n - 1)
      + if CallAt(script, n - 1).failure.None? then ImagesInScope(CallAt(script, n - 1).pods) else {}
  }

  predicate Answers(script: seq<Call>, i: nat, image: string) {
    exists p | p in CallAt(script, i).pods :: Lists(script, i, p) && RunsImage(p, image)
  }

  /** The same without recursion: some pod in the answer for one of the namespaces runs the image. */
  lemma {:induction false} AnsweredExactly(script: seq<Call>, n: nat, image: string)
    ensures image in AnsweredImages(script, n) <==> exists i: nat | i < n :: Answers(script, i, image)
  {
    if n > 0 {
      AnsweredExactly(script, n - 1, image);
      AnswerExactly(script, n - 1, image);
    }
  }

  lemma AnswerExactly(script: seq<Call>, i: nat, image: string)
    ensures Answers(script, i, image) <==>
              CallAt(script, i).failure.None? && image in ImagesInScope(CallAt(script, i).pods)
  {
    forall p | p in CallAt(script, i).pods ensures PodContributes(p, image) <==> RunsImage(p, image) {
      ContributesExactly(p, image);
    }
  }

  /** The images a reconcile starting in `s` is to scan. */
  function Scope(cr: CrView, s: Server): set<string> { AnsweredImages(s.script, |cr.spec.target.namespaces|) }

  ghost predicate ListsExactly(script: seq<Call>, n: nat, acc: seq<Pod>, pods: seq<Pod>) {
    && !ListingRefused(script, n)
    && forall p :: p in pods <==> p in acc || exists i | 0 <= i < n :: Lists(script, i, p)
  }

  predicate DeniesFirst(script: seq<Call>, namespaces: seq<string>, denial: Orchestration, i: nat) {
    && i < |namespaces| && RefusesFirstAt(script, i)
    && denial == Denial("list pods", namespaces[i], CallAt(script, i).failure.value.error)
  }

  /** The listing loop in every interleaving: it returns the pods of every namespace that answered, or
      stops at the first refusal and reports it. */
  lemma {:induction false} ListTargetsExactly(c: Ctx, s: Server, namespaces: seq<string>, acc: seq<Pod>)
    ensures var (s', r) := ListTargets(c, s, namespaces, acc);
            match r
            case Ok(pods) => ListsExactly(s.script, |namespaces|, acc, pods)
                             && s'.script == DropCalls(s.script, |namespaces|)
            case Err(denial) => exists i: nat :: DeniesFirst(s.script, namespaces, denial, i)
    decreases namespaces
  {
    if namespaces != [] {
      var (s1, answer) := ListPods(c, s);
      match ClassifyPodList(answer, namespaces[0])
      case Pods(pods) =>
        ListTargetsExactly(c, s1, namespaces[1..], acc + pods);
        ListingCons(s.script, namespaces, acc, acc + pods, ListTargets(c, s1, namespaces[1..], acc + pods).1);
      case NamespaceMissing =>
        ListTargetsExactly(c, s1, namespaces[1..], acc);
        ListingCons(s.script, namespaces, acc, acc, ListTargets(c, s1, namespaces[1..], acc).1);
      case Denied(denial) =>
        assert DeniesFirst(s.script, namespaces, denial, 0);
    }
  }

  lemma ListingCons(script: seq<Call>, namespaces: seq<string>, acc: seq<Pod>, acc': seq<Pod>,
                    r: Result<seq<Pod>, Orchestration>)
    requires namespaces != [] && !RefusesListing(HeadCall(script))
    requires forall p :: p in acc' <==> p in acc || Lists(script, 0, p)
    requires match r
             case Ok(pods) => ListsExactly(TailCalls(script), |namespaces| - 1, acc', pods)
             case Err(denial) => exists i: nat :: DeniesFirst(TailCalls(script), namespaces[1..], denial, i)
    ensures match r
            case Ok(pods) => ListsExactly(script, |namespaces|, acc, pods)
            case Err(denial) => exists i: nat :: DeniesFirst(script, namespaces, denial, i)
  {
    forall i: nat ensures CallAt(TailCalls(script), i) == CallAt(script, i + 1) { TailCallAt(script, i); }
    match r
    case Ok(pods) => ListedCons(script, |namespaces|, acc, acc', pods);
    case Err(denial) =>
      var i: nat :| DeniesFirst(TailCalls(script), namespaces[1..], denial, i);
      RefusedCons(script, i);
      assert DeniesFirst(script, namespaces, denial, i + 1);
  }

  lemma RefusedCons(script: seq<Call>, i: nat)
    requires RefusesFirstAt(TailCalls(script), i) && !RefusesListing(HeadCall(script))
    ensures RefusesFirstAt(script, i + 1)
  {
    forall k | 0 <= k < i + 1 ensures !RefusesListing(CallAt(script, k)) {
      if k > 0 { TailCallAt(script, k - 1); }
    }
    TailCallAt(script, i);
  }

  lemma ListedCons(script: seq<Call>, n: nat, acc: seq<Pod>, acc': seq<Pod>, pods: seq<Pod>)
    requires n > 0 && !RefusesListing(HeadCall(script)) && ListsExactly(TailCalls(script), n - 1, acc', pods)
    requires forall p :: p in acc' <==> p in acc || Lists(script, 0, p)
    ensures ListsExactly(script, n, acc, pods)
  {
    forall i | 0 <= i < n ensures !RefusesListing(CallAt(script, i)) {
      if i > 0 { TailCallAt(script, i - 1); }
    }
    forall p ensures p in pods <==> p in acc || exists i | 0 <= i < n :: Lists(script, i, p) {
      if i :| 0 <= i < n && Lists(script, i, p) {
        if i > 0 {
          TailCallAt(script, i - 1);
          assert Lists(TailCalls(script), i - 1, p);
        }
      }
      if i :| 0 <= i < n - 1 && Lists(TailCalls(script), i, p) {
        TailCallAt(script, i);
        assert Lists(script, i + 1, p);
      }
    }
  }

  /** The pods listed run exactly the images of the answers. */
  lemma ListedScope(c: Ctx, s: Server, namespaces: seq<string>)
    ensures var (s', r) := ListTargets(c, s, namespaces, []);
            && (r.Err? <==> ListingRefused(s.script, |namespaces|))
            && (r.Ok? ==> ImagesInScope(r.value) == AnsweredImages(s.script, |namespaces|)
                          && s'.script == DropCalls(s.script, |namespaces|))
  {
    ListTargetsExactly(c, s, namespaces, []);
    var r := ListTargets(c, s, namespaces, []).1;
    if r.Ok? { ScopeOfAnswers(s.script, |namespaces|, r.value); }
  }

  lemma ScopeIsClean(cr: CrView, s: Server)
    ensures forall image | image in Scope(cr, s) :: !Blank(image) && Trim(image) == image
  {
    forall image | image in Scope(cr, s) ensures !Blank(image) && Trim(image) == image {
      AnsweredExactly(s.script, |cr.spec.target.namespaces|, image);
      var i: nat :| i < |cr.spec.target.namespaces| && Answers(s.script, i, image);
      AnswerExactly(s.script, i, image);
      CollectedImagesAreClean(CallAt(s.script, i).pods);
    }
  }

  lemma ScopeOfAnswers(script: seq<Call>, n: nat, pods: seq<Pod>)
    requires ListsExactly(script, n, [], pods)
    ensures ImagesInScope(pods) == AnsweredImages(script, n)
  {
    forall image ensures image in ImagesInScope(pods) <==> image in AnsweredImages(script, n) {
      AnsweredExactly(script, n, image);
      if p :| p in pods && PodContributes(p, image) {
        ContributesExactly(p, image);
        var i: nat :| i < n && Lists(script, i, p);
        assert Answers(script, i, image);
      }
      if i: nat :| i < n && Answers(script, i, image) {
        var p :| p in CallAt(script, i).pods && Lists(script, i, p) && RunsImage(p, image);
        ContributesExactly(p, image);
      }
    }
  }

  // ---------------------------------------------------------------------------------------------
  // The store invariant survives.
  // ---------------------------------------------------------------------------------------------

  lemma StampedJobIsFresh(c: Ctx, cr: CrView, image: string)
    requires StampedJob(c, cr, image).Ok?
    ensures IsFresh(c, NameFor(c, image), StampedJob(c, cr, image).value)
    ensures ImageRefOf(StampedJob(c, cr, image).value) == Some(Trim(image))
  {
    BuiltJobRoundTrip(c.lib.digest, cr.spec, c.crName, image);
    var built, job := BuildScanJob(c.lib.digest, cr.spec, c.crName, image).value, StampedJob(c, cr, image).value;
    assert ImageRefOf(job) == ImageRefOf(built) && HashLabelOf(job) == HashLabelOf(built);
  }

  /** Two images get one Job name exactly when their digests agree in the first 28 bits. */
  lemma ImagesShareAName(c: Ctx, a: string, b: string)
    ensures var d, e := c.lib.digest(Trim(a)), c.lib.digest(Trim(b));
            NameFor(c, a) == NameFor(c, b) <==>
              d[0] == e[0] && d[1] == e[1] && d[2] == e[2] && d[3] / 16 == e[3] / 16
  {
    HashesCoincide(c.lib.digest, Trim(a), Trim(b));
    NamesCoincide(c.crName, ShortImageHash(c.lib.digest, Trim(a)), c.crName, ShortImageHash(c.lib.digest, Trim(b)));
  }

  /** The submitted Job is the built one with a single owner, the CR, which controls it. */
  lemma StampedJobIsControlled(c: Ctx, cr: CrView, uid: string, image: string)
    requires StampedJob(c, cr, image).Ok? && cr.uid == Some(uid)
    ensures var job := StampedJob(c, cr, image).value;
            && job.owners == [OwnerReference("kusari.dev/v1alpha1", "NamespaceScan", c.crName, uid, true, true)]
            && BuildScanJob(c.lib.digest, cr.spec, c.crName, image) == Ok(job.(owners := []))
            && job.spec.Some? && job.spec.value.podSpec.Some?
            && PodRuns(cr.spec, job.spec.value.podSpec.value, Trim(image), HashLabelOf(job))
  {
    BuiltPodRuns(c.lib.digest, cr.spec, c.crName, image);
    var built, job := BuildScanJob(c.lib.digest, cr.spec, c.crName, image).value, StampedJob(c, cr, image).value;
    assert [] + [MakeOwnerReference(c, uid)] == [MakeOwnerReference(c, uid)];
    assert HashLabelOf(job) == HashLabelOf(built);
  }

  lemma {:induction false} ListTargetsKeepsGood(c: Ctx, since: Instant, s: Server, namespaces: seq<string>,
                                                acc: seq<Pod>)
    requires Good(c, since, s)
    ensures var s' := ListTargets(c, s, namespaces, acc).0;
            Good(c, since, s') && s'.clock >= s.clock && s'.status == s.status
    decreases namespaces
  {
    if namespaces != [] {
      ArriveKeepsGood(c, since, s);
      var (s1, answer) := ListPods(c, s);
      match ClassifyPodList(answer, namespaces[0])
      case Pods(pods) => ListTargetsKeepsGood(c, since, s1, namespaces[1..], acc + pods);
      case NamespaceMissing => ListTargetsKeepsGood(c, since, s1, namespaces[1..], acc);
      case Denied(_) =>
    }
  }

  lemma {:induction false} CreateAllKeepsGood(c: Ctx, cr: CrView, since: Instant, s: Server, images: seq<string>,
                                              distinct: nat)
    requires Good(c, since, s)
    ensures var s' := CreateAll(c, cr, s, images, distinct).0;
            Good(c, since, s') && s'.clock >= s.clock && s'.status == s.status
    decreases images
  {
    if images != [] && StampedJob(c, cr, images[0]).Ok? {
      var job := StampedJob(c, cr, images[0]).value;
      StampedJobIsFresh(c, cr, images[0]);
      CreateKeepsGood(c, since, s, NameFor(c, images[0]), job);
      var (s1, answer) := CreateJob(c, s, NameFor(c, images[0]), job);
      if !ClassifyJobCreate(c, answer).CreateDenied? {
        CreateAllKeepsGood(c, cr, since, s1, images[1..], distinct);
      }
    }
  }

  lemma EnsureJobsKeepsGood(c: Ctx, cr: CrView, since: Instant, s: Server)
    requires Good(c, since, s)
    ensures var s' := EnsureJobs(c, cr, s).0;
            Good(c, since, s') && s'.clock >= s.clock && s'.status == s.status
  {
    ListTargetsKeepsGood(c, since, s, cr.spec.target.namespaces, []);
    var (s1, listed) := ListTargets(c, s, cr.spec.target.namespaces, []);
    if listed.Ok? {
      var images := SortedKeys(ImagesInScope(listed.value));
      CreateAllKeepsGood(c, cr, since, s1, images, |images|);
    }
  }

  // ---------------------------------------------------------------------------------------------
  // What `ensure_jobs` does to the store under arbitrary API answers, the cluster being still.
  // ---------------------------------------------------------------------------------------------

  /** No environment moves; the answers are arbitrary. */
  predicate Still(script: seq<Call>) { forall i | 0 <= i < |script| :: script[i].events == [] }

  /** No environment moves and no call fails. */
  predicate Obliging(script: seq<Call>) { Still(script) && forall i | 0 <= i < |script| :: script[i].failure.None? }

  predicate AllBuild(c: Ctx, cr: CrView, images: seq<string>) {
    forall i | 0 <= i < |images| :: StampedJob(c, cr, images[i]).Ok?
  }

  /** `jobs` with a Job for every image of `images` whose name is free. */
  function WithJobs(c: Ctx, cr: CrView, jobs: map<string, Job>, images: seq<string>): map<string, Job>
    requires AllBuild(c, cr, images)
    decreases images
  {
    if images == [] then jobs else WithJobs(c, cr, WithJob(c, cr, jobs, images[0]), images[1..])
  }

  function WithJob(c: Ctx, cr: CrView, jobs: map<string, Job>, image: string): map<string, Job>
    requires StampedJob(c, cr, image).Ok?
  {
    if NameFor(c, image) in jobs then jobs else jobs[NameFor(c, image) := StampedJob(c, cr, image).value]
  }

  predicate Names(c: Ctx, images: seq<string>, i: nat, name: string) {
    i < |images| && NameFor(c, images[i]) == name
  }

  /** `WithJobs` without recursion: existing Jobs are untouched, the names present are the old ones
      and those of the images, and each new Job is the stamped Job of an image of that name. */
  lemma WithJobsExactly(c: Ctx, cr: CrView, jobs: map<string, Job>, images: seq<string>, name: string)
    requires AllBuild(c, cr, images)
    ensures var jobs' := WithJobs(c, cr, jobs, images);
            && (name in jobs ==> name in jobs' && jobs'[name] == jobs[name])
            && (name in jobs' <==> name in jobs || exists i: nat :: Names(c, images, i, name))
            && (name in jobs' && name !in jobs ==>
                  exists i: nat :: Names(c, images, i, name) && jobs'[name] == StampedJob(c, cr, images[i]).value)
  {
    WithJobsKeeps(c, cr, jobs, images, name);
    if name !in jobs {
      WithJobsAdds(c, cr, jobs, images, name);
    }
  }

  lemma {:induction false} WithJobsKeeps(c: Ctx, cr: CrView, jobs: map<string, Job>, images: seq<string>, name: string)
    requires AllBuild(c, cr, images)
    ensures name in jobs ==> name in WithJobs(c, cr, jobs, images) && WithJobs(c, cr, jobs, images)[name] == jobs[name]
    decreases images
  {
    if images != [] {
      WithJobsKeeps(c, cr, WithJob(c, cr, jobs, images[0]), images[1..], name);
    }
  }

  lemma {:induction false} WithJobsAdds(c: Ctx, cr: CrView, jobs: map<string, Job>, images: seq<string>, name: string)
    requires AllBuild(c, cr, images) && name !in jobs
    ensures (exists i: nat :: Names(c, images, i, name)) ==> name in WithJobs(c, cr, jobs, images)
    ensures name in WithJobs(c, cr, jobs, images) ==>
              exists i: nat :: Names(c, images, i, name)
                && WithJobs(c, cr, jobs, images)[name] == StampedJob(c, cr, images[i]).value
    decreases images
  {
    if images != [] {
      var jobs1, rest := WithJob(c, cr, jobs, images[0]), images[1..];
      if NameFor(c, images[0]) == name {
        WithJobsKeeps(c, cr, jobs1, rest, name);
        assert Names(c, images, 0, name);
      } else {
        WithJobsAdds(c, cr, jobs1, rest, name);
        if i: nat :| Names(c, images, i, name) {
          assert Names(c, rest, i - 1, name);
        }
        if name in WithJobs(c, cr, jobs1, rest) {
          var i: nat :| Names(c, rest, i, name)
                        && WithJobs(c, cr, jobs1, rest)[name] == StampedJob(c, cr, rest[i]).value;
          assert Names(c, images, i + 1, name) && images[i + 1] == rest[i];
        }
      }
    }
  }

  lemma StillArrive(c: Ctx, s: Server)
    requires Still(s.script)
    ensures Arrive(c, s) == s.(script := TailCalls(s.script))
    ensures Still(Arrive(c, s).script)
  {
    assert NextCall(s).events == [];
  }

  /** One create: accepted, or met by a Job of that name, it leaves the image's Job in place; refused,
      it does so exactly when it took effect all the same. */
  lemma CreateOne(c: Ctx, cr: CrView, s: Server, image: string)
    requires Still(s.script) && StampedJob(c, cr, image).Ok?
    ensures var (s1, answer) := CreateJob(c, s, NameFor(c, image), StampedJob(c, cr, image).value);
            && Still(s1.script) && s1.clock == s.clock && s1.status == s.status
            && s1.script == TailCalls(s.script)
            && match Injected(HeadCall(s.script), CONFLICT)
               case None => s1.jobs == WithJob(c, cr, s.jobs, image) && !ClassifyJobCreate(c, answer).CreateDenied?
               case Some(failure) =>
                 && s1.jobs == (if failure.tookEffect then WithJob(c, cr, s.jobs, image) else s.jobs)
                 && answer == Err(failure.error) && ClassifyJobCreate(c, answer).CreateDenied?
  {
    StillArrive(c, s);
  }

  /** How many images the create loop gets through before it stops, and how many of them it leaves a
      Job for: one more when the create that is refused took effect.  Both are read off the script
      and the specification, not off the store. */
  function Reached(c: Ctx, cr: CrView, script: seq<Call>, images: seq<string>): (n: nat)
    ensures n <= |images|
    decreases images
  {
    if images == [] || StampedJob(c, cr, images[0]).Err? || Injected(HeadCall(script), CONFLICT).Some? then 0
    else 1 + Reached(c, cr, TailCalls(script), images[1..])
  }

  function Handled(c: Ctx, cr: CrView, script: seq<Call>, images: seq<string>): (k: nat)
    ensures k <= |images|
    decreases images
  {
    if images == [] || StampedJob(c, cr, images[0]).Err? then 0
    else
      match Injected(HeadCall(script), CONFLICT)
      case Some(failure) => if failure.tookEffect then 1 else 0
      case None => 1 + Handled(c, cr, TailCalls(script), images[1..])
  }

  /** The create loop stops where and why the script says: at the end, at an image that cannot be
      built, or at a refused create. */
  predicate Stops(c: Ctx, cr: CrView, script: seq<Call>, images: seq<string>, distinct: nat, result: Orchestration) {
    var n, k := Reached(c, cr, script, images), Handled(c, cr, script, images);
    match result
    case Spawned(d) => d == distinct && n == k == |images|
    case CannotBuildJob(image, e) =>
      n == k < |images| && image == images[n] && StampedJob(c, cr, image) == Err(e)
    case RbacDenied(_, _, _) =>
      var failure := Injected(CallAt(script, n), CONFLICT);
      && n < |images| && StampedJob(c, cr, images[n]).Ok? && failure.Some?
      && ClassifyJobCreate(c, Err(failure.value.error)) == CreateDenied(result)
      && k == n + (if failure.value.tookEffect then 1 else 0)
    case NoImages => false
  }

  /** In every interleaving, the result of the create loop is decided by the answers alone. */
  lemma {:induction false} CreateAllStops(c: Ctx, cr: CrView, s: Server, images: seq<string>, distinct: nat)
    ensures Stops(c, cr, s.script, images, distinct, CreateAll(c, cr, s, images, distinct).1)
    decreases images
  {
    if images != [] && StampedJob(c, cr, images[0]).Ok? {
      var job := StampedJob(c, cr, images[0]).value;
      CreateAnswers(c, s, NameFor(c, images[0]), job);
      var (s1, answer) := CreateJob(c, s, NameFor(c, images[0]), job);
      if ClassifyJobCreate(c, answer).CreateDenied? {
        RefusalStops(c, cr, s.script, images, distinct, ClassifyJobCreate(c, answer).denial);
      } else {
        CreateAllStops(c, cr, s1, images[1..], distinct);
        StopsCons(c, cr, s.script, images, distinct, CreateAll(c, cr, s1, images[1..], distinct).1);
      }
    }
  }

  lemma StopsCons(c: Ctx, cr: CrView, script: seq<Call>, images: seq<string>, distinct: nat, result: Orchestration)
    requires images != [] && StampedJob(c, cr, images[0]).Ok? && Injected(HeadCall(script), CONFLICT).None?
    requires Stops(c, cr, TailCalls(script), images[1..], distinct, result)
    ensures Stops(c, cr, script, images, distinct, result)
  {
    var n := Reached(c, cr, TailCalls(script), images[1..]);
    assert CallAt(script, n + 1) == CallAt(TailCalls(script), n);
  }

  lemma RefusalStops(c: Ctx, cr: CrView, script: seq<Call>, images: seq<string>, distinct: nat, denial: Orchestration)
    requires images != [] && StampedJob(c, cr, images[0]).Ok? && Injected(HeadCall(script), CONFLICT).Some?
    requires ClassifyJobCreate(c, Err(Injected(HeadCall(script), CONFLICT).value.error)) == CreateDenied(denial)
    ensures Stops(c, cr, script, images, distinct, denial)
  {
    assert CallAt(script, 0) == HeadCall(script);
  }

  /** What a create answers and consumes, in every interleaving. */
  lemma CreateAnswers(c: Ctx, s: Server, name: string, job: Job)
    ensures CreateJob(c, s, name, job).0.script == TailCalls(s.script)
    ensures var answer := CreateJob(c, s, name, job).1;
            match Injected(HeadCall(s.script), CONFLICT)
            case None => !ClassifyJobCreate(c, answer).CreateDenied?
            case Some(failure) => answer == Err(failure.error) && ClassifyJobCreate(c, answer).CreateDenied?
  {
  }

  /** The create loop adds a Job for each free name among the first `Handled` images. */
  ghost predicate Adds(c: Ctx, cr: CrView, s: Server, images: seq<string>, s': Server) {
    var prefix := images[..Handled(c, cr, s.script, images)];
    && AllBuild(c, cr, prefix) && s'.jobs == WithJobs(c, cr, s.jobs, prefix)
    && s'.clock == s.clock && s'.status == s.status
  }

  /** What the create loop stores in a still cluster, for every pattern of answers. */
  lemma {:induction false} CreateAllAdds(c: Ctx, cr: CrView, s: Server, images: seq<string>, distinct: nat)
    requires Still(s.script)
    ensures Adds(c, cr, s, images, CreateAll(c, cr, s, images, distinct).0)
    decreases images
  {
    if images != [] && StampedJob(c, cr, images[0]).Ok? {
      var s1 := CreateJob(c, s, NameFor(c, images[0]), StampedJob(c, cr, images[0]).value).0;
      CreateOne(c, cr, s, images[0]);
      if Injected(HeadCall(s.script), CONFLICT).None? {
        CreateAllAdds(c, cr, s1, images[1..], distinct);
        PrefixStep(c, cr, s.jobs, images, Handled(c, cr, s1.script, images[1..]));
      } else {
        assert images[1..][..0] == [];
        PrefixStep(c, cr, s.jobs, images, 0);
      }
    }
  }

  lemma {:induction false} PrefixStep(c: Ctx, cr: CrView, jobs: map<string, Job>, images: seq<string>, k: nat)
    requires k < |images| && StampedJob(c, cr, images[0]).Ok? && AllBuild(c, cr, images[1..][..k])
    ensures AllBuild(c, cr, images[..k + 1])
    ensures WithJobs(c, cr, jobs, images[..k + 1]) == WithJobs(c, cr, WithJob(c, cr, jobs, images[0]), images[1..][..k])
  {
    var prefix := images[..k + 1];
    assert prefix[0] == images[0] && prefix[1..] == images[1..][..k];
    PrefixBuilds(c, cr, prefix);
  }

  lemma {:induction false} PrefixBuilds(c: Ctx, cr: CrView, images: seq<string>)
    requires images != [] && StampedJob(c, cr, images[0]).Ok? && AllBuild(c, cr, images[1..])
    ensures AllBuild(c, cr, images)
  {
    forall i | 0 <= i < |images| ensures StampedJob(c, cr, images[i]).Ok? {
      if i > 0 { assert images[i] == images[1..][i - 1]; }
    }
  }

  /** Listing pods in a still cluster changes nothing but the script, and its result depends on the
      script alone. */
  lemma {:induction false} ListTargetsStill(c: Ctx, s: Server, t: Server, namespaces: seq<string>, acc: seq<Pod>)
    requires Still(s.script) && t.script == s.script
    ensures var (s', r) := ListTargets(c, s, namespaces, acc);
            && s' == s.(script := s'.script) && Still(s'.script)
            && ListTargets(c, t, namespaces, acc) == (t.(script := s'.script), r)
    decreases namespaces
  {
    if namespaces != [] {
      StillArrive(c, s);
      StillArrive(c, t);
      var (s1, answer) := ListPods(c, s);
      var (t1, _) := ListPods(c, t);
      match ClassifyPodList(answer, namespaces[0])
      case Pods(pods) => ListTargetsStill(c, s1, t1, namespaces[1..], acc + pods);
      case NamespaceMissing => ListTargetsStill(c, s1, t1, namespaces[1..], acc);
      case Denied(_) =>
    }
  }

  /** `ensure_jobs` in a still cluster, for every pattern of API answers.  The images are those that the
      pods of every namespace that answered run.  The Jobs added are those of a prefix of the sorted
      image set whose names were free, and which prefix is read off the answers (`Stops`); existing
      Jobs are untouched (`WithJobsExactly` says what `WithJobs` holds).  A refused pod listing or an
      empty scope adds none, and `Spawned` counts the distinct images and means that the whole set was
      handled. */
  lemma EnsureJobsExactly(c: Ctx, cr: CrView, s: Server)
    requires Still(s.script)
    ensures var (s', result) := EnsureJobs(c, cr, s);
            var namespaces := cr.spec.target.namespaces;
            if ListingRefused(s.script, |namespaces|)
            then s'.jobs == s.jobs && exists i: nat :: DeniesFirst(s.script, namespaces, result, i)
            else
              var images, rest := SortedKeys(Scope(cr, s)), DropCalls(s.script, |namespaces|);
              var k := Handled(c, cr, rest, images);
              && AllBuild(c, cr, images[..k])
              && s'.jobs == WithJobs(c, cr, s.jobs, images[..k])
              && (result.NoImages? <==> images == [])
              && (result.Spawned? ==> result == Spawned(|images|) && k == |images| > 0)
              && (images != [] ==> Stops(c, cr, rest, images, |images|, result))
  {
    ListTargetsStill(c, s, s, cr.spec.target.namespaces, []);
    ListTargetsExactly(c, s, cr.spec.target.namespaces, []);
    ListedScope(c, s, cr.spec.target.namespaces);
    var (s1, listed) := ListTargets(c, s, cr.spec.target.namespaces, []);
    if listed.Ok? {
      var images := SortedKeys(Scope(cr, s));
      if images != [] {
        CreateAllAdds(c, cr, s1, images, |images|);
        CreateAllStops(c, cr, s1, images, |images|);
      }
    }
  }

  /** In a still cluster the clock stands and the remaining answers come with no events. */
  lemma EnsureStill(c: Ctx, cr: CrView, s: Server)
    requires Still(s.script)
    ensures Still(EnsureJobs(c, cr, s).0.script) && EnsureJobs(c, cr, s).0.clock == s.clock
  {
    ListTargetsStill(c, s, s, cr.spec.target.namespaces, []);
    var (s1, listed) := ListTargets(c, s, cr.spec.target.namespaces, []);
    if listed.Ok? {
      var images := SortedKeys(ImagesInScope(listed.value));
      CreateAllStill(c, cr, s1, images, |images|);
    }
  }

  lemma {:induction false} CreateAllStill(c: Ctx, cr: CrView, s: Server, images: seq<string>, distinct: nat)
    requires Still(s.script)
    ensures Still(CreateAll(c, cr, s, images, distinct).0.script)
        && CreateAll(c, cr, s, images, distinct).0.clock == s.clock
    decreases images
  {
    if images != [] && StampedJob(c, cr, images[0]).Ok? {
      CreateOne(c, cr, s, images[0]);
      CreateAllStill(c, cr, CreateJob(c, s, NameFor(c, images[0]), StampedJob(c, cr, images[0]).value).0, images[1..],
          distinct);
    }
  }

  /** The same create again, once the Job is there or as it was left by a denial. */
  lemma RepeatedCreate(c: Ctx, s: Server, t: Server, name: string, job: Job)
    requires Still(s.script) && t.script == s.script
    requires if ClassifyJobCreate(c, CreateJob(c, s, name, job).1).CreateDenied?
             then t.jobs == CreateJob(c, s, name, job).0.jobs else name in t.jobs
    ensures var (s1, answer) := CreateJob(c, s, name, job);
            var (t1, again) := CreateJob(c, t, name, job);
            && t1 == t.(script := s1.script)
            && if ClassifyJobCreate(c, answer).CreateDenied?
               then ClassifyJobCreate(c, again) == ClassifyJobCreate(c, answer)
               else !ClassifyJobCreate(c, again).CreateDenied?
  {
    StillArrive(c, s);
    StillArrive(c, t);
  }

  lemma {:induction false} CreateAllRepeats(c: Ctx, cr: CrView, s: Server, t: Server, images: seq<string>,
                                            distinct: nat)
    requires Still(s.script) && t.script == s.script
    requires t.jobs == CreateAll(c, cr, s, images, distinct).0.jobs
    ensures CreateAll(c, cr, t, images, distinct).1 == CreateAll(c, cr, s, images, distinct).1
    ensures CreateAll(c, cr, t, images, distinct).0 == t.(script := CreateAll(c, cr, s, images, distinct).0.script)
    decreases images
  {
    if images != [] && StampedJob(c, cr, images[0]).Ok? {
      var job, name := StampedJob(c, cr, images[0]).value, NameFor(c, images[0]);
      var (s1, answer) := CreateJob(c, s, name, job);
      if ClassifyJobCreate(c, answer).CreateDenied? {
        RepeatedCreate(c, s, t, name, job);
      } else {
        CreateOne(c, cr, s, images[0]);
        CreateAllAdds(c, cr, s1, images[1..], distinct);
        WithJobsKeeps(c, cr, s1.jobs, images[1..][..Handled(c, cr, s1.script, images[1..])], name);
        RepeatedCreate(c, s, t, name, job);
        CreateAllRepeats(c, cr, s1, CreateJob(c, t, name, job).0, images[1..], distinct);
      }
    }
  }

  /** Repeating `ensure_jobs` on the store it left, with the same answers, gives the same result and
      adds nothing. */
  lemma EnsureJobsIdempotent(c: Ctx, cr: CrView, s: Server, t: Server)
    requires Still(s.script) && t.script == s.script && t.jobs == EnsureJobs(c, cr, s).0.jobs
    ensures EnsureJobs(c, cr, t).1 == EnsureJobs(c, cr, s).1
    ensures EnsureJobs(c, cr, t).0 == t.(script := EnsureJobs(c, cr, s).0.script)
  {
    ListTargetsStill(c, s, t, cr.spec.target.namespaces, []);
    var (s1, listed) := ListTargets(c, s, cr.spec.target.namespaces, []);
    var (t1, _) := ListTargets(c, t, cr.spec.target.namespaces, []);
    if listed.Ok? {
      var images := SortedKeys(ImagesInScope(listed.value));
      if images != [] {
        CreateAllRepeats(c, cr, s1, t1, images, |images|);
      }
    }
  }

  // ---------------------------------------------------------------------------------------------
  // Build failures.
  // ---------------------------------------------------------------------------------------------

  lemma {:induction false} BuildableNeverFails(c: Ctx, cr: CrView, s: Server, images: seq<string>, distinct: nat)
    requires forall i | 0 <= i < |images| :: StampedJob(c, cr, images[i]).Ok?
    ensures !CreateAll(c, cr, s, images, distinct).1.CannotBuildJob?
    decreases images
  {
    if images != [] {
      var (s1, answer) := CreateJob(c, s, NameFor(c, images[0]), StampedJob(c, cr, images[0]).value);
      if !ClassifyJobCreate(c, answer).CreateDenied? {
        forall i | 0 <= i < |images[1..]| ensures StampedJob(c, cr, images[1..][i]).Ok? {
          assert images[1..][i] == images[i + 1];
        }
        BuildableNeverFails(c, cr, s1, images[1..], distinct);
      }
    }
  }

  /** `BuildFailed` is all or nothing, whatever the API answers and the cluster does meanwhile: it
      is returned exactly when there are images in scope and the specification cannot be built; it
      names the least image; and no create was attempted. */
  lemma BuildFailedIsAllOrNothing(c: Ctx, cr: CrView, s: Server)
    ensures var (s', result) := EnsureJobs(c, cr, s);
            var namespaces := cr.spec.target.namespaces;
            && (result.CannotBuildJob? <==>
                  !ListingRefused(s.script, |namespaces|) && Scope(cr, s) != {} && !Buildable(cr.spec))
            && (result.CannotBuildJob? ==>
                  && result == CannotBuildJob(SortedKeys(Scope(cr, s))[0], WhyUnbuildable(cr.spec))
                  && s' == ListTargets(c, s, namespaces, []).0)
  {
    ListedScope(c, s, cr.spec.target.namespaces);
    var (s1, listed) := ListTargets(c, s, cr.spec.target.namespaces, []);
    if listed.Err? {
      DenialIsDenied(c, s, cr.spec.target.namespaces, []);
    } else {
      var images := SortedKeys(ImagesInScope(listed.value));
      CollectedImagesAreClean(listed.value);
      forall i | 0 <= i < |images|
        ensures if Buildable(cr.spec) then StampedJob(c, cr, images[i]).Ok?
                else StampedJob(c, cr, images[i]) == Err(WhyUnbuildable(cr.spec))
      {
        assert images[i] in images;
        BuildErrorsExactly(c.lib.digest, cr.spec, c.crName, images[i]);
      }
      if Buildable(cr.spec) {
        BuildableNeverFails(c, cr, s1, images, |images|);
      }
    }
  }

  lemma {:induction false} DenialIsDenied(c: Ctx, s: Server, namespaces: seq<string>, acc: seq<Pod>)
    ensures var r := ListTargets(c, s, namespaces, acc).1; r.Err? ==> r.error.RbacDenied?
    decreases namespaces
  {
    if namespaces != [] {
      var (s1, answer) := ListPods(c, s);
      match ClassifyPodList(answer, namespaces[0])
      case Pods(pods) => DenialIsDenied(c, s1, namespaces[1..], acc + pods);
      case NamespaceMissing => DenialIsDenied(c, s1, namespaces[1..], acc);
      case Denied(_) =>
    }
  }

  lemma InScopeBuilds(c: Ctx, cr: CrView, pods: seq<Pod>, image: string)
    requires Buildable(cr.spec) && image in ImagesInScope(pods)
    ensures StampedJob(c, cr, image).Ok?
  {
    CollectedImagesAreClean(pods);
    BuildsExactlyWhenBuildable(c.lib.digest, cr.spec, c.crName, image);
  }

  // ---------------------------------------------------------------------------------------------
  // What `ensure_jobs` returns.
  // ---------------------------------------------------------------------------------------------

  /** Any failure but 409, which stands for a Job that is there already, refuses a create. */
  predicate RefusesCreate(call: Call) {
    call.failure.Some? && !(call.failure.value.error.Api? && call.failure.value.error.code == 409)
  }

  /** Of the first `m` calls, the creates, some is refused. */
  predicate CreateRefused(script: seq<Call>, m: nat) {
    exists i | 0 <= i < m :: RefusesCreate(CallAt(script, i))
  }

  /** The first refusal among them is at `i`, and `result` reports it. */
  predicate DeniesCreate(c: Ctx, script: seq<Call>, m: nat, result: Orchestration, i: nat) {
    && i < m && RefusesCreate(CallAt(script, i))
    && (forall k | 0 <= k < i :: !RefusesCreate(CallAt(script, k)))
    && result == Denial("create batch/v1.jobs", c.operatorNamespace, CallAt(script, i).failure.value.error)
  }

  /** What the creates of `m` images, the first calls of the script, come to. */
  ghost predicate CreatesDecide(c: Ctx, script: seq<Call>, m: nat, distinct: nat, result: Orchestration) {
    match result
    case Spawned(d) => d == distinct && !CreateRefused(script, m)
    case RbacDenied(_, _, _) => exists i: nat :: DeniesCreate(c, script, m, result, i)
    case _ => false
  }

  lemma {:induction false} CreateAllDecides(c: Ctx, cr: CrView, s: Server, images: seq<string>, distinct: nat)
    requires AllBuild(c, cr, images)
    ensures CreatesDecide(c, s.script, |images|, distinct, CreateAll(c, cr, s, images, distinct).1)
    decreases images
  {
    if images != [] {
      var job := StampedJob(c, cr, images[0]).value;
      CreateAnswers(c, s, NameFor(c, images[0]), job);
      var (s1, answer) := CreateJob(c, s, NameFor(c, images[0]), job);
      if ClassifyJobCreate(c, answer).CreateDenied? {
        assert DeniesCreate(c, s.script, |images|, CreateAll(c, cr, s, images, distinct).1, 0);
      } else {
        assert AllBuild(c, cr, images[1..]);
        CreateAllDecides(c, cr, s1, images[1..], distinct);
        CreatesCons(c, s.script, |images|, distinct, CreateAll(c, cr, s1, images[1..], distinct).1);
      }
    }
  }

  lemma CreatesCons(c: Ctx, script: seq<Call>, m: nat, distinct: nat, result: Orchestration)
    requires m > 0 && !RefusesCreate(HeadCall(script)) && CreatesDecide(c, TailCalls(script), m - 1, distinct, result)
    ensures CreatesDecide(c, script, m, distinct, result)
  {
    forall i | 0 <= i < m && (i == 0 || !RefusesCreate(CallAt(TailCalls(script), i - 1)))
      ensures !RefusesCreate(CallAt(script, i))
    {
      if i > 0 { TailCallAt(script, i - 1); }
    }
    if result.RbacDenied? {
      var i: nat :| DeniesCreate(c, TailCalls(script), m - 1, result, i);
      TailCallAt(script, i);
      assert DeniesCreate(c, script, m, result, i + 1);
    }
  }

  /** Which result `ensure_jobs` returns, from the answers and the specification alone: the cases exclude
      each other. */
  ghost predicate Decides(c: Ctx, cr: CrView, s: Server, result: Orchestration) {
    var namespaces, images := cr.spec.target.namespaces, SortedKeys(Scope(cr, s));
    if ListingRefused(s.script, |namespaces|) then exists i: nat :: DeniesFirst(s.script, namespaces, result, i)
    else if images == [] then result == NoImages
    else if !Buildable(cr.spec) then result == CannotBuildJob(images[0], WhyUnbuildable(cr.spec))
    else CreatesDecide(c, DropCalls(s.script, |namespaces|), |images|, |images|, result)
  }

  /** In every interleaving. */
  lemma EnsureJobsDecides(c: Ctx, cr: CrView, s: Server)
    ensures Decides(c, cr, s, EnsureJobs(c, cr, s).1)
  {
    var n := |cr.spec.target.namespaces|;
    if ListingRefused(s.script, n) {
      RefusedListingDecides(c, cr, s);
    } else if Scope(cr, s) == {} {
      EmptyScopeDecides(c, cr, s);
    } else if Buildable(cr.spec) {
      CreatesAfterListing(c, cr, s);
    } else {
      BuildFailedIsAllOrNothing(c, cr, s);
      assert SortedKeys(Scope(cr, s)) != [];
    }
  }

  lemma EmptyScopeDecides(c: Ctx, cr: CrView, s: Server)
    requires !ListingRefused(s.script, |cr.spec.target.namespaces|) && Scope(cr, s) == {}
    ensures SortedKeys(Scope(cr, s)) == [] && EnsureJobs(c, cr, s).1 == NoImages
  {
    ListedScope(c, s, cr.spec.target.namespaces);
    var (s1, listed) := ListTargets(c, s, cr.spec.target.namespaces, []);
    assert |SortedKeys(ImagesInScope(listed.value))| == 0;
    assert EnsureJobs(c, cr, s) == Orchestrate(c, cr, s1, listed.value);
  }

  lemma RefusedListingDecides(c: Ctx, cr: CrView, s: Server)
    requires ListingRefused(s.script, |cr.spec.target.namespaces|)
    ensures exists i: nat :: DeniesFirst(s.script, cr.spec.target.namespaces, EnsureJobs(c, cr, s).1, i)
  {
    var namespaces := cr.spec.target.namespaces;
    ListTargetsExactly(c, s, namespaces, []);
    ListedScope(c, s, namespaces);
    var r := ListTargets(c, s, namespaces, []).1;
    var i: nat :| DeniesFirst(s.script, namespaces, r.error, i);
    assert DeniesFirst(s.script, namespaces, EnsureJobs(c, cr, s).1, i);
  }

  /** With images in scope, `ensure_jobs` is the listing and then the create loop over them. */
  lemma CreatesInScope(c: Ctx, cr: CrView, s: Server)
    requires !ListingRefused(s.script, |cr.spec.target.namespaces|) && Scope(cr, s) != {}
    ensures var s1 := ListTargets(c, s, cr.spec.target.namespaces, []).0;
            var images := SortedKeys(Scope(cr, s));
            && s1.script == DropCalls(s.script, |cr.spec.target.namespaces|)
            && images != [] && EnsureJobs(c, cr, s) == CreateAll(c, cr, s1, images, |images|)
  {
    ListedScope(c, s, cr.spec.target.namespaces);
  }

  lemma CreatesAfterListing(c: Ctx, cr: CrView, s: Server)
    requires !ListingRefused(s.script, |cr.spec.target.namespaces|) && Scope(cr, s) != {} && Buildable(cr.spec)
    ensures var m := |SortedKeys(Scope(cr, s))|;
            CreatesDecide(c, DropCalls(s.script, |cr.spec.target.namespaces|), m, m, EnsureJobs(c, cr, s).1)
  {
    CreatesInScope(c, cr, s);
    ScopeAllBuilds(c, cr, s);
    CreateAllDecides(c, cr, ListTargets(c, s, cr.spec.target.namespaces, []).0, SortedKeys(Scope(cr, s)),
        |SortedKeys(Scope(cr, s))|);
  }

  lemma {:induction false} ScopeAllBuilds(c: Ctx, cr: CrView, s: Server)
    requires Buildable(cr.spec)
    ensures AllBuild(c, cr, SortedKeys(Scope(cr, s)))
  {
    var images := SortedKeys(Scope(cr, s));
    ScopeIsClean(cr, s);
    forall i | 0 <= i < |images| ensures StampedJob(c, cr, images[i]).Ok? {
      assert images[i] in images;
      BuildsExactlyWhenBuildable(c.lib.digest, cr.spec, c.crName, images[i]);
    }
  }

  // ---------------------------------------------------------------------------------------------
  // A denied create does not undo the earlier ones.
  // ---------------------------------------------------------------------------------------------

  /** Adding Jobs leaves the store as it was exactly when every name was taken. */
  lemma WithJobsAddsNothingIff(c: Ctx, cr: CrView, jobs: map<string, Job>, images: seq<string>)
    requires AllBuild(c, cr, images)
    ensures WithJobs(c, cr, jobs, images) == jobs <==> forall i | 0 <= i < |images| :: NameFor(c, images[i]) in jobs
  {
    var jobs' := WithJobs(c, cr, jobs, images);
    forall i | 0 <= i < |images| ensures NameFor(c, images[i]) in jobs' {
      assert Names(c, images, i, NameFor(c, images[i]));
      WithJobsExactly(c, cr, jobs, images, NameFor(c, images[i]));
    }
    if forall i | 0 <= i < |images| :: NameFor(c, images[i]) in jobs {
      forall n ensures (n in jobs' <==> n in jobs) && (n in jobs ==> jobs'[n] == jobs[n]) {
        WithJobsExactly(c, cr, jobs, images, n);
        if i: nat :| Names(c, images, i, n) {
          assert NameFor(c, images[i]) in jobs;
        }
      }
      assert jobs'.Keys == jobs.Keys;
    }
  }

  /** When a create loop, denied or not, left the store alone: exactly when the names of all images
      before the refusal, and of the refused one if its create took effect, were taken. */
  lemma AddsNothingIff(c: Ctx, cr: CrView, s: Server, images: seq<string>, distinct: nat)
    requires Still(s.script)
    ensures CreateAll(c, cr, s, images, distinct).0.jobs == s.jobs <==>
              forall i | 0 <= i < Handled(c, cr, s.script, images) :: NameFor(c, images[i]) in s.jobs
  {
    CreateAllAdds(c, cr, s, images, distinct);
    var prefix := images[..Handled(c, cr, s.script, images)];
    WithJobsAddsNothingIff(c, cr, s.jobs, prefix);
    assert forall i | 0 <= i < |prefix| :: prefix[i] == images[i];
  }

  /** Other API failures are reported as missing permissions too: a create answered with any code but
      403 and 409, such as 500, makes `ensure_jobs` return `RbacDenied` and not an error. */
  lemma ServerErrorReadsAsDenial(c: Ctx, cr: CrView, s: Server, code: int, message: string, tookEffect: bool)
    requires code != FORBIDDEN && code != CONFLICT && Buildable(cr.spec)
    requires !ListingRefused(s.script, |cr.spec.target.namespaces|) && Scope(cr, s) != {}
    requires CallAt(s.script, |cr.spec.target.namespaces|).failure == Some(Failure(Api(code, message), tookEffect))
    ensures EnsureJobs(c, cr, s).1
              == RbacDenied("create batch/v1.jobs", c.operatorNamespace, "unexpected kube error: " + message)
  {
    EnsureJobsDecides(c, cr, s);
    FirstCreateDenies(c, cr, s, EnsureJobs(c, cr, s).1);
  }

  lemma FirstCreateDenies(c: Ctx, cr: CrView, s: Server, result: Orchestration)
    requires Decides(c, cr, s, result)
    requires Buildable(cr.spec) && !ListingRefused(s.script, |cr.spec.target.namespaces|) && Scope(cr, s) != {}
    requires RefusesCreate(CallAt(s.script, |cr.spec.target.namespaces|))
    ensures result == Denial("create batch/v1.jobs", c.operatorNamespace,
                             CallAt(s.script, |cr.spec.target.namespaces|).failure.value.error)
  {
    var n, m := |cr.spec.target.namespaces|, |SortedKeys(Scope(cr, s))|;
    DroppedCallAt(s.script, n, 0);
    RefusedAtOnce(c, DropCalls(s.script, n), CallAt(s.script, n), m, m, result);
  }

  lemma RefusedAtOnce(c: Ctx, script: seq<Call>, first: Call, m: nat, distinct: nat, result: Orchestration)
    requires m > 0 && CreatesDecide(c, script, m, distinct, result)
    requires first == CallAt(script, 0) && RefusesCreate(first)
    ensures result == Denial("create batch/v1.jobs", c.operatorNamespace, first.failure.value.error)
  {
    if result.RbacDenied? {
      var i: nat :| DeniesCreate(c, script, m, result, i);
    }
  }

  /** So the documented "no Job is created when RBAC is insufficient" fails: a first create that is
      accepted and a second that is refused leave one Job behind. */
  lemma DenialMayLeaveJobs(c: Ctx, cr: CrView, s: Server, a: string, b: string)
    requires StampedJob(c, cr, a).Ok? && StampedJob(c, cr, b).Ok? && s.jobs == map[]
    requires s.script == [Call([], None, []), Call([], Some(Failure(Api(FORBIDDEN, "forbidden"), false)), [])]
    ensures var (s', result) := CreateAll(c, cr, s, [a, b], 2);
            result.RbacDenied? && s'.jobs == map[NameFor(c, a) := StampedJob(c, cr, a).value]
  {
    StillArrive(c, s);
    var (s1, answer) := CreateJob(c, s, NameFor(c, a), StampedJob(c, cr, a).value);
    assert answer.Ok? && s1.jobs == map[NameFor(c, a) := StampedJob(c, cr, a).value];
    StillArrive(c, s1);
    assert [a, b][1..] == [b];
    var (s2, again) := CreateJob(c, s1, NameFor(c, b), StampedJob(c, cr, b).value);
    assert again.Err? && s2.jobs == s1.jobs;
    assert CreateAll(c, cr, s1, [b], 2) == (s2, ClassifyJobCreate(c, again).denial);
  }
}
