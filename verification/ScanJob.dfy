/** The scan-Job builder, and the reader that recovers the image from a built Job. */
module ScanJob {
  import opened Basics
  import opened Crd
  import opened JobName

  const BACKOFF_LIMIT := 2
  const TTL_SECONDS_AFTER_FINISHED := 3600

  const WORKDIR := "workdir"
  const PVC_VOLUME := "pvc-output"
  const DOCKER_CONFIG_VOLUME := "oci-credentials"

  function InitPullContainer(imageRef: string): Container {
    Container("init-pull", None, Some([EnvVar("IMAGE_REF", Some(imageRef))]), None, [WORKDIR])
  }

  function ScanContainer(mikebomImage: string): Container {
    Container("mikebom-scan", Some(mikebomImage), None, None, [WORKDIR])
  }

  function PvcUpload(): Container {
    Container("output-upload", None, None, None, [WORKDIR, PVC_VOLUME])
  }

  /** The S3 arm unwraps the credentials secret, so it may be called only when there is one. */
  function S3Upload(s3: S3Output): Container
    requires s3.credentialsSecretName.Some?
  {
    Container("output-upload", None, None, Some(s3.credentialsSecretName.value), [WORKDIR])
  }

  function OciUpload(shortHash: string): Container {
    Container("output-upload", None, Some([EnvVar("IMAGE_HASH", Some(shortHash))]), None,
              [WORKDIR, DOCKER_CONFIG_VOLUME])
  }

  function BlankSecret(secret: Option<string>): bool {
    match secret
    case None => true
    case Some(s) => Blank(s)
  }

  function OutputUpload(spec: Spec, shortHash: string): Result<Container, BuildError> {
    match spec.output.backendType
    case Pvc =>
      (match spec.output.pvc
       case None => Err(MissingPvcConfig)
       case Some(pvc) => if Blank(pvc.claimName) then Err(MissingPvcConfig) else Ok(PvcUpload()))
    case S3 =>
      (match spec.output.s3
       case None => Err(MissingS3Config)
       case Some(s3) =>
         if Blank(s3.bucket) || BlankSecret(s3.credentialsSecretName) then Err(MissingS3Config) else Ok(S3Upload(s3)))
    case Oci =>
      (match spec.output.oci
       case None => Err(MissingOciConfig)
       case Some(oci) =>
         if Blank(oci.registry) || Blank(oci.repository) || BlankSecret(oci.credentialsSecretName)
         then Err(MissingOciConfig)
         else Ok(OciUpload(shortHash)))
  }

  function Volumes(output: Output): seq<string> {
    [WORKDIR] + match output.backendType
      case Pvc => if output.pvc.Some? && !Blank(output.pvc.value.claimName) then [PVC_VOLUME] else []
      case S3 => []
      case Oci => if output.oci.Some? && !BlankSecret(output.oci.value.credentialsSecretName)
                  then [DOCKER_CONFIG_VOLUME] else []
  }

  function Labels(crName: string, shortHash: string): map<string, string> {
    map["app.kubernetes.io/name" := "mikebom-operator",
        "app.kubernetes.io/component" := "scan-job",
        SCAN_LABEL := crName,
        HASH_LABEL := shortHash]
  }

  function BuildScanJob(digest: Digest, spec: Spec, crName: string, image: string): Result<Job, BuildError> {
    var mikebomImage := Trim(spec.mikebomImage);
    if mikebomImage == [] then Err(EmptyMikebomImage)
    else
      var imageRef := Trim(image);
      if imageRef == [] then Err(EmptyImageRef)
      else
        var shortHash := ShortImageHash(digest, imageRef);
        match OutputUpload(spec, shortHash)
        case Err(e) => Err(e)
        case Ok(upload) =>
          Ok(Job(Some(JobNameOf(crName, shortHash)), Some(Labels(crName, shortHash)), [], false,
                 Some(JobSpec(Some(BACKOFF_LIMIT), Some(TTL_SECONDS_AFTER_FINISHED),
                              Some(PodSpec(Some([InitPullContainer(imageRef), ScanContainer(mikebomImage)]),
                                           [upload], None, Volumes(spec.output))))),
                 None))
  }

  // ---------------------------------------------------------------------------------------------
  // Reading a Job back.
  // ---------------------------------------------------------------------------------------------

  function FindContainer(cs: seq<Container>, name: string): Option<Container> {
    if cs == [] then None else if cs[0].name == name then Some(cs[0]) else FindContainer(cs[1..], name)
  }

  function FindEnv(env: seq<EnvVar>, name: string): Option<EnvVar> {
    if env == [] then None else if env[0].name == name then Some(env[0]) else FindEnv(env[1..], name)
  }

  /** `extract_image_ref_from_job`. */
  function ImageRefOf(job: Job): Option<string> {
    if job.spec.None? || job.spec.value.podSpec.None? || job.spec.value.podSpec.value.initContainers.None? then None
    else
      var initPull := FindContainer(job.spec.value.podSpec.value.initContainers.value, "init-pull");
      if initPull.None? || initPull.value.env.None? then None
      else
        var entry := FindEnv(initPull.value.env.value, "IMAGE_REF");
        if entry.None? then None else entry.value.value
  }

  function HashLabelOf(job: Job): Option<string> {
    if job.labels.Some? && HASH_LABEL in job.labels.value then Some(job.labels.value[HASH_LABEL]) else None
  }

  /** The Job carries this CR's label, which is all the selector in `list_owned_jobs` asks. */
  predicate Owned(crName: string, job: Job) {
    job.labels.Some? && SCAN_LABEL in job.labels.value && job.labels.value[SCAN_LABEL] == crName
  }

  /** What a Job stored under `name` looks like when this operator created it for the CR. */
  ghost predicate OperatorBuilt(digest: Digest, crName: string, name: string, job: Job) {
    && job.name == Some(name)
    && job.spec.Some? && job.spec.value.backoffLimit == Some(2)
    && ImageRefOf(job).Some?
    && var image := ImageRefOf(job).value;
       && !Blank(image) && Trim(image) == image
       && HashLabelOf(job) == Some(ShortImageHash(digest, image))
       && name == JobNameOf(crName, ShortImageHash(digest, image))
  }

  lemma LabelsDiffer()
    ensures SCAN_LABEL != HASH_LABEL
    ensures SCAN_LABEL != "app.kubernetes.io/name" && SCAN_LABEL != "app.kubernetes.io/component"
    ensures HASH_LABEL != "app.kubernetes.io/name" && HASH_LABEL != "app.kubernetes.io/component"
  {
    assert SCAN_LABEL[11] == 'n' && HASH_LABEL[11] == 'i';
    assert SCAN_LABEL[0] == HASH_LABEL[0] == 'k';
    assert "app.kubernetes.io/name"[0] == "app.kubernetes.io/component"[0] == 'a';
  }

  /** A built Job round-trips: its name, hash label and IMAGE_REF all speak of the trimmed image. */
  lemma BuiltJobRoundTrip(digest: Digest, spec: Spec, crName: string, image: string)
    requires BuildScanJob(digest, spec, crName, image).Ok?
    ensures var job := BuildScanJob(digest, spec, crName, image).value;
            && ImageRefOf(job) == Some(Trim(image)) && Owned(crName, job)
            && HashLabelOf(job) == Some(ShortImageHash(digest, Trim(image)))
            && OperatorBuilt(digest, crName, JobNameOf(crName, ShortImageHash(digest, Trim(image))), job)
            && HashOfName(job.name.value) == HashLabelOf(job).value
  {
    LabelsDiffer();
    TrimIdempotent(image);
    var imageRef := Trim(image);
    var job := BuildScanJob(digest, spec, crName, image).value;
    var env := [EnvVar("IMAGE_REF", Some(imageRef))];
    assert FindEnv(env, "IMAGE_REF") == Some(env[0]);
    var containers := [InitPullContainer(imageRef), ScanContainer(Trim(spec.mikebomImage))];
    assert FindContainer(containers, "init-pull") == Some(containers[0]);
    ShortHashShape(digest, imageRef);
    HashRecoverable(crName, ShortImageHash(digest, imageRef));
  }

  /** What a built Job runs: the pull, then the scanner from the image the specification names, then the
      upload.  The image under scan is handed to the pull and runs nowhere.  The credentials reach the
      upload alone, and only the backend that needs them; so do the two backends' volumes.  The Job has
      two retries, is kept for an hour, and has no owner, status or deletion mark yet. */
  lemma BuiltPodRuns(digest: Digest, spec: Spec, crName: string, image: string)
    requires BuildScanJob(digest, spec, crName, image).Ok?
    ensures var job := BuildScanJob(digest, spec, crName, image).value;
            && job.spec.Some? && job.spec.value.backoffLimit == Some(2)
            && job.spec.value.ttlSecondsAfterFinished == Some(3600)
            && job.owners == [] && job.status == None && !job.deleting
            && job.labels == Some(map["app.kubernetes.io/name" := "mikebom-operator",
                                      "app.kubernetes.io/component" := "scan-job",
                                      "kusari.dev/namespace-scan" := crName,
                                      "kusari.dev/image-ref-hash" := ShortImageHash(digest, Trim(image))])
            && job.spec.value.podSpec.Some?
            && PodRuns(spec, job.spec.value.podSpec.value, Trim(image), HashLabelOf(job))
  {
    BuiltJobRoundTrip(digest, spec, crName, image);
    UploadRuns(spec, ShortImageHash(digest, Trim(image)));
  }

  predicate PodRuns(spec: Spec, pod: PodSpec, image: string, hash: Option<string>) {
    && pod.initContainers.Some? && |pod.initContainers.value| == 2 && |pod.containers| == 1
    && pod.ephemeralContainers == None
    && var pull, scan := pod.initContainers.value[0], pod.initContainers.value[1];
       && pull.name == "init-pull" && pull.env == Some([EnvVar("IMAGE_REF", Some(image))]) && pull.envSecret == None
       && scan.name == "mikebom-scan" && scan.image == Some(Trim(spec.mikebomImage)) && scan.envSecret == None
       && pull.mounts == ["workdir"] && scan.mounts == ["workdir"] && UploadsTo(spec, pod.containers[0], hash)
  }

  predicate UploadsTo(spec: Spec, upload: Container, hash: Option<string>) {
    && upload.name == "output-upload" && "workdir" in upload.mounts
    && (upload.envSecret.Some? <==> spec.output.backendType.S3?)
    && (spec.output.backendType.S3? ==>
          spec.output.s3.Some? && upload.envSecret == spec.output.s3.value.credentialsSecretName)
    && ("pvc-output" in upload.mounts <==> spec.output.backendType.Pvc?)
    && ("oci-credentials" in upload.mounts <==> spec.output.backendType.Oci?)
    && (spec.output.backendType.Oci? ==> upload.env == Some([EnvVar("IMAGE_HASH", hash)]))
  }

  lemma UploadRuns(spec: Spec, shortHash: string)
    requires OutputUpload(spec, shortHash).Ok?
    ensures UploadsTo(spec, OutputUpload(spec, shortHash).value, Some(shortHash))
  {
    VolumesDiffer();
    var upload := OutputUpload(spec, shortHash).value;
    assert upload.mounts[0] == "workdir";
    assert |upload.mounts| > 1 ==> upload.mounts[1] in upload.mounts;
  }

  lemma VolumesDiffer()
    ensures "workdir" != "pvc-output" && "workdir" != "oci-credentials" && "pvc-output" != "oci-credentials"
  {
    assert "workdir"[0] == 'w' && "pvc-output"[0] == 'p' && "oci-credentials"[0] == 'o';
  }

  /** Why a specification that is not buildable is not. */
  function WhyUnbuildable(spec: Spec): BuildError {
    if Trim(spec.mikebomImage) == [] then EmptyMikebomImage
    else
      match spec.output.backendType
      case Pvc => MissingPvcConfig
      case S3 => MissingS3Config
      case Oci => MissingOciConfig
  }

  /** Which error a build ends in: the scanner image is looked at first, then the image under scan, then
      the block of the chosen backend. */
  lemma BuildErrorsExactly(digest: Digest, spec: Spec, crName: string, image: string)
    ensures var built := BuildScanJob(digest, spec, crName, image);
            if Trim(spec.mikebomImage) != [] && Trim(image) == [] then built == Err(EmptyImageRef)
            else if Buildable(spec) then built.Ok?
            else built == Err(WhyUnbuildable(spec))
  {
  }

  /** For one specification the builder fails on every non-blank image, with one and the same
      error, or on none; only the image decides `EmptyImageRef`. */
  lemma BuildIsAllOrNothing(digest: Digest, spec: Spec, crName: string, a: string, b: string)
    requires !Blank(a) && !Blank(b)
    ensures BuildScanJob(digest, spec, crName, a).Ok? <==> BuildScanJob(digest, spec, crName, b).Ok?
    ensures BuildScanJob(digest, spec, crName, a).Err? ==>
              BuildScanJob(digest, spec, crName, a) == BuildScanJob(digest, spec, crName, b)
  {
    var ha, hb := ShortImageHash(digest, Trim(a)), ShortImageHash(digest, Trim(b));
    assert OutputUpload(spec, ha).Ok? <==> OutputUpload(spec, hb).Ok?;
  }

  /** When the builder succeeds: the scanner image is set and the block of the chosen backend is
      present with every field it needs. */
  predicate Buildable(spec: Spec) {
    && !Blank(spec.mikebomImage)
    && match spec.output.backendType
       case Pvc => spec.output.pvc.Some? && !Blank(spec.output.pvc.value.claimName)
       case S3 => spec.output.s3.Some? && !Blank(spec.output.s3.value.bucket)
                  && !BlankSecret(spec.output.s3.value.credentialsSecretName)
       case Oci => spec.output.oci.Some? && !Blank(spec.output.oci.value.registry)
                   && !Blank(spec.output.oci.value.repository)
                   && !BlankSecret(spec.output.oci.value.credentialsSecretName)
  }

  lemma BuildsExactlyWhenBuildable(digest: Digest, spec: Spec, crName: string, image: string)
    ensures BuildScanJob(digest, spec, crName, image).Ok? <==> Buildable(spec) && !Blank(image)
  {
  }

  predicate MountsWithin(container: Container, volumes: seq<string>) {
    forall i | 0 <= i < |container.mounts| :: container.mounts[i] in volumes
  }

  /** Every volume a container of the built pod mounts is declared by the pod, in all three
      backends, although mounts and volumes come from two separate dispatches. */
  lemma MountsAreDeclared(digest: Digest, spec: Spec, crName: string, image: string)
    requires BuildScanJob(digest, spec, crName, image).Ok?
    ensures var pod := BuildScanJob(digest, spec, crName, image).value.spec.value.podSpec.value;
            && (forall i | 0 <= i < |pod.initContainers.value| ::
                  MountsWithin(pod.initContainers.value[i], pod.volumes))
            && (forall i | 0 <= i < |pod.containers| :: MountsWithin(pod.containers[i], pod.volumes))
  {
    UploadMountsAreDeclared(spec, ShortImageHash(digest, Trim(image)));
    assert Volumes(spec.output)[0] == WORKDIR;
  }

  lemma UploadMountsAreDeclared(spec: Spec, shortHash: string)
    requires OutputUpload(spec, shortHash).Ok?
    ensures MountsWithin(OutputUpload(spec, shortHash).value, Volumes(spec.output))
  {
    assert Volumes(spec.output)[0] == WORKDIR;
    if !spec.output.backendType.S3? {
      assert |Volumes(spec.output)| == 2 && Volumes(spec.output)[1] in Volumes(spec.output);
    }
  }
}
