/** The NamespaceScan resource and the parts of pods and Jobs the operator reads or writes. */
module Crd {
  import opened Basics
  import opened Rfc3339

  // NamespaceScan, specification side.

  datatype Target = Target(namespaces: seq<string>, labelSelector: Option<string>)

  datatype Schedule = Schedule(cron: Option<string>, interval: Option<string>)

  datatype OutputType = Pvc | S3 | Oci

  datatype PvcOutput = PvcOutput(claimName: string, pathPrefix: Option<string>)

  datatype S3Output = S3Output(bucket: string, pathPrefix: Option<string>, credentialsSecretName: Option<string>)

  datatype OciOutput = OciOutput(registry: string, repository: string, credentialsSecretName: Option<string>)

  datatype Output = Output(backendType: OutputType, pvc: Option<PvcOutput>, s3: Option<S3Output>,
                           oci: Option<OciOutput>)

  datatype Spec = Spec(target: Target, schedule: Schedule, mikebomImage: string, output: Output)

  // NamespaceScan, status side.  Reasons and condition types are strings in the resource; the
  // ones the operator writes are constructors here and every other string is `Other...`.

  datatype Reason =
    | NotYetReconciled | InvalidSpec
    | Scanning | NoImagesInScope | RbacInsufficient | BuildFailed
    | ScanCompleted | ScanFailed
    | OtherReason(text: string)

  datatype ConditionType = Ready | OtherType(name: string)

  datatype Truth = True | False | OtherTruth(text: string)

  datatype Message =
    | NotImplementedYet
    | TargetInvalid
    | ScheduleInvalid(error: ScheduleError)
    | ScanningImages(count: nat)
    | ZeroPods
    | CannotBuild(imageRef: string, buildError: BuildError)
    | LacksRbac(verbResource: string, namespace: string, detail: string)
    | ScannedImages(count: nat)
    | ScanFailedFor(imageRef: string)
    | OtherMessage(text: string)

  datatype ScheduleError =
    | BothSet | NeitherSet | InvalidCron | InvalidInterval | IntervalBelowMinimum(duration: int)

  datatype BuildError =
    | EmptyMikebomImage | EmptyImageRef | MissingPvcConfig | MissingS3Config | MissingOciConfig

  datatype Condition = Condition(
    kind: ConditionType,
    status: Truth,
    reason: Option<Reason>,
    message: Option<Message>,
    lastTransitionTime: Option<Instant>)

  datatype ScannedImage = ScannedImage(imageRef: string, sbomLocation: string, completedAt: Instant)

  datatype Status = Status(
    conditions: seq<Condition>,
    lastReconciledAt: Option<Instant>,
    lastScanCompletedAt: Option<Instant>,
    scannedImages: seq<ScannedImage>,
    nextScheduledScanAt: Option<Instant>)

  // Pods.

  datatype EnvVar = EnvVar(name: string, value: Option<string>)

  /** `mounts` names the mounted volumes, `envSecret` the Secret whose keys become variables. */
  datatype Container = Container(
    name: string,
    image: Option<string>,
    env: Option<seq<EnvVar>>,
    envSecret: Option<string>,
    mounts: seq<string>)

  datatype PodSpec = PodSpec(
    initContainers: Option<seq<Container>>,
    containers: seq<Container>,
    ephemeralContainers: Option<seq<Container>>,
    volumes: seq<string>)

  datatype Pod = Pod(phase: Option<string>, spec: Option<PodSpec>)

  // Jobs.

  datatype OwnerReference = OwnerReference(apiVersion: string, kind: string, name: string, uid: string,
    controller: bool, blockOwnerDeletion: bool)

  datatype JobStatus = JobStatus(succeeded: Option<int>, failed: Option<int>, completionTime: Option<Instant>)

  datatype JobSpec = JobSpec(backoffLimit: Option<int>, ttlSecondsAfterFinished: Option<int>, podSpec: Option<PodSpec>)

  /** `deleting` says that the Job carries a deletion timestamp: a foreground deletion leaves it
      listed, and its name taken, until its pods are gone. */
  datatype Job = Job(
    name: Option<string>,
    labels: Option<map<string, string>>,
    owners: seq<OwnerReference>,
    deleting: bool,
    spec: Option<JobSpec>,
    status: Option<JobStatus>)

  const SCAN_LABEL := "kusari.dev/namespace-scan"
  const HASH_LABEL := "kusari.dev/image-ref-hash"
}
