/**
 One reconcile of a Release (internal/controller/release_controller.go) as the sequence of requests it sends: status
 writes, the GitOps update, the commit checkpoint. A crash or a failed request cuts the sequence short.
 */
module ReleasePlan {
  import opened Wrappers

  datatype Phase =
    | NoPhase
    | Pending
    | AwaitingApproval
    | PreparingGitOpsChange
    | GitOpsChangeCommitted
    | WaitingForSync
    | Deployed
    | RolledBack
    | FailedValidation
    | FailedApproval
    | FailedGitClone
    | FailedGitCommit
    | FailedGitPush
    | FailedProviderStatus
    | TimedOut

  datatype Mode = DirectCommit | PullRequest

  datatype MergeState = Unmerged | Merged | Closed

  datatype Spec = Spec(
    approvalRequired: bool,
    approvedBy: string,
    rejectedBy: string,
    mode: Mode,
    rollbackOf: string,
    timeout: int)

  /** The conditions appear as the three facts reconcile reads back from them. */
  datatype Status = Status(
    phase: Phase,
    observedGeneration: nat,
    startedAt: Option<int>,
    completedAt: Option<int>,
    gitCommit: string,
    approvedBy: string,
    rejectedBy: string,
    policyAllowed: bool,
    reference: string,
    mergeState: MergeState,
    failure: string,
    awaitingSince: Option<nat>,
    preparedSince: Option<nat>,
    failedReason: string)

  /** The stored object; checkpoint is the annotation that records the commit, empty while absent. */
  datatype Release = Release(generation: nat, spec: Spec, status: Status, checkpoint: string)

  datatype Operation = Clone | Parse | Update | Commit | Push

  datatype GitReply = GitFailed(operation: Operation) | GitDone(commit: string)

  datatype PullRequestReply = PullRequestUnavailable | PullRequestIs(reference: string, mergeState: MergeState)

  datatype DeploymentReply = StatusUnknown | StatusFailed | Healthy | Degraded | Progressing

  /** Everything one reconcile learns from the clock, the cluster and the outside. */
  datatype Inputs = Inputs(
    buildRunUsable: bool,
    environmentFound: bool,
    environmentRequiresApproval: bool,
    policyAllowed: bool,
    policyReason: string,
    now: int,
    git: GitReply,
    ensured: PullRequestReply,
    ensuredWriteFails: bool,
    read: PullRequestReply,
    readWriteFails: bool,
    genericProvider: bool,
    deployment: DeploymentReply,
    failOnDegraded: bool)

  datatype Request = PutStatus(status: Status) | UpdateImage | PutCheckpoint(commit: string)

  /** Thirty minutes, in nanoseconds. */
  const DEFAULT_TIMEOUT: int := 1_800_000_000_000

  /** releasePhaseTerminal */
  predicate Terminal(phase: Phase) {
    match phase
    case Deployed | RolledBack | FailedValidation | FailedApproval | FailedGitClone
      | FailedGitCommit | FailedGitPush | FailedProviderStatus | TimedOut => true
    case _ => false
  }

  /** deploymentTimedOut */
  predicate Expired(spec: Spec, status: Status, now: int) {
    && status.startedAt.Some?
    && now >= status.startedAt.value + if spec.timeout <= 0 then DEFAULT_TIMEOUT else spec.timeout
  }

  /** releaseRequiresApproval */
  predicate NeedsApproval(spec: Spec, environmentRequiresApproval: bool) {
    spec.approvalRequired || environmentRequiresApproval
  }

  /** gitFailure */
  function GitFailure(operation: Operation): (Phase, string) {
    match operation
    case Clone => (FailedGitClone, "GitCloneFailed")
    case Parse => (FailedGitCommit, "GitOpsParseFailed")
    case Update => (FailedGitCommit, "GitOpsUpdateFailed")
    case Push => (FailedGitPush, "GitPushFailed")
    case Commit => (FailedGitCommit, "GitCommitFailed")
  }

  // ---- The mark functions: the status each one leaves ----

  function Failed(generation: nat, s: Status, phase: Phase, reason: string, now: int): Status {
    s.(phase := phase, observedGeneration := generation, completedAt := Some(now), failure := reason, failedReason := reason)
  }

  function PolicyDenied(generation: nat, s: Status, reason: string, now: int): Status {
    s.(phase := FailedValidation, observedGeneration := generation, completedAt := Some(now), failure := reason)
  }

  function Awaiting(generation: nat, spec: Spec, s: Status): Status {
    Approved(spec, s).(phase := AwaitingApproval, observedGeneration := generation, awaitingSince := Some(generation))
  }

  function Prepared(generation: nat, s: Status, now: int): Status {
    s.(phase := PreparingGitOpsChange, observedGeneration := generation, preparedSince := Some(generation),
      startedAt := if s.startedAt.None? then Some(now) else s.startedAt)
  }

  function Committed(generation: nat, s: Status): Status {
    s.(phase := GitOpsChangeCommitted, observedGeneration := generation)
  }

  function Waiting(generation: nat, s: Status): Status {
    s.(phase := WaitingForSync, observedGeneration := generation)
  }

  function Done(generation: nat, spec: Spec, s: Status, now: int): Status {
    s.(phase := if spec.rollbackOf != "" then RolledBack else Deployed, observedGeneration := generation, completedAt := Some(now))
  }

  /** approvalStatus */
  function Approved(spec: Spec, s: Status): Status {
    s.(approvedBy := spec.approvedBy, rejectedBy := spec.rejectedBy)
  }

  // ---- The requests of one reconcile ----

  function MarkFailed(generation: nat, s: Status, phase: Phase, reason: string, now: int): seq<Request> {
    if s.phase == phase && s.observedGeneration == generation && s.failedReason == reason then []
    else [PutStatus(Failed(generation, s, phase, reason, now))]
  }

  function MarkAwaiting(generation: nat, spec: Spec, s: Status): seq<Request> {
    if s.phase.AwaitingApproval? && s.observedGeneration == generation && s.awaitingSince == Some(generation) then []
    else [PutStatus(Awaiting(generation, spec, s))]
  }

  predicate AlreadyPrepared(generation: nat, s: Status) {
    s.phase.PreparingGitOpsChange? && s.observedGeneration == generation && s.preparedSince == Some(generation)
  }

  /** ensurePullRequest: whether it succeeded, the status it leaves, and its write. */
  datatype Ensured = Ensured(ok: bool, status: Status, requests: seq<Request>)

  function Ensure(s: Status, inputs: Inputs): Ensured {
    match inputs.ensured
    case PullRequestUnavailable => Ensured(false, s, [])
    case PullRequestIs(reference, mergeState) =>
      if reference == "" then Ensured(false, s, [])
      else
        var s' := s.(reference := reference, mergeState := mergeState);
        if inputs.ensuredWriteFails then Ensured(false, s', []) else Ensured(true, s', [PutStatus(s')])
  }

  /** The commit is known: make sure of the pull request if there is to be one, then record the phase. */
  function Record(generation: nat, spec: Spec, s: Status, needed: bool, inputs: Inputs): seq<Request> {
    if spec.mode.PullRequest? && needed then
      var e := Ensure(s, inputs);
      if e.ok then e.requests + [PutStatus(Committed(generation, e.status))]
      else e.requests + MarkFailed(generation, e.status, FailedProviderStatus, "PullRequestCreateFailed", inputs.now)
    else [PutStatus(Committed(generation, s))]
  }

  function PushAndRecord(generation: nat, spec: Spec, s: Status, inputs: Inputs): seq<Request> {
    match inputs.git
    case GitFailed(operation) =>
      MarkFailed(generation, s, GitFailure(operation).0, GitFailure(operation).1, inputs.now)
    case GitDone(commit) =>
      if commit == "" then MarkFailed(generation, s, FailedGitCommit, "EmptyGitCommit", inputs.now)
      else [PutCheckpoint(commit)] + Record(generation, spec, s.(gitCommit := commit), true, inputs)
  }

  /** No commit yet: prepare, update the repository, checkpoint the commit. */
  function Promote(generation: nat, spec: Spec, s: Status, inputs: Inputs): seq<Request> {
    var ready := AlreadyPrepared(generation, s);
    var s' := if ready then s else Prepared(generation, s, inputs.now);
    (if ready then [] else [PutStatus(s')]) + ([UpdateImage] + PushAndRecord(generation, spec, s', inputs))
  }

  /** The deployment is observed: done, failed, or look again later. */
  function Sync(generation: nat, spec: Spec, s: Status, inputs: Inputs): seq<Request> {
    if inputs.genericProvider then [PutStatus(Done(generation, spec, s, inputs.now))]
    else
      match inputs.deployment
      case StatusUnknown => [PutStatus(s)]
      case StatusFailed => MarkFailed(generation, s, FailedProviderStatus, "ProviderStatusFailed", inputs.now)
      case Healthy => [PutStatus(Done(generation, spec, s, inputs.now))]
      case Degraded =>
        if inputs.failOnDegraded then MarkFailed(generation, s, FailedProviderStatus, "DeploymentDegraded", inputs.now)
        else [PutStatus(s)]
      case Progressing => [PutStatus(s)]
  }

  function Await(generation: nat, spec: Spec, s: Status, inputs: Inputs): seq<Request> {
    if s.phase.WaitingForSync? then Sync(generation, spec, s, inputs)
    else [PutStatus(Waiting(generation, s))] + Sync(generation, spec, Waiting(generation, s), inputs)
  }

  /** syncPullRequestStatus, once there should be a pull request. */
  function ReadPullRequest(generation: nat, spec: Spec, s: Status, ok: bool, inputs: Inputs): seq<Request> {
    if !ok || inputs.read.PullRequestUnavailable? then
      MarkFailed(generation, s, FailedProviderStatus, "PullRequestStatusFailed", inputs.now)
    else
      var seen := s.(reference := inputs.read.reference, mergeState := inputs.read.mergeState);
      if inputs.readWriteFails then MarkFailed(generation, seen, FailedProviderStatus, "PullRequestStatusFailed", inputs.now)
      else
        [PutStatus(seen)] +
        match seen.mergeState
        case Merged => Await(generation, spec, seen, inputs)
        case Closed => MarkFailed(generation, seen, FailedApproval, "PullRequestClosed", inputs.now)
        case Unmerged => []
  }

  /** In pull-request mode: wait for the merge first. */
  function Follow(generation: nat, spec: Spec, s: Status, inputs: Inputs): seq<Request> {
    if spec.mode.DirectCommit? then Await(generation, spec, s, inputs)
    else
      var e := if s.reference == "" then Ensure(s, inputs) else Ensured(true, s, []);
      e.requests + ReadPullRequest(generation, spec, e.status, e.ok, inputs)
  }

  /** The commit as the status or, failing that, the checkpoint has it. */
  function KnownCommit(copy: Release): string {
    if copy.status.gitCommit != "" then copy.status.gitCommit else copy.checkpoint
  }

  /** Approved and allowed: the part of reconcile that changes the world. */
  function Carry(copy: Release, s: Status, inputs: Inputs): seq<Request> {
    var commit := KnownCommit(copy);
    if commit == "" then Promote(copy.generation, copy.spec, s, inputs)
    else
      var s' := s.(gitCommit := commit);
      if s.phase.PreparingGitOpsChange? || s.phase.Pending? || s.phase.NoPhase? then
        Record(copy.generation, copy.spec, s', s'.reference == "", inputs)
      else Follow(copy.generation, copy.spec, s', inputs)
  }

  /** reconcile, on the copy of the Release it read. */
  function Plan(copy: Release, inputs: Inputs): seq<Request> {
    var g, spec, s := copy.generation, copy.spec, copy.status;
    if Terminal(s.phase) then []
    else if spec.rejectedBy != "" then MarkFailed(g, Approved(spec, s), FailedApproval, "ReleaseRejected", inputs.now)
    else if !inputs.buildRunUsable then MarkFailed(g, s, FailedValidation, "BuildRunUnavailable", inputs.now)
    else if !inputs.environmentFound then MarkFailed(g, s, FailedValidation, "EnvironmentUnavailable", inputs.now)
    else
      var judged := s.(policyAllowed := inputs.policyAllowed);
      if NeedsApproval(spec, inputs.environmentRequiresApproval) && spec.approvedBy == "" then MarkAwaiting(g, spec, judged)
      else if !inputs.policyAllowed then [PutStatus(PolicyDenied(g, judged, inputs.policyReason, inputs.now))]
      else
        var approved := Approved(spec, judged);
        if Expired(spec, approved, inputs.now) then MarkFailed(g, approved, TimedOut, "DeploymentTimedOut", inputs.now)
        else Carry(copy, approved, inputs)
  }

  // ---- The store ----

  function Execute(r: Release, request: Request): Release {
    match request
    case PutStatus(s) => r.(status := s)
    case UpdateImage => r
    case PutCheckpoint(commit) => if r.checkpoint == "" then r.(checkpoint := commit) else r
  }

  function ExecuteAll(r: Release, requests: seq<Request>): Release
    decreases |requests|
  {
    if requests == [] then r else ExecuteAll(Execute(r, requests[0]), requests[1..])
  }
}
