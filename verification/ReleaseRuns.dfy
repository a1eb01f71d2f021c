/**
 Whole runs of one Release: reconciles that may be cut short after any request, and the API's approve and reject
 (internal/api/server.go) between them.
 */
module ReleaseRuns {
  import opened Wrappers
  import opened ReleasePlan

  // ---- The API's actions ----

  /** releasePromotionStarted */
  predicate PromotionStarted(phase: Phase) {
    phase in {PreparingGitOpsChange, GitOpsChangeCommitted, WaitingForSync, Deployed, RolledBack}
  }

  /** releasePhaseFailed */
  predicate PhaseFailed(phase: Phase) {
    match phase
    case FailedValidation | FailedApproval | FailedGitClone | FailedGitCommit
      | FailedGitPush | FailedProviderStatus | TimedOut => true
    case _ => false
  }

  /** The guards approveRelease and rejectRelease share; an environment that is not found requires nothing. */
  predicate Actionable(r: Release, environmentRequires: bool) {
    && !PromotionStarted(r.status.phase)
    && r.spec.rejectedBy == "" && !PhaseFailed(r.status.phase)
    && NeedsApproval(r.spec, environmentRequires)
  }

  function ApprovedRelease(r: Release, actor: string): Release {
    r.(generation := r.generation + 1, spec := r.spec.(approvalRequired := true, approvedBy := actor, rejectedBy := ""))
  }

  function RejectedRelease(r: Release, actor: string): Release {
    r.(generation := r.generation + 1, spec := r.spec.(approvalRequired := true, rejectedBy := actor))
  }

  function RejectedStatus(r: Release, actor: string, now: int): Status {
    r.status.(phase := FailedApproval, observedGeneration := r.generation, completedAt := Some(now), approvedBy := "",
      rejectedBy := actor, failure := "ReleaseRejected", failedReason := "ReleaseRejected")
  }

  // ---- Runs ----

  /**
   A reconcile executes the first cut requests of its plan. A reject writes the spec, and its status write may be lost.
   */
  datatype Step =
    | Reconcile(inputs: Inputs, cut: nat)
    | Approve(actor: string, environmentRequires: bool)
    | Reject(actor: string, environmentRequires: bool, now: int, statusWritten: bool)

  /** The environment, when it is there, requires approval or does not, and does not change its mind. */
  predicate Enabled(r: Release, step: Step, approval: bool) {
    match step
    case Reconcile(inputs, cut) =>
      cut <= |Plan(r, inputs)| && (inputs.environmentFound ==> inputs.environmentRequiresApproval == approval)
    case Approve(actor, environmentRequires) => actor != "" && Actionable(r, environmentRequires)
    case Reject(actor, environmentRequires, _, _) => actor != "" && Actionable(r, environmentRequires)
  }

  function Next(r: Release, step: Step): Release
    requires step.Reconcile? ==> step.cut <= |Plan(r, step.inputs)|
  {
    match step
    case Reconcile(inputs, cut) => ExecuteAll(r, Plan(r, inputs)[..cut])
    case Approve(actor, _) => ApprovedRelease(r, actor)
    case Reject(actor, _, now, statusWritten) =>
      var rejected := RejectedRelease(r, actor);
      if statusWritten then rejected.(status := RejectedStatus(rejected, actor, now)) else rejected
  }

  ghost predicate IsRun(r: Release, steps: seq<Step>, approval: bool)
    decreases |steps|
  {
    steps == [] || (Enabled(r, steps[0], approval) && IsRun(Next(r, steps[0]), steps[1..], approval))
  }

  ghost function After(r: Release, steps: seq<Step>, approval: bool): Release
    requires IsRun(r, steps, approval)
    decreases |steps|
  {
    if steps == [] then r else After(Next(r, steps[0]), steps[1..], approval)
  }

  // ---- The invariant ----

  function Rank(phase: Phase): nat {
    match phase
    case NoPhase | Pending => 0
    case AwaitingApproval => 1
    case PreparingGitOpsChange => 2
    case GitOpsChangeCommitted => 3
    case WaitingForSync => 4
    case _ => 5
  }

  predicate Succeeded(phase: Phase) {
    phase.Deployed? || phase.RolledBack?
  }

  predicate ApprovalGiven(spec: Spec, approval: bool, approvedBy: string) {
    NeedsApproval(spec, approval) ==> approvedBy != ""
  }

  predicate Sane(spec: Spec, checkpoint: string, s: Status, approval: bool) {
    && (s.startedAt.Some? ==> Rank(s.phase) >= 2 && ApprovalGiven(spec, approval, spec.approvedBy))
    && (s.startedAt.Some? && !Terminal(s.phase) ==> spec.rejectedBy == "")
    && (PromotionStarted(s.phase) ==> s.startedAt.Some? && s.policyAllowed && ApprovalGiven(spec, approval, s.approvedBy))
    && (PromotionStarted(s.phase) && !s.phase.PreparingGitOpsChange? ==> s.gitCommit != "")
    && (s.gitCommit != "" ==> s.gitCommit == checkpoint)
    && (checkpoint != "" ==> s.startedAt.Some?)
    && (Succeeded(s.phase) && spec.mode.PullRequest? ==> s.mergeState.Merged?)
    && (s.phase.RolledBack? ==> spec.rollbackOf != "")
    && (s.phase.Deployed? ==> spec.rollbackOf == "")
    && (Terminal(s.phase) ==> s.completedAt.Some?)
  }

  predicate Good(r: Release, approval: bool) {
    Sane(r.spec, r.checkpoint, r.status, approval)
  }

  /** A new Release. */
  predicate Created(r: Release) {
    && (r.status.phase.NoPhase? || r.status.phase.Pending?)
    && r.status.startedAt.None? && r.status.gitCommit == "" && r.checkpoint == ""
  }

  /** From one stored object to the next: phases move forward, terminal ones and the checkpoint stay. */
  predicate Forward(r: Release, r': Release) {
    && Rank(r.status.phase) <= Rank(r'.status.phase)
    && (Terminal(r.status.phase) ==> r'.status == r.status)
    && (r.checkpoint != "" ==> r'.checkpoint == r.checkpoint)
  }

  /** Every request keeps the invariant and moves forward. */
  ghost predicate Sound(r: Release, requests: seq<Request>, approval: bool)
    decreases |requests|
  {
    requests == [] ||
    var r' := Execute(r, requests[0]);
    Good(r', approval) && Forward(r, r') && Sound(r', requests[1..], approval)
  }

  lemma SoundPut(r: Release, s: Status, rest: seq<Request>, approval: bool)
    requires !Terminal(r.status.phase) && Rank(r.status.phase) <= Rank(s.phase)
    requires Sane(r.spec, r.checkpoint, s, approval) && Sound(r.(status := s), rest, approval)
    ensures Sound(r, [PutStatus(s)] + rest, approval)
  {
    assert ([PutStatus(s)] + rest)[1..] == rest;
  }

  /** A status in memory that could be stored over r's. */
  predicate Storable(r: Release, s: Status, approval: bool) {
    !Terminal(r.status.phase) && !Terminal(s.phase) && Rank(r.status.phase) <= Rank(s.phase)
    && Sane(r.spec, r.checkpoint, s, approval)
  }

  lemma MarkFailedIsSound(r: Release, s: Status, phase: Phase, reason: string, now: int, approval: bool)
    requires Storable(r, s, approval) && PhaseFailed(phase)
    ensures Sound(r, MarkFailed(r.generation, s, phase, reason, now), approval)
  {
    var s' := Failed(r.generation, s, phase, reason, now);
    SoundPut(r, s', [], approval);
    assert [PutStatus(s')] + [] == [PutStatus(s')];
  }

  lemma LastPut(r: Release, s: Status, approval: bool)
    requires !Terminal(r.status.phase) && Rank(r.status.phase) <= Rank(s.phase) && Sane(r.spec, r.checkpoint, s, approval)
    ensures Sound(r, [PutStatus(s)], approval)
  {
    assert [PutStatus(s)] + [] == [PutStatus(s)];
    SoundPut(r, s, [], approval);
  }

  /** A status of a release on its way: approved, allowed, started, with its commit. */
  predicate OnItsWay(r: Release, s: Status, approval: bool) {
    && Storable(r, s, approval)
    && s.startedAt.Some? && s.gitCommit != "" && s.policyAllowed && ApprovalGiven(r.spec, approval, s.approvedBy)
  }

  lemma RecordIsSound(r: Release, s: Status, needed: bool, inputs: Inputs, approval: bool)
    requires OnItsWay(r, s, approval) && s.phase.PreparingGitOpsChange?
    ensures Sound(r, Record(r.generation, r.spec, s, needed, inputs), approval)
  {
    hide Sound;
    if r.spec.mode.PullRequest? && needed {
      var e := Ensure(s, inputs);
      if e.ok {
        LastPut(r.(status := e.status), Committed(r.generation, e.status), approval);
        SoundPut(r, e.status, [PutStatus(Committed(r.generation, e.status))], approval);
      } else {
        MarkFailedIsSound(r, e.status, FailedProviderStatus, "PullRequestCreateFailed", inputs.now, approval);
        assert [] + MarkFailed(r.generation, e.status, FailedProviderStatus, "PullRequestCreateFailed", inputs.now)
            == MarkFailed(r.generation, e.status, FailedProviderStatus, "PullRequestCreateFailed", inputs.now);
      }
    } else {
      LastPut(r, Committed(r.generation, s), approval);
    }
  }

  lemma SyncIsSound(r: Release, s: Status, inputs: Inputs, approval: bool)
    requires OnItsWay(r, s, approval) && s.phase.WaitingForSync? && (r.spec.mode.PullRequest? ==> s.mergeState.Merged?)
    ensures Sound(r, Sync(r.generation, r.spec, s, inputs), approval)
  {
    hide Sound;
    LastPut(r, s, approval);
    LastPut(r, Done(r.generation, r.spec, s, inputs.now), approval);
    MarkFailedIsSound(r, s, FailedProviderStatus, "ProviderStatusFailed", inputs.now, approval);
    MarkFailedIsSound(r, s, FailedProviderStatus, "DeploymentDegraded", inputs.now, approval);
  }

  lemma AwaitIsSound(r: Release, s: Status, inputs: Inputs, approval: bool)
    requires OnItsWay(r, s, approval) && (s.phase.GitOpsChangeCommitted? || s.phase.WaitingForSync?)
    requires r.spec.mode.PullRequest? ==> s.mergeState.Merged?
    ensures Sound(r, Await(r.generation, r.spec, s, inputs), approval)
  {
    hide Sound, Sync;
    var w := Waiting(r.generation, s);
    if s.phase.WaitingForSync? {
      SyncIsSound(r, s, inputs, approval);
    } else {
      SyncIsSound(r.(status := w), w, inputs, approval);
      SoundPut(r, w, Sync(r.generation, r.spec, w, inputs), approval);
    }
  }

  lemma FollowIsSound(r: Release, s: Status, inputs: Inputs, approval: bool)
    requires OnItsWay(r, s, approval) && (s.phase.GitOpsChangeCommitted? || s.phase.WaitingForSync?)
    ensures Sound(r, Follow(r.generation, r.spec, s, inputs), approval)
  {
    if r.spec.mode.DirectCommit? {
      AwaitIsSound(r, s, inputs, approval);
    } else if s.reference == "" {
      var e := Ensure(s, inputs);
      if e.ok {
        ReadIsSound(r.(status := e.status), e.status, true, inputs, approval);
        SoundPut(r, e.status, ReadPullRequest(r.generation, r.spec, e.status, true, inputs), approval);
      } else {
        ReadIsSound(r, e.status, false, inputs, approval);
        assert [] + ReadPullRequest(r.generation, r.spec, e.status, false, inputs)
            == ReadPullRequest(r.generation, r.spec, e.status, false, inputs);
      }
    } else {
      ReadIsSound(r, s, true, inputs, approval);
      assert [] + ReadPullRequest(r.generation, r.spec, s, true, inputs) == ReadPullRequest(r.generation, r.spec, s, true, inputs);
    }
  }

  lemma ReadIsSound(r: Release, s: Status, ok: bool, inputs: Inputs, approval: bool)
    requires OnItsWay(r, s, approval) && (s.phase.GitOpsChangeCommitted? || s.phase.WaitingForSync?)
    requires r.spec.mode.PullRequest?
    ensures Sound(r, ReadPullRequest(r.generation, r.spec, s, ok, inputs), approval)
  {
    hide Sound, Await;
    if !ok || inputs.read.PullRequestUnavailable? {
      MarkFailedIsSound(r, s, FailedProviderStatus, "PullRequestStatusFailed", inputs.now, approval);
    } else {
      var seen := s.(reference := inputs.read.reference, mergeState := inputs.read.mergeState);
      var r' := r.(status := seen);
      if inputs.readWriteFails {
        MarkFailedIsSound(r, seen, FailedProviderStatus, "PullRequestStatusFailed", inputs.now, approval);
      } else {
        match seen.mergeState {
          case Merged =>
            AwaitIsSound(r', seen, inputs, approval);
            SoundPut(r, seen, Await(r.generation, r.spec, seen, inputs), approval);
          case Closed =>
            MarkFailedIsSound(r', seen, FailedApproval, "PullRequestClosed", inputs.now, approval);
            SoundPut(r, seen, MarkFailed(r.generation, seen, FailedApproval, "PullRequestClosed", inputs.now), approval);
          case Unmerged =>
            assert Sound(r', [], approval) by { SoundNothing(r', approval); }
            SoundPut(r, seen, [], approval);
        }
      }
    }
  }

  lemma SoundNothing(r: Release, approval: bool)
    ensures Sound(r, [], approval)
  {
  }

  lemma PromoteIsSound(r: Release, s: Status, inputs: Inputs, approval: bool)
    requires Storable(r, s, approval) && s.phase == r.status.phase && s.startedAt == r.status.startedAt
    requires Rank(s.phase) <= 2 && s.policyAllowed && s.gitCommit == "" && r.checkpoint == ""
    requires ApprovalGiven(r.spec, approval, s.approvedBy) && ApprovalGiven(r.spec, approval, r.spec.approvedBy)
    requires r.spec.rejectedBy == "" && Good(r, approval)
    ensures Sound(r, Promote(r.generation, r.spec, s, inputs), approval)
  {
    hide Sound, Record;
    var ready := AlreadyPrepared(r.generation, s);
    var s' := if ready then s else Prepared(r.generation, s, inputs.now);
    var rest := PushAndRecord(r.generation, r.spec, s', inputs);
    if ready {
      PushIsSound(r, s', inputs, approval);
      assert [] + ([UpdateImage] + rest) == [UpdateImage] + rest;
    } else {
      PushIsSound(r.(status := s'), s', inputs, approval);
      SoundPut(r, s', [UpdateImage] + rest, approval);
    }
  }

  lemma PushIsSound(r: Release, s: Status, inputs: Inputs, approval: bool)
    requires Storable(r, s, approval) && Good(r, approval) && r.checkpoint == ""
    requires s.phase.PreparingGitOpsChange? && s.policyAllowed && s.startedAt.Some?
    requires r.status.startedAt.Some? && ApprovalGiven(r.spec, approval, s.approvedBy)
    ensures Sound(r, [UpdateImage] + PushAndRecord(r.generation, r.spec, s, inputs), approval)
  {
    hide Record;
    var rest := PushAndRecord(r.generation, r.spec, s, inputs);
    assert ([UpdateImage] + rest)[1..] == rest;
    match inputs.git
    case GitFailed(operation) =>
      MarkFailedIsSound(r, s, GitFailure(operation).0, GitFailure(operation).1, inputs.now, approval);
    case GitDone(commit) =>
      if commit == "" {
        MarkFailedIsSound(r, s, FailedGitCommit, "EmptyGitCommit", inputs.now, approval);
      } else {
        var r' := r.(checkpoint := commit);
        var s' := s.(gitCommit := commit);
        RecordIsSound(r', s', true, inputs, approval);
        assert rest[1..] == Record(r.generation, r.spec, s', true, inputs);
      }
  }

  lemma CarryIsSound(r: Release, s: Status, inputs: Inputs, approval: bool)
    requires Good(r, approval) && !Terminal(r.status.phase) && r.spec.rejectedBy == ""
    requires ApprovalGiven(r.spec, approval, r.spec.approvedBy)
    requires s == Approved(r.spec, r.status.(policyAllowed := true))
    ensures Sound(r, Carry(r, s, inputs), approval)
  {
    hide Sound, Promote, Record, Follow;
    var commit := KnownCommit(r);
    if commit == "" {
      PromoteIsSound(r, s, inputs, approval);
    } else {
      var s' := s.(gitCommit := commit);
      if s.phase.PreparingGitOpsChange? {
        RecordIsSound(r, s', s'.reference == "", inputs, approval);
      } else {
        FollowIsSound(r, s', inputs, approval);
      }
    }
  }

  /** Wherever a reconcile is cut short, the stored Release is sane and has only moved forward. */
  lemma PlanIsSound(r: Release, inputs: Inputs, approval: bool)
    requires Good(r, approval) && (inputs.environmentFound ==> inputs.environmentRequiresApproval == approval)
    ensures Sound(r, Plan(r, inputs), approval)
  {
    hide Sound, Carry;
    var g, spec, s := r.generation, r.spec, r.status;
    if Terminal(s.phase) {
      SoundNothing(r, approval);
    } else {
      SoundNothing(r, approval);
      MarkFailedIsSound(r, s, FailedValidation, "BuildRunUnavailable", inputs.now, approval);
      MarkFailedIsSound(r, s, FailedValidation, "EnvironmentUnavailable", inputs.now, approval);
      var judged := s.(policyAllowed := inputs.policyAllowed);
      var approved := Approved(spec, judged);
      if spec.rejectedBy != "" {
        LastPut(r, Failed(g, Approved(spec, s), FailedApproval, "ReleaseRejected", inputs.now), approval);
      } else if !inputs.buildRunUsable || !inputs.environmentFound {
      } else if NeedsApproval(spec, approval) && spec.approvedBy == "" {
        LastPut(r, Awaiting(g, spec, judged), approval);
      } else if !inputs.policyAllowed {
        LastPut(r, PolicyDenied(g, judged, inputs.policyReason, inputs.now), approval);
      } else if Expired(spec, approved, inputs.now) {
        MarkFailedIsSound(r, approved, TimedOut, "DeploymentTimedOut", inputs.now, approval);
      } else {
        CarryIsSound(r, approved, inputs, approval);
      }
    }
  }

  lemma {:induction false} SoundPrefix(r: Release, requests: seq<Request>, cut: nat, approval: bool)
    requires Good(r, approval) && Sound(r, requests, approval) && cut <= |requests|
    ensures var r' := ExecuteAll(r, requests[..cut]); Good(r', approval) && Forward(r, r')
    decreases cut
  {
    if cut == 0 {
    } else {
      SoundPrefix(Execute(r, requests[0]), requests[1..], cut - 1, approval);
      assert requests[..cut][1..] == requests[1..][..cut - 1];
    }
  }

  /** The API's two phase sets leave out no terminal phase, so a terminal release can be neither approved nor rejected. */
  lemma TerminalIsNotActionable(r: Release, environmentRequires: bool)
    ensures Terminal(r.status.phase) <==> Succeeded(r.status.phase) || PhaseFailed(r.status.phase)
    ensures Terminal(r.status.phase) ==> !Actionable(r, environmentRequires)
  {
  }

  lemma StepMovesForward(r: Release, step: Step, approval: bool)
    requires Good(r, approval) && Enabled(r, step, approval)
    ensures Good(Next(r, step), approval) && Forward(r, Next(r, step))
  {
    match step
    case Reconcile(inputs, cut) =>
      PlanIsSound(r, inputs, approval);
      SoundPrefix(r, Plan(r, inputs), cut, approval);
    case Approve(_, _) =>
    case Reject(_, _, _, _) =>
  }

  /** Over every run, the phase's rank never falls, a terminal status never changes, the checkpoint is written once. */
  lemma {:induction false} RunMovesForward(r: Release, steps: seq<Step>, approval: bool)
    requires Good(r, approval) && IsRun(r, steps, approval)
    ensures Good(After(r, steps, approval), approval) && Forward(r, After(r, steps, approval))
    decreases |steps|
  {
    if steps == [] {
    } else {
      StepMovesForward(r, steps[0], approval);
      RunMovesForward(Next(r, steps[0]), steps[1..], approval);
    }
  }

  /** What a successful release stands for. */
  predicate Justified(r: Release, approval: bool) {
    && r.status.gitCommit != "" && r.status.gitCommit == r.checkpoint
    && r.status.startedAt.Some? && r.status.completedAt.Some?
    && r.status.policyAllowed
    && (NeedsApproval(r.spec, approval) ==> r.spec.approvedBy != "" && r.status.approvedBy != "")
    && (r.spec.mode.PullRequest? ==> r.status.mergeState.Merged?)
    && (r.status.phase.RolledBack? <==> r.spec.rollbackOf != "")
  }

  lemma SuccessIsJustified(r: Release, steps: seq<Step>, approval: bool)
    requires Created(r) && IsRun(r, steps, approval)
    ensures var last := After(r, steps, approval); Succeeded(last.status.phase) ==> Justified(last, approval)
  {
    RunMovesForward(r, steps, approval);
  }

  /** A complete reconcile at or after the deadline: one request, and the release is terminal. */
  lemma ExpiredReconcile(r: Release, inputs: Inputs, approval: bool)
    requires Good(r, approval) && (inputs.environmentFound ==> inputs.environmentRequiresApproval == approval)
    requires Expired(r.spec, r.status, inputs.now) && !Terminal(r.status.phase)
    ensures var r' := ExecuteAll(r, Plan(r, inputs));
      && Terminal(r'.status.phase) && |Plan(r, inputs)| == 1
      && (inputs.buildRunUsable && inputs.environmentFound && inputs.policyAllowed ==> r'.status.phase == TimedOut)
  {
    var plan := Plan(r, inputs);
    assert |plan| == 1 && plan[0].PutStatus? && Terminal(plan[0].status.phase);
    assert plan[1..] == [];
    assert ExecuteAll(r, plan) == Execute(r, plan[0]);
  }

  /** A started release that is still under way at its deadline is terminal after the next complete reconcile. */
  lemma DeadlineEndsTheRelease(r: Release, steps: seq<Step>, inputs: Inputs, approval: bool)
    requires Created(r) && IsRun(r, steps, approval)
    requires inputs.environmentFound ==> inputs.environmentRequiresApproval == approval
    requires var last := After(r, steps, approval); Expired(last.spec, last.status, inputs.now)
    ensures var last := After(r, steps, approval);
      var step := Reconcile(inputs, |Plan(last, inputs)|);
      && Enabled(last, step, approval) && Terminal(Next(last, step).status.phase)
  {
    hide Plan;
    RunMovesForward(r, steps, approval);
    var last := After(r, steps, approval);
    var plan := Plan(last, inputs);
    assert plan[..|plan|] == plan;
    if Terminal(last.status.phase) {
      PlanIsSound(last, inputs, approval);
      SoundPrefix(last, plan, |plan|, approval);
    } else {
      ExpiredReconcile(last, inputs, approval);
    }
  }

  /** Nothing stands in the way of this release, as far as one reconcile can see. */
  predicate Favourable(r: Release, inputs: Inputs, approval: bool) {
    && r.spec.rejectedBy == "" && ApprovalGiven(r.spec, approval, r.spec.approvedBy)
    && inputs.buildRunUsable && inputs.environmentFound && inputs.environmentRequiresApproval == approval
    && inputs.policyAllowed && !Expired(r.spec, r.status, inputs.now)
    && inputs.git.GitDone? && inputs.git.commit != ""
    && (inputs.genericProvider || inputs.deployment.Healthy?)
  }

  function Complete(r: Release, inputs: Inputs): Release {
    ExecuteAll(r, Plan(r, inputs))
  }

  lemma FirstReconcileCommits(r: Release, inputs: Inputs, approval: bool)
    requires Good(r, approval) && !Terminal(r.status.phase) && r.spec.mode.DirectCommit? && Favourable(r, inputs, approval)
    requires Rank(r.status.phase) <= 2
    ensures Complete(r, inputs).status.phase.GitOpsChangeCommitted?
    ensures Complete(r, inputs).checkpoint == (if KnownCommit(r) != "" then KnownCommit(r) else inputs.git.commit)
  {
    var s := Approved(r.spec, r.status.(policyAllowed := true));
    assert Plan(r, inputs) == Carry(r, s, inputs);
    if KnownCommit(r) != "" {
      var s' := Committed(r.generation, s.(gitCommit := KnownCommit(r)));
      assert Plan(r, inputs) == [PutStatus(s')];
      OneRequest(r, PutStatus(s'));
    } else {
      assert Plan(r, inputs) == Promote(r.generation, r.spec, s, inputs);
      PromoteCommits(r, s, inputs);
    }
  }

  lemma PromoteCommits(r: Release, s: Status, inputs: Inputs)
    requires r.spec.mode.DirectCommit? && inputs.git.GitDone? && inputs.git.commit != "" && r.checkpoint == ""
    ensures var after := ExecuteAll(r, Promote(r.generation, r.spec, s, inputs));
      after.status.phase.GitOpsChangeCommitted? && after.checkpoint == inputs.git.commit
  {
    var ready := AlreadyPrepared(r.generation, s);
    var p := if ready then s else Prepared(r.generation, s, inputs.now);
    var c := Committed(r.generation, p.(gitCommit := inputs.git.commit));
    var last := [PutCheckpoint(inputs.git.commit), PutStatus(c)];
    assert PushAndRecord(r.generation, r.spec, p, inputs) == last;
    var requests := [UpdateImage] + last;
    var r1 := if ready then r else r.(status := p);
    assert requests[1..] == last && last[1..] == [PutStatus(c)];
    hide ExecuteAll, PushAndRecord, Prepared, AlreadyPrepared;
    OneRequest(r1.(checkpoint := inputs.git.commit), PutStatus(c));
    FirstRequest(r1, last);
    FirstRequest(r1, requests);
    if ready {
      assert [] + requests == requests;
    } else {
      assert ([PutStatus(p)] + requests)[1..] == requests;
      FirstRequest(r, [PutStatus(p)] + requests);
    }
  }

  lemma FirstRequest(r: Release, requests: seq<Request>)
    requires requests != []
    ensures ExecuteAll(r, requests) == ExecuteAll(Execute(r, requests[0]), requests[1..])
  {
  }

  lemma OneRequest(r: Release, request: Request)
    ensures ExecuteAll(r, [request]) == Execute(r, request)
  {
    assert [request][1..] == [];
    assert ExecuteAll(Execute(r, request), []) == Execute(r, request);
  }

  lemma CommittedReconcileFinishes(r: Release, inputs: Inputs, approval: bool)
    requires Good(r, approval) && !Terminal(r.status.phase) && r.spec.mode.DirectCommit? && Favourable(r, inputs, approval)
    requires Rank(r.status.phase) >= 3
    ensures Succeeded(Complete(r, inputs).status.phase)
  {
    var s := Approved(r.spec, r.status.(policyAllowed := true, gitCommit := KnownCommit(r)));
    var w := if s.phase.WaitingForSync? then s else Waiting(r.generation, s);
    var d := Done(r.generation, r.spec, w, inputs.now);
    if s.phase.WaitingForSync? {
      assert Plan(r, inputs) == [PutStatus(d)];
      OneRequest(r, PutStatus(d));
    } else {
      assert Plan(r, inputs) == [PutStatus(w)] + [PutStatus(d)];
      assert ([PutStatus(w)] + [PutStatus(d)])[1..] == [PutStatus(d)];
      OneRequest(r.(status := w), PutStatus(d));
    }
  }

  /** Wherever crashes have left a direct-commit release, two undisturbed reconciles deploy it. */
  lemma TwoReconcilesDeploy(r: Release, steps: seq<Step>, first: Inputs, second: Inputs, approval: bool)
    requires Created(r) && IsRun(r, steps, approval)
    requires var last := After(r, steps, approval);
      && !Terminal(last.status.phase) && last.spec.mode.DirectCommit?
      && Favourable(last, first, approval) && Favourable(Complete(last, first), second, approval)
    ensures var last := After(r, steps, approval); Succeeded(Complete(Complete(last, first), second).status.phase)
  {
    hide Plan;
    RunMovesForward(r, steps, approval);
    var last := After(r, steps, approval);
    var next := Complete(last, first);
    StepMovesForward(last, Reconcile(first, |Plan(last, first)|), approval);
    assert Plan(last, first)[..|Plan(last, first)|] == Plan(last, first);
    if Rank(last.status.phase) <= 2 {
      FirstReconcileCommits(last, first, approval);
      KeepsSpec(last, Plan(last, first));
      CommittedReconcileFinishes(next, second, approval);
    } else {
      CommittedReconcileFinishes(last, first, approval);
      StepMovesForward(next, Reconcile(second, |Plan(next, second)|), approval);
      assert Plan(next, second)[..|Plan(next, second)|] == Plan(next, second);
    }
  }

  lemma {:induction false} KeepsSpec(r: Release, requests: seq<Request>)
    ensures ExecuteAll(r, requests).spec == r.spec && ExecuteAll(r, requests).generation == r.generation
    decreases |requests|
  {
    if requests == [] {
    } else {
      KeepsSpec(Execute(r, requests[0]), requests[1..]);
    }
  }
}
