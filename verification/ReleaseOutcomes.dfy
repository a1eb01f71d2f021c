/** What one complete reconcile of a Release leaves, by what it finds and what it is told. */
module ReleaseOutcomes {
  import opened Wrappers
  import opened ReleasePlan
  import opened ReleaseRuns

  // ---- Who gets as far as the repository ----

  predicate Ended(phase: Phase) {
    phase in {Deployed, RolledBack, FailedValidation, FailedApproval, FailedGitClone, FailedGitCommit, FailedGitPush,
              FailedProviderStatus, TimedOut}
  }

  /** The deadline, thirty minutes after the start unless the release says otherwise, is reached. */
  predicate Late(r: Release, now: int) {
    r.status.startedAt.Some? &&
    now - r.status.startedAt.value >= if r.spec.timeout > 0 then r.spec.timeout else 30 * 60 * 1_000_000_000
  }

  /** Everything a release must have behind it before it may touch the repository or the deployment. */
  predicate Passes(r: Release, inputs: Inputs) {
    && !Ended(r.status.phase) && r.spec.rejectedBy == ""
    && inputs.buildRunUsable && inputs.environmentFound
    && (r.spec.approvalRequired || inputs.environmentRequiresApproval ==> r.spec.approvedBy != "")
    && inputs.policyAllowed && !Late(r, inputs.now)
  }

  predicate FailsWith(r: Release, phase: Phase, reason: string, now: int) {
    r.status.phase == phase && r.status.failure == reason && r.status.completedAt == Some(now)
  }

  /** Between the two statuses only the phase and what is said of it differ. */
  predicate Besides(after: Status, before: Status) {
    after == before.(phase := after.phase, observedGeneration := after.observedGeneration, completedAt := after.completedAt,
                     failure := after.failure, failedReason := after.failedReason)
  }

  /** The status a release that passes is carried on with. */
  function Carried(r: Release): Status {
    r.status.(policyAllowed := true, approvedBy := r.spec.approvedBy, rejectedBy := r.spec.rejectedBy,
              gitCommit := if r.status.gitCommit != "" then r.status.gitCommit else r.checkpoint)
  }

  /** Each reason to stop a release, in the order in which they are looked at, and what it leads to. */
  lemma WhatStopsARelease(r: Release, inputs: Inputs)
    ensures var s, after := r.status, Complete(r, inputs);
      if Ended(s.phase) then after == r
      else if r.spec.rejectedBy != "" then
        FailsWith(after, FailedApproval, "ReleaseRejected", inputs.now) && after.status.rejectedBy == r.spec.rejectedBy
      else if !inputs.buildRunUsable then FailsWith(after, FailedValidation, "BuildRunUnavailable", inputs.now)
      else if !inputs.environmentFound then FailsWith(after, FailedValidation, "EnvironmentUnavailable", inputs.now)
      else if (r.spec.approvalRequired || inputs.environmentRequiresApproval) && r.spec.approvedBy == "" then
        after.status.phase == AwaitingApproval && after.status.completedAt == s.completedAt
      else if !inputs.policyAllowed then
        FailsWith(after, FailedValidation, inputs.policyReason, inputs.now) && !after.status.policyAllowed
      else Late(r, inputs.now) ==> FailsWith(after, TimedOut, "DeploymentTimedOut", inputs.now)
    ensures !Passes(r, inputs) ==>
      Complete(r, inputs).checkpoint == r.checkpoint && Besides(Complete(r, inputs).status, Stopped(r, inputs))
  {
    hide Carry;
    if !Passes(r, inputs) {
      AtMostOnePut(r, inputs);
    }
  }

  /** What a reconcile that stops a release stores besides the phase: the approval, and the policy's verdict once it is asked. */
  function Stopped(r: Release, inputs: Inputs): Status {
    var signed := r.status.(approvedBy := r.spec.approvedBy, rejectedBy := r.spec.rejectedBy);
    if Ended(r.status.phase) then r.status
    else if r.spec.rejectedBy != "" then signed
    else if !inputs.buildRunUsable || !inputs.environmentFound then r.status
    else if (r.spec.approvalRequired || inputs.environmentRequiresApproval) && r.spec.approvedBy == "" then
      if r.status.phase == AwaitingApproval && r.status.observedGeneration == r.generation
        && r.status.awaitingSince == Some(r.generation)
      then r.status else signed.(policyAllowed := inputs.policyAllowed, awaitingSince := Some(r.generation))
    else if !inputs.policyAllowed then r.status.(policyAllowed := false)
    else signed.(policyAllowed := true)
  }

  lemma AtMostOnePut(r: Release, inputs: Inputs)
    requires !Passes(r, inputs)
    ensures var plan := Plan(r, inputs);
      plan == [] || (|plan| == 1 && plan[0].PutStatus? && Complete(r, inputs) == r.(status := plan[0].status))
  {
    hide Carry;
    var plan := Plan(r, inputs);
    if plan != [] {
      assert plan == [plan[0]];
      OneRequest(r, plan[0]);
    }
  }

  /** A failure is written at most once: not again for the same generation and reason. */
  lemma FailuresAreWrittenOnce(g: nat, s: Status, phase: Phase, reason: string, now: int)
    ensures MarkFailed(g, s, phase, reason, now) == [] <==>
      s.phase == phase && s.observedGeneration == g && s.failedReason == reason
    ensures forall later: int :: MarkFailed(g, Failed(g, s, phase, reason, now), phase, reason, later) == []
  {
  }

  /** A reconcile runs the update exactly for a release that passes and whose commit is not known yet. */
  lemma UpdatesExactlyWhenAllowed(r: Release, inputs: Inputs)
    ensures UpdateImage in Plan(r, inputs) <==> Passes(r, inputs) && r.status.gitCommit == "" && r.checkpoint == ""
  {
    hide PushAndRecord, Record, Follow;
    if Passes(r, inputs) {
      var s := Approved(r.spec, r.status.(policyAllowed := true));
      assert Plan(r, inputs) == Carry(r, s, inputs);
      if KnownCommit(r) != "" {
        var s' := s.(gitCommit := KnownCommit(r));
        RecordOnlyPuts(r.generation, r.spec, s', s'.reference == "", inputs);
        FollowOnlyPuts(r.generation, r.spec, s', inputs);
      }
    } else {
      AtMostOnePut(r, inputs);
    }
  }

  predicate OnlyPuts(requests: seq<Request>) {
    UpdateImage !in requests
  }

  lemma RecordOnlyPuts(g: nat, spec: Spec, s: Status, needed: bool, inputs: Inputs)
    ensures OnlyPuts(Record(g, spec, s, needed, inputs))
  {
  }

  lemma AwaitOnlyPuts(g: nat, spec: Spec, s: Status, inputs: Inputs)
    ensures OnlyPuts(Await(g, spec, s, inputs))
  {
  }

  lemma FollowOnlyPuts(g: nat, spec: Spec, s: Status, inputs: Inputs)
    ensures OnlyPuts(Follow(g, spec, s, inputs))
  {
    hide Await;
    var e := if s.reference == "" then Ensure(s, inputs) else Ensured(true, s, []);
    AwaitOnlyPuts(g, spec, s, inputs);
    if inputs.read.PullRequestIs? {
      AwaitOnlyPuts(g, spec, e.status.(reference := inputs.read.reference, mergeState := inputs.read.mergeState), inputs);
    }
  }

  /** A rejected release never reaches the repository any more, whatever happens to it: rejection cannot be taken back. */
  lemma {:induction false} RejectedStaysOut(r: Release, steps: seq<Step>, approval: bool, inputs: Inputs)
    requires IsRun(r, steps, approval) && r.spec.rejectedBy != ""
    ensures After(r, steps, approval).spec.rejectedBy != ""
    ensures UpdateImage !in Plan(After(r, steps, approval), inputs)
    decreases |steps|
  {
    hide Plan;
    if steps == [] {
      UpdatesExactlyWhenAllowed(r, inputs);
    } else {
      if steps[0].Reconcile? { KeepsSpec(r, Plan(r, steps[0].inputs)[..steps[0].cut]); }
      RejectedStaysOut(Next(r, steps[0]), steps[1..], approval, inputs);
    }
  }

  /** Only a release that waits can be approved or rejected, if it needs approval and was not rejected before. */
  lemma OnlyWaitingReleasesAreActionable(r: Release, environmentRequires: bool)
    ensures Actionable(r, environmentRequires) <==>
      && r.status.phase in {NoPhase, Pending, AwaitingApproval}
      && r.spec.rejectedBy == "" && (r.spec.approvalRequired || environmentRequires)
  {
  }

  /** Once approved, a release that waited passes as soon as everything else is in order. */
  lemma ApprovalLetsThrough(r: Release, actor: string, required: bool, inputs: Inputs, approval: bool)
    requires Enabled(r, Approve(actor, required), approval)
    ensures var after := Next(r, Approve(actor, required));
      && (Passes(after, inputs) <==>
        inputs.buildRunUsable && inputs.environmentFound && inputs.policyAllowed && !Late(after, inputs.now))
      && after.spec == r.spec.(approvalRequired := true, approvedBy := actor)
      && after.generation > r.generation && after.status == r.status && after.checkpoint == r.checkpoint
  {
  }

  /** Once rejected, a release is failed: by the API itself, or by the next reconcile if that write was lost. */
  lemma RejectionEndsTheRelease(r: Release, step: Step, inputs: Inputs, approval: bool)
    requires step.Reject? && Enabled(r, step, approval)
    ensures var after := Complete(Next(r, step), inputs);
      && FailsWith(after, FailedApproval, "ReleaseRejected", if step.statusWritten then step.now else inputs.now)
      && after.status.rejectedBy == after.spec.rejectedBy == step.actor && after.checkpoint == r.checkpoint
      && after.spec == r.spec.(approvalRequired := true, rejectedBy := step.actor) && after.generation > r.generation
      && after.status.startedAt == r.status.startedAt && after.status.observedGeneration == after.generation
      && (step.statusWritten ==> after.status.approvedBy == "" && Plan(Next(r, step), inputs) == [])
  {
    var next := Next(r, step);
    if !step.statusWritten {
      AtMostOnePut(next, inputs);
    }
  }

  /** A release that waits for its approval is written once: later reconciles that find it waiting send nothing. */
  lemma WaitsInSilence(r: Release, first: Inputs, second: Inputs)
    requires Waits(r, first) && Waits(r, second)
    ensures Complete(r, first).status.phase == AwaitingApproval && Plan(Complete(r, first), second) == []
  {
    AtMostOnePut(r, first);
  }

  predicate Waits(r: Release, inputs: Inputs) {
    && !Ended(r.status.phase) && r.spec.rejectedBy == "" && inputs.buildRunUsable && inputs.environmentFound
    && (r.spec.approvalRequired || inputs.environmentRequiresApproval) && r.spec.approvedBy == ""
  }

  // ---- Every move is made for the generation that was read ----

  predicate Observed(s: Status, copy: Release) {
    s.phase == copy.status.phase || s.observedGeneration == copy.generation
  }

  predicate AllObserved(requests: seq<Request>, copy: Release) {
    forall i :: 0 <= i < |requests| && requests[i].PutStatus? ==> Observed(requests[i].status, copy)
  }

  lemma ObservedSum(a: seq<Request>, b: seq<Request>, copy: Release)
    requires AllObserved(a, copy) && AllObserved(b, copy)
    ensures AllObserved(a + b, copy)
  {
  }

  lemma AwaitIsObserved(copy: Release, s: Status, inputs: Inputs)
    requires Observed(s, copy)
    ensures AllObserved(Await(copy.generation, copy.spec, s, inputs), copy)
  {
  }

  lemma FollowIsObserved(copy: Release, s: Status, inputs: Inputs)
    requires Observed(s, copy)
    ensures AllObserved(Follow(copy.generation, copy.spec, s, inputs), copy)
  {
    hide Await;
    AwaitIsObserved(copy, s, inputs);
    if copy.spec.mode.PullRequest? {
      var e := if s.reference == "" then Ensure(s, inputs) else Ensured(true, s, []);
      if inputs.read.PullRequestIs? {
        AwaitIsObserved(copy, e.status.(reference := inputs.read.reference, mergeState := inputs.read.mergeState), inputs);
      }
      ObservedSum(e.requests, ReadPullRequest(copy.generation, copy.spec, e.status, e.ok, inputs), copy);
    }
  }

  lemma PromoteIsObserved(copy: Release, s: Status, inputs: Inputs)
    requires Observed(s, copy)
    ensures AllObserved(Promote(copy.generation, copy.spec, s, inputs), copy)
  {
    hide Record;
    var p := if AlreadyPrepared(copy.generation, s) then s else Prepared(copy.generation, s, inputs.now);
    if inputs.git.GitDone? { RecordIsObserved(copy, p.(gitCommit := inputs.git.commit), true, inputs); }
    ObservedSum([UpdateImage], PushAndRecord(copy.generation, copy.spec, p, inputs), copy);
  }

  lemma RecordIsObserved(copy: Release, s: Status, needed: bool, inputs: Inputs)
    requires Observed(s, copy)
    ensures AllObserved(Record(copy.generation, copy.spec, s, needed, inputs), copy)
  {
  }

  /** Every status a reconcile sends that is in another phase than the one it read says which generation it is about. */
  lemma MovesAreObserved(copy: Release, inputs: Inputs)
    ensures AllObserved(Plan(copy, inputs), copy)
  {
    hide Promote, Record, Follow;
    var s := Approved(copy.spec, copy.status.(policyAllowed := inputs.policyAllowed));
    var s' := s.(gitCommit := KnownCommit(copy));
    PromoteIsObserved(copy, s, inputs);
    RecordIsObserved(copy, s', s'.reference == "", inputs);
    FollowIsObserved(copy, s', inputs);
  }

  // ---- The update and the record of its commit ----

  lemma PutFirst(r: Release, s: Status, rest: seq<Request>)
    ensures ExecuteAll(r, [PutStatus(s)] + rest) == ExecuteAll(r.(status := s), rest)
  {
    assert ([PutStatus(s)] + rest)[1..] == rest;
  }

  lemma NothingFirst(r: Release, rest: seq<Request>)
    ensures ExecuteAll(r, [] + rest) == ExecuteAll(r, rest) && ExecuteAll(r, []) == r
  {
    assert [] + rest == rest;
  }

  lemma UpdateFirst(r: Release, rest: seq<Request>)
    ensures ExecuteAll(r, [UpdateImage] + rest) == ExecuteAll(r, rest)
  {
    assert ([UpdateImage] + rest)[1..] == rest;
  }

  lemma CheckpointFirst(r: Release, commit: string, rest: seq<Request>)
    ensures ExecuteAll(r, [PutCheckpoint(commit)] + rest) ==
      ExecuteAll(if r.checkpoint == "" then r.(checkpoint := commit) else r, rest)
  {
    assert ([PutCheckpoint(commit)] + rest)[1..] == rest;
  }

  /** The status a failure is written over is not yet that failure. */
  lemma FailureIsWritten(r: Release, s: Status, phase: Phase, reason: string, now: int)
    requires s.phase != phase
    ensures var after := ExecuteAll(r, MarkFailed(r.generation, s, phase, reason, now));
      FailsWith(after, phase, reason, now) && after.checkpoint == r.checkpoint && Besides(after.status, s)
  {
    OneRequest(r, PutStatus(Failed(r.generation, s, phase, reason, now)));
  }

  /** The provider made the pull request known, and that could be stored. */
  predicate PullRequestEnsured(inputs: Inputs) {
    inputs.ensured.PullRequestIs? && inputs.ensured.reference != "" && !inputs.ensuredWriteFails
  }

  /** The status with the pull request in it, if the provider made one known: also when that could not be stored. */
  function Linked(s: Status, spec: Spec, needed: bool, inputs: Inputs): Status {
    if spec.mode.PullRequest? && needed && inputs.ensured.PullRequestIs? && inputs.ensured.reference != ""
    then s.(reference := inputs.ensured.reference, mergeState := inputs.ensured.mergeState) else s
  }

  /** The commit is recorded, with the pull request if there is to be one, or the failure to make that. */
  predicate Recorded(after: Release, s: Status, spec: Spec, needed: bool, inputs: Inputs) {
    && Besides(after.status, Linked(s, spec, needed, inputs))
    && if spec.mode.PullRequest? && needed && !PullRequestEnsured(inputs) then
         FailsWith(after, FailedProviderStatus, "PullRequestCreateFailed", inputs.now)
       else
         after.status.phase == GitOpsChangeCommitted && after.status.completedAt == s.completedAt
  }

  lemma RecordLeaves(r: Release, s: Status, needed: bool, inputs: Inputs)
    requires s.phase != FailedProviderStatus
    ensures var after := ExecuteAll(r, Record(r.generation, r.spec, s, needed, inputs));
      Recorded(after, s, r.spec, needed, inputs) && after.checkpoint == r.checkpoint
  {
    var e := Ensure(s, inputs);
    if r.spec.mode.PullRequest? && needed {
      if e.ok {
        PutFirst(r, e.status, [PutStatus(Committed(r.generation, e.status))]);
        OneRequest(r.(status := e.status), PutStatus(Committed(r.generation, e.status)));
      } else {
        NothingFirst(r, MarkFailed(r.generation, e.status, FailedProviderStatus, "PullRequestCreateFailed", inputs.now));
        FailureIsWritten(r, e.status, FailedProviderStatus, "PullRequestCreateFailed", inputs.now);
      }
    } else {
      OneRequest(r, PutStatus(Committed(r.generation, s)));
    }
  }

  /** The status the update runs with: the start is the first time the release got here. */
  function Begun(r: Release, inputs: Inputs): Status {
    Carried(r).(startedAt := if r.status.startedAt.Some? then r.status.startedAt else Some(inputs.now),
                preparedSince := Some(r.generation))
  }

  /** The release is marked as being prepared before the update runs, once for its generation. */
  lemma WhatPrecedesTheUpdate(r: Release, inputs: Inputs)
    requires Passes(r, inputs) && r.status.gitCommit == "" && r.checkpoint == ""
    ensures var plan := Plan(r, inputs);
      var marked := r.status.phase == PreparingGitOpsChange && r.status.observedGeneration == r.generation
        && r.status.preparedSince == Some(r.generation);
      if marked then |plan| >= 1 && plan[0] == UpdateImage
      else
        && |plan| >= 2 && plan[1] == UpdateImage
        && plan[0] == PutStatus(Begun(r, inputs).(phase := PreparingGitOpsChange, observedGeneration := r.generation))
  {
    hide PushAndRecord;
    var s := Approved(r.spec, r.status.(policyAllowed := true));
    assert Plan(r, inputs) == Promote(r.generation, r.spec, s, inputs);
    assert s == Carried(r);
  }

  /** What the reply of the Git update leads to. */
  lemma WhatTheUpdateLeadsTo(r: Release, inputs: Inputs, approval: bool)
    requires Good(r, approval) && Passes(r, inputs) && r.status.gitCommit == "" && r.checkpoint == ""
    ensures var after := Complete(r, inputs);
      var s := Begun(r, inputs);
      && (!after.status.phase.GitOpsChangeCommitted? && after.checkpoint == "" ==> Besides(after.status, s))
      && match inputs.git
         case GitFailed(Clone) => FailsWith(after, FailedGitClone, "GitCloneFailed", inputs.now) && after.checkpoint == ""
         case GitFailed(Parse) => FailsWith(after, FailedGitCommit, "GitOpsParseFailed", inputs.now) && after.checkpoint == ""
         case GitFailed(Update) => FailsWith(after, FailedGitCommit, "GitOpsUpdateFailed", inputs.now) && after.checkpoint == ""
         case GitFailed(Commit) => FailsWith(after, FailedGitCommit, "GitCommitFailed", inputs.now) && after.checkpoint == ""
         case GitFailed(Push) => FailsWith(after, FailedGitPush, "GitPushFailed", inputs.now) && after.checkpoint == ""
         case GitDone(commit) =>
           if commit == "" then FailsWith(after, FailedGitCommit, "EmptyGitCommit", inputs.now) && after.checkpoint == ""
           else
             after.checkpoint == commit && Recorded(after, s.(gitCommit := commit), r.spec, true, inputs)
  {
    hide Record;
    var g, spec := r.generation, r.spec;
    var s := Approved(spec, r.status.(policyAllowed := true));
    assert Plan(r, inputs) == Promote(g, spec, s, inputs);
    var ready := AlreadyPrepared(g, s);
    var p := if ready then s else Prepared(g, s, inputs.now);
    var r1 := if ready then r else r.(status := p);
    var rest := PushAndRecord(g, spec, p, inputs);
    if ready { NothingFirst(r, [UpdateImage] + rest); } else { PutFirst(r, p, [UpdateImage] + rest); }
    UpdateFirst(r1, rest);
    assert Complete(r, inputs) == ExecuteAll(r1, rest);
    match inputs.git
    case GitFailed(operation) => FailureIsWritten(r1, p, GitFailure(operation).0, GitFailure(operation).1, inputs.now);
    case GitDone(commit) =>
      if commit == "" {
        FailureIsWritten(r1, p, FailedGitCommit, "EmptyGitCommit", inputs.now);
      } else {
        var p' := p.(gitCommit := commit);
        CheckpointFirst(r1, commit, Record(g, spec, p', true, inputs));
        RecordLeaves(r1.(checkpoint := commit), p', true, inputs);
      }
  }

  /** A commit that is known, but not yet recorded in the phase: the update is not run again. */
  lemma WhatAKnownCommitLeadsTo(r: Release, inputs: Inputs)
    requires Passes(r, inputs) && (r.status.gitCommit != "" || r.checkpoint != "")
    requires r.status.phase in {NoPhase, Pending, PreparingGitOpsChange}
    ensures var after := Complete(r, inputs);
      after.checkpoint == r.checkpoint && Recorded(after, Carried(r), r.spec, r.status.reference == "", inputs)
  {
    hide Record;
    var s := Carried(r);
    assert s == Approved(r.spec, r.status.(policyAllowed := true)).(gitCommit := KnownCommit(r));
    assert Plan(r, inputs) == Record(r.generation, r.spec, s, s.reference == "", inputs);
    RecordLeaves(r, s, s.reference == "", inputs);
  }

  // ---- The pull request and the deployment ----

  /** The commit is recorded and the release passes: only the pull request and the deployment are left. */
  predicate UnderWay(r: Release, inputs: Inputs) {
    && Passes(r, inputs) && (r.status.gitCommit != "" || r.checkpoint != "")
    && (r.status.phase.GitOpsChangeCommitted? || r.status.phase.WaitingForSync?)
  }

  /** There is a pull request, and its state could be read and stored. */
  predicate PullRequestSeen(r: Release, inputs: Inputs) {
    && (r.status.reference != "" || PullRequestEnsured(inputs))
    && inputs.read.PullRequestIs? && !inputs.readWriteFails
  }

  /** How the deployment decides: success, failure with its reason, or waiting on. Nothing else of the status changes. */
  predicate DecidedByDeployment(after: Release, s: Status, spec: Spec, inputs: Inputs) {
    && Besides(after.status, s)
    && (!after.status.phase.FailedProviderStatus? ==>
      after.status.failure == s.failure && after.status.failedReason == s.failedReason)
    && (after.status.phase.WaitingForSync? ==> after.status.completedAt == s.completedAt)
    && (after.status.phase == Deployed <==> (inputs.genericProvider || inputs.deployment.Healthy?) && spec.rollbackOf == "")
    && (after.status.phase == RolledBack <==> (inputs.genericProvider || inputs.deployment.Healthy?) && spec.rollbackOf != "")
    && (after.status.phase == FailedProviderStatus <==>
      !inputs.genericProvider && (inputs.deployment.StatusFailed? || (inputs.deployment.Degraded? && inputs.failOnDegraded)))
    && (after.status.phase == WaitingForSync <==>
      !inputs.genericProvider &&
      (inputs.deployment.StatusUnknown? || inputs.deployment.Progressing?
       || (inputs.deployment.Degraded? && !inputs.failOnDegraded)))
    && (after.status.phase == FailedProviderStatus ==>
      after.status.failure == if inputs.deployment.Degraded? then "DeploymentDegraded" else "ProviderStatusFailed")
    && (after.status.phase in {Deployed, RolledBack, FailedProviderStatus} ==> after.status.completedAt == Some(inputs.now))
  }

  lemma AwaitLeaves(r: Release, s: Status, inputs: Inputs)
    requires s.phase.GitOpsChangeCommitted? || s.phase.WaitingForSync?
    ensures var after := ExecuteAll(r, Await(r.generation, r.spec, s, inputs));
      DecidedByDeployment(after, s, r.spec, inputs) && after.checkpoint == r.checkpoint
  {
    var w := if s.phase.WaitingForSync? then s else Waiting(r.generation, s);
    var r1 := if s.phase.WaitingForSync? then r else r.(status := w);
    if !s.phase.WaitingForSync? { PutFirst(r, w, Sync(r.generation, r.spec, w, inputs)); }
    OneRequest(r1, PutStatus(w));
    OneRequest(r1, PutStatus(Done(r.generation, r.spec, w, inputs.now)));
    FailureIsWritten(r1, w, FailedProviderStatus, "ProviderStatusFailed", inputs.now);
    FailureIsWritten(r1, w, FailedProviderStatus, "DeploymentDegraded", inputs.now);
  }

  /** From every release under way whose pull request, if it needs one, is read as merged, the deployment decides. */
  lemma TheDeploymentDecides(r: Release, inputs: Inputs)
    requires UnderWay(r, inputs)
    requires r.spec.mode.PullRequest? ==> PullRequestSeen(r, inputs) && inputs.read.mergeState.Merged?
    ensures Complete(r, inputs).checkpoint == r.checkpoint
    ensures var s := Carried(r);
      var seen := if r.spec.mode.DirectCommit? then s
                  else s.(reference := inputs.read.reference, mergeState := inputs.read.mergeState);
      DecidedByDeployment(Complete(r, inputs), seen, r.spec, inputs)
  {
    hide Await, DecidedByDeployment;
    var s := Carried(r);
    assert s == Approved(r.spec, r.status.(policyAllowed := true)).(gitCommit := KnownCommit(r));
    assert Plan(r, inputs) == Follow(r.generation, r.spec, s, inputs);
    if r.spec.mode.DirectCommit? {
      AwaitLeaves(r, s, inputs);
    } else {
      var e := if s.reference == "" then Ensure(s, inputs) else Ensured(true, s, []);
      var r1 := if s.reference == "" then r.(status := e.status) else r;
      var seen := e.status.(reference := inputs.read.reference, mergeState := inputs.read.mergeState);
      var rest := ReadPullRequest(r.generation, r.spec, e.status, true, inputs);
      if s.reference == "" { PutFirst(r, e.status, rest); } else { NothingFirst(r, rest); }
      PutFirst(r1, seen, Await(r.generation, r.spec, seen, inputs));
      AwaitLeaves(r1.(status := seen), seen, inputs);
    }
  }

  /** Until then the pull request decides: one that is open is waited for, with what was read of it stored. */
  lemma ThePullRequestDecides(r: Release, inputs: Inputs)
    requires UnderWay(r, inputs) && r.spec.mode.PullRequest?
    requires PullRequestSeen(r, inputs) ==> !inputs.read.mergeState.Merged?
    ensures var after := Complete(r, inputs);
      var linked := Linked(Carried(r), r.spec, r.status.reference == "", inputs);
      var ensured := r.status.reference != "" || PullRequestEnsured(inputs);
      && after.checkpoint == r.checkpoint
      && Besides(after.status, if ensured && inputs.read.PullRequestIs?
                               then linked.(reference := inputs.read.reference, mergeState := inputs.read.mergeState) else linked)
      && if !PullRequestSeen(r, inputs) then FailsWith(after, FailedProviderStatus, "PullRequestStatusFailed", inputs.now)
         else if inputs.read.mergeState.Closed? then FailsWith(after, FailedApproval, "PullRequestClosed", inputs.now)
         else
           after.status.phase == r.status.phase && after.status.completedAt == r.status.completedAt
  {
    hide Await;
    var g, spec := r.generation, r.spec;
    var s := Carried(r);
    assert s == Approved(spec, r.status.(policyAllowed := true)).(gitCommit := KnownCommit(r));
    assert Plan(r, inputs) == Follow(g, spec, s, inputs);
    var e := if s.reference == "" then Ensure(s, inputs) else Ensured(true, s, []);
    var r1 := if e.requests != [] then r.(status := e.status) else r;
    var rest := ReadPullRequest(g, spec, e.status, e.ok, inputs);
    if e.requests != [] { PutFirst(r, e.status, rest); } else { NothingFirst(r, rest); }
    assert Complete(r, inputs) == ExecuteAll(r1, rest);
    FailureIsWritten(r1, e.status, FailedProviderStatus, "PullRequestStatusFailed", inputs.now);
    if e.ok && inputs.read.PullRequestIs? {
      var seen := e.status.(reference := inputs.read.reference, mergeState := inputs.read.mergeState);
      FailureIsWritten(r1, seen, FailedProviderStatus, "PullRequestStatusFailed", inputs.now);
      PutFirst(r1, seen, []);
      NothingFirst(r1.(status := seen), []);
      PutFirst(r1, seen, MarkFailed(g, seen, FailedApproval, "PullRequestClosed", inputs.now));
      FailureIsWritten(r1.(status := seen), seen, FailedApproval, "PullRequestClosed", inputs.now);
    }
  }
}
