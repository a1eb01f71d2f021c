/** reconcile and its mark functions as they run: rewriting the copy of the Release and sending requests. */
module ReleaseReconciler {
  import opened Wrappers
  import opened ReleasePlan

  class Reconciler {
    const generation: nat
    const spec: Spec
    var status: Status
    var checkpoint: string
    var sent: seq<Request>

    constructor (copy: Release)
      ensures generation == copy.generation && spec == copy.spec && status == copy.status && checkpoint == copy.checkpoint
      ensures sent == []
    {
      generation, spec, status, checkpoint, sent := copy.generation, copy.spec, copy.status, copy.checkpoint, [];
    }

    method UpdateReleaseStatus()
      modifies this`sent
      ensures sent == old(sent) + [PutStatus(status)]
    {
      sent := sent + [PutStatus(status)];
    }

    method MarkFailed(phase: Phase, reason: string, now: int)
      modifies this`status, this`sent
      ensures sent == old(sent) + ReleasePlan.MarkFailed(generation, old(status), phase, reason, now)
    {
      if status.phase == phase && status.observedGeneration == generation && status.failedReason == reason {
        return;
      }
      status := status.(phase := phase);
      status := status.(observedGeneration := generation);
      status := status.(completedAt := Some(now));
      status := status.(failure := reason);
      status := status.(failedReason := reason);
      UpdateReleaseStatus();
    }

    method MarkAwaitingApproval()
      modifies this`status, this`sent
      ensures sent == old(sent) + MarkAwaiting(generation, spec, old(status))
    {
      if status.phase.AwaitingApproval? && status.observedGeneration == generation && status.awaitingSince == Some(generation) {
        return;
      }
      status := status.(phase := AwaitingApproval);
      status := status.(observedGeneration := generation);
      status := status.(approvedBy := spec.approvedBy, rejectedBy := spec.rejectedBy);
      status := status.(awaitingSince := Some(generation));
      UpdateReleaseStatus();
    }

    method MarkPolicyDenied(reason: string, now: int)
      modifies this`status, this`sent
      ensures sent == old(sent) + [PutStatus(PolicyDenied(generation, old(status), reason, now))]
    {
      status := status.(phase := FailedValidation);
      status := status.(observedGeneration := generation);
      status := status.(completedAt := Some(now));
      status := status.(failure := reason);
      UpdateReleaseStatus();
    }

    method MarkPreparingGitOpsChange(now: int)
      modifies this`status, this`sent
      ensures var ready := AlreadyPrepared(generation, old(status));
        && status == (if ready then old(status) else Prepared(generation, old(status), now))
        && sent == old(sent) + if ready then [] else [PutStatus(status)]
    {
      if AlreadyPrepared(generation, status) {
        return;
      }
      status := status.(phase := PreparingGitOpsChange);
      status := status.(observedGeneration := generation);
      if status.startedAt.None? {
        status := status.(startedAt := Some(now));
      }
      status := status.(preparedSince := Some(generation));
      UpdateReleaseStatus();
    }

    method MarkGitOpsChangeCommitted()
      modifies this`status, this`sent
      ensures sent == old(sent) + [PutStatus(Committed(generation, old(status)))]
    {
      status := status.(phase := GitOpsChangeCommitted);
      status := status.(observedGeneration := generation);
      UpdateReleaseStatus();
    }

    method MarkWaitingForSync()
      modifies this`status, this`sent
      ensures old(status).phase.WaitingForSync? ==> status == old(status) && sent == old(sent)
      ensures !old(status).phase.WaitingForSync? ==>
        status == Waiting(generation, old(status)) && sent == old(sent) + [PutStatus(status)]
    {
      if status.phase.WaitingForSync? {
        return;
      }
      status := status.(phase := WaitingForSync);
      status := status.(observedGeneration := generation);
      UpdateReleaseStatus();
    }

    method MarkDeployed(now: int)
      modifies this`status, this`sent
      ensures sent == old(sent) + [PutStatus(Done(generation, spec, old(status), now))]
    {
      status := status.(phase := Deployed);
      if spec.rollbackOf != "" {
        status := status.(phase := RolledBack);
      }
      status := status.(completedAt := Some(now));
      status := status.(observedGeneration := generation);
      UpdateReleaseStatus();
    }

    method EnsurePullRequest(inputs: Inputs) returns (ok: bool)
      modifies this`status, this`sent
      ensures var e := Ensure(old(status), inputs); ok == e.ok && status == e.status && sent == old(sent) + e.requests
    {
      if inputs.ensured.PullRequestUnavailable? || inputs.ensured.reference == "" {
        return false;
      }
      status := status.(reference := inputs.ensured.reference, mergeState := inputs.ensured.mergeState);
      if inputs.ensuredWriteFails {
        return false;
      }
      UpdateReleaseStatus();
      return true;
    }

    /** The end of a reconcile that has a commit to record. */
    method RecordCommit(needed: bool, inputs: Inputs)
      modifies this`status, this`sent
      ensures sent == old(sent) + Record(generation, spec, old(status), needed, inputs)
    {
      if spec.mode.PullRequest? && needed {
        var ok := EnsurePullRequest(inputs);
        if !ok {
          MarkFailed(FailedProviderStatus, "PullRequestCreateFailed", inputs.now);
          return;
        }
      }
      MarkGitOpsChangeCommitted();
    }

    method SyncProviderStatus(inputs: Inputs)
      modifies this`status, this`sent
      ensures sent == old(sent) + Sync(generation, spec, old(status), inputs.(genericProvider := false))
    {
      match inputs.deployment {
        case StatusFailed =>
          MarkFailed(FailedProviderStatus, "ProviderStatusFailed", inputs.now);
        case Healthy =>
          MarkDeployed(inputs.now);
        case Degraded =>
          if inputs.failOnDegraded {
            MarkFailed(FailedProviderStatus, "DeploymentDegraded", inputs.now);
          } else {
            UpdateReleaseStatus();
          }
        case _ =>
          UpdateReleaseStatus();
      }
    }

    /** Whether the pull request is merged, or closed, or neither yet; or that this could not be found out. */
    method SyncPullRequestStatus(inputs: Inputs) returns (state: Option<MergeState>)
      modifies this`status, this`sent
      ensures var e := if old(status).reference == "" then Ensure(old(status), inputs) else Ensured(true, old(status), []);
        && (state.None? <==> !e.ok || inputs.read.PullRequestUnavailable? || inputs.readWriteFails)
        && (!e.ok || inputs.read.PullRequestUnavailable? ==> status == e.status && sent == old(sent) + e.requests)
        && (e.ok && inputs.read.PullRequestIs? ==>
          && status == e.status.(reference := inputs.read.reference, mergeState := inputs.read.mergeState)
          && sent == old(sent) + e.requests + if state.None? then [] else [PutStatus(status)])
        && (state.Some? ==> state.value == status.mergeState)
    {
      if status.reference == "" {
        var ok := EnsurePullRequest(inputs);
        if !ok {
          return None;
        }
      }
      if inputs.read.PullRequestUnavailable? {
        return None;
      }
      status := status.(reference := inputs.read.reference, mergeState := inputs.read.mergeState);
      if inputs.readWriteFails {
        return None;
      }
      UpdateReleaseStatus();
      return Some(inputs.read.mergeState);
    }

    method AwaitDeployment(inputs: Inputs)
      modifies this`status, this`sent
      ensures sent == old(sent) + Await(generation, spec, old(status), inputs)
    {
      hide ReleasePlan.MarkFailed;
      MarkWaitingForSync();
      if inputs.genericProvider {
        MarkDeployed(inputs.now);
      } else {
        SyncProviderStatus(inputs);
      }
    }

    /** With the commit recorded: wait for the merge, then for the deployment. */
    method FollowUp(inputs: Inputs)
      modifies this`status, this`sent
      ensures sent == old(sent) + Follow(generation, spec, old(status), inputs)
    {
      FollowParts(generation, spec, status, inputs);
      hide Follow, Await, Ensure, ReadPullRequest, ReleasePlan.MarkFailed;
      if spec.mode.PullRequest? {
        ghost var e := if status.reference == "" then Ensure(status, inputs) else Ensured(true, status, []);
        ghost var before := sent;
        PullRequestOutcomes(generation, spec, e.status, e.ok, inputs);
        var state := SyncPullRequestStatus(inputs);
        ghost var synced := sent;
        ghost var seen := if state.None? then [] else [PutStatus(status)];
        assert synced == before + e.requests + seen;
        if state.None? {
          assert synced == before + e.requests;
          MarkFailed(FailedProviderStatus, "PullRequestStatusFailed", inputs.now);
          Chained(before, e.requests, [], sent[|synced|..]);
          return;
        }
        if state.value.Closed? {
          MarkFailed(FailedApproval, "PullRequestClosed", inputs.now);
          Chained(before, e.requests, seen, sent[|synced|..]);
          return;
        }
        if state.value.Unmerged? {
          Chained(before, e.requests, seen, []);
          return;
        }
        AwaitDeployment(inputs);
        Chained(before, e.requests, seen, sent[|synced|..]);
        return;
      }
      AwaitDeployment(inputs);
    }

    /** reconcile: the requests sent are exactly the plan. */
    method Reconcile(inputs: Inputs)
      modifies this
      ensures sent == old(sent) + Plan(Release(generation, spec, old(status), old(checkpoint)), inputs)
    {
      hide Record, Follow, ReleasePlan.MarkFailed, MarkAwaiting;
      if Terminal(status.phase) {
        return;
      }
      if spec.rejectedBy != "" {
        status := Approved(spec, status);
        MarkFailed(FailedApproval, "ReleaseRejected", inputs.now);
        return;
      }
      if !inputs.buildRunUsable {
        MarkFailed(FailedValidation, "BuildRunUnavailable", inputs.now);
        return;
      }
      if !inputs.environmentFound {
        MarkFailed(FailedValidation, "EnvironmentUnavailable", inputs.now);
        return;
      }
      status := status.(policyAllowed := inputs.policyAllowed);
      if NeedsApproval(spec, inputs.environmentRequiresApproval) && spec.approvedBy == "" {
        MarkAwaitingApproval();
        return;
      }
      if !inputs.policyAllowed {
        MarkPolicyDenied(inputs.policyReason, inputs.now);
        return;
      }
      status := Approved(spec, status);
      if Expired(spec, status, inputs.now) {
        MarkFailed(TimedOut, "DeploymentTimedOut", inputs.now);
        return;
      }
      ghost var s := status;
      var commit := status.gitCommit;
      if commit == "" {
        commit := checkpoint;
      }
      if commit == "" {
        PromoteImage(inputs);
        return;
      }
      status := status.(gitCommit := commit);
      if status.phase.PreparingGitOpsChange? || status.phase.Pending? || status.phase.NoPhase? {
        RecordCommit(status.reference == "", inputs);
        return;
      }
      FollowUp(inputs);
    }

    method PromoteImage(inputs: Inputs)
      modifies this
      ensures sent == old(sent) + Promote(generation, spec, old(status), inputs)
    {
      hide Record, ReleasePlan.MarkFailed;
      MarkPreparingGitOpsChange(inputs.now);
      sent := sent + [UpdateImage];
      if inputs.git.GitFailed? {
        var failure := GitFailure(inputs.git.operation);
        MarkFailed(failure.0, failure.1, inputs.now);
        return;
      }
      if inputs.git.commit == "" {
        MarkFailed(FailedGitCommit, "EmptyGitCommit", inputs.now);
        return;
      }
      sent := sent + [PutCheckpoint(inputs.git.commit)];
      checkpoint := inputs.git.commit;
      status := status.(gitCommit := inputs.git.commit);
      RecordCommit(true, inputs);
    }
  }

  lemma Chained(a: seq<Request>, b: seq<Request>, c: seq<Request>, d: seq<Request>)
    ensures a + b + c + d == a + (b + (c + d)) && [] + d == d && c + [] == c
  {
  }

  lemma FollowParts(generation: nat, spec: Spec, s: Status, inputs: Inputs)
    ensures spec.mode.DirectCommit? ==> Follow(generation, spec, s, inputs) == Await(generation, spec, s, inputs)
    ensures spec.mode.PullRequest? ==>
      var e := if s.reference == "" then Ensure(s, inputs) else Ensured(true, s, []);
      Follow(generation, spec, s, inputs) == e.requests + ReadPullRequest(generation, spec, e.status, e.ok, inputs)
  {
  }

  /** The four ways reading the pull request can go on. */
  lemma PullRequestOutcomes(generation: nat, spec: Spec, s: Status, ok: bool, inputs: Inputs)
    ensures !ok || inputs.read.PullRequestUnavailable? ==>
      ReadPullRequest(generation, spec, s, ok, inputs) ==
        ReleasePlan.MarkFailed(generation, s, FailedProviderStatus, "PullRequestStatusFailed", inputs.now)
    ensures ok && inputs.read.PullRequestIs? ==>
      var seen := s.(reference := inputs.read.reference, mergeState := inputs.read.mergeState);
      ReadPullRequest(generation, spec, s, ok, inputs) ==
        if inputs.readWriteFails then
          ReleasePlan.MarkFailed(generation, seen, FailedProviderStatus, "PullRequestStatusFailed", inputs.now)
        else if seen.mergeState.Merged? then [PutStatus(seen)] + Await(generation, spec, seen, inputs)
        else if seen.mergeState.Closed? then
          [PutStatus(seen)] + ReleasePlan.MarkFailed(generation, seen, FailedApproval, "PullRequestClosed", inputs.now)
        else [PutStatus(seen)]
  {
    if ok && inputs.read.PullRequestIs? && !inputs.readWriteFails && inputs.read.mergeState.Unmerged? {
      var seen := s.(reference := inputs.read.reference, mergeState := Unmerged);
      assert [PutStatus(seen)] + [] == [PutStatus(seen)];
    }
  }
}
