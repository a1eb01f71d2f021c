/** The commit checkpoint under concurrency (internal/controller/release_controller.go). */
module Checkpoint {
  import opened ReleasePlan

  /*
   persistGitCommitCheckpoint, with any number of reconciles of one Release at once, on stale copies, each dying at any
   point.
   */

  /**
   The stored Release with everything it has been, and what each running reconcile still has to send. A status write
   and a checkpoint write are retried on a conflict, so each happens at one instant, or not at all.
   */
  datatype System = System(history: seq<Release>, pending: map<string, seq<Request>>)

  /** The Release as it is stored now. */
  function Stored(s: System): Release
    requires s.history != []
  {
    s.history[|s.history| - 1]
  }

  datatype Step =
    | Start(w: string, at: nat, inputs: Inputs)
    | Send(w: string)
    | Die(w: string)
    | Edit(generation: nat, spec: Spec)
    | WriteStatus(at: nat, status: Status)

  /**
   A reconcile starts on any past state. Edits change the spec. WriteStatus is the API's own status write: it keeps the
   commit of whatever state the API had read, and reports no success.
   */
  ghost predicate Enabled(s: System, step: Step) {
    s.history != [] &&
    match step
    case Start(w, at, _) => w !in s.pending && at < |s.history|
    case Send(w) => w in s.pending && s.pending[w] != []
    case Die(w) => w in s.pending
    case Edit(_, _) => true
    case WriteStatus(at, status) =>
      at < |s.history| && status.gitCommit == s.history[at].status.gitCommit && !Reported(status.phase)
  }

  predicate Reported(phase: Phase) {
    phase.Deployed? || phase.RolledBack?
  }

  /** persistGitCommitCheckpoint refuses to replace another commit; the reconcile then ends. */
  predicate Refused(r: Release, request: Request) {
    request.PutCheckpoint? && r.checkpoint != "" && r.checkpoint != request.commit
  }

  ghost function Next(s: System, step: Step): System
    requires Enabled(s, step)
  {
    match step
    case Start(w, at, inputs) => s.(pending := s.pending[w := Plan(s.history[at], inputs)])
    case Send(w) =>
      var request, rest := s.pending[w][0], s.pending[w][1..];
      if Refused(Stored(s), request) then s.(pending := s.pending - {w})
      else System(s.history + [Execute(Stored(s), request)], s.pending[w := rest])
    case Die(w) => s.(pending := s.pending - {w})
    case Edit(generation, spec) => s.(history := s.history + [Stored(s).(generation := generation, spec := spec)])
    case WriteStatus(_, status) => s.(history := s.history + [Stored(s).(status := status)])
  }

  ghost predicate IsRun(s: System, steps: seq<Step>)
    decreases |steps|
  {
    steps == [] || (Enabled(s, steps[0]) && IsRun(Next(s, steps[0]), steps[1..]))
  }

  ghost function After(s: System, steps: seq<Step>): System
    requires IsRun(s, steps)
    decreases |steps|
  {
    if steps == [] then s else After(Next(s, steps[0]), steps[1..])
  }

  // ---- The invariant ----

  /** A status may be stored while the checkpoint is as given. */
  predicate Fitting(s: Status, checkpoint: string) {
    && (s.gitCommit == "" || s.gitCommit == checkpoint)
    && (Reported(s.phase) ==> s.gitCommit != "")
  }

  predicate Matching(r: Release) {
    Fitting(r.status, r.checkpoint)
  }

  /** Whatever is still to be sent fits the checkpoint, or comes after the checkpoint write it relies on. */
  predicate Safe(requests: seq<Request>, checkpoint: string)
    decreases |requests|
  {
    requests == [] ||
    match requests[0]
    case PutStatus(s) => Fitting(s, checkpoint) && Safe(requests[1..], checkpoint)
    case UpdateImage => Safe(requests[1..], checkpoint)
    case PutCheckpoint(commit) => commit != "" && Safe(requests[1..], commit)
  }

  predicate Extends(before: string, after: string) {
    before == "" || before == after
  }

  ghost predicate Good(s: System) {
    && s.history != []
    && (forall i :: 0 <= i < |s.history| ==> Matching(s.history[i]) && Extends(s.history[i].checkpoint, Stored(s).checkpoint))
    && (forall w :: w in s.pending ==> Safe(s.pending[w], Stored(s).checkpoint))
  }

  lemma {:induction false} SafeStays(requests: seq<Request>, before: string, after: string)
    requires Safe(requests, before) && Extends(before, after)
    ensures Safe(requests, after)
    decreases |requests|
  {
    if requests != [] && !requests[0].PutCheckpoint? {
      SafeStays(requests[1..], before, after);
    }
  }

  lemma SafePut(s: Status, rest: seq<Request>, checkpoint: string)
    requires Fitting(s, checkpoint) && Safe(rest, checkpoint)
    ensures Safe([PutStatus(s)] + rest, checkpoint) && Safe([PutStatus(s)], checkpoint)
  {
    assert ([PutStatus(s)] + rest)[1..] == rest && [PutStatus(s)][1..] == [];
  }

  // ---- A plan is safe for the checkpoint of the copy it was made on ----

  lemma MarkFailedIsSafe(g: nat, s: Status, phase: Phase, reason: string, now: int, checkpoint: string)
    requires Fitting(s, checkpoint) && !Reported(phase)
    ensures Safe(MarkFailed(g, s, phase, reason, now), checkpoint)
    ensures forall i :: 0 <= i < |MarkFailed(g, s, phase, reason, now)| ==> !MarkFailed(g, s, phase, reason, now)[i].PutCheckpoint?
  {
    SafePut(Failed(g, s, phase, reason, now), [], checkpoint);
  }

  lemma EnsureIsSafe(s: Status, rest: seq<Request>, inputs: Inputs, checkpoint: string)
    requires Fitting(s, checkpoint) && Safe(rest, checkpoint)
    ensures Fitting(Ensure(s, inputs).status, checkpoint) && Safe(Ensure(s, inputs).requests + rest, checkpoint)
  {
    var e := Ensure(s, inputs);
    if e.ok { SafePut(e.status, rest, checkpoint); } else { assert [] + rest == rest; }
  }

  lemma RecordIsSafe(g: nat, spec: Spec, s: Status, needed: bool, inputs: Inputs, checkpoint: string)
    requires Fitting(s, checkpoint) && s.gitCommit != ""
    ensures Safe(Record(g, spec, s, needed, inputs), checkpoint)
  {
    hide Safe;
    SafeNothing(checkpoint);
    SafePut(Committed(g, s), [], checkpoint);
    var e := Ensure(s, inputs);
    EnsureIsSafe(s, [], inputs, checkpoint);
    SafePut(Committed(g, e.status), [], checkpoint);
    EnsureIsSafe(s, [PutStatus(Committed(g, e.status))], inputs, checkpoint);
    MarkFailedIsSafe(g, e.status, FailedProviderStatus, "PullRequestCreateFailed", inputs.now, checkpoint);
    EnsureIsSafe(s, MarkFailed(g, e.status, FailedProviderStatus, "PullRequestCreateFailed", inputs.now), inputs, checkpoint);
  }

  lemma SafeNothing(checkpoint: string)
    ensures Safe([], checkpoint)
  {
  }

  lemma AwaitIsSafe(g: nat, spec: Spec, s: Status, inputs: Inputs, checkpoint: string)
    requires Fitting(s, checkpoint) && s.gitCommit != ""
    ensures Safe(Await(g, spec, s, inputs), checkpoint)
  {
    hide Safe;
    var w := Waiting(g, s);
    SafeNothing(checkpoint);
    SyncIsSafe(g, spec, s, inputs, checkpoint);
    SyncIsSafe(g, spec, w, inputs, checkpoint);
    SafePut(w, Sync(g, spec, w, inputs), checkpoint);
  }

  lemma SyncIsSafe(g: nat, spec: Spec, s: Status, inputs: Inputs, checkpoint: string)
    requires Fitting(s, checkpoint) && s.gitCommit != ""
    ensures Safe(Sync(g, spec, s, inputs), checkpoint)
  {
    hide Safe;
    SafeNothing(checkpoint);
    SafePut(s, [], checkpoint);
    SafePut(Done(g, spec, s, inputs.now), [], checkpoint);
    MarkFailedIsSafe(g, s, FailedProviderStatus, "ProviderStatusFailed", inputs.now, checkpoint);
    MarkFailedIsSafe(g, s, FailedProviderStatus, "DeploymentDegraded", inputs.now, checkpoint);
  }

  lemma ReadIsSafe(g: nat, spec: Spec, s: Status, ok: bool, inputs: Inputs, checkpoint: string)
    requires Fitting(s, checkpoint) && s.gitCommit != ""
    ensures Safe(ReadPullRequest(g, spec, s, ok, inputs), checkpoint)
  {
    hide Safe, Await;
    SafeNothing(checkpoint);
    MarkFailedIsSafe(g, s, FailedProviderStatus, "PullRequestStatusFailed", inputs.now, checkpoint);
    if ok && inputs.read.PullRequestIs? {
      var seen := s.(reference := inputs.read.reference, mergeState := inputs.read.mergeState);
      MarkFailedIsSafe(g, seen, FailedProviderStatus, "PullRequestStatusFailed", inputs.now, checkpoint);
      MarkFailedIsSafe(g, seen, FailedApproval, "PullRequestClosed", inputs.now, checkpoint);
      AwaitIsSafe(g, spec, seen, inputs, checkpoint);
      SafePut(seen, Await(g, spec, seen, inputs), checkpoint);
      SafePut(seen, MarkFailed(g, seen, FailedApproval, "PullRequestClosed", inputs.now), checkpoint);
      SafePut(seen, [], checkpoint);
    }
  }

  lemma FollowIsSafe(g: nat, spec: Spec, s: Status, inputs: Inputs, checkpoint: string)
    requires Fitting(s, checkpoint) && s.gitCommit != ""
    ensures Safe(Follow(g, spec, s, inputs), checkpoint)
  {
    hide Safe, Await, ReadPullRequest;
    SafeNothing(checkpoint);
    AwaitIsSafe(g, spec, s, inputs, checkpoint);
    var e := if s.reference == "" then Ensure(s, inputs) else Ensured(true, s, []);
    EnsureIsSafe(s, [], inputs, checkpoint);
    ReadIsSafe(g, spec, e.status, e.ok, inputs, checkpoint);
    var rest := ReadPullRequest(g, spec, e.status, e.ok, inputs);
    EnsureIsSafe(s, rest, inputs, checkpoint);
    assert [] + rest == rest;
  }

  lemma PromoteIsSafe(g: nat, spec: Spec, s: Status, inputs: Inputs, checkpoint: string)
    requires s.gitCommit == "" && !Reported(s.phase)
    ensures Safe(Promote(g, spec, s, inputs), checkpoint)
  {
    hide Record;
    var ready := AlreadyPrepared(g, s);
    var s' := if ready then s else Prepared(g, s, inputs.now);
    var rest := PushAndRecord(g, spec, s', inputs);
    if inputs.git.GitFailed? {
      MarkFailedIsSafe(g, s', GitFailure(inputs.git.operation).0, GitFailure(inputs.git.operation).1, inputs.now, checkpoint);
    } else if inputs.git.commit == "" {
      MarkFailedIsSafe(g, s', FailedGitCommit, "EmptyGitCommit", inputs.now, checkpoint);
    } else {
      var commit := inputs.git.commit;
      RecordIsSafe(g, spec, s'.(gitCommit := commit), true, inputs, commit);
      assert rest[1..] == Record(g, spec, s'.(gitCommit := commit), true, inputs);
    }
    assert ([UpdateImage] + rest)[1..] == rest;
    SafePut(s', [UpdateImage] + rest, checkpoint);
    assert [] + ([UpdateImage] + rest) == [UpdateImage] + rest;
  }

  lemma PlanIsSafe(copy: Release, inputs: Inputs)
    requires Matching(copy)
    ensures Safe(Plan(copy, inputs), copy.checkpoint)
  {
    hide Safe, Promote, Record, Follow;
    var g, spec, s, ck := copy.generation, copy.spec, copy.status, copy.checkpoint;
    var judged := s.(policyAllowed := inputs.policyAllowed);
    var approved := Approved(spec, judged);
    var s' := approved.(gitCommit := KnownCommit(copy));
    SafeNothing(ck);
    if !Terminal(s.phase) {
      MarkFailedIsSafe(g, Approved(spec, s), FailedApproval, "ReleaseRejected", inputs.now, ck);
      MarkFailedIsSafe(g, s, FailedValidation, "BuildRunUnavailable", inputs.now, ck);
      MarkFailedIsSafe(g, s, FailedValidation, "EnvironmentUnavailable", inputs.now, ck);
      SafePut(Awaiting(g, spec, judged), [], ck);
      SafePut(PolicyDenied(g, judged, inputs.policyReason, inputs.now), [], ck);
      MarkFailedIsSafe(g, approved, TimedOut, "DeploymentTimedOut", inputs.now, ck);
      if KnownCommit(copy) == "" {
        PromoteIsSafe(g, spec, approved, inputs, ck);
      } else {
        RecordIsSafe(g, spec, s', s'.reference == "", inputs, ck);
        FollowIsSafe(g, spec, s', inputs, ck);
      }
    }
  }

  // ---- Every interleaving ----

  lemma GoodIsInvariant(s: System, step: Step)
    requires Good(s) && Enabled(s, step)
    ensures Good(Next(s, step)) && Extends(Stored(s).checkpoint, Stored(Next(s, step)).checkpoint)
  {
    hide Plan, Fitting;
    var ck := Stored(s).checkpoint;
    match step
    case Start(w, at, inputs) =>
      PlanIsSafe(s.history[at], inputs);
      SafeStays(Plan(s.history[at], inputs), s.history[at].checkpoint, ck);
    case Send(w) =>
      SendIsGood(s, w);
    case Die(w) =>
    case Edit(generation, spec) =>
      PushedIsGood(s, Stored(s).(generation := generation, spec := spec));
    case WriteStatus(at, status) =>
      assert Fitting(status, ck) by { WrittenFits(s, at, status); }
      PushedIsGood(s, Stored(s).(status := status));
  }

  lemma WrittenFits(s: System, at: nat, status: Status)
    requires Good(s) && Enabled(s, WriteStatus(at, status))
    ensures Fitting(status, Stored(s).checkpoint)
  {
    assert Matching(s.history[at]);
  }

  /** A new stored state that fits, on a checkpoint that only grew. */
  lemma PushedIsGood(s: System, r: Release)
    requires Good(s) && Matching(r) && Extends(Stored(s).checkpoint, r.checkpoint)
    ensures Good(s.(history := s.history + [r]))
  {
    hide Fitting;
    var s' := s.(history := s.history + [r]);
    forall i | 0 <= i < |s'.history| ensures Matching(s'.history[i]) && Extends(s'.history[i].checkpoint, r.checkpoint) {
      if i < |s.history| { assert s'.history[i] == s.history[i]; }
    }
    forall w | w in s.pending ensures Safe(s.pending[w], r.checkpoint) {
      SafeStays(s.pending[w], Stored(s).checkpoint, r.checkpoint);
    }
  }

  lemma SendIsGood(s: System, w: string)
    requires Good(s) && Enabled(s, Send(w))
    ensures Good(Next(s, Send(w))) && Extends(Stored(s).checkpoint, Stored(Next(s, Send(w))).checkpoint)
  {
    var request, rest := s.pending[w][0], s.pending[w][1..];
    if !Refused(Stored(s), request) {
      var r := Execute(Stored(s), request);
      assert Matching(Stored(s));
      assert Safe(rest, r.checkpoint);
      var others := s.(pending := s.pending - {w});
      PushedIsGood(others, r);
      forall v | v in s.pending ensures Safe(if v == w then rest else s.pending[v], r.checkpoint) {
        if v != w { assert v in others.pending && others.pending[v] == s.pending[v]; }
      }
    }
  }

  /** Before any reconcile: one state, without a commit. */
  predicate Init(s: System) {
    |s.history| == 1 && s.pending == map[] && s.history[0].checkpoint == "" && s.history[0].status.gitCommit == ""
    && !Reported(s.history[0].status.phase)
  }

  lemma {:induction false} GoodThroughout(s: System, steps: seq<Step>)
    requires Good(s) && IsRun(s, steps)
    ensures Good(After(s, steps)) && Extends(Stored(s).checkpoint, Stored(After(s, steps)).checkpoint)
    decreases |steps|
  {
    hide Good;
    if steps == [] {
    } else {
      GoodIsInvariant(s, steps[0]);
      GoodHistory(Next(s, steps[0]));
      GoodThroughout(Next(s, steps[0]), steps[1..]);
      GoodHistory(After(s, steps));
    }
  }

  lemma GoodHistory(s: System)
    requires Good(s)
    ensures s.history != []
  {
  }

  /**
   In every interleaving of reconciles on stale copies, crashes, refusals and API writes: a checkpoint once written stays,
   the status's commit is empty or the checkpoint, and no success is reported without one.
   */
  lemma CheckpointIsWrittenOnce(s: System, steps: seq<Step>, more: seq<Step>)
    requires Init(s) && IsRun(s, steps) && IsRun(After(s, steps), more)
    ensures After(s, steps).history != [] && After(After(s, steps), more).history != []
    ensures var earlier, later := Stored(After(s, steps)), Stored(After(After(s, steps), more));
      && (earlier.checkpoint != "" ==> later.checkpoint == earlier.checkpoint)
      && (later.status.gitCommit != "" ==> later.status.gitCommit == later.checkpoint)
      && (Reported(later.status.phase) ==> later.status.gitCommit != "")
  {
    GoodThroughout(s, steps);
    GoodThroughout(After(s, steps), more);
    var last := After(After(s, steps), more);
    assert Matching(last.history[|last.history| - 1]);
  }

  /** A checkpoint write decides a race: it goes on with its own commit, or ends before it says anything of another one. */
  lemma TheCheckpointDecides(s: System, w: string, commit: string)
    requires Enabled(s, Send(w)) && s.pending[w][0] == PutCheckpoint(commit)
    ensures var s' := Next(s, Send(w));
      if Stored(s).checkpoint == "" || Stored(s).checkpoint == commit then
        && s'.history == s.history + [Stored(s).(checkpoint := commit)] && s'.pending == s.pending[w := s.pending[w][1..]]
      else s'.history == s.history && w !in s'.pending
  {
  }
}
