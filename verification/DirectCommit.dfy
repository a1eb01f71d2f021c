/** A direct-commit Release against its GitOps repository. */
module DirectCommit {
  import opened Wrappers
  import opened ImageRef
  import opened ImageUpdate
  import opened ReleasePlan
  import opened ReleaseRuns
  import opened YamlTree

  /*
   UpdateImage (internal/gitops/provider.go) clones the head, edits it, commits if the edit reports a change, and pushes; a
   commit of nothing new is no error and leaves the head where it is. The controller may crash between the push and the
   checkpoint.
   */

  /** What the release asks for; fixed for its lifetime. */
  datatype Target = Target(strategy: Strategy, image: Image, approval: bool)

  /** The stored Release, every commit of the branch with its content, the head, and this release's pushes so far. */
  datatype World = World(release: Release, trees: map<string, Content>, head: string, pushes: nat)

  datatype Event =
    | Reconciled(inputs: Inputs, cut: nat, pushed: bool, commit: string)
    | Acted(step: Step)
    | OtherPush(commit: string, content: Content)

  /** Whether the update ran before the crash. */
  predicate Ran(w: World, inputs: Inputs, cut: nat)
    requires cut <= |Plan(w.release, inputs)|
  {
    UpdateImage in Plan(w.release, inputs)[..cut]
  }

  ghost predicate FreshCommit(w: World, commit: string) {
    commit != "" && commit !in w.trees
  }

  /** The update changes the content of the head. */
  ghost predicate ChangesHead(t: Target, w: World)
    requires t.image.repository != "" && w.head in w.trees
  {
    var update := UpdateFiles(t.strategy, w.trees[w.head], t.image);
    update.Ok? && update.value.0 != w.trees[w.head]
  }

  /**
   What UpdateImage may reply: a new, pushed commit when the content changed; the head when it did not, whether or not the
   edits reported a change; or a failure, where even a push that reports one may have reached the remote.
   */
  ghost predicate Replies(t: Target, w: World, git: GitReply, pushed: bool, commit: string)
    requires t.image.repository != "" && w.head in w.trees
  {
    && (pushed ==> ChangesHead(t, w) && FreshCommit(w, commit))
    && match git
       case GitFailed(operation) => pushed ==> operation.Push?
       case GitDone(reported) =>
         && UpdateFiles(t.strategy, w.trees[w.head], t.image).Ok?
         && pushed == ChangesHead(t, w) && reported == if pushed then commit else w.head
  }

  /** Other writers push what they like. */
  ghost predicate Allowed(t: Target, w: World, e: Event)
    requires t.image.repository != ""
  {
    w.head in w.trees &&
    match e
    case Reconciled(inputs, cut, pushed, commit) =>
      && Enabled(w.release, Reconcile(inputs, cut), t.approval)
      && (if Ran(w, inputs, cut) then Replies(t, w, inputs.git, pushed, commit) else !pushed)
    case Acted(step) => !step.Reconcile? && Enabled(w.release, step, t.approval)
    case OtherPush(commit, content) => FreshCommit(w, commit) && WellFormed(content)
  }

  ghost function NextWorld(t: Target, w: World, e: Event): World
    requires t.image.repository != "" && Allowed(t, w, e)
  {
    match e
    case Reconciled(inputs, cut, pushed, commit) =>
      var release := Next(w.release, Reconcile(inputs, cut));
      if pushed then
        var content := UpdateFiles(t.strategy, w.trees[w.head], t.image).value.0;
        World(release, w.trees[commit := content], commit, w.pushes + 1)
      else w.(release := release)
    case Acted(step) => w.(release := Next(w.release, step))
    case OtherPush(commit, content) => w.(trees := w.trees[commit := content], head := commit)
  }

  ghost predicate IsHistory(t: Target, w: World, events: seq<Event>)
    requires t.image.repository != ""
    decreases |events|
  {
    events == [] || (Allowed(t, w, events[0]) && IsHistory(t, NextWorld(t, w, events[0]), events[1..]))
  }

  ghost function Finally(t: Target, w: World, events: seq<Event>): World
    requires t.image.repository != "" && IsHistory(t, w, events)
    decreases |events|
  {
    if events == [] then w else Finally(t, NextWorld(t, w, events[0]), events[1..])
  }

  /** The release has pushed, but its commit is not recorded yet, so that a later reconcile updates again. */
  predicate Exposed(w: World) {
    w.pushes > 0 && w.release.checkpoint == ""
  }

  /** While the release is exposed, others leave what its update is about as it reads, or, when strict, change no content. */
  ghost predicate Spares(t: Target, w: World, e: Event, strict: bool)
    requires w.head in w.trees
  {
    e.OtherPush? && Exposed(w) ==>
      if strict then e.content == w.trees[w.head] else Undisturbed(t.strategy, w.trees[w.head], e.content, t.image)
  }

  ghost predicate Considerate(t: Target, w: World, events: seq<Event>, strict: bool)
    requires t.image.repository != "" && IsHistory(t, w, events)
    decreases |events|
  {
    events == [] || (Spares(t, w, events[0], strict) && Considerate(t, NextWorld(t, w, events[0]), events[1..], strict))
  }

  ghost predicate Start(w: World) {
    && Created(w.release) && w.release.spec.mode.DirectCommit? && w.pushes == 0
    && w.head in w.trees && w.head != "" && forall c :: c in w.trees ==> WellFormed(w.trees[c])
  }

  // ---- The invariant ----

  /** The commit's content is what one run of the release's update makes of some content. */
  ghost predicate Updated(t: Target, w: World, commit: string)
    requires t.image.repository != ""
  {
    commit in w.trees &&
    exists before :: WellFormed(before) && Makes(t, before, w.trees[commit])
  }

  ghost predicate Makes(t: Target, before: Content, after: Content)
    requires t.image.repository != ""
  {
    var update := UpdateFiles(t.strategy, before, t.image);
    update.Ok? && update.value.0 == after
  }

  ghost predicate Consistent(t: Target, w: World)
    requires t.image.repository != ""
  {
    && Good(w.release, t.approval)
    && w.head in w.trees && w.head != "" && (forall c :: c in w.trees ==> WellFormed(w.trees[c]))
    && (w.release.checkpoint != "" ==> Updated(t, w, w.release.checkpoint))
  }

  /** One run of the update made the content, but for what others changed since; restless updates suffer no change. */
  ghost predicate LikeUpdated(t: Target, content: Content)
    requires t.image.repository != ""
  {
    exists before, once :: WellFormed(before) && Makes(t, before, once) && Leaves(t, once, content)
  }

  ghost predicate Leaves(t: Target, once: Content, content: Content) {
    if Restless(t.strategy, t.image) then content == once else Undisturbed(t.strategy, once, content, t.image)
  }

  ghost predicate PushedOnce(t: Target, w: World)
    requires t.image.repository != "" && w.head in w.trees
  {
    w.pushes <= 1 && (Exposed(w) ==> LikeUpdated(t, w.trees[w.head]))
  }

  // ---- Where checkpoints come from ----

  predicate OnlyStatus(requests: seq<Request>) {
    forall i :: 0 <= i < |requests| ==> requests[i].PutStatus?
  }

  /** Every checkpoint write comes after the update, which reported that very commit. */
  predicate Vouched(requests: seq<Request>, ran: bool, git: GitReply)
    decreases |requests|
  {
    requests == [] ||
    match requests[0]
    case PutStatus(_) => Vouched(requests[1..], ran, git)
    case UpdateImage => Vouched(requests[1..], true, git)
    case PutCheckpoint(commit) => ran && git == GitDone(commit) && Vouched(requests[1..], ran, git)
  }

  lemma {:induction false} OnlyStatusIsVouched(requests: seq<Request>, ran: bool, git: GitReply)
    requires OnlyStatus(requests)
    ensures Vouched(requests, ran, git)
    decreases |requests|
  {
    if requests == [] {
    } else {
      OnlyStatusIsVouched(requests[1..], ran, git);
    }
  }

  lemma FollowIsOnlyStatus(g: nat, spec: Spec, s: Status, inputs: Inputs)
    ensures OnlyStatus(Follow(g, spec, s, inputs))
  {
    var e := if s.reference == "" then Ensure(s, inputs) else Ensured(true, s, []);
    assert OnlyStatus(e.requests);
    AwaitIsOnlyStatus(g, spec, s, inputs);
    if e.ok && inputs.read.PullRequestIs? {
      AwaitIsOnlyStatus(g, spec, e.status.(reference := inputs.read.reference, mergeState := inputs.read.mergeState), inputs);
    }
    assert OnlyStatus(ReadPullRequest(g, spec, e.status, e.ok, inputs)) by { hide Await; }
  }

  lemma AwaitIsOnlyStatus(g: nat, spec: Spec, s: Status, inputs: Inputs)
    ensures OnlyStatus(Await(g, spec, s, inputs))
  {
    assert OnlyStatus(Sync(g, spec, s, inputs)) && OnlyStatus(Sync(g, spec, Waiting(g, s), inputs));
  }

  lemma RecordIsOnlyStatus(g: nat, spec: Spec, s: Status, needed: bool, inputs: Inputs)
    ensures OnlyStatus(Record(g, spec, s, needed, inputs))
  {
    assert OnlyStatus(Ensure(s, inputs).requests);
  }

  lemma PromoteIsVouched(g: nat, spec: Spec, s: Status, inputs: Inputs)
    ensures Vouched(Promote(g, spec, s, inputs), false, inputs.git)
  {
    hide Record;
    var ready := AlreadyPrepared(g, s);
    var s' := if ready then s else Prepared(g, s, inputs.now);
    var rest := PushAndRecord(g, spec, s', inputs);
    if inputs.git.GitDone? && inputs.git.commit != "" {
      var recorded := Record(g, spec, s'.(gitCommit := inputs.git.commit), true, inputs);
      RecordIsOnlyStatus(g, spec, s'.(gitCommit := inputs.git.commit), true, inputs);
      OnlyStatusIsVouched(recorded, true, inputs.git);
      assert rest[1..] == recorded;
    } else {
      OnlyStatusIsVouched(rest, true, inputs.git);
    }
    assert Vouched(rest, true, inputs.git);
    var requests := [UpdateImage] + rest;
    assert requests[1..] == rest;
    assert Vouched(requests, false, inputs.git);
    assert ([PutStatus(s')] + requests)[1..] == requests;
    assert [] + requests == requests;
    assert Promote(g, spec, s, inputs) == if ready then requests else [PutStatus(s')] + requests;
  }

  lemma PlanIsVouched(r: Release, inputs: Inputs)
    ensures Vouched(Plan(r, inputs), false, inputs.git)
  {
    hide Promote, Record, Follow;
    var s := Approved(r.spec, r.status.(policyAllowed := inputs.policyAllowed));
    var s' := s.(gitCommit := KnownCommit(r));
    PromoteIsVouched(r.generation, r.spec, s, inputs);
    RecordIsOnlyStatus(r.generation, r.spec, s', s'.reference == "", inputs);
    FollowIsOnlyStatus(r.generation, r.spec, s', inputs);
    if OnlyStatus(Plan(r, inputs)) { OnlyStatusIsVouched(Plan(r, inputs), false, inputs.git); }
  }

  lemma {:induction false} PrefixCheckpoint(r: Release, requests: seq<Request>, cut: nat, ran: bool, git: GitReply)
    requires Vouched(requests, ran, git) && cut <= |requests|
    ensures var r' := ExecuteAll(r, requests[..cut]);
      r'.checkpoint == r.checkpoint || ((ran || UpdateImage in requests[..cut]) && git == GitDone(r'.checkpoint))
    decreases cut
  {
    if cut == 0 {
    } else {
      assert requests[..cut][1..] == requests[1..][..cut - 1];
      assert forall q :: q in requests[1..][..cut - 1] ==> q in requests[..cut];
      PrefixCheckpoint(Execute(r, requests[0]), requests[1..], cut - 1, ran || requests[0].UpdateImage?, git);
    }
  }

  /** Once the commit is recorded, no reconcile runs the update. */
  lemma RecordedPlanIsOnlyStatus(r: Release, inputs: Inputs)
    requires r.checkpoint != ""
    ensures OnlyStatus(Plan(r, inputs))
  {
    hide Promote, Record, Follow;
    var s := Approved(r.spec, r.status.(policyAllowed := inputs.policyAllowed));
    var s' := s.(gitCommit := KnownCommit(r));
    RecordIsOnlyStatus(r.generation, r.spec, s', s'.reference == "", inputs);
    FollowIsOnlyStatus(r.generation, r.spec, s', inputs);
  }

  // ---- Every history ----

  lemma ReconciledIsConsistent(t: Target, w: World, inputs: Inputs, cut: nat, pushed: bool, commit: string)
    requires t.image.repository != ""
    requires Consistent(t, w) && Allowed(t, w, Reconciled(inputs, cut, pushed, commit))
    ensures Consistent(t, NextWorld(t, w, Reconciled(inputs, cut, pushed, commit)))
  {
    hide Plan, UpdateFiles, WellFormed, Good;
    var content := w.trees[w.head];
    var w' := NextWorld(t, w, Reconciled(inputs, cut, pushed, commit));
    StepMovesForward(w.release, Reconcile(inputs, cut), t.approval);
    PlanIsVouched(w.release, inputs);
    PrefixCheckpoint(w.release, Plan(w.release, inputs), cut, false, inputs.git);
    if pushed {
      UpdateKeepsWellFormed(t.strategy, content, t.image);
      assert Makes(t, content, w'.trees[commit]);
    } else if UpdateFiles(t.strategy, content, t.image).Ok? && !ChangesHead(t, w) {
      assert Makes(t, content, content);
    }
  }

  lemma EventIsConsistent(t: Target, w: World, e: Event)
    requires t.image.repository != ""
    requires Consistent(t, w) && Allowed(t, w, e)
    ensures Consistent(t, NextWorld(t, w, e))
  {
    hide UpdateFiles, WellFormed, Good;
    match e
    case Reconciled(inputs, cut, pushed, commit) => ReconciledIsConsistent(t, w, inputs, cut, pushed, commit);
    case Acted(step) => StepMovesForward(w.release, step, t.approval);
    case OtherPush(commit, content) =>
  }

  lemma {:induction false} HistoryIsConsistent(t: Target, w: World, events: seq<Event>)
    requires t.image.repository != ""
    requires Consistent(t, w) && IsHistory(t, w, events)
    ensures Consistent(t, Finally(t, w, events))
    decreases |events|
  {
    hide Consistent, NextWorld;
    if events == [] {
    } else {
      EventIsConsistent(t, w, events[0]);
      HistoryIsConsistent(t, NextWorld(t, w, events[0]), events[1..]);
    }
  }

  /** A content that is like an updated one is not changed by the update. */
  lemma LikeUpdatedStays(t: Target, content: Content)
    requires t.image.repository != "" && WellFormed(content) && LikeUpdated(t, content)
    ensures Final(t.strategy, content, t.image)
  {
    hide UpdateFiles, WellFormed, Restless, Undisturbed;
    var before, once :| WellFormed(before) && Makes(t, before, once) && Leaves(t, once, content);
    if Restless(t.strategy, t.image) {
      UpdateIsFinal(t.strategy, before, t.image);
    } else {
      StaysFinal(t.strategy, before, content, t.image);
    }
  }

  lemma UndisturbedIsReflexive(t: Target, content: Content)
    ensures Undisturbed(t.strategy, content, content, t.image)
  {
  }

  lemma PushIsLikeUpdated(t: Target, before: Content, once: Content)
    requires t.image.repository != "" && WellFormed(before) && Makes(t, before, once)
    ensures LikeUpdated(t, once)
  {
    hide UpdateFiles, WellFormed, Restless, Undisturbed, Makes;
    UndisturbedIsReflexive(t, once);
    assert Leaves(t, once, once);
  }

  lemma OthersKeepItLikeUpdated(t: Target, content: Content, other: Content)
    requires t.image.repository != "" && LikeUpdated(t, content)
    requires if Restless(t.strategy, t.image) then other == content else Undisturbed(t.strategy, content, other, t.image)
    ensures LikeUpdated(t, other)
  {
    hide UpdateFiles, WellFormed, Restless, Undisturbed, Makes;
    var before, once :| WellFormed(before) && Makes(t, before, once) && Leaves(t, once, content);
    if !Restless(t.strategy, t.image) { UndisturbedIsTransitive(t.strategy, once, content, other, t.image); }
    assert Leaves(t, once, other);
  }

  lemma ReconciledPushesOnce(t: Target, w: World, inputs: Inputs, cut: nat, pushed: bool, commit: string)
    requires t.image.repository != "" && Consistent(t, w) && PushedOnce(t, w)
    requires Allowed(t, w, Reconciled(inputs, cut, pushed, commit))
    ensures var w' := NextWorld(t, w, Reconciled(inputs, cut, pushed, commit)); w'.head in w'.trees && PushedOnce(t, w')
  {
    hide Plan, UpdateFiles, WellFormed, Good, LikeUpdated;
    var content := w.trees[w.head];
    StepMovesForward(w.release, Reconcile(inputs, cut), t.approval);
    if pushed {
      if w.release.checkpoint != "" {
        RecordedPlanIsOnlyStatus(w.release, inputs);
        assert false;
      }
      if w.pushes > 0 {
        LikeUpdatedStays(t, content);
        assert false;
      }
      PushIsLikeUpdated(t, content, UpdateFiles(t.strategy, content, t.image).value.0);
    }
  }

  lemma EventPushesOnce(t: Target, w: World, e: Event)
    requires t.image.repository != "" && Consistent(t, w) && PushedOnce(t, w) && Allowed(t, w, e)
    requires Spares(t, w, e, Restless(t.strategy, t.image))
    ensures var w' := NextWorld(t, w, e); w'.head in w'.trees && PushedOnce(t, w')
  {
    hide Plan, UpdateFiles, WellFormed, Good, LikeUpdated, Undisturbed, Restless;
    match e
    case Reconciled(inputs, cut, pushed, commit) => ReconciledPushesOnce(t, w, inputs, cut, pushed, commit);
    case Acted(step) => StepMovesForward(w.release, step, t.approval);
    case OtherPush(commit, content) =>
      if Exposed(w) { OthersKeepItLikeUpdated(t, w.trees[w.head], content); }
  }

  lemma {:induction false} HistoryPushesOnce(t: Target, w: World, events: seq<Event>)
    requires t.image.repository != "" && Consistent(t, w) && PushedOnce(t, w)
    requires IsHistory(t, w, events) && Considerate(t, w, events, Restless(t.strategy, t.image))
    ensures Finally(t, w, events).pushes <= 1
    decreases |events|
  {
    hide Consistent, NextWorld, Undisturbed, Restless, LikeUpdated;
    if events == [] {
    } else {
      EventIsConsistent(t, w, events[0]);
      EventPushesOnce(t, w, events[0]);
      HistoryPushesOnce(t, NextWorld(t, w, events[0]), events[1..]);
    }
  }

  /**
   However often the controller crashes between push and checkpoint, the release pushes at most one change of content, if
   others leave what its update is about as it reads until the commit is recorded; if the update is restless, if they
   change no content until then.
   */
  lemma EffectivelyOnce(t: Target, w: World, events: seq<Event>)
    requires t.image.repository != "" && Start(w) && IsHistory(t, w, events)
    requires Considerate(t, w, events, Restless(t.strategy, t.image))
    ensures Finally(t, w, events).pushes <= 1
  {
    HistoryPushesOnce(t, w, events);
  }

  /**
   The commit a checkpoint records is one that the release's update made, whatever others pushed. Updating it once more
   reports nothing exactly if the update settles on it, and it carries the release's image exactly if the image shows.
   */
  lemma RecordedCommitIsUpdated(t: Target, w: World, events: seq<Event>)
    requires t.image.repository != "" && Start(w) && IsHistory(t, w, events)
    ensures var last := Finally(t, w, events);
      var commit := last.release.checkpoint;
      && (Succeeded(last.release.status.phase) ==> commit != "" && last.release.status.gitCommit == commit)
      && (commit != "" ==>
        && commit in last.trees
        && Final(t.strategy, last.trees[commit], t.image)
        && (UpToDate(t.strategy, last.trees[commit], t.image) <==> Settles(t.strategy, last.trees[commit], t.image))
        && (Carries(t.strategy, last.trees[commit], t.image) <==> Shows(t.strategy, last.trees[commit], t.image)))
  {
    hide UpdateFiles, Settles, WellFormed, Carries, Shows;
    HistoryIsConsistent(t, w, events);
    var last := Finally(t, w, events);
    var commit := last.release.checkpoint;
    if commit != "" {
      var before :| WellFormed(before) && Makes(t, before, last.trees[commit]);
      UpdateIsFinal(t.strategy, before, t.image);
      UpToDateIff(t.strategy, before, t.image);
      CarriesIff(t.strategy, before, t.image);
    }
  }

  /** What a reconcile of a release needs to reach the repository, at time zero, with the given reply. */
  function Reaching(t: Target, git: GitReply): Inputs {
    Inputs(true, true, t.approval, true, "", 0, git, PullRequestUnavailable, false,
           PullRequestUnavailable, false, true, Healthy, false)
  }

  /**
   One push is not always followed by success: where the update changes the head but fails on its own result, a crash after
   the push leaves a release whose retry fails, its change pushed and no commit recorded.
   */
  lemma CrashBeforeTheCheckpointFails(t: Target, w: World, commit: string) returns (events: seq<Event>)
    requires t.image.repository != "" && Start(w) && FreshCommit(w, commit)
    requires w.release.spec.rejectedBy == "" && ApprovalGiven(w.release.spec, t.approval, w.release.spec.approvedBy)
    requires ChangesHead(t, w)
    requires UpdateFiles(t.strategy, UpdateFiles(t.strategy, w.trees[w.head], t.image).value.0, t.image).Err?
    ensures IsHistory(t, w, events)
    ensures var last := Finally(t, w, events);
      last.pushes == 1 && last.release.status.phase.FailedGitCommit? && last.release.checkpoint == ""
  {
    hide UpdateFiles, WellFormed;
    var r := w.release;
    var a, b := Reaching(t, GitDone(commit)), Reaching(t, GitFailed(Operation.Update));
    var p := Prepared(r.generation, Approved(r.spec, r.status.(policyAllowed := true)), 0);
    CutAfterUpdate(t, r, commit);
    var e0 := Reconciled(a, 2, true, commit);
    var w1 := NextWorld(t, w, e0);
    assert w1.release == r.(status := p);
    RetryFails(t, w1.release);
    var e1 := Reconciled(b, 2, false, "");
    assert w1.trees[w1.head] == UpdateFiles(t.strategy, w.trees[w.head], t.image).value.0;
    assert Allowed(t, w1, e1);
    events := [e0, e1];
    assert events[1..] == [e1] && [e1][1..] == [];
    var w2 := NextWorld(t, w1, e1);
    assert IsHistory(t, w2, []) && IsHistory(t, w1, [e1]);
    assert Finally(t, w2, []) == w2 && Finally(t, w1, [e1]) == w2;
  }

  lemma CutAfterUpdate(t: Target, r: Release, commit: string)
    requires Created(r) && r.spec.mode.DirectCommit? && r.spec.rejectedBy == ""
    requires ApprovalGiven(r.spec, t.approval, r.spec.approvedBy)
    ensures var inputs := Reaching(t, GitDone(commit));
      var p := Prepared(r.generation, Approved(r.spec, r.status.(policyAllowed := true)), 0);
      && |Plan(r, inputs)| >= 2 && Plan(r, inputs)[..2] == [PutStatus(p), UpdateImage]
      && ExecuteAll(r, Plan(r, inputs)[..2]) == r.(status := p)
  {
    var inputs := Reaching(t, GitDone(commit));
    var s := Approved(r.spec, r.status.(policyAllowed := true));
    var p := Prepared(r.generation, s, 0);
    assert Plan(r, inputs) == Promote(r.generation, r.spec, s, inputs);
    assert [PutStatus(p), UpdateImage][1..] == [UpdateImage];
    FirstRequest(r, [PutStatus(p), UpdateImage]);
    OneRequest(r.(status := p), UpdateImage);
  }

  lemma RetryFails(t: Target, r: Release)
    requires r.spec.mode.DirectCommit? && r.spec.rejectedBy == "" && ApprovalGiven(r.spec, t.approval, r.spec.approvedBy)
    requires r.status.startedAt == Some(0) && r.checkpoint == "" && r.status.gitCommit == ""
    requires AlreadyPrepared(r.generation, r.status)
    ensures var inputs := Reaching(t, GitFailed(Operation.Update));
      && |Plan(r, inputs)| == 2 && UpdateImage in Plan(r, inputs)[..2]
      && ExecuteAll(r, Plan(r, inputs)[..2]).status.phase.FailedGitCommit?
      && ExecuteAll(r, Plan(r, inputs)[..2]).checkpoint == ""
  {
    var inputs := Reaching(t, GitFailed(Operation.Update));
    var s := Approved(r.spec, r.status.(policyAllowed := true));
    var failed := Failed(r.generation, s, FailedGitCommit, "GitOpsUpdateFailed", 0);
    assert Plan(r, inputs) == Promote(r.generation, r.spec, s, inputs);
    assert Plan(r, inputs) == [UpdateImage, PutStatus(failed)];
    assert [UpdateImage, PutStatus(failed)][..2] == [UpdateImage, PutStatus(failed)];
    assert [UpdateImage, PutStatus(failed)][1..] == [PutStatus(failed)];
    FirstRequest(r, [UpdateImage, PutStatus(failed)]);
    OneRequest(r, PutStatus(failed));
  }

  lemma UpdatesAgain(t: Target, r: Release, commit: string)
    requires r.spec.mode.DirectCommit? && r.spec.rejectedBy == "" && ApprovalGiven(r.spec, t.approval, r.spec.approvedBy)
    requires r.status.startedAt == Some(0) && r.checkpoint == "" && r.status.gitCommit == ""
    requires AlreadyPrepared(r.generation, r.status)
    ensures var inputs := Reaching(t, GitDone(commit));
      |Plan(r, inputs)| >= 1 && Plan(r, inputs)[..1] == [UpdateImage] && ExecuteAll(r, Plan(r, inputs)[..1]) == r
  {
    var inputs := Reaching(t, GitDone(commit));
    var s := Approved(r.spec, r.status.(policyAllowed := true));
    assert Plan(r, inputs) == Promote(r.generation, r.spec, s, inputs);
    OneRequest(r, UpdateImage);
  }

  // ---- Two pushes ----

  /** A release nobody has reconciled yet, approved from the start, and a branch of one commit. */
  function NewWorld(content: Content): World {
    var spec := Spec(false, "someone", "", Mode.DirectCommit, "", 0);
    var status := Status(NoPhase, 0, None, None, "", "", "", false, "", Unmerged, "", None, None, "");
    World(Release(1, spec, status, ""), map["first" := content], "first", 0)
  }

  /**
   Where another run of the update would change a content again, although it reads as the first run left it: two crashes
   and a considerate push between them make two pushes.
   */
  lemma PushedTwice(t: Target, content: Content) returns (events: seq<Event>)
    requires t.image.repository != "" && WellFormed(content) && UpdateFiles(t.strategy, content, t.image).Ok?
    requires UpdateFiles(t.strategy, content, t.image).value.0 != content
    requires WellFormed(UpdateFiles(t.strategy, content, t.image).value.0)
    requires Undisturbed(t.strategy, UpdateFiles(t.strategy, content, t.image).value.0, content, t.image)
    ensures var w := NewWorld(content);
      && Start(w) && IsHistory(t, w, events) && Considerate(t, w, events, false) && Finally(t, w, events).pushes == 2
  {
    hide UpdateFiles, WellFormed, Undisturbed;
    var w := NewWorld(content);
    var once := UpdateFiles(t.strategy, content, t.image).value.0;
    var r, a, b := w.release, Reaching(t, GitDone("second")), Reaching(t, GitDone("fourth"));
    NamesDiffer();
    CutAfterUpdate(t, r, "second");
    var e0, e1, e2 := Reconciled(a, 2, true, "second"), OtherPush("third", content), Reconciled(b, 1, true, "fourth");
    assert Allowed(t, w, e0);
    var w1 := NextWorld(t, w, e0);
    assert w1.trees[w1.head] == once && w1.pushes == 1 && w1.release.checkpoint == "";
    assert Allowed(t, w1, e1);
    var w2 := NextWorld(t, w1, e1);
    UpdatesAgain(t, w2.release, "fourth");
    assert Allowed(t, w2, e2);
    var w3 := NextWorld(t, w2, e2);
    events := [e0, e1, e2];
    ThreeEvents(t, w, e0, e1, e2);
  }

  lemma NamesDiffer()
    ensures "first" != "second" && "first" != "third" && "first" != "fourth"
    ensures "second" != "third" && "second" != "fourth" && "third" != "fourth"
  {
    assert "first"[0] != "third"[0];
    assert "second"[0] != "fourth"[0];
  }

  lemma ThreeEvents(t: Target, w: World, e0: Event, e1: Event, e2: Event)
    requires t.image.repository != "" && Allowed(t, w, e0) && Allowed(t, NextWorld(t, w, e0), e1)
    requires Allowed(t, NextWorld(t, NextWorld(t, w, e0), e1), e2)
    ensures IsHistory(t, w, [e0, e1, e2])
    ensures Finally(t, w, [e0, e1, e2]) == NextWorld(t, NextWorld(t, NextWorld(t, w, e0), e1), e2)
    ensures Considerate(t, w, [e0, e1, e2], false) <==>
      && Spares(t, w, e0, false) && Spares(t, NextWorld(t, w, e0), e1, false)
      && Spares(t, NextWorld(t, NextWorld(t, w, e0), e1), e2, false)
  {
    var w1 := NextWorld(t, w, e0);
    var w2 := NextWorld(t, w1, e1);
    assert w.head in w.trees && w1.head in w1.trees && w2.head in w2.trees;
    hide Allowed, NextWorld, Spares;
    var w3 := NextWorld(t, w2, e2);
    assert [e0, e1, e2][1..] == [e1, e2] && [e1, e2][1..] == [e2] && [e2][1..] == [];
    assert IsHistory(t, w3, []) && Finally(t, w3, []) == w3 && Considerate(t, w3, [], false);
    assert IsHistory(t, w2, [e2]) && Finally(t, w2, [e2]) == w3;
    assert IsHistory(t, w1, [e1, e2]) && Finally(t, w1, [e1, e2]) == w3;
    assert Considerate(t, w2, [e2], false) <==> Spares(t, w2, e2, false);
    assert Considerate(t, w1, [e1, e2], false) <==> Spares(t, w1, e1, false) && Considerate(t, w2, [e2], false);
  }

  // ---- Two configurations that fall short ----

  /** A digest configured below a tag that is empty: there is a file for which a considerate push makes a second one. */
  lemma DigestBelowTheTagIsPushedTwice(approval: bool) returns (content: Content, events: seq<Event>)
    ensures var config := Helm.Config("image.repository", "image", "image.digest");
      var t := Target(HelmValuesStrategy(config), Image("app", "", "d"), approval);
      var w := NewWorld(content);
      && Start(w) && IsHistory(t, w, events) && Considerate(t, w, events, false) && Finally(t, w, events).pushes == 2
  {
    hide UpdateFiles, WellFormed, Undisturbed, Start, IsHistory, Considerate, Finally;
    hide Helm.FieldsOf, HelmBesideOthers.RestlessFields;
    var config := Helm.Config("image.repository", "image", "image.digest");
    var t := Target(HelmValuesStrategy(config), Image("app", "", "d"), approval);
    HelmBesideOthers.DigestBelowTheTag();
    assert Restless(t.strategy, t.image);
    content := RestlessMoves(t.strategy, t.image);
    events := PushedTwice(t, content);
  }

  /** A digest configured above a tag that is empty: a crash before the checkpoint leaves the release failed. */
  lemma DigestAboveTheTagFailsAfterThePush() returns (events: seq<Event>)
    ensures var config := Helm.Config("r", "image.tag", "image");
      var t := Target(HelmValuesStrategy(config), Image("app", "", "sha256:0"), false);
      var w := NewWorld(HelmValues(EMPTY_MAP));
      && Start(w) && IsHistory(t, w, events)
      && var last := Finally(t, w, events);
      last.pushes == 1 && last.release.status.phase.FailedGitCommit? && last.release.checkpoint == ""
  {
    hide IsHistory, Finally, Helm.UpdateHelm;
    var config := Helm.Config("r", "image.tag", "image");
    var t := Target(HelmValuesStrategy(config), Image("app", "", "sha256:0"), false);
    var w := NewWorld(HelmValues(EMPTY_MAP));
    HelmBesideOthers.DigestAboveTheTag();
    assert "first" != "second" by { assert |"first"| != |"second"|; }
    events := CrashBeforeTheCheckpointFails(t, w, "second");
  }

  /** Every history in which others are considerate has at most one push. */
  ghost predicate AtMostOnce(t: Target)
    requires t.image.repository != ""
  {
    forall w, events :: Start(w) && IsHistory(t, w, events) && Considerate(t, w, events, false) ==>
      Finally(t, w, events).pushes <= 1
  }

  /** That is so exactly if the update is not restless, which the fields and the image tell. */
  lemma AtMostOnceIff(t: Target)
    requires t.image.repository != ""
    ensures AtMostOnce(t) <==> !Restless(t.strategy, t.image)
  {
    hide Start, UpdateFiles, WellFormed, Undisturbed, Restless, Considerate, IsHistory, Finally, NewWorld;
    if Restless(t.strategy, t.image) {
      var content := RestlessMoves(t.strategy, t.image);
      var events := PushedTwice(t, content);
      assert Finally(t, NewWorld(content), events).pushes == 2;
    } else {
      forall w, events | Start(w) && IsHistory(t, w, events) && Considerate(t, w, events, false)
        ensures Finally(t, w, events).pushes <= 1
      {
        EffectivelyOnce(t, w, events);
      }
    }
  }
}
