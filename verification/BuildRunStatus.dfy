/** The BuildRun phase machine: MarkBuildRunStarted, MarkBuildRunSucceeded and MarkBuildRunFailed (internal/domain/status.go). */
module BuildRunStatus {
  import opened Wrappers
  import opened BuildRunPhase
  import opened Conditions
  import opened ImageRef

  datatype Failure = Failure(reason: string, message: string)

  const NO_FAILURE := Failure("", "")

  datatype Status = Status(
    phase: Phase,
    observedGeneration: int,
    startedAt: Option<int>,
    completedAt: Option<int>,
    image: Option<Image>,
    failure: Failure,
    conditions: seq<Condition>)

  function Rank(phase: Phase): nat {
    match phase
    case Unset => 0
    case Pending => 1
    case Queued => 2
    case Running => 3
    case _ => 4
  }

  /** A phase may stay, or rise in rank; only a BuildRun that nobody has touched cannot be cancelled. */
  predicate Permitted(from: Phase, to: Phase) {
    from == to || (Rank(from) < Rank(to) && !(from.Unset? && to.Cancelled?))
  }

  /** The table of ValidateBuildRunPhaseTransition. */
  function AllowedNext(from: Phase): seq<Phase> {
    match from
    case Unset => [Pending, Queued, Running, Succeeded, Failed]
    case Pending => [Queued, Running, Succeeded, Cancelled, Failed]
    case Queued => [Running, Succeeded, Cancelled, Failed]
    case Running => [Succeeded, Failed, Cancelled]
    case _ => []
  }

  datatype Mark =
    | Started(now: int)
    | MarkSucceeded(now: int, image: Image)
    | MarkFailed(now: int, failure: Failure)

  function Target(mark: Mark): Phase {
    match mark
    case Started(_) => Running
    case MarkSucceeded(_, _) => Succeeded
    case MarkFailed(_, _) => Failed
  }

  function RunningCondition(generation: int, now: int): Condition {
    Condition("Running", IsTrue, generation, "BuildRunStarted", "BuildRun execution has started.", Some(now))
  }

  function CompletedCondition(generation: int, now: int): Condition {
    Condition("Running", IsFalse, generation, "BuildRunCompleted", "BuildRun is no longer running.", Some(now))
  }

  function SucceededCondition(generation: int, now: int): Condition {
    Condition("Succeeded", IsTrue, generation, "BuildRunSucceeded", "BuildRun completed successfully.", Some(now))
  }

  function FailedCondition(generation: int, now: int, failure: Failure): Condition {
    Condition("Failed", IsTrue, generation, failure.reason, failure.message, Some(now))
  }

  /** The status an accepted mark leaves. */
  function Marked(s: Status, generation: int, mark: Mark): Status {
    match mark
    case Started(now) =>
      s.(phase := Running, observedGeneration := generation,
         startedAt := if s.startedAt.None? then Some(now) else s.startedAt,
         conditions := Set(s.conditions, RunningCondition(generation, now)))
    case MarkSucceeded(now, image) =>
      s.(phase := Succeeded, observedGeneration := generation, completedAt := Some(now), image := Some(image),
         failure := NO_FAILURE,
         conditions := Set(Set(s.conditions, SucceededCondition(generation, now)), CompletedCondition(generation, now)))
    case MarkFailed(now, failure) =>
      s.(phase := Failed, observedGeneration := generation, completedAt := Some(now), failure := failure,
         conditions := Set(Set(s.conditions, FailedCondition(generation, now, failure)), CompletedCondition(generation, now)))
  }

  /** A rejected mark changes nothing. */
  function Applied(s: Status, generation: int, mark: Mark): Status {
    if Permitted(s.phase, Target(mark)) then Marked(s, generation, mark) else s
  }

  class BuildRun {
    const generation: int
    var phase: Phase
    var observedGeneration: int
    var startedAt: Option<int>
    var completedAt: Option<int>
    var image: Option<Image>
    var failure: Failure
    const conditions: ConditionList

    constructor (generation: int, conditions: ConditionList)
      ensures this.generation == generation && this.conditions == conditions
      ensures Current() == Status(Unset, 0, None, None, None, NO_FAILURE, conditions.items)
    {
      this.generation, this.conditions := generation, conditions;
      phase, observedGeneration, startedAt, completedAt, image, failure := Unset, 0, None, None, None, NO_FAILURE;
    }

    ghost function Current(): Status
      reads this, conditions
    {
      Status(phase, observedGeneration, startedAt, completedAt, image, failure, conditions.items)
    }

    /** The table of allowed transitions lets through exactly the permitted ones. */
    method ValidatePhaseTransition(to: Phase) returns (ok: bool)
      ensures ok <==> Permitted(phase, to)
    {
      if phase == to {
        return true;
      }
      var allowed := AllowedNext(phase);
      for i := 0 to |allowed|
        invariant to !in allowed[..i]
      {
        if allowed[i] == to {
          assert to in allowed;
          return true;
        }
      }
      assert allowed[..|allowed|] == allowed;
      return false;
    }

    method MarkBuildRunStarted(now: int) returns (ok: bool)
      modifies this, conditions
      ensures ok == Permitted(old(phase), Running)
      ensures Current() == Applied(old(Current()), generation, Started(now))
    {
      ok := ValidatePhaseTransition(Running);
      if !ok { return; }
      phase := Running;
      observedGeneration := generation;
      if startedAt.None? {
        startedAt := Some(now);
      }
      conditions.SetCondition(RunningCondition(generation, now), now);
    }

    method MarkBuildRunSucceeded(now: int, built: Image) returns (ok: bool)
      modifies this, conditions
      ensures ok == Permitted(old(phase), Succeeded)
      ensures Current() == Applied(old(Current()), generation, MarkSucceeded(now, built))
    {
      ok := ValidatePhaseTransition(Succeeded);
      if !ok { return; }
      phase := Succeeded;
      observedGeneration := generation;
      completedAt := Some(now);
      image := Some(built);
      failure := NO_FAILURE;
      conditions.SetCondition(SucceededCondition(generation, now), now);
      conditions.SetCondition(CompletedCondition(generation, now), now);
    }

    method MarkBuildRunFailed(now: int, reason: string, message: string) returns (ok: bool)
      modifies this, conditions
      ensures ok == Permitted(old(phase), Failed)
      ensures Current() == Applied(old(Current()), generation, MarkFailed(now, Failure(reason, message)))
    {
      ok := ValidatePhaseTransition(Failed);
      if !ok { return; }
      phase := Failed;
      observedGeneration := generation;
      completedAt := Some(now);
      failure := Failure(reason, message);
      conditions.SetCondition(FailedCondition(generation, now, failure), now);
      conditions.SetCondition(CompletedCondition(generation, now), now);
    }
  }

  // ---- Sequences of marks ----

  function AfterMarks(s: Status, generation: int, marks: seq<Mark>): Status {
    if marks == [] then s
    else Applied(AfterMarks(s, generation, marks[..|marks| - 1]), generation, marks[|marks| - 1])
  }

  /** The statuses of the three conditions that follow the phase. */
  datatype Flags = Flags(running: Option<Truth>, succeeded: Option<Truth>, failed: Option<Truth>)

  function Said(cs: seq<Condition>, kind: string): Option<Truth> {
    var found := Find(cs, kind);
    if found.Some? then Some(found.value.status) else None
  }

  function FlagsOf(cs: seq<Condition>): Flags {
    Flags(Said(cs, "Running"), Said(cs, "Succeeded"), Said(cs, "Failed"))
  }

  lemma SetDecides(cs: seq<Condition>, c: Condition)
    ensures FlagsOf(Set(cs, c)) == Flags(
      if c.kind == "Running" then Some(c.status) else FlagsOf(cs).running,
      if c.kind == "Succeeded" then Some(c.status) else FlagsOf(cs).succeeded,
      if c.kind == "Failed" then Some(c.status) else FlagsOf(cs).failed)
  {
    SetFinds(cs, c, "Running");
    SetFinds(cs, c, "Succeeded");
    SetFinds(cs, c, "Failed");
  }

  lemma MarkDecides(s: Status, generation: int, mark: Mark)
    ensures FlagsOf(Marked(s, generation, mark).conditions) ==
      match mark
      case Started(_) => FlagsOf(s.conditions).(running := Some(IsTrue))
      case MarkSucceeded(_, _) => FlagsOf(s.conditions).(succeeded := Some(IsTrue), running := Some(IsFalse))
      case MarkFailed(_, _) => FlagsOf(s.conditions).(failed := Some(IsTrue), running := Some(IsFalse))
  {
    match mark
    case Started(now) => SetDecides(s.conditions, RunningCondition(generation, now));
    case MarkSucceeded(now, _) =>
      SetDecides(s.conditions, SucceededCondition(generation, now));
      SetDecides(Set(s.conditions, SucceededCondition(generation, now)), CompletedCondition(generation, now));
    case MarkFailed(now, failure) =>
      SetDecides(s.conditions, FailedCondition(generation, now, failure));
      SetDecides(Set(s.conditions, FailedCondition(generation, now, failure)), CompletedCondition(generation, now));
  }

  /** What the conditions and times say agrees with the phase. */
  ghost predicate Agrees(phase: Phase, s: Status, flags: Flags) {
    && (flags.succeeded == Some(IsTrue) <==> phase.Succeeded?)
    && (flags.failed == Some(IsTrue) <==> phase.Failed?)
    && (flags.running == Some(IsTrue) <==> phase.Running?)
    && (IsTerminal(phase) ==> s.completedAt.Some? && flags.running == Some(IsFalse))
    && (phase.Running? ==> s.startedAt.Some?)
    && (phase.Succeeded? ==> s.failure == NO_FAILURE && s.image.Some?)
  }

  ghost predicate Coherent(s: Status) {
    Agrees(s.phase, s, FlagsOf(s.conditions))
  }

  lemma MarkKeepsAgreement(s: Status, generation: int, mark: Mark, flags: Flags)
    requires Agrees(s.phase, s, flags) && Permitted(s.phase, Target(mark))
    ensures Agrees(Target(mark), Marked(s, generation, mark),
      match mark
      case Started(_) => flags.(running := Some(IsTrue))
      case MarkSucceeded(_, _) => flags.(succeeded := Some(IsTrue), running := Some(IsFalse))
      case MarkFailed(_, _) => flags.(failed := Some(IsTrue), running := Some(IsFalse)))
  {
  }

  lemma MarkKeepsCoherent(s: Status, generation: int, mark: Mark)
    requires Coherent(s)
    ensures Coherent(Applied(s, generation, mark))
  {
    if Permitted(s.phase, Target(mark)) {
      MarkKeepsAgreement(s, generation, mark, FlagsOf(s.conditions));
      MarkDecides(s, generation, mark);
    }
  }

  /** Conditions, times, failure and image agree with the phase after any marks, accepted or not. */
  lemma {:induction false} MarksStayCoherent(s: Status, generation: int, marks: seq<Mark>)
    requires Coherent(s)
    ensures Coherent(AfterMarks(s, generation, marks))
    ensures var flags := FlagsOf(AfterMarks(s, generation, marks).conditions);
      !(flags.succeeded == Some(IsTrue) && flags.failed == Some(IsTrue))
  {
    if marks == [] {
    } else {
      MarksStayCoherent(s, generation, marks[..|marks| - 1]);
      MarkKeepsCoherent(AfterMarks(s, generation, marks[..|marks| - 1]), generation, marks[|marks| - 1]);
    }
  }

  /**
   Along any marks the phase rank never drops, a phase changes only by rising in rank, a terminal phase
   never changes, and a start time once set is never rewritten.
   */
  lemma {:induction false} MarksOnlyAdvance(s: Status, generation: int, marks: seq<Mark>, k: nat)
    requires k <= |marks|
    ensures var early, late := AfterMarks(s, generation, marks[..k]), AfterMarks(s, generation, marks);
      && (early.phase == late.phase || Rank(early.phase) < Rank(late.phase))
      && (IsTerminal(early.phase) ==> late.phase == early.phase)
      && (early.startedAt.Some? ==> late.startedAt == early.startedAt)
    decreases |marks|
  {
    if k < |marks| {
      var front := marks[..|marks| - 1];
      MarksOnlyAdvance(s, generation, front, k);
      assert front[..k] == marks[..k];
    } else {
      assert marks[..k] == marks;
    }
  }

  /** A mark touches no condition besides its own two kinds. */
  lemma MarksKeepOtherConditions(s: Status, generation: int, mark: Mark, kind: string)
    requires kind != "Running" && kind != "Succeeded" && kind != "Failed"
    ensures Find(Applied(s, generation, mark).conditions, kind) == Find(s.conditions, kind)
  {
    match mark
    case Started(now) => SetFinds(s.conditions, RunningCondition(generation, now), kind);
    case MarkSucceeded(now, _) =>
      SetFinds(s.conditions, SucceededCondition(generation, now), kind);
      SetFinds(Set(s.conditions, SucceededCondition(generation, now)), CompletedCondition(generation, now), kind);
    case MarkFailed(now, failure) =>
      SetFinds(s.conditions, FailedCondition(generation, now, failure), kind);
      SetFinds(Set(s.conditions, FailedCondition(generation, now, failure)), CompletedCondition(generation, now), kind);
  }

  /** The mark leaves a condition of this contents, dated now unless it had the same status before. */
  predicate Says(before: seq<Condition>, after: seq<Condition>, c: Condition) {
    && Find(after, c.kind).Some?
    && var found := Find(after, c.kind).value;
    && found.(since := None) == c.(since := None)
    && (found.since == c.since ||
        (Find(before, c.kind).Some? && Find(before, c.kind).value.status == c.status
          && found.since == Find(before, c.kind).value.since))
  }

  /** Every field an accepted mark writes, and that it writes no other. */
  lemma MarkLeaves(s: Status, generation: int, mark: Mark)
    ensures var after := Marked(s, generation, mark);
      && after.observedGeneration == generation
      && match mark
         case Started(now) =>
           && after.phase == Running
           && after.startedAt == (if s.startedAt.Some? then s.startedAt else Some(now))
           && after.completedAt == s.completedAt && after.image == s.image && after.failure == s.failure
           && Says(s.conditions, after.conditions,
                Condition("Running", IsTrue, generation, "BuildRunStarted", "BuildRun execution has started.", Some(now)))
         case MarkSucceeded(now, image) =>
           && after.phase == Succeeded && after.startedAt == s.startedAt && after.completedAt == Some(now)
           && after.image == Some(image) && after.failure == Failure("", "")
           && Says(s.conditions, after.conditions,
                Condition("Succeeded", IsTrue, generation, "BuildRunSucceeded", "BuildRun completed successfully.", Some(now)))
           && Says(s.conditions, after.conditions,
                Condition("Running", IsFalse, generation, "BuildRunCompleted", "BuildRun is no longer running.", Some(now)))
         case MarkFailed(now, failure) =>
           && after.phase == Failed && after.startedAt == s.startedAt && after.completedAt == Some(now)
           && after.image == s.image && after.failure == failure
           && Says(s.conditions, after.conditions,
                Condition("Failed", IsTrue, generation, failure.reason, failure.message, Some(now)))
           && Says(s.conditions, after.conditions,
                Condition("Running", IsFalse, generation, "BuildRunCompleted", "BuildRun is no longer running.", Some(now)))
  {
    match mark
    case Started(now) => SetFinds(s.conditions, RunningCondition(generation, now), "Running");
    case MarkSucceeded(now, _) =>
      TwoSets(s.conditions, SucceededCondition(generation, now), CompletedCondition(generation, now));
    case MarkFailed(now, failure) =>
      TwoSets(s.conditions, FailedCondition(generation, now, failure), CompletedCondition(generation, now));
  }

  lemma TwoSets(cs: seq<Condition>, c: Condition, d: Condition)
    requires c.kind != d.kind
    ensures Says(cs, Set(Set(cs, c), d), c) && Says(cs, Set(Set(cs, c), d), d)
  {
    SetFinds(cs, c, c.kind);
    SetFinds(cs, c, d.kind);
    SetFinds(Set(cs, c), d, c.kind);
    SetFinds(Set(cs, c), d, d.kind);
  }

  /** The transitions one by one: nothing leaves a terminal phase, nothing becomes unset. */
  lemma WhereAPhaseMayGo(from: Phase, to: Phase)
    ensures from.Unset? ==> (Permitted(from, to) <==> to in {Unset, Pending, Queued, Running, Succeeded, Failed})
    ensures from.Pending? ==> (Permitted(from, to) <==> to in {Pending, Queued, Running, Succeeded, Failed, Cancelled})
    ensures from.Queued? ==> (Permitted(from, to) <==> to in {Queued, Running, Succeeded, Failed, Cancelled})
    ensures from.Running? ==> (Permitted(from, to) <==> to in {Running, Succeeded, Failed, Cancelled})
    ensures from in {Succeeded, Failed, Cancelled} ==> (Permitted(from, to) <==> to == from)
  {
  }
}
