/** Progress of the quota queue: how far a waiting run is from a slot, and what moves it forward. */
module QuotaFairness {
  import opened BuildRunPhase
  import opened Quota
  import opened QuotaProtocol

  /** How many rivals still have to leave before n has a slot; zero or less once it has one. */
  ghost function Distance(c: Cluster, scope: Scope, n: string): int
    requires n in c
  {
    |Rivals(c, scope.project, n)| + 1 - scope.quotas.maxConcurrent
  }

  /** The run a step ends, if it ends one. */
  ghost function Ended(step: Step): set<string> {
    match step
    case Finish(x, _) => {x}
    case Withdraw(x, _) => {x}
    case Deny(x, _) => {x}
    case _ => {}
  }

  /** n keeps waiting through the step, and nothing created during it sorts before n. */
  ghost predicate StillWaits(s: System, scope: Scope, step: Step, n: string)
    requires s.history != []
  {
    && n in Now(s) && IsWaiting(Now(s)[n], scope.project)
    && n in Written(Now(s), step) && IsWaiting(Written(Now(s), step)[n], scope.project)
    && (step.Create? ==> !Before(step.run, Now(s)[n]))
  }

  /** A run behind n in the queue that has a slot would leave one for n. */
  lemma SlotHoldersAreOlder(c: Cluster, scope: Scope, n: string, x: string)
    requires Keyed(c) && n in c && x in c && x != n
    requires IsWaiting(c[n], scope.project) && !HasSlot(c, scope, n)
    requires IsLive(c, scope.project, x) && HasSlot(c, scope, x)
    ensures Before(c[x], c[n])
  {
    BeforeIsStrictOrder(c[x], c[n], c[x]);
    if Before(c[n], c[x]) {
      forall y | y in Rivals(c, scope.project, n) - {x} ensures y in Rivals(c, scope.project, x) - {n} {
        BeforeIsStrictOrder(c[y], c[n], c[x]);
        BeforeIsStrictOrder(c[n], c[n], c[x]);
      }
      SubsetIsSmaller(Rivals(c, scope.project, n) - {x}, Rivals(c, scope.project, x) - {n});
    }
  }

  predicate Rivalling(run: Run, project: string, target: Run) {
    IsActive(run, project) || (IsWaiting(run, project) && Before(run, target))
  }

  lemma RivalsAfterWrite(c: Cluster, project: string, x: string, run: Run, n: string)
    requires n in c && (x == n ==> SameIdentity(c[n], run))
    ensures Rivals(c[x := run], project, n)
      == Rivals(c, project, n) - {x} + if x != n && Rivalling(run, project, c[n]) then {x} else {}
    ensures x in Rivals(c, project, n) <==> x in c && x != n && Rivalling(c[x], project, c[n])
  {
  }

  /** A slot holder that changes between waiting and active is older than n throughout. */
  lemma SlotHolderStaysRival(c: Cluster, scope: Scope, x: string, run: Run, n: string)
    requires Keyed(c) && x in c && n in c && x != n && SameIdentity(c[x], run)
    requires IsWaiting(c[n], scope.project) && !HasSlot(c, scope, n)
    requires IsLive(c, scope.project, x) && HasSlot(c, scope, x)
    requires IsActive(run, scope.project) || IsWaiting(run, scope.project)
    ensures Rivals(c[x := run], scope.project, n) == Rivals(c, scope.project, n)
  {
    SlotHoldersAreOlder(c, scope, n, x);
    RivalsAfterWrite(c, scope.project, x, run, n);
    assert x in Rivals(c, scope.project, n);
  }

  /** The step takes a run from waiting to active or back. */
  ghost predicate Changes(s: System, scope: Scope, step: Step)
    requires s.history != []
  {
    || (step.Record? && step.name in Now(s) && IsWaiting(Now(s)[step.name], scope.project))
    || (step.Bounce? && step.name in Now(s) && IsActive(Now(s)[step.name], scope.project))
  }

  lemma RivalsMove(s: System, scope: Scope, step: Step, n: string)
    requires s.history != [] && Keyed(Now(s)) && Enabled(s, scope, step)
    requires StillWaits(s, scope, step, n) && !HasSlot(Now(s), scope, n)
    requires Changes(s, scope, step) ==> step.name != n && HasSlot(Now(s), scope, step.name)
    ensures Rivals(Written(Now(s), step), scope.project, n) == Rivals(Now(s), scope.project, n) - Ended(step)
  {
    hide Decide, OvertakesNobody, HasSlot, Rivals;
    var c, p := Now(s), scope.project;
    match step
    case Create(run) => RivalsAfterWrite(c, p, run.name, run, n);
    case Admit(_, _) =>
    case Hold(x, _) => RivalsAfterWrite(c, p, x, c[x].(phase := Queued), n);
    case Deny(x, _) => RivalsAfterWrite(c, p, x, c[x].(phase := Failed), n);
    case Record(x, run) =>
      if IsWaiting(c[x], p) { SlotHolderStaysRival(c, scope, x, run, n); } else { RivalsAfterWrite(c, p, x, run, n); }
    case Bounce(x, _) =>
      if IsActive(c[x], p) { SlotHolderStaysRival(c, scope, x, Written(c, step)[x], n); }
      else { RivalsAfterWrite(c, p, x, Written(c, step)[x], n); }
    case Finish(x, phase) => RivalsAfterWrite(c, p, x, c[x].(phase := phase), n);
    case Withdraw(x, phase) => RivalsAfterWrite(c, p, x, c[x].(phase := phase), n);
    case Elsewhere(run) => RivalsAfterWrite(c, p, run.name, run, n);
  }

  /** For a waiting run without a slot, a step removes exactly the rival it ends, and adds none. */
  lemma OnlyEndingsMoveTheQueue(s: System, scope: Scope, step: Step, n: string)
    requires scope.quotas.maxConcurrent > 0 && Good(s, scope) && Enabled(s, scope, step)
    requires StillWaits(s, scope, step, n) && !HasSlot(Now(s), scope, n)
    ensures Rivals(Written(Now(s), step), scope.project, n) == Rivals(Now(s), scope.project, n) - Ended(step)
    ensures Distance(Written(Now(s), step), scope, n)
      == Distance(Now(s), scope, n) - if Ended(step) * Rivals(Now(s), scope.project, n) != {} then 1 else 0
  {
    if Changes(s, scope, step) {
      assert step.name in s.admitted by { assert step.Bounce? ==> step.name in Active(Now(s), scope.project); }
      assert AdmittedFairly(s, scope, step.name);
      AdmittedHasSlot(s, scope, step.name, |s.history| - 1);
    }
    RivalsMove(s, scope, step, n);
    var before, ended := Rivals(Now(s), scope.project, n), Ended(step);
    assert ended == {} || exists x :: ended == {x};
    assert |before - ended| == |before| - |ended * before|;
  }

  /** Rivals of n that the run of steps ends. */
  ghost function Departures(s: System, scope: Scope, steps: seq<Step>, n: string): nat
    requires IsRun(s, scope, steps)
    decreases |steps|
  {
    if steps == [] then 0
    else
      (if n in Now(s) && Ended(steps[0]) * Rivals(Now(s), scope.project, n) != {} then 1 else 0)
        + Departures(Next(s, scope, steps[0]), scope, steps[1..], n)
  }

  ghost predicate WaitsThroughout(s: System, scope: Scope, steps: seq<Step>, n: string)
    requires IsRun(s, scope, steps)
    decreases |steps|
  {
    steps == [] || (StillWaits(s, scope, steps[0], n) && WaitsThroughout(Next(s, scope, steps[0]), scope, steps[1..], n))
  }

  /**
   No starvation: while n waits, its distance to a slot drops by exactly one each time one of its
   rivals ends and never grows, so as many endings as its distance give it a slot.
   */
  lemma {:induction false} EnoughDeparturesGiveASlot(s: System, scope: Scope, steps: seq<Step>, n: string)
    requires scope.quotas.maxConcurrent > 0 && Good(s, scope) && IsRun(s, scope, steps)
    requires n in Now(s) && IsWaiting(Now(s)[n], scope.project) && WaitsThroughout(s, scope, steps, n)
    ensures n in Now(After(s, scope, steps))
    ensures var d := Distance(Now(After(s, scope, steps)), scope, n);
      d <= 0 || d == Distance(Now(s), scope, n) - Departures(s, scope, steps, n)
    ensures Departures(s, scope, steps, n) >= Distance(Now(s), scope, n) ==> HasSlot(Now(After(s, scope, steps)), scope, n)
    decreases |steps|
  {
    if steps == [] {
    } else {
      GoodIsInvariant(s, scope, steps[0]);
      if HasSlot(Now(s), scope, n) {
        SlotSurvives(s, scope, steps[0], n);
      } else {
        OnlyEndingsMoveTheQueue(s, scope, steps[0], n);
      }
      var s1 := Next(s, scope, steps[0]);
      EnoughDeparturesGiveASlot(s1, scope, steps[1..], n);
      if HasSlot(Now(s1), scope, n) {
        SlotLasts(s1, scope, steps[1..], n);
      }
    }
  }

  lemma SlotSurvives(s: System, scope: Scope, step: Step, n: string)
    requires scope.quotas.maxConcurrent > 0 && Good(s, scope) && Enabled(s, scope, step)
    requires StillWaits(s, scope, step, n) && HasSlot(Now(s), scope, n)
    ensures HasSlot(Written(Now(s), step), scope, n)
  {
    RecordedHasSlot(s, scope, step);
    SlotIsStable(s, scope, step);
  }

  lemma {:induction false} SlotLasts(s: System, scope: Scope, steps: seq<Step>, n: string)
    requires scope.quotas.maxConcurrent > 0 && Good(s, scope) && IsRun(s, scope, steps)
    requires n in Now(s) && IsWaiting(Now(s)[n], scope.project) && WaitsThroughout(s, scope, steps, n)
    requires HasSlot(Now(s), scope, n)
    ensures n in Now(After(s, scope, steps)) && HasSlot(Now(After(s, scope, steps)), scope, n)
    decreases |steps|
  {
    if steps == [] {
    } else {
      GoodIsInvariant(s, scope, steps[0]);
      SlotSurvives(s, scope, steps[0], n);
      SlotLasts(Next(s, scope, steps[0]), scope, steps[1..], n);
    }
  }

  /**
   Creation times have a resolution of one second. Two runs created in the same second are ordered by
   name, so the later one can overtake, and a limit of one is exceeded.
   */
  lemma SameSecondCreationBreaksTheLimit() returns (s: System, scope: Scope, late: Run, steps: seq<Step>)
    ensures scope.quotas.maxConcurrent == 1 && Init(s, scope)
    ensures Now(s).Keys == {"b"} && late.name == "a" && late.created == Now(s)["b"].created
    ensures IsRun(Created(s, late), scope, steps)
    ensures |Busy(After(Created(s, late), scope, steps), scope)| > 1
  {
    scope := Scope("p", Quotas(1, 0));
    var first := Run("p", "b", 0, Pending, "", "");
    late := Run("p", "a", 0, Pending, "", "");
    s := System([map["b" := first]], map[]);
    assert Active(Now(s), "p") == {};
    assert s.admitted == map n | n in Active(s.history[0], "p") :: 0;
    InitIsGood(s, scope);
    assert Rivals(Now(s), "p", "b") == {};
    assert Before(late, first) by {
      assert "a"[0] < "b"[0];
    }
    steps := OvertakingBreaksTheLimit(s, scope, late, "b");
  }
}
