/** The quota scheduler as a protocol: many reconciles at once. */
module QuotaProtocol {
  import opened Wrappers
  import opened BuildRunPhase
  import opened Quota

  /*
   Many reconciles decide at once, each on its own snapshot of the project's runs, and an admitted run stays "waiting" in
   the store until its workload reference or its Running phase has been persisted
   (internal/controller/buildrun_controller.go:126-168).
   */

  datatype Scope = Scope(project: string, quotas: Quotas)

  /** Every store state so far, oldest first, and for each admitted run the snapshot it was admitted on. */
  datatype System = System(history: seq<Cluster>, admitted: map<string, nat>)

  datatype Step =
    | Create(run: Run)
    | Admit(name: string, snapshot: nat)
    | Hold(name: string, snapshot: nat)
    | Deny(name: string, snapshot: nat)
    | Record(name: string, run: Run)
    | Bounce(name: string, snapshot: nat)
    | Finish(name: string, phase: Phase)
    | Withdraw(name: string, phase: Phase)
    | Elsewhere(run: Run)

  predicate IsLive(c: Cluster, project: string, n: string) {
    n in c && (IsActive(c[n], project) || IsWaiting(c[n], project))
  }

  /** Live without a workload: waiting, or marked Running before its workload reference was persisted. */
  predicate IsLoose(c: Cluster, project: string, n: string) {
    IsLive(c, project, n) && !HasWorkload(c[n])
  }

  /** The runs that stand between n and a slot: everything active, and everything waiting that is older. */
  ghost function Rivals(c: Cluster, project: string, n: string): set<string>
    requires n in c
  {
    set x | x in c && x != n && (IsActive(c[x], project) || (IsWaiting(c[x], project) && Before(c[x], c[n])))
  }

  ghost predicate HasSlot(c: Cluster, scope: Scope, n: string)
    requires n in c
  {
    |Rivals(c, scope.project, n)| < scope.quotas.maxConcurrent
  }

  /** No run without a workload that exactly fills the limit is overtaken by the new one. */
  ghost predicate OvertakesNobody(c: Cluster, scope: Scope, run: Run) {
    forall n :: IsLoose(c, scope.project, n) && Before(run, c[n])
      ==> |Rivals(c, scope.project, n)| != scope.quotas.maxConcurrent - 1
  }

  ghost predicate SameIdentity(a: Run, b: Run) {
    a.name == b.name && a.project == b.project && a.created == b.created
  }

  ghost function Now(s: System): Cluster
    requires s.history != []
  {
    s.history[|s.history| - 1]
  }

  /** A reconcile of n that read the given snapshot, in which n itself is waiting. */
  ghost predicate Reconciles(s: System, scope: Scope, n: string, snapshot: nat) {
    && snapshot < |s.history|
    && n in s.history[snapshot] && IsWaiting(s.history[snapshot][n], scope.project)
    && (n in s.admitted ==> s.admitted[n] <= snapshot)
  }

  ghost function Verdict(s: System, scope: Scope, n: string, snapshot: nat): QuotaDecision
    requires Reconciles(s, scope, n, snapshot)
  {
    Decide(Some(scope.quotas), s.history[snapshot], s.history[snapshot][n])
  }

  ghost predicate Enabled(s: System, scope: Scope, step: Step)
    requires s.history != []
  {
    var c, p := Now(s), scope.project;
    match step
    case Create(run) =>
      run.name !in c && IsWaiting(run, p) && OvertakesNobody(c, scope, run)
    case Admit(n, k) =>
      Reconciles(s, scope, n, k) && !Verdict(s, scope, n, k).queue && !Verdict(s, scope, n, k).deny
    case Hold(n, k) =>
      Reconciles(s, scope, n, k) && Verdict(s, scope, n, k).queue && n in c && IsWaiting(c[n], p)
    case Deny(n, k) =>
      Reconciles(s, scope, n, k) && Verdict(s, scope, n, k).deny && n in c && IsWaiting(c[n], p)
    case Record(n, run) =>
      && n in s.admitted && IsLive(c, p, n) && SameIdentity(c[n], run) && IsActive(run, p)
      && (HasWorkload(c[n]) ==> HasWorkload(run))
    case Bounce(n, k) =>
      && k < |s.history| && n in s.history[k] && s.history[k][n].project == p && s.history[k][n].phase.Running?
      && Decide(Some(scope.quotas), s.history[k], s.history[k][n]).queue
      && IsLoose(c, p, n)
    case Finish(n, phase) =>
      n in s.admitted && IsLive(c, p, n) && IsTerminal(phase)
    case Withdraw(n, phase) =>
      n !in s.admitted && n in c && IsWaiting(c[n], p) && IsTerminal(phase)
    case Elsewhere(run) =>
      run.project != p && (run.name in c ==> SameIdentity(c[run.name], run))
  }

  ghost function Written(c: Cluster, step: Step): Cluster {
    match step
    case Create(run) => c[run.name := run]
    case Admit(_, _) => c
    case Hold(n, _) => if n in c then c[n := c[n].(phase := Queued)] else c
    case Deny(n, _) => if n in c then c[n := c[n].(phase := Failed)] else c
    case Record(n, run) => c[n := run]
    case Bounce(n, _) => if n in c then c[n := c[n].(phase := Queued)] else c
    case Finish(n, phase) => if n in c then c[n := c[n].(phase := phase)] else c
    case Withdraw(n, phase) => if n in c then c[n := c[n].(phase := phase)] else c
    case Elsewhere(run) => c[run.name := run]
  }

  ghost function Next(s: System, scope: Scope, step: Step): System
    requires s.history != []
  {
    var c := Now(s);
    var admitted :=
      if step.Admit? && step.name in c && IsWaiting(c[step.name], scope.project)
      then s.admitted[step.name := step.snapshot] else s.admitted;
    System(s.history + [Written(c, step)], admitted)
  }

  /**
   Any start with no more active runs than the limit in which a run marked Running without a workload holds a slot; the
   empty project is one.
   */
  ghost predicate Init(s: System, scope: Scope) {
    && |s.history| == 1 && Keyed(s.history[0])
    && s.admitted == (map n | n in Active(s.history[0], scope.project) :: 0)
    && |Active(s.history[0], scope.project)| <= scope.quotas.maxConcurrent
    && forall n :: n in Active(s.history[0], scope.project) && IsLoose(s.history[0], scope.project, n) ==>
      HasSlot(s.history[0], scope, n)
  }

  ghost predicate IsRun(s: System, scope: Scope, steps: seq<Step>)
    decreases |steps|
  {
    s.history != [] && (steps == [] || (Enabled(s, scope, steps[0]) && IsRun(Next(s, scope, steps[0]), scope, steps[1..])))
  }

  ghost function After(s: System, scope: Scope, steps: seq<Step>): (s': System)
    requires IsRun(s, scope, steps)
    ensures s'.history != []
    decreases |steps|
  {
    if steps == [] then s else After(Next(s, scope, steps[0]), scope, steps[1..])
  }

  /** Runs that use a slot: active ones, and admitted ones whose admission is not yet persisted. */
  ghost function Busy(s: System, scope: Scope): set<string>
    requires s.history != []
  {
    set n | n in Now(s) && (IsActive(Now(s)[n], scope.project) || (IsWaiting(Now(s)[n], scope.project) && n in s.admitted))
  }

  // ---- Slots ----

  /** The controller's test, rank below max - active, asks whether the run holds a slot. */
  lemma AdmitIffSlot(c: Cluster, scope: Scope, n: string)
    requires Keyed(c) && scope.quotas.maxConcurrent > 0
    requires n in c && IsWaiting(c[n], scope.project)
    ensures var d := Decide(Some(scope.quotas), c, c[n]);
      (!d.queue && !d.deny) <==> HasSlot(c, scope, n)
  {
    var p := scope.project;
    BeforeIsStrictOrder(c[n], c[n], c[n]);
    assert Rivals(c, p, n) == Active(c, p) + Ahead(c, p, n);
    assert Active(c, p) !! Ahead(c, p, n);
  }

  /** Rewriting one run never adds a rival when the run is no more active, and no more live, than before. */
  lemma QuieterWriteKeepsSlot(c: Cluster, scope: Scope, x: string, run: Run, n: string)
    requires Keyed(c) && run.name == x && n in c
    requires x in c ==> SameIdentity(c[x], run)
    requires IsActive(run, scope.project) ==> x in c && IsActive(c[x], scope.project)
    requires IsWaiting(run, scope.project) ==> IsLive(c, scope.project, x)
    requires HasSlot(c, scope, n)
    ensures HasSlot(c[x := run], scope, n)
  {
    assert Rivals(c[x := run], scope.project, n) <= Rivals(c, scope.project, n);
    SubsetIsSmaller(Rivals(c[x := run], scope.project, n), Rivals(c, scope.project, n));
  }

  /** Creating a run keeps n's slot when n is older than it, or had room to spare. */
  lemma CreateKeepsSlot(c: Cluster, scope: Scope, run: Run, n: string)
    requires Keyed(c) && run.name !in c && IsWaiting(run, scope.project)
    requires IsLive(c, scope.project, n) && HasSlot(c, scope, n)
    ensures HasSlot(c[run.name := run], scope, n) <==>
      !(Before(run, c[n]) && |Rivals(c, scope.project, n)| == scope.quotas.maxConcurrent - 1)
  {
    var before, after := Rivals(c, scope.project, n), Rivals(c[run.name := run], scope.project, n);
    if Before(run, c[n]) {
      assert after == before + {run.name};
    } else {
      assert after == before;
    }
  }

  lemma CreateKeepsSlotUnlessOvertaken(c: Cluster, scope: Scope, run: Run, n: string)
    requires Keyed(c) && run.name !in c && IsWaiting(run, scope.project) && OvertakesNobody(c, scope, run)
    requires IsLoose(c, scope.project, n) && HasSlot(c, scope, n)
    ensures HasSlot(c[run.name := run], scope, n)
  {
    CreateKeepsSlot(c, scope, run, n);
  }

  /** When x becomes active, an older waiting run n gains a rival; but x had counted n as one of its own. */
  lemma RecordKeepsSlot(c: Cluster, scope: Scope, x: string, run: Run, n: string)
    requires Keyed(c) && x in c && n in c && x != n
    requires IsWaiting(c[x], scope.project) && IsActive(run, scope.project) && SameIdentity(c[x], run)
    requires IsLive(c, scope.project, n)
    requires HasSlot(c, scope, x) && HasSlot(c, scope, n)
    ensures HasSlot(c[x := run], scope, n)
  {
    var p, c' := scope.project, c[x := run];
    if x in Rivals(c, p, n) {
      assert Rivals(c', p, n) <= Rivals(c, p, n);
      SubsetIsSmaller(Rivals(c', p, n), Rivals(c, p, n));
    } else {
      BeforeIsStrictOrder(c[n], c[x], c[n]);
      forall y | y in Rivals(c', p, n) && y != x ensures y in Rivals(c, p, x) && y != n {
        BeforeIsStrictOrder(c[y], c[n], c[x]);
      }
      assert Rivals(c', p, n) <= Rivals(c, p, x) - {n} + {x};
      SubsetIsSmaller(Rivals(c', p, n), Rivals(c, p, x) - {n} + {x});
    }
  }

  /** Later states keep every run and its identity, and its slot while it has no workload, and bring none back to life. */
  ghost predicate Follows(c: Cluster, c': Cluster, scope: Scope) {
    forall n :: n in c ==>
      && n in c' && SameIdentity(c[n], c'[n])
      && (IsLive(c', scope.project, n) ==> IsLive(c, scope.project, n))
      && (IsLoose(c', scope.project, n) ==> IsLoose(c, scope.project, n) && (HasSlot(c, scope, n) ==> HasSlot(c', scope, n)))
  }

  /** A slot survives every write except one that overtakes: the heart of the protocol. */
  lemma SlotIsStable(s: System, scope: Scope, step: Step)
    requires s.history != [] && Keyed(Now(s)) && Enabled(s, scope, step)
    requires step.Record? && IsWaiting(Now(s)[step.name], scope.project) ==> HasSlot(Now(s), scope, step.name)
    ensures Keyed(Written(Now(s), step)) && Follows(Now(s), Written(Now(s), step), scope)
  {
    hide HasSlot, Decide, OvertakesNobody;
    var c, p := Now(s), scope.project;
    var c' := Written(c, step);
    forall n | n in c && IsLoose(c', p, n) && HasSlot(c, scope, n)
      ensures HasSlot(c', scope, n)
    {
      match step
      case Create(run) => CreateKeepsSlotUnlessOvertaken(c, scope, run, n);
      case Admit(_, _) =>
      case Hold(x, _) => QuieterWriteKeepsSlot(c, scope, x, c'[x], n);
      case Deny(x, _) => QuieterWriteKeepsSlot(c, scope, x, c'[x], n);
      case Record(x, run) =>
        if x == n {
          RecordKeepsOwnSlot(c, scope, x, run);
        } else if IsWaiting(c[x], p) {
          RecordKeepsSlot(c, scope, x, run, n);
        } else {
          QuieterWriteKeepsSlot(c, scope, x, run, n);
        }
      case Bounce(x, _) => QuieterWriteKeepsSlot(c, scope, x, c'[x], n);
      case Finish(x, _) => QuieterWriteKeepsSlot(c, scope, x, c'[x], n);
      case Withdraw(x, _) => QuieterWriteKeepsSlot(c, scope, x, c'[x], n);
      case Elsewhere(run) => QuieterWriteKeepsSlot(c, scope, run.name, run, n);
    }
  }

  lemma RecordKeepsOwnSlot(c: Cluster, scope: Scope, x: string, run: Run)
    requires x in c && HasSlot(c, scope, x) && SameIdentity(c[x], run)
    ensures HasSlot(c[x := run], scope, x)
  {
    assert Rivals(c[x := run], scope.project, x) == Rivals(c, scope.project, x);
  }

  lemma FollowsIsTransitive(c0: Cluster, c1: Cluster, c2: Cluster, scope: Scope)
    requires Follows(c0, c1, scope) && Follows(c1, c2, scope)
    ensures Follows(c0, c2, scope)
  {
  }

  // ---- Invariant ----

  ghost predicate AllKeyed(h: seq<Cluster>) {
    forall k :: 0 <= k < |h| ==> Keyed(h[k])
  }

  ghost predicate Chain(h: seq<Cluster>, scope: Scope) {
    forall k, j :: 0 <= k <= j < |h| ==> Follows(h[k], h[j], scope)
  }

  ghost predicate Good(s: System, scope: Scope) {
    && s.history != []
    && AllKeyed(s.history) && Chain(s.history, scope)
    && (forall n :: n in s.admitted ==> AdmittedFairly(s, scope, n))
    && Active(Now(s), scope.project) <= s.admitted.Keys
    && |Active(Now(s), scope.project)| <= scope.quotas.maxConcurrent
  }

  /** The run had a slot, or a workload already, in the snapshot it was admitted on. */
  ghost predicate AdmittedFairly(s: System, scope: Scope, n: string)
    requires n in s.admitted
  {
    && s.admitted[n] < |s.history|
    && IsLive(s.history[s.admitted[n]], scope.project, n)
    && (IsLoose(s.history[s.admitted[n]], scope.project, n) ==> HasSlot(s.history[s.admitted[n]], scope, n))
  }

  lemma InitIsGood(s: System, scope: Scope)
    requires Init(s, scope)
    ensures Good(s, scope)
  {
  }

  lemma AdmittedHasSlot(s: System, scope: Scope, n: string, k: nat)
    requires Good(s, scope) && n in s.admitted
    requires k < |s.history| && s.admitted[n] <= k && IsLoose(s.history[k], scope.project, n)
    ensures HasSlot(s.history[k], scope, n)
  {
    assert AdmittedFairly(s, scope, n);
    assert Follows(s.history[s.admitted[n]], s.history[k], scope);
  }

  lemma RecordedHasSlot(s: System, scope: Scope, step: Step)
    requires Good(s, scope) && Enabled(s, scope, step)
    ensures step.Record? && IsWaiting(Now(s)[step.name], scope.project) ==> HasSlot(Now(s), scope, step.name)
  {
    if step.Record? && IsWaiting(Now(s)[step.name], scope.project) {
      InFlightHasSlot(s, scope, step.name);
    }
  }

  lemma ChainGrows(h: seq<Cluster>, c: Cluster, scope: Scope)
    requires h != [] && Chain(h, scope) && Follows(h[|h| - 1], c, scope)
    ensures Chain(h + [c], scope)
  {
    forall k, j | 0 <= k <= j < |h| + 1 ensures Follows((h + [c])[k], (h + [c])[j], scope) {
      if k < |h| == j {
        FollowsIsTransitive(h[k], h[|h| - 1], c, scope);
      }
    }
  }

  lemma HistoryGrowsGood(s: System, scope: Scope, step: Step)
    requires Good(s, scope) && Enabled(s, scope, step)
    ensures AllKeyed(Next(s, scope, step).history) && Chain(Next(s, scope, step).history, scope)
  {
    hide HasSlot, Follows, IsLoose, AdmittedFairly, Enabled, Written;
    RecordedHasSlot(s, scope, step);
    SlotIsStable(s, scope, step);
    ChainGrows(s.history, Written(Now(s), step), scope);
  }

  lemma AdmissionsStayFair(s: System, scope: Scope, step: Step, n: string)
    requires scope.quotas.maxConcurrent > 0 && Good(s, scope) && Enabled(s, scope, step)
    requires n in Next(s, scope, step).admitted
    ensures AdmittedFairly(Next(s, scope, step), scope, n)
  {
    hide HasSlot, IsLoose, Follows, Written;
    var s' := Next(s, scope, step);
    assert forall k :: 0 <= k < |s.history| ==> s'.history[k] == s.history[k];
    if n in s.admitted && s'.admitted[n] == s.admitted[n] {
      assert AdmittedFairly(s, scope, n);
    } else {
      AdmitIffSlot(s.history[step.snapshot], scope, n);
    }
  }

  lemma ActiveIsAdmitted(s: System, scope: Scope, step: Step, n: string)
    requires Good(s, scope) && Enabled(s, scope, step)
    requires n in Active(Written(Now(s), step), scope.project)
    ensures n in Next(s, scope, step).admitted
  {
    if n !in Active(Now(s), scope.project) {
      assert step.Record? && n == step.name;
    }
  }

  /** The youngest run of a nonempty set of names. */
  lemma Youngest(c: Cluster, names: set<string>) returns (z: string)
    requires Keyed(c) && names != {} && names <= c.Keys
    ensures z in names && forall n :: n in names && n != z ==> Before(c[n], c[z])
    decreases |names|
  {
    z :| z in names;
    if names == {z} {
    } else {
      var y := Youngest(c, names - {z});
      BeforeIsStrictOrder(c[y], c[z], c[y]);
      if Before(c[z], c[y]) {
        z := y;
      } else {
        forall n | n in names && n != z ensures Before(c[n], c[z]) {
          BeforeIsStrictOrder(c[n], c[y], c[z]);
        }
      }
    }
  }

  lemma GoodFacts(s: System, scope: Scope)
    requires Good(s, scope)
    ensures s.history != [] && Keyed(Now(s)) && Active(Now(s), scope.project) <= s.admitted.Keys
    ensures |Active(Now(s), scope.project)| <= scope.quotas.maxConcurrent
  {
  }

  /** An admitted run that still waits has a slot now. */
  lemma InFlightHasSlot(s: System, scope: Scope, n: string)
    requires Good(s, scope) && n in s.admitted && n in Now(s) && IsWaiting(Now(s)[n], scope.project)
    ensures |Rivals(Now(s), scope.project, n)| < scope.quotas.maxConcurrent
  {
    assert AdmittedFairly(s, scope, n);
    AdmittedHasSlot(s, scope, n, |s.history| - 1);
  }

  /** In a good state no more than maxConcurrent runs use a slot: all others rival the youngest one in flight. */
  lemma GoodIsBounded(s: System, scope: Scope)
    requires scope.quotas.maxConcurrent > 0 && Good(s, scope)
    ensures |Busy(s, scope)| <= scope.quotas.maxConcurrent
  {
    hide Good, HasSlot;
    GoodFacts(s, scope);
    var busy, active := Busy(s, scope), Active(Now(s), scope.project);
    if busy - active == {} {
      assert forall n :: n in busy && n !in active ==> n in busy - active;
      SubsetIsSmaller(busy, active);
    } else {
      var z := Youngest(Now(s), busy - active);
      InFlightHasSlot(s, scope, z);
      assert busy - {z} <= Rivals(Now(s), scope.project, z);
      SubsetIsSmaller(busy - {z}, Rivals(Now(s), scope.project, z));
    }
  }

  lemma GoodIsInvariant(s: System, scope: Scope, step: Step)
    requires scope.quotas.maxConcurrent > 0 && Good(s, scope) && Enabled(s, scope, step)
    ensures Good(Next(s, scope, step), scope)
  {
    HistoryGrowsGood(s, scope, step);
    forall n | n in Next(s, scope, step).admitted ensures AdmittedFairly(Next(s, scope, step), scope, n) {
      AdmissionsStayFair(s, scope, step, n);
    }
    forall n | n in Active(Now(Next(s, scope, step)), scope.project) ensures n in Next(s, scope, step).admitted {
      ActiveIsAdmitted(s, scope, step, n);
    }
    ActiveWasBusy(s, scope, step);
  }

  /** What a step leaves active was busy before. */
  lemma ActiveWasBusy(s: System, scope: Scope, step: Step)
    requires scope.quotas.maxConcurrent > 0 && Good(s, scope) && Enabled(s, scope, step)
    ensures |Active(Written(Now(s), step), scope.project)| <= scope.quotas.maxConcurrent
  {
    var active := Active(Written(Now(s), step), scope.project);
    forall n | n in active ensures n in Busy(s, scope) {
      if n !in Active(Now(s), scope.project) {
        assert step.Record? && n == step.name;
      }
    }
    GoodIsBounded(s, scope);
    SubsetIsSmaller(active, Busy(s, scope));
  }

  // ---- Main results ----

  lemma {:induction false} GoodThroughout(s: System, scope: Scope, steps: seq<Step>)
    requires scope.quotas.maxConcurrent > 0 && Good(s, scope) && IsRun(s, scope, steps)
    ensures Good(After(s, scope, steps), scope)
    decreases |steps|
  {
    if steps == [] {
    } else {
      GoodIsInvariant(s, scope, steps[0]);
      GoodThroughout(Next(s, scope, steps[0]), scope, steps[1..]);
    }
  }

  /**
   The concurrency limit holds after any run of the scheduler: active runs and admissions in flight
   together never exceed maxConcurrent, however old the snapshots behind the admissions were.
   */
  lemma LimitHolds(s: System, scope: Scope, steps: seq<Step>)
    requires scope.quotas.maxConcurrent > 0 && Init(s, scope) && IsRun(s, scope, steps)
    ensures |Busy(After(s, scope, steps), scope)| <= scope.quotas.maxConcurrent
    ensures |Active(Now(After(s, scope, steps)), scope.project)| <= scope.quotas.maxConcurrent
  {
    InitIsGood(s, scope);
    GoodThroughout(s, scope, steps);
    var s' := After(s, scope, steps);
    GoodIsBounded(s', scope);
    SubsetIsSmaller(Active(Now(s'), scope.project), Busy(s', scope));
  }

  /** An admitted run is never queued or denied later, on any snapshot at least as new. */
  lemma AdmissionIsNotRevoked(s: System, scope: Scope, steps: seq<Step>, n: string, k: nat)
    requires scope.quotas.maxConcurrent > 0 && Init(s, scope) && IsRun(s, scope, steps)
    requires n in After(s, scope, steps).admitted && Reconciles(After(s, scope, steps), scope, n, k)
    ensures !Verdict(After(s, scope, steps), scope, n, k).queue && !Verdict(After(s, scope, steps), scope, n, k).deny
  {
    InitIsGood(s, scope);
    GoodThroughout(s, scope, steps);
    AdmittedHasSlot(After(s, scope, steps), scope, n, k);
    AdmitIffSlot(After(s, scope, steps).history[k], scope, n);
  }

  /** A run that sorts after every one without a workload overtakes nobody; clocks that never tie or step back ensure it. */
  lemma LastComerOvertakesNobody(c: Cluster, scope: Scope, run: Run)
    requires forall n :: IsLoose(c, scope.project, n) ==> Before(c[n], run)
    ensures OvertakesNobody(c, scope, run)
  {
    forall n | IsLoose(c, scope.project, n) ensures !Before(run, c[n]) {
      BeforeIsStrictOrder(c[n], run, c[n]);
    }
  }

  /** A run created in a later second than all that are live without a workload takes nobody's slot. */
  lemma LaterCreationTakesNoSlot(c: Cluster, scope: Scope, run: Run, n: string)
    requires Keyed(c) && run.name !in c && IsWaiting(run, scope.project) && scope.quotas.maxConcurrent > 0
    requires forall m :: IsLoose(c, scope.project, m) ==> c[m].created < run.created
    requires IsLoose(c, scope.project, n) && HasSlot(c, scope, n)
    ensures OvertakesNobody(c, scope, run) && HasSlot(c[run.name := run], scope, n)
  {
    LastComerOvertakesNobody(c, scope, run);
    CreateKeepsSlotsIff(c, scope, run);
  }

  /** Exactly the overtaking creations take a slot away from a run without a workload that had one. */
  lemma CreateKeepsSlotsIff(c: Cluster, scope: Scope, run: Run)
    requires Keyed(c) && run.name !in c && IsWaiting(run, scope.project) && scope.quotas.maxConcurrent > 0
    ensures OvertakesNobody(c, scope, run) <==>
      forall n :: IsLoose(c, scope.project, n) && HasSlot(c, scope, n) ==> HasSlot(c[run.name := run], scope, n)
  {
    forall n | IsLoose(c, scope.project, n) && HasSlot(c, scope, n)
      ensures HasSlot(c[run.name := run], scope, n) <==>
        !(Before(run, c[n]) && |Rivals(c, scope.project, n)| == scope.quotas.maxConcurrent - 1)
    {
      CreateKeepsSlot(c, scope, run, n);
    }
  }

  // ---- When a creation does overtake ----

  /** The store and history after a creation that nothing guards. */
  ghost function Created(s: System, run: Run): System
    requires s.history != []
  {
    System(s.history + [Now(s)[run.name := run]], s.admitted)
  }

  /** A reconcile of n on snapshot k would admit it, and n is still waiting. */
  ghost predicate Admissible(s: System, scope: Scope, k: nat, n: string)
    requires s.history != []
  {
    && Reconciles(s, scope, n, k) && HasSlot(s.history[k], scope, n)
    && n in Now(s) && IsWaiting(Now(s)[n], scope.project)
  }

  ghost predicate AllAdmissible(s: System, scope: Scope, k: nat, names: set<string>)
    requires s.history != []
  {
    forall n :: n in names ==> Admissible(s, scope, k, n)
  }

  /** The system once a still waiting n has been admitted on snapshot k. */
  ghost function WithAdmitted(s: System, k: nat, n: string): (s1: System)
    requires s.history != []
    ensures s1.history != [] && Now(s1) == Now(s) && s1.admitted.Keys == s.admitted.Keys + {n}
  {
    System(s.history + [Now(s)], s.admitted[n := k])
  }

  lemma OthersStayAdmissible(s: System, scope: Scope, k: nat, n: string, others: set<string>)
    requires s.history != [] && k < |s.history| && Keyed(s.history[k])
    requires n !in others && AllAdmissible(s, scope, k, others)
    ensures k < |WithAdmitted(s, k, n).history| && Keyed(WithAdmitted(s, k, n).history[k])
    ensures AllAdmissible(WithAdmitted(s, k, n), scope, k, others)
  {
    assert WithAdmitted(s, k, n).history[k] == s.history[k];
  }

  lemma AdmitFirst(s: System, scope: Scope, k: nat, n: string, rest: seq<Step>)
    requires s.history != [] && scope.quotas.maxConcurrent > 0
    requires Admissible(s, scope, k, n) && Keyed(s.history[k])
    requires IsRun(WithAdmitted(s, k, n), scope, rest)
    ensures IsRun(s, scope, [Admit(n, k)] + rest)
    ensures After(s, scope, [Admit(n, k)] + rest) == After(WithAdmitted(s, k, n), scope, rest)
  {
    AdmitIffSlot(s.history[k], scope, n);
    assert ([Admit(n, k)] + rest)[1..] == rest;
    assert Next(s, scope, Admit(n, k)) == WithAdmitted(s, k, n);
  }

  /** A run that admits, one by one, every named run on snapshot k. */
  lemma {:induction false} AdmitAll(s: System, scope: Scope, k: nat, names: set<string>) returns (steps: seq<Step>)
    requires s.history != [] && scope.quotas.maxConcurrent > 0
    requires k < |s.history| && Keyed(s.history[k])
    requires AllAdmissible(s, scope, k, names)
    ensures IsRun(s, scope, steps)
    ensures Now(After(s, scope, steps)) == Now(s)
    ensures forall m :: m in After(s, scope, steps).admitted <==> m in s.admitted || m in names
    decreases |names|
  {
    if names == {} {
      steps := [];
    } else {
      var n :| n in names;
      OthersStayAdmissible(s, scope, k, n, names - {n});
      var rest := AdmitAll(WithAdmitted(s, k, n), scope, k, names - {n});
      AdmitFirst(s, scope, k, n, rest);
      steps := [Admit(n, k)] + rest;
    }
  }

  /** Whatever waits in front of a run with a slot has a slot too. */
  lemma OlderRunHasSlot(c: Cluster, scope: Scope, r: string, n: string)
    requires IsLoose(c, scope.project, r) && HasSlot(c, scope, r)
    requires n in Rivals(c, scope.project, r) && IsWaiting(c[n], scope.project)
    ensures HasSlot(c, scope, n)
  {
    var p := scope.project;
    forall x | x in Rivals(c, p, n) && x != r ensures x in Rivals(c, p, r) && x != n {
      BeforeIsStrictOrder(c[x], c[n], c[r]);
    }
    assert Rivals(c, p, n) <= Rivals(c, p, r) - {n} + {r};
    SubsetIsSmaller(Rivals(c, p, n), Rivals(c, p, r) - {n} + {r});
  }

  /** The waiting runs that hold a slot no younger than r's. */
  ghost function Front(c: Cluster, project: string, r: string): set<string>
    requires r in c
  {
    set n | n in Rivals(c, project, r) + {r} && IsWaiting(c[n], project)
  }

  lemma FrontHasSlot(c: Cluster, scope: Scope, r: string, n: string)
    requires IsLoose(c, scope.project, r) && HasSlot(c, scope, r)
    requires n in Front(c, scope.project, r)
    ensures HasSlot(c, scope, n)
  {
    if n == r {
    } else {
      OlderRunHasSlot(c, scope, r, n);
    }
  }

  lemma FrontWaits(c: Cluster, project: string, r: string, n: string)
    requires r in c && n in Front(c, project, r)
    ensures n in c && IsWaiting(c[n], project)
  {
  }

  lemma FrontIsAdmissible(s: System, scope: Scope, run: Run, r: string, n: string)
    requires Good(s, scope) && run.name !in Now(s)
    requires IsLoose(Now(s), scope.project, r) && HasSlot(Now(s), scope, r)
    requires n in Front(Now(s), scope.project, r)
    ensures Admissible(Created(s, run), scope, |s.history| - 1, n)
  {
    assert Created(s, run).history[|s.history| - 1] == Now(s);
    FrontHasSlot(Now(s), scope, r, n);
    FrontWaits(Now(s), scope.project, r, n);
    hide HasSlot, Rivals, Front, IsWaiting, IsActive, IsLoose, AllKeyed, Chain;
    assert n in s.admitted ==> s.admitted[n] < |s.history| by { if n in s.admitted { assert AdmittedFairly(s, scope, n); } }
  }

  /** The project after the creation, with r waiting again if it was marked Running. */
  ghost function Requeued(c: Cluster, run: Run, r: string): Cluster
    requires r in c && r != run.name
  {
    c[run.name := run][r := if c[r].phase.Running? then c[r].(phase := Queued) else c[r]]
  }

  /** The newcomer's rivals were r's: r itself is now behind it. */
  lemma NewcomerHasSlot(c: Cluster, scope: Scope, run: Run, r: string)
    requires run.name !in c && IsWaiting(run, scope.project)
    requires IsLoose(c, scope.project, r) && HasSlot(c, scope, r) && Before(run, c[r])
    ensures HasSlot(Requeued(c, run, r), scope, run.name)
  {
    var p, c' := scope.project, Requeued(c, run, r);
    forall x | x in Rivals(c', p, run.name) ensures x in Rivals(c, p, r) {
      BeforeIsStrictOrder(c'[x], run, c[r]);
      BeforeIsStrictOrder(c[r], run, c[r]);
    }
    SubsetIsSmaller(Rivals(c', p, run.name), Rivals(c, p, r));
  }

  /**
   Conversely, whenever a new run sorts before a run without a workload that exactly fills the limit, some reconciles on
   the snapshots before and after the creation admit one run too many.
   */
  lemma OvertakingBreaksTheLimit(s: System, scope: Scope, run: Run, r: string) returns (steps: seq<Step>)
    requires scope.quotas.maxConcurrent > 0 && Good(s, scope)
    requires run.name !in Now(s) && IsWaiting(run, scope.project)
    requires IsLoose(Now(s), scope.project, r) && Before(run, Now(s)[r])
    requires |Rivals(Now(s), scope.project, r)| == scope.quotas.maxConcurrent - 1
    ensures IsRun(Created(s, run), scope, steps)
    ensures |Busy(After(Created(s, run), scope, steps), scope)| > scope.quotas.maxConcurrent
  {
    hide Good, Keyed, Before, IsRun, After, Rivals, Busy, Requeued, Front, IsLoose, IsWaiting;
    GoodFacts(s, scope);
    var s0 := Created(s, run);
    var first := AdmitFront(s, scope, run, r);
    var s1 := After(s0, scope, first);
    var second := Requeue(s, scope, run, r, s1);
    RunsConcatenate(s0, scope, first, second);
    var s2 := After(s1, scope, second);
    NewcomerIsAdmissible(s, scope, run, r, s2);
    var third := AdmitAll(s2, scope, |s2.history| - 1, {run.name});
    RunsConcatenate(s0, scope, first + second, third);
    steps := first + second + third;
    TooManyAreBusy(s, scope, run, r, After(s0, scope, steps));
  }

  lemma AdmitFront(s: System, scope: Scope, run: Run, r: string) returns (steps: seq<Step>)
    requires scope.quotas.maxConcurrent > 0 && Good(s, scope) && run.name !in Now(s)
    requires IsLoose(Now(s), scope.project, r) && HasSlot(Now(s), scope, r)
    ensures IsRun(Created(s, run), scope, steps)
    ensures Now(After(Created(s, run), scope, steps)) == Now(s)[run.name := run]
    ensures After(Created(s, run), scope, steps).admitted.Keys == s.admitted.Keys + Front(Now(s), scope.project, r)
  {
    var s0, k := Created(s, run), |s.history| - 1;
    assert s0.history[k] == Now(s);
    forall n | n in Front(Now(s), scope.project, r) ensures Admissible(s0, scope, k, n) {
      FrontIsAdmissible(s, scope, run, r, n);
    }
    steps := AdmitAll(s0, scope, k, Front(Now(s), scope.project, r));
  }

  /** A reconcile of r, marked Running without a workload, puts it back into the queue. */
  lemma Requeue(s: System, scope: Scope, run: Run, r: string, s1: System) returns (steps: seq<Step>)
    requires scope.quotas.maxConcurrent > 0 && s.history != [] && Keyed(Now(s)) && run.name !in Now(s)
    requires IsLoose(Now(s), scope.project, r)
    requires s1.history != [] && Now(s1) == Now(s)[run.name := run]
    ensures IsRun(s1, scope, steps)
    ensures Now(After(s1, scope, steps)) == Requeued(Now(s), run, r)
    ensures After(s1, scope, steps).admitted == s1.admitted
  {
    if Now(s)[r].phase.Running? {
      var step := Bounce(r, |s1.history| - 1);
      steps := [step];
      assert steps[1..] == [];
      assert Decide(Some(scope.quotas), Now(s1), Now(s1)[r]).queue;
      assert IsRun(Next(s1, scope, step), scope, []);
    } else {
      steps := [];
      assert Requeued(Now(s), run, r) == Now(s)[run.name := run];
    }
  }

  lemma AdmittedExists(s: System, scope: Scope, n: string)
    requires Good(s, scope)
    ensures n in s.admitted ==> n in Now(s)
  {
    if n in s.admitted {
      assert AdmittedFairly(s, scope, n);
      assert Follows(s.history[s.admitted[n]], s.history[|s.history| - 1], scope);
    }
  }

  lemma NewcomerIsAdmissible(s: System, scope: Scope, run: Run, r: string, s2: System)
    requires Good(s, scope) && run.name !in Now(s) && IsWaiting(run, scope.project)
    requires IsLoose(Now(s), scope.project, r) && HasSlot(Now(s), scope, r) && Before(run, Now(s)[r])
    requires s2.history != [] && Now(s2) == Requeued(Now(s), run, r)
    requires s2.admitted.Keys == s.admitted.Keys + Front(Now(s), scope.project, r)
    ensures Admissible(s2, scope, |s2.history| - 1, run.name) && Keyed(Now(s2))
  {
    hide Good, HasSlot;
    GoodFacts(s, scope);
    NewcomerHasSlot(Now(s), scope, run, r);
    AdmittedExists(s, scope, run.name);
  }

  lemma IsBusyToo(s: System, scope: Scope, run: Run, r: string, s3: System, n: string)
    requires s.history != [] && run.name !in Now(s) && IsWaiting(run, scope.project)
    requires Active(Now(s), scope.project) <= s.admitted.Keys && IsLoose(Now(s), scope.project, r)
    requires s3.history != [] && Now(s3) == Requeued(Now(s), run, r)
    requires s3.admitted.Keys == s.admitted.Keys + Front(Now(s), scope.project, r) + {run.name}
    requires n in Rivals(Now(s), scope.project, r) + {r} + {run.name}
    ensures n in Busy(s3, scope)
  {
    hide Before;
    if n in Now(s) && IsWaiting(Now(s)[n], scope.project) {
      assert n in Front(Now(s), scope.project, r);
      assert n in s3.admitted.Keys;
    } else if n in Now(s) {
      assert n in Active(Now(s), scope.project);
      assert n in s3.admitted.Keys;
    } else {
      assert run.name in s3.admitted.Keys;
    }
  }

  lemma TooManyAreBusy(s: System, scope: Scope, run: Run, r: string, s3: System)
    requires Good(s, scope) && run.name !in Now(s) && IsWaiting(run, scope.project)
    requires IsLoose(Now(s), scope.project, r)
    requires s3.history != [] && Now(s3) == Requeued(Now(s), run, r)
    requires s3.admitted.Keys == s.admitted.Keys + Front(Now(s), scope.project, r) + {run.name}
    ensures |Busy(s3, scope)| >= |Rivals(Now(s), scope.project, r)| + 2
  {
    hide Good, Busy, Front, Requeued, Before;
    GoodFacts(s, scope);
    var rivals := Rivals(Now(s), scope.project, r);
    forall n | n in rivals + {r} + {run.name} ensures n in Busy(s3, scope) {
      IsBusyToo(s, scope, run, r, s3, n);
    }
    SubsetIsSmaller(rivals + {r} + {run.name}, Busy(s3, scope));
  }

  /** Whatever happens next, the limit holds. */
  ghost predicate LimitIsSafe(s: System, scope: Scope) {
    forall steps :: IsRun(s, scope, steps) ==> |Busy(After(s, scope, steps), scope)| <= scope.quotas.maxConcurrent
  }

  /** In every reachable state: the limit stays safe after a creation exactly if the new run overtakes nobody. */
  lemma CreationIsSafeIff(s: System, scope: Scope, run: Run)
    requires scope.quotas.maxConcurrent > 0 && Good(s, scope)
    requires run.name !in Now(s) && IsWaiting(run, scope.project)
    ensures OvertakesNobody(Now(s), scope, run) <==> LimitIsSafe(Created(s, run), scope)
  {
    if OvertakesNobody(Now(s), scope, run) {
      assert Created(s, run) == Next(s, scope, Create(run));
      GoodIsInvariant(s, scope, Create(run));
      forall steps | IsRun(Created(s, run), scope, steps)
        ensures |Busy(After(Created(s, run), scope, steps), scope)| <= scope.quotas.maxConcurrent
      {
        GoodThroughout(Created(s, run), scope, steps);
        GoodIsBounded(After(Created(s, run), scope, steps), scope);
      }
    } else {
      var r :| IsLoose(Now(s), scope.project, r) && Before(run, Now(s)[r])
        && |Rivals(Now(s), scope.project, r)| == scope.quotas.maxConcurrent - 1;
      var steps := OvertakingBreaksTheLimit(s, scope, run, r);
    }
  }

  lemma {:induction false} RunsConcatenate(s: System, scope: Scope, first: seq<Step>, second: seq<Step>)
    requires IsRun(s, scope, first) && IsRun(After(s, scope, first), scope, second)
    ensures IsRun(s, scope, first + second)
    ensures After(s, scope, first + second) == After(After(s, scope, first), scope, second)
    decreases |first|
  {
    if first == [] {
      assert first + second == second;
    } else {
      assert (first + second)[1..] == first[1..] + second;
      RunsConcatenate(Next(s, scope, first[0]), scope, first[1..], second);
    }
  }

  /** What a verdict does to its run: held, it is queued and waits on; denied, it has failed and is no longer in the queue. */
  lemma VerdictsAreWritten(s: System, scope: Scope, step: Step)
    requires s.history != [] && (step.Hold? || step.Deny?) && Enabled(s, scope, step)
    ensures var c, c' := Now(s), Now(Next(s, scope, step));
      && c'.Keys == c.Keys && (forall n :: n in c && n != step.name ==> c'[n] == c[n])
      && c'[step.name] == c[step.name].(phase := c'[step.name].phase)
      && (step.Hold? ==> c'[step.name].phase == Queued && IsWaiting(c'[step.name], scope.project))
      && (step.Deny? ==> c'[step.name].phase == Failed && !IsLive(c', scope.project, step.name))
  {
  }
}
