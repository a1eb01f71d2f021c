/** The admission decision of the BuildRun controller (internal/controller/quota.go). */
module Quota {
  import opened Wrappers
  import opened BuildRunPhase
  import Order

  /*
   One reconcile lists the project's runs, counts the active ones, ranks the waiting ones by age and admits, queues or
   denies its own run.
   */

  /** The fields of a BuildRun that the quota decision reads; an empty reference name is "". */
  datatype Run = Run(project: string, name: string, created: int, phase: Phase, jobRef: string, pipelineRunRef: string)

  datatype Quotas = Quotas(maxConcurrent: int, maxQueued: int)

  datatype QuotaDecision = QuotaDecision(queue: bool, deny: bool, active: int, queued: int)

  /** A namespace listing, keyed by run name. */
  type Cluster = map<string, Run>

  predicate HasWorkload(run: Run) {
    run.jobRef != "" || run.pipelineRunRef != ""
  }

  predicate IsActive(run: Run, project: string) {
    run.project == project && (run.phase.Running? || (run.phase.Queued? && HasWorkload(run)))
  }

  predicate IsWaiting(run: Run, project: string) {
    run.project == project && !IsTerminal(run.phase) && !run.phase.Running? && !HasWorkload(run)
  }

  /** Older first; runs created in the same second are ordered by name. */
  predicate Before(a: Run, b: Run) {
    a.created < b.created || (a.created == b.created && Order.Less(a.name, b.name))
  }

  predicate UniqueNames(runs: seq<Run>) {
    forall i, j :: 0 <= i < j < |runs| ==> runs[i].name != runs[j].name
  }

  ghost predicate Keyed(c: Cluster) {
    forall n :: n in c ==> c[n].name == n
  }

  ghost function ClusterOf(runs: seq<Run>): (c: Cluster)
    requires UniqueNames(runs)
    ensures Keyed(c) && forall r :: r in runs <==> r.name in c && c[r.name] == r
  {
    map r | r in runs :: r.name := r
  }

  ghost function Active(c: Cluster, project: string): set<string> {
    set n | n in c && IsActive(c[n], project)
  }

  ghost function Waiting(c: Cluster, project: string): set<string> {
    set n | n in c && IsWaiting(c[n], project)
  }

  /** The waiting runs that are older than the named run. */
  ghost function Ahead(c: Cluster, project: string, name: string): set<string>
    requires name in c
  {
    set n | n in c && IsWaiting(c[n], project) && Before(c[n], c[name])
  }

  function Available(quotas: Quotas, active: int): nat {
    if quotas.maxConcurrent > active then quotas.maxConcurrent - active else 0
  }

  /** The quota is consulted at all only for a limited project and a run without a workload. */
  predicate Governs(quotas: Option<Quotas>, buildRun: Run) {
    quotas.Some? && quotas.value.maxConcurrent > 0 && !HasWorkload(buildRun)
  }

  /** What a position in the queue means; -1 stands for a run that is not waiting. */
  function Verdict(quotas: Quotas, active: int, waiting: nat, rank: int): QuotaDecision {
    var available := Available(quotas, active);
    var queued := waiting - if available > waiting then waiting else available;
    if 0 <= rank < available then QuotaDecision(false, false, active, queued)
    else if quotas.maxQueued > 0 && rank - available >= quotas.maxQueued then QuotaDecision(false, true, active, queued)
    else QuotaDecision(true, false, active, queued)
  }

  /** The decision, with the rank counted rather than found by sorting. */
  ghost function Decide(quotas: Option<Quotas>, c: Cluster, buildRun: Run): QuotaDecision {
    if !Governs(quotas, buildRun) then QuotaDecision(false, false, 0, 0)
    else
      var rank := if buildRun.name in Waiting(c, buildRun.project)
                  then |Ahead(c, buildRun.project, buildRun.name)| else -1;
      Verdict(quotas.value, |Active(c, buildRun.project)|, |Waiting(c, buildRun.project)|, rank)
  }

  ghost predicate Oldest(runs: seq<Run>) {
    forall i, j :: 0 <= i < j < |runs| ==> Before(runs[i], runs[j])
  }

  ghost function Names(runs: seq<Run>): set<string> {
    set i | 0 <= i < |runs| :: runs[i].name
  }

  /** The queue of a project: its waiting runs, oldest first, each once. */
  ghost predicate IsQueue(c: Cluster, project: string, ws: seq<Run>) {
    && Oldest(ws)
    && (forall w :: w in ws ==> w.name in c && c[w.name] == w)
    && Names(ws) == Waiting(c, project)
  }

  lemma BeforeIsStrictOrder(a: Run, b: Run, c: Run)
    ensures !Before(a, a)
    ensures Before(a, b) ==> !Before(b, a)
    ensures Before(a, b) && Before(b, c) ==> Before(a, c)
    ensures a.name != b.name ==> Before(a, b) || Before(b, a)
  {
    Order.LessIsTotal(a.name, b.name);
    Order.LessIsTotal(a.name, a.name);
    if Order.Less(a.name, b.name) && Order.Less(b.name, c.name) {
      Order.LessIsTransitive(a.name, b.name, c.name);
    }
  }

  lemma {:induction false} NamesCardinality(runs: seq<Run>)
    requires UniqueNames(runs)
    ensures |Names(runs)| == |runs|
  {
    if runs == [] {
      assert Names(runs) == {};
    } else {
      var front := runs[..|runs| - 1];
      NamesCardinality(front);
      assert Names(runs) == Names(front) + {runs[|runs| - 1].name};
    }
  }

  lemma QueueIsUnique(c: Cluster, project: string, ws: seq<Run>)
    requires IsQueue(c, project, ws)
    ensures UniqueNames(ws) && |ws| == |Waiting(c, project)|
  {
    forall i, j | 0 <= i < j < |ws| ensures ws[i].name != ws[j].name {
      assert ws[i] in ws && ws[j] in ws && Before(ws[i], ws[j]);
      BeforeIsStrictOrder(ws[i], ws[j], ws[j]);
    }
    NamesCardinality(ws);
  }

  /** The position of a run in the sorted queue is the number of waiting runs older than it. */
  lemma QueuePositionIsRank(c: Cluster, project: string, ws: seq<Run>, i: nat)
    requires IsQueue(c, project, ws) && i < |ws|
    ensures ws[i].name in c && |Ahead(c, project, ws[i].name)| == i
  {
    assert ws[i] in ws;
    QueueIsUnique(c, project, ws);
    var name := ws[i].name;
    forall n ensures n in Names(ws[..i]) <==> n in Ahead(c, project, name) {
      if n in Names(ws[..i]) {
        var j :| 0 <= j < i && ws[..i][j].name == n;
        assert ws[j] in ws && Before(ws[j], ws[i]);
        assert n in Waiting(c, project);
      }
      if n in Ahead(c, project, name) {
        assert n in Waiting(c, project);
        var j :| 0 <= j < |ws| && ws[j].name == n;
        assert ws[j] in ws;
        BeforeIsStrictOrder(ws[j], ws[i], ws[j]);
        assert j < i;
        assert ws[..i][j].name == n;
      }
    }
    NamesCardinality(ws[..i]);
    assert Names(ws[..i]) == Ahead(c, project, name);
  }

  /**
   On one listing the queue falls into three consecutive stretches: admitted runs, then queued runs
   (no more than maxQueued of them when that is positive), then denied runs.
   */
  lemma DecisionsSplitTheQueue(c: Cluster, project: string, ws: seq<Run>, quotas: Quotas) returns (admitted: nat, held: nat)
    requires IsQueue(c, project, ws) && quotas.maxConcurrent > 0
    ensures admitted <= held <= |ws|
    ensures |Active(c, project)| <= quotas.maxConcurrent ==> |Active(c, project)| + admitted <= quotas.maxConcurrent
    ensures admitted < |ws| ==> |Active(c, project)| + admitted >= quotas.maxConcurrent
    ensures quotas.maxQueued > 0 ==> held - admitted <= quotas.maxQueued
    ensures held < |ws| ==> quotas.maxQueued > 0 && held - admitted == quotas.maxQueued
    ensures forall i :: 0 <= i < |ws| ==>
      var d := Decide(Some(quotas), c, ws[i]);
      && d.active == |Active(c, project)| && d.queued == |ws| - admitted
      && (i < admitted <==> !d.queue && !d.deny)
      && (admitted <= i < held <==> d.queue)
      && (held <= i <==> d.deny)
  {
    QueueIsUnique(c, project, ws);
    var available := Available(quotas, |Active(c, project)|);
    admitted := if available < |ws| then available else |ws|;
    held := if quotas.maxQueued > 0 && admitted + quotas.maxQueued < |ws| then admitted + quotas.maxQueued else |ws|;
    forall i | 0 <= i < |ws|
      ensures
        var d := Decide(Some(quotas), c, ws[i]);
        && d.active == |Active(c, project)| && d.queued == |ws| - admitted
        && (i < admitted <==> !d.queue && !d.deny)
        && (admitted <= i < held <==> d.queue)
        && (held <= i <==> d.deny)
    {
      QueuePositionIsRank(c, project, ws, i);
      assert ws[i] in ws && ws[i].name in Waiting(c, project);
    }
  }

  lemma InsertKeepsOldest(front: seq<Run>, next: Run, back: seq<Run>)
    requires Oldest(front + back)
    requires forall k :: 0 <= k < |front| ==> Before(front[k], next)
    requires forall k :: 0 <= k < |back| ==> Before(next, back[k])
    ensures Oldest(front + [next] + back)
  {
    var all := front + [next] + back;
    var rest := front + back;
    forall i, j | 0 <= i < j < |all| ensures Before(all[i], all[j]) {
      if i != |front| && j != |front| {
        var i' := if i < |front| then i else i - 1;
        var j' := if j < |front| then j else j - 1;
        assert Before(rest[i'], rest[j']);
      }
    }
  }

  /** Places one run after every older one. */
  method InsertByAge(sorted: seq<Run>, next: Run) returns (out: seq<Run>)
    requires Oldest(sorted)
    requires forall k :: 0 <= k < |sorted| ==> sorted[k].name != next.name
    ensures Oldest(out) && multiset(out) == multiset(sorted) + multiset{next}
  {
    var at := 0;
    while at < |sorted| && Before(sorted[at], next)
      invariant 0 <= at <= |sorted|
      invariant forall k :: 0 <= k < at ==> Before(sorted[k], next)
    {
      at := at + 1;
    }
    forall k | at <= k < |sorted| ensures Before(next, sorted[k]) {
      BeforeIsStrictOrder(sorted[at], next, next);
      BeforeIsStrictOrder(next, sorted[at], sorted[k]);
    }
    assert sorted == sorted[..at] + sorted[at..];
    InsertKeepsOldest(sorted[..at], next, sorted[at..]);
    out := sorted[..at] + [next] + sorted[at..];
  }

  /** sort.Slice on the waiting runs, by age. */
  method SortByAge(waiting: seq<Run>) returns (sorted: seq<Run>)
    requires UniqueNames(waiting)
    ensures Oldest(sorted) && multiset(sorted) == multiset(waiting)
  {
    sorted := [];
    for i := 0 to |waiting|
      invariant Oldest(sorted) && multiset(sorted) == multiset(waiting[..i])
    {
      forall k | 0 <= k < |sorted| ensures sorted[k].name != waiting[i].name {
        assert sorted[k] in multiset(waiting[..i]);
        assert sorted[k] in waiting[..i];
      }
      sorted := InsertByAge(sorted, waiting[i]);
      assert waiting[..i + 1] == waiting[..i] + [waiting[i]];
    }
    assert waiting[..|waiting|] == waiting;
  }

  /** The names of the active (or else the waiting) runs of a listing, gathered front to back. */
  ghost function Gathered(runs: seq<Run>, project: string, active: bool): set<string> {
    if runs == [] then {}
    else
      var last := runs[|runs| - 1];
      Gathered(runs[..|runs| - 1], project, active)
        + if (if active then IsActive(last, project) else IsWaiting(last, project)) then {last.name} else {}
  }

  lemma {:induction false} GatheredMembers(runs: seq<Run>, project: string, active: bool, n: string)
    ensures n in Gathered(runs, project, active) <==>
      exists i :: 0 <= i < |runs| && runs[i].name == n && if active then IsActive(runs[i], project) else IsWaiting(runs[i], project)
  {
    if runs == [] {
    } else {
      var front := runs[..|runs| - 1];
      GatheredMembers(front, project, active, n);
      assert forall i :: 0 <= i < |front| ==> front[i] == runs[i];
    }
  }

  lemma GatheredIsFresh(runs: seq<Run>, i: nat, project: string, active: bool)
    requires UniqueNames(runs) && i < |runs|
    ensures runs[i].name !in Gathered(runs[..i], project, active)
    ensures Gathered(runs[..i + 1], project, active) == Gathered(runs[..i], project, active)
        + if (if active then IsActive(runs[i], project) else IsWaiting(runs[i], project)) then {runs[i].name} else {}
  {
    GatheredMembers(runs[..i], project, active, runs[i].name);
    assert runs[..i + 1][..i] == runs[..i];
  }

  lemma GatheredIsWhole(runs: seq<Run>, project: string)
    requires UniqueNames(runs)
    ensures Gathered(runs, project, true) == Active(ClusterOf(runs), project)
    ensures Gathered(runs, project, false) == Waiting(ClusterOf(runs), project)
  {
    var c := ClusterOf(runs);
    forall n
      ensures n in Gathered(runs, project, true) <==> n in Active(c, project)
      ensures n in Gathered(runs, project, false) <==> n in Waiting(c, project)
    {
      GatheredMembers(runs, project, true, n);
      GatheredMembers(runs, project, false, n);
      assert forall i :: 0 <= i < |runs| ==> runs[i] in runs;
      if n in c {
        assert c[n] in runs;
      }
    }
  }

  /** The classification loop: how many runs of the project are active, and which are waiting. */
  method Classify(runs: seq<Run>, project: string) returns (active: nat, waiting: seq<Run>)
    requires UniqueNames(runs)
    ensures active == |Active(ClusterOf(runs), project)|
    ensures UniqueNames(waiting) && Names(waiting) == Waiting(ClusterOf(runs), project)
    ensures forall w :: w in waiting ==> w in runs
  {
    hide Gathered, UniqueNames;
    GatheredFromNothing(runs, project);
    active, waiting := 0, [];
    for i := 0 to |runs|
      invariant active == |Gathered(runs[..i], project, true)|
      invariant Names(waiting) == Gathered(runs[..i], project, false)
      invariant UniqueNames(waiting)
      invariant forall w :: w in waiting ==> w in runs
    {
      var candidate := runs[i];
      GatheredIsFresh(runs, i, project, true);
      GatheredIsFresh(runs, i, project, false);
      if candidate.project != project || IsTerminal(candidate.phase) {
        // neither counted nor queued
      } else if candidate.phase.Running? || (candidate.phase.Queued? && HasWorkload(candidate)) {
        active := active + 1;
      } else if !HasWorkload(candidate) {
        waiting := QueueUp(waiting, candidate);
      }
    }
    assert runs[..|runs|] == runs;
    GatheredIsWhole(runs, project);
  }

  lemma GatheredFromNothing(runs: seq<Run>, project: string)
    ensures UniqueNames([]) && Names([]) == {}
    ensures Gathered(runs[..0], project, true) == {} && Gathered(runs[..0], project, false) == {}
  {
  }

  method QueueUp(waiting: seq<Run>, candidate: Run) returns (longer: seq<Run>)
    requires UniqueNames(waiting) && candidate.name !in Names(waiting)
    ensures longer == waiting + [candidate]
    ensures UniqueNames(longer) && Names(longer) == Names(waiting) + {candidate.name}
  {
    longer := waiting + [candidate];
    forall n ensures n in Names(longer) <==> n in Names(waiting) + {candidate.name} {
      if n in Names(waiting) {
        var k :| 0 <= k < |waiting| && waiting[k].name == n;
        assert longer[k].name == n;
      }
      assert longer[|waiting|].name == candidate.name;
    }
  }

  /** The search loop: the index of the named run, or -1. */
  method RankOf(waiting: seq<Run>, name: string) returns (targetRank: int)
    ensures targetRank == -1 || (0 <= targetRank < |waiting| && waiting[targetRank].name == name)
    ensures targetRank == -1 <==> name !in Names(waiting)
  {
    targetRank := -1;
    for i := 0 to |waiting|
      invariant forall k :: 0 <= k < i ==> waiting[k].name != name
    {
      if waiting[i].name == name {
        targetRank := i;
        break;
      }
    }
  }

  method EvaluateProjectQuota(runs: seq<Run>, buildRun: Run, quotas: Option<Quotas>) returns (decision: QuotaDecision)
    requires UniqueNames(runs)
    ensures decision == Decide(quotas, ClusterOf(runs), buildRun)
  {
    if quotas.None? || quotas.value.maxConcurrent <= 0 || buildRun.jobRef != "" || buildRun.pipelineRunRef != "" {
      return QuotaDecision(false, false, 0, 0);
    }
    ghost var c := ClusterOf(runs);
    var active, unsorted := Classify(runs, buildRun.project);
    var waiting := SortByAge(unsorted);
    SortKeepsQueue(c, buildRun.project, unsorted, waiting);
    var available := Available(quotas.value, active);
    var targetRank := RankOf(waiting, buildRun.name);
    RankIsCounted(c, buildRun, waiting, targetRank);
    var admitted := available;
    if admitted > |waiting| {
      admitted := |waiting|;
    }
    if targetRank >= 0 && targetRank < available {
      return QuotaDecision(false, false, active, |waiting| - admitted);
    }
    var queueRank := targetRank - available;
    if quotas.value.maxQueued > 0 && queueRank >= quotas.value.maxQueued {
      return QuotaDecision(false, true, active, |waiting| - admitted);
    }
    return QuotaDecision(true, false, active, |waiting| - admitted);
  }

  lemma RankIsCounted(c: Cluster, buildRun: Run, waiting: seq<Run>, targetRank: int)
    requires IsQueue(c, buildRun.project, waiting)
    requires targetRank == -1 || (0 <= targetRank < |waiting| && waiting[targetRank].name == buildRun.name)
    requires targetRank == -1 <==> buildRun.name !in Names(waiting)
    ensures |waiting| == |Waiting(c, buildRun.project)|
    ensures targetRank == -1 <==> buildRun.name !in Waiting(c, buildRun.project)
    ensures targetRank >= 0 ==> targetRank == |Ahead(c, buildRun.project, buildRun.name)|
  {
    QueueIsUnique(c, buildRun.project, waiting);
    if targetRank >= 0 {
      QueuePositionIsRank(c, buildRun.project, waiting, targetRank);
    }
  }

  lemma SortKeepsQueue(c: Cluster, project: string, unsorted: seq<Run>, sorted: seq<Run>)
    requires forall w :: w in unsorted ==> w.name in c && c[w.name] == w
    requires Names(unsorted) == Waiting(c, project)
    requires Oldest(sorted) && multiset(sorted) == multiset(unsorted)
    ensures IsQueue(c, project, sorted)
  {
    forall w ensures w in sorted <==> w in unsorted {
      assert w in multiset(sorted) <==> w in multiset(unsorted);
    }
    forall n ensures n in Names(sorted) <==> n in Names(unsorted) {
      if n in Names(sorted) {
        var i :| 0 <= i < |sorted| && sorted[i].name == n;
        assert sorted[i] in unsorted;
      }
      if n in Names(unsorted) {
        var i :| 0 <= i < |unsorted| && unsorted[i].name == n;
        assert unsorted[i] in sorted;
      }
    }
  }

  // ---- The decision in terms of the runs' own fields ----

  /** Created earlier, or in the same second with a name that sorts first. */
  ghost predicate Earlier(a: Run, b: Run) {
    a.created < b.created || (a.created == b.created && Order.SortsFirst(a.name, b.name))
  }

  /** A run nobody has started: no phase yet, pending or queued, and no workload. */
  predicate Unstarted(run: Run) {
    (run.phase.Unset? || run.phase.Pending? || run.phase.Queued?) && run.jobRef == "" && run.pipelineRunRef == ""
  }

  predicate Occupies(run: Run) {
    run.phase.Running? || (run.phase.Queued? && (run.jobRef != "" || run.pipelineRunRef != ""))
  }

  /**
   A run without a workload in a limited project is admitted exactly if it is unstarted and the runs that occupy the
   project, with the unstarted ones created earlier, leave it a place; it is denied exactly if at least as many earlier
   ones without a place are in front of it as may be queued.
   */
  lemma DecisionIs(c: Cluster, run: Run, quotas: Quotas)
    requires Keyed(c) && quotas.maxConcurrent > 0 && run.jobRef == "" && run.pipelineRunRef == ""
    requires run.name in c ==> c[run.name] == run
    ensures var d := Decide(Some(quotas), c, run);
      var occupying := set n | n in c && c[n].project == run.project && Occupies(c[n]);
      var unstarted := set n | n in c && c[n].project == run.project && Unstarted(c[n]);
      var ahead := set n | n in unstarted && Earlier(c[n], run);
      var free := if |occupying| < quotas.maxConcurrent then quotas.maxConcurrent - |occupying| else 0;
      && d.active == |occupying|
      && d.queued == (if |unstarted| > free then |unstarted| - free else 0)
      && (!d.queue && !d.deny <==> run.name in unstarted && |occupying| + |ahead| < quotas.maxConcurrent)
      && (d.deny <==> run.name in unstarted && quotas.maxQueued > 0 && |ahead| >= free + quotas.maxQueued)
      && !(d.queue && d.deny)
  {
    var p := run.project;
    forall n | n in c ensures Before(c[n], run) <==> Earlier(c[n], run) { Order.LessIff(c[n].name, run.name); }
    assert Active(c, p) == set n | n in c && c[n].project == p && Occupies(c[n]);
    var unstarted := set n | n in c && c[n].project == p && Unstarted(c[n]);
    assert Waiting(c, p) == unstarted;
    if run.name in unstarted {
      assert Ahead(c, p, run.name) == set n | n in unstarted && Earlier(c[n], run);
    }
  }

  /** A run that has its workload, or whose project has no limit, is let through. */
  lemma UngovernedRunsPass(c: Cluster, run: Run, quotas: Option<Quotas>)
    requires quotas.None? || quotas.value.maxConcurrent <= 0 || run.jobRef != "" || run.pipelineRunRef != ""
    ensures Decide(quotas, c, run) == QuotaDecision(false, false, 0, 0)
  {
  }

  lemma SubsetIsSmaller<T>(a: set<T>, b: set<T>)
    requires a <= b
    ensures |a| <= |b|
    ensures a != b ==> |a| < |b|
  {
    assert b == a + (b - a);
    assert |b| == |a| + |b - a|;
  }

  lemma LaterRankIsHigher(c: Cluster, project: string, x: string, y: string)
    requires Keyed(c) && x in Waiting(c, project) && y in Waiting(c, project) && Before(c[y], c[x])
    ensures |Ahead(c, project, y)| < |Ahead(c, project, x)|
  {
    forall n | n in Ahead(c, project, y) ensures n in Ahead(c, project, x) { BeforeIsStrictOrder(c[n], c[y], c[x]); }
    BeforeIsStrictOrder(c[y], c[y], c[y]);
    assert y in Ahead(c, project, x) && y !in Ahead(c, project, y);
    SubsetIsSmaller(Ahead(c, project, y), Ahead(c, project, x));
  }

  /**
   On one listing the queue of a project is first come, first served: an admitted run was created before every queued or
   denied one, and a queued run before every denied one; within one second the names decide.
   */
  lemma FirstComeFirstServed(c: Cluster, quotas: Quotas, project: string, x: string, y: string)
    requires Keyed(c) && quotas.maxConcurrent > 0 && x in c && y in c
    requires c[x].project == project && c[y].project == project && Unstarted(c[x]) && Unstarted(c[y])
    ensures var dx, dy := Decide(Some(quotas), c, c[x]), Decide(Some(quotas), c, c[y]);
      && (!dx.queue && !dx.deny && (dy.queue || dy.deny) ==> Earlier(c[x], c[y]))
      && (dx.queue && dy.deny ==> Earlier(c[x], c[y]))
  {
    Order.LessIff(x, y);
    BeforeIsStrictOrder(c[x], c[y], c[y]);
    assert x in Waiting(c, project) && y in Waiting(c, project);
    if x != y && Before(c[y], c[x]) { LaterRankIsHigher(c, project, x, y); }
  }
}
