/** Deduplication of webhook deliveries (internal/api/server.go). */
module Webhook {
  import opened Wrappers
  import opened DnsLabel

  /*
   An index of processed events is consulted first and written last, and BuildRun names derived from the event are kept
   unique by the cluster.
   */

  /** Pings and filtered events create no BuildRun. */
  datatype Kind = Build | Silent

  datatype Delivery = Delivery(namespace: string, provider: string, repository: string, event: string, kind: Kind)

  datatype Reply = Created(run: string) | Duplicate(known: Option<string>) | Accepted

  /** How far a delivery's handler has come; any of them may die on the way. */
  datatype Stage = Arrived | Unindexed | Clear | Made | Replied(reply: Reply) | Dead

  /** The index has no namespace in its key. */
  datatype IndexKey = IndexKey(provider: string, repository: string, event: string)

  datatype RunKey = RunKey(namespace: string, name: string)

  datatype Origin = Origin(repository: string, event: string)

  /** Without an index nothing is found in it and nothing recorded. */
  datatype System = System(indexed: bool, runs: map<RunKey, Origin>, index: map<IndexKey, string>, stages: seq<Stage>)

  /** The BuildRun names, one for every repository and event, are any strings but the empty one. */
  ghost predicate Usable(name: Origin -> string) {
    forall o :: name(o) != ""
  }

  function KeyOf(d: Delivery): IndexKey {
    IndexKey(d.provider, d.repository, d.event)
  }

  function OriginOf(d: Delivery): Origin {
    Origin(d.repository, d.event)
  }

  function RunOf(name: Origin -> string, d: Delivery): RunKey {
    RunKey(d.namespace, name(OriginOf(d)))
  }

  /** Each step of delivery i; a listing may be out of date and miss a BuildRun that exists. */
  datatype Step =
    | Find(i: nat)
    | List(i: nat, found: Option<string>)
    | Act(i: nat)
    | Note(i: nat)
    | Die(i: nat)

  predicate Enabled(ds: seq<Delivery>, s: System, step: Step) {
    && step.i < |ds| == |s.stages|
    && match step
       case Find(i) => s.stages[i].Arrived?
       case List(i, found) =>
         && s.stages[i].Unindexed?
         && (found.Some? ==>
           var key := RunKey(ds[i].namespace, found.value); key in s.runs && s.runs[key] == OriginOf(ds[i]))
       case Act(i) => s.stages[i].Clear?
       case Note(i) => s.stages[i].Made?
       case Die(i) => !s.stages[i].Replied?
  }

  /** The first entry for a key stays; a later one is ignored. */
  function Insert(s: System, key: IndexKey, run: string): map<IndexKey, string> {
    if !s.indexed || key in s.index then s.index else s.index[key := run]
  }

  /** existingBuildRunForEvent, its part on the index: the answer it gives, if any. */
  function Indexed(s: System, d: Delivery): Option<Reply> {
    if KeyOf(d) !in s.index then None
    else
      var run := s.index[KeyOf(d)];
      Some(Duplicate(if run != "" && RunKey(d.namespace, run) in s.runs then Some(run) else None))
  }

  ghost function Next(ds: seq<Delivery>, name: Origin -> string, s: System, step: Step): System
    requires Enabled(ds, s, step)
  {
    var i, d := step.i, ds[step.i];
    match step
    case Find(_) =>
      var answer := Indexed(s, d);
      s.(stages := s.stages[i := if answer.Some? then Replied(answer.value) else Unindexed])
    case List(_, found) => s.(stages := s.stages[i := if found.Some? then Replied(Duplicate(found)) else Clear])
    case Act(_) =>
      if d.kind.Silent? then s.(index := Insert(s, KeyOf(d), ""), stages := s.stages[i := Replied(Accepted)])
      else if RunOf(name, d) in s.runs then s.(stages := s.stages[i := Replied(Duplicate(Some(name(OriginOf(d)))))])
      else s.(runs := s.runs[RunOf(name, d) := OriginOf(d)], stages := s.stages[i := Made])
    case Note(_) =>
      s.(index := Insert(s, KeyOf(d), name(OriginOf(d))), stages := s.stages[i := Replied(Created(name(OriginOf(d))))])
    case Die(_) => s.(stages := s.stages[i := Dead])
  }

  ghost predicate IsRun(ds: seq<Delivery>, name: Origin -> string, s: System, steps: seq<Step>)
    decreases |steps|
  {
    steps == [] || (Enabled(ds, s, steps[0]) && IsRun(ds, name, Next(ds, name, s, steps[0]), steps[1..]))
  }

  ghost function After(ds: seq<Delivery>, name: Origin -> string, s: System, steps: seq<Step>): System
    requires IsRun(ds, name, s, steps)
    decreases |steps|
  {
    if steps == [] then s else After(ds, name, Next(ds, name, s, steps[0]), steps[1..])
  }

  predicate Init(ds: seq<Delivery>, s: System) {
    s == System(s.indexed, map[], map[], seq(|ds|, _ => Arrived))
  }

  // ---- At most one BuildRun per event, and replies that name it ----

  /** The run a reply names, if it names one. */
  function NamedRun(reply: Reply): Option<string> {
    match reply
    case Created(run) => Some(run)
    case Duplicate(known) => known
    case Accepted => None
  }

  ghost predicate GoodStage(name: Origin -> string, s: System, d: Delivery, stage: Stage) {
    match stage
    case Made => d.kind.Build? && RunOf(name, d) in s.runs
    case Replied(reply) =>
      && (NamedRun(reply).Some? ==> NamedRun(reply).value == name(OriginOf(d)) && RunOf(name, d) in s.runs)
      && (reply.Accepted? ==> d.kind.Silent?) && (reply.Created? ==> d.kind.Build?)
    case _ => true
  }

  /** The BuildRun was made by one of the deliveries. */
  ghost predicate HasMaker(ds: seq<Delivery>, name: Origin -> string, k: RunKey, o: Origin) {
    exists j :: 0 <= j < |ds| && ds[j].kind.Build? && RunOf(name, ds[j]) == k && OriginOf(ds[j]) == o
  }

  ghost predicate Good(ds: seq<Delivery>, name: Origin -> string, s: System) {
    && |s.stages| == |ds|
    && (forall k :: k in s.runs ==> HasMaker(ds, name, k, s.runs[k]))
    && (forall k :: k in s.index ==> s.index[k] == "" || s.index[k] == name(Origin(k.repository, k.event)))
    && (forall i :: 0 <= i < |ds| ==> GoodStage(name, s, ds[i], s.stages[i]))
  }

  /** BuildRuns are never deleted here, so what was good for a delivery stays good. */
  lemma GoodStageStays(name: Origin -> string, s: System, s': System, d: Delivery, stage: Stage)
    requires GoodStage(name, s, d, stage) && forall k :: k in s.runs ==> k in s'.runs
    ensures GoodStage(name, s', d, stage)
  {
  }

  lemma OwnStageIsGood(ds: seq<Delivery>, name: Origin -> string, s: System, step: Step)
    requires Good(ds, name, s) && Enabled(ds, s, step)
    ensures GoodStage(name, Next(ds, name, s, step), ds[step.i], Next(ds, name, s, step).stages[step.i])
  {
    assert GoodStage(name, s, ds[step.i], s.stages[step.i]);
  }

  lemma ActMakes(ds: seq<Delivery>, name: Origin -> string, s: System, step: Step)
    requires Enabled(ds, s, step)
    ensures var s' := Next(ds, name, s, step);
      forall k :: k in s'.runs ==> (k in s.runs && s'.runs[k] == s.runs[k]) || HasMaker(ds, name, k, s'.runs[k])
  {
  }

  lemma GoodIsInvariant(ds: seq<Delivery>, name: Origin -> string, s: System, step: Step)
    requires Good(ds, name, s) && Enabled(ds, s, step)
    ensures Good(ds, name, Next(ds, name, s, step))
  {
    hide GoodStage, HasMaker;
    var s' := Next(ds, name, s, step);
    OwnStageIsGood(ds, name, s, step);
    ActMakes(ds, name, s, step);
    forall i | 0 <= i < |ds| && i != step.i ensures GoodStage(name, s', ds[i], s'.stages[i]) {
      GoodStageStays(name, s, s', ds[i], s.stages[i]);
    }
  }

  lemma {:induction false} GoodThroughout(ds: seq<Delivery>, name: Origin -> string, s: System, steps: seq<Step>)
    requires Good(ds, name, s) && IsRun(ds, name, s, steps)
    ensures Good(ds, name, After(ds, name, s, steps))
    decreases |steps|
  {
    if steps == [] {
    } else {
      GoodIsInvariant(ds, name, s, steps[0]);
      GoodThroughout(ds, name, Next(ds, name, s, steps[0]), steps[1..]);
    }
  }

  /** Two deliveries to build whose events differ and whose BuildRuns would bear one name in one namespace. */
  predicate Clash(name: Origin -> string, d: Delivery, e: Delivery) {
    d.kind.Build? && e.kind.Build? && d.namespace == e.namespace
    && OriginOf(d) != OriginOf(e) && name(OriginOf(d)) == name(OriginOf(e))
  }

  ghost predicate NoClash(ds: seq<Delivery>, name: Origin -> string) {
    forall i, j :: 0 <= i < |ds| && 0 <= j < |ds| ==> !Clash(name, ds[i], ds[j])
  }

  /** If a reply to a delivery to build carries a BuildRun, it carries that of the delivery's own event. */
  ghost predicate NamesItsOwn(s: System, d: Delivery, stage: Stage) {
    d.kind.Build? && stage.Replied? && NamedRun(stage.reply).Some? ==>
      var key := RunKey(d.namespace, NamedRun(stage.reply).value); key in s.runs && s.runs[key] == OriginOf(d)
  }

  ghost predicate AllNameTheirOwn(ds: seq<Delivery>, s: System) {
    |s.stages| == |ds| && forall i :: 0 <= i < |ds| ==> NamesItsOwn(s, ds[i], s.stages[i])
  }

  lemma GoodNamesItsOwn(ds: seq<Delivery>, name: Origin -> string, s: System, i: nat)
    requires NoClash(ds, name) && Good(ds, name, s) && i < |ds|
    ensures NamesItsOwn(s, ds[i], s.stages[i])
  {
    var d := ds[i];
    assert GoodStage(name, s, d, s.stages[i]);
    if d.kind.Build? && s.stages[i].Replied? && NamedRun(s.stages[i].reply).Some? {
      var j :| 0 <= j < |ds| && ds[j].kind.Build? && RunOf(name, ds[j]) == RunOf(name, d)
        && OriginOf(ds[j]) == s.runs[RunOf(name, d)];
      assert !Clash(name, d, ds[j]);
    }
  }

  /**
   For every interleaving, with crashes anywhere: an event has at most one BuildRun in a namespace; and unless names clash,
   every reply to a delivery to build that carries a BuildRun carries that one.
   */
  lemma OneRunPerEvent(ds: seq<Delivery>, name: Origin -> string, s: System, steps: seq<Step>)
    requires Init(ds, s) && IsRun(ds, name, s, steps)
    ensures var last := After(ds, name, s, steps);
      && (forall k, l :: k in last.runs && l in last.runs && k.namespace == l.namespace && last.runs[k] == last.runs[l] ==> k == l)
      && (NoClash(ds, name) ==> AllNameTheirOwn(ds, last))
  {
    assert Good(ds, name, s);
    hide NamesItsOwn, GoodStage, NoClash;
    GoodThroughout(ds, name, s, steps);
    var last := After(ds, name, s, steps);
    if NoClash(ds, name) {
      forall i | 0 <= i < |ds| ensures NamesItsOwn(last, ds[i], last.stages[i]) {
        GoodNamesItsOwn(ds, name, last, i);
      }
    }
  }

  // ---- No delivery is dropped, unless the index answers it for another one ----

  /** Delivery j may leave an index entry that hides the BuildRun that delivery i should get. */
  predicate Hides(j: Delivery, i: Delivery) {
    && i.provider == j.provider && i.repository == j.repository && i.event == j.event
    && i.kind.Build? && (i.namespace != j.namespace || j.kind.Silent?)
  }

  /** No delivery hides another one: what the index must be spared. */
  predicate NothingHidden(ds: seq<Delivery>) {
    forall i, j :: 0 <= i < |ds| && 0 <= j < |ds| ==> !Hides(ds[j], ds[i])
  }

  /** The index entry was written by a delivery that had its BuildRun, or needed none. */
  ghost predicate WrittenBy(name: Origin -> string, s: System, d: Delivery, k: IndexKey) {
    && KeyOf(d) == k && k in s.index
    && (d.kind.Build? ==> s.index[k] == name(OriginOf(d)) && RunOf(name, d) in s.runs)
  }

  ghost predicate Answered(d: Delivery, stage: Stage) {
    d.kind.Build? && stage.Replied? ==> NamedRun(stage.reply).Some?
  }

  ghost predicate AllAnswered(ds: seq<Delivery>, s: System) {
    |s.stages| == |ds| && forall i :: 0 <= i < |ds| ==> Answered(ds[i], s.stages[i])
  }

  ghost predicate Explained(ds: seq<Delivery>, name: Origin -> string, s: System)
    requires Good(ds, name, s)
  {
    && (!s.indexed ==> s.index == map[])
    && (forall k :: k in s.index ==> exists i :: 0 <= i < |ds| && WrittenBy(name, s, ds[i], k))
    && AllAnswered(ds, s)
  }

  lemma ExplainedIsInvariant(ds: seq<Delivery>, name: Origin -> string, s: System, step: Step)
    requires Usable(name) && (s.indexed ==> NothingHidden(ds))
    requires Good(ds, name, s) && Explained(ds, name, s) && Enabled(ds, s, step)
    ensures Good(ds, name, Next(ds, name, s, step)) && Explained(ds, name, Next(ds, name, s, step))
  {
    hide Usable, Good, GoodStage, NothingHidden;
    GoodIsInvariant(ds, name, s, step);
    var s' := Next(ds, name, s, step);
    var d := ds[step.i];
    forall k | k in s'.index ensures exists i :: 0 <= i < |ds| && WrittenBy(name, s', ds[i], k) {
      if k in s.index {
        var i :| 0 <= i < |ds| && WrittenBy(name, s, ds[i], k);
        assert WrittenBy(name, s', ds[i], k);
      } else {
        MadeHasItsRun(ds, name, s, step.i);
        assert WrittenBy(name, s', d, k);
      }
    }
    if step.Find? && KeyOf(d) in s.index && d.kind.Build? {
      var j :| 0 <= j < |ds| && WrittenBy(name, s, ds[j], KeyOf(d));
      NameIsNotEmpty(name, OriginOf(d));
      NotHidden(ds, step.i, j);
    }
  }

  lemma NotHidden(ds: seq<Delivery>, i: nat, j: nat)
    requires NothingHidden(ds) && i < |ds| && j < |ds| && KeyOf(ds[i]) == KeyOf(ds[j]) && ds[i].kind.Build?
    ensures ds[i].namespace == ds[j].namespace && ds[j].kind.Build?
  {
    assert !Hides(ds[j], ds[i]);
  }

  lemma StageIsGood(ds: seq<Delivery>, name: Origin -> string, s: System, i: nat)
    requires Good(ds, name, s) && i < |ds|
    ensures |s.stages| == |ds| && GoodStage(name, s, ds[i], s.stages[i])
  {
  }

  lemma MadeHasItsRun(ds: seq<Delivery>, name: Origin -> string, s: System, i: nat)
    requires Good(ds, name, s) && i < |ds|
    ensures |s.stages| == |ds| && (s.stages[i].Made? ==> ds[i].kind.Build? && RunOf(name, ds[i]) in s.runs)
  {
    assert GoodStage(name, s, ds[i], s.stages[i]);
  }

  lemma NameIsNotEmpty(name: Origin -> string, o: Origin)
    requires Usable(name)
    ensures name(o) != ""
  {
  }

  lemma {:induction false} ExplainedThroughout(ds: seq<Delivery>, name: Origin -> string, s: System, steps: seq<Step>)
    requires Usable(name) && (s.indexed ==> NothingHidden(ds))
    requires Good(ds, name, s) && Explained(ds, name, s) && IsRun(ds, name, s, steps)
    ensures Good(ds, name, After(ds, name, s, steps)) && Explained(ds, name, After(ds, name, s, steps))
    decreases |steps|
  {
    hide Usable, NothingHidden, Good;
    if steps == [] {
    } else {
      ExplainedIsInvariant(ds, name, s, steps[0]);
      ExplainedThroughout(ds, name, Next(ds, name, s, steps[0]), steps[1..]);
    }
  }

  lemma InitIsGood(ds: seq<Delivery>, name: Origin -> string, s: System)
    requires Init(ds, s)
    ensures Good(ds, name, s) && Explained(ds, name, s)
  {
  }

  /**
   When no names clash, and no delivery hides another or there is no index, every delivery of an event to build that is
   answered at all is answered with the event's own BuildRun in its namespace: also the one that comes after a crash
   between creation and index.
   */
  lemma AnsweredMeansBuilt(ds: seq<Delivery>, name: Origin -> string, s: System, steps: seq<Step>, i: nat)
    requires Usable(name) && NoClash(ds, name) && (s.indexed ==> NothingHidden(ds))
    requires Init(ds, s) && IsRun(ds, name, s, steps)
    requires i < |ds| && ds[i].kind.Build?
    ensures var last := After(ds, name, s, steps);
      && |last.stages| == |ds|
      && (last.stages[i].Replied? ==>
        && NamedRun(last.stages[i].reply) == Some(name(OriginOf(ds[i])))
        && RunOf(name, ds[i]) in last.runs && last.runs[RunOf(name, ds[i])] == OriginOf(ds[i]))
  {
    hide Usable, NoClash, NothingHidden;
    InitIsGood(ds, name, s);
    ExplainedThroughout(ds, name, s, steps);
    var last := After(ds, name, s, steps);
    StageIsGood(ds, name, last, i);
    assert Answered(ds[i], last.stages[i]);
    GoodNamesItsOwn(ds, name, last, i);
  }

  // ---- The other way round ----

  lemma OneStep(ds: seq<Delivery>, name: Origin -> string, s: System, step: Step, s': System, rest: seq<Step>)
    requires Enabled(ds, s, step) && Next(ds, name, s, step) == s' && IsRun(ds, name, s', rest)
    ensures IsRun(ds, name, s, [step] + rest) && After(ds, name, s, [step] + rest) == After(ds, name, s', rest)
  {
    assert ([step] + rest)[1..] == rest;
  }

  /** What the index and the cluster hold once delivery d alone has been handled, from nothing. */
  ghost function HandledRuns(name: Origin -> string, d: Delivery): map<RunKey, Origin> {
    if d.kind.Build? then map[RunOf(name, d) := OriginOf(d)] else map[]
  }

  ghost function HandledIndex(name: Origin -> string, d: Delivery): map<IndexKey, string> {
    map[KeyOf(d) := if d.kind.Build? then name(OriginOf(d)) else ""]
  }

  ghost function HandledReply(name: Origin -> string, d: Delivery): Reply {
    if d.kind.Build? then Created(name(OriginOf(d))) else Accepted
  }

  /** Delivery j is handled first, from the initial state on; then comes what comes. */
  lemma HandleFirst(ds: seq<Delivery>, name: Origin -> string, s: System, j: nat, rest: seq<Step>) returns (steps: seq<Step>)
    requires Init(ds, s) && s.indexed && j < |ds|
    requires IsRun(ds, name,
                 System(true, HandledRuns(name, ds[j]), HandledIndex(name, ds[j]),
                        s.stages[j := Replied(HandledReply(name, ds[j]))]), rest)
    ensures IsRun(ds, name, s, steps)
    ensures After(ds, name, s, steps) == After(ds, name,
                 System(true, HandledRuns(name, ds[j]), HandledIndex(name, ds[j]),
                        s.stages[j := Replied(HandledReply(name, ds[j]))]), rest)
  {
    var d := ds[j];
    var s1 := s.(stages := s.stages[j := Unindexed]);
    var s2 := s.(stages := s.stages[j := Clear]);
    var s3 := s.(runs := HandledRuns(name, d), stages := s.stages[j := Made]);
    var s4 := System(true, HandledRuns(name, d), HandledIndex(name, d), s.stages[j := Replied(HandledReply(name, d))]);
    assert s1.stages[j := Clear] == s2.stages && s2.stages[j := Made] == s3.stages;
    assert s3.stages[j := Replied(HandledReply(name, d))] == s4.stages == s2.stages[j := Replied(HandledReply(name, d))];
    var tail: seq<Step>;
    if d.kind.Build? {
      OneStep(ds, name, s3, Note(j), s4, rest);
      OneStep(ds, name, s2, Act(j), s3, [Note(j)] + rest);
      tail := [Act(j)] + ([Note(j)] + rest);
    } else {
      OneStep(ds, name, s2, Act(j), s4, rest);
      tail := [Act(j)] + rest;
    }
    OneStep(ds, name, s1, List(j, None), s2, tail);
    OneStep(ds, name, s, Find(j), s1, [List(j, None)] + tail);
    steps := [Find(j)] + ([List(j, None)] + tail);
  }

  /** Whenever one delivery hides another, handling it first leaves the other answered as a duplicate and never built. */
  lemma HiddenDeliveryIsDropped(ds: seq<Delivery>, name: Origin -> string, s: System, i: nat, j: nat) returns (steps: seq<Step>)
    requires Init(ds, s) && s.indexed && i < |ds| && j < |ds| && Hides(ds[j], ds[i])
    ensures IsRun(ds, name, s, steps)
    ensures var last := After(ds, name, s, steps);
      |last.stages| == |ds| && last.stages[i] == Replied(Duplicate(None)) && RunOf(name, ds[i]) !in last.runs
  {
    var d := ds[j];
    var handled := System(true, HandledRuns(name, d), HandledIndex(name, d), s.stages[j := Replied(HandledReply(name, d))]);
    assert Indexed(handled, ds[i]) == Some(Duplicate(None));
    var last := handled.(stages := handled.stages[i := Replied(Duplicate(None))]);
    OneStep(ds, name, handled, Find(i), last, []);
    assert [Find(i)] + [] == [Find(i)];
    steps := HandleFirst(ds, name, s, j, [Find(i)]);
  }

  /** Whenever two names clash, making the one BuildRun first leaves the other delivery answered with it, and never built. */
  lemma ClashTakesTheOthersRun(ds: seq<Delivery>, name: Origin -> string, s: System, i: nat, j: nat) returns (steps: seq<Step>)
    requires Init(ds, s) && i < |ds| && j < |ds| && Clash(name, ds[i], ds[j])
    ensures IsRun(ds, name, s, steps)
    ensures var last := After(ds, name, s, steps);
      && |last.stages| == |ds| && last.stages[i] == Replied(Duplicate(Some(name(OriginOf(ds[i])))))
      && last.runs == map[RunOf(name, ds[i]) := OriginOf(ds[j])]
  {
    var k := RunOf(name, ds[j]);
    var s1 := s.(stages := s.stages[j := Unindexed]);
    var s2 := s.(stages := s.stages[j := Clear]);
    var s3 := s.(runs := map[k := OriginOf(ds[j])], stages := s.stages[j := Made]);
    var s4 := s3.(stages := s3.stages[i := Unindexed]);
    var s5 := s3.(stages := s3.stages[i := Clear]);
    var s6 := s3.(stages := s3.stages[i := Replied(Duplicate(Some(name(OriginOf(ds[i])))))]);
    assert s1.stages[j := Clear] == s2.stages && s2.stages[j := Made] == s3.stages;
    assert s4.stages[i := Clear] == s5.stages;
    assert s5.stages[i := Replied(Duplicate(Some(name(OriginOf(ds[i])))))] == s6.stages;
    OneStep(ds, name, s5, Act(i), s6, []);
    OneStep(ds, name, s4, List(i, None), s5, [Act(i)] + []);
    var rest := [List(i, None)] + ([Act(i)] + []);
    OneStep(ds, name, s3, Find(i), s4, rest);
    rest := [Find(i)] + rest;
    OneStep(ds, name, s2, Act(j), s3, rest);
    rest := [Act(j)] + rest;
    OneStep(ds, name, s1, List(j, None), s2, rest);
    rest := [List(j, None)] + rest;
    OneStep(ds, name, s, Find(j), s1, rest);
    steps := [Find(j)] + rest;
  }

  /** In every run, the replies to deliveries to build that carry a BuildRun carry that of their own event. */
  ghost predicate RunsAreNotMistaken(ds: seq<Delivery>, name: Origin -> string, s: System) {
    forall steps :: IsRun(ds, name, s, steps) ==> AllNameTheirOwn(ds, After(ds, name, s, steps))
  }

  /** Exactly when no two deliveries to build have clashing names. */
  lemma RunsAreNotMistakenIff(ds: seq<Delivery>, name: Origin -> string, s: System)
    requires Init(ds, s)
    ensures RunsAreNotMistaken(ds, name, s) <==> NoClash(ds, name)
  {
    if NoClash(ds, name) {
      forall steps | IsRun(ds, name, s, steps) ensures AllNameTheirOwn(ds, After(ds, name, s, steps)) {
        OneRunPerEvent(ds, name, s, steps);
      }
    } else {
      var i, j :| 0 <= i < |ds| && 0 <= j < |ds| && Clash(name, ds[i], ds[j]);
      var steps := ClashTakesTheOthersRun(ds, name, s, i, j);
      var last := After(ds, name, s, steps);
      assert !NamesItsOwn(last, ds[i], last.stages[i]);
    }
  }

  /** Every delivery to build that is answered, in any run, is answered with the BuildRun of its own event. */
  ghost predicate NobodyIsDropped(ds: seq<Delivery>, name: Origin -> string, s: System) {
    forall steps :: IsRun(ds, name, s, steps) ==>
      var last := After(ds, name, s, steps); AllAnswered(ds, last) && AllNameTheirOwn(ds, last)
  }

  /** Exactly when no names clash, and there is no index or no delivery hides another, nobody is dropped. */
  lemma NobodyIsDroppedIff(ds: seq<Delivery>, name: Origin -> string, s: System)
    requires Usable(name) && Init(ds, s)
    ensures NobodyIsDropped(ds, name, s) <==> NoClash(ds, name) && (s.indexed ==> NothingHidden(ds))
  {
    hide Usable;
    RunsAreNotMistakenIff(ds, name, s);
    if s.indexed ==> NothingHidden(ds) {
      forall steps | IsRun(ds, name, s, steps)
        ensures AllAnswered(ds, After(ds, name, s, steps))
      {
        InitIsGood(ds, name, s);
        ExplainedThroughout(ds, name, s, steps);
      }
    } else {
      var i, j :| 0 <= i < |ds| && 0 <= j < |ds| && Hides(ds[j], ds[i]);
      var steps := HiddenDeliveryIsDropped(ds, name, s, i, j);
      var last := After(ds, name, s, steps);
      assert !Answered(ds[i], last.stages[i]);
    }
  }

  // ---- The names the program gives ----

  /** buildRunNameForWebhook, for a hash of the event. */
  function WebhookName(hash: string -> string): Origin -> string {
    (o: Origin) => BuildRunName(o.repository, hash(o.event))
  }

  /** What the deliveries must be spared, read off the repositories' names and the events' hashes. */
  predicate SharesName(hash: string -> string, d: Delivery, e: Delivery) {
    && d.kind.Build? && e.kind.Build? && d.namespace == e.namespace && OriginOf(d) != OriginOf(e)
    && OneName(d.repository, hash(d.event), e.repository, hash(e.event))
  }

  ghost predicate NamesAreApart(ds: seq<Delivery>, hash: string -> string) {
    forall i, j :: 0 <= i < |ds| && 0 <= j < |ds| ==> !SharesName(hash, ds[i], ds[j])
  }

  /** For the program's own names: nobody is dropped exactly when names stay apart and no delivery is hidden. */
  lemma ProgramDropsNobodyIff(ds: seq<Delivery>, hash: string -> string, s: System)
    requires Init(ds, s) && forall event :: |hash(event)| == 12
    ensures NobodyIsDropped(ds, WebhookName(hash), s) <==> NamesAreApart(ds, hash) && (s.indexed ==> NothingHidden(ds))
  {
    var name := WebhookName(hash);
    forall o ensures name(o) != "" {
      BuildRunNameIsUsable(o.repository, hash(o.event));
    }
    NobodyIsDroppedIff(ds, name, s);
    forall i, j | 0 <= i < |ds| && 0 <= j < |ds| ensures Clash(name, ds[i], ds[j]) <==> SharesName(hash, ds[i], ds[j]) {
      OneNameIff(ds[i].repository, hash(ds[i].event), ds[j].repository, hash(ds[j].event));
    }
  }

  lemma SameName(hash: string -> string, d: Delivery, e: Delivery)
    requires d.kind.Build? && e.kind.Build? && d.namespace == e.namespace && d.event == e.event
    requires d.repository == "a-b" && e.repository == "a--b"
    ensures Clash(WebhookName(hash), d, e)
  {
    hide Label;
    SameLabel(d.repository, e.repository);
    assert |d.repository| == 3 && |e.repository| == 4;
    assert BuildRunName(d.repository, hash(d.event)) == BuildRunName(e.repository, hash(e.event));
    assert WebhookName(hash)(OriginOf(d)) == BuildRunName(d.repository, hash(d.event));
    assert WebhookName(hash)(OriginOf(e)) == BuildRunName(e.repository, hash(e.event));
  }

  /** Two repositories whose names differ only in their dashes share the BuildRuns of equal events, whatever the hash. */
  lemma DashesAreNotTold(hash: string -> string, d: Delivery, e: Delivery, indexed: bool)
    requires d.kind.Build? && e.kind.Build? && d.namespace == e.namespace && d.event == e.event
    requires d.repository == "a-b" && e.repository == "a--b"
    ensures var s := System(indexed, map[], map[], [Arrived, Arrived]); !NobodyIsDropped([d, e], WebhookName(hash), s)
  {
    var ds, s := [d, e], System(indexed, map[], map[], [Arrived, Arrived]);
    assert s.stages == seq(2, _ => Arrived);
    SameName(hash, d, e);
    var steps := ClashTakesTheOthersRun(ds, WebhookName(hash), s, 0, 1);
    var last := After(ds, WebhookName(hash), s, steps);
    assert !NamesItsOwn(last, ds[0], last.stages[0]);
  }

  // ---- One creation, one index entry ----

  /** The delivery's handler created its BuildRun, or is told so. */
  predicate Creator(stage: Stage) {
    stage.Made? || (stage.Replied? && stage.reply.Created?)
  }

  /** No two deliveries have created one BuildRun, and what was created is there. */
  ghost predicate OneCreator(ds: seq<Delivery>, name: Origin -> string, s: System) {
    && |s.stages| == |ds|
    && (forall i :: 0 <= i < |ds| && Creator(s.stages[i]) ==> RunOf(name, ds[i]) in s.runs)
    && (forall i, j :: 0 <= i < j < |ds| && Creator(s.stages[i]) && Creator(s.stages[j]) ==> RunOf(name, ds[i]) != RunOf(name, ds[j]))
  }

  /** With an index, every delivery that was answered otherwise than as a duplicate has an entry. */
  ghost predicate Noted(ds: seq<Delivery>, s: System) {
    && |s.stages| == |ds|
    && (s.indexed ==> forall i :: 0 <= i < |ds| && s.stages[i].Replied? && !s.stages[i].reply.Duplicate? ==> KeyOf(ds[i]) in s.index)
  }

  /** What is recorded is never taken back or overwritten. */
  ghost predicate Extends(s: System, later: System) {
    && later.indexed == s.indexed
    && (forall k :: k in s.runs ==> k in later.runs && later.runs[k] == s.runs[k])
    && (forall k :: k in s.index ==> k in later.index && later.index[k] == s.index[k])
  }

  lemma StepCreates(ds: seq<Delivery>, name: Origin -> string, s: System, step: Step)
    requires OneCreator(ds, name, s) && Enabled(ds, s, step)
    ensures OneCreator(ds, name, Next(ds, name, s, step))
  {
    hide RunOf;
  }

  lemma StepNotes(ds: seq<Delivery>, name: Origin -> string, s: System, step: Step)
    requires Noted(ds, s) && Enabled(ds, s, step)
    ensures Noted(ds, Next(ds, name, s, step)) && Extends(s, Next(ds, name, s, step))
  {
    hide RunOf;
  }

  /**
   Over every run, whatever crashes: a BuildRun is created by one delivery only and no other is told it created it, runs and
   index entries stay as they were first written, and a delivery that was let through leaves an entry behind.
   */
  lemma {:induction false} RecordedOnce(ds: seq<Delivery>, name: Origin -> string, s: System, steps: seq<Step>)
    requires OneCreator(ds, name, s) && Noted(ds, s) && IsRun(ds, name, s, steps)
    ensures var last := After(ds, name, s, steps);
      OneCreator(ds, name, last) && Noted(ds, last) && Extends(s, last)
    decreases |steps|
  {
    hide OneCreator, Noted;
    if steps == [] {
    } else {
      StepCreates(ds, name, s, steps[0]);
      StepNotes(ds, name, s, steps[0]);
      RecordedOnce(ds, name, Next(ds, name, s, steps[0]), steps[1..]);
    }
  }
}
