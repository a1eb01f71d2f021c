/**
 Writing a status with conflict retry (internal/kube/status.go): read the latest object, lay the
 writer's status over it, compare-and-swap, start again on a conflict.
 */
module StatusStore {
  import opened Conditions

  /** Every status field other than the conditions is one opaque payload. */
  datatype Status<P> = Status(payload: P, conditions: seq<Condition>)

  datatype Object<P> = Object(version: nat, status: Status<P>)

  /** copyStatus(dst, src): src's fields, with dst's conditions kept where src names no such kind. */
  function Overlay<P>(dst: Status<P>, src: Status<P>): Status<P> {
    Status(src.payload, Merge(dst.conditions, src.conditions))
  }

  /** retry.DefaultRetry gives up after five attempts. */
  const ATTEMPTS: nat := 5

  /**
   A writer has its own copy of the status; inside UpdateStatusWithRetry it has some attempts left,
   and, between its Get and its Update, the object it read.
   */
  datatype Writer<P> =
    | Idle(copy: Status<P>)
    | Trying(copy: Status<P>, left: nat)
    | Holding(copy: Status<P>, left: nat, latest: Object<P>)

  /** The stored object, the writers, and the statuses successfully written so far. */
  datatype System<P> = System(store: Object<P>, writers: map<string, Writer<P>>, written: seq<Status<P>>)

  /**
   A Put whose answer is lost has written, but its writer fails without refreshing its copy. Drop is a
   crash, or an error of Get or Update that is not a conflict: it is returned at once.
   */
  datatype Step<P> =
    | Edit(w: string, copy: Status<P>)
    | Begin(w: string)
    | Get(w: string)
    | Put(w: string, answered: bool)
    | Drop(w: string)
    | Touch

  ghost predicate Enabled<P>(s: System<P>, step: Step<P>) {
    match step
    case Edit(w, copy) => w in s.writers && s.writers[w].Idle? && UniqueKinds(copy.conditions)
    case Begin(w) => w in s.writers && s.writers[w].Idle?
    case Get(w) => w in s.writers && s.writers[w].Trying? && s.writers[w].left > 0
    case Put(w, _) => w in s.writers && s.writers[w].Holding? && s.writers[w].left > 0
    case Drop(w) => w in s.writers
    case Touch => true
  }

  ghost predicate Succeeds<P>(s: System<P>, step: Step<P>) {
    step.Put? && Enabled(s, step) && s.writers[step.w].latest.version == s.store.version
  }

  ghost function Next<P>(s: System<P>, step: Step<P>): System<P>
    requires Enabled(s, step)
  {
    match step
    case Edit(w, copy) => s.(writers := s.writers[w := Idle(copy)])
    case Begin(w) => s.(writers := s.writers[w := Trying(s.writers[w].copy, ATTEMPTS)])
    case Get(w) => s.(writers := s.writers[w := Holding(s.writers[w].copy, s.writers[w].left, s.store)])
    case Put(w, answered) =>
      var writer := s.writers[w];
      var copy := writer.copy;
      if writer.latest.version == s.store.version then
        var next := Overlay(writer.latest.status, copy);
        System(Object(s.store.version + 1, next), s.writers[w := Idle(if answered then Overlay(copy, next) else copy)],
          s.written + [copy])
      else if writer.left == 1 then s.(writers := s.writers[w := Idle(copy)])
      else s.(writers := s.writers[w := Trying(copy, writer.left - 1)])
    case Drop(w) => s.(writers := s.writers[w := Idle(s.writers[w].copy)])
    case Touch => s.(store := s.store.(version := s.store.version + 1))
  }

  ghost predicate Init<P>(s: System<P>) {
    && UniqueKinds(s.store.status.conditions) && s.written == []
    && forall w :: w in s.writers ==> s.writers[w].Idle? && UniqueKinds(s.writers[w].copy.conditions)
  }

  ghost predicate IsRun<P>(s: System<P>, steps: seq<Step<P>>)
    decreases |steps|
  {
    steps == [] || (Enabled(s, steps[0]) && IsRun(Next(s, steps[0]), steps[1..]))
  }

  ghost function After<P>(s: System<P>, steps: seq<Step<P>>): System<P>
    requires IsRun(s, steps)
    decreases |steps|
  {
    if steps == [] then s else After(Next(s, steps[0]), steps[1..])
  }

  /** What the store would hold if the successful writes had happened one after the other, alone. */
  ghost function Sequentially<P>(start: Status<P>, written: seq<Status<P>>): Status<P> {
    if written == [] then start
    else Overlay(Sequentially(start, written[..|written| - 1]), written[|written| - 1])
  }

  ghost predicate Good<P>(start: Status<P>, s: System<P>) {
    && s.store.status == Sequentially(start, s.written)
    && UniqueKinds(s.store.status.conditions)
    && (forall i :: 0 <= i < |s.written| ==> UniqueKinds(s.written[i].conditions))
    && forall w :: w in s.writers ==> UniqueKinds(s.writers[w].copy.conditions) && ReadFaithfully(s, w)
  }

  /** What a writer read is still what is stored, unless the version has moved on. */
  ghost predicate ReadFaithfully<P>(s: System<P>, w: string)
    requires w in s.writers
  {
    s.writers[w].Holding? ==>
      && s.writers[w].latest.version <= s.store.version
      && (s.writers[w].latest.version == s.store.version ==> s.writers[w].latest.status == s.store.status)
  }

  lemma OverlayFinds<P>(dst: Status<P>, src: Status<P>, kind: string)
    requires UniqueKinds(src.conditions)
    ensures Find(Overlay(dst, src).conditions, kind) ==
      if Find(src.conditions, kind).Some? then Find(src.conditions, kind) else Find(dst.conditions, kind)
    ensures UniqueKinds(dst.conditions) ==> UniqueKinds(Overlay(dst, src).conditions)
  {
    MergeFinds(dst.conditions, src.conditions, kind);
    FindLastIsFind(src.conditions, kind);
  }

  lemma OverlayIsUnique<P>(dst: Status<P>, src: Status<P>)
    requires UniqueKinds(dst.conditions)
    ensures UniqueKinds(Overlay(dst, src).conditions)
  {
    MergeFinds(dst.conditions, src.conditions, "");
  }

  lemma GoodIsInvariant<P>(start: Status<P>, s: System<P>, step: Step<P>)
    requires Good(start, s) && Enabled(s, step)
    ensures Good(start, Next(s, step))
  {
    hide UniqueKinds, Overlay;
    var s' := Next(s, step);
    if Succeeds(s, step) {
      var writer := s.writers[step.w];
      OverlayIsUnique(writer.latest.status, writer.copy);
      OverlayIsUnique(writer.copy, Overlay(writer.latest.status, writer.copy));
      assert s'.written[..|s'.written| - 1] == s.written;
    }
  }

  lemma {:induction false} GoodThroughout<P>(start: Status<P>, s: System<P>, steps: seq<Step<P>>)
    requires Good(start, s) && IsRun(s, steps)
    ensures Good(start, After(s, steps))
    decreases |steps|
  {
    if steps == [] {
    } else {
      GoodIsInvariant(start, s, steps[0]);
      GoodThroughout(start, Next(s, steps[0]), steps[1..]);
    }
  }

  // ---- Main results ----

  /**
   Any interleaving of any writers leaves the store as if the successful writes had happened one at a
   time, in the order in which they succeeded.
   */
  lemma WritesAreSerializable<P>(s: System<P>, steps: seq<Step<P>>)
    requires Init(s) && IsRun(s, steps)
    ensures var s' := After(s, steps);
      s'.store.status == Sequentially(s.store.status, s'.written) && UniqueKinds(s'.store.status.conditions)
  {
    GoodThroughout(s.store.status, s, steps);
  }

  /** After any run, the last successful write that named a kind decides it; a kind nobody named is as at the start. */
  lemma LastWriterOfAKindWins<P>(s: System<P>, steps: seq<Step<P>>, kind: string, last: nat)
    requires Init(s) && IsRun(s, steps)
    requires last <= |After(s, steps).written|
    requires forall i :: last <= i < |After(s, steps).written| ==> Find(After(s, steps).written[i].conditions, kind).None?
    requires last > 0 ==> Find(After(s, steps).written[last - 1].conditions, kind).Some?
    ensures Find(After(s, steps).store.status.conditions, kind) ==
      if last > 0 then Find(After(s, steps).written[last - 1].conditions, kind) else Find(s.store.status.conditions, kind)
  {
    GoodThroughout(s.store.status, s, steps);
    LastNamedWins(s.store.status, After(s, steps).written, kind, last);
  }

  lemma {:induction false} LastNamedWins<P>(start: Status<P>, written: seq<Status<P>>, kind: string, last: nat)
    requires forall i :: 0 <= i < |written| ==> UniqueKinds(written[i].conditions)
    requires last <= |written|
    requires forall i :: last <= i < |written| ==> Find(written[i].conditions, kind).None?
    requires last > 0 ==> Find(written[last - 1].conditions, kind).Some?
    ensures Find(Sequentially(start, written).conditions, kind) ==
      if last > 0 then Find(written[last - 1].conditions, kind) else Find(start.conditions, kind)
  {
    if written == [] {
    } else {
      var front := written[..|written| - 1];
      OverlayFinds(Sequentially(start, front), written[|written| - 1], kind);
      if last < |written| {
        LastNamedWins(start, front, kind, last);
      }
    }
  }

  /**
   One successful write sets exactly the writer's kinds, keeps every other kind as it was stored at
   that moment, and leaves the writer's own copy agreeing with the store, unless the answer is lost.
   */
  lemma SuccessfulWrite<P>(start: Status<P>, s: System<P>, step: Step<P>, kind: string)
    requires Good(start, s) && Succeeds(s, step)
    ensures var s' := Next(s, step);
      && s'.store.status.payload == s.writers[step.w].copy.payload == s'.writers[step.w].copy.payload
      && Find(s'.store.status.conditions, kind) ==
           (if Find(s.writers[step.w].copy.conditions, kind).Some? then Find(s.writers[step.w].copy.conditions, kind)
            else Find(s.store.status.conditions, kind))
      && (step.answered ==> Find(s'.writers[step.w].copy.conditions, kind) == Find(s'.store.status.conditions, kind))
      && (!step.answered ==> s'.writers[step.w].copy == s.writers[step.w].copy)
  {
    var writer := s.writers[step.w];
    var next := Overlay(writer.latest.status, writer.copy);
    OverlayIsUnique(writer.latest.status, writer.copy);
    OverlayFinds(writer.latest.status, writer.copy, kind);
    OverlayFinds(writer.copy, next, kind);
  }

  /** A condition kind once stored stays stored. */
  lemma {:induction false} KindsAreNeverLost<P>(start: Status<P>, s: System<P>, steps: seq<Step<P>>, kind: string)
    requires Good(start, s) && IsRun(s, steps)
    requires Find(s.store.status.conditions, kind).Some?
    ensures Find(After(s, steps).store.status.conditions, kind).Some?
    decreases |steps|
  {
    if steps == [] {
    } else {
      GoodIsInvariant(start, s, steps[0]);
      if Succeeds(s, steps[0]) {
        SuccessfulWrite(start, s, steps[0], kind);
      }
      KindsAreNeverLost(start, Next(s, steps[0]), steps[1..], kind);
    }
  }

  // ---- The retry loop itself ----

  /** The API server's copy of one object, with a log of the statuses written to it by anyone. */
  class Server<P> {
    var stored: Object<P>
    ghost const start: Status<P>
    ghost var written: seq<Status<P>>

    constructor (initial: Object<P>)
      ensures Valid() && stored == initial && start == initial.status && written == []
    {
      stored := initial;
      start := initial.status;
      written := [];
    }

    ghost predicate Valid()
      reads this
    {
      stored.status == Sequentially(start, written)
    }

    /** Other actors write to the object: any number of status writes, each changing the version. */
    method Interfere()
      requires Valid()
      modifies this
      ensures Valid() && old(written) <= written && old(stored.version) <= stored.version
      ensures stored.version == old(stored.version) ==> stored == old(stored) && written == old(written)
    {
    }

    method Update(version: nat, status: Status<P>, ghost desired: Status<P>) returns (conflict: bool)
      requires Valid() && (version == stored.version ==> status == Overlay(stored.status, desired))
      modifies this
      ensures Valid() && conflict == (version != old(stored.version))
      ensures conflict ==> stored == old(stored) && written == old(written)
      ensures !conflict ==> stored == Object(version + 1, status) && written == old(written) + [desired]
    {
      conflict := version != stored.version;
      if !conflict {
        stored := Object(version + 1, status);
        written := written + [desired];
        assert written[..|written| - 1] == old(written);
      }
    }
  }

  method CopyStatus<P>(dst: Status<P>, src: Status<P>) returns (result: Status<P>)
    ensures result == Overlay(dst, src)
  {
    var merged := MergeConditions(dst.conditions, src.conditions);
    result := Status(src.payload, merged);
  }

  /** What goes wrong in one attempt; a refused Update wrote nothing, one whose answer is lost may have. */
  datatype Fault = NoFault | GetFails | UpdateRefused | AnswerLost

  datatype Outcome = Stored | Conflicted | Failed(fault: Fault)

  /**
   On success, others may have written first; then this writer's status was laid over exactly what they left. A conflict
   alone is retried, and giving up on it takes five versions written by others. Whenever it fails, the copy is as before,
   and nothing of it was stored except, possibly, by an update whose answer was lost.
   */
  method UpdateStatusWithRetry<P>(server: Server<P>, copy: Status<P>, faults: seq<Fault>)
    returns (outcome: Outcome, updated: Status<P>, ghost others: seq<Status<P>>)
    requires server.Valid() && |faults| == 5
    modifies server
    ensures server.Valid() && old(server.written) <= others
    ensures outcome.Stored? ==> server.written == others + [copy]
    ensures outcome == Failed(AnswerLost) ==> server.written == others || server.written == others + [copy]
    ensures !outcome.Stored? && outcome != Failed(AnswerLost) ==> server.written == others
    ensures outcome.Stored? ==>
      && server.stored.status == Overlay(Sequentially(server.start, others), copy)
      && updated == Overlay(copy, server.stored.status)
    ensures !outcome.Stored? ==> updated == copy
    ensures outcome.Failed? ==> outcome.fault in faults && !outcome.fault.NoFault?
    ensures outcome.Conflicted? ==> server.stored.version >= old(server.stored.version) + 5
    ensures outcome.Conflicted? ==> forall fault :: fault in faults ==> fault.NoFault?
  {
    var attempt := 0;
    others := server.written;
    outcome, updated := Conflicted, copy;
    while attempt < ATTEMPTS
      invariant attempt <= ATTEMPTS && server.Valid() && outcome.Conflicted? && updated == copy
      invariant server.stored.version >= old(server.stored.version) + attempt
      invariant server.written == others && old(server.written) <= others
      invariant forall i :: 0 <= i < attempt ==> faults[i].NoFault?
    {
      var fault := faults[attempt];
      server.Interfere();
      others := server.written;
      if fault.GetFails? {
        outcome := Failed(fault);
        return;
      }
      var latest := server.stored;
      var next := CopyStatus(latest.status, copy);
      server.Interfere();
      others := server.written;
      if fault.UpdateRefused? {
        outcome := Failed(fault);
        return;
      }
      var conflict := server.Update(latest.version, next, copy);
      if fault.AnswerLost? {
        outcome := Failed(fault);
        return;
      }
      if !conflict {
        updated := CopyStatus(copy, next);
        outcome := Stored;
        return;
      }
      attempt := attempt + 1;
    }
  }

  // ---- How long a conflicting writer goes on ----

  /** The step neither ends the writer's loop from outside nor is a Put of it that gets through. */
  ghost predicate LetsGoOn<P>(s: System<P>, step: Step<P>, w: string) {
    && !(step.Drop? && step.w == w) && !(step.Put? && step.w == w && Succeeds(s, step))
  }

  ghost predicate AllLetGoOn<P>(s: System<P>, steps: seq<Step<P>>, w: string)
    requires IsRun(s, steps)
    decreases |steps|
  {
    steps == [] || (LetsGoOn(s, steps[0], w) && AllLetGoOn(Next(s, steps[0]), steps[1..], w))
  }

  /** With left attempts to go, the store has moved on by one version for each attempt before, and for the one read too early. */
  ghost predicate Persists<P>(s: System<P>, w: string, version: nat) {
    && w in s.writers
    && match s.writers[w]
       case Idle(_) => s.store.version >= version + 5
       case Trying(_, left) => 0 < left <= 5 && s.store.version >= version + (5 - left)
       case Holding(_, left, latest) => 0 < left <= 5 && latest.version >= version + (5 - left) && s.store.version >= latest.version
  }

  lemma GoesOn<P>(start: Status<P>, s: System<P>, step: Step<P>, w: string, version: nat)
    requires Good(start, s) && Enabled(s, step) && LetsGoOn(s, step, w) && Persists(s, w, version) && !s.writers[w].Idle?
    ensures Persists(Next(s, step), w, version)
  {
    assert ReadFaithfully(s, w);
  }

  /** As long as the writer goes on. */
  ghost predicate Occupied<P>(s: System<P>, steps: seq<Step<P>>, w: string)
    requires IsRun(s, steps)
    decreases |steps|
  {
    steps == [] || (w in s.writers && !s.writers[w].Idle? && Occupied(Next(s, steps[0]), steps[1..], w))
  }

  lemma {:induction false} PersistsToTheEnd<P>(start: Status<P>, s: System<P>, steps: seq<Step<P>>, w: string, version: nat)
    requires Good(start, s) && IsRun(s, steps) && AllLetGoOn(s, steps, w) && Occupied(s, steps, w) && Persists(s, w, version)
    ensures w in After(s, steps).writers
    ensures After(s, steps).writers[w].Idle? ==> After(s, steps).store.version >= version + 5
    decreases |steps|
  {
    hide Good, Persists, LetsGoOn;
    if steps == [] {
      assert Persists(s, w, version) ==> w in s.writers && (s.writers[w].Idle? ==> s.store.version >= version + 5) by {
        PersistsMeans(s, w, version);
      }
    } else {
      GoodIsInvariant(start, s, steps[0]);
      GoesOn(start, s, steps[0], w, version);
      PersistsToTheEnd(start, Next(s, steps[0]), steps[1..], w, version);
    }
  }

  lemma PersistsMeans<P>(s: System<P>, w: string, version: nat)
    requires Persists(s, w, version)
    ensures w in s.writers && (s.writers[w].Idle? ==> s.store.version >= version + 5)
  {
  }

  /** A writer that is neither stopped nor successful gives up only after the object moved on by five versions. */
  lemma GivesUpAfterFiveConflicts<P>(start: Status<P>, s: System<P>, steps: seq<Step<P>>, w: string)
    requires Good(start, s) && Enabled(s, Begin(w))
    requires var begun := Next(s, Begin(w)); IsRun(begun, steps) && AllLetGoOn(begun, steps, w) && Occupied(begun, steps, w)
    ensures var last := After(Next(s, Begin(w)), steps);
      w in last.writers && (last.writers[w].Idle? ==> last.store.version >= s.store.version + 5)
  {
    GoodIsInvariant(start, s, Begin(w));
    PersistsToTheEnd(start, Next(s, Begin(w)), steps, w, s.store.version);
  }
}
