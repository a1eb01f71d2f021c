/** Condition lists: SetCondition (internal/domain/status.go) and mergeConditions (internal/kube/status.go). */
module Conditions {
  import opened Wrappers

  datatype Truth = IsTrue | IsFalse | IsUnknown

  /** A metav1.Condition; since is the last transition time, None the zero time. */
  datatype Condition = Condition(
    kind: string, status: Truth, observedGeneration: int, reason: string, message: string, since: Option<int>)

  predicate UniqueKinds(cs: seq<Condition>) {
    forall i, j :: 0 <= i < j < |cs| ==> cs[i].kind != cs[j].kind
  }

  /** The first condition of a kind. */
  function Find(cs: seq<Condition>, kind: string): (r: Option<Condition>)
    ensures r.Some? <==> exists i :: 0 <= i < |cs| && cs[i].kind == kind
    ensures r.Some? ==> r.value in cs && r.value.kind == kind
  {
    if cs == [] then None
    else if cs[0].kind == kind then Some(cs[0])
    else
      assert forall i :: 1 <= i < |cs| ==> cs[i] == cs[1..][i - 1];
      Find(cs[1..], kind)
  }

  // ---- Setting one condition ----

  /** A condition without a transition time takes the current time. */
  function Stamped(c: Condition, now: int): Condition {
    if c.since.None? then c.(since := Some(now)) else c
  }

  /** The new condition as stored: an unchanged status keeps the time it had. */
  function Carried(stored: Condition, c: Condition): Condition {
    if stored.status == c.status && stored.since.Some? then c.(since := stored.since) else c
  }

  function Set(cs: seq<Condition>, c: Condition): seq<Condition> {
    if cs == [] then [c]
    else if cs[0].kind == c.kind then [Carried(cs[0], c)] + cs[1..]
    else [cs[0]] + Set(cs[1..], c)
  }

  lemma {:induction false} SetFinds(cs: seq<Condition>, c: Condition, kind: string)
    ensures Find(Set(cs, c), kind) ==
      if kind != c.kind then Find(cs, kind)
      else Some(if Find(cs, kind).Some? then Carried(Find(cs, kind).value, c) else c)
  {
    if cs != [] && cs[0].kind != c.kind {
      SetFinds(cs[1..], c, kind);
      assert Set(cs, c)[1..] == Set(cs[1..], c);
    } else if cs != [] {
      assert Set(cs, c)[1..] == cs[1..];
    }
  }

  lemma {:induction false} SetKeepsUnique(cs: seq<Condition>, c: Condition)
    requires UniqueKinds(cs)
    ensures UniqueKinds(Set(cs, c))
    ensures forall k :: Find(Set(cs, c), k).Some? <==> Find(cs, k).Some? || k == c.kind
  {
    forall k ensures Find(Set(cs, c), k).Some? <==> Find(cs, k).Some? || k == c.kind {
      SetFinds(cs, c, k);
    }
    if cs == [] || cs[0].kind == c.kind {
    } else {
      SetKeepsUnique(cs[1..], c);
      var rest := Set(cs[1..], c);
      forall j | 0 <= j < |rest| ensures rest[j].kind != cs[0].kind {
        assert Find(rest, rest[j].kind).Some?;
        SetFinds(cs[1..], c, rest[j].kind);
      }
    }
  }

  /** The loop over the list at position i, with no entry of the kind before it. */
  lemma SetPasses(list: seq<Condition>, i: nat, condition: Condition)
    requires i < |list| && list[i].kind != condition.kind
    ensures list[..i] + Set(list[i..], condition) == list[..i + 1] + Set(list[i + 1..], condition)
  {
    hide Set;
    assert list[i..] == [list[i]] + list[i + 1..];
    SetCons(list[i], list[i + 1..], condition);
    assert list[..i + 1] == list[..i] + [list[i]];
  }

  lemma SetHits(list: seq<Condition>, i: nat, condition: Condition)
    requires i < |list| && list[i].kind == condition.kind
    ensures list[..i] + Set(list[i..], condition) == list[i := Carried(list[i], condition)]
  {
    hide Set, Carried;
    assert list[i..] == [list[i]] + list[i + 1..];
    SetCons(list[i], list[i + 1..], condition);
  }

  lemma SetEnds(list: seq<Condition>, condition: Condition)
    ensures list[..0] + Set(list[0..], condition) == Set(list, condition)
    ensures list[..|list|] + Set(list[|list|..], condition) == list + [condition]
  {
    assert list[0..] == list && list[..0] + Set(list, condition) == Set(list, condition);
  }

  lemma SetCons(head: Condition, rest: seq<Condition>, condition: Condition)
    ensures Set([head] + rest, condition) ==
      if head.kind == condition.kind then [Carried(head, condition)] + rest else [head] + Set(rest, condition)
    ensures Set([], condition) == [condition]
  {
    assert ([head] + rest)[1..] == rest;
  }

  class ConditionList {
    var items: seq<Condition>

    constructor ()
      ensures items == []
    {
      items := [];
    }

    /** metaSetStatusCondition: overwrite in place, or append. */
    method SetStatusCondition(condition: Condition)
      modifies this
      ensures items == Set(old(items), condition)
    {
      hide Set;
      ghost var start := items;
      SetEnds(start, condition);
      var i := 0;
      while i < |items|
        invariant 0 <= i <= |items| && items == start
        invariant Set(start, condition) == start[..i] + Set(start[i..], condition)
      {
        if items[i].kind == condition.kind {
          SetHits(start, i, condition);
          var kept := condition;
          if items[i].status == condition.status && items[i].since.Some? {
            kept := kept.(since := items[i].since);
          }
          items := items[i := kept];
          return;
        }
        SetPasses(start, i, condition);
        i := i + 1;
      }
      items := items + [condition];
    }

    method SetCondition(condition: Condition, now: int)
      modifies this
      ensures items == Set(old(items), Stamped(condition, now))
    {
      var c := condition;
      if c.since.None? {
        c := c.(since := Some(now));
      }
      SetStatusCondition(c);
    }
  }

  // ---- What a list built by SetCondition says about the calls that built it ----

  datatype Call = Call(condition: Condition, now: int)

  function Effective(call: Call): Condition {
    Stamped(call.condition, call.now)
  }

  function Replay(calls: seq<Call>): seq<Condition> {
    if calls == [] then []
    else Set(Replay(calls[..|calls| - 1]), Effective(calls[|calls| - 1]))
  }

  /** No call for the kind between two positions. */
  ghost predicate Silent(calls: seq<Call>, kind: string, from: int, to: int) {
    forall j :: 0 <= j < |calls| && from <= j < to ==> calls[j].condition.kind != kind
  }

  ghost predicate IsLast(calls: seq<Call>, kind: string, l: nat) {
    l < |calls| && calls[l].condition.kind == kind && Silent(calls, kind, l + 1, |calls|)
  }

  /** From i on, every call for the kind has one status; the one before i, if any, had another. */
  ghost predicate IsStretchStart(calls: seq<Call>, kind: string, i: nat) {
    && i < |calls| && calls[i].condition.kind == kind
    && (forall j :: i <= j < |calls| && calls[j].condition.kind == kind ==> calls[j].condition.status == calls[i].condition.status)
    && (forall j :: 0 <= j < i && calls[j].condition.kind == kind && Silent(calls, kind, j + 1, i)
          ==> calls[j].condition.status != calls[i].condition.status)
  }

  lemma {:induction false} ReplayIsUnique(calls: seq<Call>)
    ensures UniqueKinds(Replay(calls))
  {
    if calls == [] {
    } else {
      ReplayIsUnique(calls[..|calls| - 1]);
      SetKeepsUnique(Replay(calls[..|calls| - 1]), Effective(calls[|calls| - 1]));
    }
  }

  lemma SilentPrefix(front: seq<Call>, call: Call, kind: string, from: int, to: int)
    requires to <= |front|
    ensures Silent(front + [call], kind, from, to) <==> Silent(front, kind, from, to)
  {
    forall j | 0 <= j < |front| ensures (front + [call])[j] == front[j] {
    }
  }

  lemma OtherKindChangesNothing(front: seq<Call>, call: Call, kind: string, last: nat, start: nat)
    requires call.condition.kind != kind
    ensures Silent(front + [call], kind, 0, |front| + 1) <==> Silent(front, kind, 0, |front|)
    ensures IsLast(front, kind, last) ==> IsLast(front + [call], kind, last)
    ensures IsStretchStart(front, kind, start) ==> IsStretchStart(front + [call], kind, start)
  {
    var calls := front + [call];
    SilentPrefix(front, call, kind, 0, |front|);
    if IsStretchStart(front, kind, start) {
      forall j | 0 <= j < start && calls[j].condition.kind == kind && Silent(calls, kind, j + 1, start)
        ensures calls[j].condition.status != calls[start].condition.status
      {
        assert front[j] == calls[j];
        SilentPrefix(front, call, kind, j + 1, start);
      }
    }
  }

  lemma SameStatusExtends(front: seq<Call>, call: Call, kind: string, last: nat, start: nat)
    requires call.condition.kind == kind && IsLast(front, kind, last) && IsStretchStart(front, kind, start)
    requires front[last].condition.status == call.condition.status
    ensures IsLast(front + [call], kind, |front|) && IsStretchStart(front + [call], kind, start)
  {
    var calls := front + [call];
    assert start <= last;
    forall j | 0 <= j < start && calls[j].condition.kind == kind && Silent(calls, kind, j + 1, start)
      ensures calls[j].condition.status != calls[start].condition.status
    {
      assert front[j] == calls[j];
      SilentPrefix(front, call, kind, j + 1, start);
    }
  }

  lemma NewStatusRestarts(front: seq<Call>, call: Call, kind: string, last: nat)
    requires call.condition.kind == kind
    requires Silent(front, kind, 0, |front|)
      || (IsLast(front, kind, last) && front[last].condition.status != call.condition.status)
    ensures IsLast(front + [call], kind, |front|) && IsStretchStart(front + [call], kind, |front|)
  {
    var calls, n := front + [call], |front|;
    forall j | 0 <= j < n && calls[j].condition.kind == kind && Silent(calls, kind, j + 1, n)
      ensures calls[j].condition.status != call.condition.status
    {
      assert front[j] == calls[j];
      SilentPrefix(front, call, kind, j + 1, n);
    }
  }

  /**
   After any calls there is at most one condition per kind; it is there exactly when the kind was set;
   it carries the last call's contents, dated at the start of the unbroken stretch of its status.
   */
  lemma {:induction false} ConditionsRecordTheirCalls(calls: seq<Call>, kind: string) returns (last: nat, start: nat)
    ensures UniqueKinds(Replay(calls))
    ensures Find(Replay(calls), kind).None? <==> Silent(calls, kind, 0, |calls|)
    ensures Find(Replay(calls), kind).Some? ==>
      && IsLast(calls, kind, last) && IsStretchStart(calls, kind, start)
      && var first := calls[start];
      Find(Replay(calls), kind).value == calls[last].condition.(since :=
        if first.condition.since.Some? then first.condition.since else Some(first.now))
  {
    ReplayIsUnique(calls);
    last, start := 0, 0;
    if calls == [] {
    } else {
      var front, call := calls[..|calls| - 1], calls[|calls| - 1];
      assert calls == front + [call];
      last, start := ConditionsRecordTheirCalls(front, kind);
      SetFinds(Replay(front), Effective(call), kind);
      if call.condition.kind != kind {
        OtherKindChangesNothing(front, call, kind, last, start);
      } else if Find(Replay(front), kind).Some? && front[last].condition.status == call.condition.status {
        SameStatusExtends(front, call, kind, last, start);
        last := |front|;
      } else {
        NewStatusRestarts(front, call, kind, last);
        last, start := |front|, |front|;
      }
    }
  }

  // ---- Merging a writer's list into the stored one ----

  /** Replace the first condition of the kind, or append. */
  function Upsert(cs: seq<Condition>, c: Condition): seq<Condition> {
    if cs == [] then [c]
    else if cs[0].kind == c.kind then [c] + cs[1..]
    else [cs[0]] + Upsert(cs[1..], c)
  }

  function Merge(latest: seq<Condition>, desired: seq<Condition>): seq<Condition> {
    if desired == [] then latest
    else Upsert(Merge(latest, desired[..|desired| - 1]), desired[|desired| - 1])
  }

  /** mergeConditions */
  method MergeConditions(latest: seq<Condition>, desired: seq<Condition>) returns (merged: seq<Condition>)
    ensures merged == Merge(latest, desired)
  {
    merged := latest;
    for n := 0 to |desired|
      invariant merged == Merge(latest, desired[..n])
    {
      var condition := desired[n];
      ghost var before := merged;
      var replaced := false;
      var i := 0;
      while i < |merged| && !replaced
        invariant 0 <= i <= |merged|
        invariant !replaced ==> merged == before && Upsert(before, condition) == before[..i] + Upsert(before[i..], condition)
        invariant replaced ==> merged == Upsert(before, condition)
      {
        if merged[i].kind == condition.kind {
          merged := merged[i := condition];
          replaced := true;
        }
        i := i + 1;
      }
      if !replaced {
        merged := merged + [condition];
      }
      assert desired[..n + 1][..n] == desired[..n];
    }
    assert desired[..|desired|] == desired;
  }

  lemma {:induction false} UpsertFinds(cs: seq<Condition>, c: Condition, kind: string)
    ensures Find(Upsert(cs, c), kind) == if kind == c.kind then Some(c) else Find(cs, kind)
  {
    if cs != [] && cs[0].kind != c.kind {
      UpsertFinds(cs[1..], c, kind);
      assert Upsert(cs, c)[1..] == Upsert(cs[1..], c);
    } else if cs != [] {
      assert Upsert(cs, c)[1..] == cs[1..];
    }
  }

  lemma {:induction false} UpsertKeepsUnique(cs: seq<Condition>, c: Condition)
    requires UniqueKinds(cs)
    ensures UniqueKinds(Upsert(cs, c))
  {
    if cs == [] || cs[0].kind == c.kind {
    } else {
      UpsertKeepsUnique(cs[1..], c);
      var rest := Upsert(cs[1..], c);
      forall j | 0 <= j < |rest| ensures rest[j].kind != cs[0].kind {
        assert Find(rest, rest[j].kind).Some?;
        UpsertFinds(cs[1..], c, rest[j].kind);
      }
    }
  }

  /** The last condition of a kind: what a list says when it names a kind twice. */
  function FindLast(cs: seq<Condition>, kind: string): Option<Condition> {
    if cs == [] then None
    else if cs[|cs| - 1].kind == kind then Some(cs[|cs| - 1])
    else FindLast(cs[..|cs| - 1], kind)
  }

  lemma {:induction false} FindLastIsFind(cs: seq<Condition>, kind: string)
    requires UniqueKinds(cs)
    ensures FindLast(cs, kind) == Find(cs, kind)
  {
    if cs == [] {
    } else {
      var front := cs[..|cs| - 1];
      FindLastIsFind(front, kind);
      FindInFront(front, cs[|cs| - 1], kind);
      assert front + [cs[|cs| - 1]] == cs;
    }
  }

  lemma {:induction false} FindInFront(front: seq<Condition>, c: Condition, kind: string)
    ensures Find(front + [c], kind) ==
      if Find(front, kind).Some? then Find(front, kind) else if c.kind == kind then Some(c) else None
  {
    if front == [] {
    } else {
      FindInFront(front[1..], c, kind);
      assert (front + [c])[1..] == front[1..] + [c];
    }
  }

  /** The writer's conditions win by kind, every other stored condition survives, and no kind doubles. */
  lemma {:induction false} MergeFinds(latest: seq<Condition>, desired: seq<Condition>, kind: string)
    ensures Find(Merge(latest, desired), kind) ==
      if FindLast(desired, kind).Some? then FindLast(desired, kind) else Find(latest, kind)
    ensures UniqueKinds(latest) ==> UniqueKinds(Merge(latest, desired))
  {
    if desired == [] {
    } else {
      var front := desired[..|desired| - 1];
      MergeFinds(latest, front, kind);
      UpsertFinds(Merge(latest, front), desired[|desired| - 1], kind);
      if UniqueKinds(latest) {
        UpsertKeepsUnique(Merge(latest, front), desired[|desired| - 1]);
      }
    }
  }

  /** Setting a condition moves no other one: the first of its type is replaced where it is, or it is appended. */
  lemma {:induction false} SetIsInPlace(cs: seq<Condition>, c: Condition)
    ensures var after := Set(cs, c);
      && |cs| <= |after| <= |cs| + 1
      && (|after| == |cs| + 1 <==> forall j :: 0 <= j < |cs| ==> cs[j].kind != c.kind)
      && (forall j :: 0 <= j < |cs| ==> after[j].kind == cs[j].kind)
      && (forall j :: 0 <= j < |cs| && (cs[j].kind != c.kind || exists i :: 0 <= i < j && cs[i].kind == c.kind)
            ==> after[j] == cs[j])
      && (|after| == |cs| + 1 ==> after[|cs|] == c)
  {
    if cs == [] {
    } else if cs[0].kind == c.kind {
      assert forall j :: 1 <= j < |cs| ==> Set(cs, c)[j] == cs[j];
    } else {
      SetIsInPlace(cs[1..], c);
      var after, rest := Set(cs, c), Set(cs[1..], c);
      assert forall j :: 1 <= j < |after| ==> after[j] == rest[j - 1];
      assert forall j :: 1 <= j < |cs| ==> cs[1..][j - 1] == cs[j];
      forall j | 0 <= j < |cs| && (cs[j].kind != c.kind || exists i :: 0 <= i < j && cs[i].kind == c.kind)
        ensures after[j] == cs[j]
      {
        if j > 0 && cs[j].kind == c.kind {
          var i :| 0 <= i < j && cs[i].kind == c.kind;
          assert cs[1..][i - 1].kind == c.kind;
        }
      }
    }
  }

  lemma {:induction false} UpsertIsInPlace(cs: seq<Condition>, c: Condition)
    ensures var after := Upsert(cs, c);
      && |cs| <= |after| <= |cs| + 1
      && (|after| == |cs| + 1 <==> forall j :: 0 <= j < |cs| ==> cs[j].kind != c.kind)
      && (forall j :: 0 <= j < |cs| ==> after[j].kind == cs[j].kind && (cs[j].kind != c.kind ==> after[j] == cs[j]))
      && (|after| == |cs| + 1 ==> after[|cs|] == c)
  {
    if cs == [] {
    } else if cs[0].kind == c.kind {
      assert forall j :: 1 <= j < |cs| ==> Upsert(cs, c)[j] == cs[j];
    } else {
      UpsertIsInPlace(cs[1..], c);
      var after, rest := Upsert(cs, c), Upsert(cs[1..], c);
      assert forall j :: 1 <= j < |after| ==> after[j] == rest[j - 1];
      assert forall j :: 1 <= j < |cs| ==> cs[1..][j - 1] == cs[j];
    }
  }

  /** Merging moves no stored condition: what is new comes behind, and is of a kind that was not stored. */
  lemma {:induction false} MergeIsInPlace(latest: seq<Condition>, desired: seq<Condition>)
    ensures var after := Merge(latest, desired);
      && |latest| <= |after|
      && (forall j :: 0 <= j < |latest| ==> after[j].kind == latest[j].kind)
      && (forall j :: |latest| <= j < |after| ==> forall i :: 0 <= i < |latest| ==> latest[i].kind != after[j].kind)
  {
    if desired == [] {
    } else {
      MergeIsInPlace(latest, desired[..|desired| - 1]);
      UpsertIsInPlace(Merge(latest, desired[..|desired| - 1]), desired[|desired| - 1]);
    }
  }
}
