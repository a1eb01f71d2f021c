/** Byte budgets of the runner (boundedWriter and collectArtifacts in internal/runner/artifacts.go). */
module BoundedOutput {
  import opened Wrappers

  type Byte = bv8

  /** The first limit bytes, or fewer when there are fewer; none for a limit that is not positive. */
  function Clip(bytes: seq<Byte>, limit: int): seq<Byte> {
    if limit <= 0 then [] else if |bytes| <= limit then bytes else bytes[..limit]
  }

  /** A write, and what the underlying writer answers: it takes all, or fails after some number of bytes. */
  datatype Call = Call(data: seq<Byte>, fault: Option<nat>)

  /** Whether a write fails, after writes that took these bytes: only when something is left to pass on. */
  predicate Fails(call: Call, kept: seq<Byte>, limit: int) {
    call.fault.Some? && call.data != [] && |kept| < limit
  }

  /** Everything that was reported as written. */
  function Kept(calls: seq<Call>, limit: int): seq<Byte> {
    if calls == [] then []
    else
      var call := calls[|calls| - 1];
      var before := Kept(calls[..|calls| - 1], limit);
      if Fails(call, before, limit) then before else before + call.data
  }

  predicate Faultless(calls: seq<Call>) {
    forall call :: call in calls ==> call.fault.None?
  }

  /** What the underlying writer takes of a write. */
  function Taken(call: Call, kept: seq<Byte>, limit: int): seq<Byte> {
    var room := Clip(call.data, limit - |Clip(kept, limit)|);
    if Fails(call, kept, limit) then Clip(room, call.fault.value) else room
  }

  /** Everything the underlying writer took. */
  function Sunk(calls: seq<Call>, limit: int): seq<Byte> {
    if calls == [] then []
    else
      var init := calls[..|calls| - 1];
      Sunk(init, limit) + Taken(calls[|calls| - 1], Kept(init, limit), limit)
  }

  /** How much the underlying writer took in writes that failed. */
  function Leaked(calls: seq<Call>, limit: int): nat {
    if calls == [] then 0
    else
      var init := calls[..|calls| - 1];
      var call := calls[|calls| - 1];
      var kept := Kept(init, limit);
      Leaked(init, limit) + if Fails(call, kept, limit) then |Taken(call, kept, limit)| else 0
  }

  function Concatenated(calls: seq<Call>): seq<Byte> {
    if calls == [] then [] else Concatenated(calls[..|calls| - 1]) + calls[|calls| - 1].data
  }

  lemma OneMoreCall(calls: seq<Call>, call: Call, limit: int)
    ensures Kept(calls + [call], limit) ==
      if Fails(call, Kept(calls, limit), limit) then Kept(calls, limit) else Kept(calls, limit) + call.data
    ensures Sunk(calls + [call], limit) == Sunk(calls, limit) + Taken(call, Kept(calls, limit), limit)
  {
    assert (calls + [call])[..|calls|] == calls;
  }

  /** How much of a write there is room for. */
  function Room(data: seq<Byte>, remaining: int): nat {
    if remaining <= 0 then 0 else if |data| < remaining then |data| else remaining
  }

  lemma TakenOf(call: Call, kept: seq<Byte>, limit: int)
    ensures var remaining := limit - |Clip(kept, limit)|;
      var room := Room(call.data, remaining);
      && (Fails(call, kept, limit) <==> call.fault.Some? && room > 0)
      && Taken(call, kept, limit) == call.data[..if call.fault.None? || call.fault.value > room then room else call.fault.value]
      && (!Fails(call, kept, limit) ==> limit - |Clip(kept + call.data, limit)| == remaining - room)
  {
  }

  class BoundedWriter {
    const limit: int
    var remaining: int
    var output: seq<Byte>
    ghost var calls: seq<Call>

    ghost predicate Valid()
      reads this
    {
      && output == Sunk(calls, limit)
      && remaining == limit - |Clip(Kept(calls, limit), limit)|
    }

    constructor (limit: int)
      ensures Valid() && this.limit == limit && calls == []
    {
      this.limit, remaining, output, calls := limit, limit, [], [];
    }

    /** Reports the whole length as written, however little was passed on; a failed write costs no budget. */
    method Write(data: seq<Byte>, fault: Option<nat>) returns (n: nat, ok: bool)
      requires Valid()
      modifies this
      ensures Valid() && calls == old(calls) + [Call(data, fault)]
      ensures ok <==> !Fails(Call(data, fault), Kept(old(calls), limit), limit)
      ensures var room := Room(data, old(remaining));
        var through := if fault.None? || fault.value > room then room else fault.value;
        && (ok <==> fault.None? || room == 0) && n == (if ok then |data| else 0)
        && remaining == (if ok then old(remaining) - room else old(remaining))
        && output == old(output) + data[..through]
    {
      hide Clip, Kept, Sunk, Taken, Fails;
      OneMoreCall(calls, Call(data, fault), limit);
      TakenOf(Call(data, fault), Kept(calls, limit), limit);
      calls := calls + [Call(data, fault)];
      var original := |data|;
      if remaining <= 0 {
        return original, true;
      }
      var kept := data;
      if |kept| > remaining {
        kept := kept[..remaining];
      }
      if |kept| > 0 {
        if fault.Some? {
          output := output + kept[..if fault.value < |kept| then fault.value else |kept|];
          return 0, false;
        }
        output := output + kept;
        remaining := remaining - |kept|;
      }
      return original, true;
    }
  }

  lemma TakenFits(call: Call, kept: seq<Byte>, limit: int)
    ensures Clip(kept, limit) + Taken(call, kept, limit) <= Clip(kept + call.data, limit)
    ensures !Fails(call, kept, limit) ==> Clip(kept, limit) + Taken(call, kept, limit) == Clip(kept + call.data, limit)
  {
  }

  /** The output is the part of the reported data that fits the limit, and what failing writes let through on top. */
  lemma {:induction false} OutputAccounts(calls: seq<Call>, limit: int)
    ensures |Sunk(calls, limit)| == |Clip(Kept(calls, limit), limit)| + Leaked(calls, limit)
    ensures Leaked(calls, limit) == 0 ==> Sunk(calls, limit) == Clip(Kept(calls, limit), limit)
  {
    assert Clip([], limit) == [];
    hide Clip, Taken, Fails;
    if calls == [] {
    } else {
      var init := calls[..|calls| - 1];
      OutputAccounts(init, limit);
      TakenFits(calls[|calls| - 1], Kept(init, limit), limit);
    }
  }

  /** While no write fails, the output is the first limit bytes of everything, and everything is reported as written. */
  lemma {:induction false} WithoutFaults(calls: seq<Call>, limit: int)
    requires Faultless(calls)
    ensures Kept(calls, limit) == Concatenated(calls) && Leaked(calls, limit) == 0
  {
    if calls == [] {
    } else {
      WithoutFaults(calls[..|calls| - 1], limit);
    }
  }

  /**
   A writer whose last write failed has still put out no more than its limit, and a prefix of what it was given.
   */
  lemma FirstFaultIsHarmless(calls: seq<Call>, last: Call, limit: int)
    requires Faultless(calls)
    ensures Sunk(calls + [last], limit) <= Clip(Concatenated(calls) + last.data, limit)
  {
    var all := calls + [last];
    assert all[..|all| - 1] == calls;
    WithoutFaults(calls, limit);
    OutputAccounts(calls, limit);
    assert Sunk(all, limit) == Clip(Concatenated(calls), limit) + Taken(last, Concatenated(calls), limit);
    TakenFits(last, Concatenated(calls), limit);
  }

  lemma {:induction false} FaultlessLeaksNothing(calls: seq<Call>, more: seq<Call>, limit: int)
    requires Faultless(more)
    ensures Leaked(calls + more, limit) == Leaked(calls, limit)
    decreases |more|
  {
    if more == [] {
      assert calls + more == calls;
    } else {
      var n := |more| - 1;
      assert (calls + more)[..|calls + more| - 1] == calls + more[..n];
      FaultlessLeaksNothing(calls, more[..n], limit);
    }
  }

  /**
   After any writes, whatever is written later without a failure stays within a positive limit exactly if nothing got
   through in the failures before.
   */
  lemma StaysWithinTheLimitIff(calls: seq<Call>, limit: int)
    requires limit > 0
    ensures (forall more :: Faultless(more) ==> |Sunk(calls + more, limit)| <= limit) <==> Leaked(calls, limit) == 0
  {
    if Leaked(calls, limit) == 0 {
      forall more | Faultless(more) ensures |Sunk(calls + more, limit)| <= limit {
        FaultlessLeaksNothing(calls, more, limit);
        OutputAccounts(calls + more, limit);
      }
    } else {
      var call := Call(seq(limit, _ => 0), None);
      FaultlessLeaksNothing(calls, [call], limit);
      OutputAccounts(calls + [call], limit);
      assert (calls + [call])[..|calls|] == calls;
      assert Kept(calls + [call], limit) == Kept(calls, limit) + call.data;
    }
  }

  /** Whatever the chunks and the failures, the output is accounted for to the byte. */
  method WriteAll(calls: seq<Call>, limit: int) returns (output: seq<Byte>)
    ensures |output| == |Clip(Kept(calls, limit), limit)| + Leaked(calls, limit)
    ensures Leaked(calls, limit) == 0 ==> output == Clip(Kept(calls, limit), limit)
    ensures Faultless(calls) ==> output == Clip(Concatenated(calls), limit)
  {
    hide Clip, Fails, Taken, Kept, Sunk, Leaked, Concatenated;
    var w := new BoundedWriter(limit);
    for i := 0 to |calls|
      invariant w.Valid() && fresh(w) && w.limit == limit && w.calls == calls[..i]
    {
      var n, ok := w.Write(calls[i].data, calls[i].fault);
    }
    assert calls[..|calls|] == calls;
    output := w.output;
    OutputAccounts(calls, limit);
    if Faultless(calls) {
      WithoutFaults(calls, limit);
    }
  }

  // ---- Artifacts ----

  datatype File = File(size: nat, readable: bool, stored: bool)

  /** usable: the pattern is allowed, and its matches could be resolved to files. */
  datatype Pattern = Pattern(usable: bool, files: seq<File>)

  datatype Step = Step(optional: bool, patterns: seq<Pattern>)

  datatype Failure = BadPattern | NoMatch | Unreadable | FileTooLarge | BudgetExceeded | StoreFailed

  /** 100 << 20 */
  const MAX_FILE: nat := 104_857_600

  /** What happens in turn: a failing pattern, or a file to collect. */
  datatype Event = Stop(failure: Failure) | Collect(file: File)

  function FileEvents(files: seq<File>): seq<Event> {
    seq(|files|, i requires 0 <= i < |files| => Collect(files[i]))
  }

  function PatternEvents(p: Pattern, optional: bool): seq<Event> {
    if !p.usable then [Stop(BadPattern)]
    else if p.files == [] && !optional then [Stop(NoMatch)]
    else FileEvents(p.files)
  }

  function PatternsEvents(patterns: seq<Pattern>, optional: bool): seq<Event> {
    if patterns == [] then [] else PatternEvents(patterns[0], optional) + PatternsEvents(patterns[1..], optional)
  }

  function Events(steps: seq<Step>): seq<Event> {
    if steps == [] then [] else PatternsEvents(steps[0].patterns, steps[0].optional) + Events(steps[1..])
  }

  /** Why a file is not handed to the store, when the files before it add up to total; a budget of zero is none. */
  function Refusal(file: File, total: nat, budget: int): Option<Failure> {
    if !file.readable then Some(Unreadable)
    else if file.size > MAX_FILE then Some(FileTooLarge)
    else if budget > 0 && total + file.size > budget then Some(BudgetExceeded)
    else None
  }

  /** The files handed to the store, and why it ended if it failed. */
  function Outcome(events: seq<Event>, total: nat, budget: int): (seq<File>, Option<Failure>) {
    if events == [] then ([], None)
    else if events[0].Stop? then ([], Some(events[0].failure))
    else
      var file := events[0].file;
      var refusal := Refusal(file, total, budget);
      if refusal.Some? then ([], refusal)
      else if !file.stored then ([file], Some(StoreFailed))
      else
        var (rest, failure) := Outcome(events[1..], total + file.size, budget);
        ([file] + rest, failure)
  }

  function TotalSize(files: seq<File>): nat {
    if files == [] then 0 else files[0].size + TotalSize(files[1..])
  }

  function Collected(events: seq<Event>): seq<File> {
    if events == [] then []
    else if events[0].Stop? then []
    else [events[0].file] + Collected(events[1..])
  }

  /** The store is never given more than the budget, nor a file over the limit, whether the collection succeeds or not. */
  lemma {:induction false} BudgetHolds(events: seq<Event>, total: nat, budget: int)
    requires budget > 0 ==> total <= budget
    ensures budget > 0 ==> total + TotalSize(Outcome(events, total, budget).0) <= budget
    ensures forall file :: file in Outcome(events, total, budget).0 ==> file.readable && file.size <= MAX_FILE
    decreases |events|
  {
    if events != [] && events[0].Collect? && Refusal(events[0].file, total, budget).None? {
      var file := events[0].file;
      assert TotalSize([file]) == file.size by { assert [file][1..] == []; }
      if file.stored {
        BudgetHolds(events[1..], total + file.size, budget);
        var rest := Outcome(events[1..], total + file.size, budget).0;
        assert ([file] + rest)[1..] == rest;
        assert Outcome(events, total, budget).0 == [file] + rest;
      }
    }
  }

  /** It succeeds exactly when no pattern fails, every file is readable, within its limit and stored, and all fit the budget. */
  lemma {:induction false} SucceedsIff(events: seq<Event>, total: nat, budget: int)
    ensures Outcome(events, total, budget).1.None? <==>
      && (forall i :: 0 <= i < |events| ==>
        events[i].Collect? && events[i].file.readable && events[i].file.size <= MAX_FILE && events[i].file.stored)
      && (budget > 0 && events != [] ==> total + TotalSize(Collected(events)) <= budget)
    ensures Outcome(events, total, budget).1.None? ==> Outcome(events, total, budget).0 == Collected(events)
    decreases |events|
  {
    if events == [] {
    } else {
      if events[0].Collect? {
        var file := events[0].file;
        SucceedsIff(events[1..], total + file.size, budget);
        assert ([file] + Collected(events[1..]))[1..] == Collected(events[1..]);
      }
      assert forall i :: 1 <= i < |events| ==> events[i] == events[1..][i - 1];
    }
  }

  // ---- The nested loops ----

  /** How the run goes on after a prefix of events that caused no failure. */
  predicate SoFar(events: seq<Event>, given: seq<File>, total: nat, rest: seq<Event>, budget: int) {
    Outcome(events, 0, budget) == (given + Outcome(rest, total, budget).0, Outcome(rest, total, budget).1)
  }

  lemma SoFarStarts(events: seq<Event>, budget: int)
    ensures SoFar(events, [], 0, events, budget)
  {
    assert [] + Outcome(events, 0, budget).0 == Outcome(events, 0, budget).0;
  }

  lemma SoFarEnds(events: seq<Event>, given: seq<File>, total: nat, budget: int)
    requires SoFar(events, given, total, [], budget)
    ensures Outcome(events, 0, budget) == (given, None)
  {
    assert given + [] == given;
  }

  lemma NextStep(steps: seq<Step>, i: nat)
    requires i < |steps|
    ensures Events(steps[i..]) == PatternsEvents(steps[i].patterns, steps[i].optional) + Events(steps[i + 1..])
  {
    assert steps[i..][0] == steps[i] && steps[i..][1..] == steps[i + 1..];
  }

  lemma NextPattern(patterns: seq<Pattern>, optional: bool, j: nat, tail: seq<Event>)
    requires j < |patterns|
    ensures PatternsEvents(patterns[j..], optional) + tail ==
      PatternEvents(patterns[j], optional) + (PatternsEvents(patterns[j + 1..], optional) + tail)
  {
    hide PatternEvents;
    assert patterns[j..][0] == patterns[j] && patterns[j..][1..] == patterns[j + 1..];
  }

  lemma NothingLeft(steps: seq<Step>, patterns: seq<Pattern>, optional: bool, tail: seq<Event>)
    ensures Events(steps[|steps|..]) == [] && PatternsEvents(patterns[|patterns|..], optional) + tail == tail
  {
  }

  method CollectArtifacts(steps: seq<Step>, budget: int) returns (given: seq<File>, failure: Option<Failure>)
    ensures (given, failure) == Outcome(Events(steps), 0, budget)
  {
    hide Outcome, SoFar, PatternEvents, PatternsEvents, Events;
    SoFarStarts(Events(steps), budget);
    given, failure := [], None;
    var totalBytes: nat := 0;
    var i := 0;
    assert steps[0..] == steps;
    while i < |steps|
      invariant i <= |steps| && failure.None? && SoFar(Events(steps), given, totalBytes, Events(steps[i..]), budget)
    {
      var step := steps[i];
      ghost var tail := Events(steps[i + 1..]);
      NextStep(steps, i);
      var j := 0;
      assert step.patterns[0..] == step.patterns;
      while j < |step.patterns|
        invariant j <= |step.patterns| && failure.None?
        invariant SoFar(Events(steps), given, totalBytes, PatternsEvents(step.patterns[j..], step.optional) + tail, budget)
      {
        NextPattern(step.patterns, step.optional, j, tail);
        given, totalBytes, failure := CollectPattern(step.patterns[j], step.optional, given, totalBytes, budget,
          Events(steps), PatternsEvents(step.patterns[j + 1..], step.optional) + tail);
        if failure.Some? {
          return;
        }
        j := j + 1;
      }
      NothingLeft(steps, step.patterns, step.optional, tail);
      i := i + 1;
    }
    NothingLeft(steps, [], false, []);
    SoFarEnds(Events(steps), given, totalBytes, budget);
  }

  method CollectPattern(pattern: Pattern, optional: bool, before: seq<File>, total: nat, budget: int,
      ghost all: seq<Event>, ghost after: seq<Event>)
    returns (given: seq<File>, totalBytes: nat, failure: Option<Failure>)
    requires SoFar(all, before, total, PatternEvents(pattern, optional) + after, budget)
    ensures failure.Some? ==> (given, failure) == Outcome(all, 0, budget)
    ensures failure.None? ==> SoFar(all, given, totalBytes, after, budget)
  {
    given, totalBytes, failure := before, total, None;
    assert given + [] == given;
    if !pattern.usable {
      return given, totalBytes, Some(BadPattern);
    }
    if |pattern.files| == 0 && !optional {
      return given, totalBytes, Some(NoMatch);
    }
    assert pattern.files[0..] == pattern.files;
    for k := 0 to |pattern.files|
      invariant failure.None? && SoFar(all, given, totalBytes, FileEvents(pattern.files[k..]) + after, budget)
    {
      var file := pattern.files[k];
      NextFile(pattern.files, k, given, totalBytes, after, budget);
      if !file.readable {
        return given, totalBytes, Some(Unreadable);
      }
      if file.size > MAX_FILE {
        return given, totalBytes, Some(FileTooLarge);
      }
      totalBytes := totalBytes + file.size;
      if budget > 0 && totalBytes > budget {
        return given, totalBytes, Some(BudgetExceeded);
      }
      given := given + [file];
      if !file.stored {
        return given, totalBytes, Some(StoreFailed);
      }
    }
    assert FileEvents([]) + after == after;
  }

  lemma NextFile(files: seq<File>, k: nat, given: seq<File>, total: nat, after: seq<Event>, budget: int)
    requires k < |files|
    ensures var file := files[k];
      var now := Outcome(FileEvents(files[k..]) + after, total, budget);
      var later := Outcome(FileEvents(files[k + 1..]) + after, total + file.size, budget);
      if Refusal(file, total, budget).Some? then given + now.0 == given && now.1 == Refusal(file, total, budget)
      else if !file.stored then given + now.0 == given + [file] && now.1 == Some(StoreFailed)
      else given + now.0 == (given + [file]) + later.0 && now.1 == later.1
  {
    var events := FileEvents(files[k..]) + after;
    assert events[0] == Collect(files[k]);
    assert events[1..] == FileEvents(files[k + 1..]) + after;
  }

  // ---- The collection in terms of the steps ----

  function AllFiles(steps: seq<Step>): seq<File> {
    if steps == [] then [] else FilesOf(steps[0].patterns) + AllFiles(steps[1..])
  }

  function FilesOf(patterns: seq<Pattern>): seq<File> {
    if patterns == [] then [] else patterns[0].files + FilesOf(patterns[1..])
  }

  /** The pattern could be used, and matched something or did not have to. */
  predicate Served(p: Pattern, optional: bool) {
    p.usable && (p.files != [] || optional)
  }

  predicate AllServed(patterns: seq<Pattern>, optional: bool) {
    forall j :: 0 <= j < |patterns| ==> Served(patterns[j], optional)
  }

  /** Readable, no larger than a hundred mebibytes, and accepted by the store. */
  predicate Fit(file: File) {
    file.readable && file.size <= 100 * 1024 * 1024 && file.stored
  }

  predicate Clean(events: seq<Event>) {
    forall i :: 0 <= i < |events| ==> events[i].Collect? && Fit(events[i].file)
  }

  lemma CleanSum(a: seq<Event>, b: seq<Event>)
    ensures Clean(a + b) <==> Clean(a) && Clean(b)
  {
    assert forall i :: 0 <= i < |a| ==> (a + b)[i] == a[i];
    assert forall i :: 0 <= i < |b| ==> (a + b)[|a| + i] == b[i];
  }

  predicate AllFit(files: seq<File>) {
    forall file :: file in files ==> Fit(file)
  }

  lemma {:induction false} CollectedSum(a: seq<Event>, b: seq<Event>)
    requires Clean(a)
    ensures Collected(a + b) == Collected(a) + Collected(b)
  {
    if a == [] {
      assert a + b == b;
    } else {
      assert (a + b)[1..] == a[1..] + b;
      CollectedSum(a[1..], b);
    }
  }

  lemma {:induction false} FilesAreCollected(files: seq<File>)
    ensures Clean(FileEvents(files)) <==> AllFit(files)
    ensures Collected(FileEvents(files)) == files
  {
    var events := FileEvents(files);
    if files == [] {
    } else {
      FilesAreCollected(files[1..]);
      assert events[1..] == FileEvents(files[1..]);
      assert files == [files[0]] + files[1..] && events[0] == Collect(files[0]);
      assert Clean(events) <==> AllFit(files) by {
        assert forall i :: 0 <= i < |files| ==> events[i] == Collect(files[i]) && files[i] in files;
      }
    }
  }

  lemma PatternIsClean(p: Pattern, optional: bool)
    ensures Clean(PatternEvents(p, optional)) <==> Served(p, optional) && AllFit(p.files)
    ensures Clean(PatternEvents(p, optional)) ==> Collected(PatternEvents(p, optional)) == p.files
  {
    FilesAreCollected(p.files);
    if !Served(p, optional) { assert PatternEvents(p, optional)[0].Stop?; }
  }

  lemma {:induction false} PatternsAreClean(patterns: seq<Pattern>, optional: bool)
    ensures Clean(PatternsEvents(patterns, optional)) <==> AllServed(patterns, optional) && AllFit(FilesOf(patterns))
    ensures Clean(PatternsEvents(patterns, optional)) ==> Collected(PatternsEvents(patterns, optional)) == FilesOf(patterns)
  {
    if patterns == [] {
    } else {
      hide PatternEvents, Served, Fit;
      PatternIsClean(patterns[0], optional);
      PatternsAreClean(patterns[1..], optional);
      CleanSum(PatternEvents(patterns[0], optional), PatternsEvents(patterns[1..], optional));
      assert forall j :: 1 <= j < |patterns| ==> patterns[1..][j - 1] == patterns[j];
      if Clean(PatternEvents(patterns[0], optional)) {
        CollectedSum(PatternEvents(patterns[0], optional), PatternsEvents(patterns[1..], optional));
      }
    }
  }

  lemma {:induction false} StepsAreClean(steps: seq<Step>)
    ensures Clean(Events(steps)) <==>
      (forall i :: 0 <= i < |steps| ==> AllServed(steps[i].patterns, steps[i].optional)) && AllFit(AllFiles(steps))
    ensures Clean(Events(steps)) ==> Collected(Events(steps)) == AllFiles(steps)
  {
    if steps == [] {
    } else {
      hide PatternsEvents, AllServed, Fit, FilesOf;
      var first := steps[0];
      PatternsAreClean(first.patterns, first.optional);
      StepsAreClean(steps[1..]);
      CleanSum(PatternsEvents(first.patterns, first.optional), Events(steps[1..]));
      assert forall i :: 1 <= i < |steps| ==> steps[1..][i - 1] == steps[i];
      if Clean(PatternsEvents(first.patterns, first.optional)) {
        CollectedSum(PatternsEvents(first.patterns, first.optional), Events(steps[1..]));
      }
    }
  }

  /**
   The collection succeeds exactly if every pattern of every step can be used and matches something, unless its step is
   optional, every file is readable, within a hundred mebibytes and stored, and all files together fit a positive budget;
   and then it hands over all of them, in order.
   */
  lemma CollectionSucceedsIff(steps: seq<Step>, budget: int)
    ensures var (given, failure) := Outcome(Events(steps), 0, budget);
      && (failure.None? <==>
        && (forall i, j :: 0 <= i < |steps| && 0 <= j < |steps[i].patterns| ==> Served(steps[i].patterns[j], steps[i].optional))
        && AllFit(AllFiles(steps))
        && (budget > 0 ==> TotalSize(AllFiles(steps)) <= budget))
      && (failure.None? ==> given == AllFiles(steps))
  {
    hide Outcome, Events, Served;
    StepsAreClean(steps);
    SucceedsIff(Events(steps), 0, budget);
    assert forall i :: 0 <= i < |steps| ==> (AllServed(steps[i].patterns, steps[i].optional) <==>
      forall j :: 0 <= j < |steps[i].patterns| ==> Served(steps[i].patterns[j], steps[i].optional));
    assert Clean(Events(steps)) <==> forall i :: 0 <= i < |Events(steps)| ==>
      Events(steps)[i].Collect? && Events(steps)[i].file.readable
      && Events(steps)[i].file.size <= MAX_FILE && Events(steps)[i].file.stored;
    if Clean(Events(steps)) && Events(steps) == [] { assert TotalSize(AllFiles(steps)) == 0; }
  }

  /** A failure of the collection that the steps themselves show. */
  ghost predicate IsTrue(failure: Failure, steps: seq<Step>, budget: int) {
    match failure
    case BadPattern => exists i, j :: 0 <= i < |steps| && 0 <= j < |steps[i].patterns| && !steps[i].patterns[j].usable
    case NoMatch =>
      exists i, j :: 0 <= i < |steps| && 0 <= j < |steps[i].patterns| && !steps[i].optional
        && steps[i].patterns[j].usable && steps[i].patterns[j].files == []
    case Unreadable => exists file :: file in AllFiles(steps) && !file.readable
    case FileTooLarge => exists file :: file in AllFiles(steps) && file.size > 100 * 1024 * 1024
    case BudgetExceeded => budget > 0
    case StoreFailed => exists file :: file in AllFiles(steps) && !file.stored
  }

  lemma PatternEventIsTrue(p: Pattern, optional: bool, e: Event)
    requires e in PatternEvents(p, optional)
    ensures e.Collect? ==> e.file in p.files
    ensures e == Stop(BadPattern) ==> !p.usable
    ensures e == Stop(NoMatch) ==> !optional && p.usable && p.files == []
    ensures e.Stop? ==> e.failure.BadPattern? || e.failure.NoMatch?
  {
  }

  predicate Stops(p: Pattern, optional: bool, failure: Failure) {
    (failure.BadPattern? && !p.usable) || (failure.NoMatch? && !optional && p.usable && p.files == [])
  }

  lemma {:induction false} PatternsEventIsTrue(patterns: seq<Pattern>, optional: bool, e: Event)
    requires e in PatternsEvents(patterns, optional)
    ensures e.Collect? ==> e.file in FilesOf(patterns)
    ensures e.Stop? ==> exists j :: 0 <= j < |patterns| && Stops(patterns[j], optional, e.failure)
  {
    hide PatternEvents;
    if e in PatternEvents(patterns[0], optional) {
      PatternEventIsTrue(patterns[0], optional, e);
      assert e.Collect? ==> e.file in patterns[0].files;
    } else {
      PatternsEventIsTrue(patterns[1..], optional, e);
      if e.Stop? {
        var j :| 0 <= j < |patterns[1..]| && Stops(patterns[1..][j], optional, e.failure);
        assert patterns[j + 1] == patterns[1..][j];
      }
    }
  }

  lemma {:induction false} EventIsTrue(steps: seq<Step>, e: Event, budget: int)
    requires e in Events(steps)
    ensures e.Collect? ==> e.file in AllFiles(steps)
    ensures e.Stop? ==> IsTrue(e.failure, steps, budget)
  {
    hide PatternsEvents, FilesOf;
    if e in PatternsEvents(steps[0].patterns, steps[0].optional) {
      PatternsEventIsTrue(steps[0].patterns, steps[0].optional, e);
    } else {
      EventIsTrue(steps[1..], e, budget);
      assert forall i :: 0 <= i < |steps| - 1 ==> steps[1..][i] == steps[i + 1];
    }
  }

  /** What comes after the files that were given to the store: nothing, or what the failure is about. */
  predicate Ends(events: seq<Event>, given: seq<File>, total: nat, budget: int, failure: Option<Failure>) {
    if failure.None? then |given| == |events| && AllFit(given)
    else if failure == Some(StoreFailed) then given != [] && AllFit(given[..|given| - 1]) && !given[|given| - 1].stored
    else
      && |given| < |events| && AllFit(given)
      && match events[|given|]
         case Stop(reason) => failure.value == reason
         case Collect(file) =>
           if !file.readable then failure.value == Unreadable
           else if file.size > 100 * 1024 * 1024 then failure.value == FileTooLarge
           else failure.value == BudgetExceeded && budget > 0 && total + TotalSize(given) + file.size > budget
  }

  lemma TotalWithFirst(file: File, rest: seq<File>)
    ensures TotalSize([file] + rest) == file.size + TotalSize(rest)
  {
    assert ([file] + rest)[1..] == rest;
  }

  lemma FitWithFirst(file: File, rest: seq<File>)
    requires Fit(file)
    ensures AllFit([file] + rest) <==> AllFit(rest)
  {
    hide Fit;
    assert forall other :: other in [file] + rest <==> other == file || other in rest;
  }

  lemma OneMoreGiven(events: seq<Event>, file: File, rest: seq<File>, total: nat, budget: int, failure: Option<Failure>)
    requires events != [] && |rest| < |events| && Fit(file) && Ends(events[1..], rest, total + file.size, budget, failure)
    ensures Ends(events, [file] + rest, total, budget, failure)
    ensures TotalSize([file] + rest) == file.size + TotalSize(rest)
  {
    hide Fit, AllFit, TotalSize;
    TotalWithFirst(file, rest);
    FitWithFirst(file, rest);
    if failure == Some(StoreFailed) {
      FitWithFirst(file, rest[..|rest| - 1]);
      assert ([file] + rest)[..|rest|] == [file] + rest[..|rest| - 1];
    }
  }

  /** The files that are given to the store are the first ones, up to the first event that is or makes a failure. */
  lemma {:induction false} WhatIsGiven(events: seq<Event>, total: nat, budget: int)
    requires OnlyPatternStops(events)
    ensures var (given, failure) := Outcome(events, total, budget);
      && |given| <= |events| && (forall i :: 0 <= i < |given| ==> events[i] == Collect(given[i]))
      && Ends(events, given, total, budget, failure)
      && (budget > 0 && given != [] ==> total + TotalSize(given) <= budget)
    decreases |events|
  {
    if events != [] && events[0].Collect? && Refusal(events[0].file, total, budget).None? && events[0].file.stored {
      var file := events[0].file;
      WhatIsGiven(events[1..], total + file.size, budget);
      var (rest, failure) := Outcome(events[1..], total + file.size, budget);
      var given := [file] + rest;
      assert Outcome(events, total, budget) == (given, failure);
      hide Outcome;
      OneMoreGiven(events, file, rest, total, budget, failure);
    } else if events != [] && events[0].Collect? && Refusal(events[0].file, total, budget).None? {
      assert [events[0].file][1..] == [] && [events[0].file][..0] == [];
    }
  }

  /** The patterns themselves only fail for being unusable or for matching nothing. */
  predicate OnlyPatternStops(events: seq<Event>) {
    forall e :: e in events && e.Stop? ==> e.failure.BadPattern? || e.failure.NoMatch?
  }

  lemma {:induction false} PatternsOnlyStopSo(patterns: seq<Pattern>, optional: bool)
    ensures OnlyPatternStops(PatternsEvents(patterns, optional))
  {
    if patterns != [] {
      forall e | e in PatternEvents(patterns[0], optional) && e.Stop? ensures e.failure.BadPattern? || e.failure.NoMatch? {
        PatternEventIsTrue(patterns[0], optional, e);
      }
      PatternsOnlyStopSo(patterns[1..], optional);
    }
  }

  lemma {:induction false} EventsOnlyStopSo(steps: seq<Step>)
    ensures OnlyPatternStops(Events(steps))
  {
    if steps != [] {
      PatternsOnlyStopSo(steps[0].patterns, steps[0].optional);
      EventsOnlyStopSo(steps[1..]);
    }
  }

  /** The event that ended the collection. */
  lemma OutcomeIsAnEvent(events: seq<Event>, total: nat, budget: int) returns (e: Event)
    requires OnlyPatternStops(events) && Outcome(events, total, budget).1.Some?
    ensures e in events
    ensures var failure := Outcome(events, total, budget).1.value;
      || e == Stop(failure)
      || (e.Collect? && match failure
         case Unreadable => !e.file.readable
         case FileTooLarge => e.file.size > 100 * 1024 * 1024
         case BudgetExceeded => budget > 0
         case StoreFailed => !e.file.stored
         case _ => false)
  {
    hide Outcome, OnlyPatternStops;
    WhatIsGiven(events, total, budget);
    var (given, failure) := Outcome(events, total, budget);
    e := events[if failure == Some(StoreFailed) then |given| - 1 else |given|];
  }

  /** The failure that is reported is one that the steps and their files show. */
  lemma ReportedFailureIsTrue(steps: seq<Step>, budget: int)
    ensures var failure := Outcome(Events(steps), 0, budget).1; failure.Some? ==> IsTrue(failure.value, steps, budget)
  {
    hide Outcome, Events;
    EventsOnlyStopSo(steps);
    if Outcome(Events(steps), 0, budget).1.Some? {
      var e := OutcomeIsAnEvent(Events(steps), 0, budget);
      EventIsTrue(steps, e, budget);
    }
  }
}
