/** The Helm values update on a file that others have changed elsewhere. */
module HelmBesideOthers {
  import opened Wrappers
  import opened YamlTree
  import opened YamlLaws
  import opened FieldPath
  import opened ImageRef
  import opened Helm
  import opened HelmSecondRun
  import opened ThreeEdits

  /*
   Whether the update finds something to do on such a file, although its own fields read as it left them, depends on the
   fields and the image alone.
   */

  // ---- What other writers leave alone ----

  /** The field reads as before, and one to be removed is not newly out of reach. */
  predicate ReadsAlike(before: Node, after: Node, edit: Edit) {
    && Lookup(after, edit.path) == Lookup(before, edit.path)
    && (edit.Remove? && Blocked(after, edit.path) ==> Blocked(before, edit.path))
  }

  predicate Undisturbed(before: Node, after: Node, a: Edit, b: Edit, c: Edit) {
    ReadsAlike(before, after, a) && ReadsAlike(before, after, b) && ReadsAlike(before, after, c)
  }

  /** What was settled is so wherever it reads alike. */
  lemma SettledAlike(before: Node, after: Node, edit: Edit)
    requires before.kind.Mapping? && after.kind.Mapping? && ReadsAlike(before, after, edit)
    ensures Settled(before, edit) ==> Settled(after, edit)
  {
    SettledIff(before, edit);
    SettledIff(after, edit);
  }

  // ---- When that is enough ----

  /** The path above, which must hold a mapping for a removal at q to leave no trace of a set that it took. */
  function Parent(q: Path): seq<string> {
    q[..|q| - 1]
  }

  /** Nothing that the sets keep in the document holds the parent of q there. */
  predicate MayLackParent(q: Path, kept: Path) {
    |q| > 1 && !IsPrefix(Parent(q), kept)
  }

  /**
   The update of its own result can differ after changes that leave the fields alone. Either the removed tag lies above
   the digest, which is then taken out and appended again at the end of its mapping; or a removal takes a set field again
   and leaves empty mappings that others had removed.
   */
  predicate Restless(a: Edit, b: Edit, c: Edit) {
    match (b, c)
    case (SetTo(_, _), SetTo(_, _)) => false
    case (Remove(t), SetTo(d, _)) =>
      if IsPrefix(t, d) then !Above(a.path, d) && !Above(d, a.path)
      else IsPrefix(t, a.path) && !Above(d, t) && MayLackParent(t, d)
    case (SetTo(t, _), Remove(d)) =>
      && (IsPrefix(d, a.path) || IsPrefix(d, t)) && Level(a.path, t) && |d| > 1
      && (!IsPrefix(d, a.path) ==> MayLackParent(d, a.path)) && (!IsPrefix(d, t) ==> MayLackParent(d, t))
    case (Remove(t), Remove(d)) =>
      && (IsPrefix(t, a.path) || IsPrefix(d, a.path)) && !Above(a.path, t)
      && (IsPrefix(t, a.path) ==> |t| > 1) && (IsPrefix(d, a.path) ==> |d| > 1)
  }

  /** Edits of which each leaves the others alone are never restless. */
  lemma ConsistentIsNotRestless(a: Edit, b: Edit, c: Edit)
    requires a.SetTo? && Consistent(a, b) && Consistent(a, c) && Consistent(b, c)
    ensures !Restless(a, b, c)
  {
  }

  /** A place with a kept field beside or below it is there. */
  lemma KeptHoldsParent(n: Node, q: Path, kept: Path)
    requires Lookup(n, kept).Some? && !Above(kept, q)
    requires |q| > 1 ==> IsPrefix(Parent(q), kept)
    ensures ParentThere(n, q)
  {
    if |q| > 1 {
      assert q[..|q| - 1] == Parent(q);
      PrefixFound(n, Parent(q), kept);
      ParentIsFound(n, q);
    }
  }

  lemma {:induction false} ParentIsFound(n: Node, q: Path)
    requires |q| > 1 && Lookup(n, Parent(q)).Some? && Lookup(n, Parent(q)).value.kind.Mapping?
    ensures ParentThere(n, q)
    decreases |q|
  {
    var next := MapValue(n, q[0]);
    assert Parent(q)[0] == q[0] && Parent(q)[1..] == Parent(q[1..]);
    if |q| == 2 {
      assert Lookup(next.value, []) == Some(next.value);
    } else {
      FoundHasParent(n, Parent(q));
      ParentIsFound(next.value, q[1..]);
    }
  }

  /** Unless the edits are restless, running them on a document that reads like their result fails or changes nothing. */
  lemma StaysFinal(node: Node, x: Node, a: Edit, b: Edit, c: Edit)
    requires WellFormedMap(node) && WellFormedMap(x) && a.SetTo? && Runs(node, a, b, c)
    requires Undisturbed(Outcome(node, a, b, c), x, a, b, c) && !Restless(a, b, c)
    ensures Runs(x, a, b, c) ==> Outcome(x, a, b, c) == x
  {
    hide Apply, WellFormedMap, Settled, Undisturbed, Restless, Above, Runs, Repeats;
    if Clash(a, b, c) {
      ResultIsSettled(node, a, b, c);
      Transfer(node, x, a, b, c);
      ClashFails(x, a, b, c);
    } else {
      StaysRepeated(node, x, a, b, c);
      RepeatsIs(x, a, b, c);
    }
  }

  lemma ResultIsSettled(node: Node, a: Edit, b: Edit, c: Edit)
    requires WellFormedMap(node) && Runs(node, a, b, c)
    ensures WellFormedMap(Outcome(node, a, b, c)) && Outcome(node, a, b, c).kind.Mapping? && Settled(Outcome(node, a, b, c), c)
  {
    hide Apply, WellFormedMap, Settled;
    Stages(node, a, b, c);
    MappingStages(node, a, b, c);
  }

  lemma Transfer(node: Node, x: Node, a: Edit, b: Edit, c: Edit)
    requires WellFormedMap(node) && WellFormedMap(x) && Runs(node, a, b, c) && Undisturbed(Outcome(node, a, b, c), x, a, b, c)
    ensures var n := Outcome(node, a, b, c);
      && x.kind.Mapping? && n.kind.Mapping?
      && (Settled(n, a) ==> Settled(x, a)) && (Settled(n, b) ==> Settled(x, b)) && (Settled(n, c) ==> Settled(x, c))
  {
    hide Apply, Settled, ReadsAlike, Runs;
    ResultIsSettled(node, a, b, c);
    var n := Outcome(node, a, b, c);
    SettledAlike(n, x, a);
    SettledAlike(n, x, b);
    SettledAlike(n, x, c);
  }

  lemma StaysRepeated(node: Node, x: Node, a: Edit, b: Edit, c: Edit)
    requires WellFormedMap(node) && WellFormedMap(x) && a.SetTo? && Runs(node, a, b, c)
    requires Undisturbed(Outcome(node, a, b, c), x, a, b, c) && !Restless(a, b, c) && !Clash(a, b, c)
    ensures Repeats(x, a, b, c)
  {
    hide Apply, WellFormedMap, Settled, Undisturbed, Runs, Repeats;
    Transfer(node, x, a, b, c);
    if b.SetTo? && c.SetTo? {
      ThreeSets(node, a, b, c);
      SetsAgain(x, a, b, c);
    } else if b.SetTo? {
      TwoSetsOneRemove(node, a, b, c);
      KeptAfterLastRemoval(x, a, b, c);
      SetSetRemoveAgain(x, a, b, c);
    } else if c.SetTo? {
      SetRemoveSet(node, a, b, c);
      assert !IsPrefix(b.path, c.path) by { AboveOrEqual(a.path, c.path); }
      KeptAfterMiddleRemoval(x, a, b, c);
      SetRemoveSetAgain(x, a, b, c);
    } else {
      OneSetTwoRemoves(node, a, b, c);
      RoomAtTheRoot(x, a, b, c);
      SetRemoveRemoveAgain(x, a, b, c);
    }
  }

  lemma KeptAfterLastRemoval(x: Node, a: Edit, b: Edit, c: Edit)
    requires x.kind.Mapping? && a.SetTo? && b.SetTo? && c.Remove? && AfterLastRemoval(x, a, b, c) && !Restless(a, b, c)
    ensures IsPrefix(c.path, a.path) || IsPrefix(c.path, b.path) ==> ParentThere(x, c.path)
  {
    hide Apply, Settled, IsPrefix;
    if (IsPrefix(c.path, a.path) || IsPrefix(c.path, b.path)) && |c.path| > 1 {
      if !IsPrefix(c.path, a.path) && IsPrefix(Parent(c.path), a.path) {
        SettledFound(x, a);
        KeptHoldsParent(x, c.path, a.path);
      } else {
        SettledFound(x, b);
        KeptHoldsParent(x, c.path, b.path);
      }
    }
  }

  lemma KeptAfterMiddleRemoval(x: Node, a: Edit, b: Edit, c: Edit)
    requires x.kind.Mapping? && a.SetTo? && b.Remove? && c.SetTo? && AfterMiddleRemoval(x, a, b, c) && !Restless(a, b, c)
    ensures IsPrefix(b.path, a.path) ==> ParentThere(x, b.path)
  {
    hide Apply, Settled;
    if IsPrefix(b.path, a.path) && |b.path| > 1 {
      SettledFound(x, c);
      KeptHoldsParent(x, b.path, c.path);
    }
  }

  lemma RoomAtTheRoot(x: Node, a: Edit, b: Edit, c: Edit)
    requires a.SetTo? && b.Remove? && c.Remove? && AfterRemovals(x, a, b, c) && !Restless(a, b, c)
    ensures RoomForRemovals(x, a, b, c)
  {
    hide Apply, Settled;
    if IsPrefix(b.path, a.path) && IsPrefix(c.path, a.path) {
      PrefixesOfOne(b.path, c.path, a.path);
    }
  }

  /** Of two paths above a third the shorter is above the longer. */
  lemma PrefixesOfOne(p: Path, q: Path, r: Path)
    requires IsPrefix(p, r) && IsPrefix(q, r)
    ensures if |p| <= |q| then IsPrefix(p, q) else IsPrefix(q, p)
  {
    if |p| <= |q| {
      assert r[..|q|][..|p|] == r[..|p|];
    } else {
      assert r[..|p|][..|q|] == r[..|q|];
    }
  }

  // ---- When it is not ----

  /** The document that has one field set and nothing else has nothing anywhere beside it. */
  lemma OneFieldAlone(kept: Edit, path: seq<string>)
    requires kept.SetTo?
    ensures Apply(EMPTY_MAP, kept).Ok? && WellFormedMap(After(EMPTY_MAP, kept)) && Settled(After(EMPTY_MAP, kept), kept)
    ensures !Nested(kept.path, path) && path != [] ==>
      Lookup(After(EMPTY_MAP, kept), path).None? && !Blocked(After(EMPTY_MAP, kept), path)
  {
    EmptyMapIsUnique();
    EmptyMapHasNothing(kept.path);
    EditFailsIff(EMPTY_MAP, kept);
    ApplySettles(EMPTY_MAP, kept);
    if !Nested(kept.path, path) && path != [] {
      EmptyMapHasNothing(path);
      SetFrame(EMPTY_MAP, kept.path, kept.value, path);
      SetBlocksNothingElse(EMPTY_MAP, kept.path, kept.value, path);
    }
  }

  lemma NoParentThere(n: Node, q: Path)
    requires |q| > 1 && Lookup(n, Parent(q)).None?
    ensures !ParentThere(n, q)
  {
    if ParentThere(n, q) { BelowParent(n, Parent(q), q); }
  }

  /** Under a removed path nothing is found. */
  lemma GoneBelow(n: Node, removal: Edit, path: Path)
    requires n.kind.Mapping? && removal.Remove? && Settled(n, removal) && IsPrefix(removal.path, path)
    ensures Lookup(n, path).None? && !Blocked(n, path)
  {
    RemovedIsGone(n, removal);
    NothingBelow(n, removal.path, path);
  }

  lemma RemovalRuns(n: Node, found: Edit, removal: Edit)
    requires n.kind.Mapping? && found.SetTo? && Settled(n, found) && removal.Remove? && IsPrefix(removal.path, found.path)
    ensures Apply(n, removal).Ok?
  {
    SettledFound(n, found);
    AboveOrEqual(removal.path, found.path);
    if removal.path != found.path { PrefixFound(n, removal.path, found.path); }
    FoundIsNotBlocked(n, removal.path);
    EditFailsIff(n, removal);
  }

  lemma RemovalBlocksNothing(n: Node, removal: Edit, path: Path)
    requires WellFormedMap(n) && removal.Remove? && Apply(n, removal).Ok? && !Blocked(n, path)
    ensures !Blocked(After(n, removal), path)
  {
    RemoveNeverBlocks(n, removal.path, path);
  }

  /** Set, remove, remove on an empty document leaves the mappings around what was set. */
  lemma RemovalsLeaveMappings(a: Edit, b: Edit, c: Edit)
    requires a.SetTo? && b.Remove? && c.Remove? && Restless(a, b, c)
    ensures Runs(EMPTY_MAP, a, b, c) && Outcome(EMPTY_MAP, a, b, c) != EMPTY_MAP
    ensures Undisturbed(Outcome(EMPTY_MAP, a, b, c), EMPTY_MAP, a, b, c)
  {
    hide Apply, Settled, WellFormedMap, IsPrefix;
    OneFieldAlone(a, b.path);
    OneFieldAlone(a, c.path);
    var x := After(EMPTY_MAP, a);
    MappingOf(x);
    Unrelated(a.path, b.path);
    Unrelated(a.path, c.path);
    AboveOrEqual(b.path, a.path);
    AboveOrEqual(c.path, a.path);
    if IsPrefix(b.path, a.path) { RemovalRuns(x, a, b); } else { EditFailsIff(x, b); }
    var y := After(x, b);
    ApplySettles(x, b);
    MappingOf(y);
    if Above(a.path, c.path) {
      AboveIsTransitive(b.path, a.path, c.path);
      GoneBelow(y, b, c.path);
    } else {
      if IsPrefix(c.path, a.path) {
        SettledFound(x, a);
        if c.path != a.path { PrefixFound(x, c.path, a.path); }
        FoundIsNotBlocked(x, c.path);
      }
      RemovalBlocksNothing(x, b, c.path);
    }
    EditFailsIff(y, c);
    EmptyMapIsUnique();
    LeftFromEmpty(a, b, c);
  }

  lemma LeftFromEmpty(a: Edit, b: Edit, c: Edit)
    requires a.SetTo? && b.Remove? && c.Remove? && Restless(a, b, c) && Runs(EMPTY_MAP, a, b, c)
    ensures Outcome(EMPTY_MAP, a, b, c) != EMPTY_MAP && Undisturbed(Outcome(EMPTY_MAP, a, b, c), EMPTY_MAP, a, b, c)
  {
    hide Apply, Settled, WellFormedMap, IsPrefix;
    EmptyMapIsUnique();
    OneSetTwoRemoves(EMPTY_MAP, a, b, c);
    ResultIsSettled(EMPTY_MAP, a, b, c);
    var n := Outcome(EMPTY_MAP, a, b, c);
    EmptyMapHasNothing(a.path);
    EmptyMapHasNothing(b.path);
    EmptyMapHasNothing(c.path);
    RemovedIsGone(n, b);
    RemovedIsGone(n, c);
    if IsPrefix(b.path, a.path) { GoneBelow(n, b, a.path); } else { GoneBelow(n, c, a.path); }
    var q := if IsPrefix(b.path, a.path) && !Above(c.path, b.path) then b.path else c.path;
    if Above(c.path, b.path) && IsPrefix(b.path, a.path) { AboveIsTransitive(c.path, b.path, a.path); }
    EmptyMapHasNothing(Parent(q));
    NoParentThere(EMPTY_MAP, q);
  }

  /** Beside one kept field: set what lies under q, and take q again. */
  lemma LeftBeside(kept: Edit, q: Path)
    requires kept.SetTo? && MayLackParent(q, kept.path) && !IsPrefix(q, kept.path) && !Above(kept.path, q)
    ensures var k := After(EMPTY_MAP, kept);
      && WellFormedMap(k) && k.kind.Mapping? && Settled(k, kept)
      && !ParentThere(k, q) && Lookup(k, q).None? && !Blocked(k, q)
      && (forall path :: IsPrefix(q, path) ==> Lookup(k, path).None? && !Blocked(k, path))
      && !Nested(q, kept.path) && !Nested(kept.path, q)
  {
    var k := After(EMPTY_MAP, kept);
    Unrelated(kept.path, q);
    OneFieldAlone(kept, q);
    MappingOf(k);
    OneFieldAlone(kept, Parent(q));
    NoParentThere(k, q);
    forall path | IsPrefix(q, path) ensures Lookup(k, path).None? && !Blocked(k, path) {
      NothingBelow(k, q, path);
    }
  }

  /** A set that the removal of q takes: it succeeds on k, leaves the kept field alone, and the removal succeeds. */
  lemma SetAndTaken(k: Node, kept: Edit, taken: Edit, q: Path)
    requires WellFormedMap(k) && k.kind.Mapping? && kept.SetTo? && Settled(k, kept) && taken.SetTo? && IsPrefix(q, taken.path)
    requires Lookup(k, taken.path).None? && !Blocked(k, taken.path) && !Nested(q, kept.path)
    ensures Apply(k, taken).Ok? && WellFormedMap(After(k, taken)) && Settled(After(k, taken), taken)
    ensures Settled(After(k, taken), kept) && Lookup(After(k, taken), kept.path) == Lookup(k, kept.path)
    ensures Apply(After(k, taken), Remove(q)).Ok?
  {
    EditFailsIff(k, taken);
    ApplySettles(k, taken);
    BesideTaken(kept.path, taken.path, q);
    SettledPersists(k, kept, taken);
    SetFrame(k, taken.path, taken.value, kept.path);
    RemovalRuns(After(k, taken), taken, Remove(q));
  }

  lemma BesideTaken(kept: Path, taken: Path, q: Path)
    requires IsPrefix(q, taken) && !Nested(q, kept)
    ensures !Nested(kept, taken) && !Nested(taken, kept)
  {
    if IsPrefix(taken, kept) { AboveIsTransitive(q, taken, kept); }
    if IsPrefix(kept, taken) { PrefixesOfOne(kept, q, taken); }
  }

  lemma RemovalKeeps(k: Node, kept: Edit, removal: Edit)
    requires WellFormedMap(k) && kept.SetTo? && removal.Remove? && Settled(k, kept) && Apply(k, removal).Ok?
    requires !Nested(removal.path, kept.path) && !Nested(kept.path, removal.path)
    ensures Settled(After(k, removal), kept) && Lookup(After(k, removal), kept.path) == Lookup(k, kept.path)
  {
    SettledPersists(k, kept, removal);
    DeleteFrame(k, removal.path, kept.path);
  }

  /** Set, remove, set beside the last one leaves the mappings around what was set first. */
  lemma MiddleRemovalLeavesMappings(a: Edit, b: Edit, c: Edit)
    requires a.SetTo? && b.Remove? && c.SetTo? && Restless(a, b, c) && !IsPrefix(b.path, c.path)
    ensures var k := After(EMPTY_MAP, c);
      && WellFormedMap(k) && Runs(k, a, b, c) && Outcome(k, a, b, c) != k && Undisturbed(Outcome(k, a, b, c), k, a, b, c)
  {
    hide Apply, Settled, WellFormedMap, IsPrefix;
    var k := After(EMPTY_MAP, c);
    LeftBeside(c, b.path);
    SetAndTaken(k, c, a, b.path);
    var x := After(k, a);
    assert b == Remove(b.path);
    MappingOf(x);
    RemovalKeeps(x, c, b);
    var y := After(x, b);
    NoChange(y, c);
    assert Outcome(k, a, b, c) == y;
    assert !Clash(a, b, c) by { PrefixesAreLevel(a.path, b.path, c.path); }
    SetRemoveSet(k, a, b, c);
    ResultIsSettled(k, a, b, c);
    RemovedIsGone(y, b);
    GoneBelow(y, b, a.path);
  }

  lemma PrefixesAreLevel(a: Path, b: Path, c: Path)
    requires IsPrefix(b, a) && !IsPrefix(b, c) && !Above(c, b)
    ensures !Above(a, c) && !Above(c, a) && b != c
  {
    AboveOrEqual(b, c);
    if Above(a, c) { AboveIsTransitive(b, a, c); }
    if Above(c, a) { PrefixesOfOne(b, c, a); }
  }

  /** Set, set, remove leaves the mappings around what it takes, unless a set that it does not take is there to keep them. */
  lemma LastRemovalLeavesMappings(a: Edit, b: Edit, c: Edit) returns (k: Node)
    requires a.SetTo? && b.SetTo? && c.Remove? && Restless(a, b, c)
    ensures WellFormedMap(k) && Runs(k, a, b, c) && Outcome(k, a, b, c) != k && Undisturbed(Outcome(k, a, b, c), k, a, b, c)
  {
    hide Apply, Settled, WellFormedMap, IsPrefix;
    Unrelated(a.path, b.path);
    AboveOrEqual(a.path, b.path);
    assert c == Remove(c.path);
    if !IsPrefix(c.path, a.path) {
      k := After(EMPTY_MAP, a);
      NotAboveTheRemoval(a.path, c.path, b.path);
      LeftBeside(a, c.path);
      NoChange(k, a);
      SetAndTaken(k, a, b, c.path);
      RemovalKeeps(After(k, b), a, c);
      TakenReadsAlike(k, a, b, c);
      GoneBelow(Outcome(k, a, b, c), c, b.path);
    } else if !IsPrefix(c.path, b.path) {
      k := After(EMPTY_MAP, b);
      NotAboveTheRemoval(b.path, c.path, a.path);
      LeftBeside(b, c.path);
      SetAndTaken(k, b, a, c.path);
      NoChange(After(k, a), b);
      RemovalKeeps(After(k, a), b, c);
      TakenReadsAlike(k, a, b, c);
      GoneBelow(Outcome(k, a, b, c), c, a.path);
    } else {
      k := EMPTY_MAP;
      BothTaken(a, b, c);
    }
  }

  lemma NotAboveTheRemoval(kept: Path, q: Path, taken: Path)
    requires IsPrefix(q, taken) && !IsPrefix(q, kept) && Level(kept, taken)
    ensures !Above(kept, q)
  {
    AboveOrEqual(kept, taken);
    if Above(kept, q) { AboveIsTransitive(kept, q, taken); }
  }

  lemma TakenReadsAlike(k: Node, a: Edit, b: Edit, c: Edit)
    requires WellFormedMap(k) && a.SetTo? && b.SetTo? && c.Remove? && Runs(k, a, b, c)
    requires IsPrefix(c.path, a.path) || IsPrefix(c.path, b.path)
    requires !ParentThere(k, c.path) && Lookup(k, c.path).None? && !Blocked(k, c.path)
    ensures var n := Outcome(k, a, b, c);
      n.kind.Mapping? && Settled(n, c) && n != k && ReadsAlike(n, k, c) && Lookup(n, c.path).None?
  {
    hide Apply, Settled, WellFormedMap, IsPrefix;
    TwoSetsOneRemove(k, a, b, c);
    ResultIsSettled(k, a, b, c);
    RemovedIsGone(Outcome(k, a, b, c), c);
  }

  lemma BothTaken(a: Edit, b: Edit, c: Edit)
    requires a.SetTo? && b.SetTo? && c.Remove? && IsPrefix(c.path, a.path) && IsPrefix(c.path, b.path)
    requires Level(a.path, b.path) && |c.path| > 1
    ensures var k := EMPTY_MAP;
      && WellFormedMap(k) && Runs(k, a, b, c) && Outcome(k, a, b, c) != k && Undisturbed(Outcome(k, a, b, c), k, a, b, c)
  {
    hide Apply, Settled, WellFormedMap, IsPrefix;
    var k := EMPTY_MAP;
    EmptyMapIsUnique();
    OneFieldAlone(a, b.path);
    var x := After(k, a);
    MappingOf(x);
    Unrelated(a.path, b.path);
    if a.path == b.path {
      Overwritten(x, a.path, b.value, a.value);
    } else {
      EditFailsIff(x, b);
    }
    ApplySettles(x, b);
    MappingOf(After(x, b));
    RemovalRuns(After(x, b), b, c);
    assert c == Remove(c.path);
    EmptyMapHasNothing(Parent(c.path));
    EmptyMapHasNothing(c.path);
    EmptyMapHasNothing(a.path);
    EmptyMapHasNothing(b.path);
    NoParentThere(k, c.path);
    TakenReadsAlike(k, a, b, c);
    GoneBelow(Outcome(k, a, b, c), c, a.path);
    GoneBelow(Outcome(k, a, b, c), c, b.path);
  }

  // ---- A digest below the deleted tag moves to the end of its mapping ----

  /** What a set leaves at a path above its own that had nothing. */
  function Chain(path: Path, at: Path, value: string): Option<Node>
    requires IsPrefix(path, at)
  {
    if |path| == |at| then Some(Str(value))
    else
      var below := SetField(EMPTY_MAP, at[|path|..], value);
      if below.Ok? then Some(below.value.0) else None
  }

  lemma {:induction false} SetChains(n: Node, path: Path, at: Path, value: string)
    requires n.kind.Mapping? && Paired(n) && IsPrefix(path, at) && Lookup(n, path).None? && SetField(n, at, value).Ok?
    ensures Lookup(SetField(n, at, value).value.0, path) == Chain(path, at, value)
    decreases |path|
  {
    FirstSegment(path, at);
    var next := MapValue(n, at[0]);
    if |at| == 1 {
      SetLeafStep(n, at[0], value);
      MapValuePut(n, at[0], Str(value), at[0]);
      assert path == [at[0]];
    } else {
      SetFieldStep(n, at, value);
      var child := if next.Some? then next.value else EMPTY_MAP;
      var child' := SetField(child, at[1..], value).value.0;
      MapValuePut(n, at[0], child', at[0]);
      if |path| == 1 {
        assert Lookup(SetField(n, at, value).value.0, path) == Some(child');
      } else {
        if next.None? { EmptyMapHasNothing(path[1..]); }
        SetChains(child, path[1..], at[1..], value);
        assert at[1..][|path| - 1..] == at[|path|..];
      }
    }
  }

  lemma {:induction false} LookupThrough(n: Node, path: seq<string>, below: seq<string>)
    requires IsPrefix(path, below)
    ensures Lookup(n, below) == if Lookup(n, path).None? then None else Lookup(Lookup(n, path).value, below[|path|..])
    decreases |path|
  {
    if path == [] {
      assert below[0..] == below;
    } else {
      PrefixTail(path, below) by { assert below[..|path|][0] == path[0]; }
      var next := MapValue(n, path[0]);
      assert below[..|path|][0] == path[0];
      if next.Some? {
        LookupThrough(next.value, path[1..], below[1..]);
        assert below[1..][|path| - 1..] == below[|path|..];
      }
    }
  }

  /** The last key of the mapping in which the path's last segment would be looked up. */
  function LastKey(n: Node, path: Path): Option<string> {
    if |path| == 1 then (if |n.content| < 2 then None else Some(n.content[|n.content| - 2].value))
    else
      var next := MapValue(n, path[0]);
      if next.None? then None else LastKey(next.value, path[1..])
  }

  lemma {:induction false} PlantedComesLast(n: Node, path: Path, planted: Node)
    requires n.kind.Mapping? && Paired(n) && Planted(n, path, planted)
    ensures LastKey(planted, path) == Some(path[|path| - 1])
    decreases |path|
  {
    if |path| == 1 {
    } else {
      PlantedComesLast(MapValue(n, path[0]).value, path[1..], MapValue(planted, path[0]).value);
    }
  }

  /** Two names in one mapping. */
  predicate Siblings(p: Path, q: Path) {
    |p| == |q| && Parent(p) == Parent(q)
  }

  lemma {:induction false} SiblingsShare(n: Node, p: Path, q: Path)
    requires Siblings(p, q)
    ensures LastKey(n, p) == LastKey(n, q) && (ParentThere(n, p) <==> ParentThere(n, q))
    decreases |p|
  {
    if |p| == 1 {
    } else {
      assert Parent(p)[0] == p[0] && Parent(q)[0] == q[0];
      assert Parent(p[1..]) == Parent(p)[1..] && Parent(q[1..]) == Parent(q)[1..];
      if MapValue(n, p[0]).Some? { SiblingsShare(MapValue(n, p[0]).value, p[1..], q[1..]); }
    }
  }

  lemma SiblingsAreApart(p: Path, q: Path, below: Path)
    requires Siblings(p, q) && p != q && IsPrefix(p, below)
    ensures !Nested(q, below) && !Nested(below, q)
  {
    assert p == Parent(p) + [p[|p| - 1]] && q == Parent(q) + [q[|q| - 1]];
    assert below[..|p|] == p;
  }

  /** A name beside the path that is none of its own nor of the other's. */
  function Fresh(path: Path, other: Path): (f: Path)
    ensures Siblings(f, path) && f != path
  {
    var n := |path| - 1;
    var name := path[n] + (if n < |other| then other[n] else "") + "-";
    assert (path[..n] + [name])[..n] == path[..n];
    assert name != path[n];
    path[..n] + [name]
  }

  lemma FreshIsApart(path: Path, other: Path)
    requires !Nested(path, other) && !Nested(other, path)
    ensures var f := Fresh(path, other); !Nested(f, other) && !Nested(other, f)
  {
    var n, f := |path| - 1, Fresh(path, other);
    assert f[..n] == path[..n] == Parent(path);
    assert |other| > n ==> |f[n]| > |other[n]|;
    assert |other| > n ==> other[..n + 1][n] == other[n];
    assert |other| <= n ==> path[..n][..|other|] == path[..|other|] && f[..n][..|other|] == f[..|other|];
  }

  /** A document in which the digest below the tag is followed by another entry. */
  function Followed(a: Edit, b: Edit, c: Edit): Node {
    var start := if IsPrefix(b.path, a.path) then EMPTY_MAP else After(EMPTY_MAP, a);
    After(After(start, c), SetTo(Fresh(b.path, a.path), ""))
  }

  predicate TagOverDigest(a: Edit, b: Edit, c: Edit) {
    a.SetTo? && b.Remove? && c.SetTo? && IsPrefix(b.path, c.path) && !Above(a.path, c.path) && !Above(c.path, a.path)
  }

  /** What the first set meets: nothing yet, or the value that the last set left, or its own. */
  predicate Meets(n: Node, a: Edit, b: Edit, c: Edit) {
    if !IsPrefix(b.path, a.path) then Settled(n, a) else a.path == c.path || (Lookup(n, a.path).None? && !Blocked(n, a.path))
  }

  lemma ApartFromTag(a: Edit, b: Edit, c: Edit)
    requires TagOverDigest(a, b, c)
    ensures !IsPrefix(b.path, a.path) ==> !Nested(a.path, b.path) && !Nested(b.path, a.path)
    ensures a.path != c.path ==> !Nested(a.path, c.path) && !Nested(c.path, a.path)
    ensures var f := Fresh(b.path, a.path);
      && !Nested(f, a.path) && !Nested(a.path, f) && !Nested(f, b.path) && !Nested(b.path, f)
      && !Nested(f, c.path) && !Nested(c.path, f)
  {
    Unrelated(a.path, c.path);
    AboveOrEqual(a.path, b.path);
    AboveOrEqual(a.path, c.path);
    if IsPrefix(a.path, b.path) { AboveIsTransitive(a.path, b.path, c.path); }
    var f := Fresh(b.path, a.path);
    assert Siblings(b.path, f);
    assert b.path[..|b.path|] == b.path;
    SiblingsAreApart(b.path, f, b.path);
    SiblingsAreApart(b.path, f, c.path);
    if IsPrefix(b.path, a.path) { SiblingsAreApart(b.path, f, a.path); } else { FreshIsApart(b.path, a.path); }
  }

  lemma StartIs(a: Edit, b: Edit, c: Edit) returns (start: Node)
    requires TagOverDigest(a, b, c)
    ensures start == if IsPrefix(b.path, a.path) then EMPTY_MAP else After(EMPTY_MAP, a)
    ensures var f := Fresh(b.path, a.path);
      && WellFormedMap(start) && start.kind.Mapping? && Meets(start, a, b, c)
      && Lookup(start, b.path).None? && !Blocked(start, b.path) && Lookup(start, f).None? && !Blocked(start, f)
  {
    hide Apply, Settled, IsPrefix;
    var f := Fresh(b.path, a.path);
    ApartFromTag(a, b, c);
    EmptyMapIsUnique();
    EmptyMapHasNothing(a.path);
    EmptyMapHasNothing(b.path);
    EmptyMapHasNothing(f);
    OneFieldAlone(a, b.path);
    OneFieldAlone(a, f);
    start := if IsPrefix(b.path, a.path) then EMPTY_MAP else After(EMPTY_MAP, a);
    MappingOf(start);
  }

  lemma StillMeets(n: Node, edit: Edit, a: Edit, b: Edit, c: Edit)
    requires WellFormedMap(n) && edit.SetTo? && Apply(n, edit).Ok? && a.SetTo? && Meets(n, a, b, c)
    requires (a.path == c.path && IsPrefix(b.path, a.path)) || (!Nested(edit.path, a.path) && !Nested(a.path, edit.path))
    ensures Meets(After(n, edit), a, b, c)
  {
    if !IsPrefix(b.path, a.path) {
      SettledPersists(n, a, edit);
    } else if a.path != c.path {
      SetFrame(n, edit.path, edit.value, a.path);
      SetBlocksNothingElse(n, edit.path, edit.value, a.path);
    }
  }

  lemma FollowedIs(a: Edit, b: Edit, c: Edit)
    requires TagOverDigest(a, b, c)
    ensures var k := Followed(a, b, c);
      && WellFormedMap(k) && k.kind.Mapping? && Settled(k, c) && Meets(k, a, b, c)
      && Lookup(k, b.path) == Chain(b.path, c.path, c.value)
      && LastKey(k, b.path) == Some(Fresh(b.path, a.path)[|b.path| - 1])
  {
    hide Apply, Settled, IsPrefix, Fresh, Meets, Chain;
    var start := StartIs(a, b, c);
    var f := SetTo(Fresh(b.path, a.path), "");
    ApartFromTag(a, b, c);
    NothingBelow(start, b.path, c.path);
    EditFailsIff(start, c);
    ApplySettles(start, c);
    var m := After(start, c);
    MappingOf(m);
    SetChainsBy(start, b.path, c);
    MeetsAfterDigest(start, a, b, c);
    FreshStays(start, c, f.path);
    EditFailsIff(m, f);
    ApplySettles(m, f);
    SettledPersists(m, c, f);
    StillMeets(m, f, a, b, c);
    LookupBeside(m, f, b.path);
    SettledFound(m, c);
    FoundHasParent(m, c.path);
    FollowedComesLast(m, f, b.path, c);
    MappingOf(After(m, f));
  }

  lemma MeetsAfterDigest(start: Node, a: Edit, b: Edit, c: Edit)
    requires TagOverDigest(a, b, c) && WellFormedMap(start) && Apply(start, c).Ok? && Meets(start, a, b, c)
    ensures Meets(After(start, c), a, b, c)
  {
    hide Apply, Settled, Meets;
    ApartFromTag(a, b, c);
    if a.path == c.path {
      assert IsPrefix(b.path, a.path);
    }
    StillMeets(start, c, a, b, c);
  }

  lemma SetChainsBy(n: Node, path: Path, edit: Edit)
    requires WellFormedMap(n) && edit.SetTo? && IsPrefix(path, edit.path) && Lookup(n, path).None? && Apply(n, edit).Ok?
    ensures Lookup(After(n, edit), path) == Chain(path, edit.path, edit.value)
  {
    SetChains(n, path, edit.path, edit.value);
  }

  lemma LookupBeside(n: Node, edit: Edit, path: Path)
    requires WellFormedMap(n) && edit.SetTo? && Apply(n, edit).Ok? && !Nested(edit.path, path)
    ensures Lookup(After(n, edit), path) == Lookup(n, path)
  {
    SetFrame(n, edit.path, edit.value, path);
  }

  lemma FreshStays(n: Node, edit: Edit, path: Path)
    requires WellFormedMap(n) && edit.SetTo? && Apply(n, edit).Ok? && !Nested(edit.path, path)
    requires Lookup(n, path).None? && !Blocked(n, path)
    ensures Lookup(After(n, edit), path).None? && !Blocked(After(n, edit), path)
  {
    SetFrame(n, edit.path, edit.value, path);
    SetBlocksNothingElse(n, edit.path, edit.value, path);
  }

  lemma FollowedComesLast(m: Node, f: Edit, tag: Path, digest: Edit)
    requires WellFormedMap(m) && f.SetTo? && Siblings(f.path, tag) && digest.SetTo? && IsPrefix(tag, digest.path)
    requires Lookup(m, digest.path).Some? && Lookup(m, f.path).None? && !Blocked(m, f.path)
    ensures LastKey(After(m, f), tag) == Some(f.path[|tag| - 1])
  {
    hide Apply, Planted, LastKey, ParentThere, WellFormedMap;
    MappingOf(m);
    AboveOrEqual(tag, digest.path);
    if tag != digest.path { PrefixFound(m, tag, digest.path); }
    FoundHasParent(m, tag);
    SiblingsShare(m, f.path, tag);
    assert f.path[..|f.path|] == f.path;
    SetBelowNothing(m, f.path, f);
    PlantedComesLast(m, f.path, After(m, f));
    SiblingsShare(After(m, f), f.path, tag);
  }

  /** Running the edits moves the digest behind the entry that followed it; the fields read as before. */
  lemma DigestMovesBehind(a: Edit, b: Edit, c: Edit)
    requires TagOverDigest(a, b, c)
    ensures var k := Followed(a, b, c);
      && WellFormedMap(k) && Runs(k, a, b, c) && Outcome(k, a, b, c) != k && Undisturbed(Outcome(k, a, b, c), k, a, b, c)
  {
    hide Apply, Settled, IsPrefix, Fresh, Meets, Chain, Followed, Planted, ParentThere, LastKey, WellFormedMap, Lookup, Blocked;
    var k := Followed(a, b, c);
    FollowedIs(a, b, c);
    FirstSetMeets(k, a, b, c);
    var x := After(k, a);
    TagIsTaken(x, a, b, c);
    var y := After(x, b);
    ApplySettles(x, b);
    MappingOf(y);
    RemovedIsGone(y, b);
    SetBelowNothing(y, b.path, c);
    var n := After(y, c);
    SetChainsBy(y, b.path, c);
    PlantedComesLast(y, b.path, n);
    assert Fresh(b.path, a.path)[|b.path| - 1] != b.path[|b.path| - 1] by { FreshDiffers(b.path, a.path); }
    LookupThrough(n, b.path, c.path);
    LookupThrough(k, b.path, c.path);
    if IsPrefix(b.path, a.path) {
      LookupThrough(n, b.path, a.path);
      LookupThrough(k, b.path, a.path);
    } else {
      FirstSetStands(k, a, b, c);
    }
    TagIsInTheWayOfNothing(k, b, c);
  }

  lemma FreshDiffers(path: Path, other: Path)
    ensures Fresh(path, other)[|path| - 1] != path[|path| - 1]
  {
    var f := Fresh(path, other);
    assert f == Parent(f) + [f[|path| - 1]] && path == Parent(path) + [path[|path| - 1]];
  }

  /** The first set succeeds, and leaves something below the tag. */
  lemma FirstSetMeets(k: Node, a: Edit, b: Edit, c: Edit)
    requires TagOverDigest(a, b, c) && WellFormedMap(k) && k.kind.Mapping? && Settled(k, c) && Meets(k, a, b, c)
    ensures Apply(k, a).Ok? && WellFormedMap(After(k, a)) && After(k, a).kind.Mapping? && Settled(After(k, a), a)
    ensures !IsPrefix(b.path, a.path) ==> After(k, a) == k
  {
    hide Settled;
    if !IsPrefix(b.path, a.path) {
      NoChange(k, a);
    } else if a.path == c.path {
      Overwritten(k, c.path, a.value, c.value);
    } else {
      EditFailsIff(k, a);
    }
    ApplySettles(k, a);
  }

  lemma TagIsTaken(x: Node, a: Edit, b: Edit, c: Edit)
    requires TagOverDigest(a, b, c) && WellFormedMap(x) && x.kind.Mapping?
    requires Settled(x, a) && (!IsPrefix(b.path, a.path) ==> Settled(x, c))
    ensures Apply(x, b).Ok? && ParentThere(After(x, b), b.path)
  {
    hide Apply, Settled;
    var below := if IsPrefix(b.path, a.path) then a else c;
    RemovalRuns(x, below, b);
    SettledFound(x, below);
    RemovalLeavesRoom(x, below.path, b, b.path);
  }

  lemma FirstSetStands(k: Node, a: Edit, b: Edit, c: Edit)
    requires TagOverDigest(a, b, c) && !IsPrefix(b.path, a.path) && WellFormedMap(k) && Settled(k, a) && Runs(k, a, b, c)
    ensures ReadsAlike(Outcome(k, a, b, c), k, a)
  {
    hide Apply, Settled, IsPrefix;
    ApartFromTag(a, b, c);
    NoChange(k, a);
    RemovalKeeps(k, a, b);
    ApplySettles(k, b);
    assert a.path != c.path by { assert IsPrefix(b.path, c.path); }
    LookupBeside(After(k, b), c, a.path);
  }

  lemma TagIsInTheWayOfNothing(k: Node, b: Edit, c: Edit)
    requires k.kind.Mapping? && c.SetTo? && Settled(k, c) && IsPrefix(b.path, c.path)
    ensures !Blocked(k, b.path)
  {
    SettledFound(k, c);
    AboveOrEqual(b.path, c.path);
    if b.path != c.path { PrefixFound(k, b.path, c.path); }
    FoundIsNotBlocked(k, b.path);
  }

  /** Whatever restless edits there are, some document is changed by them, and again once it is put back. */
  lemma RestlessMoves(a: Edit, b: Edit, c: Edit) returns (k: Node)
    requires a.SetTo? && Restless(a, b, c)
    ensures WellFormedMap(k) && Runs(k, a, b, c) && Outcome(k, a, b, c) != k && Undisturbed(Outcome(k, a, b, c), k, a, b, c)
  {
    hide Apply, Runs, Outcome, Undisturbed, WellFormedMap;
    if b.SetTo? {
      k := LastRemovalLeavesMappings(a, b, c);
    } else if c.Remove? {
      RemovalsLeaveMappings(a, b, c);
      EmptyMapIsUnique();
      k := EMPTY_MAP;
    } else if IsPrefix(b.path, c.path) {
      DigestMovesBehind(a, b, c);
      k := Followed(a, b, c);
    } else {
      MiddleRemovalLeavesMappings(a, b, c);
      k := After(EMPTY_MAP, c);
    }
  }

  // ---- The whole update ----

  predicate RestlessFields(fields: Fields, image: Image) {
    var edits := HelmEdits(fields, image); Restless(edits[0], edits[1], edits[2])
  }

  /** The configured fields read as before. */
  predicate FieldsUndisturbed(before: Node, after: Node, fields: Fields, image: Image) {
    var edits := HelmEdits(fields, image); Undisturbed(before, after, edits[0], edits[1], edits[2])
  }

  lemma UpdateRuns(root: Node, config: Config, image: Image)
    requires image.repository != "" && Paired(root) && UniqueKeys(root)
    ensures UpdateHelm(root, config, image).Ok? <==>
      && root.kind.Mapping? && FieldsOf(config).Some?
      && var edits := HelmEdits(FieldsOf(config).value, image); Runs(root, edits[0], edits[1], edits[2])
    ensures UpdateHelm(root, config, image).Ok? ==>
      && WellFormedMap(root)
      && var edits := HelmEdits(FieldsOf(config).value, image);
      UpdateHelm(root, config, image).value.0 == Outcome(root, edits[0], edits[1], edits[2])
  {
    hide UpdateHelm, FieldsOf, Runs, Outcome, Paired, UniqueKeys;
    UpdateIsItsEdits(root, config, image);
    WellFormedRoot(root);
    if FieldsOf(config).Some? {
      var edits := HelmEdits(FieldsOf(config).value, image);
      assert edits == [edits[0], edits[1], edits[2]];
      RunsIsApplyAll(root, edits[0], edits[1], edits[2]);
    }
  }

  /** Unless the fields are restless, the update of a file that reads like its result fails or leaves it as it is. */
  lemma UpdateStaysFinal(root: Node, x: Node, config: Config, image: Image)
    requires image.repository != "" && Paired(root) && UniqueKeys(root) && Paired(x) && UniqueKeys(x)
    requires UpdateHelm(root, config, image).Ok? && FieldsOf(config).Some? && !RestlessFields(FieldsOf(config).value, image)
    requires FieldsUndisturbed(UpdateHelm(root, config, image).value.0, x, FieldsOf(config).value, image)
    ensures UpdateHelm(x, config, image).Ok? ==> UpdateHelm(x, config, image).value.0 == x
  {
    hide UpdateHelm, FieldsOf, Runs, Outcome, Paired, UniqueKeys, Restless, Undisturbed, WellFormedMap;
    UpdateRuns(root, config, image);
    UpdateRuns(x, config, image);
    var edits := HelmEdits(FieldsOf(config).value, image);
    if UpdateHelm(x, config, image).Ok? { StaysFinal(root, x, edits[0], edits[1], edits[2]); }
  }

  /** With restless fields, some file is changed by the update, and again once it is put back with all fields alike. */
  lemma RestlessUpdateMoves(config: Config, image: Image) returns (k: Node)
    requires image.repository != "" && FieldsOf(config).Some? && RestlessFields(FieldsOf(config).value, image)
    ensures Paired(k) && UniqueKeys(k) && UpdateHelm(k, config, image).Ok?
    ensures var once := UpdateHelm(k, config, image).value.0;
      once != k && FieldsUndisturbed(once, k, FieldsOf(config).value, image)
  {
    hide UpdateHelm, FieldsOf, Runs, Outcome, Restless, Undisturbed;
    var edits := HelmEdits(FieldsOf(config).value, image);
    k := RestlessMoves(edits[0], edits[1], edits[2]);
    UpdateRuns(k, config, image);
  }

  // ---- Two configurations ----

  lemma OneSegment(a: string)
    requires a != "" && '.' !in a && !Space(a[0]) && !Space(a[|a| - 1])
    ensures FieldParts(a) == Ok([a])
  {
    assert Join([a]) == a;
    FieldPartsIff(a, [a]);
  }

  lemma ImageIsNoKeyBelow()
    ensures "repository" != "digest" && "image" != "digest" && "image" != "r" && "tag" != "image"
  {
    assert |"repository"| != |"digest"|;
  }

  /** A digest configured below the field of an empty tag. */
  lemma DigestBelowTheTag()
    ensures var config := Config("image.repository", "image", "image.digest");
      FieldsOf(config).Some? && RestlessFields(FieldsOf(config).value, Image("app", "", "d"))
  {
    hide FieldParts;
    TwoSegments("image", "repository");
    OneSegment("image");
    TwoSegments("image", "digest");
    assert "image" + "." + "repository" == "image.repository" && "image" + "." + "digest" == "image.digest";
    var r, t, d: Path := ["image", "repository"], ["image"], ["image", "digest"];
    assert FieldsOf(Config("image.repository", "image", "image.digest")) == Some(Fields(r, t, d));
    ImageIsNoKeyBelow();
    assert d[..1] == t && d[..2] == d && r[..2] == r && r[1] != d[1];
  }

  /** A digest configured above the field of an empty tag: on an empty file the update succeeds once, and never again. */
  lemma DigestAboveTheTag()
    ensures var config, image := Config("r", "image.tag", "image"), Image("app", "", "sha256:0");
      && FieldsOf(config).Some? && FieldsClash(FieldsOf(config).value, image)
      && UpdateHelm(EMPTY_MAP, config, image).Ok? && UpdateHelm(EMPTY_MAP, config, image).value.0 != EMPTY_MAP
      && UpdateHelm(UpdateHelm(EMPTY_MAP, config, image).value.0, config, image).Err?
  {
    hide FieldParts, UpdateHelm, Apply, Settled;
    var config, image := Config("r", "image.tag", "image"), Image("app", "", "sha256:0");
    OneSegment("r");
    TwoSegments("image", "tag");
    OneSegment("image");
    assert "image" + "." + "tag" == "image.tag";
    var r, t, d: Path := ["r"], ["image", "tag"], ["image"];
    assert FieldsOf(config) == Some(Fields(r, t, d));
    assert t[..1] == d && d != t;
    EmptyMapIsUnique();
    ImageIsNoKeyBelow();
    var a, b, c := SetTo(r, "app"), Remove(t), SetTo(d, "sha256:0");
    assert d[..1] == d && r[..1] == r;
    OneFieldAlone(a, t);
    OneFieldAlone(a, d);
    var x := After(EMPTY_MAP, a);
    MappingOf(x);
    SettledIff(x, b);
    NoChange(x, b);
    EditFailsIff(x, c);
    assert Runs(EMPTY_MAP, a, b, c);
    assert HelmEdits(Fields(r, t, d), image) == [a, b, c];
    UpdateRuns(EMPTY_MAP, config, image);
    SecondUpdateIs(EMPTY_MAP, config, image);
    ClashIs(Fields(r, t, d), image);
    ResultIsSettled(EMPTY_MAP, a, b, c);
    SettledFound(Outcome(EMPTY_MAP, a, b, c), c);
    EmptyMapHasNothing(d);
  }
}
