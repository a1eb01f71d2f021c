/**
 Three edits of a document, run once and run again: what the first run leaves (one predicate for each mix of sets and
 removals) and why the second run, on that or on any document of which the same can be said, ends where it began. The
 places where a removal takes what a set planted are followed by the predicates ParentThere and Planted.
 */
module ThreeEdits {
  import opened Wrappers
  import opened YamlTree
  import opened YamlLaws
  import opened Helm

  // ---- A document with something planted at a path where it had nothing ----

  /** The mapping that the last segment of the path would be looked up in exists. */
  predicate ParentThere(node: Node, path: Path) {
    |path| > 1 ==>
      var next := MapValue(node, path[0]);
      next.Some? && next.value.kind.Mapping? && ParentThere(next.value, path[1..])
  }

  /** planted is node with a subtree appended at the path, and no other difference. */
  predicate Planted(node: Node, path: Path, planted: Node)
    decreases |path|
  {
    && MapValue(planted, path[0]).Some? && planted == Put(node, path[0], MapValue(planted, path[0]).value)
    && var below := MapValue(node, path[0]);
    if |path| == 1 then below.None?
    else
      && below.Some? && below.value.kind.Mapping? && MapValue(planted, path[0]).value.kind.Mapping?
      && Planted(below.value, path[1..], MapValue(planted, path[0]).value)
  }

  lemma FirstSegment(short: Path, long: Path)
    requires IsPrefix(short, long)
    ensures long[0] == short[0] && |short| <= |long|
    ensures |short| > 1 ==> IsPrefix(short[1..], long[1..])
  {
    assert long[..|short|][0] == long[0];
    if |short| > 1 { PrefixTail(short, long); }
  }

  lemma {:induction false} SetPlants(node: Node, path: Path, at: Path, value: string)
    requires node.kind.Mapping? && Paired(node) && ParentThere(node, path) && Lookup(node, path).None?
    requires IsPrefix(path, at) && SetField(node, at, value).Ok?
    ensures Planted(node, path, SetField(node, at, value).value.0)
    decreases |path|
  {
    FirstSegment(path, at);
    var next := MapValue(node, at[0]);
    if |at| == 1 {
      SetLeafStep(node, at[0], value);
      MapValuePut(node, at[0], Str(value), at[0]);
    } else {
      SetFieldStep(node, at, value);
      var child := if next.Some? then next.value else EMPTY_MAP;
      var child' := SetField(child, at[1..], value).value.0;
      MapValuePut(node, at[0], child', at[0]);
      if |path| > 1 {
        SetPlants(child, path[1..], at[1..], value);
        SetKeepsKind(child, at[1..], value);
      }
    }
  }

  lemma SetKeepsKind(node: Node, path: Path, value: string)
    ensures SetField(node, path, value).Ok? ==> SetField(node, path, value).value.0.kind == node.kind
  {
  }

  lemma DeleteKeepsKind(node: Node, path: Path)
    ensures DeleteField(node, path).Ok? ==> DeleteField(node, path).value.0.kind == node.kind
  {
  }

  /** Replacing what was planted in a mapping is planting the replacement. */
  lemma RePut(node: Node, planted: Node, key: string, child: Node)
    requires node.kind.Mapping? && Paired(node) && Paired(planted)
    requires MapValue(planted, key).Some? && planted == Put(node, key, MapValue(planted, key).value)
    ensures Put(planted, key, child) == Put(node, key, child)
    ensures MapValue(Put(planted, key, child), key) == Some(child)
  {
    PutPut(node, key, MapValue(planted, key).value, child);
    MapValuePut(planted, key, child, key);
  }

  lemma {:induction false} SetKeepsPlanted(node: Node, path: Path, planted: Node, at: Path, value: string)
    requires node.kind.Mapping? && Paired(node) && Paired(planted) && Planted(node, path, planted)
    requires IsPrefix(path, at) && SetField(planted, at, value).Ok?
    ensures Planted(node, path, SetField(planted, at, value).value.0)
    decreases |path|
  {
    FirstSegment(path, at);
    var child := MapValue(planted, path[0]).value;
    if |at| == 1 {
      SetLeafStep(planted, at[0], value);
      RePut(node, planted, path[0], child.(tag := "!!str", value := value));
    } else {
      SetFieldStep(planted, at, value);
      var child' := SetField(child, at[1..], value).value.0;
      RePut(node, planted, path[0], child');
      if |path| > 1 {
        SetKeepsPlanted(MapValue(node, path[0]).value, path[1..], child, at[1..], value);
        SetKeepsKind(child, at[1..], value);
      }
    }
  }

  lemma {:induction false} DeleteKeepsPlanted(node: Node, path: Path, planted: Node, at: Path)
    requires node.kind.Mapping? && Paired(node) && Paired(planted) && Planted(node, path, planted)
    requires IsPrefix(path, at) && path != at && DeleteField(planted, at).Ok?
    ensures Planted(node, path, DeleteField(planted, at).value.0)
    decreases |path|
  {
    FirstSegment(path, at);
    assert at[..|at|] == at;
    var child := MapValue(planted, path[0]).value;
    DeleteFieldStep(planted, at);
    var child' := DeleteField(child, at[1..]).value.0;
    RePut(node, planted, path[0], child');
    if |path| <= 1 {
    } else {
      assert path == [path[0]] + path[1..] && at == [at[0]] + at[1..];
      DeleteKeepsPlanted(MapValue(node, path[0]).value, path[1..], child, at[1..]);
      DeleteKeepsKind(child, at[1..]);
    }
  }

  /** Deleting what was planted gives the document back. */
  lemma {:induction false} DeleteUndoesPlanting(node: Node, path: Path, planted: Node)
    requires node.kind.Mapping? && Paired(node) && Paired(planted) && Planted(node, path, planted)
    ensures DeleteField(planted, path) == Ok((node, true))
    decreases |path|
  {
    var child := MapValue(planted, path[0]).value;
    if |path| == 1 {
      DeleteLeafStep(planted, path);
      KeyIndexAppend(node.content, Str(path[0]), child, path[0]);
      assert Without(node.content + [Str(path[0]), child], |node.content|) == node.content;
    } else {
      DeleteFieldStep(planted, path);
      var below := MapValue(node, path[0]).value;
      DeleteUndoesPlanting(below, path[1..], child);
      RePut(node, planted, path[0], below);
      PutSame(node, path[0]);
    }
  }

  // ---- Where parents stay ----

  lemma {:induction false} FoundHasParent(node: Node, path: Path)
    requires Lookup(node, path).Some?
    ensures ParentThere(node, path)
    decreases |path|
  {
    if |path| <= 1 {
    } else {
      FoundHasParent(MapValue(node, path[0]).value, path[1..]);
    }
  }

  lemma {:induction false} SetKeepsParent(node: Node, at: Path, value: string, path: Path)
    requires node.kind.Mapping? && Paired(node) && ParentThere(node, path) && SetField(node, at, value).Ok?
    ensures ParentThere(SetField(node, at, value).value.0, path)
    decreases |at|
  {
    var next := MapValue(node, at[0]);
    if |at| == 1 {
      SetLeafStep(node, at[0], value);
      var leaf := if next.None? then Str(value) else next.value.(tag := "!!str", value := value);
      MapValuePut(node, at[0], leaf, path[0]);
    } else {
      SetFieldStep(node, at, value);
      var child := if next.Some? then next.value else EMPTY_MAP;
      var child' := SetField(child, at[1..], value).value.0;
      MapValuePut(node, at[0], child', path[0]);
      if |path| > 1 && path[0] == at[0] {
        SetKeepsParent(child, at[1..], value, path[1..]);
        SetKeepsKind(child, at[1..], value);
      }
    }
  }

  lemma {:induction false} DeleteKeepsParent(node: Node, at: Path, path: Path)
    requires node.kind.Mapping? && Paired(node) && ParentThere(node, path) && DeleteField(node, at).Ok?
    requires !IsPrefix(at, path) || at == path
    ensures ParentThere(DeleteField(node, at).value.0, path)
    decreases |at|
  {
    var next := MapValue(node, at[0]);
    if |path| > 1 && next.Some? {
      if |at| == 1 {
        DeleteLeafStep(node, at);
        assert path[..1] == [path[0]] && at == [at[0]];
        MapValueRemove(node, at[0], path[0]);
      } else {
        DeleteFieldStep(node, at);
        var child := DeleteField(next.value, at[1..]).value.0;
        MapValuePut(node, at[0], child, path[0]);
        if path[0] == at[0] {
          PrefixTail(at, path);
          assert path == [path[0]] + path[1..] && at == [at[0]] + at[1..];
          DeleteKeepsParent(next.value, at[1..], path[1..]);
          DeleteKeepsKind(next.value, at[1..]);
        }
      }
    }
  }

  /** Setting, deleting what lies above, and setting again is setting once. */
  lemma {:induction false} SetDeleteSet(node: Node, path: Path, at: Path, value: string)
    requires node.kind.Mapping? && Paired(node) && Lookup(node, path).None? && IsPrefix(path, at)
    requires SetField(node, at, value).Ok?
    ensures var once := SetField(node, at, value).value.0;
      && DeleteField(once, path).Ok?
      && SetField(DeleteField(once, path).value.0, at, value).Ok?
      && SetField(DeleteField(once, path).value.0, at, value).value.0 == once
    decreases |path|
  {
    FirstSegment(path, at);
    var once := SetField(node, at, value).value.0;
    if |path| == 1 {
      SetPlants(node, path, at, value);
      SetThenLookup(node, at, value);
      DeleteUndoesPlanting(node, path, once);
    } else {
      SetFieldStep(node, at, value);
      var next := MapValue(node, at[0]);
      var child := if next.Some? then next.value else EMPTY_MAP;
      if next.None? { EmptyMapHasNothing(path[1..]); }
      var child' := SetField(child, at[1..], value).value.0;
      SetDeleteSet(child, path[1..], at[1..], value);
      SetKeepsKind(child, at[1..], value);
      MapValuePut(node, at[0], child', at[0]);
      DeleteFieldStep(once, path);
      var less := DeleteField(child', path[1..]).value.0;
      DeleteKeepsKind(child', path[1..]);
      SetThenLookup(node, at, value);
      MapValuePut(once, at[0], less, at[0]);
      SetFieldStep(Put(once, at[0], less), at, value);
      PutPut(once, at[0], less, child');
      PutSame(once, at[0]);
    }
  }

  // ---- Three edits, twice ----

  /** The three edits all succeed, one after the other. */
  predicate Runs(node: Node, a: Edit, b: Edit, c: Edit) {
    && Apply(node, a).Ok? && Apply(After(node, a), b).Ok?
    && Apply(After(After(node, a), b), c).Ok?
  }

  function After(node: Node, edit: Edit): Node {
    if Apply(node, edit).Ok? then Apply(node, edit).value.0 else node
  }

  function Outcome(node: Node, a: Edit, b: Edit, c: Edit): Node {
    After(After(After(node, a), b), c)
  }

  /** A second run succeeds and ends where it began. */
  predicate Repeats(node: Node, a: Edit, b: Edit, c: Edit) {
    Runs(node, a, b, c) && Outcome(node, a, b, c) == node
  }

  predicate Above(p: Path, q: Path) {
    IsPrefix(p, q) && p != q
  }

  /** Every stage is well formed and settles its own edit. */
  lemma Stages(node: Node, a: Edit, b: Edit, c: Edit)
    requires WellFormedMap(node) && Runs(node, a, b, c)
    ensures var x, y := After(node, a), After(After(node, a), b);
      && WellFormedMap(x) && WellFormedMap(y) && WellFormedMap(After(y, c))
      && Settled(x, a) && Settled(y, b) && Settled(After(y, c), c)
  {
    hide Apply, Settled, WellFormedMap;
    ApplySettles(node, a);
    ApplySettles(After(node, a), b);
    ApplySettles(After(After(node, a), b), c);
  }

  lemma AboveOrEqual(p: Path, q: Path)
    ensures IsPrefix(p, q) && IsPrefix(q, p) <==> p == q
    ensures Nested(p, q) <==> p == q || Above(p, q) || Above(q, p)
  {
    assert p[..|p|] == p && q[..|q|] == q;
    if IsPrefix(p, q) && IsPrefix(q, p) { assert p == q[..|p|] == q; }
  }

  /** Where a set is settled, no edit can reach below its scalar, and no set can replace the mapping above it. */
  lemma SettledSetStands(node: Node, a: Edit, b: Edit)
    requires node.kind.Mapping? && a.SetTo? && Settled(node, a) && Apply(node, b).Ok?
    ensures !Above(a.path, b.path)
    ensures b.SetTo? ==> !Above(b.path, a.path)
  {
    SettledIff(node, a);
    if Above(a.path, b.path) {
      ScalarBlocks(node, a.path, b.path);
    } else if b.SetTo? && Above(b.path, a.path) {
      PrefixFound(node, b.path, a.path);
    }
    EditFailsIff(node, b);
  }

  lemma EditFailsIff(node: Node, edit: Edit)
    requires node.kind.Mapping?
    ensures Apply(node, edit).Err? <==>
      Blocked(node, edit.path) || (edit.SetTo? && Lookup(node, edit.path).Some? && !Lookup(node, edit.path).value.kind.Scalar?)
  {
    match edit
    case SetTo(path, value) => SetFailsIff(node, path, value);
    case Remove(path) => DeleteFailsIff(node, path);
  }

  /** Overwriting a settled set and setting it again leads back. */
  lemma Overwritten(node: Node, path: Path, other: string, value: string)
    requires WellFormedMap(node) && Settled(node, SetTo(path, value))
    ensures Apply(node, SetTo(path, other)).Ok?
    ensures Apply(After(node, SetTo(path, other)), SetTo(path, value)).Ok?
    ensures After(After(node, SetTo(path, other)), SetTo(path, value)) == node
  {
    SettledIff(node, SetTo(path, value));
    FoundIsNotBlocked(node, path);
    EditFailsIff(node, SetTo(path, other));
    SetSet(node, path, other, value);
  }

  /** Nothing at a path and nothing in its way: then the same below it. */
  lemma {:induction false} NothingBelow(node: Node, path: Path, at: Path)
    requires IsPrefix(path, at) && Lookup(node, path).None? && !Blocked(node, path)
    ensures Lookup(node, at).None? && !Blocked(node, at)
    decreases |path|
  {
    FirstSegment(path, at);
    if |path| == 1 {
      assert Lookup(node, path) == MapValue(node, path[0]);
    } else if MapValue(node, path[0]).Some? {
      NothingBelow(MapValue(node, path[0]).value, path[1..], at[1..]);
    }
  }

  /** A set below a path that has nothing succeeds and plants there. */
  lemma SetBelowNothing(node: Node, path: Path, edit: Edit)
    requires WellFormedMap(node) && edit.SetTo? && IsPrefix(path, edit.path)
    requires Lookup(node, path).None? && !Blocked(node, path) && ParentThere(node, path)
    ensures Apply(node, edit).Ok? && WellFormedMap(After(node, edit)) && Planted(node, path, After(node, edit))
  {
    NothingBelow(node, path, edit.path);
    EditFailsIff(node, edit);
    SetPlants(node, path, edit.path, edit.value);
    ApplySettles(node, edit);
  }

  lemma RemovedIsGone(node: Node, edit: Edit)
    requires node.kind.Mapping? && edit.Remove? && Settled(node, edit)
    ensures Lookup(node, edit.path).None? && !Blocked(node, edit.path)
  {
    SettledIff(node, edit);
  }

  /** Neither path lies properly inside the other. */
  predicate Level(p: Path, q: Path) {
    p == q || !Nested(p, q)
  }

  /** After set, set, set: what the last of them at each path asks for. */
  predicate AfterSets(n: Node, a: Edit, b: Edit, c: Edit) {
    && Level(a.path, b.path) && Level(b.path, c.path) && Level(a.path, c.path)
    && Settled(n, c) && (b.path == c.path || Settled(n, b)) && (a.path == b.path || a.path == c.path || Settled(n, a))
  }

  lemma SetsAgain(n: Node, a: Edit, b: Edit, c: Edit)
    requires WellFormedMap(n) && a.SetTo? && b.SetTo? && c.SetTo? && AfterSets(n, a, b, c)
    ensures Repeats(n, a, b, c)
  {
    hide Apply, Settled, WellFormedMap, IsPrefix;
    MappingOf(n);
    var n1 := After(n, a);
    if a.path == c.path {
      Overwritten(n, c.path, a.value, c.value);
      ApplySettles(n, a);
      if b.path == c.path {
        ThriceTheSame(n, c.path, a.value, b.value, c.value);
      } else {
        SettledPersists(n, b, a);
        NoChange(n1, b);
      }
    } else if a.path == b.path {
      Overwritten(n, b.path, a.value, b.value);
      NoChange(n, c);
    } else {
      NoChange(n, a);
      if b.path == c.path {
        Overwritten(n, c.path, b.value, c.value);
      } else {
        NoChange(n, b);
        NoChange(n, c);
      }
    }
  }

  /** Set, set, set: equal or unrelated paths, so the second run overwrites and ends the same. */
  lemma ThreeSets(node: Node, a: Edit, b: Edit, c: Edit)
    requires WellFormedMap(node) && a.SetTo? && b.SetTo? && c.SetTo? && Runs(node, a, b, c)
    ensures AfterSets(Outcome(node, a, b, c), a, b, c) && Repeats(Outcome(node, a, b, c), a, b, c)
  {
    hide Apply, Settled, WellFormedMap, IsPrefix;
    Stages(node, a, b, c);
    var x, y := After(node, a), After(After(node, a), b);
    var n := After(y, c);
    MappingStages(node, a, b, c);
    SettledSetStands(x, a, b);
    SettledSetStands(y, b, c);
    Unrelated(a.path, b.path);
    Unrelated(b.path, c.path);
    Unrelated(a.path, c.path);
    if a.path != b.path {
      SettledPersists(x, a, b);
      SettledSetStands(y, a, c);
      if a.path != c.path { SettledPersists(y, a, c); }
    }
    if b.path != c.path { SettledPersists(y, b, c); }
    SetsAgain(n, a, b, c);
  }

  lemma NoChange(node: Node, edit: Edit)
    requires Settled(node, edit)
    ensures Apply(node, edit).Ok? && After(node, edit) == node
  {
  }

  lemma MappingStages(node: Node, a: Edit, b: Edit, c: Edit)
    requires WellFormedMap(node) && Runs(node, a, b, c)
    ensures var x, y := After(node, a), After(After(node, a), b);
      node.kind.Mapping? && x.kind.Mapping? && y.kind.Mapping? && After(y, c).kind.Mapping?
  {
    hide Apply, Settled;
    Stages(node, a, b, c);
  }

  lemma Unrelated(p: Path, q: Path)
    ensures p != q && !Above(p, q) && !Above(q, p) ==> !Nested(p, q) && !Nested(q, p)
  {
    AboveOrEqual(p, q);
  }

  lemma ThriceTheSame(node: Node, path: Path, a: string, b: string, c: string)
    requires WellFormedMap(node) && Settled(node, SetTo(path, c))
    ensures Repeats(node, SetTo(path, a), SetTo(path, b), SetTo(path, c))
  {
    Overwritten(node, path, a, c);
    var x := After(node, SetTo(path, a));
    ApplySettles(node, SetTo(path, a));
    SettledIff(x, SetTo(path, a));
    FoundIsNotBlocked(x, path);
    EditFailsIff(x, SetTo(path, b));
    SetSet(x, path, b, c);
  }

  /** What was found above a removed path still has its place there. */
  lemma RemovalLeavesRoom(node: Node, found: Path, removal: Edit, path: Path)
    requires WellFormedMap(node) && removal.Remove? && Apply(node, removal).Ok?
    requires IsPrefix(path, found) && Lookup(node, found).Some? && (!IsPrefix(removal.path, path) || removal.path == path)
    ensures ParentThere(After(node, removal), path)
  {
    AboveOrEqual(path, found);
    if path != found { PrefixFound(node, path, found); }
    FoundHasParent(node, path);
    DeleteKeepsParent(node, removal.path, path);
  }

  /** After set, set, remove: the removed path is clear, and the sets it did not take stand. */
  predicate AfterLastRemoval(n: Node, a: Edit, b: Edit, c: Edit) {
    && Level(a.path, b.path) && !Above(a.path, c.path) && !Above(b.path, c.path)
    && Settled(n, c) && (IsPrefix(c.path, b.path) || Settled(n, b))
    && (IsPrefix(c.path, a.path) || a.path == b.path || Settled(n, a))
  }

  /** What the removal takes is planted and taken again, if there is a place to plant it. */
  lemma SetSetRemoveAgain(n: Node, a: Edit, b: Edit, c: Edit)
    requires WellFormedMap(n) && a.SetTo? && b.SetTo? && c.Remove? && AfterLastRemoval(n, a, b, c)
    requires IsPrefix(c.path, a.path) || IsPrefix(c.path, b.path) ==> ParentThere(n, c.path)
    ensures Repeats(n, a, b, c)
  {
    hide Apply, Settled, WellFormedMap, IsPrefix, Planted;
    MappingOf(n);
    Unrelated(a.path, c.path);
    Unrelated(b.path, c.path);
    Unrelated(a.path, b.path);
    AboveOrEqual(c.path, a.path);
    AboveOrEqual(c.path, b.path);
    RemovedIsGone(n, c);
    var n1 := After(n, a);
    var n2 := After(n1, b);
    if IsPrefix(c.path, a.path) {
      SetBelowNothing(n, c.path, a);
      if a.path == b.path {
        ApplySettles(n, a);
        Overwritten(n1, a.path, b.value, a.value);
        SetKeepsPlantedBy(n, c.path, n1, b);
        UndoPlanting(n, c, n2);
      } else if IsPrefix(c.path, b.path) {
        SetBesideNothing(n, a, b, c.path);
        SetKeepsPlantedBy(n, c.path, n1, b);
        UndoPlanting(n, c, n2);
      } else {
        SettledPersists(n, b, a);
        NoChange(n1, b);
        UndoPlanting(n, c, n1);
      }
    } else if IsPrefix(c.path, b.path) {
      NoChange(n, a);
      SetBelowNothing(n, c.path, b);
      UndoPlanting(n, c, n2);
    } else {
      NoChange(n, c);
      if a.path == b.path {
        Overwritten(n, b.path, a.value, b.value);
      } else {
        NoChange(n, a);
        NoChange(n, b);
      }
    }
  }

  lemma TwoSetsOneRemove(node: Node, a: Edit, b: Edit, c: Edit)
    requires WellFormedMap(node) && a.SetTo? && b.SetTo? && c.Remove? && Runs(node, a, b, c)
    ensures AfterLastRemoval(Outcome(node, a, b, c), a, b, c) && Repeats(Outcome(node, a, b, c), a, b, c)
    ensures IsPrefix(c.path, a.path) || IsPrefix(c.path, b.path) ==> ParentThere(Outcome(node, a, b, c), c.path)
  {
    hide Apply, Settled, WellFormedMap, IsPrefix, Planted;
    Stages(node, a, b, c);
    MappingStages(node, a, b, c);
    var x, y := After(node, a), After(After(node, a), b);
    var n := After(y, c);
    SettledSetStands(x, a, b);
    SettledSetStands(y, b, c);
    Unrelated(a.path, b.path);
    Unrelated(b.path, c.path);
    Unrelated(a.path, c.path);
    AboveOrEqual(c.path, a.path);
    AboveOrEqual(c.path, b.path);
    if a.path != b.path {
      SettledPersists(x, a, b);
      SettledSetStands(y, a, c);
      SettledFound(y, a);
    }
    SettledFound(y, b);
    if IsPrefix(c.path, b.path) { RemovalLeavesRoom(y, b.path, c, c.path); } else { SettledPersists(y, b, c); }
    if a.path != b.path {
      if IsPrefix(c.path, a.path) { RemovalLeavesRoom(y, a.path, c, c.path); } else { SettledPersists(y, a, c); }
    }
    SetSetRemoveAgain(n, a, b, c);
  }

  lemma SettledFound(node: Node, edit: Edit)
    requires node.kind.Mapping? && edit.SetTo? && Settled(node, edit)
    ensures Lookup(node, edit.path).Some? && Lookup(node, edit.path).value.kind.Scalar?
  {
    SettledIff(node, edit);
  }

  lemma UndoPlanting(node: Node, removal: Edit, planted: Node)
    requires WellFormedMap(node) && WellFormedMap(planted) && removal.Remove? && Planted(node, removal.path, planted)
    ensures Apply(planted, removal).Ok? && After(planted, removal) == node
  {
    DeleteUndoesPlanting(node, removal.path, planted);
  }

  /** A second set below a path that had nothing, beside the first one, succeeds too. */
  lemma SetBesideNothing(node: Node, a: Edit, b: Edit, path: Path)
    requires WellFormedMap(node) && a.SetTo? && b.SetTo? && Apply(node, a).Ok? && WellFormedMap(After(node, a))
    requires IsPrefix(path, b.path) && Lookup(node, path).None? && !Blocked(node, path)
    requires !Nested(a.path, b.path)
    ensures Apply(After(node, a), b).Ok?
  {
    NothingBelow(node, path, b.path);
    SetFrame(node, a.path, a.value, b.path);
    SetBlocksNothingElse(node, a.path, a.value, b.path);
    EditFailsIff(After(node, a), b);
  }

  /** After set, remove, remove: both removed paths are clear, and the set stands unless one of them took it. */
  predicate AfterRemovals(n: Node, a: Edit, b: Edit, c: Edit) {
    && !Above(a.path, b.path) && (IsPrefix(b.path, a.path) || !Above(a.path, c.path))
    && Settled(n, b) && Settled(n, c) && (IsPrefix(b.path, a.path) || IsPrefix(c.path, a.path) || Settled(n, a))
  }

  /** The place the uppermost removal takes the set from is there. */
  predicate RoomForRemovals(n: Node, a: Edit, b: Edit, c: Edit) {
    && (IsPrefix(b.path, a.path) && !Above(c.path, b.path) ==> ParentThere(n, b.path))
    && (IsPrefix(c.path, a.path) && (!IsPrefix(b.path, a.path) || Above(c.path, b.path)) ==> ParentThere(n, c.path))
  }

  lemma SetRemoveRemoveAgain(n: Node, a: Edit, b: Edit, c: Edit)
    requires WellFormedMap(n) && a.SetTo? && b.Remove? && c.Remove?
    requires AfterRemovals(n, a, b, c) && RoomForRemovals(n, a, b, c)
    ensures Repeats(n, a, b, c)
  {
    hide Apply, Settled, WellFormedMap, IsPrefix, Planted;
    MappingOf(n);
    Unrelated(a.path, b.path);
    Unrelated(a.path, c.path);
    AboveOrEqual(b.path, a.path);
    AboveOrEqual(c.path, a.path);
    RemovedIsGone(n, b);
    RemovedIsGone(n, c);
    var n1 := After(n, a);
    if IsPrefix(b.path, a.path) {
      if Above(c.path, b.path) {
        AboveIsTransitive(c.path, b.path, a.path);
        SetBelowNothing(n, c.path, a);
        RemoveInsidePlanted(n, c.path, a, b);
        UndoPlanting(n, c, After(n1, b));
      } else {
        SetBelowNothing(n, b.path, a);
        UndoPlanting(n, b, n1);
        NoChange(n, c);
      }
    } else if IsPrefix(c.path, a.path) {
      SetBelowNothing(n, c.path, a);
      SettledPersists(n, b, a);
      NoChange(n1, b);
      UndoPlanting(n, c, n1);
    } else {
      NoChange(n, a);
      NoChange(n, b);
      NoChange(n, c);
    }
  }

  lemma OneSetTwoRemoves(node: Node, a: Edit, b: Edit, c: Edit)
    requires WellFormedMap(node) && a.SetTo? && b.Remove? && c.Remove? && Runs(node, a, b, c)
    ensures AfterRemovals(Outcome(node, a, b, c), a, b, c) && RoomForRemovals(Outcome(node, a, b, c), a, b, c)
    ensures Repeats(Outcome(node, a, b, c), a, b, c)
  {
    hide Apply, Settled, WellFormedMap, IsPrefix, Planted;
    Stages(node, a, b, c);
    MappingStages(node, a, b, c);
    var x, y := After(node, a), After(After(node, a), b);
    var n := After(y, c);
    SettledSetStands(x, a, b);
    Unrelated(a.path, b.path);
    Unrelated(a.path, c.path);
    AboveOrEqual(b.path, a.path);
    AboveOrEqual(c.path, a.path);
    AboveOrEqual(c.path, b.path);
    SettledPersists(y, b, c);
    SettledFound(x, a);
    if IsPrefix(b.path, a.path) {
      RemovalLeavesRoom(x, a.path, b, b.path);
      if Above(c.path, b.path) {
        BelowParent(y, c.path, b.path);
        RemovalLeavesRoom(y, c.path, c, c.path);
      } else {
        DeleteKeepsParentBy(y, c, b.path);
      }
    } else {
      SettledPersists(x, a, b);
      SettledSetStands(y, a, c);
      SettledFound(y, a);
      if IsPrefix(c.path, a.path) { RemovalLeavesRoom(y, a.path, c, c.path); } else { SettledPersists(y, a, c); }
    }
    SetRemoveRemoveAgain(n, a, b, c);
  }

  lemma AboveIsTransitive(p: Path, q: Path, r: Path)
    requires IsPrefix(p, q) && IsPrefix(q, r)
    ensures IsPrefix(p, r)
  {
    assert r[..|q|][..|p|] == r[..|p|];
  }

  /** A path above one that has its parent is found. */
  lemma {:induction false} BelowParent(node: Node, short: Path, long: Path)
    requires ParentThere(node, long) && Above(short, long)
    ensures Lookup(node, short).Some?
    decreases |short|
  {
    FirstSegment(short, long);
    assert long[..|long|] == long;
    assert short == [short[0]] + short[1..] && long == [long[0]] + long[1..];
    if |short| <= 1 {
    } else {
      BelowParent(MapValue(node, short[0]).value, short[1..], long[1..]);
    }
  }

  lemma RemoveInsidePlanted(node: Node, path: Path, a: Edit, b: Edit)
    requires WellFormedMap(node) && a.SetTo? && b.Remove? && IsPrefix(path, b.path) && path != b.path && IsPrefix(b.path, a.path)
    requires Lookup(node, path).None? && !Blocked(node, path)
    requires Apply(node, a).Ok? && WellFormedMap(After(node, a)) && Planted(node, path, After(node, a))
    ensures Apply(After(node, a), b).Ok? && WellFormedMap(After(After(node, a), b))
    ensures Planted(node, path, After(After(node, a), b))
  {
    var x := After(node, a);
    ApplySettles(node, a);
    SettledFound(x, a);
    if a.path != b.path { PrefixFound(x, b.path, a.path); }
    FoundIsNotBlocked(x, b.path);
    EditFailsIff(x, b);
    DeleteKeepsPlanted(node, path, x, b.path);
    ApplySettles(x, b);
  }

  /** Set, remove, set: the second run fails when the two sets, or the second set and the removal, get in each other's way. */
  predicate Clash(a: Edit, b: Edit, c: Edit) {
    a.SetTo? && b.Remove? && c.SetTo? && (Above(a.path, c.path) || Above(c.path, a.path) || Above(c.path, b.path))
  }

  /** Wherever the last set stands, the edits fail. */
  lemma ClashFails(n: Node, a: Edit, b: Edit, c: Edit)
    requires WellFormedMap(n) && Clash(a, b, c) && Settled(n, c)
    ensures !Runs(n, a, b, c)
  {
    hide Apply, Settled, WellFormedMap, IsPrefix;
    MappingOf(n);
    if Runs(n, a, b, c) {
      SettledSetStands(n, c, a);
      var n1 := After(n, a);
      ApplySettles(n, a);
      assert Above(c.path, b.path);
      Unrelated(a.path, c.path);
      MappingOf(n1);
      if a.path == c.path {
        SettledSetStands(n1, a, b);
      } else {
        SettledPersists(n, c, a);
        SettledSetStands(n1, c, b);
      }
      assert false;
    }
  }

  lemma MappingOf(node: Node)
    requires WellFormedMap(node)
    ensures node.kind.Mapping? && Paired(node)
  {
  }

  /** After set, remove, set, where the removal did not clear the way for the last set. */
  predicate AfterMiddleRemoval(n: Node, a: Edit, b: Edit, c: Edit) {
    && Level(a.path, c.path) && !Nested(b.path, c.path) && !Above(a.path, b.path)
    && Settled(n, b) && Settled(n, c) && (IsPrefix(b.path, a.path) || a.path == c.path || Settled(n, a))
  }

  lemma SetRemoveSetAgain(n: Node, a: Edit, b: Edit, c: Edit)
    requires WellFormedMap(n) && a.SetTo? && b.Remove? && c.SetTo? && AfterMiddleRemoval(n, a, b, c)
    requires IsPrefix(b.path, a.path) ==> ParentThere(n, b.path)
    ensures Repeats(n, a, b, c)
  {
    hide Apply, Settled, WellFormedMap, IsPrefix, Planted;
    MappingOf(n);
    Unrelated(a.path, b.path);
    Unrelated(a.path, c.path);
    AboveOrEqual(b.path, a.path);
    AboveOrEqual(b.path, c.path);
    RemovedIsGone(n, b);
    var n1 := After(n, a);
    if IsPrefix(b.path, a.path) {
      SetBelowNothing(n, b.path, a);
      UndoPlanting(n, b, n1);
      NoChange(n, c);
    } else if a.path == c.path {
      Overwritten(n, c.path, a.value, c.value);
      SettledPersists(n, b, a);
      NoChange(n1, b);
    } else {
      NoChange(n, a);
      NoChange(n, b);
      NoChange(n, c);
    }
  }

  lemma SetRemoveSet(node: Node, a: Edit, b: Edit, c: Edit)
    requires WellFormedMap(node) && a.SetTo? && b.Remove? && c.SetTo? && Runs(node, a, b, c) && !Clash(a, b, c)
    ensures Level(a.path, c.path) && Repeats(Outcome(node, a, b, c), a, b, c)
    ensures !IsPrefix(b.path, c.path) ==>
      && AfterMiddleRemoval(Outcome(node, a, b, c), a, b, c)
      && (IsPrefix(b.path, a.path) ==> ParentThere(Outcome(node, a, b, c), b.path))
  {
    hide Apply, Settled, WellFormedMap, IsPrefix, Planted;
    Stages(node, a, b, c);
    MappingStages(node, a, b, c);
    var x, y := After(node, a), After(After(node, a), b);
    var n := After(y, c);
    SettledSetStands(x, a, b);
    Unrelated(a.path, b.path);
    Unrelated(a.path, c.path);
    Unrelated(b.path, c.path);
    AboveOrEqual(b.path, a.path);
    AboveOrEqual(b.path, c.path);
    RemovedIsGone(y, b);
    SettledFound(x, a);
    if IsPrefix(b.path, c.path) {
      SetOverRemoval(node, a, b, c);
    } else {
      SettledPersists(y, b, c);
      if IsPrefix(b.path, a.path) {
        RemovalLeavesRoom(x, a.path, b, b.path);
        SetKeepsParentBy(y, c, b.path);
      } else {
        SettledPersists(x, a, b);
        if a.path != c.path { SettledPersists(y, a, c); }
      }
      SetRemoveSetAgain(n, a, b, c);
    }
  }

  /** The removal clears the way for the last set: the second run takes and plants it again, in the same place. */
  lemma SetOverRemoval(node: Node, a: Edit, b: Edit, c: Edit)
    requires WellFormedMap(node) && a.SetTo? && b.Remove? && c.SetTo? && Runs(node, a, b, c) && !Clash(a, b, c)
    requires IsPrefix(b.path, c.path)
    ensures Repeats(Outcome(node, a, b, c), a, b, c)
  {
    hide Apply, Settled, WellFormedMap, IsPrefix, Planted;
    Stages(node, a, b, c);
    MappingStages(node, a, b, c);
    var x, y := After(node, a), After(After(node, a), b);
    var n := After(y, c);
    SettledSetStands(x, a, b);
    Unrelated(a.path, b.path);
    Unrelated(a.path, c.path);
    AboveOrEqual(b.path, a.path);
    AboveOrEqual(b.path, c.path);
    RemovedIsGone(y, b);
    SettledFound(x, a);
    var n1 := After(n, a);
    if IsPrefix(b.path, a.path) {
      RemovalLeavesRoom(x, a.path, b, b.path);
      SetBelowNothing(y, b.path, c);
      if a.path == c.path {
        Overwritten(n, c.path, a.value, c.value);
      } else {
        NothingBelow(y, b.path, a.path);
        SetBesideNothing(y, c, a, b.path);
      }
      SetKeepsPlantedBy(y, b.path, n, a);
      UndoPlanting(y, b, n1);
    } else {
      SettledPersists(x, a, b);
      assert a.path != c.path;
      SettledPersists(y, a, c);
      NoChange(n, a);
      SetAgain(y, b, c);
    }
  }

  lemma SetKeepsPlantedBy(node: Node, path: Path, planted: Node, edit: Edit)
    requires WellFormedMap(node) && WellFormedMap(planted) && Planted(node, path, planted)
    requires edit.SetTo? && IsPrefix(path, edit.path) && Apply(planted, edit).Ok?
    ensures Planted(node, path, After(planted, edit)) && WellFormedMap(After(planted, edit))
  {
    SetKeepsPlanted(node, path, planted, edit.path, edit.value);
    ApplySettles(planted, edit);
  }

  lemma DeleteKeepsParentBy(node: Node, edit: Edit, path: Path)
    requires WellFormedMap(node) && edit.Remove? && Apply(node, edit).Ok? && ParentThere(node, path)
    requires !IsPrefix(edit.path, path) || edit.path == path
    ensures ParentThere(After(node, edit), path)
  {
    DeleteKeepsParent(node, edit.path, path);
  }

  lemma SetKeepsParentBy(node: Node, edit: Edit, path: Path)
    requires WellFormedMap(node) && edit.SetTo? && Apply(node, edit).Ok? && ParentThere(node, path)
    ensures ParentThere(After(node, edit), path)
  {
    SetKeepsParent(node, edit.path, edit.value, path);
  }

  lemma SetAgain(node: Node, removal: Edit, edit: Edit)
    requires WellFormedMap(node) && removal.Remove? && edit.SetTo? && IsPrefix(removal.path, edit.path)
    requires Lookup(node, removal.path).None? && Apply(node, edit).Ok?
    ensures var once := After(node, edit);
      Apply(once, removal).Ok? && Apply(After(once, removal), edit).Ok? && After(After(once, removal), edit) == once
  {
    SetDeleteSet(node, removal.path, edit.path, edit.value);
  }
}
