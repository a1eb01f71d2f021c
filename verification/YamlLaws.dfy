/** The laws of the nested field edits: what an edit reads back, what it leaves alone, and when it does nothing. */
module YamlLaws {
  import opened Wrappers
  import opened YamlTree

  /** One step of setYAMLField: edit the child mapping (a new one if the key is missing) and put it back. */
  lemma SetFieldStep(node: Node, path: Path, value: string)
    requires node.kind.Mapping? && |path| > 1
    ensures var next := MapValue(node, path[0]);
      var child := if next.Some? then next.value else EMPTY_MAP;
      SetField(node, path, value) ==
        if !child.kind.Mapping? then Err(TraversesNonMap)
        else match SetField(child, path[1..], value)
          case Err(e) => Err(e)
          case Ok((child', changed)) => Ok((Put(node, path[0], child'), changed || next.None?))
  {
  }

  lemma SetLeafStep(node: Node, leaf: string, value: string)
    requires node.kind.Mapping?
    ensures var found := MapValue(node, leaf);
      SetLeaf(node, leaf, value) ==
        if found.None? then Ok((Put(node, leaf, Str(value)), true))
        else if !found.value.kind.Scalar? then Err(NotAScalar)
        else if found.value.value == value && found.value.tag == "!!str" then Ok((node, false))
        else Ok((Put(node, leaf, found.value.(tag := "!!str", value := value)), true))
  {
  }

  // ---- Set ----

  /** A set fails exactly when the path runs through a non-mapping or ends at a non-scalar. */
  lemma {:induction false} SetFailsIff(node: Node, path: Path, value: string)
    requires node.kind.Mapping?
    ensures SetField(node, path, value).Err? <==>
      Blocked(node, path) || (Lookup(node, path).Some? && !Lookup(node, path).value.kind.Scalar?)
    decreases |path|
  {
    var next := MapValue(node, path[0]);
    if |path| == 1 {
      SetLeafStep(node, path[0], value);
      assert Lookup(node, path) == next;
    } else {
      SetFieldStep(node, path, value);
      if next.None? {
        SetFailsIff(EMPTY_MAP, path[1..], value);
        EmptyMapHasNothing(path[1..]);
      } else if next.value.kind.Mapping? {
        SetFailsIff(next.value, path[1..], value);
      } else {
        NothingBelowALeaf(next.value, path[1..]);
      }
    }
  }

  lemma EmptyMapHasNothing(path: Path)
    ensures Lookup(EMPTY_MAP, path).None? && !Blocked(EMPTY_MAP, path)
  {
  }

  lemma NothingBelowALeaf(node: Node, path: Path)
    requires !node.kind.Mapping?
    ensures Lookup(node, path).None?
  {
  }

  /** After a successful set the path holds the value, as a string scalar. */
  lemma {:induction false} SetThenLookup(node: Node, path: Path, value: string)
    requires node.kind.Mapping? && Paired(node) && SetField(node, path, value).Ok?
    ensures var after := SetField(node, path, value).value.0;
      after.kind.Mapping? && Paired(after) && Holds(after, path, value)
    decreases |path|
  {
    var next := MapValue(node, path[0]);
    if |path| == 1 {
      SetLeafStep(node, path[0], value);
      var leaf := if next.None? then Str(value) else next.value.(tag := "!!str", value := value);
      MapValuePut(node, path[0], leaf, path[0]);
      PutKeepsPaired(node, path[0], leaf);
    } else {
      SetFieldStep(node, path, value);
      var child := if next.Some? then next.value else EMPTY_MAP;
      SetThenLookup(child, path[1..], value);
      var child' := SetField(child, path[1..], value).value.0;
      MapValuePut(node, path[0], child', path[0]);
      PutKeepsPaired(node, path[0], child');
    }
  }

  /** A set touches no path that lies neither above nor below its target. */
  lemma {:induction false} SetFrame(node: Node, path: Path, value: string, other: seq<string>)
    requires node.kind.Mapping? && Paired(node) && SetField(node, path, value).Ok?
    requires !Nested(path, other)
    ensures Lookup(SetField(node, path, value).value.0, other) == Lookup(node, other)
    decreases |path|
  {
    var next := MapValue(node, path[0]);
    if |path| == 1 {
      SetLeafStep(node, path[0], value);
      assert other[0] != path[0] by { assert other[..1] == [other[0]]; }
      var leaf := if next.None? then Str(value) else next.value.(tag := "!!str", value := value);
      MapValuePut(node, path[0], leaf, other[0]);
    } else {
      SetFieldStep(node, path, value);
      var child := if next.Some? then next.value else EMPTY_MAP;
      var child' := SetField(child, path[1..], value).value.0;
      MapValuePut(node, path[0], child', other[0]);
      if other[0] == path[0] {
        NestedTail(path, other);
        SetFrame(child, path[1..], value, other[1..]);
      }
    }
  }

  lemma NestedTail(p: seq<string>, q: seq<string>)
    requires p != [] && q != [] && p[0] == q[0]
    ensures IsPrefix(p, q) <==> IsPrefix(p[1..], q[1..])
    ensures Nested(p, q) <==> Nested(p[1..], q[1..])
  {
    PrefixTail(p, q);
    PrefixTail(q, p);
  }

  lemma PrefixTail(p: seq<string>, q: seq<string>)
    requires p != [] && q != [] && p[0] == q[0]
    ensures IsPrefix(p, q) <==> IsPrefix(p[1..], q[1..])
  {
    if |p| <= |q| {
      assert q[..|p|] == [q[0]] + q[1..][..|p| - 1];
      assert p == [p[0]] + p[1..];
    }
  }

  /** changed is false exactly when the tree is unchanged, and exactly when the path held the value already. */
  lemma {:induction false} SetChangedIff(node: Node, path: Path, value: string)
    requires node.kind.Mapping? && SetField(node, path, value).Ok?
    ensures var (after, changed) := SetField(node, path, value).value;
      (changed <==> after != node) && (changed <==> !Holds(node, path, value))
    decreases |path|
  {
    var next := MapValue(node, path[0]);
    if |path| == 1 {
      SetLeafStep(node, path[0], value);
      assert Lookup(node, path) == next;
    } else {
      SetFieldStep(node, path, value);
      if next.Some? {
        SetChangedIff(next.value, path[1..], value);
        PutSame(node, path[0]);
      }
    }
  }

  /** The later of two sets of one path is the one that counts. */
  lemma {:induction false} SetSet(node: Node, path: Path, first: string, second: string)
    requires node.kind.Mapping? && Paired(node) && SetField(node, path, first).Ok?
    ensures SetField(node, path, second).Ok?
    ensures SetField(SetField(node, path, first).value.0, path, second).Ok?
    ensures SetField(SetField(node, path, first).value.0, path, second).value.0 == SetField(node, path, second).value.0
    decreases |path|
  {
    var next := MapValue(node, path[0]);
    if |path| == 1 {
      SetLeafStep(node, path[0], first);
      SetLeafStep(node, path[0], second);
      var blank := if next.None? then Str("") else next.value;
      var a, b := blank.(tag := "!!str", value := first), blank.(tag := "!!str", value := second);
      if next.Some? { PutSame(node, path[0]); }
      MapValuePut(node, path[0], a, path[0]);
      PutPut(node, path[0], a, b);
      SetLeafStep(Put(node, path[0], a), path[0], second);
    } else {
      var child := if next.Some? then next.value else EMPTY_MAP;
      SetFieldStep(node, path, first);
      SetFieldStep(node, path, second);
      SetSet(child, path[1..], first, second);
      SetThenLookup(child, path[1..], first);
      var a := SetField(child, path[1..], first).value.0;
      MapValuePut(node, path[0], a, path[0]);
      SetFieldStep(Put(node, path[0], a), path, second);
      PutPut(node, path[0], a, SetField(a, path[1..], second).value.0);
    }
  }

  lemma {:induction false} SetKeepsWellFormed(node: Node, path: Path, value: string)
    requires WellFormedMap(node) && SetField(node, path, value).Ok?
    ensures WellFormedMap(SetField(node, path, value).value.0)
    decreases |path|
  {
    SetThenLookup(node, path, value);
    var next := MapValue(node, path[0]);
    if |path| == 1 {
      SetLeafStep(node, path[0], value);
      var leaf := if next.None? then Str(value) else next.value.(tag := "!!str", value := value);
      assert next.Some? ==> UniqueKeys(next.value);
      PutKeepsUnique(node, path[0], leaf);
    } else {
      SetFieldStep(node, path, value);
      var child := if next.Some? then next.value else EMPTY_MAP;
      EmptyMapIsUnique();
      SetKeepsWellFormed(child, path[1..], value);
      PutKeepsUnique(node, path[0], SetField(child, path[1..], value).value.0);
    }
  }

  lemma EmptyMapIsUnique()
    ensures WellFormedMap(EMPTY_MAP)
  {
  }

  // ---- Delete ----

  lemma DeleteFieldStep(node: Node, path: Path)
    requires node.kind.Mapping? && |path| > 1
    ensures var next := MapValue(node, path[0]);
      DeleteField(node, path) ==
        if next.None? then Ok((node, false))
        else if !next.value.kind.Mapping? then Err(TraversesNonMap)
        else match DeleteField(next.value, path[1..])
          case Err(e) => Err(e)
          case Ok((child, changed)) => Ok((Put(node, path[0], child), changed))
  {
  }

  function RemoveKey(node: Node, key: string): Node
    requires KeyIndex(node.content, key).Some?
  {
    node.(content := Without(node.content, KeyIndex(node.content, key).value))
  }

  lemma DeleteLeafStep(node: Node, path: Path)
    requires node.kind.Mapping? && |path| == 1
    ensures DeleteField(node, path) ==
      if MapValue(node, path[0]).None? then Ok((node, false)) else Ok((RemoveKey(node, path[0]), true))
    ensures Lookup(node, path) == MapValue(node, path[0])
  {
  }

  /** A delete fails exactly when the path runs through a non-mapping. */
  lemma {:induction false} DeleteFailsIff(node: Node, path: Path)
    requires node.kind.Mapping?
    ensures DeleteField(node, path).Err? <==> Blocked(node, path)
    decreases |path|
  {
    if |path| <= 1 {
    } else {
      DeleteFieldStep(node, path);
      var next := MapValue(node, path[0]);
      if next.Some? && next.value.kind.Mapping? {
        DeleteFailsIff(next.value, path[1..]);
      }
    }
  }

  /** How often the last key of the path occurs in the mapping that the path leads to. */
  function TargetOccurrences(node: Node, path: Path): nat
    decreases |path|
  {
    if |path| == 1 then Occurrences(node.content, path[0])
    else if MapValue(node, path[0]).None? then 0
    else TargetOccurrences(MapValue(node, path[0]).value, path[1..])
  }

  /** A delete removes the first occurrence; nothing is left to read exactly when there was at most one. */
  lemma {:induction false} DeleteThenLookup(node: Node, path: Path)
    requires node.kind.Mapping? && Paired(node) && DeleteField(node, path).Ok?
    ensures Lookup(DeleteField(node, path).value.0, path).None? <==> TargetOccurrences(node, path) <= 1
    decreases |path|
  {
    var next := MapValue(node, path[0]);
    if |path| == 1 {
      DeleteLeafStep(node, path);
      KeyIndexCounts(node.content, path[0]);
      if next.Some? {
        RemoveCounts(node.content, path[0]);
        KeyIndexCounts(RemoveKey(node, path[0]).content, path[0]);
        DeleteLeafStep(RemoveKey(node, path[0]), path);
      }
    } else {
      DeleteFieldStep(node, path);
      if next.Some? {
        DeleteThenLookup(next.value, path[1..]);
        MapValuePut(node, path[0], DeleteField(next.value, path[1..]).value.0, path[0]);
      }
    }
  }

  lemma {:induction false} UniqueTarget(node: Node, path: Path)
    requires WellFormedMap(node) && !Blocked(node, path)
    ensures TargetOccurrences(node, path) <= 1
    decreases |path|
  {
    if |path| > 1 && MapValue(node, path[0]).Some? {
      UniqueTarget(MapValue(node, path[0]).value, path[1..]);
    }
  }

  /** A delete touches no path that lies neither above nor below its target. */
  lemma {:induction false} DeleteFrame(node: Node, path: Path, other: seq<string>)
    requires node.kind.Mapping? && Paired(node) && DeleteField(node, path).Ok?
    requires !Nested(path, other)
    ensures Lookup(DeleteField(node, path).value.0, other) == Lookup(node, other)
    decreases |path|
  {
    var next := MapValue(node, path[0]);
    if |path| == 1 {
      DeleteLeafStep(node, path);
      assert other[0] != path[0] by { assert other[..1] == [other[0]]; }
      if next.Some? { MapValueRemove(node, path[0], other[0]); }
    } else {
      DeleteFieldStep(node, path);
      if next.Some? {
        MapValuePut(node, path[0], DeleteField(next.value, path[1..]).value.0, other[0]);
        if other[0] == path[0] {
          NestedTail(path, other);
          DeleteFrame(next.value, path[1..], other[1..]);
        }
      }
    }
  }

  /** changed is false exactly when the tree is unchanged, and exactly when there was nothing at the path. */
  lemma {:induction false} DeleteChangedIff(node: Node, path: Path)
    requires node.kind.Mapping? && DeleteField(node, path).Ok?
    ensures var (after, changed) := DeleteField(node, path).value;
      (changed <==> after != node) && (changed <==> Lookup(node, path).Some?)
    decreases |path|
  {
    var next := MapValue(node, path[0]);
    if |path| == 1 {
      DeleteLeafStep(node, path);
    } else {
      DeleteFieldStep(node, path);
      if next.Some? {
        DeleteChangedIff(next.value, path[1..]);
        PutSame(node, path[0]);
      }
    }
  }

  lemma {:induction false} DeleteKeepsWellFormed(node: Node, path: Path)
    requires WellFormedMap(node) && DeleteField(node, path).Ok?
    ensures WellFormedMap(DeleteField(node, path).value.0)
    decreases |path|
  {
    var next := MapValue(node, path[0]);
    if |path| == 1 {
      DeleteLeafStep(node, path);
      if next.Some? { RemoveKeepsWellFormed(node, path[0]); }
    } else {
      DeleteFieldStep(node, path);
      if next.Some? {
        DeleteKeepsWellFormed(next.value, path[1..]);
        var child := DeleteField(next.value, path[1..]).value.0;
        PutKeepsPaired(node, path[0], child);
        PutKeepsUnique(node, path[0], child);
      }
    }
  }

  // ---- What a set adds ----

  /** Where the last mapping of the path is there without its key, one pair of string scalars is added at its end. */
  lemma SetAppends(node: Node, leaf: string, value: string)
    requires node.kind.Mapping? && MapValue(node, leaf).None?
    ensures SetField(node, [leaf], value) == Ok((node.(content := node.content +
      [Node(Scalar, "!!str", leaf, []), Node(Scalar, "!!str", value, [])]), true))
  {
  }

  /** Mappings that a path needs and does not find are added, empty but for the rest of the path. */
  lemma {:induction false} SetAddsMappings(node: Node, path: Path, value: string, k: nat)
    requires node.kind.Mapping? && Paired(node) && SetField(node, path, value).Ok? && 0 < k < |path|
    ensures var after := Lookup(SetField(node, path, value).value.0, path[..k]);
      && after.Some? && after.value.kind.Mapping?
      && (Lookup(node, path[..k]).None? ==> after.value.tag == "!!map" && after.value.value == "" && |after.value.content| == 2)
    decreases k
  {
    SetFieldStep(node, path, value);
    assert |node.content| % 2 == 0;
    var next := MapValue(node, path[0]);
    var child := if next.Some? then next.value else EMPTY_MAP;
    assert Paired(child) by { if next.Some? { ChildIsPaired(node, path[0]); } }
    hide SetField, Paired, KeyIndex, Put;
    var child' := SetField(child, path[1..], value).value.0;
    MapValuePut(node, path[0], child', path[0]);
    SetThenLookup(child, path[1..], value);
    SetKeepsTag(child, path[1..], value);
    assert path[..k][0] == path[0] && path[..k][1..] == path[1..][..k - 1];
    if k == 1 {
      assert path[..1][1..] == [];
      assert Lookup(child', []) == Some(child');
      assert next.Some? ==> Lookup(node, path[..1]) == Some(child);
    } else {
      if next.None? { EmptyMapHasNothing(path[1..][..k - 1]); }
      SetAddsMappings(child, path[1..], value, k - 1);
    }
  }

  lemma SetKeepsTag(node: Node, path: Path, value: string)
    requires node.kind.Mapping? && SetField(node, path, value).Ok?
    ensures var after := SetField(node, path, value).value.0;
      && after.kind == node.kind && after.tag == node.tag && after.value == node.value
      && (node.content == [] ==> |after.content| == 2)
  {
    if |path| > 1 { SetFieldStep(node, path, value); }
  }

  /** Deleting keeps every mapping on the way, also one that it leaves empty; only the last one loses a pair. */
  lemma {:induction false} DeleteKeepsTheWay(node: Node, path: Path, k: nat)
    requires node.kind.Mapping? && Paired(node) && DeleteField(node, path).Ok? && k < |path|
    ensures var (after, changed) := DeleteField(node, path).value;
      var a, b := Lookup(after, path[..k]), Lookup(node, path[..k]);
      && (a.Some? <==> b.Some?)
      && (a.Some? ==>
        && a.value == b.value.(content := a.value.content)
        && |a.value.content| == |b.value.content| - if changed && k + 1 == |path| then 2 else 0)
    decreases k
  {
    hide DeleteField, KeyIndex, Without, Paired;
    var after := DeleteField(node, path).value.0;
    if k == 0 {
      assert path[..0] == [];
      DeleteKeepsTheTop(node, path);
    } else {
      DeleteFieldStep(node, path);
      assert path[..k][0] == path[0] && path[..k][1..] == path[1..][..k - 1];
      var next := MapValue(node, path[0]);
      if next.Some? {
        ChildIsPaired(node, path[0]);
        MapValuePut(node, path[0], DeleteField(next.value, path[1..]).value.0, path[0]);
        DeleteKeepsTheWay(next.value, path[1..], k - 1);
      }
    }
  }

  lemma ChildIsPaired(node: Node, key: string)
    requires Paired(node) && MapValue(node, key).Some?
    ensures Paired(MapValue(node, key).value) && |node.content| % 2 == 0
  {
  }

  lemma DeleteKeepsTheTop(node: Node, path: Path)
    requires node.kind.Mapping? && DeleteField(node, path).Ok?
    ensures var (after, changed) := DeleteField(node, path).value;
      && after == node.(content := after.content)
      && |after.content| == |node.content| - if changed && |path| == 1 then 2 else 0
  {
  }
}
