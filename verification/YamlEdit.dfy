/**
 setYAMLField, deleteYAMLField and yamlMapValue (internal/gitops/provider.go) in place: loops that walk down linked nodes
 and change them. Each is proved to leave the memory showing what the tree function of YamlTree computes, by following one
 Place down the path and putting the changed part back where it came from.
 */
module YamlEdit {
  import opened Wrappers
  import opened YamlTree
  import opened YamlLaws
  import opened YamlTrail
  import opened YamlHeap

  /** The memory at a holds the tree t, with no node shared. */
  ghost predicate Stored(a: Place, t: Node)
    reads Cells(a)
  {
    Separate(a) && Shows(a, t)
  }

  function Shifted(r: Option<nat>, offset: nat): Option<nat> {
    if r.None? then None else Some(r.value + offset)
  }

  method YamlMapValue(mapping: YamlNode?, key: string, ghost a: Place, ghost t: Node) returns (next: YamlNode?)
    requires mapping != null ==> a.node == mapping && Shows(a, t)
    ensures mapping == null ==> next == null
    ensures mapping != null ==> (next == null <==> MapValue(t, key).None?)
    ensures next != null ==>
      && KeyIndex(t.content, key).Some? && next == a.below[KeyIndex(t.content, key).value + 1].node
      && next.kind == t.content[KeyIndex(t.content, key).value + 1].kind
  {
    if mapping == null || !mapping.kind.Mapping? {
      return null;
    }
    var index := 0;
    while index + 1 < |mapping.content|
      invariant index <= |t.content|
      invariant KeyIndex(t.content, key) == Shifted(KeyIndex(t.content[index..], key), index)
    {
      assert t.content[index..][2..] == t.content[index + 2..];
      if mapping.content[index].value == key {
        assert Shows(a.below[index + 1], t.content[index + 1]);
        return mapping.content[index + 1];
      }
      index := index + 2;
    }
    return null;
  }

  /** Adds a key and its value as two new nodes at the end of a mapping. */
  method AppendPair(current: YamlNode, key: string, kind: Kind, tag: string, value: string, ghost a: Place, ghost t: Node)
    returns (added: YamlNode, ghost b: Place)
    requires a.node == current && Stored(a, t)
    modifies current
    ensures b.node == current && fresh(Cells(b) - Cells(a)) && |b.below| > |t.content| + 1 && b.below[|t.content| + 1].node == added
    ensures Stored(b, t.(content := t.content + [Str(key), Node(kind, tag, value, [])])) && added.kind == kind
  {
    hide Cells, Separate;
    assert allocated(Cells(a));
    var keyNode := new YamlNode(Scalar, "!!str", key);
    added := new YamlNode(kind, tag, value);
    assert Shows(a, t);
    ghost var k, v := Place(keyNode, []), Place(added, []);
    LeafPlace(k);
    LeafPlace(v);
    b := PlacedPair(a, k, v);
    Shielded(a, t);
    current.content := current.content + [keyNode, added];
    ShowsPair(a, t, k, v, Str(key), Node(kind, tag, value, []));
  }

  /** Writing to a node leaves what its children show alone. */
  lemma {:induction false} Shielded(a: Place, t: Node)
    requires Stored(a, t)
    ensures |a.below| == |t.content|
    ensures forall i :: 0 <= i < |a.below| ==> Shows(a.below[i], t.content[i]) && a.node !in Cells(a.below[i])
  {
  }

  lemma {:induction false} LeafPlace(a: Place)
    requires a.below == []
    ensures Cells(a) == {a.node} && Separate(a)
  {
  }

  lemma {:induction false} ShowsPair(a: Place, t: Node, k: Place, v: Place, u: Node, w: Node)
    requires a.node.kind == t.kind && a.node.tag == t.tag && a.node.value == t.value
    requires |a.node.content| == |a.below| + 2 && |a.below| == |t.content|
    requires forall i :: 0 <= i < |a.below| ==> a.node.content[i] == a.below[i].node && Shows(a.below[i], t.content[i])
    requires a.node.content[|a.below|] == k.node && a.node.content[|a.below| + 1] == v.node && Shows(k, u) && Shows(v, w)
    ensures Shows(Place(a.node, a.below + [k, v]), t.(content := t.content + [u, w]))
  {
  }

  lemma {:induction false} PlacedPair(a: Place, k: Place, v: Place) returns (b: Place)
    requires Separate(a) && Separate(k) && Separate(v) && Cells(a) !! Cells(k) && (Cells(a) + Cells(k)) !! Cells(v)
    ensures b == Place(a.node, a.below + [k, v]) && Separate(b) && Cells(b) == Cells(a) + Cells(k) + Cells(v)
  {
    b := Place(a.node, a.below + [k, v]);
    AppendedPlace(a, k);
    AppendedPlace(Place(a.node, a.below + [k]), v);
    assert a.below + [k] + [v] == b.below;
  }

  lemma AppendedPlace(a: Place, m: Place)
    requires Separate(a) && Separate(m) && Cells(a) !! Cells(m)
    ensures Separate(Place(a.node, a.below + [m])) && Cells(Place(a.node, a.below + [m])) == Cells(a) + Cells(m)
  {
    var b, n := Place(a.node, a.below + [m]), |a.below|;
    assert b.below[n] == m && forall j :: 0 <= j < n ==> b.below[j] == a.below[j];
    forall j | 0 <= j < n ensures Cells(a.below[j]) <= Cells(a) && Separate(a.below[j]) {
      ChildCells(a, j);
    }
    forall c ensures c in Cells(b) <==> c in Cells(a) || c in Cells(m) {
      if c in Cells(a) && c != a.node {
        var j :| 0 <= j < n && c in Cells(a.below[j]);
        assert c in Cells(b.below[j]);
      }
      if c in Cells(m) { assert c in Cells(b.below[n]); }
    }
    forall j, k | 0 <= j < k < |b.below| ensures Cells(b.below[j]) !! Cells(b.below[k]) {
      if k < n { assert Cells(a.below[j]) !! Cells(a.below[k]); }
    }
  }

  /** Overwrites a scalar in place, which makes it a string. */
  method SetText(node: YamlNode, value: string, ghost a: Place, ghost t: Node)
    requires a.node == node && Stored(a, t)
    modifies node
    ensures Stored(a, t.(tag := "!!str", value := value))
  {
    Shielded(a, t);
    node.tag := "!!str";
    node.value := value;
  }

  function Tree(before: Node, outcome: Result<(Node, bool), EditError>): Node {
    if outcome.Ok? then outcome.value.0 else before
  }

  function Reply(outcome: Result<(Node, bool), EditError>): Result<bool, EditError> {
    if outcome.Ok? then Ok(outcome.value.1) else Err(outcome.error)
  }

  /** The outcome for the whole tree when the walk has arrived at the trail. */
  function Resume(t: Node, trail: Trail, outcome: Result<(Node, bool), EditError>, created: bool): Result<(Node, bool), EditError>
    requires InTree(t, trail)
  {
    match outcome
    case Err(e) => Err(e)
    case Ok((u, changed)) => Ok((Graft(t, trail, u), changed || created))
  }

  function Opened(t: Node, part: string): Node {
    if KeyIndex(t.content, part).Some? then t else t.(content := t.content + [Str(part), EMPTY_MAP])
  }

  function ChildIndex(t: Node, part: string): nat {
    var i := KeyIndex(t.content, part);
    if i.Some? then i.value + 1 else |t.content| + 1
  }

  /** One segment further down the path, the outcome for the whole tree is the same. */
  lemma SetStep(t: Node, trail: Trail, parts: Path, value: string, created: bool)
    requires InTree(t, trail) && |parts| > 1
    ensures var cur := TreeAt(t, trail);
      var t', i := Graft(t, trail, Opened(cur, parts[0])), ChildIndex(cur, parts[0]);
      var child := Opened(cur, parts[0]).content[i];
      && InTree(t', trail + [i]) && TreeAt(t', trail + [i]) == child
      && Resume(t, trail, SetField(cur, parts, value), created) ==
        if !child.kind.Mapping? then Err(TraversesNonMap)
        else Resume(t', trail + [i], SetField(child, parts[1..], value), created || KeyIndex(cur.content, parts[0]).None?)
  {
    var cur := TreeAt(t, trail);
    var open, i := Opened(cur, parts[0]), ChildIndex(cur, parts[0]);
    var child := open.content[i];
    GraftAt(t, trail, open);
    var t' := Graft(t, trail, open);
    TrailSum(t', trail, [i]);
    if child.kind.Mapping? {
      SetStepBelow(cur, parts, value);
      var below := Tree(child, SetField(child, parts[1..], value));
      assert Graft(open, [i], below) == open.(content := open.content[i := below]);
    }
  }

  lemma SetStepBelow(cur: Node, parts: Path, value: string)
    requires |parts| > 1
    ensures var open, i := Opened(cur, parts[0]), ChildIndex(cur, parts[0]);
      open.content[i].kind.Mapping? ==>
        var below := SetField(open.content[i], parts[1..], value);
        && (KeyIndex(cur.content, parts[0]).None? ==> below.Ok?)
        && SetField(cur, parts, value) ==
          if below.Err? then below
          else Ok((open.(content := open.content[i := below.value.0]),
                   below.value.1 || KeyIndex(cur.content, parts[0]).None?))
  {
    if KeyIndex(cur.content, parts[0]).None? {
      EmptyMapHasNothing(parts[1..]);
      SetFailsIff(EMPTY_MAP, parts[1..], value);
      var child := SetField(EMPTY_MAP, parts[1..], value).value.0;
      assert (cur.content + [Str(parts[0]), EMPTY_MAP])[|cur.content| + 1 := child] == cur.content + [Str(parts[0]), child];
    }
  }

  lemma {:induction false} AtBelow(a: Place, trail: Trail, i: nat)
    requires Within(a, trail) && i < |At(a, trail).below|
    ensures Within(a, trail + [i]) && At(a, trail + [i]) == At(a, trail).below[i]
    decreases |trail|
  {
    if trail == [] {
    } else {
      assert (trail + [i])[0] == trail[0] && (trail + [i])[1..] == trail[1..] + [i];
      AtBelow(a.below[trail[0]], trail[1..], i);
    }
  }

  /** After an edit under the trail, the whole memory shows the whole tree with that edit. */
  lemma PutBack(a: Place, t: Node, trail: Trail, b: Place, u: Node)
    requires Separate(a) && Within(a, trail) && InTree(t, trail) && ShowsAround(a, t, trail)
    requires b.node == At(a, trail).node && Stored(b, u) && Cells(b) !! Around(a, trail)
    ensures Moved(a, trail, b).node == a.node && Stored(Moved(a, trail, b), Graft(t, trail, u))
    ensures Cells(Moved(a, trail, b)) == Around(a, trail) + Cells(b)
    ensures Within(Moved(a, trail, b), trail) && At(Moved(a, trail, b), trail) == b
    ensures b == At(a, trail) ==> Moved(a, trail, b) == a
    ensures InTree(Graft(t, trail, u), trail) && TreeAt(Graft(t, trail, u), trail) == u
    ensures u == TreeAt(t, trail) ==> Graft(t, trail, u) == t
  {
    MovedCells(a, trail, b);
    Refit(a, t, trail, b, u);
    MovedAt(a, trail, b);
    GraftAt(t, trail, u);
  }

  method SetChildText(child: YamlNode, ghost i: nat, value: string, ghost a: Place, ghost t: Node)
    requires Stored(a, t) && i < |t.content| && a.below[i].node == child
    modifies child
    ensures Stored(a, t.(content := t.content[i := t.content[i].(tag := "!!str", value := value)]))
  {
    assert allocated(Cells(a));
    Shielded(a, t);
    OthersShielded(a, i);
    SetText(child, value, a.below[i], t.content[i]);
    assert forall j :: 0 <= j < |a.below| && j != i ==> Shows(a.below[j], t.content[j]);
  }

  lemma OthersShielded(a: Place, i: nat)
    requires Separate(a) && i < |a.below|
    ensures a.below[i].node in Cells(a.below[i]) && a.below[i].node != a.node && Separate(a.below[i])
    ensures forall j :: 0 <= j < |a.below| && j != i ==> a.below[i].node !in Cells(a.below[j]) && Cells(a.below[j]) <= Cells(a)
  {
    assert forall j :: 0 <= j < |a.below| && j != i ==> Cells(a.below[i]) !! Cells(a.below[j]);
  }

  /** The last segment of setYAMLField. */
  method SetYamlLeaf(current: YamlNode, leaf: string, value: string, ghost a: Place, ghost t: Node)
    returns (result: Result<bool, EditError>, ghost b: Place)
    requires a.node == current && Stored(a, t) && t.kind.Mapping?
    modifies Cells(a)
    ensures b.node == current && fresh(Cells(b) - Cells(a))
    ensures result == Reply(SetLeaf(t, leaf, value)) && Stored(b, Tree(t, SetLeaf(t, leaf, value)))
    ensures result.Err? ==> b == a
  {
    hide Cells, Separate, Shows, KeyIndex;
    b := a;
    OwnCell(a);
    assert allocated(Cells(a));
    var existing := YamlMapValue(current, leaf, a, t);
    assert Stored(a, t);
    if existing != null {
      ghost var i: nat := KeyIndex(t.content, leaf).value + 1;
      AtShows(a, t, i);
      RootShows(a.below[i], t.content[i]);
      if !existing.kind.Scalar? {
        return Err(NotAScalar), b;
      }
      if existing.value == value && existing.tag == "!!str" {
        return Ok(false), b;
      }
      ChildCells(a, i);
      SetChildText(existing, i, value, a, t);
      return Ok(true), b;
    }
    var added;
    label Append:
    added, b := AppendPair(current, leaf, Scalar, "!!str", value, a, t);
    forall n | n in Cells(b) && n !in Cells(a) ensures fresh(n) {
      assert fresh@Append(n);
    }
    return Ok(true), b;
  }

  /** One segment of the walk: the value under the key, a new mapping when the key is missing. */
  method StepDown(current: YamlNode, part: string, ghost a: Place, ghost t: Node)
    returns (next: YamlNode, ghost b: Place, ghost i: nat)
    requires a.node == current && Stored(a, t) && t.kind.Mapping?
    modifies current
    ensures b.node == current && fresh(Cells(b) - Cells(a)) && Stored(b, Opened(t, part))
    ensures i == ChildIndex(t, part) < |b.below| && b.below[i].node == next && next.kind == Opened(t, part).content[i].kind
    ensures KeyIndex(t.content, part).Some? ==> b == a
  {
    hide Cells, Separate, Shows, KeyIndex;
    assert allocated(Cells(a));
    b, i := a, ChildIndex(t, part);
    var found := YamlMapValue(current, part, a, t);
    assert Stored(a, t);
    if found != null {
      AtShows(a, t, i);
      RootShows(a.below[i], t.content[i]);
      return found, b, i;
    }
    label Append:
    next, b := AppendPair(current, part, Mapping, "!!map", "", a, t);
    forall n | n in Cells(b) && n !in Cells(a) ensures fresh(n) {
      assert fresh@Append(n);
    }
  }

  /** The walk stands on current, the node of memory a under the trail. */
  ghost predicate Standing(current: YamlNode, a: Place, t: Node, trail: Trail)
    reads Cells(a)
  {
    && Stored(a, t) && InTree(t, trail) && Within(a, trail)
    && At(a, trail).node == current && TreeAt(t, trail).kind.Mapping?
  }

  method Descend(current: YamlNode, part: string, ghost a: Place, ghost t: Node, ghost trail: Trail)
    returns (next: YamlNode, ghost b: Place, ghost i: nat)
    requires Standing(current, a, t, trail)
    modifies Cells(a)
    ensures b.node == a.node && fresh(Cells(b) - Cells(a)) && i == ChildIndex(TreeAt(t, trail), part)
    ensures Stored(b, Graft(t, trail, Opened(TreeAt(t, trail), part)))
    ensures i < |Opened(TreeAt(t, trail), part).content| && next.kind == Opened(TreeAt(t, trail), part).content[i].kind
    ensures Within(b, trail + [i]) && At(b, trail + [i]).node == next
    ensures KeyIndex(TreeAt(t, trail).content, part).Some? ==> b == a && Graft(t, trail, Opened(TreeAt(t, trail), part)) == t
  {
    hide Cells, Around, Shows, Separate, ShowsAround;
    SplitShows(a, t, trail);
    SplitCells(a, trail);
    assert allocated(Around(a, trail)) && allocated(Cells(At(a, trail)));
    ghost var here, cur := At(a, trail), TreeAt(t, trail);
    ghost var grown;
    next, grown, i := StepDown(current, part, here, cur);
    PutBack(a, t, trail, grown, Opened(cur, part));
    b := Moved(a, trail, grown);
    AtBelow(b, trail, i);
  }

  method FinishSet(current: YamlNode, leaf: string, value: string, ghost a: Place, ghost t: Node, ghost trail: Trail)
    returns (result: Result<bool, EditError>, ghost b: Place)
    requires Standing(current, a, t, trail)
    modifies Cells(a)
    ensures b.node == a.node && fresh(Cells(b) - Cells(a))
    ensures result == Reply(SetLeaf(TreeAt(t, trail), leaf, value)) && (result.Err? ==> b == a)
    ensures Stored(b, Tree(t, Resume(t, trail, SetLeaf(TreeAt(t, trail), leaf, value), false)))
  {
    hide Cells, Around, Shows, Separate, ShowsAround;
    SplitShows(a, t, trail);
    SplitCells(a, trail);
    assert allocated(Around(a, trail)) && allocated(Cells(At(a, trail)));
    ghost var here, cur := At(a, trail), TreeAt(t, trail);
    ghost var grown;
    result, grown := SetYamlLeaf(current, leaf, value, here, cur);
    PutBack(a, t, trail, grown, Tree(cur, SetLeaf(cur, leaf, value)));
    b := Moved(a, trail, grown);
  }

  /** Setting the rest of the path at the trail of tree is what setting the whole path in t comes to. */
  ghost predicate Underway(t: Node, parts: Path, value: string, tree: Node, trail: Trail, k: nat, created: bool) {
    && k < |parts| && InTree(tree, trail)
    && (!created ==> tree == t)
    && (created ==> TreeAt(tree, trail) == EMPTY_MAP)
    && SetField(t, parts, value) == Resume(tree, trail, SetField(TreeAt(tree, trail), parts[k..], value), created)
  }

  lemma UnderwayStep(t: Node, parts: Path, value: string, tree: Node, trail: Trail, k: nat, created: bool)
    requires Underway(t, parts, value, tree, trail, k, created) && k + 1 < |parts|
    ensures var cur := TreeAt(tree, trail);
      var tree', i := Graft(tree, trail, Opened(cur, parts[k])), ChildIndex(cur, parts[k]);
      var created' := created || KeyIndex(cur.content, parts[k]).None?;
      i < |Opened(cur, parts[k]).content| &&
      if Opened(cur, parts[k]).content[i].kind.Mapping? then
        && Underway(t, parts, value, tree', trail + [i], k + 1, created')
        && TreeAt(tree', trail + [i]).kind.Mapping?
      else
        !created' && tree' == t && SetField(t, parts, value) == Err(TraversesNonMap)
  {
    assert parts[k..][0] == parts[k] && parts[k..][1..] == parts[k + 1..];
    SetStep(tree, trail, parts[k..], value, created);
    GraftAt(tree, trail, Opened(TreeAt(tree, trail), parts[k]));
  }

  lemma UnderwayDone(t: Node, parts: Path, value: string, tree: Node, trail: Trail, created: bool)
    requires Underway(t, parts, value, tree, trail, |parts| - 1, created)
    ensures var last := SetLeaf(TreeAt(tree, trail), parts[|parts| - 1], value);
      && Reply(SetField(t, parts, value)) == Reply(last)
      && Tree(t, SetField(t, parts, value)) == Tree(tree, Resume(tree, trail, last, false))
      && (last.Err? ==> !created)
  {
    assert parts[|parts| - 1..] == [parts[|parts| - 1]];
  }

  /** setYAMLField: changes the memory to show SetField's tree; an error leaves it as it was. */
  method SetYamlField(root: YamlNode, parts: Path, value: string, ghost a: Place, ghost t: Node)
    returns (result: Result<bool, EditError>, ghost b: Place)
    requires a.node == root && Stored(a, t) && t.kind.Mapping?
    modifies Cells(a)
    ensures b.node == root && fresh(Cells(b) - Cells(a))
    ensures result == Reply(SetField(t, parts, value)) && Stored(b, Tree(t, SetField(t, parts, value)))
    ensures result.Err? ==> b == a
  {
    hide Cells, Around, Shows, Separate, ShowsAround, SetField;
    ghost var start := Cells(a);
    var current := root;
    b := a;
    ghost var tree, created := t, false;
    ghost var trail: Trail := [];
    var k := 0;
    while k < |parts| - 1
      invariant 0 <= k < |parts|
      invariant b.node == root && fresh(Cells(b) - start) && Standing(current, b, tree, trail)
      invariant !created ==> b == a
      invariant Underway(t, parts, value, tree, trail, k, created)
    {
      ghost var cur := TreeAt(tree, trail);
      ghost var i;
      var next;
      ghost var before := Cells(b);
      assert allocated(before);
      UnderwayStep(t, parts, value, tree, trail, k, created);
      label Step:
      next, b, i := Descend(current, parts[k], b, tree, trail);
      forall n | n in Cells(b) && n !in before ensures fresh(n) {
        assert fresh@Step(n);
      }
      tree, trail := Graft(tree, trail, Opened(cur, parts[k])), trail + [i];
      created := created || KeyIndex(cur.content, parts[k]).None?;
      if !next.kind.Mapping? {
        return Err(TraversesNonMap), b;
      }
      current := next;
      k := k + 1;
    }
    UnderwayDone(t, parts, value, tree, trail, created);
    ghost var before := Cells(b);
    assert allocated(before);
    label Finish:
    result, b := FinishSet(current, parts[|parts| - 1], value, b, tree, trail);
    forall n | n in Cells(b) && n !in before ensures fresh(n) {
      assert fresh@Finish(n);
    }
  }

  lemma SplicedPlace(a: Place, i: nat)
    requires Separate(a) && i + 1 < |a.below|
    ensures Separate(Place(a.node, Without(a.below, i))) && Cells(Place(a.node, Without(a.below, i))) <= Cells(a)
  {
    UnsplicedBelow(a.below, i);
    hide Without;
    SplicedIsSeparate(a, i);
    SplicedCells(a, i);
  }

  function Unspliced(i: nat, j: nat): nat {
    if j < i then j else j + 2
  }

  lemma UnsplicedBelow(below: seq<Place>, i: nat)
    requires i + 1 < |below|
    ensures |Without(below, i)| == |below| - 2
    ensures forall j :: 0 <= j < |below| - 2 ==> Without(below, i)[j] == below[Unspliced(i, j)]
  {
  }

  lemma SplicedIsSeparate(a: Place, i: nat)
    requires Separate(a) && i + 1 < |a.below|
    ensures Separate(Place(a.node, Without(a.below, i)))
  {
    hide Cells;
    UnsplicedBelow(a.below, i);
    hide Without;
    var b := Place(a.node, Without(a.below, i));
    forall j | 0 <= j < |b.below| ensures a.node !in Cells(b.below[j]) && Separate(b.below[j]) {
      assert b.below[j] == a.below[Unspliced(i, j)];
    }
    forall j, k | 0 <= j < k < |b.below| ensures Cells(b.below[j]) !! Cells(b.below[k]) {
      assert Cells(a.below[Unspliced(i, j)]) !! Cells(a.below[Unspliced(i, k)]);
    }
  }

  lemma SplicedCells(a: Place, i: nat)
    requires i + 1 < |a.below|
    ensures Cells(Place(a.node, Without(a.below, i))) <= Cells(a)
  {
    UnsplicedBelow(a.below, i);
    hide Without;
    var b := Place(a.node, Without(a.below, i));
    forall c | c in Cells(b) && c != a.node ensures c in Cells(a) {
      var j :| 0 <= j < |b.below| && c in Cells(b.below[j]);
      assert c in Cells(a.below[Unspliced(i, j)]);
    }
  }

  lemma ShowsSpliced(a: Place, t: Node, i: nat)
    requires a.node.kind == t.kind && a.node.tag == t.tag && a.node.value == t.value
    requires i + 1 < |a.below| == |t.content| && |a.node.content| == |a.below| - 2
    requires forall j :: 0 <= j < |a.below| ==> Shows(a.below[j], t.content[j])
    requires forall j :: 0 <= j < |a.below| - 2 ==> a.node.content[j] == a.below[if j < i then j else j + 2].node
    ensures Shows(Place(a.node, Without(a.below, i)), t.(content := Without(t.content, i)))
  {
    var b := Place(a.node, Without(a.below, i));
    forall j | 0 <= j < |b.below| ensures Shows(b.below[j], Without(t.content, i)[j]) {
      assert b.below[j] == a.below[if j < i then j else j + 2];
    }
  }

  /** Takes the pair at a position out of a mapping's list of nodes. */
  method SpliceOut(current: YamlNode, index: nat, ghost a: Place, ghost t: Node) returns (ghost b: Place)
    requires a.node == current && Stored(a, t) && index + 1 < |t.content|
    modifies current
    ensures b.node == current && Cells(b) <= Cells(a) && Stored(b, t.(content := Without(t.content, index)))
  {
    hide Cells, Separate;
    Shielded(a, t);
    SplicedPlace(a, index);
    b := Place(current, Without(a.below, index));
    current.content := current.content[..index] + current.content[index + 2..];
    ShowsSpliced(a, t, index);
  }

  /** The last segment of deleteYAMLField: splice the key and its value out. */
  method DeleteYamlLeaf(current: YamlNode, leaf: string, ghost a: Place, ghost t: Node) returns (changed: bool, ghost b: Place)
    requires a.node == current && Stored(a, t)
    modifies current
    ensures b.node == current && Cells(b) <= Cells(a)
    ensures Ok(changed) == Reply(DeleteField(t, [leaf])) && Stored(b, Tree(t, DeleteField(t, [leaf])))
    ensures !changed ==> b == a
  {
    hide Cells, Separate;
    b := a;
    var index := 0;
    while index + 1 < |current.content|
      invariant index <= |t.content| && current.content == old(current.content) && Shows(a, t)
      invariant KeyIndex(t.content, leaf) == Shifted(KeyIndex(t.content[index..], leaf), index)
    {
      assert t.content[index..][2..] == t.content[index + 2..];
      assert Shows(a.below[index], t.content[index]);
      if current.content[index].value == leaf {
        b := SpliceOut(current, index, a, t);
        return true, b;
      }
      index := index + 2;
    }
    return false, b;
  }

  method FinishDelete(current: YamlNode, leaf: string, ghost a: Place, ghost t: Node, ghost trail: Trail)
    returns (changed: bool, ghost b: Place)
    requires Standing(current, a, t, trail)
    modifies Cells(a)
    ensures b.node == a.node && Cells(b) <= Cells(a)
    ensures Ok(changed) == Reply(DeleteField(TreeAt(t, trail), [leaf]))
    ensures Stored(b, Tree(t, Resume(t, trail, DeleteField(TreeAt(t, trail), [leaf]), false)))
  {
    hide Cells, Around, Shows, Separate, ShowsAround;
    SplitShows(a, t, trail);
    SplitCells(a, trail);
    assert allocated(Around(a, trail)) && allocated(Cells(At(a, trail)));
    ghost var here, cur := At(a, trail), TreeAt(t, trail);
    ghost var shrunk;
    changed, shrunk := DeleteYamlLeaf(current, leaf, here, cur);
    PutBack(a, t, trail, shrunk, Tree(cur, DeleteField(cur, [leaf])));
    b := Moved(a, trail, shrunk);
  }

  lemma DeleteStep(t: Node, trail: Trail, parts: Path)
    requires InTree(t, trail) && |parts| > 1
    ensures var cur := TreeAt(t, trail);
      var i := KeyIndex(cur.content, parts[0]);
      if i.None? then Resume(t, trail, DeleteField(cur, parts), false) == Ok((t, false))
      else
        var child := cur.content[i.value + 1];
        && InTree(t, trail + [i.value + 1]) && TreeAt(t, trail + [i.value + 1]) == child
        && Resume(t, trail, DeleteField(cur, parts), false) ==
          if !child.kind.Mapping? then Err(TraversesNonMap)
          else Resume(t, trail + [i.value + 1], DeleteField(child, parts[1..]), false)
  {
    var cur := TreeAt(t, trail);
    GraftAt(t, trail, cur);
    var i := KeyIndex(cur.content, parts[0]);
    if i.Some? {
      var at, child := i.value + 1, cur.content[i.value + 1];
      TrailSum(t, trail, [at]);
      var below := Tree(child, DeleteField(child, parts[1..]));
      assert Graft(cur, [at], below) == cur.(content := cur.content[at := below]);
    }
  }

  /** deleteYAMLField */
  method DeleteYamlField(root: YamlNode, parts: Path, ghost a: Place, ghost t: Node)
    returns (result: Result<bool, EditError>, ghost b: Place)
    requires a.node == root && Stored(a, t) && t.kind.Mapping?
    modifies Cells(a)
    ensures b.node == root && Cells(b) <= Cells(a)
    ensures result == Reply(DeleteField(t, parts)) && Stored(b, Tree(t, DeleteField(t, parts)))
    ensures result.Err? ==> b == a
  {
    hide Cells, Around, Shows, Separate, ShowsAround, DeleteField;
    var current: YamlNode := root;
    ghost var trail: Trail := [];
    var k := 0;
    while k < |parts| - 1
      invariant 0 <= k < |parts| && Standing(current, a, t, trail)
      invariant DeleteField(t, parts) == Resume(t, trail, DeleteField(TreeAt(t, trail), parts[k..]), false)
    {
      SplitShows(a, t, trail);
      SplitCells(a, trail);
      ghost var here, cur := At(a, trail), TreeAt(t, trail);
      assert parts[k..][0] == parts[k] && parts[k..][1..] == parts[k + 1..];
      DeleteStep(t, trail, parts[k..]);
      assert allocated(Cells(a));
      var next := YamlMapValue(current, parts[k], here, cur);
      if next == null {
        return Ok(false), a;
      }
      ghost var i: nat := KeyIndex(cur.content, parts[k]).value + 1;
      AtBelow(a, trail, i);
      if !next.kind.Mapping? {
        return Err(TraversesNonMap), a;
      }
      trail := trail + [i];
      current := next;
      k := k + 1;
    }
    assert parts[k..] == [parts[|parts| - 1]];
    var changed;
    changed, b := FinishDelete(current, parts[|parts| - 1], a, t, trail);
    result := Ok(changed);
  }
}
