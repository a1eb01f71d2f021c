/**
 The same edits as the program makes them: in place, on nodes linked in memory. A Place says where in memory a tree lies;
 Shows relates the memory there to the tree it holds; the footprints of the children do not overlap. What the edits need
 is that one part can be exchanged while the rest goes on showing what it showed.
 */
module YamlHeap {
  import opened YamlTree
  import opened YamlTrail

  class YamlNode {
    var kind: Kind
    var tag: string
    var value: string
    var content: seq<YamlNode>

    constructor (kind: Kind, tag: string, value: string)
      ensures this.kind == kind && this.tag == tag && this.value == value && content == []
    {
      this.kind, this.tag, this.value, this.content := kind, tag, value, [];
    }
  }

  datatype Place = Place(node: YamlNode, below: seq<Place>)

  ghost function Cells(a: Place): set<YamlNode> {
    {a.node} + set i, n | 0 <= i < |a.below| && n in Cells(a.below[i]) :: n
  }

  ghost predicate Shows(a: Place, t: Node)
    reads Cells(a)
    decreases a
  {
    && a.node.kind == t.kind && a.node.tag == t.tag && a.node.value == t.value
    && |a.node.content| == |a.below| == |t.content|
    && forall i :: 0 <= i < |a.below| ==> a.node.content[i] == a.below[i].node && Shows(a.below[i], t.content[i])
  }

  /** No node of the tree is reached along two ways. */
  ghost predicate Separate(a: Place) {
    && (forall i :: 0 <= i < |a.below| ==> a.node !in Cells(a.below[i]) && Separate(a.below[i]))
    && (forall i, j :: 0 <= i < j < |a.below| ==> Cells(a.below[i]) !! Cells(a.below[j]))
  }

  lemma RootShows(a: Place, t: Node)
    requires Shows(a, t)
    ensures a.node.kind == t.kind && a.node.tag == t.tag && a.node.value == t.value && |a.below| == |t.content| == |a.node.content|
  {
  }

  lemma AtShows(a: Place, t: Node, i: nat)
    requires Shows(a, t) && i < |t.content|
    ensures i < |a.below| && i < |a.node.content| && Shows(a.below[i], t.content[i]) && a.node.content[i] == a.below[i].node
  {
  }

  lemma OwnCell(a: Place)
    ensures a.node in Cells(a)
  {
  }

  lemma ChildCells(a: Place, i: nat)
    requires Separate(a) && i < |a.below|
    ensures Separate(a.below[i]) && Cells(a.below[i]) <= Cells(a) && a.below[i].node in Cells(a)
  {
  }

  predicate Within(a: Place, trail: Trail) {
    trail == [] || (trail[0] < |a.below| && Within(a.below[trail[0]], trail[1..]))
  }

  function At(a: Place, trail: Trail): Place
    requires Within(a, trail)
  {
    if trail == [] then a else At(a.below[trail[0]], trail[1..])
  }

  function Moved(a: Place, trail: Trail, b: Place): Place
    requires Within(a, trail)
    decreases |trail|
  {
    if trail == [] then b
    else a.(below := a.below[trail[0] := Moved(a.below[trail[0]], trail[1..], b)])
  }

  lemma {:induction false} MovedAt(a: Place, trail: Trail, b: Place)
    requires Within(a, trail)
    ensures Within(Moved(a, trail, b), trail) && At(Moved(a, trail, b), trail) == b
    ensures Moved(a, trail, At(a, trail)) == a
    decreases |trail|
  {
    if trail == [] {
    } else {
      MovedAt(a.below[trail[0]], trail[1..], b);
    }
  }

  ghost function Siblings(a: Place, i: nat): set<YamlNode> {
    set j, n | 0 <= j < |a.below| && j != i && n in Cells(a.below[j]) :: n
  }

  /** The nodes of the tree that are not under the trail. */
  ghost function Around(a: Place, trail: Trail): set<YamlNode>
    requires Within(a, trail)
    decreases |trail|
  {
    if trail == [] then {}
    else {a.node} + Around(a.below[trail[0]], trail[1..]) + Siblings(a, trail[0])
  }

  /** Everything but the part under the trail shows the tree. */
  ghost predicate ShowsAround(a: Place, t: Node, trail: Trail)
    requires Within(a, trail) && InTree(t, trail)
    reads Around(a, trail)
    decreases |trail|
  {
    trail != [] ==>
      && a.node.kind == t.kind && a.node.tag == t.tag && a.node.value == t.value
      && |a.node.content| == |a.below| == |t.content|
      && (forall i :: 0 <= i < |a.below| ==> a.node.content[i] == a.below[i].node)
      && (forall i :: 0 <= i < |a.below| && i != trail[0] ==> Shows(a.below[i], t.content[i]))
      && ShowsAround(a.below[trail[0]], t.content[trail[0]], trail[1..])
  }

  lemma {:induction false} SplitCells(a: Place, trail: Trail)
    requires Separate(a) && Within(a, trail)
    ensures Around(a, trail) + Cells(At(a, trail)) == Cells(a)
    ensures Around(a, trail) !! Cells(At(a, trail))
    ensures Separate(At(a, trail)) && At(a, trail).node in Cells(At(a, trail))
    decreases |trail|
  {
    if trail == [] {
    } else {
      var i := trail[0];
      SplitCells(a.below[i], trail[1..]);
      assert forall j :: 0 <= j < |a.below| && j != i ==> Cells(a.below[i]) !! Cells(a.below[j]);
    }
  }

  lemma {:induction false} SplitShows(a: Place, t: Node, trail: Trail)
    requires Shows(a, t) && InTree(t, trail)
    ensures Within(a, trail) && ShowsAround(a, t, trail) && Shows(At(a, trail), TreeAt(t, trail))
    decreases |trail|
  {
    if trail == [] {
    } else {
      SplitShows(a.below[trail[0]], t.content[trail[0]], trail[1..]);
    }
  }

  lemma {:induction false} MovedCells(a: Place, trail: Trail, b: Place)
    requires Separate(a) && Within(a, trail)
    requires b.node == At(a, trail).node && Separate(b) && Cells(b) !! Around(a, trail)
    ensures var m := Moved(a, trail, b); m.node == a.node && Separate(m) && Cells(m) == Around(a, trail) + Cells(b)
    decreases |trail|
  {
    if trail == [] {
    } else {
      var i := trail[0];
      var m := Moved(a.below[i], trail[1..], b);
      MovedCells(a.below[i], trail[1..], b);
      SplitCells(a.below[i], trail[1..]);
      ReplaceChild(a, i, m);
    }
  }

  /** One child of a place can be exchanged for any other that shares no node with the rest. */
  lemma ReplaceChild(a: Place, i: nat, m: Place)
    requires Separate(a) && i < |a.below| && Separate(m) && a.node !in Cells(m)
    requires forall j :: 0 <= j < |a.below| && j != i ==> Cells(a.below[j]) !! Cells(m)
    ensures Separate(a.(below := a.below[i := m]))
    ensures Cells(a.(below := a.below[i := m])) == {a.node} + Cells(m) + Siblings(a, i)
  {
    var whole := a.(below := a.below[i := m]);
    assert forall j :: 0 <= j < |a.below| ==> whole.below[j] == if j == i then m else a.below[j];
    assert whole.below[i] == m;
    forall n ensures n in Cells(whole) <==> n == a.node || n in Cells(m) || n in Siblings(a, i) {
      if n in Siblings(a, i) {
        var j :| 0 <= j < |a.below| && j != i && n in Cells(a.below[j]);
        assert n in Cells(whole.below[j]);
      }
    }
  }

  /** Putting a subtree back under the trail: the whole then shows the tree with that subtree grafted in. */
  lemma {:induction false} Refit(a: Place, t: Node, trail: Trail, b: Place, u: Node)
    requires Within(a, trail) && InTree(t, trail) && ShowsAround(a, t, trail)
    requires b.node == At(a, trail).node && Shows(b, u)
    ensures Shows(Moved(a, trail, b), Graft(t, trail, u)) && Moved(a, trail, b).node == a.node
    decreases |trail|
  {
    if trail == [] {
    } else {
      Refit(a.below[trail[0]], t.content[trail[0]], trail[1..], b, u);
    }
  }
}
