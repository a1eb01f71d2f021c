/**
 updateRawWorkloadNode (internal/gitops/provider.go) in place: collect the containers' image nodes, select some, write to
 them. The loops are proved against the tree functions of RawWorkload, which name the same nodes by their position in the
 document instead of by reference. That they write to no other node is part of their frames.
 */
module RawManifest {
  import opened Wrappers
  import opened YamlTree
  import opened YamlTrail
  import opened YamlHeap
  import opened YamlEdit
  import opened ImageRef
  import opened RawWorkload

  datatype RawContainer = RawContainer(name: string, image: YamlNode)

  /** The collected nodes are the tree's candidates, in order. */
  ghost predicate Collected(found: seq<RawContainer>, cands: seq<Container>, a: Place) {
    && |found| == |cands|
    && forall k :: 0 <= k < |found| ==>
      found[k].name == cands[k].name && Within(a, cands[k].trail) && found[k].image == At(a, cands[k].trail).node
  }

  function Onward(trail: Trail, rest: Option<Trail>): Option<Trail> {
    if rest.None? then None else Some(trail + rest.value)
  }

  lemma OnwardStarts(t: Node, keys: seq<string>)
    ensures Onward([], TrailOf(t, keys[0..])) == TrailOf(t, keys)
  {
    assert keys[0..] == keys;
    var all := TrailOf(t, keys);
    if all.Some? { assert [] + all.value == all.value; }
  }

  lemma OnwardStep(t: Node, keys: seq<string>, trail: Trail, k: nat)
    requires k < |keys|
    ensures MapValue(t, keys[k]).None? ==> Onward(trail, TrailOf(t, keys[k..])) == None
    ensures MapValue(t, keys[k]).Some? ==>
      var i := KeyIndex(t.content, keys[k]).value + 1;
      Onward(trail, TrailOf(t, keys[k..])) == Onward(trail + [i], TrailOf(t.content[i], keys[k + 1..]))
  {
    assert keys[k..][0] == keys[k] && keys[k..][1..] == keys[k + 1..];
    if MapValue(t, keys[k]).Some? {
      var i := KeyIndex(t.content, keys[k]).value + 1;
      var below := TrailOf(t.content[i], keys[k + 1..]);
      if below.Some? { assert trail + ([i] + below.value) == (trail + [i]) + below.value; }
    }
  }

  lemma OnwardEnds(t: Node, keys: seq<string>, trail: Trail)
    ensures Onward(trail, TrailOf(t, keys[|keys|..])) == Some(trail)
  {
    assert trail + [] == trail;
  }

  method YamlNodeAt(root: YamlNode, keys: seq<string>, ghost a: Place, ghost t: Node) returns (node: YamlNode?)
    requires a.node == root && Stored(a, t)
    ensures node == null <==> TrailOf(t, keys).None?
    ensures node != null ==>
      && Within(a, TrailOf(t, keys).value) && At(a, TrailOf(t, keys).value).node == node
      && node.kind == TreeAt(t, TrailOf(t, keys).value).kind
  {
    hide Cells, Separate, Shows, TrailOf, KeyIndex;
    var current: YamlNode := root;
    ghost var trail: Trail := [];
    OnwardStarts(t, keys);
    var k := 0;
    while k < |keys|
      invariant 0 <= k <= |keys|
      invariant Stored(a, t) && InTree(t, trail) && Within(a, trail) && At(a, trail).node == current
      invariant TrailOf(t, keys) == Onward(trail, TrailOf(TreeAt(t, trail), keys[k..]))
    {
      assert allocated(Cells(a));
      SplitShows(a, t, trail);
      ghost var here, cur := At(a, trail), TreeAt(t, trail);
      OnwardStep(cur, keys, trail, k);
      var next := YamlMapValue(current, keys[k], here, cur);
      if next == null {
        return null;
      }
      ghost var i: nat := KeyIndex(cur.content, keys[k]).value + 1;
      SplitShows(a, t, trail);
      AtShows(here, cur, i);
      AtBelow(a, trail, i);
      TrailSum(t, trail, [i]);
      OneDeep(cur, i, cur);
      trail := trail + [i];
      current := next;
      k := k + 1;
    }
    SplitShows(a, t, trail);
    OnwardEnds(TreeAt(t, trail), keys, trail);
    RootShows(At(a, trail), TreeAt(t, trail));
    return current;
  }

  /** One item of a container list: its name and image node, if it is a container. */
  method ReadContainer(item: YamlNode, ghost a: Place, ghost t: Node) returns (found: Option<RawContainer>)
    requires a.node == item && Stored(a, t)
    ensures found.Some? <==> IsContainer(t)
    ensures found.Some? ==>
      && found.value.name == MapValue(t, "name").value.value
      && ImageIndex(t) < |a.below| && found.value.image == a.below[ImageIndex(t)].node
  {
    hide Cells, Separate, Shows;
    assert allocated(Cells(a));
    RootShows(a, t);
    if !item.kind.Mapping? {
      return None;
    }
    var name := YamlMapValue(item, "name", a, t);
    assert Stored(a, t);
    var image := YamlMapValue(item, "image", a, t);
    assert Stored(a, t);
    if name == null || image == null {
      return None;
    }
    AtShows(a, t, KeyIndex(t.content, "name").value + 1);
    RootShows(a.below[KeyIndex(t.content, "name").value + 1], MapValue(t, "name").value);
    AtShows(a, t, KeyIndex(t.content, "image").value + 1);
    if !image.kind.Scalar? {
      return None;
    }
    return Some(RawContainer(name.value, image));
  }

  lemma ItemPlace(a: Place, t: Node, c: nat, j: nat)
    requires Stored(a, t) && c < |t.content| && j < |t.content[c].content|
    ensures c < |a.below| && |a.below[c].below| == |a.below[c].node.content| == |t.content[c].content|
    ensures Stored(a.below[c].below[j], t.content[c].content[j])
    ensures a.below[c].node.content[j] == a.below[c].below[j].node
    ensures Cells(a.below[c].below[j]) <= Cells(a)
  {
    AtShows(a, t, c);
    AtShows(a.below[c], t.content[c], j);
    RootShows(a.below[c], t.content[c]);
    ChildCells(a, c);
    ChildCells(a.below[c], j);
  }

  lemma ThreeDown(a: Place, c: nat, j: nat, m: nat)
    requires c < |a.below| && j < |a.below[c].below| && m < |a.below[c].below[j].below|
    ensures Within(a, [c, j, m]) && At(a, [c, j, m]) == a.below[c].below[j].below[m]
  {
    assert [c] + [j] == [c, j] && [c, j] + [m] == [c, j, m];
    assert [c][1..] == [];
    AtBelow(a, [c], j);
    AtBelow(a, [c, j], m);
  }

  /** The containers of one list. */
  method CollectSection(podSpec: YamlNode, field: string, found: seq<RawContainer>, ghost a: Place, ghost t: Node,
      ghost cands: seq<Container>)
    returns (all: seq<RawContainer>)
    requires a.node == podSpec && Stored(a, t) && Collected(found, cands, a)
    ensures Collected(all, cands + Section(t, field), a)
  {
    hide Cells, Separate, Shows, Within, At, ImageIndex;
    all := found;
    assert allocated(Cells(a));
    var sequence := YamlMapValue(podSpec, field, a, t);
    assert Stored(a, t);
    RootShows(a, t);
    if sequence == null || !sequence.kind.Sequence? {
      assert Section(t, field) == [] && cands + [] == cands;
      return all;
    }
    ghost var c: nat := KeyIndex(t.content, field).value + 1;
    ghost var items, done := t.content[c].content, [];
    var j := 0;
    AtShows(a, t, c);
    RootShows(a.below[c], t.content[c]);
    while j < |sequence.content|
      invariant j <= |sequence.content| == |items| && Stored(a, t) && a.below[c].node == sequence
      invariant Section(t, field) == done + ContainersFrom(items, j, c)
      invariant Collected(all, cands + done, a)
    {
      ItemPlace(a, t, c, j);
      assert allocated(Cells(a)) && allocated(Cells(a.below[c].below[j]));
      var entry := ReadContainer(sequence.content[j], a.below[c].below[j], items[j]);
      if entry.Some? {
        ThreeDown(a, c, j, ImageIndex(items[j]));
        ghost var one := Container(entry.value.name, MapValue(items[j], "image").value.value, [c, j, ImageIndex(items[j])]);
        all := all + [entry.value];
        assert cands + (done + [one]) == (cands + done) + [one];
        done := done + [one];
      }
      AtShows(a, t, c);
      RootShows(a.below[c], t.content[c]);
      j := j + 1;
    }
    assert done + [] == done;
  }

  method RawContainerCandidates(podSpec: YamlNode, ghost a: Place, ghost t: Node) returns (all: seq<RawContainer>)
    requires a.node == podSpec && Stored(a, t)
    ensures Collected(all, Candidates(t), a)
  {
    hide Cells, Separate, Shows, Section;
    assert allocated(Cells(a));
    var main := CollectSection(podSpec, "containers", [], a, t, []);
    assert [] + Section(t, "containers") == Section(t, "containers");
    all := CollectSection(podSpec, "initContainers", main, a, t, Section(t, "containers"));
  }

  /** The nodes lie at the trails. */
  ghost predicate Lead(nodes: seq<YamlNode>, trails: seq<Trail>, a: Place) {
    && |nodes| == |trails|
    && forall k :: 0 <= k < |nodes| ==> Within(a, trails[k]) && nodes[k] == At(a, trails[k]).node
  }

  /** The loop that keeps the candidates fitting a rule. */
  method SelectBy(found: seq<RawContainer>, rule: Rule, ghost cands: seq<Container>, ghost a: Place, ghost t: Node)
    returns (selected: seq<YamlNode>)
    requires Collected(found, cands, a) && Stored(a, t)
    requires forall k :: 0 <= k < |cands| ==> InTree(t, cands[k].trail) && TreeAt(t, cands[k].trail).value == cands[k].image
    ensures Lead(selected, Pick(cands, rule), a)
  {
    hide Cells, Separate, Shows, Within, At, InTree, TreeAt;
    forall i | 0 <= i < |found| ensures found[i].image.value == cands[i].image {
      SplitShows(a, t, cands[i].trail);
      RootShows(At(a, cands[i].trail), TreeAt(t, cands[i].trail));
    }
    selected := SelectFitting(found, rule, cands, a);
  }

  lemma PickStep(cands: seq<Container>, k: nat, rule: Rule)
    requires k < |cands|
    ensures Pick(cands[k..], rule) == (if Fits(cands[k], rule) then [cands[k].trail] else []) + Pick(cands[k + 1..], rule)
  {
    assert cands[k..][0] == cands[k] && cands[k..][1..] == cands[k + 1..];
  }

  lemma PickEnds(cands: seq<Container>, rule: Rule)
    ensures Pick(cands[|cands|..], rule) == []
  {
  }

  method SelectFitting(found: seq<RawContainer>, rule: Rule, ghost cands: seq<Container>, ghost a: Place)
    returns (selected: seq<YamlNode>)
    requires Collected(found, cands, a)
    requires forall i :: 0 <= i < |found| ==> found[i].image.value == cands[i].image
    ensures Lead(selected, Pick(cands, rule), a)
  {
    hide Within, At, ImageRepository, Pick;
    selected := [];
    ghost var done := [];
    var k := 0;
    assert cands[0..] == cands && [] + Pick(cands, rule) == Pick(cands, rule);
    while k < |found|
      invariant k <= |found| && Lead(selected, done, a)
      invariant Pick(cands, rule) == done + Pick(cands[k..], rule)
    {
      PickStep(cands, k, rule);
      var fits := match rule
        case ByName(name) => found[k].name == name
        case ByRepository(repository) => ImageRepository(found[k].image.value) == repository;
      if fits {
        assert done + ([cands[k].trail] + Pick(cands[k + 1..], rule)) == (done + [cands[k].trail]) + Pick(cands[k + 1..], rule);
        selected := selected + [found[k].image];
        done := done + [cands[k].trail];
      } else {
        assert [] + Pick(cands[k + 1..], rule) == Pick(cands[k + 1..], rule);
      }
      k := k + 1;
    }
    PickEnds(cands, rule);
    assert done + [] == done;
  }

  method SelectContainers(found: seq<RawContainer>, container: string, repository: string,
      ghost cands: seq<Container>, ghost a: Place, ghost t: Node)
    returns (selected: seq<YamlNode>)
    requires Collected(found, cands, a) && Stored(a, t)
    requires forall k :: 0 <= k < |cands| ==> InTree(t, cands[k].trail) && TreeAt(t, cands[k].trail).value == cands[k].image
    ensures Lead(selected, Chosen(cands, container, repository), a)
  {
    if container != "" {
      selected := SelectBy(found, ByName(container), cands, a, t);
    } else {
      selected := SelectBy(found, ByRepository(repository), cands, a, t);
      if |selected| == 0 && |found| == 1 {
        selected := [found[0].image];
      }
    }
  }

  /** Points one selected container at the image, unless it runs it already. */
  method WriteImage(node: YamlNode, desired: string, ghost a: Place, ghost t: Node, ghost q: Trail) returns (changed: bool)
    requires Stored(a, t) && InTree(t, q) && Within(a, q) && At(a, q).node == node
    modifies Cells(a)
    ensures Stored(a, SetImage(t, q, desired))
    ensures changed <==> TreeAt(t, q).value != desired
  {
    hide Cells, Around, Shows, Separate, ShowsAround;
    SplitShows(a, t, q);
    SplitCells(a, q);
    RootShows(At(a, q), TreeAt(t, q));
    if node.value == desired {
      return false;
    }
    assert allocated(Around(a, q)) && allocated(Cells(At(a, q)));
    SetText(node, desired, At(a, q), TreeAt(t, q));
    PutBack(a, t, q, At(a, q), TreeAt(t, q).(tag := "!!str", value := desired));
    return true;
  }

  /** The loop over the selected candidates. */
  method WriteImages(selected: seq<YamlNode>, desired: string, ghost a: Place, ghost t: Node, ghost trails: seq<Trail>)
    returns (changed: bool)
    requires Stored(a, t) && Lead(selected, trails, a)
    requires forall k :: 0 <= k < |trails| ==> HasTrail(Candidates(t), trails[k]) && InTree(t, trails[k])
    modifies Cells(a)
    ensures Stored(a, Retarget(t, trails, desired))
    ensures changed ==> exists k :: 0 <= k < |trails| && TreeAt(t, trails[k]).value != desired
    ensures !changed ==> Retarget(t, trails, desired) == t
  {
    hide Cells, Shows, Separate, InTree, Candidates, Retarget, SetImage, Pointed;
    changed := false;
    ghost var tree := t;
    var k := 0;
    assert trails[0..] == trails;
    while k < |selected|
      invariant k <= |selected| && Stored(a, tree)
      invariant forall i :: 0 <= i < |trails| ==> HasTrail(Candidates(tree), trails[i])
      invariant Retarget(t, trails, desired) == Retarget(tree, trails[k..], desired)
      invariant changed ==> exists i :: 0 <= i < |trails| && TreeAt(t, trails[i]).value != desired
      invariant !changed ==> tree == t
    {
      EditedCandidates(tree, trails[k], desired);
      PointedKeepsTrails(Candidates(tree), [trails[k]], desired);
      RetargetStep(tree, trails[k..], desired);
      assert trails[k..][0] == trails[k] && trails[k..][1..] == trails[k + 1..];
      assert allocated(Cells(a));
      var wrote := WriteImage(selected[k], desired, a, tree, trails[k]);
      if !changed {
        assert wrote ==> TreeAt(t, trails[k]).value != desired;
        changed := wrote;
      }
      WroteNothing(tree, trails[k], desired);
      tree := SetImage(tree, trails[k], desired);
      k := k + 1;
    }
    RetargetStep(tree, trails[k..], desired);
  }

  lemma RetargetStep(podSpec: Node, trails: seq<Trail>, desired: string)
    requires forall k :: 0 <= k < |trails| ==> HasTrail(Candidates(podSpec), trails[k])
    ensures trails == [] ==> Retarget(podSpec, trails, desired) == podSpec
    ensures trails != [] ==>
      && InTree(podSpec, trails[0])
      && (forall k :: 0 <= k < |trails[1..]| ==> HasTrail(Candidates(SetImage(podSpec, trails[0], desired)), trails[1..][k]))
      && Retarget(podSpec, trails, desired) == Retarget(SetImage(podSpec, trails[0], desired), trails[1..], desired)
  {
    if trails != [] {
      EditedCandidates(podSpec, trails[0], desired);
      PointedKeepsTrails(Candidates(podSpec), [trails[0]], desired);
    }
  }

  lemma WroteNothing(podSpec: Node, q: Trail, desired: string)
    requires InTree(podSpec, q)
    ensures TreeAt(podSpec, q).value == desired ==> SetImage(podSpec, q, desired) == podSpec
  {
  }

  /** The kind and name tests in front. */
  method AddressedKind(root: YamlNode, selector: Selector, ghost a: Place, ghost t: Node) returns (kind: Option<string>)
    requires a.node == root && Stored(a, t)
    ensures kind.Some? <==> Addressed(t, selector)
    ensures kind.Some? ==> kind.value == MapValue(t, "kind").value.value
  {
    hide Cells, Separate, Shows, KeyIndex;
    assert allocated(Cells(a));
    var kindNode := YamlMapValue(root, "kind", a, t);
    assert Stored(a, t);
    RootShows(a, t);
    if kindNode == null {
      return None;
    }
    ValueShows(a, t, "kind");
    if !Supported(kindNode.value) || (selector.kind != "" && kindNode.value != selector.kind) {
      return None;
    }
    var nameNode := null;
    var metadata := YamlMapValue(root, "metadata", a, t);
    assert Stored(a, t);
    if metadata != null {
      ValueShows(a, t, "metadata");
      ghost var m: nat := KeyIndex(t.content, "metadata").value + 1;
      assert allocated(Cells(a)) && allocated(Cells(a.below[m]));
      nameNode := YamlMapValue(metadata, "name", a.below[m], t.content[m]);
      assert Stored(a, t) && Stored(a.below[m], t.content[m]);
      if nameNode != null { ValueShows(a.below[m], t.content[m], "name"); }
    }
    ValueShows(a, t, "kind");
    if selector.name != "" && (nameNode == null || nameNode.value != selector.name) {
      return None;
    }
    return Some(kindNode.value);
  }

  lemma ValueShows(a: Place, t: Node, key: string)
    requires Stored(a, t) && KeyIndex(t.content, key).Some?
    ensures var i := KeyIndex(t.content, key).value + 1;
      && i < |a.below| && a.below[i].node.value == t.content[i].value && a.below[i].node.kind == t.content[i].kind
      && Stored(a.below[i], t.content[i])
  {
    var i := KeyIndex(t.content, key).value + 1;
    AtShows(a, t, i);
    RootShows(a.below[i], t.content[i]);
    ChildCells(a, i);
  }

  /** updateRawWorkloadNode */
  method UpdateRawWorkloadNode(root: YamlNode, image: Image, selector: Selector, ghost a: Place, ghost t: Node)
    returns (result: Result<(bool, bool), RawError>)
    requires a.node == root && Stored(a, t)
    modifies Cells(a)
    ensures UpdateWorkload(t, image, selector).Err? ==> result == Err(UpdateWorkload(t, image, selector).error) && Stored(a, t)
    ensures UpdateWorkload(t, image, selector).Ok? ==>
      && result == Ok((UpdateWorkload(t, image, selector).value.1, UpdateWorkload(t, image, selector).value.2))
      && Stored(a, UpdateWorkload(t, image, selector).value.0)
  {
    hide Cells, Separate, Shows, TrailOf, Addressed, ImageString, ImageRepository;
    assert allocated(Cells(a));
    var kind := AddressedKind(root, selector, a, t);
    assert Stored(a, t);
    if kind.None? {
      return Ok((false, false));
    }
    var podSpec := YamlNodeAt(root, SpecPath(kind.value), a, t);
    assert Stored(a, t);
    if podSpec == null || !podSpec.kind.Mapping? {
      return Err(NoPodTemplate);
    }
    ghost var q := PodSpec(t, selector).value;
    var matched, changed := UpdateContainers(podSpec, image, selector, a, t, q);
    return Ok((matched, changed));
  }

  /** From the pod template's spec on: collect, select, write. */
  method UpdateContainers(podSpec: YamlNode, image: Image, selector: Selector, ghost a: Place, ghost t: Node, ghost q: Trail)
    returns (matched: bool, changed: bool)
    requires Stored(a, t) && InTree(t, q) && Within(a, q) && At(a, q).node == podSpec
    requires Addressed(t, selector) && PodSpec(t, selector) == Some(q)
    modifies Cells(a)
    ensures UpdateWorkload(t, image, selector).Ok?
    ensures Stored(a, UpdateWorkload(t, image, selector).value.0)
    ensures (matched, changed) == (UpdateWorkload(t, image, selector).value.1, UpdateWorkload(t, image, selector).value.2)
  {
    hide Cells, Around, Separate, Shows, ShowsAround, Addressed, PodSpec, Candidates, Chosen, ImageString, ImageRepository;
    SplitShows(a, t, q);
    SplitCells(a, q);
    ghost var here, spec := At(a, q), TreeAt(t, q);
    ghost var cands := Candidates(spec);
    ghost var chosen := Chosen(cands, selector.container, image.repository);
    assert allocated(Around(a, q)) && allocated(Cells(here)) && allocated(Cells(a));
    CandidatesAreDetermined(spec);
    ChosenAreCandidates(cands, selector.container, image.repository);
    var found := RawContainerCandidates(podSpec, here, spec);
    assert Stored(here, spec) && Stored(a, t) && ShowsAround(a, t, q);
    var selected := SelectContainers(found, selector.container, image.repository, cands, here, spec);
    assert Stored(here, spec) && Stored(a, t) && ShowsAround(a, t, q);
    if |selected| == 0 {
      return false, false;
    }
    changed := WriteImages(selected, ImageString(image), here, spec, chosen);
    PutBack(a, t, q, here, Retarget(spec, chosen, ImageString(image)));
    ChangedAgrees(t, image, selector, changed);
    return true, changed;
  }

  lemma ChangedAgrees(t: Node, image: Image, selector: Selector, changed: bool)
    requires Matched(t, selector, image.repository)
    requires var q := PodSpec(t, selector).value;
      var spec := TreeAt(t, q);
      var chosen := Chosen(Candidates(spec), selector.container, image.repository);
      && (forall k :: 0 <= k < |chosen| ==> HasTrail(Candidates(spec), chosen[k]) && InTree(spec, chosen[k]))
      && (changed ==> exists k :: 0 <= k < |chosen| && TreeAt(spec, chosen[k]).value != ImageString(image))
      && (!changed ==> Retarget(spec, chosen, ImageString(image)) == spec)
    ensures UpdateWorkload(t, image, selector).Ok? && UpdateWorkload(t, image, selector).value.2 == changed
  {
    hide ImageString, ImageRepository, Candidates, Retarget;
    var q := PodSpec(t, selector).value;
    var spec := TreeAt(t, q);
    var cands := Candidates(spec);
    var chosen := Chosen(cands, selector.container, image.repository);
    UpdatedContainers(t, image, selector);
    CandidatesAreDetermined(spec);
    if changed {
      var k :| 0 <= k < |chosen| && TreeAt(spec, chosen[k]).value != ImageString(image);
      var j :| 0 <= j < |cands| && cands[j].trail == chosen[k];
      assert cands[j].trail in chosen;
      assert Stale(cands, chosen, ImageString(image));
    } else {
      GraftAt(t, q, spec);
    }
  }
}
