/** The raw manifest image update (internal/gitops/provider.go). */
module RawWorkload {
  import opened Wrappers
  import opened YamlTree
  import opened YamlTrail
  import opened ImageRef

  /*
   updateRawWorkloadNode, rawContainerCandidates and updateRawYAMLConfigured: find the workload's containers, choose some,
   point them at the release's image.
   */

  /** Which workload and container are meant; an empty field means any. */
  datatype Selector = Selector(kind: string, name: string, container: string)

  datatype RawError = NoPodTemplate | NoMatch

  /** rawContainer: where its image scalar is, and what it says. */
  datatype Container = Container(name: string, image: string, trail: Trail)

  /** Where yamlNodeAt arrives. */
  function TrailOf(node: Node, path: seq<string>): (r: Option<Trail>)
    ensures r.Some? ==> InTree(node, r.value)
  {
    if path == [] then Some([])
    else if !node.kind.Mapping? || KeyIndex(node.content, path[0]).None? then None
    else
      var i := KeyIndex(node.content, path[0]).value + 1;
      var rest := TrailOf(node.content[i], path[1..]);
      if rest.None? then None else Some([i] + rest.value)
  }

  predicate IsContainer(item: Node) {
    && MapValue(item, "name").Some? && MapValue(item, "image").Some?
    && MapValue(item, "image").value.kind.Scalar?
  }

  function ImageIndex(item: Node): nat
    requires IsContainer(item)
  {
    KeyIndex(item.content, "image").value + 1
  }

  function ContainersFrom(items: seq<Node>, j: nat, above: nat): seq<Container>
    decreases |items| - j
  {
    if j >= |items| then []
    else if !IsContainer(items[j]) then ContainersFrom(items, j + 1, above)
    else
      [Container(MapValue(items[j], "name").value.value, MapValue(items[j], "image").value.value, [above, j, ImageIndex(items[j])])]
      + ContainersFrom(items, j + 1, above)
  }

  function Section(podSpec: Node, field: string): seq<Container> {
    var i := KeyIndex(podSpec.content, field);
    if !podSpec.kind.Mapping? || i.None? || !podSpec.content[i.value + 1].kind.Sequence? then []
    else ContainersFrom(podSpec.content[i.value + 1].content, 0, i.value + 1)
  }

  /** rawContainerCandidates */
  function Candidates(podSpec: Node): seq<Container> {
    Section(podSpec, "containers") + Section(podSpec, "initContainers")
  }

  datatype Rule = ByName(name: string) | ByRepository(repository: string)

  predicate Fits(c: Container, rule: Rule) {
    match rule
    case ByName(name) => c.name == name
    case ByRepository(repository) => ImageRepository(c.image) == repository
  }

  function Pick(cands: seq<Container>, rule: Rule): seq<Trail> {
    if cands == [] then []
    else (if Fits(cands[0], rule) then [cands[0].trail] else []) + Pick(cands[1..], rule)
  }

  /** The named containers; or those on the image's repository; or the only one there is. */
  function Chosen(cands: seq<Container>, container: string, repository: string): seq<Trail> {
    if container != "" then Pick(cands, ByName(container))
    else
      var matching := Pick(cands, ByRepository(repository));
      if matching == [] && |cands| == 1 then [cands[0].trail] else matching
  }

  function SetImage(podSpec: Node, trail: Trail, desired: string): Node
    requires InTree(podSpec, trail)
  {
    var leaf := TreeAt(podSpec, trail);
    if leaf.value == desired then podSpec else Graft(podSpec, trail, leaf.(value := desired, tag := "!!str"))
  }

  function Pointed(cands: seq<Container>, trails: seq<Trail>, desired: string): seq<Container> {
    seq(|cands|, k requires 0 <= k < |cands| => if cands[k].trail in trails then cands[k].(image := desired) else cands[k])
  }

  // ---- One edit, seen from the list of containers ----

  lemma {:induction false} ContainersInTree(items: seq<Node>, j: nat, above: nat, k: nat)
    requires k < |ContainersFrom(items, j, above)|
    ensures var c := ContainersFrom(items, j, above)[k];
      && |c.trail| == 3 && c.trail[0] == above && j <= c.trail[1] < |items|
      && IsContainer(items[c.trail[1]]) && c.trail[2] == ImageIndex(items[c.trail[1]])
      && c.image == items[c.trail[1]].content[c.trail[2]].value
      && c.name == MapValue(items[c.trail[1]], "name").value.value
    decreases |items| - j
  {
    if j >= |items| {
    } else {
      if !IsContainer(items[j]) { ContainersInTree(items, j + 1, above, k); }
      else if k > 0 { ContainersInTree(items, j + 1, above, k - 1); }
    }
  }

  /** An item whose image scalar was edited is the same container with another image. */
  lemma EditedItem(item: Node, desired: string)
    requires IsContainer(item)
    ensures var m := ImageIndex(item);
      var item' := item.(content := item.content[m := item.content[m].(value := desired, tag := "!!str")]);
      && IsContainer(item') && ImageIndex(item') == m
      && MapValue(item', "name").value.value == MapValue(item, "name").value.value
      && MapValue(item', "image").value.value == desired
  {
    var i := KeyIndex(item.content, "image").value;
    var leaf := item.content[i + 1].(value := desired, tag := "!!str");
    KeyIndexUpdate(item.content, i, leaf, "image");
    KeyIndexUpdate(item.content, i, leaf, "name");
    assert "image" != "name";
  }

  lemma {:induction false} EditedItems(items: seq<Node>, j: nat, above: nat, i: nat, desired: string)
    requires i < |items| && IsContainer(items[i])
    ensures var m := ImageIndex(items[i]);
      var item' := items[i].(content := items[i].content[m := items[i].content[m].(value := desired, tag := "!!str")]);
      ContainersFrom(items[i := item'], j, above) == Pointed(ContainersFrom(items, j, above), [[above, i, m]], desired)
    decreases |items| - j
  {
    hide KeyIndex;
    if j >= |items| {
    } else {
      EditedItems(items, j + 1, above, i, desired);
      EditedItem(items[i], desired);
    }
  }

  lemma ThreeDeep(t: Node, c: nat, i: nat, m: nat, u: Node)
    requires c < |t.content| && i < |t.content[c].content| && m < |t.content[c].content[i].content|
    ensures InTree(t, [c, i, m]) && TreeAt(t, [c, i, m]) == t.content[c].content[i].content[m]
    ensures var item := t.content[c].content[i];
      Graft(t, [c, i, m], u) == t.(content := t.content[c :=
        t.content[c].(content := t.content[c].content[i := item.(content := item.content[m := u])])])
  {
    OneDeep(t.content[c].content[i], m, u);
    OneDeep(t.content[c], i, Graft(t.content[c].content[i], [m], u));
    assert [c] + [i] == [c, i] && [c, i] + [m] == [c, i, m] && [c, i, m] == [c] + [i, m] && [i, m] == [i] + [m];
    OneDeep(t, c, t);
    TrailSum(t.content[c], [i], [m]);
    TrailSum(t, [c], [i, m]);
    OneDeep(t, c, Graft(t.content[c], [i, m], u));
  }

  lemma OneDeep(t: Node, i: nat, u: Node)
    requires i < |t.content|
    ensures InTree(t, [i]) && TreeAt(t, [i]) == t.content[i] && Graft(t, [i], u) == t.(content := t.content[i := u])
  {
  }

  /** The container list's k-th entry is an image scalar of the tree. */
  lemma SectionInTree(podSpec: Node, field: string, k: nat)
    requires k < |Section(podSpec, field)|
    ensures var c := Section(podSpec, field)[k];
      && |c.trail| == 3 && InTree(podSpec, c.trail)
      && podSpec.kind.Mapping? && KeyIndex(podSpec.content, field).Some?
      && c.trail[0] == KeyIndex(podSpec.content, field).value + 1
      && podSpec.content[c.trail[0]].kind.Sequence? && c.trail[1] < |podSpec.content[c.trail[0]].content|
      && IsContainer(podSpec.content[c.trail[0]].content[c.trail[1]])
      && c.trail[2] == ImageIndex(podSpec.content[c.trail[0]].content[c.trail[1]])
      && TreeAt(podSpec, c.trail).value == c.image
      && c.name == MapValue(podSpec.content[c.trail[0]].content[c.trail[1]], "name").value.value
  {
    var i := KeyIndex(podSpec.content, field).value + 1;
    ContainersInTree(podSpec.content[i].content, 0, i, k);
    hide ContainersFrom, Graft;
    var q := Section(podSpec, field)[k].trail;
    assert q == [q[0], q[1], q[2]];
    ThreeDeep(podSpec, q[0], q[1], q[2], podSpec);
  }

  lemma EditedSection(podSpec: Node, from: string, k: nat, field: string, desired: string)
    requires k < |Section(podSpec, from)|
    ensures var q := Section(podSpec, from)[k].trail;
      && InTree(podSpec, q) && SetImage(podSpec, q, desired).kind == podSpec.kind
      && Section(SetImage(podSpec, q, desired), field) == Pointed(Section(podSpec, field), [q], desired)
  {
    hide KeyIndex, ContainersFrom, Graft, TreeAt, InTree;
    SectionInTree(podSpec, from, k);
    var q := Section(podSpec, from)[k].trail;
    var c, i, m := q[0], q[1], q[2];
    assert q == [c, i, m];
    var leaf := TreeAt(podSpec, q);
    var image := leaf.(value := desired, tag := "!!str");
    ThreeDeep(podSpec, c, i, m, image);
    KeyIndexUpdate(podSpec.content, c - 1, Graft(podSpec, q, image).content[c], field);
    forall j | 0 <= j < |Section(podSpec, field)|
      ensures Section(podSpec, field)[j].trail == q ==> Section(podSpec, field)[j].image == leaf.value
      ensures Section(podSpec, field)[j].trail == q ==> KeyIndex(podSpec.content, field) == Some(c - 1)
    {
      SectionInTree(podSpec, field, j);
    }
    if leaf.value == desired {
      assert Pointed(Section(podSpec, field), [q], desired) == Section(podSpec, field);
    } else if KeyIndex(podSpec.content, field) == Some(c - 1) {
      EditedItems(podSpec.content[c].content, 0, c, i, desired);
      hide Pointed;
    } else {
      assert Pointed(Section(podSpec, field), [q], desired) == Section(podSpec, field);
    }
  }

  ghost predicate HasTrail(cands: seq<Container>, q: Trail) {
    exists k :: 0 <= k < |cands| && cands[k].trail == q
  }

  /** Editing one candidate's image keeps the list of candidates, but for that image. */
  lemma EditedCandidates(podSpec: Node, q: Trail, desired: string)
    requires HasTrail(Candidates(podSpec), q)
    ensures InTree(podSpec, q) && SetImage(podSpec, q, desired).kind == podSpec.kind
    ensures Candidates(SetImage(podSpec, q, desired)) == Pointed(Candidates(podSpec), [q], desired)
  {
    hide Section, SetImage, InTree;
    var main := Section(podSpec, "containers");
    var k :| 0 <= k < |Candidates(podSpec)| && Candidates(podSpec)[k].trail == q;
    var from, at := if k < |main| then "containers" else "initContainers", if k < |main| then k else k - |main|;
    EditedSection(podSpec, from, at, "containers", desired);
    EditedSection(podSpec, from, at, "initContainers", desired);
  }

  /** The loop over the selected candidates. */
  function Retarget(podSpec: Node, trails: seq<Trail>, desired: string): Node
    requires forall k :: 0 <= k < |trails| ==> HasTrail(Candidates(podSpec), trails[k])
    decreases |trails|
  {
    if trails == [] then podSpec
    else
      EditedCandidates(podSpec, trails[0], desired);
      PointedKeepsTrails(Candidates(podSpec), [trails[0]], desired);
      assert forall k :: 0 <= k < |trails| - 1 ==> trails[1..][k] == trails[k + 1];
      Retarget(SetImage(podSpec, trails[0], desired), trails[1..], desired)
  }

  lemma PointedKeepsTrails(cands: seq<Container>, trails: seq<Trail>, desired: string)
    ensures forall q :: HasTrail(cands, q) <==> HasTrail(Pointed(cands, trails, desired), q)
  {
    var after := Pointed(cands, trails, desired);
    forall q ensures HasTrail(cands, q) <==> HasTrail(after, q) {
      if HasTrail(cands, q) {
        var k :| 0 <= k < |cands| && cands[k].trail == q;
        assert after[k].trail == q;
      }
      if HasTrail(after, q) {
        var k :| 0 <= k < |after| && after[k].trail == q;
        assert cands[k].trail == q;
      }
    }
  }

  lemma {:induction false} RetargetedCandidates(podSpec: Node, trails: seq<Trail>, desired: string)
    requires forall k :: 0 <= k < |trails| ==> HasTrail(Candidates(podSpec), trails[k])
    ensures Candidates(Retarget(podSpec, trails, desired)) == Pointed(Candidates(podSpec), trails, desired)
    ensures Retarget(podSpec, trails, desired).kind == podSpec.kind
    decreases |trails|
  {
    if trails != [] {
      EditedCandidates(podSpec, trails[0], desired);
      PointedKeepsTrails(Candidates(podSpec), [trails[0]], desired);
      assert forall k :: 0 <= k < |trails| - 1 ==> trails[1..][k] == trails[k + 1];
      RetargetedCandidates(SetImage(podSpec, trails[0], desired), trails[1..], desired);
      assert forall q :: q in trails <==> q == trails[0] || q in trails[1..];
    } else {
      assert Pointed(Candidates(podSpec), [], desired) == Candidates(podSpec);
    }
  }

  lemma {:induction false} TrailOfIsLookup(node: Node, path: seq<string>)
    ensures Lookup(node, path) == var q := TrailOf(node, path); if q.None? then None else Some(TreeAt(node, q.value))
    decreases |path|
  {
    if path != [] && MapValue(node, path[0]).Some? {
      TrailOfIsLookup(MapValue(node, path[0]).value, path[1..]);
    }
  }

  /** Whatever is put at the end of a path, the path still leads there. */
  lemma {:induction false} TrailOfGraft(node: Node, path: seq<string>, u: Node)
    requires TrailOf(node, path).Some?
    ensures TrailOf(Graft(node, TrailOf(node, path).value, u), path) == TrailOf(node, path)
    decreases |path|
  {
    if path == [] {
    } else {
      var i := KeyIndex(node.content, path[0]).value;
      var child := node.content[i + 1];
      var rest := TrailOf(child, path[1..]).value;
      assert TrailOf(node, path).value[1..] == rest;
      TrailOfGraft(child, path[1..], u);
      KeyIndexUpdate(node.content, i, Graft(child, rest, u), path[0]);
    }
  }

  lemma GraftKeepsOtherKeys(node: Node, path: seq<string>, u: Node, key: string)
    requires TrailOf(node, path).Some? && path != [] && key != path[0]
    ensures var after := Graft(node, TrailOf(node, path).value, u);
      after.kind == node.kind && MapValue(after, key) == MapValue(node, key)
  {
    var i := KeyIndex(node.content, path[0]).value;
    var q := TrailOf(node, path).value;
    KeyIndexUpdate(node.content, i, Graft(node.content[i + 1], q[1..], u), key);
  }

  // ---- The update of one document ----

  predicate Supported(kind: string) {
    kind == "Deployment" || kind == "StatefulSet" || kind == "DaemonSet" || kind == "CronJob"
  }

  function TextAt(node: Option<Node>, key: string): Option<string> {
    if node.None? || MapValue(node.value, key).None? then None else Some(MapValue(node.value, key).value.value)
  }

  predicate Addressed(root: Node, selector: Selector) {
    && root.kind.Mapping?
    && var kind := TextAt(Some(root), "kind");
    && kind.Some? && Supported(kind.value) && (selector.kind == "" || kind.value == selector.kind)
    && (selector.name == "" || TextAt(MapValue(root, "metadata"), "name") == Some(selector.name))
  }

  function SpecPath(kind: string): seq<string> {
    if kind == "CronJob" then ["spec", "jobTemplate", "spec", "template", "spec"] else ["spec", "template", "spec"]
  }

  /** Some chosen container does not have the desired image yet. */
  predicate Stale(cands: seq<Container>, chosen: seq<Trail>, desired: string) {
    exists k :: 0 <= k < |cands| && cands[k].trail in chosen && cands[k].image != desired
  }

  function PodSpec(root: Node, selector: Selector): Option<Trail>
    requires Addressed(root, selector)
    ensures PodSpec(root, selector).Some? ==> InTree(root, PodSpec(root, selector).value)
  {
    var q := TrailOf(root, SpecPath(MapValue(root, "kind").value.value));
    if q.Some? && TreeAt(root, q.value).kind.Mapping? then q else None
  }

  /** updateRawWorkloadNode: the updated document, whether a container matched, and whether anything changed. */
  function UpdateWorkload(root: Node, image: Image, selector: Selector): Result<(Node, bool, bool), RawError> {
    if !Addressed(root, selector) then Ok((root, false, false))
    else if PodSpec(root, selector).None? then Err(NoPodTemplate)
    else
      var q := PodSpec(root, selector).value;
      var cands := Candidates(TreeAt(root, q));
      var chosen := Chosen(cands, selector.container, image.repository);
      ChosenAreCandidates(cands, selector.container, image.repository);
      if chosen == [] then Ok((root, false, false))
      else
        Ok((Graft(root, q, Retarget(TreeAt(root, q), chosen, ImageString(image))), true, Stale(cands, chosen, ImageString(image))))
  }

  lemma {:induction false} PickIs(cands: seq<Container>, rule: Rule)
    ensures forall q :: q in Pick(cands, rule) <==> exists k :: 0 <= k < |cands| && cands[k].trail == q && Fits(cands[k], rule)
  {
    if cands == [] {
    } else {
      PickIs(cands[1..], rule);
      var rest := cands[1..];
      forall q ensures q in Pick(cands, rule) <==> exists k :: 0 <= k < |cands| && cands[k].trail == q && Fits(cands[k], rule) {
        if k :| 0 <= k < |cands| && cands[k].trail == q && Fits(cands[k], rule) {
          assert k > 0 ==> rest[k - 1] == cands[k];
        }
        if q in Pick(rest, rule) {
          var k :| 0 <= k < |rest| && rest[k].trail == q && Fits(rest[k], rule);
          assert cands[k + 1].trail == q && Fits(cands[k + 1], rule);
        }
      }
    }
  }

  lemma ChosenAreCandidates(cands: seq<Container>, container: string, repository: string)
    ensures forall k :: 0 <= k < |Chosen(cands, container, repository)| ==> HasTrail(cands, Chosen(cands, container, repository)[k])
  {
    var chosen := Chosen(cands, container, repository);
    PickIs(cands, if container != "" then ByName(container) else ByRepository(repository));
    forall k | 0 <= k < |chosen| ensures HasTrail(cands, chosen[k]) {
      assert chosen[k] in chosen;
    }
  }

  /** Entries at the same place in the tree show the same image. */
  ghost predicate Determined(cands: seq<Container>) {
    forall j, k :: 0 <= j < |cands| && 0 <= k < |cands| && cands[j].trail == cands[k].trail ==> cands[j] == cands[k]
  }

  lemma {:induction false} PickAgain(cands: seq<Container>, after: seq<Container>, rule: Rule)
    requires |after| == |cands| && forall k :: 0 <= k < |cands| ==> after[k].trail == cands[k].trail
    ensures (forall k :: 0 <= k < |cands| ==> (Fits(after[k], rule) <==> Fits(cands[k], rule)))
      ==> Pick(after, rule) == Pick(cands, rule)
    ensures (forall k :: 0 <= k < |cands| ==> !Fits(after[k], rule)) ==> Pick(after, rule) == []
  {
    if cands == [] {
    } else {
      PickAgain(cands[1..], after[1..], rule);
    }
  }

  /** When the containers a run selects are the ones the next run selects. */
  predicate Sticks(cands: seq<Container>, container: string, image: Image) {
    container != "" || |cands| == 1 || RoundTrips(image)
  }

  lemma PickedAgain(cands: seq<Container>, rule: Rule, desired: string)
    requires Determined(cands)
    ensures var after := Pointed(cands, Pick(cands, rule), desired);
      Pick(after, rule) == if rule.ByName? || ImageRepository(desired) == rule.repository then Pick(cands, rule) else []
  {
    hide ImageRepository;
    var chosen := Pick(cands, rule);
    PickIs(cands, rule);
    PickAgain(cands, Pointed(cands, chosen, desired), rule);
    forall k | 0 <= k < |cands| ensures Fits(cands[k], rule) <==> cands[k].trail in chosen {
      if cands[k].trail in chosen {
        var j :| 0 <= j < |cands| && cands[j].trail == cands[k].trail && Fits(cands[j], rule);
        assert cands[j] == cands[k];
      }
    }
  }

  lemma PointedIsNotStale(cands: seq<Container>, trails: seq<Trail>, desired: string)
    ensures !Stale(Pointed(cands, trails, desired), trails, desired)
  {
  }

  /** The only container there is, chosen for that or for its repository. */
  lemma OneChosenAgain(cands: seq<Container>, image: Image)
    requires |cands| == 1
    ensures Chosen(cands, "", image.repository) == [cands[0].trail]
  {
    hide ImageRepository;
    assert cands[1..] == [];
    assert Pick(cands[1..], ByRepository(image.repository)) == [];
  }

  /** After the selected containers got the new image, a second selection finds the same ones, or none at all. */
  lemma ChosenAgain(cands: seq<Container>, container: string, image: Image)
    requires Determined(cands)
    ensures var chosen := Chosen(cands, container, image.repository);
      var after := Pointed(cands, chosen, ImageString(image));
      && Chosen(after, container, image.repository) == (if Sticks(cands, container, image) then chosen else [])
      && !Stale(after, chosen, ImageString(image))
  {
    RepositoryRoundTripIff(image);
    hide ImageRepository, ImageString, RoundTrips, Pick, Stale;
    var chosen := Chosen(cands, container, image.repository);
    var after := Pointed(cands, chosen, ImageString(image));
    PointedIsNotStale(cands, chosen, ImageString(image));
    if container == "" && |cands| == 1 {
      OneChosenAgain(cands, image);
      OneChosenAgain(after, image);
    } else {
      var rule := if container != "" then ByName(container) else ByRepository(image.repository);
      hide Pointed;
      PickedAgain(cands, rule, ImageString(image));
      assert chosen == Pick(cands, rule);
      PointedLength(cands, chosen, ImageString(image));
    }
  }

  lemma PointedLength(cands: seq<Container>, trails: seq<Trail>, desired: string)
    ensures |Pointed(cands, trails, desired)| == |cands|
  {
  }

  lemma CandidatesAreDetermined(podSpec: Node)
    ensures Determined(Candidates(podSpec))
    ensures forall k :: 0 <= k < |Candidates(podSpec)| ==>
      var c := Candidates(podSpec)[k]; InTree(podSpec, c.trail) && TreeAt(podSpec, c.trail).value == c.image
  {
    var main := Section(podSpec, "containers");
    forall k | 0 <= k < |Candidates(podSpec)|
      ensures var c := Candidates(podSpec)[k];
        && |c.trail| == 3 && InTree(podSpec, c.trail) && TreeAt(podSpec, c.trail).value == c.image
        && c.trail[0] < |podSpec.content| && c.trail[1] < |podSpec.content[c.trail[0]].content|
        && Some(c.name) == TextAt(Some(podSpec.content[c.trail[0]].content[c.trail[1]]), "name")
    {
      if k < |main| {
        SectionInTree(podSpec, "containers", k);
      } else {
        SectionInTree(podSpec, "initContainers", k - |main|);
      }
    }
  }

  lemma {:induction false} NothingToRetarget(podSpec: Node, trails: seq<Trail>, desired: string)
    requires forall k :: 0 <= k < |trails| ==> HasTrail(Candidates(podSpec), trails[k])
    requires forall k :: 0 <= k < |trails| && InTree(podSpec, trails[k]) ==> TreeAt(podSpec, trails[k]).value == desired
    ensures Retarget(podSpec, trails, desired) == podSpec
    decreases |trails|
  {
    if trails == [] {
    } else {
      EditedCandidates(podSpec, trails[0], desired);
      assert SetImage(podSpec, trails[0], desired) == podSpec;
      forall k | 0 <= k < |trails| - 1 ensures trails[1..][k] == trails[k + 1] {}
      NothingToRetarget(podSpec, trails[1..], desired);
    }
  }

  /** A workload's containers were found at q and some were chosen. */
  predicate Matched(root: Node, selector: Selector, repository: string) {
    Addressed(root, selector) && PodSpec(root, selector).Some? &&
    Chosen(Candidates(TreeAt(root, PodSpec(root, selector).value)), selector.container, repository) != []
  }

  /** Exactly the chosen containers now have the image; the rest of the document is as it was. */
  lemma UpdatedContainers(root: Node, image: Image, selector: Selector)
    requires Matched(root, selector, image.repository)
    ensures UpdateWorkload(root, image, selector).Ok? && UpdateWorkload(root, image, selector).value.1
    ensures var (after, _, changed) := UpdateWorkload(root, image, selector).value;
      var q := PodSpec(root, selector).value;
      var cands := Candidates(TreeAt(root, q));
      var chosen := Chosen(cands, selector.container, image.repository);
      && (changed <==> after != root)
      && Addressed(after, selector) && PodSpec(after, selector) == Some(q)
      && Candidates(TreeAt(after, q)) == Pointed(cands, chosen, ImageString(image))
  {
    var q := PodSpec(root, selector).value;
    var podSpec := TreeAt(root, q);
    var cands := Candidates(podSpec);
    var chosen := Chosen(cands, selector.container, image.repository);
    var desired := ImageString(image);
    ChosenAreCandidates(cands, selector.container, image.repository);
    CandidatesAreDetermined(podSpec);
    RetargetedCandidates(podSpec, chosen, desired);
    var podSpec' := Retarget(podSpec, chosen, desired);
    GraftAt(root, q, podSpec');
    PathStays(root, selector, podSpec');
    if Stale(cands, chosen, desired) {
      assert Pointed(cands, chosen, desired) != cands by {
        var k :| 0 <= k < |cands| && cands[k].trail in chosen && cands[k].image != desired;
        assert Pointed(cands, chosen, desired)[k] != cands[k];
      }
    } else {
      forall k | 0 <= k < |chosen| && InTree(podSpec, chosen[k]) ensures TreeAt(podSpec, chosen[k]).value == desired {
        var j :| 0 <= j < |cands| && cands[j].trail == chosen[k];
      }
      NothingToRetarget(podSpec, chosen, desired);
    }
  }

  /** Editing inside the pod template's spec does not change which workload the document is, nor where its spec is. */
  lemma PathStays(root: Node, selector: Selector, u: Node)
    requires Addressed(root, selector) && PodSpec(root, selector).Some? && u.kind.Mapping?
    ensures var after := Graft(root, PodSpec(root, selector).value, u);
      Addressed(after, selector) && PodSpec(after, selector) == PodSpec(root, selector)
  {
    var path := SpecPath(MapValue(root, "kind").value.value);
    var q := PodSpec(root, selector).value;
    assert "spec" != "kind" && "spec" != "metadata";
    TrailOfGraft(root, path, u);
    GraftKeepsOtherKeys(root, path, u, "kind");
    GraftKeepsOtherKeys(root, path, u, "metadata");
    GraftAt(root, q, u);
  }

  predicate Rematches(root: Node, image: Image, selector: Selector) {
    Matched(root, selector, image.repository) &&
    Sticks(Candidates(TreeAt(root, PodSpec(root, selector).value)), selector.container, image)
  }

  /** A second update never changes the document, and still matches exactly when the choice of containers sticks. */
  lemma SecondUpdate(root: Node, image: Image, selector: Selector)
    requires UpdateWorkload(root, image, selector).Ok?
    ensures var once := UpdateWorkload(root, image, selector).value.0;
      UpdateWorkload(once, image, selector) == Ok((once, Rematches(root, image, selector), false))
  {
    hide ImageString, ImageRepository, RoundTrips;
    if Matched(root, selector, image.repository) {
      var once := UpdateWorkload(root, image, selector).value.0;
      var q := PodSpec(root, selector).value;
      var cands := Candidates(TreeAt(root, q));
      var chosen := Chosen(cands, selector.container, image.repository);
      UpdatedContainers(root, image, selector);
      CandidatesAreDetermined(TreeAt(root, q));
      ChosenAgain(cands, selector.container, image);
      if Rematches(root, image, selector) {
        UpdatedContainers(once, image, selector);
      }
    }
  }

  /** The document's chosen containers all run the image. */
  predicate RunsImage(root: Node, image: Image, selector: Selector) {
    Matched(root, selector, image.repository) &&
    var cands := Candidates(TreeAt(root, PodSpec(root, selector).value));
    !Stale(cands, Chosen(cands, selector.container, image.repository), ImageString(image))
  }

  // ---- All documents of the selected files ----

  /** The documents in order; the first error stops the run, and nothing is then committed. */
  function UpdateDocuments(docs: seq<Node>, image: Image, selector: Selector): Result<(seq<Node>, bool, bool), RawError> {
    if docs == [] then Ok(([], false, false))
    else
      match UpdateWorkload(docs[0], image, selector)
      case Err(e) => Err(e)
      case Ok((doc, matched, changed)) =>
        match UpdateDocuments(docs[1..], image, selector)
        case Err(e) => Err(e)
        case Ok((rest, m, c)) => Ok(([doc] + rest, matched || m, changed || c))
  }

  /** updateRawYAMLConfigured: some container of some document must match. */
  function UpdateRaw(docs: seq<Node>, image: Image, selector: Selector): Result<(seq<Node>, bool), RawError> {
    match UpdateDocuments(docs, image, selector)
    case Err(e) => Err(e)
    case Ok((after, matched, changed)) => if matched then Ok((after, changed)) else Err(NoMatch)
  }

  lemma {:induction false} DocumentsTwice(docs: seq<Node>, image: Image, selector: Selector)
    requires UpdateDocuments(docs, image, selector).Ok?
    ensures var (once, matched, changed) := UpdateDocuments(docs, image, selector).value;
      && |once| == |docs| && (changed <==> once != docs)
      && (matched <==> exists i :: 0 <= i < |docs| && Matched(docs[i], selector, image.repository))
      && UpdateDocuments(once, image, selector) ==
        Ok((once, exists i :: 0 <= i < |docs| && Rematches(docs[i], image, selector), false))
  {
    hide Matched, Rematches;
    if docs == [] {
    } else {
      var (rest, m, c) := UpdateDocuments(docs[1..], image, selector).value;
      var (doc, matched, changed) := UpdateWorkload(docs[0], image, selector).value;
      var once := [doc] + rest;
      DocumentsTwice(docs[1..], image, selector);
      SecondUpdate(docs[0], image, selector);
      MatchedIsReported(docs[0], image, selector);
      assert once[0] == doc && once[1..] == rest;
      assert once == docs <==> doc == docs[0] && rest == docs[1..];
      assert forall i :: 1 <= i < |docs| ==> docs[1..][i - 1] == docs[i];
    }
  }

  lemma MatchedIsReported(root: Node, image: Image, selector: Selector)
    requires UpdateWorkload(root, image, selector).Ok?
    ensures UpdateWorkload(root, image, selector).value.1 <==> Matched(root, selector, image.repository)
    ensures UpdateWorkload(root, image, selector).value.2 <==> UpdateWorkload(root, image, selector).value.0 != root
  {
    hide ImageString, ImageRepository;
    if Matched(root, selector, image.repository) { UpdatedContainers(root, image, selector); }
  }

  /**
   A second run on the updated files never changes them. It succeeds exactly when some document's choice of containers
   sticks; otherwise it fails for want of a matching container.
   */
  lemma SecondRawRun(docs: seq<Node>, image: Image, selector: Selector)
    requires UpdateRaw(docs, image, selector).Ok?
    ensures var once := UpdateRaw(docs, image, selector).value.0;
      UpdateRaw(once, image, selector) ==
        if exists i :: 0 <= i < |docs| && Rematches(docs[i], image, selector) then Ok((once, false)) else Err(NoMatch)
  {
    hide Matched, Rematches;
    DocumentsTwice(docs, image, selector);
  }

  /** A document's choice of containers sticks after the update exactly if it stuck before. */
  lemma RematchesAgain(root: Node, image: Image, selector: Selector)
    requires UpdateWorkload(root, image, selector).Ok?
    ensures Rematches(UpdateWorkload(root, image, selector).value.0, image, selector) <==> Rematches(root, image, selector)
  {
    hide ImageString, ImageRepository, RoundTrips, Candidates;
    SecondUpdate(root, image, selector);
    MatchedIsReported(UpdateWorkload(root, image, selector).value.0, image, selector);
    if Rematches(root, image, selector) {
      UpdatedContainers(root, image, selector);
    }
  }

  lemma {:induction false} EachDocument(docs: seq<Node>, image: Image, selector: Selector, i: nat)
    requires UpdateDocuments(docs, image, selector).Ok? && i < |docs|
    ensures |UpdateDocuments(docs, image, selector).value.0| == |docs|
    ensures UpdateWorkload(docs[i], image, selector).Ok?
    ensures UpdateDocuments(docs, image, selector).value.0[i] == UpdateWorkload(docs[i], image, selector).value.0
  {
    hide UpdateWorkload;
    if |docs| == 1 {
      assert docs[1..] == [];
    } else {
      EachDocument(docs[1..], image, selector, if i == 0 then 0 else i - 1);
    }
  }

  lemma RematchesStays(docs: seq<Node>, image: Image, selector: Selector)
    requires UpdateRaw(docs, image, selector).Ok?
    ensures var once := UpdateRaw(docs, image, selector).value.0;
      && |once| == |docs|
      && forall i :: 0 <= i < |docs| ==> (Rematches(once[i], image, selector) <==> Rematches(docs[i], image, selector))
  {
    hide Rematches;
    var once := UpdateRaw(docs, image, selector).value.0;
    DocumentsTwice(docs, image, selector);
    forall i | 0 <= i < |docs| ensures Rematches(once[i], image, selector) <==> Rematches(docs[i], image, selector) {
      EachDocument(docs, image, selector, i);
      RematchesAgain(docs[i], image, selector);
    }
  }

  /** For images whose reference reads back, or containers chosen by name, the second run is a no-op. */
  lemma OrdinaryImagesSettle(docs: seq<Node>, image: Image, selector: Selector)
    requires UpdateRaw(docs, image, selector).Ok? && (selector.container != "" || RoundTrips(image))
    ensures var once := UpdateRaw(docs, image, selector).value.0;
      UpdateRaw(once, image, selector) == Ok((once, false))
  {
    hide RoundTrips;
    SecondRawRun(docs, image, selector);
    DocumentsTwice(docs, image, selector);
    var i :| 0 <= i < |docs| && Matched(docs[i], selector, image.repository);
    assert Rematches(docs[i], image, selector);
  }

  lemma {:induction false} UnchangedDocuments(docs: seq<Node>, image: Image, selector: Selector)
    requires UpdateDocuments(docs, image, selector).Ok? && !UpdateDocuments(docs, image, selector).value.2
    ensures forall i :: 0 <= i < |docs| && Matched(docs[i], selector, image.repository) ==> RunsImage(docs[i], image, selector)
  {
    hide ImageString, ImageRepository, Candidates, Chosen;
    if docs == [] {
    } else {
      UnchangedDocuments(docs[1..], image, selector);
      assert forall i :: 1 <= i < |docs| ==> docs[1..][i - 1] == docs[i];
    }
  }

  /** No change reported means the very same documents, of which one runs the release's image. */
  lemma UnchangedUpdate(docs: seq<Node>, image: Image, selector: Selector)
    requires UpdateRaw(docs, image, selector).Ok? && !UpdateRaw(docs, image, selector).value.1
    ensures UpdateRaw(docs, image, selector).value.0 == docs
    ensures exists i :: 0 <= i < |docs| && RunsImage(docs[i], image, selector)
  {
    hide Matched, RunsImage, Rematches;
    DocumentsTwice(docs, image, selector);
    UnchangedDocuments(docs, image, selector);
    var i :| 0 <= i < |docs| && Matched(docs[i], selector, image.repository);
    assert RunsImage(docs[i], image, selector);
  }

  // ---- What is updated, in terms of the documents' own keys ----

  /** A document is one the selector means: of a supported kind, with the kind and name that are asked for. */
  lemma AddressedIff(root: Node, selector: Selector)
    ensures Addressed(root, selector) <==>
      && root.kind.Mapping? && Lookup(root, ["kind"]).Some?
      && var kind := Lookup(root, ["kind"]).value.value;
      && kind in {"Deployment", "StatefulSet", "DaemonSet", "CronJob"}
      && (selector.kind != "" ==> kind == selector.kind)
      && (selector.name != "" ==>
        Lookup(root, ["metadata", "name"]).Some? && Lookup(root, ["metadata", "name"]).value.value == selector.name)
  {
    assert ["kind"][1..] == [] && ["metadata", "name"][1..] == ["name"] && ["name"][1..] == [];
    if root.kind.Mapping? && MapValue(root, "kind").Some? {
      assert Lookup(MapValue(root, "kind").value, []) == Some(MapValue(root, "kind").value);
    }
    var metadata := MapValue(root, "metadata");
    if metadata.Some? && MapValue(metadata.value, "name").Some? {
      assert Lookup(MapValue(metadata.value, "name").value, []) == Some(MapValue(metadata.value, "name").value);
    }
  }

  /** Where a workload's pod template must be, and that it must be a mapping there. */
  lemma PodSpecIff(root: Node, selector: Selector)
    requires Addressed(root, selector)
    ensures Lookup(root, ["kind"]).Some?
    ensures var path := if Lookup(root, ["kind"]).value.value == "CronJob" then ["spec", "jobTemplate", "spec", "template", "spec"]
                        else ["spec", "template", "spec"];
      && (PodSpec(root, selector).Some? <==> Lookup(root, path).Some? && Lookup(root, path).value.kind.Mapping?)
      && (PodSpec(root, selector).Some? ==> TreeAt(root, PodSpec(root, selector).value) == Lookup(root, path).value)
  {
    AddressedIff(root, selector);
    assert ["kind"][1..] == [];
    assert Lookup(MapValue(root, "kind").value, []) == Some(MapValue(root, "kind").value);
    TrailOfIsLookup(root, SpecPath(MapValue(root, "kind").value.value));
  }

  /** An item with a name and a scalar image. */
  predicate Reads(item: Node, name: string, image: string) {
    && MapValue(item, "name").Some? && MapValue(item, "name").value.value == name
    && MapValue(item, "image").Some? && MapValue(item, "image").value.kind.Scalar? && MapValue(item, "image").value.value == image
  }

  /** An entry of one of the two lists of containers. */
  ghost predicate IsEntry(podSpec: Node, field: string, i: nat, name: string, image: string) {
    && podSpec.kind.Mapping? && MapValue(podSpec, field).Some?
    && var list := MapValue(podSpec, field).value;
    list.kind.Sequence? && i < |list.content| && Reads(list.content[i], name, image)
  }

  ghost predicate Lists(cands: seq<Container>, name: string, image: string) {
    exists k :: 0 <= k < |cands| && cands[k].name == name && cands[k].image == image
  }

  lemma ListsSum(a: seq<Container>, b: seq<Container>, name: string, image: string)
    ensures Lists(a + b, name, image) <==> Lists(a, name, image) || Lists(b, name, image)
  {
    assert forall k :: 0 <= k < |a| ==> (a + b)[k] == a[k];
    assert forall k :: 0 <= k < |b| ==> (a + b)[|a| + k] == b[k];
  }

  lemma {:induction false} ContainersFromIff(items: seq<Node>, j: nat, above: nat, name: string, image: string)
    ensures Lists(ContainersFrom(items, j, above), name, image) <==> exists i :: j <= i < |items| && Reads(items[i], name, image)
    decreases |items| - j
  {
    if j >= |items| {
    } else {
      ContainersFromIff(items, j + 1, above, name, image);
      if IsContainer(items[j]) {
        var first := Container(MapValue(items[j], "name").value.value, MapValue(items[j], "image").value.value,
                               [above, j, ImageIndex(items[j])]);
        assert Lists([first], name, image) <==> Reads(items[j], name, image) by {
          assert [first][0] == first;
        }
        hide MapValue, Reads, Lists;
        ListsSum([first], ContainersFrom(items, j + 1, above), name, image);
      }
    }
  }

  lemma SectionIff(podSpec: Node, field: string, name: string, image: string)
    ensures Lists(Section(podSpec, field), name, image) <==> exists i: nat :: IsEntry(podSpec, field, i, name, image)
  {
    var at := KeyIndex(podSpec.content, field);
    if podSpec.kind.Mapping? && at.Some? && podSpec.content[at.value + 1].kind.Sequence? {
      ContainersFromIff(podSpec.content[at.value + 1].content, 0, at.value + 1, name, image);
      var items := podSpec.content[at.value + 1].content;
      assert forall i: nat :: IsEntry(podSpec, field, i, name, image) <==> (i < |items| && Reads(items[i], name, image));
    }
  }

  /** The candidates are the entries of the containers and of the init containers, and nothing else. */
  lemma CandidatesIff(podSpec: Node, name: string, image: string)
    ensures Lists(Candidates(podSpec), name, image) <==>
      || (exists i: nat :: IsEntry(podSpec, "containers", i, name, image))
      || (exists i: nat :: IsEntry(podSpec, "initContainers", i, name, image))
  {
    hide IsEntry, Section;
    var a, b := Section(podSpec, "containers"), Section(podSpec, "initContainers");
    SectionIff(podSpec, "containers", name, image);
    SectionIff(podSpec, "initContainers", name, image);
    ListsSum(a, b, name, image);
  }

  /** A candidate is chosen by its name if one is asked for, else by the repository of its image, or for being the only one. */
  lemma ChosenIff(cands: seq<Container>, container: string, repository: string, q: Trail)
    ensures q in Chosen(cands, container, repository) <==>
      exists k :: 0 <= k < |cands| && cands[k].trail == q &&
        if container != "" then cands[k].name == container else ImageRepository(cands[k].image) == repository || |cands| == 1
  {
    hide ImageRepository;
    PickIs(cands, if container != "" then ByName(container) else ByRepository(repository));
    if container == "" && |cands| == 1 {
      assert Pick(cands, ByRepository(repository)) == if Fits(cands[0], ByRepository(repository)) then [cands[0].trail] else [] by {
        assert cands[1..] == [];
      }
    } else if container == "" {
      assert forall k :: 0 <= k < |cands| ==> 
        (Fits(cands[k], ByRepository(repository)) <==> ImageRepository(cands[k].image) == repository);
    } else {
      assert forall k :: 0 <= k < |cands| ==> (Fits(cands[k], ByName(container)) <==> cands[k].name == container);
    }
  }

  lemma {:induction false} DocumentsFailIff(docs: seq<Node>, image: Image, selector: Selector)
    ensures UpdateDocuments(docs, image, selector).Err? <==>
      exists i :: 0 <= i < |docs| && Addressed(docs[i], selector) && PodSpec(docs[i], selector).None?
    ensures UpdateDocuments(docs, image, selector).Err? ==> UpdateDocuments(docs, image, selector) == Err(NoPodTemplate)
  {
    hide Addressed, PodSpec, ImageString, Chosen, Candidates;
    if docs == [] {
    } else {
      DocumentsFailIff(docs[1..], image, selector);
      assert forall i :: 1 <= i < |docs| ==> docs[1..][i - 1] == docs[i];
    }
  }

  /** The update fails exactly if a meant document has no pod template, or no document has a container to choose. */
  lemma UpdateRawFailsIff(docs: seq<Node>, image: Image, selector: Selector)
    ensures var noTemplate := exists i :: 0 <= i < |docs| && Addressed(docs[i], selector) && PodSpec(docs[i], selector).None?;
      var noMatch := forall i :: 0 <= i < |docs| ==> !Matched(docs[i], selector, image.repository);
      && (UpdateRaw(docs, image, selector).Err? <==> noTemplate || noMatch)
      && (noTemplate ==> UpdateRaw(docs, image, selector) == Err(NoPodTemplate))
      && (!noTemplate && noMatch ==> UpdateRaw(docs, image, selector) == Err(NoMatch))
  {
    hide Matched, Rematches, Addressed, PodSpec;
    DocumentsFailIff(docs, image, selector);
    if UpdateDocuments(docs, image, selector).Ok? { DocumentsTwice(docs, image, selector); }
  }

  /** After the update every chosen container's image says the release's version. */
  lemma ChosenSayTheVersion(root: Node, image: Image, selector: Selector, k: nat)
    requires Matched(root, selector, image.repository)
    requires k < |Candidates(TreeAt(root, PodSpec(root, selector).value))|
    ensures UpdateWorkload(root, image, selector).Ok?
    ensures var q := PodSpec(root, selector).value;
      var before := Candidates(TreeAt(root, q));
      var now := UpdateWorkload(root, image, selector).value.0;
      && Addressed(now, selector) && PodSpec(now, selector) == Some(q)
      && var after := Candidates(TreeAt(now, q));
      && |after| == |before| && after[k].name == before[k].name
      && if before[k].trail in Chosen(before, selector.container, image.repository) then SaysVersion(after[k].image, image)
         else after[k].image == before[k].image
  {
    hide ImageString, Candidates, SaysVersion;
    UpdatedContainers(root, image, selector);
    VersionReadsBack(image);
  }

  // ---- What an update leaves alone, node by node ----

  /** The node at a position of a tree is as another one but for its value and its tag. */
  predicate Resembles(t: Node, p: Trail, n: Node, tag: string, value: string) {
    InTree(t, p) && var m := TreeAt(t, p); m == n.(content := m.content, tag := tag, value := value) && |m.content| == |n.content|
  }

  /** Putting a node with the same children elsewhere in the tree changes that one node. */
  lemma {:induction false} GraftedHead(t: Node, trail: Trail, u: Node, p: Trail)
    requires InTree(t, trail) && u.kind == TreeAt(t, trail).kind && u.content == TreeAt(t, trail).content
    ensures InTree(Graft(t, trail, u), p) <==> InTree(t, p)
    ensures InTree(t, p) ==> var n := if p == trail then u else TreeAt(t, p);
      Resembles(Graft(t, trail, u), p, n, n.tag, n.value)
    decreases |trail|
  {
    if trail == [] || p == [] {
    } else if p[0] == trail[0] {
      GraftedHead(t.content[trail[0]], trail[1..], u, p[1..]);
      assert p == [p[0]] + p[1..] && trail == [trail[0]] + trail[1..];
    }
  }

  lemma {:induction false} GraftedElsewhere(t: Node, trail: Trail, u: Node, p: Trail)
    requires InTree(t, trail) && !(trail <= p)
    ensures InTree(Graft(t, trail, u), p) <==> InTree(t, p)
    ensures InTree(t, p) ==> var n := TreeAt(t, p); Resembles(Graft(t, trail, u), p, n, n.tag, n.value)
    decreases |trail|
  {
    if p != [] && p[0] == trail[0] {
      assert trail == [trail[0]] + trail[1..] && p == [p[0]] + p[1..];
      GraftedElsewhere(t.content[trail[0]], trail[1..], u, p[1..]);
    }
  }

  lemma {:induction false} RetargetedHead(podSpec: Node, trails: seq<Trail>, desired: string, p: Trail)
    requires forall k :: 0 <= k < |trails| ==> HasTrail(Candidates(podSpec), trails[k])
    ensures InTree(Retarget(podSpec, trails, desired), p) <==> InTree(podSpec, p)
    ensures InTree(podSpec, p) ==>
      var n := TreeAt(podSpec, p);
      var hit := p in trails && n.value != desired;
      Resembles(Retarget(podSpec, trails, desired), p, n, if hit then "!!str" else n.tag, if hit then desired else n.value)
    decreases |trails|
  {
    hide Candidates, Graft, TreeAt, InTree;
    if trails == [] {
    } else {
      EditedCandidates(podSpec, trails[0], desired);
      PointedKeepsTrails(Candidates(podSpec), [trails[0]], desired);
      assert forall k :: 0 <= k < |trails| - 1 ==> trails[1..][k] == trails[k + 1];
      assert p in trails <==> p == trails[0] || p in trails[1..];
      var leaf := TreeAt(podSpec, trails[0]);
      if leaf.value != desired { GraftedHead(podSpec, trails[0], leaf.(value := desired, tag := "!!str"), p); }
      RetargetedHead(SetImage(podSpec, trails[0], desired), trails[1..], desired, p);
    }
  }

  /** The position is that of a chosen container's image. */
  predicate IsChosenImage(root: Node, selector: Selector, repository: string, p: Trail) {
    Matched(root, selector, repository) &&
    var q := PodSpec(root, selector).value;
    q <= p && p[|q|..] in Chosen(Candidates(TreeAt(root, q)), selector.container, repository)
  }

  /**
   Position by position: the document keeps its shape, the images of the chosen containers become string scalars that
   say the release's image, and every other node is what it was.
   */
  lemma OnlyChosenImagesChange(root: Node, image: Image, selector: Selector, p: Trail)
    requires UpdateWorkload(root, image, selector).Ok?
    ensures var after := UpdateWorkload(root, image, selector).value.0;
      && (InTree(after, p) <==> InTree(root, p))
      && (InTree(root, p) ==>
        var n := TreeAt(root, p);
        var hit := IsChosenImage(root, selector, image.repository, p) && n.value != ImageString(image);
        Resembles(after, p, n, if hit then "!!str" else n.tag, if hit then ImageString(image) else n.value))
  {
    hide ImageString, Candidates, Chosen, Stale, Retarget;
    if Matched(root, selector, image.repository) {
      var q := PodSpec(root, selector).value;
      var podSpec := TreeAt(root, q);
      var chosen := Chosen(Candidates(podSpec), selector.container, image.repository);
      ChosenAreCandidates(Candidates(podSpec), selector.container, image.repository);
      var podSpec' := Retarget(podSpec, chosen, ImageString(image));
      if q <= p {
        assert p == q + p[|q|..];
        GraftAt(root, q, podSpec');
        TrailSum(root, q, p[|q|..]);
        TrailSum(Graft(root, q, podSpec'), q, p[|q|..]);
        RetargetedHead(podSpec, chosen, ImageString(image), p[|q|..]);
      } else {
        GraftedElsewhere(root, q, podSpec', p);
      }
    }
  }

  // ---- Documents that others have changed elsewhere ----

  /** What the chosen containers are called and run, in order. */
  function TextsOf(cands: seq<Container>, chosen: seq<Trail>): seq<(string, string)> {
    if cands == [] then []
    else (if cands[0].trail in chosen then [(cands[0].name, cands[0].image)] else []) + TextsOf(cands[1..], chosen)
  }

  function ChosenTexts(root: Node, selector: Selector, repository: string): seq<(string, string)> {
    if !Matched(root, selector, repository) then []
    else
      var cands := Candidates(TreeAt(root, PodSpec(root, selector).value));
      TextsOf(cands, Chosen(cands, selector.container, repository))
  }

  function AllChosen(docs: seq<Node>, selector: Selector, repository: string): seq<(string, string)> {
    if docs == [] then [] else ChosenTexts(docs[0], selector, repository) + AllChosen(docs[1..], selector, repository)
  }

  predicate AllRun(texts: seq<(string, string)>, desired: string) {
    forall text :: text in texts ==> text.1 == desired
  }

  lemma {:induction false} StaleIsSeen(cands: seq<Container>, chosen: seq<Trail>, desired: string)
    ensures AllRun(TextsOf(cands, chosen), desired) <==> !Stale(cands, chosen, desired)
  {
    if cands == [] {
    } else {
      StaleIsSeen(cands[1..], chosen, desired);
      assert forall k :: 1 <= k < |cands| ==> cands[1..][k - 1] == cands[k];
      if cands[0].trail in chosen { assert TextsOf(cands, chosen)[0] == (cands[0].name, cands[0].image); }
      assert forall text :: text in TextsOf(cands[1..], chosen) ==> text in TextsOf(cands, chosen);
    }
  }

  /** Where every chosen container runs the image already, an update changes nothing. */
  lemma RunningStays(root: Node, image: Image, selector: Selector)
    requires UpdateWorkload(root, image, selector).Ok?
    ensures UpdateWorkload(root, image, selector).value.0 == root <==>
      AllRun(ChosenTexts(root, selector, image.repository), ImageString(image))
  {
    assert AllRun([], ImageString(image));
    hide ImageString, ImageRepository, TextsOf, AllRun, Candidates, Chosen, Stale;
    if Matched(root, selector, image.repository) {
      var cands := Candidates(TreeAt(root, PodSpec(root, selector).value));
      StaleIsSeen(cands, Chosen(cands, selector.container, image.repository), ImageString(image));
      UpdatedContainers(root, image, selector);
    }
  }

  lemma RunningAfter(root: Node, image: Image, selector: Selector)
    requires UpdateWorkload(root, image, selector).Ok?
    ensures AllRun(ChosenTexts(UpdateWorkload(root, image, selector).value.0, selector, image.repository), ImageString(image))
  {
    hide UpdateWorkload, ChosenTexts, ImageString, AllRun;
    SecondUpdate(root, image, selector);
    RunningStays(UpdateWorkload(root, image, selector).value.0, image, selector);
  }

  lemma {:induction false} AllRunning(docs: seq<Node>, image: Image, selector: Selector)
    requires UpdateDocuments(docs, image, selector).Ok?
    ensures UpdateDocuments(docs, image, selector).value.0 == docs <==>
      AllRun(AllChosen(docs, selector, image.repository), ImageString(image))
    ensures AllRun(AllChosen(UpdateDocuments(docs, image, selector).value.0, selector, image.repository), ImageString(image))
  {
    hide UpdateWorkload, ChosenTexts, ImageString;
    if docs == [] {
    } else {
      AllRunning(docs[1..], image, selector);
      RunningStays(docs[0], image, selector);
      RunningAfter(docs[0], image, selector);
      var (rest, _, _) := UpdateDocuments(docs[1..], image, selector).value;
      var (doc, _, _) := UpdateWorkload(docs[0], image, selector).value;
      assert ([doc] + rest)[0] == doc && ([doc] + rest)[1..] == rest;
      assert [doc] + rest == docs <==> doc == docs[0] && rest == docs[1..];
      assert docs == [docs[0]] + docs[1..];
    }
  }

  /** On documents whose chosen containers are as an update left them, the update fails or changes nothing. */
  lemma StaysFinal(docs: seq<Node>, x: seq<Node>, image: Image, selector: Selector)
    requires UpdateRaw(docs, image, selector).Ok?
    requires AllChosen(x, selector, image.repository) ==
      AllChosen(UpdateRaw(docs, image, selector).value.0, selector, image.repository)
    ensures UpdateRaw(x, image, selector).Ok? ==> UpdateRaw(x, image, selector).value.0 == x
  {
    hide UpdateDocuments, AllChosen, AllRun, ImageString;
    AllRunning(docs, image, selector);
    if UpdateRaw(x, image, selector).Ok? { AllRunning(x, image, selector); }
  }

  /** After an update the chosen containers are found on the image again exactly if the choice sticks. */
  lemma RunsImageIff(root: Node, image: Image, selector: Selector)
    requires UpdateWorkload(root, image, selector).Ok?
    ensures RunsImage(UpdateWorkload(root, image, selector).value.0, image, selector) <==> Rematches(root, image, selector)
  {
    hide UpdateWorkload, Rematches, ImageString, Stale, Chosen, Candidates, ImageRepository;
    var once := UpdateWorkload(root, image, selector).value.0;
    SecondUpdate(root, image, selector);
    MatchedIsReported(once, image, selector);
    if Matched(once, selector, image.repository) { UpToDateRuns(once, image, selector); }
  }

  lemma UpToDateRuns(root: Node, image: Image, selector: Selector)
    requires Matched(root, selector, image.repository) && UpdateWorkload(root, image, selector).Ok?
    ensures RunsImage(root, image, selector) <==> !UpdateWorkload(root, image, selector).value.2
  {
  }

  /** After an update some document runs the image, as a later choice sees it, exactly if some choice sticks. */
  lemma SomeRunIff(docs: seq<Node>, image: Image, selector: Selector)
    requires UpdateRaw(docs, image, selector).Ok?
    ensures var once := UpdateRaw(docs, image, selector).value.0;
      (exists i :: 0 <= i < |once| && RunsImage(once[i], image, selector)) <==>
        (exists i :: 0 <= i < |docs| && Rematches(docs[i], image, selector))
  {
    hide RunsImage, Rematches, UpdateDocuments, UpdateWorkload;
    var once := UpdateRaw(docs, image, selector).value.0;
    DocumentsTwice(docs, image, selector);
    forall i | 0 <= i < |docs|
      ensures |once| == |docs| && (RunsImage(once[i], image, selector) <==> Rematches(docs[i], image, selector))
    {
      EachDocument(docs, image, selector, i);
      RunsImageIff(docs[i], image, selector);
    }
  }

  // ---- A manifest that a second run rejects ----

  function OneKey(key: string, value: Node): Node {
    Node(Mapping, "!!map", "", [Str(key), value])
  }

  function ContainerNode(name: string, image: string): Node {
    Node(Mapping, "!!map", "", [Str("name"), Str(name), Str("image"), Str(image)])
  }

  function DeploymentOf(containers: seq<Node>): Node {
    var podSpec := OneKey("containers", Node(Sequence, "!!seq", "", containers));
    Node(Mapping, "!!map", "", [Str("kind"), Str("Deployment"), Str("spec"), OneKey("template", OneKey("spec", podSpec))])
  }

  lemma OneKeyIs(key: string, value: Node)
    ensures KeyIndex(OneKey(key, value).content, key) == Some(0) && MapValue(OneKey(key, value), key) == Some(value)
    ensures TrailOf(OneKey(key, value), [key]) == Some([1])
  {
    assert [key][1..] == [] && TrailOf(value, []) == Some([]);
    assert [1] + [] == [1];
  }

  lemma ContainerNodeIs(name: string, image: string)
    ensures var c := ContainerNode(name, image);
      && IsContainer(c) && ImageIndex(c) == 3
      && MapValue(c, "name").value.value == name && MapValue(c, "image").value.value == image
  {
    var c := ContainerNode(name, image);
    assert "name" != "image";
    assert c.content[2..] == [Str("image"), Str(image)];
    assert KeyIndex(c.content[2..], "image") == Some(0);
  }

  lemma TwoContainers(a: string, b: string, x: string, y: string)
    ensures var podSpec := OneKey("containers", Node(Sequence, "!!seq", "", [ContainerNode(a, x), ContainerNode(b, y)]));
      Candidates(podSpec) == [Container(a, x, [1, 0, 3]), Container(b, y, [1, 1, 3])]
  {
    hide IsContainer, ImageIndex, MapValue;
    var items := [ContainerNode(a, x), ContainerNode(b, y)];
    var podSpec := OneKey("containers", Node(Sequence, "!!seq", "", items));
    ContainerNodeIs(a, x);
    ContainerNodeIs(b, y);
    OneKeyIs("containers", Node(Sequence, "!!seq", "", items));
    assert ContainersFrom(items, 2, 1) == [];
    assert ContainersFrom(items, 1, 1) == [Container(b, y, [1, 1, 3])];
    assert |"containers"| != |"initContainers"|;
    assert podSpec.content[2..] == [];
    assert KeyIndex(podSpec.content, "initContainers") == None;
    assert Section(podSpec, "initContainers") == [];
  }

  lemma DeploymentIs(containers: seq<Node>)
    ensures var root := DeploymentOf(containers);
      && Addressed(root, Selector("", "", ""))
      && PodSpec(root, Selector("", "", "")) == Some([3, 1, 1])
      && TreeAt(root, [3, 1, 1]) == OneKey("containers", Node(Sequence, "!!seq", "", containers))
  {
    hide Supported;
    var podSpec := OneKey("containers", Node(Sequence, "!!seq", "", containers));
    var root, template := DeploymentOf(containers), OneKey("spec", podSpec);
    var spec := OneKey("template", template);
    assert "kind"[0] != "spec"[0];
    assert KeyIndex(root.content, "kind") == Some(0);
    assert root.content[2..] == [Str("spec"), spec];
    assert KeyIndex(root.content[2..], "spec") == Some(0);
    assert KeyIndex(root.content, "spec") == Some(2);
    assert Supported("Deployment") by { DeploymentIsSupported(); }
    OneKeyIs("template", template);
    OneKeyIs("spec", podSpec);
    assert ["template", "spec"][1..] == ["spec"] && ["spec", "template", "spec"][1..] == ["template", "spec"];
    assert TrailOf(spec, ["template", "spec"]) == Some([1] + [1]);
    assert TrailOf(root, ["spec", "template", "spec"]) == Some([3] + ([1] + [1]));
    assert [3] + ([1] + [1]) == [3, 1, 1];
    assert |"Deployment"| != |"CronJob"|;
    ThreeDeep(root, 3, 1, 1, root);
  }

  lemma DeploymentIsSupported()
    ensures Supported("Deployment")
  {
  }

  /**
   A Deployment with two containers and an image whose tag has a slash: the first run updates it, the second finds no
   matching container and fails.
   */
  lemma SlashInTagLosesTheMatch()
    ensures var image, any := Image("app", "a/b", ""), Selector("", "", "");
      var docs := [DeploymentOf([ContainerNode("web", "app:0"), ContainerNode("db", "db:0")])];
      && UpdateRaw(docs, image, any).Ok?
      && UpdateRaw(UpdateRaw(docs, image, any).value.0, image, any) == Err(NoMatch)
  {
    hide ImageRepository, ImageString, RoundTrips, Candidates, Addressed, PodSpec, DeploymentOf, TreeAt;
    var image, any := Image("app", "a/b", ""), Selector("", "", "");
    var doc := DeploymentOf([ContainerNode("web", "app:0"), ContainerNode("db", "db:0")]);
    var cands := [Container("web", "app:0", [1, 0, 3]), Container("db", "db:0", [1, 1, 3])];
    DeploymentIs([ContainerNode("web", "app:0"), ContainerNode("db", "db:0")]);
    TwoContainers("web", "db", "app:0", "db:0");
    SlashInTag();
    PickIs(cands, ByRepository("app"));
    assert Fits(cands[0], ByRepository("app"));
    assert cands[0].trail in Pick(cands, ByRepository("app"));
    OneDocument(doc, image, any);
    SecondRawRun([doc], image, any);
    assert !Rematches(doc, image, any);
  }

  lemma OneDocument(doc: Node, image: Image, selector: Selector)
    requires Matched(doc, selector, image.repository)
    ensures UpdateRaw([doc], image, selector).Ok?
  {
    hide Matched, UpdateWorkload;
    UpdatedContainers(doc, image, selector);
    assert [doc][1..] == [] && UpdateDocuments([], image, selector) == Ok(([], false, false));
    assert UpdateDocuments([doc], image, selector).Ok? && UpdateDocuments([doc], image, selector).value.1;
  }

  lemma SlashInTag()
    ensures !RoundTrips(Image("app", "a/b", "")) && ImageRepository("app:0") == "app"
  {
    hide ImageRepository, LastIndex, CutTag;
    assert "a/b"[1] == '/' && '@' !in "a/b";
    TagRoundTrip("app", "0");
    assert "app" + (":" + "0") == "app:0";
  }
}
