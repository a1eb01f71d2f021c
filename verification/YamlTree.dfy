/**
 YAML node trees and the nested field edits on them (setYAMLField, deleteYAMLField and yamlMapValue
 in internal/gitops/provider.go). A mapping keeps its keys and values in one flat list, keys at the
 even positions, as yaml.v3 does.
 */
module YamlTree {
  import opened Wrappers

  datatype Kind = Document | Sequence | Mapping | Scalar | Alias

  datatype Node = Node(kind: Kind, tag: string, value: string, content: seq<Node>)

  datatype EditError = RootNotAMapping | NoField | EmptySegment | TraversesNonMap | NotAScalar

  type Path = p: seq<string> | |p| > 0 witness [""]

  function Str(value: string): Node {
    Node(Scalar, "!!str", value, [])
  }

  const EMPTY_MAP := Node(Mapping, "!!map", "", [])

  /** The position of the first key with the given value. */
  function KeyIndex(content: seq<Node>, key: string): (r: Option<nat>)
    ensures r.Some? ==> r.value % 2 == 0 && r.value + 1 < |content| && content[r.value].value == key
  {
    if |content| < 2 then None
    else if content[0].value == key then Some(0)
    else
      var rest := KeyIndex(content[2..], key);
      if rest.None? then None else Some(rest.value + 2)
  }

  /** How often a key occurs in a mapping's content. */
  function Occurrences(content: seq<Node>, key: string): nat {
    if |content| < 2 then 0
    else (if content[0].value == key then 1 else 0) + Occurrences(content[2..], key)
  }

  /** A list with the pair at position i spliced out. */
  function Without<T>(content: seq<T>, i: nat): seq<T>
    requires i + 1 < |content|
  {
    content[..i] + content[i + 2..]
  }

  /** yamlMapValue */
  function MapValue(node: Node, key: string): Option<Node> {
    if !node.kind.Mapping? then None
    else
      var i := KeyIndex(node.content, key);
      if i.None? then None else Some(node.content[i.value + 1])
  }

  /** yamlNodeAt */
  function Lookup(node: Node, path: seq<string>): Option<Node> {
    if path == [] then Some(node)
    else
      var next := MapValue(node, path[0]);
      if next.None? then None else Lookup(next.value, path[1..])
  }

  function SetLeaf(node: Node, leaf: string, value: string): Result<(Node, bool), EditError> {
    var i := KeyIndex(node.content, leaf);
    if i.None? then Ok((node.(content := node.content + [Str(leaf), Str(value)]), true))
    else
      var existing := node.content[i.value + 1];
      if !existing.kind.Scalar? then Err(NotAScalar)
      else if existing.value == value && existing.tag == "!!str" then Ok((node, false))
      else Ok((node.(content := node.content[i.value + 1 := existing.(tag := "!!str", value := value)]), true))
  }

  /** setYAMLField on the split path: the edited tree and the changed flag. */
  function SetField(node: Node, path: Path, value: string): Result<(Node, bool), EditError>
    decreases |path|
  {
    if |path| == 1 then SetLeaf(node, path[0], value)
    else
      var i := KeyIndex(node.content, path[0]);
      if i.None? then
        match SetField(EMPTY_MAP, path[1..], value)
        case Err(e) => Err(e)
        case Ok((child, _)) => Ok((node.(content := node.content + [Str(path[0]), child]), true))
      else if !node.content[i.value + 1].kind.Mapping? then Err(TraversesNonMap)
      else
        match SetField(node.content[i.value + 1], path[1..], value)
        case Err(e) => Err(e)
        case Ok((child, changed)) => Ok((node.(content := node.content[i.value + 1 := child]), changed))
  }

  /** deleteYAMLField on the split path. */
  function DeleteField(node: Node, path: Path): Result<(Node, bool), EditError>
    decreases |path|
  {
    var i := KeyIndex(node.content, path[0]);
    if i.None? then Ok((node, false))
    else if |path| == 1 then Ok((node.(content := Without(node.content, i.value)), true))
    else if !node.content[i.value + 1].kind.Mapping? then Err(TraversesNonMap)
    else
      match DeleteField(node.content[i.value + 1], path[1..])
      case Err(e) => Err(e)
      case Ok((child, changed)) => Ok((node.(content := node.content[i.value + 1 := child]), changed))
  }

  /** Some proper prefix of the path leads to something other than a mapping. */
  predicate Blocked(node: Node, path: seq<string>) {
    |path| > 1 &&
    var next := MapValue(node, path[0]);
    next.Some? && (!next.value.kind.Mapping? || Blocked(next.value, path[1..]))
  }

  predicate IsPrefix(p: seq<string>, q: seq<string>) {
    |p| <= |q| && q[..|p|] == p
  }

  predicate Nested(p: seq<string>, q: seq<string>) {
    IsPrefix(p, q) || IsPrefix(q, p)
  }

  predicate Holds(node: Node, path: seq<string>, value: string) {
    var found := Lookup(node, path);
    found.Some? && found.value.kind.Scalar? && found.value.value == value && found.value.tag == "!!str"
  }

  // ---- Flat mapping content ----

  lemma {:induction false} KeyIndexAppend(content: seq<Node>, k: Node, v: Node, key: string)
    requires |content| % 2 == 0
    ensures KeyIndex(content + [k, v], key) ==
      if KeyIndex(content, key).Some? then KeyIndex(content, key)
      else if k.value == key then Some(|content|) else None
  {
    if |content| >= 2 {
      KeyIndexAppend(content[2..], k, v, key);
      assert (content + [k, v])[2..] == content[2..] + [k, v];
    } else {
      assert (content + [k, v])[2..] == [];
    }
  }

  lemma {:induction false} KeyIndexUpdate(content: seq<Node>, i: nat, v: Node, key: string)
    requires i % 2 == 0 && i + 1 < |content|
    ensures KeyIndex(content[i + 1 := v], key) == KeyIndex(content, key)
  {
    if i == 0 {
      assert content[1 := v][2..] == content[2..];
    } else {
      KeyIndexUpdate(content[2..], i - 2, v, key);
      assert content[i + 1 := v][2..] == content[2..][i - 1 := v];
    }
  }

  lemma WithoutTail(content: seq<Node>, i: nat)
    requires 2 <= i && i + 1 < |content|
    ensures Without(content, i)[2..] == Without(content[2..], i - 2)
    ensures |Without(content, i)| == |content| - 2 && Without(content, i)[0] == content[0]
  {
  }

  lemma KeyIndexStep(content: seq<Node>, key: string)
    requires |content| >= 2
    ensures KeyIndex(content, key) ==
      if content[0].value == key then Some(0)
      else if KeyIndex(content[2..], key).None? then None
      else Some(KeyIndex(content[2..], key).value + 2)
  {
  }

  /** Removing the first pair of a key shifts the pairs behind it and no others. */
  lemma {:induction false} KeyIndexRemove(content: seq<Node>, gone: string, key: string)
    requires KeyIndex(content, gone).Some? && key != gone
    ensures var i, k := KeyIndex(content, gone).value, KeyIndex(content, key);
      KeyIndex(Without(content, i), key) ==
        if k.None? then None else Some(if k.value < i then k.value else k.value - 2)
  {
    hide KeyIndex;
    var i := KeyIndex(content, gone).value;
    KeyIndexStep(content, gone);
    KeyIndexStep(content, key);
    if i == 0 {
      assert Without(content, 0) == content[2..];
    } else {
      KeyIndexRemove(content[2..], gone, key);
      WithoutTail(content, i);
      hide Without;
      KeyIndexStep(Without(content, i), key);
    }
  }

  lemma {:induction false} RemoveCounts(content: seq<Node>, gone: string)
    requires KeyIndex(content, gone).Some?
    ensures Occurrences(Without(content, KeyIndex(content, gone).value), gone) == Occurrences(content, gone) - 1
  {
    var i := KeyIndex(content, gone).value;
    if i == 0 {
      assert Without(content, 0) == content[2..];
    } else {
      RemoveCounts(content[2..], gone);
      WithoutTail(content, i);
    }
  }

  lemma {:induction false} KeyIndexCounts(content: seq<Node>, key: string)
    ensures KeyIndex(content, key).None? <==> Occurrences(content, key) == 0
  {
    if |content| >= 2 { KeyIndexCounts(content[2..], key); }
  }

  // ---- Well-formed trees ----

  /** What a parser delivers: every mapping holds whole key-value pairs. */
  predicate Paired(node: Node) {
    && (node.kind.Mapping? ==> |node.content| % 2 == 0)
    && forall i :: 0 <= i < |node.content| ==> Paired(node.content[i])
  }

  /** No mapping of the tree names a key twice. */
  ghost predicate UniqueKeys(node: Node) {
    && (node.kind.Mapping? ==> forall key :: Occurrences(node.content, key) <= 1)
    && forall i :: 0 <= i < |node.content| ==> UniqueKeys(node.content[i])
  }

  ghost predicate WellFormedMap(node: Node) {
    node.kind.Mapping? && Paired(node) && UniqueKeys(node)
  }

  /** A mapping with the child of one key replaced, or appended when the key is new. */
  function Put(node: Node, key: string, child: Node): Node {
    var i := KeyIndex(node.content, key);
    node.(content := if i.Some? then node.content[i.value + 1 := child] else node.content + [Str(key), child])
  }

  lemma MapValuePut(node: Node, key: string, child: Node, k: string)
    requires node.kind.Mapping? && |node.content| % 2 == 0
    ensures MapValue(Put(node, key, child), k) == if k == key then Some(child) else MapValue(node, k)
  {
    var i := KeyIndex(node.content, key);
    if i.Some? {
      KeyIndexUpdate(node.content, i.value, child, k);
    } else {
      KeyIndexAppend(node.content, Str(key), child, k);
    }
  }

  lemma MapValueRemove(node: Node, key: string, k: string)
    requires node.kind.Mapping? && KeyIndex(node.content, key).Some? && k != key
    ensures MapValue(node.(content := Without(node.content, KeyIndex(node.content, key).value)), k) == MapValue(node, k)
  {
    hide KeyIndex;
    var i, j := KeyIndex(node.content, key).value, KeyIndex(node.content, k);
    KeyIndexRemove(node.content, key, k);
    if j.Some? && j.value > i {
      assert j.value - 2 >= i;
      assert Without(node.content, i)[j.value - 1] == node.content[j.value + 1];
    }
  }

  lemma PutPut(node: Node, key: string, a: Node, b: Node)
    requires node.kind.Mapping? && |node.content| % 2 == 0
    ensures Put(Put(node, key, a), key, b) == Put(node, key, b)
  {
    var i := KeyIndex(node.content, key);
    if i.Some? {
      KeyIndexUpdate(node.content, i.value, a, key);
    } else {
      KeyIndexAppend(node.content, Str(key), a, key);
    }
  }

  lemma PutSame(node: Node, key: string)
    requires MapValue(node, key).Some?
    ensures Put(node, key, MapValue(node, key).value) == node
  {
  }

  lemma PutKeepsPaired(node: Node, key: string, child: Node)
    requires node.kind.Mapping? && Paired(node) && Paired(child)
    ensures Paired(Put(node, key, child))
  {
    assert Paired(Str(key));
  }

  lemma {:induction false} AppendCounts(content: seq<Node>, k: Node, v: Node, key: string)
    requires |content| % 2 == 0
    ensures Occurrences(content + [k, v], key) == Occurrences(content, key) + if k.value == key then 1 else 0
  {
    if |content| >= 2 {
      AppendCounts(content[2..], k, v, key);
      assert (content + [k, v])[2..] == content[2..] + [k, v];
    } else {
      assert (content + [k, v])[2..] == [];
    }
  }

  lemma {:induction false} UpdateCounts(content: seq<Node>, i: nat, v: Node, key: string)
    requires i % 2 == 0 && i + 1 < |content|
    ensures Occurrences(content[i + 1 := v], key) == Occurrences(content, key)
  {
    if i == 0 {
      assert content[1 := v][2..] == content[2..];
    } else {
      UpdateCounts(content[2..], i - 2, v, key);
      assert content[i + 1 := v][2..] == content[2..][i - 1 := v];
    }
  }

  lemma PutKeepsUnique(node: Node, key: string, child: Node)
    requires WellFormedMap(node) && UniqueKeys(child)
    ensures UniqueKeys(Put(node, key, child))
  {
    var i := KeyIndex(node.content, key);
    forall k ensures Occurrences(Put(node, key, child).content, k) <= 1 {
      if i.Some? {
        UpdateCounts(node.content, i.value, child, k);
      } else {
        AppendCounts(node.content, Str(key), child, k);
        KeyIndexCounts(node.content, key);
      }
    }
    assert UniqueKeys(Str(key));
  }

  lemma RemoveKeepsWellFormed(node: Node, key: string)
    requires WellFormedMap(node) && KeyIndex(node.content, key).Some?
    ensures WellFormedMap(node.(content := Without(node.content, KeyIndex(node.content, key).value)))
  {
    var i := KeyIndex(node.content, key).value;
    var rest := Without(node.content, i);
    forall k ensures Occurrences(rest, k) <= 1 {
      RemoveAtMost(node.content, i, k);
    }
    forall j | 0 <= j < |rest| ensures Paired(rest[j]) && UniqueKeys(rest[j]) {
      assert rest[j] == node.content[if j < i then j else j + 2];
    }
  }

  lemma {:induction false} RemoveAtMost(content: seq<Node>, i: nat, key: string)
    requires i % 2 == 0 && i + 1 < |content|
    ensures Occurrences(Without(content, i), key) <= Occurrences(content, key)
  {
    if i == 0 {
      assert Without(content, 0) == content[2..];
    } else {
      RemoveAtMost(content[2..], i - 2, key);
      WithoutTail(content, i);
    }
  }
}
