/** updateHelmValuesConfigured in place, on the parsed document's nodes. */
module HelmFile {
  import opened Wrappers
  import opened YamlTree
  import opened YamlHeap
  import opened YamlEdit
  import opened FieldPath
  import opened ImageRef
  import opened Helm

  lemma EditKeepsKind(node: Node, path: Path, value: string)
    ensures SetField(node, path, value).Ok? ==> SetField(node, path, value).value.0.kind == node.kind
    ensures DeleteField(node, path).Ok? ==> DeleteField(node, path).value.0.kind == node.kind
  {
  }

  /** setOrDeleteYAMLField, with the field's default. */
  method SetOrDeleteYamlField(root: YamlNode, field: string, fallback: string, value: string, ghost a: Place, ghost t: Node)
    returns (result: Result<bool, EditError>, ghost b: Place)
    requires a.node == root && Stored(a, t) && t.kind.Mapping?
    modifies Cells(a)
    ensures b.node == root && fresh(Cells(b) - Cells(a))
    ensures result == Reply(SetOrDelete(t, field, fallback, value))
    ensures result.Ok? ==>
      && Stored(b, SetOrDelete(t, field, fallback, value).value.0)
      && SetOrDelete(t, field, fallback, value).value.0.kind.Mapping?
  {
    hide Cells, Shows, Separate, SetField, DeleteField, FieldParts;
    assert allocated(Cells(a));
    var parts := YamlFieldParts(if field == "" then fallback else field);
    if parts.Err? {
      return Err(parts.error), a;
    }
    EditKeepsKind(t, parts.value, value);
    if value == "" {
      result, b := DeleteYamlField(root, parts.value, a, t);
    } else {
      label Set:
      result, b := SetYamlField(root, parts.value, value, a, t);
      forall n | n in Cells(b) && n !in Cells(a) ensures fresh(n) {
        assert fresh@Set(n);
      }
    }
  }

  /** An error leaves the file as it was, whatever happened to the nodes in memory: it is not written back. */
  method UpdateHelmValues(root: YamlNode, config: Config, image: Image, ghost a: Place, ghost t: Node)
    returns (result: Result<bool, EditError>, ghost b: Place)
    requires image.repository != "" && a.node == root && Stored(a, t)
    modifies Cells(a)
    ensures result == Reply(UpdateHelm(t, config, image))
    ensures result.Ok? ==> b.node == root && Stored(b, UpdateHelm(t, config, image).value.0)
  {
    hide Cells, Separate, SetOrDelete;
    assert allocated(Cells(a));
    if !root.kind.Mapping? {
      return Err(RootNotAMapping), a;
    }
    var repository, tag, digest;
    ghost var c, d;
    ghost var t1 := SetOrDelete(t, config.repositoryField, REPOSITORY_FIELD, image.repository);
    repository, c := SetOrDeleteYamlField(root, config.repositoryField, REPOSITORY_FIELD, image.repository, a, t);
    if repository.Err? {
      return repository, c;
    }
    assert allocated(Cells(c));
    ghost var t2 := SetOrDelete(t1.value.0, config.tagField, TAG_FIELD, image.tag);
    tag, d := SetOrDeleteYamlField(root, config.tagField, TAG_FIELD, image.tag, c, t1.value.0);
    if tag.Err? {
      return tag, d;
    }
    assert allocated(Cells(d));
    digest, b := SetOrDeleteYamlField(root, config.digestField, DIGEST_FIELD, image.digest, d, t2.value.0);
    if digest.Err? {
      return digest, b;
    }
    return Ok(repository.value || tag.value || digest.value), b;
  }
}
