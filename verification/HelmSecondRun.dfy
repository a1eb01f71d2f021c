/** What a second Helm values update does to the result of the first. */
module HelmSecondRun {
  import opened Wrappers
  import opened YamlTree
  import opened ImageRef
  import opened Helm
  import opened ThreeEdits

  /*
   From the fields and the image alone: nothing; or the same edits over again, ending in the same document; or an error.
   */

  /** After a successful run of the three edits, a second run fails on a clash and otherwise ends in the same document. */
  lemma SecondRunOf(node: Node, a: Edit, b: Edit, c: Edit)
    requires WellFormedMap(node) && a.SetTo? && Runs(node, a, b, c)
    ensures var once := Outcome(node, a, b, c);
      if Clash(a, b, c) then !Runs(once, a, b, c) else Repeats(once, a, b, c)
  {
    hide Apply, WellFormedMap, Runs, Repeats, Above;
    if Clash(a, b, c) {
      Stages(node, a, b, c);
      ClashFails(Outcome(node, a, b, c), a, b, c);
    }
    else if b.SetTo? && c.SetTo? { ThreeSets(node, a, b, c); }
    else if b.SetTo? { TwoSetsOneRemove(node, a, b, c); }
    else if c.SetTo? { SetRemoveSet(node, a, b, c); }
    else { OneSetTwoRemoves(node, a, b, c); }
  }

  // ---- The whole update, twice ----

  /**
   An empty tag is deleted between two sets: they cannot both be repeated when one lies inside the other, nor when the
   deleted field lies inside the last one.
   */
  predicate FieldsClash(fields: Fields, image: Image) {
    image.tag == "" && image.digest != "" &&
    (Above(fields.repository, fields.digest) || Above(fields.digest, fields.repository) || Above(fields.digest, fields.tag))
  }

  lemma RunsIsApplyAll(node: Node, a: Edit, b: Edit, c: Edit)
    ensures Runs(node, a, b, c) <==> ApplyAll(node, [a, b, c]).Ok?
    ensures Runs(node, a, b, c) ==> ApplyAll(node, [a, b, c]).value.0 == Outcome(node, a, b, c)
  {
    hide Apply;
    ApplyThree(node, a, b, c);
  }

  /**
   From the fields and the image alone: after any successful update, a second one reports no change, or fails, or reports a
   change that is none: it always ends in the document it began with.
   */
  lemma SecondUpdateIs(root: Node, config: Config, image: Image)
    requires image.repository != "" && Paired(root) && UniqueKeys(root)
    ensures UpdateHelm(root, config, image).Ok? ==>
      && FieldsOf(config).Some?
      && var once, fields := UpdateHelm(root, config, image).value.0, FieldsOf(config).value;
      if AllConsistent(HelmEdits(fields, image)) then UpdateHelm(once, config, image) == Ok((once, false))
      else if FieldsClash(fields, image) then UpdateHelm(once, config, image).Err?
      else UpdateHelm(once, config, image) == Ok((once, true))
  {
    hide UpdateHelm, FieldsOf, AllConsistent, Repeats, Runs, Apply, Paired, UniqueKeys;
    if UpdateHelm(root, config, image).Ok? {
      UpdateIsItsEdits(root, config, image);
      var once, fields := UpdateHelm(root, config, image).value.0, FieldsOf(config).value;
      var edits := HelmEdits(fields, image);
      var a, b, c := edits[0], edits[1], edits[2];
      assert edits == [a, b, c];
      WellFormedRoot(root);
      ApplyAllKeepsWellFormed(root, edits);
      MappingOf(once);
      UpdateIsItsEdits(once, config, image);
      RunsIsApplyAll(root, a, b, c);
      RunsIsApplyAll(once, a, b, c);
      SecondRunOf(root, a, b, c);
      RepeatsIs(once, a, b, c);
      HelmIsIdempotentIff(root, config, image);
      if ApplyAll(once, edits).Ok? && !ApplyAll(once, edits).value.1 { UnchangedRunStays(once, edits); }
      ClashIs(fields, image);
    }
  }

  lemma WellFormedRoot(root: Node)
    ensures root.kind.Mapping? && Paired(root) && UniqueKeys(root) ==> WellFormedMap(root)
  {
  }

  lemma RepeatsIs(node: Node, a: Edit, b: Edit, c: Edit)
    ensures Repeats(node, a, b, c) <==> Runs(node, a, b, c) && Outcome(node, a, b, c) == node
  {
  }

  /** Edits that clash are never all consistent. */
  lemma ClashIs(fields: Fields, image: Image)
    ensures var edits := HelmEdits(fields, image);
      && (Clash(edits[0], edits[1], edits[2]) <==> FieldsClash(fields, image))
      && (FieldsClash(fields, image) ==> !AllConsistent(edits))
  {
    var edits := HelmEdits(fields, image);
    if FieldsClash(fields, image) {
      AboveOrEqual(fields.repository, fields.digest);
      AboveOrEqual(fields.digest, fields.tag);
      assert Nested(fields.tag, fields.digest) == Nested(fields.digest, fields.tag);
      assert !Consistent(edits[0], edits[2]) || !Consistent(edits[1], edits[2]);
    }
  }

  /** Two of the fields are one field that is set to two different values. */
  predicate SharedField(fields: Fields, image: Image) {
    || (fields.repository == fields.tag && image.tag != image.repository)
    || (image.digest != "" && fields.repository == fields.digest && image.digest != image.repository)
    || (image.digest != "" && fields.tag == fields.digest && image.digest != image.tag)
  }

  /** With one field for two values, every run after the first succeeds, reports a change, and makes none. */
  lemma SharedFieldNeverSettles(root: Node, config: Config, image: Image)
    requires image.repository != "" && image.tag != "" && Paired(root) && UniqueKeys(root)
    requires FieldsOf(config).Some? && SharedField(FieldsOf(config).value, image)
    ensures UpdateHelm(root, config, image).Ok? ==>
      var once := UpdateHelm(root, config, image).value.0; UpdateHelm(once, config, image) == Ok((once, true))
  {
    hide UpdateHelm, FieldsOf, Paired, UniqueKeys, Nested;
    SecondUpdateIs(root, config, image);
    var edits := HelmEdits(FieldsOf(config).value, image);
    assert !Consistent(edits[0], edits[1]) || !Consistent(edits[0], edits[2]) || !Consistent(edits[1], edits[2]);
  }
}
