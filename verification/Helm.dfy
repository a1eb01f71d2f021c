/** The Helm values update (updateHelmValuesConfigured in internal/gitops/provider.go). */
module Helm {
  import opened Wrappers
  import opened YamlTree
  import opened YamlLaws
  import opened FieldPath
  import opened ImageRef

  /*
   Set the image repository, set or delete the tag, set or delete the digest, each at a configurable field path.
   */

  datatype Edit = SetTo(path: Path, value: string) | Remove(path: Path)

  function Apply(node: Node, edit: Edit): Result<(Node, bool), EditError> {
    match edit
    case SetTo(path, value) => SetField(node, path, value)
    case Remove(path) => DeleteField(node, path)
  }

  /** The edits in order; the first error stops them, and changed collects their flags. */
  function ApplyAll(node: Node, edits: seq<Edit>): Result<(Node, bool), EditError>
    decreases |edits|
  {
    if edits == [] then Ok((node, false))
    else
      match Apply(node, edits[0])
      case Err(e) => Err(e)
      case Ok((next, changed)) =>
        match ApplyAll(next, edits[1..])
        case Err(e) => Err(e)
        case Ok((last, later)) => Ok((last, changed || later))
  }

  datatype Fields = Fields(repository: Path, tag: Path, digest: Path)

  function HelmEdits(fields: Fields, image: Image): seq<Edit> {
    [SetTo(fields.repository, image.repository),
     if image.tag == "" then Remove(fields.tag) else SetTo(fields.tag, image.tag),
     if image.digest == "" then Remove(fields.digest) else SetTo(fields.digest, image.digest)]
  }

  /** The edit has nothing left to do. */
  predicate Settled(node: Node, edit: Edit) {
    Apply(node, edit) == Ok((node, false))
  }

  /** Two edits can both be settled: a set field is not inside, around or equal to another edited field, except an equal set. */
  predicate Consistent(a: Edit, b: Edit) {
    match (a, b)
    case (SetTo(p, v), SetTo(q, w)) => if p == q then v == w else !Nested(p, q)
    case (Remove(_), Remove(_)) => true
    case (_, _) => !Nested(a.path, b.path)
  }

  predicate AllConsistent(edits: seq<Edit>) {
    forall i, j :: 0 <= i < j < |edits| ==> Consistent(edits[i], edits[j])
  }

  /** The document already says what the edit asks for. */
  predicate Reflects(node: Node, edit: Edit) {
    match edit
    case SetTo(path, value) => Holds(node, path, value)
    case Remove(path) => Lookup(node, path).None? && !Blocked(node, path)
  }

  lemma SettledIff(node: Node, edit: Edit)
    requires node.kind.Mapping?
    ensures Settled(node, edit) <==> Reflects(node, edit)
  {
    match edit
    case SetTo(path, value) =>
      SetFailsIff(node, path, value);
      if Holds(node, path, value) { FoundIsNotBlocked(node, path); }
      if SetField(node, path, value).Ok? { SetChangedIff(node, path, value); }
    case Remove(path) =>
      DeleteFailsIff(node, path);
      if DeleteField(node, path).Ok? { DeleteChangedIff(node, path); }
  }

  lemma {:induction false} FoundIsNotBlocked(node: Node, path: seq<string>)
    requires Lookup(node, path).Some?
    ensures !Blocked(node, path)
    decreases |path|
  {
    if |path| <= 1 {
    } else {
      FoundIsNotBlocked(MapValue(node, path[0]).value, path[1..]);
    }
  }

  /** A path that runs past a scalar is blocked; one that stops short of a found node is found. */
  lemma {:induction false} PrefixFound(node: Node, short: Path, long: Path)
    requires IsPrefix(short, long) && Lookup(node, long).Some?
    ensures Lookup(node, short).Some?
    ensures short != long ==> Lookup(node, short).value.kind.Mapping?
    decreases |short|
  {
    assert long[0] == short[0] by { assert long[..|short|][0] == long[0]; }
    if |short| > 1 {
      PrefixTail(short, long);
      PrefixFound(MapValue(node, short[0]).value, short[1..], long[1..]);
      assert short[1..] == long[1..] ==> [short[0]] + short[1..] == [long[0]] + long[1..];
    } else {
      assert Lookup(node, short) == MapValue(node, short[0]);
    }
  }

  lemma {:induction false} ScalarBlocks(node: Node, short: Path, long: Path)
    requires IsPrefix(short, long) && short != long
    requires Lookup(node, short).Some? && !Lookup(node, short).value.kind.Mapping?
    ensures Blocked(node, long)
    decreases |short|
  {
    assert long[0] == short[0] by { assert long[..|short|][0] == long[0]; }
    assert long[..|long|] == long;
    if |short| > 1 {
      PrefixTail(short, long);
      ScalarBlocks(MapValue(node, short[0]).value, short[1..], long[1..]);
    } else {
      assert Lookup(node, short) == MapValue(node, short[0]);
    }
  }

  /** Two edits that are both settled on one tree are consistent. */
  lemma SettledTogetherIsConsistent(node: Node, a: Edit, b: Edit)
    requires node.kind.Mapping? && Settled(node, a) && Settled(node, b)
    ensures Consistent(a, b)
  {
    SettledIff(node, a);
    SettledIff(node, b);
    if a.SetTo? && b.SetTo? && a.path != b.path {
      if IsPrefix(a.path, b.path) { PrefixFound(node, a.path, b.path); }
      if IsPrefix(b.path, a.path) { PrefixFound(node, b.path, a.path); }
    } else if a.SetTo? && b.Remove? {
      SetAndRemove(node, a, b);
    } else if a.Remove? && b.SetTo? {
      SetAndRemove(node, b, a);
    }
  }

  lemma SetAndRemove(node: Node, a: Edit, b: Edit)
    requires a.SetTo? && b.Remove?
    requires Holds(node, a.path, a.value) && Lookup(node, b.path).None? && !Blocked(node, b.path)
    ensures !Nested(a.path, b.path)
  {
    if IsPrefix(b.path, a.path) { PrefixFound(node, b.path, a.path); }
    if IsPrefix(a.path, b.path) && a.path != b.path { ScalarBlocks(node, a.path, b.path); }
  }

  /** A successful edit settles itself. */
  lemma ApplySettles(node: Node, edit: Edit)
    requires WellFormedMap(node) && Apply(node, edit).Ok?
    ensures WellFormedMap(Apply(node, edit).value.0) && Settled(Apply(node, edit).value.0, edit)
  {
    var after := Apply(node, edit).value.0;
    match edit
    case SetTo(path, value) =>
      SetKeepsWellFormed(node, path, value);
      SetThenLookup(node, path, value);
      SettledIff(after, edit);
    case Remove(path) =>
      DeleteKeepsWellFormed(node, path);
      DeleteFailsIff(node, path);
      UniqueTarget(node, path);
      DeleteThenLookup(node, path);
      RemoveNeverBlocks(node, path, path);
      SettledIff(after, edit);
  }

  /** Removing something blocks no path, and brings nothing into view. */
  lemma {:induction false} RemoveNeverBlocks(node: Node, path: Path, other: Path)
    requires WellFormedMap(node) && DeleteField(node, path).Ok?
    ensures Blocked(DeleteField(node, path).value.0, other) ==> Blocked(node, other)
    ensures Lookup(DeleteField(node, path).value.0, other).Some? ==> Lookup(node, other).Some?
    decreases |path|
  {
    var next := MapValue(node, path[0]);
    if |path| == 1 {
      DeleteLeafStep(node, path);
      if next.Some? {
        if other[0] != path[0] {
          MapValueRemove(node, path[0], other[0]);
        } else {
          DeleteFailsIff(node, path);
          UniqueTarget(node, path);
          DeleteThenLookup(node, path);
          DeleteLeafStep(RemoveKey(node, path[0]), path);
        }
      }
    } else {
      DeleteFieldStep(node, path);
      if next.Some? {
        var child := DeleteField(next.value, path[1..]).value.0;
        DeleteKeepsWellFormed(next.value, path[1..]);
        MapValuePut(node, path[0], child, other[0]);
        if other[0] == path[0] && |other| > 1 {
          RemoveNeverBlocks(next.value, path[1..], other[1..]);
        }
      }
    }
  }

  /** A set blocks no path except those below its own target. */
  lemma {:induction false} SetBlocksNothingElse(node: Node, path: Path, value: string, other: Path)
    requires node.kind.Mapping? && Paired(node) && SetField(node, path, value).Ok?
    requires !IsPrefix(path, other) && !Blocked(node, other)
    ensures !Blocked(SetField(node, path, value).value.0, other)
    decreases |path|
  {
    var next := MapValue(node, path[0]);
    if |path| == 1 {
      SetLeafStep(node, path[0], value);
      assert other[0] != path[0] by { assert other[..1] == [other[0]]; }
      var leaf := if next.None? then Str(value) else next.value.(tag := "!!str", value := value);
      MapValuePut(node, path[0], leaf, other[0]);
    } else {
      SetFieldStep(node, path, value);
      var child := if next.Some? then next.value else EMPTY_MAP;
      var child' := SetField(child, path[1..], value).value.0;
      SetThenLookup(child, path[1..], value);
      MapValuePut(node, path[0], child', other[0]);
      if other[0] == path[0] && |other| > 1 {
        PrefixTail(path, other);
        if next.None? { EmptyMapHasNothing(other[1..]); }
        SetBlocksNothingElse(child, path[1..], value, other[1..]);
      }
    }
  }

  /** A consistent later edit leaves a settled edit settled. */
  lemma SettledPersists(node: Node, edit: Edit, later: Edit)
    requires WellFormedMap(node) && Settled(node, edit) && Consistent(edit, later)
    requires Apply(node, later).Ok?
    ensures Settled(Apply(node, later).value.0, edit)
  {
    var after := Apply(node, later).value.0;
    ApplySettles(node, later);
    SettledIff(node, edit);
    SettledIff(after, edit);
    match later
    case SetTo(q, w) =>
      if edit.SetTo? && edit.path == q {
        SettledIff(after, later);
      } else {
        SetFrame(node, q, w, edit.path);
        if edit.Remove? { SetBlocksNothingElse(node, q, w, edit.path); }
      }
    case Remove(q) =>
      if edit.SetTo? {
        DeleteFrame(node, q, edit.path);
      } else {
        RemoveNeverBlocks(node, q, edit.path);
      }
  }

  predicate AllSettled(node: Node, edits: seq<Edit>) {
    forall i :: 0 <= i < |edits| ==> Settled(node, edits[i])
  }

  lemma {:induction false} SettledMeansNoChange(node: Node, edits: seq<Edit>)
    ensures AllSettled(node, edits) ==> ApplyAll(node, edits) == Ok((node, false))
    ensures node.kind.Mapping? && ApplyAll(node, edits) == Ok((node, false)) ==> AllSettled(node, edits)
  {
    if edits == [] {
    } else {
      SettledMeansNoChange(node, edits[1..]);
      if AllSettled(node, edits) {
        assert Settled(node, edits[0]);
        assert AllSettled(node, edits[1..]) by {
          assert forall i :: 0 <= i < |edits| - 1 ==> edits[1..][i] == edits[i + 1];
        }
      }
      if node.kind.Mapping? && ApplyAll(node, edits) == Ok((node, false)) {
        UnchangedStays(node, edits[0]);
        assert forall i :: 1 <= i < |edits| ==> edits[i] == edits[1..][i - 1];
      }
    }
  }

  /** A false changed flag means the very same tree. */
  lemma UnchangedStays(node: Node, edit: Edit)
    requires node.kind.Mapping? && Apply(node, edit).Ok? && !Apply(node, edit).value.1
    ensures Apply(node, edit).value.0 == node
  {
    match edit
    case SetTo(path, value) => SetChangedIff(node, path, value);
    case Remove(path) => DeleteChangedIff(node, path);
  }

  lemma {:induction false} ConsistentEditsSettle(node: Node, done: seq<Edit>, edits: seq<Edit>)
    requires WellFormedMap(node) && AllSettled(node, done) && AllConsistent(done + edits)
    requires ApplyAll(node, edits).Ok?
    ensures WellFormedMap(ApplyAll(node, edits).value.0)
    ensures AllSettled(ApplyAll(node, edits).value.0, done + edits)
    decreases |edits|
  {
    if edits == [] {
      assert done + edits == done;
    } else {
      var next := Apply(node, edits[0]).value.0;
      ApplySettles(node, edits[0]);
      forall i | 0 <= i < |done| ensures Settled(next, done[i]) {
        assert (done + edits)[i] == done[i] && (done + edits)[|done|] == edits[0];
        SettledPersists(node, done[i], edits[0]);
      }
      assert done + edits == done + [edits[0]] + edits[1..];
      ConsistentEditsSettle(next, done + [edits[0]], edits[1..]);
    }
  }

  /**
   Running the same edits again on their own result does nothing exactly when the edits are pairwise
   consistent, whatever the document was.
   */
  lemma SecondRunIsNoOpIff(node: Node, edits: seq<Edit>)
    requires WellFormedMap(node) && ApplyAll(node, edits).Ok?
    ensures var once := ApplyAll(node, edits).value.0;
      ApplyAll(once, edits) == Ok((once, false)) <==> AllConsistent(edits)
  {
    hide SetField, DeleteField, Paired, UniqueKeys;
    var once := ApplyAll(node, edits).value.0;
    ApplyAllKeepsWellFormed(node, edits);
    SettledMeansNoChange(once, edits);
    if AllConsistent(edits) {
      assert [] + edits == edits;
      ConsistentEditsSettle(node, [], edits);
    }
    if AllSettled(once, edits) {
      forall i, j | 0 <= i < j < |edits| ensures Consistent(edits[i], edits[j]) {
        SettledTogetherIsConsistent(once, edits[i], edits[j]);
      }
    }
  }

  lemma {:induction false} ApplyAllKeepsWellFormed(node: Node, edits: seq<Edit>)
    requires WellFormedMap(node) && ApplyAll(node, edits).Ok?
    ensures WellFormedMap(ApplyAll(node, edits).value.0)
    decreases |edits|
  {
    if edits == [] {
    } else {
      ApplySettles(node, edits[0]);
      ApplyAllKeepsWellFormed(Apply(node, edits[0]).value.0, edits[1..]);
    }
  }

  // ---- Which sets show in the end ----

  /** The edit leaves its mark on what the path reads: it sets it, something above or something below, or removes it. */
  predicate Decides(edit: Edit, path: Path) {
    match edit
    case SetTo(q, _) => Nested(q, path)
    case Remove(q) => IsPrefix(q, path)
  }

  function LastWord(edits: seq<Edit>, path: Path): Option<Edit> {
    if edits == [] then None
    else
      var later := LastWord(edits[1..], path);
      if later.Some? then later else if Decides(edits[0], path) then Some(edits[0]) else None
  }

  /** An edit that decides nothing about a path changes nothing about a value there. */
  lemma UndecidedStays(node: Node, edit: Edit, path: Path, value: string)
    requires WellFormedMap(node) && Apply(node, edit).Ok? && !Decides(edit, path)
    ensures Holds(Apply(node, edit).value.0, path, value) <==> Holds(node, path, value)
  {
    match edit
    case SetTo(q, v) => SetFrame(node, q, v, path);
    case Remove(q) =>
      if IsPrefix(path, q) {
        assert path != q by { assert q[..|q|] == q; }
        DeleteFailsIff(node, q);
        RemoveNeverBlocks(node, q, q);
        if Holds(node, path, value) { ScalarBlocks(node, path, q); }
        if Holds(Apply(node, edit).value.0, path, value) { ScalarBlocks(Apply(node, edit).value.0, path, q); }
      } else {
        DeleteFrame(node, q, path);
      }
  }

  /** An edit that decides about a path leaves a value there exactly if it sets it. */
  lemma DecidedIs(node: Node, edit: Edit, path: Path, value: string)
    requires WellFormedMap(node) && Apply(node, edit).Ok? && Decides(edit, path)
    ensures Holds(Apply(node, edit).value.0, path, value) <==> edit == SetTo(path, value)
  {
    var after := Apply(node, edit).value.0;
    ApplySettles(node, edit);
    SettledIff(after, edit);
    if Holds(after, path, value) {
      if IsPrefix(edit.path, path) {
        PrefixFound(after, edit.path, path);
      } else {
        ScalarBlocks(after, path, edit.path);
        FoundIsNotBlocked(after, edit.path);
      }
    }
  }

  /** After successful edits a set value shows exactly if its edit has the last word about its path. */
  lemma {:induction false} ShowsIff(node: Node, edits: seq<Edit>, path: Path, value: string)
    requires WellFormedMap(node) && ApplyAll(node, edits).Ok?
    ensures Holds(ApplyAll(node, edits).value.0, path, value) <==>
      var word := LastWord(edits, path); if word.Some? then word.value == SetTo(path, value) else Holds(node, path, value)
    decreases |edits|
  {
    if edits == [] {
    } else {
      hide Apply, Decides, Holds, WellFormedMap;
      var next := Apply(node, edits[0]).value.0;
      ApplySettles(node, edits[0]);
      ShowsIff(next, edits[1..], path, value);
      if LastWord(edits[1..], path).None? {
        if Decides(edits[0], path) { DecidedIs(node, edits[0], path, value); } else { UndecidedStays(node, edits[0], path, value); }
      }
    }
  }

  /** Every set has the last word about its path. */
  predicate AllShow(edits: seq<Edit>) {
    forall i :: 0 <= i < |edits| && edits[i].SetTo? ==> LastWord(edits, edits[i].path) == Some(edits[i])
  }

  lemma {:induction false} DecidesItself(edits: seq<Edit>, i: nat)
    requires i < |edits| && edits[i].SetTo?
    ensures LastWord(edits, edits[i].path).Some?
    decreases i
  {
    if i == 0 {
      assert edits[0].path[..|edits[0].path|] == edits[0].path;
    } else {
      DecidesItself(edits[1..], i - 1);
    }
  }

  // ---- The update of one values file ----

  const REPOSITORY_FIELD: string := "image.repository"
  const TAG_FIELD: string := "image.tag"
  const DIGEST_FIELD: string := "image.digest"

  datatype Config = Config(repositoryField: string, tagField: string, digestField: string)

  /** A field as configured, or its default. */
  function FieldOr(field: string, fallback: string): Result<Path, EditError> {
    FieldParts(if field == "" then fallback else field)
  }

  /** Set the named field, or delete it when the value is empty. */
  function SetOrDelete(node: Node, field: string, fallback: string, value: string): Result<(Node, bool), EditError> {
    match FieldOr(field, fallback)
    case Err(e) => Err(e)
    case Ok(path) => if value == "" then DeleteField(node, path) else SetField(node, path, value)
  }

  function Then(first: Result<(Node, bool), EditError>, second: Result<(Node, bool), EditError>): Result<(Node, bool), EditError> {
    if first.Err? then first
    else if second.Err? then second
    else Ok((second.value.0, first.value.1 || second.value.1))
  }

  /** updateHelmValuesConfigured: the updated document and its changed flag. The repository is never empty. */
  function UpdateHelm(root: Node, config: Config, image: Image): Result<(Node, bool), EditError>
    requires image.repository != ""
  {
    if !root.kind.Mapping? then Err(RootNotAMapping)
    else
      var repository := SetOrDelete(root, config.repositoryField, REPOSITORY_FIELD, image.repository);
      if repository.Err? then repository
      else
        var tag := SetOrDelete(repository.value.0, config.tagField, TAG_FIELD, image.tag);
        if tag.Err? then tag
        else
          var digest := SetOrDelete(tag.value.0, config.digestField, DIGEST_FIELD, image.digest);
          Then(Then(repository, tag), digest)
  }

  /** The three fields, when all are well-formed. */
  function FieldsOf(config: Config): Option<Fields> {
    var r := FieldOr(config.repositoryField, REPOSITORY_FIELD);
    var t := FieldOr(config.tagField, TAG_FIELD);
    var d := FieldOr(config.digestField, DIGEST_FIELD);
    if r.Ok? && t.Ok? && d.Ok? then Some(Fields(r.value, t.value, d.value)) else None
  }

  lemma ApplyThree(node: Node, a: Edit, b: Edit, c: Edit)
    ensures var first := Apply(node, a);
      ApplyAll(node, [a, b, c]) ==
        if first.Err? then first
        else
          var second := Apply(first.value.0, b);
          if second.Err? then second else Then(Then(first, second), Apply(second.value.0, c))
  {
    hide Apply;
    assert [a, b, c][1..] == [b, c] && [b, c][1..] == [c] && [c][1..] == [];
    var first := Apply(node, a);
    if first.Ok? {
      var second := Apply(first.value.0, b);
      if second.Ok? {
        assert ApplyAll(second.value.0, [c]) == Apply(second.value.0, c);
      }
      assert ApplyAll(first.value.0, [b, c]).Ok? ==> second.Ok?;
    }
  }

  /** The update is the three edits in order when the fields are well-formed, and fails otherwise. */
  lemma UpdateIsItsEdits(root: Node, config: Config, image: Image)
    requires image.repository != ""
    ensures UpdateHelm(root, config, image).Ok? ==> root.kind.Mapping? && FieldsOf(config).Some?
    ensures root.kind.Mapping? && FieldsOf(config).Some? ==>
      UpdateHelm(root, config, image) == ApplyAll(root, HelmEdits(FieldsOf(config).value, image))
  {
    hide SetField, DeleteField, FieldParts;
    if root.kind.Mapping? && FieldsOf(config).Some? {
      var edits := HelmEdits(FieldsOf(config).value, image);
      ApplyThree(root, edits[0], edits[1], edits[2]);
    }
  }

  /** Updating a values file twice is updating it once, exactly when the configured fields do not get in each other's way. */
  lemma HelmIsIdempotentIff(root: Node, config: Config, image: Image)
    requires image.repository != "" && Paired(root) && UniqueKeys(root) && UpdateHelm(root, config, image).Ok?
    ensures var once := UpdateHelm(root, config, image).value.0;
      && FieldsOf(config).Some?
      && (UpdateHelm(once, config, image) == Ok((once, false)) <==> AllConsistent(HelmEdits(FieldsOf(config).value, image)))
  {
    UpdateIsItsEdits(root, config, image);
    var edits := HelmEdits(FieldsOf(config).value, image);
    ApplyAllKeepsWellFormed(root, edits);
    UpdateIsItsEdits(UpdateHelm(root, config, image).value.0, config, image);
    SecondRunIsNoOpIff(root, edits);
  }

  /** After an update with compatible fields, the file names the release's image and nothing of the one before. */
  lemma UpdatedFileNamesTheImage(root: Node, config: Config, image: Image)
    requires image.repository != "" && Paired(root) && UniqueKeys(root) && UpdateHelm(root, config, image).Ok?
    requires FieldsOf(config).Some? && AllConsistent(HelmEdits(FieldsOf(config).value, image))
    ensures var once, fields := UpdateHelm(root, config, image).value.0, FieldsOf(config).value;
      && Holds(once, fields.repository, image.repository)
      && (if image.tag != "" then Holds(once, fields.tag, image.tag) else Lookup(once, fields.tag).None?)
      && (if image.digest != "" then Holds(once, fields.digest, image.digest) else Lookup(once, fields.digest).None?)
  {
    hide SetField, DeleteField, FieldParts, Paired, UniqueKeys, Lookup;
    UpdateIsItsEdits(root, config, image);
    var edits := HelmEdits(FieldsOf(config).value, image);
    var once := UpdateHelm(root, config, image).value.0;
    ConsistentEditsSettle(root, [], edits);
    assert [] + edits == edits;
    forall i | 0 <= i < 3 ensures Reflects(once, edits[i]) {
      SettledIff(once, edits[i]);
    }
    assert Reflects(once, edits[0]) && Reflects(once, edits[1]) && Reflects(once, edits[2]);
  }

  /** The image as the file names it: what is set can be read. */
  predicate NamesImage(root: Node, fields: Fields, image: Image) {
    && Holds(root, fields.repository, image.repository)
    && (image.tag != "" ==> Holds(root, fields.tag, image.tag))
    && (image.digest != "" ==> Holds(root, fields.digest, image.digest))
  }

  /** After any successful update the file names the image exactly if every set field has the last word about its path. */
  lemma NamesImageIff(root: Node, config: Config, image: Image)
    requires image.repository != "" && Paired(root) && UniqueKeys(root) && UpdateHelm(root, config, image).Ok?
    ensures FieldsOf(config).Some?
    ensures var fields := FieldsOf(config).value;
      NamesImage(UpdateHelm(root, config, image).value.0, fields, image) <==> AllShow(HelmEdits(fields, image))
  {
    hide UpdateHelm, FieldsOf, Paired, UniqueKeys, Holds, Decides, ApplyAll, LastWord;
    UpdateIsItsEdits(root, config, image);
    var edits := HelmEdits(FieldsOf(config).value, image);
    forall i | 0 <= i < 3 && edits[i].SetTo?
      ensures Holds(UpdateHelm(root, config, image).value.0, edits[i].path, edits[i].value)
        <==> LastWord(edits, edits[i].path) == Some(edits[i])
    {
      ShowsIff(root, edits, edits[i].path, edits[i].value);
      DecidesItself(edits, i);
    }
    assert edits[0].SetTo? && (image.tag != "" <==> edits[1].SetTo?) && (image.digest != "" <==> edits[2].SetTo?);
  }

  const IMAGE_FIELDS := Fields(["image", "repository"], ["image", "tag"], ["image", "digest"])

  /** The default fields never conflict, so with them the second update is always a no-op. */
  lemma DefaultFieldsAreConsistent(image: Image)
    ensures FieldsOf(Config("", "", "")) == Some(IMAGE_FIELDS) && AllConsistent(HelmEdits(IMAGE_FIELDS, image))
  {
    DefaultFields();
    DefaultFieldsDiffer();
    ApartIsConsistent(IMAGE_FIELDS, image);
  }

  /** Each field is the one configured for it, or else the default one. */
  lemma FieldsAreConfigured(config: Config)
    requires FieldsOf(config).Some?
    ensures var fields := FieldsOf(config).value;
      && (if config.repositoryField != "" then FieldParts(config.repositoryField) == Ok(fields.repository)
          else fields.repository == ["image", "repository"])
      && (if config.tagField != "" then FieldParts(config.tagField) == Ok(fields.tag) else fields.tag == ["image", "tag"])
      && (if config.digestField != "" then FieldParts(config.digestField) == Ok(fields.digest)
          else fields.digest == ["image", "digest"])
  {
    hide FieldParts;
    DefaultFields();
  }

  /** The update fails on what is no mapping, on fields that cannot be read, and where one of its three edits fails. */
  lemma UpdateFailsIff(root: Node, config: Config, image: Image)
    requires image.repository != ""
    ensures UpdateHelm(root, config, image).Err? <==>
      || !root.kind.Mapping? || FieldsOf(config).None?
      || ApplyAll(root, HelmEdits(FieldsOf(config).value, image)).Err?
    ensures !root.kind.Mapping? ==> UpdateHelm(root, config, image) == Err(RootNotAMapping)
  {
    hide FieldsOf, HelmEdits, ApplyAll, SetOrDelete;
    UpdateIsItsEdits(root, config, image);
  }

  lemma DefaultFields()
    ensures FieldsOf(Config("", "", "")) == Some(IMAGE_FIELDS)
  {
    hide FieldParts;
    TwoSegments("image", "repository");
    TwoSegments("image", "tag");
    TwoSegments("image", "digest");
    assert "image" + "." + "repository" == "image.repository";
    assert "image" + "." + "tag" == "image.tag";
    assert "image" + "." + "digest" == "image.digest";
  }

  lemma DefaultFieldsDiffer()
    ensures Apart(IMAGE_FIELDS)
  {
    hide Nested;
    assert "repository" != "tag" && "repository" != "digest" && "tag" != "digest";
    NotNested(IMAGE_FIELDS.repository, IMAGE_FIELDS.tag);
    NotNested(IMAGE_FIELDS.repository, IMAGE_FIELDS.digest);
    NotNested(IMAGE_FIELDS.tag, IMAGE_FIELDS.digest);
  }

  predicate Apart(fields: Fields) {
    !Nested(fields.repository, fields.tag) && !Nested(fields.repository, fields.digest) && !Nested(fields.tag, fields.digest)
  }

  /** Fields none of which is inside another never conflict. */
  lemma ApartIsConsistent(fields: Fields, image: Image)
    requires Apart(fields)
    ensures AllConsistent(HelmEdits(fields, image))
  {
    assert forall p: Path :: p[..|p|] == p;
  }

  lemma NotNested(p: Path, q: Path)
    requires |p| == |q| && p != q
    ensures !Nested(p, q)
  {
    assert q[..|p|] == q && p[..|q|] == p;
  }

  lemma TwoSegments(a: string, b: string)
    requires a != "" && b != "" && '.' !in a && '.' !in b
    requires !Space(a[0]) && !Space(b[|b| - 1])
    ensures FieldParts(a + "." + b) == Ok([a, b])
  {
    var s := a + "." + b;
    assert s[0] == a[0] && s[|s| - 1] == b[|b| - 1];
    assert Join([a, b]) == s by { assert [a, b][1..] == [b]; }
    FieldPartsIff(s, [a, b]);
  }

  lemma UpdateKeepsWellFormed(root: Node, config: Config, image: Image)
    requires image.repository != "" && Paired(root) && UniqueKeys(root) && UpdateHelm(root, config, image).Ok?
    ensures var once := UpdateHelm(root, config, image).value.0; Paired(once) && UniqueKeys(once)
  {
    UpdateIsItsEdits(root, config, image);
    ApplyAllKeepsWellFormed(root, HelmEdits(FieldsOf(config).value, image));
  }

  lemma {:induction false} UnchangedRunStays(node: Node, edits: seq<Edit>)
    requires WellFormedMap(node) && ApplyAll(node, edits).Ok? && !ApplyAll(node, edits).value.1
    ensures ApplyAll(node, edits).value.0 == node
    decreases |edits|
  {
    if edits == [] {
    } else {
      UnchangedStays(node, edits[0]);
      UnchangedRunStays(node, edits[1..]);
    }
  }

  /** No change reported means the very same document, which then names the release's image. */
  lemma UnchangedUpdate(root: Node, config: Config, image: Image)
    requires image.repository != "" && Paired(root) && UniqueKeys(root)
    requires UpdateHelm(root, config, image).Ok? && !UpdateHelm(root, config, image).value.1
    ensures UpdateHelm(root, config, image).value.0 == root && FieldsOf(config).Some?
    ensures NamesImage(root, FieldsOf(config).value, image)
  {
    hide SetField, DeleteField, FieldParts, Paired, UniqueKeys, Lookup;
    UpdateIsItsEdits(root, config, image);
    var edits := HelmEdits(FieldsOf(config).value, image);
    UnchangedRunStays(root, edits);
    SettledMeansNoChange(root, edits);
    forall i | 0 <= i < 3 ensures Reflects(root, edits[i]) {
      SettledIff(root, edits[i]);
    }
    assert Reflects(root, edits[0]) && Reflects(root, edits[1]) && Reflects(root, edits[2]);
  }
}
