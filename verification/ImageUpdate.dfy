/**
 The image update of a whole repository (updateImageFilesConfigured in internal/gitops/provider.go), for each strategy: a
 Helm values file, a Kustomize file or raw manifests. What one run leaves for a second one, what can be read in the result,
 and what the next run does when others have changed the rest.
 */
module ImageUpdate {
  import opened Wrappers
  import opened YamlTree
  import opened ImageRef
  import Helm
  import HelmBesideOthers
  import HelmSecondRun
  import Kustomize
  import RawWorkload

  /** The part of the repository a strategy looks at, parsed. */
  datatype Content =
    | HelmValues(root: Node)
    | Kustomization(doc: Kustomize.Doc)
    | Manifests(docs: seq<Node>)

  datatype Strategy =
    | HelmValuesStrategy(config: Helm.Config)
    | KustomizeImage(name: string)
    | RawYaml(selector: RawWorkload.Selector)

  datatype UpdateError =
    | OtherContent
    | HelmError(helm: EditError)
    | KustomizeError(kustomize: Kustomize.KustomizeError)
    | RawError(raw: RawWorkload.RawError)

  function UpdateFiles(strategy: Strategy, content: Content, image: Image): Result<(Content, bool), UpdateError>
    requires image.repository != ""
  {
    match (strategy, content)
    case (HelmValuesStrategy(config), HelmValues(root)) =>
      (match Helm.UpdateHelm(root, config, image)
       case Err(e) => Err(HelmError(e))
       case Ok((after, changed)) => Ok((HelmValues(after), changed)))
    case (KustomizeImage(name), Kustomization(doc)) =>
      (match Kustomize.Update(doc, image, name)
       case Err(e) => Err(KustomizeError(e))
       case Ok((after, changed)) => Ok((Kustomization(after), changed)))
    case (RawYaml(selector), Manifests(docs)) =>
      (match RawWorkload.UpdateRaw(docs, image, selector)
       case Err(e) => Err(RawError(e))
       case Ok((after, changed)) => Ok((Manifests(after), changed)))
    case (_, _) => Err(OtherContent)
  }

  /** Running the update would change nothing. */
  predicate UpToDate(strategy: Strategy, content: Content, image: Image)
    requires image.repository != ""
  {
    UpdateFiles(strategy, content, image) == Ok((content, false))
  }

  /** What a YAML parser delivers, with unique mapping keys. */
  ghost predicate WellFormed(content: Content) {
    content.HelmValues? ==> Paired(content.root) && UniqueKeys(content.root)
  }

  /** Running the update, if it succeeds, would leave the content as it is, whatever it reports. */
  predicate Final(strategy: Strategy, content: Content, image: Image)
    requires image.repository != ""
  {
    UpdateFiles(strategy, content, image).Ok? ==> UpdateFiles(strategy, content, image).value.0 == content
  }

  /** When one run of the update leaves nothing to report for a second one. */
  ghost predicate Settles(strategy: Strategy, content: Content, image: Image) {
    match strategy
    case HelmValuesStrategy(config) =>
      Helm.FieldsOf(config).Some? ==> Helm.AllConsistent(Helm.HelmEdits(Helm.FieldsOf(config).value, image))
    case KustomizeImage(_) => true
    case RawYaml(selector) =>
      content.Manifests? && exists i :: 0 <= i < |content.docs| && RawWorkload.Rematches(content.docs[i], image, selector)
  }

  /** The repository names the release's image where the strategy puts it. */
  ghost predicate Carries(strategy: Strategy, content: Content, image: Image) {
    match (strategy, content)
    case (HelmValuesStrategy(config), HelmValues(root)) =>
      && Helm.FieldsOf(config).Some?
      && Helm.NamesImage(root, Helm.FieldsOf(config).value, image)
    case (KustomizeImage(name), Kustomization(doc)) =>
      && "images" in doc && doc["images"].List?
      && var at := Kustomize.FirstNamed(doc["images"].items, Kustomize.ImageName(image, name));
      && at.Some? && Kustomize.NamesImage(doc["images"].items[at.value].fields, image)
    case (RawYaml(selector), Manifests(docs)) =>
      exists i :: 0 <= i < |docs| && RawWorkload.RunsImage(docs[i], image, selector)
    case (_, _) => false
  }

  /** One run of the update is enough for its content, under every strategy and every configuration. */
  lemma UpdateIsFinal(strategy: Strategy, content: Content, image: Image)
    requires image.repository != "" && WellFormed(content) && UpdateFiles(strategy, content, image).Ok?
    ensures Final(strategy, UpdateFiles(strategy, content, image).value.0, image)
  {
    hide Helm.UpdateHelm, Kustomize.Update;
    hide RawWorkload.UpdateRaw, RawWorkload.Rematches;
    match (strategy, content)
    case (HelmValuesStrategy(config), HelmValues(root)) => HelmSecondRun.SecondUpdateIs(root, config, image);
    case (KustomizeImage(name), Kustomization(doc)) => Kustomize.SecondRunIsNoOp(doc, image, name);
    case (RawYaml(selector), Manifests(docs)) => RawWorkload.SecondRawRun(docs, image, selector);
  }

  /** A second run reports nothing exactly when the update settles on the content, before the first run or after it. */
  lemma UpToDateIff(strategy: Strategy, content: Content, image: Image)
    requires image.repository != "" && WellFormed(content) && UpdateFiles(strategy, content, image).Ok?
    ensures var once := UpdateFiles(strategy, content, image).value.0;
      && (UpToDate(strategy, once, image) <==> Settles(strategy, content, image))
      && (Settles(strategy, once, image) <==> Settles(strategy, content, image))
  {
    hide Helm.UpdateHelm, Helm.FieldsOf, Helm.AllConsistent, Kustomize.Update;
    hide RawWorkload.UpdateRaw, RawWorkload.Rematches;
    match (strategy, content)
    case (HelmValuesStrategy(config), HelmValues(root)) => Helm.HelmIsIdempotentIff(root, config, image);
    case (KustomizeImage(name), Kustomization(doc)) => Kustomize.SecondRunIsNoOp(doc, image, name);
    case (RawYaml(selector), Manifests(docs)) =>
      RawWorkload.SecondRawRun(docs, image, selector);
      RawWorkload.RematchesStays(docs, image, selector);
  }

  lemma UpdateKeepsWellFormed(strategy: Strategy, content: Content, image: Image)
    requires image.repository != "" && WellFormed(content) && UpdateFiles(strategy, content, image).Ok?
    ensures WellFormed(UpdateFiles(strategy, content, image).value.0)
  {
    hide Helm.UpdateHelm, Kustomize.Update, RawWorkload.UpdateRaw;
    if strategy.HelmValuesStrategy? && content.HelmValues? {
      Helm.UpdateKeepsWellFormed(content.root, strategy.config, image);
    }
  }

  /** An update that reports no change leaves a repository that carries the image, as it was. */
  lemma UnchangedCarries(strategy: Strategy, content: Content, image: Image)
    requires image.repository != "" && WellFormed(content)
    requires UpdateFiles(strategy, content, image).Ok? && !UpdateFiles(strategy, content, image).value.1
    ensures UpToDate(strategy, content, image) && Carries(strategy, content, image)
  {
    hide Helm.UpdateHelm, Kustomize.Update, RawWorkload.UpdateRaw, Kustomize.NamesImage, RawWorkload.RunsImage;
    match (strategy, content)
    case (HelmValuesStrategy(config), HelmValues(root)) => Helm.UnchangedUpdate(root, config, image);
    case (KustomizeImage(name), Kustomization(doc)) => Kustomize.UnchangedUpdate(doc, image, name);
    case (RawYaml(selector), Manifests(docs)) => RawWorkload.UnchangedUpdate(docs, image, selector);
  }

  /** When what one run writes can be read in its result, before it or after it. */
  ghost predicate Shows(strategy: Strategy, content: Content, image: Image) {
    match strategy
    case HelmValuesStrategy(config) =>
      Helm.FieldsOf(config).Some? ==> Helm.AllShow(Helm.HelmEdits(Helm.FieldsOf(config).value, image))
    case KustomizeImage(_) => true
    case RawYaml(selector) =>
      content.Manifests? && exists i :: 0 <= i < |content.docs| && RawWorkload.Rematches(content.docs[i], image, selector)
  }

  /** The result of an update carries the image exactly if it shows, by the fields and the image alone but for manifests. */
  lemma CarriesIff(strategy: Strategy, content: Content, image: Image)
    requires image.repository != "" && WellFormed(content) && UpdateFiles(strategy, content, image).Ok?
    ensures var once := UpdateFiles(strategy, content, image).value.0;
      && (Carries(strategy, once, image) <==> Shows(strategy, content, image))
      && (Shows(strategy, once, image) <==> Shows(strategy, content, image))
  {
    hide Helm.UpdateHelm, Helm.FieldsOf, Helm.AllShow, Helm.NamesImage, Kustomize.Update;
    hide RawWorkload.UpdateRaw, RawWorkload.Rematches;
    match (strategy, content)
    case (HelmValuesStrategy(config), HelmValues(root)) => Helm.NamesImageIff(root, config, image);
    case (KustomizeImage(name), Kustomization(doc)) =>
      Kustomize.SecondRunIsNoOp(doc, image, name);
      Kustomize.UnchangedUpdate(Kustomize.Update(doc, image, name).value.0, image, name);
    case (RawYaml(selector), Manifests(docs)) =>
      RawWorkload.SomeRunIff(docs, image, selector);
      RawWorkload.RematchesStays(docs, image, selector);
  }

  // ---- Contents that others have changed elsewhere ----

  /**
   What the update is about reads as before: the configured fields of the values file, the first entry of the name, or the
   chosen containers.
   */
  predicate Undisturbed(strategy: Strategy, before: Content, after: Content, image: Image) {
    match (strategy, before, after)
    case (HelmValuesStrategy(config), HelmValues(was), HelmValues(now)) =>
      Helm.FieldsOf(config).Some? ==> HelmBesideOthers.FieldsUndisturbed(was, now, Helm.FieldsOf(config).value, image)
    case (KustomizeImage(name), Kustomization(was), Kustomization(now)) =>
      Kustomize.NamedEntry(now, Kustomize.ImageName(image, name)) == Kustomize.NamedEntry(was, Kustomize.ImageName(image, name))
    case (RawYaml(selector), Manifests(was), Manifests(now)) =>
      RawWorkload.AllChosen(now, selector, image.repository) == RawWorkload.AllChosen(was, selector, image.repository)
    case (_, _, _) => before == after
  }

  /** The update may change a content again in which what it is about reads as it left it. */
  predicate Restless(strategy: Strategy, image: Image) {
    strategy.HelmValuesStrategy? && Helm.FieldsOf(strategy.config).Some? &&
    HelmBesideOthers.RestlessFields(Helm.FieldsOf(strategy.config).value, image)
  }

  lemma UndisturbedIsTransitive(strategy: Strategy, a: Content, b: Content, c: Content, image: Image)
    requires Undisturbed(strategy, a, b, image) && Undisturbed(strategy, b, c, image)
    ensures Undisturbed(strategy, a, c, image)
  {
    hide Helm.FieldsOf, Helm.HelmEdits, Kustomize.NamedEntry, RawWorkload.AllChosen, Lookup, Blocked;
  }

  /** Unless it is restless, the update of a content that reads like its result fails or leaves it as it is. */
  lemma StaysFinal(strategy: Strategy, before: Content, content: Content, image: Image)
    requires image.repository != "" && WellFormed(before) && WellFormed(content) && UpdateFiles(strategy, before, image).Ok?
    requires Undisturbed(strategy, UpdateFiles(strategy, before, image).value.0, content, image) && !Restless(strategy, image)
    ensures Final(strategy, content, image)
  {
    hide Helm.UpdateHelm, Helm.FieldsOf, Kustomize.Update, RawWorkload.UpdateRaw, RawWorkload.AllChosen, Kustomize.NamedEntry,
      HelmBesideOthers.RestlessFields, HelmBesideOthers.FieldsUndisturbed;
    match (strategy, before, content)
    case (HelmValuesStrategy(config), HelmValues(root), HelmValues(x)) =>
      Helm.UpdateIsItsEdits(root, config, image);
      HelmBesideOthers.UpdateStaysFinal(root, x, config, image);
    case (KustomizeImage(name), Kustomization(doc), Kustomization(x)) => Kustomize.StaysFinal(doc, x, image, name);
    case (RawYaml(selector), Manifests(docs), Manifests(x)) => RawWorkload.StaysFinal(docs, x, image, selector);
    case (_, _, _) =>
  }

  /** A restless update changes some content, and changes it again once it is put back with all fields alike. */
  lemma RestlessMoves(strategy: Strategy, image: Image) returns (content: Content)
    requires image.repository != "" && Restless(strategy, image)
    ensures WellFormed(content) && UpdateFiles(strategy, content, image).Ok?
    ensures var once := UpdateFiles(strategy, content, image).value.0;
      once != content && WellFormed(once) && Undisturbed(strategy, once, content, image)
  {
    hide Helm.UpdateHelm, Helm.FieldsOf, HelmBesideOthers.RestlessFields, HelmBesideOthers.FieldsUndisturbed;
    var root := HelmBesideOthers.RestlessUpdateMoves(strategy.config, image);
    content := HelmValues(root);
    UpdateKeepsWellFormed(strategy, content, image);
  }
}
