/** The Kustomize images update (updateKustomizationConfigured in internal/gitops/provider.go). */
module Kustomize {
  import opened Wrappers
  import opened ImageRef

  /** A decoded YAML value; Other stands for every scalar that is not a string. */
  datatype Value = Text(text: string) | Fields(fields: map<string, Value>) | List(items: seq<Value>) | Other(literal: string)

  type Doc = map<string, Value>

  datatype KustomizeError = ImagesNotAList | ImageNotFound(name: string)

  function TextOf(item: Doc, key: string): string {
    if key in item && item[key].Text? then item[key].text else ""
  }

  predicate Names(item: Value, name: string) {
    item.Fields? && TextOf(item.fields, "name") == name
  }

  /** The entry as it should read: the release's image, by digest if it has one, else by tag. */
  function Retarget(item: Doc, name: string, image: Image): Doc {
    var named := item["name" := Text(name)]["newName" := Text(image.repository)];
    if image.digest != "" then named["digest" := Text(image.digest)] - {"newTag"}
    else if image.tag != "" then (named - {"digest"})["newTag" := Text(image.tag)]
    else named - {"digest", "newTag"}
  }

  function FirstNamed(items: seq<Value>, name: string): (r: Option<nat>)
    ensures r.Some? ==> r.value < |items| && Names(items[r.value], name)
    ensures forall j :: 0 <= j < (if r.Some? then r.value else |items|) ==> !Names(items[j], name)
  {
    if items == [] then None
    else if Names(items[0], name) then Some(0)
    else
      var rest := FirstNamed(items[1..], name);
      if rest.None? then None else Some(rest.value + 1)
  }

  function ImageName(image: Image, configured: string): string {
    if configured == "" then image.repository else configured
  }

  /** The updated document and whether it differs. */
  function Update(doc: Doc, image: Image, configured: string): Result<(Doc, bool), KustomizeError> {
    var name := ImageName(image, configured);
    if "images" in doc && !doc["images"].List? then Err(ImagesNotAList)
    else
      var items := if "images" in doc then doc["images"].items else [];
      var at := FirstNamed(items, name);
      if at.Some? then
        var item := items[at.value].fields;
        var item' := Retarget(item, name, image);
        if item' == item then Ok((doc, false))
        else Ok((doc["images" := List(items[at.value := Fields(item')])], true))
      else if configured != "" then Err(ImageNotFound(configured))
      else Ok((doc["images" := List(items + [Fields(Retarget(map[], name, image))])], true))
  }

  method SetMapString(values: Doc, key: string, value: string) returns (after: Doc, changed: bool)
    ensures after == values[key := Text(value)] && (changed <==> after != values)
  {
    if key in values && values[key].Text? && values[key].text == value {
      return values, false;
    }
    after, changed := values[key := Text(value)], true;
    assert key !in values || values[key] != after[key];
  }

  method DeleteMapKey(values: Doc, key: string) returns (after: Doc, changed: bool)
    ensures after == values - {key} && (changed <==> after != values)
  {
    if key !in values {
      assert values - {key} == values;
      return values, false;
    }
    after, changed := values - {key}, true;
    assert key !in after;
  }

  /** The five in-place edits of one entry; changed collects their flags. */
  method RetargetItem(item: Doc, name: string, image: Image) returns (after: Doc, changed: bool)
    requires TextOf(item, "name") == name
    ensures after == Retarget(item, name, image) && (changed <==> after != item)
  {
    var c1, c2, c3, c4;
    var named, renamed, third;
    named, c1 := SetMapString(item, "name", name);
    renamed, c2 := SetMapString(named, "newName", image.repository);
    if image.digest != "" {
      third, c3 := SetMapString(renamed, "digest", image.digest);
      after, c4 := DeleteMapKey(third, "newTag");
    } else {
      third, c3 := DeleteMapKey(renamed, "digest");
      if image.tag != "" {
        after, c4 := SetMapString(third, "newTag", image.tag);
      } else {
        after, c4 := DeleteMapKey(third, "newTag");
        assert after == renamed - {"digest", "newTag"};
      }
    }
    changed := c1 || c2 || c3 || c4;
    RetargetChanges(item, name, image);
  }

  /** The entry names the image's version: its digest if it has one, else its tag if it has one, and nothing more. */
  predicate Versioned(item: Doc, image: Image) {
    if image.digest != "" then "digest" in item && item["digest"] == Text(image.digest) && "newTag" !in item
    else if image.tag != "" then "digest" !in item && "newTag" in item && item["newTag"] == Text(image.tag)
    else "digest" !in item && "newTag" !in item
  }

  /** The entry points at the release's image. */
  predicate NamesImage(item: Doc, image: Image) {
    "newName" in item && item["newName"] == Text(image.repository) && Versioned(item, image)
  }

  /** The entry differs as soon as one of its four fields does. */
  lemma RetargetChanges(item: Doc, name: string, image: Image)
    ensures Retarget(item, name, image) == item <==>
      && "name" in item && item["name"] == Text(name)
      && "newName" in item && item["newName"] == Text(image.repository)
      && Versioned(item, image)
  {
    var after := Retarget(item, name, image);
    assert "name" != "newName" && "name" != "digest" && "name" != "newTag";
    assert "newName" != "digest" && "newName" != "newTag" && "digest" != "newTag";
    assert "name" in after && after["name"] == Text(name);
    assert "newName" in after && after["newName"] == Text(image.repository);
  }

  method UpdateKustomization(kustomization: Doc, image: Image, configured: string)
    returns (result: Result<(Doc, bool), KustomizeError>)
    ensures result == Update(kustomization, image, configured)
  {
    if "images" in kustomization && !kustomization["images"].List? {
      return Err(ImagesNotAList);
    }
    var images := if "images" in kustomization then kustomization["images"].items else [];
    var imageName := configured;
    if imageName == "" {
      imageName := image.repository;
    }
    var before := images;
    var updated, changed := false, false;
    var i := 0;
    while i < |images| && !updated
      invariant 0 <= i <= |before|
      invariant !updated ==> images == before && !changed && forall j :: 0 <= j < i ==> !Names(before[j], imageName)
      invariant updated ==>
        FirstNamed(before, imageName).Some? &&
        var at := FirstNamed(before, imageName).value;
        var item' := Retarget(before[at].fields, imageName, image);
        images == before[at := Fields(item')] && (changed <==> item' != before[at].fields)
    {
      if images[i].Fields? && TextOf(images[i].fields, "name") == imageName {
        var item;
        item, changed := RetargetItem(images[i].fields, imageName, image);
        FirstNamedIs(before, imageName, i);
        images := images[i := Fields(item)];
        updated := true;
      }
      i := i + 1;
    }
    if !updated {
      assert FirstNamed(before, imageName).None?;
      if configured != "" {
        return Err(ImageNotFound(configured));
      }
      var item: Doc := map["name" := Text(imageName), "newName" := Text(image.repository)];
      if image.digest != "" {
        item := item["digest" := Text(image.digest)];
      } else if image.tag != "" {
        item := item["newTag" := Text(image.tag)];
      }
      assert item == Retarget(map[], imageName, image);
      images := images + [Fields(item)];
      changed := true;
    }
    if !changed {
      return Ok((kustomization, false));
    }
    return Ok((kustomization["images" := List(images)], true));
  }

  lemma FirstNamedIs(items: seq<Value>, name: string, i: nat)
    requires i < |items| && Names(items[i], name)
    requires forall j :: 0 <= j < i ==> !Names(items[j], name)
    ensures FirstNamed(items, name) == Some(i)
  {
  }

  lemma RetargetTwice(item: Doc, name: string, image: Image)
    ensures Retarget(Retarget(item, name, image), name, image) == Retarget(item, name, image)
    ensures TextOf(Retarget(item, name, image), "name") == name
  {
    RetargetChanges(Retarget(item, name, image), name, image);
    assert "name" != "newName" && "name" != "digest" && "name" != "newTag";
    assert "newName" != "digest" && "newName" != "newTag" && "digest" != "newTag";
  }

  /** A second run on the updated file reports no change, whatever the file and the image were. */
  lemma SecondRunIsNoOp(doc: Doc, image: Image, configured: string)
    requires Update(doc, image, configured).Ok?
    ensures var once := Update(doc, image, configured).value.0;
      Update(once, image, configured) == Ok((once, false))
  {
    var name := ImageName(image, configured);
    var items := if "images" in doc then doc["images"].items else [];
    var at := FirstNamed(items, name);
    if at.Some? {
      RetargetTwice(items[at.value].fields, name, image);
      var item' := Retarget(items[at.value].fields, name, image);
      FirstNamedIs(items[at.value := Fields(item')], name, at.value);
    } else {
      RetargetTwice(map[], name, image);
      var added := Fields(Retarget(map[], name, image));
      FirstNamedIs(items + [added], name, |items|);
      assert (items + [added])[|items|] == added;
    }
  }

  /** changed is false exactly when the document is unchanged. */
  lemma ChangedIff(doc: Doc, image: Image, configured: string)
    requires Update(doc, image, configured).Ok?
    ensures var (after, changed) := Update(doc, image, configured).value; changed <==> after != doc
  {
    var name := ImageName(image, configured);
    var items := if "images" in doc then doc["images"].items else [];
    var (after, changed) := Update(doc, image, configured).value;
    if changed {
      var at := FirstNamed(items, name);
      if at.Some? {
        assert after["images"].items[at.value] != items[at.value];
      } else {
        assert |after["images"].items| == |items| + 1;
      }
    }
  }

  /** Only one entry and no other part of the file is touched, and that entry is the first of its name. */
  lemma OnlyTheNamedEntryChanges(doc: Doc, image: Image, configured: string) returns (at: nat)
    requires Update(doc, image, configured).Ok?
    ensures var doc' := Update(doc, image, configured).value.0;
      var before := if "images" in doc then doc["images"].items else [];
      && doc' - {"images"} == doc - {"images"}
      && "images" in doc' && doc'["images"].List? && at < |doc'["images"].items|
      && var after := doc'["images"].items;
      && FirstNamed(after, ImageName(image, configured)) == Some(at)
      && Retarget(after[at].fields, ImageName(image, configured), image) == after[at].fields
      && (if at < |before| then |after| == |before| else at == |before| && |after| == |before| + 1 && configured == "")
      && forall j :: 0 <= j < |before| && j != at ==> after[j] == before[j]
  {
    var name := ImageName(image, configured);
    var items := if "images" in doc then doc["images"].items else [];
    var found := FirstNamed(items, name);
    at := if found.Some? then found.value else |items|;
    SecondRunIsNoOp(doc, image, configured);
    if found.Some? {
      RetargetTwice(items[at].fields, name, image);
      FirstNamedIs(items[at := Fields(Retarget(items[at].fields, name, image))], name, at);
    } else {
      RetargetTwice(map[], name, image);
      FirstNamedIs(items + [Fields(Retarget(map[], name, image))], name, at);
    }
  }

  /** No change reported means the very same file, whose entry for the image names the release's image. */
  lemma UnchangedUpdate(doc: Doc, image: Image, configured: string)
    requires Update(doc, image, configured).Ok? && !Update(doc, image, configured).value.1
    ensures Update(doc, image, configured).value.0 == doc
    ensures "images" in doc && doc["images"].List?
    ensures var at := FirstNamed(doc["images"].items, ImageName(image, configured));
      at.Some? && NamesImage(doc["images"].items[at.value].fields, image)
  {
    var name := ImageName(image, configured);
    var items := if "images" in doc then doc["images"].items else [];
    var at := FirstNamed(items, name);
    RetargetChanges(items[at.value].fields, name, image);
  }

  /** The first entry of the name, which the update is about. */
  function NamedEntry(doc: Doc, name: string): Option<Value> {
    if "images" !in doc || !doc["images"].List? then None
    else
      var at := FirstNamed(doc["images"].items, name);
      if at.None? then None else Some(doc["images"].items[at.value])
  }

  /** On a file whose entry is as an update left it, whatever else it says, the update finds nothing to do. */
  lemma StaysFinal(doc: Doc, x: Doc, image: Image, configured: string)
    requires Update(doc, image, configured).Ok?
    requires NamedEntry(x, ImageName(image, configured)) ==
      NamedEntry(Update(doc, image, configured).value.0, ImageName(image, configured))
    ensures Update(x, image, configured) == Ok((x, false))
  {
    SecondRunIsNoOp(doc, image, configured);
  }

  /** The document's images, if they are a list. */
  function Images(doc: Doc): seq<Value> {
    if "images" in doc && doc["images"].List? then doc["images"].items else []
  }

  /** A mapping with that name. */
  predicate IsNamed(item: Value, name: string) {
    item.Fields? && "name" in item.fields && item.fields["name"] == Text(name)
  }

  /**
   The update fails exactly if the images are there and no list, or if a name is configured that no item of the list has;
   the error says which.
   */
  lemma UpdateFailsIff(doc: Doc, image: Image, configured: string)
    ensures var noList := "images" in doc && !doc["images"].List?;
      var notFound := configured != "" && forall i :: 0 <= i < |Images(doc)| ==> !IsNamed(Images(doc)[i], configured);
      && (Update(doc, image, configured).Err? <==> noList || notFound)
      && (noList ==> Update(doc, image, configured) == Err(ImagesNotAList))
      && (!noList && notFound ==> Update(doc, image, configured) == Err(ImageNotFound(configured)))
  {
    forall i | 0 <= i < |Images(doc)| && configured != ""
      ensures Names(Images(doc)[i], configured) <==> IsNamed(Images(doc)[i], configured)
    {
    }
    var at := FirstNamed(Images(doc), ImageName(image, configured));
    if at.Some? && configured != "" { assert IsNamed(Images(doc)[at.value], configured); }
  }

  /** What the entry says afterwards: its name, the release's repository, and the digest or else the tag or else neither. */
  lemma EntrySays(doc: Doc, image: Image, configured: string) returns (at: nat)
    requires Update(doc, image, configured).Ok?
    ensures var after := Images(Update(doc, image, configured).value.0);
      && at < |after| && after[at].Fields?
      && var item := after[at].fields;
      && "name" in item && item["name"] == Text(if configured != "" then configured else image.repository)
      && "newName" in item && item["newName"] == Text(image.repository)
      && (image.digest != "" ==> "digest" in item && item["digest"] == Text(image.digest) && "newTag" !in item)
      && (image.digest == "" && image.tag != "" ==> "newTag" in item && item["newTag"] == Text(image.tag) && "digest" !in item)
      && (image.digest == "" && image.tag == "" ==> "newTag" !in item && "digest" !in item)
      && forall key :: key !in {"name", "newName", "digest", "newTag"} ==>
        && (key in item <==> at < |Images(doc)| && Images(doc)[at].Fields? && key in Images(doc)[at].fields)
        && (key in item ==> item[key] == Images(doc)[at].fields[key])
  {
    var name := ImageName(image, configured);
    at := OnlyTheNamedEntryChanges(doc, image, configured);
    var items := Images(doc);
    var found := FirstNamed(items, name);
    var was := if found.Some? then items[found.value].fields else map[];
    assert at == if found.Some? then found.value else |items| by { OnlyOnePlace(doc, image, configured, at); }
    RetargetChanges(Retarget(was, name, image), name, image);
    RetargetTwice(was, name, image);
    RetargetKeepsTheRest(was, name, image);
  }

  lemma OnlyOnePlace(doc: Doc, image: Image, configured: string, at: nat)
    requires Update(doc, image, configured).Ok?
    requires FirstNamed(Images(Update(doc, image, configured).value.0), ImageName(image, configured)) == Some(at)
    ensures var found := FirstNamed(Images(doc), ImageName(image, configured));
      at == if found.Some? then found.value else |Images(doc)|
  {
    var name := ImageName(image, configured);
    var items := Images(doc);
    var found := FirstNamed(items, name);
    if found.Some? {
      RetargetTwice(items[found.value].fields, name, image);
      FirstNamedIs(items[found.value := Fields(Retarget(items[found.value].fields, name, image))], name, found.value);
    } else {
      RetargetTwice(map[], name, image);
      FirstNamedIs(items + [Fields(Retarget(map[], name, image))], name, |items|);
    }
  }

  lemma RetargetKeepsTheRest(item: Doc, name: string, image: Image)
    ensures forall key :: key !in {"name", "newName", "digest", "newTag"} ==>
      var after := Retarget(item, name, image); (key in after <==> key in item) && (key in after ==> after[key] == item[key])
  {
  }
}
