/** Image references as strings: imageString and imageRepository (internal/gitops/provider.go). */
module ImageRef {
  import opened Wrappers

  datatype Image = Image(repository: string, tag: string, digest: string)

  /** imageString: a digest wins over a tag. */
  function ImageString(image: Image): string {
    if image.digest != "" then image.repository + "@" + image.digest
    else if image.tag != "" then image.repository + ":" + image.tag
    else image.repository
  }

  /** strings.Index for one character, or -1. */
  function Index(s: string, c: char): (i: int)
    ensures -1 <= i < |s|
    ensures if i >= 0 then s[i] == c else c !in s
  {
    if s == "" then -1
    else if s[0] == c then 0
    else
      var i := Index(s[1..], c);
      assert s == [s[0]] + s[1..];
      if i < 0 then -1 else i + 1
  }

  /** strings.LastIndex for one character, or -1. */
  function LastIndex(s: string, c: char): (i: int)
    ensures -1 <= i < |s|
    ensures if i >= 0 then s[i] == c else c !in s
  {
    if s == "" then -1
    else if s[|s| - 1] == c then |s| - 1
    else
      assert s == s[..|s| - 1] + [s[|s| - 1]];
      LastIndex(s[..|s| - 1], c)
  }

  function CutAt(value: string): string {
    var at := Index(value, '@');
    if at >= 0 then value[..at] else value
  }

  function CutTag(value: string): string {
    var colon := LastIndex(value, ':');
    if colon > LastIndex(value, '/') then value[..colon] else value
  }

  /** imageRepository: drop a digest, then a tag; a colon before the last slash belongs to a registry port. */
  function ImageRepository(value: string): string {
    CutTag(CutAt(value))
  }

  /** No colon behind the last slash. */
  predicate Untagged(s: string) {
    LastIndex(s, ':') <= LastIndex(s, '/')
  }

  /** When reading a written reference gives the repository back. */
  predicate RoundTrips(image: Image) {
    && '@' !in image.repository
    && if image.digest != "" || image.tag == "" then Untagged(image.repository)
       else ':' !in CutAt(image.tag) && '/' !in CutAt(image.tag)
  }

  lemma {:induction false} IndexOfSum(a: string, b: string, c: char)
    ensures Index(a + b, c) == if c in a then Index(a, c) else if c in b then |a| + Index(b, c) else -1
  {
    if a == "" {
      assert a + b == b;
    } else {
      assert (a + b)[1..] == a[1..] + b;
      assert a == [a[0]] + a[1..];
      IndexOfSum(a[1..], b, c);
    }
  }

  lemma {:induction false} LastIndexOfSum(a: string, b: string, c: char)
    ensures LastIndex(a + b, c) == if c in b then |a| + LastIndex(b, c) else LastIndex(a, c)
  {
    if b == "" {
      assert a + b == a;
    } else {
      var n := |b| - 1;
      assert (a + b)[..|a| + n] == a + b[..n];
      assert b == b[..n] + [b[n]];
      LastIndexOfSum(a, b[..n], c);
    }
  }

  lemma CutAtOfSum(a: string, b: string)
    ensures '@' !in a ==> CutAt(a + b) == a + CutAt(b)
    ensures '@' in a ==> |CutAt(a + b)| < |a|
  {
    IndexOfSum(a, b, '@');
  }

  lemma CutTagShortens(s: string)
    ensures |CutTag(s)| <= |s|
    ensures CutTag(s) == s <==> Untagged(s)
  {
  }

  /** A tag written behind the repository is cut off again unless it holds a colon or a slash. */
  lemma CutTagOfTagged(repository: string, tag: string)
    ensures CutTag(repository + (":" + tag)) == repository <==> ':' !in tag && '/' !in tag
  {
    var n := |repository|;
    LastIndexOfSum(repository, ":" + tag, ':');
    LastIndexOfSum(repository, ":" + tag, '/');
    LastIndexOfSum(":", tag, ':');
    LastIndexOfSum(":", tag, '/');
    assert (":" + tag)[0] == ':';
    assert '/' in ":" + tag <==> '/' in tag;
    assert (repository + (":" + tag))[..n] == repository;
  }

  lemma DigestRoundTrip(repository: string, digest: string)
    ensures ImageRepository(repository + ("@" + digest)) == repository <==> '@' !in repository && Untagged(repository)
  {
    CutAtOfSum(repository, "@" + digest);
    assert Index("@" + digest, '@') == 0;
    assert repository + "" == repository;
    CutTagShortens(CutAt(repository + ("@" + digest)));
  }

  lemma TagRoundTrip(repository: string, tag: string)
    ensures ImageRepository(repository + (":" + tag)) == repository
      <==> '@' !in repository && ':' !in CutAt(tag) && '/' !in CutAt(tag)
  {
    CutAtOfSum(repository, ":" + tag);
    CutAtOfSum(":", tag);
    CutTagShortens(CutAt(repository + (":" + tag)));
    CutTagOfTagged(repository, CutAt(tag));
  }

  lemma BareRoundTrip(repository: string)
    ensures ImageRepository(repository) == repository <==> '@' !in repository && Untagged(repository)
  {
    CutAtOfSum(repository, "");
    assert repository + "" == repository;
    CutTagShortens(CutAt(repository));
  }

  /** imageRepository undoes imageString exactly for the references that round-trip, registry ports included. */
  lemma RepositoryRoundTripIff(image: Image)
    ensures ImageRepository(ImageString(image)) == image.repository <==> RoundTrips(image)
  {
    if image.digest != "" {
      assert image.repository + "@" + image.digest == image.repository + ("@" + image.digest);
      DigestRoundTrip(image.repository, image.digest);
    } else if image.tag != "" {
      assert image.repository + ":" + image.tag == image.repository + (":" + image.tag);
      TagRoundTrip(image.repository, image.tag);
    } else {
      BareRoundTrip(image.repository);
    }
  }

  /** What follows the first of a character. */
  function AfterFirst(s: string, c: char): Option<string> {
    if s == "" then None else if s[0] == c then Some(s[1..]) else AfterFirst(s[1..], c)
  }

  /** What follows the last of a character. */
  function AfterLast(s: string, c: char): Option<string> {
    if s == "" then None
    else
      var later := AfterLast(s[1..], c);
      if later.Some? then later else if s[0] == c then Some(s[1..]) else None
  }

  lemma {:induction false} FirstAfter(a: string, b: string, c: char)
    requires c !in a
    ensures AfterFirst(a + [c] + b, c) == Some(b)
  {
    var s := a + [c] + b;
    if a == "" {
      assert s[1..] == b;
    } else {
      assert s[1..] == a[1..] + [c] + b;
      FirstAfter(a[1..], b, c);
    }
  }

  lemma {:induction false} LastAfter(a: string, b: string, c: char)
    requires c !in b
    ensures AfterLast(a + [c] + b, c) == Some(b)
  {
    var s := a + [c] + b;
    if a == "" {
      assert s[1..] == b;
      NoneAfter(b, c);
    } else {
      assert s[1..] == a[1..] + [c] + b;
      LastAfter(a[1..], b, c);
    }
  }

  lemma {:induction false} NoneAfter(s: string, c: char)
    requires c !in s
    ensures AfterLast(s, c).None?
  {
    if s == "" {
    } else {
      NoneAfter(s[1..], c);
    }
  }

  /** The reference names this version of this image, as a reader who knows nothing of how it was written sees it. */
  predicate SaysVersion(reference: string, image: Image) {
    && (image.digest != "" && '@' !in image.repository ==> AfterFirst(reference, '@') == Some(image.digest))
    && (image.digest == "" && image.tag != "" && ':' !in image.tag ==> AfterLast(reference, ':') == Some(image.tag))
    && (image.digest == "" && image.tag == "" ==> reference == image.repository)
    && image.repository <= reference
  }

  /** Digest and tag can be read back from a written reference; a digest goes before a tag. */
  lemma VersionReadsBack(image: Image)
    ensures SaysVersion(ImageString(image), image)
    ensures ImageString(image)[|image.repository|..] ==
      if image.digest != "" then "@" + image.digest else if image.tag != "" then ":" + image.tag else ""
  {
    if image.digest != "" {
      if '@' !in image.repository { FirstAfter(image.repository, image.digest, '@'); }
      assert ImageString(image) == image.repository + ['@'] + image.digest;
    } else if image.tag != "" {
      if ':' !in image.tag { LastAfter(image.repository, image.tag, ':'); }
      assert ImageString(image) == image.repository + [':'] + image.tag;
    }
  }
}
