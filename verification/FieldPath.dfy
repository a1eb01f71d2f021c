/** Dotted field paths (yamlFieldParts in internal/gitops/provider.go). */
module FieldPath {
  import opened Wrappers
  import opened YamlTree

  /** unicode.IsSpace */
  predicate Space(c: char) {
    || '\t' <= c <= '\r' || c == ' ' || c == '\U{85}' || c == '\U{A0}' || c == '\U{1680}'
    || '\U{2000}' <= c <= '\U{200A}' || c == '\U{2028}' || c == '\U{2029}'
    || c == '\U{202F}' || c == '\U{205F}' || c == '\U{3000}'
  }

  /** strings.TrimSpace */
  function TrimSpace(s: string): (r: string)
    ensures |r| <= |s|
    ensures r != "" ==> !Space(r[0]) && !Space(r[|r| - 1])
  {
    if s == "" then ""
    else if Space(s[0]) then TrimSpace(s[1..])
    else if Space(s[|s| - 1]) then TrimSpace(s[..|s| - 1])
    else s
  }

  predicate Blank(s: string) {
    forall i :: 0 <= i < |s| ==> Space(s[i])
  }

  /** strings.Split on the dot */
  function Split(s: string): (parts: seq<string>)
    ensures |parts| > 0
  {
    if s == "" then [""]
    else
      var rest := Split(s[1..]);
      if s[0] == '.' then [""] + rest else [[s[0]] + rest[0]] + rest[1..]
  }

  function Join(parts: seq<string>): string
    requires |parts| > 0
  {
    if |parts| == 1 then parts[0] else parts[0] + "." + Join(parts[1..])
  }

  function FieldParts(field: string): Result<Path, EditError> {
    var trimmed := TrimSpace(field);
    if trimmed == "" then Err(NoField)
    else
      var parts := Split(trimmed);
      if exists i :: 0 <= i < |parts| && TrimSpace(parts[i]) == "" then Err(EmptySegment) else Ok(parts)
  }

  /** The loop over the parts. */
  method YamlFieldParts(field: string) returns (result: Result<Path, EditError>)
    ensures result == FieldParts(field)
  {
    var trimmed := TrimSpace(field);
    if trimmed == "" {
      return Err(NoField);
    }
    var parts := Split(trimmed);
    for k := 0 to |parts|
      invariant forall i :: 0 <= i < k ==> TrimSpace(parts[i]) != ""
    {
      if TrimSpace(parts[k]) == "" {
        return Err(EmptySegment);
      }
    }
    return Ok(parts);
  }

  lemma {:induction false} TrimsToNothing(s: string)
    ensures TrimSpace(s) == "" <==> Blank(s)
  {
    if s == "" {
    } else {
      if Space(s[0]) {
        TrimsToNothing(s[1..]);
        assert forall i :: 1 <= i < |s| ==> s[i] == s[1..][i - 1];
      } else if Space(s[|s| - 1]) {
        TrimsToNothing(s[..|s| - 1]);
        assert s[..|s| - 1] != "" ==> s[..|s| - 1][0] == s[0];
      }
    }
  }

  lemma {:induction false} JoinOfSplit(s: string)
    ensures Join(Split(s)) == s
    ensures forall i :: 0 <= i < |Split(s)| ==> '.' !in Split(s)[i]
  {
    if s == "" {
    } else {
      var rest, parts := Split(s[1..]), Split(s);
      JoinOfSplit(s[1..]);
      assert s == [s[0]] + s[1..];
      if s[0] == '.' {
        assert parts == [""] + rest && parts[1..] == rest;
        assert Join(parts) == "" + "." + Join(rest);
      } else {
        assert parts == [[s[0]] + rest[0]] + rest[1..] && parts[1..] == rest[1..];
        JoinLonger(s[0], rest);
        assert '.' !in [s[0]] + rest[0];
      }
    }
  }

  lemma JoinLonger(c: char, rest: seq<string>)
    requires |rest| > 0
    ensures Join([[c] + rest[0]] + rest[1..]) == [c] + Join(rest)
  {
    var parts := [[c] + rest[0]] + rest[1..];
    if |rest| > 1 {
      JoinMore(parts);
      JoinMore(rest);
      assert parts[1..] == rest[1..];
      hide Join;
      Prepend(c, rest[0], Join(rest[1..]));
    }
  }

  lemma JoinMore(parts: seq<string>)
    requires |parts| > 1
    ensures Join(parts) == parts[0] + "." + Join(parts[1..])
  {
  }

  lemma Prepend(c: char, x: string, y: string)
    ensures ([c] + x) + "." + y == [c] + (x + "." + y)
  {
  }

  lemma {:induction false} SplitOfJoin(parts: seq<string>)
    requires |parts| > 0 && forall i :: 0 <= i < |parts| ==> '.' !in parts[i]
    ensures Split(Join(parts)) == parts
    decreases |parts|, |parts[0]|
  {
    var s := Join(parts);
    if parts[0] == "" {
      if |parts| > 1 {
        assert s[1..] == Join(parts[1..]);
        SplitOfJoin(parts[1..]);
      }
    } else {
      var shorter := [parts[0][1..]] + parts[1..];
      assert s[0] == parts[0][0] != '.';
      assert s[1..] == Join(shorter) by {
        if |parts| > 1 { assert shorter[1..] == parts[1..]; }
      }
      SplitOfJoin(shorter);
      assert [s[0]] + shorter[0] == parts[0];
      assert Split(s) == [[s[0]] + shorter[0]] + shorter[1..];
    }
  }

  lemma {:induction false} JoinEnds(parts: seq<string>)
    requires |parts| > 0 && forall i :: 0 <= i < |parts| ==> parts[i] != ""
    ensures var s := Join(parts);
      s != "" && s[0] == parts[0][0] && s[|s| - 1] == parts[|parts| - 1][|parts[|parts| - 1]| - 1]
  {
    if |parts| > 1 { JoinEnds(parts[1..]); }
  }

  /** What yamlFieldParts accepts and what it then returns. */
  lemma FieldPartsIff(field: string, parts: Path)
    ensures FieldParts(field) == Ok(parts) <==>
      && Join(parts) == TrimSpace(field)
      && forall i :: 0 <= i < |parts| ==> !Blank(parts[i]) && '.' !in parts[i]
  {
    var trimmed := TrimSpace(field);
    JoinOfSplit(trimmed);
    forall s { TrimsToNothing(s); }
    if Join(parts) == trimmed && forall i :: 0 <= i < |parts| ==> !Blank(parts[i]) && '.' !in parts[i] {
      SplitOfJoin(parts);
      assert forall i :: 0 <= i < |parts| ==> parts[i] != "";
      JoinEnds(parts);
    }
  }

  /** Of the ASCII characters, tab to carriage return and the blank are spaces. */
  lemma AsciiSpaces(c: char)
    requires c < '\U{80}'
    ensures Space(c) <==> c as int in {9, 10, 11, 12, 13, 32}
  {
  }

  lemma OneSpaceMore(c: char, front: string, middle: string, back: string)
    requires Space(c) && Blank(front) && Blank(back)
    ensures [c] + (front + middle + back) == ([c] + front) + middle + back && Blank([c] + front)
    ensures (front + middle + back) + [c] == front + middle + (back + [c]) && Blank(back + [c])
  {
  }

  /** Trimming takes spaces at both ends, and nothing else. */
  lemma {:induction false} TrimTakesSpaces(s: string) returns (front: string, back: string)
    ensures s == front + TrimSpace(s) + back && Blank(front) && Blank(back)
  {
    hide Space;
    front, back := "", "";
    if s == "" {
    } else if Space(s[0]) {
      front, back := TrimTakesSpaces(s[1..]);
      assert s == [s[0]] + s[1..] && TrimSpace(s) == TrimSpace(s[1..]);
      hide Blank, TrimSpace;
      OneSpaceMore(s[0], front, TrimSpace(s), back);
      front := [s[0]] + front;
    } else if Space(s[|s| - 1]) {
      front, back := TrimTakesSpaces(s[..|s| - 1]);
      assert s == s[..|s| - 1] + [s[|s| - 1]] && TrimSpace(s) == TrimSpace(s[..|s| - 1]);
      hide Blank, TrimSpace;
      OneSpaceMore(s[|s| - 1], front, TrimSpace(s), back);
      back := back + [s[|s| - 1]];
    }
  }

  /** Which fields are refused, and why: blank ones, and those with a blank segment. */
  lemma FieldIsRefusedIff(field: string, parts: Path)
    ensures FieldParts(field) == Err(NoField) <==> Blank(field)
    ensures Join(parts) == TrimSpace(field) && (forall i :: 0 <= i < |parts| ==> '.' !in parts[i]) ==>
      (FieldParts(field) == Err(EmptySegment) <==> !Blank(field) && exists i :: 0 <= i < |parts| && Blank(parts[i]))
  {
    TrimsToNothing(field);
    forall s { TrimsToNothing(s); }
    if Join(parts) == TrimSpace(field) && forall i :: 0 <= i < |parts| ==> '.' !in parts[i] {
      SplitOfJoin(parts);
    }
  }
}
