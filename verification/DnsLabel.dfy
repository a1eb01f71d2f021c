/** Names of webhook BuildRuns (dnsLabel and buildRunNameForWebhook in internal/api/server.go). */
module DnsLabel {
  /** The characters a label keeps, after lower-casing. */
  predicate Keeps(c: char) {
    'a' <= c <= 'z' || '0' <= c <= '9'
  }

  /** unicode.ToLower, as far as it leads to a kept character: ASCII, the Kelvin sign, and capital I with a dot. */
  function Lower(c: char): char {
    if 'A' <= c <= 'Z' then 'a' + (c - 'A')
    else if c == '\U{212A}' then 'k'
    else if c == '\U{0130}' then 'i'
    else c
  }

  function ToLower(s: string): string {
    seq(|s|, i requires 0 <= i < |s| => Lower(s[i]))
  }

  /** The maximal stretches of kept characters, in order. */
  function Words(s: string): (words: seq<string>)
    ensures s != "" && Keeps(s[|s| - 1]) ==> words != []
  {
    if s == "" then []
    else
      var n := |s| - 1;
      var before := Words(s[..n]);
      if !Keeps(s[n]) then before
      else if n > 0 && Keeps(s[n - 1]) then before[..|before| - 1] + [before[|before| - 1] + [s[n]]]
      else before + [[s[n]]]
  }

  function Joined(words: seq<string>): string {
    if words == [] then ""
    else if |words| == 1 then words[0]
    else Joined(words[..|words| - 1]) + "-" + words[|words| - 1]
  }

  /** dnsLabel: the words of the lower-cased name, joined by single dashes. */
  function Label(value: string): string {
    Joined(Words(ToLower(value)))
  }

  predicate AllWords(words: seq<string>) {
    forall i :: 0 <= i < |words| ==> words[i] != "" && forall j :: 0 <= j < |words[i]| ==> Keeps(words[i][j])
  }

  lemma {:induction false} WordsAreWords(s: string)
    ensures AllWords(Words(s))
  {
    if s != "" { WordsAreWords(s[..|s| - 1]); }
  }

  predicate Dns(name: string) {
    && (forall i :: 0 <= i < |name| ==> Keeps(name[i]) || name[i] == '-')
    && (name != "" ==> Keeps(name[0]) && Keeps(name[|name| - 1]))
    && (forall i :: 0 <= i < |name| - 1 ==> name[i] == '-' ==> name[i + 1] != '-')
  }

  lemma {:induction false} JoinedIsDns(words: seq<string>)
    requires AllWords(words)
    ensures Dns(Joined(words)) && (words != [] ==> Joined(words) != "")
  {
    if |words| <= 1 {
    } else {
      var n := |words| - 1;
      JoinedIsDns(words[..n]);
      assert Joined(words)[..|Joined(words[..n])|] == Joined(words[..n]);
    }
  }

  lemma {:induction false} WordsOfSum(s: string, word: string)
    requires word != "" && (forall j :: 0 <= j < |word| ==> Keeps(word[j]))
    requires s == "" || !Keeps(s[|s| - 1])
    ensures Words(s + word) == Words(s) + [word]
    decreases |word|
  {
    hide Words;
    var n := |word| - 1;
    assert s + word == (s + word[..n]) + [word[n]];
    WordsStep(s + word[..n], word[n]);
    if n == 0 {
      assert s + word[..0] == s && word == [word[0]];
    } else {
      WordsOfSum(s, word[..n]);
      assert word == word[..n] + [word[n]];
    }
  }

  lemma WordsStep(s: string, c: char)
    ensures Words(s + [c]) ==
      if !Keeps(c) then Words(s)
      else if s != "" && Keeps(s[|s| - 1]) then Words(s)[..|Words(s)| - 1] + [Words(s)[|Words(s)| - 1] + [c]]
      else Words(s) + [[c]]
  {
    var whole := s + [c];
    assert whole[..|s|] == s && whole[|s|] == c && |whole| - 1 == |s|;
    assert s != "" ==> whole[|s| - 1] == s[|s| - 1];
  }

  lemma {:induction false} WordsOfJoined(words: seq<string>)
    requires AllWords(words)
    ensures Words(Joined(words)) == words
    decreases |words|
  {
    assert Words("") == [];
    hide Words, Keeps;
    if |words| == 0 {
    } else if |words| == 1 {
      SingleWord(words);
    } else {
      hide Joined;
      var n := |words| - 1;
      assert AllWords(words[..n]) && AllWords([words[n]]);
      hide AllWords;
      WordsOfJoined(words[..n]);
      JoinedStep(words);
      OneMoreWord(Joined(words[..n]), words[n]);
      assert words[..n] + [words[n]] == words;
    }
  }

  lemma SingleWord(words: seq<string>)
    requires AllWords(words) && |words| == 1
    ensures Words(words[0]) == words
  {
    hide Words, Keeps;
    Empty();
    var word, none := words[0], words[0][..0];
    assert none == "" && none + word == word;
    WordsOfSum(none, word);
    assert [] + [word] == words;
  }

  lemma OneMoreWord(s: string, word: string)
    requires AllWords([word])
    ensures Words(s + "-" + word) == Words(s) + [word]
  {
    hide Words;
    assert [word][0] == word;
    WordsOfDash(s);
    EndsInDash(s);
    WordsOfSum(s + "-", word);
  }

  lemma EndsInDash(s: string)
    ensures !Keeps((s + "-")[|s + "-"| - 1])
  {
  }

  lemma WordsOfDash(s: string)
    ensures Words(s + "-") == Words(s)
  {
    assert (s + "-")[..|s|] == s;
  }

  /** A label is a DNS label, empty or not, and is its own label. */
  lemma LabelIsDns(value: string)
    ensures Dns(Label(value)) && Label(Label(value)) == Label(value)
    ensures Label(value) == "" <==> forall i :: 0 <= i < |value| ==> !Keeps(Lower(value[i]))
  {
    hide Words, Joined;
    var words := Words(ToLower(value));
    WordsAreWords(ToLower(value));
    JoinedIsDns(words);
    WordsOfJoined(words);
    assert ToLower(Label(value)) == Label(value);
    NoWords(ToLower(value));
    assert forall i :: 0 <= i < |value| ==> ToLower(value)[i] == Lower(value[i]);
  }

  lemma {:induction false} NoWords(s: string)
    ensures Words(s) == [] <==> forall i :: 0 <= i < |s| ==> !Keeps(s[i])
  {
    if s != "" { NoWords(s[..|s| - 1]); }
  }

  /** The loop with its builder; the last dash is trimmed afterwards. */
  method DnsLabel(value: string) returns (name: string)
    ensures name == Label(value)
  {
    hide Words, Joined, Keeps;
    var lower := ToLower(value);
    var builder, lastDash := "", false;
    Empty();
    assert lower[..0] == "";
    for i := 0 to |lower|
      invariant builder == Joined(Words(lower[..i])) + if lastDash then "-" else ""
      invariant lastDash <==> i > 0 && !Keeps(lower[i - 1]) && Words(lower[..i]) != []
    {
      NextPiece(lower, i, lastDash);
      if Keeps(lower[i]) {
        builder := builder + [lower[i]];
        lastDash := false;
      } else if !lastDash && |builder| > 0 {
        builder := builder + "-";
        lastDash := true;
      }
    }
    assert lower[..|lower|] == lower;
    name := Trimmed(builder);
    TrimsTheDash(lower, lastDash);
  }

  /** What one more character does to the label so far. */
  lemma NextPiece(s: string, i: nat, dash: bool)
    requires i < |s| && (dash <==> i > 0 && !Keeps(s[i - 1]) && Words(s[..i]) != [])
    ensures Joined(Words(s[..i])) == "" <==> Words(s[..i]) == []
    ensures if Keeps(s[i]) then
        && Words(s[..i + 1]) != []
        && Joined(Words(s[..i + 1])) == Joined(Words(s[..i])) + (if dash then "-" else "") + [s[i]]
      else Words(s[..i + 1]) == Words(s[..i])
  {
    hide Words, Joined, Keeps;
    var words := Words(s[..i]);
    NextCharacter(s, i);
    WordsAreWords(s[..i]);
    JoinedIsDns(words);
    Empty();
    assert i == 0 ==> s[..i] == "";
    assert Joined(words) + "" == Joined(words) && "" + [s[i]] == [s[i]];
    if Keeps(s[i]) {
      JoinedMore(words, s[i]);
      if words != [] { JoinedGrows(words, s[i]); }
    }
  }

  lemma Empty()
    ensures Words("") == [] && Joined([]) == ""
  {
  }

  lemma TrimsTheDash(s: string, dash: bool)
    requires dash ==> Words(s) != []
    ensures Trimmed(Joined(Words(s)) + if dash then "-" else "") == Joined(Words(s))
  {
    hide Words;
    var joined := Joined(Words(s));
    WordsAreWords(s);
    JoinedIsDns(Words(s));
    assert joined + "" == joined;
    assert (joined + "-")[..|joined|] == joined;
  }

  lemma NextCharacter(s: string, i: nat)
    requires i < |s|
    ensures Words(s[..i + 1]) ==
      var before := Words(s[..i]);
      if !Keeps(s[i]) then before
      else if i > 0 && Keeps(s[i - 1]) && before != [] then before[..|before| - 1] + [before[|before| - 1] + [s[i]]]
      else before + [[s[i]]]
  {
    assert s[..i + 1][..i] == s[..i];
    assert i > 0 && Keeps(s[i - 1]) ==> s[..i] != "" && s[..i][i - 1] == s[i - 1];
  }

  /** strings.Trim of dashes */
  function Trimmed(s: string): string {
    if s == "" then ""
    else if s[0] == '-' then Trimmed(s[1..])
    else if s[|s| - 1] == '-' then Trimmed(s[..|s| - 1])
    else s
  }

  lemma Associates(a: string, b: string, c: string)
    ensures (a + b) + c == a + (b + c)
  {
  }

  lemma JoinedGrows(words: seq<string>, c: char)
    requires words != []
    ensures var n := |words| - 1; Joined(words[..n] + [words[n] + [c]]) == Joined(words) + [c]
  {
    var n := |words| - 1;
    var grown := words[..n] + [words[n] + [c]];
    assert grown[..n] == words[..n] && |grown| == n + 1 && grown[n] == words[n] + [c];
    if n > 0 {
      hide Joined;
      JoinedStep(grown);
      JoinedStep(words);
      Associates(Joined(words[..n]) + "-", words[n], [c]);
    }
  }

  lemma JoinedStep(words: seq<string>)
    requires |words| > 1
    ensures Joined(words) == Joined(words[..|words| - 1]) + "-" + words[|words| - 1]
  {
  }

  lemma JoinedMore(words: seq<string>, c: char)
    ensures Joined(words + [[c]]) == if words == [] then [c] else Joined(words) + "-" + [c]
  {
    assert (words + [[c]])[..|words|] == words;
    if words != [] {
      hide Joined;
      JoinedStep(words + [[c]]);
    }
  }

  // ---- Names ----

  function Base(repository: string): string {
    if Label(repository) == "" then "repository" else Label(repository)
  }

  /** buildRunNameForWebhook, with twelve hexadecimal digits of the event's hash. */
  function BuildRunName(repository: string, hash: string): string {
    var name := Base(repository) + "-" + hash;
    if |name| > 63 then name[..63] else name
  }

  /**
   Two events of one repository get different names whenever their hashes differ, exactly if the repository's label
   leaves room for the hash. A longer label cuts the hash off.
   */
  lemma NamesTellEventsApartIff(repository: string)
    ensures (forall a: string, b: string :: |a| == 12 && |b| == 12 && a != b
              ==> BuildRunName(repository, a) != BuildRunName(repository, b))
      <==> |Label(repository)| <= 50
  {
    var base := Base(repository);
    if |Label(repository)| <= 50 {
      forall a: string, b: string | |a| == 12 && |b| == 12 && a != b
        ensures BuildRunName(repository, a) != BuildRunName(repository, b)
      {
        assert (base + "-" + a)[|base| + 1..] == a && (base + "-" + b)[|base| + 1..] == b;
      }
    } else {
      var a, b := "000000000000", "000000000001";
      assert a[11] != b[11];
      assert (base + "-" + a)[..63] == (base + "-" + b)[..63];
      assert BuildRunName(repository, a) == BuildRunName(repository, b);
    }
  }

  lemma BuildRunNameIsUsable(repository: string, hash: string)
    ensures BuildRunName(repository, hash) != ""
  {
  }

  /** Labels agree exactly if the names have the same words, whatever stands between them. */
  lemma LabelsAgreeIff(a: string, b: string)
    ensures Label(a) == Label(b) <==> Words(ToLower(a)) == Words(ToLower(b))
  {
    hide Words, ToLower;
    WordsAreWords(ToLower(a));
    WordsAreWords(ToLower(b));
    WordsOfJoined(Words(ToLower(a)));
    WordsOfJoined(Words(ToLower(b)));
  }

  /** When two events, of one repository or of two, get one name: same label and hash, unless a long label is cut. */
  predicate OneName(a: string, x: string, b: string, y: string) {
    if |Base(a)| <= 50 && |Base(b)| <= 50 then Base(a) == Base(b) && x == y
    else if |Base(a)| >= 63 && |Base(b)| >= 63 then Base(a)[..63] == Base(b)[..63]
    else if |Base(a)| == |Base(b)| then Base(a) == Base(b) && Agree(x, y, 62 - |Base(a)|)
    else |Base(a)| >= 50 && |Base(b)| >= 50 && Agree(Base(a) + "-" + x, Base(b) + "-" + y, 63)
  }

  predicate Agree(x: string, y: string, n: nat) {
    n <= |x| && n <= |y| && x[..n] == y[..n]
  }

  lemma OneNameIff(a: string, x: string, b: string, y: string)
    requires |x| == 12 && |y| == 12
    ensures BuildRunName(a, x) == BuildRunName(b, y) <==> OneName(a, x, b, y)
  {
    hide Label;
    var p, q := Base(a), Base(b);
    var s, t := p + "-" + x, q + "-" + y;
    if |p| <= 50 && |q| <= 50 {
      if s == t {
        assert s[..|p|] == p && t[..|q|] == q && s[|p| + 1..] == x && t[|q| + 1..] == y;
      }
    } else if |p| >= 63 && |q| >= 63 {
      assert s[..63] == p[..63] && t[..63] == q[..63];
    } else if |p| == |q| {
      var n := 62 - |p|;
      assert s[..63] == p + "-" + x[..n] && t[..63] == q + "-" + y[..n];
      if s[..63] == t[..63] {
        assert s[..63][..|p|] == p && t[..63][..|q|] == q;
        assert s[..63][|p| + 1..] == x[..n] && t[..63][|q| + 1..] == y[..n];
      }
    }
  }

  /** Two dashes between words are as good as one. */
  lemma DashesDoNotCount(s: string, word: string)
    requires word != "" && forall j :: 0 <= j < |word| ==> Keeps(word[j])
    ensures Words((s + "-") + word) == Words(((s + "-") + "-") + word)
  {
    EndsInDash(s);
    EndsInDash(s + "-");
    hide Words, Keeps;
    WordsOfSum(s + "-", word);
    WordsOfSum((s + "-") + "-", word);
    WordsOfDash(s + "-");
  }

  lemma SmallAlready(s: string)
    requires forall i :: 0 <= i < |s| ==> Keeps(s[i]) || s[i] == '-'
    ensures ToLower(s) == s
  {
  }

  lemma SameLabel(a: string, b: string)
    requires a == "a-b" && b == "a--b"
    ensures Label(a) == Label(b)
  {
    SmallAlready(a);
    SmallAlready(b);
    hide Words, Label, ToLower;
    LabelsAgreeIff(a, b);
    var s, word := [a[0]], [a[2]];
    assert a == (s + "-") + word && b == ((s + "-") + "-") + word;
    DashesDoNotCount(s, word);
  }

  // ---- Labels and names in terms of their characters ----

  predicate Plain(c: char) {
    'a' <= c <= 'z' || 'A' <= c <= 'Z' || '0' <= c <= '9'
  }

  lemma OneWord(s: string)
    requires forall i :: 0 <= i < |s| ==> Keeps(s[i])
    ensures Joined(Words(s)) == s
  {
    assert Words("") == [];
    if s != "" {
      hide Words;
      WordsOfSum("", s);
      assert "" + s == s && [] + [s] == [s];
    }
  }

  lemma PlainIsKept(c: char)
    requires Plain(c)
    ensures Keeps(Lower(c)) && Lower(c) == if 'A' <= c <= 'Z' then (c as int + 32) as char else c
  {
  }

  /** Of a name of letters and digits the label is that name in small letters. */
  lemma PlainLabel(value: string)
    requires forall i :: 0 <= i < |value| ==> Plain(value[i])
    ensures |Label(value)| == |value|
    ensures forall i :: 0 <= i < |value| ==>
      Label(value)[i] == if 'A' <= value[i] <= 'Z' then (value[i] as int + 32) as char else value[i]
  {
    hide Words, Joined, Lower, Keeps;
    forall i | 0 <= i < |value|
      ensures Keeps(Lower(value[i]))
      ensures Lower(value[i]) == if 'A' <= value[i] <= 'Z' then (value[i] as int + 32) as char else value[i]
    {
      PlainIsKept(value[i]);
    }
    OneWord(ToLower(value));
  }

  /** A label holds small letters, digits and single inner dashes. */
  lemma LabelCharacters(value: string, i: nat)
    requires i < |Label(value)|
    ensures var text := Label(value);
      && ('a' <= text[i] <= 'z' || '0' <= text[i] <= '9' || (text[i] == '-' && 0 < i < |text| - 1))
      && (text[i] == '-' && i + 1 < |text| ==> text[i + 1] != '-')
  {
    LabelIsDns(value);
    hide Label;
    assert Dns(Label(value));
  }

  /** A name is the label, or "repository" if there is none, a dash and the hash; a long one is cut. */
  lemma NameSays(repository: string, hash: string)
    requires |hash| == 12
    ensures var base := if Label(repository) == "" then "repository" else Label(repository);
      && |BuildRunName(repository, hash)| <= 63
      && (|base| <= 50 ==> BuildRunName(repository, hash) == base + "-" + hash)
      && (|base| > 50 ==> BuildRunName(repository, hash) == (base + "-" + hash)[..63])
  {
  }

  /** What of a text is kept: letters and digits, and the two letters beyond them that have a small letter among these. */
  lemma WhatIsKept(c: char)
    ensures Keeps(Lower(c)) <==> Plain(c) || c == '\U{212A}' || c == '\U{0130}'
    ensures Lower('\U{212A}') == 'k' && Lower('\U{0130}') == 'i'
  {
  }
}
