/** The order Go's string comparison puts on strings: lexicographic, character by character. */
module Order {
  /** The sign strings.Compare returns: -1, 0 or 1. */
  function Compare(a: string, b: string): int {
    if a == b then 0
    else if a == [] then -1
    else if b == [] then 1
    else if a[0] != b[0] then (if a[0] < b[0] then -1 else 1)
    else Compare(a[1..], b[1..])
  }

  predicate Less(a: string, b: string) {
    Compare(a, b) < 0
  }

  lemma {:induction false} CompareIsAntisymmetric(a: string, b: string)
    ensures Compare(a, b) == -Compare(b, a)
    ensures Compare(a, b) == 0 <==> a == b
    ensures -1 <= Compare(a, b) <= 1
  {
    if a != b && a != [] && b != [] && a[0] == b[0] {
      assert a == [a[0]] + a[1..] && b == [b[0]] + b[1..];
      CompareIsAntisymmetric(a[1..], b[1..]);
    }
  }

  lemma {:induction false} LessIsTransitive(a: string, b: string, c: string)
    requires Less(a, b) && Less(b, c)
    ensures Less(a, c)
  {
    CompareIsAntisymmetric(a, b);
    CompareIsAntisymmetric(b, c);
    CompareIsAntisymmetric(a, c);
    if a != c && a != [] && b != [] && c != [] && a[0] == b[0] && b[0] == c[0] {
      LessIsTransitive(a[1..], b[1..], c[1..]);
    }
  }

  lemma LessIsTotal(a: string, b: string)
    ensures a == b || Less(a, b) || Less(b, a)
    ensures !(Less(a, b) && Less(b, a))
    ensures !Less(a, a)
  {
    CompareIsAntisymmetric(a, b);
    CompareIsAntisymmetric(a, a);
  }

  /** The first place at which the strings differ decides; a string that ends there sorts first. */
  ghost predicate SortsFirst(a: string, b: string) {
    exists k: nat :: DiffersAt(a, b, k) && (k == |a| || a[k] < b[k])
  }

  predicate DiffersAt(a: string, b: string, k: nat) {
    k <= |a| && k < |b| && a[..k] == b[..k]
  }

  lemma {:induction false} LessIff(a: string, b: string)
    ensures Less(a, b) <==> SortsFirst(a, b)
  {
    if a == b {
    } else if a == [] || b == [] || a[0] != b[0] {
      assert a[..0] == b[..0];
      if b != [] { assert DiffersAt(a, b, 0); }
    } else {
      LessIff(a[1..], b[1..]);
      assert a == [a[0]] + a[1..] && b == [b[0]] + b[1..];
      if SortsFirst(a, b) {
        var k: nat :| DiffersAt(a, b, k) && (k == |a| || a[k] < b[k]);
        assert k > 0;
        assert a[1..][..k - 1] == a[..k][1..] && b[1..][..k - 1] == b[..k][1..];
        assert DiffersAt(a[1..], b[1..], k - 1);
      }
      if SortsFirst(a[1..], b[1..]) {
        var k: nat :| DiffersAt(a[1..], b[1..], k) && (k == |a[1..]| || a[1..][k] < b[1..][k]);
        assert a[..k + 1] == [a[0]] + a[1..][..k] && b[..k + 1] == [b[0]] + b[1..][..k];
        assert DiffersAt(a, b, k + 1);
      }
    }
  }
}
