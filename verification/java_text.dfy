/** The parts of `java.lang.String` the integrator relies on: case-insensitive
    equality (`equalsIgnoreCase`). Case mapping is modelled on ASCII letters only. */
module JavaText {

  /** `Character.toUpperCase`, restricted to ASCII: `a`..`z` map to `A`..`Z`,
      every other character maps to itself. */
  function ToUpper(c: char): char
  {
    if 'a' <= c <= 'z' then (c as int - 32) as char else c
  }

  /** `Character.toLowerCase`, restricted to ASCII. */
  function ToLower(c: char): char
  {
    if 'A' <= c <= 'Z' then (c as int + 32) as char else c
  }

  /** The per-character test `String.regionMatches(true, ...)` applies:
      equal, or equal after upper-casing, or equal after upper- then lower-casing. */
  predicate CharEqualsIgnoreCase(a: char, b: char)
  {
    a == b || ToUpper(a) == ToUpper(b) || ToLower(ToUpper(a)) == ToLower(ToUpper(b))
  }

  /** Character-by-character comparison of two strings of the same length. */
  predicate RegionMatchesIgnoreCase(a: string, b: string)
    requires |a| == |b|
    decreases |a|
  {
    a == [] || (CharEqualsIgnoreCase(a[0], b[0]) && RegionMatchesIgnoreCase(a[1..], b[1..]))
  }

  /** `String.equalsIgnoreCase` on a non-null argument: same length, and every
      pair of characters agrees ignoring case. */
  predicate EqualsIgnoreCase(a: string, b: string)
  {
    |a| == |b| && RegionMatchesIgnoreCase(a, b)
  }

  /** The reference definition: the string with every character upper-cased. */
  function UpperCase(s: string): string
  {
    seq(|s|, i requires 0 <= i < |s| => ToUpper(s[i]))
  }

  /** In the ASCII model, the three-way character test collapses to equality of upper cases. */
  lemma CharEqualsIgnoreCaseIsUpperEquality(a: char, b: char)
    ensures CharEqualsIgnoreCase(a, b) <==> ToUpper(a) == ToUpper(b)
  {
  }

  lemma {:induction false} RegionMatchesIsUpperEquality(a: string, b: string)
    requires |a| == |b|
    ensures RegionMatchesIgnoreCase(a, b) <==> UpperCase(a) == UpperCase(b)
    decreases |a|
  {
    if a != [] {
      CharEqualsIgnoreCaseIsUpperEquality(a[0], b[0]);
      RegionMatchesIsUpperEquality(a[1..], b[1..]);
      assert UpperCase(a) == [ToUpper(a[0])] + UpperCase(a[1..]);
      assert UpperCase(b) == [ToUpper(b[0])] + UpperCase(b[1..]);
      if UpperCase(a) == UpperCase(b) {
        assert UpperCase(a)[0] == UpperCase(b)[0];
        assert UpperCase(a)[1..] == UpperCase(b)[1..];
      }
    }
  }

  /** Case-insensitive equality is exactly equality after upper-casing both sides. */
  lemma EqualsIgnoreCaseIsUpperEquality(a: string, b: string)
    ensures EqualsIgnoreCase(a, b) <==> UpperCase(a) == UpperCase(b)
  {
    if |a| == |b| {
      RegionMatchesIsUpperEquality(a, b);
    } else {
      assert |UpperCase(a)| != |UpperCase(b)|;
    }
  }

  /** Case-insensitive equality is an equivalence relation, so "the method whose
      name equals `methodName` ignoring case" does not depend on argument order. */
  lemma EqualsIgnoreCaseIsEquivalence(a: string, b: string, c: string)
    ensures EqualsIgnoreCase(a, a)
    ensures EqualsIgnoreCase(a, b) ==> EqualsIgnoreCase(b, a)
    ensures EqualsIgnoreCase(a, b) && EqualsIgnoreCase(b, c) ==> EqualsIgnoreCase(a, c)
  {
    EqualsIgnoreCaseIsUpperEquality(a, a);
    EqualsIgnoreCaseIsUpperEquality(a, b);
    EqualsIgnoreCaseIsUpperEquality(b, a);
    EqualsIgnoreCaseIsUpperEquality(b, c);
    EqualsIgnoreCaseIsUpperEquality(a, c);
  }
}
