/** Normalisation of the class name handed to the integrator: a path-style
    name such as `com/example/Widget` becomes the dotted `com.example.Widget`. */
module ClassNames {

  /** The characters a class name may use to separate its package parts. */
  predicate IsSeparator(c: char)
  {
    c == '/' || c == '.'
  }

  /** `className.replace("/", ".")`. */
  function NormalizeClassName(s: string): (r: string)
    ensures |r| == |s|
    ensures forall i :: 0 <= i < |s| && s[i] == '/' ==> r[i] == '.'
    ensures forall i :: 0 <= i < |s| && s[i] != '/' ==> r[i] == s[i]
    ensures '/' !in r
    decreases |s|
  {
    if s == [] then []
    else [if s[0] == '/' then '.' else s[0]] + NormalizeClassName(s[1..])
  }

  /** Normalising twice is the same as normalising once. */
  lemma NormalizeIsIdempotent(s: string)
    ensures NormalizeClassName(NormalizeClassName(s)) == NormalizeClassName(s)
  {
    var n := NormalizeClassName(s);
    assert forall i :: 0 <= i < |n| ==> NormalizeClassName(n)[i] == n[i];
  }

  /** Two class names normalise to the same name exactly when they have the
      same length and differ at most in which separator (`/` or `.`) they use. */
  lemma SameNormalFormIffSameUpToSeparator(a: string, b: string)
    ensures NormalizeClassName(a) == NormalizeClassName(b) <==>
            (|a| == |b| && forall i :: 0 <= i < |a| ==> a[i] == b[i] || (IsSeparator(a[i]) && IsSeparator(b[i])))
  {
    var na, nb := NormalizeClassName(a), NormalizeClassName(b);
    if na == nb {
      forall i | 0 <= i < |a|
        ensures a[i] == b[i] || (IsSeparator(a[i]) && IsSeparator(b[i]))
      {
        assert na[i] == nb[i];
        assert na[i] == (if a[i] == '/' then '.' else a[i]);
        assert nb[i] == (if b[i] == '/' then '.' else b[i]);
      }
    }
    if |a| == |b| && forall i :: 0 <= i < |a| ==> a[i] == b[i] || (IsSeparator(a[i]) && IsSeparator(b[i])) {
      forall i | 0 <= i < |a|
        ensures na[i] == nb[i]
      {
        assert na[i] == (if a[i] == '/' then '.' else a[i]);
        assert nb[i] == (if b[i] == '/' then '.' else b[i]);
      }
      assert |na| == |nb|;
    }
  }
}
