/** Which declared methods a request selects: the name compared ignoring case,
    and the signature compared exactly when one was supplied. */
module Matching {
  import opened Results
  import opened JavaText
  import opened ClassModel

  /** The method a caller asks for: a name, and a signature that may be `null`. */
  datatype Query = Query(methodName: string, methodSignature: Option<string>)

  /** The test `searchAndReplaceMethod` applies to each declared method,
      branch for branch. */
  predicate Matches(m: Method, q: Query)
  {
    if EqualsIgnoreCase(m.name, q.methodName) then
      if q.methodSignature.Some? && m.signature == q.methodSignature.value then true
      else if q.methodSignature.None? then true
      else false
    else false
  }

  /** A method is selected exactly when its upper-cased name equals the
      upper-cased requested name and, if a signature was supplied, its
      signature is that signature. */
  lemma MatchesIff(m: Method, q: Query)
    ensures Matches(m, q) <==>
            UpperCase(m.name) == UpperCase(q.methodName) &&
            (q.methodSignature.None? || m.signature == q.methodSignature.value)
  {
    EqualsIgnoreCaseIsUpperEquality(m.name, q.methodName);
  }

  /** The methods of `t` the query selects, in declaration order. */
  function Selected(t: MethodTable, q: Query): (r: MethodTable)
    ensures |r| <= |t|
    ensures forall m :: m in r <==> m in t && Matches(m, q)
    decreases |t|
  {
    if t == [] then []
    else (if Matches(t[0], q) then [t[0]] else []) + Selected(t[1..], q)
  }

  /** The methods of `t` the query leaves alone, in declaration order. */
  function Kept(t: MethodTable, q: Query): (r: MethodTable)
    ensures |r| <= |t|
    ensures forall m :: m in r <==> m in t && !Matches(m, q)
    decreases |t|
  {
    if t == [] then []
    else (if Matches(t[0], q) then [] else [t[0]]) + Kept(t[1..], q)
  }

  /** The results of handing each method of `t` to the strategy, in order. */
  function Transformed(t: MethodTable, enhance: Method -> Method): (r: MethodTable)
    ensures |r| == |t|
    ensures forall i :: 0 <= i < |t| ==> r[i] == enhance(t[i])
    decreases |t|
  {
    if t == [] then [] else [enhance(t[0])] + Transformed(t[1..], enhance)
  }

  /** Every declared method is either selected or kept, and none is both. */
  lemma {:induction false} SelectedAndKeptPartition(t: MethodTable, q: Query)
    ensures multiset(Selected(t, q)) + multiset(Kept(t, q)) == multiset(t)
    decreases |t|
  {
    if t != [] {
      SelectedAndKeptPartition(t[1..], q);
      assert t == [t[0]] + t[1..];
      assert multiset(t) == multiset{t[0]} + multiset(t[1..]);
      if Matches(t[0], q) {
        assert Selected(t, q) == [t[0]] + Selected(t[1..], q);
        assert Kept(t, q) == Kept(t[1..], q);
      } else {
        assert Selected(t, q) == Selected(t[1..], q);
        assert Kept(t, q) == [t[0]] + Kept(t[1..], q);
      }
    }
  }

  /** The query selects each matching method as often as the table declares
      it, and no other method. */
  lemma {:induction false} SelectedCount(t: MethodTable, q: Query, m: Method)
    ensures multiset(Selected(t, q))[m] == if Matches(m, q) then multiset(t)[m] else 0
    decreases |t|
  {
    if t != [] {
      SelectedCount(t[1..], q, m);
      assert t == [t[0]] + t[1..];
    }
  }

  /** Selecting from a concatenation selects from each part in turn. */
  lemma {:induction false} SelectedOfAppend(a: MethodTable, b: MethodTable, q: Query)
    ensures Selected(a + b, q) == Selected(a, q) + Selected(b, q)
    decreases |a|
  {
    if a == [] {
      assert a + b == b;
    } else {
      SelectedOfAppend(a[1..], b, q);
      assert (a + b)[1..] == a[1..] + b;
      assert (a + b)[0] == a[0];
      var head := if Matches(a[0], q) then [a[0]] else [];
      assert head + (Selected(a[1..], q) + Selected(b, q)) == head + Selected(a[1..], q) + Selected(b, q);
    }
  }

  /** Something is selected exactly when some declared method matches. */
  lemma SelectedNonEmptyIff(t: MethodTable, q: Query)
    ensures Selected(t, q) != [] <==> exists i :: 0 <= i < |t| && Matches(t[i], q)
  {
    if Selected(t, q) != [] {
      var m := Selected(t, q)[0];
      assert m in Selected(t, q);
      var i :| 0 <= i < |t| && t[i] == m;
    }
    if exists i :: 0 <= i < |t| && Matches(t[i], q) {
      var i :| 0 <= i < |t| && Matches(t[i], q);
      assert t[i] in Selected(t, q);
    }
  }
}
