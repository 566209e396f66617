/** `searchAndReplaceMethod`: walk the declared methods as they were when the
    walk began, and replace every selected one by what the strategy makes of it. */
module SearchReplace {
  import opened Results
  import opened JavaText
  import opened ClassModel
  import opened Matching

  /** What a completed walk leaves behind: the class's method table, whether
      any method was selected, and the methods handed to the strategy, in the
      order they were handed over. */
  datatype Replacement = Replacement(methods: MethodTable, found: bool, enhanced: seq<Method>)

  /** Replacing one selected method: remove it, then attach the strategy's result. */
  function ReplaceOne(state: MethodTable, m: Method, enhance: Method -> Method,
                      accept: (MethodTable, Method) -> bool): (r: Result<MethodTable, Failure>)
    requires m in state
    ensures r.Err? <==> !accept(RemoveMethod(state, m).value, enhance(m))
    ensures r.Err? ==> r.error == MethodNotAttached
    ensures r.Ok? ==> multiset(r.value) + multiset{m} == multiset(state) + multiset{enhance(m)}
  {
    var removed := RemoveMethod(state, m);
    if removed.Err? then
      assert false; removed
    else
      AddMethod(removed.value, enhance(m), accept)
  }

  /** The walk over the rest `rest` of the snapshot, with `state` the current
      table and `found`/`enhanced` what the walk has recorded so far. Every
      method still to be visited is in the table, since the table holds the
      unvisited part of the snapshot alongside the replacements made so far. */
  function Walk(rest: seq<Method>, state: MethodTable, q: Query, enhance: Method -> Method,
                accept: (MethodTable, Method) -> bool, found: bool, enhanced: seq<Method>): (r: Result<Replacement, Failure>)
    requires multiset(rest) <= multiset(state)
    ensures r.Ok? ==> |r.value.methods| == |state|
    ensures r.Err? ==> r.error == MethodNotAttached
    decreases |rest|
  {
    if rest == [] then
      Ok(Replacement(state, found, enhanced))
    else
      var m := rest[0];
      assert rest == [m] + rest[1..];
      assert m in multiset(rest);
      if Matches(m, q) then
        match ReplaceOne(state, m, enhance, accept)
        case Err(e) => Err(e)
        case Ok(next) =>
          Walk(rest[1..], next, q, enhance, accept, true, enhanced + [m])
      else
        Walk(rest[1..], state, q, enhance, accept, found, enhanced)
  }

  /** The rest of the snapshot stays in the table across one trade of `m` for `e`. */
  lemma RestStaysInTable<T>(tail: multiset<T>, state: multiset<T>, next: multiset<T>, m: T, e: T)
    requires multiset{m} + tail <= state
    requires next + multiset{m} == state + multiset{e}
    ensures tail <= next
  {
    forall x
      ensures tail[x] <= next[x]
    {
      assert (multiset{m} + tail)[x] <= state[x];
      assert (next + multiset{m})[x] == (state + multiset{e})[x];
    }
  }

  /** One step of the walk at a selected method: it is still in the table, and
      the walk goes on from the table the replacement leaves. */
  lemma WalkMatchStep(rest: seq<Method>, state: MethodTable, q: Query, enhance: Method -> Method,
                      accept: (MethodTable, Method) -> bool, found: bool, enhanced: seq<Method>)
    requires multiset(rest) <= multiset(state)
    requires rest != [] && Matches(rest[0], q)
    ensures rest[0] in state
    ensures Selected(rest, q) == [rest[0]] + Selected(rest[1..], q)
    ensures ReplaceOne(state, rest[0], enhance, accept).Err? ==>
              Walk(rest, state, q, enhance, accept, found, enhanced).Err?
    ensures var step := ReplaceOne(state, rest[0], enhance, accept);
            step.Ok? ==>
              multiset(rest[1..]) <= multiset(step.value) &&
              Walk(rest, state, q, enhance, accept, found, enhanced)
              == Walk(rest[1..], step.value, q, enhance, accept, true, enhanced + [rest[0]])
  {
    var m := rest[0];
    assert rest == [m] + rest[1..];
    assert multiset(rest) == multiset{m} + multiset(rest[1..]);
    assert m in multiset(rest);
    var step := ReplaceOne(state, m, enhance, accept);
    if step.Ok? {
      RestStaysInTable(multiset(rest[1..]), multiset(state), multiset(step.value), m, enhance(m));
    }
  }

  /** One step of the walk at a method the query does not select. */
  lemma WalkSkipStep(rest: seq<Method>, state: MethodTable, q: Query, enhance: Method -> Method,
                     accept: (MethodTable, Method) -> bool, found: bool, enhanced: seq<Method>)
    requires multiset(rest) <= multiset(state)
    requires rest != [] && !Matches(rest[0], q)
    ensures Selected(rest, q) == Selected(rest[1..], q)
    ensures multiset(rest[1..]) <= multiset(state)
    ensures Walk(rest, state, q, enhance, accept, found, enhanced)
            == Walk(rest[1..], state, q, enhance, accept, found, enhanced)
  {
    assert rest == [rest[0]] + rest[1..];
  }

  /** The bookkeeping of one trade: if the rest of the walk balances and this
      step traded `m` for `e`, the whole walk balances. */
  lemma TradeBalances<T>(after: multiset<T>, sel: multiset<T>, tr: multiset<T>,
                         next: multiset<T>, state: multiset<T>, m: T, e: T)
    requires after + sel == next + tr
    requires next + multiset{m} == state + multiset{e}
    ensures after + (multiset{m} + sel) == state + (multiset{e} + tr)
  {
    forall x
      ensures (after + (multiset{m} + sel))[x] == (state + (multiset{e} + tr))[x]
    {
      assert (after + sel)[x] == (next + tr)[x];
      assert (next + multiset{m})[x] == (state + multiset{e})[x];
    }
  }

  /** The table after the walk: each selected method of the snapshot has been
      traded for the strategy's version of it, and nothing else has changed. */
  lemma {:induction false} WalkTable(rest: seq<Method>, state: MethodTable, q: Query, enhance: Method -> Method,
                                     accept: (MethodTable, Method) -> bool, found: bool, enhanced: seq<Method>)
    requires multiset(rest) <= multiset(state)
    ensures var r := Walk(rest, state, q, enhance, accept, found, enhanced);
            r.Ok? ==> multiset(r.value.methods) + multiset(Selected(rest, q))
                      == multiset(state) + multiset(Transformed(Selected(rest, q), enhance))
    decreases |rest|
  {
    if rest != [] {
      var m := rest[0];
      if Matches(m, q) {
        WalkMatchStep(rest, state, q, enhance, accept, found, enhanced);
        var step := ReplaceOne(state, m, enhance, accept);
        if step.Ok? {
          var next := step.value;
          WalkTable(rest[1..], next, q, enhance, accept, true, enhanced + [m]);
          var w := Walk(rest[1..], next, q, enhance, accept, true, enhanced + [m]);
          if w.Ok? {
            var sel := Selected(rest[1..], q);
            var tr := Transformed(sel, enhance);
            assert Transformed([m] + sel, enhance) == [enhance(m)] + tr;
            TradeBalances(multiset(w.value.methods), multiset(sel), multiset(tr),
                          multiset(next), multiset(state), m, enhance(m));
          }
        }
      } else {
        WalkSkipStep(rest, state, q, enhance, accept, found, enhanced);
        WalkTable(rest[1..], state, q, enhance, accept, found, enhanced);
      }
    }
  }

  /** The walk reports a match exactly when it had already found one or the
      rest of the snapshot holds a selected method. */
  lemma {:induction false} WalkFound(rest: seq<Method>, state: MethodTable, q: Query, enhance: Method -> Method,
                                     accept: (MethodTable, Method) -> bool, found: bool, enhanced: seq<Method>)
    requires multiset(rest) <= multiset(state)
    ensures var r := Walk(rest, state, q, enhance, accept, found, enhanced);
            r.Ok? ==> r.value.found == (found || Selected(rest, q) != [])
    decreases |rest|
  {
    if rest != [] {
      var m := rest[0];
      if Matches(m, q) {
        WalkMatchStep(rest, state, q, enhance, accept, found, enhanced);
        var step := ReplaceOne(state, m, enhance, accept);
        if step.Ok? {
          WalkFound(rest[1..], step.value, q, enhance, accept, true, enhanced + [m]);
        }
      } else {
        WalkSkipStep(rest, state, q, enhance, accept, found, enhanced);
        WalkFound(rest[1..], state, q, enhance, accept, found, enhanced);
      }
    }
  }

  /** The walk hands the strategy exactly the selected methods of the
      snapshot, once each, in snapshot order. */
  lemma {:induction false} WalkTrace(rest: seq<Method>, state: MethodTable, q: Query, enhance: Method -> Method,
                                     accept: (MethodTable, Method) -> bool, found: bool, enhanced: seq<Method>)
    requires multiset(rest) <= multiset(state)
    ensures var r := Walk(rest, state, q, enhance, accept, found, enhanced);
            r.Ok? ==> r.value.enhanced == enhanced + Selected(rest, q)
    decreases |rest|
  {
    if rest != [] {
      var m := rest[0];
      if Matches(m, q) {
        WalkMatchStep(rest, state, q, enhance, accept, found, enhanced);
        var step := ReplaceOne(state, m, enhance, accept);
        if step.Ok? {
          var sel := Selected(rest[1..], q);
          assert Selected(rest, q) == [m] + sel;
          assert enhanced + [m] + sel == enhanced + ([m] + sel);
          WalkTrace(rest[1..], step.value, q, enhance, accept, true, enhanced + [m]);
        }
      } else {
        WalkSkipStep(rest, state, q, enhance, accept, found, enhanced);
        WalkTrace(rest[1..], state, q, enhance, accept, found, enhanced);
      }
    }
  }

  /** The walk over `rest`, begun on the table `state`, reaches the selected
      method `rest[k]` and offers the strategy's version of it to the table
      `s`, which refuses it. `s` is the table left once `rest[k]` is removed:
      together with the methods selected up to and including `rest[k]` it
      makes up `state` plus the strategy's versions of those selected before
      `rest[k]`. */
  ghost predicate RefusedAt(rest: seq<Method>, state: MethodTable, q: Query, enhance: Method -> Method,
                            accept: (MethodTable, Method) -> bool, s: MethodTable, k: nat)
  {
    && k < |rest|
    && Matches(rest[k], q)
    && !accept(s, enhance(rest[k]))
    && multiset(s) + multiset(Selected(rest[..k + 1], q))
       == multiset(state) + multiset(Transformed(Selected(rest[..k], q), enhance))
  }

  /** A refusal at the first method of the walk. */
  lemma RefusedAtFirst(rest: seq<Method>, state: MethodTable, q: Query, enhance: Method -> Method,
                       accept: (MethodTable, Method) -> bool)
    requires rest != [] && Matches(rest[0], q) && rest[0] in state
    requires !accept(RemoveMethod(state, rest[0]).value, enhance(rest[0]))
    ensures RefusedAt(rest, state, q, enhance, accept, RemoveMethod(state, rest[0]).value, 0)
  {
    assert rest[..1] == [rest[0]];
    assert Selected([rest[0]], q) == [rest[0]];
    assert rest[..0] == [];
  }

  /** A refusal later in the walk, after the first method was replaced. */
  lemma RefusedAfterMatch(rest: seq<Method>, state: MethodTable, next: MethodTable, q: Query,
                          enhance: Method -> Method, accept: (MethodTable, Method) -> bool, s: MethodTable, k: nat)
    requires rest != [] && Matches(rest[0], q)
    requires multiset(next) + multiset{rest[0]} == multiset(state) + multiset{enhance(rest[0])}
    requires RefusedAt(rest[1..], next, q, enhance, accept, s, k)
    ensures RefusedAt(rest, state, q, enhance, accept, s, k + 1)
  {
    var m := rest[0];
    assert rest[..k + 2] == [m] + rest[1..][..k + 1];
    assert rest[..k + 1] == [m] + rest[1..][..k];
    assert rest[k + 1] == rest[1..][k];
    SelectedOfAppend([m], rest[1..][..k + 1], q);
    SelectedOfAppend([m], rest[1..][..k], q);
    assert Selected([m], q) == [m];
    var sel := Selected(rest[1..][..k + 1], q);
    var before := Selected(rest[1..][..k], q);
    assert Transformed([m] + before, enhance) == [enhance(m)] + Transformed(before, enhance);
    TradeBalances(multiset(s), multiset(sel), multiset(Transformed(before, enhance)),
                  multiset(next), multiset(state), m, enhance(m));
  }

  /** A refusal later in the walk, after the first method was skipped. */
  lemma RefusedAfterSkip(rest: seq<Method>, state: MethodTable, q: Query,
                         enhance: Method -> Method, accept: (MethodTable, Method) -> bool, s: MethodTable, k: nat)
    requires rest != [] && !Matches(rest[0], q)
    requires RefusedAt(rest[1..], state, q, enhance, accept, s, k)
    ensures RefusedAt(rest, state, q, enhance, accept, s, k + 1)
  {
    var m := rest[0];
    assert rest[..k + 2] == [m] + rest[1..][..k + 1];
    assert rest[..k + 1] == [m] + rest[1..][..k];
    assert rest[k + 1] == rest[1..][k];
    SelectedOfAppend([m], rest[1..][..k + 1], q);
    SelectedOfAppend([m], rest[1..][..k], q);
    assert Selected([m], q) == [];
    assert Selected(rest[..k + 2], q) == Selected(rest[1..][..k + 1], q);
    assert Selected(rest[..k + 1], q) == Selected(rest[1..][..k], q);
  }

  /** The walk fails only when the class refuses the strategy's version of some
      selected method of the snapshot, in the table the walk holds at that
      point with that method removed. */
  lemma {:induction false} WalkFailure(rest: seq<Method>, state: MethodTable, q: Query, enhance: Method -> Method,
                                       accept: (MethodTable, Method) -> bool, found: bool, enhanced: seq<Method>)
    requires multiset(rest) <= multiset(state)
    ensures Walk(rest, state, q, enhance, accept, found, enhanced).Err? ==>
            exists s: MethodTable, k: nat :: RefusedAt(rest, state, q, enhance, accept, s, k)
    decreases |rest|
  {
    if rest != [] {
      var m := rest[0];
      if Matches(m, q) {
        WalkMatchStep(rest, state, q, enhance, accept, found, enhanced);
        var step := ReplaceOne(state, m, enhance, accept);
        if step.Err? {
          RefusedAtFirst(rest, state, q, enhance, accept);
        } else {
          WalkFailure(rest[1..], step.value, q, enhance, accept, true, enhanced + [m]);
          if Walk(rest[1..], step.value, q, enhance, accept, true, enhanced + [m]).Err? {
            var s: MethodTable, k: nat :| RefusedAt(rest[1..], step.value, q, enhance, accept, s, k);
            RefusedAfterMatch(rest, state, step.value, q, enhance, accept, s, k);
          }
        }
      } else {
        WalkSkipStep(rest, state, q, enhance, accept, found, enhanced);
        WalkFailure(rest[1..], state, q, enhance, accept, found, enhanced);
        if Walk(rest[1..], state, q, enhance, accept, found, enhanced).Err? {
          var s: MethodTable, k: nat :| RefusedAt(rest[1..], state, q, enhance, accept, s, k);
          RefusedAfterSkip(rest, state, q, enhance, accept, s, k);
        }
      }
    }
  }

  /** The refusal the walk over the whole class can meet: the selected method
      `t[k]`, whose replacement is offered to a table holding the methods
      before `t[k]` that were kept, the strategy's versions of those before it
      that were selected, and every method after it. */
  ghost predicate RefusedReplacement(t: MethodTable, q: Query, enhance: Method -> Method,
                                     accept: (MethodTable, Method) -> bool, s: MethodTable, k: nat)
  {
    && k < |t|
    && Matches(t[k], q)
    && !accept(s, enhance(t[k]))
    && multiset(s) == multiset(Kept(t[..k], q)) + multiset(Transformed(Selected(t[..k], q), enhance)) + multiset(t[k + 1..])
  }

  /** The bookkeeping behind `RefusedReplacement`: take away the selected
      method and the methods before it from both sides. */
  lemma CancelPrefix<T>(s: multiset<T>, sel: multiset<T>, kept: multiset<T>, x: T, tail: multiset<T>, tr: multiset<T>)
    requires s + (sel + multiset{x}) == (sel + kept) + multiset{x} + tail + tr
    ensures s == kept + tr + tail
  {
    forall y
      ensures s[y] == (kept + tr + tail)[y]
    {
      assert (s + (sel + multiset{x}))[y] == ((sel + kept) + multiset{x} + tail + tr)[y];
    }
  }

  /** How the class splits around a selected method `t[k]`. */
  lemma SplitAtSelected(t: MethodTable, q: Query, k: nat)
    requires k < |t| && Matches(t[k], q)
    ensures multiset(Selected(t[..k + 1], q)) == multiset(Selected(t[..k], q)) + multiset{t[k]}
    ensures multiset(t) == multiset(Selected(t[..k], q)) + multiset(Kept(t[..k], q)) + multiset{t[k]} + multiset(t[k + 1..])
  {
    assert t[..k + 1] == t[..k] + [t[k]];
    SelectedOfAppend(t[..k], [t[k]], q);
    assert Selected([t[k]], q) == [t[k]];
    assert t == t[..k] + [t[k]] + t[k + 1..];
    SelectedAndKeptPartition(t[..k], q);
  }

  /** A refusal met by the walk over the whole class, begun on the class's own table. */
  lemma RefusedAtStart(t: MethodTable, q: Query, enhance: Method -> Method,
                       accept: (MethodTable, Method) -> bool, s: MethodTable, k: nat)
    requires RefusedAt(t, t, q, enhance, accept, s, k)
    ensures RefusedReplacement(t, q, enhance, accept, s, k)
  {
    SplitAtSelected(t, q, k);
    CancelPrefix(multiset(s), multiset(Selected(t[..k], q)), multiset(Kept(t[..k], q)), t[k],
                 multiset(t[k + 1..]), multiset(Transformed(Selected(t[..k], q), enhance)));
  }

  /** A walk over a snapshot none of whose methods match changes nothing. */
  lemma {:induction false} WalkWithoutMatch(rest: seq<Method>, state: MethodTable, q: Query, enhance: Method -> Method,
                                            accept: (MethodTable, Method) -> bool, found: bool, enhanced: seq<Method>)
    requires multiset(rest) <= multiset(state)
    requires forall i :: 0 <= i < |rest| ==> !Matches(rest[i], q)
    ensures Walk(rest, state, q, enhance, accept, found, enhanced) == Ok(Replacement(state, found, enhanced))
    decreases |rest|
  {
    if rest != [] {
      assert rest == [rest[0]] + rest[1..];
      assert !Matches(rest[0], q);
      WalkWithoutMatch(rest[1..], state, q, enhance, accept, found, enhanced);
    }
  }

  /** What is left of the table once the selected methods are traded for
      the strategy's versions of them. */
  lemma Cancel<T>(after: multiset<T>, sel: multiset<T>, kept: multiset<T>, tr: multiset<T>, t: multiset<T>)
    requires after + sel == t + tr
    requires sel + kept == t
    ensures after == kept + tr
  {
    forall x
      ensures after[x] == (kept + tr)[x]
    {
      assert (after + sel)[x] == (t + tr)[x];
      assert (sel + kept)[x] == t[x];
    }
  }

  /** The walk over the whole class fails only at a `RefusedReplacement`. */
  lemma WalkFailureFromStart(t: MethodTable, q: Query, enhance: Method -> Method,
                             accept: (MethodTable, Method) -> bool)
    ensures Walk(t, t, q, enhance, accept, false, []).Err? ==>
            exists s: MethodTable, k: nat :: RefusedReplacement(t, q, enhance, accept, s, k)
  {
    WalkFailure(t, t, q, enhance, accept, false, []);
    if Walk(t, t, q, enhance, accept, false, []).Err? {
      var s: MethodTable, k: nat :| RefusedAt(t, t, q, enhance, accept, s, k);
      RefusedAtStart(t, q, enhance, accept, s, k);
    }
  }

  /** `searchAndReplaceMethod` on a class whose declared methods are `t`:
      the walk over the snapshot `t`, starting from the table `t`, with no
      match found yet. */
  function SearchAndReplaceMethod(t: MethodTable, q: Query, enhance: Method -> Method,
                                  accept: (MethodTable, Method) -> bool): (r: Result<Replacement, Failure>)
    ensures r.Ok? ==> (r.value.found <==> exists i :: 0 <= i < |t| && Matches(t[i], q))
    ensures r.Ok? ==> r.value.enhanced == Selected(t, q)
    ensures r.Ok? ==> |r.value.methods| == |t|
    ensures r.Ok? ==> multiset(r.value.methods) == multiset(Kept(t, q)) + multiset(Transformed(Selected(t, q), enhance))
    ensures r.Err? ==> r.error == MethodNotAttached
    ensures r.Err? ==> exists s: MethodTable, k: nat :: RefusedReplacement(t, q, enhance, accept, s, k)
  {
    WalkTable(t, t, q, enhance, accept, false, []);
    WalkFound(t, t, q, enhance, accept, false, []);
    WalkTrace(t, t, q, enhance, accept, false, []);
    WalkFailureFromStart(t, q, enhance, accept);
    SelectedAndKeptPartition(t, q);
    SelectedNonEmptyIff(t, q);
    var r := Walk(t, t, q, enhance, accept, false, []);
    if r.Ok? then
      Cancel(multiset(r.value.methods), multiset(Selected(t, q)), multiset(Kept(t, q)),
             multiset(Transformed(Selected(t, q), enhance)), multiset(t));
      r
    else
      r
  }

  /** The same procedure as the source writes it: a loop over the snapshot of
      declared methods taken once on entry, mutating the table as it goes. */
  method SearchAndReplaceLoop(t: MethodTable, q: Query, enhance: Method -> Method,
                              accept: (MethodTable, Method) -> bool) returns (r: Result<Replacement, Failure>)
    ensures r == SearchAndReplaceMethod(t, q, enhance, accept)
  {
    var snapshot := t;
    var state := t;
    var found := false;
    var enhanced: seq<Method> := [];
    var i := 0;
    while i < |snapshot|
      invariant 0 <= i <= |snapshot|
      invariant multiset(snapshot[i..]) <= multiset(state)
      invariant Walk(snapshot[i..], state, q, enhance, accept, found, enhanced)
                == Walk(t, t, q, enhance, accept, false, [])
    {
      var m := snapshot[i];
      assert snapshot[i..][0] == m && snapshot[i..][1..] == snapshot[i + 1..];
      if Matches(m, q) {
        WalkMatchStep(snapshot[i..], state, q, enhance, accept, found, enhanced);
        var removed := RemoveMethod(state, m);
        if removed.Err? {
          assert false;
        }
        var added := AddMethod(removed.value, enhance(m), accept);
        if added.Err? {
          return Err(added.error);
        }
        state := added.value;
        found := true;
        enhanced := enhanced + [m];
      } else {
        WalkSkipStep(snapshot[i..], state, q, enhance, accept, found, enhanced);
      }
      i := i + 1;
    }
    r := Ok(Replacement(state, found, enhanced));
  }

  /** When no declared method matches, the table comes back exactly as it was
      (method for method, in the same order) and no match is reported. */
  lemma NoMatchLeavesTableAsIs(t: MethodTable, q: Query, enhance: Method -> Method,
                               accept: (MethodTable, Method) -> bool)
    requires forall i :: 0 <= i < |t| ==> !Matches(t[i], q)
    ensures SearchAndReplaceMethod(t, q, enhance, accept) == Ok(Replacement(t, false, []))
  {
    WalkWithoutMatch(t, t, q, enhance, accept, false, []);
  }

  /** Under a strategy that returns its input unchanged, the class ends up
      declaring the same methods as before, as a multiset. */
  lemma IdentityStrategyKeepsMethods(t: MethodTable, q: Query, enhance: Method -> Method,
                                     accept: (MethodTable, Method) -> bool)
    requires forall m :: enhance(m) == m
    ensures var r := SearchAndReplaceMethod(t, q, enhance, accept);
            r.Ok? ==> multiset(r.value.methods) == multiset(t)
  {
    var sel := Selected(t, q);
    assert Transformed(sel, enhance) == sel;
    SelectedAndKeptPartition(t, q);
  }

  /** A selected method is handed to the strategy, and the strategy's version
      of it is declared afterwards. */
  lemma SelectedMethodIsReplaced(t: MethodTable, q: Query, enhance: Method -> Method,
                                 accept: (MethodTable, Method) -> bool, i: nat)
    requires i < |t| && Matches(t[i], q)
    ensures var r := SearchAndReplaceMethod(t, q, enhance, accept);
            r.Ok? ==> t[i] in r.value.enhanced && enhance(t[i]) in r.value.methods
  {
    var r := SearchAndReplaceMethod(t, q, enhance, accept);
    var sel := Selected(t, q);
    assert t[i] in sel;
    if r.Ok? {
      var j :| 0 <= j < |sel| && sel[j] == t[i];
      var tr := Transformed(sel, enhance);
      assert tr[j] == enhance(t[i]);
      assert enhance(t[i]) in multiset(tr);
      assert enhance(t[i]) in multiset(r.value.methods);
    }
  }

  /** Without a signature, every overload whose name matches is handed to the
      strategy, and the strategy's version of each is in the resulting class. */
  lemma NullSignatureTransformsEveryOverload(t: MethodTable, q: Query, enhance: Method -> Method,
                                             accept: (MethodTable, Method) -> bool)
    requires q.methodSignature.None?
    ensures var r := SearchAndReplaceMethod(t, q, enhance, accept);
            r.Ok? ==> forall i :: 0 <= i < |t| && EqualsIgnoreCase(t[i].name, q.methodName) ==>
                        t[i] in r.value.enhanced && enhance(t[i]) in r.value.methods
  {
    forall i | 0 <= i < |t| && EqualsIgnoreCase(t[i].name, q.methodName)
      ensures var r := SearchAndReplaceMethod(t, q, enhance, accept);
              r.Ok? ==> t[i] in r.value.enhanced && enhance(t[i]) in r.value.methods
    {
      SelectedMethodIsReplaced(t, q, enhance, accept, i);
    }
  }

  /** With a signature, a method whose name matches but whose signature differs
      is not handed to the strategy and is still declared afterwards. */
  lemma SignatureMismatchLeftUntouched(t: MethodTable, q: Query, enhance: Method -> Method,
                                       accept: (MethodTable, Method) -> bool, i: nat)
    requires q.methodSignature.Some?
    requires i < |t| && EqualsIgnoreCase(t[i].name, q.methodName)
    requires t[i].signature != q.methodSignature.value
    ensures var r := SearchAndReplaceMethod(t, q, enhance, accept);
            r.Ok? ==> t[i] !in r.value.enhanced && t[i] in r.value.methods
  {
    var r := SearchAndReplaceMethod(t, q, enhance, accept);
    assert !Matches(t[i], q);
    assert t[i] in Kept(t, q);
    if r.Ok? {
      assert t[i] in multiset(Kept(t, q));
      assert t[i] in multiset(r.value.methods);
    }
  }

  /** Each originally declared method that matches is handed to the strategy
      exactly as many times as the class declares it (once, for distinct
      methods), and no other method is: in particular none of the methods the
      walk itself attached. */
  lemma EachMatchEnhancedOnce(t: MethodTable, q: Query, enhance: Method -> Method,
                              accept: (MethodTable, Method) -> bool)
    ensures var r := SearchAndReplaceMethod(t, q, enhance, accept);
            r.Ok? ==> forall m :: multiset(r.value.enhanced)[m] == if Matches(m, q) then multiset(t)[m] else 0
  {
    forall m
      ensures multiset(Selected(t, q))[m] == if Matches(m, q) then multiset(t)[m] else 0
    {
      SelectedCount(t, q, m);
    }
  }
}
