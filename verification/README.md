# BaseCodeIntegrator, modelled in Dafny

This project models the core of SherLog's `BaseCodeIntegrator`, the class
that rewrites one method of a compiled Java class with Javassist. Given a class
name, a method name, an optional (nullable) method signature, a class loader
and the class's bytes, `performCodeIntegration`:

1. normalises the class name by turning every `/` into `.`;
2. resolves the class through a fresh class pool whose search path is the
   system class path, then the class loader, then the supplied bytes;
3. walks the class's declared methods through `searchAndReplaceMethod`. The
   walk runs over the method list as it was when the walk started. Each method
   whose name equals the requested name ignoring case is replaced when no
   signature was given, or when its signature is exactly the given one.
   Replacing a method means removing it, passing it through the subclass's
   `enhanceMethodCode`, and adding the result back;
4. logs a "Could not find method" line when nothing matched. A missed match
   is not an error;
5. serialises the class and returns the bytes. It returns `null` when
   resolution, removal, re-attachment or serialisation throws.

A class is a sequence of method records `Method(name, signature, body)`.
Strings are `seq<char>` and bytes are an opaque `seq<byte>`. The subclass
strategy, the class-file parser, the serialiser, the `addMethod` acceptance
check and the class path sources are function parameters. These are the
`Collaborators` in `integration.dfy`.

Files, one module each:

- `results.dfy` (`Results`): `Option` stands for a nullable Java value and
  `Result` for a call that may throw.
- `java_text.dfy` (`JavaText`): `String.equalsIgnoreCase`, with ASCII case
  mapping.
- `class_names.dfy` (`ClassNames`): class-name normalisation.
- `class_model.dfy` (`ClassModel`): methods, the method table, and the
  removal and addition operations.
- `matching.dfy` (`Matching`): the match predicate, and which methods are
  selected or kept.
- `search_replace.dfy` (`SearchReplace`): `searchAndReplaceMethod`, written
  both as a recursive walk and as a loop over the snapshot.
- `integration.dfy` (`Integration`): class resolution and
  `performCodeIntegration`.

Two consequences of the code are worth stating:

- **Which bytes are used.** The supplied bytes are found only when neither the
  system class path nor the class loader has the class. This is because
  `appendClassPath` puts the `ByteArrayClassPath` after both of them
  (`BaseCodeIntegrator.java:68-70`). `Integration.Resolve` states this search
  order.
- **Removal does not fail in the model.** Every removal during the walk finds
  its method, because the unvisited part of the snapshot is always still in
  the table. So `Integrate` never fails with `MethodNotRemoved`. This relies on
  the strategy affecting the class only through the method it returns (see
  "Left out").

## Model

| member | source | states |
|---|---|---|
| JavaText.CharEqualsIgnoreCaseIsUpperEquality | src/main/java/com/big/sherlog/integration/BaseCodeIntegrator.java:113 | With ASCII case mapping, the three-way per-character test of `equalsIgnoreCase` holds exactly when both characters have the same upper case. |
| JavaText.RegionMatchesIsUpperEquality | src/main/java/com/big/sherlog/integration/BaseCodeIntegrator.java:113 | For two strings of the same length, comparing them character by character ignoring case is the same as comparing their upper-cased forms. |
| JavaText.EqualsIgnoreCaseIsUpperEquality | src/main/java/com/big/sherlog/integration/BaseCodeIntegrator.java:113 | A method name equals the requested name ignoring case exactly when their upper-cased forms are equal; a different length never matches. |
| JavaText.EqualsIgnoreCaseIsEquivalence | src/main/java/com/big/sherlog/integration/BaseCodeIntegrator.java:113 | Case-insensitive name equality is reflexive, symmetric and transitive. |
| ClassNames.NormalizeClassName | src/main/java/com/big/sherlog/integration/BaseCodeIntegrator.java:67 | The normalised class name has the input's length, holds `.` wherever the input held `/`, equals the input everywhere else, and contains no `/`. |
| ClassNames.NormalizeIsIdempotent | src/main/java/com/big/sherlog/integration/BaseCodeIntegrator.java:67 | Normalising an already normalised name changes nothing. |
| ClassNames.SameNormalFormIffSameUpToSeparator | src/main/java/com/big/sherlog/integration/BaseCodeIntegrator.java:67 | Two names normalise alike if and only if they have the same length and differ only in using `/` or `.` at the same positions. |
| ClassModel.RemoveMethod | src/main/java/com/big/sherlog/integration/BaseCodeIntegrator.java:115-119 | Removal succeeds exactly when the table declares the method. It then leaves one method fewer, and exactly one copy of that method has gone. Otherwise it fails with `MethodNotRemoved`. |
| ClassModel.AddMethod | src/main/java/com/big/sherlog/integration/BaseCodeIntegrator.java:116-120 | Addition succeeds exactly when the library accepts the method. It then leaves one more method, the added one. Otherwise it fails with `MethodNotAttached`. |
| Matching.MatchesIff | src/main/java/com/big/sherlog/integration/BaseCodeIntegrator.java:113-122 | A method is selected if and only if its name equals the requested name ignoring case and, when a signature was given, its signature equals it exactly. With a `null` signature, any overload with that name is selected. |
| Matching.Selected | src/main/java/com/big/sherlog/integration/BaseCodeIntegrator.java:112-122 | The selected methods are exactly the declared methods that match, and there are no more of them than declared methods. |
| Matching.Kept | src/main/java/com/big/sherlog/integration/BaseCodeIntegrator.java:112-122 | The kept methods are exactly the declared methods that do not match. |
| Matching.SelectedAndKeptPartition | src/main/java/com/big/sherlog/integration/BaseCodeIntegrator.java:112-122 | Together, the selected and kept methods are the declared methods, as a multiset. |
| Matching.SelectedOfAppend | src/main/java/com/big/sherlog/integration/BaseCodeIntegrator.java:112-122 | The methods selected from two consecutive stretches of the method list are those selected from the first stretch followed by those selected from the second. |
| Matching.SelectedCount | src/main/java/com/big/sherlog/integration/BaseCodeIntegrator.java:112-122 | A matching method is selected as many times as the class declares it, and a non-matching method is never selected. |
| Matching.SelectedNonEmptyIff | src/main/java/com/big/sherlog/integration/BaseCodeIntegrator.java:111-125 | Something is selected if and only if some declared method matches. |
| SearchReplace.ReplaceOne | src/main/java/com/big/sherlog/integration/BaseCodeIntegrator.java:115-120 | Replacing a declared method fails, with `MethodNotAttached`, exactly when the library refuses the strategy's version in the table left after removal. On success the method has been traded for the strategy's version. |
| SearchReplace.Walk | src/main/java/com/big/sherlog/integration/BaseCodeIntegrator.java:112-124 | A walk that succeeds leaves as many methods as it started with, and every failure is `MethodNotAttached`. Its precondition is the snapshot invariant: the unvisited methods are still in the table. |
| SearchReplace.WalkMatchStep | src/main/java/com/big/sherlog/integration/BaseCodeIntegrator.java:113-121 | At a matching method, the method is still in the table, and the snapshot invariant survives the replacement. The walk goes on from the new table, recording a match and the method handed over. |
| SearchReplace.WalkSkipStep | src/main/java/com/big/sherlog/integration/BaseCodeIntegrator.java:112-124 | At a non-matching method, the walk goes on with the table unchanged. |
| SearchReplace.WalkTable | src/main/java/com/big/sherlog/integration/BaseCodeIntegrator.java:112-120 | After a successful walk, the table plus the selected methods equals the starting table plus the strategy's versions of them, as multisets. |
| SearchReplace.WalkFound | src/main/java/com/big/sherlog/integration/BaseCodeIntegrator.java:111-125 | The found flag is true exactly when it already was, or when the rest of the snapshot holds a matching method. |
| SearchReplace.WalkTrace | src/main/java/com/big/sherlog/integration/BaseCodeIntegrator.java:112-121 | The strategy is handed exactly the selected methods of the snapshot, in snapshot order, and nothing else. |
| SearchReplace.WalkFailure | src/main/java/com/big/sherlog/integration/BaseCodeIntegrator.java:116-120 | A walk fails only at a matching method `rest[k]` of the snapshot whose replacement the library refuses. The refusing table is pinned, as a multiset: together with the methods selected up to and including `rest[k]`, it makes up the starting table plus the strategy's versions of the methods selected before `rest[k]`. |
| SearchReplace.WalkFailureFromStart | src/main/java/com/big/sherlog/integration/BaseCodeIntegrator.java:111-124 | A walk over the whole class, starting from the class itself, fails only at a matching method `t[k]` whose replacement is refused. The refusing table holds the non-matching methods before `t[k]`, the strategy's versions of the matching ones before it, and every method after it, as a multiset. |
| SearchReplace.WalkWithoutMatch | src/main/java/com/big/sherlog/integration/BaseCodeIntegrator.java:112-125 | A walk over methods none of which match returns the table unchanged, with the flag and trace as they were. |
| SearchReplace.SearchAndReplaceMethod | src/main/java/com/big/sherlog/integration/BaseCodeIntegrator.java:110-126 | On success: the result is true if and only if some declared method matches. The strategy was handed exactly the matching methods. The method count is unchanged. The final methods are the non-matching ones plus the strategy's versions of the matching ones, as a multiset. On failure: the cause is `MethodNotAttached`, and the library refused the strategy's version of some matching method `t[k]`. The table it was offered holds, as a multiset, the methods before `t[k]` that did not match, the strategy's versions of those before it that did, and every method after it. |
| SearchReplace.SearchAndReplaceLoop | src/main/java/com/big/sherlog/integration/BaseCodeIntegrator.java:110-126 | The loop over the snapshot taken once at entry, which removes, transforms and re-adds as it goes, computes the same outcome as the walk. |
| SearchReplace.NoMatchLeavesTableAsIs | src/main/java/com/big/sherlog/integration/BaseCodeIntegrator.java:111-125 | When no declared method matches, the walk returns false and the method table unchanged, in the same order, with nothing handed to the strategy. |
| SearchReplace.IdentityStrategyKeepsMethods | src/main/java/com/big/sherlog/integration/BaseCodeIntegrator.java:115-120 | Under a strategy that returns its input, the class declares the same methods afterwards, as a multiset. Order is not claimed. |
| SearchReplace.SelectedMethodIsReplaced | src/main/java/com/big/sherlog/integration/BaseCodeIntegrator.java:113-121 | Every matching declared method is handed to the strategy, and the strategy's version of it is declared afterwards. |
| SearchReplace.NullSignatureTransformsEveryOverload | src/main/java/com/big/sherlog/integration/BaseCodeIntegrator.java:112-121 | With a `null` signature, every overload whose name matches is transformed, not just the first, and its replacement is declared afterwards. |
| SearchReplace.SignatureMismatchLeftUntouched | src/main/java/com/big/sherlog/integration/BaseCodeIntegrator.java:113-118 | With a signature given, a method whose name matches but whose signature differs is not handed to the strategy and is still declared afterwards. |
| SearchReplace.EachMatchEnhancedOnce | src/main/java/com/big/sherlog/integration/BaseCodeIntegrator.java:112-121 | Each matching method is handed to the strategy exactly as often as the class originally declared it, so once for a distinct method. No other method is handed over, not even a method the walk itself added. |
| Integration.FindClassFile | src/main/java/com/big/sherlog/integration/BaseCodeIntegrator.java:68-73 | The class pool finds a class file if and only if some source on the path has one. What it finds comes from the first such source. |
| Integration.Resolve | src/main/java/com/big/sherlog/integration/BaseCodeIntegrator.java:68-73 | The class comes from the system class path if that has it, otherwise from the class loader, and only otherwise from the supplied bytes. |
| Integration.Integrate | src/main/java/com/big/sherlog/integration/BaseCodeIntegrator.java:66-91 | It fails with `ClassNotResolved` exactly when resolution fails, and never with `MethodNotRemoved`. Once the walk has finished (success, or failed serialisation), the not-found diagnostic is present exactly when no method matched, and it carries the logged message. It is absent after `ClassNotResolved` or `MethodNotAttached`. The bytes returned serialise the replaced table. `MethodNotAttached` means that some matching method `t[k]` was refused when offered the table the walk holds at that point. That table holds, as a multiset, the non-matching methods before `t[k]`, the strategy's versions of the matching ones before it, and every method after it. `NotSerialised` means serialising the replaced table failed. |
| Integration.PerformCodeIntegration | src/main/java/com/big/sherlog/integration/BaseCodeIntegrator.java:66-91 | The result is `null` exactly when the integration fails, in particular whenever the class cannot be resolved. Otherwise it is the serialised bytes. |
| Integration.MissedMatchStillSerialises | src/main/java/com/big/sherlog/integration/BaseCodeIntegrator.java:75-82 | When nothing matches, the unchanged class is serialised and returned together with the not-found message. It is `null` only if serialisation fails. |
| Integration.IdentityStrategyReadsBackSameMethods | src/main/java/com/big/sherlog/integration/BaseCodeIntegrator.java:72-82 | Assume a strategy that returns its input, and a library whose parser reads back what its serialiser writes. Then the returned bytes read back as a class declaring the resolved class's methods, as a multiset. |
| Integration.SeparatorsDoNotMatter | src/main/java/com/big/sherlog/integration/BaseCodeIntegrator.java:67-73 | A class name written with `/` separators gives the same result as the same name written with `.`. |

## Left out

- Javassist itself is not part of this model: `ClassPool`, `LoaderClassPath`, class-file parsing, `toBytecode` and the checks inside `addMethod`. Parsing, serialisation, the `addMethod` acceptance check and the class path sources are uninterpreted parameters.
- A class file that Javassist finds but cannot read is modelled as a failed resolution (`ClassNotResolved`). Whether the library instead raises an unchecked exception depends on library internals that are not visible.
- Placement of a re-added method: the model appends it. No claim about the order of the methods depends on this; results are stated as multisets.
- `removeMethod` removes by object identity. The model removes the first equal record, so equal records are indistinguishable here.
- `getDeclaredMethods` excludes constructors and static initialisers. The model's table holds methods only.
- Case mapping is ASCII-only: `ToUpper`/`ToLower` change `a`-`z`/`A`-`Z`. Java's full Unicode tables and surrogate handling are not modelled.
- `methodName` is taken as non-null. In the source a `null` name makes `equalsIgnoreCase` return false, so nothing matches.
- `enhanceMethodCode` is a total function. Unchecked exceptions it throws escape `performCodeIntegration` uncaught, and that path is not modelled.
- Logging via `LoggerProvider.LOGGER` (including the `PROVIDED_LOGGER` constant at line 29) and `printStackTrace` are side effects. The not-found log line is returned as a value instead.
- No lemma assumes that strategies keep a method's name and signature. The lemmas hold for any strategy.
- SearchReplace.SearchAndReplaceMethod: failure is characterised in one direction only. The refusing table is pinned as a multiset, and its order depends on where `addMethod` places a method, which is not modelled. An `accept` that looks at the order can therefore accept the pinned table in one order and refuse it in another.
- Integration.Integrate: the `MethodNotAttached` and `NotSerialised` causes are characterised in one direction only, for the same reason.
- `enhanceMethodCode` is assumed to affect the class only through the method it returns. In the source it receives a `CtMethod` whose declaring class is the class being walked. A strategy could therefore remove or rename methods that the walk has not reached yet, and a later `removeMethod` would then throw `NotFoundException`. The model does not include that path.
- A `null` `className` throws a `NullPointerException` at line 67, which is outside the `try` block, so it escapes `performCodeIntegration`. The model takes the class name as a string and does not model that path.
