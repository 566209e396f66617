/** `performCodeIntegration`: resolve the class from the supplied bytes and
    class loader, replace the requested method(s), and serialise the class
    again; any failure along the way yields `null`. */
module Integration {
  import opened Results
  import opened ClassNames
  import opened ClassModel
  import opened Matching
  import opened SearchReplace

  /** A place a class pool looks for class files: given a dotted class name,
      the class file's bytes if this place has one. */
  type ClassSource = string -> Option<Bytes>

  /** The library and subclass behaviour the integrator calls into but does
      not define. */
  datatype Collaborators = Collaborators(
    systemPath: ClassSource,                 // the class path `new ClassPool(true)` starts with
    parse: Bytes -> Option<MethodTable>,     // reading a class file; `None` when it is unreadable
    enhance: Method -> Method,               // the subclass's `enhanceMethodCode`
    accept: (MethodTable, Method) -> bool,   // whether `addMethod` takes a method into a table
    serialize: MethodTable -> Option<Bytes>) // `toBytecode`; `None` when it throws

  /** A `ByteArrayClassPath`: it has exactly one class file, `bytes`, under `name`. */
  function ByteArrayClassPath(name: string, bytes: Bytes): ClassSource
  {
    n => if n == name then Some(bytes) else None
  }

  /** A class pool's search: the class file of the first source on the path
      that has one for `name`. */
  function FindClassFile(path: seq<ClassSource>, name: string): (r: Option<Bytes>)
    ensures r.None? <==> forall i :: 0 <= i < |path| ==> path[i](name).None?
    ensures r.Some? ==> exists i :: 0 <= i < |path| && path[i](name) == r &&
                                    forall j :: 0 <= j < i ==> path[j](name).None?
    decreases |path|
  {
    if path == [] then None
    else if path[0](name).Some? then path[0](name)
    else
      var r := FindClassFile(path[1..], name);
      assert forall i :: 1 <= i < |path| ==> path[i] == path[1..][i - 1];
      r
  }

  /** The search path the integrator builds: the system class path, then the
      class loader, then the supplied bytes registered under the class's name. */
  function SearchPath(c: Collaborators, name: string, loader: ClassSource, bytes: Bytes): seq<ClassSource>
  {
    [c.systemPath, loader, ByteArrayClassPath(name, bytes)]
  }

  /** `classPool.get(name)`: the declared methods of the class the pool
      finds, or `None` when it cannot produce one. The supplied bytes are used
      only when neither the system class path nor the loader has the class,
      because both were put ahead of them on the search path. */
  function Resolve(c: Collaborators, name: string, loader: ClassSource, bytes: Bytes): (r: Option<MethodTable>)
    ensures c.systemPath(name).Some? ==> r == c.parse(c.systemPath(name).value)
    ensures c.systemPath(name).None? && loader(name).Some? ==> r == c.parse(loader(name).value)
    ensures c.systemPath(name).None? && loader(name).None? ==> r == c.parse(bytes)
  {
    var path := SearchPath(c, name, loader, bytes);
    assert path[0](name) == c.systemPath(name) && path[1](name) == loader(name);
    assert path[2](name) == Some(bytes);
    match FindClassFile(path, name)
    case None => None
    case Some(file) => c.parse(file)
  }

  /** The log line written when no method matched. */
  function NotFoundMessage(methodName: string, methodSignature: Option<string>): string
  {
    match methodSignature
    case None => "Could not find method for name: " + methodName
    case Some(sig) => "Could not find method for name: " + methodName + " (Signature: " + sig + ")"
  }

  /** The outcome of an integration: the serialised class, or the reason it
      failed; either way with the diagnostic logged when the walk finished
      without a match (the diagnostic is logged before serialising). */
  datatype Integration = Integrated(bytes: Bytes, notFound: Option<string>)
                       | Failed(cause: Failure, notFound: Option<string>)

  /** `t` is what the walk leaves of `cls`: as many methods, with every
      selected method traded for the strategy's version of it. */
  ghost predicate IsReplacedTable(t: MethodTable, cls: MethodTable, q: Query, enhance: Method -> Method)
  {
    |t| == |cls| && multiset(t) == multiset(Kept(cls, q)) + multiset(Transformed(Selected(cls, q), enhance))
  }

  /** The integration failed for reason `cause`. */
  predicate FailedWith(r: Integration, cause: Failure)
  {
    r.Failed? && r.cause == cause
  }

  /** `performCodeIntegration` with its failures told apart. */
  function Integrate(c: Collaborators, className: string, methodName: string, methodSignature: Option<string>,
                     loader: ClassSource, bytes: Bytes): (r: Integration)
    ensures var cls := Resolve(c, NormalizeClassName(className), loader, bytes);
            (FailedWith(r, ClassNotResolved) <==> cls.None?) &&
            (r.Integrated? ==> cls.Some? &&
                               exists t :: IsReplacedTable(t, cls.value, Query(methodName, methodSignature), c.enhance) &&
                                           c.serialize(t) == Some(r.bytes))
    ensures var cls := Resolve(c, NormalizeClassName(className), loader, bytes);
            r.Integrated? || FailedWith(r, NotSerialised) ==>
              cls.Some? && (r.notFound.None? <==> exists i :: 0 <= i < |cls.value| &&
                                                              Matches(cls.value[i], Query(methodName, methodSignature)))
    ensures r.notFound.Some? ==> r.notFound.value == NotFoundMessage(methodName, methodSignature)
    ensures FailedWith(r, ClassNotResolved) || FailedWith(r, MethodNotAttached) ==> r.notFound.None?
    ensures !FailedWith(r, MethodNotRemoved)
    ensures var cls := Resolve(c, NormalizeClassName(className), loader, bytes);
            FailedWith(r, MethodNotAttached) ==>
              cls.Some? && exists s: MethodTable, k: nat ::
                             RefusedReplacement(cls.value, Query(methodName, methodSignature), c.enhance, c.accept, s, k)
    ensures var cls := Resolve(c, NormalizeClassName(className), loader, bytes);
            FailedWith(r, NotSerialised) ==>
              cls.Some? && exists t :: IsReplacedTable(t, cls.value, Query(methodName, methodSignature), c.enhance) &&
                                       c.serialize(t).None?
  {
    var name := NormalizeClassName(className);
    var q := Query(methodName, methodSignature);
    match Resolve(c, name, loader, bytes)
    case None => Failed(ClassNotResolved, None)
    case Some(cls) =>
      match SearchAndReplaceMethod(cls, q, c.enhance, c.accept)
      case Err(e) => Failed(e, None)
      case Ok(replaced) =>
        assert IsReplacedTable(replaced.methods, cls, q, c.enhance);
        var notFound := if replaced.found then None else Some(NotFoundMessage(methodName, methodSignature));
        match c.serialize(replaced.methods)
        case None => Failed(NotSerialised, notFound)
        case Some(out) => Integrated(out, notFound)
  }

  /** `performCodeIntegration`: the serialised class, or `null` on any failure. */
  function PerformCodeIntegration(c: Collaborators, className: string, methodName: string,
                                  methodSignature: Option<string>, loader: ClassSource, bytes: Bytes): (r: Option<Bytes>)
    ensures r.None? <==> Integrate(c, className, methodName, methodSignature, loader, bytes).Failed?
    ensures r.Some? ==> r.value == Integrate(c, className, methodName, methodSignature, loader, bytes).bytes
    ensures Resolve(c, NormalizeClassName(className), loader, bytes).None? ==> r.None?
  {
    match Integrate(c, className, methodName, methodSignature, loader, bytes)
    case Failed(_, _) => None
    case Integrated(out, _) => Some(out)
  }

  /** A missed match is not a failure: the class is serialised unchanged,
      method for method, and the not-found diagnostic is reported. */
  lemma MissedMatchStillSerialises(c: Collaborators, className: string, methodName: string,
                                   methodSignature: Option<string>, loader: ClassSource, bytes: Bytes, cls: MethodTable)
    requires Resolve(c, NormalizeClassName(className), loader, bytes) == Some(cls)
    requires forall i :: 0 <= i < |cls| ==> !Matches(cls[i], Query(methodName, methodSignature))
    ensures Integrate(c, className, methodName, methodSignature, loader, bytes)
            == match c.serialize(cls)
               case None => Failed(NotSerialised, Some(NotFoundMessage(methodName, methodSignature)))
               case Some(out) => Integrated(out, Some(NotFoundMessage(methodName, methodSignature)))
  {
    NoMatchLeavesTableAsIs(cls, Query(methodName, methodSignature), c.enhance, c.accept);
  }

  /** Under a strategy that returns its input unchanged, and a class-file
      library whose parser reads back what its serialiser writes, the bytes
      returned read back as a class declaring the same methods as the one
      resolved, as a multiset (the bytes themselves may differ). */
  lemma IdentityStrategyReadsBackSameMethods(c: Collaborators, className: string, methodName: string,
                                             methodSignature: Option<string>, loader: ClassSource, bytes: Bytes,
                                             cls: MethodTable)
    requires forall m :: c.enhance(m) == m
    requires forall t :: c.serialize(t).Some? ==> c.parse(c.serialize(t).value) == Some(t)
    requires Resolve(c, NormalizeClassName(className), loader, bytes) == Some(cls)
    ensures var r := Integrate(c, className, methodName, methodSignature, loader, bytes);
            r.Integrated? ==> exists t :: c.parse(r.bytes) == Some(t) && multiset(t) == multiset(cls)
  {
    var q := Query(methodName, methodSignature);
    var r := Integrate(c, className, methodName, methodSignature, loader, bytes);
    IdentityStrategyKeepsMethods(cls, q, c.enhance, c.accept);
    if r.Integrated? {
      var replaced := SearchAndReplaceMethod(cls, q, c.enhance, c.accept).value;
      assert c.serialize(replaced.methods) == Some(r.bytes);
      assert c.parse(r.bytes) == Some(replaced.methods);
    }
  }

  /** A class named with `/` separators is integrated exactly as the same
      name with `.` separators (and any mix of the two). */
  lemma SeparatorsDoNotMatter(c: Collaborators, a: string, b: string, methodName: string,
                              methodSignature: Option<string>, loader: ClassSource, bytes: Bytes)
    requires |a| == |b|
    requires forall i :: 0 <= i < |a| ==> a[i] == b[i] || (IsSeparator(a[i]) && IsSeparator(b[i]))
    ensures PerformCodeIntegration(c, a, methodName, methodSignature, loader, bytes)
            == PerformCodeIntegration(c, b, methodName, methodSignature, loader, bytes)
  {
    SameNormalFormIffSameUpToSeparator(a, b);
  }
}
