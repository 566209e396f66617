/** The compiled-class model as the integrator sees it: a table of declared
    methods that can be enumerated, and from which a method can be removed and
    to which one can be added. Both mutations may fail. */
module ClassModel {
  import opened Results

  /** One byte of a class file or method body; class files are opaque here. */
  newtype byte = x: int | 0 <= x < 256

  type Bytes = seq<byte>

  /** A declared method (`CtMethod`): its name, its signature (a JVM method
      descriptor, compared only as a string) and its body. */
  datatype Method = Method(name: string, signature: string, body: Bytes)

  /** The declared methods of one class, in declaration order. */
  type MethodTable = seq<Method>

  /** Why an integration failed; the source reports each as `null`. */
  datatype Failure =
    | ClassNotResolved   // `ClassPool.get` throws `NotFoundException`
    | MethodNotRemoved   // `CtClass.removeMethod` throws `NotFoundException`
    | MethodNotAttached  // `CtClass.addMethod` throws `CannotCompileException`
    | NotSerialised      // `CtClass.toBytecode` throws `IOException` or `CannotCompileException`

  /** The position of the first declared method equal to `m`. */
  function IndexOf(t: MethodTable, m: Method): (k: nat)
    requires m in t
    ensures k < |t| && t[k] == m
    ensures m !in t[..k]
  {
    if t[0] == m then 0 else 1 + IndexOf(t[1..], m)
  }

  /** `CtClass.removeMethod`: takes the method out of the table, or fails when
      the table does not declare it. */
  function RemoveMethod(t: MethodTable, m: Method): (r: Result<MethodTable, Failure>)
    ensures r.Ok? <==> m in t
    ensures r.Err? ==> r.error == MethodNotRemoved
    ensures r.Ok? ==> |r.value| == |t| - 1
    ensures r.Ok? ==> multiset(r.value) + multiset{m} == multiset(t)
  {
    if m in t then
      var k := IndexOf(t, m);
      assert t == t[..k] + [t[k]] + t[k+1..];
      Ok(t[..k] + t[k+1..])
    else
      Err(MethodNotRemoved)
  }

  /** `CtClass.addMethod`: attaches the method to the table, or fails when the
      class file refuses it. Whether it is refused (a duplicate, a body that
      does not compile) is decided by the class-file library, given here as
      `accept`. Where the method lands in the table is not claimed. */
  function AddMethod(t: MethodTable, m: Method, accept: (MethodTable, Method) -> bool): (r: Result<MethodTable, Failure>)
    ensures r.Ok? <==> accept(t, m)
    ensures r.Err? ==> r.error == MethodNotAttached
    ensures r.Ok? ==> |r.value| == |t| + 1
    ensures r.Ok? ==> multiset(r.value) == multiset(t) + multiset{m}
  {
    if accept(t, m) then Ok(t + [m]) else Err(MethodNotAttached)
  }
}
