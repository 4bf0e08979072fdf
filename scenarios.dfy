/**
 * The situations the two test suites set up, over the class table their
 * stub classes give: `ConcreteStub` (no constructor), `ConcreteDependsOn`
 * (a constructor taking a `ConcreteStub`) and `PrivateConcreteStub` (a
 * private constructor, so not instantiable).
 */
module Scenarios {
  import opened ContainerTypes
  import opened Registry
  import DaResolution
  import MwResolution

  const Empty := State(map[], map[])

  /** The stub classes of the test suites; `looseEq` is left open. */
  function StubEnv(looseEq: (Id, Id) -> bool): (env: Env)
    ensures "ConcreteStub" in env.classes && env.classes["ConcreteStub"] == ClassInfo(true, None)
    ensures "foo" !in env.classes && "bar" !in env.classes
  {
    Env(map[
          "ConcreteStub" := ClassInfo(true, None),
          "ConcreteDependsOn" := ClassInfo(true, Some([Param(Some("ConcreteStub"), false, false, Null)])),
          "PrivateConcreteStub" := ClassInfo(false, Some([]))
        ], looseEq)
  }

  /** An unbound class whose constructor takes a `ConcreteStub` is built with a fresh `ConcreteStub`. */
  lemma DependencyInjectionConstructor(looseEq: (Id, Id) -> bool)
    ensures DaResolution.Resolve(StubEnv(looseEq), Empty, "ConcreteDependsOn", [], 3)
         == Step(Ok(Obj("ConcreteDependsOn", [Obj("ConcreteStub", [])])), Empty)
  {
    var env := StubEnv(looseEq);
    var ps := [Param(Some("ConcreteStub"), false, false, Null)];
    assert DaResolution.Resolve(env, Empty, "ConcreteStub", [], 2) == Step(Ok(Obj("ConcreteStub", [])), Empty);
    assert DaResolution.ResolveClass(env, Empty, ps[0], 2) == Step(Ok(Obj("ConcreteStub", [])), Empty);
    assert ps[1..] == [];
    assert "ConcreteStub" in env.classes;
    assert DaResolution.GetDependencies(env, Empty, [], 2) == Step(Ok([]), Empty);
    assert [Obj("ConcreteStub", [])] + [] == [Obj("ConcreteStub", [])];
    assert DaResolution.GetDependencies(env, Empty, ps, 2) == Step(Ok([Obj("ConcreteStub", [])]), Empty);
  }

  /** The same class is a fatal error for the Modulework engine, which has no `getDependencies`. */
  lemma DependencyInjectionConstructorModulework(looseEq: (Id, Id) -> bool)
    ensures MwResolution.Resolve(StubEnv(looseEq), Empty, "ConcreteDependsOn", [], 3)
         == Step(Err(FatalError(UndefinedMethodGetDependencies)), Empty)
  {
  }

  /** `bind('foo', 'bar')` does not affect `build('foo')`, which looks for a class `foo` and fails in reflection. */
  lemma ExceptionOnBuild(looseEq: (Id, Id) -> bool, fuel: nat)
    ensures DaResolution.Build(StubEnv(looseEq), Bind(Empty, "foo", NameArg("bar"), Bool(false)), Name("foo"), [], fuel).result
         == Err(ReflectionError(ClassDoesNotExist("foo")))
  {
  }

  /** Building a class with a private constructor is a Resolve error for DaGardner and a fatal error for Modulework. */
  lemma ExceptionOnBuildCustom(looseEq: (Id, Id) -> bool, fuel: nat)
    ensures DaResolution.Build(StubEnv(looseEq), Empty, Name("PrivateConcreteStub"), [], fuel)
         == Step(Err(ResolveError("PrivateConcreteStub")), Empty)
    ensures MwResolution.Build(StubEnv(looseEq), Empty, Name("PrivateConcreteStub"), [], fuel)
         == Step(Err(FatalError(UndefinedClassRunTimeException)), Empty)
  {
  }

  /**
   * `singleton('ConcreteStub')` and two `resolve('ConcreteStub')`: both give
   * null, because the wrapper does not return the instance it builds, and so
   * they are equal, which is all the test asks.
   */
  lemma SingletonConcreteResolving(looseEq: (Id, Id) -> bool)
    requires forall a: Id :: looseEq(a, a)
    ensures var s := Bind(Empty, "ConcreteStub", NullArg, Bool(true));
            var first := DaResolution.Resolve(StubEnv(looseEq), s, "ConcreteStub", [], 2);
            && first.result == Ok(Null)
            && DaResolution.Resolve(StubEnv(looseEq), first.state, "ConcreteStub", [], 2).result == Ok(Null)
  {
    var env := StubEnv(looseEq);
    assert LooseEqReflexive(env);
    var s := Bind(Empty, "ConcreteStub", NullArg, Bool(true));
    assert !IsSet(s.singletons, "ConcreteStub");
    var first := DaResolution.Resolve(env, s, "ConcreteStub", [], 2);
    assert env.looseEq("ConcreteStub", "ConcreteStub");
    assert first == Step(Ok(Null), Instance(s, "ConcreteStub", Null));
    assert DaResolution.Resolve(env, first.state, "ConcreteStub", [], 2).result == Ok(Null);
  }
}
