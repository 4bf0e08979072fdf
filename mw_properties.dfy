/**
 * What the Modulework engine does, stated over `MwResolution`: the cache
 * short-cut, caching on the literal `true` flag, the four outcomes of
 * `build` of a class name, that the call to the undefined `make` can never
 * happen in a state reached through the public operations, and that the
 * engine agrees with the DaGardner one on every run that does not end in a
 * fatal error.
 */
module MwProperties {
  import opened ContainerTypes
  import opened Registry
  import opened MwResolution
  import DaResolution

  /** A non-null cache entry is returned immediately, with no change of state. */
  lemma CachedSingletonReturned(env: Env, s: State, id: Id, p: seq<Value>, fuel: nat)
    requires IsSet(s.singletons, id)
    ensures Resolve(env, s, id, p, fuel) == Step(Ok(s.singletons[id]), s)
  {
  }

  /** A successful `resolve` of an uncached id is cached under it exactly when its binding's flag is the literal `true`. */
  lemma SingletonCachedExactlyWhenFlagged(env: Env, s: State, id: Id, p: seq<Value>, fuel: nat)
    requires !IsSet(s.singletons, id)
    requires Resolve(env, s, id, p, fuel).result.Ok?
    ensures var r := Resolve(env, s, id, p, fuel);
            IsSingleton(s, id) ==> id in r.state.singletons && r.state.singletons[id] == r.result.value
    ensures var r := Resolve(env, s, id, p, fuel);
            !IsSingleton(s, id) ==>
              && (id in r.state.singletons <==> id in s.singletons)
              && (id in s.singletons ==> r.state.singletons[id] == s.singletons[id])
  {
    var concrete := GetConcrete(s, id);
    assert IsInstantiable(id, concrete);
    var built := Build(env, s, concrete, p, fuel - 1);
    assert IsSingleton(built.state, id) == IsSingleton(s, id);
  }

  /** `build` of a user closure calls it with the parameters and returns its value. */
  lemma BuildCallsClosure(env: Env, s: State, f: seq<Value> -> Value, p: seq<Value>, fuel: nat)
    ensures Build(env, s, Fn(UserClosure(f)), p, fuel) == Step(Ok(f(p)), s)
  {
  }

  /**
   * `build` of a class name has four outcomes, none of which changes the
   * state: a reflection error for an unknown class, a fatal error for a class
   * that cannot be instantiated, a fresh instance for a class without a
   * constructor, and a fatal error for a class with one.
   */
  lemma BuildNameOutcomes(env: Env, s: State, n: Id, p: seq<Value>, fuel: nat)
    ensures Build(env, s, Name(n), p, fuel).state == s
    ensures n !in env.classes ==> Build(env, s, Name(n), p, fuel).result == Err(ReflectionError(ClassDoesNotExist(n)))
    ensures n in env.classes && !env.classes[n].instantiable ==>
              Build(env, s, Name(n), p, fuel).result == Err(FatalError(UndefinedClassRunTimeException))
    ensures n in env.classes && env.classes[n] == ClassInfo(true, None) ==>
              Build(env, s, Name(n), p, fuel).result == Ok(Obj(n, []))
    ensures n in env.classes && env.classes[n].instantiable && env.classes[n].ctor.Some? ==>
              Build(env, s, Name(n), p, fuel).result == Err(FatalError(UndefinedMethodGetDependencies))
  {
  }

  /** A binding whose concrete is a bare name other than the id would reach the undefined `make`. */
  lemma AliasBindingCallsMake(env: Env, s: State, id: Id, n: Id, flag: Value, p: seq<Value>, fuel: nat)
    requires id in s.binds && s.binds[id] == Binding(Name(n), flag) && n != id
    requires !IsSet(s.singletons, id) && fuel > 0
    ensures Resolve(env, s, id, p, fuel) == Step(Err(FatalError(UndefinedMethodMake)), s)
  {
  }

  /**
   * In every state that keeps the invariant (every state the public operations
   * reach), no resolution ever calls the undefined `make`, however deep the
   * chain of wrappers and aliases it follows.
   */
  lemma {:induction false} MakeNeverCalled(env: Env, s: State, id: Id, p: seq<Value>, fuel: nat)
    requires AllClosures(s.binds)
    ensures Resolve(env, s, id, p, fuel).result != Err(FatalError(UndefinedMethodMake))
    decreases fuel, 1
  {
    if !IsSet(s.singletons, id) && fuel > 0 {
      ConcreteAlwaysInstantiable(s, id);
      BuildNeverCallsMake(env, s, GetConcrete(s, id), p, fuel - 1);
    }
  }

  /** The `build` half of `MakeNeverCalled`. */
  lemma {:induction false} BuildNeverCallsMake(env: Env, s: State, c: Concrete, p: seq<Value>, fuel: nat)
    requires AllClosures(s.binds)
    ensures Build(env, s, c, p, fuel).result != Err(FatalError(UndefinedMethodMake))
    decreases fuel, 0
  {
    match c
    case Fn(Wrapper(id, t)) =>
      if fuel > 0 {
        if env.looseEq(id, t) {
          BuildNeverCallsMake(env, s, Name(t), [], fuel - 1);
        } else {
          MakeNeverCalled(env, s, t, [], fuel - 1);
        }
      }
    case Fn(UserClosure(_)) =>
    case Name(_) =>
  }

  /** A class table in which every class can be instantiated and has no constructor. */
  ghost predicate PlainClasses(env: Env) {
    forall n :: n in env.classes ==> env.classes[n] == ClassInfo(true, None)
  }

  /** With only plain classes and in a state that keeps the invariant, the Modulework engine never ends in a fatal error. */
  lemma {:induction false} PlainClassesNeverFatal(env: Env, s: State, id: Id, p: seq<Value>, fuel: nat)
    requires PlainClasses(env) && AllClosures(s.binds)
    ensures !(Resolve(env, s, id, p, fuel).result.Err? && Resolve(env, s, id, p, fuel).result.error.FatalError?)
    decreases fuel, 1
  {
    if !IsSet(s.singletons, id) && fuel > 0 {
      ConcreteAlwaysInstantiable(s, id);
      PlainClassesBuildNeverFatal(env, s, GetConcrete(s, id), p, fuel - 1);
    }
  }

  /** The `build` half of `PlainClassesNeverFatal`. */
  lemma {:induction false} PlainClassesBuildNeverFatal(env: Env, s: State, c: Concrete, p: seq<Value>, fuel: nat)
    requires PlainClasses(env) && AllClosures(s.binds)
    ensures !(Build(env, s, c, p, fuel).result.Err? && Build(env, s, c, p, fuel).result.error.FatalError?)
    decreases fuel, 0
  {
    match c
    case Fn(Wrapper(id, t)) =>
      if fuel > 0 {
        if env.looseEq(id, t) {
          PlainClassesBuildNeverFatal(env, s, Name(t), [], fuel - 1);
        } else {
          PlainClassesNeverFatal(env, s, t, [], fuel - 1);
        }
      }
    case Fn(UserClosure(_)) =>
    case Name(_) =>
  }

  /**
   * The Modulework engine is the DaGardner engine with its defects: every
   * resolution either ends in a fatal error in Modulework or gives the same
   * result and the same state in both.
   */
  lemma {:induction false} EnginesAgreeUnlessFatal(env: Env, s: State, id: Id, p: seq<Value>, fuel: nat)
    ensures var r := Resolve(env, s, id, p, fuel);
            (r.result.Err? && r.result.error.FatalError?) || r == DaResolution.Resolve(env, s, id, p, fuel)
    decreases fuel, 1
  {
    if !IsSet(s.singletons, id) && fuel > 0 {
      var concrete := GetConcrete(s, id);
      if IsInstantiable(id, concrete) {
        BuildsAgreeUnlessFatal(env, s, concrete, p, fuel - 1);
      }
    }
  }

  /** The `build` half of `EnginesAgreeUnlessFatal`. */
  lemma {:induction false} BuildsAgreeUnlessFatal(env: Env, s: State, c: Concrete, p: seq<Value>, fuel: nat)
    ensures var r := Build(env, s, c, p, fuel);
            (r.result.Err? && r.result.error.FatalError?) || r == DaResolution.Build(env, s, c, p, fuel)
    decreases fuel, 0
  {
    match c
    case Fn(Wrapper(id, t)) =>
      if fuel > 0 {
        if env.looseEq(id, t) {
          BuildsAgreeUnlessFatal(env, s, Name(t), [], fuel - 1);
        } else {
          EnginesAgreeUnlessFatal(env, s, t, [], fuel - 1);
        }
      }
    case Fn(UserClosure(_)) =>
    case Name(_) =>
  }

  /** With only plain classes, in a state that keeps the invariant, the two engines behave identically. */
  lemma EnginesAgreeOnPlainClasses(env: Env, s: State, id: Id, p: seq<Value>, fuel: nat)
    requires PlainClasses(env) && AllClosures(s.binds)
    ensures Resolve(env, s, id, p, fuel) == DaResolution.Resolve(env, s, id, p, fuel)
  {
    PlainClassesNeverFatal(env, s, id, p, fuel);
    EnginesAgreeUnlessFatal(env, s, id, p, fuel);
  }
}
