/**
 * What the DaGardner engine promises, stated over the functions of
 * `DaResolution` and `Registry`: the singleton cache short-cuts everything,
 * the alias branch is dead, caching follows the literal `true` flag, the
 * wrapper made by `bind` yields null, `build` of a class name and the
 * dependency rules, and the behaviour the array-access methods give.
 */
module DaProperties {
  import opened ContainerTypes
  import opened Registry
  import opened DaResolution

  // ----- Singleton cache -----

  /** A non-null cache entry is returned as it is, with no change of state, whatever is bound. */
  lemma CachedSingletonReturned(env: Env, s: State, id: Id, p: seq<Value>, fuel: nat, otherBinds: map<Id, Binding>)
    requires IsSet(s.singletons, id)
    ensures Resolve(env, s, id, p, fuel) == Step(Ok(s.singletons[id]), s)
    ensures Resolve(env, s.(binds := otherBinds), id, p, fuel).result == Ok(s.singletons[id])
  {
  }

  /** After `instance(id, v)` with a non-null `v`, `resolve(id)` yields `v` and changes nothing. */
  lemma InstanceThenResolve(env: Env, s: State, id: Id, v: Value, p: seq<Value>, fuel: nat)
    requires v != Null
    ensures Resolve(env, Instance(s, id, v), id, p, fuel) == Step(Ok(v), Instance(s, id, v))
  {
  }

  /** `instance(id, null)` leaves the id unresolved from the cache: `resolve` falls through to the binding or the class. */
  lemma NullInstanceIsIgnored(env: Env, s: State, id: Id, p: seq<Value>, fuel: nat)
    requires AllClosures(s.binds) && fuel > 0
    ensures Resolve(env, Instance(s, id, Null), id, p, fuel).result
         == CacheIfSingleton(Build(env, Instance(s, id, Null), GetConcrete(s, id), p, fuel - 1), id).result
  {
    assert !IsSet(Instance(s, id, Null).singletons, id);
    assert GetConcrete(Instance(s, id, Null), id) == GetConcrete(s, id);
    ConcreteAlwaysInstantiable(s, id);
  }

  /**
   * In a state that keeps the invariant, `resolve` of an uncached id always
   * builds the concrete: the recursive `resolve($concrete)` branch is never taken.
   */
  lemma ResolveAlwaysBuilds(env: Env, s: State, id: Id, p: seq<Value>, fuel: nat)
    requires AllClosures(s.binds)
    requires !IsSet(s.singletons, id) && fuel > 0
    ensures Resolve(env, s, id, p, fuel) == CacheIfSingleton(Build(env, s, GetConcrete(s, id), p, fuel - 1), id)
  {
    ConcreteAlwaysInstantiable(s, id);
  }

  /** Resolution keeps the invariant: it never touches the bindings. */
  lemma ResolveKeepsAllClosures(env: Env, s: State, id: Id, p: seq<Value>, fuel: nat)
    requires AllClosures(s.binds)
    ensures AllClosures(Resolve(env, s, id, p, fuel).state.binds)
  {
  }

  /**
   * A successful `resolve` of an uncached id writes its result under that id
   * exactly when the binding's flag is the literal `true`; otherwise the
   * cache entry of the id is as it was.
   */
  lemma SingletonCachedExactlyWhenFlagged(env: Env, s: State, id: Id, p: seq<Value>, fuel: nat)
    requires !IsSet(s.singletons, id)
    requires Resolve(env, s, id, p, fuel).result.Ok?
    ensures var r := Resolve(env, s, id, p, fuel);
            IsSingleton(s, id) ==> id in r.state.singletons && r.state.singletons[id] == r.result.value
    ensures var r := Resolve(env, s, id, p, fuel);
            !IsSingleton(s, id) ==>
              && (id in r.state.singletons <==> id in s.singletons)
              && (id in s.singletons ==> r.state.singletons[id] == s.singletons[id])
  {
    var concrete := GetConcrete(s, id);
    var built :=
      if IsInstantiable(id, concrete) then Build(env, s, concrete, p, fuel - 1)
      else Resolve(env, s, concrete.name, p, fuel - 1);
    assert Frame(s, built.state);
    assert IsSingleton(built.state, id) == IsSingleton(s, id);
  }

  /**
   * A singleton closure binding with a non-null result: the first `resolve`
   * calls the factory and caches its result; every later `resolve`, with any
   * parameters, returns that same value without calling the factory and
   * without changing the state.
   */
  lemma SingletonClosureResolvedOnce(env: Env, s: State, id: Id, f: seq<Value> -> Value,
                                     p: seq<Value>, p2: seq<Value>, fuel: nat, fuel2: nat)
    requires id in s.binds && s.binds[id] == Binding(Fn(UserClosure(f)), Bool(true))
    requires !IsSet(s.singletons, id) && fuel > 0
    requires f(p) != Null
    ensures Resolve(env, s, id, p, fuel) == Step(Ok(f(p)), Instance(s, id, f(p)))
    ensures Resolve(env, Instance(s, id, f(p)), id, p2, fuel2) == Step(Ok(f(p)), Instance(s, id, f(p)))
  {
    assert GetConcrete(s, id) == Fn(UserClosure(f));
  }

  /** A closure bound without the singleton flag is called on every `resolve` with the caller's parameters. */
  lemma ClosureBindingResolves(env: Env, s: State, id: Id, c: Closure, flag: Value, p: seq<Value>, fuel: nat)
    requires c.UserClosure? && flag != Bool(true)
    requires !IsSet(s.singletons, id) && fuel > 0
    ensures Resolve(env, Bind(s, id, ClosureArg(c), flag), id, p, fuel) == Step(Ok(c.f(p)), Bind(s, id, ClosureArg(c), flag))
  {
    var s1 := Bind(s, id, ClosureArg(c), flag);
    assert GetConcrete(s1, id) == Fn(c);
    assert !IsSingleton(s1, id);
  }

  // ----- The wrapper closure made by bind -----

  /**
   * Calling the wrapper closure builds its target when it is loosely equal to
   * the id and resolves it otherwise, both without the caller's parameters;
   * the result is thrown away, so it yields null, and errors pass through.
   */
  lemma WrapperDiscardsResult(env: Env, s: State, id: Id, t: Id, p: seq<Value>, fuel: nat)
    requires fuel > 0
    ensures var inner := if env.looseEq(id, t) then Build(env, s, Name(t), [], fuel - 1)
                         else Resolve(env, s, t, [], fuel - 1);
            var r := Build(env, s, Fn(Wrapper(id, t)), p, fuel);
            && r.state == inner.state
            && (inner.result.Ok? ==> r.result == Ok(Null))
            && (inner.result.Err? ==> r.result == inner.result)
  {
  }

  /** An id bound to a class name, an alias or nothing (self-binding) never resolves to anything but null. */
  lemma NameBindingResolvesToNull(env: Env, s: State, id: Id, c: ConcreteArg, flag: Value, p: seq<Value>, fuel: nat)
    requires !c.ClosureArg?
    requires !IsSet(s.singletons, id)
    requires Resolve(env, Bind(s, id, c, flag), id, p, fuel).result.Ok?
    ensures Resolve(env, Bind(s, id, c, flag), id, p, fuel).result == Ok(Null)
  {
    var s1 := Bind(s, id, c, flag);
    assert GetConcrete(s1, id) == Fn(StoredClosure(id, c));
  }

  /**
   * A self-bound class without a constructor (`bind('ConcreteStub', null)`)
   * resolves to null; as a singleton it caches that null, so the cache never
   * short-cuts and every `resolve` builds again.
   */
  lemma SelfBindingResolvesToNull(env: Env, s: State, id: Id, flag: Value, p: seq<Value>, fuel: nat)
    requires LooseEqReflexive(env)
    requires id in env.classes && env.classes[id] == ClassInfo(true, None)
    requires !IsSet(s.singletons, id) && fuel >= 2
    ensures Resolve(env, Bind(s, id, NullArg, flag), id, p, fuel).result == Ok(Null)
    ensures !IsSet(Resolve(env, Bind(s, id, NullArg, flag), id, p, fuel).state.singletons, id)
  {
    var s1 := Bind(s, id, NullArg, flag);
    assert env.looseEq(id, id);
    assert Build(env, s1, Fn(Wrapper(id, id)), p, fuel - 1) == Step(Ok(Null), s1);
  }

  // ----- build -----

  /** `build` of a user closure calls it with the parameters and returns its value unchanged. */
  lemma BuildCallsClosure(env: Env, s: State, f: seq<Value> -> Value, p: seq<Value>, fuel: nat)
    ensures Build(env, s, Fn(UserClosure(f)), p, fuel) == Step(Ok(f(p)), s)
  {
  }

  /**
   * `build` of a class name never consults the bindings: an unknown class is
   * a reflection error, a class that cannot be instantiated a Resolve error,
   * a class without a constructor a fresh instance with no arguments; a class
   * with a constructor is built from one argument per constructor parameter.
   */
  lemma BuildNameOutcomes(env: Env, s: State, n: Id, p: seq<Value>, fuel: nat, otherBinds: map<Id, Binding>)
    ensures n !in env.classes ==> Build(env, s, Name(n), p, fuel) == Step(Err(ReflectionError(ClassDoesNotExist(n))), s)
    ensures n in env.classes && !env.classes[n].instantiable ==>
              Build(env, s, Name(n), p, fuel) == Step(Err(ResolveError(n)), s)
    ensures n in env.classes && env.classes[n] == ClassInfo(true, None) ==>
              Build(env, s, Name(n), p, fuel) == Step(Ok(Obj(n, [])), s)
    ensures n in env.classes && !(env.classes[n].instantiable && env.classes[n].ctor.Some?) ==>
              Build(env, s.(binds := otherBinds), Name(n), p, fuel).result == Build(env, s, Name(n), p, fuel).result
    ensures n in env.classes && env.classes[n].instantiable && env.classes[n].ctor.Some? &&
            Build(env, s, Name(n), p, fuel).result.Ok? ==>
              var v := Build(env, s, Name(n), p, fuel).result.value;
              v.Obj? && v.cls == n && |v.args| == |env.classes[n].ctor.value|
  {
  }

  /** An id that is neither bound nor cached resolves to a fresh instance of the class of that name. */
  lemma UnboundClassResolvesToInstance(env: Env, s: State, id: Id, p: seq<Value>, fuel: nat)
    requires id !in s.binds && !IsSet(s.singletons, id) && fuel > 0
    requires id in env.classes && env.classes[id] == ClassInfo(true, None)
    ensures Resolve(env, s, id, p, fuel) == Step(Ok(Obj(id, [])), s)
  {
    assert GetConcrete(s, id) == Name(id);
  }

  // ----- Dependencies -----

  /** The default values of a parameter list, in order. */
  ghost function Defaults(ps: seq<Param>): (r: seq<Value>)
    ensures |r| == |ps| && forall i :: 0 <= i < |ps| ==> r[i] == ps[i].default
  {
    if ps == [] then [] else [ps[0].default] + Defaults(ps[1..])
  }

  /**
   * A constructor all of whose parameters are scalar gets their default
   * values when every one has a default, and a Parameter-Resolve error (with
   * no change of state) as soon as one has none.
   */
  lemma {:induction false} ScalarParametersUseDefaults(env: Env, s: State, ps: seq<Param>, fuel: nat)
    requires forall i :: 0 <= i < |ps| ==> ps[i].classType.None?
    ensures GetDependencies(env, s, ps, fuel) ==
            Step(if forall i :: 0 <= i < |ps| ==> ps[i].hasDefault then Ok(Defaults(ps)) else Err(ParameterResolveError), s)
  {
    if ps != [] {
      ScalarParametersUseDefaults(env, s, ps[1..], fuel);
      if ps[0].hasDefault {
        assert Defaults(ps) == [ps[0].default] + Defaults(ps[1..]);
        assert (forall i :: 0 <= i < |ps| ==> ps[i].hasDefault) <==>
               (forall i :: 0 <= i < |ps[1..]| ==> ps[1..][i].hasDefault) by {
          forall i | 0 <= i < |ps[1..]| ensures ps[1..][i] == ps[i + 1] { }
          if forall i :: 0 <= i < |ps[1..]| ==> ps[1..][i].hasDefault {
            forall i | 0 <= i < |ps| ensures ps[i].hasDefault {
              if i > 0 { assert ps[i] == ps[1..][i - 1]; }
            }
          }
        }
      }
    }
  }

  /**
   * A constructor with one class-typed parameter whose class is known to
   * reflection but cannot be instantiated and is not bound (an interface with
   * no binding): the Resolve error is thrown on when the parameter is
   * required, and the default is passed in its place when it is optional.
   */
  lemma UnresolvableDependency(env: Env, s: State, c: Id, dep: Id, param: Param, p: seq<Value>, fuel: nat)
    requires c != dep && c !in s.binds && dep !in s.binds
    requires !IsSet(s.singletons, c) && !IsSet(s.singletons, dep) && fuel >= 2
    requires param.classType == Some(dep)
    requires dep in env.classes && !env.classes[dep].instantiable
    requires c in env.classes && env.classes[c] == ClassInfo(true, Some([param]))
    ensures Resolve(env, s, c, p, fuel).state == s
    ensures !param.optional ==> Resolve(env, s, c, p, fuel).result == Err(ResolveError(dep))
    ensures param.optional && param.hasDefault ==> Resolve(env, s, c, p, fuel).result == Ok(Obj(c, [param.default]))
    ensures param.optional && !param.hasDefault ==>
              Resolve(env, s, c, p, fuel).result == Err(ReflectionError(DefaultValueUnavailable))
  {
    assert GetConcrete(s, c) == Name(c);
    assert GetConcrete(s, dep) == Name(dep);
    assert Build(env, s, Name(dep), [], fuel - 2) == Step(Err(ResolveError(dep)), s);
    var inner := Resolve(env, s, dep, [], fuel - 1);
    assert inner == Step(Err(ResolveError(dep)), s);
    var first := ResolveClass(env, s, param, fuel - 1);
    assert [param][1..] == [];
    assert GetDependencies(env, s, [param], fuel - 1) ==
           (if first.result.Ok? then PrependArg(first.result.value, GetDependencies(env, first.state, [], fuel - 1))
            else Step(Err(first.result.error), first.state));
    if param.optional && param.hasDefault {
      assert first == Step(Ok(param.default), s);
      assert GetDependencies(env, s, [], fuel - 1) == Step(Ok([]), s);
      assert [param.default] + [] == [param.default];
      assert GetDependencies(env, s, [param], fuel - 1) == Step(Ok([param.default]), s);
      assert Build(env, s, Name(c), p, fuel - 1) == Step(Ok(Obj(c, [param.default])), s);
    }
  }

  // ----- Array access -----

  /** A plain value stored with `offsetSet` comes back from `offsetGet`, unless a non-null singleton is cached under the key. */
  lemma OffsetSetThenGet(env: Env, s: State, k: Id, v: Value, fuel: nat)
    requires !IsSet(s.singletons, k) && fuel > 0
    ensures Resolve(env, OffsetSet(s, k, OfferedValue(v)), k, [], fuel) == Step(Ok(v), OffsetSet(s, k, OfferedValue(v)))
  {
    OffsetSetBindsConstant(s, k, v);
  }

  /** `offsetUnset` leaves a cached singleton in place: `resolve` still returns it. */
  lemma UnsetKeepsCachedSingleton(env: Env, s: State, k: Id, p: seq<Value>, fuel: nat)
    requires IsSet(s.singletons, k)
    ensures Resolve(env, OffsetUnset(s, k), k, p, fuel) == Step(Ok(s.singletons[k]), OffsetUnset(s, k))
  {
  }

  /** Once its binding is removed, an uncached id that names no class fails with a reflection error. */
  lemma RemovedBindingFails(env: Env, s: State, k: Id, p: seq<Value>, fuel: nat)
    requires !IsSet(s.singletons, k) && k !in env.classes && fuel > 0
    ensures Resolve(env, OffsetUnset(s, k), k, p, fuel) ==
            Step(Err(ReflectionError(ClassDoesNotExist(k))), OffsetUnset(s, k))
  {
    assert GetConcrete(OffsetUnset(s, k), k) == Name(k);
  }
}
