/**
 * `DaGardner\DaContainer\Container` as a class whose fields are the two maps
 * the PHP object updates in place. Every method is proved to leave exactly
 * the state, and return exactly the result, that the functions of
 * `Registry` and `DaResolution` give for the state it started in.
 */
module DaContainer {
  import opened ContainerTypes
  import opened Registry
  import DaResolution

  /** The arguments in front of a step of `getDependencies`, put before the arguments it still produces. */
  ghost function Collected(deps: seq<Value>, rest: Step<seq<Value>>): Step<seq<Value>> {
    if rest.result.Ok? then Step(Ok(deps + rest.result.value), rest.state) else rest
  }

  class Container {
    /** The class table and loose comparison this container's PHP run sees. */
    const env: Env
    var binds: map<Id, Binding>
    var singletons: map<Id, Value>

    function Snapshot(): State
      reads this
    {
      State(binds, singletons)
    }

    /** Every stored concrete is a closure. */
    ghost predicate Valid()
      reads this
    {
      AllClosures(binds)
    }

    constructor (env: Env)
      ensures this.env == env && Snapshot() == State(map[], map[]) && Valid()
    {
      this.env := env;
      binds := map[];
      singletons := map[];
    }

    method Bind(id: Id, concrete: ConcreteArg, singleton: Value)
      requires Valid()
      modifies this
      ensures Valid()
      ensures Snapshot() == Registry.Bind(old(Snapshot()), id, concrete, singleton)
    {
      var c := concrete;
      if c.NullArg? {
        c := NameArg(id);
      }
      var stored: Closure;
      if c.ClosureArg? {
        stored := c.closure;
      } else {
        stored := Wrapper(id, c.name);
      }
      binds := binds[id := Binding(Fn(stored), singleton)];
    }

    method Singleton(id: Id, concrete: ConcreteArg)
      requires Valid()
      modifies this
      ensures Valid()
      ensures Snapshot() == Registry.Bind(old(Snapshot()), id, concrete, Bool(true))
    {
      Bind(id, concrete, Bool(true));
    }

    method Instance(id: Id, instance: Value)
      requires Valid()
      modifies this
      ensures Valid()
      ensures Snapshot() == Registry.Instance(old(Snapshot()), id, instance)
    {
      singletons := singletons[id := instance];
    }

    method Resolve(id: Id, params: seq<Value>, fuel: nat) returns (r: Result<Value>)
      modifies this
      decreases fuel, 0, 0
      ensures binds == old(binds)
      ensures Step(r, Snapshot()) == DaResolution.Resolve(env, old(Snapshot()), id, params, fuel)
    {
      if IsSet(singletons, id) {
        return Ok(singletons[id]);
      }
      if fuel == 0 {
        return Err(OutOfFuel);
      }
      var concrete := GetConcrete(Snapshot(), id);
      var obj: Result<Value>;
      if IsInstantiable(id, concrete) {
        obj := Build(concrete, params, fuel - 1);
      } else {
        obj := Resolve(concrete.name, params, fuel - 1);
      }
      if obj.Err? {
        return obj;
      }
      if IsSingleton(Snapshot(), id) {
        singletons := singletons[id := obj.value];
      }
      return obj;
    }

    method Build(concrete: Concrete, params: seq<Value>, fuel: nat) returns (r: Result<Value>)
      modifies this
      decreases fuel, 3, 0
      ensures binds == old(binds)
      ensures Step(r, Snapshot()) == DaResolution.Build(env, old(Snapshot()), concrete, params, fuel)
    {
      match concrete
      case Fn(UserClosure(f)) =>
        r := Ok(f(params));
      case Fn(Wrapper(id, target)) =>
        if fuel == 0 {
          return Err(OutOfFuel);
        }
        var inner: Result<Value>;
        if env.looseEq(id, target) {
          inner := Build(Name(target), [], fuel - 1);
        } else {
          inner := Resolve(target, [], fuel - 1);
        }
        if inner.Err? {
          return Err(inner.error);
        }
        r := Ok(Null);
      case Name(n) =>
        if n !in env.classes {
          return Err(ReflectionError(ClassDoesNotExist(n)));
        }
        var info := env.classes[n];
        if !info.instantiable {
          return Err(ResolveError(n));
        }
        if info.ctor.None? {
          return Ok(Obj(n, []));
        }
        var dependencies := GetDependencies(info.ctor.value, fuel);
        if dependencies.Err? {
          return Err(dependencies.error);
        }
        r := Ok(Obj(n, dependencies.value));
    }

    method GetDependencies(parameters: seq<Param>, fuel: nat) returns (r: Result<seq<Value>>)
      modifies this
      decreases fuel, 2, |parameters|
      ensures binds == old(binds)
      ensures Step(r, Snapshot()) == DaResolution.GetDependencies(env, old(Snapshot()), parameters, fuel)
    {
      var dependencies: seq<Value> := [];
      var i := 0;
      assert parameters[i..] == parameters;
      assert forall xs: seq<Value> :: dependencies + xs == xs;
      while i < |parameters|
        invariant 0 <= i <= |parameters|
        invariant binds == old(binds)
        invariant Collected(dependencies, DaResolution.GetDependencies(env, Snapshot(), parameters[i..], fuel))
               == DaResolution.GetDependencies(env, old(Snapshot()), parameters, fuel)
        decreases |parameters| - i
      {
        var parameter := parameters[i];
        assert parameters[i..][0] == parameter && parameters[i..][1..] == parameters[i + 1..];
        var dependency: Result<Value>;
        match parameter.classType {
          case None =>
            dependency := DaResolution.ResolveArgument(parameter);
          case Some(t) =>
            if t !in env.classes {
              dependency := Err(ReflectionError(ClassDoesNotExist(t)));
            } else {
              dependency := ResolveClass(parameter, fuel);
            }
        }
        if dependency.Err? {
          return Err(dependency.error);
        }
        assert forall xs: seq<Value> :: (dependencies + [dependency.value]) + xs == dependencies + ([dependency.value] + xs);
        dependencies := dependencies + [dependency.value];
        i := i + 1;
      }
      assert parameters[i..] == [];
      assert dependencies + [] == dependencies;
      r := Ok(dependencies);
    }

    method ResolveClass(parameter: Param, fuel: nat) returns (r: Result<Value>)
      requires parameter.classType.Some?
      modifies this
      decreases fuel, 1, 0
      ensures binds == old(binds)
      ensures Step(r, Snapshot()) == DaResolution.ResolveClass(env, old(Snapshot()), parameter, fuel)
    {
      r := Resolve(parameter.classType.value, [], fuel);
      if r.Err? && IsResolveKind(r.error) && parameter.optional {
        if parameter.hasDefault {
          r := Ok(parameter.default);
        } else {
          r := Err(ReflectionError(DefaultValueUnavailable));
        }
      }
    }

    method OffsetExists(key: Id) returns (exists_: bool)
      ensures exists_ == Registry.OffsetExists(Snapshot(), key)
    {
      exists_ := key in binds;
    }

    method OffsetGet(key: Id, fuel: nat) returns (r: Result<Value>)
      modifies this
      ensures binds == old(binds)
      ensures Step(r, Snapshot()) == DaResolution.Resolve(env, old(Snapshot()), key, [], fuel)
    {
      r := Resolve(key, [], fuel);
    }

    method OffsetSet(key: Id, value: Offered)
      requires Valid()
      modifies this
      ensures Valid()
      ensures Snapshot() == Registry.OffsetSet(old(Snapshot()), key, value)
    {
      if value.OfferedValue? {
        Bind(key, ClosureArg(ConstantFactory(value.value)), Bool(false));
      }
    }

    method OffsetUnset(key: Id)
      requires Valid()
      modifies this
      ensures Valid()
      ensures Snapshot() == Registry.OffsetUnset(old(Snapshot()), key)
    {
      binds := binds - {key};
    }
  }
}
