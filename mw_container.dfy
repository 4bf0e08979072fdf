/**
 * `Modulework\Modules\Container\Container` as a class over the same two
 * maps. Registration is the same code as in the DaGardner class; resolution
 * is proved to match `MwResolution`.
 */
module MwContainer {
  import opened ContainerTypes
  import opened Registry
  import MwResolution

  class Container {
    /** The class table and loose comparison this container's PHP run sees. */
    const env: Env
    var binds: map<Id, Binding>
    var singletons: map<Id, Value>

    function Snapshot(): State
      reads this
    {
      State(binds, singletons)
    }

    /** Every stored concrete is a closure. */
    ghost predicate Valid()
      reads this
    {
      AllClosures(binds)
    }

    constructor (env: Env)
      ensures this.env == env && Snapshot() == State(map[], map[]) && Valid()
    {
      this.env := env;
      binds := map[];
      singletons := map[];
    }

    method Bind(id: Id, concrete: ConcreteArg, singleton: Value)
      requires Valid()
      modifies this
      ensures Valid()
      ensures Snapshot() == Registry.Bind(old(Snapshot()), id, concrete, singleton)
    {
      var c := concrete;
      if c.NullArg? {
        c := NameArg(id);
      }
      var stored: Closure;
      if c.ClosureArg? {
        stored := c.closure;
      } else {
        stored := Wrapper(id, c.name);
      }
      binds := binds[id := Binding(Fn(stored), singleton)];
    }

    method Singleton(id: Id, concrete: ConcreteArg)
      requires Valid()
      modifies this
      ensures Valid()
      ensures Snapshot() == Registry.Bind(old(Snapshot()), id, concrete, Bool(true))
    {
      Bind(id, concrete, Bool(true));
    }

    method Instance(id: Id, instance: Value)
      requires Valid()
      modifies this
      ensures Valid()
      ensures Snapshot() == Registry.Instance(old(Snapshot()), id, instance)
    {
      singletons := singletons[id := instance];
    }

    method Resolve(id: Id, params: seq<Value>, fuel: nat) returns (r: Result<Value>)
      modifies this
      decreases fuel, 1
      ensures binds == old(binds)
      ensures Step(r, Snapshot()) == MwResolution.Resolve(env, old(Snapshot()), id, params, fuel)
    {
      if IsSet(singletons, id) {
        return Ok(singletons[id]);
      }
      if fuel == 0 {
        return Err(OutOfFuel);
      }
      var concrete := GetConcrete(Snapshot(), id);
      var obj: Result<Value>;
      if IsInstantiable(id, concrete) {
        obj := Build(concrete, params, fuel - 1);
      } else {
        obj := Err(FatalError(UndefinedMethodMake));
      }
      if obj.Err? {
        return obj;
      }
      if IsSingleton(Snapshot(), id) {
        singletons := singletons[id := obj.value];
      }
      return obj;
    }

    method Build(concrete: Concrete, params: seq<Value>, fuel: nat) returns (r: Result<Value>)
      modifies this
      decreases fuel, 0
      ensures binds == old(binds)
      ensures Step(r, Snapshot()) == MwResolution.Build(env, old(Snapshot()), concrete, params, fuel)
    {
      match concrete
      case Fn(UserClosure(f)) =>
        r := Ok(f(params));
      case Fn(Wrapper(id, target)) =>
        if fuel == 0 {
          return Err(OutOfFuel);
        }
        var inner: Result<Value>;
        if env.looseEq(id, target) {
          inner := Build(Name(target), [], fuel - 1);
        } else {
          inner := Resolve(target, [], fuel - 1);
        }
        if inner.Err? {
          return Err(inner.error);
        }
        r := Ok(Null);
      case Name(n) =>
        if n !in env.classes {
          return Err(ReflectionError(ClassDoesNotExist(n)));
        }
        var info := env.classes[n];
        if !info.instantiable {
          return Err(FatalError(UndefinedClassRunTimeException));
        }
        if info.ctor.None? {
          return Ok(Obj(n, []));
        }
        r := Err(FatalError(UndefinedMethodGetDependencies));
    }

    method OffsetExists(key: Id) returns (exists_: bool)
      ensures exists_ == Registry.OffsetExists(Snapshot(), key)
    {
      exists_ := key in binds;
    }

    method OffsetGet(key: Id, fuel: nat) returns (r: Result<Value>)
      modifies this
      ensures binds == old(binds)
      ensures Step(r, Snapshot()) == MwResolution.Resolve(env, old(Snapshot()), key, [], fuel)
    {
      r := Resolve(key, [], fuel);
    }

    method OffsetSet(key: Id, value: Offered)
      requires Valid()
      modifies this
      ensures Valid()
      ensures Snapshot() == Registry.OffsetSet(old(Snapshot()), key, value)
    {
      if value.OfferedValue? {
        Bind(key, ClosureArg(ConstantFactory(value.value)), Bool(false));
      }
    }

    method OffsetUnset(key: Id)
      requires Valid()
      modifies this
      ensures Valid()
      ensures Snapshot() == Registry.OffsetUnset(old(Snapshot()), key)
    {
      binds := binds - {key};
    }
  }
}
