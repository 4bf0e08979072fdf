/**
 * The resolution engine of `Modulework\Modules\Container\Container`, the
 * earlier copy of the DaGardner engine, as functions of the container's
 * state. It has no dependency resolution: the alias branch of `resolve`
 * calls a `make` method the class does not define, and `build` names an
 * unqualified `RunTimeException` (a class that does not exist in its
 * namespace) and an undefined `getDependencies`. Each of these is a PHP
 * fatal error, which no caller can catch.
 */
module MwResolution {
  import opened ContainerTypes
  import opened Registry

  /** `resolve(id, parameters)`. */
  function Resolve(env: Env, s: State, id: Id, params: seq<Value>, fuel: nat): (r: Step<Value>)
    decreases fuel, 1
    ensures Frame(s, r.state)
    ensures CacheKept(s, r.state)
  {
    if IsSet(s.singletons, id) then Step(Ok(s.singletons[id]), s)
    else if fuel == 0 then Step(Err(OutOfFuel), s)
    else
      var concrete := GetConcrete(s, id);
      var built :=
        if IsInstantiable(id, concrete) then Build(env, s, concrete, params, fuel - 1)
        else Step(Err(FatalError(UndefinedMethodMake)), s);
      CacheIfSingleton(built, id)
  }

  /** `build(concrete, parameters)`. */
  function Build(env: Env, s: State, c: Concrete, params: seq<Value>, fuel: nat): (r: Step<Value>)
    decreases fuel, 0
    ensures Frame(s, r.state)
    ensures CacheKept(s, r.state)
  {
    match c
    case Fn(UserClosure(f)) => Step(Ok(f(params)), s)
    case Fn(Wrapper(id, target)) =>
      if fuel == 0 then Step(Err(OutOfFuel), s)
      else
        var inner :=
          if env.looseEq(id, target) then Build(env, s, Name(target), [], fuel - 1)
          else Resolve(env, s, target, [], fuel - 1);
        Step(if inner.result.Err? then Err(inner.result.error) else Ok(Null), inner.state)
    case Name(n) =>
      if n !in env.classes then Step(Err(ReflectionError(ClassDoesNotExist(n))), s)
      else if !env.classes[n].instantiable then Step(Err(FatalError(UndefinedClassRunTimeException)), s)
      else if env.classes[n].ctor.None? then Step(Ok(Obj(n, [])), s)
      else Step(Err(FatalError(UndefinedMethodGetDependencies)), s)
  }
}
