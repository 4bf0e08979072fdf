/**
 * The resolution engine of `DaGardner\DaContainer\Container` as functions
 * of the container's state: `resolve`, `build`, `getDependencies`,
 * `resolveClass` and `resolveArgument`. Each returns its result together
 * with the state it leaves behind, so that cache writes made by nested
 * resolutions survive when an outer call fails (nothing is rolled back).
 * PHP recursion has no bound; here `fuel` bounds it and `OutOfFuel` is what
 * a run that would recurse further yields.
 */
module DaResolution {
  import opened ContainerTypes
  import opened Registry

  /** `resolve(id, parameters)`. */
  function Resolve(env: Env, s: State, id: Id, params: seq<Value>, fuel: nat): (r: Step<Value>)
    decreases fuel, 0, 0
    ensures Frame(s, r.state)
    ensures CacheKept(s, r.state)
  {
    if IsSet(s.singletons, id) then Step(Ok(s.singletons[id]), s)
    else if fuel == 0 then Step(Err(OutOfFuel), s)
    else
      var concrete := GetConcrete(s, id);
      var built :=
        if IsInstantiable(id, concrete) then Build(env, s, concrete, params, fuel - 1)
        else Resolve(env, s, concrete.name, params, fuel - 1);
      CacheIfSingleton(built, id)
  }

  /**
   * `build(concrete, parameters)`. A closure is called with the parameters;
   * the wrapper made by `bind` builds or resolves its target without the
   * parameters and, lacking a `return`, yields null; a class name is built
   * from the class table without looking at the bindings.
   */
  function Build(env: Env, s: State, c: Concrete, params: seq<Value>, fuel: nat): (r: Step<Value>)
    decreases fuel, 3, 0
    ensures Frame(s, r.state)
    ensures CacheKept(s, r.state)
  {
    match c
    case Fn(UserClosure(f)) => Step(Ok(f(params)), s)
    case Fn(Wrapper(id, target)) =>
      if fuel == 0 then Step(Err(OutOfFuel), s)
      else
        var inner :=
          if env.looseEq(id, target) then Build(env, s, Name(target), [], fuel - 1)
          else Resolve(env, s, target, [], fuel - 1);
        Step(if inner.result.Err? then Err(inner.result.error) else Ok(Null), inner.state)
    case Name(n) =>
      if n !in env.classes then Step(Err(ReflectionError(ClassDoesNotExist(n))), s)
      else if !env.classes[n].instantiable then Step(Err(ResolveError(n)), s)
      else
        match env.classes[n].ctor
        case None => Step(Ok(Obj(n, [])), s)
        case Some(ps) =>
          var deps := GetDependencies(env, s, ps, fuel);
          Step(if deps.result.Ok? then Ok(Obj(n, deps.result.value)) else Err(deps.result.error), deps.state)
  }

  /**
   * `getDependencies(parameters)`: one argument per constructor parameter, in
   * declaration order; a class-typed parameter goes through `resolveClass`
   * (after reflection has found its class), any other through `resolveArgument`.
   */
  function GetDependencies(env: Env, s: State, ps: seq<Param>, fuel: nat): (r: Step<seq<Value>>)
    decreases fuel, 2, |ps|
    ensures Frame(s, r.state)
    ensures CacheKept(s, r.state)
    ensures r.result.Ok? ==> |r.result.value| == |ps|
    ensures r.result.Ok? ==> forall i :: 0 <= i < |ps| && ps[i].classType.None? ==>
              ps[i].hasDefault && r.result.value[i] == ps[i].default
    ensures r.result.Ok? ==> forall i :: 0 <= i < |ps| && ps[i].classType.Some? ==>
              ps[i].classType.value in env.classes
  {
    if ps == [] then Step(Ok([]), s)
    else
      var first :=
        match ps[0].classType
        case None => Step(ResolveArgument(ps[0]), s)
        case Some(t) =>
          if t !in env.classes then Step(Err(ReflectionError(ClassDoesNotExist(t))), s)
          else ResolveClass(env, s, ps[0], fuel);
      match first.result
      case Err(e) => Step(Err(e), first.state)
      case Ok(v) =>
        var rest := GetDependencies(env, first.state, ps[1..], fuel);
        PrependArg(v, rest)
  }

  /** Puts the argument of the first parameter in front of the arguments of the rest. */
  function PrependArg(v: Value, rest: Step<seq<Value>>): (r: Step<seq<Value>>)
    ensures r.state == rest.state
    ensures r.result.Ok? <==> rest.result.Ok?
    ensures r.result.Ok? ==> r.result.value == [v] + rest.result.value
    ensures r.result.Err? ==> r.result == rest.result
  {
    if rest.result.Ok? then Step(Ok([v] + rest.result.value), rest.state) else rest
  }

  /**
   * `resolveClass(parameter)`: resolves the parameter's class; a Resolve error
   * becomes the default value when the parameter is optional, and is thrown
   * again otherwise. Every other error passes through.
   */
  function ResolveClass(env: Env, s: State, p: Param, fuel: nat): (r: Step<Value>)
    requires p.classType.Some?
    decreases fuel, 1, 0
    ensures Frame(s, r.state)
    ensures CacheKept(s, r.state)
    ensures var inner := Resolve(env, s, p.classType.value, [], fuel);
            && r.state == inner.state
            && (inner.result.Ok? ==> r.result == inner.result)
            && (inner.result.Err? && !(IsResolveKind(inner.result.error) && p.optional) ==> r.result == inner.result)
            && (inner.result.Err? && IsResolveKind(inner.result.error) && p.optional ==>
                  r.result == if p.hasDefault then Ok(p.default) else Err(ReflectionError(DefaultValueUnavailable)))
  {
    var inner := Resolve(env, s, p.classType.value, [], fuel);
    match inner.result
    case Ok(_) => inner
    case Err(e) =>
      if IsResolveKind(e) && p.optional then
        Step(if p.hasDefault then Ok(p.default) else Err(ReflectionError(DefaultValueUnavailable)), inner.state)
      else inner
  }

  /** `resolveArgument(parameter)`: the default value when one is available; a Parameter-Resolve error otherwise. */
  function ResolveArgument(p: Param): (r: Result<Value>)
    ensures r.Ok? <==> p.hasDefault
    ensures r.Ok? ==> r.value == p.default
    ensures r.Err? ==> r.error == ParameterResolveError && IsResolveKind(r.error)
  {
    if p.hasDefault then Ok(p.default) else Err(ParameterResolveError)
  }
}
