# DaContainer resolution engine in Dafny

This project models the core of DaContainer, a small PHP inversion-of-control
container. The core is the class `DaGardner\DaContainer\Container` together
with its earlier near-copy `Modulework\Modules\Container\Container`.

A container keeps two maps:

- `$binds` maps an id to `{concrete, singleton}`.
- `$singletons` maps an id to a cached instance.

The operations work on these maps as follows:

- `bind`, `singleton` and `instance` register entries.
- `resolve` checks the cache first. It then takes the id's concrete, builds
  it, and caches the result when the binding is flagged as a singleton.
- `build` calls a closure, or constructs a class. Constructor parameters are
  filled in by `getDependencies`, `resolveClass` and `resolveArgument`.
- The array-access methods `offsetExists`, `offsetGet`, `offsetSet` and
  `offsetUnset` are shorthands for the operations above.

## Layout

- `types.dfy` (`ContainerTypes`) holds the data both classes share:
  - PHP values, including `Null`, which `isset` treats as absent;
  - closures, either `UserClosure(f)` or the `Wrapper(id, target)` that
    `bind` builds;
  - bindings, the container state and the errors.
  - It also holds the class table that stands for PHP reflection. A class
    name missing from the table is a `ReflectionException`.
- `registry.dfy` (`Registry`) holds the operations that are the same code in
  both PHP classes:
  - registration: `bind`, `instance` and the array-access setters;
  - the queries `getConcrete`, `isInstantiable` and `isSingelton`;
  - the invariant `AllClosures`: every stored concrete is a closure.
- `da_resolution.dfy` (`DaResolution`) is the DaGardner engine written as
  functions. Each function returns its result together with the new state.
- `da_properties.dfy` (`DaProperties`) holds the lemmas about the DaGardner
  engine.
- `da_container.dfy` (`DaContainer.Container`) is the DaGardner class. Its
  fields are the two maps. Each method is proved to return exactly what the
  functions give and to leave exactly the state they give.
- `mw_resolution.dfy`, `mw_properties.dfy` and `mw_container.dfy` do the same
  for the Modulework class. That class has three defects:
  - its alias branch calls an undefined `make`;
  - it throws an unqualified `RunTimeException`, a class that does not exist
    in its namespace;
  - it calls an undefined `getDependencies`.
  Each of these is a PHP fatal error.
- `scenarios.dfy` (`Scenarios`) holds the situations the two test suites set
  up, over their stub classes.

Recursion in PHP has no bound. In this model, `resolve` and `build` take a
`fuel` argument and yield `OutOfFuel` instead of recursing further. A cache
hit needs no fuel.

Nested resolutions can write to `$singletons` even when the outer call later
fails. The model threads the state through every call for this reason.
Nothing is rolled back.

The model follows the code as written, in these places:

- The wrapper closure that `bind` builds has no `return`. So an id bound to a
  class name, to an alias or to nothing (a self-binding) resolves to null.
- `bind` always stores a closure. So the alias branch of `resolve` is dead in
  every reachable state.
- An alias binding (`bind('foo', 'bar')`) resolves to null, not to the value
  of its target: the wrapper resolves `bar` and drops the result.
- After `offsetUnset`, an id that names no class fails with a
  `ReflectionException` from `new ReflectionClass` (line 142), not with a
  Resolve error (`DaProperties.RemovedBindingFails`).
- `resolveClass` falls back on `isOptional` (line 246), not on whether a
  default exists. An optional parameter without an available default makes
  `getDefaultValue` throw a `ReflectionException`.
- `ReflectionParameter::getClass` throws a `ReflectionException` when a
  parameter's declared class does not exist. The model raises that error before
  `resolveClass` is reached.
- `src/DaGardner/DaContainer/Exceptions/ParameterResolveException.php` is not
  part of this model. Its Modulework counterpart extends `ResolveException`.
  The model therefore treats a Parameter-Resolve error as a Resolve error
  (`IsResolveKind`), so `resolveClass` catches it.

## Model

| member | source | states |
|---|---|---|
| Registry.IsSet | src/DaGardner/DaContainer/Container.php:101 | `isset($map[$id])`: the key is present and its value is not null |
| Registry.GetConcrete | src/DaGardner/DaContainer/Container.php:170-181 | the stored concrete of a bound id, and the id itself (as a class name) for an unbound one |
| Registry.IsInstantiable | src/DaGardner/DaContainer/Container.php:189-192 | a concrete is instantiable when it is the id itself (`===`) or a closure |
| Registry.IsSingleton | src/DaGardner/DaContainer/Container.php:199-202 | the id is bound and its flag is the literal `true` |
| Registry.OffsetExists | src/DaGardner/DaContainer/Container.php:284-287 | the key has a binding, whatever the singleton cache holds |
| Registry.QueriesTrackRegistration | src/DaGardner/DaContainer/Container.php:170-202 | the queries read what registration wrote: `getConcrete` of a bound id is its stored closure and of an unbound id the id; `isSingelton` follows the flag given to `bind`; `isset` on the cache sees an instance exactly when it is non-null; a bare name is instantiable exactly when it is the id, a closure always |
| Registry.StoredClosure | src/DaGardner/DaContainer/Container.php:47-65 | a closure is stored as is; a name becomes `Wrapper(id, name)`; a null concrete becomes `Wrapper(id, id)` |
| Registry.Bind | src/DaGardner/DaContainer/Container.php:44-69 | the id gets exactly `{stored closure, flag}`, overwriting any earlier binding; no other binding changes; the singleton cache does not change |
| Registry.Instance | src/DaGardner/DaContainer/Container.php:88-91 | only `$singletons[id]` changes, to the given value; the bindings stay as they are |
| Registry.ConstantFactory | src/DaGardner/DaContainer/Container.php:298-301 | the closure `offsetSet` builds returns the value for every parameter list |
| Registry.OffsetSet | src/DaGardner/DaContainer/Container.php:294-305 | a plain value is bound as a non-singleton constant factory; a closure changes nothing |
| Registry.OffsetUnset | src/DaGardner/DaContainer/Container.php:307-310 | only the key's binding goes; other bindings and the whole singleton cache stay |
| Registry.CacheIfSingleton | src/DaGardner/DaContainer/Container.php:119-125 | the result passes through unchanged; a success is cached under the id when `isSingelton` holds, and the state changes in no other case |
| Registry.ConcreteAlwaysInstantiable | src/DaGardner/DaContainer/Container.php:170-192 | with all concretes closures, `isInstantiable(id, getConcrete(id))` always holds: an unbound id maps to itself and a bound id to a closure |
| Registry.RegistrationKeepsAllClosures | src/DaGardner/DaContainer/Container.php:53-68 | `bind`, `instance`, `offsetSet` and `offsetUnset` keep every stored concrete a closure |
| Registry.OffsetExistsTracksBindings | src/DaGardner/DaContainer/Container.php:284-287 | `offsetExists` is true after `bind`, false after `offsetUnset`, and not changed by `instance` |
| Registry.OffsetSetBindsConstant | src/DaGardner/DaContainer/Container.php:294-305 | after `offsetSet(k, v)`, `k` is bound, non-singleton, to a user closure returning `v` |
| DaResolution.Resolve | src/DaGardner/DaContainer/Container.php:99-126 | resolution never changes the bindings, removes no cache key, writes only cache entries of ids flagged as singletons, and leaves every non-null cache entry it started with unchanged |
| DaResolution.Build | src/DaGardner/DaContainer/Container.php:134-163 | building keeps the same resolution frame: bindings unchanged, only flagged ids cached, non-null cache entries kept |
| DaResolution.GetDependencies | src/DaGardner/DaContainer/Container.php:209-229 | on success there is one argument per parameter; every scalar parameter has a default and gets exactly it; every class-typed parameter names a known class; the frame is kept |
| DaResolution.ResolveClass | src/DaGardner/DaContainer/Container.php:238-257 | the result of resolving the class, except that a Resolve-kind error on an optional parameter becomes its default; every other error is re-raised unchanged; the state is the nested resolution's |
| DaResolution.ResolveArgument | src/DaGardner/DaContainer/Container.php:266-278 | succeeds exactly when a default is available, with that default; fails otherwise with a Parameter-Resolve error, which is a Resolve error |
| DaProperties.CachedSingletonReturned | src/DaGardner/DaContainer/Container.php:101-105 | a non-null cache entry is returned with no state change, whatever the bindings are |
| DaProperties.InstanceThenResolve | tests/DaGardner/DaContainer/ContainerTest.php:79-90 | after `instance(id, v)` with `v` non-null, `resolve(id)` returns `v` and changes nothing |
| DaProperties.NullInstanceIsIgnored | src/DaGardner/DaContainer/Container.php:101-117 | `instance(id, null)` does not short-cut: `resolve` builds the id's concrete |
| DaProperties.ResolveAlwaysBuilds | src/DaGardner/DaContainer/Container.php:107-117 | in a state that keeps the invariant, an uncached `resolve` always builds; the `resolve($concrete)` branch is never taken |
| DaProperties.ResolveKeepsAllClosures | src/DaGardner/DaContainer/Container.php:99-126 | resolution keeps the invariant that every stored concrete is a closure |
| DaProperties.SingletonCachedExactlyWhenFlagged | src/DaGardner/DaContainer/Container.php:119-123 | a successful uncached `resolve` writes its result under the id if the flag is literally `true`, and otherwise leaves that entry as it was |
| DaProperties.SingletonClosureResolvedOnce | tests/DaGardner/DaContainer/ContainerTest.php:28-38 | a singleton closure with a non-null result is called once; every later `resolve`, with any parameters, returns the same value and changes nothing |
| DaProperties.ClosureBindingResolves | tests/DaGardner/DaContainer/ContainerTest.php:18-77 | when no non-null value is cached under the id, a non-singleton closure binding resolves to the closure's value for the caller's parameters, with no state change |
| DaProperties.WrapperDiscardsResult | src/DaGardner/DaContainer/Container.php:59-64 | the wrapper builds its target if it is loosely equal to the id, and resolves it otherwise; it passes no parameters, yields null on success, and propagates errors |
| DaProperties.NameBindingResolvesToNull | src/DaGardner/DaContainer/Container.php:47-64 | when no non-null value is cached under the id, an id bound to a name, an alias or a null concrete resolves to null or fails, never to anything else |
| DaProperties.SelfBindingResolvesToNull | src/DaGardner/DaContainer/Container.php:47-64 | when no non-null value is cached under the id, a self-bound class without a constructor resolves to null, and that null never makes the cache short-cut |
| DaProperties.BuildCallsClosure | src/DaGardner/DaContainer/Container.php:136-140 | `build(closure, p)` returns `closure(p)` unchanged, with no state change |
| DaProperties.BuildNameOutcomes | src/DaGardner/DaContainer/Container.php:142-162 | `build(name)` gives a reflection error for an unknown class, a Resolve error for a class that cannot be instantiated, and a fresh instance for a class without a constructor; these outcomes do not depend on the bindings; with a constructor it gives an instance with one argument per parameter |
| DaProperties.UnboundClassResolvesToInstance | tests/DaGardner/DaContainer/ContainerTest.php:40-45 | an unbound, uncached id naming a class without a constructor resolves to a fresh instance, with no state change |
| DaProperties.ScalarParametersUseDefaults | src/DaGardner/DaContainer/Container.php:209-229 | with only scalar parameters, the result is their defaults in order if all have one, and a Parameter-Resolve error otherwise; the state does not change |
| DaProperties.UnresolvableDependency | src/DaGardner/DaContainer/Container.php:238-257 | a dependency on an unbound class that cannot be instantiated re-raises the Resolve error when the parameter is required; when it is optional, its default is passed in its place |
| DaProperties.OffsetSetThenGet | src/DaGardner/DaContainer/Container.php:289-305 | a value stored with `offsetSet` comes back from `offsetGet` when nothing is cached under the key |
| DaProperties.UnsetKeepsCachedSingleton | src/DaGardner/DaContainer/Container.php:307-310 | after `offsetUnset`, a cached singleton is still returned |
| DaProperties.RemovedBindingFails | src/DaGardner/DaContainer/Container.php:142 | after `offsetUnset`, an uncached id that names no class fails with a reflection error |
| DaContainer.Container.constructor | src/DaGardner/DaContainer/Container.php:24-30 | a new container starts with no bindings and no singletons, and keeps the invariant |
| DaContainer.Container.Bind | src/DaGardner/DaContainer/Container.php:44-69 | the new state is `Registry.Bind` of the old one; the invariant is kept |
| DaContainer.Container.Singleton | src/DaGardner/DaContainer/Container.php:78-81 | the same as `bind` with the flag `true` |
| DaContainer.Container.Instance | src/DaGardner/DaContainer/Container.php:88-91 | the new state is `Registry.Instance` of the old one |
| DaContainer.Container.Resolve | src/DaGardner/DaContainer/Container.php:99-126 | the result and the new state are exactly those of `DaResolution.Resolve`; the bindings do not change |
| DaContainer.Container.Build | src/DaGardner/DaContainer/Container.php:134-163 | the result and the new state are exactly those of `DaResolution.Build` |
| DaContainer.Container.GetDependencies | src/DaGardner/DaContainer/Container.php:209-229 | the loop is proved to produce exactly the arguments and the state of `DaResolution.GetDependencies` |
| DaContainer.Container.ResolveClass | src/DaGardner/DaContainer/Container.php:238-257 | the result and the new state are exactly those of `DaResolution.ResolveClass` |
| DaContainer.Container.OffsetExists | src/DaGardner/DaContainer/Container.php:284-287 | true exactly when the key is in `$binds` |
| DaContainer.Container.OffsetGet | src/DaGardner/DaContainer/Container.php:289-292 | the same as `resolve(key)` with no parameters |
| DaContainer.Container.OffsetSet | src/DaGardner/DaContainer/Container.php:294-305 | the new state is `Registry.OffsetSet` of the old one |
| DaContainer.Container.OffsetUnset | src/DaGardner/DaContainer/Container.php:307-310 | the new state is `Registry.OffsetUnset` of the old one |
| MwResolution.Resolve | src/Modulework/Modules/Container/Container.php:96-121 | resolution never changes the bindings, writes only cache entries of flagged ids, and leaves every non-null cache entry it started with unchanged |
| MwResolution.Build | src/Modulework/Modules/Container/Container.php:129-156 | building keeps the same frame |
| MwProperties.CachedSingletonReturned | src/Modulework/Modules/Container/Container.php:98-100 | a non-null cache entry is returned immediately with no state change |
| MwProperties.SingletonCachedExactlyWhenFlagged | src/Modulework/Modules/Container/Container.php:114-118 | a successful uncached `resolve` is cached under the id exactly when the flag is literally `true` |
| MwProperties.BuildCallsClosure | src/Modulework/Modules/Container/Container.php:131-133 | `build(closure, p)` returns `closure(p)` |
| MwProperties.BuildNameOutcomes | src/Modulework/Modules/Container/Container.php:135-155 | `build(name)` has four outcomes: a reflection error for an unknown class; a fatal error for a class that cannot be instantiated; a fresh instance for a class without a constructor; a fatal error for a class with one (`getDependencies` is undefined); none of them changes the state |
| MwProperties.AliasBindingCallsMake | src/Modulework/Modules/Container/Container.php:108-112 | a binding whose concrete is a bare name other than the id would reach the undefined `make` |
| MwProperties.MakeNeverCalled | src/Modulework/Modules/Container/Container.php:102-112 | in every state that keeps the invariant, no resolution ever reaches the undefined `make`, however deep the wrappers go |
| MwProperties.BuildNeverCallsMake | src/Modulework/Modules/Container/Container.php:129-133 | no `build` reached from such a state calls `make` either |
| MwProperties.PlainClassesNeverFatal | src/Modulework/Modules/Container/Container.php:96-121 | with only instantiable classes without constructors and the invariant kept, no resolution ends in a fatal error |
| MwProperties.PlainClassesBuildNeverFatal | src/Modulework/Modules/Container/Container.php:129-156 | the same holds for `build` |
| MwProperties.EnginesAgreeUnlessFatal | src/Modulework/Modules/Container/Container.php:96-121 | every Modulework resolution either ends in a fatal error or gives the DaGardner result and state |
| MwProperties.BuildsAgreeUnlessFatal | src/Modulework/Modules/Container/Container.php:129-156 | the same holds for `build` |
| MwProperties.EnginesAgreeOnPlainClasses | src/Modulework/Modules/Container/Container.php:96-156 | with only plain classes and the invariant kept, the two engines behave identically |
| MwContainer.Container.constructor | src/Modulework/Modules/Container/Container.php:21-27 | a new container starts empty and keeps the invariant |
| MwContainer.Container.Bind | src/Modulework/Modules/Container/Container.php:41-66 | the new state is `Registry.Bind` of the old one |
| MwContainer.Container.Singleton | src/Modulework/Modules/Container/Container.php:75-78 | the same as `bind` with the flag `true` |
| MwContainer.Container.Instance | src/Modulework/Modules/Container/Container.php:85-88 | only `$singletons` changes |
| MwContainer.Container.Resolve | src/Modulework/Modules/Container/Container.php:96-121 | the result and the new state are exactly those of `MwResolution.Resolve` |
| MwContainer.Container.Build | src/Modulework/Modules/Container/Container.php:129-156 | the result and the new state are exactly those of `MwResolution.Build` |
| MwContainer.Container.OffsetExists | src/Modulework/Modules/Container/Container.php:190-193 | true exactly when the key is in `$binds` |
| MwContainer.Container.OffsetGet | src/Modulework/Modules/Container/Container.php:195-198 | the same as `resolve(key)` with no parameters |
| MwContainer.Container.OffsetSet | src/Modulework/Modules/Container/Container.php:200-211 | binds non-closures only, as a non-singleton constant factory |
| MwContainer.Container.OffsetUnset | src/Modulework/Modules/Container/Container.php:213-216 | removes only the binding |
| Scenarios.DependencyInjectionConstructor | tests/DaGardner/DaContainer/ContainerTest.php:131-136 | `ConcreteDependsOn` is built with a fresh `ConcreteStub` |
| Scenarios.DependencyInjectionConstructorModulework | src/Modulework/Modules/Container/Container.php:153 | the same class is a fatal error in the Modulework engine |
| Scenarios.ExceptionOnBuild | tests/DaGardner/DaContainer/ContainerTest.php:142-147 | `build('foo')` ignores the binding of `foo` and fails in reflection |
| Scenarios.ExceptionOnBuildCustom | tests/DaGardner/DaContainer/ContainerTest.php:149-156 | a class with a private constructor gives a Resolve error in DaGardner and a fatal error in Modulework |
| Scenarios.SingletonConcreteResolving | tests/DaGardner/DaContainer/ContainerTest.php:47-53 | both resolutions of a self-bound singleton are null, which is why the test's equality holds |

## Left out

- Resolving callbacks (`onResolving`, `$callbacks`): neither class defines `onResolving`, and `$callbacks` is never read. The tests that call it and the `echo`-output test are not modelled.
- PHP reflection is replaced by the class table (`Env.classes`). How PHP discovers constructors is not modelled.
- Side effects of user closures are not modelled. A user factory is a pure function of its parameter array. The container argument it receives is not passed; the value `ContainerRef` stands for a factory that returns the container.
- Closures as stored values are not modelled. A value passed to `instance` or returned by a factory is first-order (`Value`).
- PHP's loose `==` on numeric strings is not modelled. `Env.looseEq` is left open; lemmas that need it assume only that it is reflexive.
- Cycle detection is not modelled, because the code has none. The `fuel` argument of `resolve`, `build` and the methods only bounds the model. Runs that PHP would end with stack exhaustion end in `OutOfFuel`.
- Exception messages and the empty exception classes are not modelled. Only the error kind and the class name are kept.
- Object identity is not modelled. A built instance is the value `Obj(class, arguments)`, so two builds of the same class are equal, as under PHPUnit's `assertEquals`.
- PHP default arguments are not modelled. Callers pass them explicitly: `[]` for the parameters of `resolve` and `build`, and `Bool(false)` for the flag of `bind`.
- DaResolution.GetDependencies: its own contract fixes the count and the scalar arguments only. A class-typed argument is described by the contract of `DaResolution.ResolveClass`, for the state reached at that point; the per-index contract does not restate it.
- Class names are matched exactly. PHP looks classes up case-insensitively in `new ReflectionClass` and `new`, but the class table is keyed by each class's canonical spelling, so `resolve('concretestub')` is a reflection error in the model while PHP builds a `ConcreteStub`.
