/**
 * The values both containers work on: PHP values as the containers see them,
 * the closures stored as factories, bindings, the abstract class table that
 * stands for PHP reflection, and the errors a resolution can end in.
 */
module ContainerTypes {

  /** An id under which something is bound, and also a class name. */
  type Id = string

  /**
   * A PHP value as far as the containers are concerned. `Null` matters because
   * `isset` treats a null entry as absent; `Obj(cls, args)` is an instance of
   * `cls` constructed with the positional arguments `args`; `ContainerRef` is
   * the container itself, which every factory receives as its first argument.
   */
  datatype Value =
    | Null
    | Bool(b: bool)
    | Int(i: int)
    | Str(s: string)
    | Arr(items: seq<Value>)
    | Obj(cls: Id, args: seq<Value>)
    | ContainerRef

  /**
   * A PHP closure used as a factory. `UserClosure(f)` is a closure supplied by
   * the user, seen as a function of the parameter array; `Wrapper(id, target)`
   * is the closure that `bind` builds around a class name or alias.
   */
  datatype Closure =
    | UserClosure(f: seq<Value> -> Value)
    | Wrapper(id: Id, target: Id)

  /** What `getConcrete` yields and `build` accepts: a closure or a class name. */
  datatype Concrete = Fn(closure: Closure) | Name(name: Id)

  /** The `concrete` argument of `bind`: `Closure|string|null`. */
  datatype ConcreteArg = ClosureArg(closure: Closure) | NameArg(name: Id) | NullArg

  /** The value assigned through the array-access setter: a closure or any other value. */
  datatype Offered = OfferedClosure(closure: Closure) | OfferedValue(value: Value)

  /**
   * An entry of `$binds`: the stored concrete and the singleton flag exactly as
   * it was passed to `bind` (any PHP value; only the literal `true` counts).
   */
  datatype Binding = Binding(concrete: Concrete, singleton: Value)

  /** The two mutable maps of a container. */
  datatype State = State(binds: map<Id, Binding>, singletons: map<Id, Value>)

  /** A constructor parameter as reflection reports it. */
  datatype Param = Param(classType: Option<Id>, optional: bool, hasDefault: bool, default: Value)

  /** What reflection knows of a class: whether it can be instantiated and its constructor, if any. */
  datatype ClassInfo = ClassInfo(instantiable: bool, ctor: Option<seq<Param>>)

  /**
   * The fixed surroundings of a container: the class table (a name missing
   * from it is a class PHP does not know) and PHP's loose `==` on two strings.
   */
  datatype Env = Env(classes: map<Id, ClassInfo>, looseEq: (Id, Id) -> bool)

  datatype Option<T> = None | Some(value: T)

  /** Why PHP reflection threw a `ReflectionException`. */
  datatype ReflectionCause = ClassDoesNotExist(name: Id) | DefaultValueUnavailable

  /** The fatal errors the Modulework container runs into (they cannot be caught). */
  datatype Fatal =
    | UndefinedMethodMake
    | UndefinedMethodGetDependencies
    | UndefinedClassRunTimeException

  datatype Error =
    | ReflectionError(cause: ReflectionCause)
    | ResolveError(target: Id)
    | ParameterResolveError
    | FatalError(fatal: Fatal)
    | OutOfFuel

  /** `ParameterResolveException` extends `ResolveException`, so both are caught as Resolve errors. */
  predicate IsResolveKind(e: Error) {
    e.ResolveError? || e.ParameterResolveError?
  }

  datatype Result<T> = Ok(value: T) | Err(error: Error)

  /** The outcome of an operation that may also change the container: its result and the new state. */
  datatype Step<T> = Step(result: Result<T>, state: State)

  /** PHP's loose `==` holds between a string and itself. */
  ghost predicate LooseEqReflexive(env: Env) {
    forall a: Id :: env.looseEq(a, a)
  }
}
