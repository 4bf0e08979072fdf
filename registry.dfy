/**
 * Registration and the small queries shared by both containers: `bind`,
 * `singleton`, `instance`, the array-access setters, `getConcrete`,
 * `isInstantiable` and `isSingelton`. The two PHP classes contain the same
 * code for all of these, so both engines use the definitions here.
 */
module Registry {
  import opened ContainerTypes

  /** PHP `isset($map[$id])`: the key is present and its value is not null. */
  predicate IsSet(m: map<Id, Value>, id: Id) {
    id in m && m[id] != Null
  }

  /** `getConcrete`: the stored concrete of a bound id, the id itself otherwise. */
  function GetConcrete(s: State, id: Id): Concrete {
    if id !in s.binds then Name(id) else s.binds[id].concrete
  }

  /** `isInstantiable`: the concrete is the id itself (`===`) or a closure. */
  predicate IsInstantiable(id: Id, c: Concrete) {
    (c.Name? && c.name == id) || c.Fn?
  }

  /** `isSingelton`: the id is bound and its flag is the literal `true`. */
  predicate IsSingleton(s: State, id: Id) {
    id in s.binds && s.binds[id].singleton == Bool(true)
  }

  /**
   * The closure `bind` stores for a concrete argument: a closure as it is;
   * a null concrete first becomes the id; a name is wrapped into a closure
   * that later builds or resolves it.
   */
  function StoredClosure(id: Id, c: ConcreteArg): (r: Closure)
    ensures c.ClosureArg? ==> r == c.closure
    ensures c.NameArg? ==> r == Wrapper(id, c.name)
    ensures c.NullArg? ==> r == Wrapper(id, id)
  {
    match c
    case ClosureArg(f) => f
    case NameArg(n) => Wrapper(id, n)
    case NullArg => Wrapper(id, id)
  }

  /** `bind(id, concrete, singleton)`. */
  function Bind(s: State, id: Id, c: ConcreteArg, flag: Value): (r: State)
    ensures id in r.binds && r.binds[id] == Binding(Fn(StoredClosure(id, c)), flag)
    ensures forall k :: k != id ==> (k in r.binds <==> k in s.binds)
    ensures forall k :: k != id && k in s.binds ==> r.binds[k] == s.binds[k]
    ensures r.singletons == s.singletons
  {
    s.(binds := s.binds[id := Binding(Fn(StoredClosure(id, c)), flag)])
  }

  /** `instance(id, value)`: only the singleton cache changes. */
  function Instance(s: State, id: Id, v: Value): (r: State)
    ensures r.binds == s.binds
    ensures id in r.singletons && r.singletons[id] == v
    ensures forall k :: k != id ==> (k in r.singletons <==> k in s.singletons)
    ensures forall k :: k != id && k in s.singletons ==> r.singletons[k] == s.singletons[k]
  {
    s.(singletons := s.singletons[id := v])
  }

  /** The closure `offsetSet` builds around a plain value: it ignores its parameters and returns the value. */
  function ConstantFactory(v: Value): (r: Closure)
    ensures r.UserClosure? && forall p :: r.f(p) == v
  {
    UserClosure((p: seq<Value>) => v)
  }

  /** `offsetExists(key)`: the key is bound, whatever the singleton cache holds. */
  predicate OffsetExists(s: State, k: Id) {
    k in s.binds
  }

  /** `offsetSet(key, value)`: a plain value is bound (not as a singleton) to a constant factory; a closure is ignored. */
  function OffsetSet(s: State, k: Id, v: Offered): (r: State)
    ensures v.OfferedClosure? ==> r == s
    ensures v.OfferedValue? ==> r == Bind(s, k, ClosureArg(ConstantFactory(v.value)), Bool(false))
  {
    match v
    case OfferedClosure(_) => s
    case OfferedValue(x) => Bind(s, k, ClosureArg(ConstantFactory(x)), Bool(false))
  }

  /** `offsetUnset(key)`: the binding goes; a cached singleton stays. */
  function OffsetUnset(s: State, k: Id): (r: State)
    ensures k !in r.binds
    ensures forall j :: j != k ==> (j in r.binds <==> j in s.binds)
    ensures forall j :: j != k && j in s.binds ==> r.binds[j] == s.binds[j]
    ensures r.singletons == s.singletons
  {
    s.(binds := s.binds - {k})
  }

  /** The invariant every public operation keeps: every stored concrete is a closure. */
  ghost predicate AllClosures(binds: map<Id, Binding>) {
    forall k :: k in binds ==> binds[k].concrete.Fn?
  }

  /**
   * What a resolution may do to the state: the bindings stay as they are, no
   * cache key disappears, and only ids whose binding is flagged as a singleton
   * get a new or changed cache entry.
   */
  ghost predicate Frame(s: State, s': State) {
    && s'.binds == s.binds
    && s.singletons.Keys <= s'.singletons.Keys
    && forall k :: k in s'.singletons && !IsSingleton(s, k) ==> k in s.singletons && s'.singletons[k] == s.singletons[k]
  }

  /**
   * What no resolution does to the state: a non-null cache entry present when
   * it starts is still there, unchanged, when it ends, because every nested
   * `resolve` of that id stops at `isset`.
   */
  ghost predicate CacheKept(s: State, s': State) {
    forall k :: IsSet(s.singletons, k) ==> k in s'.singletons && s'.singletons[k] == s.singletons[k]
  }

  /**
   * The tail of `resolve`: after the object has been built, it is written into
   * the cache under `id` when `isSingelton(id)` holds in the state now reached.
   */
  function CacheIfSingleton(built: Step<Value>, id: Id): (r: Step<Value>)
    ensures r.result == built.result
    ensures built.result.Ok? && IsSingleton(built.state, id) ==>
              id in r.state.singletons && r.state.singletons[id] == built.result.value
    ensures Frame(built.state, r.state)
    ensures !(built.result.Ok? && IsSingleton(built.state, id)) ==> r.state == built.state
  {
    match built.result
    case Err(_) => built
    case Ok(v) =>
      if IsSingleton(built.state, id) then Step(built.result, Instance(built.state, id, v))
      else built
  }

  // ----- Properties of registration -----

  /** In every state that keeps the invariant, the concrete of an id is instantiable: the alias branch of `resolve` is dead. */
  lemma ConcreteAlwaysInstantiable(s: State, id: Id)
    requires AllClosures(s.binds)
    ensures IsInstantiable(id, GetConcrete(s, id))
    ensures id !in s.binds ==> GetConcrete(s, id) == Name(id)
    ensures id in s.binds ==> GetConcrete(s, id).Fn?
  {
  }

  /** `bind`, `instance`, `offsetSet` and `offsetUnset` keep the invariant. */
  lemma RegistrationKeepsAllClosures(s: State, id: Id, c: ConcreteArg, flag: Value, v: Value, o: Offered)
    requires AllClosures(s.binds)
    ensures AllClosures(Bind(s, id, c, flag).binds)
    ensures AllClosures(Instance(s, id, v).binds)
    ensures AllClosures(OffsetSet(s, id, o).binds)
    ensures AllClosures(OffsetUnset(s, id).binds)
  {
  }

  /** `offsetExists` sees bindings and only bindings. */
  lemma OffsetExistsTracksBindings(s: State, id: Id, k: Id, c: ConcreteArg, flag: Value, v: Value)
    ensures OffsetExists(Bind(s, id, c, flag), k) <==> k == id || OffsetExists(s, k)
    ensures OffsetExists(OffsetUnset(s, id), k) <==> k != id && OffsetExists(s, k)
    ensures OffsetExists(Instance(s, id, v), k) <==> OffsetExists(s, k)
  {
  }

  /**
   * The queries read what registration wrote: `getConcrete` gives the stored
   * closure of a bound id and the id itself once it is unbound; `isSingelton`
   * follows the flag; `isset` on the cache sees a non-null instance only; a
   * bare name is instantiable exactly when it is the id, a closure always.
   */
  lemma QueriesTrackRegistration(s: State, id: Id, k: Id, c: ConcreteArg, flag: Value, v: Value, n: Id, f: Closure)
    ensures GetConcrete(Bind(s, id, c, flag), id) == Fn(StoredClosure(id, c))
    ensures IsSingleton(Bind(s, id, c, flag), id) <==> flag == Bool(true)
    ensures k != id ==> GetConcrete(Bind(s, id, c, flag), k) == GetConcrete(s, k)
    ensures k != id ==> (IsSingleton(Bind(s, id, c, flag), k) <==> IsSingleton(s, k))
    ensures GetConcrete(OffsetUnset(s, id), id) == Name(id) && !IsSingleton(OffsetUnset(s, id), id)
    ensures IsSet(Instance(s, id, v).singletons, id) <==> v != Null
    ensures GetConcrete(Instance(s, id, v), k) == GetConcrete(s, k)
    ensures IsInstantiable(id, Name(n)) <==> n == id
    ensures IsInstantiable(id, Fn(f))
  {
  }

  /** A binding made by `offsetSet` with a plain value is a non-singleton closure returning that value. */
  lemma OffsetSetBindsConstant(s: State, k: Id, v: Value)
    ensures k in OffsetSet(s, k, OfferedValue(v)).binds
    ensures !IsSingleton(OffsetSet(s, k, OfferedValue(v)), k)
    ensures GetConcrete(OffsetSet(s, k, OfferedValue(v)), k).Fn?
    ensures GetConcrete(OffsetSet(s, k, OfferedValue(v)), k).closure.UserClosure?
    ensures forall p :: GetConcrete(OffsetSet(s, k, OfferedValue(v)), k).closure.f(p) == v
  {
  }
}
