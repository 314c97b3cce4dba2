/**
 * The REST-extension registration facade. It wraps a shared resource-config
 * store and forwards each `register` call only when its guard admits the
 * component. As the guard is written, it admits a component exactly when the
 * store already reports it as registered, so a component the store does not
 * yet know is never registered through the facade.
 *
 * The store (a Jersey `ResourceConfig`) is modelled abstractly: the registered
 * instances, the registered classes, the properties, and a log of the
 * registration calls it received.
 */
module RestExtension {

  /** Identity of a component instance (object equality in the store). */
  type InstanceId = nat

  /** Identity of a component class. */
  type ClassName = string

  /** What a registration names: an instance or a class. */
  datatype Component = Instance(id: InstanceId) | Type(name: ClassName)

  /** The metadata a `register` overload passes along with the component. */
  datatype Payload =
    | None
    | Priority(priority: int)
    | ContractsMap(contractPriorities: map<ClassName, int>)
    | ContractsArray(contracts: seq<ClassName>)

  /** One `register` call as the store receives it. */
  datatype Registration = Registration(component: Component, payload: Payload)

  /** A property value; the store never inspects it. */
  datatype Value = Null | Str(s: string) | Other(identity: nat)

  /** The abstract state of the store. */
  datatype StoreState = StoreState(
    instances: set<InstanceId>,
    classes: set<ClassName>,
    properties: map<string, Value>,
    log: seq<Registration>)

  /** What `getConfiguration` exposes: the store's current configuration. */
  datatype Configuration = Configuration(
    properties: map<string, Value>,
    instances: set<InstanceId>,
    classes: set<ClassName>)

  datatype Result<T> = Success(value: T) | Failure(message: string)

  /** The store's own predicate: instance identity for instances, class identity for classes. */
  predicate Registered(s: StoreState, c: Component) {
    match c
    case Instance(id) => id in s.instances
    case Type(name) => name in s.classes
  }

  /** The effect of a call that reaches the store: the component is recorded and the call logged. */
  function Forward(s: StoreState, r: Registration): (t: StoreState)
    ensures Registered(t, r.component)
    ensures t.log == s.log + [r] && t.properties == s.properties
    ensures forall c :: c != r.component ==> (Registered(t, c) <==> Registered(s, c))
  {
    match r.component
    case Instance(id) => s.(instances := s.instances + {id}, log := s.log + [r])
    case Type(name) => s.(classes := s.classes + {name}, log := s.log + [r])
  }

  /**
   * One guarded `register` call as written: the guard holds exactly when the
   * store already reports the component as registered.
   */
  function Guarded(s: StoreState, r: Registration): (t: StoreState)
    ensures t.log == (if Registered(s, r.component) then s.log + [r] else s.log)
    ensures !Registered(s, r.component) ==> t == s
    ensures t.instances == s.instances && t.classes == s.classes && t.properties == s.properties
  {
    if Registered(s, r.component) then Forward(s, r) else s
  }

  /** A sequence of facade `register` calls, as written. */
  function Run(s: StoreState, calls: seq<Registration>): StoreState
    decreases |calls|
  {
    if calls == [] then s else Run(Guarded(s, calls[0]), calls[1..])
  }

  /** The calls among `calls` whose component the store `s` already knows. */
  function OnlyRegistered(s: StoreState, calls: seq<Registration>): (kept: seq<Registration>)
    ensures forall i :: 0 <= i < |kept| ==> Registered(s, kept[i].component)
  {
    if calls == [] then []
    else (if Registered(s, calls[0].component) then [calls[0]] else []) + OnlyRegistered(s, calls[1..])
  }

  /** How many logged calls registered component `c`. */
  function Count(log: seq<Registration>, c: Component): nat {
    if log == [] then 0 else (if log[0].component == c then 1 else 0) + Count(log[1..], c)
  }

  /** `n` identical calls. */
  function Repeat(r: Registration, n: nat): seq<Registration> {
    if n == 0 then [] else [r] + Repeat(r, n - 1)
  }

  lemma {:induction false} CountAppend(log1: seq<Registration>, log2: seq<Registration>, c: Component)
    ensures Count(log1 + log2, c) == Count(log1, c) + Count(log2, c)
  {
    if log1 != [] {
      assert (log1 + log2)[0] == log1[0];
      assert (log1 + log2)[1..] == log1[1..] + log2;
      CountAppend(log1[1..], log2, c);
    } else {
      assert log1 + log2 == log2;
    }
  }

  /**
   * As written, a run of `register` calls through the facade never changes
   * which components are registered, and the store receives exactly the
   * calls for components it already knew, in order.
   */
  lemma {:induction false} RunForwardsOnlyRegistered(s: StoreState, calls: seq<Registration>)
    ensures Run(s, calls).instances == s.instances && Run(s, calls).classes == s.classes
    ensures Run(s, calls).properties == s.properties
    ensures Run(s, calls).log == s.log + OnlyRegistered(s, calls)
    decreases |calls|
  {
    if calls != [] {
      var s' := Guarded(s, calls[0]);
      RunForwardsOnlyRegistered(s', calls[1..]);
      assert OnlyRegistered(s', calls[1..]) == OnlyRegistered(s, calls[1..]) by {
        SameRegistrationsSameFilter(s, s', calls[1..]);
      }
    }
  }

  lemma {:induction false} SameRegistrationsSameFilter(s: StoreState, s': StoreState, calls: seq<Registration>)
    requires s.instances == s'.instances && s.classes == s'.classes
    ensures OnlyRegistered(s, calls) == OnlyRegistered(s', calls)
  {
    if calls != [] {
      SameRegistrationsSameFilter(s, s', calls[1..]);
    }
  }

  /**
   * The consequence of the inverted guard: a component the store does not
   * already know is never registered through the facade, and the store
   * never sees a call for it.
   */
  lemma NewComponentNeverRegistered(s: StoreState, calls: seq<Registration>, c: Component)
    requires !Registered(s, c)
    ensures !Registered(Run(s, calls), c)
    ensures Count(Run(s, calls).log, c) == Count(s.log, c)
  {
    RunForwardsOnlyRegistered(s, calls);
    CountAppend(s.log, OnlyRegistered(s, calls), c);
    NoneForUnregistered(s, calls, c);
  }

  lemma {:induction false} NoneForUnregistered(s: StoreState, calls: seq<Registration>, c: Component)
    requires !Registered(s, c)
    ensures Count(OnlyRegistered(s, calls), c) == 0
  {
    if calls != [] {
      NoneForUnregistered(s, calls[1..], c);
      var head := if Registered(s, calls[0].component) then [calls[0]] else [];
      CountAppend(head, OnlyRegistered(s, calls[1..]), c);
    }
  }

  /**
   * The doc comment's "no re-registration" does not hold: as written, every
   * repeated call for an already-registered component reaches the store.
   */
  lemma {:induction false} RegisteredIsReforwarded(s: StoreState, r: Registration, n: nat)
    requires Registered(s, r.component)
    ensures Run(s, Repeat(r, n)).log == s.log + Repeat(r, n)
    ensures Count(Run(s, Repeat(r, n)).log, r.component) == Count(s.log, r.component) + n
    decreases n
  {
    if n > 0 {
      var s' := Guarded(s, r);
      RegisteredIsReforwarded(s', r, n - 1);
      assert Repeat(r, n)[1..] == Repeat(r, n - 1);
      CountAppend(s.log, [r], r.component);
      CountAppend(s.log + [r], Repeat(r, n - 1), r.component);
      CountAppend(s.log, Repeat(r, n), r.component);
      assert Repeat(r, n) == [r] + Repeat(r, n - 1);
      CountAppend([r], Repeat(r, n - 1), r.component);
    }
  }

  /**
   * The guard the doc comment describes: forward a call only when the store
   * does not yet know the component.
   */
  function IntendedGuarded(s: StoreState, r: Registration): (t: StoreState)
    ensures Registered(t, r.component)
    ensures t.log == (if Registered(s, r.component) then s.log else s.log + [r])
    ensures forall c :: Registered(s, c) ==> Registered(t, c)
  {
    if !Registered(s, r.component) then Forward(s, r) else s
  }

  /** A sequence of calls through the intended guard. */
  function RunIntended(s: StoreState, calls: seq<Registration>): StoreState
    decreases |calls|
  {
    if calls == [] then s else RunIntended(IntendedGuarded(s, calls[0]), calls[1..])
  }

  /**
   * With the intended guard, the store receives at most one call per
   * component, none for a component it already knew, and every component
   * named by some call ends up registered.
   */
  lemma {:induction false} RunIntendedForwardsAtMostOnce(s: StoreState, calls: seq<Registration>, c: Component)
    ensures Count(RunIntended(s, calls).log, c) <= Count(s.log, c) + (if Registered(s, c) then 0 else 1)
    ensures Registered(RunIntended(s, calls), c) <==>
      (Registered(s, c) || exists i :: 0 <= i < |calls| && calls[i].component == c)
    decreases |calls|
  {
    if calls != [] {
      var s' := IntendedGuarded(s, calls[0]);
      RunIntendedForwardsAtMostOnce(s', calls[1..], c);
      CountAppend(s.log, [calls[0]], c);
      if exists i :: 0 <= i < |calls[1..]| && calls[1..][i].component == c {
        var i :| 0 <= i < |calls[1..]| && calls[1..][i].component == c;
        assert calls[i + 1].component == c;
      }
      if exists i :: 0 <= i < |calls| && calls[i].component == c {
        var i :| 0 <= i < |calls| && calls[i].component == c;
        if i > 0 { assert calls[1..][i - 1].component == c; }
      }
    }
  }

  /**
   * Registering one new instance twice: as written the store sees no call and
   * the instance stays unregistered; with the intended guard it sees exactly
   * one. For an instance already registered, as written, it sees both.
   */
  lemma RegisterTwiceScenario()
    ensures var empty := StoreState({}, {}, map[], []);
            var r := Registration(Instance(1), None);
            && Run(empty, [r, r]) == empty
            && RunIntended(empty, [r, r]).log == [r]
            && Run(empty.(instances := {1}), [r, r]).log == [r, r]
  {
    var empty := StoreState({}, {}, map[], []);
    var r := Registration(Instance(1), None);
    assert [r, r][1..] == [r];
    assert Run(empty, [r]) == empty;
    var once := IntendedGuarded(empty, r);
    assert RunIntended(once, [r]) == once;
    var known := empty.(instances := {1});
    assert Run(Guarded(known, r), [r]).log == [r, r];
  }

  /** The shared store. Its fields are what the facade's callers can observe. */
  class ResourceConfig {
    var instances: set<InstanceId>
    var classes: set<ClassName>
    var properties: map<string, Value>
    var log: seq<Registration>

    constructor ()
      ensures State() == StoreState({}, {}, map[], [])
    {
      instances, classes, properties, log := {}, {}, map[], [];
    }

    function State(): StoreState
      reads this
    {
      StoreState(instances, classes, properties, log)
    }

    /** `isRegistered(Object)`: the instance predicate. */
    function IsRegisteredInstance(id: InstanceId): (b: bool)
      reads this
      ensures b <==> Registered(State(), Instance(id))
    {
      id in instances
    }

    /** `isRegistered(Class)`: the class predicate. */
    function IsRegisteredClass(name: ClassName): (b: bool)
      reads this
      ensures b <==> Registered(State(), Type(name))
    {
      name in classes
    }

    function CurrentConfiguration(): (c: Configuration)
      reads this
      ensures c.instances == State().instances && c.classes == State().classes
      ensures c.properties == State().properties
    {
      Configuration(properties, instances, classes)
    }

    /** Every `register` shape of the store: record the component, log the call. */
    method Register(r: Registration)
      modifies this
      ensures State() == Forward(old(State()), r)
    {
      match r.component {
        case Instance(id) => instances := instances + {id};
        case Type(name) => classes := classes + {name};
      }
      log := log + [r];
    }

    method Property(name: string, value: Value)
      modifies this
      ensures State() == old(State()).(properties := old(properties)[name := value])
    {
      properties := properties[name := value];
    }
  }

  /** The facade. It holds one store for its lifetime and never reassigns it. */
  class ConnectRestConfigurable {
    var resourceConfig: ResourceConfig

    constructor (resourceConfig: ResourceConfig)
      ensures this.resourceConfig == resourceConfig
    {
      this.resourceConfig := resourceConfig;
    }

    /** Unguarded passthrough. */
    method GetConfiguration() returns (c: Configuration)
      ensures c.instances == resourceConfig.instances && c.classes == resourceConfig.classes
      ensures c.properties == resourceConfig.properties
    {
      c := resourceConfig.CurrentConfiguration();
    }

    /** Unguarded passthrough: returns the store after setting the property. */
    method Property(name: string, value: Value) returns (r: ResourceConfig)
      modifies resourceConfig
      ensures r == resourceConfig
      ensures resourceConfig.State() == old(resourceConfig.State()).(properties := old(resourceConfig.properties)[name := value])
    {
      resourceConfig.Property(name, value);
      r := resourceConfig;
    }

    /** The instance guard, as written: true iff the store already knows the instance. */
    method AllowedToRegister(component: InstanceId) returns (allowed: bool)
      ensures allowed <==> component in resourceConfig.instances
    {
      if resourceConfig.IsRegisteredInstance(component) {
        return true;
      }
      return false;
    }

    /** The class guard, as written: true iff the store already knows the class. */
    method AllowedToRegisterClass(componentClass: ClassName) returns (allowed: bool)
      ensures allowed <==> componentClass in resourceConfig.classes
    {
      if resourceConfig.IsRegisteredClass(componentClass) {
        return true;
      }
      return false;
    }

    /** `register(Object)`. */
    method Register(component: InstanceId) returns (r: ResourceConfig)
      modifies resourceConfig
      ensures r == resourceConfig
      ensures resourceConfig.State() == Guarded(old(resourceConfig.State()), Registration(Instance(component), None))
    {
      var allowed := AllowedToRegister(component);
      if allowed {
        resourceConfig.Register(Registration(Instance(component), None));
      }
      r := resourceConfig;
    }

    /** `register(Object, int)`. */
    method RegisterWithPriority(component: InstanceId, priority: int) returns (r: ResourceConfig)
      modifies resourceConfig
      ensures r == resourceConfig
      ensures resourceConfig.State() == Guarded(old(resourceConfig.State()), Registration(Instance(component), Priority(priority)))
    {
      var allowed := AllowedToRegister(component);
      if allowed {
        resourceConfig.Register(Registration(Instance(component), Priority(priority)));
      }
      r := resourceConfig;
    }

    /** `register(Object, Map)`. */
    method RegisterWithContractsMap(component: InstanceId, contracts: map<ClassName, int>) returns (r: ResourceConfig)
      modifies resourceConfig
      ensures r == resourceConfig
      ensures resourceConfig.State() == Guarded(old(resourceConfig.State()), Registration(Instance(component), ContractsMap(contracts)))
    {
      var allowed := AllowedToRegister(component);
      if allowed {
        resourceConfig.Register(Registration(Instance(component), ContractsMap(contracts)));
      }
      r := resourceConfig;
    }

    /** `register(Object, Class[])`. */
    method RegisterWithContracts(component: InstanceId, contracts: seq<ClassName>) returns (r: ResourceConfig)
      modifies resourceConfig
      ensures r == resourceConfig
      ensures resourceConfig.State() == Guarded(old(resourceConfig.State()), Registration(Instance(component), ContractsArray(contracts)))
    {
      var allowed := AllowedToRegister(component);
      if allowed {
        resourceConfig.Register(Registration(Instance(component), ContractsArray(contracts)));
      }
      r := resourceConfig;
    }

    /** `register(Class, Map)`. */
    method RegisterClassWithContractsMap(componentClass: ClassName, contracts: map<ClassName, int>) returns (r: ResourceConfig)
      modifies resourceConfig
      ensures r == resourceConfig
      ensures resourceConfig.State() == Guarded(old(resourceConfig.State()), Registration(Type(componentClass), ContractsMap(contracts)))
    {
      var allowed := AllowedToRegisterClass(componentClass);
      if allowed {
        resourceConfig.Register(Registration(Type(componentClass), ContractsMap(contracts)));
      }
      r := resourceConfig;
    }

    /** `register(Class, Class[])`. */
    method RegisterClassWithContracts(componentClass: ClassName, contracts: seq<ClassName>) returns (r: ResourceConfig)
      modifies resourceConfig
      ensures r == resourceConfig
      ensures resourceConfig.State() == Guarded(old(resourceConfig.State()), Registration(Type(componentClass), ContractsArray(contracts)))
    {
      var allowed := AllowedToRegisterClass(componentClass);
      if allowed {
        resourceConfig.Register(Registration(Type(componentClass), ContractsArray(contracts)));
      }
      r := resourceConfig;
    }

    /** `register(Class, int)`. */
    method RegisterClassWithPriority(componentClass: ClassName, priority: int) returns (r: ResourceConfig)
      modifies resourceConfig
      ensures r == resourceConfig
      ensures resourceConfig.State() == Guarded(old(resourceConfig.State()), Registration(Type(componentClass), Priority(priority)))
    {
      var allowed := AllowedToRegisterClass(componentClass);
      if allowed {
        resourceConfig.Register(Registration(Type(componentClass), Priority(priority)));
      }
      r := resourceConfig;
    }

    /** `register(Class)`. */
    method RegisterClass(componentClass: ClassName) returns (r: ResourceConfig)
      modifies resourceConfig
      ensures r == resourceConfig
      ensures resourceConfig.State() == Guarded(old(resourceConfig.State()), Registration(Type(componentClass), None))
    {
      var allowed := AllowedToRegisterClass(componentClass);
      if allowed {
        resourceConfig.Register(Registration(Type(componentClass), None));
      }
      r := resourceConfig;
    }
  }

  /** The constructor's null check: a missing store is refused with the source's message. */
  method Create(resourceConfig: ResourceConfig?) returns (result: Result<ConnectRestConfigurable>)
    ensures result.Failure? <==> resourceConfig == null
    ensures result.Failure? ==> result.message == "ResourceConfig can't be null"
    ensures result.Success? ==> fresh(result.value) && result.value.resourceConfig == resourceConfig
  {
    if resourceConfig == null {
      return Failure("ResourceConfig can't be null");
    }
    var facade := new ConnectRestConfigurable(resourceConfig);
    return Success(facade);
  }
}
