# Kafka Connect: principal override policy and REST registration facade

This project models two small gatekeeping components of the Kafka Connect
worker runtime and proves properties of them in Dafny.

- **`OverridePolicy`** (`override_policy.dfy`) models
  `PrincipalConnectorClientConfigOverridePolicy`. A connector asks to override
  client configuration keys. `Validate` answers with one verdict entry per
  requested key. Each entry holds the key, the value echoed back, an empty
  recommended-values list and an error list. The error list is non-empty
  exactly when the key is outside the allow-list `sasl.jaas.config`,
  `sasl.mechanism`, `security.protocol`. The override map is a sequence of
  `(key, value)` pairs in iteration order. Properties that do not depend on
  that order are stated over `Keys`, `OverridesMap` and `VerdictByKey`.
  Rejection is data: `Validate` is total and never fails.
- **`RestExtension`** (`rest_configurable.dfy`) models `ConnectRestConfigurable`.
  This is a facade over a shared, mutable Jersey `ResourceConfig`. The store is
  the class `ResourceConfig`, an abstract stand-in with these fields:
  - the registered instance ids;
  - the registered class names;
  - the properties;
  - a log of the `register` calls it received.

  The facade `ConnectRestConfigurable` holds one store and has the eight
  `register` overloads. Each overload checks its guard and then forwards or
  skips. The result of every overload is specified by the pure function
  `Guarded` on the store's abstract state. The lemmas about `Guarded` and
  `Run` (a sequence of `register` calls) state what the facade does over time.

The facade follows the code, not its doc comment. The doc comment at
`ConnectRestConfigurable.java:28-31` says duplicates are handled "by no
re-registering them again". The code's guards
(`ConnectRestConfigurable.java:116-130`) return `true` exactly when the store
already reports the component as registered. So the model forwards only
already-registered components. The lemmas prove that new components are never
registered and that known ones are re-forwarded on every call. The intended
guard is modelled beside it, as `IntendedGuarded`, and is proved to forward at
most once per component (see "## Findings").

A second difference: the test `testPrincipalPlusOtherConfigs`
(`PrincipalConnectorClientConfigOverridePolicyTest.java:47-59`) expects a
`PolicyViolationException`, but `validate` never throws. The model follows
`validate`. It states the rejection as "some entry has a non-empty error list"
(`AnyRejected`).

## Model

| member | source | states |
|---|---|---|
| `OverridePolicy.ConfigValueOf` | connect/runtime/src/main/java/org/apache/kafka/connect/connector/policy/PrincipalConnectorClientConfigOverridePolicy.java:51-58 | The entry for one override has the key as its name, the value unchanged and no recommended values. It is rejected iff the key is outside the allow-list, and then it carries exactly one message, which names the whole allow-list. |
| `OverridePolicy.ValidateEntries` | connect/runtime/src/main/java/org/apache/kafka/connect/connector/policy/PrincipalConnectorClientConfigOverridePolicy.java:48 | Mapping over the entries gives one entry per input entry. The i-th output has the i-th key and value, an empty recommended list, and is rejected iff its key is not allow-listed. |
| `OverridePolicy.Validate` | connect/runtime/src/main/java/org/apache/kafka/connect/connector/policy/PrincipalConnectorClientConfigOverridePolicy.java:45-49 | The verdict has as many entries as the override map, in the same order, with keys and values echoed. An empty map gives an empty verdict. Distinct keys give distinct names. |
| `OverridePolicy.VerdictNamesAreKeys` | connect/runtime/src/main/java/org/apache/kafka/connect/connector/policy/PrincipalConnectorClientConfigOverridePolicy.java:47-48 | The set of keys the verdict reports on equals the set of input keys: nothing is dropped or invented. |
| `OverridePolicy.RejectedNamesAreDisallowedKeys` | connect/runtime/src/main/java/org/apache/kafka/connect/connector/policy/PrincipalConnectorClientConfigOverridePolicy.java:54 | The set of rejected keys is exactly the input keys minus the allow-list. |
| `OverridePolicy.AcceptedIffOnlyAllowedKeys` | connect/runtime/src/main/java/org/apache/kafka/connect/connector/policy/PrincipalConnectorClientConfigOverridePolicy.java:54-56 | No entry is rejected iff every requested key is in the allow-list (both directions). |
| `OverridePolicy.VerdictByKeyMatchesOverrides` | connect/runtime/src/main/java/org/apache/kafka/connect/connector/policy/PrincipalConnectorClientConfigOverridePolicy.java:47-48 | Read as a map keyed by configuration key, the verdict maps each key of the override map to the entry built from that key and its value. |
| `OverridePolicy.OrderIrrelevant` | connect/runtime/src/main/java/org/apache/kafka/connect/connector/policy/PrincipalConnectorClientConfigOverridePolicy.java:48 | Two iteration orders of the same override map give the same verdict keyed by configuration key. |
| `OverridePolicy.ValueNeverInspected` | connect/runtime/src/main/java/org/apache/kafka/connect/connector/policy/PrincipalConnectorClientConfigOverridePolicy.java:53-54 | The error list depends on the key alone: any value, null included, gets the same errors. |
| `OverridePolicy.ValidateReadsOnlyClientProps` | connect/runtime/src/main/java/org/apache/kafka/connect/connector/policy/PrincipalConnectorClientConfigOverridePolicy.java:47 | Requests with the same override map get the same verdict, whatever their connector name, type, class and client type. |
| `OverridePolicy.PrincipalOnlyAccepted` | connect/runtime/src/test/java/org/apache/kafka/connect/connector/policy/PrincipalConnectorClientConfigOverridePolicyTest.java:35-45 | A request overriding only `sasl.jaas.config` gets a single accepted entry. |
| `OverridePolicy.PrincipalPlusOtherRejected` | connect/runtime/src/test/java/org/apache/kafka/connect/connector/policy/PrincipalConnectorClientConfigOverridePolicyTest.java:47-59 | `{sasl.jaas.config, acks}` gets an accepted `sasl.jaas.config` entry and a rejected `acks` entry, so the attempt as a whole is rejected. |
| `RestExtension.Forward` | connect/runtime/src/main/java/org/apache/kafka/connect/runtime/rest/extension/ConnectRestConfigurable.java:55 | A forwarded call leaves the component registered and appends the call, payload unchanged, to the store's log. No other component's registration changes. |
| `RestExtension.Guarded` | connect/runtime/src/main/java/org/apache/kafka/connect/runtime/rest/extension/ConnectRestConfigurable.java:53-58 | One guarded call appends to the log iff the store already knows the component. Otherwise the store is unchanged. In either case the registered sets and the properties stay the same. |
| `RestExtension.RunForwardsOnlyRegistered` | connect/runtime/src/main/java/org/apache/kafka/connect/runtime/rest/extension/ConnectRestConfigurable.java:116-130 | Any sequence of `register` calls through the facade leaves the registered sets and properties unchanged. The store receives exactly the calls for components it already knew, in order. |
| `RestExtension.NewComponentNeverRegistered` | connect/runtime/src/main/java/org/apache/kafka/connect/runtime/rest/extension/ConnectRestConfigurable.java:116-122 | A component the store does not know stays unregistered after any sequence of `register` calls through the facade, and the store receives no call for it. |
| `RestExtension.RegisteredIsReforwarded` | connect/runtime/src/main/java/org/apache/kafka/connect/runtime/rest/extension/ConnectRestConfigurable.java:28-31 | Contrary to the doc comment, n calls for an already-registered component reach the store n times. |
| `RestExtension.IntendedGuarded` | connect/runtime/src/main/java/org/apache/kafka/connect/runtime/rest/extension/ConnectRestConfigurable.java:28-31 | The guard the doc comment describes: afterwards the component is registered, and the call is logged iff it was not registered before. |
| `RestExtension.RunIntendedForwardsAtMostOnce` | connect/runtime/src/main/java/org/apache/kafka/connect/runtime/rest/extension/ConnectRestConfigurable.java:28-31 | With the intended guard, the store receives at most one call per component, and none for one it already knew. A component ends up registered iff it was registered before or some call named it. |
| `RestExtension.RegisterTwiceScenario` | connect/runtime/src/main/java/org/apache/kafka/connect/runtime/rest/extension/ConnectRestConfigurable.java:52-58 | Registering a new instance twice: as written, the store sees no call and the instance stays unregistered. With the intended guard it sees exactly one call. For an already-registered instance, as written, it sees both calls. |
| `RestExtension.Create` | connect/runtime/src/main/java/org/apache/kafka/connect/runtime/rest/extension/ConnectRestConfigurable.java:36-39 | Construction fails with "ResourceConfig can't be null" iff there is no store. Otherwise it gives a fresh facade holding exactly that store. |
| `RestExtension.ConnectRestConfigurable.constructor` | connect/runtime/src/main/java/org/apache/kafka/connect/runtime/rest/extension/ConnectRestConfigurable.java:38 | The facade holds the store it was given. No method assigns the field afterwards. |
| `RestExtension.ConnectRestConfigurable.GetConfiguration` | connect/runtime/src/main/java/org/apache/kafka/connect/runtime/rest/extension/ConnectRestConfigurable.java:42-45 | Unguarded passthrough: returns the store's current properties and registrations and changes nothing. |
| `RestExtension.ConnectRestConfigurable.Property` | connect/runtime/src/main/java/org/apache/kafka/connect/runtime/rest/extension/ConnectRestConfigurable.java:47-50 | Unguarded passthrough: sets the property on the store, changes nothing else and returns the store. |
| `RestExtension.ConnectRestConfigurable.AllowedToRegister` | connect/runtime/src/main/java/org/apache/kafka/connect/runtime/rest/extension/ConnectRestConfigurable.java:116-122 | The instance guard holds iff the store's instance predicate already reports the instance as registered. |
| `RestExtension.ConnectRestConfigurable.AllowedToRegisterClass` | connect/runtime/src/main/java/org/apache/kafka/connect/runtime/rest/extension/ConnectRestConfigurable.java:124-130 | The class guard holds iff the store's class predicate already reports the class as registered. |
| `RestExtension.ConnectRestConfigurable.Register` | connect/runtime/src/main/java/org/apache/kafka/connect/runtime/rest/extension/ConnectRestConfigurable.java:52-58 | `register(Object)` returns the store. It forwards the call with no metadata iff the instance guard holds, and otherwise leaves the store unchanged (`Guarded`). |
| `RestExtension.ConnectRestConfigurable.RegisterWithPriority` | connect/runtime/src/main/java/org/apache/kafka/connect/runtime/rest/extension/ConnectRestConfigurable.java:60-66 | `register(Object, int)` returns the store. It forwards the priority unchanged iff the instance guard holds, and otherwise leaves the store unchanged. |
| `RestExtension.ConnectRestConfigurable.RegisterWithContractsMap` | connect/runtime/src/main/java/org/apache/kafka/connect/runtime/rest/extension/ConnectRestConfigurable.java:68-74 | `register(Object, Map)` returns the store. It forwards the contracts map unchanged iff the instance guard holds, and otherwise leaves the store unchanged. |
| `RestExtension.ConnectRestConfigurable.RegisterWithContracts` | connect/runtime/src/main/java/org/apache/kafka/connect/runtime/rest/extension/ConnectRestConfigurable.java:76-82 | `register(Object, Class[])` returns the store. It forwards the contracts array unchanged iff the instance guard holds, and otherwise leaves the store unchanged. |
| `RestExtension.ConnectRestConfigurable.RegisterClassWithContractsMap` | connect/runtime/src/main/java/org/apache/kafka/connect/runtime/rest/extension/ConnectRestConfigurable.java:84-90 | `register(Class, Map)` returns the store. It forwards the contracts map unchanged iff the class guard holds, and otherwise leaves the store unchanged. |
| `RestExtension.ConnectRestConfigurable.RegisterClassWithContracts` | connect/runtime/src/main/java/org/apache/kafka/connect/runtime/rest/extension/ConnectRestConfigurable.java:92-98 | `register(Class, Class[])` returns the store. It forwards the contracts array unchanged iff the class guard holds, and otherwise leaves the store unchanged. |
| `RestExtension.ConnectRestConfigurable.RegisterClassWithPriority` | connect/runtime/src/main/java/org/apache/kafka/connect/runtime/rest/extension/ConnectRestConfigurable.java:100-106 | `register(Class, int)` returns the store. It forwards the priority unchanged iff the class guard holds, and otherwise leaves the store unchanged. |
| `RestExtension.ConnectRestConfigurable.RegisterClass` | connect/runtime/src/main/java/org/apache/kafka/connect/runtime/rest/extension/ConnectRestConfigurable.java:108-114 | `register(Class)` returns the store. It forwards the call with no metadata iff the class guard holds, and otherwise leaves the store unchanged. |

## Left out

- `configure` and `close` (`PrincipalConnectorClientConfigOverridePolicy.java:60-69`): `close` is empty and `configure` only writes a log line; its options map is ignored. The policy has no state for them to change. The allow-list is the constant `AllowedConfig`, and `Validate` is a function, so repeated calls on the same request agree.
- Logging: the informational line in `configure`, and the `//Log` placeholders in both guards.
- The error message text. `AllowsOnly(AllowedConfig)` stands for the message, which names the allow-list. The exact wording is not modelled: it embeds the `HashSet` printout, whose order is unspecified, and it lacks a space before "to be overriden".
- Hash-map iteration order: the override map is a sequence in some iteration order, and the order-independent properties are stated over keys and keyed maps.
- A null request or a null override map, on which `validate` would fail with a `NullPointerException`: the model's request is a value and cannot be null.
- A null key in the override map, which a `HashMap` admits: the allow-list test at `PrincipalConnectorClientConfigOverridePolicy.java:54` is false for it, so that entry would be rejected. In the model, keys are strings and cannot be null.
- The caller-side conversion of a rejected verdict into a `PolicyViolationException`: that code is not part of this model. `AnyRejected` states the condition it tests.
- Jersey `ResourceConfig` internals and the JAX-RS `Configuration` object. The store is abstract: registered sets, a call log and a property map. What Jersey does with a duplicate registration, and its removal of a property set to null, are not modelled. `getConfiguration` returns a snapshot, not a live view.
- A null component passed to a `register(Object …)` overload: instance identities are values in the model.
- A null `Class` passed to a `register(Class …)` overload (`ConnectRestConfigurable.java:84-114`): class names are values in the model.
- Concurrency: the facade's check-then-act is modelled single-threaded.

## Findings

| source | as written | input that shows it | evidently intended | confidence | as-written member | corrected member |
|---|---|---|---|---|---|---|
| connect/runtime/src/main/java/org/apache/kafka/connect/runtime/rest/extension/ConnectRestConfigurable.java:116-130 | Each guard returns true exactly when the store already reports the component as registered. New components are dropped, and known ones are forwarded again on every call. | A store with no instances and `register(1)` twice: no call reaches the store and instance 1 stays unregistered. A store that knows instance 1 and `register(1)` twice: both calls reach the store. | Forward exactly when the component is not yet registered, as the doc comment at lines 28-31 says: at most one call per component reaches the store. | high (not executed) | `RestExtension.RegisterTwiceScenario` | `RestExtension.RunIntendedForwardsAtMostOnce` |

The facade's methods keep the guard as written, because they model the code.
The intended behaviour is `IntendedGuarded` and `RunIntended`, and
`RunIntendedForwardsAtMostOnce` is proved about them.
