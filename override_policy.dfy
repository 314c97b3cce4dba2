/**
 * The principal client-config override policy: a connector may override only
 * the three authentication-related client settings; every other override key
 * is reported back with an error message. Rejection is data in the verdict,
 * never a failure of `Validate` itself.
 */
module OverridePolicy {

  /** The three client configuration keys the principal policy allows. */
  const SaslJaasConfig: string := "sasl.jaas.config"
  const SaslMechanism: string := "sasl.mechanism"
  const SecurityProtocol: string := "security.protocol"

  /** The allow-list: a constant fixed when the policy class is initialised. */
  const AllowedConfig: set<string> := {SaslJaasConfig, SaslMechanism, SecurityProtocol}

  datatype ConnectorType = Source | Sink | Unknown

  datatype ClientType = Producer | Consumer | Admin

  /** A proposed override value. The policy never looks inside it; it may be null. */
  datatype Value = Null | Str(s: string) | Other(identity: nat)

  /**
   * The request handed to a policy. `clientProps` stands for the override map,
   * in its iteration order; its keys are distinct (see `DistinctKeys`).
   */
  datatype ConnectorClientConfigRequest = ConnectorClientConfigRequest(
    connectorName: string,
    connectorType: ConnectorType,
    connectorClass: string,
    clientProps: seq<(string, Value)>,
    clientType: ClientType)

  /** The single error message the policy emits; it names the whole allow-list. */
  datatype ErrorMessage = AllowsOnly(allowed: set<string>)

  /** One verdict entry: the key, its value echoed, recommended values and errors. */
  datatype ConfigValue = ConfigValue(
    name: string,
    value: Value,
    recommendedValues: seq<Value>,
    errorMessages: seq<ErrorMessage>)

  /** A verdict entry is a rejection exactly when it carries an error message. */
  predicate Rejected(cv: ConfigValue) {
    cv.errorMessages != []
  }

  /** A map's keys are unique: the sequence view of a map never repeats a key. */
  predicate DistinctKeys(props: seq<(string, Value)>) {
    forall i, j :: 0 <= i < j < |props| ==> props[i].0 != props[j].0
  }

  /** No key is reported twice in a verdict. */
  predicate DistinctNames(verdict: seq<ConfigValue>) {
    forall i, j :: 0 <= i < j < |verdict| ==> verdict[i].name != verdict[j].name
  }

  /** The verdict entry for one override: fresh lists, at most one error appended. */
  function ConfigValueOf(key: string, value: Value): (cv: ConfigValue)
    ensures cv.name == key && cv.value == value && cv.recommendedValues == []
    ensures Rejected(cv) <==> key !in AllowedConfig
    ensures Rejected(cv) ==> cv.errorMessages == [AllowsOnly(AllowedConfig)]
  {
    var blank := ConfigValue(key, value, [], []);
    if key !in AllowedConfig then
      blank.(errorMessages := blank.errorMessages + [AllowsOnly(AllowedConfig)])
    else
      blank
  }

  /** The stream `map` over the override entries, one verdict entry per entry, in order. */
  function ValidateEntries(props: seq<(string, Value)>): (verdict: seq<ConfigValue>)
    ensures |verdict| == |props|
    ensures forall i :: 0 <= i < |props| ==>
      && verdict[i].name == props[i].0
      && verdict[i].value == props[i].1
      && verdict[i].recommendedValues == []
      && (Rejected(verdict[i]) <==> props[i].0 !in AllowedConfig)
      && (Rejected(verdict[i]) ==> verdict[i].errorMessages == [AllowsOnly(AllowedConfig)])
  {
    if props == [] then []
    else [ConfigValueOf(props[0].0, props[0].1)] + ValidateEntries(props[1..])
  }

  /** The policy's `validate`: only the request's override map is consulted. */
  function Validate(request: ConnectorClientConfigRequest): (verdict: seq<ConfigValue>)
    ensures |verdict| == |request.clientProps|
    ensures request.clientProps == [] ==> verdict == []
    ensures DistinctKeys(request.clientProps) ==> DistinctNames(verdict)
    ensures forall i :: 0 <= i < |verdict| ==>
      verdict[i].name == request.clientProps[i].0 && verdict[i].value == request.clientProps[i].1
  {
    ValidateEntries(request.clientProps)
  }

  /** The set of keys present in an override sequence. */
  function Keys(props: seq<(string, Value)>): set<string> {
    if props == [] then {} else {props[0].0} + Keys(props[1..])
  }

  /** The set of keys a verdict reports on. */
  function Names(verdict: seq<ConfigValue>): set<string> {
    if verdict == [] then {} else {verdict[0].name} + Names(verdict[1..])
  }

  /** The set of keys a verdict rejects. */
  function RejectedNames(verdict: seq<ConfigValue>): set<string> {
    if verdict == [] then {}
    else (if Rejected(verdict[0]) then {verdict[0].name} else {}) + RejectedNames(verdict[1..])
  }

  /** The caller's reading of a verdict: the override attempt fails if any entry is rejected. */
  predicate AnyRejected(verdict: seq<ConfigValue>) {
    exists i :: 0 <= i < |verdict| && Rejected(verdict[i])
  }

  /** The override sequence read as the map it stands for (a later entry wins, as with `put`). */
  function OverridesMap(props: seq<(string, Value)>): map<string, Value> {
    if props == [] then map[] else map[props[0].0 := props[0].1] + OverridesMap(props[1..])
  }

  /** A verdict read as a set of entries keyed by configuration key. */
  function VerdictByKey(verdict: seq<ConfigValue>): map<string, ConfigValue> {
    if verdict == [] then map[] else map[verdict[0].name := verdict[0]] + VerdictByKey(verdict[1..])
  }

  /** Nothing dropped, nothing invented: the verdict reports on exactly the input keys. */
  lemma {:induction false} VerdictNamesAreKeys(props: seq<(string, Value)>)
    ensures Names(ValidateEntries(props)) == Keys(props)
  {
    if props != [] {
      var verdict := ValidateEntries(props);
      assert verdict[1..] == ValidateEntries(props[1..]);
      VerdictNamesAreKeys(props[1..]);
    }
  }

  /** The rejected keys are exactly the input keys outside the allow-list. */
  lemma {:induction false} RejectedNamesAreDisallowedKeys(props: seq<(string, Value)>)
    ensures RejectedNames(ValidateEntries(props)) == Keys(props) - AllowedConfig
  {
    if props != [] {
      var verdict := ValidateEntries(props);
      assert verdict[1..] == ValidateEntries(props[1..]);
      RejectedNamesAreDisallowedKeys(props[1..]);
    }
  }

  /** A whole override attempt passes iff every requested key is allow-listed. */
  lemma AcceptedIffOnlyAllowedKeys(request: ConnectorClientConfigRequest)
    ensures !AnyRejected(Validate(request)) <==> Keys(request.clientProps) <= AllowedConfig
  {
    var verdict := Validate(request);
    RejectedNamesAreDisallowedKeys(request.clientProps);
    RejectedNamesMembership(verdict);
  }

  /** A key is in `RejectedNames` iff some rejected entry carries it. */
  lemma {:induction false} RejectedNamesMembership(verdict: seq<ConfigValue>)
    ensures RejectedNames(verdict) == {} <==> !AnyRejected(verdict)
  {
    if verdict != [] {
      RejectedNamesMembership(verdict[1..]);
      if AnyRejected(verdict[1..]) {
        var i :| 0 <= i < |verdict[1..]| && Rejected(verdict[1..][i]);
        assert Rejected(verdict[i + 1]);
      }
      if AnyRejected(verdict) && !Rejected(verdict[0]) {
        var i :| 0 <= i < |verdict| && Rejected(verdict[i]);
        assert Rejected(verdict[1..][i - 1]);
      }
    }
  }

  /**
   * Keyed by configuration key, the verdict is a function of the override map
   * alone: each key maps to the entry built from that key and its value.
   */
  lemma {:induction false} VerdictByKeyMatchesOverrides(props: seq<(string, Value)>)
    ensures VerdictByKey(ValidateEntries(props))
         == map k | k in OverridesMap(props) :: ConfigValueOf(k, OverridesMap(props)[k])
  {
    if props != [] {
      var verdict := ValidateEntries(props);
      assert verdict[1..] == ValidateEntries(props[1..]);
      VerdictByKeyMatchesOverrides(props[1..]);
    }
  }

  /** Iteration order is not significant: equal override maps give equal keyed verdicts. */
  lemma OrderIrrelevant(props1: seq<(string, Value)>, props2: seq<(string, Value)>)
    requires OverridesMap(props1) == OverridesMap(props2)
    ensures VerdictByKey(ValidateEntries(props1)) == VerdictByKey(ValidateEntries(props2))
  {
    VerdictByKeyMatchesOverrides(props1);
    VerdictByKeyMatchesOverrides(props2);
  }

  /** The value is never inspected: a null value gets the same verdict as any other. */
  lemma ValueNeverInspected(key: string, value: Value)
    ensures ConfigValueOf(key, value).errorMessages == ConfigValueOf(key, Null).errorMessages
  {
  }

  /** Only the override map matters; name, type, class and client type are ignored. */
  lemma ValidateReadsOnlyClientProps(request1: ConnectorClientConfigRequest, request2: ConnectorClientConfigRequest)
    requires request1.clientProps == request2.clientProps
    ensures Validate(request1) == Validate(request2)
  {
  }

  /** A request overriding only `sasl.jaas.config` gets one accepted entry. */
  lemma PrincipalOnlyAccepted()
    ensures var request := ConnectorClientConfigRequest(
              "test", Source, "WorkerTestConnector", [(SaslJaasConfig, Str("test"))], Producer);
            Validate(request) == [ConfigValue(SaslJaasConfig, Str("test"), [], [])]
  {
  }

  /**
   * Overriding `sasl.jaas.config` and `acks` gives an accepted and a rejected
   * entry; the attempt as a whole counts as rejected.
   */
  lemma PrincipalPlusOtherRejected()
    ensures var request := ConnectorClientConfigRequest(
              "test", Source, "WorkerTestConnector",
              [(SaslJaasConfig, Str("test")), ("acks", Str("none"))], Producer);
            var verdict := Validate(request);
            && verdict == [ConfigValue(SaslJaasConfig, Str("test"), [], []),
                           ConfigValue("acks", Str("none"), [], [AllowsOnly(AllowedConfig)])]
            && AnyRejected(verdict)
  {
    var verdict := Validate(ConnectorClientConfigRequest(
      "test", Source, "WorkerTestConnector",
      [(SaslJaasConfig, Str("test")), ("acks", Str("none"))], Producer));
    assert Rejected(verdict[1]);
  }
}
