/// The metrics side of the controller (prometheus.go): the `expires_in` gauge
/// vector, labelled by namespace, name and data entry, and the key registry that
/// remembers, per secret, which entries have a published series so that all of
/// them can be deleted when the secret goes away.
module Prometheus {

  /** The label values of one `expires_in` series. */
  datatype SeriesLabels = SeriesLabels(namespace: string, name: string, key: string)

  /** keyRegistry: from `namespace/name` to the data entries registered for it. */
  type Registry = map<string, seq<string>>

  /** The gauge vector: one duration per label triple. */
  type Gauge = map<SeriesLabels, int>

  /** path.Join(namespace, name) for parts that path.Join does not clean. */
  function Join(namespace: string, name: string): string
  {
    namespace + "/" + name
  }

  /** A namespace or name that path.Join leaves as it is and that holds no slash
      (every Kubernetes namespace and Secret name is one). */
  predicate IsPathSegment(s: string)
  {
    s != "" && s != "." && s != ".." && '/' !in s
  }

  /** Position of the first slash, or |s| when there is none. */
  function SlashIndex(s: string): (i: nat)
    ensures i <= |s|
  {
    if s == [] || s[0] == '/' then 0 else 1 + SlashIndex(s[1..])
  }

  lemma {:induction false} SlashIndexOfJoin(namespace: string, name: string)
    requires '/' !in namespace
    ensures SlashIndex(Join(namespace, name)) == |namespace|
  {
    if namespace != [] {
      assert Join(namespace, name)[1..] == Join(namespace[1..], name);
      SlashIndexOfJoin(namespace[1..], name);
    }
  }

  /** Two secrets whose namespaces hold no slash never share a registry entry. */
  lemma JoinInjective(namespace1: string, name1: string, namespace2: string, name2: string)
    requires '/' !in namespace1 && '/' !in namespace2
    ensures Join(namespace1, name1) == Join(namespace2, name2)
        <==> namespace1 == namespace2 && name1 == name2
  {
    var j := Join(namespace1, name1);
    if j == Join(namespace2, name2) {
      SlashIndexOfJoin(namespace1, name1);
      SlashIndexOfJoin(namespace2, name2);
      assert namespace1 == j[..|namespace1|] == namespace2;
      assert name1 == j[|namespace1| + 1..] == name2;
    }
  }

  /** The registered keys of a secret; Go's lookup of a missing map key yields nil. */
  function KeysOf(registry: Registry, id: string): seq<string>
  {
    if id in registry then registry[id] else []
  }

  predicate NoDuplicates(keys: seq<string>)
  {
    forall i, j :: 0 <= i < j < |keys| ==> keys[i] != keys[j]
  }

  predicate WellFormedRegistry(registry: Registry)
  {
    forall id :: id in registry ==> NoDuplicates(registry[id])
  }

  /** How often `x` occurs in `xs`. */
  function Count<T(==)>(xs: seq<T>, x: T): nat
  {
    if xs == [] then 0
    else Count(xs[..|xs| - 1], x) + (if xs[|xs| - 1] == x then 1 else 0)
  }

  lemma {:induction false} CountAppend<T>(a: seq<T>, b: seq<T>, x: T)
    ensures Count(a + b, x) == Count(a, x) + Count(b, x)
    decreases |b|
  {
    if b == [] {
      assert a + b == a;
    } else {
      assert (a + b)[..|a + b| - 1] == a + b[..|b| - 1];
      CountAppend(a, b[..|b| - 1], x);
    }
  }

  function Elements(keys: seq<string>): set<string>
  {
    set k | k in keys
  }

  /** registerKey on the registry value: append `key` to the list of the secret
      unless it is already there. */
  function WithKey(registry: Registry, namespace: string, name: string, key: string): Registry
  {
    var id := Join(namespace, name);
    var keys := KeysOf(registry, id);
    if key in keys then registry else registry[id := keys + [key]]
  }

  /** clearKeys on the registry value. */
  function WithoutKeys(registry: Registry, namespace: string, name: string): Registry
  {
    registry - {Join(namespace, name)}
  }

  lemma {:induction false} CountAbsent<T>(xs: seq<T>, x: T)
    requires x !in xs
    ensures Count(xs, x) == 0
  {
    if xs != [] {
      CountAbsent(xs[..|xs| - 1], x);
    }
  }

  lemma {:induction false} CountOnce(keys: seq<string>, key: string)
    requires NoDuplicates(keys) && key in keys
    ensures Count(keys, key) == 1
  {
    var last := |keys| - 1;
    if keys[last] == key {
      assert key !in keys[..last];
      CountAbsent(keys[..last], key);
    } else {
      assert key in keys[..last];
      CountOnce(keys[..last], key);
    }
  }

  /** After registerKey the key occurs exactly once in the secret's list. */
  lemma RegisterKeyOnce(registry: Registry, namespace: string, name: string, key: string)
    requires NoDuplicates(KeysOf(registry, Join(namespace, name)))
    ensures NoDuplicates(KeysOf(WithKey(registry, namespace, name, key), Join(namespace, name)))
    ensures Count(KeysOf(WithKey(registry, namespace, name, key), Join(namespace, name)), key) == 1
  {
    var keys := KeysOf(WithKey(registry, namespace, name, key), Join(namespace, name));
    assert key in keys;
    CountOnce(keys, key);
  }

  /** A new key goes to the tail; the keys already there keep their order. */
  lemma RegisterKeyAppends(registry: Registry, namespace: string, name: string, key: string)
    ensures var before := KeysOf(registry, Join(namespace, name));
            var after := KeysOf(WithKey(registry, namespace, name, key), Join(namespace, name));
            && before <= after
            && (key !in before ==> after == before + [key])
            && (key in before ==> after == before)
  {
  }

  /** registerKey and clearKeys touch no other secret's list. */
  lemma RegistryFrame(registry: Registry, namespace: string, name: string, key: string)
    ensures WithKey(registry, namespace, name, key) - {Join(namespace, name)}
         == registry - {Join(namespace, name)}
    ensures WithoutKeys(registry, namespace, name) - {Join(namespace, name)}
         == registry - {Join(namespace, name)}
  {
  }

  /** Registering the same key twice is the same as registering it once. */
  lemma RegisterKeyIdempotent(registry: Registry, namespace: string, name: string, key: string)
    ensures WithKey(WithKey(registry, namespace, name, key), namespace, name, key)
         == WithKey(registry, namespace, name, key)
  {
  }

  /** getKeys after clearKeys, or for a secret never registered, is empty. */
  lemma ClearedKeysEmpty(registry: Registry, namespace: string, name: string)
    ensures KeysOf(WithoutKeys(registry, namespace, name), Join(namespace, name)) == []
    ensures Join(namespace, name) !in registry ==> KeysOf(registry, Join(namespace, name)) == []
  {
  }

  /** The whole state the handler owns. */
  datatype MetricsState = MetricsState(registry: Registry, gauge: Gauge)

  /** newPrometheusHandler: an empty registry and a gauge vector with no series. */
  const Initial: MetricsState := MetricsState(map[], map[])

  /** The labels of the series of `namespace/name` for the given keys. */
  function SeriesOf(namespace: string, name: string, keys: seq<string>): set<SeriesLabels>
  {
    set k | k in keys :: SeriesLabels(namespace, name, k)
  }

  /** SetCertExpiry on the state value. */
  function SetExpiry(s: MetricsState, namespace: string, name: string, key: string, expiresIn: int): MetricsState
  {
    MetricsState(WithKey(s.registry, namespace, name, key),
                 s.gauge[SeriesLabels(namespace, name, key) := expiresIn])
  }

  /** RemoveCertExpiry on the state value. */
  function RemoveExpiry(s: MetricsState, namespace: string, name: string): MetricsState
  {
    MetricsState(WithoutKeys(s.registry, namespace, name),
                 s.gauge - SeriesOf(namespace, name, KeysOf(s.registry, Join(namespace, name))))
  }

  lemma WellFormedAfterSet(s: MetricsState, namespace: string, name: string, key: string, expiresIn: int)
    requires WellFormedRegistry(s.registry)
    ensures WellFormedRegistry(SetExpiry(s, namespace, name, key, expiresIn).registry)
  {
    RegisterKeyOnce(s.registry, namespace, name, key);
  }

  /** SetCertExpiry sets or overwrites exactly one series and registers its key. */
  lemma SetExpirySpec(s: MetricsState, namespace: string, name: string, key: string, expiresIn: int)
    ensures var t := SetExpiry(s, namespace, name, key, expiresIn);
            var labels := SeriesLabels(namespace, name, key);
            && labels in t.gauge && t.gauge[labels] == expiresIn
            && t.gauge - {labels} == s.gauge - {labels}
            && key in KeysOf(t.registry, Join(namespace, name))
            && t.registry - {Join(namespace, name)} == s.registry - {Join(namespace, name)}
  {
  }

  /** RemoveCertExpiry deletes exactly the registered series of the secret, drops
      its registry entry and leaves every other secret's series alone. */
  lemma RemoveExpirySpec(s: MetricsState, namespace: string, name: string)
    ensures var t := RemoveExpiry(s, namespace, name);
            var id := Join(namespace, name);
            && id !in t.registry
            && t.registry - {id} == s.registry - {id}
            && (forall l :: l in t.gauge <==> l in s.gauge && !(l.namespace == namespace && l.name == name && l.key in KeysOf(s.registry, id)))
            && (forall l :: l in t.gauge ==> t.gauge[l] == s.gauge[l])
  {
  }

  /** A second RemoveCertExpiry deletes nothing and changes nothing. */
  lemma RemoveExpiryIdempotent(s: MetricsState, namespace: string, name: string)
    ensures RemoveExpiry(RemoveExpiry(s, namespace, name), namespace, name) == RemoveExpiry(s, namespace, name)
  {
    var t := RemoveExpiry(s, namespace, name);
    assert KeysOf(t.registry, Join(namespace, name)) == [];
    assert SeriesOf(namespace, name, []) == {};
  }

  /** One call on the handler, as the scanner issues them. */
  datatype MetricCall =
    | SetCall(namespace: string, name: string, key: string, expiresIn: int)
    | RemoveCall(namespace: string, name: string)

  function Apply(s: MetricsState, call: MetricCall): MetricsState
  {
    match call
    case SetCall(namespace, name, key, expiresIn) => SetExpiry(s, namespace, name, key, expiresIn)
    case RemoveCall(namespace, name) => RemoveExpiry(s, namespace, name)
  }

  /** The state after issuing `calls` in order. */
  function Replay(s: MetricsState, calls: seq<MetricCall>): MetricsState
    decreases |calls|
  {
    if calls == [] then s else Apply(Replay(s, calls[..|calls| - 1]), calls[|calls| - 1])
  }

  /** Appending to the handler's log in two steps is appending their concatenation
      (a solver hint: it restates the associativity of sequence concatenation). */
  lemma LogAppend(log: seq<MetricCall>, calls: seq<MetricCall>, made: seq<MetricCall>)
    ensures log + calls + made == log + (calls + made)
  {
  }

  /** Replaying two call sequences one after the other is replaying them joined. */
  lemma {:induction false} ReplayConcat(s: MetricsState, first: seq<MetricCall>, second: seq<MetricCall>)
    ensures Replay(Replay(s, first), second) == Replay(s, first + second)
    decreases |second|
  {
    if second != [] {
      var init := second[..|second| - 1];
      ReplayConcat(s, first, init);
      assert (first + second)[..|first + second| - 1] == first + init;
    } else {
      assert first + second == first;
    }
  }

  /** The keys of the published series of `namespace/name`. */
  ghost function Published(gauge: Gauge, namespace: string, name: string): set<string>
  {
    set l | l in gauge && l.namespace == namespace && l.name == name :: l.key
  }

  /** Every secret's published series are exactly its registered keys. */
  ghost predicate Consistent(s: MetricsState)
  {
    forall namespace, name :: IsPathSegment(namespace) && IsPathSegment(name) ==>
      Published(s.gauge, namespace, name) == Elements(KeysOf(s.registry, Join(namespace, name)))
  }

  predicate WellFormedCall(call: MetricCall)
  {
    IsPathSegment(call.namespace) && IsPathSegment(call.name)
  }

  /** Calls on secrets whose namespace and name are single path segments. */
  predicate WellFormedCalls(calls: seq<MetricCall>)
  {
    forall i :: 0 <= i < |calls| ==> WellFormedCall(calls[i])
  }

  lemma WellFormedAppend(a: seq<MetricCall>, b: seq<MetricCall>)
    requires WellFormedCalls(a) && WellFormedCalls(b)
    ensures WellFormedCalls(a + b)
  {
    forall i | 0 <= i < |a + b|
      ensures WellFormedCall((a + b)[i])
    {
      if i >= |a| {
        assert (a + b)[i] == b[i - |a|];
      }
    }
  }

  lemma InitialConsistent()
    ensures Consistent(Initial)
  {
  }

  lemma SetExpiryConsistent(s: MetricsState, namespace: string, name: string, key: string, expiresIn: int)
    requires Consistent(s) && IsPathSegment(namespace) && IsPathSegment(name)
    ensures Consistent(SetExpiry(s, namespace, name, key, expiresIn))
  {
    var t := SetExpiry(s, namespace, name, key, expiresIn);
    forall ns, n | IsPathSegment(ns) && IsPathSegment(n)
      ensures Published(t.gauge, ns, n) == Elements(KeysOf(t.registry, Join(ns, n)))
    {
      JoinInjective(namespace, name, ns, n);
      if ns == namespace && n == name {
        assert Published(t.gauge, ns, n) == Published(s.gauge, ns, n) + {key};
        assert Elements(KeysOf(t.registry, Join(ns, n))) == Elements(KeysOf(s.registry, Join(ns, n))) + {key};
      } else {
        assert Published(t.gauge, ns, n) == Published(s.gauge, ns, n);
        assert KeysOf(t.registry, Join(ns, n)) == KeysOf(s.registry, Join(ns, n));
      }
    }
  }

  lemma RemoveExpiryConsistent(s: MetricsState, namespace: string, name: string)
    requires Consistent(s) && IsPathSegment(namespace) && IsPathSegment(name)
    ensures Consistent(RemoveExpiry(s, namespace, name))
  {
    var t := RemoveExpiry(s, namespace, name);
    forall ns, n | IsPathSegment(ns) && IsPathSegment(n)
      ensures Published(t.gauge, ns, n) == Elements(KeysOf(t.registry, Join(ns, n)))
    {
      JoinInjective(namespace, name, ns, n);
      if ns == namespace && n == name {
        var keys := KeysOf(s.registry, Join(ns, n));
        forall k | k in Published(t.gauge, ns, n)
          ensures k in Published(s.gauge, ns, n) && k !in keys
        {
          var l :| l in t.gauge && l.namespace == ns && l.name == n && l.key == k;
          assert l !in SeriesOf(ns, n, keys);
        }
        assert Published(t.gauge, ns, n) == Published(s.gauge, ns, n) - Elements(keys);
      } else {
        assert Published(t.gauge, ns, n) == Published(s.gauge, ns, n);
        assert KeysOf(t.registry, Join(ns, n)) == KeysOf(s.registry, Join(ns, n));
      }
    }
  }

  /** Any sequence of SetCertExpiry and RemoveCertExpiry calls on well-formed
      secrets keeps every secret's published series equal to its registered keys. */
  lemma {:induction false} ReplayConsistent(s: MetricsState, calls: seq<MetricCall>)
    requires Consistent(s)
    requires WellFormedCalls(calls)
    ensures Consistent(Replay(s, calls))
  {
    if calls != [] {
      var last := calls[|calls| - 1];
      ReplayConsistent(s, calls[..|calls| - 1]);
      match last
      case SetCall(namespace, name, key, expiresIn) =>
        SetExpiryConsistent(Replay(s, calls[..|calls| - 1]), namespace, name, key, expiresIn);
      case RemoveCall(namespace, name) =>
        RemoveExpiryConsistent(Replay(s, calls[..|calls| - 1]), namespace, name);
    }
  }

  /** From a fresh handler, any well-formed call sequence leaves it consistent. */
  lemma FromInitialConsistent(calls: seq<MetricCall>)
    requires WellFormedCalls(calls)
    ensures Consistent(Replay(Initial, calls))
  {
    InitialConsistent();
    ReplayConsistent(Initial, calls);
  }

  /** Removals of one secret, repeated, act like a single removal. */
  lemma {:induction false} ReplayRemovals(s: MetricsState, namespace: string, name: string, calls: seq<MetricCall>)
    requires forall i :: 0 <= i < |calls| ==> calls[i] == RemoveCall(namespace, name)
    ensures Replay(s, calls) == if calls == [] then s else RemoveExpiry(s, namespace, name)
  {
    if |calls| > 1 {
      ReplayRemovals(s, namespace, name, calls[..|calls| - 1]);
      RemoveExpiryIdempotent(s, namespace, name);
    }
  }

  /** prometheusHandler: the gauge vector and the key registry, updated in place. */
  class PrometheusHandler {
    var expiresInDaysMetric: Gauge
    var keyRegistry: Registry
    /** The SetCertExpiry and RemoveCertExpiry calls made on the handler, in order. */
    ghost var log: seq<MetricCall>

    ghost predicate Valid()
      reads this
    {
      WellFormedRegistry(keyRegistry)
    }

    function State(): MetricsState
      reads this
    {
      MetricsState(keyRegistry, expiresInDaysMetric)
    }

    /** newPrometheusHandler, without the registration with the Prometheus registry. */
    constructor ()
      ensures Valid() && State() == Initial && log == []
    {
      expiresInDaysMetric := map[];
      keyRegistry := map[];
      log := [];
    }

    /** RemoveCertExpiry: delete every series registered for the secret, then clear its keys. */
    method RemoveCertExpiry(namespace: string, name: string)
      requires Valid()
      modifies this
      ensures Valid()
      ensures State() == RemoveExpiry(old(State()), namespace, name)
      ensures log == old(log) + [RemoveCall(namespace, name)]
    {
      var keys := GetKeys(namespace, name);
      var i := 0;
      while i < |keys|
        invariant i <= |keys|
        invariant keyRegistry == old(keyRegistry) && log == old(log)
        invariant expiresInDaysMetric == old(expiresInDaysMetric) - SeriesOf(namespace, name, keys[..i])
      {
        assert keys[..i + 1] == keys[..i] + [keys[i]];
        assert SeriesOf(namespace, name, keys[..i + 1])
            == SeriesOf(namespace, name, keys[..i]) + {SeriesLabels(namespace, name, keys[i])};
        expiresInDaysMetric := expiresInDaysMetric - {SeriesLabels(namespace, name, keys[i])};
        i := i + 1;
      }
      assert keys[..i] == keys;
      ClearKeys(namespace, name);
      log := log + [RemoveCall(namespace, name)];
    }

    /** SetCertExpiry: set or overwrite the series, then register its key. */
    method SetCertExpiry(namespace: string, name: string, key: string, expiresIn: int)
      requires Valid()
      modifies this
      ensures Valid()
      ensures State() == SetExpiry(old(State()), namespace, name, key, expiresIn)
      ensures log == old(log) + [SetCall(namespace, name, key, expiresIn)]
    {
      expiresInDaysMetric := expiresInDaysMetric[SeriesLabels(namespace, name, key) := expiresIn];
      RegisterKey(namespace, name, key);
      log := log + [SetCall(namespace, name, key, expiresIn)];
    }

    method ClearKeys(namespace: string, name: string)
      requires Valid()
      modifies this
      ensures Valid()
      ensures keyRegistry == WithoutKeys(old(keyRegistry), namespace, name)
      ensures expiresInDaysMetric == old(expiresInDaysMetric) && log == old(log)
    {
      keyRegistry := keyRegistry - {Join(namespace, name)};
    }

    /** getKeys: read the secret's list; nothing changes. */
    method GetKeys(namespace: string, name: string) returns (keys: seq<string>)
      ensures keys == KeysOf(keyRegistry, Join(namespace, name))
      ensures Valid() ==> NoDuplicates(keys)
    {
      var id := Join(namespace, name);
      keys := if id in keyRegistry then keyRegistry[id] else [];
    }

    /** registerKey: a linear search of the secret's list, then an append. */
    method RegisterKey(namespace: string, name: string, key: string)
      requires Valid()
      modifies this
      ensures Valid()
      ensures keyRegistry == WithKey(old(keyRegistry), namespace, name, key)
      ensures expiresInDaysMetric == old(expiresInDaysMetric) && log == old(log)
    {
      var keys := KeysOf(keyRegistry, Join(namespace, name));
      var i := 0;
      while i < |keys|
        invariant i <= |keys|
        invariant key !in keys[..i]
      {
        if keys[i] == key {
          return;
        }
        assert keys[..i + 1] == keys[..i] + [keys[i]];
        i := i + 1;
      }
      assert keys[..i] == keys;
      RegisterKeyOnce(keyRegistry, namespace, name, key);
      keyRegistry := keyRegistry[Join(namespace, name) := keys + [key]];
    }
  }
}
