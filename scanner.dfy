/// The scan of one queue entry (scanner.go): find the secret, then for each data
/// entry either remove the secret's metrics (on delete) or publish the expiry
/// expiryFromData computes for it, when that succeeds.
module Scanner {
  import opened Externals
  import opened Prometheus
  import opened Entries

  /** The errors the scanner compares against: the sentinel errIsNotCertificate,
      and the two wrapped failures expiryFromData returns. */
  datatype ExpiryError = NotCertificate | Base64Decoding | ParsingCertificate

  /** The two ways scan itself fails; both make the worker retry the entry. */
  datatype ScanError = SplittingKey(key: string) | GettingSecret(key: string)

  /** The range of time.Duration (int64 nanoseconds). */
  const MinDuration: int := -0x8000_0000_0000_0000
  const MaxDuration: int := 0x7FFF_FFFF_FFFF_FFFF

  /** time.Time.Sub: the difference, saturated to the range of time.Duration. */
  function Saturate(d: int): (r: int)
    ensures MinDuration <= r <= MaxDuration
    ensures MinDuration <= d <= MaxDuration ==> r == d
    ensures r < 0 <==> d < 0
  {
    if d < MinDuration then MinDuration else if d > MaxDuration then MaxDuration else d
  }

  function Zeros(n: nat): (z: seq<byte>)
    ensures |z| == n && forall i :: 0 <= i < n ==> z[i] == 0
  {
    seq(n, _ => 0)
  }

  /** The buffer the parser receives: make([]byte, DecodedLen(len(data))) after the
      decoder wrote `written` into its front. The rest of it stays zero. */
  function PlainBuffer(data: seq<byte>, written: seq<byte>): (plain: seq<byte>)
    requires |written| <= DecodedLen(|data|)
    ensures |plain| == DecodedLen(|data|)
    ensures plain[..|written|] == written
    ensures forall i :: |written| <= i < |plain| ==> plain[i] == 0
  {
    written + Zeros(DecodedLen(|data|) - |written|)
  }

  /** expiryFromData: base64-decode, parse the whole buffer as a certificate, and
      return the time from `now` to NotAfter. */
  function ExpiryFromData(data: seq<byte>, decode: Base64Decoder,
                          parse: seq<byte> -> Option<Certificate>, now: int): (r: Result<int, ExpiryError>)
    ensures r != Failure(NotCertificate)
    ensures r == Failure(Base64Decoding) <==> decode(data).None?
    ensures r == Failure(ParsingCertificate)
        <==> decode(data).Some? && parse(PlainBuffer(data, decode(data).value)).None?
    ensures r.Success? ==>
      && decode(data).Some?
      && parse(PlainBuffer(data, decode(data).value)).Some?
      && r.value == Saturate(parse(PlainBuffer(data, decode(data).value)).value.notAfter - now)
  {
    match decode(data)
    case None => Failure(Base64Decoding)
    case Some(written) =>
      match parse(PlainBuffer(data, written))
      case None => Failure(ParsingCertificate)
      case Some(cert) => Success(Saturate(cert.notAfter - now))
  }

  /** An expired certificate yields a negative duration: nothing clamps it at zero. */
  lemma ExpiredIsNegative(data: seq<byte>, decode: Base64Decoder,
                          parse: seq<byte> -> Option<Certificate>, now: int)
    requires decode(data).Some?
    requires parse(PlainBuffer(data, decode(data).value)).Some?
    ensures var r := ExpiryFromData(data, decode, parse, now);
            && r.Success?
            && (r.value < 0 <==> parse(PlainBuffer(data, decode(data).value)).value.notAfter < now)
  {
  }

  /** The count of decoded bytes is discarded: two decodings that differ only by
      trailing zero bytes give the parser the same buffer, hence the same result. */
  lemma DecodedCountDiscarded(data: seq<byte>, decode1: Base64Decoder, decode2: Base64Decoder,
                              parse: seq<byte> -> Option<Certificate>, now: int,
                              written: seq<byte>, k: nat)
    requires decode1(data) == Some(written) && decode2(data) == Some(written + Zeros(k))
    ensures ExpiryFromData(data, decode1, parse, now) == ExpiryFromData(data, decode2, parse, now)
  {
    PaddedBuffer(data, written, k);
  }

  /** Trailing zeros in what the decoder wrote leave the buffer as it was. */
  lemma PaddedBuffer(data: seq<byte>, written: seq<byte>, k: nat)
    requires |written| + k <= DecodedLen(|data|)
    ensures PlainBuffer(data, written + Zeros(k)) == PlainBuffer(data, written)
  {
    var rest := DecodedLen(|data|) - |written| - k;
    ZerosAppend(k, rest);
    calc {
      PlainBuffer(data, written + Zeros(k));
      (written + Zeros(k)) + Zeros(rest);
      written + (Zeros(k) + Zeros(rest));
      written + Zeros(k + rest);
      PlainBuffer(data, written);
    }
  }

  lemma ZerosAppend(m: nat, n: nat)
    ensures Zeros(m) + Zeros(n) == Zeros(m + n)
  {
    var a := Zeros(m) + Zeros(n);
    assert forall i | 0 <= i < m + n :: a[i] == 0;
  }

  /** Where the scan of an entry finds its secret. */
  datatype Target = Target(namespace: string, name: string, secret: Secret)

  /** The key split and the lister lookup, the only steps of scan that can fail. */
  function ScanPrelude(key: string, env: Env): (r: Result<Target, ScanError>)
    ensures r.Failure? <==>
      env.split(key).None? || env.lookup(env.split(key).value.0, env.split(key).value.1).None?
    ensures r.Success? ==>
      && r.value.namespace == env.split(key).value.0
      && r.value.name == env.split(key).value.1
      && env.lookup(r.value.namespace, r.value.name) == Some(r.value.secret)
  {
    match env.split(key)
    case None => Failure(SplittingKey(key))
    case Some((namespace, name)) =>
      match env.lookup(namespace, name)
      case None => Failure(GettingSecret(key))
      case Some(secret) => Success(Target(namespace, name, secret))
  }

  /** The result of expiryFromData for every data entry of a secret. */
  ghost function Outcomes(data: map<string, seq<byte>>, env: Env): map<string, Result<int, ExpiryError>>
  {
    map e | e in data :: ExpiryFromData(data[e], env.decode, env.parse, env.now)
  }

  /** The entries among `done` whose expiryFromData succeeds. */
  ghost function CertEntries(outcomes: map<string, Result<int, ExpiryError>>, done: set<string>): set<string>
  {
    set e | e in done && e in outcomes && outcomes[e].Success?
  }

  /** The series a scan of those entries publishes, with their durations. */
  ghost function CertExpiries(namespace: string, name: string,
                              outcomes: map<string, Result<int, ExpiryError>>, done: set<string>): Gauge
  {
    map e | e in CertEntries(outcomes, done) :: SeriesLabels(namespace, name, e) := outcomes[e].value
  }

  /** The metric calls of a delete scan after `count` entries: one RemoveCertExpiry each. */
  ghost predicate RemoveCalls(namespace: string, name: string, count: nat, calls: seq<MetricCall>)
  {
    && |calls| == count
    && forall i :: 0 <= i < |calls| ==> calls[i] == RemoveCall(namespace, name)
  }

  /** The metric calls of an add or update scan that has visited `done`: one
      SetCertExpiry per entry whose expiryFromData succeeds, with its duration, and no other call. */
  ghost predicate SetCalls(namespace: string, name: string, outcomes: map<string, Result<int, ExpiryError>>,
                           done: set<string>, calls: seq<MetricCall>)
  {
    && (forall i :: 0 <= i < |calls| ==>
          && calls[i].SetCall?
          && calls[i].namespace == namespace && calls[i].name == name
          && calls[i].key in CertEntries(outcomes, done)
          && Success(calls[i].expiresIn) == outcomes[calls[i].key])
    && (forall i, j :: 0 <= i < j < |calls| ==> calls[i].key != calls[j].key)
    && |calls| == |CertEntries(outcomes, done)|
  }

  /** The metric calls of a whole scan of the secret `t` found. */
  ghost predicate ScanCalls(reason: string, t: Target, env: Env, calls: seq<MetricCall>)
  {
    if reason == ReasonDelete then RemoveCalls(t.namespace, t.name, |t.secret.data|, calls)
    else SetCalls(t.namespace, t.name, Outcomes(t.secret.data, env), t.secret.data.Keys, calls)
  }

  /** The handler after an add or update scan of `namespace/name` has visited `done`. */
  ghost predicate UpdateApplied(before: MetricsState, after: MetricsState, namespace: string, name: string,
                                outcomes: map<string, Result<int, ExpiryError>>, done: set<string>)
  {
    var id := Join(namespace, name);
    && after.gauge == before.gauge + CertExpiries(namespace, name, outcomes, done)
    && after.registry - {id} == before.registry - {id}
    && KeysOf(before.registry, id) <= KeysOf(after.registry, id)
    && Elements(KeysOf(after.registry, id)) == Elements(KeysOf(before.registry, id)) + CertEntries(outcomes, done)
  }

  /** What a scan of the entry `key` for `reason` does to the handler, whatever
      order it visits the secret's data entries in. */
  ghost predicate ScanOutcome(key: string, reason: string, env: Env, before: MetricsState, after: MetricsState)
  {
    match ScanPrelude(key, env)
    case Failure(_) => after == before
    case Success(t) =>
      if reason == ReasonDelete then
        after == if t.secret.data == map[] then before else RemoveExpiry(before, t.namespace, t.name)
      else
        UpdateApplied(before, after, t.namespace, t.name, Outcomes(t.secret.data, env), t.secret.data.Keys)
  }

  /** The loop of scan after visiting the entries `done`, starting from `s0`:
      the calls made so far and the state they lead to. */
  ghost predicate Visited(reason: string, namespace: string, name: string,
                          outcomes: map<string, Result<int, ExpiryError>>,
                          s0: MetricsState, s: MetricsState, done: set<string>, calls: seq<MetricCall>)
  {
    && s == Replay(s0, calls)
    && if reason == ReasonDelete then
      && RemoveCalls(namespace, name, |done|, calls)
      && s == if calls == [] then s0 else RemoveExpiry(s0, namespace, name)
    else
      && SetCalls(namespace, name, outcomes, done, calls)
      && UpdateApplied(s0, s, namespace, name, outcomes, done)
  }

  /** The metric calls one pass of scan's loop makes for a data entry whose
      expiryFromData result is `outcome`. */
  ghost function EntryCalls(reason: string, namespace: string, name: string, entry: string,
                            outcome: Result<int, ExpiryError>): seq<MetricCall>
  {
    if reason == ReasonDelete then [RemoveCall(namespace, name)]
    else if outcome.Failure? then []
    else [SetCall(namespace, name, entry, outcome.value)]
  }

  /** One pass of scan's loop over the secret's data: the entry `entry`, holding `value`. */
  method ScanEntry(metrics: PrometheusHandler, reason: string, namespace: string, name: string,
                   entry: string, value: seq<byte>, env: Env)
    returns (ghost made: seq<MetricCall>)
    requires metrics.Valid()
    modifies metrics
    ensures metrics.Valid()
    ensures made == EntryCalls(reason, namespace, name, entry, ExpiryFromData(value, env.decode, env.parse, env.now))
    ensures metrics.log == old(metrics.log) + made
    ensures metrics.State() == Replay(old(metrics.State()), made)
  {
    if reason == ReasonDelete {
      // scanner.go passes `entry` as a third argument; the declared method takes two.
      metrics.RemoveCertExpiry(namespace, name);
      return [RemoveCall(namespace, name)];
    }
    var expiry := ExpiryFromData(value, env.decode, env.parse, env.now);
    if expiry.Failure? {
      // Both the not-a-certificate branch and the logged-error branch skip the entry.
      return [];
    }
    metrics.SetCertExpiry(namespace, name, entry, expiry.value);
    made := [SetCall(namespace, name, entry, expiry.value)];
    assert made[..0] == [];
  }

  /** scan: the returned error, the metric calls made on the handler (`calls`, in
      the order made, as its log records them) and their effect on the handler. */
  method Scan(metrics: PrometheusHandler, qe: QueueEntry, env: Env)
    returns (err: Option<ScanError>, ghost calls: seq<MetricCall>)
    requires metrics.Valid()
    modifies metrics
    ensures metrics.Valid()
    ensures err.Some? <==> ScanPrelude(qe.key, env).Failure?
    ensures err.Some? ==> err.value == ScanPrelude(qe.key, env).error && calls == []
    ensures ScanPrelude(qe.key, env).Success? ==> ScanCalls(qe.reason, ScanPrelude(qe.key, env).value, env, calls)
    ensures ScanOutcome(qe.key, qe.reason, env, old(metrics.State()), metrics.State())
    ensures metrics.log == old(metrics.log) + calls
    ensures metrics.State() == Replay(old(metrics.State()), calls)
  {
    var split := env.split(qe.key);
    if split.None? {
      return Some(SplittingKey(qe.key)), [];
    }
    var (namespace, name) := split.value;
    var found := env.lookup(namespace, name);
    if found.None? {
      return Some(GettingSecret(qe.key)), [];
    }
    var data := found.value.data;
    ghost var s0, log0 := metrics.State(), metrics.log;
    ghost var outcomes := Outcomes(data, env);
    err, calls := None, [];
    var remaining := data.Keys;
    VisitStart(qe.reason, namespace, name, outcomes, s0, data.Keys, remaining);
    while remaining != {}
      invariant remaining <= data.Keys
      invariant metrics.Valid() && metrics.log == log0 + calls
      invariant Visited(qe.reason, namespace, name, outcomes, s0, metrics.State(), data.Keys - remaining, calls)
      decreases remaining
    {
      var entry :| entry in remaining;
      ghost var before := metrics.State();
      var made := ScanEntry(metrics, qe.reason, namespace, name, entry, data[entry], env);
      VisitStep(qe.reason, namespace, name, data, env, outcomes, s0, before, remaining, calls,
                entry, made, metrics.State());
      remaining := remaining - {entry};
      LogAppend(log0, calls, made);
      calls := calls + made;
    }
    assert data.Keys - remaining == data.Keys;
    ScanFinished(qe.key, qe.reason, env, Target(namespace, name, found.value), s0, metrics.State(), calls);
  }

  /** The loop of scan, finished: its calls and state are those of the whole scan. */
  lemma ScanFinished(key: string, reason: string, env: Env, t: Target, s0: MetricsState, s: MetricsState,
                     calls: seq<MetricCall>)
    requires ScanPrelude(key, env) == Success(t)
    requires Visited(reason, t.namespace, t.name, Outcomes(t.secret.data, env), s0, s, t.secret.data.Keys, calls)
    ensures ScanCalls(reason, t, env, calls)
    ensures ScanOutcome(key, reason, env, s0, s)
    ensures s == Replay(s0, calls)
  {
    if reason == ReasonDelete {
      assert |t.secret.data.Keys| == |t.secret.data|;
      assert calls == [] <==> t.secret.data == map[];
    }
  }

  /** The loop of scan before its first entry: no call made, nothing changed. */
  lemma VisitStart(reason: string, namespace: string, name: string,
                   outcomes: map<string, Result<int, ExpiryError>>, s0: MetricsState,
                   keys: set<string>, remaining: set<string>)
    requires remaining == keys
    ensures Visited(reason, namespace, name, outcomes, s0, s0, keys - remaining, [])
  {
    assert keys - remaining == {};
    assert CertEntries(outcomes, {}) == {};
    assert CertExpiries(namespace, name, outcomes, {}) == map[];
    assert s0.gauge + map[] == s0.gauge;
  }

  /** The loop of scan visits one more entry, `entry`: the calls one pass makes for
      it extend the calls so far, and lead to the state the loop has reached. */
  lemma VisitStep(reason: string, namespace: string, name: string, data: map<string, seq<byte>>, env: Env,
                  outcomes: map<string, Result<int, ExpiryError>>, s0: MetricsState,
                  s: MetricsState, remaining: set<string>, calls: seq<MetricCall>,
                  entry: string, made: seq<MetricCall>, s': MetricsState)
    requires outcomes == Outcomes(data, env) && remaining <= data.Keys && entry in remaining
    requires made == EntryCalls(reason, namespace, name, entry,
                                ExpiryFromData(data[entry], env.decode, env.parse, env.now))
    requires s' == Replay(s, made)
    requires Visited(reason, namespace, name, outcomes, s0, s, data.Keys - remaining, calls)
    ensures Visited(reason, namespace, name, outcomes, s0, s', data.Keys - (remaining - {entry}), calls + made)
  {
    var done := data.Keys - remaining;
    ReplayConcat(s0, calls, made);
    assert data.Keys - (remaining - {entry}) == done + {entry};
    assert entry in outcomes && outcomes[entry] == ExpiryFromData(data[entry], env.decode, env.parse, env.now);
    if reason == ReasonDelete {
      assert made[..0] == [];
      DeleteVisited(namespace, name, outcomes, s0, s, done, calls, entry, data.Keys - (remaining - {entry}));
    } else if outcomes[entry].Failure? {
      assert calls + made == calls;
      SkipVisited(reason, namespace, name, outcomes, s0, s, done, calls, entry, data.Keys - (remaining - {entry}));
    } else {
      assert made[..0] == [];
      SetVisited(reason, namespace, name, outcomes, s0, s, done, calls, entry, data.Keys - (remaining - {entry}));
    }
  }

  /** A delete scan visits one more entry: one more RemoveCertExpiry, which removes
      nothing the first one has not. */
  lemma DeleteVisited(namespace: string, name: string, outcomes: map<string, Result<int, ExpiryError>>,
                      s0: MetricsState, s: MetricsState, done: set<string>, calls: seq<MetricCall>,
                      entry: string, done': set<string>)
    requires entry !in done && done' == done + {entry}
    requires Visited(ReasonDelete, namespace, name, outcomes, s0, s, done, calls)
    ensures Visited(ReasonDelete, namespace, name, outcomes, s0, RemoveExpiry(s, namespace, name),
                    done', calls + [RemoveCall(namespace, name)])
  {
    RemoveExpiryIdempotent(s0, namespace, name);
    ReplayConcat(s0, calls, [RemoveCall(namespace, name)]);
    assert |done + {entry}| == |done| + 1;
  }

  /** An add or update scan skips an entry whose expiryFromData fails: no call, no change. */
  lemma SkipVisited(reason: string, namespace: string, name: string,
                    outcomes: map<string, Result<int, ExpiryError>>,
                    s0: MetricsState, s: MetricsState, done: set<string>, calls: seq<MetricCall>,
                    entry: string, done': set<string>)
    requires reason != ReasonDelete && entry in outcomes && outcomes[entry].Failure? && done' == done + {entry}
    requires Visited(reason, namespace, name, outcomes, s0, s, done, calls)
    ensures Visited(reason, namespace, name, outcomes, s0, s, done', calls)
  {
    assert CertEntries(outcomes, done + {entry}) == CertEntries(outcomes, done);
  }

  /** An add or update scan publishes the expiry of one more entry whose expiryFromData succeeds. */
  lemma SetVisited(reason: string, namespace: string, name: string,
                   outcomes: map<string, Result<int, ExpiryError>>,
                   s0: MetricsState, s: MetricsState, done: set<string>, calls: seq<MetricCall>,
                   entry: string, done': set<string>)
    requires reason != ReasonDelete && entry in outcomes && entry !in done && outcomes[entry].Success?
    requires done' == done + {entry}
    requires Visited(reason, namespace, name, outcomes, s0, s, done, calls)
    ensures Visited(reason, namespace, name, outcomes, s0,
                    SetExpiry(s, namespace, name, entry, outcomes[entry].value),
                    done', calls + [SetCall(namespace, name, entry, outcomes[entry].value)])
  {
    ReplayConcat(s0, calls, [SetCall(namespace, name, entry, outcomes[entry].value)]);
    SetCallAppended(namespace, name, outcomes, done, entry, calls);
    SetExtendsPublished(s0, s, namespace, name, outcomes, done, entry);
  }

  /** One more entry whose expiryFromData succeeds: the call list grows by its SetCertExpiry. */
  lemma SetCallAppended(namespace: string, name: string, outcomes: map<string, Result<int, ExpiryError>>,
                        done: set<string>, entry: string, calls: seq<MetricCall>)
    requires entry in outcomes && entry !in done && outcomes[entry].Success?
    requires SetCalls(namespace, name, outcomes, done, calls)
    ensures SetCalls(namespace, name, outcomes, done + {entry},
                     calls + [SetCall(namespace, name, entry, outcomes[entry].value)])
  {
    assert CertEntries(outcomes, done + {entry}) == CertEntries(outcomes, done) + {entry};
    assert entry !in CertEntries(outcomes, done);
    var all := calls + [SetCall(namespace, name, entry, outcomes[entry].value)];
    forall i | 0 <= i < |all|
      ensures all[i].SetCall? && all[i].key in CertEntries(outcomes, done + {entry})
    {
      if i < |calls| {
        assert all[i] == calls[i];
      }
    }
  }

  /** One more entry whose expiryFromData succeeds: SetCertExpiry publishes its series and registers it. */
  lemma SetExtendsPublished(s0: MetricsState, s: MetricsState, namespace: string, name: string,
                            outcomes: map<string, Result<int, ExpiryError>>, done: set<string>, entry: string)
    requires entry in outcomes && entry !in done && outcomes[entry].Success?
    requires UpdateApplied(s0, s, namespace, name, outcomes, done)
    ensures UpdateApplied(s0, SetExpiry(s, namespace, name, entry, outcomes[entry].value),
                          namespace, name, outcomes, done + {entry})
  {
    var t := SetExpiry(s, namespace, name, entry, outcomes[entry].value);
    CertExpiriesStep(namespace, name, outcomes, done, entry);
    assert t.gauge == s0.gauge + CertExpiries(namespace, name, outcomes, done + {entry}) by {
      var l := SeriesLabels(namespace, name, entry);
      var v := outcomes[entry].value;
      assert t.gauge == (s0.gauge + CertExpiries(namespace, name, outcomes, done))[l := v];
    }
    RegisteredStep(s0.registry, s.registry, namespace, name, entry, CertEntries(outcomes, done));
  }

  /** registerKey on a list that held `before`'s keys plus `added`: it now holds `entry` too. */
  lemma RegisteredStep(before: Registry, registry: Registry, namespace: string, name: string,
                       entry: string, added: set<string>)
    requires registry - {Join(namespace, name)} == before - {Join(namespace, name)}
    requires KeysOf(before, Join(namespace, name)) <= KeysOf(registry, Join(namespace, name))
    requires Elements(KeysOf(registry, Join(namespace, name)))
          == Elements(KeysOf(before, Join(namespace, name))) + added
    ensures var after := WithKey(registry, namespace, name, entry);
            && after - {Join(namespace, name)} == before - {Join(namespace, name)}
            && KeysOf(before, Join(namespace, name)) <= KeysOf(after, Join(namespace, name))
            && Elements(KeysOf(after, Join(namespace, name)))
               == Elements(KeysOf(before, Join(namespace, name))) + (added + {entry})
  {
    var id := Join(namespace, name);
    RegisterKeyAppends(registry, namespace, name, entry);
    RegistryFrame(registry, namespace, name, entry);
    assert Elements(KeysOf(WithKey(registry, namespace, name, entry), id)) == Elements(KeysOf(registry, id)) + {entry};
  }

  /** One more entry whose expiryFromData succeeds: one more series, with that entry's duration. */
  lemma CertExpiriesStep(namespace: string, name: string, outcomes: map<string, Result<int, ExpiryError>>,
                         done: set<string>, entry: string)
    requires entry in outcomes && outcomes[entry].Success?
    ensures CertEntries(outcomes, done + {entry}) == CertEntries(outcomes, done) + {entry}
    ensures CertExpiries(namespace, name, outcomes, done + {entry})
         == CertExpiries(namespace, name, outcomes, done)[SeriesLabels(namespace, name, entry) := outcomes[entry].value]
  {
    assert CertEntries(outcomes, done + {entry}) == CertEntries(outcomes, done) + {entry};
  }
}
