# cert-monitor-controller, modelled in Dafny

cert-monitor-controller watches the Kubernetes Secrets of a cluster. For every data
entry whose bytes base64-decode into a buffer the X.509 certificate parser accepts,
it publishes a Prometheus gauge `expires_in{namespace, name, key}`: the time left
until the certificate's NotAfter. An entry holding a PEM or raw DER certificate
fails the base64 decoding and gets no series.
The informer's event handlers put a queue entry (key `namespace/name` plus a reason:
`add`, `update` or `delete`) on a rate-limiting work queue. A worker takes each entry
off the queue and scans the secret. The lookup runs for every reason; when it
fails, the scan reports an error and makes no metric call. On `delete`, if the
lookup still finds the secret and it has data, it removes every registered series
of the secret. On `add` or `update`, if the lookup finds the secret, it decodes
and parses each entry and sets a series for each entry that decodes and parses. Finally it reports the outcome to the queue: Forget on
success, AddRateLimited on failure, and always Done.

The model has six modules:

- `Externals` (externals.dfy): the collaborators the controller calls but does not
  implement, each received as a value in `Env`. These are the key function, the key
  splitter, the secret lister, the base64 decoder, the certificate parser and the
  clock. It also defines the Secret and informer-object datatypes.
- `Prometheus` (prometheus.dfy): class `PrometheusHandler` with the gauge vector
  (`expiresInDaysMetric`, a map from label triple to duration) and `keyRegistry`,
  both updated in place, and a ghost `log` of the SetCertExpiry and RemoveCertExpiry
  calls made on it. Its methods are proved against value functions
  (`WithKey`, `WithoutKeys`, `SetExpiry`, `RemoveExpiry`). The lemmas about those
  functions carry the handler's properties: no duplicate keys, only the touched
  secret changes, idempotence. Above all, any sequence of metric calls (`Replay`)
  keeps each secret's published series equal to its registered keys (`Consistent`).
- `Entries` (queue_entry.dfy): the reasons, and class `QueueEntry` with `String`.
  `Unjoin` reads reason and key back from `String`.
- `WorkQueue` (work_queue.dfy): the client-go rate-limiting queue, seen only
  through the calls made on it. It records each call in `trace`. `Get` hands out
  the items of `deliveries` in order and reports quit once they are used up.
- `Scanner` (scanner.dfy): `ExpiryFromData` as a function, and `Scan` as a method
  whose loop visits the secret's data entries in an arbitrary order, as Go's map
  iteration does. The method's ghost result `calls` lists the metric calls made.
  Its contract states:
  - which calls those are (`ScanCalls`);
  - when an error is returned;
  - what the scan does to the handler whatever the visiting order (`ScanOutcome`).
- `Controller` (controller.dfy): class `Controller` with `Enqueue` and the three
  event handlers, `ProcessNextWorkItem` and `RunWorker`. The queue protocol of one
  round (`RoundCalls`) and of a whole worker run (`WorkerCalls`) are functions, and
  the lemmas about them count the Gets, Dones, Forgets and AddRateLimiteds.
  `RunWorker` runs round `i` against its own environment `envs(i)`, since the
  informer updates the lister and the clock moves on between rounds. It returns
  the metrics before and after every round and proves that each round has its
  item's scan outcome under that round's environment. It also proves that the worker keeps
  the metrics consistent when every delivered key splits into a namespace and a
  name that are single path segments.

Where the design intends something other than what the code does, the model follows
the code:
- the lister lookup also runs for `delete`, so a delete of a secret the lister no
  longer has returns an error and removes nothing;
- an update never removes the series of a data entry that has disappeared;
- every event enqueues a freshly allocated entry, so two events for one key are
  never coalesced.

## Model

| member | source | states |
|---|---|---|
| Prometheus.JoinInjective | prometheus.go:86 | two secrets whose namespaces hold no slash share a registry key exactly when namespace and name both agree |
| Prometheus.RegisterKeyOnce | prometheus.go:90-104 | after registerKey the secret's list has no duplicates and the key occurs in it exactly once |
| Prometheus.RegisterKeyAppends | prometheus.go:100-103 | the old list is a prefix of the new one; a new key is appended at the tail, a known key changes nothing |
| Prometheus.RegisterKeyIdempotent | prometheus.go:94-98 | registering the same key a second time leaves the registry unchanged |
| Prometheus.RegistryFrame | prometheus.go:74-104 | registerKey and clearKeys leave every other secret's entry of the registry unchanged |
| Prometheus.ClearedKeysEmpty | prometheus.go:82-87 | getKeys yields the empty list after clearKeys and for a secret never registered |
| Prometheus.WellFormedAfterSet | prometheus.go:63-71 | SetCertExpiry keeps every registered list free of duplicates |
| Prometheus.SetExpirySpec | prometheus.go:63-71 | SetCertExpiry sets or overwrites exactly the series (namespace, name, key) to the duration, registers the key, and changes no other series and no other secret's keys |
| Prometheus.RemoveExpirySpec | prometheus.go:50-60 | RemoveCertExpiry deletes exactly the secret's series whose key is registered, keeps the values of all others, drops the secret's registry entry and touches no other entry |
| Prometheus.RemoveExpiryIdempotent | prometheus.go:50-60 | a second RemoveCertExpiry changes nothing |
| Prometheus.ReplayRemovals | prometheus.go:50-60 | any number of RemoveCertExpiry calls for one secret act like a single one (none: no change) |
| Prometheus.ReplayConcat | prometheus.go:50-71 | issuing two call sequences one after the other is issuing their concatenation |
| Prometheus.InitialConsistent | prometheus.go:38-41 | the fresh handler (no series, empty registry) has each secret's series equal to its registered keys |
| Prometheus.SetExpiryConsistent | prometheus.go:63-71 | SetCertExpiry on a well-formed secret preserves that every secret's published series equal its registered keys |
| Prometheus.RemoveExpiryConsistent | prometheus.go:50-60 | RemoveCertExpiry on a well-formed secret preserves the same invariant |
| Prometheus.ReplayConsistent | prometheus.go:50-71 | any sequence of SetCertExpiry and RemoveCertExpiry calls on well-formed secrets preserves the invariant |
| Prometheus.FromInitialConsistent | prometheus.go:24-71 | from a new handler, any such call sequence leaves each secret's series equal to its registered keys |
| Prometheus.PrometheusHandler.constructor | prometheus.go:24-42 | newPrometheusHandler: no series, empty registry, no call logged |
| Prometheus.PrometheusHandler.RemoveCertExpiry | prometheus.go:50-60 | the loop over getKeys deletes the series one key at a time, then clearKeys; the new state is RemoveExpiry of the old, and the log gains exactly this one call |
| Prometheus.PrometheusHandler.SetCertExpiry | prometheus.go:63-71 | set the series, then registerKey; the new state is SetExpiry of the old, and the log gains exactly this one call |
| Prometheus.PrometheusHandler.ClearKeys | prometheus.go:74-79 | deletes the secret's registry entry and nothing else; the gauge is unchanged |
| Prometheus.PrometheusHandler.GetKeys | prometheus.go:82-87 | returns the secret's list (empty if absent), which holds no duplicates; changes nothing |
| Prometheus.PrometheusHandler.RegisterKey | prometheus.go:90-104 | the linear search returns early on a known key, otherwise appends; the new registry is WithKey of the old and the gauge is unchanged |
| Entries.UnjoinJoin | controller.go:134-136 | splitting reason + "::" + key at the first "::" gives back reason and key when the reason holds no colon |
| Entries.ReasonsHaveNoColon | controller.go:36-40 | none of the three reasons holds a colon, so String can be read back for every entry the controller makes |
| Entries.QueueEntry.constructor | controller.go:30-33 | the entry carries the given key and reason |
| Entries.QueueEntry.String | controller.go:134-136 | the length is that of reason, separator and key, and the reason and key can be read back from it |
| Scanner.Saturate | scanner.go:73 | time.Until stays within the range of time.Duration, is exact inside it and keeps the sign |
| Scanner.PlainBuffer | scanner.go:61-63 | the buffer is DecodedLen(len(data)) long, starts with the decoded bytes and is zero after them |
| Scanner.ExpiryFromData | scanner.go:60-74 | exactly one of: the base64 error (iff decoding fails), the parse error (iff decoding succeeds and parsing the whole buffer fails), or NotAfter − now; never errIsNotCertificate |
| Scanner.ExpiredIsNegative | scanner.go:73 | for a parsed certificate the duration is negative exactly when NotAfter is before now: nothing clamps it |
| Scanner.DecodedCountDiscarded | scanner.go:61-68 | the decoded byte count is discarded: decodings that differ only by trailing zero bytes give the same result |
| Scanner.PaddedBuffer | scanner.go:61-68 | trailing zero bytes in the decoder's output leave the buffer the parser sees unchanged |
| Scanner.ScanPrelude | scanner.go:16-24 | scan fails exactly when the key split or the lister lookup fails, and otherwise finds the secret the lister returns for the split namespace and name |
| Scanner.ScanEntry | scanner.go:32-54 | one pass of the loop: on delete a RemoveCertExpiry; otherwise nothing when expiryFromData fails and a SetCertExpiry with the entry and its duration when it succeeds; the handler's log gains exactly these calls |
| Scanner.Scan | scanner.go:15-58 | returns an error exactly when the split or the lookup fails, and then makes no metric call; otherwise, on delete, one RemoveCertExpiry per data entry and no other call; on add or update, exactly one SetCertExpiry per entry whose expiryFromData succeeds, with its duration, and nothing removed; the handler's log gains exactly these calls, and the handler ends in ScanOutcome whatever the visiting order |
| Scanner.ScanFinished | scanner.go:26-57 | after every data entry is visited, the calls are ScanCalls and the state is ScanOutcome: removal when the secret has data (no change when it has none), otherwise the gauge extended by exactly the series of the entries whose expiryFromData succeeds |
| Scanner.VisitStart | scanner.go:26 | before the loop, no entry has been visited, no call made and nothing changed |
| Scanner.VisitStep | scanner.go:26-55 | one pass of the loop keeps the loop invariant Visited, whichever entry it takes |
| Scanner.DeleteVisited | scanner.go:33-38 | on delete each pass adds one RemoveCertExpiry and leaves the handler as one removal of the secret |
| Scanner.SkipVisited | scanner.go:41-51 | a failing entry is skipped: no call, the state unchanged, and the loop goes on |
| Scanner.SetVisited | scanner.go:53-54 | an entry whose expiryFromData succeeds adds its SetCertExpiry, and the gauge and keys grow by exactly that entry |
| Scanner.SetExtendsPublished | scanner.go:54 | SetCertExpiry for a new entry extends the secret's series and registered keys by that entry only |
| Controller.RoundProtocol | controller.go:103-127 | a round opens with Get and closes with a single Done for the item; Forget occurs once exactly for a queue entry whose scan succeeded, AddRateLimited once exactly for one whose scan failed, neither for an item of the wrong type |
| Controller.RoundsDone | controller.go:129-132 | the rounds over the delivered items call Done for each item once, in delivery order |
| Controller.RoundsGets | controller.go:129-132 | the rounds over the delivered items call Get once per item |
| Controller.WorkerDonesAll | controller.go:129-132 | a worker run marks every delivered item done in order and calls Get once more than there are items |
| Controller.WorkerStep | controller.go:129-132 | each pass of runWorker's loop adds one round for the next item, or the final Get once the queue is shut down |
| Controller.ScanCallsWellFormed | scanner.go:16-19 | when this entry's key splits into a namespace and a name that are single path segments, every metric call of its scan is well-formed (on path-segment parts), as the consistency results require |
| Controller.RoundsStep | controller.go:129-132 | one more round of runWorker extends the per-round record of metric states by the state its item's scan outcome leads to |
| Controller.RunStep | controller.go:129-132 | one pass of runWorker's loop, run against that round's environment, keeps the queue trace, the per-round metric states, the per-round metric calls, the replayed metric calls and their well-formedness in step |
| Controller.CallsStep | controller.go:129-132 | one more round's metric calls, those RoundMetricCalls gives its item under that round's environment, extend the per-round call lists and their join |
| Controller.SplitsStep | controller.go:129-132 | the metric calls of the rounds so far stay well-formed while every delivered key splits into path segments |
| Controller.Controller.constructor | controller.go:42-63 | newController keeps the metrics handler and starts with a queue on which no call has been made |
| Controller.Controller.Enqueue | controller.go:83-101 | nothing is added for an object that is not a Secret or whose key cannot be derived; otherwise exactly one Add of a newly allocated entry with that key and reason |
| Controller.Controller.OnAdd | controller.go:54 | the add handler enqueues with reason "add" |
| Controller.Controller.OnDelete | controller.go:55 | the delete handler enqueues with reason "delete" |
| Controller.Controller.OnUpdate | controller.go:56 | the update handler enqueues the new object with reason "update" |
| Controller.Controller.ProcessNextWorkItem | controller.go:103-127 | returns false exactly when Get reports quit, and then makes no other queue call and no metric call; otherwise makes RoundCalls for the item, with Done last, and applies the scan's outcome to the metrics; the handler's log gains exactly RoundMetricCalls: the scan's ScanCalls for a queue entry whose split and lookup succeed (one RemoveCertExpiry per data entry on delete, one SetCertExpiry per entry whose expiryFromData succeeds otherwise), and none when they fail or for an item of the wrong type; its metric calls are well-formed when the item's key splits into path segments |
| Controller.Controller.ScanAndReport | controller.go:118-126 | scans the entry, then calls AddRateLimited if the scan failed and Forget if it did not; the metrics take the scan's outcome and the handler's log gains exactly the scan's calls, which are RoundMetricCalls for the entry |
| Controller.Controller.RunWorker | controller.go:129-132 | processes every delivered item in order until Get reports quit, with the queue calls of WorkerCalls, round `i` seeing the lister and clock of `envs(i)`; the metric states before and after each round are returned and each round has its item's scan outcome under its own environment; the handler's log gains exactly the returned calls, which join one list per round, each RoundMetricCalls for its item under `envs(i)`; the metrics stay consistent when every delivered key splits into path segments |

## Left out

- The client-go work queue's internals (dedup, dirty and processing sets, rate limiter and backoff, blocking Get) are library code. The queue records the calls made on it. `Get` hands out a fixed sequence of items, so an item re-added by AddRateLimited is not delivered again within the model.
- `Run`, `wait.Until`, the worker goroutines, `WaitForCacheSync` and the stop channel (controller.go:65-81) are concurrency and cancellation. The model runs one worker sequentially.
- The `sync.RWMutex` of the handler is left out. The handler is modelled sequentially.
- The conversion to float64 hours at prometheus.go:68 and the internals of `GaugeVec` are left out. The gauge stores the integer duration in nanoseconds.
- The foreign calls are received as values of `Env`: `cache.MetaNamespaceKeyFunc`, `cache.SplitMetaNamespaceKey`, the secret lister, `base64.StdEncoding.Decode`, `x509.ParseCertificate` and the clock. `time.Until` reads one `now` per environment, so one scan uses a single `now` for all its data entries, while scanner.go:73 reads the clock afresh for each entry inside the loop; a worker run receives one environment per round.
- Prometheus.Join: `path.Join` is modelled as namespace + "/" + name. This agrees with Go for parts that are `IsPathSegment` (non-empty, neither `.` nor `..`, and slash-free), and the consistency results require such parts.
- `AddHandler`, the error path of `prometheus.Register`, the `metricsPrefix` parameter of `newPrometheusHandler`, all logging, `HandleError`/`HandleCrash` and main.go are left out. They are HTTP, bootstrap and process exit.
- Scanner.ScanEntry: scanner.go:36 passes the data entry as a third argument to `RemoveCertExpiry`, which prometheus.go:50 declares with two. The model calls the declared two-argument method.
- Scanner.Scan: the `errIsNotCertificate` branch and the logged-error branch are one skip in the model. `ExpiryFromData` is proved never to return that error, so the first branch cannot be taken.
- Controller.Controller.RunWorker: metric consistency is stated only when every delivered entry's key splits, under its round's environment, into a namespace and a name that are `IsPathSegment` (non-empty, neither `.` nor `..`, and slash-free; `KeySplitsSegments`). The `namespace/name` keys derived for namespaced Secrets meet this. A key without a slash, which splits into an empty namespace, does not, and for it the model's join differs from `path.Join`.
