/// The controller of controller.go: the informer event handlers that enqueue
/// secrets for a scan, and the worker that takes entries off the queue, scans
/// them and reports the outcome back to the queue.
module Controller {
  import opened Externals
  import opened Prometheus
  import opened Entries
  import opened WorkQueue
  import opened Scanner

  /** The key splitter hands out a namespace and a name that are single path
      segments for `key`: true of the `namespace/name` keys MetaNamespaceKeyFunc
      derives for namespaced Secrets, but not of every string (a key without a
      slash splits into an empty namespace). */
  ghost predicate KeySplitsSegments(env: Env, key: string)
  {
    env.split(key).Some? ==>
      IsPathSegment(env.split(key).value.0) && IsPathSegment(env.split(key).value.1)
  }

  /** A queue entry whose key splits into path segments; other items have no key. */
  ghost predicate ItemSplitsSegments(item: Item, env: Env)
  {
    item.Entry? ==> KeySplitsSegments(env, item.entry.key)
  }

  /** Every item splits into path segments under the environment of its round. */
  ghost predicate AllSplitSegments(items: seq<Item>, envs: nat -> Env)
  {
    forall i :: 0 <= i < |items| ==> ItemSplitsSegments(items[i], envs(i))
  }

  /** The queue calls one pass of processNextWorkItem makes after a Get that
      returned `item`: Forget after a successful scan, AddRateLimited after a
      failed one, nothing for an item that is not a queue entry, and the
      deferred Done last. */
  function RoundCalls(item: Item, env: Env): seq<QueueCall>
  {
    [GetCall] + Verdict(item, env) + [DoneCall(item)]
  }

  /** The queue call that reports how the scan of `item` went, if it was scanned. */
  function Verdict(item: Item, env: Env): seq<QueueCall>
  {
    match item
    case Entry(qe) =>
      if ScanPrelude(qe.key, env).Failure? then [AddRateLimitedCall(item)] else [ForgetCall(item)]
    case _ => []
  }

  /** The worker protocol for one item: it opens with the Get, closes with exactly
      one Done for that item, and in between forgets the item exactly when its
      scan succeeded and rate-limits it exactly when its scan failed; an item of
      the wrong type is neither forgotten nor rate-limited. */
  lemma RoundProtocol(item: Item, env: Env)
    ensures var r := RoundCalls(item, env);
      && r[0] == GetCall && r[|r| - 1] == DoneCall(item)
      && Count(r, GetCall) == 1
      && Count(r, DoneCall(item)) == 1
      && Count(r, ForgetCall(item))
         == (if item.Entry? && ScanPrelude(item.entry.key, env).Success? then 1 else 0)
      && Count(r, AddRateLimitedCall(item))
         == (if item.Entry? && ScanPrelude(item.entry.key, env).Failure? then 1 else 0)
  {
    var verdict := Verdict(item, env);
    forall call
      ensures Count(RoundCalls(item, env), call)
           == Count([GetCall], call) + Count(verdict, call) + Count([DoneCall(item)], call)
    {
      CountAppend([GetCall] + verdict, [DoneCall(item)], call);
      CountAppend([GetCall], verdict, call);
    }
    assert Count([GetCall], GetCall) == 1 by {
      assert [GetCall][..0] == [];
    }
    assert Count([DoneCall(item)], DoneCall(item)) == 1 by {
      assert [DoneCall(item)][..0] == [];
    }
    if item.Entry? {
      assert verdict[..0] == [];
    }
  }

  /** The queue calls of the worker's rounds over `items`, one round per item;
      round `i` sees the lister and the clock of `envs(i)`. */
  function Rounds(items: seq<Item>, envs: nat -> Env): seq<QueueCall>
  {
    if items == [] then []
    else Rounds(items[..|items| - 1], envs) + RoundCalls(items[|items| - 1], envs(|items| - 1))
  }

  /** runWorker over a queue that delivers `items` and then shuts down: a round
      per item and the final Get that reports the shutdown. */
  function WorkerCalls(items: seq<Item>, envs: nat -> Env): seq<QueueCall>
  {
    Rounds(items, envs) + [GetCall]
  }

  /** The worker calls Done once for every item it got, in delivery order. */
  function DoneItems(trace: seq<QueueCall>): seq<Item>
  {
    if trace == [] then []
    else DoneItems(trace[..|trace| - 1]) + (if trace[|trace| - 1].DoneCall? then [trace[|trace| - 1].item] else [])
  }

  lemma {:induction false} DoneItemsAppend(a: seq<QueueCall>, b: seq<QueueCall>)
    ensures DoneItems(a + b) == DoneItems(a) + DoneItems(b)
    decreases |b|
  {
    if b == [] {
      assert a + b == a;
    } else {
      assert (a + b)[..|a + b| - 1] == a + b[..|b| - 1];
      DoneItemsAppend(a, b[..|b| - 1]);
    }
  }

  /** One round: one Get, and one Done, for the item got. */
  lemma RoundDone(item: Item, env: Env)
    ensures DoneItems(RoundCalls(item, env)) == [item]
    ensures Count(RoundCalls(item, env), GetCall) == 1
  {
    var verdict := Verdict(item, env);
    assert forall i :: 0 <= i < |verdict| ==> !verdict[i].DoneCall?;
    NoDoneItems(verdict);
    DoneItemsAppend([GetCall] + verdict, [DoneCall(item)]);
    DoneItemsAppend([GetCall], verdict);
    assert [GetCall][..0] == [] && [DoneCall(item)][..0] == [];
    RoundProtocol(item, env);
  }

  /** The rounds over `items` mark each item done, in delivery order. */
  lemma {:induction false} RoundsDone(items: seq<Item>, envs: nat -> Env)
    ensures DoneItems(Rounds(items, envs)) == items
    decreases |items|
  {
    if items != [] {
      var init, last, env := items[..|items| - 1], items[|items| - 1], envs(|items| - 1);
      var before, round := Rounds(init, envs), RoundCalls(last, env);
      calc {
        DoneItems(Rounds(items, envs));
        DoneItems(before + round);
        { DoneItemsAppend(before, round); }
        DoneItems(before) + DoneItems(round);
        { RoundsDone(init, envs); RoundDone(last, env); }
        init + [last];
      }
    }
  }

  /** The rounds over `items` call Get once per item. */
  lemma {:induction false} RoundsGets(items: seq<Item>, envs: nat -> Env)
    ensures Count(Rounds(items, envs), GetCall) == |items|
    decreases |items|
  {
    if items != [] {
      var init, last, env := items[..|items| - 1], items[|items| - 1], envs(|items| - 1);
      var before, round := Rounds(init, envs), RoundCalls(last, env);
      RoundsGets(init, envs);
      RoundDone(last, env);
      CountAppend(before, round, GetCall);
    }
  }

  /** A worker over `items` gets every item and marks each done, in delivery
      order, and calls Get once more than there are items. */
  lemma WorkerDonesAll(items: seq<Item>, envs: nat -> Env)
    ensures DoneItems(WorkerCalls(items, envs)) == items
    ensures Count(WorkerCalls(items, envs), GetCall) == |items| + 1
  {
    RoundsDone(items, envs);
    RoundsGets(items, envs);
    DoneItemsAppend(Rounds(items, envs), [GetCall]);
    CountAppend(Rounds(items, envs), [GetCall], GetCall);
    assert [GetCall][..0] == [];
  }

  /** The queue as runWorker leaves it after `n` rounds over `items`: still
      running (`more`), or past the Get that reported shutdown. */
  ghost predicate WorkerAt(items: seq<Item>, n: nat, more: bool, t0: seq<QueueCall>, envs: nat -> Env,
                           trace: seq<QueueCall>, deliveries: seq<Item>)
  {
    && n <= |items|
    && (more ==> deliveries == items[n..] && trace == t0 + Rounds(items[..n], envs))
    && (!more ==> n == |items| && deliveries == [] && trace == t0 + WorkerCalls(items, envs))
  }

  /** A solver hint, not a property of the model: it restates the associativity
      of sequence concatenation for the queue trace. */
  lemma ConcatAssociative(a: seq<QueueCall>, b: seq<QueueCall>, c: seq<QueueCall>)
    ensures (a + b) + c == a + (b + c)
  {
  }

  lemma RoundTrace(trace: seq<QueueCall>, item: Item, env: Env)
    ensures trace + [GetCall] + Verdict(item, env) + [DoneCall(item)] == trace + RoundCalls(item, env)
  {
    var verdict := Verdict(item, env);
    ConcatAssociative(trace, [GetCall], verdict);
    ConcatAssociative(trace, [GetCall] + verdict, [DoneCall(item)]);
  }

  /** The rounds over one more item of `items`. */
  lemma RoundsSnoc(items: seq<Item>, n: nat, envs: nat -> Env)
    requires n < |items|
    ensures Rounds(items[..n + 1], envs) == Rounds(items[..n], envs) + RoundCalls(items[n], envs(n))
  {
    assert items[..n + 1][..n] == items[..n];
  }

  /** One more pass of processNextWorkItem: a round for the next item, or the
      final Get once the items are used up. */
  lemma WorkerStep(items: seq<Item>, n: nat, t0: seq<QueueCall>, envs: nat -> Env,
                   trace: seq<QueueCall>, deliveries: seq<Item>,
                   more: bool, n': nat, trace': seq<QueueCall>, deliveries': seq<Item>)
    requires WorkerAt(items, n, true, t0, envs, trace, deliveries)
    requires more <==> deliveries != []
    requires n' == if more then n + 1 else n
    requires !more ==> trace' == trace + [GetCall] && deliveries' == deliveries
    requires more ==> trace' == trace + RoundCalls(deliveries[0], envs(n)) && deliveries' == deliveries[1..]
    ensures WorkerAt(items, n', more, t0, envs, trace', deliveries')
  {
    if more {
      var done, round := Rounds(items[..n], envs), RoundCalls(items[n], envs(n));
      RoundsSnoc(items, n, envs);
      assert deliveries[0] == items[n] && deliveries[1..] == items[n + 1..];
      ConcatAssociative(t0, done, round);
    } else {
      assert items[..n] == items;
      ConcatAssociative(t0, Rounds(items, envs), [GetCall]);
    }
  }

  lemma {:induction false} NoDoneItems(trace: seq<QueueCall>)
    requires forall i :: 0 <= i < |trace| ==> !trace[i].DoneCall?
    ensures DoneItems(trace) == []
    decreases |trace|
  {
    if trace != [] {
      NoDoneItems(trace[..|trace| - 1]);
    }
  }

  /** The metrics before the first of `n` rounds over `items` and after each
      of them: every round has its item's outcome. */
  ghost predicate RoundsAt(items: seq<Item>, n: nat, envs: nat -> Env, s0: MetricsState, states: seq<MetricsState>)
  {
    && n <= |items|
    && |states| == n + 1
    && states[0] == s0
    && forall i :: 0 <= i < n ==> RoundOutcome(items[i], envs(i), states[i], states[i + 1])
  }

  lemma RoundsStep(items: seq<Item>, n: nat, envs: nat -> Env, s0: MetricsState, states: seq<MetricsState>,
                   s: MetricsState)
    requires RoundsAt(items, n, envs, s0, states) && n < |items|
    requires RoundOutcome(items[n], envs(n), states[n], s)
    ensures RoundsAt(items, n + 1, envs, s0, states + [s])
  {
    var states' := states + [s];
    forall i | 0 <= i < n + 1
      ensures RoundOutcome(items[i], envs(i), states'[i], states'[i + 1])
    {
      assert states'[i] == states[i];
      if i < n {
        assert states'[i + 1] == states[i + 1];
      }
    }
  }

  /** The calls of one more round keep the calls well-formed when the keys so far split into segments. */
  lemma SplitsStep(items: seq<Item>, n: nat, envs: nat -> Env, calls: seq<MetricCall>, made: seq<MetricCall>)
    requires n < |items|
    requires AllSplitSegments(items[..n], envs) ==> WellFormedCalls(calls)
    requires ItemSplitsSegments(items[n], envs(n)) ==> WellFormedCalls(made)
    ensures AllSplitSegments(items[..n + 1], envs) ==> WellFormedCalls(calls + made)
  {
    if AllSplitSegments(items[..n + 1], envs) {
      assert items[..n + 1][n] == items[n];
      assert AllSplitSegments(items[..n], envs) by {
        forall i | 0 <= i < n
          ensures ItemSplitsSegments(items[..n][i], envs(i))
        {
          assert items[..n][i] == items[..n + 1][i];
        }
      }
      WellFormedAppend(calls, made);
    }
  }

  /** runWorker's state after `n` rounds over `items`: the queue as WorkerAt
      says, the metric states of the rounds so far, and the metric calls made,
      which are well-formed while the delivered keys split into path segments. */
  ghost predicate RunAt(items: seq<Item>, n: nat, more: bool, t0: seq<QueueCall>, envs: nat -> Env,
                        s0: MetricsState, states: seq<MetricsState>,
                        rounds: seq<seq<MetricCall>>, calls: seq<MetricCall>,
                        trace: seq<QueueCall>, deliveries: seq<Item>, s: MetricsState)
  {
    && WorkerAt(items, n, more, t0, envs, trace, deliveries)
    && CallsAt(items, n, envs, rounds, calls)
    && RoundsAt(items, n, envs, s0, states) && states[n] == s
    && s == Replay(s0, calls)
    && (AllSplitSegments(items[..n], envs) ==> WellFormedCalls(calls))
  }

  /** One pass of runWorker's loop, with processNextWorkItem run against
      `envs(n)`: a round for the next item, or the final Get. */
  lemma RunStep(items: seq<Item>, n: nat, t0: seq<QueueCall>, envs: nat -> Env,
                s0: MetricsState, states: seq<MetricsState>,
                rounds: seq<seq<MetricCall>>, calls: seq<MetricCall>,
                trace: seq<QueueCall>, deliveries: seq<Item>, s: MetricsState,
                more: bool, made: seq<MetricCall>,
                trace': seq<QueueCall>, deliveries': seq<Item>, s': MetricsState)
    requires RunAt(items, n, true, t0, envs, s0, states, rounds, calls, trace, deliveries, s)
    requires more <==> deliveries != []
    requires !more ==> trace' == trace + [GetCall] && deliveries' == deliveries && made == []
    requires more ==> && trace' == trace + RoundCalls(deliveries[0], envs(n))
                      && deliveries' == deliveries[1..]
                      && RoundOutcome(deliveries[0], envs(n), s, s')
                      && RoundMetricCalls(deliveries[0], envs(n), made)
                      && (ItemSplitsSegments(deliveries[0], envs(n)) ==> WellFormedCalls(made))
    requires s' == Replay(s, made)
    ensures RunAt(items, if more then n + 1 else n, more, t0, envs, s0,
                  if more then states + [s'] else states,
                  if more then rounds + [made] else rounds, calls + made, trace', deliveries', s')
  {
    var n' := if more then n + 1 else n;
    WorkerStep(items, n, t0, envs, trace, deliveries, more, n', trace', deliveries');
    ReplayConcat(s0, calls, made);
    if more {
      assert deliveries[0] == items[n];
      RoundsStep(items, n, envs, s0, states, s');
      SplitsStep(items, n, envs, calls, made);
      CallsStep(items, n, envs, rounds, calls, made);
    } else {
      assert calls + made == calls;
    }
  }

  /** What one pass of processNextWorkItem does to the metrics: a queue entry
      is scanned, any other item leaves them alone. */
  ghost predicate RoundOutcome(item: Item, env: Env, before: MetricsState, after: MetricsState)
  {
    match item
    case Entry(qe) => ScanOutcome(qe.key, qe.reason, env, before, after)
    case _ => after == before
  }

  /** The metric calls one pass of processNextWorkItem makes for `item`: those of
      the scan for a queue entry (none when the split or the lookup fails), and
      none for an item of the wrong type, which is not scanned. */
  ghost predicate RoundMetricCalls(item: Item, env: Env, calls: seq<MetricCall>)
  {
    match item
    case Entry(qe) =>
      if ScanPrelude(qe.key, env).Failure? then calls == []
      else ScanCalls(qe.reason, ScanPrelude(qe.key, env).value, env, calls)
    case _ => calls == []
  }

  /** The metric calls of the rounds, one list per round, joined in order. */
  ghost function Flatten(rounds: seq<seq<MetricCall>>): seq<MetricCall>
  {
    if rounds == [] then [] else Flatten(rounds[..|rounds| - 1]) + rounds[|rounds| - 1]
  }

  /** The metric calls of runWorker after `n` rounds over `items`: one list per
      round, each that round's calls under its environment, joined into `calls`. */
  ghost predicate CallsAt(items: seq<Item>, n: nat, envs: nat -> Env,
                          rounds: seq<seq<MetricCall>>, calls: seq<MetricCall>)
  {
    && n <= |items|
    && |rounds| == n
    && Flatten(rounds) == calls
    && forall i :: 0 <= i < n ==> RoundMetricCalls(items[i], envs(i), rounds[i])
  }

  /** One more round's metric calls extend the per-round lists and their join. */
  lemma CallsStep(items: seq<Item>, n: nat, envs: nat -> Env,
                  rounds: seq<seq<MetricCall>>, calls: seq<MetricCall>, made: seq<MetricCall>)
    requires CallsAt(items, n, envs, rounds, calls) && n < |items|
    requires RoundMetricCalls(items[n], envs(n), made)
    ensures CallsAt(items, n + 1, envs, rounds + [made], calls + made)
  {
    var rounds' := rounds + [made];
    assert rounds'[..n] == rounds;
    forall i | 0 <= i < n + 1
      ensures RoundMetricCalls(items[i], envs(i), rounds'[i])
    {
      if i < n {
        assert rounds'[i] == rounds[i];
      }
    }
  }

  /** A metric call whose secret came from the key splitter. */
  lemma ScanCallsWellFormed(reason: string, t: Target, env: Env, calls: seq<MetricCall>, key: string)
    requires KeySplitsSegments(env, key) && ScanPrelude(key, env) == Success(t)
    requires ScanCalls(reason, t, env, calls)
    ensures WellFormedCalls(calls)
  {
    forall i | 0 <= i < |calls|
      ensures WellFormedCall(calls[i])
    {
      assert calls[i].namespace == t.namespace && calls[i].name == t.name;
    }
  }

  class Controller {
    const metricsHandler: PrometheusHandler
    const queue: Queue

    /** newController, with the queue `NewNamedRateLimitingQueue` creates
        represented by the items its Get calls will deliver. */
    constructor (metricsHandler: PrometheusHandler, deliveries: seq<Item>)
      ensures this.metricsHandler == metricsHandler
      ensures fresh(queue) && queue.trace == [] && queue.deliveries == deliveries
    {
      this.metricsHandler := metricsHandler;
      queue := new Queue(deliveries);
    }

    /** enqueue's effect on the queue: nothing for an object that is not a Secret
        or whose key cannot be derived, otherwise exactly one Add of a new entry
        carrying the key and the reason. */
    twostate predicate Enqueued(obj: Object, reason: string, env: Env)
      reads queue
    {
      && queue.deliveries == old(queue.deliveries)
      && if obj.SecretObject? && env.keyOf(obj.secret).Some? then
           && |queue.trace| == |old(queue.trace)| + 1
           && queue.trace[..|old(queue.trace)|] == old(queue.trace)
           && var added := queue.trace[|old(queue.trace)|];
              && added.AddCall? && added.item.Entry?
              && fresh(added.item.entry)
              && added.item.entry.key == env.keyOf(obj.secret).value
              && added.item.entry.reason == reason
         else
           queue.trace == old(queue.trace)
    }

    method Enqueue(obj: Object, reason: string, env: Env)
      modifies queue
      ensures Enqueued(obj, reason, env)
    {
      if !obj.SecretObject? {
        return;
      }
      var key := env.keyOf(obj.secret);
      if key.None? {
        return;
      }
      var qe := new QueueEntry(key.value, reason);
      queue.Add(Entry(qe));
    }

    /** The AddFunc handler. */
    method OnAdd(obj: Object, env: Env)
      modifies queue
      ensures Enqueued(obj, ReasonAdd, env)
    {
      Enqueue(obj, ReasonAdd, env);
    }

    /** The DeleteFunc handler. */
    method OnDelete(obj: Object, env: Env)
      modifies queue
      ensures Enqueued(obj, ReasonDelete, env)
    {
      Enqueue(obj, ReasonDelete, env);
    }

    /** The UpdateFunc handler: the new object is enqueued, the old one ignored. */
    method OnUpdate(oldObj: Object, newObj: Object, env: Env)
      modifies queue
      ensures Enqueued(newObj, ReasonUpdate, env)
    {
      Enqueue(newObj, ReasonUpdate, env);
    }

    /** processNextWorkItem: false exactly when Get reports shutdown, and then no
        other queue call and no metric call; otherwise the calls of RoundCalls,
        the metric calls of RoundMetricCalls, as the handler's log records them,
        and the scan's effect on the metrics, which `calls` replays. */
    method ProcessNextWorkItem(env: Env) returns (more: bool, ghost calls: seq<MetricCall>)
      requires metricsHandler.Valid()
      modifies queue, metricsHandler
      ensures metricsHandler.Valid()
      ensures more <==> old(queue.deliveries) != []
      ensures !more ==> && queue.trace == old(queue.trace) + [GetCall]
                        && queue.deliveries == old(queue.deliveries)
                        && calls == []
      ensures more ==> && queue.trace == old(queue.trace) + RoundCalls(old(queue.deliveries)[0], env)
                       && queue.deliveries == old(queue.deliveries)[1..]
                       && RoundOutcome(old(queue.deliveries)[0], env, old(metricsHandler.State()),
                                       metricsHandler.State())
                       && RoundMetricCalls(old(queue.deliveries)[0], env, calls)
      ensures metricsHandler.log == old(metricsHandler.log) + calls
      ensures metricsHandler.State() == Replay(old(metricsHandler.State()), calls)
      ensures more && ItemSplitsSegments(old(queue.deliveries)[0], env) ==> WellFormedCalls(calls)
    {
      var item, quit := queue.Get();
      if quit {
        return false, [];
      }
      more, calls := true, [];
      if item.Entry? {
        calls := ScanAndReport(item, env);
      } else {
        assert Verdict(item, env) == [];
        assert queue.trace == old(queue.trace) + [GetCall] + Verdict(item, env);
      }
      // The deferred Done.
      queue.Done(item);
      RoundTrace(old(queue.trace), item, env);
    }

    /** The part of processNextWorkItem after the type assertion succeeded: scan
        the entry, then rate-limit it if the scan failed or forget it if it did not. */
    method ScanAndReport(item: Item, env: Env) returns (ghost calls: seq<MetricCall>)
      requires item.Entry? && metricsHandler.Valid()
      modifies queue, metricsHandler
      ensures metricsHandler.Valid()
      ensures queue.trace == old(queue.trace) + Verdict(item, env)
      ensures queue.deliveries == old(queue.deliveries)
      ensures RoundOutcome(item, env, old(metricsHandler.State()), metricsHandler.State())
      ensures RoundMetricCalls(item, env, calls)
      ensures metricsHandler.log == old(metricsHandler.log) + calls
      ensures metricsHandler.State() == Replay(old(metricsHandler.State()), calls)
      ensures KeySplitsSegments(env, item.entry.key) ==> WellFormedCalls(calls)
    {
      var err;
      err, calls := Scan(metricsHandler, item.entry, env);
      if err.Some? {
        queue.AddRateLimited(item);
      } else {
        queue.Forget(item);
      }
      if KeySplitsSegments(env, item.entry.key) && err.None? {
        ScanCallsWellFormed(item.entry.reason, ScanPrelude(item.entry.key, env).value, env, calls, item.entry.key);
      }
    }

    /** runWorker: process items until Get reports shutdown. Every item the queue
        delivers gets its round, in order, and round `i` runs against `envs(i)`:
        the informer may change the lister's contents, and the clock moves on,
        between rounds. `states` are the metrics before the first round and after
        each one, and each round has its scan's outcome. `rounds` are the metric
        calls of each round, which the handler's log records in order; those of
        all the scans keep the metrics consistent with the key registry when every
        delivered key splits into path segments. */
    method RunWorker(envs: nat -> Env)
      returns (ghost states: seq<MetricsState>, ghost rounds: seq<seq<MetricCall>>, ghost calls: seq<MetricCall>)
      requires metricsHandler.Valid()
      modifies queue, metricsHandler
      ensures metricsHandler.Valid()
      ensures queue.deliveries == []
      ensures queue.trace == old(queue.trace) + WorkerCalls(old(queue.deliveries), envs)
      ensures |states| == |old(queue.deliveries)| + 1
      ensures states[0] == old(metricsHandler.State()) && states[|states| - 1] == metricsHandler.State()
      ensures forall i :: 0 <= i < |old(queue.deliveries)| ==>
                RoundOutcome(old(queue.deliveries)[i], envs(i), states[i], states[i + 1])
      ensures |rounds| == |old(queue.deliveries)| && Flatten(rounds) == calls
      ensures forall i :: 0 <= i < |old(queue.deliveries)| ==>
                RoundMetricCalls(old(queue.deliveries)[i], envs(i), rounds[i])
      ensures metricsHandler.log == old(metricsHandler.log) + calls
      ensures metricsHandler.State() == Replay(old(metricsHandler.State()), calls)
      ensures AllSplitSegments(old(queue.deliveries), envs) && Consistent(old(metricsHandler.State()))
              ==> Consistent(metricsHandler.State())
    {
      ghost var items := queue.deliveries;
      ghost var t0 := queue.trace;
      ghost var s0, log0 := metricsHandler.State(), metricsHandler.log;
      var n: nat := 0;
      states, rounds, calls := [s0], [], [];
      var more := true;
      assert items[..0] == [];
      while more
        invariant metricsHandler.Valid() && metricsHandler.log == log0 + calls
        invariant RunAt(items, n, more, t0, envs, s0, states, rounds, calls,
                        queue.trace, queue.deliveries, metricsHandler.State())
        decreases |queue.deliveries| + (if more then 1 else 0)
      {
        ghost var trace, deliveries, s := queue.trace, queue.deliveries, metricsHandler.State();
        ghost var made;
        more, made := ProcessNextWorkItem(envs(n));
        RunStep(items, n, t0, envs, s0, states, rounds, calls, trace, deliveries, s,
                more, made, queue.trace, queue.deliveries, metricsHandler.State());
        if more {
          states, rounds := states + [metricsHandler.State()], rounds + [made];
          n := n + 1;
        }
        LogAppend(log0, calls, made);
        calls := calls + made;
      }
      if AllSplitSegments(items, envs) && Consistent(s0) {
        assert items[..n] == items;
        ReplayConsistent(s0, calls);
      }
    }
  }
}
