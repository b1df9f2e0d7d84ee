/** One tick of the shard latency monitor (the first task spawned in `main`, src/main.rs):
    record every shard's latency, run the warn/recover hysteresis against the threshold
    `SHARD_PING_WARN_MIN`, then publish the whole map into the shared storage. */
module LatencyMonitor {
  import opened Results
  import opened Effects
  import SharedStorage

  type LatencyMap = map<ShardId, SharedStorage.Latency>

  /** A shard runner as the tick sees it: its id and its measured latency in nanoseconds, if any. */
  datatype Runner = Runner(id: ShardId, latency: Option<nat>)

  /** `runner.latency.unwrap_or(Duration::from_millis(0))`. */
  function Observed(runner: Runner): (ping: nat)
    ensures runner.latency.None? ==> ping == 0
    ensures runner.latency.Some? ==> ping == runner.latency.value
  {
    runner.latency.UnwrapOr(0)
  }

  /** The runner set is a map keyed by shard id: no id appears twice. */
  predicate DistinctIds(runners: seq<Runner>)
  {
    forall i, j :: 0 <= i < j < |runners| ==> runners[i].id != runners[j].id
  }

  function Ids(runners: seq<Runner>): set<ShardId>
  {
    set i | 0 <= i < |runners| :: runners[i].id
  }

  /** The per-shard hysteresis machine, states Normal (`!warned`) and Warned. */
  datatype Transition = RaiseWarning | ClearWarning | NoTransition

  function TransitionOf(warned: bool, millis: nat, warnMin: nat): (t: Transition)
    ensures t == RaiseWarning ==> !warned
    ensures t == ClearWarning ==> warned
    ensures millis == warnMin ==> t == NoTransition
    ensures t == RaiseWarning <==> !warned && millis > warnMin
    ensures t == ClearWarning <==> warned && millis < warnMin
  {
    if millis > warnMin && !warned then RaiseWarning
    else if warned && millis < warnMin then ClearWarning
    else NoTransition
  }

  /** The `warned` flag once a transition has been taken. */
  function WarnedAfter(warned: bool, t: Transition): bool
  {
    match t
    case RaiseWarning => true
    case ClearWarning => false
    case NoTransition => warned
  }

  /** The log line and presence change a transition of shard `id` emits. */
  function TransitionEffects(id: ShardId, millis: nat, t: Transition): seq<Effect>
  {
    match t
    case RaiseWarning => [Log(Warn, "ShardLatency", HighLatency(id, millis)), SetStatus(id, DoNotDisturb)]
    case ClearWarning => [Log(Info, "ShardLatency", LatencyNormal(id, millis)), SetStatus(id, Online)]
    case NoTransition => []
  }

  /** The `warned` flag a shard has before this tick: a shard seen for the first time starts Normal. */
  function PriorWarned(shards: LatencyMap, id: ShardId): bool
  {
    id in shards && shards[id].warned
  }

  /** The body of the `for` loop for one runner: upsert its entry, then take its transition. */
  function Step(shards: LatencyMap, runner: Runner, warnMin: nat): (LatencyMap, seq<Effect>)
  {
    var ping := Observed(runner);
    var millis := SharedStorage.Millis(ping);
    var t := TransitionOf(PriorWarned(shards, runner.id), millis, warnMin);
    (shards[runner.id := SharedStorage.Latency(ping, WarnedAfter(PriorWarned(shards, runner.id), t))],
     TransitionEffects(runner.id, millis, t))
  }

  /** The whole `for` loop, over the runners in iteration order. */
  function Tick(shards: LatencyMap, runners: seq<Runner>, warnMin: nat): (LatencyMap, seq<Effect>)
  {
    if runners == [] then (shards, [])
    else
      var (before, effects) := Tick(shards, runners[..|runners| - 1], warnMin);
      var (after, more) := Step(before, runners[|runners| - 1], warnMin);
      (after, effects + more)
  }

  /** One monitor tick as the source runs it: `shards` is the task-local map carried from tick to
      tick, `storage` the shared state; its `latency` is replaced by a copy of the map at the end. */
  method MonitorTick(shards0: LatencyMap, storage: SharedStorage.Storage, runners: seq<Runner>, warnMin: nat)
    returns (shards: LatencyMap, published: SharedStorage.Storage, effects: seq<Effect>)
    ensures (shards, effects) == Tick(shards0, runners, warnMin)
    ensures published == storage.(latency := shards)
  {
    shards, effects := shards0, [];
    for i := 0 to |runners|
      invariant (shards, effects) == Tick(shards0, runners[..i], warnMin)
    {
      var runner := runners[i];
      ghost var prev, prevEffects := shards, effects;
      var ping := runner.latency.UnwrapOr(0);
      if runner.id in shards {
        shards := shards[runner.id := shards[runner.id].(ping := ping)];
      } else {
        shards := shards[runner.id := SharedStorage.Latency(ping, false)];
      }
      var millis := SharedStorage.Millis(ping);
      var entry := shards[runner.id];
      assert ping == Observed(runner);
      assert entry == SharedStorage.Latency(ping, PriorWarned(prev, runner.id));
      assert shards == prev[runner.id := entry];
      if millis > warnMin && !entry.warned {
        effects := effects + [Log(Warn, "ShardLatency", HighLatency(runner.id, millis))];
        shards := shards[runner.id := entry.(warned := true)];
        effects := effects + [SetStatus(runner.id, DoNotDisturb)];
        assert effects == prevEffects + TransitionEffects(runner.id, millis, RaiseWarning);
      } else if entry.warned && millis < warnMin {
        effects := effects + [Log(Info, "ShardLatency", LatencyNormal(runner.id, millis))];
        shards := shards[runner.id := entry.(warned := false)];
        effects := effects + [SetStatus(runner.id, Online)];
        assert effects == prevEffects + TransitionEffects(runner.id, millis, ClearWarning);
      }
      assert effects == prevEffects + Step(prev, runner, warnMin).1;
      assert shards == Step(prev, runner, warnMin).0;
      assert (shards, effects) == (Step(prev, runner, warnMin).0, prevEffects + Step(prev, runner, warnMin).1);
      assert runners[..i + 1][..i] == runners[..i];
    }
    assert runners[..|runners|] == runners;
    published := storage.(latency := shards);
  }

  /** What a tick leaves in the map for shard `k`: every observed shard holds its observed ping and
      the flag its transition gives, computed from its entry before the tick; a shard the tick did
      not observe keeps its entry, and nothing is removed. */
  lemma {:induction false} TickEntry(shards: LatencyMap, runners: seq<Runner>, warnMin: nat, k: ShardId)
    requires DistinctIds(runners)
    ensures k in Tick(shards, runners, warnMin).0 <==> k in shards || k in Ids(runners)
    ensures k !in Ids(runners) && k in shards ==> Tick(shards, runners, warnMin).0[k] == shards[k]
    ensures forall i :: 0 <= i < |runners| && runners[i].id == k ==>
              var ping := Observed(runners[i]);
              var millis := SharedStorage.Millis(ping);
              Tick(shards, runners, warnMin).0[k] ==
                SharedStorage.Latency(ping, WarnedAfter(PriorWarned(shards, k), TransitionOf(PriorWarned(shards, k), millis, warnMin)))
  {
    if runners != [] {
      var n := |runners| - 1;
      var init, last := runners[..n], runners[n];
      assert DistinctIds(init);
      TickEntry(shards, init, warnMin, k);
      assert Ids(runners) == Ids(init) + {last.id} by {
        forall x | x in Ids(runners) ensures x in Ids(init) + {last.id} {
          var i :| 0 <= i < |runners| && runners[i].id == x;
          if i < n { assert init[i].id == x; }
        }
      }
      if last.id == k {
        assert k !in Ids(init);
      }
      forall i | 0 <= i < |runners| && runners[i].id == k && i < n
        ensures last.id != k
      {
        assert init[i].id == k;
      }
    }
  }

  /** The same effects computed independently: each observed shard's transition effects, in
      iteration order, each decided from that shard's entry before the tick. */
  function ReferenceEffects(shards: LatencyMap, runners: seq<Runner>, warnMin: nat): seq<Effect>
  {
    if runners == [] then []
    else
      var last := runners[|runners| - 1];
      var millis := SharedStorage.Millis(Observed(last));
      ReferenceEffects(shards, runners[..|runners| - 1], warnMin)
        + TransitionEffects(last.id, millis, TransitionOf(PriorWarned(shards, last.id), millis, warnMin))
  }

  /** Shards do not interfere: the effects of a tick are each shard's own transition effects. */
  lemma {:induction false} TickEffectsPerShard(shards: LatencyMap, runners: seq<Runner>, warnMin: nat)
    requires DistinctIds(runners)
    ensures Tick(shards, runners, warnMin).1 == ReferenceEffects(shards, runners, warnMin)
  {
    if runners != [] {
      var n := |runners| - 1;
      var init, last := runners[..n], runners[n];
      assert DistinctIds(init);
      TickEffectsPerShard(shards, init, warnMin);
      TickEntry(shards, init, warnMin, last.id);
      assert last.id !in Ids(init);
      var before := Tick(shards, init, warnMin).0;
      assert PriorWarned(before, last.id) == PriorWarned(shards, last.id);
    }
  }

  /** The machine run over one shard's successive samples (durations in nanoseconds). */
  function Run(warned: bool, samples: seq<nat>, warnMin: nat): seq<Transition>
    decreases samples
  {
    if samples == [] then []
    else
      var t := TransitionOf(warned, SharedStorage.Millis(samples[0]), warnMin);
      [t] + Run(WarnedAfter(warned, t), samples[1..], warnMin)
  }

  function FinalWarned(warned: bool, samples: seq<nat>, warnMin: nat): bool
    decreases samples
  {
    if samples == [] then warned
    else
      var t := TransitionOf(warned, SharedStorage.Millis(samples[0]), warnMin);
      FinalWarned(WarnedAfter(warned, t), samples[1..], warnMin)
  }

  function Count(ts: seq<Transition>, t: Transition): nat
  {
    if ts == [] then 0 else (if ts[0] == t then 1 else 0) + Count(ts[1..], t)
  }

  /** Warnings and recoveries balance: starting Normal, the warnings raised outnumber the
      recoveries by one exactly when the shard ends Warned, and are equal otherwise. So a shard
      that stays above the threshold is warned about once. */
  lemma {:induction false} WarningsBalance(warned: bool, samples: seq<nat>, warnMin: nat)
    ensures var ts := Run(warned, samples, warnMin);
            Count(ts, RaiseWarning) + (if warned then 1 else 0)
              == Count(ts, ClearWarning) + (if FinalWarned(warned, samples, warnMin) then 1 else 0)
    decreases samples
  {
    if samples != [] {
      var t := TransitionOf(warned, SharedStorage.Millis(samples[0]), warnMin);
      WarningsBalance(WarnedAfter(warned, t), samples[1..], warnMin);
      var ts := Run(warned, samples, warnMin);
      assert ts[1..] == Run(WarnedAfter(warned, t), samples[1..], warnMin);
    }
  }

  /** The transitions of the first `k` samples are the first `k` transitions of the whole run,
      so the balance above holds after every sample, not only at the end. */
  lemma {:induction false} RunPrefix(warned: bool, samples: seq<nat>, k: nat, warnMin: nat)
    requires k <= |samples|
    ensures |Run(warned, samples, warnMin)| == |samples|
    ensures Run(warned, samples[..k], warnMin) == Run(warned, samples, warnMin)[..k]
    decreases samples
  {
    if samples != [] {
      var t := TransitionOf(warned, SharedStorage.Millis(samples[0]), warnMin);
      var rest := Run(WarnedAfter(warned, t), samples[1..], warnMin);
      RunPrefix(WarnedAfter(warned, t), samples[1..], if k == 0 then 0 else k - 1, warnMin);
      if k > 0 {
        assert samples[..k][0] == samples[0];
        assert samples[..k][1..] == samples[1..][..k - 1];
        assert ([t] + rest)[..k] == [t] + rest[..k - 1];
      } else {
        assert samples[..0] == [];
      }
    }
  }

  /** Samples of 5 ms, 500 ms, 500 ms and 5 ms against a 200 ms threshold: one warning at the second
      sample, one recovery at the fourth, nothing at the third. */
  lemma WarnOnceScenario()
    ensures Run(false, [5_000_000, 500_000_000, 500_000_000, 5_000_000], 200)
              == [NoTransition, RaiseWarning, NoTransition, ClearWarning]
  {
    var s := [5_000_000, 500_000_000, 500_000_000, 5_000_000];
    assert s[1..] == [500_000_000, 500_000_000, 5_000_000];
    assert s[1..][1..] == [500_000_000, 5_000_000];
    assert s[1..][1..][1..] == [5_000_000];
    assert s[1..][1..][1..][1..] == [];
    assert Run(false, [5_000_000], 200) == [NoTransition];
    assert Run(true, [5_000_000], 200) == [ClearWarning];
    assert Run(true, [500_000_000, 5_000_000], 200) == [NoTransition, ClearWarning];
    assert Run(false, [500_000_000, 500_000_000, 5_000_000], 200) == [RaiseWarning, NoTransition, ClearWarning];
  }

  /** A shard seen for the first time with a latency above the threshold is warned about in that
      same tick. */
  lemma FirstSampleAboveThresholdWarns(shards: LatencyMap, runner: Runner, warnMin: nat)
    requires runner.id !in shards
    requires SharedStorage.Millis(Observed(runner)) > warnMin
    ensures Tick(shards, [runner], warnMin).1 ==
              [Log(Warn, "ShardLatency", HighLatency(runner.id, SharedStorage.Millis(Observed(runner)))),
               SetStatus(runner.id, DoNotDisturb)]
    ensures Tick(shards, [runner], warnMin).0[runner.id].warned
  {
    assert [runner][..0] == [];
  }
}
