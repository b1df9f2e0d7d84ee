/** One tick of the status rotator (the last task spawned in `main`, src/main.rs): advance the
    task-local index, pick the status to show, and set it as the activity of every shard. */
module StatusRotator {
  import opened Results
  import opened Effects
  import S = SharedStorage

  /** `status_index = (status_index + 1) % len`; the source divides by the list length. */
  function Advance(index: nat, len: nat): (next: nat)
    requires len >= 1
    ensures next < len
    ensures index + 1 < len ==> next == index + 1
    ensures index + 1 == len ==> next == 0
  {
    ModOneStep(index + 1, len);
    (index + 1) % len
  }

  lemma ModOneStep(n: nat, len: nat)
    requires len >= 1
    ensures n < len ==> n % len == n
    ensures n == len ==> n % len == 0
  {
    if n < len {
      assert n == 0 * len + n;
    } else if n == len {
      assert n == 1 * len + 0;
    }
  }

  /** The index after `ticks` ticks. */
  function AdvanceBy(index: nat, ticks: nat, len: nat): nat
    requires len >= 1
  {
    if ticks == 0 then index else Advance(AdvanceBy(index, ticks - 1, len), len)
  }

  /** `x` brought back into `[0, len)` by one wrap-around. */
  function Wrap(x: nat, len: nat): nat
  {
    if x < len then x else x - len
  }

  /** Within one period, the index after `ticks` ticks is `ticks` places further on, wrapping once. */
  lemma {:induction false} AdvanceByWraps(index: nat, ticks: nat, len: nat)
    requires len >= 1 && index < len && ticks <= len
    ensures AdvanceBy(index, ticks, len) == Wrap(index + ticks, len)
  {
    if ticks > 0 {
      AdvanceByWraps(index, ticks - 1, len);
    }
  }

  /** After as many ticks as there are statuses the index is back where it started. */
  lemma RotationPeriod(index: nat, len: nat)
    requires len >= 1 && index < len
    ensures AdvanceBy(index, len, len) == index
  {
    AdvanceByWraps(index, len, len);
  }

  /** The ticks of one period show pairwise different indices: the rotation is round-robin. */
  lemma RotationRoundRobin(index: nat, j: nat, k: nat, len: nat)
    requires len >= 1 && index < len
    requires j < k < len
    ensures AdvanceBy(index, j, len) != AdvanceBy(index, k, len)
    ensures AdvanceBy(index, k, len) < len
  {
    AdvanceByWraps(index, j, len);
    AdvanceByWraps(index, k, len);
  }

  /** The loop-carried `status_index` before the first tick. */
  const INITIAL_INDEX: nat := 0

  /** The first tick already advances the index: with no override flag it shows the second status
      of the list (the first when the list has one entry), never the first of a longer list. */
  lemma FirstTickShowsSecondStatus(storage: S.Storage)
    requires S.Valid(storage)
    requires !storage.dev && !storage.debug && !storage.maintenance
    ensures var list := storage.status.list;
            SelectStatus(storage, Advance(INITIAL_INDEX, |list|)) == (if |list| > 1 then list[1] else list[0])
  {
  }

  /** The status the source falls back on when the index is outside the list. */
  const FALLBACK_STATUS: S.Status := S.Status("\U{1F44B}", S.Watching)

  /** The status shown this tick: the dev status, else the debug status, else the maintenance
      status, else the list entry at the index. */
  function SelectStatus(storage: S.Storage, index: nat): (status: S.Status)
    ensures storage.dev ==> status == storage.status.devStatus
    ensures !storage.dev && storage.debug ==> status == storage.status.debugModeStatus
    ensures !storage.dev && !storage.debug && storage.maintenance ==> status == storage.status.maintenanceStatus
    ensures !storage.dev && !storage.debug && !storage.maintenance && index < |storage.status.list| ==>
              status == storage.status.list[index]
  {
    if storage.dev then storage.status.devStatus
    else if storage.debug then storage.status.debugModeStatus
    else if storage.maintenance then storage.status.maintenanceStatus
    else if index < |storage.status.list| then storage.status.list[index]
    else FALLBACK_STATUS
  }

  /** The activity a status asks for; none for an unknown kind. */
  function ActivityOf(status: S.Status, streamingUrl: string): (a: Option<Activity>)
    ensures a.None? <==> status.statusType.IsUnknown()
    ensures a.Some? ==> a.value.name == status.message
    ensures a.Some? ==> (a.value.Playing? <==> status.statusType == S.Playing)
    ensures a.Some? ==> (a.value.Watching? <==> status.statusType == S.Watching)
    ensures a.Some? ==> (a.value.Listening? <==> status.statusType == S.Listening)
    ensures a.Some? ==> (a.value.Streaming? <==> status.statusType == S.Streaming)
    ensures a.Some? && a.value.Streaming? ==> a.value.url == streamingUrl
  {
    match status.statusType
    case Playing => Some(Activity.Playing(status.message))
    case Watching => Some(Activity.Watching(status.message))
    case Listening => Some(Activity.Listening(status.message))
    case Streaming => Some(Activity.Streaming(status.message, streamingUrl))
    case Unknown => None
  }

  /** `set_activity` on every shard, in iteration order. */
  function ApplyToShards(activity: Option<Activity>, shards: seq<ShardId>): seq<Effect>
  {
    if shards == [] || activity.None? then []
    else ApplyToShards(activity, shards[..|shards| - 1]) + [SetActivity(shards[|shards| - 1], activity.value)]
  }

  /** A known activity is set once on each shard, in order; an unknown one on none. */
  lemma {:induction false} ApplyToShardsEach(activity: Option<Activity>, shards: seq<ShardId>)
    ensures activity.None? ==> ApplyToShards(activity, shards) == []
    ensures activity.Some? ==> |ApplyToShards(activity, shards)| == |shards|
    ensures activity.Some? ==> forall i :: 0 <= i < |shards| ==>
              ApplyToShards(activity, shards)[i] == SetActivity(shards[i], activity.value)
  {
    if shards != [] && activity.Some? {
      ApplyToShardsEach(activity, shards[..|shards| - 1]);
    }
  }

  /** Everything one tick emits once the index has advanced to `index`. */
  function TickEffects(storage: S.Storage, index: nat, shards: seq<ShardId>): seq<Effect>
  {
    var status := SelectStatus(storage, index);
    ApplyToShards(ActivityOf(status, storage.status.streamingUrl), shards)
      + (if status.statusType.IsUnknown() then [Log(Warn, "StatusLoop", UnknownStatusType)] else [])
  }

  /** One tick of the rotation loop. `index` is the loop-carried `status_index`. */
  method RotatorTick(storage: S.Storage, index: nat, shards: seq<ShardId>) returns (next: nat, effects: seq<Effect>)
    requires S.Valid(storage)
    ensures next < |storage.status.list|
    ensures next == Advance(index, |storage.status.list|)
    ensures effects == TickEffects(storage, next, shards)
  {
    next := (index + 1) % |storage.status.list|;
    var status := SelectStatus(storage, next);
    effects := [];
    for i := 0 to |shards|
      invariant effects == ApplyToShards(ActivityOf(status, storage.status.streamingUrl), shards[..i])
    {
      match status.statusType {
        case Playing => effects := effects + [SetActivity(shards[i], Activity.Playing(status.message))];
        case Watching => effects := effects + [SetActivity(shards[i], Activity.Watching(status.message))];
        case Listening => effects := effects + [SetActivity(shards[i], Activity.Listening(status.message))];
        case Streaming => effects := effects + [SetActivity(shards[i], Activity.Streaming(status.message, storage.status.streamingUrl))];
        case Unknown =>
      }
      assert shards[..i + 1][..i] == shards[..i];
    }
    assert shards[..|shards|] == shards;
    if status.statusType.IsUnknown() {
      effects := effects + [Log(Warn, "StatusLoop", UnknownStatusType)];
    }
  }

  /** The index the rotation shows is always inside the list, so the fallback status is never used. */
  lemma FallbackUnused(storage: S.Storage, index: nat)
    requires S.Valid(storage)
    requires !storage.dev && !storage.debug && !storage.maintenance
    ensures SelectStatus(storage, Advance(index, |storage.status.list|)) in storage.status.list
  {
  }

  /** An unknown status kind sets no activity on any shard and emits exactly one warning. */
  lemma UnknownKindOnlyWarns(storage: S.Storage, index: nat, shards: seq<ShardId>)
    requires SelectStatus(storage, index).statusType == S.Unknown
    ensures TickEffects(storage, index, shards) == [Log(Warn, "StatusLoop", UnknownStatusType)]
  {
    ApplyToShardsEach(None, shards);
  }

  /** With both the dev and the maintenance flag set, the dev status is shown: the code checks the
      dev flag first. */
  lemma DevOverridesMaintenance(storage: S.Storage, index: nat, shards: seq<ShardId>)
    requires storage.dev && storage.maintenance
    requires storage.status.devStatus.statusType != S.Unknown
    ensures |TickEffects(storage, index, shards)| == |shards|
    ensures forall i :: 0 <= i < |shards| ==>
              TickEffects(storage, index, shards)[i] ==
                SetActivity(shards[i], ActivityOf(storage.status.devStatus, storage.status.streamingUrl).value)
  {
    ApplyToShardsEach(ActivityOf(storage.status.devStatus, storage.status.streamingUrl), shards);
  }
}
