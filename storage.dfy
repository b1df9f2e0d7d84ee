/** The shared state container (`Storage` in src/storage.rs), its construction
    from the configuration and the small enum helpers. */
module SharedStorage {
  import Effects

  newtype i32 = x: int | -0x8000_0000 <= x < 0x8000_0000

  const TWO_TO_32: int := 0x1_0000_0000
  const TWO_TO_64: int := 0x1_0000_0000_0000_0000

  /** `ClientActivityType`; `Unknown` is an ordinary variant here, not a bit pattern. */
  datatype ActivityType = Playing | Streaming | Listening | Watching | Unknown {
    /** `is_unknown`. */
    predicate IsUnknown()
      ensures IsUnknown() <==> this == Unknown
    {
      match this
      case Unknown => true
      case _ => false
    }
  }

  datatype Status = Status(message: string, statusType: ActivityType)

  datatype StatusManager = StatusManager(
    list: seq<Status>,
    continueStatus: bool,
    devStatus: Status,
    maintenanceStatus: Status,
    debugModeStatus: Status,
    streamingUrl: string,
    statusTime: nat)

  datatype ClientData = ClientData(prefix: string)

  datatype HandlerStatus = InDev | DebugMode | ProdMode {
    /** `as_i32`: a distinct small code per mode. */
    function AsI32(): (code: i32)
      ensures 0 <= code <= 2
      ensures code == 0 <==> this == InDev
      ensures code == 1 <==> this == DebugMode
      ensures code == 2 <==> this == ProdMode
    {
      match this
      case InDev => 0
      case DebugMode => 1
      case ProdMode => 2
    }

    /** `is_dev`: both non-production modes count as development. */
    predicate IsDev()
      ensures IsDev() <==> this != ProdMode
    {
      match this
      case InDev | DebugMode => true
      case _ => false
    }
  }

  /** One shard's record in the latency map; `ping` is a duration in nanoseconds. */
  datatype Latency = Latency(ping: nat, warned: bool)

  /** `Duration::as_millis` on a duration held in nanoseconds. */
  function Millis(nanos: nat): nat
  {
    nanos / 1_000_000
  }

  datatype Storage = Storage(
    maintenance: bool,
    dev: bool,
    debug: bool,
    status: StatusManager,
    client: ClientData,
    handlerState: HandlerStatus,
    latency: map<Effects.ShardId, Latency>,
    processStart: int)

  /** The configuration fields `Storage::new` reads (src/init.rs `Config`). */
  datatype ClientConfig = ClientConfig(dev: bool)
  datatype Params = Params(prefix: string, statusTime: i32)
  datatype Config = Config(client: ClientConfig, params: Params)

  /** Rust's `x as u64` on an `i32`: sign extension, so a negative value wraps modulo 2^64. */
  function I32AsU64(x: i32): (r: nat)
    ensures r < TWO_TO_64
    ensures (r as int) % TWO_TO_32 == (x as int) % TWO_TO_32
    ensures x >= 0 ==> r == x as int
    ensures x < 0 ==> r >= TWO_TO_64 - 0x8000_0000
  {
    if x >= 0 then x as int else x as int + TWO_TO_64
  }

  /** Rust's `u as i32` on a `u64`: keep the low 32 bits, read them as two's complement. */
  function U64AsI32(u: nat): (r: i32)
    requires u < TWO_TO_64
    ensures (r as int) % TWO_TO_32 == u % TWO_TO_32
  {
    var low := u % TWO_TO_32;
    if low < 0x8000_0000 then low as i32 else (low - TWO_TO_32) as i32
  }

  /** The widening cast loses nothing: narrowing it back restores the original value. */
  lemma I32AsU64RoundTrip(x: i32)
    ensures U64AsI32(I32AsU64(x)) == x
  {
    var u := I32AsU64(x);
    if x < 0 {
      assert u == (TWO_TO_32 - 1) * TWO_TO_32 + (x as int + TWO_TO_32);
      assert u % TWO_TO_32 == x as int + TWO_TO_32;
    }
  }

  /** The state invariant rotation relies on: the status list is never empty. */
  predicate Valid(s: Storage)
  {
    |s.status.list| >= 1
  }

  /** `Storage::new`: every flag off except `dev`, the fixed status list, an empty latency map.
      `now` stands for `Utc::now()`. */
  function NewStorage(config: Config, now: int): (s: Storage)
    ensures Valid(s) && |s.status.list| == 2
    ensures !s.maintenance && !s.debug && s.dev == config.client.dev
    ensures s.client.prefix == config.params.prefix
    ensures s.handlerState == (if config.client.dev then InDev else ProdMode)
    ensures s.handlerState.IsDev() <==> s.dev
    ensures s.handlerState != DebugMode
    ensures s.latency == map[]
    ensures s.status.statusTime == I32AsU64(config.params.statusTime)
    ensures config.params.statusTime >= 0 ==> s.status.statusTime == config.params.statusTime as int
    ensures s.processStart == now
  {
    Storage(
      maintenance := false,
      dev := config.client.dev,
      debug := false,
      client := ClientData(config.params.prefix),
      status := StatusManager(
        list := [Status("a", Listening), Status("b", Listening)],
        continueStatus := true,
        devStatus := Status("\U{2699}\U{FE0F} Mode d\U{E9}veloppeur", Watching),
        maintenanceStatus := Status("\U{1F6A7} Mode maintenance", Watching),
        debugModeStatus := Status("\U{1F527} Mode debug", Watching),
        streamingUrl := "https://www.twitch.tv/sedorriku_",
        statusTime := I32AsU64(config.params.statusTime)),
      handlerState := if config.client.dev then InDev else if false then DebugMode else ProdMode,
      latency := map[],
      processStart := now)
  }

  /** `as_i32` tells the three modes apart. */
  lemma AsI32Injective(a: HandlerStatus, b: HandlerStatus)
    ensures a.AsI32() == b.AsI32() ==> a == b
  {
  }
}
