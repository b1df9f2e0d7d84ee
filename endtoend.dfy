/** Properties that follow a value through several components: storage construction, the latency
    monitor, the message gate, the dispatcher and the ping command. */
module EndToEnd {
  import opened Results
  import opened Effects
  import opened Commands
  import S = SharedStorage
  import PingCommand
  import Dispatch
  import LatencyMonitor

  /** Before the first monitor tick the latency map is empty, so a user's `!ping` is answered with
      the "still starting" reply and logged as an `InvalidData` error. */
  lemma PingBeforeFirstTick(config: S.Config, now: int, shard: ShardId, author: string)
    requires config.params.prefix == "!"
    ensures var storage := S.NewStorage(config, now);
            Dispatch.OnMessage(storage, Dispatch.Message(false, author, "!ping"), shard, Sent)
              == Dispatch.Dispatched(CommandData("ping", "!", []),
                                     [SendReply(StillStarting), Log(Error, HANDLER_CONTEXT, CommandFailed("InvalidData"))])
  {
    var storage := S.NewStorage(config, now);
    var message := Dispatch.Message(false, author, "!ping");
    assert storage.client.prefix == "!" && shard !in storage.latency;
    PingPassesGate(storage, message);
    PingOnUnobservedShard(storage, message, shard, CommandData("ping", "!", []));
  }

  /** A user's "!ping" under prefix "!" passes the prefix gate and parses to the `ping` command. */
  lemma PingPassesGate(storage: S.Storage, message: Dispatch.Message)
    requires storage.client.prefix == "!" && message.content == "!ping"
    ensures Dispatch.StartsWith(message.content, storage.client.prefix)
    ensures Parse(storage.client.prefix, message.content) == Ok(CommandData("ping", "!", []))
  {
    assert "!ping"[..1] == "!";
    ParsePing();
  }

  /** On a shard the monitor has not observed, a user's parsed `ping` is answered with the
      "still starting" reply and logged as an `InvalidData` error. */
  lemma PingOnUnobservedShard(storage: S.Storage, message: Dispatch.Message, shard: ShardId, command: CommandData)
    requires !message.authorIsBot && Dispatch.StartsWith(message.content, storage.client.prefix)
    requires Parse(storage.client.prefix, message.content) == Ok(command)
    requires command.name == "ping" && shard !in storage.latency
    ensures Dispatch.OnMessage(storage, message, shard, Sent)
              == Dispatch.Dispatched(command, [SendReply(StillStarting), Log(Error, HANDLER_CONTEXT, CommandFailed("InvalidData"))])
  {
    UnobservedPingEffects(storage, message, shard, command);
    Dispatch.ParsedMessageIsDispatched(storage, message, shard, Sent, command);
  }

  lemma UnobservedPingEffects(storage: S.Storage, message: Dispatch.Message, shard: ShardId, command: CommandData)
    requires command.name == "ping" && shard !in storage.latency
    ensures Dispatch.ExecCommand(storage, message, shard, command, Sent)
              == [SendReply(StillStarting), Log(Error, HANDLER_CONTEXT, CommandFailed("InvalidData"))]
  {
    var log := Log(Error, HANDLER_CONTEXT, CommandFailed("InvalidData"));
    Dispatch.PingWithoutLatency(storage, message, shard, command, Sent);
    assert PingCommand.SendFailureLog(Sent) == [];
    assert [SendReply(StillStarting)] + [] + [log] == [SendReply(StillStarting), log];
  }

  /** Once a tick has observed a shard, `ping` on that shard never reports missing data: it answers
      with the observed latency when there is one, and reports `TooEarly` when there was none. */
  lemma PingAfterTick(shards: LatencyMonitor.LatencyMap, storage: S.Storage, runners: seq<LatencyMonitor.Runner>,
                      warnMin: nat, i: nat, command: CommandData, send: SendResult)
    requires LatencyMonitor.DistinctIds(runners)
    requires i < |runners|
    ensures var published := storage.(latency := LatencyMonitor.Tick(shards, runners, warnMin).0);
            var ping := LatencyMonitor.Observed(runners[i]);
            var run := PingCommand.Execute(published, runners[i].id, command, send);
            && run.result != Err(InvalidData)
            && (ping > 0 ==> run.result == Ok(()) && run.effects[0] == SendReply(Pong(S.Millis(ping), runners[i].id)))
            && (ping == 0 ==> run.result == Err(TooEarly))
  {
    LatencyMonitor.TickEntry(shards, runners, warnMin, runners[i].id);
  }
}
