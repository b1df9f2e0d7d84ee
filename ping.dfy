/** The `ping` command (src/handle/commands/ping.rs). */
module PingCommand {
  import opened Results
  import opened Effects
  import opened Commands
  import SharedStorage

  const SENDER_CONTEXT: string := "MessageSender"

  /** The error line written when a reply could not be sent, if it could not. */
  function SendFailureLog(send: SendResult): (logs: seq<Effect>)
    ensures logs == [] <==> send.Sent?
    ensures forall i :: 0 <= i < |logs| ==> logs[i] == Log(Error, SENDER_CONTEXT, SendFailed(send.why))
    ensures send.SendError? ==> logs == [Log(Error, SENDER_CONTEXT, SendFailed(send.why))]
  {
    match send
    case Sent => []
    case SendError(why) => [Log(Error, SENDER_CONTEXT, SendFailed(why))]
  }

  /** `too_early`: reply that the bot is still starting; `Ok` exactly when that reply went out. */
  function TooEarlyReply(send: SendResult): (r: (Result<(), string>, seq<Effect>))
    ensures r.0.Ok? <==> send.Sent?
    ensures send.SendError? ==> r.0 == Err(send.why)
    ensures |r.1| >= 1 && r.1[0] == SendReply(StillStarting)
    ensures r.1[1..] == SendFailureLog(send)
  {
    match send
    case Sent => (Ok(()), [SendReply(StillStarting)])
    case SendError(why) => (Err(why), [SendReply(StillStarting)] + SendFailureLog(send))
  }

  /** What a command returns, with the replies and log lines it produced on the way. */
  datatype CommandRun = CommandRun(result: Result<(), CommandError>, effects: seq<Effect>)

  /** `ping::execute` for the shard the message arrived on. `send` is the outcome of its one reply;
      `command` is unused, as in the source. */
  function Execute(storage: SharedStorage.Storage, shard: ShardId, command: CommandData, send: SendResult): (r: CommandRun)
    ensures r.result == Err(InvalidData) <==> shard !in storage.latency
    ensures r.result == Err(TooEarly) <==> shard in storage.latency && storage.latency[shard].ping == 0
    ensures r.result == Ok(()) <==> shard in storage.latency && storage.latency[shard].ping > 0
    ensures r.result.Ok? ==>
              r.effects == [SendReply(Pong(SharedStorage.Millis(storage.latency[shard].ping), shard))] + SendFailureLog(send)
    ensures r.result.Err? ==> r.effects == [SendReply(StillStarting)] + SendFailureLog(send)
  {
    if shard in storage.latency then
      var entry := storage.latency[shard];
      if entry.ping > 0 then
        CommandRun(Ok(()), [SendReply(Pong(SharedStorage.Millis(entry.ping), shard))] + SendFailureLog(send))
      else
        var (_, effects) := TooEarlyReply(send);
        CommandRun(Err(TooEarly), effects)
    else
      var (_, effects) := TooEarlyReply(send);
      CommandRun(Err(InvalidData), effects)
  }

  /** The result depends on the latency map and the shard alone: neither a failed reply
      nor the parsed command changes it. */
  lemma ResultIgnoresSendAndCommand(storage: SharedStorage.Storage, shard: ShardId,
                                    c1: CommandData, c2: CommandData, s1: SendResult, s2: SendResult)
    ensures Execute(storage, shard, c1, s1).result == Execute(storage, shard, c2, s2).result
  {
  }
}
