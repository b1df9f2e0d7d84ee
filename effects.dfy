/** Outputs of the core: calls into the gateway (presence, replies) and log lines.
    Nothing here is performed; the model's operations return these as records. */
module Effects {

  /** A shard (gateway connection) identifier, `ShardId(u64).0` in the source. */
  type ShardId = nat

  /** `serenity::model::user::OnlineStatus`, restricted to the two values the monitor sets. */
  datatype OnlineStatus = Online | DoNotDisturb

  /** The presence activity `set_activity` receives. */
  datatype Activity =
    | Playing(name: string)
    | Listening(name: string)
    | Watching(name: string)
    | Streaming(name: string, url: string)

  /** Severity of a line written by the logging helpers (`warn`, `info`, `error`, `send`). */
  datatype Level = Info | Warn | Error | Trace

  /** What a log line reports; its text formatting is not modelled. */
  datatype Event =
    | HighLatency(shard: ShardId, millis: nat)
    | LatencyNormal(shard: ShardId, millis: nat)
    | UnknownStatusType
    | CommandFailed(cause: string)
    | CommandUsed(command: string, author: string)
    | SendFailed(why: string)

  /** The two replies the core can send back to a channel. */
  datatype Reply = Pong(millis: nat, shard: ShardId) | StillStarting

  /** Outcome of one `message.reply` call, supplied by the environment. */
  datatype SendResult = Sent | SendError(why: string)

  datatype Effect =
    | SetStatus(shard: ShardId, status: OnlineStatus)
    | SetActivity(shard: ShardId, activity: Activity)
    | SendReply(reply: Reply)
    | Log(level: Level, context: string, event: Event)
}
