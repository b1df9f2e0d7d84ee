/** The message gate (`Handler::message` in src/main.rs) and the command dispatcher
    (`execute` and `exec_command` in src/handle/commands/mod.rs). */
module Dispatch {
  import opened Results
  import opened Text
  import opened Effects
  import opened Commands
  import SharedStorage
  import PingCommand

  /** The parts of an inbound message the core reads. */
  datatype Message = Message(authorIsBot: bool, authorTag: string, content: string)

  /** What handling one message amounts to: nothing, or a parsed command with its effects. */
  datatype Handling = Ignored | Dispatched(command: CommandData, effects: seq<Effect>)

  /** The `match &command.name.as_str()` routing table: only `ping` is registered. */
  function Route(storage: SharedStorage.Storage, shard: ShardId, command: CommandData, send: SendResult): (r: (Routed, seq<Effect>))
    ensures command.name != "ping" ==> r == (Err(CommandNotFound), [])
    ensures command.name == "ping" ==> var run := PingCommand.Execute(storage, shard, command, send);
                                       r == (Ok(run.result), run.effects)
  {
    if command.name == "ping" then
      var run := PingCommand.Execute(storage, shard, command, send);
      (Ok(run.result), run.effects)
    else (Err(CommandNotFound), [])
  }

  /** The number of replies sent back to the channel. */
  function ReplyCount(effects: seq<Effect>): nat
  {
    if effects == [] then 0 else (if effects[0].SendReply? then 1 else 0) + ReplyCount(effects[1..])
  }

  lemma {:induction false} ReplyCountConcat(a: seq<Effect>, b: seq<Effect>)
    ensures ReplyCount(a + b) == ReplyCount(a) + ReplyCount(b)
  {
    if a == [] {
      assert a + b == b;
    } else {
      assert (a + b)[1..] == a[1..] + b;
      ReplyCountConcat(a[1..], b);
    }
  }

  lemma NoReplies(effects: seq<Effect>)
    requires forall i :: 0 <= i < |effects| ==> effects[i].Log?
    ensures ReplyCount(effects) == 0
  {
    if effects != [] {
      NoReplies(effects[1..]);
    }
  }

  /** `exec_command`: run the routed command, then log its outcome. The `ping` command sends
      exactly one reply, first; any other name sends none and is logged as `CommandNotFound`. */
  function ExecCommand(storage: SharedStorage.Storage, message: Message, shard: ShardId,
                       command: CommandData, send: SendResult): (effects: seq<Effect>)
    ensures command.name != "ping" ==> effects == [Log(Warn, HANDLER_CONTEXT, CommandFailed("CommandNotFound"))]
    ensures command.name == "ping" ==> |effects| >= 1 && effects[0].SendReply?
    ensures ReplyCount(effects) == (if command.name == "ping" then 1 else 0)
    ensures var (routed, run) := Route(storage, shard, command, send);
            effects == run + Classify(routed, storage.handlerState, command.name, message.authorTag)
  {
    var (routed, effects) := Route(storage, shard, command, send);
    var logs := Classify(routed, storage.handlerState, command.name, message.authorTag);
    NoReplies(logs);
    ReplyCountConcat(effects, logs);
    if command.name == "ping" then
      NoReplies(effects[1..]);
      ReplyCountConcat([effects[0]], effects[1..]);
      assert [effects[0]] + effects[1..] == effects;
      effects + logs
    else effects + logs
  }

  /** `ping` on a shard the monitor has not yet observed answers "still starting" and is logged
      as an `InvalidData` error, after any failure to send the reply. */
  lemma PingWithoutLatency(storage: SharedStorage.Storage, message: Message, shard: ShardId,
                           command: CommandData, send: SendResult)
    requires command.name == "ping" && shard !in storage.latency
    ensures ExecCommand(storage, message, shard, command, send)
              == [SendReply(StillStarting)] + PingCommand.SendFailureLog(send)
                 + [Log(Error, HANDLER_CONTEXT, CommandFailed("InvalidData"))]
  {
    var run := PingCommand.Execute(storage, shard, command, send);
    assert run.result == Err(InvalidData);
    assert Route(storage, shard, command, send) == (Ok(Err(InvalidData)), run.effects);
    assert Classify(Ok(Err(InvalidData)), storage.handlerState, command.name, message.authorTag)
             == [Log(Error, HANDLER_CONTEXT, CommandFailed("InvalidData"))];
  }

  predicate StartsWith(s: string, prefix: string)
  {
    |prefix| <= |s| && s[..|prefix|] == prefix
  }

  /** `commands::execute`: skip blank messages, bot authors and text without the prefix,
      then parse and run the command. */
  function Execute(storage: SharedStorage.Storage, message: Message, shard: ShardId, send: SendResult): (r: Handling)
    ensures r.Dispatched? <==>
              && !message.authorIsBot
              && StartsWith(message.content, storage.client.prefix)
              && !AllWhitespace(message.content[|storage.client.prefix|..])
    ensures r.Dispatched? ==> r.command.prefix == storage.client.prefix && IsWord(r.command.name)
  {
    var prefix := storage.client.prefix;
    if Trim(message.content) == [] || message.authorIsBot || !StartsWith(message.content, prefix) then Ignored
    else
      BlankSuffix(message.content, |prefix|);
      match Parse(prefix, message.content)
      case Ok(command) => Dispatched(command, ExecCommand(storage, message, shard, command, send))
      case Err(_) => Ignored
  }

  /** A blank text has only blank suffixes, so the trimmed-length check of `execute` is
      implied by the check that some word follows the prefix. */
  lemma BlankSuffix(s: string, k: nat)
    requires k <= |s|
    ensures AllWhitespace(s) ==> AllWhitespace(s[k..])
  {
    if AllWhitespace(s) {
      forall i | 0 <= i < |s| - k ensures IsWhitespace(s[k..][i]) {
        assert s[k..][i] == s[k + i];
      }
    }
  }

  /** `Handler::message`: messages from bots or with empty content never reach `execute`. */
  function OnMessage(storage: SharedStorage.Storage, message: Message, shard: ShardId, send: SendResult): (r: Handling)
    ensures message.authorIsBot || |message.content| == 0 ==> r == Ignored
    ensures r == Execute(storage, message, shard, send)
  {
    if message.authorIsBot || |message.content| < 1 then Ignored
    else Execute(storage, message, shard, send)
  }

  /** A message from a user that starts with the prefix and parses is dispatched as parsed. */
  lemma ParsedMessageIsDispatched(storage: SharedStorage.Storage, message: Message, shard: ShardId,
                                  send: SendResult, command: CommandData)
    requires !message.authorIsBot && StartsWith(message.content, storage.client.prefix)
    requires Parse(storage.client.prefix, message.content) == Ok(command)
    ensures OnMessage(storage, message, shard, send) == Dispatched(command, ExecCommand(storage, message, shard, command, send))
  {
    BlankSuffix(message.content, |storage.client.prefix|);
  }

  /** A ping that finds a positive latency replies once with it, never logs a failure of the
      command, and leaves a trace line exactly in development mode. */
  lemma PingAnsweredWithLatency(storage: SharedStorage.Storage, message: Message, shard: ShardId,
                                command: CommandData)
    requires command.name == "ping"
    requires shard in storage.latency && storage.latency[shard].ping > 0
    ensures ExecCommand(storage, message, shard, command, Sent) ==
              [SendReply(Pong(SharedStorage.Millis(storage.latency[shard].ping), shard))]
              + (if storage.handlerState.IsDev() then [Log(Trace, HANDLER_CONTEXT, CommandUsed("ping", message.authorTag))] else [])
  {
  }
}
