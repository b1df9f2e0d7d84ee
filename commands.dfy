/** Command data, command errors, parsing and outcome classification
    (src/handle/commands/mod.rs). */
module Commands {
  import opened Results
  import opened Text
  import opened Effects
  import SharedStorage

  /** A parsed command line: the first word and the words after it. */
  datatype CommandData = CommandData(name: string, prefix: string, args: seq<string>)

  /** `CommandData::new`: drop the prefix, split on single spaces, keep the pieces that are not
      blank, trimmed; the first is the name. `Err(())` when no word follows the prefix.
      The source slices `content[prefix.len()..]`, which panics on a shorter content. */
  function Parse(prefix: string, content: string): (r: Result<CommandData, ()>)
    requires |prefix| <= |content|
    ensures r.Err? <==> AllWhitespace(content[|prefix|..])
    ensures r.Ok? ==> r.value.prefix == prefix
    ensures r.Ok? ==> IsWord(r.value.name) && ' ' !in r.value.name
    ensures r.Ok? ==> forall i :: 0 <= i < |r.value.args| ==> IsWord(r.value.args[i]) && ' ' !in r.value.args[i]
    ensures r.Ok? ==> Strip(r.value.name + Concat(r.value.args)) == Strip(content[|prefix|..])
    ensures r.Ok? ==> [r.value.name] + r.value.args == Tokens(Split(content[|prefix|..]))
  {
    var rest := content[|prefix|..];
    var words := Tokens(Split(rest));
    NoWordsIffBlank(rest);
    WordsKeepText(rest);
    TokensHaveNoSpace(Split(rest));
    TokensAreWords(Split(rest));
    if |words| > 0 then
      TailWords(words);
      HeadAndTail(words);
      Ok(CommandData(words[0], prefix, words[1..]))
    else Err(())
  }

  lemma HeadAndTail(words: seq<string>)
    requires words != []
    ensures [words[0]] + words[1..] == words
  {
  }

  /** With prefix "!", "!ping" is the command `ping` with no arguments. */
  lemma ParsePing()
    ensures Parse("!", "!ping") == Ok(CommandData("ping", "!", []))
  {
    assert "!ping"[1..] == "ping";
    assert ' ' !in "ping";
    assert Split("ping") == ["ping"];
    assert Trim("ping") == "ping" by { TrimOfWord("ping"); }
    assert Tokens(["ping"]) == ["ping"];
  }

  /** A space ends a word: "!pi ng" is the command `pi` with the argument `ng`, not `ping`. */
  lemma ParseSplitsAtSpace()
    ensures Parse("!", "!pi ng") == Ok(CommandData("pi", "!", ["ng"]))
  {
    var rest := "!pi ng"[1..];
    assert rest == "pi ng";
    SplitPiNg();
    TokensPiNg();
    assert !AllWhitespace(rest) by {
      assert !IsWhitespace(rest[0]);
    }
    var r := Parse("!", "!pi ng");
    var words := [r.value.name] + r.value.args;
    assert words == ["pi", "ng"];
    assert r.value.name == words[0];
    assert r.value.args == words[1..];
  }

  lemma SplitPiNg()
    ensures Split("pi ng") == ["pi", "ng"]
  {
    assert Join(["pi", "ng"]) == "pi ng" by {
      assert Join(["pi", "ng"][1..]) == "ng";
    }
    SplitJoin(["pi", "ng"]);
  }

  lemma TokensPiNg()
    ensures Tokens(["pi", "ng"]) == ["pi", "ng"]
  {
    assert IsWord("pi") && IsWord("ng");
    TrimOfWord("pi");
    TrimOfWord("ng");
    TokensSingle("pi");
    TokensSingle("ng");
    TokensConcat(["pi"], ["ng"]);
    assert ["pi"] + ["ng"] == ["pi", "ng"];
  }

  /** A prefix followed only by spaces parses to no command. */
  lemma ParseOnlySpaces()
    ensures Parse("!", "!  ").Err?
  {
    assert "!  "[1..] == "  ";
    assert AllWhitespace("  ");
  }

  datatype CommandError =
    | MessageNotSent
    | InvalidData
    | NoPermissions
    | TreatedException
    | TooEarly
    | CommandNotFound
    | Unknown
  {
    /** `as_str` (and `Display`, which writes the same text): the variant's own name. */
    function AsStr(): (s: string)
      ensures |s| > 0
      ensures s == "Unknown" <==> this == Unknown
      ensures this == MessageNotSent ==> s == "MessageNotSent"
      ensures this == InvalidData ==> s == "InvalidData"
      ensures this == NoPermissions ==> s == "NoPermissions"
      ensures this == TreatedException ==> s == "TreatedException"
      ensures this == TooEarly ==> s == "TooEarly"
      ensures this == CommandNotFound ==> s == "CommandNotFound"
    {
      match this
      case MessageNotSent => "MessageNotSent"
      case InvalidData => "InvalidData"
      case NoPermissions => "NoPermissions"
      case TreatedException => "TreatedException"
      case TooEarly => "TooEarly"
      case CommandNotFound => "CommandNotFound"
      case _ => "Unknown"
    }

    /** Errors logged as warnings: expected during startup or after a typo. */
    predicate IsBenign()
    {
      this == TooEarly || this == CommandNotFound
    }
  }

  /** Different errors have different names, so a logged cause identifies its error. */
  lemma AsStrInjective(a: CommandError, b: CommandError)
    ensures a.AsStr() == b.AsStr() ==> a == b
  {
  }

  const HANDLER_CONTEXT: string := "CommandHandler"

  function FailureLog(level: Level, e: CommandError): Effect
  {
    Log(level, HANDLER_CONTEXT, CommandFailed(e.AsStr()))
  }

  /** The outcome of routing and running a command: the outer `Err` is a routing failure,
      the inner `Result` is what the command returned. */
  type Routed = Result<Result<(), CommandError>, CommandError>

  /** The `match cmd_result` in `exec_command` together with `after_execution`: the log lines
      written once a command has run (or failed to route). */
  function Classify(routed: Routed, state: SharedStorage.HandlerStatus, command: string, author: string): (logs: seq<Effect>)
    ensures |logs| <= 1
    ensures routed.Err? ==> logs == [FailureLog(Warn, routed.error)]
    ensures routed.Ok? && routed.value.Err? && routed.value.error.IsBenign() ==>
              logs == [FailureLog(Warn, routed.value.error)]
    ensures routed.Ok? && routed.value.Err? && !routed.value.error.IsBenign() && routed.value.error != TreatedException ==>
              logs == [FailureLog(Error, routed.value.error)]
    ensures logs == [] <==> routed == Ok(Err(TreatedException)) || (routed == Ok(Ok(())) && !state.IsDev())
    ensures routed == Ok(Ok(())) && state.IsDev() ==> logs == [Log(Trace, HANDLER_CONTEXT, CommandUsed(command, author))]
  {
    match routed
    case Ok(Err(e)) =>
      if e == TooEarly || e == CommandNotFound then [FailureLog(Warn, e)]
      else if e == TreatedException then []
      else [FailureLog(Error, e)]
    case Ok(Ok(())) => AfterExecution(state, command, author)
    case Err(e) => [FailureLog(Warn, e)]
  }

  /** `after_execution`: a trace line naming the command and its author, in development only. */
  function AfterExecution(state: SharedStorage.HandlerStatus, command: string, author: string): (logs: seq<Effect>)
    ensures logs != [] <==> state.IsDev()
    ensures state.IsDev() ==> logs == [Log(Trace, HANDLER_CONTEXT, CommandUsed(command, author))]
  {
    if state.IsDev() then [Log(Trace, HANDLER_CONTEXT, CommandUsed(command, author))] else []
  }
}
