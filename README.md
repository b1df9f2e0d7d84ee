# MioEngine runtime core, modelled in Dafny

This project models the decision logic at the centre of the MioEngine chat bot. It proves properties of that model.

- **Message gate and command dispatcher.** Bot authors and empty messages are dropped. The prefix is stripped and the rest split into words. The command is routed by name; only `ping` is registered. Its outcome is classified as a warning, an error, silence or a development-mode trace.
- **`ping` command.** It answers from the shared latency map. A missing entry gives `InvalidData` and a zero latency gives `TooEarly`; both send the "still starting" reply. A positive latency gives a pong with the latency in milliseconds.
- **Latency monitor tick.** Each shard's latency is upserted into a task-local map. A two-state warn/recover hysteresis runs against the threshold `SHARD_PING_WARN_MIN`, which is a parameter here. The map then replaces the storage's `latency` field as a whole.
- **Status rotator tick.** The task-local index advances modulo the status-list length. One status is selected in the order dev, debug, maintenance, then the list. Its activity is set on every shard; an `Unknown` kind sets nothing and logs one warning.
- **Shared storage.** `Storage::new`, the `HandlerStatus` helpers and `ClientActivityType::is_unknown`.
- **Language table.** `Languages::add_lang` and the initial `LANGUAGES` table. Language content is JSON, kept here as an opaque type parameter.

Gateway calls (`set_status`, `set_activity`, `reply`) and log lines are not performed. Each operation returns them as `Effect` records in the order the source issues them. The outcome of a reply send is a parameter (`SendResult`), as are the clock (`now`), the runners' measured latencies and the threshold. Durations are natural numbers of nanoseconds, and milliseconds are `nanos / 1_000_000`, as `Duration::as_millis` computes them.

Files: `results.dfy` (Option/Result), `effects.dfy` (effect records), `storage.dfy`, `text.dfy` (Rust's `split(" ")`, `trim` and `char::is_whitespace`), `commands.dfy`, `ping.dfy`, `dispatch.dfy`, `monitor.dfy`, `rotator.dfy`, `i18n.dfy`, `endtoend.dfy` (properties across components).

Two behaviours of the code are easy to misread, and the model follows the code in both:
- The dev flag is checked before maintenance, with debug in between (src/main.rs:278-281). With dev and maintenance both set, the dev status is shown; `StatusRotator.DevOverridesMaintenance` states this.
- The dispatcher splits on the single character `' '`, not on all whitespace, and then trims each piece (src/handle/commands/mod.rs:19-21). A tab between two words therefore stays inside one word. `Text.TrimIsSlice` states that trimming removes whitespace only at the two ends.

## Model

| member | source | states |
|---|---|---|
| `SharedStorage.ActivityType.IsUnknown` | src/storage.rs:18-23 | true exactly for the `Unknown` kind |
| `SharedStorage.HandlerStatus.AsI32` | src/storage.rs:53-59 | InDev→0, DebugMode→1, ProdMode→2, each code in 0..2 and the code determines the mode |
| `SharedStorage.AsI32Injective` | src/storage.rs:53-59 | `as_i32` tells the three modes apart |
| `SharedStorage.HandlerStatus.IsDev` | src/storage.rs:61-66 | true exactly for InDev and DebugMode |
| `SharedStorage.I32AsU64` | src/storage.rs:108 | the `i32 as u64` cast of `status_time`: below 2^64, identity on non-negative values, congruent modulo 2^32, negative values wrap to the top of the range |
| `SharedStorage.I32AsU64RoundTrip` | src/storage.rs:108 | casting back to `i32` restores the configured value, so the cast loses nothing |
| `SharedStorage.NewStorage` | src/storage.rs:92-114 | maintenance and debug off and dev from the config; prefix from the config; handler state is InDev exactly when dev, never DebugMode, and agrees with the dev flag; two statuses, so the list is non-empty; empty latency map; cast status_time; start time = the given clock |
| `Text.TrimStartKeepsText` | src/handle/commands/mod.rs:20-21 | the leading part `trim` drops is all whitespace, and every non-whitespace character is kept in order |
| `Text.TrimEndKeepsText` | src/handle/commands/mod.rs:20-21 | the trailing part `trim` drops is all whitespace, and every non-whitespace character is kept in order |
| `Text.Trim` | src/handle/commands/mod.rs:20-21 | `trim` returns a string no longer than its input with no whitespace at either end. It keeps every non-whitespace character in order and is empty exactly for blank input |
| `Text.TrimIsSlice` | src/handle/commands/mod.rs:20-21 | the result of `trim` is one contiguous slice of the input, with only whitespace before and after it, so inner whitespace is kept |
| `Text.TrimKeepsSpaceOut` | src/handle/commands/mod.rs:19-21 | trimming a piece that holds no space gives a string that holds no space |
| `Text.Split` | src/handle/commands/mod.rs:19 | `split(" ")` gives at least one piece, none containing a space, and joining the pieces with single spaces gives back the input |
| `Text.SplitJoin` | src/handle/commands/mod.rs:19 | splitting a space-joined sequence of space-free pieces gives back those pieces (the other half of the round trip) |
| `Text.Tokens` | src/handle/commands/mod.rs:20-22 | the filter/trim stage yields at most one word per piece |
| `Text.TokensConcat` | src/handle/commands/mod.rs:20-22 | the filter/trim stage works piece by piece and keeps their order: the tokens of two runs of pieces are the tokens of the first followed by those of the second |
| `Text.TokensSingle` | src/handle/commands/mod.rs:20-21 | a blank piece is dropped and any other piece is kept, trimmed |
| `Text.TokensAreWords` | src/handle/commands/mod.rs:20-22 | every word the filter/trim stage keeps is non-empty and has no whitespace at either end |
| `Text.TokensHaveNoSpace` | src/handle/commands/mod.rs:19-22 | words taken from the split pieces contain no space |
| `Text.WordsKeepText` | src/handle/commands/mod.rs:19-22 | the words, read together, keep every non-whitespace character of the input in order; parsing drops only whitespace |
| `Text.NoWordsIffBlank` | src/handle/commands/mod.rs:19-27 | no word is produced exactly when the text is all whitespace |
| `Commands.Parse` | src/handle/commands/mod.rs:18-29 | `Err(())` exactly when only whitespace follows the prefix. Otherwise the prefix field is the given prefix, the name and every argument are space-free words, and together they keep all non-whitespace text after the prefix. The name followed by the arguments is exactly the list of trimmed non-blank `split(" ")` pieces of that text |
| `Commands.ParsePing` | src/handle/commands/mod.rs:18-29 | with prefix "!", "!ping" parses to name "ping" with no arguments |
| `Commands.ParseSplitsAtSpace` | src/handle/commands/mod.rs:18-29 | with prefix "!", "!pi ng" parses to name "pi" with the argument "ng", so a space always ends a word |
| `Commands.ParseOnlySpaces` | src/handle/commands/mod.rs:24-28 | with prefix "!", "!  " parses to `Err` |
| `Commands.CommandError.AsStr` | src/handle/commands/mod.rs:108-118 | each error's name is its own variant name (`TooEarly` is "TooEarly", and so on for all seven), and "Unknown" is the name of `Unknown` alone |
| `Commands.AsStrInjective` | src/handle/commands/mod.rs:108-125 | different errors have different names, so a logged cause identifies the error |
| `Commands.Classify` | src/handle/commands/mod.rs:73-92 | at most one log line. A routing failure, `TooEarly` or `CommandNotFound` gives a warning naming the error; `TreatedException` gives nothing; any other error gives an error line; success gives a trace only in development mode |
| `Commands.AfterExecution` | src/handle/commands/mod.rs:32-40 | a log line is written exactly when the handler state is a development state, and it is one trace line naming the command and its author |
| `PingCommand.SendFailureLog` | src/handle/commands/ping.rs:18-20 | a failed send writes exactly one error line carrying the failure's text; a successful one writes none |
| `PingCommand.TooEarlyReply` | src/handle/commands/ping.rs:33-38 | sends the "still starting" reply; returns `Ok` exactly when that send succeeded, else `Err` with the failure's text |
| `PingCommand.Execute` | src/handle/commands/ping.rs:5-31 | `InvalidData` exactly when the shard has no entry, `TooEarly` exactly when its ping is 0 ns, `Ok` exactly when positive. `Ok` sends one pong with the ping in ms and the shard id; an error sends the "still starting" reply; a failed send only adds a log line |
| `PingCommand.ResultIgnoresSendAndCommand` | src/handle/commands/ping.rs:10-30 | the result is the same whatever the send outcome and whatever the parsed command |
| `Dispatch.Route` | src/handle/commands/mod.rs:66-71 | only "ping" is routed (to the ping command, with its result); any other name is `Err(CommandNotFound)` with no effect |
| `Dispatch.ExecCommand` | src/handle/commands/mod.rs:59-93 | the effects are the routed command's own effects followed by the log lines `Classify` gives for its outcome. An unknown name yields exactly one `CommandNotFound` warning; `ping` sends exactly one reply, and sends it first; no other reply is ever sent |
| `Dispatch.PingAnsweredWithLatency` | src/handle/commands/mod.rs:73-87 | a ping that finds a positive latency sends one pong and logs no failure; it adds a trace line exactly in development mode |
| `Dispatch.Execute` | src/handle/commands/mod.rs:42-57 | a message is dispatched exactly when its author is not a bot, it starts with the prefix and some non-whitespace follows the prefix; the dispatched command carries the prefix and a word as its name |
| `Dispatch.BlankSuffix` | src/handle/commands/mod.rs:48 | a blank message has only blank suffixes, so the trimmed-length check is implied by the parse check |
| `Dispatch.PingWithoutLatency` | src/handle/commands/ping.rs:25-27 | `ping` on a shard with no latency entry sends the "still starting" reply, then any send-failure line, then one `InvalidData` error line |
| `Dispatch.ParsedMessageIsDispatched` | src/handle/commands/mod.rs:48-56 | a user message that starts with the prefix and parses is dispatched with the parsed command |
| `Dispatch.OnMessage` | src/main.rs:52-65 | messages from bots or with empty content are ignored; all others go to the dispatcher's `execute` |
| `LatencyMonitor.Observed` | src/main.rs:203 | a runner with no measurement counts as 0 ns; otherwise its measurement is used |
| `LatencyMonitor.TransitionOf` | src/main.rs:210-221 | a warning is raised exactly when the shard is in Normal and above the threshold. It is cleared exactly when the shard is Warned and below the threshold. At exactly the threshold nothing happens |
| `LatencyMonitor.MonitorTick` | src/main.rs:194-234 | the loop over the runners computes the tick function (the new local map and the emitted effects); the published storage equals the old one with `latency` replaced by the whole new map |
| `LatencyMonitor.TickEntry` | src/main.rs:202-223 | after a tick, the map holds the old keys plus the observed shards and removes nothing. Each observed shard holds its observed ping and the flag its transition gives from its pre-tick entry, with a new shard starting unwarned. Unobserved entries are unchanged |
| `LatencyMonitor.TickEffectsPerShard` | src/main.rs:209-221 | the tick's effects equal the independently computed list of each shard's own transition effects, in order: a warning log then DoNotDisturb when raised, an info log then Online when cleared, nothing otherwise |
| `LatencyMonitor.WarningsBalance` | src/main.rs:210-221 | over any sequence of samples, raised and cleared counts balance: raised count plus initial state equals cleared count plus final state, so staying above the threshold warns once |
| `LatencyMonitor.RunPrefix` | src/main.rs:210-221 | one transition per sample, and the transitions of the first k samples are the first k transitions of the run, so the balance holds after every sample |
| `LatencyMonitor.WarnOnceScenario` | src/main.rs:210-221 | samples 5, 500, 500, 5 ms against 200 ms give one warning at the second sample and one recovery at the fourth |
| `LatencyMonitor.FirstSampleAboveThresholdWarns` | src/main.rs:205-214 | a shard seen for the first time above the threshold is warned about, and set DoNotDisturb, in that same tick |
| `StatusRotator.Advance` | src/main.rs:276 | the next index is always inside the list; it moves one place on, and wraps to 0 after the last |
| `StatusRotator.AdvanceByWraps` | src/main.rs:264-276 | from a valid index, after t ≤ len ticks the index is t places further on, wrapped once |
| `StatusRotator.RotationPeriod` | src/main.rs:264-276 | after len ticks the index is back where it started |
| `StatusRotator.RotationRoundRobin` | src/main.rs:264-276 | the len ticks of one period show pairwise different indices, all inside the list |
| `StatusRotator.FirstTickShowsSecondStatus` | src/main.rs:264-281 | the index starts at 0 and is advanced before the first status is chosen, so with no override flag the first tick shows the list's second status (its only one when the list has one entry) |
| `StatusRotator.SelectStatus` | src/main.rs:278-281 | dev status if dev; else debug status if debug; else maintenance status if maintenance; else the list entry at the index |
| `StatusRotator.FallbackUnused` | src/main.rs:276-281 | with no override flag, the selected status is always an entry of the list, so the `unwrap_or` fallback is never used |
| `StatusRotator.DevOverridesMaintenance` | src/main.rs:278-281 | with dev and maintenance both set, every shard gets the dev status's activity |
| `StatusRotator.ActivityOf` | src/main.rs:285-291 | `Playing`, `Watching`, `Listening` and `Streaming` each give the activity of that same kind with the status's message; only `Streaming` carries the streaming URL; `Unknown` gives none |
| `StatusRotator.ApplyToShardsEach` | src/main.rs:283-292 | a known activity is set exactly once on each shard, in order; an unknown one on none |
| `StatusRotator.RotatorTick` | src/main.rs:275-294 | the index advances modulo the list length and stays inside the list; the loop over shards emits exactly the tick's effects for the status selected at the new index |
| `StatusRotator.UnknownKindOnlyWarns` | src/main.rs:283-293 | an `Unknown` status sets no activity on any shard and emits exactly one warning |
| `I18n.AddLangSpec` | src/libs/i18n.rs:48-60 | succeeds exactly when the name is absent or `force` is set, and then maps the name to the content. Otherwise it returns `LanguageAlreadyDefined` with the table unchanged. Other keys keep their values, and the key set grows by at most the name |
| `I18n.AddTwiceRejected` | src/libs/i18n.rs:48-60 | after a successful add, adding the same name without `force` is refused |
| `I18n.ForcedAddIdempotent` | src/libs/i18n.rs:49-53 | repeating a forced add changes nothing |
| `I18n.Languages.constructor` | src/libs/i18n.rs:44-46 | a new table is empty |
| `I18n.Languages.AddLang` | src/libs/i18n.rs:48-60 | the in-place update returns the result and leaves the table that `AddLangSpec` gives for the old table |
| `I18n.InitialLanguages` | src/libs/i18n.rs:63-76 | the initial table holds exactly "fr_default" and "en_default", mapped to their contents |
| `I18n.InitialTableKeys` | src/libs/i18n.rs:63-76 | two forced adds of distinct names into an empty table hold exactly those names with their contents |
| `EndToEnd.PingBeforeFirstTick` | src/handle/commands/ping.rs:12-27 | before any monitor tick (empty latency map from `Storage::new`), a user's "!ping" sends the "still starting" reply and is logged as an `InvalidData` error |
| `EndToEnd.PingPassesGate` | src/handle/commands/mod.rs:18-29 | "!ping" under prefix "!" starts with the prefix and parses to the `ping` command with no arguments |
| `EndToEnd.PingOnUnobservedShard` | src/handle/commands/ping.rs:25-27 | on a shard the monitor has not observed, any user message that parses to `ping` is dispatched, answered with the "still starting" reply and logged as an `InvalidData` error |
| `EndToEnd.PingAfterTick` | src/main.rs:202-233 | after a tick has observed a shard, `ping` on it never reports `InvalidData`. It answers with the observed latency when that is positive, and reports `TooEarly` when it is 0 |

## Left out

- Locking and task spawning are not modelled: the `RwLock`/`TypeMap` accesses, the `tokio::spawn` loops and the `sleep` intervals. Each periodic task is modelled as one tick run sequentially. The atomic replacement of the latency map is modelled as one field update of the storage value.
- The Ctrl-C shutdown handler (src/main.rs:240-257) is left out: it listens for a signal, calls `shutdown_all` and exits the process.
- Bootstrap in `main` is left out: configuration and archive loading, the database query, building the client, the banner and the timing logs. This includes the `try_into().unwrap()` on `status_time` for the rotator's sleep.
- src/utils.rs (coloured logging, dates, hardware ids) and src/init.rs (TOML parsing) are not part of this model. Only the `Config` fields `Storage::new` reads are declared.
- i18n `load`, `test` and the JSON parsing of the embedded files are left out; language content is an opaque type.
- Gateway operations (`set_status`, `set_activity`, `reply`) are recorded as effects, not performed. The text of replies and log lines is not modelled; only the values they carry are.
- `CommandError`'s `Display` writes exactly `as_str`, so `Commands.CommandError.AsStr` stands for both.
- `continue_status` is set and never read. The `Unknown = !0` discriminant is not modelled; `Unknown` is an ordinary variant.
- The runner set is a hash map in the source. Here it is a sequence with distinct ids, and its order is the iteration order, which the source leaves unspecified.
- The monitor and the rotator each set presence on their own. Which of their updates a shard shows last is a matter of task scheduling and is not modelled.
- Strings are sequences of characters, while the source slices `content[prefix.len()..]` in bytes. After the `starts_with` check both drop exactly the prefix. `Commands.Parse` requires the content to be at least as long as the prefix, because the source's slice panics otherwise.
