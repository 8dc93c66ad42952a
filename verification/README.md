# A Dafny model of agent-runner's event, throttle, serve, migration and scheduling core

agent-runner keeps coding agents running round after round. Its state lives in an append-only, month-sharded event
log: followers tail it, an ssh relay forwards it, and the serve loop reads its own throttle and give-up state back
from it. This project models that core and proves what it is relied on for. Where the code does less than its
documentation says, the model follows the code; a lemma gives the input and another the exact condition.

| file | what it models |
|---|---|
| `Wrappers.dfy` | the optional value |
| `Toml.dfy` | TOML documents as lines, and the document they parse to (TOML v1.0.0, sections "Keys" and "Table") |
| `Rewrites.dfy`, `RewriteMeaning.dfy`, `RewriteLines.dfy`, `MissingNewline.dfy` | the line rewriters of the config migrator, what a rewrite does to the parsed document and to the lines, and the files without a last newline |
| `Migrations.dfy`, `MigrationFixpoint.dfy`, `MigrationRegistry.dfy` | the migration passes, their fixpoint with the schema stamp, and the program's own rewrites |
| `LastLine.dfy`, `AnyFile.dfy`, `AnyRun.dfy` | the run on files whose last line is not ended |
| `MigrationLists.dfy`, `MigrateCommand.dfy` | what a run says it did, and the `migrate` command that goes by it |
| `EventLog.dfy`, `EventTail.dfy` | reading shards by offset; seed, replay and follow as a protocol against writers |
| `Notify.dfy` | the FIFO doorbell between producers and a follower |
| `RemoteRelay.dfy` | the reconnect loop of the ssh relay, and the relay protocol on one log |
| `OneLog.dfy`, `RelayOverShards.dfy` | the shards read as one log; the relay end to end, each connection running the tail on the shards |
| `Throttle.dfy`, `Recovery.dfy` | throttles and back-off read back from the log; recovery breadcrumbs written into it |
| `RoundOutcome.dfy`, `RoundScan.dfy` | the fused scan after each round, and what it decides |
| `Brake.dfy`, `HardFloor.dfy` | the mid-round checks: the reversible `memory.high` brake, and the critical-pressure floor |
| `ServePolicy.dfy`, `MemLoopWindow.dfy` | the three give-up breakers; the limit on mem-loop stops across restarts |
| `Schedule.dfy`, `PhaseSelect.dfy` | weekly windows, the search for the next opening, phase selection and overlaps |
| `Treadmill.dfy`, `TreadmillMeaning.dfy` | the treadmill advisory, and its conditions read off the events |
| `Ledger.dfy`, `Utf8.dfy` | the bounded ledger advisories are written to, and the encoding its size is counted in (UTF-8, section 3 of RFC 3629) |
| `MarkerScan.dfy` | the search for an agent's terminal marker in its growing log |

Code that updates variables in loops is a method proved against a specification function or a declarative
predicate; the lemmas are about those. The brake writes a cgroup file in place, so its leaf is a class. The
concurrent parts (doorbell, tail, relay, and tail and relay together) are state machines whose steps are single appends, reads and system calls,
so a run is any interleaving of them.

## What the code does otherwise than its documentation says

- Relocating a key in a file whose last line has no newline can lose settings and tables: `MissingNewline.SettingLost`,
  `MissingNewline.HeaderSwallowed`, and the exact conditions `MissingNewline.GluedToLast`,
  `MissingNewline.GluedToHeader`, `MissingNewline.GluedToElement` and `MissingNewline.ReadsAlikeIff`.
- A table named `schema_version` makes the stamped migration output unreadable: `MigrationFixpoint.StampParsesIff`.
- The replay re-seeds only the current month's shard, although its comments speak of every shard it replays. A line
  appended to a month that rolls over before the replay comes out twice: `EventTail.RollDuringHandoff`, with the exact
  condition `EventTail.ExactlyOnceIff`.
- A shard emptied by truncation keeps its old offset: `EventLog.TruncationSeenIff`.
- A relay whose first line has no usable time stamp has no resume point: `RemoteRelay.UnstampedStartLeavesAHole`, with
  the exact condition `RemoteRelay.HoleIff`.
- A producer told "no reader" while a follower is opening its FIFO unlinks it afterwards, and a wake-up is
  lost: `Notify.UnlinkAfterOpenLosesAWakeup`, with the exact condition `Notify.OpeningIsSafeIff`.
- A last restore of `memory.high` that fails is said to be retried at the next round boundary and when serve exits;
  nothing does: `Brake.FailedRestoreIsForGood`, `Brake.StuckBrake`.
- Three `mem_loop` events can lie exactly two hours apart end to end, because time stamps are cut to milliseconds and
  the clock is not: `MemLoopWindow.ExactlyTwoHoursIff`, with the exact condition `MemLoopWindow.ClosedWindowIff`.
- An agent whose announced reset is more than a year ahead is ignored now and throttled later: `Recovery.ReentersIff`.
- Events that name no agent are booked on "unknown" by the fused fold and on "" by the separate scan:
  `RoundOutcome.NamelessEventsPartThem`, with the exact condition `RoundOutcome.FoldAgreesIff`.
- A goal check that is skipped now and then re-arms the treadmill advisory, although nothing moved and no round
  paused: `Treadmill.RepeatedAdvisory`, with the exact condition `Treadmill.SkippedCheckRearms`.

## Assumptions

Appends are whole lines, and event time stamps never go back in the order of writing, where a lemma says so
(`InTimeOrder`, `OwnMonthOnly`, `Stamped`, `ClockForward`). Zones have fixed offsets. Nobody but serve writes its leaf's
`memory.high`, and a failed write leaves it unchanged. One round, one ssh connection and one poll of an agent are
given as data: what they yield and when they end. The mid-round memory verdict is given as calm, warning or critical.

## Model

| member | source | states |
|---|---|---|
| `Rewrites.Run` | agent_runner/migrations.py:193-359 | Each rewriter of the registry (rename, drop, relocate, wrap), editing the line list in place, yields the specified text for every file |
| `RewriteLines.HitMeans` | agent_runner/migrations.py:193-214 | A rewrite takes a line if and only if it assigns the key in a table of that literal name, `[phases.<name>]` or `[phases.<name>.<leaf>]`, and a wrap only strings, without white space where that is skipped |
| `RewriteLines.SectionMeans` | agent_runner/migrations.py:190-207 | A line stands in the table or array element of the last header before it, at the top level without one |
| `RewriteLines.IdleKeepsFile` | agent_runner/migrations.py:193-214 | With nothing to take, or two lines under one literal table name, the file stays as it is |
| `RewriteLines.EditedLines` | agent_runner/migrations.py:217-233 | Renaming and wrapping change the key or the value of the lines they take; indent, equals sign and trailing comment stay, and so does every other line |
| `RewriteLines.DroppedLines` | agent_runner/migrations.py:236-253 | Dropping leaves exactly the lines it does not take, in order; only the comments of those taken go |
| `RewriteLines.RelocatedLine` | agent_runner/migrations.py:256-304 | A relocation that runs no lines together moves one line, under its new name and with its equals sign, value and comment, to the end of the first destination table, or of a new one at the end of the file; all other lines keep their order, and no comment is lost |
| `Rewrites.MergeRenders` | agent_runner/migrations.py:294-304 | Two lines run together read as the one text behind the other, but for white space at its ends |
| `Rewrites.FindTableHits` | agent_runner/migrations.py:193-214 | The hits are the assignments of the key under the table, in order; none in an absent table |
| `Rewrites.DestMeans` | agent_runner/migrations.py:282-295 | The insertion point of a relocation is the last line of the destination table's first block |
| `RewriteMeaning.OneLiteralHit` | agent_runner/migrations.py:256-304 | In a file that parses, a key to relocate stands at most once |
| `RewriteMeaning.ChangesIff` | agent_runner/migrations.py:879-886 | A rewrite changes a parsing file exactly when some binding is a hit |
| `RewriteMeaning.ParsesIff` | agent_runner/migrations.py:887-896 | The decoder accepts a rewritten file exactly when the target key or table is not in use; drops and wraps always pass |
| `RewriteMeaning.MeaningKept` | agent_runner/migrations.py:217-359 | An adopted rewrite moves, removes or wraps its own binding; every other binding and table is as before |
| `RewriteMeaning.HeadsKept` | agent_runner/migrations.py:217-359 | Headers, comments and all other lines but the assignments keep their order under every rewrite; a relocation adds one header behind them if and only if the table was not declared |
| `LastLine.GluesIff` | agent_runner/migrations.py:256-304 | Two lines run together if and only if the last one is not ended, there is something to move and a table to move it to, and that line is to move or that table is last |
| `MissingNewline.GluedToLast` | agent_runner/migrations.py:256-304 | Without a last newline, an adopted relocation to the end of the file keeps tables and bindings if and only if the last line is blank or the value was bound there before |
| `MissingNewline.HeaderSwallowed` | agent_runner/migrations.py:256-304 | An adopted relocation of an unterminated last line to before a header never keeps the meaning: the file declares that table, or that element of an array, no more, and all the others still |
| `MissingNewline.GluedToHeader` | agent_runner/migrations.py:256-304 | The bindings alone survive a swallowed `[t]` if and only if that table bound no key |
| `MissingNewline.GluedToElement` | agent_runner/migrations.py:256-304 | The bindings alone survive a swallowed `[[t]]` if and only if no key is bound in that element or a later one of its array |
| `MissingNewline.ReadsAlikeIff` | agent_runner/migrations.py:256-304 | A reader that does not tell a declared table from one implied by its sub-tables sees what was promised if and only if the header lost was a `[t]` without keys and another header declares a sub-table of it |
| `MissingNewline.SettingLost` | agent_runner/migrations.py:256-304 | A four-line file whose adopted relocation loses the setting |
| `Migrations.RunMigrationsPass` | agent_runner/migrations.py:861-899 | One pass over the registry, migration by migration; what its text and lists hold is in the next rows |
| `MigrationLists.DetectMeans` | agent_runner/migrations.py:438-520 | A rewrite is due if and only if a line binds its key in one of its tables, or a header lies under that key |
| `MigrationLists.PassLists` | agent_runner/migrations.py:861-899 | After a pass the applied list names, in order, exactly the migrations across which the text changed; the manual list those that only report, were due without effect, or would have broken the file, with that said; the advisory list the advisory ones |
| `MigrationLists.PassSaysIff` | agent_runner/migrations.py:880-898 | A pass applies nothing if and only if it leaves the text alone |
| `Migrations.PassParses` | agent_runner/migrations.py:887-898 | A pass never turns a parsing file into one that does not parse |
| `Migrations.StampSchemaVersion` | agent_runner/migrations.py:943-972 | The stamp: nothing if current or newer, else in place of the first top-level version line, else in front |
| `MigrationLists.StampedLine` | agent_runner/migrations.py:940-972 | The stamp writes `schema_version = 1` in place of the first top-level version line, at its indent, or in front of the file; no other line changes, and a version of 1 or more stays |
| `MigrationLists.StampChangesIff` | agent_runner/migrations.py:953-972 | It says that it stamped if and only if the text changed |
| `MigrationLists.RunLists` | agent_runner/migrations.py:909-937 | A run's list is those of its passes one behind the other, then the stamp if and only if the stamp changed the text; its reports are those of the pass that changed nothing |
| `MigrationLists.RunSaysIff` | agent_runner/migrations.py:909-937 | For every file that parses, a run lists nothing as applied if and only if it returns the text it was given: no later pass and no stamp undoes what was applied |
| `MigrateCommand.RunMigrations` | agent_runner/migrations.py:906-937 | The passes to the fixpoint within the bound of twelve; a registry in order always gets a result, which says that nothing was done if and only if nothing was |
| `MigrateCommand.Migrate` | agent_runner/cli/migrate_cmd.py:21-52 | The file ends up as the run's text, with the old one kept beside it if and only if they differ; a dry run leaves it; a file that does not parse is refused; the code is 1 if something is left to the user, else 0; every report is listed |
| `MigrateCommand.MigrateTwice` | agent_runner/cli/migrate_cmd.py:32-52 | Unless a table is named `schema_version`, the command run again writes nothing, gives the same code and lists the same reports without the rewrites |
| `MigrationFixpoint.PassSettles` | agent_runner/migrations.py:861-899 | After one pass every rewrite is done or blocked by a collision, and no new hit has appeared |
| `MigrationFixpoint.LeftIsReported` | agent_runner/migrations.py:870-899 | Whatever a registered rewrite still hits in a settled text is on the manual list |
| `MigrationFixpoint.RunComesToRest` | agent_runner/migrations.py:902-937 | Two passes are enough for every newline-terminated file, so the bound of twelve is never met |
| `MigrationFixpoint.StampParsesIff` | agent_runner/migrations.py:943-972 | The stamped text parses if and only if there is no table named `schema_version` |
| `MigrationFixpoint.StampMeaning` | agent_runner/migrations.py:943-972 | The stamp changes the version binding and no other |
| `MigrationFixpoint.RunIsIdempotent` | agent_runner/migrations.py:909-972 | A run on the output of a run over a newline-terminated file applies nothing and returns the same text, manual and advisory lists |
| `AnyFile.RestIsQuiet` | agent_runner/migrations.py:918-929 | A pass returns the text it was given if and only if it would adopt no rewrite: no two of them undo each other, glued lines included |
| `AnyRun.RunReturns` | agent_runner/migrations.py:902-937 | Every run comes to rest, within five passes whether or not the last line is ended: two once it is, and one more for each of the three things that can stand before that |
| `AnyRun.RunKeepsMeaning` | agent_runner/migrations.py:909-937 | Over a whole run in which no adopted relocation runs lines together, as in every newline-terminated file, each binding is kept, replaced by its image or dropped by a registered rewrite; one that a rewrite leaves standing is reported; nothing else appears but the version and the tables the registered relocations open |
| `AnyRun.RunIsIdempotent` | agent_runner/migrations.py:909-972 | And for every such file a second run applies nothing and returns the same text, manual and advisory lists |
| `MigrationRegistry.SourceApart` | agent_runner/migrations.py:438-851 | No rewrite of the program's registry writes where another one, or itself, looks |
| `MigrationRegistry.SourceIsDisciplined` | agent_runner/migrations.py:438-851 | So the fixpoint theorems hold of the program's registry |
| `EventLog.ReadNewRaw` | agent_runner/event_log.py:65-95 | The offset-carrying read loop, path by path |
| `EventLog.ReadDelivers` | agent_runner/event_log.py:65-95 | A read yields exactly what each shard gained past its offset, shard by shard |
| `EventLog.OffsetsMove` | agent_runner/event_log.py:65-95 | And moves each offset to the end of its shard |
| `EventLog.ReadAgain` | agent_runner/event_log.py:65-95 | Reading again at once yields nothing |
| `EventLog.TruncationSeenIff` | agent_runner/event_log.py:83-94 | A replaced, shorter shard is noticed if and only if it is not empty; otherwise lines before the stale offset are lost |
| `EventLog.SeedAtEof` | agent_runner/event_log.py:108-118 | Exactly the existing shards are seeded, at their ends |
| `EventLog.ReplaySince` | agent_runner/event_log.py:168-198 | The backlog of all shards from the month on; only the current shard's seed is moved |
| `EventLog.SkippedMonthsHoldNothing` | agent_runner/event_log.py:168-198 | Shards older than the month of `since` hold no matching event, so leaving them out loses nothing |
| `EventTail.EveryRunKeepsAccount` | agent_runner/cli/events_cmd.py:222-262 | In every interleaving, the replay has delivered each shard's first lines and the follow phase its lines from its start to the offset |
| `EventTail.ExactlyOnceIff` | agent_runner/cli/events_cmd.py:243-259 | A replayed shard that has been followed past its replay is delivered exactly once, in order, if and only if no event lies between its seed and the end of its replay |
| `EventTail.EveryCalmRun` | agent_runner/cli/events_cmd.py:243-259 | If appends go to the newest shard, at most one shard is created between listings, and from the seeding to its replay no shard that is to be replayed grows but that of the month the replay takes as current, which may be created meanwhile, the handoff leaves neither overlap nor gap |
| `EventTail.DeliveredOnce` | agent_runner/event_log.py:139-198 | Then at every moment each event of a tracked shard up to its offset has come out once, in order |
| `EventTail.PollCatchesUp` | agent_runner/event_log.py:139-165 | And one undisturbed poll leaves nothing behind in any tracked shard, rollovers included |
| `EventTail.RollDuringHandoff` | agent_runner/cli/events_cmd.py:243-259 | A run in which the month rolls between seeding and replay, and one event comes out twice |
| `EventTail.OutOfReachForGood` | agent_runner/event_log.py:61-62 | Two new shards between listings put one out of the scope of two for good |
| `Notify.ReliableStays` | agent_runner/_notify.py:37-72 | Once open and linked, with no unlink pending, a FIFO stays so and no step loses a wake-up |
| `Notify.NoWakeupLost` | agent_runner/_notify.py:54-90 | In every run, a follower blocked on an empty pipe with undelivered lines has a ring still to come; full pipes and rings during a drain included |
| `Notify.OpeningIsSafeIff` | agent_runner/_notify.py:57-62 | So opening a FIFO is safe in every run that follows if and only if no producer holds a "no reader" answer |
| `Notify.UnlinkAfterOpenLosesAWakeup` | agent_runner/_notify.py:57-62 | From every state in which some producer has yet to act on "no reader", a run that begins with the opening ends in a follower blocked with undelivered lines and nobody left to ring |
| `Notify.TimeoutDelivers` | agent_runner/event_log.py:160-165 | A lost wake-up costs one timeout: from any wait on an empty pipe the next read after it delivers everything in the log, whatever the producers do meanwhile |
| `Notify.DeliversSoon` | agent_runner/_notify.py:75-90 | When every ring is rung, the follower delivers all within 19 steps of its own |
| `Notify.Drain` | agent_runner/_notify.py:75-90 | Emptying a pipe takes one read for each 4096 bytes begun |
| `RemoteRelay.RelayRemoteEvents` | agent_runner/remote_relay.py:204-283 | The relay passes every line through, resumes each connection from the latest time stamp so far, gives up at the first connection end that finds the outage too long, and sleeps 1 s after the first failure of an outage and twice as long after each next one, up to 30 s and never past the deadline |
| `RemoteRelay.GivesUpIff` | agent_runner/remote_relay.py:240-262 | The outage is too long if and only if a connection that relayed a line, or the first of all, ended that long ago with no line since |
| `RemoteRelay.PassThrough` | agent_runner/remote_relay.py:221-232 | Lines come out as they are; a line, not a connection, ends an outage |
| `RemoteRelay.ResumeIsLatest` | agent_runner/remote_relay.py:225-227 | The resume point is the greatest time stamp relayed and never goes back |
| `RemoteRelay.LastTry` | agent_runner/remote_relay.py:243-274 | A connection opened at the deadline that yields no line is the last |
| `RemoteRelay.EveryRunKeepsInv` | agent_runner/cli/events_cmd.py:158-198 | In every run of appends, connects, drops and replays, everything wanted between the first stamped line and the live position has been relayed |
| `RemoteRelay.NoHoles` | agent_runner/remote_relay.py:211-227 | Every wanted event between the first stamped line relayed and the newest one has been relayed |
| `RemoteRelay.BooksKept` | agent_runner/remote_relay.py:225-227 | The output only grows, its first stamped line stays, and the resume point never goes back |
| `RemoteRelay.OnlyTheBoundaryRepeats` | agent_runner/cli/events_cmd.py:158-179 | Only events stamped exactly at the resume point are relayed again |
| `RemoteRelay.CaughtUp` | agent_runner/event_log.py:186-198 | A connection that has looked at the whole log leaves no hole at its end |
| `RemoteRelay.UnstampedStartLeavesAHole` | agent_runner/remote_relay.py:144-164 | As long as no line with a time stamp has been relayed, a run can go on to one with a hole behind the first line |
| `RemoteRelay.HoleIff` | agent_runner/remote_relay.py:144-164 | The exact condition, at every point of every run: it can go on to such a hole if and only if it has one, or no line with a time stamp has been relayed and there is a kind to relay |
| `RemoteRelay.StampedStartLeavesNone` | agent_runner/remote_relay.py:211-227 | So a relay whose first line bears a time stamp never leaves a hole behind it |
| `RelayOverShards.EveryRunRefines` | agent_runner/cli/events_cmd.py:222-262 | Refinement: whatever writers that are calm in that sense, tails over two shards with replay and rollover, arrivals and hang-ups do, each connection with its own current month, the relay behaves as in a run of the protocol on one log |
| `RelayOverShards.NoHoles` | agent_runner/remote_relay.py:204-227 | So end to end no wanted event is missing between the first stamped line relayed and the newest one, whichever shards they lie in |
| `RelayOverShards.CaughtUp` | agent_runner/event_log.py:139-165 | And from any point of the follow phase one undisturbed poll, once its lines have arrived, leaves no wanted event out from the first stamped line to the end of the newest shard |
| `RelayOverShards.PollPrintsDelivered` | agent_runner/cli/events_cmd.py:254-259 | What a poll prints are the events it delivers that are of the wanted kinds |
| `RelayOverShards.ReplayPrintsDelivered` | agent_runner/cli/events_cmd.py:182-198 | What the replay of a shard prints are those it delivers of the wanted kinds stamped at the resume point or later |
| `Throttle.LatestTransientPerAgent` | agent_runner/_throttle.py:197-215 | Per agent, the last transient event of the scanned log, a recovery counting as none |
| `Throttle.LatestMapByLog` | agent_runner/_throttle.py:197-215 | By positions of the log: an agent is in the map if and only if a detection or recovery names it, with its last one if that is a detection; events that name none are booked on "unknown" |
| `Throttle.BackoffExponent` | agent_runner/_throttle.py:218-238 | One less than the positions behind the agent's last success at which a detection stands, 0 for none |
| `Throttle.ExtensionBounds` | agent_runner/_throttle.py:241-259 | The ladder only puts a reset off, by half an hour at most |
| `Throttle.LadderRises` | agent_runner/_throttle.py:241-259 | Each detection in a row puts an estimated reset off further until the top, and no further then |
| `Throttle.LadderDoubles` | agent_runner/_throttle.py:241-259 | One more detection takes a delay of d seconds to 2·d + 60 for `rate_limit_model` and `api_transient_5xx` and to 2·d + 30 for `api_timeout`, to 1800 at most and no further than the sixth; every other class keeps its reset |
| `Throttle.ActiveThrottles` | agent_runner/_throttle.py:294-339 | By positions of the log: the active map holds exactly the agents whose last transient event is a detection with a reset to come, and its entry the announced reset put off by the ladder for the detections since the last success, with class, round and phase |
| `Throttle.PendingRecovered` | agent_runner/_throttle.py:471-511 | By positions of the log: the agents whose last transient event is a detection with a reset that has come, each once, in the order of their first transient events, with its class and the whole seconds since its time stamp |
| `Throttle.ExactlyOneState` | agent_runner/_throttle.py:294-339 | An agent with a transient event is exactly one of active, pending and recovered; any other is none |
| `Throttle.LatestUnrecoveredDetected` | agent_runner/_throttle.py:181-194 | Scanning newest file first with early exit finds the last transient event of all files put together |
| `Throttle.LastAnyMeans` | agent_runner/_throttle.py:165-194 | That is the detection or recovery behind which no other stands |
| `Throttle.CheckThrottleState` | agent_runner/_throttle.py:403-446 | The scalar is the active entry of the agent with the last transient event, or none |
| `Throttle.EffectiveThrottleView` | agent_runner/_throttle.py:368-400 | At one instant the view is none if and only if no agent is active, is always an entry of the map, and falls back to the one that ends last |
| `Recovery.MaybeEmitRecovered` | agent_runner/cli/_serve_round.py:201-213 | One recovery event is written for each pending agent, with its name and class; then none is pending and every active throttle is as it was |
| `Recovery.Announced` | agent_runner/_throttle.py:471-511 | The announced agents, and no others, become recovered |
| `Recovery.AtMostOneBreadcrumb` | agent_runner/_throttle.py:471-511 | Over every run, the skip path announces an agent at most once between two detections |
| `Recovery.ReentersIff` | agent_runner/_throttle.py:101-122 | With no new event an agent that is not active becomes so again if and only if its reset is beyond the one-year window |
| `RoundOutcome.FoldRound` | agent_runner/_round_outcome.py:62-134 | One pass yields what the separate scans would: latest transients, exponents, usage capability, and the time stamps of the last stamped round start and usage reports; the memory verdict holds if and only if there is a last stamped start and a last stamped kill whose stamp is not smaller |
| `RoundOutcome.FoldAgreesIff` | agent_runner/_round_outcome.py:85-123 | The fold and the separate scans give every agent the same exponent after every event if and only if every event is harmless when written: read off its name and the counts of the two stand-in names, so that one nameless detection alone is harmless |
| `RoundOutcome.FoldAgreesWithScan` | agent_runner/_round_outcome.py:85-123 | Whatever the log, they count alike for every agent but "unknown" and ""; for those too if events name their agents |
| `RoundOutcome.NamelessEventsPartThem` | agent_runner/_round_outcome.py:87-88 | Two nameless detections on which they differ |
| `RoundOutcome.KilledMeansThisRound` | agent_runner/_round_outcome.py:137-167 | The memory verdict is on the newest round: a kill logged after its start or in its millisecond |
| `RoundOutcome.RoundHadNoProgress` | agent_runner/_round_outcome.py:170-255 | The no-progress verdict, for the agent that ran or for all |
| `RoundOutcome.NoUsageMeansThisRound` | agent_runner/_round_outcome.py:204-255 | It means no usage since the newest round start, by an agent known to report it |
| `RoundScan.ScanRound` | agent_runner/cli/serve_cmd.py:389-439 | The one scan's throttle verdict is that of the separate scans if events name their agents; a killed round is always excused |
| `RoundScan.ActiveFromFold` | agent_runner/cli/serve_cmd.py:433-438 | The active agents computed from the fold's exponents are those of the separate scans |
| `RoundScan.FinishRound` | agent_runner/cli/_serve_round.py:728-755 | What the breakers are given: a round killed for memory counts for no other breaker |
| `ServePolicy.ServeLoop` | agent_runner/cli/_serve_round.py:728-809 | Serve goes on exactly until the first 78 or the first five in a row of one kind, with codes 78, 70, 71 or 75; after a clean round it waits the restart delay, after an excused or long failure twice that, after the first crash of a streak twice that up to 1800 s, after each further one twice the delay before, up to 1800 s |
| `ServePolicy.RunMeans` | agent_runner/_serve_policy.py:174-190 | A streak of `m` means the last `m` rounds all met the trigger |
| `ServePolicy.OneStreakAtATime` | agent_runner/_serve_policy.py:129-231 | At most one breaker's streak is not zero |
| `ServePolicy.ExitCodeMeans` | agent_runner/cli/_serve_round.py:760-809 | What each exit code says about the last rounds, both ways |
| `ServePolicy.ExcusedRoundsNeverCrashLoop` | agent_runner/_serve_policy.py:147-171 | A throttled, environmental or killed round ends a crash streak, so no stop follows for five rounds |
| `ServePolicy.DelayEscalates` | agent_runner/_serve_policy.py:160-171 | Along a crash streak delays never shrink |
| `MemLoopWindow.MemLoopEventsInWindow` | agent_runner/_throttle.py:342-365 | The count of events stamped in the window |
| `MemLoopWindow.EachCounts` | agent_runner/_throttle.py:357-365 | An event counts, wherever it stands, if and only if it is stamped two hours or less before now |
| `MemLoopWindow.StopAgainAndAgain` | agent_runner/cli/_serve_round.py:776-792 | Over any sequence of serve processes: what is logged, and which stop exits 70 |
| `MemLoopWindow.StopMeans` | agent_runner/cli/_serve_round.py:776-792 | A stop that finds two events within two hours exits 70 and logs nothing; any other exits 71 and logs itself |
| `MemLoopWindow.NoThreeWithinTheWindow` | agent_runner/cli/_serve_round.py:776-792 | No three logged stops span less than two hours |
| `MemLoopWindow.ExactlyTwoHoursIff` | agent_runner/_throttle.py:357-365 | Whatever the log, a stop is logged exactly two hours after the last event but one if and only if the clock is read inside that last millisecond |
| `MemLoopWindow.ClosedWindowIff` | agent_runner/cli/_serve_round.py:776-792 | Over any number of serve processes, no closed window of two hours holds three events if and only if no stop is timed like that |
| `MemLoopWindow.NoThreeInTheClosedWindow` | agent_runner/cli/_serve_round.py:776-792 | So with a clock of whole milliseconds none ever does |
| `MemLoopWindow.FinalOnlyForThree` | agent_runner/cli/_serve_round.py:776-785 | A stop is final if and only if the log holds two others within two hours before it |
| `Brake.TargetMeaning` | agent_runner/metrics.py:518-530 | There is a limit to write from 128 MiB in use on; it lies between half the memory in use and all of it, and the 64 MiB floor never matters |
| `Brake.Leaf.Engage` | agent_runner/metrics.py:556-600 | Engaging only ever tightens the leaf, and hands back the value it replaced |
| `Brake.Leaf.Restore` | agent_runner/metrics.py:603-625 | Restoring writes the stash or leaves the leaf unchanged |
| `Brake.CheckTick` | agent_runner/cli/_serve_round.py:540-588 | One check's effect on leaf and brake state, exceptions in its event writes included |
| `Brake.SpawnRound` | agent_runner/cli/_serve_round.py:540-657 | At no tick is the leaf above its starting value; on every way out it is back there unless it was held down and the last restore failed |
| `Brake.BrakeConserves` | agent_runner/cli/_serve_round.py:540-588 | An engaged brake's stash is the starting value; a disengaged one means the leaf is there |
| `Brake.RoundLeaves` | agent_runner/cli/_serve_round.py:643-657 | A round leaves the starting value if and only if the leaf was there or the last restore worked |
| `Brake.StreaksCount` | agent_runner/cli/_serve_round.py:536-566 | The streaks count like samples in a row; an engaged brake is released before the calm outlasts its threshold |
| `Brake.TickMeans` | agent_runner/cli/_serve_round.py:540-588 | Each check exactly: after the configured readings of pressure in a row an armed brake lowers the limit to the step below the memory in use, or is disarmed by a failed write; after as many calm ones it puts back what the round found, or keeps hold for good after a failed write; nothing else changes the leaf or the latches |
| `Brake.EngagingIff` | agent_runner/metrics.py:574-600 | An attempt writes if and only if the memory is readable and 128 MiB or more, the limit is readable, and the new one lies below it |
| `Brake.BrakeChangesOnStreaks` | agent_runner/cli/_serve_round.py:540-566 | The brake engages and releases only on the configured number of like samples in a row |
| `Brake.ServeOnlyTightens` | agent_runner/cli/_serve_round.py:643-657 | From round to round the leaf is never loosened |
| `Brake.FailedRestoreIsForGood` | agent_runner/metrics.py:610-614 | Over any run of rounds the leaf is back at its first value if and only if every round undid its own brake |
| `Brake.StuckBrake` | agent_runner/metrics.py:610-614 | A round whose last restore fails leaves a limit no later rounds lift |
| `HardFloor.Watch` | agent_runner/cli/_serve_round.py:589-641 | Each check does what the readings alone call for, and the round is killed at the first that finds critical pressure sustained |
| `HardFloor.CriticalRunMeans` | agent_runner/cli/_serve_round.py:589-641 | The streak is the longest unbroken run of critical readings |
| `HardFloor.DueMeans` | agent_runner/cli/_serve_round.py:589-641 | Each deed in terms of the readings: deferral exactly at the reading that makes a stretch sustained, the kill exactly when one is, the nudge at the first critical reading; of each stretch the first 2·samples readings are logged and no more |
| `HardFloor.StretchIsAnnounced` | agent_runner/cli/_serve_round.py:629-641 | Where the kernel is to contain it, every sustained stretch has been announced by the time it is sustained |
| `HardFloor.OneNudge` | agent_runner/cli/_serve_round.py:284-330 | A round is nudged at most once |
| `HardFloor.NudgeComesFirst` | agent_runner/cli/_serve_round.py:284-330 | A round killed for pressure was nudged before, where nudging is on |
| `HardFloor.OneNoticePerStretch` | agent_runner/cli/_serve_round.py:629-641 | Deferral is announced once for each stretch of critical readings |
| `Schedule.ContainsIffOnArc` | agent_runner/schedule.py:48-61 | A window is the union of arcs of the week that begin on its days, over midnight and from Sunday into Monday |
| `Schedule.OpenIff` | agent_runner/schedule.py:100-110 | A round may run if and only if the instant lies on an arc of some run window, if there are any, and of no pause window |
| `Schedule.Weekly` | agent_runner/schedule.py:100-110 | A plan repeats every 10080 minutes |
| `Schedule.NextResumeAt` | agent_runner/schedule.py:113-126 | The bounded search finds the very next opening, and when it finds none there is none ever |
| `PhaseSelect.EveryPhaseLeadsOnce` | agent_runner/phase_select.py:22-26 | Each phase leads exactly one of any `n` rounds in a row |
| `PhaseSelect.RotationGoesRound` | agent_runner/phase_select.py:22-26 | Round 1 leads with the first phase, and each round with the one behind the last round's, round and round |
| `PhaseSelect.CandidatesGoRound` | agent_runner/phase_select.py:132-151 | Under "skip" the leader is followed by all others in list order, round and round; otherwise it stands alone; without phases there is one unnamed candidate |
| `PhaseSelect.SkipTakesAll` | agent_runner/phase_select.py:137-151 | Under "skip" every phase is a candidate |
| `PhaseSelect.ActiveWindow` | agent_runner/schedule.py:129-140 | The window named as closed is the first pause window that holds; if none does, no run window does |
| `PhaseSelect.SelectPhase` | agent_runner/phase_select.py:154-218 | The first candidate that can run, each asked at its own clock reading, with the window that closed the one whose turn it was; else the earliest minute at which any unthrottled one opens, with the window that closed it at its reading, and none if and only if none ever does |
| `PhaseSelect.NamesMean` | agent_runner/phase_select.py:207-208 | The skipped list names the candidates passed over, in order |
| `PhaseSelect.CollideIffTogether` | agent_runner/phase_select.py:65-95 | Two phases have colliding windows if and only if both run at some minute of the week |
| `PhaseSelect.FindPhaseWindowOverlaps` | agent_runner/phase_select.py:98-129 | Exactly the same-zone pairs that run together are reported, each with windows that do collide |
| `Treadmill.TagRounds` | agent_runner/goal.py:245-258 | Each event goes to the round last named at or before it |
| `TreadmillMeaning.TagIff` | agent_runner/goal.py:245-258 | An event belongs to a round if and only if the last round number up to it is that round's |
| `Treadmill.RoundHasActivity` | agent_runner/goal.py:261-282 | Activity is a dirty event or a HEAD moved between the round's own readings |
| `TreadmillMeaning.ActiveMeans` | agent_runner/goal.py:261-282 | By events: a round is active if and only if one of its events finds the tree dirty, or its last reading before and its last reading after name two commits |
| `Treadmill.CheckSignature` | agent_runner/goal.py:297-310 | The last unskipped reading of each named check |
| `TreadmillMeaning.ShowsIff` | agent_runner/goal.py:297-310 | By events: a round shows, under each name, what the last check of that name that ran in it found |
| `Treadmill.FoldMeans` | agent_runner/goal.py:368-386 | A window is constant if and only if any two rounds agree on the checks both made |
| `TreadmillMeaning.StuckMeans` | agent_runner/goal.py:375-395 | By events: a window is stuck if and only if each of its rounds is active, no check that two of them made differs, and one of them made a check that is not met |
| `TreadmillMeaning.NoCheckNotStuck` | agent_runner/goal.py:387-388 | A window in which no check ran is never stuck |
| `Treadmill.EpisodeIs` | agent_runner/goal.py:388-402 | The episode is the longest stretch of matching rounds that reaches the window |
| `Treadmill.AssessTreadmill` | agent_runner/goal.py:313-428 | The advisory is due exactly for a stuck window without an advisory since its episode opened |
| `Treadmill.OneAdvisoryPerEpisode` | agent_runner/goal.py:388-413 | A second advisory means that the round before the new episode, no earlier than the first advisory, lacks activity or differs from the signature |
| `Treadmill.FiresIff` | agent_runner/goal.py:388-413 | An advisory is due if and only if the window is stuck and some earlier round since each advisory given breaks its pattern |
| `Treadmill.RearmsIff` | agent_runner/goal.py:388-413 | For a stuck window the newest advisory decides: another is due if and only if a round since then, before the window, is not active or shows another signature |
| `Treadmill.OnlyProgressRearms` | agent_runner/goal.py:340-351 | If all rounds since the newest advisory make the same checks, a second is due for a stuck window if and only if one of them before it paused or read a check differently |
| `Treadmill.SkippedCheckRearms` | agent_runner/goal.py:340-351 | The exact condition for the failure: if no round since the newest advisory paused or read a check differently, a second is due if and only if one of them made other checks than the window |
| `Treadmill.RepeatedAdvisory` | agent_runner/goal.py:340-351 | Four active rounds in which no check moves, and a second advisory is due |
| `Ledger.WriteLedgerAdvisory` | agent_runner/goal.py:187-212 | The new block, then the longest start of the old ones that fits; the file holds 8192 bytes at most unless the newest stands alone |
| `Ledger.CutIsLongest` | agent_runner/goal.py:197-206 | What is kept is the longest start whose text, encoded, fits in 8192 bytes; the newest block always |
| `Ledger.SizeIsBytes` | agent_runner/goal.py:193-206 | The running total is the encoded length of the text |
| `Ledger.BytesEncoded` | agent_runner/goal.py:205 | The bytes counted are those of the UTF-8 encoding |
| `Utf8.DecodeEncode` | agent_runner/goal.py:196 | Reading the encoding gives the text back |
| `Utf8.EncodeDecode` | agent_runner/goal.py:196 | And no other bytes read as that text |
| `Ledger.BlankDropsOut` | agent_runner/goal.py:199 | Blocks of white space alone drop out of what is read, and no others |
| `Ledger.SplitJoin` | agent_runner/goal.py:191-208 | Splitting undoes joining |
| `Ledger.JoinSplit` | agent_runner/goal.py:191-208 | Joining undoes splitting, for any text |
| `Ledger.ReadBackIff` | agent_runner/goal.py:187-208 | For any earlier text, what was kept is read back if and only if the new block holds no blank line and does not end in a newline, or stands alone |
| `Ledger.FormatCleanIff` | agent_runner/goal.py:149-157 | The writer's format meets that exactly when no field holds a blank line or ends in a newline |
| `Ledger.LedgerHoldsTheNewest` | agent_runner/goal.py:160-212 | After any number of writes the ledger holds the newest of all advisories that fit, newest first |
| `MarkerScan.CarryIsEnough` | agent_runner/agent_runtime.py:843-858 | Carry and new piece hold the marker if and only if all that was read does |
| `MarkerScan.ScanOnce` | agent_runner/agent_runtime.py:843-858 | One scan finds the marker if and only if the log holds it; else the carry is the last bytes, one fewer than the marker has |
| `MarkerScan.ScanDueIff` | agent_runner/agent_runtime.py:836-846 | A scan is due if and only if the one due before it, or the start, lies a second or more back |
| `MarkerScan.Watch` | agent_runner/agent_runtime.py:811-900 | The marker is seen at the first due, readable scan of a log that holds it, however it was split; the agent is killed at the first poll past its grace that finds no child busy |

## Left out

- Quoted and dotted keys, multi-line values, inline tables as values and per-value quoting in TOML: the line model has
  bare-key assignments, headers, comments and blank lines.
- The line separators of Python's `splitlines` other than newline, and carriage returns in the ledger.
- The detectors and texts of the report-only migrations: they enter as functions that do not read the schema version.
- `AnyRun.RunKeepsMeaning`: a run that does run lines together; what each such step may lose is in `MissingNewline.dfy`.
- A sub-table `[t.sub]` of an array element counts as one table in `Toml.dfy`, whichever element it stands under.
- `EventLog.TruncationSeenIff`: sizes are in whole lines; the program compares bytes.
- `EventTail`: order of delivery between different shards in the follow phase, and torn lines.
- `RelayOverShards`: the doorbell; and writers that are not calm, for which `EventTail.RollDuringHandoff` and
  `EventTail.OutOfReachForGood` show what the tail alone does.
- `RemoteRelay`: time stamps without a zone, the kill of the ssh process group, and standard error.
- `Notify`: several followers in one run; each has its own FIFO, so one is modelled. The three-fold retry of opening is not bounded.
- `Throttle.ActiveThrottles`: coercion of fields of a wrong type, which enter as absent.
- The choice of the newest two shards in the throttle scans: the scanned events are given, and a window that covers them.
- `Utf8`: bytes that are no UTF-8, which the ledger's reader replaces.
- `Brake.TargetMeaning`: the step is applied in whole numbers; the program multiplies by a binary fraction before it cuts off.
- The growth-rate warning and the cgroup bookkeeping of a round: observability only.
- The sleep of the back-off, its jitter and its early ends.
- Daylight saving: offsets are fixed.
- `Treadmill.CheckSignature`: values of check readings enter as numbers or as absent.
- Redaction of secrets, HTTP page, presets, plugin discovery, installation, and process control.
