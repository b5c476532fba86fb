# zj-radar, verified

A Dafny model of the state machines and text transforms under zj-radar's sidebar, with proofs of what they promise. The
rail shows, per Zellij tab, what agents push over a pipe and what commands are observed to do; everything here is the code
between those inputs and the rows.

How the files follow the program:

- `Utf8`, `Sanitizer`, `SanitizerLaws`, `Presence`, `Wire`, `Json`, `Payloads` - `payload.rs` and `presence.rs`: the
  escape-sequence scrub by bytes and by characters, the fixpoint test on presence documents, the size of the wire JSON,
  what truncation costs a task batch, and the round trip of a payload through its JSON text.
- `Tasks`, `TaskLaws` - `task.rs`: the merge rule for background tasks, in place and as a function, and its laws.
- `Observation`, `Argv`, `ArgvLaws`, `CommandPane`, `CommandLaws`, `CommandStore`, `CommandRuns` - `observation.rs` and
  `command.rs`. `CommandPane` is one pane of the command store as a state machine over the four things the store's maps
  hold about it. The class in `CommandStore` updates the maps step by step as the source does, and each of its methods
  is proved to be that machine's step on every pane, whatever order it visits them in. `CommandRuns` proves what holds
  over whole runs.
- `Ledger`, `LedgerLaws`, `LedgerOrder` - `ledger.rs`: the ring, the algebra of its union, and when that is associative
  and commutative.
- `StatusStore`, `StatusLaws`, `Rollup`, `RollupLaws`, `Grace`, `RadarState`, `RadarLaws`, `RadarRuns`, `StaleRails`,
  `Attention` - `status_store.rs`, `rollup.rs` and `radar_state.rs`. The class `RadarState` owns the two stores and the
  ledger. Its `Steady` is what every entry point keeps: a memo still being served is the rows of the sources it was
  filled from, and only evictions and foreground changes came in since. Its `Sound` adds that the rail does not show
  them; only a foreground change, or a payload over the cap, can break it. `RadarRuns` says what that means for whole
  runs, and `StaleRails` has two runs that end in an outdated rail.
- `TextLines`, `Layout`, `LayoutLaws`, `LayoutRoundTrip` - the text half of `layout.rs`: the splice, its reversal, and
  exactly which layouts come back.
- `Segments`, `SegmentLaws`, `Shell`, `Dedup`, `Heartbeat` - `agents.rs`, `run.rs`, `dedup.rs` with `notify.rs`: service
  segments, shell quoting, duplicate suppression, and that against the plugin's grace clock.
- `Prelude`, `Vocabulary` - shared types.

The files named `...Laws` say what the small rules mean in plain terms: every number, name and order they rest on is
written out there, apart from the functions that compute with it.

Where a statement the code or its documentation makes does not hold of the code, the code is kept as it is, a concrete
input shows it, and the exact condition is proved:

- The rows memo can serve a stale row after `command_changed` (`EditorGoesUnseen`): a quiet identity is set or dropped
  without invalidating the memo. It happens exactly when the memo is current, no pushed status was cleared, the pane is
  on the rail, nothing active outranks its quiet label, and the label changed (`RadarState.CommandChanged`); what is
  served is wrong in such labels and in nothing else while the store is within its cap (`RadarRuns.Drive`).
- The same can happen after an identical status payload, only when the status store is over its cap of 256, which a
  loaded snapshot can bring about (`EvictionGoesUnseen`): then exactly when an evicted pane on the rail changes its
  face, or a tab the number of its panes that were ever active (`RadarState.StatusPipe`).
- The ledger is documented as newest at the front, and a push need not keep that (`LateRecedeBreaksOrder`). It does
  exactly when the event is there already or the entry is no older than the one in front (`PushKeepsOrderIff`).
- `uninstall` is documented as the true inverse of `inject`. It is one exactly for an anchor that stands alone on its
  line with the closing brace at column 0 (`UninstallRestores`).
- `segment_is_service` indexes past its tokens exactly when the segment ends in a value flag that the walk reaches
  (`PanicsIff`); `npx -p` does.
- The union of ledgers is not associative, and with stamp ties it need not commute (`UnionIsNotAssociative`,
  `TiesDoNotCommute`). Over the entries at hand it is associative exactly when "same event" is transitive on them, and
  commutes exactly when no two of them tie (`AssociativeIffTransitive`, `CommutativeIffTieFree`).
- A snapshot of background tasks keeps its authority when an unreadable item is skipped, and can then end the running
  task that item was about (`UnreadableItemEndsItsTask`). A stored running task stays exactly when a readable item
  reports it running and none reports its end, the cap aside (`OnlyReadableItemsKeepTasks`).
- The user and path of a remote destination are said not to reach the rail, but the user is cut at the last `@` before
  the path is: `u@h/p@q` displays `q` (`AtInPathIsShown`). The host is what is displayed exactly when the path has no
  `@` (`HostIsShownIff`).
- Removing a remote extra does not restore what adding it changed, unless the kind was plain Command
  (`RemoteFlipForgetsKind`).
- Duplicate suppression is invisible while a send is confirmed exactly if it was delivered; a delivery that times out on
  the confirming side can hide the next repeat (`UnconfirmedDeliveryParts`). It shows exactly when an attempt held back
  follows such a delivery of another key (`DedupShowsExactlyWhenShadowed`).

`dafny verify dfyconfig.toml` checks the project.

## Model

| member | source | states |
|---|---|---|
| Utf8.DecodeFrontOfEncode | crates/core/src/payload.rs:295-310 | Decoding the UTF-8 of a character (section 3 of RFC 3629) gives the character and its width back: the step a `&str` takes for granted when the scanner reads the next `char` at a byte offset. |
| Sanitizer.SkipCsi | crates/core/src/payload.rs:305-326 | The index loop over a control sequence ends where the grammar of section 5.4 of ECMA-48 says, a stray byte ending it unconsumed. |
| Sanitizer.SkipOsc | crates/core/src/payload.rs:327-354 | The index loop over an operating-system command ends at BEL, ST or the first other control byte. |
| Sanitizer.Scrub | crates/core/src/payload.rs:295-400 | The byte scanner returns exactly the capped character-level scrub of any text, multi-byte characters inside escape sequences included. |
| Sanitizer.ScannersAgree | crates/core/src/payload.rs:295-400 | The scan by bytes of the UTF-8 of a text pushes exactly what the scan by characters pushes, for every text. |
| Sanitizer.SanitizeInPlace | crates/core/src/payload.rs:269-282 | With the fast path for already clean text, the result is the same function of the input as without it. |
| Sanitizer.CleanTextSurvives | crates/core/src/payload.rs:284-400 | Text whose characters are all kept passes the scrub unchanged. |
| Sanitizer.ScrubbedIsClean | crates/core/src/payload.rs:284-400 | Whatever goes in, every character that comes out is one that is kept. |
| Sanitizer.SanitizedIsClean | crates/core/src/payload.rs:257-282 | A sanitized string is within its cap and holds only kept characters. |
| Sanitizer.FixpointsAreTheCleanStrings | crates/core/src/payload.rs:257-292 | Sanitizing at cap m leaves a string alone exactly when it has at most m characters, all of them kept. |
| Sanitizer.SanitizeTwice | crates/core/src/payload.rs:257-282 | Sanitizing twice is sanitizing once at the smaller cap, so it is idempotent. |
| Sanitizer.ScrubbedAddsOnlySpaces | crates/core/src/payload.rs:295-400 | The scrub invents nothing: a character of the result other than a space was in the input. |
| Presence.Parse | crates/core/src/presence.rs:96-118 | Rosters are cut to their caps first, and the document is then accepted exactly when every string in it is displayable as it stands. |
| Presence.PaneCleanIffDisplayable | crates/core/src/presence.rs:96-118 | The fixpoint test on a pane's strings is the same as all characters kept within the caps. |
| Presence.TabCleanIffDisplayable | crates/core/src/presence.rs:96-118 | The same for a tab and all its panes. |
| Presence.CutIs | crates/core/src/presence.rs:96-112 | The caps in numbers, and what a cut document keeps: its front, in order. |
| Presence.CutTwice | crates/core/src/presence.rs:96-112 | Cutting an oversized document is idempotent: what was cut to its caps needs no more cutting. |
| SanitizerLaws.KeptExactly | crates/core/src/payload.rs:236-292 | A character is kept exactly when it is no C0 or C1 control, no DEL and none of the twelve bidi controls, each by its code. |
| SanitizerLaws.TextIsShown | crates/core/src/payload.rs:295-400 | Of any text made of printed characters, breaks, dropped characters and complete escape sequences, the printed characters are left and each of newline, tab and carriage return as one space; nothing else is. |
| SanitizerLaws.FoldedInPlace | crates/core/src/payload.rs:356-371 | Without escapes or dropped characters the text keeps its length: a space at each newline, tab and carriage return, every other character where it was. |
| SanitizerLaws.StrayEndsCsi | crates/core/src/payload.rs:305-326 | A byte that belongs in no control sequence ends one, and is judged on its own. |
| SanitizerLaws.StrayEndsOsc | crates/core/src/payload.rs:327-354 | A control byte inside an operating-system command ends it, and is judged on its own. |
| SanitizerLaws.OpenSequencesSwallow | crates/core/src/payload.rs:305-354 | A sequence that never ends takes the rest of the text with it. |
| Wire.ItemBytes | crates/core/src/payload.rs:41-48 | One background task on the wire stays within the per-item bound the headroom assertion uses, at up to six bytes per escaped character (section 7 of RFC 8259). |
| Wire.ToWireFits | crates/core/src/payload.rs:34-48 | The JSON of every payload - any text in any field, any number of tasks - is under 65536 bytes. |
| Wire.AuthorityMeansComplete | crates/core/src/payload.rs:192-219 | A parsed batch keeps snapshot authority exactly when it was sent with it and no readable item had to be cut, and then carries every readable item. |
| Wire.OnlyReadableItemsKeepTasks | crates/core/src/payload.rs:200-214 | For every stored list and every batch that keeps its authority, a stored running task is still running only if some readable item reports it running and none reports its end, and if so it is unless sixteen other running tasks crowd it out: an unreadable item about it does not count. |
| Wire.LongBatchLosesAuthority | crates/core/src/payload.rs:498-526 | A batch longer than sixteen on the producer's side arrives without authority. |
| Wire.UnreadableItemEndsItsTask | crates/core/src/payload.rs:200-214 | The failing input: a snapshot whose one item was sent about a stored running task and cannot be read ends that task. |
| Wire.AuthoritySurvivesOnlyWhole | crates/core/src/payload.rs:498-526 | A batch of clean, non-empty ids that went over the wire as a snapshot and arrives as one reports running every task the producer reported running, under its id cut to 32 characters. |
| Wire.TruncatedBatchEndsNothing | crates/core/src/payload.rs:192-219 | A batch the receiver had to truncate ends no stored running task that what survives of it does not name - one named only in the cut tail included - unless sixteen other running tasks crowd it out. |
| Wire.LongBatchEndsNothing | crates/core/src/payload.rs:498-526 | Nor does a batch the producer had to truncate, once it has gone over the wire and been parsed, whatever its ids. |
| Json.ParseOfPrint | crates/core/src/payload.rs:407-411 | Any JSON value printed as `serde_json` prints it, nested and escaped however it may be, is read back as itself (RFC 8259). |
| Payloads.ToWireIsPrinted | crates/core/src/payload.rs:498-526 | The text on the wire is the JSON of the payload's document. |
| Payloads.PayloadRoundTrips | crates/core/src/payload.rs:407-526 | `parse(to_wire(p))` for every payload whatever is in its fields: never refused, the texts cut where they are sent and cleaned and cut where they are read, the tasks as the receiver keeps them, pane, status and acknowledgement as they were. |
| Payloads.PresentableArrivesUnchanged | crates/core/src/payload.rs:407-526 | A payload of clean texts within the caps, and sixteen tasks at most, arrives exactly as it was sent. |
| Payloads.PaneAndStatusAreNeeded | crates/core/src/payload.rs:149-171 | What is read is of a terminal pane, by an id of thirty-two bits, with a status. |
| Payloads.PaneAndStatusAreEnough | crates/core/src/payload.rs:149-178 | With those two alone every other field is empty or off, and without either nothing is read. |
| Payloads.LongTextIsRefused | crates/core/src/payload.rs:407-411 | Past 65536 bytes nothing is read; short of that a printed object is taken by its fields. |
| Payloads.UnknownFieldsAreIgnored | crates/core/src/payload.rs:221-227 | A field of another name changes nothing, wherever it stands and whatever its value - `v` included. |
| Payloads.TwiceIsRefused | crates/core/src/payload.rs:149-178 | A known field given twice makes the payload unreadable. |
| Payloads.TaskItemIs | crates/core/src/payload.rs:180-208 | A task item needs an id and one of the five states; one without either is left out. |
| Payloads.TaskListIsLenient | crates/core/src/payload.rs:192-198 | A task list that is no object is none, and an object without items an empty list. |
| Payloads.WireBytesArePinned | crates/core/src/payload.rs:498-526 | The bytes of one payload with everything in it: names, order and shapes. |
| Tasks.BgTasks.Upsert | crates/core/src/task.rs:195-226 | The in-place upsert updates the first task with the id, or appends. |
| Tasks.BgTasks.Cap | crates/core/src/task.rs:228-240 | Evicting in place until the list fits is the eviction the laws are about. |
| Tasks.BgTasks.Apply | crates/core/src/task.rs:165-193 | Folding a payload into the stored list in place is the merge rule as a function of the old list. |
| TaskLaws.UpsertGrows | crates/core/src/task.rs:195-226 | An upsert keeps ids distinct and end stamps exact, touches no other task, and moves its own only forward. |
| TaskLaws.CapEvictsInOrder | crates/core/src/task.rs:228-240 | At most sixteen tasks stay, in their order, and none that stays should have gone before one that went. |
| TaskLaws.RunningEvictedLast | crates/core/src/task.rs:228-240 | If a running task was evicted, no ended one is left. |
| TaskLaws.ApplyKeepsValid | crates/core/src/task.rs:165-193 | One payload keeps every invariant of the list: distinct ids, at most sixteen, `ended_epoch_s` set exactly when ended, `waiting` only with a holding task stored. |
| TaskLaws.ApplyMovesForward | crates/core/src/task.rs:165-226 | A task stored before and after a payload has only moved forward: Running < Ended < an outcome, an outcome final, `holds` only dropping. |
| TaskLaws.SnapshotIsAuthoritative | crates/core/src/task.rs:176-187 | After a snapshot every task still stored as running was reported running by it. |
| TaskLaws.SnapshotKeepsExactly | crates/core/src/task.rs:165-193 | A stored running task survives a snapshot only if the snapshot reports it running and nowhere ended, and then always, unless sixteen other running tasks crowd it out. |
| TaskLaws.DeltaEndsNothingByOmission | crates/core/src/task.rs:165-193 | A payload without snapshot authority leaves a running task it does not mention as it was, if the cap keeps it. |
| TaskLaws.EveryRunIsValid | crates/core/src/task.rs:165-240 | Every list reachable from the default by any payloads keeps the invariants. |
| TaskLaws.StoredTaskMovesForward | crates/core/src/task.rs:165-240 | Over any stretch of a run during which an id stays stored, its task has only moved forward. |
| TaskLaws.OverIsOver | crates/core/src/task.rs:195-226 | Of a task that is over, an outcome stands; an end without one gives way to an outcome alone, which keeps the end seen. |
| TaskLaws.RunningTakesUpdate | crates/core/src/task.rs:195-226 | A running task takes the state reported, ended now if that is an end, a label unless it is empty, and holds on only if both say so. |
| TaskLaws.OldestGoesFirst | crates/core/src/task.rs:228-240 | Of a task kept and one evicted, the evicted one was over if either was, and of two alike it is the one that ended first, or started first. |
| TaskLaws.NewWorkClearsFinished | crates/core/src/task.rs:165-193 | A payload without tasks drops the finished ones exactly when it is running on a prompt or after a done or an error. |
| TaskLaws.WaitsIff | crates/core/src/task.rs:165-193 | The agent waits exactly after a running payload whose snapshot reports a running task that holds, with a holding running one stored. |
| Observation.ObservationStore.Insert | crates/core/src/observation.rs:170-174 | Inserting hands back what it displaced. |
| Observation.ObservationStore.Prune | crates/core/src/observation.rs:183-188 | Pruning keeps exactly the live panes and hands out exactly the rest. |
| Argv.EffectiveCommand | crates/core/src/command.rs:262-285 | The index loop peels login dashes, wrappers and env assignments as the specification function says, falling back to the whole argv. |
| Argv.PeeledTwice | crates/core/src/command.rs:251-285 | Peeling a peeled command peels nothing more. |
| Argv.BasenameOfSegment | crates/core/src/command.rs:192-197 | The basename of a basename is itself - what the demotion round trip and repeated sanitizing of a repo column rest on. |
| Argv.WalkRemote | crates/core/src/command.rs:495-550 | The index loop over a remote launcher's arguments finds the destination and whether a command follows, as the recursive definition does. |
| Argv.DisplayRemote | crates/core/src/command.rs:495-560 | The display and the has-command answer, whichever launcher. |
| Argv.WalkPastBoundary | crates/core/src/command.rs:495-550 | At an option boundary the walk depends on what came before only through the destination found so far. |
| Argv.OptionsAreInvisible | crates/core/src/command.rs:495-550 | Inserting any well-formed option - a flag cluster, a value option attached or separate, a listed long option with its value - at an option boundary changes neither destination nor has-command answer. |
| Argv.HostOfPlain | crates/core/src/command.rs:470-493 | A bare host is displayed as it stands. |
| Argv.HostOfBracketed | crates/core/src/command.rs:470-493 | A v6 address in brackets is displayed without them, whatever follows. |
| Argv.HostOfBareV6 | crates/core/src/command.rs:470-493 | A bare v6 address is displayed as it stands: no part of it is taken for a port. |
| Argv.HostOfPort | crates/core/src/command.rs:470-493 | A port after a host is dropped. |
| Argv.HostAloneIsShown | crates/core/src/command.rs:464-493 | Whatever the spelling - `ssh://` or not, user, port and path or none of them, a name, a v4 address, a v6 address in brackets or a bare one - the host alone is displayed, as long as the path has no `@`. |
| Argv.AtInPathHidesHost | crates/core/src/command.rs:470-493 | With an `@` in the path the display comes from what follows the last one in the path; the host has no part in it. |
| Argv.HostIsShownIff | crates/core/src/command.rs:464-493 | For given user, port and path, every host is displayed as itself if and only if the path has no `@`. |
| Argv.AtInPathIsShown | crates/core/src/command.rs:470-493 | The failing input: `u@h/p@q` displays `q`. |
| ArgvLaws.PeelsExactly | crates/core/src/command.rs:235-285 | What is peeled off a command: assignments, and the seven wrappers under any path. |
| ArgvLaws.PrefixIsPeeled | crates/core/src/command.rs:262-285 | Whatever of these stands in front, the command is read as without it, unless an option follows it. |
| ArgvLaws.HostedAgentIsNamed | crates/core/src/command.rs:654-681 | `node` or `bun` under any path, any options, and a script named after an agent with or without one of the three extensions: the program is the agent. |
| ArgvLaws.ProgramIsNamed | crates/core/src/command.rs:192-202 | Any other program is named by the last segment of its path. |
| ArgvLaws.ClusterTakesNext | crates/core/src/command.rs:495-550 | A cluster of short options takes the next token exactly when its first letter that has a value is its last. |
| ArgvLaws.ValueLetters | crates/core/src/command.rs:443-450 | The letters that have one, written out; autossh has one more. |
| ArgvLaws.SessionOrCommand | crates/core/src/command.rs:495-560 | A host and nothing after it is a session; with words after it a command runs there, but for mosh-client. The host is shown behind the launcher. |
| ArgvLaws.DoubleDashEndsOptions | crates/core/src/command.rs:495-550 | After `--` every word is one, dashes or not. |
| CommandLaws.PromotesAfterTwoTicks | crates/core/src/command.rs:824-861 | A foreground command becomes a row after two ticks and no sooner, under its label, directory and kind, since this tick or since it started. |
| CommandLaws.ConfirmsAfterTwoTicks | crates/core/src/command.rs:863-884 | Away from the foreground, a running row is done after two ticks and no sooner. |
| CommandLaws.RecedesAfterSixtyTicks | crates/core/src/command.rs:885-905 | With nothing pending, a tick leaves a Done pane as it is exactly until sixty ticks after the change; then it is idle and handed out as it stood. |
| CommandLaws.OthersStand | crates/core/src/command.rs:824-905 | No tick changes a pane with none of the three deadlines; an error never recedes. |
| CommandLaws.TicksAreNeededExactly | crates/core/src/command.rs:1089-1102 | The timer predicates hold exactly when some tick changes the pane or its row spins. |
| CommandLaws.ExitCodeDecides | crates/core/src/command.rs:925-1000 | An exit that applies shows an error exactly when its code is there and not zero, and a completion otherwise. |
| CommandLaws.ExitIsNewsIff | crates/core/src/command.rs:925-1000 | When an exit applies: the four cases, written out, and never twice with one code. |
| CommandLaws.ExitRowsAndDrops | crates/core/src/command.rs:925-1029 | What row an exit leaves, and which completion it hands out. |
| CommandLaws.ExitOutcomeIsFiled | crates/plugin/src/ledger.rs:53-97 | The outcome an exit code stands for is the outcome of the ledger entry its completion makes. |
| CommandLaws.PromptReturnIff | crates/core/src/command.rs:706-760 | A report is the return to the prompt exactly when it is of one of the seventeen shells or the five agents, or of a background process that is not interactive. |
| CommandLaws.ForegroundIsTakenIn | crates/core/src/command.rs:755-802 | Anything else with a display is taken in under it, in the pane's directory, remote if the program is an extra. |
| CommandLaws.ForegroundWaits | crates/core/src/command.rs:755-802 | A command that comes to the front waits since this tick and clears the last exit; a running row stops leaving, unless the newcomer is interactive. |
| CommandLaws.RepoIsLastSegment | crates/core/src/command.rs:192-197 | The repo column is the last segment of the directory, cut to forty characters. |
| CommandLaws.InteractiveSweepDemotes | crates/core/src/command.rs:1112-1169 | What the interactive sweep does to a pane, case by case. |
| CommandLaws.RemoteSweepRekinds | crates/core/src/command.rs:1199-1230 | And the remote sweep: the five built-in launchers, written out, are never rekinded back. |
| CommandLaws.FirstTokenIs | crates/core/src/command.rs:1234-1238 | The first word of a display: past leading space, up to the next, without leading dashes. |
| CommandStores.CommandStore.OnCommandChanged | crates/core/src/command.rs:706-802 | One foreground event changes only its pane, and that pane by the pane machine's intake step. |
| CommandStores.CommandStore.ArmTentativeDone | crates/core/src/command.rs:804-813 | The tentative Done is armed only for a running row, and keeps the first tick. |
| CommandStores.CommandStore.PromoteDue | crates/core/src/command.rs:824-861 | The promotion loop, in any order over the pending map, promotes exactly the panes due, hands out exactly the completions displaced, and reports a change exactly when a row changed. |
| CommandStores.CommandStore.ConfirmDueRows | crates/core/src/command.rs:863-884 | The confirm loop does the same for tentative Dones. |
| CommandStores.CommandStore.RecedeDueRows | crates/core/src/command.rs:885-905 | And the recede loop for Done rows past their time to live. |
| CommandStores.CommandStore.OnTimer | crates/core/src/command.rs:824-905 | The three passes, whichever panes each finds due and in whatever order, come to one independent tick of every pane; what is handed out and completed is exact; `changed` is true exactly when the observation map differs. |
| CommandStores.CommandStore.ApplyExit | crates/core/src/command.rs:925-1029 | An exit report changes only its pane, by the pane machine's exit step, and returns exactly the completion it displaced. |
| CommandStores.CommandStore.Prune | crates/core/src/command.rs:1036-1042 | All four maps are pruned together and everything displayed for a pruned pane is handed out. |
| CommandStores.CommandStore.NeedsTicks | crates/core/src/command.rs:1089-1096 | The timer predicate holds exactly when some pane has scheduled or animated work. |
| CommandStores.CommandStore.HasDoneAwaitingRecede | crates/core/src/command.rs:1098-1102 | Holds exactly when some pane shows a Done. |
| CommandStores.CommandStore.SetInteractiveExtras | crates/core/src/command.rs:1112-1169 | The sweep re-judges every pending and demotes every running row it should, and reports a change exactly when some pane changed. |
| CommandStores.CommandStore.SetRemoteExtras | crates/core/src/command.rs:1199-1230 | The remote sweep likewise. |
| CommandPane.PromotedRowsDoNotRecede | crates/core/src/command.rs:824-905 | A promotion that displaces a completion leaves nothing to recede on the same tick, so one tick hands out at most one completion for a pane. |
| CommandPane.NoPassUndoesAnother | crates/core/src/command.rs:824-905 | A row the tick leaves as it was, none of the three passes touched - why `changed` can be the disjunction of the passes. |
| CommandRuns.Handle | crates/core/src/command.rs:706-1230 | Each entry point of the store is one step of the pane machine on every pane, and hands out what that step says. |
| CommandRuns.Drive | crates/core/src/command.rs:706-1230 | After any sequence of events the store holds, pane by pane, what the run of the pane machine says. |
| CommandRuns.StepKeepsInvariants | crates/core/src/command.rs:706-1230 | Every event keeps the relations between the maps. |
| CommandRuns.EveryRunIsCoherent | crates/core/src/command.rs:706-1042 | In every reachable state an exit on record excludes a pending command and a running row, only a running row can be leaving, and a row is stamped exactly while it is Done or Error. |
| CommandRuns.CompletionsAreConserved | crates/core/src/command.rs:824-1042 | Over every run from an empty store, for each pane, outcome and stamp: the completions ever stamped equal the ones handed out plus the one still displayed. |
| CommandRuns.CommandRunsItsCourse | crates/core/src/command.rs:706-905 | A foreground command becomes a running row under its own label and directory after the debounce, a stamped Done once away for the debounce, and Idle with the completion handed out once its time to live is over. |
| CommandRuns.FlickerIsIgnored | crates/core/src/command.rs:798-885 | A running command that leaves the foreground and is reported again inside the debounce keeps its row, start included, and completes nothing. |
| CommandRuns.EditorNeverRuns | crates/core/src/command.rs:706-802 | An interactive command never becomes a running row, over any ticks: it is only a quiet identity. |
| CommandRuns.InFlightExitApplies | crates/core/src/command.rs:925-1029 | The exit of a run in flight always applies: it labels, stamps and clears. |
| CommandRuns.ReplayedExitIsSilent | crates/core/src/command.rs:925-1029 | Replaying a reported exit, after any ticks, sweeps, prompt returns and other replays with no new foreground intake and no prune, changes nothing and returns nothing. |
| CommandRuns.IdleTickIsIdentity | crates/core/src/command.rs:1089-1102 | With nothing needing ticks and no Done awaiting its recede, every tick is the identity: disarming the timer is safe. |
| CommandRuns.DueTickChangesPane | crates/core/src/command.rs:824-905 | Conversely a pane with a scheduled step changes once its deadline has passed. |
| CommandRuns.InteractiveSweepIsIdempotent | crates/core/src/command.rs:1112-1169 | A second identical interactive sweep changes nothing. |
| CommandRuns.DemotionIsUndone | crates/core/src/command.rs:829-861 | Adding a running row's name to the interactive set and taking it out again, with a tick past the debounce, gives the row back with the same repo, message and kind, and emits no completion. |
| CommandRuns.RemoteSweepIsIdempotent | crates/core/src/command.rs:1199-1230 | A second identical remote sweep changes nothing. |
| CommandRuns.RemoteFlipForgetsKind | crates/core/src/command.rs:1199-1230 | Adding a remote extra and taking it out gives a row its kind back exactly when the kind was plain Command: any other kind is lost. |
| Ledgers.Merge | crates/plugin/src/ledger.rs:190-202 | The keep loop is the union the laws are about. |
| Ledgers.Ledger.Push | crates/plugin/src/ledger.rs:149-157 | A push adds the entry in front unless the same event is there, and says which. |
| Ledgers.Ledger.Replace | crates/plugin/src/ledger.rs:175-179 | Loading sorts newest first and caps. |
| LedgerLaws.HandedOutCompletionIsAccepted | crates/plugin/src/ledger.rs:53-97 | Every completion any run of the command store hands out makes a ledger entry, with its original stamp and outcome. |
| LedgerLaws.EntryColumnsAreNeverBlank | crates/plugin/src/ledger.rs:53-122 | The tab name and label columns of an entry are never blank. |
| LedgerLaws.UnionIsARing | crates/plugin/src/ledger.rs:190-202 | A union is newest first, at most 32 entries, no two of them the same event, all of them from the inputs. |
| LedgerLaws.UnionLosesNothing | crates/plugin/src/ledger.rs:190-202 | Every input entry is kept, matched by a kept entry at least as late, or cut by the cap behind 32 entries at least as late. |
| LedgerLaws.RingAbsorbs | crates/plugin/src/ledger.rs:190-202 | A ring, merged with any list its entries already cover behind it, stays as it is. |
| LedgerLaws.UnionAbsorbsItsInputs | crates/plugin/src/ledger.rs:190-202 | merge(merge(a,b),a) = merge(merge(a,b),b) = merge(a,b). |
| LedgerLaws.UnionIsIdempotent | crates/plugin/src/ledger.rs:190-202 | Merging a ring with itself changes nothing. |
| LedgerLaws.UnionCommutes | crates/plugin/src/ledger.rs:190-202 | The union commutes when entries of the two sides that share a stamp are the same entry. |
| LedgerLaws.TiesDoNotCommute | crates/plugin/src/ledger.rs:190-202 | With a tie it need not: a concrete pair. |
| LedgerLaws.UnionIsNotAssociative | crates/plugin/src/ledger.rs:124-130 | Stamps 0, 3 and 6 on one key: the relation within four seconds is not transitive and the union not associative. |
| LedgerOrder.UnionAssociates | crates/plugin/src/ledger.rs:190-202 | Where the relation is transitive on the entries of three lists, their union is associative, cap included. |
| LedgerOrder.AssociativeIffTransitive | crates/plugin/src/ledger.rs:124-130 | Over the lists drawn from a set of entries, the union is associative if and only if the relation is transitive on them. |
| LedgerOrder.CommutativeIffTieFree | crates/plugin/src/ledger.rs:190-202 | And it commutes if and only if entries of the set that share a stamp are the same entry. |
| LedgerLaws.PushKeepsSeparation | crates/plugin/src/ledger.rs:149-157 | A push never puts the same event in twice. |
| LedgerLaws.PushKeepsOrderIff | crates/plugin/src/ledger.rs:133-157 | A ring that is newest first stays so under a push if and only if the event is there already or the entry is no older than the one in front. |
| LedgerLaws.LateRecedeBreaksOrder | crates/plugin/src/ledger.rs:133-157 | The failing input: a completion stamped 100 that recedes after one stamped 110 goes in front of it. |
| LedgerLaws.LoadedRingStaysSeparated | crates/plugin/src/ledger.rs:175-179 | Nor does loading a separated list. |
| LedgerLaws.EntryIs | crates/plugin/src/ledger.rs:53-97 | A stamped completion makes an entry and nothing else does: success for a done, failure for an error, at its stamp. |
| LedgerLaws.EntryLabelIs | crates/plugin/src/ledger.rs:53-97 | The label is what the row said; without a word an agent's turn is called done and a command goes by its kind. |
| LedgerLaws.TabNameIsTrimmed | crates/plugin/src/ledger.rs:111-122 | Space around a tab's name is no part of the name in the entry. |
| LedgerLaws.SameEventIff | crates/plugin/src/ledger.rs:124-130 | Two entries are one event exactly when pane, outcome and label agree and the stamps are at most four seconds apart. |
| LedgerLaws.PushIs | crates/plugin/src/ledger.rs:149-157 | A new entry goes in front and the thirty-third goes; a known one changes nothing. |
| LedgerLaws.SortIsStable | crates/plugin/src/ledger.rs:175-179 | The sort is newest first and keeps the order of entries with one stamp. |
| StatusStores.StatusStore.Apply | crates/plugin/src/status_store.rs:69-145 | A payload leaves the merged row, hands back the old one, recedes it exactly when it was a completion overwritten by something else, and evicts the oldest rows beyond 256; the grace clocks that stop are the pane's and those of the panes evicted. |
| StatusStores.StatusStore.EvictOverCap | crates/plugin/src/status_store.rs:147-157 | The eviction loop keeps exactly the newest, by tick and then pane id. |
| StatusStores.StatusStore.ClearOnPromptReturn | crates/plugin/src/status_store.rs:173-187 | A running row only starts its grace clock, which repeats do not reset; any other active row is cleared and handed back. |
| StatusStores.StatusStore.ClearOnExit | crates/plugin/src/status_store.rs:201-207 | A dead pane root clears any active row and hands it back. |
| StatusStores.StatusStore.ExpireStaleRunning | crates/plugin/src/status_store.rs:217-236 | Exactly the running rows whose grace has run out are cleared. |
| StatusStores.StatusStore.Prune | crates/plugin/src/status_store.rs:269-272 | Rows and grace clocks are pruned together. |
| StatusStores.NoTraceNoChange | crates/plugin/src/radar_state.rs:752-767 | While the store is within its cap, a payload whose row comes out as it went in changed no row at all - why the early return may skip invalidating the rows. |
| StatusStores.OverCapEvicts | crates/plugin/src/radar_state.rs:752-767 | Over the cap, which a snapshot load can reach, taking in any payload evicts rows. |
| StatusStores.CapDecides | crates/plugin/src/radar_state.rs:752-767 | A payload that leaves its own row as it was leaves all rows exactly when the store is within its cap. |
| StatusStores.RebroadcastChangesNothing | crates/plugin/src/status_store.rs:69-145 | Re-broadcasting the payload a row came from (without background tasks), at any later tick and time, leaves the row exactly as it is. |
| StatusLaws.TaskIsSticky | crates/plugin/src/status_store.rs:81-90 | After any run of payloads for a pane the row's task is the last non-empty one since the last idle payload. |
| StatusLaws.TaskIsReset | crates/plugin/src/status_store.rs:81-90 | With none since, it is empty after an idle payload, and what it was before the run otherwise. |
| StatusLaws.ChangedWhenStatusBegan | crates/plugin/src/status_store.rs:69-76 | The change tick is that of the first payload of the current status, however many repeat it. |
| StatusLaws.StampedWhenFirstSaid | crates/plugin/src/status_store.rs:91-104 | A completion or a question is stamped when its status and message were first said; repeats do not move the stamp, and nothing else carries one. |
| StatusLaws.KeptAllAlong | crates/plugin/src/status_store.rs:69-125 | A run that only repeats the row's status and message keeps its tick and stamps. |
| StatusLaws.LatestColumns | crates/plugin/src/status_store.rs:69-145 | Status, repo, branch, message, kind and acknowledgement are the latest payload's. |
| StatusLaws.EverActiveExactly | crates/plugin/src/status_store.rs:69-125 | A row was ever active exactly when some payload of the run was not idle, or it was before. |
| StatusLaws.TasksFollow | crates/plugin/src/status_store.rs:69-145 | The row's tasks are the merge rule over the run, with each payload's own status before it and its label as the prompt. |
| StatusLaws.WhatClears | crates/plugin/src/status_store.rs:173-207 | A return to the prompt clears questions, completions and errors; a dead pane running rows besides. |
| StatusLaws.ClearedRow | crates/plugin/src/status_store.rs:155-207 | What a cleared row keeps and what it loses. |
| StatusLaws.GraceIsFifteenTicks | crates/plugin/src/status_store.rs:217-236 | The grace of a running row back at the prompt is fifteen ticks. |
| StatusLaws.EvictionKeepsNewest | crates/plugin/src/status_store.rs:147-157 | Beyond two hundred and fifty-six rows the oldest go, of one tick the smaller pane ids. |
| Rollup.MostSevereWins | crates/plugin/src/rollup.rs:290-378 | A tab shows the most severe of its panes' observations, or nothing when none is active, and done and pending never exceed the total. |
| Rollup.AlikeRows | crates/plugin/src/radar_state.rs:419-431 | The rows depend on the two stores only through each pane's resolved observation and quiet identity. |
| Rollup.LabelsReachTheRows | crates/plugin/src/rollup.rs:290-350 | What is pending reaches the rows in the labels of waiting panes alone, and reaches them exactly when some pane on the rail has another quiet identity that no active observation outranks. |
| Rollup.RailStaysIff | crates/plugin/src/rollup.rs:290-378 | After any evictions from the status store and any foreground changes the rows are the same if and only if every evicted pane on the rail has the same face from the command store, no other is labelled otherwise, and every tab adds up to the same summary. |
| Rollup.RailStaysByCounts | crates/plugin/src/rollup.rs:290-378 | Between genuine rows the summaries come down to one number a tab: how many of its panes were ever active. |
| Rollup.UnseenPaneByPane | crates/plugin/src/rollup.rs:290-378 | It is enough that each evicted pane shows the same face and counts the same from the command store. |
| RollupLaws.WorstStatusShows | crates/plugin/src/rollup.rs:290-378 | The status shown, spelled out: Error when any pane is in error; else Pending; else Running; Done only when every other active pane is done; nothing when none is active. |
| RollupLaws.WinnerIsShown | crates/plugin/src/rollup.rs:350-378 | The detail is that of one pane: active, of the status shown, and before every other of that status - a job before a steady one, then the later change, then the later pane. |
| RollupLaws.CountsAreExact | crates/plugin/src/rollup.rs:290-378 | Total, done and pending are the numbers of panes ever active, of those done and of those asking; the spinner and the remote mark show exactly when some pane gives cause. |
| RollupLaws.FaceIs | crates/plugin/src/rollup.rs:290-350 | What a pane's line shows: its row while busy, else its quiet label, else its row if it was ever active, else its title. |
| RollupLaws.FollowedShowsRow | crates/plugin/src/rollup.rs:387-400 | A row is shown as it is, and only an observed command has an outcome, success or failure with its code. |
| RollupLaws.PushedHidesObserved | crates/plugin/src/radar_state.rs:960-966 | What is pushed for a pane hides what is observed in it. |
| RollupLaws.FocusIs | crates/plugin/src/rollup.rs:41-44 | The focus is in the first focused floating pane while those show and one is focused, and in the first focused tiled one otherwise. |
| RollupLaws.RowsAre | crates/plugin/src/radar_state.rs:419-434 | A row a tab in their order: numbered from one, and with name, marks, flash, lines and status of that tab. |
| RadarStates.RadarState.Rows | crates/plugin/src/radar_state.rs:390-405 | From any steady state the rows served, memo or not, are those of the sources the memo was filled from, and equal the rows recomputed exactly when the rail stays from those sources to the present ones; from a sound state they equal them. Within a generation the count of lit flashes determines the lit set. |
| RadarStates.RadarState.SoundIffServes | crates/plugin/src/radar_state.rs:390-405 | A steady state is sound exactly when a memo that would be served holds what the rows are. |
| RadarStates.RadarState.TabsChanged | crates/plugin/src/radar_state.rs:440-466 | Tabs are sanitized and sorted by position; the generation moves exactly when the set differs from the one before; the memo stays as good as it was. |
| RadarStates.RadarState.CwdChanged | crates/plugin/src/radar_state.rs:666-672 | A cwd feeds naming only; the memo stays as good as it was. |
| RadarStates.RadarState.LedgerReceded | crates/plugin/src/radar_state.rs:1116-1138 | Whatever order the rows come in, the ledger takes exactly the entries they make, and the memo generation only grows. |
| RadarStates.RadarState.Timer | crates/plugin/src/radar_state.rs:632-664 | A tick steps every pane, expires stale rows, flashes the tabs of remote sessions that ended and ledgers what receded; not touching the memo when it reports no change is sound, the lazy flash expiry included. |
| RadarStates.RadarState.CommandChanged | crates/plugin/src/radar_state.rs:680-731 | The new state and the ledger exactly; whatever comes in, the memo stays the rows of the sources it was filled from, and a sound one stays sound if and only if a status was cleared, no memo was being served, or the pane's quiet identity did not visibly change. |
| RadarStates.RadarState.StatusPipe | crates/plugin/src/radar_state.rs:736-832 | The row, flash and ledger exactly. The untouched early return is sound while the status store is within its cap; over it, exactly when no memo is being served or the rail does not show the eviction - between genuine rows, in its faces and in one count a tab. |
| RadarStates.RadarState.SetInteractiveCommands | crates/plugin/src/radar_state.rs:865-871 | The sweep with its touch keeps the memo sound. |
| RadarStates.RadarState.SetRemoteCommands | crates/plugin/src/radar_state.rs:877-883 | Likewise the remote sweep. |
| RadarStates.RadarState.LoadSnapshot | crates/plugin/src/radar_state.rs:332-362 | Each entry goes to the store of its origin, a command Done restarts its time to live at the adopted tick, the ledger is replaced, and the memo is invalidated. |
| RadarStates.RadarState.PanesChanged | crates/plugin/src/radar_state.rs:494-617 | Exits, grace rule and ledgering as one function of what the manifest finds; afterwards both stores' panes lie in the live set or in `absent_once`, every pane in `absent_once` carries the tab captured at this absence, a persist is requested exactly when an exit took something off the card or a store dropped something, and the memo is sound. |
| RadarStates.RadarState.NextAttentionTab | crates/plugin/src/radar_state.rs:374-381 | The target is a tab whose rolled-up status needs attention, picked by the cycling laws. |
| StaleRails.InteractiveGoesUnseen | crates/plugin/src/radar_state.rs:687-719 | Any argv taken in as an interactive program, in a bare pane on the rail with a memo filled: the rail served next is not the one recomputed. |
| StaleRails.EditorGoesUnseen | crates/plugin/src/radar_state.rs:687-719 | A whole run of it from a new radar state - tabs, manifest, look, `nvim` to the foreground, look: it ends in a state whose memo answers with rows other than the ones recomputed. |
| StaleRails.EvictionGoesUnseen | crates/plugin/src/radar_state.rs:752-767 | A whole run of the other exception: a snapshot of 257 rows, look, the 257th payload again as it was, look - the rail served still shows the pane evicted. |
| RadarStates.CompletionChangesRow | crates/plugin/src/radar_state.rs:632-664 | A completion on a tick always shows as a row change, so the flash it arms never rides an untouched memo. |
| RadarStates.ExitsAreLocal | crates/plugin/src/radar_state.rs:526-548 | The exits of other panes leave a pane alone. |
| RadarStates.DroppedCompletionIsFiled | crates/plugin/src/radar_state.rs:592-600 | A completion of either store that showed on the card and is dropped by a second absence is filed under the tab captured at the first: the ledger the manifest leaves holds it, or so many new entries followed that they pushed it past the cap. |
| Grace.OfferIsHeld | crates/plugin/src/ledger.rs:149-157 | Any entry offered to a ring is in it right away, in front when it is new, and still in it at the end unless its place and the new entries after it come to thirty-two. |
| RadarRuns.Take | crates/plugin/src/radar_state.rs:332-883 | Each entry point, a snapshot of any size and a foreground change included, keeps the invariants, and what is known of a run: soundness without foreground changes and over-cap snapshots, the cap without the latter, genuine rows with genuine snapshots. |
| RadarRuns.TakePanes | crates/plugin/src/radar_state.rs:494-617 | A manifest: a pane with a row keeps it if it is listed or not yet in grace, no other pane has one afterwards, and `absent_once` is the next in the history of manifests. Every completion it gives up, of either store, is in the ledger it leaves under the tab of the first absence, or was pushed out. |
| RadarRuns.Drive | crates/plugin/src/radar_state.rs:332-883 | Over every run of every entry point, snapshots of any size included: each rail served is that of sources dating from the start or from a look that recomputed, which only evictions and foreground changes left behind, and it is the one recomputed exactly when those do not show. With no snapshot over the cap the two differ in labels alone; with no foreground change besides, not at all. The panes in grace are those the history of manifests says. |
| RadarRuns.SeenPaneKeepsItsRow | crates/plugin/src/radar_state.rs:549-592 | Over every run without a snapshot load, of however many payloads for panes the store has room for, a pane with a row that is listed in at least one of every two manifests still has one at the end. |
| RadarLaws.TabsAreSorted | crates/plugin/src/radar_state.rs:440-466 | The tabs on the rail are the ones reported, in the order of their positions. |
| RadarLaws.IndexIsLastTab | crates/plugin/src/radar_state.rs:1046-1061 | For the ledger a pane counts to the last tab that seats it. |
| RadarLaws.TabIsFirstTab | crates/plugin/src/radar_state.rs:922-929 | For a flash, to the first. |
| RadarLaws.FlashLastsTwoTicks | crates/plugin/src/radar_state.rs:1035-1044 | A flash lasts this tick and the next, and other tabs' flashes stay as they were. |
| RadarLaws.ClocksAre | crates/plugin/src/radar_state.rs:700-731 | A running row back at a shell starts its grace clock, once; only an agent in front stops it. |
| RadarLaws.OfferIs | crates/plugin/src/radar_state.rs:1095-1138 | A receded row is offered exactly when it makes an entry, its pane is in a known tab, and no pushed row hid it. |
| RadarLaws.PushedAreFiledFirst | crates/plugin/src/radar_state.rs:597-600 | What a manifest drops is filed pushed rows first, then observed ones. |
| RadarLaws.ExitTakesOff | crates/plugin/src/radar_state.rs:526-548 | An exit steps the pane, clears a pushed row that is not idle, offers what each took off the card, and flashes the tab when a remote session was running. |
| RadarLaws.LastEntryIsLoaded | crates/plugin/src/radar_state.rs:332-362 | Of a snapshot's entries for a pane and origin the last one counts, loaded as it is but for a command's Done, whose sixty ticks start over. |
| RadarRuns.SecondAbsenceDrops | crates/plugin/src/radar_state.rs:572-592 | And a pane with a row that two manifests in a row miss, having been listed before, has none after the second, whatever steps come between them. |
| RadarRuns.SecondAbsenceFiles | crates/plugin/src/radar_state.rs:572-600 | And its pushed completion, if nothing on the way is about the pane, is in the ledger afterwards under the tab the pane was in before the first of the two, or was pushed out by newer entries. |
| Grace.TrackedAreCovered | crates/plugin/src/radar_state.rs:572-586 | Every pane still tracked after a manifest is live or in grace. |
| Grace.FiledUnderCapturedTab | crates/plugin/src/radar_state.rs:583-586 | A drop is filed under the tab identity captured when the pane first went missing, whatever the topology says now. |
| Grace.OffersAreExact | crates/plugin/src/radar_state.rs:1116-1138 | The ledger is offered exactly the entries of the receded rows that make one: not of a command row a pushed status was hiding, nor of a pane in no known tab. |
| Attention.NoTargetIff | crates/plugin/src/radar_state.rs:31-50 | There is no target exactly when no tab needs attention or only the active one does. |
| Attention.TargetNeedsAttention | crates/plugin/src/radar_state.rs:31-50 | A target is always a tab that needs attention. |
| Attention.StepsAround | crates/plugin/src/radar_state.rs:31-50 | From a member, Next goes to the following member and Prev to the preceding one, around the ends. |
| Attention.StepsFromAnywhere | crates/plugin/src/radar_state.rs:31-50 | From any active tab, needing attention or not, a step goes to the closest member past it, and to the first in that direction when there is none or no tab is active. |
| Attention.NextAndPrevAreInverse | crates/plugin/src/radar_state.rs:31-50 | With two members or more, Next and Prev are inverse permutations of them. |
| Attention.NextComesRound | crates/plugin/src/radar_state.rs:31-50 | Repeated Next is back after exactly as many steps as there are members. |
| Attention.NextVisitsAll | crates/plugin/src/radar_state.rs:31-50 | On the way it visits every member. |
| Attention.NextRepeatsNone | crates/plugin/src/radar_state.rs:31-50 | And none of them twice. |
| Layout.IndentBlock | crates/cli/src/layout.rs:492-504 | Joining lines at an indent, blank lines staying blank, as the recursive definition does. |
| Layout.Inject | crates/cli/src/layout.rs:266-329 | From the parser's offsets, the splice is the layout rebuilt around anchor and brace. |
| Layout.Uninstall | crates/cli/src/layout.rs:355-428 | The cursor loop, which looks back over the whole text for the start of a line, computes the reversal defined region by region. |
| LayoutRoundTrip.UninstallRestores | crates/cli/src/layout.rs:266-428 | For a layout without begin markers and any additions without the block's end marker, `uninstall` after the splice gives the layout back character for character if and only if the anchor is the bare token behind indentation alone, a newline follows it at once, and the closing brace is at column 0. |
| LayoutRoundTrip.IndentedOutcome | crates/cli/src/layout.rs:355-428 | What comes back in general for an anchor behind indentation: the bare token on its own line, then what was kept, less one blank line. |
| LayoutRoundTrip.MidLineStaysMarked | crates/cli/src/layout.rs:375-383 | With text before the anchor on its line, the begin marker survives: `uninstall` passes over it. |
| LayoutRoundTrip.NothingToUninstall | crates/cli/src/layout.rs:361-374 | Without begin markers `uninstall` returns nothing. |
| LayoutRoundTrip.FencesInUseAreUsable | crates/cli/src/layout.rs:183-190 | The four fences in use are comment markers that part from each other, as the round trip assumes. |
| LayoutLaws.SplicedLines | crates/cli/src/layout.rs:266-329 | The lines of the result: those before the anchor, the wrap in its place at its indent, those after it, the additions between the block markers, and what closes the layout. |
| LayoutLaws.WrapHoldsTheAnchor | crates/cli/src/layout.rs:192-204 | The split has one line that is the `children` anchor, beside a pane that runs the radar, and closes every brace it opens. |
| Segments.SegmentIsService | crates/cli/src/agents.rs:391-453 | The token walk and the rules, with the out-of-bounds index as an outcome of its own. |
| Segments.PanicsIff | crates/cli/src/agents.rs:414-436 | The index past the end happens exactly when the last token is a value flag that the walk from the head stops at. |
| Segments.NpxTrailingFlagPanics | crates/cli/src/agents.rs:414-436 | `npx -p` is such a segment. |
| Segments.PrefixChangesNothing | crates/cli/src/agents.rs:391-453 | Any sequence of wrapper words and env assignments in front leaves the outcome as it is, panic included. |
| Segments.TablesInUseAreSensible | crates/cli/src/agents.rs:323-345 | The tables in use meet what the invariance assumes. |
| SegmentLaws.PhraseServes | crates/cli/src/agents.rs:391-453 | A phrase of the table serves wherever a command starts, by the words of its tokens. |
| SegmentLaws.ScriptServes | crates/cli/src/agents.rs:432-437 | A `dev` or `start` script behind a runner serves. |
| SegmentLaws.FilteredScriptServes | crates/cli/src/agents.rs:432-437 | And behind the value of a runner's flag. |
| SegmentLaws.PortForwardServes | crates/cli/src/agents.rs:443-444 | `kubectl` serves with `port-forward` anywhere behind it. |
| SegmentLaws.ViteServesUnlessBuilding | crates/cli/src/agents.rs:438 | `vite` serves exactly when it does not build, a phrase or a watch flag aside. |
| SegmentLaws.ComposeServesUnlessDetached | crates/cli/src/agents.rs:439-442 | `docker compose up` serves exactly when none of the flags that end it is there. |
| SegmentLaws.WatchServes | crates/cli/src/agents.rs:445-452 | A watch flag serves unless it is off, or the command is `gh` or `kubectl rollout status`. |
| SegmentLaws.GhEnds | crates/cli/src/agents.rs:445-452 | `gh` never serves by a watch flag. |
| SegmentLaws.PythonModuleServes | crates/cli/src/agents.rs:423-427 | The module of `python -m` is the command. |
| SegmentLaws.PlainCommandEnds | crates/cli/src/agents.rs:391-453 | A command outside the table that meets none of the rules does not serve. |
| Shell.JoinRoundTrips | crates/cli/src/run.rs:170-183 | Splitting the joined command line as the Shell Command Language does gives back the arguments, empty ones and ones full of quotes included. |
| Shell.QuotedIff | crates/cli/src/run.rs:175-183 | An argument stands bare exactly when it is not empty and has only letters, digits and the nine safe signs; without an apostrophe any other is the same text in single quotes. |
| Dedup.HeldBackIff | crates/cli/src/dedup.rs:95-102 | An attempt is held back exactly when it is no edge and repeats the running key recorded less than ten seconds ago. |
| Dedup.LastSent.IsDuplicate | crates/cli/src/dedup.rs:132-137 | The record suppresses only an identical running key, stamped no later than now, inside the window. |
| Dedup.LastSent.Broadcast | crates/cli/src/notify.rs:169-218 | Check, send, record: an edge always goes out, and only a confirmed send is remembered. |
| Dedup.DedupIsInvisible | crates/cli/src/dedup.rs:95-102 | When sends are confirmed exactly if delivered, the receiver has after every run the key it would have with dedup off. |
| Dedup.ReceiverHasTheLatest | crates/cli/src/dedup.rs:95-102 | When every send arrives, the receiver has the last attempt's key. |
| Dedup.LastDeliveryIsShown | crates/cli/src/dedup.rs:95-102 | What the receiver shows after any run is the key of the last attempt sent and delivered; if that one was confirmed, it is also the producer's record. |
| Dedup.DedupShowsExactlyWhenShadowed | crates/cli/src/dedup.rs:95-102 | Over any run from a faithful line, the receiver has after every attempt the key it would have with dedup off if and only if no attempt held back, that would have arrived, follows an unconfirmed delivery of another key as the last delivery before it. |
| Dedup.UnconfirmedDeliveryParts | crates/cli/src/notify.rs:213-217 | Such a run: a `done` delivered without confirmation, then the running key again within the window. |
| Dedup.HeardWithinTtl | crates/cli/src/dedup.rs:67-102 | After each attempt of an unchanged key the receiver last heard less than the window ago. |
| Dedup.NeverQuietPastTheGrace | crates/core/src/pipe.rs:59 | A producer that attempts an unchanged `running` at least every five seconds is quiet for at most fourteen, under the plugin's fifteen. |
| Heartbeat.NeverExpires | crates/plugin/src/status_store.rs:173-236 | Both ends joined: while a producer's hook fires at least every five seconds, however its repeats are suppressed and however often the pane shows a shell in between, no timer expires its row. |
| Dedup.FourteenIsReached | crates/cli/src/dedup.rs:67-75 | Fourteen is attained. |

## Left out

- RadarRuns.SecondAbsenceFiles: follows pushed completions from the first absence to the second; for observed ones,
  which ticks and sweeps may change on the way, RadarRuns.TakePanes starts at the second.
- Heartbeat.NeverExpires: one clock, a second a tick, and only the events of the one pane.
- The KDL parser and `clap`: `inject` starts from the parser's anchor and brace offsets.
- Of `serde_json`: negative and fractional numbers, escapes outside the basic plane and the nesting limit of 128 are not
  read or not kept; a payload of this program has none of them. Snapshots and presence documents start from parsed
  fields.
- Tokenizing a command line into segments and tokens before `segment_is_service`; the phrase table is a parameter.
- Label and keyword tables of `classify`: a parameter of the command store, any function at all; so is the kind of a
  source in the status store, whose table is `Vocabulary.KindFromSource`.
- Machine widths: ids, ticks and epoch seconds are unbounded, so a wrap of `tick + FLASH_TICKS` or of the generation
  counter is not modelled. Saturating subtraction is.
- Strings and lists the source edits in place inside one call (`sanitize_in_place`, the buffer `inject` builds, the
  background tasks inside a stored row) are returned values; the stores, a pane's background-task list, the ledger, the
  record file and the radar state are objects updated in place.
- `sort_unstable_by_key` on tabs and `sort_by_key` on ledger entries are stable insertion sorts; tabs at one position,
  which Zellij does not produce, would be ordered by the report.
- Positions in a layout count characters, not bytes; no step of the splice cuts inside a character.
- The order in which a hash map hands out several receded rows: every order is covered, and the ledger is described by
  the order taken.
- `PaneUpdate::from_raw`, tab naming, cwd bootstrap reads, focus notes, theme colours, snapshot encoding, and the parts
  of `RadarChange` that only steer rendering and notification.
- `ledger_lines` and its memo: keyed on the generation alone, it has no exception to find.
- `shell_is_service`, `trailing_question`, `baseline_msg`, `plan_run`, `wasm_is_granted`, `session_name`: finite tables
  and straight-line expressions.
- The git probes, process spawning, file locks and clocks around `broadcast`: how a send goes is an input of the step.
- Words of the Shell Command Language beyond quoting: the reference splitter stops at an operator, expansion or pattern
  character instead of giving it a meaning.
