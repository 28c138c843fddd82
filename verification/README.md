# Saucepan: verified models of the core logic

Saucepan coordinates a network of amateur telescopes ("piers"): researchers write small routines that are
compiled to WebAssembly and run at the pier, a task server matches tasks to telescopes, and a compute server
calibrates and cross-checks the photometry.  This project models the parts of it whose correctness is hardest
to see from the code and proves what they are for.  `dafny verify dfyconfig.toml` checks everything.

The parts, and the main result of each:

- **On-pier routine compiler** (`PierSource`, `Numbers`, `Leb128`, `WasmMachine`, `WasmBinary`, `WasmModule`,
  `WasmSoundness`, `CompilerSpec`, `PierTranslation`, `CompilerValidity`, `CompilerAcceptance`, `NameUse`,
  `PierCompiler`, `PierBuild`).  A source semantics, the compiler as it appends to its byte buffer and tables, a
  module builder, a module decoder, a validator and a structured stack machine.  The built bytes decode, the
  decoded module validates exactly when emit actions are statements, and running it makes the same host calls in
  the same order and leaves the same value in every name, turn for turn of every loop.
- **Pier agent** (`PierAgent`).  Any number of assign, preempt and abort commands, interleaved step by step over
  the mutexes, the stop flag and the devices.  Devices an abort idled stay idle until the next new assignment;
  from any state, exactly which captures may still start a device.
- **Refresh sessions** (`Sessions`).  Rotation with reuse detection, as in section 10.4 of RFC 6749: each token is
  exchanged at most once, over every run.
- **Campaign messages** (`BoardWatch`, `BoardStream`).  The pier's bounded de-duplicating buffers with full
  accounting of every message and the exact cases in which one counts as new again; and the server-page plus
  client-cursor protocol.
- **Matching and preemption** (`Handoff`, `Selector`, `CohortFill`).  The selector's gates, scores and preemption
  barrier, the priority floor, and the greedy cohort fill about a running centroid.
- **Robust statistics** (`Zeropoint`, `Consistency`).  The weighted-median zeropoint fit and the chi-square gate.
- **Geometry** (`Coverage`, `Obstruction`, `TargetPhotometry`).  The shortest longitude arc, gaps and duty cycle;
  the ray-casting test; the bounded photometry box.
- **Rate limiter** (`RateLimit`).  The in-memory fixed window, with its exact bound over any interval.
- `Common`, `Reals` and `Sorting` hold what several parts share.

Numbers: the compiler works on IEEE bit patterns with uninterpreted arithmetic; everything else reads floats as
reals.  Outside effects are parameters: the host's answers, the clock, spherical astronomy, feature vectors.

Where the code and its own comments or documentation differ, the model follows the code:

- `build.py:82` calls the scratch slot the last local; locals met later come after it.  Compilation is right
  anyway (`PierBuild.BuiltModuleRunsLikeSource`).
- An emit action used as an operand compiles, but to a module that no validator accepts
  (`CompilerValidity.EmitAsOperandIsAcceptedButInvalid`; the exact condition is `BodyValidExactlyWhen`).
- `x += 1` with `x` never set compiles and reads 0 (`CompilerAcceptance.UnsetTargetIsAccepted`).  In the order of
  the text, an accepted routine reads an unassigned name exactly when some augmented assignment has a target not
  yet known (`NameUse.UnassignedReadExactlyWhen`); along the paths of control, none does exactly when the routine
  is settled (`NameUse.SettledExactlyWhenPathsAssign`), and then no run does (`SettledRoutineIsDefined`).  A
  routine that is not settled may still be safe, when its tests rule the bad path out.
- `drainBoardSnapshot` is documented to return each signal once.  A signal comes again when the message was
  accepted a second time, which happens exactly when it is retained without an id and replayed, or its node was
  cleared, or 512 newer messages stood behind it, before it was delivered again
  (`BoardWatch.AcceptedAgainExactlyWhen`, `AcceptedTwiceExactlyWhen`); in every other run it is returned at most
  once (`DrainedAtMostOnce`).
- `HandlePreemptTask` clears the stop flag before a sleeping capture need have seen it
  (`PierAgent.SleeperMissesPreemption`); the captures a preemption can miss are exactly those with a device call
  still ahead of them (`PreemptionMissedExactlyBy`), and one that reads the raised flag is stopped for good
  (`FlagReadStops`).
- The comment on `rotateSession` says reuse of a revoked token revokes all sessions; only a token replaced by
  rotation does (`Sessions.ReuseExactlyWhenReplaced`).
- The message board promises notes in append order after the cursor; a note is delivered in some continuation
  exactly when it is stored ahead of the cursor (`BoardStream.DeliveredExactlyWhenAhead`), so one stored behind
  it is lost (`LateNoteIsLost`).
- The guard added to an edge's height in the polygon test can put a point outside the bounding box inside
  (`Obstruction.GuardCanPutOutsideInside`, exact in `BoxRespectedExactly`).
- The forbidden-region lookup reduces azimuths with a remainder that keeps the sign.  A verdict depends only on the
  direction an azimuth names exactly when that remainder is not negative (`Obstruction.DirectionDecidesExactlyWhen`);
  below zero no mask written from zero is ever met (`NegativeAzimuthMissesMask`), and a mask written below zero is
  never met from zero up (`NegativeMaskMissesAzimuth`).
- A zero count argument to the zeropoint fit means the default; the count check after clipping never fires
  (`Zeropoint.FitGuarantees`).

## Model

| member | source | states |
|---|---|---|
| Leb128.EncodeUleb | SaucepanSDK/python/saucepan/pier/_wasm.py:66-77 | the loop refuses negatives and otherwise produces the specified unsigned encoding |
| Leb128.UlebRoundTrip | SaucepanSDK/python/saucepan/pier/_wasm.py:66-77 | decoding an unsigned encoding followed by anything gives back the number and the rest |
| Leb128.EncodeSleb | SaucepanSDK/python/saucepan/pier/_wasm.py:80-88 | the loop ends for every integer, negative ones included, with the specified signed encoding |
| Leb128.SlebRoundTrip | SaucepanSDK/python/saucepan/pier/_wasm.py:80-88 | decoding a signed encoding followed by anything gives back the integer and the rest |
| WasmBinary.InstrRoundTrip | SaucepanSDK/python/saucepan/pier/_wasm.py:104-161 | the bytes of any instruction, nested blocks included, parse back to it and leave the rest |
| WasmBinary.CodeRoundTrip | SaucepanSDK/python/saucepan/pier/_wasm.py:104-161 | an instruction stream closed by an end or else byte parses back to the same instructions |
| WasmModule.ModuleRoundTrip | SaucepanSDK/python/saucepan/pier/_wasm.py:171-223 | a section decoder recovers types, imports, memory, exports, local count, body and data from the built bytes |
| WasmSoundness.ValidBodyNeverStuck | SaucepanSDK/python/saucepan/pier/build.py:322-325 | a body that passes stack validation never gets stuck, for any host, memory and number of turns |
| CompilerSpec.InternGrows | SaucepanSDK/python/saucepan/pier/build.py:66-72 | an interned string sits in the pool where its entry says, and earlier entries stay valid |
| CompilerSpec.LocalIndexGrows | SaucepanSDK/python/saucepan/pier/build.py:75-78 | slots are numbered without gaps or sharing and never move |
| CompilerSpec.StmtsGrow | SaucepanSDK/python/saucepan/pier/build.py:88-92 | compiling statements keeps the tables sound and only extends them |
| PierTranslation.FoldCorrect | SaucepanSDK/python/saucepan/pier/build.py:212-231 | one shared scratch slot serves nested and/or chains: the chain leaves the deciding operand and makes exactly the host calls of the operands evaluated |
| PierTranslation.ExprCorrect | SaucepanSDK/python/saucepan/pier/build.py:155-282 | the code of an expression pushes its value, makes its host calls and changes no slot but the scratch one |
| PierTranslation.LoopCorrect | SaucepanSDK/python/saucepan/pier/build.py:128-141 | the loop inside a block with relative branches matches the source loop turn for turn, and leaves through the outer block |
| PierTranslation.StmtsCorrect | SaucepanSDK/python/saucepan/pier/build.py:95-142 | compiled statements end where the source run ends, with the same calls and names, stack unchanged |
| CompilerValidity.BodyValidExactlyWhen | SaucepanSDK/python/saucepan/pier/build.py:95-282 | an accepted routine's body passes stack validation if and only if emit actions occur only as whole statements |
| CompilerValidity.EmitAsOperandIsAcceptedButInvalid | SaucepanSDK/python/saucepan/pier/build.py:255-261 | assigning an emit action to a name compiles but does not validate |
| CompilerAcceptance.AcceptedExactlyWhen | SaucepanSDK/python/saucepan/pier/build.py:95-210 | the compiler accepts a routine if and only if it passes the source-order check, in which a name counts once assigned earlier in the text, on whatever path, and the target of an augmented assignment already in its own right-hand side |
| CompilerAcceptance.SettledRoutineIsDefined | SaucepanSDK/python/saucepan/pier/build.py:164-168 | a routine that assigns each name on every path before reading it never reads an unset name in any run, for any host and any number of turns (sufficient; exact for paths in `NameUse.SettledExactlyWhenPathsAssign`) |
| CompilerAcceptance.SettledRoutineCompiles | SaucepanSDK/python/saucepan/pier/build.py:164-168 | every such routine is accepted |
| CompilerAcceptance.UnsetTargetIsAccepted | SaucepanSDK/python/saucepan/pier/build.py:108-116 | an augmented assignment to a never-set name is accepted although it reads the unset name |
| NameUse.AcceptedByTheText | SaucepanSDK/python/saucepan/pier/build.py:95-210 | the same in terms of the text alone: every form is supported, and every plain read of a name comes after an assignment or augmented assignment to it has begun |
| NameUse.UnassignedReadExactlyWhen | SaucepanSDK/python/saucepan/pier/build.py:108-116 | an accepted routine reads, in the order of the text, a name nothing has assigned iff some augmented assignment has a target not yet known |
| NameUse.SettledExactlyWhenPathsAssign | SaucepanSDK/python/saucepan/pier/build.py:164-168 | when only names are at issue, a routine is settled iff no path of control (either branch, any number of turns) reads a name before assigning it |
| PierCompiler.Emitter.DoubleConst | SaucepanSDK/python/saucepan/pier/_wasm.py:113-115 | appends exactly the encoding of the constant instruction |
| PierCompiler.Emitter.IntConst | SaucepanSDK/python/saucepan/pier/_wasm.py:117-119 | appends exactly the encoding of the constant instruction |
| PierCompiler.Compiler.InternBytes | SaucepanSDK/python/saucepan/pier/build.py:66-72 | the new tables and the returned place are those of the specification |
| PierCompiler.Compiler.LocalSlot | SaucepanSDK/python/saucepan/pier/build.py:75-78 | returns the name's slot, registering it when new |
| PierCompiler.Compiler.ScratchSlot | SaucepanSDK/python/saucepan/pier/build.py:80-85 | returns the one scratch slot, registering it when first needed |
| PierCompiler.Compiler.CompileE | SaucepanSDK/python/saucepan/pier/build.py:155-210 | raises the specified failure, or appends the encoding of the specified code and leaves the specified tables |
| PierCompiler.Compiler.CompileLeaf | SaucepanSDK/python/saucepan/pier/build.py:155-168 | the same for constants, names and string calls |
| PierCompiler.Compiler.CompileBoolOp | SaucepanSDK/python/saucepan/pier/build.py:212-231 | the same for a chain of and/or operands, compiled in a loop |
| PierCompiler.Compiler.CompileLink | SaucepanSDK/python/saucepan/pier/build.py:216-231 | the same for one operator of the chain |
| PierCompiler.Compiler.CompileS | SaucepanSDK/python/saucepan/pier/build.py:95-142 | the same for statements |
| PierCompiler.Compiler.CompileIf | SaucepanSDK/python/saucepan/pier/build.py:117-127 | the same for a conditional |
| PierCompiler.Compiler.CompileWhile | SaucepanSDK/python/saucepan/pier/build.py:128-141 | the same for a loop |
| PierCompiler.Compiler.CompileBlock | SaucepanSDK/python/saucepan/pier/build.py:91-92 | the same for a list of statements, compiled in a loop |
| PierCompiler.Build | SaucepanSDK/python/saucepan/pier/build.py:354-382 | returns the first failure, or the module built from the specified code, local count and pool |
| PierBuild.RoutineCorrect | SaucepanSDK/python/saucepan/pier/build.py:88-282 | from zeroed locals the compiled body does what the routine does, over any memory that starts with the pool |
| PierBuild.BuiltModuleRunsLikeSource | SaucepanSDK/python/saucepan/pier/build.py:354-382 | for every accepted routine, host and turn count: the bytes decode; invalid iff an emit action is an operand; not instantiable iff the pool exceeds a page; otherwise runs like the source and never gets stuck |
| PierBuild.SettledRoutineRunsAlike | SaucepanSDK/python/saucepan/pier/build.py:354-382 | the same without provisos on the run, for routines that assign each name on every path first |
| PierBuild.TerminationCarriesOver | SaucepanSDK/python/saucepan/pier/build.py:66-282 | a routine that ends, ends as a module too, with the same calls and values |
| PierBuild.TerminationIsUnique | SaucepanSDK/python/saucepan/pier/build.py:128-141 | a routine has at most one result, however many turns it is given |
| PierAgent.ApplyKeepsValid | SaucepanClient/internal/pieragent/agent.go:136-501 | every step of every thread keeps the mutex, marker and device invariants |
| PierAgent.PlayKeepsValid | SaucepanClient/internal/pieragent/agent.go:136-501 | so does every interleaving of any number of commands |
| PierAgent.AbortedDevicesStayIdle | SaucepanClient/internal/pieragent/agent.go:469-489 | after an abort's locked section with the flag still set, the devices it idled stay idle in every continuation until a new assignment clears the flag |
| PierAgent.OneCaptureAtATime | SaucepanClient/internal/pieragent/agent.go:212-335 | at most one capture runs its sequence, and telemetry names that capture's task and priority or nothing |
| PierAgent.StartExcludesAbort | SaucepanClient/internal/pieragent/agent.go:259-265 | between a flag check and its device call no abort section, flag clearing or other start is under way |
| PierAgent.StartsExactlyWhen | SaucepanClient/internal/pieragent/agent.go:209-501 | in every reachable state some continuation brings a thread to a device call iff its place and its task leave one ahead of it and it is not just being turned away with the hardware mutex in hand; the flag matters to nothing else |
| PierAgent.FlagReadStops | SaucepanClient/internal/pieragent/agent.go:212-259 | a capture whose next step reads the raised flag starts nothing more in any continuation |
| PierAgent.ClearingLetsThrough | SaucepanClient/internal/pieragent/agent.go:142-150 | right after a new assignment clears the flag, the other threads that may still start a device are exactly those with a device call ahead of them |
| PierAgent.PreemptionMissedExactlyBy | SaucepanClient/internal/pieragent/agent.go:469-501 | from every reachable state with no hardware section occupied a whole preemption can raise the flag, stop all devices and lower the flag unseen; the captures it misses are exactly those with a device call ahead |
| PierAgent.SleeperMissesPreemption | SaucepanClient/internal/pieragent/agent.go:495-501 | a run, for every pair of tasks, in which a capture asleep while its mount slews is preempted, is not stopped, and may go on to start a device |
| Sessions.SessionStore.CreateSession | SaucepanServer/user-server/sessions.go:26-37 | inserts a live row, or fails on a duplicate token and changes nothing |
| Sessions.SessionStore.RotateSession | SaucepanServer/user-server/sessions.go:41-116 | reply and new table are those of the rotation transaction, every refusal included |
| Sessions.SessionStore.RevokeSessionByHash | SaucepanServer/user-server/sessions.go:147-160 | revokes the live row of the token, or reports none |
| Sessions.SessionStore.UpdatePasswordAndRevokeSessions | SaucepanServer/user-server/sessions.go:121-145 | changes the password and revokes all of the owner's live rows, counting them |
| Sessions.ExecKeepsValid | SaucepanServer/user-server/sessions.go:26-172 | links point forward to rows of the same owner, each row replaces at most one, and rows only age |
| Sessions.ExchangedAtMostOnce | SaucepanServer/user-server/sessions.go:41-116 | over every run each refresh token is exchanged successfully at most once |
| Sessions.PasswordChangeEndsTokens | SaucepanServer/user-server/sessions.go:121-145 | no token of a user that existed at a password change is exchanged after it |
| Sessions.SupersededTokenEndsOwnersSessions | SaucepanServer/user-server/sessions.go:71-87 | presenting an exchanged token again is detected, leaves its owner without a live session, and leaves other users' rows alone |
| Sessions.ReuseExactlyWhenReplaced | SaucepanServer/user-server/sessions.go:71-92 | supporting fact of `SupersededTokenEndsOwnersSessions`: the cascade runs iff the token is the caller's and was replaced by rotation; success iff live, unexpired and the new token is unused |
| Sessions.LiveRowsEndDistinctChains | SaucepanServer/user-server/sessions.go:94-115 | in every reachable table a live row is the newest of its chain, the chain has one owner, and no two live rows share a chain |
| Sessions.LiveAtMostLogins | SaucepanServer/user-server/sessions.go:26-116 | a user's live sessions never exceed that user's logins |
| Sessions.RevokedStaysRevoked | SaucepanServer/user-server/sessions.go:104-172 | no revoked row becomes live again over any stretch of any run |
| BoardWatch.StableSortSorts | SaucepanClient/internal/pieragent/boardwatch.go:182-192 | sorted, a permutation, and entries that rank equal keep their order |
| BoardWatch.Watch.OnBoardMessage | SaucepanClient/internal/pieragent/boardwatch.go:63-127 | the campaign's buffers become those of the delivery rule, other campaigns are untouched, malformed topics and payloads change nothing |
| BoardWatch.Watch.DrainBoardSnapshot | SaucepanClient/internal/pieragent/boardwatch.go:167-180 | hands out the waiting messages in order and keeps the history |
| BoardWatch.Watch.BoardSnapshot | SaucepanClient/internal/pieragent/boardwatch.go:151-163 | returns the history in order and changes nothing |
| BoardWatch.EveryMessageAccountedFor | SaucepanClient/internal/pieragent/boardwatch.go:63-180 | in every reachable state the waiting list is a suffix of the history, both bounded and duplicate-free, and accepted = drained + waiting + evicted + cleared |
| BoardWatch.AcceptedAgainExactlyWhen | SaucepanClient/internal/pieragent/boardwatch.go:98-127 | once a message was accepted, and until it next is, another envelope of it is taken for new iff it is retained without an id, or since then the node was cleared or 512 newer messages stood behind it |
| BoardWatch.AcceptedTwiceExactlyWhen | SaucepanClient/internal/pieragent/boardwatch.go:98-127 | over a whole run a message is accepted more than once iff one of these happened between two of its deliveries |
| BoardWatch.DrainedAtMostOnce | SaucepanClient/internal/pieragent/boardwatch.go:165-180 | otherwise the message is handed to runners at most once over the whole run, whatever envelopes it came in |
| BoardWatch.ClearedReplayIsDrainedTwice | SaucepanClient/internal/pieragent/boardwatch.go:73-92 | any message delivered again after its node was cleared is handed out twice |
| BoardWatch.RetainedReplayIsDrainedTwice | SaucepanClient/internal/pieragent/boardwatch.go:165-180 | a replayed retained message without an id is handed out twice |
| BoardStream.GetBoardNotes | SaucepanServer/task-server/cmd/apiserver/campaign_board.go:136-175 | returns the selected notes in order, the first 500 of them |
| BoardStream.CampaignBoard.Consume | SaucepanSDK/python/saucepan/messageboard.py:78-119 | consumes a page in order, shows all but the researcher's own, and leaves the cursor on the last note |
| BoardStream.PollReturnsNext | SaucepanServer/task-server/cmd/apiserver/campaign_board.go:136-155 | a poll returns exactly the notes right after the cursor, up to the limit |
| BoardStream.PollKeepsValid | SaucepanSDK/python/saucepan/messageboard.py:78-119 | a successful poll advances by min(500, remaining), a failed one not at all |
| BoardStream.ConsumedUpToCursor | SaucepanSDK/python/saucepan/messageboard.py:60-119 | over every run the client has consumed each note up to its cursor once and in order, except those stored behind the cursor |
| BoardStream.PrefixExactlyWhenNoneLate | SaucepanSDK/python/saucepan/messageboard.py:60-119 | what was consumed is a prefix of the log if and only if no note was ever stored behind the cursor |
| BoardStream.DeliveredExactlyWhenAhead | SaucepanSDK/python/saucepan/messageboard.py:60-119 | a newly stored note is consumed in some continuation iff it ranks after the client's cursor |
| BoardStream.LateNoteIsLost | SaucepanSDK/python/saucepan/messageboard.py:60-119 | for any two notes: store the later, poll, store the earlier, and no continuation ever consumes the earlier |
| BoardStream.NothingSkippedOrRepeated | SaucepanSDK/python/saucepan/messageboard.py:60-119 | with notes arriving in order, nothing is skipped or repeated over any interleaving of appends, polls and failed polls |
| Handoff.EffectiveAssignPriority | SaucepanServer/task-server/shared/handoff.go:210-232 | the assignment priority is floored at 1 and never less urgent than a base of at least 1 |
| Handoff.WindowIsUrgency | SaucepanServer/task-server/shared/handoff.go:68-87 | supporting fact of `EffectiveAssignPriority`: urgency is none iff the task is outside its search window and not a coverage campaign, so the default branch never boosts |
| Handoff.UrgencyOnlyGrows | SaucepanServer/task-server/shared/handoff.go:210-232 | supporting fact of `EffectiveAssignPriority`: as time passes a task's assignment priority only grows more urgent |
| Handoff.SecondsUntilObstructionLoss | SaucepanServer/task-server/shared/handoff.go:91-143 | the loop returns the first sampled forbidden instant |
| Handoff.LossNeverMissed | SaucepanServer/task-server/shared/handoff.go:108-143 | a forbidden stretch one step long that starts within the horizon is found, no later than one step after it starts |
| Handoff.ReportedLossIsReal | SaucepanServer/task-server/shared/handoff.go:108-143 | a reported loss is forbidden, within the horizon, and the target was clear at most one step before |
| Selector.LooserRequestKeepsNodes | SaucepanServer/task-server/shared/selector.go:169-235 | supporting fact of `SelectBestNode`: relaxing any bound of a request never makes a telescope fail the gates |
| Selector.LongerSlewScoresWorse | SaucepanServer/task-server/shared/selector.go:89-99 | a longer slew never improves the idle score when reliability is at most 2 |
| Selector.NearbyNeedsNoMore | SaucepanServer/task-server/shared/plan_preempt.go:31-43 | supporting fact of `PreemptionsBounded`: a nearby preemption never needs a larger priority difference than a far one |
| Selector.BarrierMonotone | SaucepanServer/task-server/shared/plan_preempt.go:18-43 | supporting fact of `MorePlanIsHarder`: the barrier only rises with the threshold and the planned work left |
| Selector.MorePlanIsHarder | SaucepanServer/task-server/shared/selector.go:116-167 | more planned work never makes a victim easier to take or better scored |
| Selector.PreemptingOfferLowers | SaucepanServer/task-server/shared/selector.go:116-167 | supporting fact of `PreemptionsBounded`: a preempting result strictly lowers the victim's priority number, and the barrier for its planned work was met |
| Selector.SelectBestNode | SaucepanServer/task-server/shared/selector.go:265-299 | the earliest of the lowest-scoring offers over all gate-passing nodes, none iff there is no offer |
| Selector.PreemptionsBounded | SaucepanServer/task-server/shared/selector.go:265-299 | a telescope running at priority p is preempted at most p - 1 times before its task ends, over every sequence of assignments |
| Selector.IdleResultsAre | SaucepanServer/task-server/shared/selector.go:244-254 | the collected results are exactly those of the free, gate-passing nodes |
| Selector.SelectEligibleNodes | SaucepanServer/task-server/shared/selector.go:238-262 | ascending by score, drawn from the free gate-passing nodes, of the right length, and nothing left out scores better |
| Sorting.SortBy | SaucepanServer/task-server/shared/selector.go:255-257 | ascending by the key and a permutation; nothing is promised about equal keys |
| CohortFill.WidthsSettle | SaucepanServer/task-server/shared/cohort/cohort.go:195-269 | within a cohort the bands widen by 0.05 for the first two searches and then stay |
| CohortFill.FillerPenaltyBounded | SaucepanServer/task-server/shared/scarcity.go:3-29 | a filler's score rises by a factor of at most 2.5, and not at all after 45 idle minutes |
| CohortFill.CountSubstitutes | SaucepanServer/task-server/shared/cohort_fill.go:101-114 | the number of other free nodes within the default bands |
| CohortFill.BestFiller | SaucepanServer/task-server/shared/cohort_fill.go:31-57 | the first in-band candidate with the smallest key, none iff none is in band |
| CohortFill.MeanGrows | SaucepanServer/task-server/shared/cohort_fill.go:65-69 | the running update keeps the exact mean of the members' vectors |
| CohortFill.SelectCohort | SaucepanServer/task-server/shared/cohort_fill.go:10-73 | at most 8 members, a best fit first, each filler in band of the exact mean before it with the smallest key, short only when nothing left is in band, empty iff nothing is eligible |
| CohortFill.MembersDistinctAndEligible | SaucepanServer/task-server/shared/cohort_fill.go:10-73 | members are different free telescopes that pass the gates |
| Zeropoint.WeightedMedianMinimises | SaucepanServer/compute-server/photometry/zeropoint.py:93-103 | no other value has a smaller weighted sum of absolute deviations |
| Zeropoint.WeightedMedianExactly | SaucepanServer/compute-server/photometry/zeropoint.py:93-103 | it is the one value with less than half the weight below it and at least half up to it, whatever order the sort gives to ties |
| Zeropoint.SurvivorsAreHalf | SaucepanServer/compute-server/photometry/zeropoint.py:150-158 | the clip pass keeps at least half of the stars and never fewer than required |
| Zeropoint.FitGuarantees | SaucepanServer/compute-server/photometry/zeropoint.py:129-181 | an accepted fit has enough stars, at least half of them, scatter within the limit and a minimising zeropoint; when it fails, and that the second count check never does |
| Zeropoint.FitZeropoint | SaucepanServer/compute-server/photometry/zeropoint.py:111-181 | the step-by-step fit computes the specified outcome, environment settings winning over arguments |
| Zeropoint.ReferenceShiftCommutes | SaucepanServer/compute-server/photometry/zeropoint.py:129-181 | adding a constant to all reference magnitudes shifts the zeropoint by it and changes neither verdict, star count nor scatter |
| Consistency.Chi2IsPairSum | SaucepanServer/compute-server/photometry/consistency.py:92-100 | chi-square about the weighted mean equals the sum over pairs of w_i w_j (m_i - m_j)^2 over the total weight |
| Consistency.MeanMinimises | SaucepanServer/compute-server/photometry/consistency.py:92-99 | the weighted mean is the one centre at which chi-square is least |
| Consistency.ShiftKeepsVerdict | SaucepanServer/compute-server/photometry/consistency.py:88-101 | a common shift of the magnitudes leaves the statistic unchanged |
| Consistency.ZeroExactlyWhenAgreed | SaucepanServer/compute-server/photometry/consistency.py:88-101 | the statistic is never negative and zero iff all magnitudes agree |
| Consistency.GateByPairs | SaucepanServer/compute-server/photometry/consistency.py:99-101 | the gate passes iff the pair sum is at most threshold times degrees of freedom times total weight |
| Consistency.PairTable | SaucepanServer/compute-server/photometry/consistency.py:103-117 | every pair once, in order, with its difference, squared bar and one-sigma flag |
| Consistency.EvaluateConsistency | SaucepanServer/compute-server/photometry/consistency.py:33-142 | each refusal exactly in its case, the first faulty observation deciding; otherwise the specified report |
| Coverage.CircularLonSpan | SaucepanSDK/python/saucepan/coverage_metrics.py:36-49 | some arc of the returned length holds every longitude and no shorter arc does |
| Coverage.RealizedMaxGap | SaucepanSDK/python/saucepan/coverage_metrics.py:145-151 | the shortest window that cannot be placed in the season without meeting a frame |
| Coverage.DutyCycle | SaucepanSDK/python/saucepan/coverage_metrics.py:152-162 | above 0 and at most 1, and 1 iff every bin has a frame or the season has no length |
| Coverage.ShortGapsFillEveryBin | SaucepanSDK/python/saucepan/coverage_metrics.py:145-162 | when no gap exceeds a bin, every bin has a frame |
| Obstruction.PointInPolygon | SaucepanServer/task-server/shared/obstruction.go:22-44 | inside iff every vertex is well-formed, there are at least three, and the ray crosses an odd number of edges |
| Obstruction.EvenLevelChanges | SaucepanServer/task-server/shared/obstruction.go:35-42 | a closed polygon crosses any level an even number of times |
| Obstruction.OutsideBoxIsOutsideExactly | SaucepanServer/task-server/shared/obstruction.go:22-44 | without the guard no point outside the bounding box is reported inside, for any polygon |
| Obstruction.BoxRespectedExactly | SaucepanServer/task-server/shared/obstruction.go:38-40 | with a guard this holds at a level for all placements of the vertices iff no edge ends less than the guard below the level |
| Obstruction.GuardCanPutOutsideInside | SaucepanServer/task-server/shared/obstruction.go:38-40 | a triangle and a point half a unit outside its box that the guarded test reports inside |
| Obstruction.RotationIndependent | SaucepanServer/task-server/shared/obstruction.go:22-44 | the answer does not depend on which vertex the list starts from, with any guard |
| Obstruction.PointInForbiddenAltAz | SaucepanServer/task-server/shared/obstruction.go:49-79 | forbidden iff some well-formed polygon of the mask holds the point |
| Obstruction.RemainderReducesExactlyWhen | SaucepanServer/task-server/shared/obstruction.go:53 | the remainder is the azimuth reduced to [0, 360) iff the azimuth is not negative or a whole number of turns; otherwise it is 360 too small |
| Obstruction.TurnsKeepVerdict | SaucepanServer/task-server/shared/obstruction.go:53-79 | from 0 up, adding whole turns to the azimuth changes no verdict, for any polygon and guard |
| Obstruction.DirectionDecidesExactlyWhen | SaucepanServer/task-server/shared/obstruction.go:53-79 | every mask written from zero gives an azimuth the verdict of its reduced azimuth iff the remainder of the azimuth is not negative, with any guard its edges tolerate |
| Obstruction.NegativeAzimuthMissesMask | SaucepanServer/task-server/shared/obstruction.go:53-79 | an azimuth below zero that is no whole number of turns meets no mask whose azimuths are not negative |
| Obstruction.NegativeMaskMissesAzimuth | SaucepanServer/task-server/shared/obstruction.go:69-76 | a mask whose azimuths are all below zero and no whole turns is met by no azimuth from zero up |
| TargetPhotometry.BoxedIsFullFrame | SaucepanServer/compute-server/pipeline/saucepan_pipeline/target_photometry.py:71-116 | for every frame, position and radii the boxed measurement equals the full-frame one: verdict, pixels in order, sum, count, background, flux |
| TargetPhotometry.BoxSelectsAll | SaucepanServer/compute-server/pipeline/saucepan_pipeline/target_photometry.py:77-95 | the box selects the same pixels in the same order as the whole frame |
| TargetPhotometry.BackgroundCancelsExactly | SaucepanServer/compute-server/pipeline/saucepan_pipeline/target_photometry.py:98-107 | a constant added to the frame leaves the flux unchanged iff every aperture pixel is a number, and by how much it moves otherwise |
| RateLimit.MemBucket.Count | SaucepanServer/task-server/cmd/apiserver/auth_rate_limit.go:131-144 | reads the count of the running window, 0 after its expiry, and the time left |
| RateLimit.MemBucket.Increment | SaucepanServer/task-server/cmd/apiserver/auth_rate_limit.go:146-161 | adds a hit, opening a new window when there is none or it has expired |
| RateLimit.MemBucket.IsLimited | SaucepanServer/task-server/cmd/apiserver/auth_rate_limit.go:46-58 | limited iff the running window has reached the limit; retry after at least a second |
| RateLimit.MemBucket.RecordHit | SaucepanServer/task-server/cmd/apiserver/auth_rate_limit.go:60-72 | records the hit and refuses iff the count then exceeds the limit |
| RateLimit.CheckAgreesWithHit | SaucepanServer/task-server/cmd/apiserver/auth_proxy.go:67-82 | supporting fact of `IntervalBound`: with nothing in between, the check and the recording agree |
| RateLimit.WindowBound | SaucepanServer/task-server/cmd/apiserver/auth_rate_limit.go:146-161 | over every interleaving with a monotone clock at most `limit` hits pass per window |
| RateLimit.IntervalBound | SaucepanServer/task-server/cmd/apiserver/auth_rate_limit.go:46-161 | in any closed interval of one window's length at most 2 * limit - 1 hits pass |
| RateLimit.BoundIsReached | SaucepanServer/task-server/cmd/apiserver/auth_rate_limit.go:46-161 | for every limit and window some run reaches that bound |

## Left out

- Floating-point rounding and the rounding of reported values; infinities and not-a-number outside the places named (polygon vertices, photometry radii and pixels, missing calibration fields, error bars).
- 64-bit and 32-bit limits: integers are unbounded in the LEB encoders, scores, priorities, clocks and counters.
- Parsing of Python source and the static checker; the source tree starts at the documented forms. JSON encoding of an emit record is a byte string handed to the compiler, and its literal-number checks are not modelled.
- WebAssembly beyond the instructions the builder emits; memory growth; the host's handling of emitted records.
- PierAgent.AbortedDevicesStayIdle: speaks of the devices whose abort call succeeded; when a call fails the device may keep moving, as in the code.
- FITS writing, Alpaca calls, retry and timeout arithmetic in the agent's polling loops; a poll may take any number of steps.
- Agent commands are steps of a state machine over shared fields and mutexes rather than methods of one object, because they interleave.
- Database isolation: transactions are serial; hashes are injective; user deletion and clean-up of expired rows are not modelled.
- The map of campaigns shares its backing arrays in the original when filtering in place; the model keeps sequences, so aliasing is not captured.
- Collation of note ids and the timestamp text format of the cursor; ids and times are ordered numbers. A client whose callback fails consumes the note all the same.
- Presence, metadata and roster code, MQTT and HTTP framing.
- Spherical astronomy, slew estimates, mount limits, horizon profiles and slew-path sampling: an abstract verdict and an abstract slew time per node.
- Feature vectors and cosine similarity of the cohort package: abstract per node; vectors that are not numbers are not modelled.
- Coverage planning, lanes, season urgency, standby rosters and the poll-interval arithmetic of handoff.
- Zeropoint.WeightedMedianMinimises: asks for weights that are not negative, which is all the fit ever produces.
- Consistency.EvaluateConsistency: reports the square of the residual scatter and of each combined bar, since no square root is needed to state them; magnitudes are finite.
- Source matching, catalogue loading and the Gaia query around the fit.
- Coverage metrics' gate reasons and status strings.
- The redis limiter back end, and the login path, which records a hit only after the identity service has answered.
