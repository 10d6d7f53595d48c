# Price loop, gap recovery and replay of a trading simulator

A model of the kernel that turns a stream of price ticks into exits of simulated positions, survives gaps in the
stream and can be replayed exactly, together with the state machines around it, and proofs about them. Money and
prices are exact reals, times are integer milliseconds, ids are integers.

## How the project is laid out

| module | what it holds |
|---|---|
| Common, Engine | prices, tick rounding, break-even, trailing and policy levels, exits and settlements (`execution-engine.ts`, `execution-profit-protection.ts`, `execution-instrument.ts`) |
| EngineLaws, StepExactness, PeakInvariant, BreakEvenLaws | one step is a join of levels, and exactly which; monotone, idempotent, absorbing below the take price, which no open position's peak reaches; break-even returns the costs |
| Recovery, RecoveryLoops | gap recovery as functions, and the loops of the source proved against them |
| TradeRecoveryLaws, TradeRecoveryExactness, MinuteRecoveryLaws, MinuteExactness, RecoveryTheorems, RecoveryExactness | what a recovery without exit says about every order of trades and every path inside the bars, and exactly when it does |
| TickProcessor, TickProcessorLoop | the tick loop as a function of its events, and the loop itself |
| TickProcessorLaws, SignalExactness, TickExactness, BatchLaws, PriorityExit, SignalOrder, RuntimeTheorems | what one tick does; checkpoints are folds, batches compose, priority exits are real |
| TraceReplay, TraceReplayLoop, ReplayLaws, ReplayExactness, ReplayReport, LiveRecording, LiveReplay, LiveRuns, LookAheadReplay | replay of recorded checkpoints, its loops, what its report means, and the round trip from a live run through its record |
| Account, AccountExactness, AccountLaws | stop risk, the daily budget, admission, and the worst day |
| AuditJobs, AuditDiscovery, AuditQueue, AuditExactness, AuditRuns | the durable audit queue with write-once receipts, its scan and its crashes |
| PriceJournal, RequestCache, RequestCacheAnswers, RequestCacheClass | concurrent structures, one step per await |
| EntryLiquidity, EntryExactness, PendingEntry | entry orders against recorded liquidity, and the cursor that feeds them |
| Latency, LatencyLaws | rolling histograms against the plain log |

Code that computes a value is a function; a loop or an object of the source is a method or a class proved against
such functions. The functions follow the branches of the source; the laws about them say what those branches are for,
and the modules named Exactness say what each operation answers in every case, in terms of its inputs alone.

Reading order for the main results: `StepExactness.StepLeavesExactly`, `EngineLaws.AdvanceAbsorbs`, `SignalExactness.SignalsDecide`,
`RecoveryExactness.StrictSoundnessIsExact`, `TradeRecoveryExactness.FetchedTradesInAnyOrder`, `TradeRecoveryExactness.PublicTradesDoubtExactly`, `BatchLaws.SplitsExactly`, `LiveRuns.CommittedRunReplays`, `ReplayReport.CleanReportMeansReproduced`,
`AccountExactness.EntryFailsForFirstCause`, `AccountLaws.DayStaysProtected`, `AuditRuns.Watch`, `AuditDiscovery.FinishedScanIsComplete`,
`PriceJournal.EveryInterleavingIsSound`, `RequestCacheAnswers.AnswersExactly`, `RequestCache.EarlyReloadExactly`,
`EntryExactness.FillsExactly`, `EntryLiquidity.NothingFillsBeyondTheMarket`, `LatencyLaws.SnapshotIsTheWindow`.

## What is assumed

- A position with pinned limits has a valid entry and take price, the take price ahead, as opening checks
  (`execution-engine.ts`, lines 880 to 888); the type `Engine.Basis` carries this.
- Laws about minutes begin at a position whose peaks, if it has pinned limits, have not reached the take price
  (`PeaksBeforeTake`). A position opens that way (`PeakInvariant.OpensBeforeTake`) and, while open, stays so (`PeakInvariant.RunKeepsPeaks`).
- A tick path fits the bars when every price is inside its bar and every bar that lies wholly in the gap attains its
  favourable extreme.
- `recover`, signals, clocks, page loads, database answers and the outcome of every write are parameters; nothing is
  assumed of them beyond what a lemma states.
- A checkpoint is rebuilt by the recovery the worker supplies, over inputs fetched per tick and gap
  (`RuntimeTheorems.RuntimeRecover`).

## Properties that hold only under a condition

- Batch splits: ending a batch is harmless for every continuation exactly if its stream was confirmed before or by one
  of its ticks, that is by one after the opening, and if the last tick is after the opening or recovery on another
  stream answers alike for the last processed id and the last one seen (`BatchLaws.SplitsExactly`); for a recovery that
  reads no id the first half decides (`BatchLaws.SplitsExactlyWithoutIds`). From an unconfirmed stream, a batch that
  ends before the opening names a stream in its checkpoint, and the next tick then skips recovery
  (`BatchLaws.UnconfirmedSplitSkipsRecovery`).
- Recovery against the loop. Recovery reads neither signal candles nor the holding limit, so what it says of the loop
  has two conditions besides the policy's: no candle known at the missed ticks asks for an exit, which is a hypothesis (`RuntimeTheorems.Silent`), and
  the holding limit, which no recovery reads. Where the limit falls inside the gap the loop would have closed at the
  first tick to reach it (`RuntimeTheorems.MissedTicksChangeNothing`, `RuntimeTheorems.MissedTradesChangeNothing`).
- Recovery from trades leaves a doubt exactly if some order of the trades exits when its last trade is seen twice
  (`TradeRecoveryExactness.PublicTradesDoubtExactly`): a trade at a level which its own price justified is a doubt,
  although the tick loop looks at a price once (`TradeRecoveryExactness.OwnLevelIsADoubt`).
- Strict minute recovery speaks for the loop exactly if the policy does not switch on inside a bar that the quote closes
  and the holding limit does not fall before the quote (`RecoveryExactness.StrictSoundnessIsExact`). On a minute
  boundary the policy may switch. The first bar may begin before the gap: a policy enabled inside it, even before the
  gap, is not read in it and may move a level that recovery misses (`RecoveryExactness.EnabledBeforeTheGap`). The
  shortest limit, in a gap of two minutes, is enough for the other half (`RecoveryExactness.LimitInsideTheGap`).
- The earlier minute recovery never reads the additional policy. It speaks for the loop exactly if that policy is off
  until the quote and the holding limit does not fall before it (`RecoveryExactness.LegacySoundnessIsExact`); the worker
  calls it with a policy that may be on.
- A position that the look-ahead closed is closed in replay at the first exit that the page and the record's latest tick
  show, which is the recorded close exactly if it is the same tick (`LookAheadReplay.LookAheadCloseReplays`). A page
  that holds the live batch's ticks shows an exit of that batch first; for one that only the latest live tick showed,
  the stored ticks after the batch decide (`LookAheadReplay.WhatTheBatchShowed`).
- Recovery cache: a failing key keeps its backoff only as long as its entry stays. A request for another key removes
  the entry once its backoff has passed, or earlier if the cache is full and the entry is the first idle one
  (`RequestCache.RemovedExactly`), and the failures before that are forgotten; from then on it may load early
  (`RequestCache.EarlyReloadExactly`). No full cache is needed (`RequestCache.PruningForgetsFailures`); at capacity one
  a key may even load at once (`RequestCache.BackoffCanBeCutShort`).
- Day start: a date has one start exactly if the local date never falls behind it again (`Account.DayStartIsUnique`).
  Where a clock is set back just after midnight the search finds two, and the remembered one depends on the first
  question (`Account.ADateMayStartTwice`).

## Model

| member | source | states |
|---|---|---|
| EngineLaws.PriceExitSettles | packages/application/src/execution-engine.ts:1073-1103 | a price settles a position exactly when it reaches the stop, the trailing level or the take price: at a protective level it settles at the price itself and names the tighter of the two, beyond both it takes profit at the take price, or at the price under a pinned exit policy; slippage and rounding never make the exit better than the price |
| EngineLaws.AdvanceJoinsLevels | packages/application/src/execution-position-policy.ts:12-26 | one shared protection step, strategy and additional policy together, is a running peak followed by a join of exactly the levels that the new peaks justify, with and without tick rules |
| EngineLaws.BorrowedIsPolicy | packages/application/src/execution-profit-protection.ts:140-160 | without tick rules the policy borrows the strategy update; the borrowed percentages give exactly the policy's own break-even and trailing levels |
| EngineLaws.BehindPeakUnits | packages/application/src/execution-instrument.ts:162-181 | a normalised trailing level lies strictly behind its peak, on the tick grid: it is the first grid point on the favourable side of the wanted level, capped at the last tick behind the peak |
| EngineLaws.NormalizeMonotone | packages/application/src/execution-instrument.ts:162-181 | a better peak never gives a looser normalised trailing level, although rounding and the step behind the peak intervene |
| EngineLaws.LevelsMonotone | packages/application/src/execution-engine.ts:1210-1297 | all four levels of a step grow with the peaks they are computed from |
| EngineLaws.AdvanceTightens | packages/application/src/execution-engine.ts:1210-1297 | no price, no policy and no time ever loosens a stop or trailing level or forgets a peak |
| EngineLaws.TouchedMonotone | packages/application/src/execution-engine.ts:1022-1035 | a price that exits a position exits every position with tighter levels |
| EngineLaws.AdvanceAbsorbs | packages/application/src/execution-position-policy.ts:12-26 | at one instant a price that has not reached the take price (any price, without pinned limits) absorbs every less favourable one in either order, so among prices that leave the position open the order never matters; in particular a step is idempotent |
| EngineLaws.LastTickWithin | packages/application/src/execution-engine.ts:880-888 | what opening checks is enough for every later level: the last tick behind a price that has not reached the take price is within the instrument's limit |
| StepExactness.StepLeavesExactly | packages/application/src/execution-engine.ts:1190-1297 | one step, without naming any level function: the peaks follow the price, and stop and trailing level become exactly the tightest of the old level and those due. The break-even level is due once the favourable move has reached its multiple of the first stop's distance and the level lies far enough behind the peak; a trailing level once its percentage is positive and its move reached, at the first tick on the favourable side of that percentage behind the peak, or the last one behind the peak, if that is a valid price; and likewise both levels of an enabled policy from its own peak |
| StepExactness.MarksExist | packages/application/src/execution-engine.ts:1299-1371 | the distance to the rounded first stop and the break-even price that this needs exist for every position, and are unique |
| StepExactness.SettlesExactly | packages/application/src/execution-engine.ts:1373-1423 | a settlement pays what the slipped and adversely rounded price gains, less entry fee and exit fee, and counts the slippage of both sides |
| MinuteExactness.CandleExitExactly | packages/application/src/execution-engine.ts:1037-1071 | a bar exits a position if and only if some price inside it does or its close loses the breakout level; it settles at the opening price, the protective level, the take price or the close, the first that applies |
| MinuteExactness.NearestExactly | packages/application/src/execution-engine.ts:1022-1035 | the protective level is the tighter of the two, and the trailing level is the reason exactly if it is strictly tighter |
| BreakEvenLaws.BreakEvenReturnsCosts | packages/application/src/execution-engine.ts:1323-1371 | closing at the break-even level, with its slippage, fees and tick rounding, never nets a loss, and nets exactly zero without tick rules |
| BreakEvenLaws.RoundTripKeeps | packages/application/src/execution-engine.ts:1338-1360 | rounding toward the favourable side and rounding the slipped price back never loses the target |
| PeakInvariant.WalkKeepsPeaks | packages/application/src/execution-engine.ts:1073-1103 | as long as a walk over prices leaves a position with pinned limits open, neither its best price nor the policy's has reached the take price |
| PeakInvariant.RecoveryKeepsPeaks | apps/worker/src/causal-recovery.ts:39-265 | the same of every recovery, from trades, strict minutes or the earlier one, that does not exit |
| PeakInvariant.RunKeepsPeaks | apps/worker/src/runtime-price-processor.ts:113-285 | the same over every run of the tick loop, with its recoveries, that leaves the position open |
| PeakInvariant.RuntimeRecoverIsPeakSafe | apps/worker/src/worker.ts:1521-1631 | the recovery the worker supplies meets what that run assumes of it |
| TradeRecoveryLaws.SelectionIsTheGap | apps/worker/src/causal-recovery.ts:73-77 | the selected trades are, as a multiset, exactly the trades strictly inside the gap, and they are in time order |
| TradeRecoveryLaws.SelectedFrom | apps/worker/src/causal-recovery.ts:73-77 | a trade is selected if and only if it was given and lies strictly inside the gap |
| TradeRecoveryLaws.GroupIsOrderFree | apps/worker/src/causal-recovery.ts:118-176 | if neither the position before a millisecond nor the one after its best price is touched by the group, every order of the group walks without exit to the same position and policy state |
| TradeRecoveryLaws.TradesInAnyOrder | apps/worker/src/causal-recovery.ts:114-178 | a recovery from trades without a settlement equals the tick-by-tick walk over those trades in any order that respects their times |
| TradeRecoveryLaws.PublicTradesInAnyOrder | apps/worker/src/causal-recovery.ts:39-178 | selection and recovery together: the result without settlement is independent of the order inside each millisecond |
| TradeRecoveryExactness.SelectsExactly | apps/worker/src/causal-recovery.ts:39-76 | trades are used for a gap if and only if they reach from the last processed trade to the quote, agree with its known price, are of its symbol and numbered apart, and neither boundary millisecond holds a trade at another price |
| TradeRecoveryExactness.FetchedTradesInAnyOrder | apps/worker/src/causal-recovery.ts:60-76 | a quiet recovery from trades speaks for every trade fetched: from a position that has taken the last processed price, all trades from that millisecond on, in any order that respects the times, walk without exit to the recovered position, and what was traded in the quote's millisecond was traded at the quote |
| TradeRecoveryExactness.PublicTradesDoubtExactly | apps/worker/src/causal-recovery.ts:114-178 | recovery from trades leaves the position in doubt if and only if, in some order of the trades inside their milliseconds, a walk up to one of them that sees this one once more exits; in doubt it closes at the quote |
| TradeRecoveryExactness.DoubtIsLocated | apps/worker/src/causal-recovery.ts:118-176 | the position closed is where the walk over all trades before the millisecond in doubt leads, and it is called a trigger exactly if a single trade of its millisecond exits |
| TradeRecoveryExactness.TriggerAlwaysExits | apps/worker/src/causal-recovery.ts:124-140 | a trigger is an exit in every order |
| TradeRecoveryExactness.OwnLevelIsADoubt | apps/worker/src/causal-recovery.ts:141-165 | a single trade at the very level that its own price justifies leaves a doubt, although the walk over it does not exit |
| TradeRecoveryExactness.JustProtected | apps/worker/src/causal-recovery.ts:60-71 | a position that a price has just protected has taken that price, unless the price reaches a level it justified itself |
| MinuteRecoveryLaws.WalkMinute | apps/worker/src/causal-recovery.ts:219-251 | any number of prices inside one quiet bar walk without exit and stay between the recovery before and after the bar's favourable extreme |
| MinuteRecoveryLaws.CompleteMinute | apps/worker/src/causal-recovery.ts:224-262 | after a bar that lies wholly in the gap the walked position holds exactly the recovered levels, whatever the order inside the bar |
| MinuteRecoveryLaws.PartialMinute | apps/worker/src/causal-recovery.ts:231-238 | after a partial bar whose extreme changes no level the walked position still holds exactly the levels before the bar, although the recovery discards the bar's peak |
| RecoveryTheorems.StrictMinutesAreSound | apps/worker/src/causal-recovery.ts:182-264 | if strict recovery neither exits nor fails and the policy does not switch on inside a bar, every path of prices inside the bars walks without a price exit and ends with the recovered stop and trailing level; on a bar's boundary it may switch |
| RecoveryExactness.StrictSoundnessIsExact | apps/worker/src/causal-recovery.ts:182-264 | over all positions with a given holding deadline after the gap begins, bars, paths and silent stretches of ticks, strict recovery that does not exit means that the loop would have kept the position at the recovered levels, if and only if the quote falls inside a minute, where it always ends in doubt, or the policy does not switch on inside a bar and the deadline does not fall before the quote |
| RecoveryExactness.EnabledBeforeTheGap | apps/worker/src/causal-recovery.ts:224-238 | a policy enabled before the gap, after its first minute began, is on through the whole gap and recovery is still unsound |
| RecoveryExactness.LimitInsideTheGap | apps/worker/src/runtime-price-processor.ts:196-197 | the shortest holding limit, in a gap of two minutes that begins with the position: neither recovery reads it, and the loop would have closed |
| RecoveryTheorems.StrictReadsOnlyClosedMinutes | apps/worker/src/causal-recovery.ts:183-189 | strict recovery depends only on minutes closed by the quote: changing any later bar changes nothing |
| RecoveryTheorems.LegacyMinutesAreSound | apps/worker/src/runtime-recovery.ts:116-186 | with partial bars at both ends, and for every additional policy that is off until the quote, a path of prices inside the bars walks without a price exit to the levels of the earlier recovery |
| RecoveryExactness.LegacySoundnessIsExact | apps/worker/src/causal-recovery.ts:181-181 | the same of the earlier recovery, which reads no policy: sound for the loop if and only if the policy is off until the quote and the holding deadline does not fall before it |
| MinuteExactness.StrictMinute | apps/worker/src/causal-recovery.ts:182-264 | what strict recovery does with one minute: unclosed, it leaves a doubt; unreadable, no answer; readable, a doubt if a price inside it exits the position, before the gap if its best price moves a level, otherwise if a price inside it exits the position as protected by the best one; and else it protects by best price and close |
| MinuteExactness.LegacyMinute | apps/worker/src/runtime-recovery.ts:116-187 | what the earlier recovery does with one minute: an exit inside a bar of the gap settles as the bar does, at its end; inside a partial bar, or if a partial bar moves a level, or if the order inside the bar decides, at the quote |
| MinuteExactness.LegacyBegins | apps/worker/src/runtime-recovery.ts:84-115 | where the earlier recovery begins and what it notes; it answers only if every minute from the gap's start to before the quote has a bar that makes sense |
| MinuteExactness.LegacyPinned | apps/worker/src/runtime-recovery.ts:59-82 | with a pinned exit policy it answers as without, but settles only at the quote |
| MinuteExactness.WithoutTrades | apps/worker/src/causal-recovery.ts:80-182 | which recovery answers for a gap without trades, and that a quote at the gap's very start is a doubt exactly under strict recovery |
| RecoveryTheorems.RecoveryNeverLoosens | apps/worker/src/causal-recovery.ts:80-265 | whatever it is given and whether or not it exits, recovery never loosens a level |
| RecoveryTheorems.LegacyRecoveryNeverLoosens | apps/worker/src/runtime-recovery.ts:48-187 | the earlier recovery never loosens a level, with or without a pinned exit policy |
| RecoveryLoops.RecoverRuntimeGap | apps/worker/src/runtime-recovery.ts:48-187 | the loops over minutes compute the specified recovery, including the detour for a pinned exit policy |
| RecoveryLoops.RecoverFromTrades | apps/worker/src/causal-recovery.ts:115-178 | the loop over same-time groups computes the specified recovery |
| RecoveryLoops.RecoverFromMinutes | apps/worker/src/causal-recovery.ts:182-264 | the loop over closed minutes computes the specified recovery |
| RecoveryLoops.RecoverCausalRuntimeGap | apps/worker/src/causal-recovery.ts:80-265 | the choice between trades, equal timestamps, the earlier recovery and strict minutes |
| TickProcessor.FindExit | apps/worker/src/runtime-price-processor.ts:140-153 | the scan returns the first candidate, at or after the position's clock and opening, that exits at the confirmed levels |
| TickProcessorLoop.ProtectFirst | apps/worker/src/runtime-price-processor.ts:133-177 | the protective look-ahead of a changed stream finds the first exit among the rest of the batch and the latest tick |
| TickProcessorLoop.ReadSignals | apps/worker/src/runtime-price-processor.ts:213-253 | the loop over signals, with its skips, its early stop and its rejection, finds the first signal that fires |
| TickProcessorLoop.ProcessRuntimePriceEvents | apps/worker/src/runtime-price-processor.ts:67-286 | the whole tick loop, with lazily committed checkpoints, recovery and lazily loaded signals, offers exactly the specified checkpoints in order |
| SignalExactness.SignalsDecide | apps/worker/src/runtime-price-processor.ts:198-253 | where neither price nor holding limit exits, the position closes if and only if a candle decides: unread, its interval ended, available when the tick was received, closed after the opening, and firing; the first such candle closes it at the tick, unless a pinned exit policy does not accept a candle before; otherwise the price protects and the last readable candle counts as read |
| SignalExactness.PriceThenHoldingLimit | apps/worker/src/runtime-price-processor.ts:196-197 | a price that exits decides first, after it the holding limit; neither reads a candle |
| SignalExactness.ConsultedExactly | apps/worker/src/runtime-price-processor.ts:198-212 | candles are consulted exactly if neither exit applies and an interval has ended since the one last read |
| TickExactness.StepOnExactly | apps/worker/src/runtime-price-processor.ts:178-195 | a tick of the confirmed stream is taken as it is; any other first recovers the gap up to it: without an answer nothing is taken, an exit closes the position there, and otherwise the tick is taken from the recovered state, with the gap noted |
| TickExactness.LookAheadExactly | apps/worker/src/runtime-price-processor.ts:133-177 | the look-ahead happens exactly where it is asked for and the stream changed; it scans this and later ticks of the batch and a newer latest tick, and finds the first that closes the position as confirmed, by price or holding limit |
| TickExactness.TurnExactly | apps/worker/src/runtime-price-processor.ts:113-285 | one turn of the loop: the checkpoint held back is offered exactly before history or the first candles are waited for, a refusal ends the loop, and every checkpoint notes state, clock, stream, price, settlement, candle and the last gap |
| TickProcessorLaws.OfferedAreFolds | apps/worker/src/runtime-price-processor.ts:113-285 | every checkpoint offered outside the look-ahead is the plain fold of single ticks over a prefix of the events |
| TickProcessorLaws.OfferedInOrder | apps/worker/src/runtime-price-processor.ts:178-286 | every checkpoint but the last was accepted and settles nothing; none follows a refusal; a refusal or failure closes nothing |
| TickProcessorLaws.OfferedOnlyTighten | apps/worker/src/runtime-price-processor.ts:131-285 | from one checkpoint to the next the clock never runs back and no level weakens |
| TickProcessorLaws.TightensPairwise | apps/worker/src/runtime-price-processor.ts:131-285 | the same between any two checkpoints of a run |
| TickProcessorLaws.PendingComesOut | apps/worker/src/runtime-price-processor.ts:178-211 | a held-back checkpoint is never silently dropped except by the look-ahead or a rejected signal |
| BatchLaws.FinalCheckpoint | apps/worker/src/runtime-price-processor.ts:113-285 | with every checkpoint accepted and a quiet look-ahead, the last one offered is where the plain fold ends, settlement included |
| BatchLaws.BatchesCompose | apps/worker/src/runtime-price-processor.ts:100-285 | processing two batches, the second resumed from the first one's last checkpoint, ends in the same checkpointed state, settlement and outcome as processing both at once, wherever that checkpoint describes the state |
| BatchLaws.SplitsExactly | apps/worker/src/runtime-price-processor.ts:100-285 | without a look-ahead, ending a batch is harmless for every continuation if and only if its stream was confirmed before or by a tick of it after the opening, and its last tick is after the opening or recovery on another stream answers alike for the last processed id and the last one seen |
| BatchLaws.SplitsExactlyWithoutIds | apps/worker/src/runtime-price-processor.ts:115-130 | for a recovery that reads no id: harmless for every continuation if and only if the stream was confirmed before or the batch has a tick after the opening |
| BatchLaws.DescribedByInputs | apps/worker/src/runtime-price-processor.ts:266-283 | that condition is exactly when the last checkpoint describes the state the loop is in |
| BatchLaws.PostOpenIsNamed | apps/worker/src/runtime-price-processor.ts:266-283 | a batch that ends with a tick after the opening leaves the loop with that tick's stream and id |
| BatchLaws.ConfirmedExactly | apps/worker/src/runtime-price-processor.ts:266-270 | after a batch the stream is confirmed if and only if it was before or a tick of the batch came after the opening |
| BatchLaws.UnconfirmedSplitSkipsRecovery | apps/worker/src/runtime-price-processor.ts:115-130 | from an unconfirmed stream, ending a batch before the opening always makes the next tick skip the recovery that one batch performs |
| PriorityExit.SelectPriorityExit | apps/worker/src/runtime-priority-exit.ts:9-26 | the side path selects the first exit at fixed levels among the stored ticks and the latest one |
| PriorityExit.PriorityExitsAreReal | apps/worker/src/runtime-priority-exit.ts:16-24 | full processing of any list of ticks containing the selected one, from the same position, is over by that tick: it closes the position if and only if the recoveries it asks for until then are answered, and otherwise stops at the first that is not |
| PriorityExit.PriorityExitExactly | apps/worker/src/runtime-priority-exit.ts:9-26 | the side path closes with the first tick, of those stored up to the latest and the latest itself, that closes the position as confirmed, and with none if none does |
| RuntimeTheorems.LoopFollowsPrices | apps/worker/src/runtime-price-processor.ts:113-285 | on one stream and without a signal the loop exits exactly where the path of prices does, up to the first tick at which its clock reaches the holding limit; that tick closes whatever is still open, and otherwise the loop ends in the position of the path |
| RuntimeTheorems.MissedTicksChangeNothing | apps/worker/src/runtime-price-processor.ts:178-253 | if strict recovery of a gap does not exit and the policy splits no bar, the loop, had it received any ticks inside the bars, would hold the same levels, or would have closed by the holding limit at the first tick to reach it |
| RuntimeTheorems.MissedTicksOfEarlierRecovery | apps/worker/src/runtime-price-processor.ts:178-253 | the same of the earlier recovery while the policy is off until the quote |
| RuntimeTheorems.MissedTradesChangeNothing | apps/worker/src/causal-recovery.ts:39-178 | if recovery from public trades does not exit, the loop over those trades in any order of a millisecond ends in the recovered position, if and only if the last of them comes before the holding limit; otherwise that limit closes it |
| RuntimeTheorems.RuntimeRecoverIsSafe | apps/worker/src/worker.ts:1521-1631 | the recovery the worker supplies, over inputs that may depend on the last processed tick, satisfies what the loop laws assume of it |
| SignalOrder.SignalAvailabilityTimes | apps/worker/src/runtime-signal-order.ts:1-17 | each candle becomes available once it and all candles before it are final, never earlier and no later |
| SignalOrder.OwnTimeExactly | apps/worker/src/runtime-signal-order.ts:8-14 | a candle by itself is final once it has ended, was finalised, and was last revised |
| SignalOrder.ScanMissesNothing | apps/worker/src/runtime-price-processor.ts:213-215 | with such availability the scan may stop at the first signal it cannot use: it reads exactly as if only the usable ones existed |
| SignalOrder.SignalExitsAreCausal | apps/worker/src/runtime-price-processor.ts:196-253 | a signal closes a position only when neither price nor holding limit does, and only a signal that was closed and available when the tick was received |
| TraceReplay.PageProgress | apps/worker/src/runtime-trace-replay.ts:279-391 | a page moves the cursor strictly forward or stops the replay, so the loop ends |
| TraceReplay.FinishedReachesEnd | apps/worker/src/runtime-trace-replay.ts:308-382 | a finished run over a segment has settled or has reached the segment's last tick |
| ReplayLaws.SegmentLands | apps/worker/src/runtime-trace-replay.ts:298-390 | replaying a stretch of a leg under its record takes over the record's policy and signals, ends in the live state at the last tick, and changes nothing else but the count |
| ReplayLaws.PageLands | apps/worker/src/runtime-trace-replay.ts:280-390 | a page is counted in full, read through to its last tick, and lands in the live state there |
| TraceReplayLoop.RunRecord | apps/worker/src/runtime-trace-replay.ts:279-391 | the loop over the pages of one record |
| TraceReplayLoop.ReplayRuntimeTraceBase | apps/worker/src/runtime-trace-replay.ts:227-478 | the nested loops of the replay compute the specified report |
| ReplayLaws.CutAt | apps/worker/src/runtime-trace-replay.ts:280-297 | cutting the stored ticks at the id of one of them gives the ticks before and after, in order and fully counted |
| ReplayLaws.StretchLands | apps/worker/src/runtime-trace-replay.ts:308-382 | under the recorded rules the loop over a stretch of a leg ends where the live run did |
| ReplayLaws.LegLands | apps/worker/src/runtime-trace-replay.ts:279-391 | for every page size, replaying the ticks of one record ends with the live levels, clock, cursor and settlement |
| ReplayLaws.RecordsLand | apps/worker/src/runtime-trace-replay.ts:265-447 | the same over all records, with no difference reported and no gap |
| ReplayLaws.RecordedRunReplays | apps/worker/src/runtime-trace-replay.ts:227-478 | record and replay: the faithful records of a live run from a confirmed checkpoint, replayed with pages of any size, reproduce its state and settlement, report no difference and no gap |
| LookAheadReplay.LookAheadCloseReplays | apps/worker/src/runtime-trace-replay.ts:298-390 | a page of a record whose look-ahead closed the position closes it at the first exit among the page and the record's latest tick; that is the recorded close if and only if this first exit is the recorded one; without any exit the replay ends with a missing recovery at the tick behind the gap |
| LookAheadReplay.WhatTheBatchShowed | apps/worker/src/runtime-trace-replay.ts:280-297 | a page with at least the live batch's ticks shows the recorded exit first whenever the batch showed it; if only the latest tick did, the stored ticks after the batch decide |
| ReplayExactness.DifferencesExactly | apps/worker/src/runtime-trace-replay.ts:405-446 | the differences that a checkpoint reports, in order: each one if and only if that aspect was not reproduced within tolerance, the amounts once each |
| ReplayExactness.ReplayRecoversExactly | apps/worker/src/runtime-trace-replay.ts:337-367 | replay answers a gap from the first recovery recorded for its tick, if that gap began at the same time, by the recovery that was recorded |
| ReplayExactness.PageExactly | apps/worker/src/runtime-trace-replay.ts:279-305 | an empty page is a gap, one out of order ends the replay; otherwise the new ticks are counted and the page is replayed up to the record's first tick and then from it under the record's inputs |
| ReplayExactness.SegmentExactly | apps/worker/src/runtime-trace-replay.ts:298-390 | a stretch is processed under exactly the record's rules; a missing recovery is a gap at the next tick if none was recorded for it, and an error otherwise |
| ReplayExactness.RecordsExactly | apps/worker/src/runtime-trace-replay.ts:265-447 | which records are passed over, which end the replay with a gap, and which are counted and compared |
| ReplayExactness.AppliedExactly | apps/worker/src/runtime-trace-replay.ts:368-381 | a checkpoint is taken over whole, and the ticks it passed are counted once |
| ReplayExactness.StartExactly | apps/worker/src/runtime-trace-replay.ts:244-257 | the replay begins at the recorded state, with a gap if its tick is not stored; an entry filled at that tick may exit on it at once |
| ReplayExactness.TradeExactly | apps/worker/src/runtime-trace-replay.ts:460-478 | a recorded trade must have closed in the replay, for the same reason, at the same time and for the same amounts |
| ReplayReport.ComparisonIsExact | apps/worker/src/runtime-trace-replay.ts:405-446 | a checkpoint's comparison reports nothing if and only if levels, policy state, signal cursor, price, clock and settlement are the recorded ones within tolerance |
| ReplayReport.CleanRecordsWereReproduced | apps/worker/src/runtime-trace-replay.ts:265-447 | when the records leave no difference and no gap, every record reached was reproduced |
| ReplayReport.CleanReportMeansReproduced | apps/worker/src/runtime-trace-replay.ts:448-484 | a report without difference or gap means every record was reproduced, all expected ticks were there, and the recorded trade closed for the same reason, time and amounts |
| LiveRecording.GapIsFound | apps/worker/src/runtime-trace-replay.ts:338-342 | the recovery recorded for a gap is the one found again by tick id, and it starts where the gap did |
| LiveRecording.RecordAgrees | apps/worker/src/runtime-trace-replay.ts:308-382 | the recorded policy, signals and recovery inputs make the replay take, tick by tick, the step the live run took |
| LiveRecording.BatchRecordsLegs | apps/worker/src/worker.ts:1632-1663 | the trace written at a checkpoint of a live batch is a faithful record of the ticks since the checkpoint before |
| LiveRecording.BatchIsRecorded | apps/worker/src/worker.ts:1632-1663 | the committed checkpoints of a batch, followed by whatever was recorded later, are one recording |
| LiveReplay.RunIsCommitted | apps/worker/src/runtime-price-processor.ts:178-285 | the checkpoints of a run record the folds of longer and longer prefixes of its batch, and only the last may settle |
| LiveRuns.CommittedRunReplays | apps/worker/src/runtime-trace-replay.ts:227-478 | end to end: what the tick loop commits over any number of batches, each resumed from the last checkpoint before it, recorded with the inputs used so far and replayed in pages of any size, ends in the state of the last checkpoint with its settlement, without difference or gap |
| LiveRuns.RunLegs | apps/worker/src/worker.ts:1466-1663 | a run of any number of batches is one recording over exactly the stored ticks it processed |
| Account.TradingCalendar.ExecutionTradingDay | packages/application/src/execution-account.ts:50-68 | a date not remembered is searched by bisection of the last two days, ends at an instant where the local date first reaches it, and is remembered; a remembered one is returned unchanged |
| Account.DayStartIsUnique | packages/application/src/execution-account.ts:57-66 | a date has one start if and only if the local date, having reached it, never falls behind it again; what other dates do is irrelevant |
| Account.SearchesAgree | packages/application/src/execution-account.ts:57-66 | for a date that is never fallen behind, searches from any two clock readings of that date find the same start, so the remembered one is what a fresh search would find |
| Account.ADateMayStartTwice | packages/application/src/execution-account.ts:57-66 | where the clock is set back after midnight, the search from any instant before that finds the first midnight, and from any instant one day after the repeated stretch the second: what is remembered depends on the first question |
| Account.AssessExecutionAccount | packages/application/src/execution-account.ts:82-192 | the accumulating loop computes the specified assessment |
| AccountExactness.ReportsFigures | packages/application/src/execution-account.ts:97-189 | equity, day, exposure and reserved risk as sums over the holdings' marks, fees, costs and stops, the daily limit from the smallest percentage that applies, and what may still be lost |
| AccountExactness.LatchesExactly | packages/application/src/execution-account.ts:150-150 | the account latches if and only if it is configured and its equity is not positive or its day is at or below minus the strictest limit |
| AccountExactness.ForcesExactly | packages/application/src/execution-account.ts:151-155 | a close is forced if and only if the account is killed, halted or used up; the kill switch is named first |
| AccountExactness.ReasonIsFirstCause | packages/application/src/execution-account.ts:156-169 | why an account takes no entry: the first of seven causes that holds, and none if none does |
| AccountExactness.EntryFailsForFirstCause | packages/application/src/execution-account.ts:193-232 | an entry is refused for the first listed cause that holds, and admitted if and only if none does |
| AccountLaws.SettlementNetsTheStop | packages/application/src/execution-risk.ts:28-46 | the engine's settlement at the nearest level nets exactly what the account reserves for |
| AccountLaws.RiskCoversStop | packages/application/src/execution-risk.ts:42-46 | the reserved stop risk is never less than the loss at the level |
| AccountLaws.TallyCoversStops | packages/application/src/execution-account.ts:104-135 | daily cash less reserved risk never exceeds the cash left if every open position is stopped out, and the same for equity without floating gains |
| AccountLaws.AdmissionBoundsTheDay | packages/application/src/execution-account.ts:193-232 | an admitted entry leaves an account that can take every stop: the day stays above minus the strictest daily limit and equity stays non-negative, up to the tolerance in the code |
| AccountLaws.AdmittedWithinLimits | packages/application/src/execution-account.ts:206-229 | with the admitted entry the account respects its exposure, position and per-trade limits, no day limit is used up, and nothing opposes it |
| AccountLaws.TighterNetsMore | packages/application/src/execution-risk.ts:29-46 | a tighter protective level, filled with slippage and rounded against the position, never nets less |
| AccountLaws.MoveKeepsProtected | packages/application/src/execution-account.ts:104-149 | marking, tightening, closing at the level or better, and admitting keep the account protected and one-way per symbol |
| AccountLaws.DayStaysProtected | packages/application/src/execution-account.ts:206-231 | the same over any run of such moves within one day |
| AuditJobs.NextJob | scripts/lib/trade-audit-monitor.ts:318-330 | the next job is due and idle, and every other due job has a later deadline, creation time or id |
| AuditJobs.BackoffDoubles | scripts/lib/trade-audit-monitor.ts:383-387 | the first retry delay is fifteen seconds and each further one is twice the one before, at most fifteen minutes |
| AuditExactness.CompletionExactly | scripts/lib/trade-audit-monitor.ts:350-390 | what a completed attempt leaves: its receipt, the reading of a result, and for a retry a due time after the delay of that many attempts |
| AuditExactness.DueAfter | scripts/lib/trade-audit-monitor.ts:318-323 | after a completed attempt the job is due exactly from the end of its delay on, and after a final one never again |
| AuditExactness.NextExactly | scripts/lib/trade-audit-monitor.ts:318-330 | the next job, told from dates and ids: due, and before every other due one by retention date, creation time and id |
| AuditExactness.RunExactly | scripts/lib/trade-audit-monitor.ts:512-530 | what one turn makes of the next job: a new attempt that ends with the run's result, or as failed and to be retried |
| AuditExactness.ReadExactly | scripts/watch-trade-audits.ts:345-375 | an idle turn reads one outcome that is due for it, marks it or records a failed attempt, and touches no other job |
| AuditExactness.RecoveryExactly | scripts/lib/trade-audit-monitor.ts:391-462 | what a restart makes of an attempt under way: adopted by its receipt, answered by a new failed attempt if that is unreadable, completed by its stored result, or ended as interrupted |
| AuditExactness.RecheckExactly | scripts/lib/trade-audit-monitor.ts:464-511 | an outcome that still verifies is only marked as read; one that does not is recorded as a new failed attempt |
| AuditExactness.AddExactly | scripts/lib/trade-audit-monitor.ts:237-265 | a closed trade is refused, confirmed or added exactly by its id, identity, creation time and the number of jobs |
| AuditExactness.PageExactly | scripts/lib/trade-audit-monitor.ts:266-317 | what one page of the scan leaves in every case, up to a finished scan that found every known trade |
| AuditQueue.Disk.Save | scripts/lib/trade-audit-monitor.ts:88-102 | the index is replaced atomically: the old one or the new one |
| AuditQueue.Disk.WriteOnce | scripts/lib/trade-audit-monitor.ts:78-87 | a receipt is created only where none exists; a failed write may leave it torn |
| AuditQueue.Monitor.Open | scripts/lib/trade-audit-monitor.ts:196-227 | opening resumes from the saved index |
| AuditQueue.Monitor.Start | scripts/lib/trade-audit-monitor.ts:331-349 | the claim is saved before the attempt begins and its number is beyond every receipt of the job |
| AuditQueue.Monitor.Complete | scripts/lib/trade-audit-monitor.ts:350-390 | the receipt is written before the index; without a claim or over an existing receipt nothing changes |
| AuditQueue.Monitor.RecoverJob | scripts/lib/trade-audit-monitor.ts:392-462 | an interrupted job adopts a readable receipt, answers an unreadable one with a new attempt, commits a verified result, or is retried |
| AuditQueue.Monitor.Recover | scripts/lib/trade-audit-monitor.ts:391-463 | a completed recovery leaves no job active, every job as required, and no receipt overwritten; on a working disk it always completes |
| AuditQueue.Monitor.RunOne | scripts/lib/trade-audit-monitor.ts:512-530 | the next due job runs as a new attempt; its outcome or its failure becomes a receipt |
| AuditQueue.Monitor.VerifyLatest | scripts/lib/trade-audit-monitor.ts:464-511 | every stored outcome is read again: one that no longer verifies is answered by a new attempt that says so, every other finished job is marked as read, and nothing else changes |
| AuditQueue.Monitor.VerifyOldest | scripts/watch-trade-audits.ts:345-375 | an idle turn reads the outcome that was read longest ago, if more than a day: it is marked, or opened again by a new attempt; a mark that cannot be saved counts as a failure |
| AuditJobs.NextCheck | scripts/watch-trade-audits.ts:346-352 | the outcome chosen is due and was read no later than any other due one, the first of equals |
| AuditQueue.Monitor.AddJob | scripts/lib/trade-audit-monitor.ts:237-265 | a refused closure changes nothing; a known one keeps its attempts |
| AuditQueue.Monitor.DiscoverPage | scripts/lib/trade-audit-monitor.ts:266-317 | the paged discovery, saved whether the page was accepted or not |
| AuditRuns.Watch | scripts/watch-trade-audits.ts:278-388 | over any number of restarts, with stored outcomes read again at the start and in idle turns, and any lost, torn or late write: no receipt is overwritten, none is numbered beyond the saved attempts, no job loses attempts |
| AuditRuns.Restart | scripts/lib/trade-audit-monitor.ts:391-463 | after a restart on a working disk no attempt is open and every readable receipt is the job's latest |
| AuditDiscovery.DiscoverOnlyMarks | scripts/lib/trade-audit-monitor.ts:237-317 | discovery never touches an attempt, claim or receipt, whatever the page |
| AuditDiscovery.RefusedPageSkipsNothing | scripts/lib/trade-audit-monitor.ts:266-296 | a page that is refused moves neither cursor nor boundary |
| AuditDiscovery.PageKeepsScan | scripts/lib/trade-audit-monitor.ts:295-310 | every row up to the cursor has a job marked by the open scan; the last page fulfils this for the whole snapshot and misses no known job |
| AuditDiscovery.FinishedScanIsComplete | scripts/lib/trade-audit-monitor.ts:237-317 | over any sequence of failed, refused, lost and accepted pages, the call that finishes a scan leaves a marked job for every row of its snapshot and no dated job unseen |
| PriceJournal.OrderedPriceJournal.Enqueue | apps/worker/src/price-journal.ts:23-35 | accepts exactly while there is room and asks for the overflow handler only on the first rejection of a run |
| PriceJournal.OrderedPriceJournal.Flush | apps/worker/src/price-journal.ts:37-51 | one write at a time, of a non-empty head of the queue no longer than the batch size |
| PriceJournal.OrderedPriceJournal.WriteSettled | apps/worker/src/price-journal.ts:52-59 | a successful write removes exactly the batch it wrote; a failed one removes nothing |
| PriceJournal.WritesDrain | apps/worker/src/price-journal.ts:37-60 | while writes succeed the journal drains: after enough rounds everything accepted is written, in order |
| PriceJournal.WriteIsKept | apps/worker/src/price-journal.ts:37-43 | only its own settling ends a write; until then every other step leaves it, and its batch at the head of the queue |
| PriceJournal.SettlingMovesTheBatch | apps/worker/src/price-journal.ts:49-60 | a successful write moves its batch from the queue to what is written, a failed one leaves both, and each is remembered in the health |
| PriceJournal.ArrivalIsRecorded | apps/worker/src/price-journal.ts:23-35 | an arrival is taken if and only if there is room, carries the present stream, and begins the next one if it is the first rejected of its run |
| PriceJournal.EveryInterleavingIsSound | apps/worker/src/price-journal.ts:23-60 | over every interleaving of arrivals, reconnects, writes and failures: written plus pending is accepted in order, capacity holds, overflow fires once per run of rejections, no tick is dropped inside a stream, and health is exact |
| PriceJournal.ArrivalKeepsSound | apps/worker/src/worker.ts:331-343 | the overflow handler runs inside the enqueue and begins a new stream, so a later accepted tick never shares a stream with ticks before a drop |
| RequestCacheClass.RecoveryRequestCache.Request | apps/worker/src/recovery-request-cache.ts:19-58 | one request: shared promise, cached value, backoff, or a new load after making room |
| RequestCacheClass.RecoveryRequestCache.Settle | apps/worker/src/recovery-request-cache.ts:40-53 | a settled load updates exactly the entry that started it |
| RequestCacheClass.RecoveryRequestCache.DropStale | apps/worker/src/recovery-request-cache.ts:26-28 | exactly the entries that serve no one any more are dropped |
| RequestCache.EveryInterleavingIsSound | apps/worker/src/recovery-request-cache.ts:19-58 | over every interleaving: distinct keys, size within capacity, a promise handed out exactly while its entry holds it, and every entry's failures, value and retry time are those of its key since the entry was last removed; of a key without an entry nothing is remembered |
| RequestCacheAnswers.AnswersExactly | apps/worker/src/recovery-request-cache.ts:22-40 | the answer to a request, told from what happened to the key: the promise of a load under way, a value whose time has not run out, a refusal during the delay after failures, or a new load unless the key is unknown and the cache full of loads |
| RequestCacheAnswers.EveryRunReaches | apps/worker/src/recovery-request-cache.ts:22-58 | over every interleaving the cache stays such that this holds: each value expires its time to live after its load |
| RequestCacheAnswers.StaleExactly | apps/worker/src/recovery-request-cache.ts:30-32 | an entry serves no one exactly if its key is not being loaded, no longer served and not backing off |
| RequestCache.SingleFlight | apps/worker/src/recovery-request-cache.ts:22-22 | two promises handed out for one key are the same |
| RequestCache.InFlightSurvives | apps/worker/src/recovery-request-cache.ts:26-33 | no step removes an entry in flight, and a settling load's result is in the stored entry |
| RequestCache.NoEarlyReload | apps/worker/src/recovery-request-cache.ts:47-53 | a key that failed k times in a row, its entry not removed since the first of them, starts no load before the backoff for k has passed, and the request changes nothing |
| RequestCache.EarlyReloadExactly | apps/worker/src/recovery-request-cache.ts:22-53 | after k failures of a key in a row, a load starts before the backoff for k if and only if the entry has been removed during that run and either there is none and room for one, or it is idle and the backoff of the failures since its removal has passed |
| RequestCache.RemovedExactly | apps/worker/src/recovery-request-cache.ts:25-36 | an entry is removed if and only if another key without an entry is requested and it is stale by then, or first idle in a cache full without the stale ones |
| RequestCache.PruningForgetsFailures | apps/worker/src/recovery-request-cache.ts:26-28 | in a cache of any capacity above one, a key whose entry another key's request pruned after its first failure loads again two seconds after its second |
| RequestCache.BackoffCanBeCutShort | apps/worker/src/recovery-request-cache.ts:29-33 | a run at capacity one in which a backed-off key loads again at once |
| RequestCache.BackoffDoubles | apps/worker/src/recovery-request-cache.ts:50-51 | the first delay is two seconds and each further one is twice the one before, at most thirty seconds |
| EntryExactness.FillsExactly | packages/application/src/execution-entry-liquidity.ts:177-260 | an order is answered by the first of twelve causes that holds; where none holds it fills, at the price on offer, the most whole steps that order and remaining capacity allow, and less than one step left is the last cause |
| EntryExactness.CapacityIsWhatIsLeft | packages/application/src/execution-entry-liquidity.ts:226-244 | a taker's capacity and what the very trade took from the level are together what the level showed, and without such a trade the capacity is the level; a maker's is its share of the trade |
| EntryExactness.BooksExactly | packages/persistence/src/runtime-repository.ts:1444-1500 | an attempt is booked if and only if it still fills with everything counted on its source, for no more than that |
| EntryExactness.LedgerExactly | scripts/verify-execution-ledger.ts:283-289 | what a source has given is the sum of its fills, and its capacity the largest on record |
| EntryLiquidity.FillIsWithin | packages/application/src/execution-entry-liquidity.ts:213-260 | a fill is a positive whole number of steps within the order and within what is left, no further step fits, and its price obeys the limit or the slippage bound |
| EntryLiquidity.FillNeedsLifeAndBook | packages/application/src/execution-entry-liquidity.ts:151-218 | nothing is filled outside the order's life or from a book that is unknown, stale, early or too wide, nor passively by a special trade |
| EntryLiquidity.WaitOrCancel | packages/application/src/execution-entry-liquidity.ts:177-212 | a resting order is cancelled only by expiry or a stream change; an immediate one waits only while it is early |
| EntryLiquidity.SourceIgnoresConsumption | packages/application/src/execution-entry-liquidity.ts:225-246 | the source and capacity of a fill do not depend on what has been consumed, so evaluating first without consumption finds the right key |
| EntryLiquidity.CapacityWasShown | packages/application/src/execution-entry-liquidity.ts:223-243 | a recorded capacity never exceeds the public trade or the best level behind it |
| EntryLiquidity.LiquidityIsNeverReused | scripts/verify-execution-ledger.ts:283-289 | over any sequence of attempts by any orders the ledger's reuse query finds nothing |
| EntryLiquidity.NothingFillsBeyondTheMarket | packages/persistence/src/runtime-repository.ts:1444-1500 | however many orders try, the fills on one trade or one book level stay within the quantity recorded there |
| PendingEntry.ReplayPendingEntryEvents | apps/worker/src/runtime-pending-entry.ts:12-59 | the loop computes the specified outcome |
| PendingEntry.OutcomeExactly | apps/worker/src/runtime-pending-entry.ts:30-58 | the whole outcome of a run: it ends at the first tick that the clock or the answer to a timely offer ends it at, with the cursor behind what was considered and the reason of the last tick still waiting |
| PendingEntry.CursorTellsWhatWasOffered | apps/worker/src/runtime-pending-entry.ts:31-52 | the cursor never moves back and the ticks offered are exactly the eligible ones between the old cursor and the new |
| PendingEntry.FirstDecisiveAnswerEnds | apps/worker/src/runtime-pending-entry.ts:50-52 | only the last tick offered may get a decisive answer; then that is the outcome and the cursor stops there |
| PendingEntry.OfferedTicksAreTimely | apps/worker/src/runtime-pending-entry.ts:36-49 | a tick is offered only before expiry, on the entry's stream, after the signal was final, and neither stale nor from the future |
| PendingEntry.ExpiryConsumesNothing | apps/worker/src/runtime-pending-entry.ts:33-35 | an expired run has not consumed the tick it expired on |
| PendingEntry.BatchesCompose | apps/worker/src/runtime-pending-entry.ts:28-59 | with a clock that never runs back two batches end with the status and cursor of one |
| Latency.RuntimeLatency.CurrentBucket | apps/worker/src/runtime-latency.ts:68-78 | old buckets go and the bucket of this instant exists |
| Latency.RuntimeLatency.Observe | apps/worker/src/runtime-latency.ts:79-105 | an observation enters its bucket as a whole and under its phase; a negative duration is none |
| Latency.RuntimeLatency.Snapshot | apps/worker/src/runtime-latency.ts:110-144 | a snapshot is the summary of the merged buckets |
| LatencyLaws.BucketsHoldTheWindow | apps/worker/src/runtime-latency.ts:68-105 | with a clock that never runs back the buckets always hold exactly the observations of the last thirty of them |
| LatencyLaws.SnapshotIsTheWindow | apps/worker/src/runtime-latency.ts:110-144 | a snapshot equals the histogram of the plain list of observations in the window, by phase and as a whole, and the phases add up to the whole |
| LatencyLaws.SnapshotIsPlain | apps/worker/src/runtime-latency.ts:16-52 | number, mean, maximum and percentiles of a snapshot are those of the plain list of observations in its window |
| LatencyLaws.WindowExactly | apps/worker/src/runtime-latency.ts:68-78 | the window, told from the times: the last thirty ten-second buckets, split five minutes after the start |
| LatencyLaws.PercentileIsTheFirstEdge | apps/worker/src/runtime-latency.ts:34-41 | a percentile is the first bucket edge that covers the required share of the observations, or the maximum |
| LatencyLaws.PercentilesRise | apps/worker/src/runtime-latency.ts:34-41 | a larger share never has a smaller percentile |
| LatencyLaws.SnapshotPercentiles | apps/worker/src/runtime-latency.ts:42-52 | what a snapshot reports for a name is the summary of its window, with p50, p95 and p99 in order |

## Left out

- BatchLaws.BatchesCompose: stated for accepted checkpoints, a quiet look-ahead and well-formed signals; a refusal ends the first batch where it is.
- PriorityExit.PriorityExitsAreReal: stated for signal candles that are the position's own and well formed; any other makes processing fail at the candle.
- BatchLaws.SplitsExactly: stated without the look-ahead; with it, a split also changes what the look-ahead can see.
- LiveRuns.CommittedRunReplays: stated for batches whose look-ahead closes nothing and whose checkpoints are all accepted; a refused checkpoint ends the processing of its batch and is not a run of this form.
- ReplayLaws.RecordedRunReplays: stated for records whose look-ahead closed nothing; one that closed is the subject of LookAheadReplay, for the page at its gap.
- LookAheadReplay.LookAheadCloseReplays: the number of processed ticks that the trace expects is not captured there; the worker does not record one for such a checkpoint.
- RecoveryExactness.StrictSoundnessIsExact: stated for stretches of ticks in which no known candle asks for an exit; recovery reads no signals.
- AccountLaws.MoveKeepsProtected: a partial reduction of a position is not among the moves, and the day does not roll over; gaps through a level are outside the bound, as in the design.
- Account.TradingCalendar.ExecutionTradingDay: dates are numbers from an abstract calendar; the time zone tables of the platform are not modelled.
- AuditQueue.Disk.WriteOnce: a receipt is either readable or not; checksums, paths and byte limits are not modelled.
- AuditQueue.Monitor.Recover: whether a stored result and its evidence verify is a parameter, and the comparison of a job's stored directory with its expected path is dropped, because the model derives it from job and number.
- AuditQueue.Monitor.AddJob: importing a seed and saving after a single added job are not modelled.
- RequestCacheClass.RecoveryRequestCache.Settle: a load finds its entry by id where the source holds the entry object itself.
- Latency.RuntimeLatency.Snapshot: counters, the maxima with their contexts and the reported dates are not modelled; an observation that is not finite does not exist in exact numbers.
- PriceJournal.EveryInterleavingIsSound: `flushAll` of the price journal is left out, since it need not end while writes fail; while they succeed it is `WritesDrain`.
- TickProcessorLoop.ReadSignals: a signal is a timestamped fact that fires or not; the indicators and formulas behind it are not part of this model, and neither is the reason attached to a signal exit.
- Rounding of settled amounts to a fixed number of decimals, funding payments, and the rejection of a quote for a foreign symbol.
- Candle exits inside recovery carry no indicators, as in the source; only a lost breakout level can signal.
- Verification of retained evidence on disk and the summary report of the audit monitor.
- The replay's recovery counters, continuity labels, funding records, checksums and version checks.
- Reading and validating stored orders, risk settings, policies and market data; they are typed values here.
- `forEachConcurrent`, routing, dashboards, database transactions, exchange clients, archives and the other loops of the worker.
