# Search core of the embedded Glaurung/Stockfish engine

This project models the deterministic, sequential parts of the chess search in
`OldEngine/search.cpp`: the root move list and its ranking, the per-ply search
stack (principal variations and killer moves), the pure decision rules the
search consults for each move (extensions, mate scores, transposition-table
cut-offs, margins, reductions, the blunder modulus), the iterative-deepening
arithmetic (aspiration windows, fail-high and fail-low widening, the decision to
stop) and the time management of `think()`, `poll()` and `ponderhit()`.

Wherever the engine asks the board, the move generator, the transposition table
or the clock, the answer is a parameter: the facts `extension()` reads become a
`MoveFacts` record, a table entry becomes a `TTEntry`, the elapsed time is `t`,
the waiting input is a `Command`. Constants defined outside `search.cpp`
(`OnePly`, `VALUE_INFINITE`, `VALUE_MATE`, `VALUE_KNOWN_WIN`, `VALUE_NONE`,
`PLY_MAX`, `KILLER_MAX`, `PLY_MAX_PLUS_2`) are parameters or array lengths and never fixed; `MOVE_NONE`
is the move 0. The build defines `IPHONE_GLAURUNG` (`OldEngine/iphone.h:4`), so
the iPhone paths of `poll()` and `think()` are the ones modelled.

Modules, one per file:

- `types.dfy` (`Types`): moves, `Min`/`Max`/`Abs`, C's truncating division
  `CDiv`, powers of two and `HighestBit`, which stands for `bitScanReverse32`
  (`bitboard.h` is not part of this model).
- `pv_line.dfy` (`PvLine`): a MOVE_NONE-terminated variation, the line it
  holds (`Line`) and the effect of writing a line into it (`Splice`).
- `root_moves.dfy` (`RootMoves`): `RootMove`, its order `Below`
  (`operator<`) and the class `RootMoveList` over a fixed array of 500 entries,
  sorted in place by insertion.
- `search_stack.dfy` (`SearchStacks`): the class `SearchStack`, killer
  updates and the copying of variations by `update_pv` and `sp_update_pv`.
- `pruning.dfy` (`Pruning`): `extension`, `value_is_mate`, `ok_to_use_TT`,
  `refine_eval`, the razor and futility margins, the futility tables of
  `init_search`, the reduction getters and `blunder_modulus`.
- `time_control.dfy` (`TimeControl`): thinking time, poll interval, playing
  strength and the abort decisions; the class `SearchState` holds the search's
  global variables and `think()`'s set-up, `poll()`, `ponderhit()` and the
  polling in `init_node()` change them.
- `iteration.dfy` (`Iteration`): `id_loop()`'s aspiration window and stop
  decision and `root_search()`'s re-search loops.

Two readings of the code worth stating:

- `RootMove::operator<` ranks a move below another with the same score when
  its `theirBeta` count is lower or equal, so the insertion sort puts the move
  with MORE opponent beta cut-offs first among equal scores. The comment above
  the operator speaks of node counts; the model follows the code.
- `think()` computes `Blunder` in a way that disables blundering at one Elo
  band and leaves a stale value behind (see "## Findings"); `SearchState.Think`
  uses the corrected settings `HandicapSettings`, and `HandicapAsWritten`
  keeps the code as written.

## Model

| member | source | states |
|---|---|---|
| Types.CDiv | OldEngine/search.cpp:449 | C integer division truncates toward zero: the quotient's magnitude is abs(a)/abs(b), its sign is positive exactly when the operands' signs agree (or it is 0), and it agrees with Euclidean division on non-negative operands |
| Types.HighestBitBounds | OldEngine/search.cpp:595 | `bitScanReverse32(x)` is the index h of the highest set bit: 2^h <= x < 2^(h+1) |
| Types.HighestBitMonotone | OldEngine/search.cpp:595 | the highest set bit never falls as x grows |
| Types.Pow2Monotone | OldEngine/search.cpp:599 | `1 << k` grows with k |
| PvLine.FirstNone | OldEngine/search.cpp:2147-2148 | the index where the copy loop stops is the first MOVE_NONE at or after the start |
| PvLine.Line | OldEngine/search.cpp:2147-2150 | the moves of a variation contain no MOVE_NONE and are followed by the sentinel |
| PvLine.SpliceLine | OldEngine/search.cpp:2145-2150 | reading back a variation just written yields exactly the written moves |
| RootMoves.BelowIsLexicographic | OldEngine/search.cpp:123-126 | `operator<` is `<=` on the pair (score, theirBeta): total and transitive |
| RootMoves.RankedHeadIsBest | OldEngine/search.cpp:3278-3300 | after sorting, the first root move ranks at least as high as every other |
| RootMoves.InsertKeepsRanked | OldEngine/search.cpp:3292-3297 | inserting a move after the entries that rank above it keeps the list ranked |
| RootMoves.CandidatesAreSelected | OldEngine/search.cpp:3220-3244 | a move enters the list exactly when it is legal and searchMoves is empty or names it; it starts with zero nodes and the one-move variation |
| RootMoves.IsSearchMove | OldEngine/search.cpp:3220-3231 | the searchMoves scan selects m exactly when the list is empty or names m before its MOVE_NONE |
| RootMoves.RootMoveList.constructor | OldEngine/search.cpp:3215-3247 | the list holds exactly the selected moves (as a multiset) with their quick scores and is ranked |
| RootMoves.RootMoveList.AddCandidates | OldEngine/search.cpp:3226-3245 | the loop appends the selected moves in generation order |
| RootMoves.RootMoveList.SetMoveNodes | OldEngine/search.cpp:3252-3256 | nodes becomes k and cumulativeNodes grows by exactly k; no other field or entry changes |
| RootMoves.RootMoveList.SetBetaCounters | OldEngine/search.cpp:3258-3262 | only the two beta counters of that move change |
| RootMoves.RootMoveList.SetMoveScore | OldEngine/search.cpp:146 | only that move's score changes |
| RootMoves.RootMoveList.SetMovePv | OldEngine/search.cpp:3264-3272 | the move's variation becomes the given one up to and including its MOVE_NONE; the rest of its array and every other entry keep their values |
| RootMoves.RootMoveList.Sort | OldEngine/search.cpp:3278-3281 | the whole list ends ranked and is a permutation of what it held |
| RootMoves.RootMoveList.SortMultipv | OldEngine/search.cpp:3288-3300 | moves[0..n] end ranked (non-increasing by score, then theirBeta) and a permutation of their old contents; entries after n are untouched |
| RootMoves.RootMoveList.InsertionStep | OldEngine/search.cpp:3292-3297 | one outer pass extends the ranked prefix by one entry and permutes nothing outside it |
| RootMoves.Inserted | OldEngine/search.cpp:3294-3297 | shifting the lower-ranked entries right and dropping the saved move into the gap ranks the prefix and permutes the array |
| SearchStacks.SearchStack.Init | OldEngine/search.cpp:605-611 | pv[ply] and pv[ply+1] become MOVE_NONE, current and threat moves are cleared, reduction is 0 and eval is VALUE_NONE; killers are untouched |
| SearchStacks.SearchStack.InitKillers | OldEngine/search.cpp:613-618 | the mate killer and every killer become MOVE_NONE |
| SearchStacks.SearchStack.UpdateKillers | OldEngine/search.cpp:2446-2455 | the killers become PushKiller of the old killers |
| SearchStacks.PushKillerContents | OldEngine/search.cpp:2446-2455 | m is the first killer; the array is unchanged if it already was, else every old killer moves down one slot and the last drops out |
| SearchStacks.PushKillerKeepsPairDistinct | OldEngine/search.cpp:2446-2455 | with two slots, distinct killers stay distinct |
| SearchStacks.SearchStack.IsKiller | OldEngine/search.cpp:2246-2254 | true exactly when m is one of the killers |
| SearchStacks.UpdatePv | OldEngine/search.cpp:2141-2153 | the variation at ply becomes the current move, then the child's variation from ply+1, then MOVE_NONE; entries before ply and after the sentinel keep their values |
| SearchStacks.SpUpdatePv | OldEngine/search.cpp:2160-2172 | the same variation is written into both the thread's stack and the split point's parent stack |
| SearchStacks.UpdatedLine | OldEngine/search.cpp:2141-2153 | the line read back at ply after update_pv is the current move followed by the child's line |
| SearchStacks.InitSsArray | OldEngine/search.cpp:2668-2675 | the first three plies are initialised, killers included, and stay separate |
| Pruning.Extension | OldEngine/search.cpp:2264-2320 | the extension never exceeds one ply, and the move is marked dangerous exactly when it checks, is a single evasion, meets a mate threat, is a pawn push to the 7th or to a passed square, enters a pawn ending or is a safe capture at a PV node |
| Pruning.ExtendedOnlyIfDangerous | OldEngine/search.cpp:2270-2318 | a move that is not dangerous gets no extension |
| Pruning.DangerIgnoresOptions | OldEngine/search.cpp:2270-2318 | whether a move is dangerous does not depend on the extension options or OnePly |
| Pruning.ExtensionInRange | OldEngine/search.cpp:2264-2320 | with non-negative options the extension lies in [0, OnePly] |
| Pruning.ExtensionMonotone | OldEngine/search.cpp:2264-2320 | raising extension options never shortens an extension |
| Pruning.ValueIsMate | OldEngine/search.cpp:2234-2240 | a score is a mate score exactly when its absolute value is at least VALUE_MATE - PLY_MAX, the score of a mate in PLY_MAX plies |
| Pruning.MateScoresRecognised | OldEngine/search.cpp:2234-2240 | every score of mating or being mated within PLY_MAX plies is a mate score, and no score strictly between the two PLY_MAX thresholds is |
| Pruning.ValueIsMateSymmetric | OldEngine/search.cpp:2234-2240 | v is a mate score exactly when -v is |
| Pruning.OkToUseTT | OldEngine/search.cpp:2388-2400 | a usable entry's bound type proves the cut-off (lower bound at or above beta, upper bound below); a shallow entry is used only for mate scores, those at least VALUE_MATE - PLY_MAX in absolute value |
| Pruning.OkToUseTTShallower | OldEngine/search.cpp:2388-2400 | an entry usable at one depth is usable at every smaller depth |
| Pruning.NullEntryRefused | OldEngine/search.cpp:2392 | with zugzwang detection on and null move not allowed, a null-search entry is never used |
| Pruning.OkToUseTTComplete | OldEngine/search.cpp:2388-2400 | a deep enough non-null entry whose bound proves the cut-off is always used |
| Pruning.RefineEval | OldEngine/search.cpp:2406-2418 | the result is the static evaluation or the table value |
| Pruning.RefineEvalByBound | OldEngine/search.cpp:2406-2418 | an exact entry gives its value, a lower bound the larger, an upper bound the smaller, no entry the static evaluation |
| Pruning.RazorMargin | OldEngine/search.cpp:171 | at depth 0 or more the margin is at least 0x200 |
| Pruning.RazorMarginGrows | OldEngine/search.cpp:171 | the margin grows by 16 per depth unit |
| Pruning.InitFutilityTables | OldEngine/search.cpp:589-599 | both futility tables hold their defining formulas in every cell |
| Pruning.FutilityMarginStep | OldEngine/search.cpp:595 | each further move lowers a margin by 8 |
| Pruning.FutilityMarginDeeper | OldEngine/search.cpp:595 | table margins never shrink with depth |
| Pruning.FutilityMoveCountDeeper | OldEngine/search.cpp:599 | the move-count table is at least 4 and never shrinks with depth |
| Pruning.FutilityMargin | OldEngine/search.cpp:216 | below 7 plies the clamped table entry, from 7 plies on twice VALUE_INFINITE |
| Pruning.FutilityMarginMonotone | OldEngine/search.cpp:216 | the margin never shrinks as depth grows, across the switch to 2*VALUE_INFINITE too |
| Pruning.FutilityMoveCount | OldEngine/search.cpp:217 | below 16 plies the table entry, from 16 plies on 512 |
| Pruning.FutilityMoveCountMonotone | OldEngine/search.cpp:217 | below 16 plies the threshold is at least 4 and grows with depth |
| Pruning.Reduction | OldEngine/search.cpp:225-226 | the reduction is an int8 value and is 0 below depth 2 or at move number 0 |
| Pruning.ReductionSaturates | OldEngine/search.cpp:225-226 | past depth 126 and move 63 the reduction no longer changes |
| Pruning.BlunderModulus | OldEngine/search.cpp:2487-2524 | the modulus is at least 1 |
| Pruning.BlunderModulusOrder | OldEngine/search.cpp:2496-2510 | a losing move is at least as likely to be skipped as a quiet one, a quiet one as a capture |
| Pruning.BlunderModulusLongMoves | OldEngine/search.cpp:2512-2519 | a move of five squares or more is at least as likely to be skipped as a short one |
| TimeControl.TimeBudget | OldEngine/search.cpp:475-508 | without Ponder the clock budget is used unchanged; with Ponder the target becomes min(target + target/4, hard limit) and the hard limit is left alone |
| TimeControl.TimeBudgetPonderRaises | OldEngine/search.cpp:505-506 | when the clock budget's target is non-negative and within the hard limit, Ponder never lowers it and keeps it within the hard limit |
| TimeControl.TimeBudgetPonderLowers | OldEngine/search.cpp:498-506 | with 6000 ms and two moves to go the target is 3000 ms without Ponder and 2000 ms with it: Ponder can lower the target to the hard limit |
| TimeControl.TimeBudgetWithinClock | OldEngine/search.cpp:475-508 | without increment both limits lie in [0, myTime] |
| TimeControl.SharedMovesWithinClock | OldEngine/search.cpp:498-502 | with several moves to go both limits lie in [0, myTime] |
| TimeControl.TimeBudgetLastMove | OldEngine/search.cpp:492-496 | with one move to go the target is myTime/2 and the hard limit leaves time on the clock |
| TimeControl.TimeBudgetIncrement | OldEngine/search.cpp:478-486 | in sudden death an increment adds exactly itself to the target |
| TimeControl.PollInterval | OldEngine/search.cpp:511-524 | NodesBetweenPolls is at most 1000; with a node limit 30 times it stays within the limit; without one it is at least 33 |
| TimeControl.PollIntervalShrinksWithTime | OldEngine/search.cpp:513-518 | less time on the clock never polls less often; under one second every 33 nodes |
| TimeControl.SlowdownFor | OldEngine/search.cpp:454-456 | the delay is 0 at full strength and otherwise a table entry between 14 and 1605 |
| TimeControl.SlowdownMonotone | OldEngine/search.cpp:454-456 | for strengths s1 <= s2 <= MaxStrength, Slowdown at s2 is at most Slowdown at s1 |
| TimeControl.SlowdownAboveMaxStrength | OldEngine/search.cpp:454-455 | a strength of MaxStrength + 1 gets Slowdown 14 while MaxStrength gets 0 |
| TimeControl.BlunderFor | OldEngine/search.cpp:456 | the corrected Blunder for a negative strength lies in [1, 52*52] |
| TimeControl.HandicapAsWritten | OldEngine/search.cpp:449-459 | as written, a search without UCI_LimitStrength keeps the previous Blunder |
| TimeControl.HandicapSettings | OldEngine/search.cpp:449-459 | corrected: full strength means no slowdown and no blunders; Blunder is positive exactly when the strength is negative |
| TimeControl.HandicapAsWrittenDefects | OldEngine/search.cpp:449-459 | as written, Elo 800 and 720 blunder but 770 never does, and Blunder survives into an unlimited search |
| TimeControl.HandicapBlunderMonotone | OldEngine/search.cpp:449-459 | corrected: a lower UCI_Elo never makes blunders rarer |
| TimeControl.PollStops | OldEngine/search.cpp:2631-2641 | an exact time limit always stops once reached; from the third iteration, under time management, passing the hard limit stops, and so does passing target plus extra time on the first root move without a fail low; from the third iteration a reached node limit stops; conversely poll() stops only when the exact time is reached or, from the third iteration, a time limit under time management or the node limit is passed |
| TimeControl.PollStopsMonotone | OldEngine/search.cpp:2631-2641 | once poll() would abort, it aborts at every later time and node count |
| TimeControl.PonderhitStops | OldEngine/search.cpp:2654-2662 | a ponderhit aborts only under time management from the third iteration, always when a stop was deferred to it or the hard limit is passed, and never unless a stop was deferred or a time limit is passed |
| TimeControl.PonderhitCoversPoll | OldEngine/search.cpp:2631-2662 | without exact time or node limits, a ponderhit aborts whenever a poll at that moment would |
| TimeControl.SearchState.Think | OldEngine/search.cpp:385-524 | the flags are reset, the 'go' limits recorded, time management used exactly when no limit is given, and the budget, strength settings and poll interval set by their formulas |
| TimeControl.AfterPoll | OldEngine/search.cpp:2549-2642 | Quit is set exactly on 'quit'; pondering continues exactly when it was on and no quit, stop or ponderhit arrived; an abort is never undone; quit and stop abort; a ponderhit aborts when PonderhitStops says so; a search left not pondering is aborted when PollStops says so; a search still pondering keeps its abort flag; an abort has one of these causes |
| TimeControl.AfterPollSettled | OldEngine/search.cpp:2549-2642 | a second poll at the same moment with no command waiting changes no flag |
| TimeControl.AfterPollWithoutCommand | OldEngine/search.cpp:2627-2641 | with no command waiting a pondering search is never aborted and any other is aborted exactly when PollStops says so |
| TimeControl.SearchState.PonderhitNow | OldEngine/search.cpp:2649-2663 | pondering ends and the search is aborted when PonderhitStops says so; the method may change only PonderSearch and AbortSearch |
| TimeControl.SearchState.Poll | OldEngine/search.cpp:2549-2642 | the three flags become AfterPoll of their old values, the limits and the command; the method may change only AbortSearch, PonderSearch and Quit |
| TimeControl.SearchState.CountNode | OldEngine/search.cpp:2122-2130 | the main thread polls exactly when the node counter reaches NodesBetweenPolls and then resets it; when it polls the flags change as Poll changes them, otherwise only the counter changes |
| Iteration.AspirationDelta | OldEngine/search.cpp:680-684 | the delta is max(abs(d1) + abs(d2)/2, 16) rounded up to a multiple of 8 |
| Iteration.AspirationWindow | OldEngine/search.cpp:678-688 | the window changes only in single-PV mode from iteration 6 after a score below VALUE_KNOWN_WIN; then its delta is AspirationDelta of the last two score changes and the window is the previous score minus and plus that delta, clamped to -VALUE_INFINITE and VALUE_INFINITE |
| Iteration.AspirationWindowBrackets | OldEngine/search.cpp:686-687 | the window lies within [-VALUE_INFINITE, VALUE_INFINITE], strictly brackets the previous score and is at most twice the delta wide |
| Iteration.AlphaAfterMirrorsBeta | OldEngine/search.cpp:965-966 | fail-low widening of alpha is fail-high widening of beta seen from the other side |
| Iteration.BetaAfterBounds | OldEngine/search.cpp:965-966 | beta never decreases and never exceeds VALUE_INFINITE |
| Iteration.BetaAfterGrows | OldEngine/search.cpp:965-966 | after n re-searches beta has grown by delta*(2^n - 1) unless capped |
| Iteration.FullWindowAfter | OldEngine/search.cpp:965-966 | once delta*(2^n - 1) covers the gap, beta is VALUE_INFINITE |
| Iteration.WideningStepBounded | OldEngine/search.cpp:965 | while beta is below VALUE_INFINITE the step delta << k is bounded by the distance covered |
| Iteration.FailHighLoop | OldEngine/search.cpp:825-968 | entered with the fail-high count k0 left by earlier moves and beta widened k0 times, the loop ends when the search is aborted or fails below beta; every search of this move before the last failed high; beta is the window widened as many times as the returned count, which never passes the first n >= k0 whose widening covers the gap to VALUE_INFINITE |
| Iteration.FailLowLoop | OldEngine/search.cpp:852-1061 | the loop ends when aborted or when alpha rose; every earlier pass failed low; alpha is lowered symmetrically and the count of re-searches is bounded the same way |
| Iteration.RecordFailLow | OldEngine/search.cpp:1047-1050 | AspirationFailLow records whether alpha stayed put, and a fail low cancels StopOnPonderhit |
| Iteration.EasyMoveAtStart | OldEngine/search.cpp:663-665 | the easy move is the first move when it is the only one or its score exceeds the second's by more than EasyMoveMargin, and MOVE_NONE otherwise |
| Iteration.KeepEasyMove | OldEngine/search.cpp:704-705 | the easy move is kept exactly when the iteration's best move is the same move, and becomes MOVE_NONE otherwise |
| Iteration.ExtraSearchTime | OldEngine/search.cpp:734-736 | between iterations 6 and 50 the extra time is recomputed and is 0 when the best move did not change in the last two iterations (the time a change buys is stated by ExtraSearchTimeForChanges); outside that range it is kept |
| Iteration.ExtraSearchTimeForChanges | OldEngine/search.cpp:733-736 | between iterations 6 and 50 a best-move change in this iteration buys at least half the target time, one in the previous iteration at least a third, and the extra time is never negative |
| Iteration.ExtraSearchTimeMonotone | OldEngine/search.cpp:734-736 | more best-move changes never buy less extra time |
| Iteration.StopSearch | OldEngine/search.cpp:707-742 | from iteration 6 a single legal move or two mate scores stop; from iteration 8 an easy move that took 85% of the nodes after 1/16 of the target, or 98% after 1/32, stops; using 80/128 of the target plus extra time always stops; and a stop for none of the other reasons means that time was used, so before iteration 6 it is the only reason |
| Iteration.StopSearchMonotone | OldEngine/search.cpp:707-742 | a search that would stop at some time would stop at every later time |
| Iteration.EndIteration | OldEngine/search.cpp:707-755 | ExtraSearchTime is updated, a stop while pondering is deferred to the ponderhit, and the loop ends on a stop or at MaxDepth |

## Left out

- The threads manager (`idle_loop`, `split`, `sp_search`, `sp_search_pv`, thread start-up and shutdown, locks and condition variables): concurrency with spin-waits is outside this sequential model. `sp_update_pv` is modelled on its own.
- The recursive searches `search_pv`, `search`, `qsearch` and `perft`, and `root_search()` apart from its re-search loops: they rest on the position, the move picker, the transposition table, the history and the evaluation, none of which is part of this model. Their results enter the model as the functions `value`, `best` and `aborted` of the re-search loops.
- `connected_moves` and `ok_to_prune`: bitboard attack queries on the position.
- The reduction tables of `init_search()` (`OldEngine/search.cpp:580-588`) are built with `log` and floating point; `ReductionTable` states only what the getters rely on (row and column 0 are zero, every entry fits an `int8_t`).
- The MultiPV > 1 paths of `root_search()` (alpha reset to -VALUE_INFINITE, the per-PV scores): the fail-low loop is modelled in single-PV mode.
- Reading commands, printing, the log file, the `*_to_ui` callbacks and the clock: the elapsed time and the waiting command are parameters; printing search information in `poll()` is left out.
- `slowdown()`, the opening book, the disabled last-seconds-noise code, the UCI option reads, the hash-table resizing and the blunder skip itself (`pos.get_key() % blunder`), which needs the position's hash key.
- `value.h`, `depth.h` and `bitboard.h` are not part of this model: their constants are parameters, `bitScanReverse32` is `HighestBit`, and `value_mate_in(ply)` and `value_mated_in(ply)` are taken to be `VALUE_MATE - ply` and `-VALUE_MATE + ply` (`Pruning.MateIn`, `Pruning.MatedIn`).
- Fixed-width integers: `Value`, `Depth`, `int` and `int64_t` are unbounded here; overflow of `MaxSearchTime`, `AspirationDelta << k` and the node counters is not modelled (`WideningStepBounded` bounds the shift while beta is below VALUE_INFINITE).
- `RootMoves.RootMoveList.constructor`: states the contents as a multiset and ranks them; the order among moves that compare equal is not stated. Entries after the selected moves and the variation array beyond its sentinel hold MOVE_NONE here, uninitialised values in the engine.
- `Pruning.FutilityMargin` and `Pruning.FutilityMoveCount`: the tables are built for `OnePly == 2`; the model takes `0 < OnePly <= 2` so that the indices stay inside the tables.
- `TimeControl.SearchState.Think`: sets the corrected strength settings of `HandicapSettings`, not the code as written (`HandicapAsWritten`), and leaves out everything of `think()` after the poll interval (the log, the root move list, `id_loop()` and the result).
- `Iteration.FailLowLoop`: each pass over the root moves is summarised by the best score it found; the moves themselves are not searched.
- The generic Objective-C sources (board view, game controller, PGN, queue, setup views) are declarations without bodies and are not part of this model.

Properties of the code that the contracts show but that are not defects:

- `futility_move_count` is not monotone across its cap: the table's last entry (depth 31) is 2051 while from depth 32 on the count is 512; `FutilityMoveCountMonotone` stops below 16 plies, where `OnePly == 2` makes the table apply.
- With an increment, `AbsoluteMaxSearchTime = Max(myTime/4, myIncrement - 100)` can exceed the time on the clock; `TimeBudgetWithinClock` therefore assumes no increment.
- Without the Ponder option nothing keeps `MaxSearchTime` below `AbsoluteMaxSearchTime`; with two moves to go the target myTime/2 exceeds the hard limit myTime/3.
- A node limit below 30 makes `NodesBetweenPolls` 0, so every node polls.
- With the Ponder option the target is raised by a quarter only up to the hard limit; when the clock budget's target already exceeds the hard limit, Ponder lowers it (6000 ms with two moves to go: 3000 ms without Ponder, 2000 ms with it).
- Slowdown falls as the strength rises only up to `MaxStrength` (25): a strength above it would get the shortest delay, 14, again. The comment at `OldEngine/search.cpp:452` puts the strength at most at 14, which holds when the UCI_Elo option stays below 2475; the option's range is not part of this model.

## Findings

| source | as written | input that shows it | evidently intended | confidence | as-written member | corrected member |
|---|---|---|---|---|---|---|
| OldEngine/search.cpp:449-456 | `Blunder = (53+Strength)*(53+Strength)` falls to 0 at Strength -53 and rises again below it | UCI_LimitStrength on, UCI_Elo 770: Strength -53, Blunder 0, so no move is ever blundered, while Elo 800 blunders with modulus 1 and Elo 720 with modulus 4 | weaker settings blunder at least as often; the formula's range ends at -52 | high, not executed | TimeControl.HandicapAsWrittenDefects | TimeControl.HandicapBlunderMonotone |
| OldEngine/search.cpp:449-459 | with UCI_LimitStrength off, Strength and Slowdown are reset but Blunder keeps its old value | a search at Elo 800 (Blunder 1) followed by a search with UCI_LimitStrength off: Blunder stays 1 and the full-strength engine keeps skipping moves | full strength means Blunder 0 | high, not executed | TimeControl.HandicapAsWritten | TimeControl.HandicapSettings |
