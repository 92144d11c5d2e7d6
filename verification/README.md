# Verification of the Gomoku server and the coroutine scheduler

This project models the two programs of the repository in Dafny and proves properties of the model.

* **Gomoku engine** - `GomokuBoard` (lines, win check, evaluation), `GomokuSearch` (the plain minimax value),
  `GomokuGame` (moves, runs, tactics), `GomokuEvaluation` (what evaluation and value mean, told from the stones) and
  `AiGame` (the class with its mutable board). The alpha-beta search, which makes and takes back moves on one shared
  board and sorts its moves with a comparator that does so too, is proved to compute the plain minimax value. As in the
  code, the search does not stop at a five and gives the sentinel at a node without a move. A comment in the engine
  says that the fallback to a random free cell is for an empty candidate list; the proofs show when it is really
  needed: with exactly two cells left every candidate has the sentinel as its score.
* **Timers** - `TimerIndex` (the ordered set keyed by deadline), `TimerExpiry` (the draining loop), `TimerRollover`
  (the same loop after the clock has fallen back), `TimerRuns` (serial runs), `TimerManager` (the classes) and
  `TimerWakeUp` (the worker that sleeps until the first deadline, against any number of other threads). Timers are
  looked up by deadline, not by identity: two timers with one deadline cannot both be armed, and `cancel`, `refresh` or
  `reset` on the one that lost its place takes the other one out. The model keeps this and states for each of these
  calls exactly when it happens; `CancelOfALostTimer` is a run in which it does. A recurring timer whose new deadline
  is taken when it fires silently leaves the set: `DrainLeavesArmed` says which ones stay. The loop does not always
  end, and its two exact conditions are proved; `ZeroPeriodRunGetsStuck` is a run that reaches an index on which it
  does not.
* **HTTP** - `HttpParsing` (the incremental parser as a function of state and bytes), `HttpContext` (its classes),
  `HttpRoundTrip` (a printer for the request line and field lines of RFC 9112, sections 3 and 5), `HttpRejection` (what
  is accepted and what rejected, and the converse of the round trip) and `HttpConnection` (a whole connection). A
  request that has no body of its own is handed over with the body of an earlier request of the connection, because the
  reset does not exchange it; `StaleBody` states when, and `LaterRequestGetsTheBody` shows it for every such pair of
  messages.
* **I/O event registry** - `EventRegistry` (the state and the effect of each call) and `IoManager` (the classes). The
  handler does not mask a report of `epoll_wait` with the registered events; a report overtaken by a `delEvent` then
  makes it call through a null scheduler. `HandleReady` states exactly when, `ReportOvertaken` is a run that gets
  there.
* **Connection pool** - `ConnectionPool`: steps of any number of threads, one critical section each, and the class
  whose methods are these steps.
* **Scheduler** - `Scheduler`: any number of workers, and the class whose methods are their critical sections.

Where the code changes objects in place the model has a class whose methods are proved against functions on values: the
new state is a function of the old one, and the lemmas are about these functions. Protocols with several threads are
state machines over their steps; in the pool and the scheduler, ghost fields record what the threads are doing, so that
each method is one step. Clock readings, random numbers, results of `epoll_ctl` and failures of a ping are parameters.
Beside these functions stand lemmas, often named `...InFull`, that state what each call leaves behind without their
helper functions and with the numbers written out. Integers are unbounded in Dafny; that the engine's scores fit an
`int` is proved, and the wrap-around of a negative Content-Length into the unsigned field is modelled. `dafny verify
dfyconfig.toml` checks everything.

## Model

| member | source | states |
|---|---|---|
| AiGameEngine.AiGame.Minimax | HttpServer/WebAPP/Gomoku/src/AiGame.cpp:297-346 | alpha-beta on the shared board, candidates in sorted order, any depth and any window alpha < beta: the result is the unpruned minimax value when it lies inside the window, an upper bound on it at or below alpha, a lower bound at or above beta; the board is as before and the result fits an int |
| AiGameEngine.AiGame.SearchMoves | HttpServer/WebAPP/Gomoku/src/AiGame.cpp:329-345 | the move loop with its cut-off brackets the extremum over all moves, also over those it skips |
| AiGameEngine.AiGame.FullWindow | HttpServer/WebAPP/Gomoku/src/AiGame.cpp:167-172 | with the full window (INT_MIN, INT_MAX) the search returns exactly the minimax value |
| GomokuSearch.OrderDoesNotMatter | HttpServer/WebAPP/Gomoku/src/AiGame.cpp:316-327 | the value of a node is the same for every order in which its moves are tried, so inside the search the sort decides speed only |
| GomokuSearch.FoldIsExtremum | HttpServer/WebAPP/Gomoku/src/AiGame.cpp:303-345 | the reference value of a node is the extremum of its children, or the sentinel at a node without a move |
| GomokuSearch.LoopResult | HttpServer/WebAPP/Gomoku/src/AiGame.cpp:329-345 | whether the move loop ends by a cut-off or for lack of moves, its best score brackets the extremum of all moves in the node's window |
| GomokuBoard.Run | HttpServer/WebAPP/Gomoku/src/AiGame.cpp:44-60 | the count of stones in one direction is exact: all of them are the player's, and short of four the next cell is not |
| GomokuSearch.Leaf | HttpServer/WebAPP/Gomoku/src/AiGame.cpp:299-301 | the leaf score, the difference of the two evaluations, lies strictly between the int sentinels |
| GomokuEvaluation.LeafSign | HttpServer/WebAPP/Gomoku/src/AiGame.cpp:299-301 | AI stones alone make a leaf at least 40, human stones alone at most -40: positive is good for the AI |
| GomokuEvaluation.LeafIsADifference | HttpServer/WebAPP/Gomoku/src/AiGame.cpp:299-301 | a leaf is what the AI's stones are worth less what the human's stones are worth |
| GomokuEvaluation.ValueAtTheEnd | HttpServer/WebAPP/Gomoku/src/AiGame.cpp:299-301 | at depth zero, or when the search may not go on, the value is the leaf |
| GomokuEvaluation.AiTurnIsTheGreatest | HttpServer/WebAPP/Gomoku/src/AiGame.cpp:329-345 | on the AI's turn the value is the greatest value behind an AI stone on a candidate cell, and one of these |
| GomokuEvaluation.HumanTurnIsTheLeast | HttpServer/WebAPP/Gomoku/src/AiGame.cpp:329-345 | on the human's turn it is the least value behind a human stone on a candidate cell, and one of these |
| GomokuEvaluation.NoCandidateIsTheSentinel | HttpServer/WebAPP/Gomoku/src/AiGame.cpp:303 | without a candidate the value is -2147483648 on the AI's turn and 2147483647 on the human's |
| GomokuSearch.SortedMeans | HttpServer/WebAPP/Gomoku/src/AiGame.cpp:316-327 | the AI's cells come in the order of falling, the human's in the order of rising evaluation with the stone put |
| GomokuSearch.ValueFitsInt | HttpServer/WebAPP/Gomoku/src/AiGame.cpp:303 | every minimax value lies between the two int sentinels |
| GomokuSearch.Horizon | HttpServer/WebAPP/Gomoku/src/AiGame.cpp:299-345 | with at least as many free cells as plies the value is an ordinary score strictly between the sentinels; with fewer it is exactly the sentinel of the side left without a move |
| GomokuGame.SearchFailsExactlyWithTwoCellsLeft | HttpServer/WebAPP/Gomoku/src/AiGame.cpp:162-191 | in an open game every root score is INT_MIN, so that the fallback is needed, exactly when two cells are left or no stone is on the board |
| AiGameEngine.AiGame.GetBestMove | HttpServer/WebAPP/Gomoku/src/AiGame.cpp:109-194 | restores the board and returns a free cell: the first winning cell of the AI, else the first of the human, else a candidate of greatest exact minimax value, else any free cell |
| GomokuGame.WinningChoice | HttpServer/WebAPP/Gomoku/src/AiGame.cpp:109-136 | no winning cell of the same side lies in an earlier row, or in the same row and an earlier column, than the one chosen |
| GomokuGame.SearchedChoice | HttpServer/WebAPP/Gomoku/src/AiGame.cpp:162-178 | no candidate has a greater value, four plies further in the first ten moves and two later on, than the cell chosen, and of equal ones none a greater evaluation |
| AiGameEngine.AiGame.FindWinningCell | HttpServer/WebAPP/Gomoku/src/AiGame.cpp:111-136 | trying a stone on every free cell finds the first winning cell in row order, or shows that there is none; the board is as before |
| AiGameEngine.AiGame.BestByScore | HttpServer/WebAPP/Gomoku/src/AiGame.cpp:149-178 | of the sorted candidates keeps the first that maximises the exact minimax value, so that of equal ones none has a greater evaluation, if one exceeds INT_MIN, and (-1, -1) otherwise |
| AiGameEngine.AiGame.AnyFreeCell | HttpServer/WebAPP/Gomoku/src/AiGame.cpp:181-191 | the fallback picks one of the free cells, whatever the random number |
| GomokuGame.AiTakesItsWin | HttpServer/WebAPP/Gomoku/src/AiGame.cpp:111-122 | an AI with a winning cell ends the game as its winner with this move |
| GomokuGame.AiBlocksTheHuman | HttpServer/WebAPP/Gomoku/src/AiGame.cpp:124-136 | otherwise it occupies a winning cell of the human, and if that was the only one no single human reply wins |
| GomokuBoard.OpposingStoneAddsNoWin | HttpServer/WebAPP/Gomoku/src/AiGame.cpp:34-64 | an opposing stone never creates a winning cell |
| AiGameEngine.AiGame.HumanMove | HttpServer/WebAPP/Gomoku/src/AiGame.cpp:18-32 | accepts exactly the free cells of an open game; then the board gains a human stone on the cell asked for and nothing else; a rejected move changes nothing |
| AiGameEngine.AiGame.AiMove | HttpServer/WebAPP/Gomoku/src/AiGame.cpp:66-84 | on an open game places a stone on a cell the choice rules allow; otherwise changes nothing |
| AiGameEngine.AiGame.PutStone | HttpServer/WebAPP/Gomoku/src/AiGame.cpp:21-29 | stone, counter, last move and the check for a five through the stone |
| AiGameEngine.AiGame.CheckWin | HttpServer/WebAPP/Gomoku/src/AiGame.cpp:34-64 | counting outwards in four directions reports exactly whether some window of five stones contains the cell |
| GomokuBoard.LineCountIsFive | HttpServer/WebAPP/Gomoku/src/AiGame.cpp:42-61 | the two runs and the stone add up to five iff a window of five on that line contains the stone |
| GomokuEvaluation.FiveInCoordinates | HttpServer/WebAPP/Gomoku/src/AiGame.cpp:35-36 | a five is five stones in a column, a row or one of the two diagonals, cell by cell |
| GomokuBoard.OnlyLinesThroughTheLastStone | HttpServer/WebAPP/Gomoku/src/AiGame.cpp:25-29 | if there was no five before, there is one after a move iff it goes through the stone just put |
| GomokuGame.PlaceKeepsConsistent | HttpServer/WebAPP/Gomoku/src/AiGame.cpp:21-31 | a legal move keeps: counter = stones; open game has no five anywhere; finished game has a five of the winner and none of the opponent |
| GomokuGame.EveryRunIsConsistent | HttpServer/WebAPP/Gomoku/src/AiGame.cpp:18-84 | these facts hold over every run of human and AI moves in any order, and a finished game never changes again |
| AiGameEngine.AiGame.constructor | HttpServer/WebAPP/Gomoku/src/AiGame.cpp:9-16 | a new game is empty, open and consistent |
| AiGameEngine.AiGame.IsNearOccupied | HttpServer/WebAPP/Gomoku/src/AiGame.cpp:196-210 | true iff one of the up to eight neighbours on the board holds a stone |
| GomokuEvaluation.NearIsEightCells | HttpServer/WebAPP/Gomoku/src/AiGame.cpp:196-210 | the neighbours of a cell are the eight cells around it |
| AiGameEngine.AiGame.CollectCandidates | HttpServer/WebAPP/Gomoku/src/AiGame.cpp:307-314 | collects exactly the free cells next to a stone, in row order |
| GomokuSearch.CandidatesInRowOrder | HttpServer/WebAPP/Gomoku/src/AiGame.cpp:307-314 | the candidates are listed row by row, and by column within a row |
| GomokuBoard.SomeCandidate | HttpServer/WebAPP/Gomoku/src/AiGame.cpp:139-146 | every board with a stone and a free cell has a free cell next to a stone |
| AiGameEngine.AiGame.SortCandidates | HttpServer/WebAPP/Gomoku/src/AiGame.cpp:316-327 | sorting through a comparator that writes to the board gives the same cells ordered by the evaluation with a stone on each, best first for the maximizing side and worst first for the other, and leaves the board as before |
| AiGameEngine.AiGame.ComesFirst | HttpServer/WebAPP/Gomoku/src/AiGame.cpp:149-160 | the comparator orders two candidates by the evaluation with the stone on each, and restores both cells |
| AiGameEngine.AiGame.EvaluateBoard | HttpServer/WebAPP/Gomoku/src/AiGame.cpp:237-295 | the score is the sum of the pattern scores of all lines through all stones and lies in [0, 900000000], so that the leaf difference fits an int |
| GomokuEvaluation.EvaluationIsASum | HttpServer/WebAPP/Gomoku/src/AiGame.cpp:237-295 | the evaluation is the sum, over the set of the player's stones, of the pattern scores of the four lines through each |
| GomokuEvaluation.PatternOfARun | HttpServer/WebAPP/Gomoku/src/AiGame.cpp:247-287 | a run of up to four stones is named by its length, and is live iff the cells at both ends are free cells of the board |
| GomokuEvaluation.ScoreTable | HttpServer/WebAPP/Gomoku/src/AiGame.cpp:225-234 | the scores of the patterns, each above the next shorter or blocked one |
| AiGameEngine.AiGame.PatternAt | HttpServer/WebAPP/Gomoku/src/AiGame.cpp:247-287 | the type found by the two scans is the line's pattern |
| GomokuBoard.PatternOf | HttpServer/WebAPP/Gomoku/src/AiGame.cpp:273-287 | the type is never BLOCKED_ONE, the one type missing from the score table, and is FIVE iff five or more stones are counted |
| GomokuBoard.FivePatternIsAWin | HttpServer/WebAPP/Gomoku/src/AiGame.cpp:273-275 | the evaluator finds a FIVE at a stone iff the win check does |
| AiGameEngine.AiGame.Turn | HttpServer/WebAPP/Gomoku/src/handlers/AiMoveHandler.cpp:38-170 | one request is one turn of the run below: the human's stone on the cell asked for, then one AI stone unless the human's move ended the game; which outcome means what; the count of stones is even whenever the game goes on |
| GomokuGame.EvenAtEveryTurn | HttpServer/WebAPP/Gomoku/src/handlers/AiMoveHandler.cpp:38-159 | over every run of human-then-AI turns from a new game the count is even whenever a turn starts on an open game, and a full board has the human's stone as its last |
| AiGameEngine.AiGame.Answer | HttpServer/WebAPP/Gomoku/src/handlers/AiMoveHandler.cpp:106-159 | after the AI's move the board is never full: the draw branch behind it is dead |
| AiGameEngine.AiGame.IsValidMove | HttpServer/WebAPP/Gomoku/include/AiGame.h:71-77 | a move is valid iff it is on a free cell of an open, undrawn game |
| TimerIndex.InsertKeepsValid | co-pro/corotinue-fiber-pool/timer.cpp:193 | insertion keeps the keys distinct and ascending, and is lost exactly when the deadline is already a key |
| TimerIndex.MoveKeepsValid | co-pro/corotinue-fiber-pool/timer.cpp:36-44 | erase, change, insert: the keys afterwards are the old ones without the old deadline and with the new one; of the other timers exactly those of the old deadline leave the set |
| TimerIndex.CancelHitsAnotherTimer | co-pro/corotinue-fiber-pool/timer.cpp:18-22 | a cancel takes another timer's entry out exactly when the cancelled timer has no entry and its deadline is a key all the same |
| TimerIndex.RearmHitsAnotherTimer | co-pro/corotinue-fiber-pool/timer.cpp:36-68 | so does a refresh, and a reset past its early exit: exactly when the timer has a callback, no entry, and a deadline that is a key all the same |
| TimerIndex.AddKeepsValid | co-pro/corotinue-fiber-pool/timer.cpp:188-194 | a new timer is in the set unless its deadline was a key, and changes nothing else |
| TimerIndex.CancelKeepsValid | co-pro/corotinue-fiber-pool/timer.cpp:5-24 | a cancel succeeds iff there is a callback; it clears the callback and takes out the entry of that deadline |
| TimerIndex.RearmKeepsValid | co-pro/corotinue-fiber-pool/timer.cpp:36-68 | a re-arming call succeeds iff there is a callback and the deadline is a key; period, deadline, keys and members afterwards |
| TimerIndex.AtFrontExactly | co-pro/corotinue-fiber-pool/timer.cpp:193-194 | an insertion ends at the front iff no deadline in the set is earlier |
| TimerIndex.DeadlinesInNanoseconds | co-pro/corotinue-fiber-pool/timer.cpp:42-73 | the new deadline of a refresh, of a reset from now on and of a reset on the old start; the early exit exactly for an unchanged period kept on its old start |
| TimerIndex.NextTimerIsExact | co-pro/corotinue-fiber-pool/timer.cpp:136-148 | the milliseconds reported fall short of the first deadline by less than one, and are zero once it has passed |
| TimerIndex.NothingArmed | co-pro/corotinue-fiber-pool/timer.cpp:130-134 | the greatest 64-bit value when nothing is armed |
| TimerExpiry.LoopEndsExactlyWhenNotStuck | co-pro/corotinue-fiber-pool/timer.cpp:160-178 | without rollover the draining loop ends iff no zero-period recurring timer is due, or an entry of another kind with deadline exactly now absorbs its reinsertion |
| TimerExpiry.StepShrinks | co-pro/corotinue-fiber-pool/timer.cpp:160-178 | each turn of a loop that is not stuck takes away exactly one due entry and leaves the other due ones in order |
| TimerExpiry.DrainTakesTheDueOnes | co-pro/corotinue-fiber-pool/timer.cpp:160-165 | exactly the entries due on entry are taken, each once and in deadline order, and nothing is due afterwards |
| TimerExpiry.DrainFiresTimers | co-pro/corotinue-fiber-pool/timer.cpp:167-177 | a taken timer is fired, every other timer is unchanged |
| TimerExpiry.DrainInFull | co-pro/corotinue-fiber-pool/timer.cpp:167-177 | for every timer: kind and period never change; the callback is lost exactly by a due one-shot timer, and kept by a recurring one; the deadline changes exactly for a due recurring one, to now + period |
| TimerRollover.FireAllInFull | co-pro/corotinue-fiber-pool/timer.cpp:160-178 | the same after a rollover, where every armed timer fires and the set is left empty |
| TimerExpiry.DrainLeavesTheLaterKeys | co-pro/corotinue-fiber-pool/timer.cpp:160-178 | the keys left are the later ones plus now + period for each taken recurring timer of positive period |
| TimerExpiry.DrainLeavesArmed | co-pro/corotinue-fiber-pool/timer.cpp:160-178 | the timers left in the set: the later ones, and a due one exactly if it is recurring with positive period, no entry has its new deadline, and no timer fired before it in the same call has its period |
| TimerRollover.RolloverLoopEndsExactly | co-pro/corotinue-fiber-pool/timer.cpp:160-178 | after a rollover the loop ends iff every recurring timer in the set finds its new deadline taken by a later entry |
| TimerRuns.ApplyKeepsInv | co-pro/corotinue-fiber-pool/timer.cpp:5-90 | every call keeps the index valid, m_next - m_ms <= now for every timer, and a one-shot timer unfired until it has lost its callback and left the set |
| TimerRuns.CancelledIsSpent | co-pro/corotinue-fiber-pool/timer.cpp:9-23 | a successful cancel leaves its timer without a callback and out of the set |
| TimerRuns.CancelledNeverFires | co-pro/corotinue-fiber-pool/timer.cpp:9-16 | over every serial run a timer in that state stays in it and is never handed out again |
| TimerRuns.FiredExactlyWhenDue | co-pro/corotinue-fiber-pool/timer.cpp:160-165 | in every run an expiry fires exactly the timers that are armed and due, each once, and no other call fires any |
| TimerRuns.OneShotFiresAtMostOnce | co-pro/corotinue-fiber-pool/timer.cpp:173-177 | over every serial run a one-shot timer fires at most once, and not while it is armed |
| TimerRuns.RefreshNeverMovesEarlier | co-pro/corotinue-fiber-pool/timer.cpp:27-46 | under a monotone clock refresh moves no deadline earlier, even where it takes another timer's entry out |
| TimerRuns.CancelOfALostTimer | co-pro/corotinue-fiber-pool/timer.cpp:5-24 | for any two timers of one deadline, a run in which cancelling the second disarms the first, whose callback is still set |
| TimerRuns.ZeroPeriodRunGetsStuck | co-pro/corotinue-fiber-pool/timer.cpp:160-178 | a run, one recurring timer of period zero, after which the draining loop does not end |
| TimerManagement.TimerManager.InsertEntry | co-pro/corotinue-fiber-pool/timer.cpp:188-196 | puts the timer object at its place in the ordered set or loses it, and tells whether the set's insertion ended at the front |
| TimerManagement.TimerManager.InsertTimer | co-pro/corotinue-fiber-pool/timer.cpp:188-208 | sets m_tickled and asks for a wake-up exactly when the insertion ended at the front and the flag was clear |
| TimerManagement.TimerManager.AddTimer | co-pro/corotinue-fiber-pool/timer.cpp:101-106 | a new timer with deadline now + ms is added to the index, with a callback or an empty one |
| TimerManagement.TimerManager.Cancel | co-pro/corotinue-fiber-pool/timer.cpp:5-24 | result and new state are those of the specification: callback cleared, the entry with this deadline erased |
| TimerManagement.TimerManager.Refresh | co-pro/corotinue-fiber-pool/timer.cpp:27-46 | result and new state are those of the specification, with the deadline changed in place while the set does not hold the timer |
| TimerManagement.TimerManager.Reset | co-pro/corotinue-fiber-pool/timer.cpp:48-77 | nothing for an unchanged period kept on its old start; otherwise the specification's result, and a wake-up asked for exactly when the insertion, behind the entry taken out, ended at the front and the flag was clear |
| TimerManagement.TimerManager.GetNextTimer | co-pro/corotinue-fiber-pool/timer.cpp:123-149 | clears the flag and returns the milliseconds to the first deadline, rounded down |
| TimerManagement.TimerManager.ListExpired | co-pro/corotinue-fiber-pool/timer.cpp:151-179 | the in-place loop returns the callbacks of exactly the due timers in order and leaves the drained index; after a rollover those of all timers, and an empty set |
| TimerManagement.RolloverIsAnHour | co-pro/corotinue-fiber-pool/timer.cpp:210-219 | a clock that has fallen by more than an hour counts as rolled over |
| TimerWakeUp.WaitIsInTime | co-pro/corotinue-fiber-pool/ioscheduler.cpp:375-381 | the wait the worker computes never reaches past the first deadline |
| TimerWakeUp.WaitIsExact | co-pro/corotinue-fiber-pool/ioscheduler.cpp:375-381 | the wait is the time to the first deadline, short by less than a millisecond, zero once it has passed, and five seconds at most |
| TimerWakeUp.AdditionInFull | co-pro/corotinue-fiber-pool/timer.cpp:188-208 | an addition at the front by a thread sets the flag and leaves it a wake-up iff the flag was clear; one behind the front does neither |
| TimerWakeUp.WorkerInFull | co-pro/corotinue-fiber-pool/ioscheduler.cpp:349-416 | what the worker's own steps and the stop check do to flag, pipe and sleep |
| TimerWakeUp.WakerDelivers | co-pro/corotinue-fiber-pool/ioscheduler.cpp:338-347 | a thread that has set the flag while the worker sleeps writes its byte in two steps of its own |
| TimerWakeUp.HappenKeepsWakeInv | co-pro/corotinue-fiber-pool/ioscheduler.cpp:338-416 | every step of every thread keeps the wake-up invariant, a stopping() in another thread that clears the flag while the worker sleeps included |
| TimerWakeUp.NeverMissesAWakeUp | co-pro/corotinue-fiber-pool/timer.cpp:123-208 | at every moment of every interleaving: the worker that has computed its wait wakes by every deadline in the set (at once if one had passed), or a byte is in the pipe, or some thread is between setting m_tickled and writing that byte |
| TimerWakeUp.SleeperIsWoken | co-pro/corotinue-fiber-pool/timer.cpp:188-208 | an interleaving in which a sleep of five seconds would miss a timer of one millisecond but for the thread that added it |
| HttpParsing.SplitIndependence | HttpServer/HTTP/src/http/HttpContext.cpp:8-114 | fed in any sequence of chunks, a byte stream gives the same status, parser state, request and unread suffix as fed at once |
| HttpParsing.MoreBytes | HttpServer/HTTP/src/http/HttpContext.cpp:12-113 | a call followed by more bytes is the same as one call on all the bytes |
| HttpParsing.LeavesASuffix | HttpServer/HTTP/src/http/HttpContext.cpp:23-110 | every call leaves a suffix of its buffer |
| HttpParsing.UsesAllItCan | HttpServer/HTTP/src/http/HttpContext.cpp:12-113 | an unfinished call has nothing left that another call without new bytes could use |
| HttpParsing.FailureIsNotComplete | HttpServer/HTTP/src/http/HttpContext.cpp:23-110 | a call that fails or that an exception leaves does not end in kGotAll |
| HttpParsing.FindCrlf | HttpServer/HTTP/src/http/HttpContext.cpp:16 | the first CR LF of the readable bytes, or none |
| HttpRoundTrip.RoundTrip | HttpServer/HTTP/src/http/HttpContext.cpp:36-111 | every printable message, followed by any bytes, is parsed back to its request, leaving exactly those bytes |
| HttpRoundTrip.RequestLineIsRead | HttpServer/HTTP/src/http/HttpContext.cpp:237-286 | a printed request line is read back as its method, target and version |
| HttpRoundTrip.HeaderIsRead | HttpServer/HTTP/src/http/HttpRequest.cpp:116-131 | a printed field line is stored under its name with its trimmed value |
| HttpRoundTrip.LengthIsRead | HttpServer/HTTP/src/http/HttpContext.cpp:53-56 | a decimal Content-Length within int range is read back as its number |
| HttpRoundTrip.TargetRoundTrip | HttpServer/HTTP/src/http/HttpRequest.cpp:72-113 | a target printed from a path and parameters is read back as that path, and the parameters join those that are there |
| HttpRoundTrip.PartsRoundTrip | HttpServer/HTTP/src/http/HttpContext.cpp:36-111 | a message given by method, path, parameters, version, header fields and body is parsed back to exactly these parts |
| HttpRoundTrip.DistinctFieldsAreKept | HttpServer/HTTP/src/http/HttpRequest.cpp:116-131 | the map of header fields or parameters with distinct names has each name with its value and no other |
| HttpRejection.FinishedCallConsumedAMessage | HttpServer/HTTP/src/http/HttpContext.cpp:23-110 | the converse of the round trip: whatever a finished call consumed was a request line of the request's method, target and version, field lines that make up its header fields, a blank line, and its body |
| HttpRejection.RequestLineExactly | HttpServer/HTTP/src/http/HttpContext.cpp:237-286 | a request line is accepted iff it is one of the five methods, a target without a space and one of the two versions, with single spaces |
| HttpRejection.OtherRequestLinesAreBad | HttpServer/HTTP/src/http/HttpContext.cpp:23-33 | any other line fails the parse with nothing consumed |
| HttpRejection.OtherMethodsAndVersions | HttpServer/HTTP/src/http/HttpRequest.cpp:10-39 | so any other method, PATCH for one, and any other version |
| HttpRejection.RejectedLineInFull | HttpServer/HTTP/src/http/HttpContext.cpp:237-286 | what was stored before each kind of fault stays stored |
| HttpRejection.LinesWithoutAColonAreBad | HttpServer/HTTP/src/http/HttpContext.cpp:81-88 | a non-empty field line without a colon fails the parse, and is consumed |
| HttpRejection.BlankLineWithoutLength | HttpServer/HTTP/src/http/HttpContext.cpp:46-80 | a POST or PUT without a length fails the parse; another method ends at the blank line |
| HttpRejection.BlankLineWithLength | HttpServer/HTTP/src/http/HttpContext.cpp:46-110 | with a length: no number, or one beyond an int, throws and leaves the blank line unread; zero ends the request; a positive one takes exactly that many bytes; a negative one wraps around and waits for almost 2^64 |
| HttpRejection.NumberIsRead | HttpServer/HTTP/src/http/HttpContext.cpp:53-56 | a number is read behind white space and a sign up to the first other character, and throws outside the range of an int |
| HttpRejection.NoNumber | HttpServer/HTTP/src/http/HttpContext.cpp:53-56 | without a digit there it throws as well |
| HttpRejection.TrimExactly | HttpServer/HTTP/src/http/HttpRequest.cpp:116-131 | the stored value is the text between white space on both sides |
| HttpRejection.WhiteSpace | HttpServer/HTTP/src/http/HttpRequest.cpp:116-131 | white space is space, tab, line feed, vertical tab, form feed and carriage return |
| HttpRejection.FieldOfALine | HttpServer/HTTP/src/http/HttpRequest.cpp:116-131 | the first colon parts name and value |
| HttpRejection.TargetWithoutParameters | HttpServer/HTTP/src/http/HttpContext.cpp:250-265 | a target without parameters, with or without its question mark, sets the path only |
| HttpRejection.PiecesWithoutAValue | HttpServer/HTTP/src/http/HttpRequest.cpp:72-113 | a piece of the parameters without an equals sign is skipped |
| HttpConnection.Conservation | HttpServer/HTTP/src/http/HttpServer.cpp:101-113 | the requests of the stream are, in order, those handed over and those that the unread bytes still hold, also when more bytes follow |
| HttpConnection.HandedIsAPrefix | HttpServer/HTTP/src/http/HttpServer.cpp:101-113 | while no parse fails the requests handed over are a prefix of the requests of the concatenated stream, in all fields but a length and a body that are not the request's own |
| HttpConnection.Received | HttpServer/HTTP/src/http/HttpServer.cpp:101-121 | the parser is never entered in kGotAll, also on bytes that arrive after a failed parse or an exception |
| HttpConnection.OneRequestAMessage | HttpServer/HTTP/src/http/HttpServer.cpp:101-113 | a message hands over the first of the requests complete by then and the others wait, in order, for the next message |
| HttpConnection.LaterRequestsWait | HttpServer/HTTP/src/http/HttpServer.cpp:101-113 | while no parse fails, requests of the stream = requests handed over + requests waiting in the buffer, and no more are handed over than messages came |
| HttpConnection.ParseAgrees | HttpServer/HTTP/src/http/HttpRequest.cpp:144-153 | the fields that the reset leaves behind change nothing else in the next request |
| HttpConnection.StaleBody | HttpServer/HTTP/src/http/HttpRequest.cpp:144-153 | the body handed over is the request's own iff the request has a positive Content-Length (POST, PUT) or nothing was left behind |
| HttpConnection.LaterRequestGetsTheBody | HttpServer/HTTP/src/http/HttpRequest.cpp:144-153 | for every printable message and every later one without a body of its own: the second request is handed over with the first one's body and length |
| HttpConnection.GetWithABody | HttpServer/HTTP/src/http/HttpRequest.cpp:144-153 | for instance a GET behind a POST of the body "x" |
| HttpContexts.HttpContext.ParseRequest | HttpServer/HTTP/src/http/HttpContext.cpp:8-114 | the loop over buffer and request object ends, and its result is that of the specification; the receive time is set exactly when the call accepts a request line |
| HttpContexts.HttpContext.ParseTurn | HttpServer/HTTP/src/http/HttpContext.cpp:12-112 | one turn of the loop |
| HttpContexts.HttpContext.FinishHeaders | HttpServer/HTTP/src/http/HttpContext.cpp:46-80 | the blank line: body expected, message complete, missing length, or an exception from std::stoi |
| HttpContexts.HttpContext.ProcessRequestLine | HttpServer/HTTP/src/http/HttpContext.cpp:237-286 | stores method, path, parameters and version; what precedes a fault stays stored |
| HttpContexts.HttpContext.Reset | HttpServer/HTTP/include/http/HttpContext.h:24-30 | a fresh state and request but for the stale body and its length |
| HttpContexts.HttpRequest.SetQueryPathParameters | HttpServer/HTTP/src/http/HttpRequest.cpp:72-113 | the loop over & stores every pair with an =, later ones overriding |
| HttpContexts.HttpRequest.StoreHeader | HttpServer/HTTP/src/http/HttpRequest.cpp:116-131 | name before the first colon, value trimmed on both sides |
| HttpContexts.HttpRequest.Swap | HttpServer/HTTP/src/http/HttpRequest.cpp:144-153 | exchanges every field except the body and its length |
| EventRegistry.RunKeepsInv | co-pro/corotinue-fiber-pool/ioscheduler.cpp:120-469 | after every call of every serial run, failed control calls included: interest mask = event bits, context armed iff its bit is set, pending counter = set bits, and every registration is armed, dropped or handed over |
| EventRegistry.Accounts | co-pro/corotinue-fiber-pool/ioscheduler.cpp:120-469 | successful additions = pending + dropped + handed over, and each registration is handed over at most once |
| EventRegistry.ControlCallsAreLegal | co-pro/corotinue-fiber-pool/ioscheduler.cpp:147-153 | each ADD, MOD or DEL chosen is one the kernel accepts: ADD iff the descriptor is absent from the interest set, DEL iff nothing of it is left |
| EventRegistry.UnarmedExactly | co-pro/corotinue-fiber-pool/ioscheduler.cpp:421-468 | in a registry that agrees, a report that is acted on reaches a context without a scheduler exactly when it mixes registered and unregistered events |
| EventRegistry.ReportOvertaken | co-pro/corotinue-fiber-pool/ioscheduler.cpp:421-446 | a run after which a report that was right when epoll_wait made it is such a mix, the writing event having been deleted meanwhile |
| EventRegistry.PerformKeepsInv | co-pro/corotinue-fiber-pool/ioscheduler.cpp:120-469 | each call keeps agreement and conservation |
| EventRegistry.ResizeKeepsInv | co-pro/corotinue-fiber-pool/ioscheduler.cpp:106-118 | growing the table to one and a half times the descriptor makes the descriptor fit and changes no account |
| EventRegistry.AddInFull | co-pro/corotinue-fiber-pool/ioscheduler.cpp:120-179 | an addition gives -1 and leaves everything but the size of the table iff the event is registered or the control call fails; else 0, with event, task, interest and counter |
| EventRegistry.RemovalsInFull | co-pro/corotinue-fiber-pool/ioscheduler.cpp:181-336 | delEvent drops the task, cancelEvent hands it over, cancelAll hands over all; each answers false iff there is nothing to take away, and a failing control call changes nothing; other descriptors are untouched |
| EventRegistry.ReadyInFull | co-pro/corotinue-fiber-pool/ioscheduler.cpp:424-468 | with an error or a hang-up a report takes all registered events away and hands their tasks over, reading first; without, exactly the reported ones |
| EventRegistry.TableInFull | co-pro/corotinue-fiber-pool/ioscheduler.cpp:106-118 | 32 empty contexts at first; cut off at a smaller size, filled up with empty contexts at a larger one |
| IoManagement.IoManager.AddEvent | co-pro/corotinue-fiber-pool/ioscheduler.cpp:120-179 | -1 and no registration if the event is registered or the control call fails; otherwise bit, context, interest set and counter gain it; the table grows if the descriptor does not fit |
| IoManagement.IoManager.DelEvent | co-pro/corotinue-fiber-pool/ioscheduler.cpp:181-237 | the event leaves the interest set, the bits and the context, its task is dropped; nothing changes if it was not registered or the control call fails |
| IoManagement.IoManager.CancelEvent | co-pro/corotinue-fiber-pool/ioscheduler.cpp:239-282 | the same with the task scheduled |
| IoManagement.IoManager.CancelAll | co-pro/corotinue-fiber-pool/ioscheduler.cpp:284-336 | all events leave, their tasks are scheduled, reading first |
| IoManagement.IoManager.HandleReady | co-pro/corotinue-fiber-pool/ioscheduler.cpp:421-468 | for one report of epoll_wait the events that happened leave and their tasks are scheduled; an error or hang-up stands for every registered event; it faults exactly on a report that mixes registered and unregistered events and passes the control call |
| IoManagement.IoManager.TriggerAll | co-pro/corotinue-fiber-pool/ioscheduler.cpp:459-468 | schedules the tasks of the events given, reading first, and clears their contexts and bits; faults exactly when one of the contexts has no scheduler |
| IoManagement.FdContext.TriggerEvent | co-pro/corotinue-fiber-pool/ioscheduler.cpp:38-60 | clears the bit and the context and gives up the task |
| IoManagement.IoManager.ContextResize | co-pro/corotinue-fiber-pool/ioscheduler.cpp:106-118 | cuts the table off at a smaller size, and otherwise keeps the contexts and appends empty ones |
| ConnectionPool.RunKeepsInvariants | HttpServer/HTTP/src/utils/db/DbConnectionPool.cpp:63-109 | for any number of threads and every interleaving: queued, checked and borrowed connections are disjoint and together the created ones; while someone sleeps unnotified the queue is no longer than the notified threads that have still to look |
| ConnectionPool.StepLosesNoWakeUp | HttpServer/HTTP/src/utils/db/DbConnectionPool.cpp:69-97 | each step keeps the wake-up bound, spurious wake-ups and barging threads included |
| ConnectionPool.StepKeepsPartition | HttpServer/HTTP/src/utils/db/DbConnectionPool.cpp:79-108 | each step keeps the partition, the path where ping or reconnect throws included |
| ConnectionPool.NobodySleepsBesideAFullPool | HttpServer/HTTP/src/utils/db/DbConnectionPool.cpp:69-97 | when every connection is back and no notified thread has still to look, nobody sleeps |
| ConnectionPool.PoolSizeIsFixed | HttpServer/HTTP/src/utils/db/DbConnectionPool.cpp:18-22 | once initialised, the set of connections never changes |
| ConnectionPool.DbConnectionPool.Init | HttpServer/HTTP/src/utils/db/DbConnectionPool.cpp:10-38 | is the step Init: it works once; if creating a connection throws, the earlier ones stay queued and the pool uninitialised |
| ConnectionPool.DbConnectionPool.TryTake | HttpServer/HTTP/src/utils/db/DbConnectionPool.cpp:69-80 | one pass of the wait loop is the step Enter or Recheck: takes the front, must wait, or throws |
| ConnectionPool.DbConnectionPool.PutBack | HttpServer/HTTP/src/utils/db/DbConnectionPool.cpp:92-108 | the deleter and the exception path are the steps that queue the connection and notify one thread |
| ConnectionPool.LookInFull | HttpServer/HTTP/src/utils/db/DbConnectionPool.cpp:69-80 | a look at the queue: its first connection goes to the thread; on an empty queue the thread sleeps if the pool is initialised and otherwise throws with nothing taken |
| ConnectionPool.ReturnInFull | HttpServer/HTTP/src/utils/db/DbConnectionPool.cpp:92-108 | a connection that comes back, or whose check failed, joins the end of the queue, and exactly one sleeper is notified if there is one |
| ConnectionPool.InitInFull | HttpServer/HTTP/src/utils/db/DbConnectionPool.cpp:10-38 | works on a pool that is not initialised, which it is afterwards unless creating a connection threw |
| ConnectionPool.SpuriousInFull | HttpServer/HTTP/src/utils/db/DbConnectionPool.cpp:77 | a spurious wake-up makes a sleeper look again and changes nothing else |
| ConnectionPool.SleeperGetsTheConnection | HttpServer/HTTP/src/utils/db/DbConnectionPool.cpp:63-97 | a run in which a second thread sleeps while the only connection is lent, and gets it when it comes back |
| TaskScheduling.StoppingIsForEver | co-pro/corotinue-fiber-pool/scheduler.cpp:250-254 | once stopping() is observed true and only running tasks submit tasks, the queue stays empty and nothing is active for ever |
| TaskScheduling.StoppingMeansAllDone | co-pro/corotinue-fiber-pool/scheduler.cpp:250-254 | when stopping() is observed true every accepted task has been taken by a thread its pin allows and has finished |
| TaskScheduling.StoppingExactly | co-pro/corotinue-fiber-pool/scheduler.cpp:250-254 | in every run stopping() is true iff the stop has been requested, every accepted task has finished and no worker has still to count down |
| TaskScheduling.TakenOnce | co-pro/corotinue-fiber-pool/scheduler.cpp:107-118 | in no run do two steps take the same task out of the queue, in the same thread or in two |
| TaskScheduling.FirstInFirstOut | co-pro/corotinue-fiber-pool/scheduler.cpp:100-118 | in no run is a task overtaken: when a thread takes a task, none that it may run and that was queued in front is still waiting |
| TaskScheduling.SubmittedLast | co-pro/corotinue-fiber-pool/scheduler.h:36-55 | a submitted task goes to the end of the queue |
| TaskScheduling.WorkInFull | co-pro/corotinue-fiber-pool/scheduler.cpp:124-163 | what finishing a task and counting down leave behind |
| TaskScheduling.RunToTheEnd | co-pro/corotinue-fiber-pool/scheduler.cpp:95-254 | a run in which a pinned task is passed over by another thread, taken by its own, finished, and stopping() then observed |
| TaskScheduling.RunKeepsInv | co-pro/corotinue-fiber-pool/scheduler.cpp:95-178 | over every interleaving of workers: queued, running and finished tasks account for all accepted ones, and the active count is the number of workers between taking a task and counting down |
| TaskScheduling.Scheduler.SelectTask | co-pro/corotinue-fiber-pool/scheduler.cpp:100-122 | is the step TakeTask: the first task the thread may run, in queue order; wakes another worker exactly when tasks are left behind |
| TaskScheduling.Scheduler.CountDownActive | co-pro/corotinue-fiber-pool/scheduler.cpp:145-163 | is the step CountDown: the worker counts itself down after its task |
| TaskScheduling.Scheduler.ScheduleLock | co-pro/corotinue-fiber-pool/scheduler.h:36-55 | is the step Submit: appends a task that is not empty, and asks for a wake-up exactly when the queue was empty |

## Left out

- SortCandidates: `std::sort` is an insertion sort here, so cells of equal score keep their order; the value of the
  search does not depend on it.
- ListExpired: requires the exact condition under which its loop ends, since Dafny accepts no call that does not
  return.
- HandleReady: what follows a fault is not described; the call through the null scheduler does not return, and with
  assertions compiled in the process stops just before it.
- CancelEvent: the assertion in `triggerEvent` that the bit is still set is absent, as `cancelEvent` clears the bit
  first.
- AddTimer: the overflow of a deadline beyond 64 bits of nanoseconds is not modelled.
- Reset: each timer call is one step; `Timer::reset` drops its lock between erasing and reinserting.
- AddEvent: each registry call is one step; the table is not resized by two threads at once.
- ParseRequest: the path parameters of a request are not modelled, since the parser never sets them; the receive time
  is kept beside the request.
- ProcessRequestLine: the assertion in `setMethod` that no method is stored yet is absent; a line fed again after it
  failed behind its method would meet it.
- StoppingIsForEver: is about the base class; the I/O manager's own test reads timers, events and tasks at different
  moments.
- NeverMissesAWakeUp: one worker, and timers only; wake-ups for scheduled tasks are not covered.
- RunKeepsInvariants: the thread that pings idle connections is not modelled; it takes none out of the queue.
- The condition under which a conditional timer's callback runs.
- Fibers, context switches, the fiber pool and the hooked system calls: a task is an opaque callback that runs to its
  end.
- Sending responses, routing, middleware, sessions, TLS, the database statements and the HTML and JSON handlers.
- The older copy of the engine beside the server's build file, which is not built.
- The engine's `evaluateThreat`, which nothing calls, and concurrent access to one game object.
