/** The game as a value: what one move does, what every run of moves keeps, and what the AI's choice achieves. */
module GomokuGame {
  import opened CIntegers
  import opened GomokuBoard
  import opened GomokuSearch

  datatype Winner = NoOne | HumanWon | AiWon

  datatype Game = Game(grid: Grid, moveCount: int, gameOver: bool, winner: Winner, lastMove: Pos)

  function NewGame(): Game { Game(EmptyGrid(), 0, false, NoOne, Pos(-1, -1)) }

  predicate Draw(s: Game) { s.moveCount >= BOARD_SIZE * BOARD_SIZE }

  predicate Open(s: Game) { !s.gameOver && !Draw(s) }

  predicate Legal(s: Game, p: Pos) { IsFree(s.grid, p) && Open(s) }

  function WinnerOf(player: Cell): Winner { if player == HumanStone then HumanWon else AiWon }

  /** Putting a stone and looking for a five through it only. */
  ghost function Place(s: Game, p: Pos, player: Cell): Game
    requires p in s.grid
  {
    var g := Play(s.grid, p, player);
    var won := FiveThrough(g, player, p);
    Game(g, s.moveCount + 1, s.gameOver || won, if won then WinnerOf(player) else s.winner, p)
  }

  ghost predicate Consistent(s: Game) {
    && s.moveCount == |Stones(s.grid)|
    && (!s.gameOver ==> s.winner == NoOne && !HasFive(s.grid, HumanStone) && !HasFive(s.grid, AiStone))
    && (s.gameOver ==>
         || (s.winner == HumanWon && HasFive(s.grid, HumanStone) && !HasFive(s.grid, AiStone))
         || (s.winner == AiWon && HasFive(s.grid, AiStone) && !HasFive(s.grid, HumanStone)))
  }

  lemma PlaceKeepsConsistent(s: Game, p: Pos, player: Cell)
    requires Consistent(s) && Legal(s, p) && player != Empty
    ensures Consistent(Place(s, p, player))
  {
    PlacingMovesOneCell(s.grid, p, player);
    OnlyLinesThroughTheLastStone(s.grid, p, player, player);
    OnlyLinesThroughTheLastStone(s.grid, p, player, Opponent(player));
  }

  /** What a move leaves behind, as far as the turn protocol looks. */
  lemma AfterPlace(s: Game, p: Pos, player: Cell)
    requires Consistent(s) && p in s.grid && Open(s)
    ensures Place(s, p, player).moveCount == s.moveCount + 1
    ensures Place(s, p, player).gameOver ==> Place(s, p, player).winner == WinnerOf(player)
  {
  }

  lemma FreeCellsOfAnOpenGame(s: Game)
    requires Consistent(s)
    ensures |FreeCells(s.grid)| == BOARD_SIZE * BOARD_SIZE - s.moveCount
    ensures !Draw(s) <==> FreeCells(s.grid) != {}
  {
    StonesAndFreeCellsFillTheBoard(s.grid);
  }

  // ----- the AI's choice -----

  function SearchDepth(s: Game): nat { if s.moveCount < 10 then 5 else 3 }

  ghost function RootScore(s: Game, p: Pos): int
    requires p in s.grid
  {
    Value(Play(s.grid, p, AiStone), SearchDepth(s) - 1, false, false)
  }

  predicate Before(p: Pos, q: Pos) { p.r < q.r || (p.r == q.r && p.c < q.c) }

  ghost predicate FirstWinningCell(g: Grid, player: Cell, p: Pos) {
    WinningCell(g, player, p) && forall q :: WinningCell(g, player, q) ==> !Before(q, p)
  }

  ghost predicate CanWin(g: Grid, player: Cell) { exists q :: WinningCell(g, player, q) }

  ghost predicate SearchFindsAMove(s: Game) {
    exists q :: IsCandidate(s.grid, q) && RootScore(s, q) > INT_MIN
  }

  /** A candidate of greatest minimax value, and among these of greatest evaluation. */
  ghost predicate BestCandidate(s: Game, p: Pos) {
    && IsCandidate(s.grid, p)
    && forall q :: IsCandidate(s.grid, q) ==>
         && RootScore(s, q) <= RootScore(s, p)
         && (RootScore(s, q) == RootScore(s, p) ==> StoneScore(s.grid, AiStone, q) <= StoneScore(s.grid, AiStone, p))
  }

  /** The cells the AI may choose: its first winning cell, else the human's first winning cell, else a candidate
      of greatest minimax value, else - when every value is the sentinel - any free cell. */
  ghost predicate AiChoice(s: Game, p: Pos) {
    && IsFree(s.grid, p)
    && if CanWin(s.grid, AiStone) then FirstWinningCell(s.grid, AiStone, p)
       else if CanWin(s.grid, HumanStone) then FirstWinningCell(s.grid, HumanStone, p)
       else SearchFindsAMove(s) ==> BestCandidate(s, p)
  }

  // ----- runs -----

  ghost predicate HumanStep(s: Game, t: Game) {
    exists p :: Legal(s, p) && t == Place(s, p, HumanStone)
  }

  ghost predicate AiStep(s: Game, t: Game) {
    if Open(s) then exists p :: AiChoice(s, p) && t == Place(s, p, AiStone) else t == s
  }

  ghost predicate GameRun(run: seq<Game>) {
    && run != [] && run[0] == NewGame()
    && forall i :: 0 < i < |run| ==> HumanStep(run[i - 1], run[i]) || AiStep(run[i - 1], run[i])
  }

  lemma StepKeepsConsistent(s: Game, t: Game)
    requires Consistent(s) && (HumanStep(s, t) || AiStep(s, t))
    ensures Consistent(t)
    ensures s.gameOver ==> t == s
  {
    if HumanStep(s, t) {
      var p :| Legal(s, p) && t == Place(s, p, HumanStone);
      PlaceKeepsConsistent(s, p, HumanStone);
    } else if Open(s) {
      var p :| AiChoice(s, p) && t == Place(s, p, AiStone);
      PlaceKeepsConsistent(s, p, AiStone);
    }
  }

  lemma NewGameIsConsistent()
    ensures Consistent(NewGame())
  {
    assert Stones(EmptyGrid()) == {};
    forall start, dir, player | player != Empty ensures !Window(EmptyGrid(), player, start, dir) {
      assert !Holds(EmptyGrid(), player, At(start, dir, 0));
    }
  }

  /** Over every run, in any order of human and AI moves: the counter counts the stones; an open game has no five
      anywhere; a finished one has a five of the named winner and none of the other, and is frozen. */
  lemma {:induction false} EveryRunIsConsistent(run: seq<Game>, i: nat, j: nat)
    requires GameRun(run) && i <= j < |run|
    ensures Consistent(run[i]) && Consistent(run[j])
    ensures run[i].gameOver ==> run[j] == run[i]
    decreases j
  {
    if j == 0 {
      NewGameIsConsistent();
    } else {
      EveryRunIsConsistent(run, if i == j then i - 1 else i, j - 1);
      StepKeepsConsistent(run[j - 1], run[j]);
    }
  }

  // ----- turns -----

  /** One request: a rejected move, or a move of the human that the AI answers unless it ended the game. */
  ghost predicate TurnStep(s: Game, t: Game) {
    t == s || exists p :: Legal(s, p) && AiStep(Place(s, p, HumanStone), t)
  }

  ghost predicate TurnRun(run: seq<Game>) {
    && run != [] && run[0] == NewGame()
    && forall i :: 0 < i < |run| ==> TurnStep(run[i - 1], run[i])
  }

  /** An open game has an even number of stones, and a full board was filled by the human. */
  ghost predicate BetweenTurns(s: Game) {
    && Consistent(s)
    && (Open(s) ==> s.moveCount % 2 == 0)
    && (Draw(s) ==> s.lastMove in s.grid && s.grid[s.lastMove] == HumanStone)
  }

  lemma HumanMoveIsOdd(s: Game, p: Pos)
    requires BetweenTurns(s) && Legal(s, p)
    ensures var h := Place(s, p, HumanStone);
      Consistent(h) && h.moveCount % 2 == 1 && h.lastMove in h.grid && h.grid[h.lastMove] == HumanStone
  {
    PlaceKeepsConsistent(s, p, HumanStone);
  }

  lemma AnswerIsEven(h: Game, t: Game)
    requires Consistent(h) && h.moveCount % 2 == 1 && Open(h) && AiStep(h, t)
    ensures Consistent(t) && t.moveCount % 2 == 0 && !Draw(t)
  {
    var q :| AiChoice(h, q) && t == Place(h, q, AiStone);
    PlaceKeepsConsistent(h, q, AiStone);
  }

  lemma TurnKeepsParity(s: Game, t: Game)
    requires BetweenTurns(s) && TurnStep(s, t)
    ensures BetweenTurns(t)
  {
    if t != s {
      var p :| Legal(s, p) && AiStep(Place(s, p, HumanStone), t);
      var h := Place(s, p, HumanStone);
      HumanMoveIsOdd(s, p);
      if Open(h) {
        AnswerIsEven(h, t);
      }
    }
  }

  /** In every sequence of human-then-AI turns the count is even whenever a turn starts on an open game; since 225 is
      odd, only the human can fill the board. */
  lemma {:induction false} EvenAtEveryTurn(run: seq<Game>, i: nat)
    requires TurnRun(run) && i < |run|
    ensures BetweenTurns(run[i])
  {
    if i == 0 {
      NewGameIsConsistent();
    } else {
      EvenAtEveryTurn(run, i - 1);
      TurnKeepsParity(run[i - 1], run[i]);
    }
  }

  // ----- tactics -----

  lemma RootScoreIs(s: Game, p: Pos, depth: nat)
    requires p in s.grid && depth == SearchDepth(s) - 1
    ensures RootScore(s, p) == Value(s.grid[p := AiStone], depth, false, false)
  {
  }

  /** The first winning cell is the first one row by row; the AI's own comes before the human's. */
  lemma WinningChoice(s: Game, p: Pos, player: Cell, q: Pos)
    requires AiChoice(s, p) && WinningCell(s.grid, player, q)
    requires player == AiStone || (player == HumanStone && !CanWin(s.grid, AiStone))
    ensures WinningCell(s.grid, player, p) && (p.r < q.r || (p.r == q.r && p.c <= q.c))
  {
    assert CanWin(s.grid, player);
    assert !Before(q, p);
  }

  /** Without one, the value behind the AI's stone - four plies further in the first ten moves, two plies later on - is
      nowhere greater than on the cell chosen, and among the equals the evaluation is nowhere greater. */
  lemma SearchedChoice(s: Game, p: Pos, q: Pos, depth: nat)
    requires AiChoice(s, p) && !CanWin(s.grid, AiStone) && !CanWin(s.grid, HumanStone) && SearchFindsAMove(s)
    requires IsCandidate(s.grid, q) && depth == if s.moveCount < 10 then 4 else 2
    ensures IsCandidate(s.grid, p)
    ensures Value(s.grid[q := AiStone], depth, false, false) <= Value(s.grid[p := AiStone], depth, false, false)
    ensures Value(s.grid[q := AiStone], depth, false, false) == Value(s.grid[p := AiStone], depth, false, false) ==>
      Evaluation(s.grid[q := AiStone], AiStone) <= Evaluation(s.grid[p := AiStone], AiStone)
  {
    RootScoreIs(s, q, depth);
    RootScoreIs(s, p, depth);
  }

  /** An AI that has a winning cell ends the game at once. */
  lemma AiTakesItsWin(s: Game, p: Pos)
    requires Open(s) && AiChoice(s, p) && CanWin(s.grid, AiStone)
    ensures Place(s, p, AiStone).gameOver && Place(s, p, AiStone).winner == AiWon
  {
  }

  /** Otherwise it occupies a winning cell of the human; if that was the only one, no single reply wins. */
  lemma AiBlocksTheHuman(s: Game, p: Pos)
    requires Open(s) && AiChoice(s, p) && !CanWin(s.grid, AiStone) && CanWin(s.grid, HumanStone)
    ensures WinningCell(s.grid, HumanStone, p) && !Place(s, p, AiStone).gameOver
    ensures CanWin(Place(s, p, AiStone).grid, HumanStone)
      ==> exists q :: q != p && WinningCell(s.grid, HumanStone, q)
  {
    assert !WinningCell(s.grid, AiStone, p);
    if q :| WinningCell(Place(s, p, AiStone).grid, HumanStone, q) {
      OpposingStoneAddsNoWin(s.grid, p, HumanStone, q);
    }
  }

  lemma RootHorizon(v: int, free: nat, depth: nat)
    requires HorizonValue(v, free, depth, false) && (depth == 2 || (depth == 4 && free >= 4))
    ensures v > INT_MIN <==> free != 1
  {
  }

  lemma RootScoreAtTheHorizon(s: Game, p: Pos)
    requires Consistent(s) && Open(s) && IsFree(s.grid, p)
    ensures RootScore(s, p) > INT_MIN <==> |FreeCells(s.grid)| != 2
  {
    var h, depth := Play(s.grid, p, AiStone), SearchDepth(s) - 1;
    var free := |FreeCells(s.grid)| - 1;
    assert s.moveCount < 10 ==> free >= 4 by { FreeCellsOfAnOpenGame(s); }
    assert Stones(h) != {} && |FreeCells(h)| == free by { PlacingLeavesAStone(s.grid, p, AiStone); }
    Horizon(h, depth, false);
    RootHorizon(Value(h, depth, false, false), free, depth);
    assert RootScore(s, p) == Value(h, depth, false, false);
  }

  /** The fallback to an arbitrary free cell is needed exactly when two cells are left or none is occupied. */
  lemma SearchFailsExactlyWithTwoCellsLeft(s: Game)
    requires Consistent(s) && Open(s)
    ensures SearchFindsAMove(s) <==> s.moveCount > 0 && |FreeCells(s.grid)| != 2
  {
    if s.moveCount > 0 {
      FreeCellsOfAnOpenGame(s);
      var p := FreeAndStoneGiveCandidate(s.grid);
      RootScoreAtTheHorizon(s, p);
    }
    if p :| IsCandidate(s.grid, p) && RootScore(s, p) > INT_MIN {
      RootScoreAtTheHorizon(s, p);
      NeighboursAreStones(s.grid, p);
    }
  }

  lemma NeighboursAreStones(g: Grid, p: Pos)
    requires NearOccupied(g, p)
    ensures |Stones(g)| > 0
  {
    var q :| q in g && Near(p, q) && g[q] != Empty;
    assert q in Stones(g);
  }
}
