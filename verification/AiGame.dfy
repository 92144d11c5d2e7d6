/** The Gomoku engine: one mutable board on which moves are made, tried and taken back. */
module AiGameEngine {
  import opened CIntegers
  import opened Options
  import opened GomokuBoard
  import opened GomokuSearch
  import opened GomokuGame

  datatype TurnOutcome = InvalidMove | HumanEnds | HumanFills | AiEnds | AiFills | Continue

  /** The eight neighbours of a cell, in the order the engine tries them. */
  function Neighbour(p: Pos, i: nat): Pos
    requires i < 8
  {
    if i < 3 then Pos(p.r - 1, p.c + i - 1)
    else if i == 3 then Pos(p.r, p.c - 1)
    else if i == 4 then Pos(p.r, p.c + 1)
    else Pos(p.r + 1, p.c + i - 6)
  }

  class AiGame {
    const board: array2<Cell>
    var gameOver: bool
    var moveCount: int
    var winner: Winner
    var lastMove: Pos

    ghost predicate Sized() { board.Length0 == BOARD_SIZE && board.Length1 == BOARD_SIZE }

    ghost function View(): Grid
      requires Sized()
      reads board
    {
      map p | p in Cells() :: board[p.r, p.c]
    }

    ghost function State(): Game
      requires Sized()
      reads this, board
    {
      Game(View(), moveCount, gameOver, winner, lastMove)
    }

    ghost predicate Valid()
      reads this, board
    {
      Sized() && Consistent(State())
    }

    constructor ()
      ensures Valid() && fresh(board) && State() == NewGame()
      ensures (forall p :: p in View() ==> View()[p] == Empty) && lastMove == Pos(-1, -1)
      ensures moveCount == 0 && !gameOver && winner == NoOne
    {
      board := new Cell[BOARD_SIZE, BOARD_SIZE]((i, j) => Empty);
      gameOver, moveCount, winner, lastMove := false, 0, NoOne, Pos(-1, -1);
      new;
      assert View() == EmptyGrid();
      NewGameIsConsistent();
    }

    predicate IsDraw()
      reads this
    {
      moveCount >= BOARD_SIZE * BOARD_SIZE
    }

    function Get(p: Pos): (c: Cell)
      requires Sized() && InBoard(p)
      reads board
      ensures c == View()[p]
    {
      board[p.r, p.c]
    }

    method Set(p: Pos, c: Cell)
      requires Sized() && InBoard(p)
      modifies board
      ensures View() == old(View())[p := c]
    {
      board[p.r, p.c] := c;
    }

    predicate IsValidMove(x: int, y: int)
      requires Sized()
      reads this, board
      ensures IsValidMove(x, y) <==> Legal(State(), Pos(x, y))
      ensures IsValidMove(x, y) <==>
        0 <= x < 15 && 0 <= y < 15 && View()[Pos(x, y)] == Empty && !gameOver && moveCount < 225
    {
      InBoard(Pos(x, y)) && Get(Pos(x, y)) == Empty && !gameOver && !IsDraw()
    }

    // ----- moves -----

    /** The part the two moves share: the stone, the bookkeeping and the check for five through it. */
    method PutStone(p: Pos, player: Cell)
      requires Sized() && Legal(State(), p) && player != Empty
      modifies this, board
      ensures State() == Place(old(State()), p, player)
    {
      Set(p, player);
      lastMove := p;
      moveCount := moveCount + 1;
      var won := CheckWin(p.r, p.c, player);
      if won {
        gameOver := true;
        winner := if player == HumanStone then HumanWon else AiWon;
      }
    }

    method HumanMove(x: int, y: int) returns (ok: bool)
      requires Valid()
      modifies this, board
      ensures Valid() && (ok <==> Legal(old(State()), Pos(x, y)))
      ensures State() == if ok then Place(old(State()), Pos(x, y), HumanStone) else old(State())
      ensures ok ==> View() == old(View())[Pos(x, y) := HumanStone] && lastMove == Pos(x, y)
    {
      if !IsValidMove(x, y) {
        return false;
      }
      PlaceKeepsConsistent(State(), Pos(x, y), HumanStone);
      PutStone(Pos(x, y), HumanStone);
      return true;
    }

    method AiMove(random: nat)
      requires Valid()
      modifies this, board
      ensures Valid()
      ensures if Open(old(State()))
        then AiChoice(old(State()), lastMove) && State() == Place(old(State()), lastMove, AiStone)
        else State() == old(State())
      ensures Open(old(State())) ==> InBoard(lastMove) && View() == old(View())[lastMove := AiStone]
    {
      if gameOver || IsDraw() {
        return;
      }
      FreeCellsOfAnOpenGame(State());
      var p := GetBestMove(random);
      PlaceKeepsConsistent(State(), p, AiStone);
      PutStone(p, AiStone);
    }

    // ----- the win check -----

    method CountRun(p: Pos, player: Cell, dir: int, back: bool) returns (count: int)
      requires Sized()
      ensures count == Run(View(), player, p, dir, back, 1)
    {
      count := 0;
      for i := 1 to 5
        invariant count == i - 1
        invariant Run(View(), player, p, dir, back, 1) == i - 1 + Run(View(), player, p, dir, back, i)
      {
        var n := At(p, dir, Offset(back, i));
        if !InBoard(n) || Get(n) != player {
          break;
        }
        count := count + 1;
      }
    }

    method FiveAlong(p: Pos, player: Cell, dir: int) returns (five: bool)
      requires Sized() && Holds(View(), player, p)
      ensures five <==> FiveThroughAlong(View(), player, p, dir)
    {
      var forward := CountRun(p, player, dir, false);
      var backward := CountRun(p, player, dir, true);
      var count := 1 + forward + backward;
      LineCountIsFive(View(), player, p, dir);
      return count >= 5;
    }

    method CheckWin(x: int, y: int, player: Cell) returns (win: bool)
      requires Sized() && Holds(View(), player, Pos(x, y))
      ensures win <==> FiveThrough(View(), player, Pos(x, y))
    {
      for dir := 0 to 4
        invariant forall d :: 0 <= d < dir ==> !FiveThroughAlong(View(), player, Pos(x, y), d)
      {
        var five := FiveAlong(Pos(x, y), player, dir);
        if five {
          return true;
        }
      }
      return false;
    }

    // ----- the evaluation -----

    method ScanRun(p: Pos, player: Cell, dir: int, back: bool) returns (count: int, block: int)
      requires Sized() && player != Empty
      ensures count == Run(View(), player, p, dir, back, 1)
      ensures block == if Blocked(View(), player, p, dir, back) then 1 else 0
    {
      count, block := 0, 0;
      for i := 1 to 5
        invariant count == i - 1 && block == 0
        invariant Run(View(), player, p, dir, back, 1) == i - 1 + Run(View(), player, p, dir, back, i)
      {
        var n := At(p, dir, Offset(back, i));
        if !InBoard(n) || Get(n) == Opponent(player) {
          block := 1;
          break;
        } else if Get(n) == Empty {
          break;
        }
        count := count + 1;
      }
    }

    method PatternAt(p: Pos, player: Cell, dir: int) returns (pattern: PatternType)
      requires Sized() && player != Empty
      ensures pattern == Pattern(View(), player, p, dir)
    {
      var left, leftBlock := ScanRun(p, player, dir, true);
      var right, rightBlock := ScanRun(p, player, dir, false);
      var count := 1 + left + right;
      if count >= 5 {
        pattern := Five;
      } else if count == 4 {
        pattern := if leftBlock == 0 && rightBlock == 0 then LiveFour else BlockedFour;
      } else if count == 3 {
        pattern := if leftBlock == 0 && rightBlock == 0 then LiveThree else BlockedThree;
      } else if count == 2 {
        pattern := if leftBlock == 0 && rightBlock == 0 then LiveTwo else BlockedTwo;
      } else {
        pattern := LiveOne;
      }
      assert pattern == PatternOf(count, leftBlock == 0 && rightBlock == 0);
    }

    method EvaluateCell(p: Pos, player: Cell) returns (score: int)
      requires Sized() && Holds(View(), player, p) && player != Empty
      ensures score == CellScore(View(), player, p)
    {
      ghost var g := View();
      score := 0;
      for dir := 0 to 4
        invariant score == LinesScore(g, player, p, dir)
      {
        var pattern := PatternAt(p, player, dir);
        score := score + PatternScore(pattern);
      }
    }

    method EvaluateBoard(player: Cell) returns (score: int)
      requires Sized() && player != Empty
      ensures score == Evaluation(View(), player)
      ensures 0 <= score <= 900000000
    {
      score := 0;
      for x := 0 to BOARD_SIZE
        invariant score == ScoreBefore(View(), player, x, 0)
      {
        for y := 0 to BOARD_SIZE
          invariant score == ScoreBefore(View(), player, x, y)
        {
          if Get(Pos(x, y)) == player {
            var s := EvaluateCell(Pos(x, y), player);
            score := score + s;
          }
        }
      }
    }

    // ----- candidates -----

    method IsNearOccupied(r: int, c: int) returns (near: bool)
      requires Sized()
      ensures near <==> NearOccupied(View(), Pos(r, c))
    {
      for i := 0 to 8
        invariant forall k :: 0 <= k < i && InBoard(Neighbour(Pos(r, c), k)) ==>
          View()[Neighbour(Pos(r, c), k)] == Empty
      {
        var n := Neighbour(Pos(r, c), i);
        if InBoard(n) && Get(n) != Empty {
          assert Near(Pos(r, c), n);
          return true;
        }
      }
      forall q | q in View() && Near(Pos(r, c), q) ensures View()[q] == Empty {
        var dr, dc := q.r - r, q.c - c;
        var k := if dr == -1 then dc + 1 else if dr == 1 then dc + 6 else if dc < 0 then 3 else 4;
        assert Neighbour(Pos(r, c), k) == q;
      }
      return false;
    }

    method CollectCandidates() returns (cs: seq<Pos>)
      requires Sized()
      ensures cs == Candidates(View())
    {
      cs := [];
      for i := 0 to BOARD_SIZE
        invariant cs == CandidatesBefore(View(), i, 0)
      {
        for j := 0 to BOARD_SIZE
          invariant cs == CandidatesBefore(View(), i, j)
        {
          var near := IsNearOccupied(i, j);
          if Get(Pos(i, j)) == Empty && near {
            cs := cs + [Pos(i, j)];
          }
        }
      }
    }

    method TryScore(p: Pos, player: Cell) returns (score: int)
      requires Sized() && IsFree(View(), p) && player != Empty
      modifies board
      ensures View() == old(View()) && score == StoneScore(View(), player, p)
    {
      Set(p, player);
      score := EvaluateBoard(player);
      Set(p, Empty);
    }

    /** The comparator writes to the board it compares on, and puts everything back. */
    method ComesFirst(a: Pos, b: Pos, player: Cell, descending: bool) returns (first: bool)
      requires Sized() && IsFree(View(), a) && IsFree(View(), b) && player != Empty
      modifies board
      ensures View() == old(View())
      ensures first <==> Precedes(descending, StoneScore(View(), player, a), StoneScore(View(), player, b))
    {
      var scoreA := TryScore(a, player);
      var scoreB := TryScore(b, player);
      return if descending then scoreA > scoreB else scoreA < scoreB;
    }

    /** The place for `p` among sorted candidates, behind those of equal score. */
    method FindPlace(cs: seq<Pos>, p: Pos, player: Cell, descending: bool, ghost g: Grid) returns (k: nat)
      requires Sized() && player != Empty && g == View() && IsFree(g, p) && AllFree(g, cs)
      modifies board
      ensures View() == g
      ensures PlaceFor(descending, StoneScores(g, player, cs), StoneScore(g, player, p), k)
    {
      ghost var scores := StoneScores(g, player, cs);
      k := |cs|;
      while k > 0
        invariant 0 <= k <= |cs| && View() == g
        invariant forall j :: k <= j < |cs| ==> Precedes(descending, StoneScore(g, player, p), scores[j])
      {
        assert IsFree(g, cs[k - 1]);
        var first := ComesFirst(p, cs[k - 1], player, descending);
        if !first {
          break;
        }
        k := k - 1;
      }
    }

    method InsertByScore(cs: seq<Pos>, p: Pos, player: Cell, descending: bool, ghost g: Grid) returns (out: seq<Pos>)
      requires Sized() && player != Empty && g == View() && IsFree(g, p) && Sorted(g, player, descending, cs)
      modifies board
      ensures View() == g
      ensures Sorted(g, player, descending, out) && multiset(out) == multiset(cs) + multiset{p}
    {
      var k := FindPlace(cs, p, player, descending, g);
      out := cs[..k] + [p] + cs[k..];
      InsertKeepsSorted(g, player, descending, cs, p, k, out);
    }

    /** Sorts the candidates by the evaluation; the board the comparator writes to is as before. */
    method SortCandidates(cs: seq<Pos>, player: Cell, descending: bool) returns (out: seq<Pos>)
      requires Sized() && player != Empty && forall p :: p in cs ==> IsFree(View(), p)
      modifies board
      ensures View() == old(View())
      ensures Sorted(View(), player, descending, out)
      ensures multiset(out) == multiset(cs) && forall p :: p in out <==> p in cs
    {
      ghost var g := View();
      out := [];
      for i := 0 to |cs|
        invariant View() == g
        invariant Sorted(g, player, descending, out) && multiset(out) == multiset(cs[..i])
      {
        out := InsertByScore(out, cs[i], player, descending, g);
        assert cs[..i + 1] == cs[..i] + [cs[i]];
      }
      assert cs[..|cs|] == cs;
      SameMembers(out, cs);
    }

    lemma SameMembers(a: seq<Pos>, b: seq<Pos>)
      requires multiset(a) == multiset(b)
      ensures forall p :: p in a <==> p in b
    {
      assert forall p :: p in a <==> p in multiset(a);
      assert forall p :: p in b <==> p in multiset(b);
    }

    // ----- the search -----

    /** `value` is the plain minimax value of the board; `stop` says that the search may not go on. */
    method Minimax(depth: nat, maximizing: bool, alpha0: int, beta0: int,
                   ghost g: Grid, ghost stop: bool, ghost value: int)
      returns (best: int)
      requires Sized() && INT_MIN <= alpha0 < beta0 <= INT_MAX
      requires g == View() && stop == (gameOver || IsDraw()) && value == Value(g, depth, maximizing, stop)
      modifies board
      ensures View() == g
      ensures INT_MIN <= best <= INT_MAX && Brackets(best, value, alpha0, beta0)
      decreases depth, 3
    {
      if depth == 0 || gameOver || IsDraw() {
        var ai := EvaluateBoard(AiStone);
        var human := EvaluateBoard(HumanStone);
        return ai - human;
      }
      var candidates := CollectCandidates();
      var moves := SortCandidates(candidates, Mover(maximizing), maximizing);
      OrderDoesNotMatter(g, candidates, moves, depth, maximizing, false);
      best := SearchMoves(moves, depth, maximizing, alpha0, beta0, g, Scores(g, moves, depth, maximizing, false));
    }

    /** `scores` are the minimax values behind the moves. The loop ends with a cut-off when the window is closed. */
    method SearchMoves(moves: seq<Pos>, depth: nat, maximizing: bool, alpha0: int, beta0: int,
                       ghost g: Grid, ghost scores: seq<int>)
      returns (best: int)
      requires Sized() && INT_MIN <= alpha0 < beta0 <= INT_MAX
      requires depth > 0 && !gameOver && !IsDraw()
      requires g == View() && AllFree(g, moves) && forall p :: p in moves ==> p in g
      requires scores == Scores(g, moves, depth, maximizing, false)
      modifies board
      ensures View() == g
      ensures INT_MIN <= best <= INT_MAX && Brackets(best, Fold(maximizing, scores), alpha0, beta0)
      decreases depth, 2
    {
      var next := !maximizing;
      best := Sentinel(maximizing);
      var alpha, beta := alpha0, beta0;
      var k := 0;
      while k < |moves| && alpha < beta
        invariant 0 <= k <= |moves| && View() == g
        invariant INT_MIN <= best <= INT_MAX && INT_MIN <= alpha && beta <= INT_MAX
        invariant LoopInv(maximizing, best, Fold(maximizing, scores[..k]), alpha0, beta0, alpha, beta)
      {
        ScoreOfMove(g, moves, depth, maximizing, next, scores, k);
        best, alpha, beta := SearchOne(moves[k], depth, maximizing, next, best, alpha, beta,
                                       g, scores, k, alpha0, beta0);
        k := k + 1;
      }
      LoopResult(maximizing, scores, k, best, alpha0, beta0, alpha, beta);
    }

    /** One turn of the loop: the `k`-th move is searched, and the best score and the window are updated. */
    method SearchOne(p: Pos, depth: nat, maximizing: bool, next: bool, best0: int, alpha1: int, beta1: int,
                     ghost g: Grid, ghost scores: seq<int>, ghost k: nat, ghost alpha0: int, ghost beta0: int)
      returns (best: int, alpha: int, beta: int)
      requires Sized() && depth > 0 && !gameOver && !IsDraw() && g == View() && IsFree(g, p)
      requires INT_MIN <= best0 <= INT_MAX && INT_MIN <= alpha1 < beta1 <= INT_MAX && alpha0 < beta0
      requires k < |scores| && scores[k] == Value(Play(g, p, Mover(maximizing)), depth - 1, next, false)
      requires LoopInv(maximizing, best0, Fold(maximizing, scores[..k]), alpha0, beta0, alpha1, beta1)
      modifies board
      ensures View() == g
      ensures INT_MIN <= best <= INT_MAX && INT_MIN <= alpha && beta <= INT_MAX
      ensures LoopInv(maximizing, best, Fold(maximizing, scores[..k + 1]), alpha0, beta0, alpha, beta)
      ensures alpha == (if maximizing && alpha1 < best then best else alpha1)
      ensures beta == (if !maximizing && best < beta1 then best else beta1)
      decreases depth, 1
    {
      var score := TryMove(p, Mover(maximizing), depth - 1, next, alpha1, beta1, g, false, scores[k]);
      best, alpha, beta := Update(maximizing, best0, alpha1, beta1, score, scores, k, alpha0, beta0);
    }

    /** The best score and the window after the score of the `k`-th move. */
    static method Update(maximizing: bool, best0: int, alpha1: int, beta1: int, score: int,
                         ghost scores: seq<int>, ghost k: nat, ghost alpha0: int, ghost beta0: int)
      returns (best: int, alpha: int, beta: int)
      requires INT_MIN <= best0 <= INT_MAX && INT_MIN <= score <= INT_MAX
      requires INT_MIN <= alpha1 < beta1 <= INT_MAX && alpha0 < beta0 && k < |scores|
      requires LoopInv(maximizing, best0, Fold(maximizing, scores[..k]), alpha0, beta0, alpha1, beta1)
      requires Brackets(score, scores[k], alpha1, beta1)
      ensures INT_MIN <= best <= INT_MAX && INT_MIN <= alpha && beta <= INT_MAX
      ensures LoopInv(maximizing, best, Fold(maximizing, scores[..k + 1]), alpha0, beta0, alpha, beta)
      ensures alpha == (if maximizing && alpha1 < best then best else alpha1)
      ensures beta == (if !maximizing && best < beta1 then best else beta1)
    {
      OneMoreMove(maximizing, scores, k, best0, alpha0, beta0, alpha1, beta1, score);
      best := Better(maximizing, best0, score);
      alpha, beta := RaisedAlpha(maximizing, alpha1, best), LoweredBeta(maximizing, beta1, best);
    }

    /** Puts `player`'s stone, searches on, and takes the stone back. `value` is the minimax value behind the move. */
    method TryMove(p: Pos, player: Cell, depth: nat, maximizing: bool, alpha: int, beta: int,
                   ghost g: Grid, ghost stop: bool, ghost value: int)
      returns (score: int)
      requires Sized() && INT_MIN <= alpha < beta <= INT_MAX && g == View() && IsFree(g, p)
      requires stop == (gameOver || IsDraw()) && value == Value(Play(g, p, player), depth, maximizing, stop)
      modifies board
      ensures View() == g
      ensures INT_MIN <= score <= INT_MAX && Brackets(score, value, alpha, beta)
      decreases depth, 4
    {
      ghost var after := Play(g, p, player);
      TakingBack(g, p, player);
      Set(p, player);
      score := Minimax(depth, maximizing, alpha, beta, after, stop, value);
      Set(p, Empty);
    }

    /** With the full window nothing is lost: alpha-beta computes the plain minimax value behind a move of the AI. */
    method FullWindow(p: Pos, depth: nat, ghost g: Grid) returns (score: int)
      requires Sized() && depth > 0 && g == View() && IsFree(g, p)
      modifies board
      ensures View() == g
      ensures score == Value(Play(g, p, AiStone), depth - 1, false, gameOver || IsDraw())
    {
      ghost var stop := gameOver || IsDraw();
      ghost var value := FittingValue(Play(g, p, AiStone), depth - 1, false, stop);
      score := TryMove(p, AiStone, depth - 1, false, INT_MIN, INT_MAX, g, stop, value);
      ExactInFullWindow(score, value);
    }

    lemma FittingValue(g: Grid, depth: nat, maximizing: bool, stop: bool) returns (value: int)
      ensures value == Value(g, depth, maximizing, stop) && INT_MIN <= value <= INT_MAX
    {
      value := Value(g, depth, maximizing, stop);
      ValueFitsInt(g, depth, maximizing, stop);
    }

    // ----- the best move -----

    method TryWin(p: Pos, player: Cell) returns (won: bool)
      requires Sized() && player != Empty && IsFree(View(), p)
      modifies board
      ensures View() == old(View())
      ensures won <==> WinningCell(View(), player, p)
    {
      Set(p, player);
      won := CheckWin(p.r, p.c, player);
      Set(p, Empty);
    }

    method FindInRow(r: nat, player: Cell, ghost g: Grid) returns (c: Option<nat>)
      requires Sized() && g == View() && player != Empty && r < BOARD_SIZE
      modifies board
      ensures View() == g
      ensures c.Some? ==> WinningCell(g, player, Pos(r, c.value))
      ensures forall q :: WinningCell(g, player, q) && q.r == r ==> c.Some? && q.c >= c.value
    {
      for j := 0 to BOARD_SIZE
        invariant View() == g
        invariant forall q :: WinningCell(g, player, q) && q.r == r ==> q.c >= j
      {
        if Get(Pos(r, j)) == Empty {
          var won := TryWin(Pos(r, j), player);
          if won {
            return Some(j);
          }
        }
      }
      return None;
    }

    method FindWinningCell(player: Cell) returns (p: Option<Pos>)
      requires Sized() && player != Empty
      modifies board
      ensures View() == old(View())
      ensures p.Some? ==> FirstWinningCell(View(), player, p.value)
      ensures p.None? ==> !CanWin(View(), player)
    {
      ghost var g := View();
      for i := 0 to BOARD_SIZE
        invariant View() == g
        invariant forall q :: WinningCell(g, player, q) ==> q.r >= i
      {
        var c := FindInRow(i, player, g);
        if c.Some? {
          return Some(Pos(i, c.value));
        }
      }
      return None;
    }

    ghost predicate AreRootScores(s: Game, moves: seq<Pos>, scores: seq<int>) {
      |scores| == |moves| && forall i :: 0 <= i < |moves| ==> moves[i] in s.grid && scores[i] == RootScore(s, moves[i])
    }

    lemma RootScores(s: Game, moves: seq<Pos>) returns (scores: seq<int>)
      requires forall p :: p in moves ==> p in s.grid
      ensures AreRootScores(s, moves, scores)
    {
      scores := seq(|moves|, i requires 0 <= i < |moves| => RootScore(s, moves[i]));
    }

    /** Of the first `k` moves, the `b`-th is the first of greatest score, if any exceeds the sentinel. */
    ghost predicate FirstBest(moves: seq<Pos>, scores: seq<int>, k: nat, b: nat, bestMove: Pos, bestScore: int) {
      && k <= |moves| == |scores| && bestScore >= INT_MIN
      && (forall i :: 0 <= i < k ==> scores[i] <= bestScore)
      && if bestMove == Pos(-1, -1) then bestScore == INT_MIN
         else
           && b < k && bestMove == moves[b] && bestScore == scores[b] > INT_MIN
           && forall i :: 0 <= i < b ==> scores[i] < bestScore
    }

    lemma FirstBestStep(moves: seq<Pos>, scores: seq<int>, k: nat, b: nat, bestMove: Pos, bestScore: int)
      requires FirstBest(moves, scores, k, b, bestMove, bestScore) && k < |moves| && InBoard(moves[k])
      ensures if scores[k] > bestScore then FirstBest(moves, scores, k + 1, k, moves[k], scores[k])
        else FirstBest(moves, scores, k + 1, b, bestMove, bestScore)
    {
    }

    lemma NoneIsBetter(s: Game, moves: seq<Pos>, scores: seq<int>, b: nat, bestMove: Pos, bestScore: int, j: nat)
      requires Sorted(s.grid, AiStone, true, moves) && AreRootScores(s, moves, scores) && j < |moves|
      requires FirstBest(moves, scores, |moves|, b, bestMove, bestScore)
      ensures RootScore(s, moves[j]) <= bestScore
      ensures bestMove != Pos(-1, -1) && RootScore(s, moves[j]) == bestScore ==>
        bestMove in s.grid && StoneScore(s.grid, AiStone, moves[j]) <= StoneScore(s.grid, AiStone, bestMove)
    {
      assert scores[j] == RootScore(s, moves[j]);
      if bestMove != Pos(-1, -1) && scores[j] == bestScore && j > b {
        SortedMeans(s.grid, moves, b, j);
      }
    }

    /** Among sorted moves the first of greatest score also has the greatest evaluation of these. */
    lemma FirstBestIsBest(s: Game, moves: seq<Pos>, scores: seq<int>, b: nat, bestMove: Pos, bestScore: int)
      requires (forall p :: p in moves <==> IsCandidate(s.grid, p)) && Sorted(s.grid, AiStone, true, moves)
      requires AreRootScores(s, moves, scores) && FirstBest(moves, scores, |moves|, b, bestMove, bestScore)
      ensures if SearchFindsAMove(s) then BestCandidate(s, bestMove) else bestMove == Pos(-1, -1)
    {
      forall q | IsCandidate(s.grid, q)
        ensures RootScore(s, q) <= bestScore
        ensures bestMove != Pos(-1, -1) && RootScore(s, q) == bestScore ==>
          bestMove in s.grid && StoneScore(s.grid, AiStone, q) <= StoneScore(s.grid, AiStone, bestMove)
      {
        var j :| 0 <= j < |moves| && moves[j] == q;
        NoneIsBetter(s, moves, scores, b, bestMove, bestScore, j);
      }
      if bestMove == Pos(-1, -1) {
        assert !SearchFindsAMove(s);
      } else {
        BestIsACandidate(s, moves, scores, b, bestMove);
        assert BestCandidate(s, bestMove);
      }
    }

    lemma BestIsACandidate(s: Game, moves: seq<Pos>, scores: seq<int>, b: nat, bestMove: Pos)
      requires (forall p :: p in moves <==> IsCandidate(s.grid, p)) && AreRootScores(s, moves, scores)
      requires b < |moves| && bestMove == moves[b] && scores[b] > INT_MIN
      ensures IsCandidate(s.grid, bestMove) && RootScore(s, bestMove) == scores[b] && SearchFindsAMove(s)
    {
      assert moves[b] in moves;
    }

    method ScoreOf(p: Pos) returns (score: int)
      requires Sized() && Open(State()) && IsFree(View(), p)
      modifies board
      ensures View() == old(View()) && score == RootScore(State(), p)
    {
      var depth := if moveCount < 10 then 5 else 3;
      score := FullWindow(p, depth, View());
    }

    method BestByScore(moves: seq<Pos>) returns (bestMove: Pos)
      requires Sized() && Open(State()) && forall p :: p in moves <==> IsCandidate(View(), p)
      requires Sorted(View(), AiStone, true, moves)
      modifies board
      ensures View() == old(View())
      ensures if SearchFindsAMove(State()) then BestCandidate(State(), bestMove) else bestMove == Pos(-1, -1)
    {
      ghost var s := State();
      ghost var scores := RootScores(s, moves);
      ghost var b := 0;
      bestMove := Pos(-1, -1);
      var bestScore := INT_MIN;
      for k := 0 to |moves|
        invariant State() == s && 0 <= b <= k
        invariant FirstBest(moves, scores, k, b, bestMove, bestScore)
      {
        assert IsCandidate(s.grid, moves[k]) by { assert moves[k] in moves; }
        var score := ScoreOf(moves[k]);
        FirstBestStep(moves, scores, k, b, bestMove, bestScore);
        if score > bestScore {
          bestScore, bestMove, b := score, moves[k], k;
        }
      }
      FirstBestIsBest(s, moves, scores, b, bestMove, bestScore);
    }

    method AnyFreeCell(random: nat) returns (p: Pos)
      requires Sized() && FreeCells(View()) != {}
      ensures IsFree(View(), p)
    {
      var cells: seq<Pos> := [];
      for i := 0 to BOARD_SIZE
        invariant forall q :: q in cells ==> IsFree(View(), q)
        invariant forall q :: IsFree(View(), q) && q.r < i ==> q in cells
      {
        for j := 0 to BOARD_SIZE
          invariant forall q :: q in cells ==> IsFree(View(), q)
          invariant forall q :: IsFree(View(), q) && Before(q, Pos(i, j)) ==> q in cells
        {
          if Get(Pos(i, j)) == Empty {
            cells := cells + [Pos(i, j)];
          }
        }
      }
      ghost var f :| f in FreeCells(View());
      assert f in cells;
      p := cells[random % |cells|];
    }

    method GetBestMove(random: nat) returns (p: Pos)
      requires Sized() && Open(State()) && FreeCells(View()) != {}
      modifies board
      ensures View() == old(View())
      ensures AiChoice(State(), p)
    {
      var win := FindWinningCell(AiStone);
      if win.Some? {
        return win.value;
      }
      var threat := FindWinningCell(HumanStone);
      if threat.Some? {
        return threat.value;
      }
      var candidates := CollectCandidates();
      var moves := SortCandidates(candidates, AiStone, true);
      p := BestByScore(moves);
      if p.r == -1 {
        p := AnyFreeCell(random);
      }
    }

    // ----- a turn -----

    /** The AI's half of a turn. With an odd number of stones on 225 cells the AI never puts the last one. */
    method Answer(random: nat) returns (outcome: TurnOutcome)
      requires Valid() && Open(State()) && moveCount % 2 == 1
      modifies this, board
      ensures Valid() && AiStep(old(State()), State()) && moveCount == old(moveCount) + 1
      ensures InBoard(lastMove) && View() == old(View())[lastMove := AiStone] && old(View())[lastMove] == Empty
      ensures outcome == if gameOver then AiEnds else Continue
      ensures gameOver ==> winner == AiWon
      ensures !Draw(State())
    {
      ghost var s := State();
      AiMove(random);
      AfterPlace(s, lastMove, AiStone);
      if gameOver {
        return AiEnds;
      }
      if IsDraw() {
        return AiFills;
      }
      return Continue;
    }

    /** One request of the move handler: the human moves, then the AI answers unless the game has ended.
        The count is even again whenever the game goes on, and `AiFills` does not occur. */
    method Turn(x: int, y: int, random: nat) returns (outcome: TurnOutcome)
      requires Valid() && Open(State()) && moveCount % 2 == 0
      modifies this, board
      ensures Valid() && outcome != AiFills && TurnStep(old(State()), State())
      ensures outcome == InvalidMove <==> !Legal(old(State()), Pos(x, y))
      ensures outcome == InvalidMove ==> State() == old(State())
      ensures outcome in {HumanEnds, HumanFills} ==> View() == old(View())[Pos(x, y) := HumanStone]
      ensures outcome in {AiEnds, Continue} ==>
        && InBoard(lastMove) && old(View())[Pos(x, y) := HumanStone][lastMove] == Empty
        && View() == old(View())[Pos(x, y) := HumanStone][lastMove := AiStone]
      ensures outcome == HumanEnds ==> gameOver && winner == HumanWon
      ensures outcome == HumanFills <==> moveCount == BOARD_SIZE * BOARD_SIZE && !gameOver
      ensures outcome == AiEnds ==> gameOver && winner == AiWon
      ensures outcome == Continue ==> Open(State()) && moveCount == old(moveCount) + 2
    {
      ghost var s := State();
      var ok := HumanMove(x, y);
      if !ok {
        return InvalidMove;
      }
      AfterPlace(s, Pos(x, y), HumanStone);
      ghost var h := State();
      assert Legal(s, Pos(x, y)) && h == Place(s, Pos(x, y), HumanStone);
      if gameOver {
        assert AiStep(h, State());
        return HumanEnds;
      }
      if IsDraw() {
        assert AiStep(h, State());
        return HumanFills;
      }
      outcome := Answer(random);
    }
  }
}
