/** The game-tree value the engine's search is meant to compute: plain minimax, no pruning, no move order. */
module GomokuSearch {
  import opened CIntegers
  import opened GomokuBoard

  function Mover(maximizing: bool): Cell { if maximizing then AiStone else HumanStone }

  function Sentinel(maximizing: bool): int { if maximizing then INT_MIN else INT_MAX }

  function Better(maximizing: bool, a: int, b: int): int {
    if maximizing then if a < b then b else a
    else if b < a then b else a
  }

  /** The window after a score: the maximizing side raises alpha, the other side lowers beta. */
  function RaisedAlpha(maximizing: bool, alpha: int, best: int): int {
    if maximizing then Better(true, alpha, best) else alpha
  }

  function LoweredBeta(maximizing: bool, beta: int, best: int): int {
    if maximizing then beta else Better(false, beta, best)
  }

  predicate AtLeastAsGood(maximizing: bool, a: int, b: int) {
    if maximizing then a >= b else a <= b
  }

  function Leaf(g: Grid): (v: int)
    ensures -900000000 <= v <= 900000000
  {
    Evaluation(g, AiStone) - Evaluation(g, HumanStone)
  }

  /** The free cells next to a stone that come before (r, c) in row-major order. */
  ghost function CandidatesBefore(g: Grid, r: nat, c: nat): (cs: seq<Pos>)
    requires r <= BOARD_SIZE && c <= BOARD_SIZE
    ensures forall p :: p in cs <==> IsCandidate(g, p) && (p.r < r || (p.r == r && p.c < c))
    decreases r, c, g
  {
    if c > 0 then
      var p := Pos(r, c - 1);
      if IsCandidate(g, p) then CandidatesBefore(g, r, c - 1) + [p] else CandidatesBefore(g, r, c - 1)
    else if r > 0 then CandidatesBefore(g, r - 1, BOARD_SIZE)
    else []
  }

  ghost function Candidates(g: Grid): (cs: seq<Pos>)
    ensures forall p :: p in cs <==> IsCandidate(g, p)
  {
    CandidatesBefore(g, BOARD_SIZE, 0)
  }

  /** The best of `scores` for the side to move, starting from the sentinel. */
  function Fold(maximizing: bool, scores: seq<int>): (v: int) {
    if scores == [] then Sentinel(maximizing)
    else Better(maximizing, Fold(maximizing, scores[..|scores| - 1]), scores[|scores| - 1])
  }

  /** `stop` is the engine's `isGameOver() || isDraw()`; the search changes neither. */
  ghost function Value(g: Grid, depth: nat, maximizing: bool, stop: bool): (v: int)
    decreases depth, 1
  {
    if depth == 0 || stop then Leaf(g)
    else Fold(maximizing, Scores(g, Candidates(g), depth, maximizing, stop))
  }

  /** The value after each of the moves `cs`. */
  ghost function Scores(g: Grid, cs: seq<Pos>, depth: nat, maximizing: bool, stop: bool): (s: seq<int>)
    requires depth > 0 && forall p :: p in cs ==> p in g
    ensures |s| == |cs|
    decreases depth, 0
  {
    seq(|cs|, i requires 0 <= i < |cs| => Value(Play(g, cs[i], Mover(maximizing)), depth - 1, !maximizing, stop))
  }

  /** `next` is the other side's turn. */
  lemma ScoreOfMove(g: Grid, cs: seq<Pos>, depth: nat, maximizing: bool, next: bool, scores: seq<int>, k: nat)
    requires depth > 0 && (forall p :: p in cs ==> p in g) && k < |cs| && next == !maximizing
    requires scores == Scores(g, cs, depth, maximizing, false)
    ensures cs[k] in g && k < |scores|
    ensures scores[k] == Value(Play(g, cs[k], Mover(maximizing)), depth - 1, next, false)
  {
    if maximizing {
    } else {
    }
  }

  /** `Fold` is the extremum of the scores, or the sentinel. */
  lemma {:induction false} FoldIsExtremum(maximizing: bool, scores: seq<int>)
    ensures AtLeastAsGood(maximizing, Fold(maximizing, scores), Sentinel(maximizing))
    ensures forall v :: v in scores ==> AtLeastAsGood(maximizing, Fold(maximizing, scores), v)
    ensures Fold(maximizing, scores) in scores || Fold(maximizing, scores) == Sentinel(maximizing)
  {
    if scores != [] {
      var n := |scores| - 1;
      FoldIsExtremum(maximizing, scores[..n]);
      assert forall v :: v in scores ==> v in scores[..n] || v == scores[n];
    }
  }

  /** The search value depends on which cells are tried, not on the order in which a sort puts them. */
  lemma OrderDoesNotMatter(g: Grid, cs: seq<Pos>, ds: seq<Pos>, depth: nat, maximizing: bool, stop: bool)
    requires depth > 0 && forall p :: p in cs ==> p in g
    requires forall p :: p in cs <==> p in ds
    ensures Fold(maximizing, Scores(g, cs, depth, maximizing, stop))
         == Fold(maximizing, Scores(g, ds, depth, maximizing, stop))
  {
    var s, t := Scores(g, cs, depth, maximizing, stop), Scores(g, ds, depth, maximizing, stop);
    SameMovesSameScores(g, cs, ds, depth, maximizing, stop);
    SameMovesSameScores(g, ds, cs, depth, maximizing, stop);
    FoldIsExtremum(maximizing, s);
    FoldIsExtremum(maximizing, t);
  }

  lemma SameMovesSameScores(g: Grid, cs: seq<Pos>, ds: seq<Pos>, depth: nat, maximizing: bool, stop: bool)
    requires depth > 0 && forall p :: p in cs ==> p in g
    requires forall p :: p in cs <==> p in ds
    ensures forall v :: v in Scores(g, cs, depth, maximizing, stop) ==> v in Scores(g, ds, depth, maximizing, stop)
  {
    var s, t := Scores(g, cs, depth, maximizing, stop), Scores(g, ds, depth, maximizing, stop);
    forall v | v in s ensures v in t {
      var i :| 0 <= i < |s| && s[i] == v;
      assert cs[i] in ds;
      var j :| 0 <= j < |ds| && ds[j] == cs[i];
      assert t[j] == v;
    }
  }

  lemma {:induction false} MoreMovesAreNoWorse(maximizing: bool, scores: seq<int>, n: nat)
    requires n <= |scores|
    ensures AtLeastAsGood(maximizing, Fold(maximizing, scores), Fold(maximizing, scores[..n]))
  {
    if n < |scores| {
      MoreMovesAreNoWorse(maximizing, scores[..|scores| - 1], n);
      assert scores[..|scores| - 1][..n] == scores[..n];
    } else {
      assert scores[..n] == scores;
    }
  }

  lemma FoldOneMore(maximizing: bool, scores: seq<int>, n: nat)
    requires n < |scores|
    ensures Fold(maximizing, scores[..n + 1]) == Better(maximizing, Fold(maximizing, scores[..n]), scores[n])
  {
    assert scores[..n + 1][..n] == scores[..n];
  }

  /** Every value lies between the sentinels. */
  lemma {:induction false} ValueFitsInt(g: Grid, depth: nat, maximizing: bool, stop: bool)
    ensures INT_MIN <= Value(g, depth, maximizing, stop) <= INT_MAX
    decreases depth, 1
  {
    if depth > 0 && !stop {
      var s := Scores(g, Candidates(g), depth, maximizing, stop);
      ScoresFitInt(g, Candidates(g), depth, maximizing, stop);
      FoldIsExtremum(maximizing, s);
    }
  }

  lemma {:induction false} ScoresFitInt(g: Grid, cs: seq<Pos>, depth: nat, maximizing: bool, stop: bool)
    requires depth > 0 && forall p :: p in cs ==> p in g
    ensures forall v :: v in Scores(g, cs, depth, maximizing, stop) ==> INT_MIN <= v <= INT_MAX
    decreases depth, 0
  {
    forall i | 0 <= i < |cs| ensures INT_MIN <= Scores(g, cs, depth, maximizing, stop)[i] <= INT_MAX {
      ValueFitsInt(Play(g, cs[i], Mover(maximizing)), depth - 1, !maximizing, stop);
    }
  }

  // ----- the order of the candidates -----

  /** What the comparator compares: the evaluation for `player` with its stone on the cell. */
  function StoneScore(g: Grid, player: Cell, p: Pos): int
    requires p in g && player != Empty
  {
    Evaluation(Play(g, p, player), player)
  }

  predicate Precedes(descending: bool, a: int, b: int) { if descending then a > b else a < b }

  ghost predicate AllFree(g: Grid, cs: seq<Pos>) { forall i :: 0 <= i < |cs| ==> IsFree(g, cs[i]) }

  ghost function StoneScores(g: Grid, player: Cell, cs: seq<Pos>): (s: seq<int>)
    requires player != Empty && AllFree(g, cs)
    ensures |s| == |cs| && forall i :: 0 <= i < |cs| ==> s[i] == StoneScore(g, player, cs[i])
  {
    seq(|cs|, i requires 0 <= i < |cs| => StoneScore(g, player, cs[i]))
  }

  /** No later score precedes an earlier one. */
  predicate Ordered(descending: bool, scores: seq<int>) {
    forall i, j :: 0 <= i < j < |scores| ==> !Precedes(descending, scores[j], scores[i])
  }

  lemma InsertKeepsOrder(descending: bool, scores: seq<int>, score: int, k: nat)
    requires Ordered(descending, scores) && PlaceFor(descending, scores, score, k)
    ensures Ordered(descending, scores[..k] + [score] + scores[k..])
  {
    assert forall i :: 0 <= i < k ==> !Precedes(descending, score, scores[i]);
  }

  /** Free cells in the order the comparator asks for. */
  ghost predicate Sorted(g: Grid, player: Cell, descending: bool, cs: seq<Pos>)
    requires player != Empty
  {
    AllFree(g, cs) && Ordered(descending, StoneScores(g, player, cs))
  }

  /** A cell of this score belongs before the `k`-th candidate: it precedes that one and those behind it, but not the
      one before. */
  ghost predicate PlaceFor(descending: bool, scores: seq<int>, score: int, k: nat) {
    && k <= |scores|
    && (k > 0 ==> !Precedes(descending, score, scores[k - 1]))
    && (forall j :: k <= j < |scores| ==> Precedes(descending, score, scores[j]))
  }

  lemma ScoresAfterInsert(g: Grid, player: Cell, cs: seq<Pos>, p: Pos, k: nat, out: seq<Pos>)
    requires player != Empty && IsFree(g, p) && k <= |cs| && out == cs[..k] + [p] + cs[k..] && AllFree(g, cs)
    ensures AllFree(g, out)
    ensures StoneScores(g, player, out)
      == StoneScores(g, player, cs)[..k] + [StoneScore(g, player, p)] + StoneScores(g, player, cs)[k..]
  {
    forall i | 0 <= i < |out| ensures out[i] == if i < k then cs[i] else if i == k then p else cs[i - 1] {
    }
  }

  lemma InsertKeepsSorted(g: Grid, player: Cell, descending: bool, cs: seq<Pos>, p: Pos, k: nat, out: seq<Pos>)
    requires player != Empty && IsFree(g, p) && Sorted(g, player, descending, cs)
    requires PlaceFor(descending, StoneScores(g, player, cs), StoneScore(g, player, p), k)
    requires out == cs[..k] + [p] + cs[k..]
    ensures Sorted(g, player, descending, out) && multiset(out) == multiset(cs) + multiset{p}
  {
    ScoresAfterInsert(g, player, cs, p, k, out);
    InsertKeepsOrder(descending, StoneScores(g, player, cs), StoneScore(g, player, p), k);
    assert cs == cs[..k] + cs[k..];
  }

  /** The AI tries the cells in the order of falling evaluation, the human in the order of rising evaluation. */
  lemma SortedMeans(g: Grid, cs: seq<Pos>, i: nat, j: nat)
    requires i < j < |cs| && AllFree(g, cs)
    ensures Sorted(g, AiStone, true, cs) ==>
      Evaluation(g[cs[i] := AiStone], AiStone) >= Evaluation(g[cs[j] := AiStone], AiStone)
    ensures Sorted(g, HumanStone, false, cs) ==>
      Evaluation(g[cs[i] := HumanStone], HumanStone) <= Evaluation(g[cs[j] := HumanStone], HumanStone)
  {
    var ai, human := StoneScores(g, AiStone, cs), StoneScores(g, HumanStone, cs);
    assert ai[i] == Evaluation(g[cs[i] := AiStone], AiStone) && ai[j] == Evaluation(g[cs[j] := AiStone], AiStone);
    assert human[i] == Evaluation(g[cs[i] := HumanStone], HumanStone);
    assert human[j] == Evaluation(g[cs[j] := HumanStone], HumanStone);
  }

  /** The candidates are listed row by row, and by column within a row. */
  lemma {:induction false} CandidatesInRowOrder(g: Grid, r: nat, c: nat, i: nat, j: nat)
    requires r <= BOARD_SIZE && c <= BOARD_SIZE && i < j < |CandidatesBefore(g, r, c)|
    ensures var p, q := CandidatesBefore(g, r, c)[i], CandidatesBefore(g, r, c)[j];
      p.r < q.r || (p.r == q.r && p.c < q.c)
    decreases r, c
  {
    if c > 0 {
      var before := CandidatesBefore(g, r, c - 1);
      if j < |before| {
        CandidatesInRowOrder(g, r, c - 1, i, j);
      } else {
        assert before[i] in before;
      }
    } else {
      CandidatesInRowOrder(g, r - 1, BOARD_SIZE, i, j);
    }
  }

  // ----- alpha-beta: what a result says about the true value -----

  /** Exact inside the window, an upper bound at or below it, a lower bound at or above it. */
  predicate Brackets(result: int, value: int, alpha: int, beta: int) {
    && (alpha < result < beta ==> value == result)
    && (result <= alpha ==> value <= result)
    && (result >= beta ==> value >= result)
  }

  /** No value lies outside the full window. */
  lemma ExactInFullWindow(result: int, value: int)
    requires INT_MIN <= result <= INT_MAX && INT_MIN <= value <= INT_MAX
    requires Brackets(result, value, INT_MIN, INT_MAX)
    ensures result == value
  {
  }

  /** While the loop runs, the best score so far brackets the best child so far in the window the node was given. */
  predicate LoopInv(maximizing: bool, best: int, exact: int, alpha0: int, beta0: int, alpha: int, beta: int) {
    && Brackets(best, exact, alpha0, beta0)
    && alpha == RaisedAlpha(maximizing, alpha0, best)
    && beta == LoweredBeta(maximizing, beta0, best)
  }

  lemma LoopStep(maximizing: bool, best: int, exact: int, alpha0: int, beta0: int, alpha: int, beta: int,
                 score: int, child: int)
    requires alpha0 < beta0 && alpha < beta && LoopInv(maximizing, best, exact, alpha0, beta0, alpha, beta)
    requires Brackets(score, child, alpha, beta)
    ensures var best' := Better(maximizing, best, score);
      LoopInv(maximizing, best', Better(maximizing, exact, child), alpha0, beta0,
              RaisedAlpha(maximizing, alpha, best'), LoweredBeta(maximizing, beta, best'))
  {
  }

  /** A cut-off ignores the remaining moves; they can only push the value further out of the window. */
  lemma CutOff(maximizing: bool, best: int, exact: int, value: int, alpha0: int, beta0: int, alpha: int, beta: int)
    requires alpha0 < beta0 && beta <= alpha && LoopInv(maximizing, best, exact, alpha0, beta0, alpha, beta)
    requires AtLeastAsGood(maximizing, value, exact)
    ensures Brackets(best, value, alpha0, beta0)
  {
  }

  /** One turn of the move loop: the `k`-th move has been searched in the current window. */
  lemma OneMoreMove(maximizing: bool, scores: seq<int>, k: nat, best: int, alpha0: int, beta0: int,
                    alpha: int, beta: int, score: int)
    requires k < |scores| && alpha0 < beta0 && alpha < beta
    requires LoopInv(maximizing, best, Fold(maximizing, scores[..k]), alpha0, beta0, alpha, beta)
    requires Brackets(score, scores[k], alpha, beta)
    ensures var best' := Better(maximizing, best, score);
      LoopInv(maximizing, best', Fold(maximizing, scores[..k + 1]), alpha0, beta0,
              RaisedAlpha(maximizing, alpha, best'), LoweredBeta(maximizing, beta, best'))
  {
    FoldOneMore(maximizing, scores, k);
    LoopStep(maximizing, best, Fold(maximizing, scores[..k]), alpha0, beta0, alpha, beta, score, scores[k]);
  }

  /** The loop may stop after `n` moves, by a cut-off or because there are no more. */
  lemma LoopResult(maximizing: bool, scores: seq<int>, n: nat, best: int, alpha0: int, beta0: int,
                   alpha: int, beta: int)
    requires n <= |scores| && alpha0 < beta0 && (beta <= alpha || n == |scores|)
    requires LoopInv(maximizing, best, Fold(maximizing, scores[..n]), alpha0, beta0, alpha, beta)
    ensures Brackets(best, Fold(maximizing, scores), alpha0, beta0)
  {
    if n == |scores| {
      assert scores[..n] == scores;
    } else {
      MoreMovesAreNoWorse(maximizing, scores, n);
      CutOff(maximizing, best, Fold(maximizing, scores[..n]), Fold(maximizing, scores), alpha0, beta0, alpha, beta);
    }
  }

  // ----- the horizon: when the search meets the sentinel -----

  ghost predicate HorizonValue(v: int, free: nat, depth: nat, maximizing: bool) {
    if free >= depth then -900000000 <= v <= 900000000
    else v == Sentinel(if free % 2 == 0 then maximizing else !maximizing)
  }

  /** With a stone on the board, enough free cells for the depth give an ordinary score strictly between the
      sentinels; too few give exactly the sentinel of the side that is left without a move. */
  lemma {:induction false} Horizon(g: Grid, depth: nat, maximizing: bool)
    requires Stones(g) != {}
    ensures HorizonValue(Value(g, depth, maximizing, false), |FreeCells(g)|, depth, maximizing)
    decreases depth, 1
  {
    CandidatesAreFree(g);
    if depth > 0 && |FreeCells(g)| > 0 {
      var cs := Candidates(g);
      var p := FreeAndStoneGiveCandidate(g);
      assert p in cs;
      var next, scores := !maximizing, Scores(g, cs, depth, maximizing, false);
      HorizonOfMoves(g, cs, depth, maximizing, next);
      FoldOfHorizon(maximizing, next, scores, |FreeCells(g)|, depth);
    }
  }

  /** `next` is the other side's turn. */
  lemma {:induction false} HorizonOfMoves(g: Grid, cs: seq<Pos>, depth: nat, maximizing: bool, next: bool)
    requires depth > 0 && |FreeCells(g)| > 0 && next == !maximizing
    requires forall p :: p in cs ==> p in g && IsFree(g, p)
    ensures forall i :: 0 <= i < |cs| ==>
      HorizonValue(Scores(g, cs, depth, maximizing, false)[i], |FreeCells(g)| - 1, depth - 1, next)
    decreases depth, 0
  {
    forall i | 0 <= i < |cs|
      ensures HorizonValue(Scores(g, cs, depth, maximizing, false)[i], |FreeCells(g)| - 1, depth - 1, next)
    {
      HorizonOfMove(g, cs[i], Mover(maximizing), depth - 1, next, Play(g, cs[i], Mover(maximizing)));
    }
  }

  lemma {:induction false} HorizonOfMove(g: Grid, p: Pos, player: Cell, depth: nat, next: bool, h: Grid)
    requires IsFree(g, p) && |FreeCells(g)| > 0 && player != Empty && h == Play(g, p, player)
    ensures HorizonValue(Value(h, depth, next, false), |FreeCells(g)| - 1, depth, next)
    decreases depth, 2
  {
    PlacingLeavesAStone(g, p, player);
    Horizon(h, depth, next);
  }

  lemma PlacingLeavesAStone(g: Grid, p: Pos, player: Cell)
    requires IsFree(g, p) && player != Empty
    ensures Stones(Play(g, p, player)) != {}
    ensures |FreeCells(Play(g, p, player))| == |FreeCells(g)| - 1
  {
    PlacingMovesOneCell(g, p, player);
    assert p in Stones(Play(g, p, player));
  }

  lemma FoldOfHorizon(maximizing: bool, next: bool, s: seq<int>, free: nat, depth: nat)
    requires s != [] && depth > 0 && free > 0 && next == !maximizing
    requires forall i :: 0 <= i < |s| ==> HorizonValue(s[i], free - 1, depth - 1, next)
    ensures HorizonValue(Fold(maximizing, s), free, depth, maximizing)
  {
    FoldIsExtremum(maximizing, s);
    assert s[0] in s;
  }

  lemma CandidatesAreFree(g: Grid)
    ensures Candidates(g) != [] ==> FreeCells(g) != {}
  {
    if Candidates(g) != [] {
      assert Candidates(g)[0] in FreeCells(g);
    }
  }

  lemma FreeAndStoneGiveCandidate(g: Grid) returns (p: Pos)
    requires Stones(g) != {} && FreeCells(g) != {}
    ensures IsCandidate(g, p)
  {
    var stone :| stone in Stones(g);
    var free :| free in FreeCells(g);
    p := SomeCandidate(g, stone, free);
  }
}
