/** What the evaluation and the minimax value mean, told from the stones: lines in coordinates, patterns by the cells
    that make them, the score as a sum over stones, and the value as the best or worst of its successors. */
module GomokuEvaluation {
  import opened CIntegers
  import opened GomokuBoard
  import opened GomokuSearch

  // ----- lines and neighbours, in coordinates -----

  ghost predicate FiveCells(g: Grid, player: Cell, a: Pos, b: Pos, c: Pos, d: Pos, e: Pos) {
    Holds(g, player, a) && Holds(g, player, b) && Holds(g, player, c) && Holds(g, player, d) && Holds(g, player, e)
  }

  ghost predicate FiveInAColumn(g: Grid, player: Cell, r: int, c: int) {
    FiveCells(g, player, Pos(r, c), Pos(r + 1, c), Pos(r + 2, c), Pos(r + 3, c), Pos(r + 4, c))
  }

  ghost predicate FiveInARow(g: Grid, player: Cell, r: int, c: int) {
    FiveCells(g, player, Pos(r, c), Pos(r, c + 1), Pos(r, c + 2), Pos(r, c + 3), Pos(r, c + 4))
  }

  ghost predicate FiveDownRight(g: Grid, player: Cell, r: int, c: int) {
    FiveCells(g, player, Pos(r, c), Pos(r + 1, c + 1), Pos(r + 2, c + 2), Pos(r + 3, c + 3), Pos(r + 4, c + 4))
  }

  ghost predicate FiveDownLeft(g: Grid, player: Cell, r: int, c: int) {
    FiveCells(g, player, Pos(r, c), Pos(r + 1, c - 1), Pos(r + 2, c - 2), Pos(r + 3, c - 3), Pos(r + 4, c - 4))
  }

  ghost predicate FiveAlong(g: Grid, player: Cell, p: Pos, dir: int) {
    FiveCells(g, player, At(p, dir, 0), At(p, dir, 1), At(p, dir, 2), At(p, dir, 3), At(p, dir, 4))
  }

  lemma WindowIsFiveCells(g: Grid, player: Cell, p: Pos, dir: int)
    ensures Window(g, player, p, dir) <==> FiveAlong(g, player, p, dir)
  {
    if FiveAlong(g, player, p, dir) {
      forall k | 0 <= k < 5 ensures Holds(g, player, At(p, dir, k)) {
        if k == 0 {
        } else if k == 1 {
        } else if k == 2 {
        } else if k == 3 {
        } else {
          assert k == 4;
        }
      }
    }
  }

  ghost predicate FiveFrom(g: Grid, player: Cell, r: int, c: int) {
    FiveInAColumn(g, player, r, c) || FiveInARow(g, player, r, c)
    || FiveDownRight(g, player, r, c) || FiveDownLeft(g, player, r, c)
  }

  lemma SameFive(g: Grid, player: Cell, a: Pos, b: Pos, c: Pos, d: Pos, e: Pos, p: Pos, dir: int)
    requires a == At(p, dir, 0) && b == At(p, dir, 1) && c == At(p, dir, 2) && d == At(p, dir, 3) && e == At(p, dir, 4)
    ensures FiveAlong(g, player, p, dir) <==> FiveCells(g, player, a, b, c, d, e)
  {
  }

  lemma LinesFrom(g: Grid, player: Cell, r: int, c: int, dir: int)
    requires 0 <= dir < 4
    ensures FiveAlong(g, player, Pos(r, c), dir) <==>
      if dir == 0 then FiveInAColumn(g, player, r, c) else if dir == 1 then FiveInARow(g, player, r, c)
      else if dir == 2 then FiveDownRight(g, player, r, c) else FiveDownLeft(g, player, r, c)
  {
    var p := Pos(r, c);
    if dir == 0 {
      SameFive(g, player, p, Pos(r + 1, c), Pos(r + 2, c), Pos(r + 3, c), Pos(r + 4, c), p, dir);
    } else if dir == 1 {
      SameFive(g, player, p, Pos(r, c + 1), Pos(r, c + 2), Pos(r, c + 3), Pos(r, c + 4), p, dir);
    } else if dir == 2 {
      SameFive(g, player, p, Pos(r + 1, c + 1), Pos(r + 2, c + 2), Pos(r + 3, c + 3), Pos(r + 4, c + 4), p, dir);
    } else {
      SameFive(g, player, p, Pos(r + 1, c - 1), Pos(r + 2, c - 2), Pos(r + 3, c - 3), Pos(r + 4, c - 4), p, dir);
    }
  }

  lemma AlongALine(g: Grid, player: Cell, r: int, c: int)
    ensures FiveFrom(g, player, r, c) <==> exists dir :: 0 <= dir < 4 && FiveAlong(g, player, Pos(r, c), dir)
  {
    forall dir | 0 <= dir < 4 && FiveAlong(g, player, Pos(r, c), dir) ensures FiveFrom(g, player, r, c) {
      LinesFrom(g, player, r, c, dir);
    }
    if FiveFrom(g, player, r, c) {
      LinesFrom(g, player, r, c, 0);
      LinesFrom(g, player, r, c, 1);
      LinesFrom(g, player, r, c, 2);
      LinesFrom(g, player, r, c, 3);
      assert FiveAlong(g, player, Pos(r, c), 0) || FiveAlong(g, player, Pos(r, c), 1)
        || FiveAlong(g, player, Pos(r, c), 2) || FiveAlong(g, player, Pos(r, c), 3);
    }
  }

  /** A five is five stones in a column, a row or one of the two diagonals. */
  lemma FiveInCoordinates(g: Grid, player: Cell)
    ensures HasFive(g, player) <==> exists r, c :: FiveFrom(g, player, r, c)
  {
    if p, dir :| 0 <= dir < 4 && Window(g, player, p, dir) {
      WindowIsFiveCells(g, player, p, dir);
      assert p == Pos(p.r, p.c);
      AlongALine(g, player, p.r, p.c);
    }
    if r, c :| FiveFrom(g, player, r, c) {
      AlongALine(g, player, r, c);
      var dir :| 0 <= dir < 4 && FiveAlong(g, player, Pos(r, c), dir);
      WindowIsFiveCells(g, player, Pos(r, c), dir);
    }
  }

  lemma NearIsEightCells(p: Pos, q: Pos)
    ensures Near(p, q) <==> q in {
              Pos(p.r - 1, p.c - 1), Pos(p.r - 1, p.c), Pos(p.r - 1, p.c + 1), Pos(p.r, p.c - 1),
              Pos(p.r, p.c + 1), Pos(p.r + 1, p.c - 1), Pos(p.r + 1, p.c), Pos(p.r + 1, p.c + 1)}
  {
    if Near(p, q) {
      assert q == Pos(q.r, q.c);
    }
  }

  // ----- patterns -----

  lemma RunIs(g: Grid, player: Cell, p: Pos, dir: int, back: bool, n: nat)
    requires n < 4 && forall k :: 1 <= k <= n ==> Holds(g, player, At(p, dir, Offset(back, k)))
    requires !Holds(g, player, At(p, dir, Offset(back, n + 1)))
    ensures Run(g, player, p, dir, back, 1) == n
  {
    var m := Run(g, player, p, dir, back, 1);
    assert m < n ==> Holds(g, player, At(p, dir, Offset(back, 1 + m)));
  }

  lemma BlockedIs(g: Grid, player: Cell, p: Pos, dir: int, back: bool, n: nat, end: Pos)
    requires n < 4 && Run(g, player, p, dir, back, 1) == n && end == At(p, dir, Offset(back, 1 + n))
    ensures Blocked(g, player, p, dir, back) <==> !IsFree(g, end)
  {
  }

  lemma PatternFromCounts(g: Grid, player: Cell, p: Pos, dir: int, n: nat, live: bool)
    requires n < 4 && LineCount(g, player, p, dir) == 1 + n
    requires live <==> !Blocked(g, player, p, dir, true) && !Blocked(g, player, p, dir, false)
    ensures Pattern(g, player, p, dir) == PatternOf(1 + n, live)
  {
    if live {
    } else {
    }
  }

  /** The name of a run of one and `n` stones. */
  lemma NameOfARun(n: nat, live: bool)
    ensures n == 0 ==> PatternOf(1 + n, live) == LiveOne
    ensures n == 1 ==> PatternOf(1 + n, live) == if live then LiveTwo else BlockedTwo
    ensures n == 2 ==> PatternOf(1 + n, live) == if live then LiveThree else BlockedThree
    ensures n == 3 ==> PatternOf(1 + n, live) == if live then LiveFour else BlockedFour
  {
  }

  lemma LiveOrNot(g: Grid, player: Cell, p: Pos, dir: int, b: nat, f: nat, n: nat, back: Pos, ahead: Pos, live: bool)
    requires n == b + f < 4 && Run(g, player, p, dir, true, 1) == b && Run(g, player, p, dir, false, 1) == f
    requires back == At(p, dir, -(b as int) - 1) && ahead == At(p, dir, f + 1)
    requires live <==> IsFree(g, back) && IsFree(g, ahead)
    ensures Pattern(g, player, p, dir) == PatternOf(1 + n, live)
  {
    BlockedIs(g, player, p, dir, true, b, back);
    BlockedIs(g, player, p, dir, false, f, ahead);
    assert LineCount(g, player, p, dir) == 1 + n;
    PatternFromCounts(g, player, p, dir, n, live);
  }

  lemma RunsOfALine(g: Grid, player: Cell, p: Pos, dir: int, b: nat, f: nat)
    requires b < 4 && f < 4 && forall k: int :: -(b as int) <= k <= f ==> Holds(g, player, At(p, dir, k))
    requires !Holds(g, player, At(p, dir, -(b as int) - 1)) && !Holds(g, player, At(p, dir, f + 1))
    ensures Run(g, player, p, dir, true, 1) == b && Run(g, player, p, dir, false, 1) == f
  {
    forall k | 1 <= k <= b ensures Holds(g, player, At(p, dir, Offset(true, k))) {
      assert Holds(g, player, At(p, dir, -(k as int)));
    }
    RunIs(g, player, p, dir, true, b);
    RunIs(g, player, p, dir, false, f);
  }

  /** A run of fewer than five stones, `b` behind and `f` ahead of the stone, is named by its length, and is live
      exactly when the cells at both of its ends are free cells of the board. */
  lemma PatternOfARun(g: Grid, player: Cell, p: Pos, dir: int, b: nat, f: nat)
    requires b + f < 4 && forall k: int :: -(b as int) <= k <= f ==> Holds(g, player, At(p, dir, k))
    requires !Holds(g, player, At(p, dir, -(b as int) - 1)) && !Holds(g, player, At(p, dir, f + 1))
    ensures var live := IsFree(g, At(p, dir, -(b as int) - 1)) && IsFree(g, At(p, dir, f + 1));
      && (b + f == 0 ==> Pattern(g, player, p, dir) == LiveOne)
      && (b + f == 1 ==> Pattern(g, player, p, dir) == if live then LiveTwo else BlockedTwo)
      && (b + f == 2 ==> Pattern(g, player, p, dir) == if live then LiveThree else BlockedThree)
      && (b + f == 3 ==> Pattern(g, player, p, dir) == if live then LiveFour else BlockedFour)
  {
    RunsOfALine(g, player, p, dir, b, f);
    var live := IsFree(g, At(p, dir, -(b as int) - 1)) && IsFree(g, At(p, dir, f + 1));
    LiveOrNot(g, player, p, dir, b, f, b + f, At(p, dir, -(b as int) - 1), At(p, dir, f + 1), live);
    NameOfARun(b + f, live);
  }

  /** The scores: a longer run beats a shorter one, a live one a blocked one, and a five beats everything. */
  lemma ScoreTable()
    ensures PatternScore(LiveOne) == 10 && PatternScore(BlockedTwo) == 50 && PatternScore(LiveTwo) == 100
    ensures PatternScore(BlockedThree) == 500 && PatternScore(LiveThree) == 1000
    ensures PatternScore(BlockedFour) == 50000 && PatternScore(LiveFour) == 100000 && PatternScore(Five) == 1000000
  {
  }

  // ----- the score is a sum over the stones -----

  /** The pattern scores of the four lines through a stone. */
  function StonesWorth(g: Grid, player: Cell, p: Pos): (v: int)
    ensures v >= 40
  {
    PatternScore(Pattern(g, player, p, 0)) + PatternScore(Pattern(g, player, p, 1))
    + PatternScore(Pattern(g, player, p, 2)) + PatternScore(Pattern(g, player, p, 3))
  }

  function StonesOf(g: Grid, player: Cell): set<Pos> { set p | p in g && g[p] == player }

  /** What each stone of the player is worth. */
  function Worths(g: Grid, player: Cell): (w: map<Pos, int>)
    ensures w.Keys == StonesOf(g, player) && forall p :: p in w ==> w[p] >= 40
  {
    map p | p in StonesOf(g, player) :: StonesWorth(g, player, p)
  }

  ghost function Sum(w: map<Pos, int>, s: set<Pos>): int
    requires s <= w.Keys
  {
    if s == {} then 0 else var p :| p in s; w[p] + Sum(w, s - {p})
  }

  lemma {:induction false} SumWithout(w: map<Pos, int>, s: set<Pos>, q: Pos)
    requires s <= w.Keys && q in s
    ensures Sum(w, s) == w[q] + Sum(w, s - {q})
    decreases s
  {
    var p :| p in s && Sum(w, s) == w[p] + Sum(w, s - {p});
    if p != q {
      SumWithout(w, s - {p}, q);
      SumWithout(w, s - {q}, p);
      assert s - {p} - {q} == s - {q} - {p};
    }
  }

  lemma {:induction false} SumIsPositive(w: map<Pos, int>, s: set<Pos>)
    requires s <= w.Keys && forall p :: p in w ==> w[p] >= 40
    ensures Sum(w, s) >= 40 * |s|
    decreases s
  {
    if s != {} {
      var p :| p in s && Sum(w, s) == w[p] + Sum(w, s - {p});
      SumIsPositive(w, s - {p});
      assert |s| == |s - {p}| + 1;
    }
  }

  lemma CellScoreIsWorth(g: Grid, player: Cell, p: Pos)
    ensures CellScore(g, player, p) == if Holds(g, player, p) then StonesWorth(g, player, p) else 0
  {
    if Holds(g, player, p) {
      assert LinesScore(g, player, p, 1) == PatternScore(Pattern(g, player, p, 0));
      assert LinesScore(g, player, p, 2) == LinesScore(g, player, p, 1) + PatternScore(Pattern(g, player, p, 1));
      assert LinesScore(g, player, p, 3) == LinesScore(g, player, p, 2) + PatternScore(Pattern(g, player, p, 2));
      assert LinesScore(g, player, p, 4) == LinesScore(g, player, p, 3) + PatternScore(Pattern(g, player, p, 3));
    }
  }

  /** The stones before (r, c) in row-major order. */
  function Before(stones: set<Pos>, r: int, c: int): set<Pos> {
    set p | p in stones && (p.r < r || (p.r == r && p.c < c))
  }

  lemma OneCellFurther(w: map<Pos, int>, r: int, c: int)
    ensures Sum(w, Before(w.Keys, r, c))
      == Sum(w, Before(w.Keys, r, c - 1)) + if Pos(r, c - 1) in w then w[Pos(r, c - 1)] else 0
  {
    var p, s, t := Pos(r, c - 1), Before(w.Keys, r, c), Before(w.Keys, r, c - 1);
    if p in w {
      assert p in s && s - {p} == t;
      SumWithout(w, s, p);
    } else {
      assert s == t;
    }
  }

  lemma NextRow(w: map<Pos, int>, r: int)
    requires forall p :: p in w ==> InBoard(p)
    ensures Before(w.Keys, r, 0) == Before(w.Keys, r - 1, BOARD_SIZE)
  {
  }

  lemma ScoreOneCellFurther(g: Grid, player: Cell, r: nat, c: nat, w: map<Pos, int>)
    requires r <= BOARD_SIZE && 0 < c <= BOARD_SIZE && w == Worths(g, player)
    ensures ScoreBefore(g, player, r, c)
      == ScoreBefore(g, player, r, c - 1) + if Pos(r, c - 1) in w then w[Pos(r, c - 1)] else 0
  {
    CellScoreIsWorth(g, player, Pos(r, c - 1));
  }

  lemma {:induction false} ScoreBeforeIsASum(g: Grid, player: Cell, r: nat, c: nat, w: map<Pos, int>)
    requires r <= BOARD_SIZE && c <= BOARD_SIZE && w == Worths(g, player)
    ensures ScoreBefore(g, player, r, c) == Sum(w, Before(w.Keys, r, c))
    decreases r, c
  {
    if c > 0 {
      ScoreBeforeIsASum(g, player, r, c - 1, w);
      ScoreOneCellFurther(g, player, r, c, w);
      OneCellFurther(w, r, c);
    } else if r > 0 {
      ScoreBeforeIsASum(g, player, r - 1, BOARD_SIZE, w);
      NextRow(w, r);
    } else {
      assert Before(w.Keys, 0, 0) == {};
    }
  }

  /** The evaluation adds up what the stones of the player are worth. */
  lemma EvaluationIsASum(g: Grid, player: Cell)
    ensures Evaluation(g, player) == Sum(Worths(g, player), StonesOf(g, player))
  {
    var w := Worths(g, player);
    ScoreBeforeIsASum(g, player, BOARD_SIZE, 0, w);
    assert Before(w.Keys, BOARD_SIZE, 0) == w.Keys;
  }

  lemma EvaluationBounds(g: Grid, player: Cell)
    ensures Evaluation(g, player) >= 40 * |StonesOf(g, player)|
    ensures StonesOf(g, player) == {} ==> Evaluation(g, player) == 0
  {
    EvaluationIsASum(g, player);
    SumIsPositive(Worths(g, player), StonesOf(g, player));
  }

  // ----- the leaf: good for the AI is positive -----

  lemma OnlyOneSide(g: Grid, p: Pos, player: Cell, other: Cell)
    requires Holds(g, player, p) && forall q :: q in g ==> g[q] != other
    ensures Evaluation(g, player) >= 40 && Evaluation(g, other) == 0
  {
    EvaluationBounds(g, player);
    EvaluationBounds(g, other);
    assert p in StonesOf(g, player);
    assert StonesOf(g, other) == {};
  }

  /** Stones of the AI alone make a leaf positive, stones of the human alone make it negative. */
  lemma LeafSign(g: Grid, p: Pos)
    requires p in g
    ensures g[p] == AiStone && (forall q :: q in g ==> g[q] != HumanStone) ==> Leaf(g) >= 40
    ensures g[p] == HumanStone && (forall q :: q in g ==> g[q] != AiStone) ==> Leaf(g) <= -40
  {
    if g[p] == AiStone && forall q :: q in g ==> g[q] != HumanStone {
      OnlyOneSide(g, p, AiStone, HumanStone);
    } else if g[p] == HumanStone && forall q :: q in g ==> g[q] != AiStone {
      OnlyOneSide(g, p, HumanStone, AiStone);
    }
  }

  /** In general: the leaf is what the AI's stones are worth less what the human's are. */
  lemma LeafIsADifference(g: Grid)
    ensures Leaf(g)
      == Sum(Worths(g, AiStone), StonesOf(g, AiStone)) - Sum(Worths(g, HumanStone), StonesOf(g, HumanStone))
  {
    EvaluationIsASum(g, AiStone);
    EvaluationIsASum(g, HumanStone);
  }

  // ----- the value: the best for the AI, the worst for the AI, in turn -----

  /** The search ends at depth zero, or at once when the game is over. */
  lemma ValueAtTheEnd(g: Grid, maximizing: bool, depth: nat)
    ensures Value(g, 0, maximizing, false) == Leaf(g) && Value(g, depth, maximizing, true) == Leaf(g)
  {
  }

  lemma ScoreOfCandidate(g: Grid, depth: nat, maximizing: bool, next: bool, p: Pos, stone: Cell) returns (v: int)
    requires depth > 0 && IsCandidate(g, p) && next == !maximizing
    requires stone == if maximizing then AiStone else HumanStone
    ensures v == Value(g[p := stone], depth - 1, next, false)
    ensures v in Scores(g, Candidates(g), depth, maximizing, false)
  {
    var cs, scores := Candidates(g), Scores(g, Candidates(g), depth, maximizing, false);
    assert p in cs;
    var k :| 0 <= k < |cs| && cs[k] == p;
    ScoreOfMove(g, cs, depth, maximizing, next, scores, k);
    assert g[p := stone] == Play(g, cs[k], Mover(maximizing));
    v := scores[k];
    assert v in scores;
  }

  lemma CandidateOfScore(g: Grid, depth: nat, maximizing: bool, next: bool, stone: Cell, v: int) returns (p: Pos)
    requires depth > 0 && next == !maximizing && stone == if maximizing then AiStone else HumanStone
    requires v in Scores(g, Candidates(g), depth, maximizing, false)
    ensures IsCandidate(g, p) && v == Value(g[p := stone], depth - 1, next, false)
  {
    var cs, scores := Candidates(g), Scores(g, Candidates(g), depth, maximizing, false);
    var k :| 0 <= k < |scores| && scores[k] == v;
    ScoreOfMove(g, cs, depth, maximizing, next, scores, k);
    p := cs[k];
    assert p in cs;
    assert g[p := stone] == Play(g, cs[k], Mover(maximizing));
  }

  lemma FoldIsOneOfThem(maximizing: bool, scores: seq<int>, v: int)
    requires v in scores && forall s :: s in scores ==> INT_MIN <= s <= INT_MAX
    ensures AtLeastAsGood(maximizing, Fold(maximizing, scores), v) && Fold(maximizing, scores) in scores
  {
    FoldIsExtremum(maximizing, scores);
  }

  lemma ValueIsOneOfThem(g: Grid, depth: nat, maximizing: bool, v: int) returns (value: int)
    requires depth > 0 && v in Scores(g, Candidates(g), depth, maximizing, false)
    ensures value == Value(g, depth, maximizing, false) && AtLeastAsGood(maximizing, value, v)
    ensures value in Scores(g, Candidates(g), depth, maximizing, false)
  {
    var scores := Scores(g, Candidates(g), depth, maximizing, false);
    ScoresFitInt(g, Candidates(g), depth, maximizing, false);
    FoldIsOneOfThem(maximizing, scores, v);
    value := Fold(maximizing, scores);
  }

  /** The value is that behind one of the candidates, and no worse for the side to move than that behind `p`. */
  lemma ValueIsTheBest(g: Grid, depth: nat, maximizing: bool, next: bool, stone: Cell, p: Pos)
    returns (value: int, v: int, best: Pos)
    requires depth > 0 && IsCandidate(g, p) && next == !maximizing
    requires stone == if maximizing then AiStone else HumanStone
    ensures value == Value(g, depth, maximizing, false) && v == Value(g[p := stone], depth - 1, next, false)
    ensures AtLeastAsGood(maximizing, value, v)
    ensures IsCandidate(g, best) && value == Value(g[best := stone], depth - 1, next, false)
  {
    v := ScoreOfCandidate(g, depth, maximizing, next, p, stone);
    value := ValueIsOneOfThem(g, depth, maximizing, v);
    best := CandidateOfScore(g, depth, maximizing, next, stone, value);
  }

  /** On the AI's turn the value is the greatest value behind an AI stone on a candidate cell. */
  lemma AiTurnIsTheGreatest(g: Grid, depth: nat, p: Pos) returns (value: int, v: int, best: Pos)
    requires depth > 0 && IsCandidate(g, p)
    ensures value == Value(g, depth, true, false) && v == Value(g[p := AiStone], depth - 1, false, false)
    ensures value >= v
    ensures IsCandidate(g, best) && value == Value(g[best := AiStone], depth - 1, false, false)
  {
    value, v, best := ValueIsTheBest(g, depth, true, false, AiStone, p);
  }

  /** On the human's turn it is the least value behind a human stone on a candidate cell. */
  lemma HumanTurnIsTheLeast(g: Grid, depth: nat, p: Pos) returns (value: int, v: int, best: Pos)
    requires depth > 0 && IsCandidate(g, p)
    ensures value == Value(g, depth, false, false) && v == Value(g[p := HumanStone], depth - 1, true, false)
    ensures value <= v
    ensures IsCandidate(g, best) && value == Value(g[best := HumanStone], depth - 1, true, false)
  {
    value, v, best := ValueIsTheBest(g, depth, false, true, HumanStone, p);
  }

  /** Without a candidate the side to move gets the worst value an `int` can hold. */
  lemma NoCandidateIsTheSentinel(g: Grid, depth: nat)
    requires depth > 0 && forall p :: !IsCandidate(g, p)
    ensures Value(g, depth, true, false) == -0x8000_0000 && Value(g, depth, false, false) == 0x7FFF_FFFF
  {
    SomeMember(Candidates(g));
  }

  lemma SomeMember(cs: seq<Pos>)
    ensures cs != [] ==> exists p :: p in cs
  {
    if cs != [] {
      assert cs[0] in cs;
    }
  }
}
