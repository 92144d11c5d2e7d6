/** The Gomoku board as a value: lines, runs of stones and the static evaluation.
    The engine keeps one mutable board; everything it computes from that board is stated here. */
module GomokuBoard {

  const BOARD_SIZE := 15

  datatype Cell = Empty | AiStone | HumanStone

  datatype Pos = Pos(r: int, c: int)

  predicate InBoard(p: Pos) {
    0 <= p.r < BOARD_SIZE && 0 <= p.c < BOARD_SIZE
  }

  function Cells(): (s: set<Pos>)
    ensures forall p :: p in s <==> InBoard(p)
  {
    var s := set r, c | 0 <= r < BOARD_SIZE && 0 <= c < BOARD_SIZE :: Pos(r, c);
    assert forall p :: InBoard(p) ==> p == Pos(p.r, p.c);
    s
  }

  type Grid = g: map<Pos, Cell> | forall p :: p in g <==> InBoard(p)
    witness map p | p in Cells() :: Empty

  function EmptyGrid(): Grid { map p | p in Cells() :: Empty }

  predicate IsFree(g: Grid, p: Pos) { p in g && g[p] == Empty }

  predicate Holds(g: Grid, player: Cell, p: Pos) { p in g && g[p] == player }

  function Play(g: Grid, p: Pos, player: Cell): Grid
    requires p in g
  {
    g[p := player]
  }

  lemma TakingBack(g: Grid, p: Pos, player: Cell)
    requires p in g && g[p] == Empty
    ensures Play(g, p, player)[p := Empty] == g
  {
  }

  function Opponent(player: Cell): Cell {
    if player == HumanStone then AiStone else HumanStone
  }

  /** The cell `k` steps away from `p`: down, right, along the diagonal, along the anti-diagonal. */
  function At(p: Pos, dir: int, k: int): Pos {
    if dir == 0 then Pos(p.r + k, p.c)
    else if dir == 1 then Pos(p.r, p.c + k)
    else if dir == 2 then Pos(p.r + k, p.c + k)
    else Pos(p.r + k, p.c - k)
  }

  // ----- five in a row -----

  ghost predicate Window(g: Grid, player: Cell, start: Pos, dir: int) {
    forall k :: 0 <= k < 5 ==> Holds(g, player, At(start, dir, k))
  }

  ghost predicate HasFive(g: Grid, player: Cell) {
    exists start, dir :: 0 <= dir < 4 && Window(g, player, start, dir)
  }

  ghost predicate OnWindow(p: Pos, start: Pos, dir: int) {
    exists k :: 0 <= k < 5 && At(start, dir, k) == p
  }

  ghost predicate FiveThroughAlong(g: Grid, player: Cell, p: Pos, dir: int) {
    exists start :: OnWindow(p, start, dir) && Window(g, player, start, dir)
  }

  /** Some window of five stones of `player` contains `p`. */
  ghost predicate FiveThrough(g: Grid, player: Cell, p: Pos) {
    exists dir :: 0 <= dir < 4 && FiveThroughAlong(g, player, p, dir)
  }

  function Offset(back: bool, k: int): int { if back then -k else k }

  /** How many stones of `player` follow `p` without a gap from step `i` on, looking at most four steps away. */
  function Run(g: Grid, player: Cell, p: Pos, dir: int, back: bool, i: int): (n: int)
    requires 1 <= i <= 5
    ensures 0 <= n <= 5 - i
    ensures forall k :: i <= k < i + n ==> Holds(g, player, At(p, dir, Offset(back, k)))
    ensures n < 5 - i ==> !Holds(g, player, At(p, dir, Offset(back, i + n)))
    decreases 5 - i
  {
    if i < 5 && Holds(g, player, At(p, dir, Offset(back, i))) then 1 + Run(g, player, p, dir, back, i + 1) else 0
  }

  function LineCount(g: Grid, player: Cell, p: Pos, dir: int): (n: int)
    ensures 1 <= n <= 9
  {
    1 + Run(g, player, p, dir, true, 1) + Run(g, player, p, dir, false, 1)
  }

  lemma AtAt(p: Pos, dir: int, j: int, k: int)
    ensures At(At(p, dir, j), dir, k) == At(p, dir, j + k)
  {
  }

  lemma StoneOfTheRuns(g: Grid, player: Cell, p: Pos, dir: int, k: int)
    requires Holds(g, player, p)
    requires -Run(g, player, p, dir, true, 1) <= k <= Run(g, player, p, dir, false, 1)
    ensures Holds(g, player, At(p, dir, k))
  {
    if k < 0 {
      assert Holds(g, player, At(p, dir, Offset(true, -k)));
    } else if k > 0 {
      assert Holds(g, player, At(p, dir, Offset(false, k)));
    }
  }

  lemma FiveAround(g: Grid, player: Cell, p: Pos, dir: int, b: int)
    requires 0 <= b <= 4 && forall k :: -b <= k <= 4 - b ==> Holds(g, player, At(p, dir, k))
    ensures FiveThroughAlong(g, player, p, dir)
  {
    var start := At(p, dir, -b);
    forall k | 0 <= k < 5 ensures Holds(g, player, At(start, dir, k)) {
      AtAt(p, dir, -b, k);
    }
    assert Window(g, player, start, dir);
    assert OnWindow(p, start, dir) by {
      assert At(start, dir, b) == p;
    }
  }

  lemma LongRunsMakeAWindow(g: Grid, player: Cell, p: Pos, dir: int)
    requires Holds(g, player, p) && LineCount(g, player, p, dir) >= 5
    ensures FiveThroughAlong(g, player, p, dir)
  {
    var b := Run(g, player, p, dir, true, 1);
    forall k | -b <= k <= 4 - b ensures Holds(g, player, At(p, dir, k)) {
      StoneOfTheRuns(g, player, p, dir, k);
    }
    FiveAround(g, player, p, dir, b);
  }

  lemma AWindowMakesLongRuns(g: Grid, player: Cell, p: Pos, dir: int)
    requires FiveThroughAlong(g, player, p, dir)
    ensures LineCount(g, player, p, dir) >= 5
  {
    var start :| OnWindow(p, start, dir) && Window(g, player, start, dir);
    var o :| 0 <= o < 5 && At(start, dir, o) == p;
    var b, f := Run(g, player, p, dir, true, 1), Run(g, player, p, dir, false, 1);
    forall k | 1 <= k <= o ensures Holds(g, player, At(p, dir, Offset(true, k))) {
      AtAt(start, dir, o, -k);
      assert Holds(g, player, At(start, dir, o - k));
    }
    forall k | 1 <= k <= 4 - o ensures Holds(g, player, At(p, dir, Offset(false, k))) {
      AtAt(start, dir, o, k);
      assert Holds(g, player, At(start, dir, o + k));
    }
    assert b >= o && f >= 4 - o;
  }

  /** Counting outwards from a stone finds five exactly when a window of five contains the stone. */
  lemma LineCountIsFive(g: Grid, player: Cell, p: Pos, dir: int)
    requires Holds(g, player, p)
    ensures LineCount(g, player, p, dir) >= 5 <==> FiveThroughAlong(g, player, p, dir)
  {
    if LineCount(g, player, p, dir) >= 5 {
      LongRunsMakeAWindow(g, player, p, dir);
    }
    if FiveThroughAlong(g, player, p, dir) {
      AWindowMakesLongRuns(g, player, p, dir);
    }
  }

  /** A stone that completes no line of its own creates no line anywhere: looking at the last move is enough. */
  lemma OnlyLinesThroughTheLastStone(g: Grid, p: Pos, player: Cell, other: Cell)
    requires IsFree(g, p) && player != Empty && other != Empty && !HasFive(g, other)
    ensures HasFive(Play(g, p, player), other) <==> other == player && FiveThrough(Play(g, p, player), player, p)
  {
    var g' := Play(g, p, player);
    if start, dir :| 0 <= dir < 4 && Window(g', other, start, dir) {
      if k :| 0 <= k < 5 && At(start, dir, k) == p {
        assert Holds(g', other, At(start, dir, k));
        assert OnWindow(p, start, dir);
        assert FiveThroughAlong(g', player, p, dir);
      } else {
        assert forall k :: 0 <= k < 5 ==> Holds(g', other, At(start, dir, k));
        assert Window(g, other, start, dir);
      }
    }
  }

  /** A free cell that gives `player` five in a row at once. */
  ghost predicate WinningCell(g: Grid, player: Cell, p: Pos) {
    IsFree(g, p) && FiveThrough(Play(g, p, player), player, p)
  }

  /** An opposing stone takes winning cells away and never adds one. */
  lemma OpposingStoneAddsNoWin(g: Grid, w: Pos, player: Cell, p: Pos)
    requires IsFree(g, w) && player != Empty && WinningCell(Play(g, w, Opponent(player)), player, p)
    ensures p != w && WinningCell(g, player, p)
  {
    var h := Play(Play(g, w, Opponent(player)), p, player);
    var dir :| 0 <= dir < 4 && FiveThroughAlong(h, player, p, dir);
    var start :| OnWindow(p, start, dir) && Window(h, player, start, dir);
    assert forall k :: 0 <= k < 5 ==> Holds(h, player, At(start, dir, k));
    assert Window(Play(g, p, player), player, start, dir);
    assert FiveThroughAlong(Play(g, p, player), player, p, dir);
  }

  // ----- stones, free cells, neighbours -----

  function Stones(g: Grid): set<Pos> { set p | p in g && g[p] != Empty }

  function FreeCells(g: Grid): set<Pos> { set p | p in g && g[p] == Empty }

  lemma PlacingMovesOneCell(g: Grid, p: Pos, player: Cell)
    requires IsFree(g, p) && player != Empty
    ensures |Stones(Play(g, p, player))| == |Stones(g)| + 1
    ensures |FreeCells(g)| == |FreeCells(Play(g, p, player))| + 1
  {
    assert Stones(Play(g, p, player)) == Stones(g) + {p};
    assert FreeCells(g) == FreeCells(Play(g, p, player)) + {p};
  }

  lemma {:induction false} RowSize(s: set<Pos>, r: int, n: nat)
    requires forall p :: p in s <==> p.r == r && 0 <= p.c < n
    ensures |s| == n
  {
    if n > 0 {
      RowSize(s - {Pos(r, n - 1)}, r, n - 1);
    }
  }

  lemma {:induction false} RowsSize(s: set<Pos>, rows: nat)
    requires forall p :: p in s <==> 0 <= p.r < rows && 0 <= p.c < BOARD_SIZE
    ensures |s| == BOARD_SIZE * rows
  {
    if rows == 0 {
      assert s == {};
    } else {
      var last := set p | p in s && p.r == rows - 1;
      RowSize(last, rows - 1, BOARD_SIZE);
      var front := s - last;
      assert forall p :: p in front <==> p in s && p.r != rows - 1;
      RowsSize(front, rows - 1);
      assert s == front + last;
    }
  }

  lemma BoardHas225Cells()
    ensures |Cells()| == BOARD_SIZE * BOARD_SIZE
  {
    RowsSize(Cells(), BOARD_SIZE);
  }

  lemma StonesAndFreeCellsFillTheBoard(g: Grid)
    ensures |Stones(g)| + |FreeCells(g)| == BOARD_SIZE * BOARD_SIZE
  {
    BoardHas225Cells();
    assert Stones(g) + FreeCells(g) == Cells();
  }

  predicate Near(p: Pos, q: Pos) {
    p != q && -1 <= p.r - q.r <= 1 && -1 <= p.c - q.c <= 1
  }

  ghost predicate NearOccupied(g: Grid, p: Pos) {
    exists q :: q in g && Near(p, q) && g[q] != Empty
  }

  ghost predicate IsCandidate(g: Grid, p: Pos) {
    IsFree(g, p) && NearOccupied(g, p)
  }

  function Abs(x: int): nat { if x < 0 then -x else x }

  function Toward(from: int, to: int): int { if from < to then from + 1 else if from > to then from - 1 else from }

  /** The grid is connected under king moves: between a stone and a free cell lies a free cell next to a stone. */
  lemma {:induction false} SomeCandidate(g: Grid, stone: Pos, free: Pos) returns (p: Pos)
    requires stone in g && g[stone] != Empty && IsFree(g, free)
    ensures IsCandidate(g, p)
    decreases Abs(stone.r - free.r) + Abs(stone.c - free.c)
  {
    var next := Pos(Toward(stone.r, free.r), Toward(stone.c, free.c));
    if g[next] == Empty {
      assert Near(next, stone);
      p := next;
    } else {
      p := SomeCandidate(g, next, free);
    }
  }

  // ----- static evaluation -----

  datatype PatternType =
    | LiveOne | LiveTwo | LiveThree | LiveFour
    | BlockedOne | BlockedTwo | BlockedThree | BlockedFour
    | Five

  /** The score table. It has no entry for `BlockedOne`: looking that type up would throw. */
  function PatternScore(t: PatternType): (score: int)
    requires t != BlockedOne
    ensures 10 <= score <= 1000000
  {
    match t
    case LiveOne => 10
    case LiveTwo => 100
    case LiveThree => 1000
    case LiveFour => 100000
    case BlockedTwo => 50
    case BlockedThree => 500
    case BlockedFour => 50000
    case Five => 1000000
  }

  /** Whether the run of `player` from step `i` on is stopped by the border or by an opposing stone. */
  function Blocked(g: Grid, player: Cell, p: Pos, dir: int, back: bool): bool {
    var n := Run(g, player, p, dir, back, 1);
    n < 4 && !IsFree(g, At(p, dir, Offset(back, 1 + n)))
  }

  function PatternOf(count: int, live: bool): (t: PatternType)
    ensures t != BlockedOne && (t == Five <==> count >= 5)
  {
    if count >= 5 then Five
    else if count == 4 then if live then LiveFour else BlockedFour
    else if count == 3 then if live then LiveThree else BlockedThree
    else if count == 2 then if live then LiveTwo else BlockedTwo
    else LiveOne
  }

  function Pattern(g: Grid, player: Cell, p: Pos, dir: int): (t: PatternType)
    ensures t != BlockedOne
  {
    PatternOf(LineCount(g, player, p, dir),
              !Blocked(g, player, p, dir, true) && !Blocked(g, player, p, dir, false))
  }

  function LinesScore(g: Grid, player: Cell, p: Pos, dirs: nat): (s: int)
    requires dirs <= 4
    ensures 10 * dirs <= s <= 1000000 * dirs
  {
    if dirs == 0 then 0 else LinesScore(g, player, p, dirs - 1) + PatternScore(Pattern(g, player, p, dirs - 1))
  }

  function CellScore(g: Grid, player: Cell, p: Pos): (s: int)
    ensures 0 <= s <= 4000000
  {
    if Holds(g, player, p) then LinesScore(g, player, p, 4) else 0
  }

  /** The score of all cells before (r, c) in row-major order. */
  function ScoreBefore(g: Grid, player: Cell, r: nat, c: nat): (s: int)
    requires r <= BOARD_SIZE && c <= BOARD_SIZE
    ensures 0 <= s <= 4000000 * (BOARD_SIZE * r + c)
    decreases r, c, g
  {
    if c > 0 then ScoreBefore(g, player, r, c - 1) + CellScore(g, player, Pos(r, c - 1))
    else if r > 0 then ScoreBefore(g, player, r - 1, BOARD_SIZE)
    else 0
  }

  function Evaluation(g: Grid, player: Cell): (s: int)
    ensures 0 <= s <= 900000000
  {
    ScoreBefore(g, player, BOARD_SIZE, 0)
  }

  /** The evaluator and the win check agree on what a five is. */
  lemma FivePatternIsAWin(g: Grid, player: Cell, p: Pos)
    requires Holds(g, player, p)
    ensures FiveThrough(g, player, p) <==> exists dir :: 0 <= dir < 4 && Pattern(g, player, p, dir) == Five
  {
    forall dir ensures FiveThroughAlong(g, player, p, dir) <==> Pattern(g, player, p, dir) == Five {
      LineCountIsFive(g, player, p, dir);
    }
  }
}
