/**
 * Checkers: can the side to move capture something? A checker captures an enemy checker on a
 * diagonally adjacent square by jumping over it to the square just beyond, which must be on
 * the board and free.
 */
module Checkers {

  datatype Turn = White | Black

  /** A square: column `x` and row `y`, both counted from 1 on the board. */
  datatype Pos = Pos(x: int, y: int)

  datatype Board = Board(turn: Turn, width: int, height: int, whites: seq<Pos>, blacks: seq<Pos>)

  function Abs(n: int): nat
  {
    if n < 0 then -n else n
  }

  /** The two squares touch diagonally. */
  predicate IsNeighboringChecker(checker: Pos, possibleNeighbor: Pos)
    ensures IsNeighboringChecker(checker, possibleNeighbor) <==>
      Abs(checker.x - possibleNeighbor.x) == 1 && Abs(checker.y - possibleNeighbor.y) == 1
  {
    || (checker.x == possibleNeighbor.x - 1 && checker.y == possibleNeighbor.y - 1)
    || (checker.x == possibleNeighbor.x + 1 && checker.y == possibleNeighbor.y + 1)
    || (checker.x == possibleNeighbor.x - 1 && checker.y == possibleNeighbor.y + 1)
    || (checker.x == possibleNeighbor.x + 1 && checker.y == possibleNeighbor.y - 1)
  }

  /** No checker of either colour stands on the square. */
  predicate IsEmpty(board: Board, position: Pos)
    ensures IsEmpty(board, position) <==>
      && (forall i :: 0 <= i < |board.whites| ==> board.whites[i] != position)
      && (forall i :: 0 <= i < |board.blacks| ==> board.blacks[i] != position)
  {
    position !in board.whites && position !in board.blacks
  }

  /** The square lies on the board. */
  predicate IsInDesk(board: Board, position: Pos)
    ensures IsInDesk(board, position) <==> 1 <= position.x <= board.width && 1 <= position.y <= board.height
  {
    position.x <= board.width && position.y <= board.height && position.x > 0 && position.y > 0
  }

  /** The square reached by jumping from `checker` over `target`. */
  function Landing(checker: Pos, target: Pos): (l: Pos)
    ensures IsNeighboringChecker(checker, target) ==>
      IsNeighboringChecker(target, l) && l != checker && Abs(l.x - checker.x) == 2 && Abs(l.y - checker.y) == 2
  {
    var (dx, dy) := (target.x - checker.x, target.y - checker.y);
    Pos(target.x + dx, target.y + dy)
  }

  /** The jump from `checker` over `possibleTarget` lands on a free square of the board. */
  predicate CanBeatTarget(board: Board, checker: Pos, possibleTarget: Pos)
    ensures CanBeatTarget(board, checker, possibleTarget) <==>
      var (x, y) := (2 * possibleTarget.x - checker.x, 2 * possibleTarget.y - checker.y);
      && 1 <= x <= board.width && 1 <= y <= board.height
      && (forall i :: 0 <= i < |board.whites| ==> board.whites[i] != Pos(x, y))
      && (forall i :: 0 <= i < |board.blacks| ==> board.blacks[i] != Pos(x, y))
  {
    var next := Landing(checker, possibleTarget);
    IsInDesk(board, next) && IsEmpty(board, next)
  }

  /** Some enemy checker diagonally next to `checker` can be jumped. */
  predicate HasCheckerTarget(board: Board, checker: Pos, enemyCheckers: seq<Pos>)
    ensures HasCheckerTarget(board, checker, enemyCheckers) <==>
      exists i :: 0 <= i < |enemyCheckers| && IsNeighboringChecker(checker, enemyCheckers[i]) && CanBeatTarget(board, checker, enemyCheckers[i])
  {
    if |enemyCheckers| == 0 then false
    else
      var last := enemyCheckers[|enemyCheckers| - 1];
      || HasCheckerTarget(board, checker, enemyCheckers[..|enemyCheckers| - 1])
      || (IsNeighboringChecker(checker, last) && CanBeatTarget(board, checker, last))
  }

  /** The checkers of the side to move, and those of the other side. */
  function Sides(board: Board): (seq<Pos>, seq<Pos>)
  {
    if board.turn == White then (board.whites, board.blacks) else (board.blacks, board.whites)
  }

  /** Some checker of the side to move has a capture. */
  predicate HasTarget(board: Board)
    ensures HasTarget(board) <==>
      var (own, enemies) := Sides(board);
      exists i, j :: 0 <= i < |own| && 0 <= j < |enemies| &&
        IsNeighboringChecker(own[i], enemies[j]) && CanBeatTarget(board, own[i], enemies[j])
  {
    var (own, enemies) := Sides(board);
    AnyHasTarget(board, own, enemies)
  }

  /** Some checker among `own` has a target among `enemies`. */
  predicate AnyHasTarget(board: Board, own: seq<Pos>, enemies: seq<Pos>)
    ensures AnyHasTarget(board, own, enemies) <==> exists i :: 0 <= i < |own| && HasCheckerTarget(board, own[i], enemies)
  {
    if |own| == 0 then false
    else AnyHasTarget(board, own[..|own| - 1], enemies) || HasCheckerTarget(board, own[|own| - 1], enemies)
  }

  /** The answer to the puzzle: the side to move can capture. */
  predicate CanBeat(board: Board)
  {
    HasTarget(board)
  }

  /** The board with the colours exchanged and the other side to move. */
  function Mirror(board: Board): Board
  {
    board.(turn := if board.turn == White then Black else White, whites := board.blacks, blacks := board.whites)
  }

  /** Exchanging the colours together with the side to move does not change the answer: only
      who moves matters, not which colour it is. */
  lemma MirrorCanBeat(board: Board)
    ensures CanBeat(Mirror(board)) == CanBeat(board)
  {
    var m := Mirror(board);
    forall c, t ensures CanBeatTarget(m, c, t) == CanBeatTarget(board, c, t) {
      var l := Landing(c, t);
      assert IsEmpty(m, l) == IsEmpty(board, l);
    }
    var (own, enemies) := Sides(board);
    assert Sides(m) == (own, enemies);
    forall i | 0 <= i < |own| ensures HasCheckerTarget(m, own[i], enemies) == HasCheckerTarget(board, own[i], enemies) {
      assert forall j :: 0 <= j < |enemies| ==> CanBeatTarget(m, own[i], enemies[j]) == CanBeatTarget(board, own[i], enemies[j]);
    }
  }

  /** A side with no checkers cannot capture. */
  lemma NoCheckersNoCapture(board: Board)
    requires |Sides(board).0| == 0
    ensures !CanBeat(board)
  {
  }

  /** The sample position: white checkers on (7,7) and (5,5), a black one on (6,6), white to
      move on an 8 x 8 board. Both jumps over (6,6) land on an occupied square. */
  lemma SampleBoard()
    ensures !CanBeat(Board(White, 8, 8, [Pos(7, 7), Pos(5, 5)], [Pos(6, 6)]))
  {
    var board := Board(White, 8, 8, [Pos(7, 7), Pos(5, 5)], [Pos(6, 6)]);
    assert !IsEmpty(board, Pos(5, 5)) && !IsEmpty(board, Pos(7, 7));
    assert Landing(Pos(7, 7), Pos(6, 6)) == Pos(5, 5);
    assert Landing(Pos(5, 5), Pos(6, 6)) == Pos(7, 7);
  }
}
