/**
 * Gomoku on a 15x15 mailbox: each move drops the mover's stone on an empty square, and five
 * stones of one side in a row (up, right, up-right or up-left) win.
 *
 * `Position` is the position as a value and `Make`/`Undo`/`Result` are the rules on it; the
 * class `GomokuPosition` keeps the board in a `Mailbox` and updates it in place, and each of
 * its methods is proved against the function of the same rule.
 */
module Gomoku {
  import opened Wrappers
  import opened GameRules
  import opened Mailboxes

  /** Cells indexed `board[x][y]`; the board is 15 files by 15 ranks. */
  type Board = Grid<Option<Side>>

  datatype Position = Position(board: Board, turn: Side, fullmoves: int)

  /** A `Square<15, 15>`: file `sq % 15`, rank `sq / 15`. */
  type Move = nat

  predicate WellFormed(p: Position)
  {
    IsGrid(15, 15, p.board)
  }

  /** The cell of square `sq`. */
  function Cell(b: Board, sq: Move): Option<Side>
    requires IsGrid(15, 15, b) && sq < 225
  {
    b[sq % 15][sq / 15]
  }

  /** Distinct squares lie on distinct cells. */
  lemma CellsDistinct(a: Move, c: Move)
    requires a < 225 && c < 225 && a != c
    ensures (a % 15, a / 15) != (c % 15, c / 15)
  {
  }

  /** `startpos`: an empty board, Player1 to move, fullmoves 1. */
  function Start(): (p: Position)
    ensures WellFormed(p)
  {
    Position(Uniform(15, 15, None), Player1, 1)
  }

  /** The empty squares below `n`, in increasing order: what the generator yields from the first `n` squares. */
  function EmptyBelow(b: Board, n: nat): seq<Move>
    requires IsGrid(15, 15, b) && n <= 225
  {
    if n == 0 then [] else EmptyBelow(b, n - 1) + (if Cell(b, n - 1) == None then [n - 1] else [])
  }

  /** `move_generator`: every square of the board in index order, skipping the occupied ones. */
  function Moves(p: Position): seq<Move>
  {
    if WellFormed(p) then EmptyBelow(p.board, 225) else []
  }

  /** `makemove`: the mover's stone on `m`, the turn passes, fullmoves counts Player1's turns. */
  function Make(p: Position, m: Move): Position
  {
    if WellFormed(p) && m < 225 then
      var t := Flip(p.turn);
      Position(Update(p.board, m % 15, m / 15, Some(p.turn)), t, p.fullmoves + if t == Player1 then 1 else 0)
    else p
  }

  /** `undomove`: square `m` empty again, the turn passes back, fullmoves restored. */
  function Undo(p: Position, m: Move): Position
  {
    if WellFormed(p) && m < 225 then
      var t := Flip(p.turn);
      Position(Update(p.board, m % 15, m / 15, None), t, p.fullmoves - if t == Player2 then 1 else 0)
    else p
  }

  /** The four directions `get_result` looks in, in the order it looks. */
  datatype Direction = Up | Right | UpRight | UpLeft

  function DX(d: Direction): int
  {
    match d
    case Up => 0
    case Right => 1
    case UpRight => 1
    case UpLeft => -1
  }

  function DY(d: Direction): int
  {
    if d == Right then 0 else 1
  }

  /** `streak::<5, DX, DY>(x, y)`: as written when `asWritten`, else the corrected count. */
  function StreakIn(b: Board, x: int, y: int, d: Direction, asWritten: bool): nat
    requires IsGrid(15, 15, b) && OnBoard(15, 15, x, y)
  {
    if asWritten then StreakAsWritten(15, 15, b, x, y, DX(d), DY(d), 5)
    else Streak(15, 15, b, x, y, DX(d), DY(d), 5)
  }

  /** The test `get_result` makes at cell (x, y): a stone, and a streak of 5 in one of the four directions. */
  predicate WinsAt(b: Board, x: int, y: int, asWritten: bool)
    requires IsGrid(15, 15, b) && OnBoard(15, 15, x, y)
  {
    b[x][y] != None && FiveStreak(b, x, y, asWritten)
  }

  /** A streak of 5 from (x, y) in one of the four directions. */
  predicate FiveStreak(b: Board, x: int, y: int, asWritten: bool)
    requires IsGrid(15, 15, b) && OnBoard(15, 15, x, y)
  {
    StreakIn(b, x, y, Up, asWritten) == 5 || StreakIn(b, x, y, Right, asWritten) == 5 ||
    StreakIn(b, x, y, UpRight, asWritten) == 5 || StreakIn(b, x, y, UpLeft, asWritten) == 5
  }

  /** The scan of `get_result` from cell (x, y) on: rank by rank, file by file, the first cell that wins. */
  function ScanFrom(b: Board, x: nat, y: nat, asWritten: bool): Option<GameResult>
    requires IsGrid(15, 15, b) && x <= 15 && y <= 15
    decreases 15 - y, 15 - x
  {
    if y == 15 then None
    else if x == 15 then ScanFrom(b, 0, y + 1, asWritten)
    else if WinsAt(b, x, y, asWritten) then Some(Win(b[x][y].value))
    else ScanFrom(b, x + 1, y, asWritten)
  }

  /** `get_result` with the corrected streak: the result the rest of the model uses. */
  function ResultOf(p: Position): Option<GameResult>
  {
    if WellFormed(p) then ScanFrom(p.board, 0, 0, false) else None
  }

  /** `get_result` as written, with `streak` counting stones beyond a gap. */
  function ResultOfAsWritten(p: Position): Option<GameResult>
  {
    if WellFormed(p) then ScanFrom(p.board, 0, 0, true) else None
  }

  /** Gomoku keeps the default `count_moves` and `is_gameover`. */
  function Rules(): Game<Position, Move>
  {
    Game(Moves, p => |Moves(p)|, Make, Undo, ResultOf, p => ResultOf(p).Some?, (p: Position) => p.turn, WellFormed)
  }

  // ---------------------------------------------------------------------------------------
  // The generator

  lemma {:induction false} EmptyBelowMembers(b: Board, n: nat, m: Move)
    requires IsGrid(15, 15, b) && n <= 225
    ensures m in EmptyBelow(b, n) <==> m < n && Cell(b, m) == None
  {
    if n > 0 {
      EmptyBelowMembers(b, n - 1, m);
    }
  }

  /** The generator yields exactly the empty squares of the board. */
  lemma MovesAreEmptySquares(p: Position, m: Move)
    requires WellFormed(p)
    ensures m in Moves(p) <==> m < 225 && Cell(p.board, m) == None
  {
    EmptyBelowMembers(p.board, 225, m);
  }

  lemma {:induction false} EmptyBelowInOrder(b: Board, n: nat)
    requires IsGrid(15, 15, b) && n <= 225
    ensures forall i, j :: 0 <= i < j < |EmptyBelow(b, n)| ==> EmptyBelow(b, n)[i] < EmptyBelow(b, n)[j]
  {
    if n > 0 {
      EmptyBelowInOrder(b, n - 1);
      var ms := EmptyBelow(b, n - 1);
      forall i | 0 <= i < |ms|
        ensures ms[i] < n - 1
      {
        EmptyBelowMembers(b, n - 1, ms[i]);
      }
    }
  }

  /** The generator yields the squares in increasing index order, each once. */
  lemma MovesInOrder(p: Position)
    requires WellFormed(p)
    ensures forall i, j :: 0 <= i < j < |Moves(p)| ==> Moves(p)[i] < Moves(p)[j]
  {
    EmptyBelowInOrder(p.board, 225);
  }

  // ---------------------------------------------------------------------------------------
  // Make and undo

  /** `undomove` reverses `makemove` of a generated move. */
  lemma MakeUndo(p: Position, m: Move)
    requires WellFormed(p) && m in Moves(p)
    ensures WellFormed(Make(p, m)) && Undo(Make(p, m), m) == p
  {
    MovesAreEmptySquares(p, m);
    var x, y := m % 15, m / 15;
    GetAfterSet(15, 15, p.board, x, y, Some(p.turn));
    var b' := Update(p.board, x, y, Some(p.turn));
    GetAfterSet(15, 15, b', x, y, None);
    var b'' := Update(b', x, y, None);
    assert forall i | 0 <= i < 15 :: b''[i] == p.board[i];
  }

  /** After `makemove` the stone stands on `m`, the turn has passed and fullmoves went up after Player2's move. */
  lemma MakePlaces(p: Position, m: Move)
    requires WellFormed(p) && m < 225 && Cell(p.board, m) == None
    ensures var q := Make(p, m);
      WellFormed(q) && Cell(q.board, m) == Some(p.turn) && q.turn != p.turn &&
      q.fullmoves == p.fullmoves + (if p.turn == Player2 then 1 else 0) &&
      forall sq :: sq < 225 && sq != m ==> Cell(q.board, sq) == Cell(p.board, sq)
  {
    GetAfterSet(15, 15, p.board, m % 15, m / 15, Some(p.turn));
    forall sq | sq < 225 && sq != m
      ensures Cell(Make(p, m).board, sq) == Cell(p.board, sq)
    {
      CellsDistinct(sq, m);
    }
  }

  lemma RulesReversible()
    ensures Reversible(Rules())
  {
    forall p, m | WellFormed(p) && m in Moves(p)
      ensures WellFormed(Make(p, m)) && Undo(Make(p, m), m) == p
    {
      MakeUndo(p, m);
    }
  }

  lemma RulesCountsAgree()
    ensures CountsAgree(Rules())
  {
  }

  lemma RulesGameoverAgrees()
    ensures GameoverAgrees(Rules())
  {
  }

  // ---------------------------------------------------------------------------------------
  // Perft

  lemma {:induction false} EmptyBelowAfterMake(b: Board, m: Move, s: Side, n: nat)
    requires IsGrid(15, 15, b) && m < 225 && Cell(b, m) == None && n <= 225
    ensures |EmptyBelow(Update(b, m % 15, m / 15, Some(s)), n)| + (if m < n then 1 else 0) == |EmptyBelow(b, n)|
  {
    if n > 0 {
      EmptyBelowAfterMake(b, m, s, n - 1);
      GetAfterSet(15, 15, b, m % 15, m / 15, Some(s));
      if n - 1 != m {
        CellsDistinct(n - 1, m);
      }
    }
  }

  /** Each move fills one empty square. */
  lemma MovesAfterMake(p: Position, m: Move)
    requires WellFormed(p) && m in Moves(p)
    ensures WellFormed(Make(p, m)) && |Moves(Make(p, m))| == |Moves(p)| - 1
  {
    MovesAreEmptySquares(p, m);
    EmptyBelowAfterMake(p.board, m, p.turn, 225);
  }

  lemma {:induction false} PerftIsFalling(p: Position, d: nat)
    requires WellFormed(p)
    ensures PerftCount(Rules(), p, d) == Falling(|Moves(p)|, d)
    decreases d, 1
  {
    if d > 1 {
      SumPerftIsFalling(p, Moves(p), d - 1);
      assert |Moves(p)| * Falling(|Moves(p)| - 1, d - 1) == Falling(|Moves(p)|, d);
    }
  }

  lemma {:induction false} SumPerftIsFalling(p: Position, ms: seq<Move>, d: nat)
    requires WellFormed(p) && forall m :: m in ms ==> m in Moves(p)
    ensures |ms| > 0 ==> |Moves(p)| > 0
    ensures SumPerft(Rules(), p, ms, d) == |ms| * Falling(|Moves(p)| - 1, d)
    decreases d + 1, 0, |ms|
  {
    if ms != [] {
      var rest, last := ms[..|ms| - 1], ms[|ms| - 1];
      assert forall m :: m in rest ==> m in ms;
      SumPerftIsFalling(p, rest, d);
      assert last in Moves(p);
      MovesAfterMake(p, last);
      PerftIsFalling(Make(p, last), d);
      var f := Falling(|Moves(p)| - 1, d);
      assert SumPerft(Rules(), p, ms, d) == SumPerft(Rules(), p, rest, d) + PerftCount(Rules(), Make(p, last), d);
      MulSucc(|rest|, f);
    }
  }

  lemma {:induction false} EmptyBelowAll(n: nat)
    requires n <= 225
    ensures |EmptyBelow(Uniform(15, 15, None), n)| == n
  {
    if n > 0 {
      EmptyBelowAll(n - 1);
      UniformAt<Option<Side>>(15, 15, None, (n - 1) % 15, (n - 1) / 15);
    }
  }

  /** Perft from the start: 1, 225, 50400 and 11239200 at depths 0 to 3, and in general 225!/(225-d)!. */
  lemma StartPerft(d: nat)
    ensures PerftCount(Rules(), Start(), d) == Falling(225, d)
    ensures d == 0 ==> PerftCount(Rules(), Start(), d) == 1
    ensures d == 1 ==> PerftCount(Rules(), Start(), d) == 225
    ensures d == 2 ==> PerftCount(Rules(), Start(), d) == 50400
    ensures d == 3 ==> PerftCount(Rules(), Start(), d) == 11239200
  {
    EmptyBelowAll(225);
    PerftIsFalling(Start(), d);
    assert Falling(223, 1) == 223 * Falling(222, 0) == 223;
    assert Falling(224, 2) == 224 * Falling(223, 1) == 49952;
    assert Falling(225, 3) == 225 * Falling(224, 2) == 11239200;
    assert Falling(225, 2) == 225 * Falling(224, 1) == 50400;
  }

  // ---------------------------------------------------------------------------------------
  // The result

  /** Five stones of side `s` in a row from (x, y) in direction `d`. */
  ghost predicate FiveFrom(b: Board, x: int, y: int, d: Direction, s: Side)
    requires IsGrid(15, 15, b)
  {
    OnBoard(15, 15, x, y) && b[x][y] == Some(s) && RowOf(15, 15, b, x, y, DX(d), DY(d), Some(s), 1, 4)
  }

  /** Side `s` has five in a row somewhere on the board. */
  ghost predicate HasFive(b: Board, s: Side)
    requires IsGrid(15, 15, b)
  {
    exists x: int, y: int, d: Direction :: FiveFrom(b, x, y, d, s)
  }

  /** A streak of 5 from a stone is five in a row. */
  lemma FiveOfStreak(b: Board, x: int, y: int, d: Direction)
    requires IsGrid(15, 15, b) && OnBoard(15, 15, x, y) && b[x][y] != None
    requires StreakIn(b, x, y, d, false) == 5
    ensures FiveFrom(b, x, y, d, b[x][y].value)
  {
    StreakReaches(15, 15, b, x, y, DX(d), DY(d), 5, 4);
  }

  /** How far (x, y) lies along direction `d`. */
  function Progress(x: int, y: int, d: Direction): int
  {
    if d == Right || d == UpRight then x else y
  }

  /**
   * Five in a row leads, further along the same line, to a stone whose corrected streak is
   * exactly 5: the last five stones of the run (the count is capped at 6).
   */
  lemma {:induction false} ExactFive(b: Board, x: int, y: int, d: Direction, s: Side) returns (x': int, y': int)
    requires IsGrid(15, 15, b) && FiveFrom(b, x, y, d, s)
    ensures OnBoard(15, 15, x', y') && b[x'][y'] == Some(s) && StreakIn(b, x', y', d, false) == 5
    decreases 15 - Progress(x, y, d)
  {
    var dx, dy := DX(d), DY(d);
    StreakReaches(15, 15, b, x, y, dx, dy, 5, 4);
    StreakBelowAsWritten(15, 15, b, x, y, dx, dy, 5);
    if StreakIn(b, x, y, d, false) == 5 {
      return x, y;
    }
    StreakReaches(15, 15, b, x, y, dx, dy, 5, 5);
    FiveFurther(b, x, y, d, s);
    x', y' := ExactFive(b, x + dx, y + dy, d, s);
  }

  /** Six in a row from (x, y) is five in a row from the next cell. */
  lemma FiveFurther(b: Board, x: int, y: int, d: Direction, s: Side)
    requires IsGrid(15, 15, b) && OnBoard(15, 15, x, y)
    requires RowOf(15, 15, b, x, y, DX(d), DY(d), Some(s), 1, 5)
    ensures FiveFrom(b, x + DX(d), y + DY(d), d, s)
    ensures Progress(x + DX(d), y + DY(d), d) == Progress(x, y, d) + 1
  {
    var dx, dy := DX(d), DY(d);
    assert OnBoard(15, 15, x + dx * 1, y + dy * 1) && b[x + dx * 1][y + dy * 1] == Some(s);
    RowShift(15, 15, b, x, y, dx, dy, Some(s), 4);
  }

  /** A stone with a corrected streak of 5 in any direction is a cell `get_result` stops at. */
  lemma WinsAtOfStreak(b: Board, x: int, y: int, d: Direction)
    requires IsGrid(15, 15, b) && OnBoard(15, 15, x, y) && b[x][y] != None && StreakIn(b, x, y, d, false) == 5
    ensures WinsAt(b, x, y, false)
  {
  }

  /** The scan from (x, y) stops at or before a winning cell (cx, cy) that lies ahead of it. */
  lemma {:induction false} ScanFromFinds(b: Board, x: nat, y: nat, cx: nat, cy: nat)
    requires IsGrid(15, 15, b) && x <= 15 && cx < 15 && cy < 15 && WinsAt(b, cx, cy, false)
    requires y < cy || (y == cy && x <= cx)
    ensures ScanFrom(b, x, y, false).Some?
    decreases 15 - y, 15 - x
  {
    if x == 15 {
      ScanFromFinds(b, 0, y + 1, cx, cy);
    } else if (x, y) != (cx, cy) {
      ScanFromFinds(b, x + 1, y, cx, cy);
    }
  }

  /** Whatever the scan reports is a win for a side with five in a row. */
  lemma {:induction false} ScanFromSound(b: Board, x: nat, y: nat)
    requires IsGrid(15, 15, b) && x <= 15 && y <= 15
    ensures ScanFrom(b, x, y, false).Some? ==> ScanFrom(b, x, y, false).value.Win? && HasFive(b, ScanFrom(b, x, y, false).value.winner)
    decreases 15 - y, 15 - x
  {
    if y < 15 {
      if x == 15 {
        ScanFromSound(b, 0, y + 1);
      } else if WinsAt(b, x, y, false) {
        var d :| StreakIn(b, x, y, d, false) == 5;
        FiveOfStreak(b, x, y, d);
      } else {
        ScanFromSound(b, x + 1, y);
      }
    }
  }

  /**
   * `get_result` (corrected): a result exactly when some side has five in a row, and then
   * that side wins.
   */
  lemma ResultIsFive(p: Position)
    requires WellFormed(p)
    ensures ResultOf(p).Some? <==> HasFive(p.board, Player1) || HasFive(p.board, Player2)
    ensures ResultOf(p).Some? ==> ResultOf(p).value.Win? && HasFive(p.board, ResultOf(p).value.winner)
  {
    ScanFromSound(p.board, 0, 0);
    if ResultOf(p).Some? {
      var w := ResultOf(p).value.winner;
      assert HasFive(p.board, w);
      assert w == Player1 || w == Player2;
    }
    if HasFive(p.board, Player1) {
      ScanComplete(p.board, Player1);
    }
    if HasFive(p.board, Player2) {
      ScanComplete(p.board, Player2);
    }
  }

  /** Five in a row anywhere stops the scan. */
  lemma ScanComplete(b: Board, s: Side)
    requires IsGrid(15, 15, b) && HasFive(b, s)
    ensures ScanFrom(b, 0, 0, false).Some?
  {
    var x, y, d :| FiveFrom(b, x, y, d, s);
    var x', y' := ExactFive(b, x, y, d, s);
    WinsAtOfStreak(b, x', y', d);
    ScanFromFinds(b, 0, 0, x', y');
  }

  /** The bottom rank "xxxx1x9": four stones of Player1, a gap, and a fifth stone. */
  function Gapped(): (p: Position)
    ensures WellFormed(p)
  {
    Position(seq(15, x => seq(15, y => if y == 0 && x < 6 && x != 4 then Some(Player1) else None)), Player1, 1)
  }

  /** Nobody has five in a row on the gapped rank. */
  lemma GappedHasNoFive()
    ensures !HasFive(Gapped().board, Player1) && !HasFive(Gapped().board, Player2)
  {
    var b := Gapped().board;
    forall x: int, y: int, d: Direction, s: Side | FiveFrom(b, x, y, d, s)
      ensures false
    {
      GappedGap(x, y, d, s);
      assert false;
    }
  }

  /** From every stone of the gapped rank, one of the next four cells in each direction is not that stone. */
  lemma GappedGap(x: int, y: int, d: Direction, s: Side)
    requires OnBoard(15, 15, x, y) && Gapped().board[x][y] == Some(s)
    ensures !RowOf(15, 15, Gapped().board, x, y, DX(d), DY(d), Some(s), 1, 4)
  {
    var b := Gapped().board;
    var k := if d != Right then 1 else if x == 5 then 1 else 4 - x;
    assert !(OnBoard(15, 15, x + DX(d) * k, y + DY(d) * k) && b[x + DX(d) * k][y + DY(d) * k] == Some(s));
  }

  /**
   * On the gapped rank `get_result` as written reports a win for Player1 (the streak to the
   * right of the first stone counts the stone beyond the gap), while the corrected result is
   * no result.
   */
  lemma GappedResults()
    ensures ResultOfAsWritten(Gapped()) == Some(Win(Player1))
    ensures ResultOf(Gapped()) == None
  {
    var b := Gapped().board;
    assert MatchesFrom(15, 15, b, 0, 0, 0, 1, 5, Some(Player1), 1) == 0 by {
      var i := 1;
      while i <= 5
        invariant 1 <= i <= 6
        invariant MatchesFrom(15, 15, b, 0, 0, 0, 1, 5, Some(Player1), 1) == MatchesFrom(15, 15, b, 0, 0, 0, 1, 5, Some(Player1), i)
      {
        i := i + 1;
      }
    }
    assert MatchesFrom(15, 15, b, 0, 0, 1, 0, 5, Some(Player1), 5) == 1;
    assert MatchesFrom(15, 15, b, 0, 0, 1, 0, 5, Some(Player1), 4) == 1;
    assert MatchesFrom(15, 15, b, 0, 0, 1, 0, 5, Some(Player1), 3) == 2;
    assert MatchesFrom(15, 15, b, 0, 0, 1, 0, 5, Some(Player1), 2) == 3;
    assert MatchesFrom(15, 15, b, 0, 0, 1, 0, 5, Some(Player1), 1) == 4;
    assert WinsAt(b, 0, 0, true);
    GappedHasNoFive();
    ResultIsFive(Gapped());
  }

  // ---------------------------------------------------------------------------------------
  // The position in place

  class GomokuPosition {
    const board: Mailbox<Option<Side>>
    var turn: Side
    var fullmoves: int

    ghost predicate Valid()
      reads this, board
    {
      board.Valid() && board.width == 15 && board.height == 15
    }

    /** The position as a value. */
    ghost function State(): (p: Position)
      reads this, board, board.data
      requires Valid()
      ensures WellFormed(p)
    {
      Position(board.Cells(), turn, fullmoves)
    }

    /** `startpos`. */
    constructor ()
      ensures Valid() && State() == Start() && fresh(board) && fresh(board.data)
    {
      board := new Mailbox(15, 15, None);
      turn := Player1;
      fullmoves := 1;
    }

    /** `makemove`: the square must be empty. */
    method MakeMove(m: Move)
      requires Valid() && m < 225 && Cell(board.Cells(), m) == None
      modifies this, board.data
      ensures Valid() && State() == Make(old(State()), m)
    {
      board.SetPiece(m % 15, m / 15, Some(turn));
      turn := Flip(turn);
      fullmoves := fullmoves + if turn == Player1 then 1 else 0;
    }

    /** `undomove`: the square must hold a stone. */
    method UndoMove(m: Move)
      requires Valid() && m < 225 && Cell(board.Cells(), m) != None
      modifies this, board.data
      ensures Valid() && State() == Undo(old(State()), m)
    {
      board.SetPiece(m % 15, m / 15, None);
      turn := Flip(turn);
      fullmoves := fullmoves - if turn == Player2 then 1 else 0;
    }

    /** `legal_moves` over `move_generator`: the board's squares in index order, the empty ones kept. */
    method MoveGenerator() returns (ms: seq<Move>)
      requires Valid()
      ensures ms == Moves(State())
    {
      ghost var b := board.Cells();
      ms := [];
      var sq := 0;
      while sq < 225
        invariant sq <= 225
        invariant ms == EmptyBelow(b, sq)
      {
        if board.GetPiece(sq % 15, sq / 15) == None {
          ms := ms + [sq];
        }
        sq := sq + 1;
      }
    }

    /** The test of `get_result` at cell (x, y): a stone, with a streak of 5. */
    method WinsHere(x: int, y: int) returns (win: bool)
      requires Valid() && OnBoard(15, 15, x, y)
      ensures win == WinsAt(board.Cells(), x, y, false)
    {
      var piece := board.GetPiece(x, y);
      if piece == None {
        return false;
      }
      win := FiveHere(x, y);
    }

    /** The four streak tests of `get_result` at a stone, in the source's order. */
    method FiveHere(x: int, y: int) returns (five: bool)
      requires Valid() && OnBoard(15, 15, x, y)
      ensures five == FiveStreak(board.Cells(), x, y, false)
    {
      ghost var b := board.Cells();
      var n := board.CountStreak(5, 0, 1, x, y);
      assert n == StreakIn(b, x, y, Up, false);
      if n == 5 { return true; }
      n := board.CountStreak(5, 1, 0, x, y);
      assert n == StreakIn(b, x, y, Right, false);
      if n == 5 { return true; }
      n := board.CountStreak(5, 1, 1, x, y);
      assert n == StreakIn(b, x, y, UpRight, false);
      if n == 5 { return true; }
      n := board.CountStreak(5, -1, 1, x, y);
      assert n == StreakIn(b, x, y, UpLeft, false);
      return n == 5;
    }

    /** `get_result`: rank by rank, file by file, the first stone with a streak of 5 wins for its side. */
    method GetResult() returns (r: Option<GameResult>)
      requires Valid()
      ensures r == ResultOf(State())
    {
      var y := 0;
      while y < 15
        invariant 0 <= y <= 15
        invariant ScanFrom(board.Cells(), 0, 0, false) == ScanFrom(board.Cells(), 0, y, false)
      {
        var found;
        found, r := ScanRank(y);
        if found {
          return;
        }
        y := y + 1;
      }
      return None;
    }

    /** One pass of the inner loop of `get_result`: the stones of rank `y`, file by file. */
    method ScanRank(y: nat) returns (found: bool, r: Option<GameResult>)
      requires Valid() && y < 15
      ensures found ==> r == ScanFrom(board.Cells(), 0, y, false)
      ensures !found ==> ScanFrom(board.Cells(), 0, y, false) == ScanFrom(board.Cells(), 0, y + 1, false)
    {
      ghost var b := board.Cells();
      var x := 0;
      while x < 15
        invariant 0 <= x <= 15
        invariant ScanFrom(b, 0, y, false) == ScanFrom(b, x, y, false)
      {
        var win := WinsHere(x, y);
        ScanStep(b, x, y);
        if win {
          return true, Some(Win(board.GetPiece(x, y).value));
        }
        x := x + 1;
      }
      ScanStep(b, 15, y);
      return false, None;
    }
  }

  /** One step of the scan at cell (x, y), or from the end of rank y to the next rank. */
  lemma ScanStep(b: Board, x: nat, y: nat)
    requires IsGrid(15, 15, b) && x <= 15 && y < 15
    ensures x < 15 ==>
              ScanFrom(b, x, y, false) == if WinsAt(b, x, y, false) then Some(Win(b[x][y].value)) else ScanFrom(b, x + 1, y, false)
    ensures x == 15 ==> ScanFrom(b, x, y, false) == ScanFrom(b, 0, y + 1, false)
  {
  }
}
