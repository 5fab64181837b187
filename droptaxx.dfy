/**
 * Droptaxx on a 7x7 bitboard: a move drops the mover's piece on an empty square and turns
 * every enemy piece on the eight squares around it into the mover's. Blocker squares never
 * take a piece. The game ends when no empty square is left.
 *
 * `Position` is the position as a value, the stack of saved piece words included, and
 * `Make`/`Undo`/`ResultOf` are the rules on it. The class `DroptaxxPosition` updates a position
 * in place; its `Perft` makes and unmakes moves by xor without touching the stack, as the
 * specialised `perft` does.
 */
module Droptaxx {
  import opened Wrappers
  import opened GameRules
  import opened Bits
  import opened Bitboards

  /** `Irrecoverable`: the piece words saved by `makemove`. */
  datatype Snapshot = Snapshot(black: Word, white: Word)

  /** `pieces[Player1]` is `black` ('x'), `pieces[Player2]` is `white` ('o'). */
  datatype Position = Position(stack: seq<Snapshot>, black: Word, white: Word, blockers: Word, turn: Side, fullmoves: int)

  /** A `DroptaxxMove`: the square the piece is dropped on, below 49 as a `Square<7, 7>`. */
  type Move = nat

  function Pieces(p: Position, s: Side): Word
  {
    if s == Player1 then p.black else p.white
  }

  /** `get_us`. */
  function Us(p: Position): Word
  {
    Pieces(p, p.turn)
  }

  /** `get_them`. */
  function Them(p: Position): Word
  {
    Pieces(p, Flip(p.turn))
  }

  /** `black | white | blockers`. */
  function Occupied(p: Position): Word
  {
    Or(Or(p.black, p.white), p.blockers)
  }

  /** `get_empty`: `!(black | white | blockers)`, within the board. */
  function Empty(p: Position): Word
  {
    Not(7, 7, Occupied(p))
  }

  /** `startpos`: an empty stack, no pieces, no blockers, Player1 to move, fullmoves 1. */
  function Start(): Position
  {
    Position([], Zero, Zero, Zero, Player1, 1)
  }

  /** `move_generator`: every empty square, lowest first. */
  function Moves(p: Position): seq<Move>
  {
    Indices(Empty(p))
  }

  /** `is_gameover`: no empty square left. */
  function Gameover(p: Position): bool
  {
    IsEmpty(Empty(p))
  }

  /** `count_moves`: the number of empty squares. */
  function CountMoves(p: Position): nat
  {
    Count(Empty(p))
  }

  /** The outcome `get_result` gives on a finished board: more pieces wins, equal counts draw. */
  function Tally(p: Position): GameResult
  {
    var n1, n2 := Count(p.black), Count(p.white);
    if n1 > n2 then Win(Player1) else if n2 > n1 then Win(Player2) else Draw
  }

  /** `get_result` as written: the board counts as finished when no square is free of pieces, blockers ignored. */
  function ResultAsWritten(p: Position): Option<GameResult>
  {
    if IsEmpty(Not(7, 7, Or(Us(p), Them(p)))) then Some(Tally(p)) else None
  }

  /** `get_result` with the board finished exactly when `is_gameover` says so. */
  function ResultOf(p: Position): Option<GameResult>
  {
    if IsEmpty(Empty(p)) then Some(Tally(p)) else None
  }

  /** `pieces[s] ^= bb`. */
  function Toggled(p: Position, s: Side, bb: Word): (q: Position)
    ensures Pieces(q, s) == Xor(Pieces(p, s), bb) && Pieces(q, Flip(s)) == Pieces(p, Flip(s))
    ensures q.stack == p.stack && q.blockers == p.blockers && q.turn == p.turn && q.fullmoves == p.fullmoves
  {
    if s == Player1 then p.(black := Xor(p.black, bb)) else p.(white := Xor(p.white, bb))
  }

  /** `bb.adjacent() & get_them()` for the square `m`: the enemy pieces the drop converts. */
  function Captured(p: Position, m: Move): Word
    requires m < 49
  {
    And(Adjacent(7, 7, FromIndex(m)), Them(p))
  }

  /** The piece words after the drop on `m` converting `captured`, the turn unchanged. */
  function Dropped(p: Position, m: Move, captured: Word): Position
    requires m < 49
  {
    Toggled(Toggled(Toggled(p, p.turn, FromIndex(m)), p.turn, captured), Flip(p.turn), captured)
  }

  /** `makemove`: save the pieces, drop on `m`, convert the neighbours, pass the turn. */
  function Make(p: Position, m: Move): Position
  {
    if m < 49 then
      var t := Flip(p.turn);
      Dropped(p, m, Captured(p, m)).(stack := p.stack + [Snapshot(p.black, p.white)], turn := t,
                     fullmoves := p.fullmoves + if t == Player1 then 1 else 0)
    else p
  }

  /** `undomove`: pop the saved pieces and take the turn back; the Rust code panics on an empty stack. */
  function Undo(p: Position, m: Move): Position
  {
    if p.stack == [] then p
    else
      var saved := p.stack[|p.stack| - 1];
      var t := Flip(p.turn);
      p.(stack := p.stack[..|p.stack| - 1], black := saved.black, white := saved.white, turn := t,
         fullmoves := p.fullmoves - if t == Player2 then 1 else 0)
  }

  /** `is_valid`: the three piece words are pairwise disjoint. */
  function IsValid(p: Position): Result<()>
  {
    if IsOccupied(And(p.black, p.white)) then Err("black & white overlap")
    else if IsOccupied(And(p.black, p.blockers)) then Err("black & blockers overlap")
    else if IsOccupied(And(p.white, p.blockers)) then Err("white & blockers overlap")
    else Ok(())
  }

  predicate Valid(p: Position)
  {
    IsValid(p).Ok?
  }

  /** No square holds two of a black piece, a white piece and a blocker. */
  ghost predicate Disjoint(p: Position)
  {
    forall i :: 0 <= i < 64 ==> !(p.black[i] && p.white[i]) && !(p.black[i] && p.blockers[i]) && !(p.white[i] && p.blockers[i])
  }

  /** The rules as a `GameRules` implementation, on the positions `is_valid` accepts. */
  function Rules(): Game<Position, Move>
  {
    Game(Moves, CountMoves, Make, Undo, ResultOf, Gameover, (p: Position) => p.turn, Valid)
  }

  // ---------------------------------------------------------------------------------------
  // Validity and the squares a drop changes

  lemma ValidIsDisjoint(p: Position)
    ensures Valid(p) <==> Disjoint(p)
  {
    OccupiedBits(And(p.black, p.white));
    OccupiedBits(And(p.black, p.blockers));
    OccupiedBits(And(p.white, p.blockers));
    if !Disjoint(p) {
      var i :| 0 <= i < 64 && !(!(p.black[i] && p.white[i]) && !(p.black[i] && p.blockers[i]) && !(p.white[i] && p.blockers[i]));
      assert And(p.black, p.white)[i] || And(p.black, p.blockers)[i] || And(p.white, p.blockers)[i];
    }
  }

  /** A move is an empty square: on the board and free of pieces and blockers. */
  lemma MovesAreEmpty(p: Position, m: Move)
    ensures m in Moves(p) <==> m < 49 && !p.black[m] && !p.white[m] && !p.blockers[m]
  {
    IndicesMembers(Empty(p));
    NotBits(7, 7, Occupied(p));
  }

  /** Every generated move is a square of the board. */
  lemma MovesOnBoard(p: Position)
    ensures forall i :: 0 <= i < |Moves(p)| ==> Moves(p)[i] < 49
  {
    forall i | 0 <= i < |Moves(p)|
      ensures Moves(p)[i] < 49
    {
      MovesAreEmpty(p, Moves(p)[i]);
    }
  }

  /** The drop's bits: the mover gains `m` and the converted pieces, which the opponent loses. */
  lemma DroppedBits(p: Position, m: Move, c: Word, i: nat)
    requires Disjoint(p) && m < 49 && !p.black[m] && !p.white[m] && !p.blockers[m] && i < 64
    requires c[i] ==> Them(p)[i]
    ensures Pieces(Dropped(p, m, c), p.turn)[i] == (Us(p)[i] || i == m || c[i])
    ensures Pieces(Dropped(p, m, c), Flip(p.turn))[i] == (Them(p)[i] && !c[i])
    ensures Dropped(p, m, c).blockers == p.blockers
  {
  }

  /** Xor-ing the drop and the conversions a second time gives the position back. */
  lemma UndropRestores(p: Position, m: Move, c: Word)
    requires m < 49
    ensures Toggled(Toggled(Toggled(Dropped(p, m, c), p.turn, FromIndex(m)), p.turn, c), Flip(p.turn), c) == p
  {
    XorTwice(Xor(Us(p), FromIndex(m)), c);
    XorTwice(Us(p), FromIndex(m));
    XorTwice(Them(p), c);
  }

  /** The drop converts only enemy pieces. */
  lemma CapturedThem(p: Position, m: Move, i: nat)
    requires m < 49 && i < 64
    ensures Captured(p, m)[i] ==> Them(p)[i]
  {
  }

  /** A drop on an empty square of a valid position keeps the piece words disjoint. */
  lemma DroppedDisjoint(p: Position, m: Move, c: Word)
    requires Disjoint(p) && m < 49 && !p.black[m] && !p.white[m] && !p.blockers[m]
    requires forall i :: 0 <= i < 64 ==> c[i] ==> Them(p)[i]
    ensures Disjoint(Dropped(p, m, c))
  {
    forall i | 0 <= i < 64
      ensures Pieces(Dropped(p, m, c), p.turn)[i] == (Us(p)[i] || i == m || c[i])
      ensures Pieces(Dropped(p, m, c), Flip(p.turn))[i] == (Them(p)[i] && !c[i])
    {
      DroppedBits(p, m, c, i);
    }
  }

  /** ... and fills just the square `m`. */
  lemma DroppedFills(p: Position, m: Move, c: Word)
    requires Disjoint(p) && m < 49 && !p.black[m] && !p.white[m] && !p.blockers[m]
    requires forall i :: 0 <= i < 64 ==> c[i] ==> Them(p)[i]
    ensures Occupied(Dropped(p, m, c)) == Occupied(p)[m := true]
  {
    var q := Dropped(p, m, c);
    forall i | 0 <= i < 64
      ensures Occupied(q)[i] == Occupied(p)[m := true][i]
    {
      DroppedBits(p, m, c, i);
    }
  }

  /** Filling a square of the board takes it out of the complement. */
  lemma NotFill(b: Word, m: nat)
    requires m < 49
    ensures Not(7, 7, b[m := true]) == Not(7, 7, b)[m := false]
  {
    NotBits(7, 7, b);
    NotBits(7, 7, b[m := true]);
  }

  /** After a move on an empty square the position is still valid, and the square is no longer empty. */
  lemma MakeOccupies(p: Position, m: Move)
    requires Valid(p) && m < 49 && m in Moves(p)
    ensures Valid(Make(p, m))
    ensures Empty(Make(p, m)) == Empty(p)[m := false]
    ensures CountMoves(Make(p, m)) + 1 == CountMoves(p)
  {
    ValidIsDisjoint(p);
    MovesAreEmpty(p, m);
    var c := Captured(p, m);
    forall i | 0 <= i < 64
      ensures c[i] ==> Them(p)[i]
    {
      CapturedThem(p, m, i);
    }
    DroppedDisjoint(p, m, c);
    DroppedFills(p, m, c);
    NotFill(Occupied(p), m);
    var q := Make(p, m);
    assert q == Dropped(p, m, c).(stack := q.stack, turn := q.turn, fullmoves := q.fullmoves);
    ValidIsDisjoint(q);
    IndicesMembers(Empty(p));
    CountClear(Empty(p), m);
  }

  /** On the board, the drop on (mx, my) converts exactly the enemy pieces one king step away. */
  lemma CapturedAt(p: Position, mx: nat, my: nat, x: nat, y: nat)
    requires mx < 7 && my < 7 && x < 7 && y < 7
    ensures Sq(7, mx, my) < 49
    ensures Has(Captured(p, Sq(7, mx, my)), Sq(7, x, y)) <==> Has(Them(p), Sq(7, x, y)) && Cheb(x, y, mx, my) == 1
  {
    AdjacentSquare(7, 7, mx, my, x, y);
  }

  // ---------------------------------------------------------------------------------------
  // The GameRules contract

  /** `undomove` restores the saved pieces, the turn and fullmoves: any move, any position. */
  lemma MakeUndo(p: Position, m: Move)
    requires m < 49
    ensures Undo(Make(p, m), m) == p
  {
    var q := Make(p, m);
    assert q.stack[..|q.stack| - 1] == p.stack;
  }

  lemma RulesReversible()
    ensures Reversible(Rules())
  {
    forall p, m | Valid(p) && m in Moves(p)
      ensures Valid(Make(p, m)) && Undo(Make(p, m), m) == p
    {
      MovesAreEmpty(p, m);
      MakeOccupies(p, m);
      MakeUndo(p, m);
    }
  }

  lemma RulesCountsAgree()
    ensures CountsAgree(Rules())
  {
    forall p
      ensures CountMoves(p) == |Moves(p)|
    {
      IndicesOrdered(Empty(p));
    }
  }

  lemma RulesGameoverAgrees()
    ensures GameoverAgrees(Rules())
  {
  }

  /** A game is over exactly when no move is left, and its result is then the piece count. */
  lemma ResultIsTally(p: Position)
    ensures ResultOf(p).Some? <==> Moves(p) == []
    ensures ResultOf(p).Some? ==> ResultOf(p) == Some(Tally(p))
  {
    IndicesOrdered(Empty(p));
    EmptyCount(Empty(p));
  }

  /** Swapping the colours swaps the winner. */
  lemma TallySymmetric(p: Position)
    ensures Tally(p.(black := p.white, white := p.black)) ==
      match Tally(p) case Win(s) => Win(Flip(s)) case Draw => Draw
  {
  }

  // ---------------------------------------------------------------------------------------
  // The result as written

  /**
   * A valid position with one blocker and black on every other square: no move is left and
   * `is_gameover` holds, but `get_result` as written still sees the blocker's square as free.
   */
  function Blocked(): Position
  {
    Position([], Not(7, 7, FromIndex(0)), Zero, FromIndex(0), Player1, 25)
  }

  lemma BlockedValid()
    ensures Valid(Blocked())
  {
    var p := Blocked();
    NotBits(7, 7, FromIndex(0));
    ValidIsDisjoint(p);
  }

  lemma BlockedGameover()
    ensures Gameover(Blocked())
  {
    var p := Blocked();
    NotBits(7, 7, FromIndex(0));
    NotBits(7, 7, Occupied(p));
    AllBits(7, 7);
    assert Empty(p) == Zero;
  }

  lemma BlockedAsWritten()
    ensures ResultAsWritten(Blocked()) == None
  {
    var p := Blocked();
    NotBits(7, 7, Or(Us(p), Them(p)));
    assert Not(7, 7, Or(Us(p), Them(p)))[0];
  }

  lemma BlockedTally()
    ensures Tally(Blocked()) == Win(Player1)
  {
    var p := Blocked();
    NotBits(7, 7, FromIndex(0));
    MoreBlack(p, 1);
  }

  /** A position with a black piece and no white one is a win for Player1 on the count. */
  lemma MoreBlack(p: Position, i: nat)
    requires i < 64 && p.black[i] && p.white == Zero
    ensures Tally(p) == Win(Player1)
  {
    CountZero(p.white);
    CountClear(p.black, i);
  }

  lemma BlockedDisagrees()
    ensures Valid(Blocked()) && Gameover(Blocked())
    ensures ResultAsWritten(Blocked()) == None
    ensures ResultOf(Blocked()) == Some(Win(Player1))
  {
    BlockedValid();
    BlockedGameover();
    BlockedAsWritten();
    BlockedTally();
  }

  /** As written, `is_gameover` and `get_result().is_some()` disagree. */
  lemma AsWrittenGameoverDisagrees()
    ensures !GameoverAgrees(Rules().(result := ResultAsWritten))
  {
    BlockedDisagrees();
  }

  // ---------------------------------------------------------------------------------------
  // Perft

  /** Every move fills one empty square of a valid position and keeps it valid. */
  lemma RulesFillsOne()
    ensures FillsOne(Rules())
  {
    forall p, m | Valid(p) && m in Moves(p)
      ensures Valid(Make(p, m)) && CountMoves(Make(p, m)) + 1 == CountMoves(p)
    {
      MovesAreEmpty(p, m);
      MakeOccupies(p, m);
    }
  }

  /** Nothing ends the game before the board is full: perft is e (e-1) ... (e-d+1) for e empty squares. */
  lemma PerftIsFalling(p: Position, d: nat)
    requires Valid(p)
    ensures PerftCount(Rules(), p, d) == Falling(CountMoves(p), d)
  {
    RulesFillsOne();
    RulesCountsAgree();
    FillingPerft(Rules(), p, d);
  }

  /** Perft from the start: 1, 49, 2352 and 110544 at depths 0 to 3. */
  lemma StartPerft()
    ensures PerftCount(Rules(), Start(), 0) == 1 && PerftCount(Rules(), Start(), 1) == 49
    ensures PerftCount(Rules(), Start(), 2) == 2352 && PerftCount(Rules(), Start(), 3) == 110544
  {
    StartEmpty();
    PerftIsFalling(Start(), 2);
    PerftIsFalling(Start(), 3);
  }

  lemma StartEmpty()
    ensures Valid(Start()) && CountMoves(Start()) == 49
  {
    ValidIsDisjoint(Start());
    NotBits(7, 7, Or(Or(Zero, Zero), Zero));
    AllBits(7, 7);
    CountLow(Empty(Start()), 49);
  }

  /** Perft looks neither at the stack nor at fullmoves. */
  lemma {:induction false} PerftIgnoresHistory(p: Position, s: seq<Snapshot>, n: int, depth: nat)
    ensures PerftCount(Rules(), p.(stack := s, fullmoves := n), depth) == PerftCount(Rules(), p, depth)
    decreases depth, 1
  {
    var q := p.(stack := s, fullmoves := n);
    assert Empty(q) == Empty(p);
    if depth > 1 {
      SumPerftIgnoresHistory(p, s, n, Moves(p), depth - 1);
    }
  }

  lemma {:induction false} SumPerftIgnoresHistory(p: Position, s: seq<Snapshot>, n: int, ms: seq<Move>, depth: nat)
    ensures SumPerft(Rules(), p.(stack := s, fullmoves := n), ms, depth) == SumPerft(Rules(), p, ms, depth)
    decreases depth + 1, 0, |ms|
  {
    if ms != [] {
      var m := ms[|ms| - 1];
      SumPerftIgnoresHistory(p, s, n, ms[..|ms| - 1], depth);
      var child := Make(p.(stack := s, fullmoves := n), m);
      assert child == Make(p, m).(stack := child.stack, fullmoves := child.fullmoves);
      PerftIgnoresHistory(Make(p, m), child.stack, child.fullmoves, depth);
    }
  }

  /** One more empty square in the sum of `perft`. */
  lemma SumPerftStep(p: Position, sqs: seq<nat>, i: nat, depth: nat)
    requires i < |sqs|
    ensures SumPerft(Rules(), p, sqs[..i + 1], depth) ==
            SumPerft(Rules(), p, sqs[..i], depth) + PerftCount(Rules(), Make(p, sqs[i]), depth)
  {
    assert sqs[..i + 1][..i] == sqs[..i];
  }

  // ---------------------------------------------------------------------------------------
  // The position updated in place

  class DroptaxxPosition {
    var stack: seq<Snapshot>
    var black: Word
    var white: Word
    var blockers: Word
    var turn: Side
    var fullmoves: int

    function State(): Position
      reads this
    {
      Position(stack, black, white, blockers, turn, fullmoves)
    }

    /** `startpos`. */
    constructor()
      ensures State() == Start()
    {
      stack, black, white, blockers, turn, fullmoves := [], Zero, Zero, Zero, Player1, 1;
    }

    /** `pieces[s] ^= bb`. */
    method Toggle(s: Side, bb: Word)
      modifies this
      ensures State() == Toggled(old(State()), s, bb)
    {
      if s == Player1 {
        black := Xor(black, bb);
      } else {
        white := Xor(white, bb);
      }
    }

    method MakeMove(m: Move)
      requires m < 49
      modifies this
      ensures State() == Make(old(State()), m)
    {
      stack := stack + [Snapshot(black, white)];
      var bb := FromIndex(m);
      var captured := And(Adjacent(7, 7, bb), Them(State()));
      Toggle(turn, bb);
      Toggle(turn, captured);
      Toggle(Flip(turn), captured);
      turn := Flip(turn);
      fullmoves := fullmoves + if turn == Player1 then 1 else 0;
    }

    /** `undomove`; the Rust code panics when no move was made. */
    method UndoMove(m: Move)
      requires stack != []
      modifies this
      ensures State() == Undo(old(State()), m)
    {
      var saved := stack[|stack| - 1];
      stack := stack[..|stack| - 1];
      black, white := saved.black, saved.white;
      turn := Flip(turn);
      fullmoves := fullmoves - if turn == Player2 then 1 else 0;
    }

    /** `move_generator`: every empty square, lowest first. */
    method MoveGenerator() returns (ms: seq<Move>)
      ensures ms == Moves(State())
    {
      var sqs := Indices(Empty(State()));
      ms := [];
      for i := 0 to |sqs|
        invariant ms == sqs[..i]
      {
        TakeSnoc(sqs, i);
        ms := ms + [sqs[i]];
      }
      assert sqs[..|sqs|] == sqs;
    }

    /**
     * The specialised `perft`: children are reached by xor-ing in the drop and the captures
     * and passing the turn, without the stack or fullmoves, and left by xor-ing them out again.
     */
    method Perft(depth: nat) returns (nodes: nat)
      modifies this
      ensures nodes == PerftCount(Rules(), old(State()), depth)
      ensures State() == old(State())
      decreases depth, 2
    {
      if depth == 0 {
        return 1;
      }
      if depth == 1 {
        return Count(Empty(State()));
      }
      if IsEmpty(Empty(State())) {
        IndicesOrdered(Empty(State()));
        EmptyCount(Empty(State()));
        return 0;
      }
      nodes := PerftChildren(depth);
    }

    /** The loop in `perft` over the empty squares. */
    method PerftChildren(depth: nat) returns (nodes: nat)
      requires depth > 1
      modifies this
      ensures nodes == SumPerft(Rules(), old(State()), Moves(old(State())), depth - 1)
      ensures State() == old(State())
      decreases depth, 1
    {
      ghost var p := State();
      var sqs := Moves(State());
      MovesOnBoard(p);
      nodes := 0;
      for i := 0 to |sqs|
        invariant State() == p
        invariant nodes == SumPerft(Rules(), p, sqs[..i], depth - 1)
      {
        var n := PerftChild(sqs[i], depth - 1);
        SumPerftStep(p, sqs, i, depth - 1);
        nodes := nodes + n;
      }
      assert sqs[..|sqs|] == sqs;
    }

    /** One turn of the loop in `perft`: drop on `sq` by xor, count, and xor it out again. */
    method PerftChild(sq: Move, depth: nat) returns (n: nat)
      requires sq < 49
      modifies this
      ensures n == PerftCount(Rules(), Make(old(State()), sq), depth)
      ensures State() == old(State())
      decreases depth, 3
    {
      ghost var p := State();
      var bb := FromIndex(sq);
      var captured := And(Adjacent(7, 7, bb), Them(State()));
      Toggle(turn, bb);
      Toggle(turn, captured);
      Toggle(Flip(turn), captured);
      turn := Flip(turn);
      assert State() == Make(p, sq).(stack := p.stack, fullmoves := p.fullmoves);
      PerftIgnoresHistory(Make(p, sq), p.stack, p.fullmoves, depth);
      n := Perft(depth);
      turn := Flip(turn);
      assert State() == Dropped(p, sq, captured);
      Toggle(turn, bb);
      Toggle(turn, captured);
      Toggle(Flip(turn), captured);
      UndropRestores(p, sq, captured);
    }
  }
}
