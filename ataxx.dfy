/**
 * Ataxx on a 7x7 bitboard. A single move puts a new piece next to one of the mover's pieces; a
 * double move jumps a piece two king steps. Either way the enemy pieces around the target turn
 * into the mover's. A pass is legal only when nothing else is. The game ends after 100 halfmoves
 * without a single move, when a side has no pieces, or when no empty square can be reached.
 *
 * `Position` is the position as a value, the stack of saved piece words and halfmove counters
 * included, and `Make`/`Undo`/`ResultOf` are the rules on it. The class `AtaxxPosition` updates
 * a position in place and runs the generator's and the counter's loops.
 */
module Ataxx {
  import opened Wrappers
  import opened GameRules
  import opened Bits
  import opened Bitboards

  /** `Irrecoverable`: what `makemove` saves. */
  datatype Snapshot = Snapshot(black: Word, white: Word, halfmoves: int)

  /** `pieces[Player1]` is `black` ('x'), `pieces[Player2]` is `white` ('o'). */
  datatype Position = Position(stack: seq<Snapshot>, black: Word, white: Word, blockers: Word,
                               turn: Side, halfmoves: int, fullmoves: int)

  /** `AtaxxMove`; a square is a bit index, below 49 on the board. */
  datatype Move = Pass | Single(to: nat) | Double(from: nat, to: nat)

  /** The squares of a move fit in the word, as a `Square<7, 7>` does. */
  predicate Fits(mv: Move)
  {
    match mv
    case Pass => true
    case Single(to) => to < 64
    case Double(fr, to) => fr < 64 && to < 64
  }

  function Pieces(p: Position, s: Side): Word
  {
    if s == Player1 then p.black else p.white
  }

  /** `get_us`. */
  function Us(p: Position): Word
  {
    Pieces(p, p.turn)
  }

  /** `get_them`. */
  function Them(p: Position): Word
  {
    Pieces(p, Flip(p.turn))
  }

  /** `get_both`. */
  function Both(p: Position): Word
  {
    Or(p.black, p.white)
  }

  /** `black | white | blockers`. */
  function Occupied(p: Position): Word
  {
    Or(Both(p), p.blockers)
  }

  /** `get_empty`: `!(black | white | blockers)`, within the board. */
  function Empty(p: Position): Word
  {
    Not(7, 7, Occupied(p))
  }

  /** `startpos`: black on g1 and a7, white on a1 and g7, Player1 to move. */
  function Start(): Position
  {
    Position([], Or(FromIndex(6), FromIndex(42)), Or(FromIndex(0), FromIndex(48)), Zero, Player1, 0, 1)
  }

  /** The empty squares a piece could move to: `(both.adjacent() | both.dist2()) & empty`. */
  function Reachable(p: Position): Word
  {
    And(Or(Adjacent(7, 7, Both(p)), Dist2(7, 7, Both(p))), Empty(p))
  }

  /** `is_gameover`. */
  function Gameover(p: Position): bool
  {
    p.halfmoves >= 100 || IsEmpty(p.black) || IsEmpty(p.white) || IsEmpty(Reachable(p))
  }

  /** `get_result`: elimination first, then the 100-halfmove draw, then the piece count of a blocked board. */
  function ResultOf(p: Position): Option<GameResult>
  {
    var n1, n2 := Count(p.black), Count(p.white);
    if n1 > 0 && n2 == 0 then Some(Win(Player1))
    else if n2 > 0 && n1 == 0 then Some(Win(Player2))
    else if n1 == 0 && n2 == 0 then Some(Draw)
    else if p.halfmoves >= 100 then Some(Draw)
    else if IsOccupied(Reachable(p)) then None
    else if n1 > n2 then Some(Win(Player1))
    else if n2 > n1 then Some(Win(Player2))
    else Some(Draw)
  }

  // ---------------------------------------------------------------------------------------
  // The move generator and the move counter

  /** The targets of single moves: `us.adjacent() & empty`. */
  function SingleTargets(p: Position): Word
  {
    And(Adjacent(7, 7, Us(p)), Empty(p))
  }

  /** The targets of double moves from `fr`: `from_square(fr).dist2() & empty`. */
  function DoubleTargets(p: Position, fr: nat): Word
    requires fr < 64
  {
    And(Dist2(7, 7, FromIndex(fr)), Empty(p))
  }

  /** The single moves to the squares `tos`, in order. */
  function Singles(tos: seq<nat>): seq<Move>
  {
    if tos == [] then [] else Singles(tos[..|tos| - 1]) + [Single(tos[|tos| - 1])]
  }

  /** The double moves from `fr` to the squares `tos`, in order. */
  function DoublesFrom(fr: nat, tos: seq<nat>): seq<Move>
  {
    if tos == [] then [] else DoublesFrom(fr, tos[..|tos| - 1]) + [Double(fr, tos[|tos| - 1])]
  }

  /** The squares of the mover's pieces, lowest first: the order `for from in get_us()` visits them. */
  function Froms(p: Position): seq<Bit>
  {
    IndicesBelow(Us(p));
    Indices(Us(p))
  }

  /** The double moves from each square of `frs` in turn. */
  function Doubles(p: Position, frs: seq<Bit>): seq<Move>
  {
    if frs == [] then []
    else
      var fr := frs[|frs| - 1];
      Doubles(p, frs[..|frs| - 1]) + DoublesFrom(fr, Indices(DoubleTargets(p, fr)))
  }

  /** The moves the generator yields before it considers passing. */
  function Generated(p: Position): seq<Move>
  {
    Singles(Indices(SingleTargets(p))) + Doubles(p, Froms(p))
  }

  /** `move_generator`: nothing once the game is over, the pass only when nothing else is legal. */
  function Moves(p: Position): seq<Move>
  {
    if Gameover(p) then []
    else if Generated(p) == [] then [Pass]
    else Generated(p)
  }

  /** The number of double moves from the squares `frs`. */
  function DoubleCount(p: Position, frs: seq<Bit>): nat
  {
    if frs == [] then 0
    else DoubleCount(p, frs[..|frs| - 1]) + Count(DoubleTargets(p, frs[|frs| - 1]))
  }

  /** `count_moves`: the singles and doubles by population count, 1 for the pass. */
  function MoveCount(p: Position): nat
  {
    if Gameover(p) then 0
    else
      var n := Count(SingleTargets(p)) + DoubleCount(p, Froms(p));
      if n == 0 then 1 else n
  }

  // ---------------------------------------------------------------------------------------
  // Making and unmaking moves

  /** `pieces[s] ^= bb`. */
  function Toggled(p: Position, s: Side, bb: Word): (q: Position)
    ensures Pieces(q, s) == Xor(Pieces(p, s), bb) && Pieces(q, Flip(s)) == Pieces(p, Flip(s))
    ensures q.stack == p.stack && q.blockers == p.blockers && q.turn == p.turn
    ensures q.halfmoves == p.halfmoves && q.fullmoves == p.fullmoves
  {
    if s == Player1 then p.(black := Xor(p.black, bb)) else p.(white := Xor(p.white, bb))
  }

  /** `bb.adjacent() & get_them()` for the target `to`: the enemy pieces the move converts. */
  function Captured(p: Position, to: nat): Word
    requires to < 64
  {
    And(Adjacent(7, 7, FromIndex(to)), Them(p))
  }

  /** The piece words after a single move to `to` converting `c`. */
  function Placed(p: Position, to: nat, c: Word): Position
    requires to < 64
  {
    Toggled(Toggled(Toggled(p, p.turn, FromIndex(to)), p.turn, c), Flip(p.turn), c)
  }

  /** The piece words after a double move from `fr` to `to` converting `c`. */
  function Jumped(p: Position, fr: nat, to: nat, c: Word): Position
    requires fr < 64 && to < 64
  {
    var t := p.turn;
    Toggled(Toggled(Toggled(Toggled(p, t, FromIndex(to)), t, FromIndex(fr)), t, c), Flip(t), c)
  }

  /** `makemove`: save the pieces and halfmoves, play the move, pass the turn. */
  function Make(p: Position, mv: Move): Position
  {
    if !Fits(mv) then p
    else
      var q := match mv
        case Pass => p.(halfmoves := p.halfmoves + 1)
        case Single(to) => Placed(p, to, Captured(p, to)).(halfmoves := 0)
        case Double(fr, to) => Jumped(p, fr, to, Captured(p, to)).(halfmoves := p.halfmoves + 1);
      var t := Flip(p.turn);
      q.(stack := p.stack + [Snapshot(p.black, p.white, p.halfmoves)], turn := t,
         fullmoves := p.fullmoves + if t == Player1 then 1 else 0)
  }

  /** `undomove`: pop the saved pieces and halfmoves and take the turn back; the Rust code panics on an empty stack. */
  function Undo(p: Position, mv: Move): Position
  {
    if p.stack == [] then p
    else
      var saved := p.stack[|p.stack| - 1];
      var t := Flip(p.turn);
      p.(stack := p.stack[..|p.stack| - 1], black := saved.black, white := saved.white,
         halfmoves := saved.halfmoves, turn := t, fullmoves := p.fullmoves - if t == Player2 then 1 else 0)
  }

  /** `makenull`: pass the turn without saving anything. */
  function Null(p: Position): Position
  {
    var t := Flip(p.turn);
    p.(turn := t, fullmoves := p.fullmoves + if t == Player1 then 1 else 0)
  }

  /** `undonull`. */
  function Unnull(p: Position): Position
  {
    var t := Flip(p.turn);
    p.(turn := t, fullmoves := p.fullmoves - if t == Player2 then 1 else 0)
  }

  /** `is_valid`: the three piece words are pairwise disjoint. */
  function IsValid(p: Position): Result<()>
  {
    if IsOccupied(And(p.black, p.white)) then Err("black & white overlap")
    else if IsOccupied(And(p.black, p.blockers)) then Err("black & blockers overlap")
    else if IsOccupied(And(p.white, p.blockers)) then Err("white & blockers overlap")
    else Ok(())
  }

  predicate Valid(p: Position)
  {
    IsValid(p).Ok?
  }

  /** No square holds two of a black piece, a white piece and a blocker. */
  ghost predicate Disjoint(p: Position)
  {
    forall i :: 0 <= i < 64 ==> !(p.black[i] && p.white[i]) && !(p.black[i] && p.blockers[i]) && !(p.white[i] && p.blockers[i])
  }

  /** The rules as a `GameRules` implementation, on the positions `is_valid` accepts. */
  function Rules(): Game<Position, Move>
  {
    Game(Moves, MoveCount, Make, Undo, ResultOf, Gameover, (p: Position) => p.turn, Valid)
  }

  // ---------------------------------------------------------------------------------------
  // Validity, empty squares and the squares a move touches

  lemma ValidIsDisjoint(p: Position)
    ensures Valid(p) <==> Disjoint(p)
  {
    OccupiedBits(And(p.black, p.white));
    OccupiedBits(And(p.black, p.blockers));
    OccupiedBits(And(p.white, p.blockers));
    if !Disjoint(p) {
      var i :| 0 <= i < 64 && !(!(p.black[i] && p.white[i]) && !(p.black[i] && p.blockers[i]) && !(p.white[i] && p.blockers[i]));
      assert And(p.black, p.white)[i] || And(p.black, p.blockers)[i] || And(p.white, p.blockers)[i];
    }
  }

  /** An empty square is on the board and free of pieces and blockers. */
  lemma EmptyBits(p: Position, i: nat)
    requires i < 64
    ensures Empty(p)[i] <==> i < 49 && !p.black[i] && !p.white[i] && !p.blockers[i]
  {
    NotBits(7, 7, Occupied(p));
  }

  /** On the board, a single move reaches exactly the empty squares one king step from a piece of the mover. */
  lemma SingleTargetAt(p: Position, x: nat, y: nat)
    requires Within(7, 7, Us(p)) && x < 7 && y < 7
    ensures Sq(7, x, y) < 49
    ensures Has(SingleTargets(p), Sq(7, x, y)) <==> Has(Empty(p), Sq(7, x, y)) && Ring(7, 7, Us(p), x, y, 1)
  {
    SqBound(7, 7, x, y);
    AdjacentBits(7, 7, Us(p));
  }

  /** On the board, a double move from (mx, my) reaches exactly the empty squares two king steps away. */
  lemma DoubleTargetAt(p: Position, mx: nat, my: nat, x: nat, y: nat)
    requires mx < 7 && my < 7 && x < 7 && y < 7
    ensures Sq(7, mx, my) < 49 && Sq(7, x, y) < 49
    ensures Has(DoubleTargets(p, Sq(7, mx, my)), Sq(7, x, y)) <==> Has(Empty(p), Sq(7, x, y)) && Cheb(x, y, mx, my) == 2
  {
    Dist2Square(7, 7, mx, my, x, y);
  }

  /** On the board, a move to (mx, my) converts exactly the enemy pieces one king step away. */
  lemma CapturedAt(p: Position, mx: nat, my: nat, x: nat, y: nat)
    requires mx < 7 && my < 7 && x < 7 && y < 7
    ensures Sq(7, mx, my) < 49
    ensures Has(Captured(p, Sq(7, mx, my)), Sq(7, x, y)) <==> Has(Them(p), Sq(7, x, y)) && Cheb(x, y, mx, my) == 1
  {
    AdjacentSquare(7, 7, mx, my, x, y);
  }

  // ---------------------------------------------------------------------------------------
  // What the generator yields

  lemma {:induction false} SinglesMembers(tos: seq<nat>, mv: Move)
    ensures mv in Singles(tos) <==> mv.Single? && mv.to in tos
  {
    if tos != [] {
      SinglesMembers(tos[..|tos| - 1], mv);
      if mv.Single? {
        InInitOrLast(tos, mv.to);
      }
    }
  }

  lemma {:induction false} DoublesFromMembers(fr: nat, tos: seq<nat>, mv: Move)
    ensures mv in DoublesFrom(fr, tos) <==> mv.Double? && mv.from == fr && mv.to in tos
  {
    if tos != [] {
      DoublesFromMembers(fr, tos[..|tos| - 1], mv);
      if mv.Double? {
        InInitOrLast(tos, mv.to);
      }
    }
  }

  lemma {:induction false} DoublesMembers(p: Position, frs: seq<Bit>, mv: Move)
    ensures mv in Doubles(p, frs) <==>
      mv.Double? && mv.from < 64 && mv.from in frs && mv.to in Indices(DoubleTargets(p, mv.from))
  {
    if frs != [] {
      var fr := frs[|frs| - 1];
      var init := frs[..|frs| - 1];
      DoublesMembers(p, init, mv);
      var last := DoublesFrom(fr, Indices(DoubleTargets(p, fr)));
      DoublesFromMembers(fr, Indices(DoubleTargets(p, fr)), mv);
      assert Doubles(p, frs) == Doubles(p, init) + last;
      assert mv in Doubles(p, frs) <==> mv in Doubles(p, init) || mv in last;
      if mv.Double? {
        InInitOrLast(frs, mv.from);
      }
    }
  }

  lemma {:induction false} SinglesLength(tos: seq<nat>)
    ensures |Singles(tos)| == |tos|
  {
    if tos != [] {
      SinglesLength(tos[..|tos| - 1]);
    }
  }

  lemma {:induction false} DoublesFromLength(fr: nat, tos: seq<nat>)
    ensures |DoublesFrom(fr, tos)| == |tos|
  {
    if tos != [] {
      DoublesFromLength(fr, tos[..|tos| - 1]);
    }
  }

  lemma {:induction false} DoublesLength(p: Position, frs: seq<Bit>)
    ensures |Doubles(p, frs)| == DoubleCount(p, frs)
  {
    if frs != [] {
      var fr := frs[|frs| - 1];
      DoublesLength(p, frs[..|frs| - 1]);
      IndicesOrdered(DoubleTargets(p, fr));
      DoublesFromLength(fr, Indices(DoubleTargets(p, fr)));
    }
  }

  /** A generated move is a single to an empty square next to a piece of the mover, or a double from one of its pieces. */
  lemma GeneratedMembers(p: Position, mv: Move)
    ensures mv in Generated(p) <==>
      match mv
      case Pass => false
      case Single(to) => to < 64 && SingleTargets(p)[to]
      case Double(fr, to) => fr < 64 && Us(p)[fr] && to < 64 && DoubleTargets(p, fr)[to]
  {
    SinglesMembers(Indices(SingleTargets(p)), mv);
    DoublesMembers(p, Froms(p), mv);
    IndicesMembers(SingleTargets(p));
    IndicesMembers(Us(p));
    if mv.Double? && mv.from < 64 {
      IndicesMembers(DoubleTargets(p, mv.from));
    }
  }

  /** `move_generator` yields each legal move: nothing once the game is over, and the pass only when alone. */
  lemma MovesMembers(p: Position, mv: Move)
    ensures mv in Moves(p) <==> (!Gameover(p) &&
      match mv
      case Pass => Generated(p) == []
      case Single(to) => to < 64 && SingleTargets(p)[to]
      case Double(fr, to) => fr < 64 && Us(p)[fr] && to < 64 && DoubleTargets(p, fr)[to])
  {
    GeneratedMembers(p, mv);
  }

  /** The pass is generated exactly when the game goes on and no single or double move exists; it is then the only move. */
  lemma PassOnlyAlone(p: Position)
    ensures Pass in Moves(p) <==> (!Gameover(p) && IsEmpty(SingleTargets(p)) &&
      forall fr :: 0 <= fr < 64 && Us(p)[fr] ==> IsEmpty(DoubleTargets(p, fr)))
    ensures Pass in Moves(p) ==> Moves(p) == [Pass]
  {
    MovesMembers(p, Pass);
    GeneratedMembers(p, Pass);
    GeneratedEmpty(p);
  }

  /** Nothing is generated exactly when no single target exists and no piece of the mover has a double target. */
  lemma GeneratedEmpty(p: Position)
    ensures Generated(p) == [] <==> (IsEmpty(SingleTargets(p)) &&
      forall fr :: 0 <= fr < 64 && Us(p)[fr] ==> IsEmpty(DoubleTargets(p, fr)))
  {
    if Generated(p) == [] {
      forall i | 0 <= i < 64
        ensures !SingleTargets(p)[i]
      {
        GeneratedMembers(p, Single(i));
      }
      assert SingleTargets(p) == Zero;
      forall fr | 0 <= fr < 64 && Us(p)[fr]
        ensures IsEmpty(DoubleTargets(p, fr))
      {
        NoDoublesFrom(p, fr);
      }
    } else {
      var mv := Generated(p)[0];
      GeneratedMembers(p, mv);
      if mv.Single? {
        assert SingleTargets(p)[mv.to];
      } else {
        assert DoubleTargets(p, mv.from)[mv.to];
      }
    }
  }

  lemma NoDoublesFrom(p: Position, fr: nat)
    requires Generated(p) == [] && fr < 64 && Us(p)[fr]
    ensures IsEmpty(DoubleTargets(p, fr))
  {
    forall i | 0 <= i < 64
      ensures !DoubleTargets(p, fr)[i]
    {
      GeneratedMembers(p, Double(fr, i));
    }
    assert DoubleTargets(p, fr) == Zero;
  }

  /** `count_moves` agrees with the generator. */
  lemma CountIsMoves(p: Position)
    ensures MoveCount(p) == |Moves(p)|
  {
    if !Gameover(p) {
      IndicesOrdered(SingleTargets(p));
      SinglesLength(Indices(SingleTargets(p)));
      DoublesLength(p, Froms(p));
    }
  }

  // ---------------------------------------------------------------------------------------
  // The squares a move changes

  /** A move converts only enemy pieces. */
  lemma CapturedThem(p: Position, to: nat, i: nat)
    requires to < 64 && i < 64
    ensures Captured(p, to)[i] ==> Them(p)[i]
  {
  }

  /** A single move: the mover gains `to` and the converted pieces, which the opponent loses. */
  lemma PlacedBits(p: Position, to: nat, c: Word, i: nat)
    requires Disjoint(p) && to < 64 && !p.black[to] && !p.white[to] && i < 64
    requires c[i] ==> Them(p)[i]
    ensures Pieces(Placed(p, to, c), p.turn)[i] == (Us(p)[i] || i == to || c[i])
    ensures Pieces(Placed(p, to, c), Flip(p.turn))[i] == (Them(p)[i] && !c[i])
    ensures Placed(p, to, c).blockers == p.blockers
  {
  }

  /** A double move: the mover leaves `fr` and gains `to` and the converted pieces, which the opponent loses. */
  lemma JumpedBits(p: Position, fr: nat, to: nat, c: Word, i: nat)
    requires Disjoint(p) && fr < 64 && to < 64 && Us(p)[fr] && !p.black[to] && !p.white[to] && i < 64
    requires c[i] ==> Them(p)[i]
    ensures Pieces(Jumped(p, fr, to, c), p.turn)[i] == ((Us(p)[i] && i != fr) || i == to || c[i])
    ensures Pieces(Jumped(p, fr, to, c), Flip(p.turn))[i] == (Them(p)[i] && !c[i])
    ensures Jumped(p, fr, to, c).blockers == p.blockers
  {
  }

  lemma PlacedDisjoint(p: Position, to: nat, c: Word)
    requires Disjoint(p) && to < 64 && !p.black[to] && !p.white[to] && !p.blockers[to]
    requires forall i :: 0 <= i < 64 ==> c[i] ==> Them(p)[i]
    ensures Disjoint(Placed(p, to, c))
  {
    forall i | 0 <= i < 64
      ensures Pieces(Placed(p, to, c), p.turn)[i] == (Us(p)[i] || i == to || c[i])
      ensures Pieces(Placed(p, to, c), Flip(p.turn))[i] == (Them(p)[i] && !c[i])
    {
      PlacedBits(p, to, c, i);
    }
  }

  lemma JumpedDisjoint(p: Position, fr: nat, to: nat, c: Word)
    requires Disjoint(p) && fr < 64 && to < 64 && Us(p)[fr] && !p.black[to] && !p.white[to] && !p.blockers[to]
    requires forall i :: 0 <= i < 64 ==> c[i] ==> Them(p)[i]
    ensures Disjoint(Jumped(p, fr, to, c))
  {
    forall i | 0 <= i < 64
      ensures Pieces(Jumped(p, fr, to, c), p.turn)[i] == ((Us(p)[i] && i != fr) || i == to || c[i])
      ensures Pieces(Jumped(p, fr, to, c), Flip(p.turn))[i] == (Them(p)[i] && !c[i])
    {
      JumpedBits(p, fr, to, c, i);
    }
  }

  lemma CapturedWithin(p: Position, to: nat)
    requires to < 64
    ensures forall i :: 0 <= i < 64 ==> Captured(p, to)[i] ==> Them(p)[i]
  {
    forall i | 0 <= i < 64
      ensures Captured(p, to)[i] ==> Them(p)[i]
    {
      CapturedThem(p, to, i);
    }
  }

  /** A generated move keeps a valid position valid. */
  lemma MakeKeepsValid(p: Position, mv: Move)
    requires Valid(p) && mv in Moves(p)
    ensures Valid(Make(p, mv))
  {
    match mv
    case Pass =>
      PassKeepsValid(p);
    case Single(to) =>
      SingleKeepsValid(p, to);
    case Double(fr, to) =>
      DoubleKeepsValid(p, fr, to);
  }

  lemma PassKeepsValid(p: Position)
    requires Valid(p)
    ensures Valid(Make(p, Pass))
  {
    var q := Make(p, Pass);
    assert q.black == p.black && q.white == p.white && q.blockers == p.blockers;
  }

  lemma SingleKeepsValid(p: Position, to: nat)
    requires Valid(p) && Single(to) in Moves(p)
    ensures Valid(Make(p, Single(to)))
  {
    MovesMembers(p, Single(to));
    ValidIsDisjoint(p);
    SingleKeepsDisjoint(p, to);
    ValidIsDisjoint(Make(p, Single(to)));
  }

  lemma DoubleKeepsValid(p: Position, fr: nat, to: nat)
    requires Valid(p) && Double(fr, to) in Moves(p)
    ensures Valid(Make(p, Double(fr, to)))
  {
    MovesMembers(p, Double(fr, to));
    ValidIsDisjoint(p);
    DoubleKeepsDisjoint(p, fr, to);
    ValidIsDisjoint(Make(p, Double(fr, to)));
  }

  lemma SingleKeepsDisjoint(p: Position, to: nat)
    requires Disjoint(p) && to < 64 && SingleTargets(p)[to]
    ensures Disjoint(Make(p, Single(to)))
  {
    EmptyBits(p, to);
    CapturedWithin(p, to);
    PlacedDisjoint(p, to, Captured(p, to));
  }

  lemma DoubleKeepsDisjoint(p: Position, fr: nat, to: nat)
    requires Disjoint(p) && fr < 64 && Us(p)[fr] && to < 64 && DoubleTargets(p, fr)[to]
    ensures Disjoint(Make(p, Double(fr, to)))
  {
    EmptyBits(p, to);
    CapturedWithin(p, to);
    JumpedDisjoint(p, fr, to, Captured(p, to));
  }

  // ---------------------------------------------------------------------------------------
  // The GameRules contract

  /** `undomove` restores the saved pieces, halfmoves, the turn and fullmoves: any move, any position. */
  lemma MakeUndo(p: Position, mv: Move)
    requires Fits(mv)
    ensures Undo(Make(p, mv), mv) == p
  {
    var q := Make(p, mv);
    assert q.stack[..|q.stack| - 1] == p.stack;
  }

  /** The counters: a single move resets halfmoves, a double move or a pass adds one; fullmoves grows after Player2. */
  lemma MakeCounters(p: Position, mv: Move)
    requires Fits(mv)
    ensures Make(p, mv).halfmoves == if mv.Single? then 0 else p.halfmoves + 1
    ensures Make(p, mv).fullmoves == p.fullmoves + if p.turn == Player2 then 1 else 0
    ensures Make(p, mv).turn == Flip(p.turn) && Make(p, mv).blockers == p.blockers
    ensures |Make(p, mv).stack| == |p.stack| + 1
  {
  }

  /** `undonull` reverses `makenull`, and the other way round. */
  lemma NullUndo(p: Position)
    ensures Unnull(Null(p)) == p && Null(Unnull(p)) == p
  {
  }

  lemma RulesReversible()
    ensures Reversible(Rules())
  {
    forall p, mv | Valid(p) && mv in Moves(p)
      ensures Valid(Make(p, mv)) && Undo(Make(p, mv), mv) == p
    {
      MakeKeepsValid(p, mv);
      MovesMembers(p, mv);
      MakeUndo(p, mv);
    }
  }

  lemma RulesCountsAgree()
    ensures CountsAgree(Rules())
  {
    forall p
      ensures MoveCount(p) == |Moves(p)|
    {
      CountIsMoves(p);
    }
  }

  /** `get_result` gives a result exactly when `is_gameover` holds, on every position. */
  lemma ResultIffGameover(p: Position)
    ensures ResultOf(p).Some? <==> Gameover(p)
  {
    EmptyCount(p.black);
    EmptyCount(p.white);
  }

  lemma RulesGameoverAgrees()
    ensures GameoverAgrees(Rules())
  {
    forall p
      ensures Gameover(p) <==> ResultOf(p).Some?
    {
      ResultIffGameover(p);
    }
  }

  /** The position with the colours swapped. */
  function Swapped(p: Position): Position
  {
    p.(black := p.white, white := p.black)
  }

  /** Swapping the colours swaps the winner: the result does not favour a side. */
  lemma ResultSymmetric(p: Position)
    ensures ResultOf(Swapped(p)) ==
      match ResultOf(p)
      case None => None
      case Some(Win(s)) => Some(Win(Flip(s)))
      case Some(Draw) => Some(Draw)
  {
    assert Both(Swapped(p)) == Both(p);
  }

  // ---------------------------------------------------------------------------------------
  // The position updated in place

  class AtaxxPosition {
    var stack: seq<Snapshot>
    var black: Word
    var white: Word
    var blockers: Word
    var turn: Side
    var halfmoves: int
    var fullmoves: int

    function State(): Position
      reads this
    {
      Position(stack, black, white, blockers, turn, halfmoves, fullmoves)
    }

    /** `startpos`. */
    constructor()
      ensures State() == Start()
    {
      stack, black, white, blockers := [], Or(FromIndex(6), FromIndex(42)), Or(FromIndex(0), FromIndex(48)), Zero;
      turn, halfmoves, fullmoves := Player1, 0, 1;
    }

    /** `pieces[s] ^= bb`. */
    method Toggle(s: Side, bb: Word)
      modifies this
      ensures State() == Toggled(old(State()), s, bb)
    {
      if s == Player1 {
        black := Xor(black, bb);
      } else {
        white := Xor(white, bb);
      }
    }

    method MakeMove(mv: Move)
      requires Fits(mv)
      modifies this
      ensures State() == Make(old(State()), mv)
    {
      stack := stack + [Snapshot(black, white, halfmoves)];
      match mv {
        case Pass =>
          halfmoves := halfmoves + 1;
        case Single(to) =>
          PlaySingle(to);
        case Double(fr, to) =>
          PlayDouble(fr, to);
      }
      turn := Flip(turn);
      fullmoves := fullmoves + if turn == Player1 then 1 else 0;
    }

    /** The pieces of a single move in `makemove`: the new piece and the conversions; the halfmove clock resets. */
    method PlaySingle(to: nat)
      requires to < 64
      modifies this
      ensures State() == Placed(old(State()), to, Captured(old(State()), to)).(halfmoves := 0)
    {
      ghost var p := State();
      var bb := FromIndex(to);
      var captured := And(Adjacent(7, 7, bb), Them(State()));
      assert captured == Captured(p, to);
      Toggle(turn, bb);
      Toggle(turn, captured);
      Toggle(Flip(turn), captured);
      halfmoves := 0;
    }

    /** The pieces of a double move in `makemove`: the piece jumps and converts; the halfmove clock counts on. */
    method PlayDouble(fr: nat, to: nat)
      requires fr < 64 && to < 64
      modifies this
      ensures State() == Jumped(old(State()), fr, to, Captured(old(State()), to)).(halfmoves := old(halfmoves) + 1)
    {
      ghost var p := State();
      var bb := FromIndex(to);
      var captured := And(Adjacent(7, 7, bb), Them(State()));
      assert captured == Captured(p, to);
      Toggle(turn, bb);
      Toggle(turn, FromIndex(fr));
      Toggle(turn, captured);
      Toggle(Flip(turn), captured);
      halfmoves := halfmoves + 1;
    }

    /** `undomove`; the Rust code panics when no move was made. */
    method UndoMove(mv: Move)
      requires stack != []
      modifies this
      ensures State() == Undo(old(State()), mv)
    {
      var saved := stack[|stack| - 1];
      stack := stack[..|stack| - 1];
      black, white, halfmoves := saved.black, saved.white, saved.halfmoves;
      turn := Flip(turn);
      fullmoves := fullmoves - if turn == Player2 then 1 else 0;
    }

    method MakeNull()
      modifies this
      ensures State() == Null(old(State()))
    {
      turn := Flip(turn);
      fullmoves := fullmoves + if turn == Player1 then 1 else 0;
    }

    method UndoNull()
      modifies this
      ensures State() == Unnull(old(State()))
    {
      turn := Flip(turn);
      fullmoves := fullmoves - if turn == Player2 then 1 else 0;
    }
  }

  // ---------------------------------------------------------------------------------------
  // The loops of the generator and the counter, which only read the position

  /** `move_generator`: the singles, then the doubles from each piece, and the pass if nothing was yielded. */
  method MoveGenerator(p: Position) returns (ms: seq<Move>)
    ensures ms == Moves(p)
  {
    ms := [];
    if Gameover(p) {
      return;
    }
    var numMoves;
    ms, numMoves := PushSingles(p);
    ms, numMoves := PushAllDoubles(p, Froms(p), ms, numMoves);
    if numMoves == 0 {
      ms := [Pass];
    }
  }

  /** The outer loop of `move_generator`: the doubles from each piece in turn. */
  method PushAllDoubles(p: Position, frs: seq<Bit>, ms0: seq<Move>, n0: nat) returns (ms: seq<Move>, numMoves: nat)
    requires n0 == |ms0|
    ensures ms == ms0 + Doubles(p, frs) && numMoves == |ms|
  {
    ms, numMoves := ms0, n0;
    for j := 0 to |frs|
      invariant ms == ms0 + Doubles(p, frs[..j]) && numMoves == |ms|
    {
      ms, numMoves := PushDoubles(p, frs[j], ms, numMoves);
      DoublesSnoc(p, frs, j);
      AppendAssoc(ms0, Doubles(p, frs[..j]), DoublesFrom(frs[j], Indices(DoubleTargets(p, frs[j]))));
    }
    TakeFull(frs);
  }

  /** The first loop of `move_generator`: a single move to each target, counted. */
  method PushSingles(p: Position) returns (ms: seq<Move>, numMoves: nat)
    ensures ms == Singles(Indices(SingleTargets(p))) && numMoves == |ms|
  {
    var tos := Indices(SingleTargets(p));
    ms, numMoves := [], 0;
    for i := 0 to |tos|
      invariant ms == Singles(tos[..i]) && numMoves == |ms|
    {
      SinglesSnoc(tos, i);
      ms := ms + [Single(tos[i])];
      numMoves := numMoves + 1;
    }
    TakeFull(tos);
  }

  /** The inner loop of `move_generator`: a double move from `fr` to each of its targets, counted. */
  method PushDoubles(p: Position, fr: Bit, ms0: seq<Move>, n0: nat) returns (ms: seq<Move>, numMoves: nat)
    requires n0 == |ms0|
    ensures ms == ms0 + DoublesFrom(fr, Indices(DoubleTargets(p, fr))) && numMoves == |ms|
  {
    var tos := Indices(DoubleTargets(p, fr));
    ms, numMoves := ms0, n0;
    for k := 0 to |tos|
      invariant ms == ms0 + DoublesFrom(fr, tos[..k]) && numMoves == |ms|
    {
      DoublesFromSnoc(fr, tos, k);
      AppendAssoc(ms0, DoublesFrom(fr, tos[..k]), [Double(fr, tos[k])]);
      ms := ms + [Double(fr, tos[k])];
      numMoves := numMoves + 1;
    }
    TakeFull(tos);
  }

  /** `count_moves`: the singles by population count, the doubles piece by piece, 1 for the pass. */
  method CountMoves(p: Position) returns (n: nat)
    ensures n == MoveCount(p)
  {
    if Gameover(p) {
      return 0;
    }
    var doubles := CountDoubles(p, Froms(p));
    var nodes := Count(SingleTargets(p)) + doubles;
    if nodes == 0 {
      nodes := 1;
    }
    n := nodes;
  }

  /** The loop of `count_moves` over the pieces: the double targets of each, by population count. */
  method CountDoubles(p: Position, frs: seq<Bit>) returns (n: nat)
    ensures n == DoubleCount(p, frs)
  {
    n := 0;
    for j := 0 to |frs|
      invariant n == DoubleCount(p, frs[..j])
    {
      DoubleCountSnoc(p, frs, j);
      n := n + Count(DoubleTargets(p, frs[j]));
    }
    TakeFull(frs);
  }

  lemma SinglesSnoc(tos: seq<nat>, i: nat)
    requires i < |tos|
    ensures Singles(tos[..i + 1]) == Singles(tos[..i]) + [Single(tos[i])]
  {
    assert tos[..i + 1][..i] == tos[..i];
  }

  lemma DoublesFromSnoc(fr: nat, tos: seq<nat>, k: nat)
    requires k < |tos|
    ensures DoublesFrom(fr, tos[..k + 1]) == DoublesFrom(fr, tos[..k]) + [Double(fr, tos[k])]
  {
    assert tos[..k + 1][..k] == tos[..k];
  }

  lemma DoublesSnoc(p: Position, frs: seq<Bit>, j: nat)
    requires j < |frs|
    ensures Doubles(p, frs[..j + 1]) == Doubles(p, frs[..j]) + DoublesFrom(frs[j], Indices(DoubleTargets(p, frs[j])))
  {
    assert frs[..j + 1][..j] == frs[..j];
  }

  lemma DoubleCountSnoc(p: Position, frs: seq<Bit>, j: nat)
    requires j < |frs|
    ensures DoubleCount(p, frs[..j + 1]) == DoubleCount(p, frs[..j]) + Count(DoubleTargets(p, frs[j]))
  {
    assert frs[..j + 1][..j] == frs[..j];
  }
}
