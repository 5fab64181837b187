/**
 * Connect 4 on a 7x6 bitboard: a move names a file and the mover's piece falls to the lowest
 * empty square of that file; four of one side's pieces in a row (up, right, up-right or
 * up-left) win, and a full board without one is a draw.
 *
 * `Position` is the position as a value and `Make`/`Undo`/`ResultOf` are the rules on it,
 * written with the bitboard operations the Rust code uses. The lemmas read them on squares:
 * `MakeDrops` says where the piece lands, `ResultIsFour` what a win is. The class
 * `Connect4Position` updates a position in place and its methods, the specialised `perft`
 * among them, are proved against those functions.
 */
module Connect4 {
  import opened Wrappers
  import opened GameRules
  import opened Bits
  import opened Bitboards

  /** `pieces[Player1]` is `red`, `pieces[Player2]` is `yellow`. */
  datatype Position = Position(red: Word, yellow: Word, turn: Side, fullmoves: int)

  /** A `Connect4Move`: the file the piece is dropped in, below 7. */
  type Move = nat

  function Pieces(p: Position, s: Side): Word
  {
    if s == Player1 then p.red else p.yellow
  }

  /** `pieces[s] ^= bb`. */
  function Toggled(p: Position, s: Side, bb: Word): (q: Position)
    ensures Pieces(q, s) == Xor(Pieces(p, s), bb) && Pieces(q, Flip(s)) == Pieces(p, Flip(s))
    ensures q.turn == p.turn && q.fullmoves == p.fullmoves
  {
    if s == Player1 then p.(red := Xor(p.red, bb)) else p.(yellow := Xor(p.yellow, bb))
  }

  /** `get_empty`: `!(red | yellow)`, within the board. */
  function Empty(p: Position): Word
  {
    Not(7, 6, Or(p.red, p.yellow))
  }

  /** `startpos`: no pieces, Player1 (red) to move, fullmoves 1. */
  function Start(): Position
  {
    Position(Zero, Zero, Player1, 1)
  }

  /** Square (x, y) holds a piece of either side. */
  predicate Occupied(p: Position, x: nat, y: nat)
  {
    Has(p.red, Sq(7, x, y)) || Has(p.yellow, Sq(7, x, y))
  }

  lemma EmptyAt(p: Position, x: nat, y: nat)
    requires x < 7 && y < 6
    ensures Has(Empty(p), Sq(7, x, y)) <==> !Occupied(p, x, y)
  {
    SqBound(7, 6, x, y);
    NotBits(7, 6, Or(p.red, p.yellow));
    HasOr(p.red, p.yellow, Sq(7, x, y));
  }

  /**
   * `makemove`: the lowest empty square of file `f`, `lsb_bb` of the file's empty squares,
   * goes to the mover; the turn passes and fullmoves counts Player1's turns.
   */
  function Make(p: Position, f: Move): Position
  {
    if f < 7 then
      var bb := LsbBb(And(FromFile(7, 6, f), Empty(p)));
      var t := Flip(p.turn);
      Toggled(p, p.turn, bb).(turn := t, fullmoves := p.fullmoves + if t == Player1 then 1 else 0)
    else p
  }

  /**
   * `undomove`: the turn passes back and the mover loses the highest of its pieces in file `f`
   * (`msb`); fullmoves is restored.
   */
  function Undo(p: Position, f: Move): Position
  {
    if f < 7 then
      var t := Flip(p.turn);
      var sq := Msb(And(FromFile(7, 6, f), Pieces(p, t)));
      var q := if sq < 0 then p else Toggled(p, t, FromIndex(sq));
      q.(turn := t, fullmoves := p.fullmoves - if t == Player2 then 1 else 0)
    else p
  }

  /** `is_valid`: the sides do not overlap and no piece of either side floats above an empty square. */
  function IsValid(p: Position): Result<()>
  {
    if IsOccupied(And(p.red, p.yellow)) then Err("red & yellow overlap")
    else if IsOccupied(And(South(7, 6, p.red), Empty(p))) then Err("floating red")
    else if IsOccupied(And(South(7, 6, p.yellow), Empty(p))) then Err("floating yellow")
    else Ok(())
  }

  /** The positions the game reaches: board words that `is_valid` accepts. */
  predicate Valid(p: Position)
  {
    Within(7, 6, p.red) && Within(7, 6, p.yellow) && IsValid(p).Ok?
  }

  /** No square holds both a red and a yellow piece. */
  ghost predicate Disjoint(p: Position)
  {
    forall x: nat, y: nat :: x < 7 && y < 6 ==> !(Has(p.red, Sq(7, x, y)) && Has(p.yellow, Sq(7, x, y)))
  }

  /** Every piece of `b` above the first rank stands on a piece. */
  ghost predicate Supported(p: Position, b: Word)
  {
    forall x: nat, y: nat :: x < 7 && 0 < y < 6 && Has(b, Sq(7, x, y)) ==> Occupied(p, x, y - 1)
  }

  /** What `is_valid` means on squares: the pieces of each file are stacked from the bottom. */
  ghost predicate Stacked(p: Position)
  {
    Within(7, 6, p.red) && Within(7, 6, p.yellow) && Disjoint(p) && Supported(p, p.red) && Supported(p, p.yellow)
  }

  lemma OverlapIff(p: Position)
    requires Within(7, 6, p.red)
    ensures !IsOccupied(And(p.red, p.yellow)) <==> Disjoint(p)
  {
    OccupiedBits(And(p.red, p.yellow));
    if IsOccupied(And(p.red, p.yellow)) {
      var i :| 0 <= i < 64 && And(p.red, p.yellow)[i];
      SqOf(7, 6, i);
      var x, y := i % 7, i / 7;
      assert Has(p.red, Sq(7, x, y)) && Has(p.yellow, Sq(7, x, y));
    }
    if !Disjoint(p) {
      var x: nat, y: nat :| x < 7 && y < 6 && Has(p.red, Sq(7, x, y)) && Has(p.yellow, Sq(7, x, y));
      assert And(p.red, p.yellow)[Sq(7, x, y)];
    }
  }

  lemma FloatingIff(p: Position, b: Word)
    requires Within(7, 6, b)
    ensures !IsOccupied(And(South(7, 6, b), Empty(p))) <==> Supported(p, b)
  {
    var m := And(South(7, 6, b), Empty(p));
    OccupiedBits(m);
    if IsOccupied(m) {
      var i :| 0 <= i < 64 && m[i];
      Floating(p, b, i);
    }
    if !Supported(p, b) {
      var x: nat, y: nat :| x < 7 && 0 < y < 6 && Has(b, Sq(7, x, y)) && !Occupied(p, x, y - 1);
      Unsupported(p, b, x, y);
    }
  }

  /** A bit of `south(b) & empty` is a square under a floating piece of `b`. */
  lemma Floating(p: Position, b: Word, i: nat)
    requires Within(7, 6, b) && i < 64 && And(South(7, 6, b), Empty(p))[i]
    ensures !Supported(p, b)
  {
    SouthBits(7, 6, b);
    SqOf(7, 6, i);
    var x, y := i % 7, i / 7;
    SouthAt(7, 6, b, x, y);
    EmptyAt(p, x, y);
    assert Has(b, Sq(7, x, y + 1)) && !Occupied(p, x, y + 1 - 1);
  }

  /** A floating piece of `b` puts the square under it in `south(b) & empty`. */
  lemma Unsupported(p: Position, b: Word, x: nat, y: nat)
    requires Within(7, 6, b) && x < 7 && 0 < y < 6 && Has(b, Sq(7, x, y)) && !Occupied(p, x, y - 1)
    ensures IsOccupied(And(South(7, 6, b), Empty(p)))
  {
    SouthAt(7, 6, b, x, y - 1);
    EmptyAt(p, x, y - 1);
    SqBound(7, 6, x, y - 1);
    OccupiedBits(And(South(7, 6, b), Empty(p)));
    assert And(South(7, 6, b), Empty(p))[Sq(7, x, y - 1)];
  }

  /** `is_valid` accepts exactly the stacked positions. */
  lemma ValidIsStacked(p: Position)
    ensures Valid(p) <==> Stacked(p)
  {
    if Within(7, 6, p.red) && Within(7, 6, p.yellow) {
      OverlapIff(p);
      FloatingIff(p, p.red);
      FloatingIff(p, p.yellow);
    }
  }

  /** The first empty square of file `x` from rank `y` up, 6 when there is none. */
  function HeightFrom(p: Position, x: nat, y: nat): (n: nat)
    requires x < 7 && y <= 6
    ensures y <= n <= 6
    decreases 6 - y
  {
    if y == 6 || !Occupied(p, x, y) then y else HeightFrom(p, x, y + 1)
  }

  /** How many pieces file `x` holds. */
  function Height(p: Position, x: nat): nat
    requires x < 7
  {
    HeightFrom(p, x, 0)
  }

  lemma {:induction false} HeightFromBits(p: Position, x: nat, y: nat)
    requires x < 7 && y <= 6
    ensures forall k :: y <= k < HeightFrom(p, x, y) ==> Occupied(p, x, k)
    ensures HeightFrom(p, x, y) < 6 ==> !Occupied(p, x, HeightFrom(p, x, y))
    decreases 6 - y
  {
    if y < 6 && Occupied(p, x, y) {
      HeightFromBits(p, x, y + 1);
    }
  }

  /** Above an empty square of a stacked file every square is empty. */
  lemma {:induction false} EmptyAbove(p: Position, x: nat, n: nat, y: nat)
    requires Stacked(p) && x < 7 && n <= y < 6 && !Occupied(p, x, n)
    ensures !Occupied(p, x, y)
    decreases y - n
  {
    if n < y {
      EmptyAbove(p, x, n, y - 1);
    }
  }

  /** A stacked file is occupied exactly below its height. */
  lemma ColumnShape(p: Position, x: nat)
    requires Stacked(p) && x < 7
    ensures forall y: nat :: y < 6 ==> (Occupied(p, x, y) <==> y < Height(p, x))
  {
    HeightFromBits(p, x, 0);
    forall y: nat | Height(p, x) <= y < 6
      ensures !Occupied(p, x, y)
    {
      EmptyAbove(p, x, Height(p, x), y);
    }
  }

  /** The square a drop in file `f` lands on: the lowest empty one, which `lsb_bb` picks. */
  lemma DropSquare(p: Position, f: Move)
    requires Stacked(p) && f < 7 && Height(p, f) < 6
    ensures LsbBb(And(FromFile(7, 6, f), Empty(p))) == FromIndex(Sq(7, f, Height(p, f)))
  {
    var h := Height(p, f);
    var a := And(FromFile(7, 6, f), Empty(p));
    var s := Sq(7, f, h);
    SqBound(7, 6, f, h);
    FromFileAt(7, 6, f, f, h);
    ColumnShape(p, f);
    EmptyAt(p, f, h);
    assert a[s];
    LsbBbIsLowestBit(a);
    var l := Lsb(a);
    assert l <= s;
    FromFileBits(7, 6, f);
    SqOf(7, 6, l);
    FromFileAt(7, 6, f, l % 7, l / 7);
    EmptyAt(p, l % 7, l / 7);
    assert l == s;
  }

  /**
   * `makemove` on a stacked position and a file with room: the mover's piece lands on the
   * lowest empty square of the file, nothing else changes, the turn passes, and fullmoves goes
   * up exactly when Player1 is to move again.
   */
  lemma MakeDrops(p: Position, f: Move)
    requires Stacked(p) && f < 7 && Height(p, f) < 6
    ensures var h := Height(p, f); var q := Make(p, f);
      !Occupied(p, f, h) && (forall y: nat :: y < h ==> Occupied(p, f, y)) &&
      Pieces(q, p.turn) == Xor(Pieces(p, p.turn), FromIndex(Sq(7, f, h))) &&
      Pieces(q, Flip(p.turn)) == Pieces(p, Flip(p.turn)) &&
      q.turn == Flip(p.turn) && q.fullmoves == p.fullmoves + (if q.turn == Player1 then 1 else 0)
  {
    ColumnShape(p, f);
    DropSquare(p, f);
  }

  /** After the drop the occupied squares are the old ones and the landing square. */
  lemma MakeOccupied(p: Position, f: Move)
    requires Stacked(p) && f < 7 && Height(p, f) < 6
    ensures forall x: nat, y: nat :: x < 7 && y < 6 ==>
      (Occupied(Make(p, f), x, y) <==> Occupied(p, x, y) || (x == f && y == Height(p, f)))
    ensures forall x: nat, y: nat :: x < 7 && y < 6 ==>
      (Has(Pieces(Make(p, f), p.turn), Sq(7, x, y)) <==> Has(Pieces(p, p.turn), Sq(7, x, y)) || (x == f && y == Height(p, f)))
  {
    var h := Height(p, f);
    var q := Make(p, f);
    MakeDrops(p, f);
    forall x: nat, y: nat | x < 7 && y < 6
      ensures Occupied(q, x, y) <==> Occupied(p, x, y) || (x == f && y == h)
      ensures Has(Pieces(q, p.turn), Sq(7, x, y)) <==> Has(Pieces(p, p.turn), Sq(7, x, y)) || (x == f && y == h)
    {
      SqBound(7, 6, x, y);
      if Sq(7, x, y) == Sq(7, f, h) {
        SqUnique(7, x, y, f, h);
      }
    }
  }

  /** A drop keeps the position stacked. */
  lemma MakeStacked(p: Position, f: Move)
    requires Stacked(p) && f < 7 && Height(p, f) < 6
    ensures Stacked(Make(p, f))
  {
    var h := Height(p, f);
    var q := Make(p, f);
    MakeDrops(p, f);
    MakeOccupied(p, f);
    SqBound(7, 6, f, h);
    assert Within(7, 6, Pieces(q, p.turn));
    assert Supported(q, Pieces(q, p.turn)) by {
      forall x: nat, y: nat | x < 7 && 0 < y < 6 && Has(Pieces(q, p.turn), Sq(7, x, y))
        ensures Occupied(q, x, y - 1)
      {
      }
    }
    assert Supported(q, Pieces(q, Flip(p.turn)));
    assert Disjoint(q) by {
      forall x: nat, y: nat | x < 7 && y < 6
        ensures !(Has(q.red, Sq(7, x, y)) && Has(q.yellow, Sq(7, x, y)))
      {
        assert Has(Pieces(q, Flip(p.turn)), Sq(7, x, y)) == Has(Pieces(p, Flip(p.turn)), Sq(7, x, y));
      }
    }
  }

  /** After the drop, the mover's highest piece in the file is the one just dropped. */
  lemma HighestOwn(p: Position, f: Move)
    requires Stacked(p) && f < 7 && Height(p, f) < 6
    ensures Msb(And(FromFile(7, 6, f), Pieces(Make(p, f), p.turn))) == Sq(7, f, Height(p, f)) as int
  {
    var h := Height(p, f);
    var q := Make(p, f);
    var a := And(FromFile(7, 6, f), Pieces(q, p.turn));
    var s := Sq(7, f, h);
    MakeOccupied(p, f);
    ColumnShape(p, f);
    SqBound(7, 6, f, h);
    FromFileAt(7, 6, f, f, h);
    assert a[s];
    var m := Msb(a);
    assert s <= m;
    if s < m {
      AboveDrop(p, f, m);
    }
  }

  /** No piece of the mover lies in file `f` above the square just dropped on. */
  lemma AboveDrop(p: Position, f: Move, i: nat)
    requires Stacked(p) && f < 7 && Height(p, f) < 6 && Sq(7, f, Height(p, f)) < i < 64
    ensures !And(FromFile(7, 6, f), Pieces(Make(p, f), p.turn))[i]
  {
    var h := Height(p, f);
    FromFileBits(7, 6, f);
    if i < 42 {
      SqOf(7, 6, i);
      var x, y := i % 7, i / 7;
      FromFileAt(7, 6, f, x, y);
      MakeOccupied(p, f);
      ColumnShape(p, f);
      if x == f {
        assert y > h;
        assert !Has(Pieces(Make(p, f), p.turn), Sq(7, x, y));
      }
    }
  }

  /** `undomove` takes back `makemove` on a stacked position. */
  lemma MakeUndo(p: Position, f: Move)
    requires Stacked(p) && f < 7 && Height(p, f) < 6
    ensures Undo(Make(p, f), f) == p
  {
    var h := Height(p, f);
    var q := Make(p, f);
    MakeDrops(p, f);
    HighestOwn(p, f);
    SqBound(7, 6, f, h);
    XorTwice(Pieces(p, p.turn), FromIndex(Sq(7, f, h)));
    var r := Undo(q, f);
    assert Pieces(r, p.turn) == Pieces(p, p.turn);
    assert Pieces(r, Flip(p.turn)) == Pieces(p, Flip(p.turn));
  }

  /** The four directions `get_result` looks in, in the order it looks. */
  datatype Direction = Up | Right | UpRight | UpLeft

  function DX(d: Direction): int
  {
    match d
    case Up => 0
    case Right => 1
    case UpRight => 1
    case UpLeft => -1
  }

  function DY(d: Direction): int
  {
    if d == Right then 0 else 1
  }

  /** `north`, `east`, `ne` and `nw`: every piece one step along `d`. */
  function Shift(d: Direction, b: Word): Word
  {
    match d
    case Up => North(7, 6, b)
    case Right => East(7, 6, b)
    case UpRight => NorthEast(7, 6, b)
    case UpLeft => NorthWest(7, 6, b)
  }

  /** `b & b.dir() & b.dir().dir() & b.dir().dir().dir()`: the ends of four in a row along `d`. */
  function FourMask(b: Word, d: Direction): Word
  {
    var s1 := Shift(d, b);
    var s2 := Shift(d, s1);
    var s3 := Shift(d, s2);
    And(And(And(b, s1), s2), s3)
  }

  /** The test `get_result` makes for one side, direction by direction. */
  predicate Wins(b: Word)
  {
    IsOccupied(FourMask(b, Up)) || IsOccupied(FourMask(b, Right)) ||
    IsOccupied(FourMask(b, UpRight)) || IsOccupied(FourMask(b, UpLeft))
  }

  /** `get_result`: Player1's four first, then Player2's, then a full board is a draw. */
  function ResultOf(p: Position): Option<GameResult>
  {
    if Wins(p.red) then Some(Win(Player1))
    else if Wins(p.yellow) then Some(Win(Player2))
    else if IsEmpty(Empty(p)) then Some(Draw)
    else None
  }

  /** `is_gameover`, the trait's default. */
  function Gameover(p: Position): (over: bool)
  {
    ResultOf(p).Some?
  }

  predicate OnBoard(x: int, y: int)
  {
    0 <= x < 7 && 0 <= y < 6
  }

  /** Four pieces of `b` in a row along `d`, the last of them on (x, y). */
  ghost predicate FourTo(b: Word, x: int, y: int, d: Direction)
  {
    OnBoard(x, y) && OnBoard(x - 3 * DX(d), y - 3 * DY(d)) &&
    Has(b, Sq(7, x, y)) && Has(b, Sq(7, x - DX(d), y - DY(d))) &&
    Has(b, Sq(7, x - 2 * DX(d), y - 2 * DY(d))) && Has(b, Sq(7, x - 3 * DX(d), y - 3 * DY(d)))
  }

  ghost predicate HasFour(b: Word)
  {
    exists x: int, y: int, d: Direction :: FourTo(b, x, y, d)
  }

  /** Every square of the board is occupied. */
  ghost predicate Full(p: Position)
  {
    forall x: nat, y: nat :: x < 7 && y < 6 ==> Occupied(p, x, y)
  }

  /** One step along `d` moves the piece on (x - dx, y - dy) to (x, y); nothing comes from off the board. */
  lemma ShiftAt(d: Direction, b: Word, x: nat, y: nat)
    requires x < 7 && y < 6
    ensures Has(Shift(d, b), Sq(7, x, y)) <==>
      OnBoard(x - DX(d), y - DY(d)) && Has(b, Sq(7, x - DX(d), y - DY(d)))
  {
    match d
    case Up =>
      NorthAt(7, 6, b, x, y);
    case Right =>
      EastAt(7, 6, b, x, y);
    case UpRight =>
      NorthEastAt(b, x, y);
    case UpLeft =>
      NorthWestAt(b, x, y);
  }

  lemma NorthEastAt(b: Word, x: nat, y: nat)
    requires x < 7 && y < 6
    ensures Has(NorthEast(7, 6, b), Sq(7, x, y)) <==> 0 < x && 0 < y && Has(b, Sq(7, x - 1, y - 1))
  {
    EastAt(7, 6, North(7, 6, b), x, y);
    if x > 0 {
      NorthAt(7, 6, b, x - 1, y);
    }
  }

  lemma NorthWestAt(b: Word, x: nat, y: nat)
    requires x < 7 && y < 6
    ensures Has(NorthWest(7, 6, b), Sq(7, x, y)) <==> x + 1 < 7 && 0 < y && Has(b, Sq(7, x + 1, y - 1))
  {
    WestAt(7, 6, North(7, 6, b), x, y);
    if x + 1 < 7 {
      NorthAt(7, 6, b, x + 1, y);
    }
  }

  lemma ShiftWithin(d: Direction, b: Word)
    ensures Within(7, 6, Shift(d, b))
  {
    match d
    case Up =>
      NorthBits(7, 6, b);
    case Right =>
      EastBits(7, 6, b);
    case UpRight =>
      EastBits(7, 6, North(7, 6, b));
    case UpLeft =>
      WestBits(7, 6, North(7, 6, b));
  }

  /** Word `c` is word `a` moved one step by (dx, dy), losing what leaves the board. */
  ghost predicate StepOf(a: Word, c: Word, dx: int, dy: int)
  {
    forall x: nat, y: nat :: x < 7 && y < 6 ==>
      (Has(c, Sq(7, x, y)) <==> OnBoard(x - dx, y - dy) && Has(a, Sq(7, x - dx, y - dy)))
  }

  lemma ShiftStep(d: Direction, a: Word)
    ensures StepOf(a, Shift(d, a), DX(d), DY(d))
  {
    var c, dx, dy := Shift(d, a), DX(d), DY(d);
    forall x: nat, y: nat | x < 7 && y < 6
      ensures Has(c, Sq(7, x, y)) <==> OnBoard(x - dx, y - dy) && Has(a, Sq(7, x - dx, y - dy))
    {
      ShiftAt(d, a, x, y);
    }
  }

  /** Three steps: the square (x, y) of the third word is the square three steps back of the first. */
  lemma ThreeSteps(b: Word, s1: Word, s2: Word, s3: Word, dx: int, dy: int, x: nat, y: nat)
    requires StepOf(b, s1, dx, dy) && StepOf(s1, s2, dx, dy) && StepOf(s2, s3, dx, dy) && x < 7 && y < 6
    ensures Has(s1, Sq(7, x, y)) <==> OnBoard(x - dx, y - dy) && Has(b, Sq(7, x - dx, y - dy))
    ensures Has(s2, Sq(7, x, y)) <==> OnBoard(x - 2 * dx, y - 2 * dy) && Has(b, Sq(7, x - 2 * dx, y - 2 * dy))
    ensures Has(s3, Sq(7, x, y)) <==> OnBoard(x - 3 * dx, y - 3 * dy) && Has(b, Sq(7, x - 3 * dx, y - 3 * dy))
  {
    TwoSteps(b, s1, s2, dx, dy, x, y);
    TwoSteps(s1, s2, s3, dx, dy, x, y);
    if OnBoard(x - 2 * dx, y - 2 * dy) {
      var x2: nat, y2: nat := x - 2 * dx, y - 2 * dy;
      assert Has(s1, Sq(7, x2, y2)) <==> OnBoard(x2 - dx, y2 - dy) && Has(b, Sq(7, x2 - dx, y2 - dy));
      assert x2 - dx == x - 3 * dx && y2 - dy == y - 3 * dy;
    }
  }

  /** Two steps: the square (x, y) of the second word is the square two steps back of the first. */
  lemma TwoSteps(a: Word, c: Word, e: Word, dx: int, dy: int, x: nat, y: nat)
    requires StepOf(a, c, dx, dy) && StepOf(c, e, dx, dy) && x < 7 && y < 6
    ensures Has(e, Sq(7, x, y)) <==> OnBoard(x - 2 * dx, y - 2 * dy) && Has(a, Sq(7, x - 2 * dx, y - 2 * dy))
  {
    assert Has(e, Sq(7, x, y)) <==> OnBoard(x - dx, y - dy) && Has(c, Sq(7, x - dx, y - dy));
    if OnBoard(x - dx, y - dy) {
      var x1: nat, y1: nat := x - dx, y - dy;
      assert Has(c, Sq(7, x1, y1)) <==> OnBoard(x1 - dx, y1 - dy) && Has(a, Sq(7, x1 - dx, y1 - dy));
      assert x1 - dx == x - 2 * dx && y1 - dy == y - 2 * dy;
    }
  }

  /** A square of the four-mask is the end of four in a row. */
  lemma FourMaskAt(b: Word, d: Direction, x: nat, y: nat)
    requires x < 7 && y < 6
    ensures Has(FourMask(b, d), Sq(7, x, y)) <==> FourTo(b, x, y, d)
  {
    var s1 := Shift(d, b);
    var s2 := Shift(d, s1);
    var s3 := Shift(d, s2);
    SqBound(7, 6, x, y);
    ShiftStep(d, b);
    ShiftStep(d, s1);
    ShiftStep(d, s2);
    ThreeSteps(b, s1, s2, s3, DX(d), DY(d), x, y);
    AndAt(b, s1, s2, s3, Sq(7, x, y));
  }

  lemma AndAt(a: Word, b: Word, c: Word, e: Word, i: nat)
    requires i < 64
    ensures And(And(And(a, b), c), e)[i] == (a[i] && b[i] && c[i] && e[i])
  {
  }

  /** The mask along `d` is occupied exactly when four in a row along `d` exist. */
  lemma FourMaskIff(b: Word, d: Direction)
    ensures IsOccupied(FourMask(b, d)) <==> exists x: int, y: int :: FourTo(b, x, y, d)
  {
    var m := FourMask(b, d);
    OccupiedBits(m);
    if IsOccupied(m) {
      var i :| 0 <= i < 64 && m[i];
      ShiftWithin(d, Shift(d, Shift(d, b)));
      assert i < 42;
      SqOf(7, 6, i);
      FourMaskAt(b, d, i % 7, i / 7);
      assert FourTo(b, i % 7, i / 7, d);
    }
    if exists x: int, y: int :: FourTo(b, x, y, d) {
      var x: int, y: int :| FourTo(b, x, y, d);
      FourMaskAt(b, d, x, y);
      SqBound(7, 6, x, y);
      assert m[Sq(7, x, y)];
    }
  }

  /** `get_result`'s test for one side finds exactly four in a row in one of the four directions. */
  lemma WinsIsFour(b: Word)
    ensures Wins(b) <==> HasFour(b)
  {
    FourMaskIff(b, Up);
    FourMaskIff(b, Right);
    FourMaskIff(b, UpRight);
    FourMaskIff(b, UpLeft);
    if HasFour(b) {
      var x: int, y: int, d: Direction :| FourTo(b, x, y, d);
      assert exists x: int, y: int :: FourTo(b, x, y, d);
    }
  }

  /** No empty square is left exactly when every square is occupied. */
  lemma NoEmptyIsFull(p: Position)
    ensures IsEmpty(Empty(p)) <==> Full(p)
  {
    NotBits(7, 6, Or(p.red, p.yellow));
    if Empty(p) == Zero {
      forall x: nat, y: nat | x < 7 && y < 6
        ensures Occupied(p, x, y)
      {
        EmptyAt(p, x, y);
      }
    }
    if Full(p) {
      forall i | 0 <= i < 64
        ensures !Empty(p)[i]
      {
        if i < 42 {
          SqOf(7, 6, i);
          EmptyAt(p, i % 7, i / 7);
        }
      }
      assert Empty(p) == Zero;
    }
  }

  /**
   * `get_result` read on squares: four red in a row win for Player1, else four yellow in a row
   * win for Player2, else a full board is a draw, else the game goes on.
   */
  lemma ResultIsFour(p: Position)
    ensures ResultOf(p) == if HasFour(p.red) then Some(Win(Player1))
      else if HasFour(p.yellow) then Some(Win(Player2))
      else if Full(p) then Some(Draw)
      else None
  {
    WinsIsFour(p.red);
    WinsIsFour(p.yellow);
    NoEmptyIsFull(p);
  }

  /** `get_top_edge() & get_empty()`: the top squares still empty. */
  function OpenTop(p: Position): Word
  {
    And(TopEdge(7, 6), Empty(p))
  }

  /** `sq.get_file()` of each square. */
  function FilesOf(sqs: seq<nat>): (fs: seq<Move>)
    ensures |fs| == |sqs|
  {
    seq(|sqs|, i requires 0 <= i < |sqs| => sqs[i] % 7)
  }

  /** `move_generator`: nothing once the game is over, else the file of each open top square, lowest first. */
  function Moves(p: Position): seq<Move>
  {
    if Gameover(p) then [] else FilesOf(Indices(OpenTop(p)))
  }

  /** `count_moves`: 0 once the game is over, else the number of open top squares. */
  function CountMoves(p: Position): nat
  {
    if Gameover(p) then 0 else Count(OpenTop(p))
  }

  lemma FilesOfSnoc(sqs: seq<nat>, i: nat)
    requires i < |sqs|
    ensures FilesOf(sqs[..i + 1]) == FilesOf(sqs[..i]) + [sqs[i] % 7]
  {
    assert FilesOf(sqs[..i + 1])[..i] == FilesOf(sqs[..i]);
  }

  /** The files below `n` whose top square is empty, in increasing order. */
  function OpenFiles(p: Position, n: nat): seq<Move>
    requires n <= 7
  {
    if n == 0 then [] else OpenFiles(p, n - 1) + (if Occupied(p, n - 1, 5) then [] else [n - 1])
  }

  lemma {:induction false} OpenFilesMembers(p: Position, n: nat)
    requires n <= 7
    ensures Increasing(OpenFiles(p, n))
    ensures forall f: nat :: f in OpenFiles(p, n) <==> f < n && !Occupied(p, f, 5)
  {
    if n > 0 {
      OpenFilesMembers(p, n - 1);
      var s := OpenFiles(p, n - 1);
      forall i, j | 0 <= i < j < |OpenFiles(p, n)|
        ensures OpenFiles(p, n)[i] < OpenFiles(p, n)[j]
      {
        if j == |s| {
          assert s[i] in s;
        }
      }
    }
  }

  /** A file's top square is empty exactly when a stacked file has room. */
  lemma OpenIsNotFull(p: Position, f: Move)
    requires Stacked(p) && f < 7
    ensures !Occupied(p, f, 5) <==> Height(p, f) < 6
  {
    ColumnShape(p, f);
  }

  lemma OpenTopAt(p: Position, i: nat)
    requires i < 64
    ensures OpenTop(p)[i] <==> 35 <= i < 42 && !Occupied(p, i - 35, 5)
  {
    if 35 <= i < 42 {
      EmptyAt(p, i - 35, 5);
    }
  }

  lemma TopFile(i: nat)
    requires 35 <= i < 42
    ensures i % 7 == i - 35
  {
  }

  /** A word set exactly on the empty top squares lists, lowest first, the files with an empty top square. */
  lemma TopFilesOf(p: Position, m: Word)
    requires forall i :: 0 <= i < 64 ==> (m[i] <==> 35 <= i < 42 && !Occupied(p, i - 35, 5))
    ensures FilesOf(Indices(m)) == OpenFiles(p, 7)
  {
    var fs := FilesOf(Indices(m));
    TopSquares(p, m);
    TopFilesMembers(p, m);
    IndicesOrdered(m);
    assert Increasing(fs);
    OpenFilesMembers(p, 7);
    IncreasingUnique(fs, OpenFiles(p, 7));
  }

  /** Each listed square is the top square of the file it is listed as. */
  lemma TopSquares(p: Position, m: Word)
    requires forall i :: 0 <= i < 64 ==> (m[i] <==> 35 <= i < 42 && !Occupied(p, i - 35, 5))
    ensures forall k :: 0 <= k < |Indices(m)| ==>
      Indices(m)[k] == 35 + FilesOf(Indices(m))[k] && FilesOf(Indices(m))[k] < 7 && !Occupied(p, FilesOf(Indices(m))[k], 5)
  {
    var sqs := Indices(m);
    var fs := FilesOf(sqs);
    IndicesMembers(m);
    forall k | 0 <= k < |sqs|
      ensures sqs[k] == 35 + fs[k] && fs[k] < 7 && !Occupied(p, fs[k], 5)
    {
      assert sqs[k] in sqs;
      TopFile(sqs[k]);
    }
  }

  /** The listed files are the files whose top square is empty. */
  lemma TopFilesMembers(p: Position, m: Word)
    requires forall i :: 0 <= i < 64 ==> (m[i] <==> 35 <= i < 42 && !Occupied(p, i - 35, 5))
    ensures forall f: Move :: f in FilesOf(Indices(m)) <==> f < 7 && !Occupied(p, f, 5)
  {
    var sqs := Indices(m);
    var fs := FilesOf(sqs);
    TopSquares(p, m);
    IndicesMembers(m);
    forall f: Move
      ensures f in fs <==> f < 7 && !Occupied(p, f, 5)
    {
      if f < 7 && !Occupied(p, f, 5) {
        assert m[35 + f];
        var k :| 0 <= k < |sqs| && sqs[k] == 35 + f;
        assert fs[k] == f;
      }
    }
  }

  /** The files of the open top squares, lowest first, are the files whose top square is empty. */
  lemma OpenTopFiles(p: Position)
    ensures FilesOf(Indices(OpenTop(p))) == OpenFiles(p, 7)
  {
    forall i | 0 <= i < 64
      ensures OpenTop(p)[i] <==> 35 <= i < 42 && !Occupied(p, i - 35, 5)
    {
      OpenTopAt(p, i);
    }
    TopFilesOf(p, OpenTop(p));
  }

  /** The generator yields the files whose top square is empty, in file order, until the game is over. */
  lemma MovesAreOpenFiles(p: Position)
    ensures Moves(p) == if Gameover(p) then [] else OpenFiles(p, 7)
  {
    OpenTopFiles(p);
  }

  /** `count_moves` counts what the generator yields: the files with room, 0 once the game is over. */
  lemma CountIsMoves(p: Position)
    ensures CountMoves(p) == |Moves(p)|
  {
    IndicesOrdered(OpenTop(p));
  }

  /** The rules as a `GameRules` implementation, on the positions `is_valid` accepts. */
  function Rules(): Game<Position, Move>
  {
    Game(Moves, CountMoves, Make, Undo, ResultOf, Gameover, (p: Position) => p.turn, Valid)
  }

  lemma RulesReversible()
    ensures Reversible(Rules())
  {
    forall p, m | Valid(p) && m in Moves(p)
      ensures Valid(Make(p, m)) && Undo(Make(p, m), m) == p
    {
      ValidIsStacked(p);
      MovesAreOpenFiles(p);
      OpenFilesMembers(p, 7);
      OpenIsNotFull(p, m);
      MakeStacked(p, m);
      ValidIsStacked(Make(p, m));
      MakeUndo(p, m);
    }
  }

  lemma RulesCountsAgree()
    ensures CountsAgree(Rules())
  {
    forall p
      ensures CountMoves(p) == |Moves(p)|
    {
      CountIsMoves(p);
    }
  }

  lemma RulesGameoverAgrees()
    ensures GameoverAgrees(Rules())
  {
  }

  // ---------------------------------------------------------------------------------------
  // Perft

  lemma MovesIgnoreFullmoves(p: Position, n: int)
    ensures Moves(p.(fullmoves := n)) == Moves(p)
    ensures CountMoves(p.(fullmoves := n)) == CountMoves(p)
  {
    var q := p.(fullmoves := n);
    assert q == Position(p.red, p.yellow, p.turn, n);
    assert Empty(q) == Empty(p);
    assert ResultOf(q) == ResultOf(p);
  }

  /** One more open top square in the sum of `perft`. */
  lemma SumPerftStep(p: Position, sqs: seq<nat>, i: nat, depth: nat)
    requires i < |sqs|
    ensures SumPerft(Rules(), p, FilesOf(sqs[..i + 1]), depth) ==
            SumPerft(Rules(), p, FilesOf(sqs[..i]), depth) + PerftCount(Rules(), Make(p, sqs[i] % 7), depth)
  {
    FilesOfSnoc(sqs, i);
    var ms := FilesOf(sqs[..i]);
    assert (ms + [sqs[i] % 7])[..|ms|] == ms;
  }

  /** Below the last ply, perft sums over the files of the open top squares while nobody has won. */
  lemma PerftOpenTop(p: Position, depth: nat)
    requires depth > 1 && !Gameover(p)
    ensures PerftCount(Rules(), p, depth) == SumPerft(Rules(), p, FilesOf(Indices(OpenTop(p))), depth - 1)
  {
  }

  /** Perft does not look at fullmoves. */
  lemma {:induction false} PerftIgnoresFullmoves(p: Position, n: int, depth: nat)
    ensures PerftCount(Rules(), p.(fullmoves := n), depth) == PerftCount(Rules(), p, depth)
    decreases depth, 1
  {
    MovesIgnoreFullmoves(p, n);
    if depth > 1 {
      SumPerftIgnoresFullmoves(p, n, Moves(p), depth - 1);
    }
  }

  lemma {:induction false} SumPerftIgnoresFullmoves(p: Position, n: int, ms: seq<Move>, depth: nat)
    ensures SumPerft(Rules(), p.(fullmoves := n), ms, depth) == SumPerft(Rules(), p, ms, depth)
    decreases depth + 1, 0, |ms|
  {
    if ms != [] {
      var m := ms[|ms| - 1];
      SumPerftIgnoresFullmoves(p, n, ms[..|ms| - 1], depth);
      var child := Make(p.(fullmoves := n), m);
      assert child == Make(p, m).(fullmoves := child.fullmoves);
      PerftIgnoresFullmoves(Make(p, m), child.fullmoves, depth);
    }
  }

  /** With every top square empty, all 7 files are open. */
  lemma AllOpen(p: Position)
    requires forall x: nat :: x < 7 ==> !Occupied(p, x, 5)
    ensures OpenFiles(p, 7) == [0, 1, 2, 3, 4, 5, 6]
  {
    assert OpenFiles(p, 1) == [0];
    assert OpenFiles(p, 3) == [0, 1, 2];
    assert OpenFiles(p, 5) == [0, 1, 2, 3, 4];
  }

  /** A position where every top square is empty and nobody has won has all 7 moves. */
  lemma AllFilesOpen(p: Position)
    requires !Gameover(p) && forall x: nat :: x < 7 ==> !Occupied(p, x, 5)
    ensures Moves(p) == [0, 1, 2, 3, 4, 5, 6] && CountMoves(p) == 7
  {
    AllOpen(p);
    MovesAreOpenFiles(p);
    CountIsMoves(p);
  }

  /** A word with at most the one square (f, 0) holds no four in a row. */
  lemma OneSquareNoFour(b: Word, f: nat)
    requires forall x: nat, y: nat :: x < 7 && y < 6 && Has(b, Sq(7, x, y)) ==> x == f && y == 0
    ensures !HasFour(b)
  {
    forall x: int, y: int, d: Direction | OnBoard(x, y) && OnBoard(x - 3 * DX(d), y - 3 * DY(d)) && Has(b, Sq(7, x, y))
      ensures !Has(b, Sq(7, x - DX(d), y - DY(d)))
    {
    }
  }

  lemma StartStacked()
    ensures Stacked(Start()) && !Gameover(Start())
  {
    ResultIsFour(Start());
    OneSquareNoFour(Zero, 0);
    assert !Occupied(Start(), 0, 5);
  }

  /** After one drop on the empty board, all 7 moves are there again. */
  lemma OneDrop(f: Move)
    requires f < 7
    ensures CountMoves(Make(Start(), f)) == 7
  {
    var q := Make(Start(), f);
    StartStacked();
    assert Height(Start(), f) == 0;
    MakeOccupied(Start(), f);
    ResultIsFour(q);
    OneSquareNoFour(q.red, f);
    OneSquareNoFour(q.yellow, f);
    assert !Occupied(q, 0, 5);
    AllFilesOpen(q);
  }

  lemma {:induction false} SumOneDrops(ms: seq<Move>)
    requires forall i :: 0 <= i < |ms| ==> ms[i] < 7
    ensures SumPerft(Rules(), Start(), ms, 1) == 7 * |ms|
  {
    if ms != [] {
      SumOneDrops(ms[..|ms| - 1]);
      OneDrop(ms[|ms| - 1]);
    }
  }

  /** From the start all 7 files are open: perft 1 and 7. */
  lemma StartMoves()
    ensures Moves(Start()) == [0, 1, 2, 3, 4, 5, 6] && CountMoves(Start()) == 7
    ensures PerftCount(Rules(), Start(), 0) == 1 && PerftCount(Rules(), Start(), 1) == 7
  {
    StartStacked();
    AllFilesOpen(Start());
  }

  /** Perft 2 from the start: 49. */
  lemma StartPerft()
    ensures PerftCount(Rules(), Start(), 2) == 49
  {
    StartMoves();
    SevenDrops();
  }

  lemma SevenDrops()
    ensures SumPerft(Rules(), Start(), [0, 1, 2, 3, 4, 5, 6], 1) == 49
  {
    SumOneDrops([0, 1, 2, 3, 4, 5, 6]);
  }

  // ---------------------------------------------------------------------------------------
  // The position updated in place

  class Connect4Position {
    var red: Word
    var yellow: Word
    var turn: Side
    var fullmoves: int

    function State(): Position
      reads this
    {
      Position(red, yellow, turn, fullmoves)
    }

    /** `startpos`. */
    constructor()
      ensures State() == Start()
    {
      red, yellow, turn, fullmoves := Zero, Zero, Player1, 1;
    }

    /** `pieces[s] ^= bb`. */
    method Toggle(s: Side, bb: Word)
      modifies this
      ensures State() == Toggled(old(State()), s, bb)
    {
      if s == Player1 {
        red := Xor(red, bb);
      } else {
        yellow := Xor(yellow, bb);
      }
    }

    method MakeMove(f: Move)
      requires f < 7
      modifies this
      ensures State() == Make(old(State()), f)
    {
      var bb := LsbBb(And(FromFile(7, 6, f), Empty(State())));
      Toggle(turn, bb);
      turn := Flip(turn);
      fullmoves := fullmoves + if turn == Player1 then 1 else 0;
    }

    method UndoMove(f: Move)
      requires f < 7
      modifies this
      ensures State() == Undo(old(State()), f)
    {
      turn := Flip(turn);
      var sq := Msb(And(FromFile(7, 6, f), Pieces(State(), turn)));
      if sq >= 0 {
        Toggle(turn, FromIndex(sq));
      }
      fullmoves := fullmoves - if turn == Player2 then 1 else 0;
    }

    /** `move_generator`: the file of each open top square, lowest first, unless the game is over. */
    method MoveGenerator() returns (ms: seq<Move>)
      ensures ms == Moves(State())
    {
      ms := [];
      if Gameover(State()) {
        return;
      }
      var sqs := Indices(OpenTop(State()));
      for i := 0 to |sqs|
        invariant ms == FilesOf(sqs[..i])
      {
        FilesOfSnoc(sqs, i);
        ms := ms + [sqs[i] % 7];
      }
      assert sqs[..|sqs|] == sqs;
    }

    /** `get_result`: each side in turn, each direction in turn, then the full board. */
    method GetResult() returns (r: Option<GameResult>)
      ensures r == ResultOf(State())
    {
      var p := State();
      var sides := [Player1, Player2];
      for i := 0 to 2
        invariant 1 <= i ==> !Wins(p.red)
        invariant 2 <= i ==> !Wins(p.yellow)
      {
        if Wins(Pieces(p, sides[i])) {
          return Some(Win(sides[i]));
        }
      }
      if IsEmpty(Empty(p)) {
        return Some(Draw);
      }
      return None;
    }

    /**
     * The specialised `perft`: children are reached by toggling the landing square and the turn,
     * without fullmoves, and left by toggling them back.
     */
    method Perft(depth: nat) returns (nodes: nat)
      modifies this
      ensures nodes == PerftCount(Rules(), old(State()), depth)
      ensures State() == old(State())
      decreases depth, 2
    {
      if depth == 0 {
        return 1;
      }
      if depth == 1 {
        return CountMoves(State());
      }
      if Gameover(State()) {
        return 0;
      }
      PerftOpenTop(State(), depth);
      nodes := PerftChildren(depth);
    }

    /** The loop in `perft` over the open top squares. */
    method PerftChildren(depth: nat) returns (nodes: nat)
      requires depth > 1
      modifies this
      ensures nodes == SumPerft(Rules(), old(State()), FilesOf(Indices(OpenTop(old(State())))), depth - 1)
      ensures State() == old(State())
      decreases depth, 1
    {
      ghost var p := State();
      var sqs := Indices(OpenTop(State()));
      nodes := 0;
      for i := 0 to |sqs|
        invariant State() == p
        invariant nodes == SumPerft(Rules(), p, FilesOf(sqs[..i]), depth - 1)
      {
        var f := sqs[i] % 7;
        var n := PerftChild(f, depth - 1);
        SumPerftStep(p, sqs, i, depth - 1);
        nodes := nodes + n;
      }
      assert sqs[..|sqs|] == sqs;
    }

    /** One turn of the loop in `perft`: drop in file `f` with the turn toggled, count, and take it back. */
    method PerftChild(f: Move, depth: nat) returns (n: nat)
      requires f < 7
      modifies this
      ensures n == PerftCount(Rules(), Make(old(State()), f), depth)
      ensures State() == old(State())
      decreases depth, 3
    {
      ghost var p := State();
      var bb := LsbBb(And(FromFile(7, 6, f), Empty(State())));
      Toggle(turn, bb);
      turn := Flip(turn);
      assert State() == Make(p, f).(fullmoves := p.fullmoves);
      PerftIgnoresFullmoves(Make(p, f), p.fullmoves, depth);
      n := Perft(depth);
      turn := Flip(turn);
      Toggle(turn, bb);
      XorTwice(Pieces(p, p.turn), bb);
    }
  }
}
