/**
 * Isolation on an 8x6 bitboard: each side has one piece standing on the tiles. A move steps
 * the mover's piece to a neighbouring tile the opponent is not on, then takes away one other
 * tile the opponent is not on. A side that cannot step anywhere has lost.
 *
 * `Position` is the position as a value, the stack of saved words included, and
 * `Make`/`Undo`/`ResultOf` are the rules on it. The class `IsolationPosition` updates a position
 * in place. `FastCount` is the node count `fast_perft` computes from the two piece words and the
 * tiles alone; `FastPerft` is its nested loop.
 */
module Isolation {
  import opened Wrappers
  import opened GameRules
  import opened Bits
  import opened Bitboards

  /** A `Square<8, 6>`: the index of a square of the board. */
  type Square = i: nat | i < 48

  /** `Irrecoverable`: the pieces and tiles saved by `makemove`. */
  datatype Snapshot = Snapshot(black: Word, red: Word, tiles: Word)

  /** `pieces[Player1]` is `black` ('P'), `pieces[Player2]` is `red` ('p'); `tiles` are the squares still standing. */
  datatype Position = Position(stack: seq<Snapshot>, black: Word, red: Word, tiles: Word, turn: Side, fullmoves: int)

  /** An `IsolationMove`: step to `to`, then take away the tile on `remove`. */
  datatype Move = Move(to: Square, remove: Square)

  function Pieces(p: Position, s: Side): Word
  {
    if s == Player1 then p.black else p.red
  }

  /** `get_us`. */
  function Us(p: Position): Word
  {
    Pieces(p, p.turn)
  }

  /** `get_them`. */
  function Them(p: Position): Word
  {
    Pieces(p, Flip(p.turn))
  }

  /** `from_coords(7, 2)` and `from_coords(0, 3)`: where black and red start. */
  const BlackStart: Square := 23
  const RedStart: Square := 24

  /** `startpos`: black on h3, red on a4, a tile on every other square (`0xfffffe7fffff`). */
  function Start(): Position
  {
    Position([], FromIndex(BlackStart), FromIndex(RedStart), Not(8, 6, Or(FromIndex(BlackStart), FromIndex(RedStart))),
             Player1, 1)
  }

  // ---------------------------------------------------------------------------------------
  // The move generator and the move counter, on the two piece words and the tiles

  /** `tiles & !them`: the tiles the opponent does not stand on. */
  function Open(them: Word, tiles: Word): Word
  {
    And(tiles, Not(8, 6, them))
  }

  /** `us.adjacent() & tiles & !them`: the squares the mover can step to. */
  function Targets(us: Word, them: Word, tiles: Word): Word
  {
    And(And(Adjacent(8, 6, us), tiles), Not(8, 6, them))
  }

  /** `tiles & !them & !from_square(to)`, with `open` the tiles the opponent is not on: the tiles that can be taken away after stepping to `to`. */
  function Removals(open: Word, to: Square): Word
  {
    And(open, Not(8, 6, FromIndex(to)))
  }

  /** The squares of a board word, lowest first: the order `for sq in bb` visits them. */
  function SquaresOf(a: Word): seq<Square>
    requires Within(8, 6, a)
  {
    IndicesWithin(8, 6, a);
    Indices(a)
  }

  lemma MaskedWithin(a: Word, b: Word)
    ensures Within(8, 6, And(a, Not(8, 6, b)))
  {
    NotBits(8, 6, b);
  }

  function TargetSquares(us: Word, them: Word, tiles: Word): seq<Square>
  {
    MaskedWithin(And(Adjacent(8, 6, us), tiles), them);
    SquaresOf(Targets(us, them, tiles))
  }

  function RemovalSquares(open: Word, to: Square): seq<Square>
  {
    MaskedWithin(open, FromIndex(to));
    SquaresOf(Removals(open, to))
  }

  /** The moves to `to` taking away each tile of `rs` in turn. */
  function MovesTo(to: Square, rs: seq<Square>): seq<Move>
  {
    if rs == [] then [] else MovesTo(to, rs[..|rs| - 1]) + [Move(to, rs[|rs| - 1])]
  }

  /** The moves to each square of `tos` in turn. */
  function Pairs(open: Word, tos: seq<Square>): seq<Move>
  {
    if tos == [] then []
    else
      var to := tos[|tos| - 1];
      Pairs(open, tos[..|tos| - 1]) + MovesTo(to, RemovalSquares(open, to))
  }

  /** What `move_generator` yields for the mover on `us`, the opponent on `them`. */
  function MovesOf(us: Word, them: Word, tiles: Word): seq<Move>
  {
    Pairs(Open(them, tiles), TargetSquares(us, them, tiles))
  }

  /** `move_generator`. */
  function Moves(p: Position): seq<Move>
  {
    MovesOf(Us(p), Them(p), p.tiles)
  }

  /**
   * `adjacent.count() * ((tiles & !them).count() - 1)`, the overriding `count_moves`. The
   * factors are `i32`; the second is -1 only when no tile is open, and then no target is either.
   */
  function PairCount(us: Word, them: Word, tiles: Word): nat
  {
    TargetsNeedOpen(us, them, tiles);
    Pairings(Count(Targets(us, them, tiles)), Count(Open(them, tiles)))
  }

  /** Each of `targets` targets pairs with every one of `open` open tiles but itself. */
  function Pairings(targets: nat, open: nat): nat
    requires targets == 0 || open >= 1
  {
    if targets == 0 then 0 else Pairings(targets - 1, open) + (open - 1)
  }

  /** `Pairings` is the multiplication of the Rust code. */
  lemma {:induction false} PairingsIsMul(targets: nat, open: nat)
    requires targets == 0 || open >= 1
    ensures Pairings(targets, open) == targets * (open - 1)
  {
    if targets > 0 {
      PairingsIsMul(targets - 1, open);
    }
  }

  /** `count_moves`. */
  function MoveCount(p: Position): nat
  {
    PairCount(Us(p), Them(p), p.tiles)
  }

  // ---------------------------------------------------------------------------------------
  // The result

  /**
   * `get_result`: a mover with no free tile next to it has lost; otherwise, when the opponent
   * has no tile at all next to it, the mover has won.
   */
  function ResultOf(p: Position): Option<GameResult>
  {
    var available := And(p.tiles, Not(8, 6, Or(Us(p), Them(p))));
    var canMoveUs := IsOccupied(And(Adjacent(8, 6, Us(p)), available));
    var couldMoveThem := IsOccupied(And(Adjacent(8, 6, Them(p)), p.tiles));
    if !canMoveUs then Some(Win(Flip(p.turn)))
    else if !couldMoveThem then Some(Win(p.turn))
    else None
  }

  /** The default `is_gameover`. */
  function Gameover(p: Position): bool
  {
    ResultOf(p).Some?
  }

  // ---------------------------------------------------------------------------------------
  // Making and unmaking moves

  /** `pieces[s] = bb`. */
  function Placed(p: Position, s: Side, bb: Word): (q: Position)
    ensures Pieces(q, s) == bb && Pieces(q, Flip(s)) == Pieces(p, Flip(s))
    ensures q.stack == p.stack && q.tiles == p.tiles && q.turn == p.turn && q.fullmoves == p.fullmoves
  {
    if s == Player1 then p.(black := bb) else p.(red := bb)
  }

  /** `makemove`: save the pieces and tiles, put the mover on `to`, take away `remove`, pass the turn. */
  function Make(p: Position, mv: Move): Position
  {
    var t := Flip(p.turn);
    Placed(p, p.turn, FromIndex(mv.to)).(
      stack := p.stack + [Snapshot(p.black, p.red, p.tiles)], tiles := Xor(p.tiles, FromIndex(mv.remove)),
      turn := t, fullmoves := p.fullmoves + if t == Player1 then 1 else 0)
  }

  /** `undomove`: pop the saved pieces and tiles and take the turn back; the Rust code panics on an empty stack. */
  function Undo(p: Position, mv: Move): Position
  {
    if p.stack == [] then p
    else
      var saved := p.stack[|p.stack| - 1];
      var t := Flip(p.turn);
      p.(stack := p.stack[..|p.stack| - 1], black := saved.black, red := saved.red, tiles := saved.tiles,
         turn := t, fullmoves := p.fullmoves - if t == Player2 then 1 else 0)
  }

  /** `makenull`. */
  function Null(p: Position): Position
  {
    var t := Flip(p.turn);
    p.(turn := t, fullmoves := p.fullmoves + if t == Player1 then 1 else 0)
  }

  /** `undonull`. */
  function Unnull(p: Position): Position
  {
    var t := Flip(p.turn);
    p.(turn := t, fullmoves := p.fullmoves - if t == Player2 then 1 else 0)
  }

  /** `is_valid`. */
  function IsValid(p: Position): Result<()>
  {
    var blackOnStart := p.black[BlackStart];
    var redOnStart := p.red[RedStart];
    if IsOccupied(And(p.black, p.red)) then Err("black & red overlap")
    else if Count(p.black) != 1 then Err("Must be one black piece")
    else if Count(p.red) != 1 then Err("Must be one red piece")
    else if blackOnStart && p.fullmoves != 1 then Err("Fullmove counter should be 1 if black is on the starting square")
    else if redOnStart && p.fullmoves != 1 then Err("Fullmove counter should be 1 if red is on the starting square")
    else if !blackOnStart && IsEmpty(And(p.black, p.tiles)) then Err("Black must be on a tile or on the starting square")
    else if !redOnStart && IsEmpty(And(p.red, p.tiles)) then Err("Red must be on a tile or on the starting square")
    else Ok(())
  }

  /**
   * The positions play keeps inside `is_valid`: valid, no tile on either starting square, and
   * black off its starting square once red is to move. Without the last two, a piece could step
   * back onto a starting square, or stay on one, after the fullmove counter has passed 1.
   */
  predicate Playable(p: Position)
  {
    IsValid(p).Ok? && !p.tiles[BlackStart] && !p.tiles[RedStart] && (p.turn == Player2 ==> !p.black[BlackStart])
  }

  /** The rules as a `GameRules` implementation, on the positions play keeps valid. */
  function Rules(): Game<Position, Move>
  {
    Game(Moves, MoveCount, Make, Undo, ResultOf, Gameover, (p: Position) => p.turn, Playable)
  }

  // ---------------------------------------------------------------------------------------
  // The generated moves and their number

  /** A target square is an open tile. */
  lemma TargetIsOpen(us: Word, them: Word, tiles: Word, i: nat)
    requires i < 64 && Targets(us, them, tiles)[i]
    ensures Open(them, tiles)[i]
  {
  }

  lemma TargetsNeedOpen(us: Word, them: Word, tiles: Word)
    ensures Count(Targets(us, them, tiles)) == 0 || Count(Open(them, tiles)) >= 1
  {
    var t := Targets(us, them, tiles);
    if Count(t) != 0 {
      CountZeroIff(t);
      OccupiedBits(t);
      var i :| 0 <= i < 64 && t[i];
      CountClear(Open(them, tiles), i);
    }
  }

  /** Taking the target `to` out of the open tiles leaves one tile fewer. */
  lemma RemovalsCount(open: Word, to: Square)
    requires Within(8, 6, open) && open[to]
    ensures Count(Removals(open, to)) + 1 == Count(open)
  {
    NotBits(8, 6, FromIndex(to));
    assert Removals(open, to) == open[to := false];
    CountClear(open, to);
  }

  lemma {:induction false} MovesToLength(to: Square, rs: seq<Square>)
    ensures |MovesTo(to, rs)| == |rs|
  {
    if rs != [] {
      MovesToLength(to, rs[..|rs| - 1]);
    }
  }

  lemma {:induction false} MovesToMembers(to: Square, rs: seq<Square>, mv: Move)
    ensures mv in MovesTo(to, rs) <==> (mv.to == to && mv.remove in rs)
  {
    if rs != [] {
      MovesToMembers(to, rs[..|rs| - 1], mv);
      InInitOrLast(rs, mv.remove);
    }
  }

  /** Each target contributes one move per open tile but itself. */
  lemma {:induction false} PairsLength(open: Word, tos: seq<Square>)
    requires Within(8, 6, open) && Count(open) >= 1
    requires forall i :: 0 <= i < |tos| ==> open[tos[i]]
    ensures |Pairs(open, tos)| == Pairings(|tos|, Count(open))
  {
    if tos != [] {
      var init, to := tos[..|tos| - 1], tos[|tos| - 1];
      assert forall i :: 0 <= i < |init| ==> open[init[i]] by {
        assert forall i :: 0 <= i < |init| ==> init[i] == tos[i];
      }
      PairsLength(open, init);
      RemovalsLength(open, to);
      assert Pairs(open, tos) == Pairs(open, init) + MovesTo(to, RemovalSquares(open, to));
      assert Pairings(|tos|, Count(open)) == Pairings(|init|, Count(open)) + (Count(open) - 1);
    }
  }

  /** The moves to the open tile `to`: one per other open tile. */
  lemma RemovalsLength(open: Word, to: Square)
    requires Within(8, 6, open) && open[to]
    ensures |MovesTo(to, RemovalSquares(open, to))| == Count(open) - 1
  {
    RemovalsCount(open, to);
    IndicesLength(Removals(open, to));
    MovesToLength(to, RemovalSquares(open, to));
  }

  lemma {:induction false} PairsMembers(open: Word, tos: seq<Square>, mv: Move)
    ensures mv in Pairs(open, tos) <==> (mv.to in tos && Removals(open, mv.to)[mv.remove])
  {
    if tos != [] {
      var to := tos[|tos| - 1];
      PairsMembers(open, tos[..|tos| - 1], mv);
      MovesToMembers(to, RemovalSquares(open, to), mv);
      IndicesMembers(Removals(open, to));
      InInitOrLast(tos, mv.to);
    }
  }

  /** The generated moves are exactly the steps to a neighbouring open tile with another open tile taken away. */
  lemma MovesMembers(p: Position, mv: Move)
    ensures mv in Moves(p) <==> (Adjacent(8, 6, Us(p))[mv.to] && p.tiles[mv.to] && !Them(p)[mv.to] &&
                                 p.tiles[mv.remove] && !Them(p)[mv.remove] && mv.remove != mv.to)
  {
    var us, them := Us(p), Them(p);
    PairsMembers(Open(them, p.tiles), TargetSquares(us, them, p.tiles), mv);
    TargetMembers(us, them, p.tiles, mv.to);
    RemovalBits(them, p.tiles, mv.to, mv.remove);
  }

  /** The targets are the tiles next to the mover that the opponent does not hold. */
  lemma TargetMembers(us: Word, them: Word, tiles: Word, s: Square)
    ensures s in TargetSquares(us, them, tiles) <==> (Adjacent(8, 6, us)[s] && tiles[s] && !them[s])
  {
    var t := Targets(us, them, tiles);
    MaskedWithin(And(Adjacent(8, 6, us), tiles), them);
    assert TargetSquares(us, them, tiles) == Indices(t);
    IndicesMembers(t);
    NotBits(8, 6, them);
  }

  /** With the mover stepping to `to`, the tiles it may take away are the open tiles but `to`. */
  lemma RemovalBits(them: Word, tiles: Word, to: Square, r: Square)
    ensures Removals(Open(them, tiles), to)[r] <==> (tiles[r] && !them[r] && r != to)
  {
    NotBits(8, 6, them);
    NotBits(8, 6, FromIndex(to));
  }

  /** `count_moves` is the number of generated moves. */
  lemma CountIsMoves(us: Word, them: Word, tiles: Word)
    ensures PairCount(us, them, tiles) == |MovesOf(us, them, tiles)|
  {
    var t, open := Targets(us, them, tiles), Open(them, tiles);
    MaskedWithin(And(Adjacent(8, 6, us), tiles), them);
    MaskedWithin(tiles, them);
    assert forall i :: 0 <= i < 64 && t[i] ==> open[i];
    PairsCount(t, open);
    assert MovesOf(us, them, tiles) == Pairs(open, SquaresOf(t));
  }

  /** The moves to the targets `t`, all of them open tiles: one per target and open tile but the target itself. */
  lemma PairsCount(t: Word, open: Word)
    requires Within(8, 6, t) && Within(8, 6, open)
    requires forall i :: 0 <= i < 64 && t[i] ==> open[i]
    ensures Count(t) == 0 || Count(open) >= 1
    ensures |Pairs(open, SquaresOf(t))| == Pairings(Count(t), Count(open))
  {
    var tos := SquaresOf(t);
    assert tos == Indices(t);
    IndicesLength(t);
    SquaresOpen(t, open);
    if tos != [] {
      CountClear(open, tos[0]);
      PairsLength(open, tos);
    }
  }

  lemma SquaresOpen(t: Word, open: Word)
    requires Within(8, 6, t)
    requires forall i :: 0 <= i < 64 && t[i] ==> open[i]
    ensures forall i :: 0 <= i < |SquaresOf(t)| ==> open[SquaresOf(t)[i]]
  {
    assert SquaresOf(t) == Indices(t);
    IndicesMembers(t);
    forall i | 0 <= i < |Indices(t)|
      ensures open[Indices(t)[i]]
    {
      assert Indices(t)[i] in Indices(t);
    }
  }

  /** There is no move exactly when the mover has no target, or the target would be the last open tile. */
  lemma NoMoves(p: Position)
    ensures Moves(p) == [] <==> (Count(Targets(Us(p), Them(p), p.tiles)) == 0 || Count(Open(Them(p), p.tiles)) == 1)
  {
    var t, open := Targets(Us(p), Them(p), p.tiles), Open(Them(p), p.tiles);
    CountIsMoves(Us(p), Them(p), p.tiles);
    TargetsNeedOpen(Us(p), Them(p), p.tiles);
    PairingsZero(Count(t), Count(open));
  }

  lemma {:induction false} PairingsZero(targets: nat, open: nat)
    requires targets == 0 || open >= 1
    ensures Pairings(targets, open) == 0 <==> (targets == 0 || open == 1)
  {
    if targets > 0 {
      PairingsZero(targets - 1, open);
    }
  }

  // ---------------------------------------------------------------------------------------
  // fast_perft

  /**
   * `fast_perft(us, them, tiles, depth)`: 1 at depth 0, the counting formula at depth 1, and
   * below that the sum over the moves of the counts with the sides swapped.
   */
  function FastCount(us: Word, them: Word, tiles: Word, depth: nat): nat
    decreases depth, 1
  {
    if depth == 0 then 1
    else if depth == 1 then PairCount(us, them, tiles)
    else FastSum(them, tiles, MovesOf(us, them, tiles), depth - 1)
  }

  /** The sum of the counts after each move of `ms`: the mover on `to`, the tile `remove` gone. */
  function FastSum(them: Word, tiles: Word, ms: seq<Move>, depth: nat): nat
    decreases depth + 1, 0, |ms|
  {
    if ms == [] then 0
    else
      var m := ms[|ms| - 1];
      FastSum(them, tiles, ms[..|ms| - 1], depth) + FastCount(them, FromIndex(m.to), Xor(tiles, FromIndex(m.remove)), depth)
  }

  lemma FastSumSnoc(them: Word, tiles: Word, ms: seq<Move>, m: Move, depth: nat)
    ensures FastSum(them, tiles, ms + [m], depth) ==
            FastSum(them, tiles, ms, depth) + FastCount(them, FromIndex(m.to), Xor(tiles, FromIndex(m.remove)), depth)
  {
    assert (ms + [m])[..|ms|] == ms;
  }

  lemma {:induction false} FastSumAppend(them: Word, tiles: Word, ms: seq<Move>, ns: seq<Move>, depth: nat)
    ensures FastSum(them, tiles, ms + ns, depth) == FastSum(them, tiles, ms, depth) + FastSum(them, tiles, ns, depth)
  {
    if ns == [] {
      assert ms + ns == ms;
    } else {
      var init, m := ns[..|ns| - 1], ns[|ns| - 1];
      FastSumAppend(them, tiles, ms, init, depth);
      assert ms + ns == (ms + init) + [m];
      FastSumSnoc(them, tiles, ms + init, m, depth);
    }
  }

  /** After any move, the mover is the opponent, standing on `to`, and `remove` has changed. */
  lemma MakeSides(p: Position, mv: Move)
    ensures Us(Make(p, mv)) == Them(p) && Them(Make(p, mv)) == FromIndex(mv.to)
    ensures Make(p, mv).tiles == Xor(p.tiles, FromIndex(mv.remove))
  {
  }

  /** `fast_perft` on the position's pieces and tiles counts what the generic `perft` counts. */
  lemma {:induction false} FastIsPerft(p: Position, depth: nat)
    ensures FastCount(Us(p), Them(p), p.tiles, depth) == PerftCount(Rules(), p, depth)
    decreases depth, 1
  {
    var g := Rules();
    if depth == 1 {
      assert PerftCount(g, p, depth) == MoveCount(p);
    } else if depth > 1 {
      FastSumIsSumPerft(p, Moves(p), depth - 1);
      assert PerftCount(g, p, depth) == SumPerft(g, p, Moves(p), depth - 1);
      assert FastCount(Us(p), Them(p), p.tiles, depth) == FastSum(Them(p), p.tiles, Moves(p), depth - 1);
    }
  }

  lemma {:induction false} FastSumIsSumPerft(p: Position, ms: seq<Move>, depth: nat)
    ensures FastSum(Them(p), p.tiles, ms, depth) == SumPerft(Rules(), p, ms, depth)
    decreases depth + 1, 0, |ms|
  {
    if ms != [] {
      var m := ms[|ms| - 1];
      FastSumIsSumPerft(p, ms[..|ms| - 1], depth);
      FastIsPerft(Make(p, m), depth);
      MakeSides(p, m);
    }
  }

  // ---------------------------------------------------------------------------------------
  // Validity

  lemma ValidIsLone(p: Position)
    requires IsValid(p).Ok?
    ensures Count(p.black) == 1 && Count(p.red) == 1
  {
  }

  /** A single square is not next to itself: every shift in `adjacent` moves the bit. */
  lemma NotSelfAdjacent(s: nat)
    requires s < 64
    ensures !Adjacent(8, 6, FromIndex(s))[s]
  {
    var b := FromIndex(s);
    assert !Shl(b, 8)[s] && !Shr(b, 8)[s] && !Shr(b, 1)[s] && !Shr(b, 9)[s] && !Shl(b, 7)[s];
    assert !Shl(b, 1)[s] && !Shl(b, 9)[s] && !Shr(b, 7)[s];
  }

  /**
   * With the mover on a single square, the mover loses exactly when it has no square to step
   * to: the free tiles next to it are the targets of the generator.
   */
  lemma StuckLoses(p: Position)
    requires Count(Us(p)) == 1
    ensures ResultOf(p) == Some(Win(Flip(p.turn))) <==> IsEmpty(Targets(Us(p), Them(p), p.tiles))
  {
    CountOne(Us(p));
    LoneTargets(Us(p), Them(p), p.tiles, Indices(Us(p))[0]);
  }

  /** Next to a lone piece, the free tiles are the tiles not taken by the opponent. */
  lemma LoneTargets(us: Word, them: Word, tiles: Word, s: nat)
    requires s < 64 && us == FromIndex(s)
    ensures And(Adjacent(8, 6, us), And(tiles, Not(8, 6, Or(us, them)))) == Targets(us, them, tiles)
  {
    NotSelfAdjacent(s);
    NotBits(8, 6, Or(us, them));
    NotBits(8, 6, them);
    var l, r := And(Adjacent(8, 6, us), And(tiles, Not(8, 6, Or(us, them)))), Targets(us, them, tiles);
    forall i | 0 <= i < 64
      ensures l[i] == r[i]
    {
      if i == s {
        assert !Adjacent(8, 6, us)[i];
      }
    }
  }

  /** The game goes on only while both sides have a tile next to them. */
  lemma OpenGame(p: Position)
    requires Playable(p) && ResultOf(p) == None
    ensures !IsEmpty(Targets(Us(p), Them(p), p.tiles)) && IsOccupied(And(Adjacent(8, 6, Them(p)), p.tiles))
  {
    ValidIsLone(p);
    StuckLoses(p);
  }

  lemma MakeUndo(p: Position, mv: Move)
    ensures Undo(Make(p, mv), mv) == p
  {
    var q := Make(p, mv);
    assert q.stack[..|q.stack| - 1] == p.stack;
  }

  /** The counters: the turn passes and fullmoves grows after Player2's move. */
  lemma MakeCounters(p: Position, mv: Move)
    ensures Make(p, mv).fullmoves == p.fullmoves + if p.turn == Player2 then 1 else 0
    ensures Make(p, mv).turn == Flip(p.turn) && |Make(p, mv).stack| == |p.stack| + 1
  {
  }

  lemma NullUndo(p: Position)
    ensures Unnull(Null(p)) == p && Null(Unnull(p)) == p
  {
  }

  /** The piece the move steps to stands on a tile that is not taken away, off both starting squares. */
  lemma MovedOnTile(p: Position, mv: Move)
    requires Playable(p) && mv in Moves(p)
    ensures Make(p, mv).tiles[mv.to] && mv.to != BlackStart && mv.to != RedStart
    ensures !Make(p, mv).tiles[BlackStart] && !Make(p, mv).tiles[RedStart]
    ensures forall i :: 0 <= i < 64 && Them(p)[i] ==> Make(p, mv).tiles[i] == p.tiles[i]
  {
    MovesMembers(p, mv);
  }

  /** A generated move keeps the position playable. */
  lemma MakeKeepsPlayable(p: Position, mv: Move)
    requires Playable(p) && mv in Moves(p)
    ensures Playable(Make(p, mv))
  {
    var b, r := ValidPieces(p);
    MovesMembers(p, mv);
    MovedOnTile(p, mv);
    var q := Make(p, mv);
    if p.turn == Player1 {
      assert q.black == FromIndex(mv.to) && q.red == p.red && q.fullmoves == p.fullmoves;
      assert Them(p)[r];
      ValidWhen(q, mv.to, r);
    } else {
      assert q.red == FromIndex(mv.to) && q.black == p.black && q.fullmoves == p.fullmoves + 1;
      assert Them(p)[b];
      ValidWhen(q, b, mv.to);
    }
  }

  /** A valid position has one black and one red piece, each on a tile unless still on its starting square. */
  lemma ValidPieces(p: Position) returns (b: nat, r: nat)
    requires IsValid(p).Ok?
    ensures b < 64 && r < 64 && b != r && p.black == FromIndex(b) && p.red == FromIndex(r)
    ensures (b == BlackStart ==> p.fullmoves == 1) && (r == RedStart ==> p.fullmoves == 1)
    ensures (b == BlackStart || p.tiles[b]) && (r == RedStart || p.tiles[r])
  {
    ValidFacts(p);
    CountOne(p.black);
    CountOne(p.red);
    b, r := Indices(p.black)[0], Indices(p.red)[0];
    LoneOn(p.black, p.red, b);
    LoneOn(p.black, p.tiles, b);
    LoneOn(p.red, p.tiles, r);
  }

  /** What `is_valid` checks, without its messages. */
  lemma ValidFacts(p: Position)
    requires IsValid(p).Ok?
    ensures !IsOccupied(And(p.black, p.red)) && Count(p.black) == 1 && Count(p.red) == 1
    ensures (p.black[BlackStart] ==> p.fullmoves == 1) && (p.red[RedStart] ==> p.fullmoves == 1)
    ensures (p.black[BlackStart] || IsOccupied(And(p.black, p.tiles)))
    ensures (p.red[RedStart] || IsOccupied(And(p.red, p.tiles)))
  {
  }

  /** The converse of `ValidPieces`: two pieces on distinct squares, placed that way, make a valid position. */
  lemma ValidWhen(q: Position, b: nat, r: nat)
    requires b < 64 && r < 64 && b != r && q.black == FromIndex(b) && q.red == FromIndex(r)
    requires (b == BlackStart ==> q.fullmoves == 1) && (r == RedStart ==> q.fullmoves == 1)
    requires (b == BlackStart || q.tiles[b]) && (r == RedStart || q.tiles[r])
    ensures IsValid(q).Ok?
  {
    CountFromIndex(b);
    CountFromIndex(r);
    LoneOn(q.black, q.red, b);
    LoneOn(q.black, q.tiles, b);
    LoneOn(q.red, q.tiles, r);
    assert q.black[BlackStart] <==> b == BlackStart;
    assert q.red[RedStart] <==> r == RedStart;
  }

  /** A single piece on square `s` meets the word `c` exactly when `c` holds `s`. */
  lemma LoneOn(a: Word, c: Word, s: nat)
    requires s < 64 && a == FromIndex(s)
    ensures IsOccupied(And(a, c)) <==> c[s]
  {
    OccupiedBits(And(a, c));
    if c[s] {
      assert And(a, c)[s];
    }
  }

  // ---------------------------------------------------------------------------------------
  // The GameRules contract

  lemma RulesReversible()
    ensures Reversible(Rules())
  {
    forall p, mv | Playable(p) && mv in Moves(p)
      ensures Playable(Make(p, mv)) && Undo(Make(p, mv), mv) == p
    {
      MakeKeepsPlayable(p, mv);
      MakeUndo(p, mv);
    }
  }

  lemma RulesCountsAgree()
    ensures CountsAgree(Rules())
  {
    forall p
      ensures MoveCount(p) == |Moves(p)|
    {
      CountIsMoves(Us(p), Them(p), p.tiles);
    }
  }

  /** The start position is playable. */
  lemma StartPlayable()
    ensures Playable(Start())
  {
    var p := Start();
    assert Count(p.black) == 1 && Count(p.red) == 1 by {
      CountFromIndex(BlackStart);
      CountFromIndex(RedStart);
    }
    assert !IsOccupied(And(p.black, p.red)) by {
      assert And(p.black, p.red) == Zero;
    }
    assert p.black[BlackStart] && p.red[RedStart];
    assert !p.tiles[BlackStart] && !p.tiles[RedStart] by {
      NotBits(8, 6, Or(FromIndex(BlackStart), FromIndex(RedStart)));
    }
  }

  // ---------------------------------------------------------------------------------------
  // In place

  class IsolationPosition {
    var stack: seq<Snapshot>
    var black: Word
    var red: Word
    var tiles: Word
    var turn: Side
    var fullmoves: int

    function State(): Position
      reads this
    {
      Position(stack, black, red, tiles, turn, fullmoves)
    }

    /** `startpos`. */
    constructor()
      ensures State() == Start()
    {
      stack := [];
      black := FromIndex(BlackStart);
      red := FromIndex(RedStart);
      tiles := Not(8, 6, Or(FromIndex(BlackStart), FromIndex(RedStart)));
      turn := Player1;
      fullmoves := 1;
    }

    method MakeMove(mv: Move)
      modifies this
      ensures State() == Make(old(State()), mv)
    {
      stack := stack + [Snapshot(black, red, tiles)];
      if turn == Player1 {
        black := FromIndex(mv.to);
      } else {
        red := FromIndex(mv.to);
      }
      tiles := Xor(tiles, FromIndex(mv.remove));
      turn := Flip(turn);
      fullmoves := fullmoves + if turn == Player1 then 1 else 0;
    }

    /** `undomove`; the Rust code panics when no move was made. */
    method UndoMove(mv: Move)
      requires stack != []
      modifies this
      ensures State() == Undo(old(State()), mv)
    {
      var saved := stack[|stack| - 1];
      stack := stack[..|stack| - 1];
      black, red, tiles := saved.black, saved.red, saved.tiles;
      turn := Flip(turn);
      fullmoves := fullmoves - if turn == Player2 then 1 else 0;
    }

    method MakeNull()
      modifies this
      ensures State() == Null(old(State()))
    {
      turn := Flip(turn);
      fullmoves := fullmoves + if turn == Player1 then 1 else 0;
    }

    method UndoNull()
      modifies this
      ensures State() == Unnull(old(State()))
    {
      turn := Flip(turn);
      fullmoves := fullmoves - if turn == Player2 then 1 else 0;
    }
  }

  // ---------------------------------------------------------------------------------------
  // The loops of the generator and of fast_perft

  /** `move_generator`: for each target, a move taking away each other open tile. */
  method MoveGenerator(p: Position) returns (ms: seq<Move>)
    ensures ms == Moves(p)
  {
    var open := Open(Them(p), p.tiles);
    var tos := TargetSquares(Us(p), Them(p), p.tiles);
    ms := [];
    for i := 0 to |tos|
      invariant ms == Pairs(open, tos[..i])
    {
      var rs := RemovalSquares(open, tos[i]);
      ms := PushMovesTo(tos[i], rs, ms);
      PairsSnoc(open, tos, i);
    }
    TakeFull(tos);
  }

  /** The inner loop of `move_generator`: a move to `to` taking away each tile of `rs`. */
  method PushMovesTo(to: Square, rs: seq<Square>, ms0: seq<Move>) returns (ms: seq<Move>)
    ensures ms == ms0 + MovesTo(to, rs)
  {
    ms := ms0;
    for k := 0 to |rs|
      invariant ms == ms0 + MovesTo(to, rs[..k])
    {
      MovesToSnoc(to, rs, k);
      AppendAssoc(ms0, MovesTo(to, rs[..k]), [Move(to, rs[k])]);
      ms := ms + [Move(to, rs[k])];
    }
    TakeFull(rs);
  }

  lemma MovesToSnoc(to: Square, rs: seq<Square>, k: nat)
    requires k < |rs|
    ensures MovesTo(to, rs[..k + 1]) == MovesTo(to, rs[..k]) + [Move(to, rs[k])]
  {
    assert rs[..k + 1][..k] == rs[..k];
  }

  lemma PairsSnoc(open: Word, tos: seq<Square>, i: nat)
    requires i < |tos|
    ensures Pairs(open, tos[..i + 1]) == Pairs(open, tos[..i]) + MovesTo(tos[i], RemovalSquares(open, tos[i]))
  {
    assert tos[..i + 1][..i] == tos[..i];
  }

  /** `fast_perft`: the formula at depth 1, the nested loop over the moves below that. */
  method FastPerft(us: Word, them: Word, tiles: Word, depth: nat) returns (nodes: nat)
    ensures nodes == FastCount(us, them, tiles, depth)
    decreases depth, 2
  {
    if depth == 0 {
      return 1;
    }
    if depth == 1 {
      var adjacent := Targets(us, them, tiles);
      TargetsNeedOpen(us, them, tiles);
      return Pairings(Count(adjacent), Count(Open(them, tiles)));
    }
    nodes := FastPerftDeep(us, them, tiles, depth);
  }

  /** The outer loop of `fast_perft`, over the targets, below depth 1. */
  method FastPerftDeep(us: Word, them: Word, tiles: Word, depth: nat) returns (nodes: nat)
    requires depth >= 2
    ensures nodes == FastSum(them, tiles, MovesOf(us, them, tiles), depth - 1)
    decreases depth, 1
  {
    var open := Open(them, tiles);
    var tos := TargetSquares(us, them, tiles);
    nodes := 0;
    for i := 0 to |tos|
      invariant nodes == FastSum(them, tiles, Pairs(open, tos[..i]), depth - 1)
    {
      var rs := RemovalSquares(open, tos[i]);
      var sub := FastPerftTo(them, tiles, tos[i], rs, depth - 1);
      PairsSnoc(open, tos, i);
      FastSumAppend(them, tiles, Pairs(open, tos[..i]), MovesTo(tos[i], rs), depth - 1);
      nodes := nodes + sub;
    }
    TakeFull(tos);
  }

  /** The inner loop of `fast_perft`: the counts after stepping to `to` and taking away each tile of `rs`. */
  method FastPerftTo(them: Word, tiles: Word, to: Square, rs: seq<Square>, depth: nat) returns (nodes: nat)
    ensures nodes == FastSum(them, tiles, MovesTo(to, rs), depth)
    decreases depth + 1, 0
  {
    nodes := 0;
    for k := 0 to |rs|
      invariant nodes == FastSum(them, tiles, MovesTo(to, rs[..k]), depth)
    {
      var child := FastPerft(them, FromIndex(to), Xor(tiles, FromIndex(rs[k])), depth);
      MovesToSnoc(to, rs, k);
      FastSumSnoc(them, tiles, MovesTo(to, rs[..k]), Move(to, rs[k]), depth);
      nodes := nodes + child;
    }
    TakeFull(rs);
  }
}
