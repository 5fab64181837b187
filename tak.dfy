/**
 * Tak on an n x n board (3 <= n <= 8): stacks of pieces kept as bit stacks, the
 * placement moves and their undo, `is_valid` and `get_result`.
 *
 * A Rust `Stack` is a 64-bit `set` and a `u8` height: bit i of `set` tells whether the
 * i-th piece from the bottom is Player1's. The position keeps one stack per square, three
 * piece-type masks (flat, standing, cap) and two side masks over the same squares.
 */
module Tak {
  import opened Wrappers
  import opened GameRules
  import opened Bits
  import opened Bitboards

  // ---------------------------------------------------------------------------------------
  // Stack

  /** A stack's value: the bits of its pieces, bottom first, and its height. */
  datatype Pile = Pile(bits: Word, height: nat)

  const EmptyPile := Pile(Zero, 0)

  /** The pieces of the stack, bottom first: true for a Player1 piece. */
  function PiecesOf(s: Pile): seq<bool>
    requires s.height <= 64
  {
    s.bits[..s.height]
  }

  /** What every stack operation keeps: no bit is set at or above the height. */
  predicate Tidy(s: Pile)
  {
    s.height <= 64 && forall i :: s.height <= i < 64 ==> !s.bits[i]
  }

  /** `(b as u64) << i`. */
  function BitAt(b: bool, i: nat): Word
    requires i < 64
  {
    if b then FromIndex(i) else Zero
  }

  /** `(1 << n) - 1`: the bits below `n`. */
  function LowMask(n: nat): Word
    requires n < 64
  {
    LowMaskBits(n);
    Dec(FromIndex(n))
  }

  lemma LowMaskBits(n: nat)
    requires n < 64
    ensures |Dec(FromIndex(n))| == 64
    ensures forall j :: 0 <= j < 64 ==> Dec(FromIndex(n))[j] == (j < n)
  {
    var one := FromIndex(n);
    TzBits(one);
    DecBits(one);
    assert one[n];
    assert Tz(one) == n;
  }

  /** `push`: `set ^= (is_p1 as u64) << height; height += 1`. Rust rejects the shift once the height is 64. */
  function PilePush(s: Pile, isP1: bool): Pile
    requires s.height < 64
  {
    Pile(Xor(s.bits, BitAt(isP1, s.height)), s.height + 1)
  }

  /** `pop`: `height -= 1; set &= !(1 << height)`. */
  function PilePop(s: Pile): Pile
    requires 0 < s.height <= 64
  {
    Pile(And(s.bits, Complement(FromIndex(s.height - 1))), s.height - 1)
  }

  /** `pop_n`: `height -= n; set &= (1 << height) - 1`. */
  function PilePopN(s: Pile, n: nat): Pile
    requires n <= s.height && s.height - n < 64
  {
    Pile(And(s.bits, LowMask(s.height - n)), s.height - n)
  }

  /** The word `pop_top(count)` returns: `set >> (height - count)`. */
  function PileTop(s: Pile, count: nat): Word
    requires count <= s.height && s.height - count < 64
  {
    Shr(s.bits, s.height - count)
  }

  /** `push_top(top, count)`: `set ^= top << height; height += count`. */
  function PilePushTop(s: Pile, top: Word, count: nat): Pile
    requires s.height < 64
  {
    Pile(Xor(s.bits, Shl(top, s.height)), s.height + count)
  }

  /** `get_owner`: nobody on an empty stack, else the owner of the top piece. */
  function Owner(s: Pile): Option<Side>
    requires s.height <= 64
  {
    if s.height == 0 then None
    else if s.bits[s.height - 1] then Some(Player1)
    else Some(Player2)
  }

  /** Pushing adds one piece on top and keeps the stack tidy. */
  lemma PushedPieces(s: Pile, isP1: bool)
    requires Tidy(s) && s.height < 64
    ensures Tidy(PilePush(s, isP1))
    ensures PiecesOf(PilePush(s, isP1)) == PiecesOf(s) + [isP1]
    ensures Owner(PilePush(s, isP1)) == Some(if isP1 then Player1 else Player2)
  {
    var t := PilePush(s, isP1);
    assert forall i :: 0 <= i < 64 ==> t.bits[i] == (if i == s.height then isP1 else s.bits[i]);
  }

  /** Popping takes the top piece off and keeps the stack tidy. */
  lemma PoppedPieces(s: Pile)
    requires Tidy(s) && 0 < s.height
    ensures Tidy(PilePop(s))
    ensures PiecesOf(PilePop(s)) == PiecesOf(s)[..s.height - 1]
  {
  }

  /** `pop_n` takes the top `n` pieces off and keeps the stack tidy. */
  lemma PoppedNPieces(s: Pile, n: nat)
    requires Tidy(s) && n <= s.height && s.height - n < 64
    ensures Tidy(PilePopN(s, n))
    ensures PiecesOf(PilePopN(s, n)) == PiecesOf(s)[..s.height - n]
  {
    LowMaskBits(s.height - n);
  }

  /** `pop` after `push` gives the stack back, bit for bit. */
  lemma PushPop(s: Pile, isP1: bool)
    requires Tidy(s) && s.height < 64
    ensures PilePop(PilePush(s, isP1)) == s
  {
    var t := PilePop(PilePush(s, isP1));
    assert forall i :: 0 <= i < 64 ==> t.bits[i] == s.bits[i];
  }

  /** The word `pop_top(count)` returns holds the top `count` pieces, bottom first, and nothing above. */
  lemma TopPieces(s: Pile, count: nat)
    requires Tidy(s) && count <= s.height && s.height - count < 64
    ensures PileTop(s, count)[..count] == PiecesOf(s)[s.height - count..]
    ensures forall i :: count <= i < 64 ==> !PileTop(s, count)[i]
  {
  }

  /** `push_top` after `pop_top` gives the stack back, bit for bit. */
  lemma PopTopPushTop(s: Pile, count: nat)
    requires Tidy(s) && count <= s.height && s.height - count < 64
    ensures PilePushTop(PilePopN(s, count), PileTop(s, count), count) == s
  {
    var low := PilePopN(s, count);
    LowMaskBits(s.height - count);
    var t := PilePushTop(low, PileTop(s, count), count);
    assert forall i :: 0 <= i < 64 ==> t.bits[i] == s.bits[i];
  }

  /** `push_top` of a word holding `count` pieces and nothing above puts them on top. */
  lemma PushedTopPieces(s: Pile, top: Word, count: nat)
    requires Tidy(s) && s.height + count <= 64 && s.height < 64
    requires forall i :: count <= i < 64 ==> !top[i]
    ensures Tidy(PilePushTop(s, top, count))
    ensures PiecesOf(PilePushTop(s, top, count)) == PiecesOf(s) + top[..count]
  {
    var t := PilePushTop(s, top, count);
    assert forall i :: 0 <= i < 64 ==> t.bits[i] == (if i < s.height then s.bits[i] else top[i - s.height]);
  }

  /**
   * A Rust `Stack`, updated in place. Each method is the matching function on the stack's
   * value; the lemmas above say what those do to the pieces.
   */
  class Stack {
    var bits: Word
    var height: nat

    function Value(): Pile
      reads this
    {
      Pile(bits, height)
    }

    /** `Stack::default()`. */
    constructor()
      ensures Value() == EmptyPile
    {
      bits, height := Zero, 0;
    }

    /** `is_empty`. */
    function IsEmpty(): (r: bool)
      reads this
      ensures r <==> Value().height == 0
    {
      height == 0
    }

    /** `is_player1(idx)`: `(set >> idx) & 1 == 1`. */
    function IsPlayer1(idx: nat): (r: bool)
      reads this
      requires idx < 64
      ensures Tidy(Value()) && idx < height ==> (r <==> PiecesOf(Value())[idx])
    {
      bits[idx]
    }

    /** `get_owner`. */
    function GetOwner(): (r: Option<Side>)
      reads this
      requires height <= 64
      ensures r == None <==> height == 0
      ensures r == Some(Player1) <==> height > 0 && PiecesOf(Value())[height - 1]
    {
      Owner(Value())
    }

    method Push(isP1: bool)
      requires height < 64
      modifies this
      ensures Value() == PilePush(old(Value()), isP1)
    {
      bits := Xor(bits, BitAt(isP1, height));
      height := height + 1;
    }

    method Pop()
      requires 0 < height <= 64
      modifies this
      ensures Value() == PilePop(old(Value()))
    {
      height := height - 1;
      bits := And(bits, Complement(FromIndex(height)));
    }

    method PopN(n: nat)
      requires n <= height && height - n < 64
      modifies this
      ensures Value() == PilePopN(old(Value()), n)
    {
      height := height - n;
      bits := And(bits, LowMask(height));
    }

    method PopTop(count: nat) returns (top: Word)
      requires count <= height && height - count < 64
      modifies this
      ensures top == PileTop(old(Value()), count) && Value() == PilePopN(old(Value()), count)
    {
      var newHeight := height - count;
      top := Shr(bits, newHeight);
      bits := And(bits, LowMask(newHeight));
      height := newHeight;
    }

    method PushTop(top: Word, count: nat)
      requires height < 64
      modifies this
      ensures Value() == PilePushTop(old(Value()), top, count)
    {
      bits := Xor(bits, Shl(top, height));
      height := height + count;
    }
  }

  // ---------------------------------------------------------------------------------------
  // Position

  /** `PieceType`: the kind of stone on top of a stack. */
  datatype Kind = Flat | Standing | Cap

  /** The source's two-element arrays indexed by `Side`. */
  datatype PerSide<T> = PerSide(p1: T, p2: T)
  {
    function Get(s: Side): T
    {
      if s == Player1 then p1 else p2
    }

    function With(s: Side, v: T): PerSide<T>
    {
      if s == Player1 then PerSide(v, p2) else PerSide(p1, v)
    }
  }

  /**
   * `TakPosition<SIZE>`: `stacks[x][y]` is `stacks[Sq(size, x, y)]` here, `piece_masks` are
   * `flats`, `standing` and `caps`, and `side_masks` are `sides`. The counts are the stones
   * and capstones each side still has in reserve.
   */
  datatype Position = Position(
    size: nat,
    stacks: seq<Pile>,
    numPieces: PerSide<int>,
    numCaps: PerSide<int>,
    turn: Side,
    fullmoves: int,
    flats: Word,
    standing: Word,
    caps: Word,
    sides: PerSide<Word>)

  /** The sizes `Default` accepts; any other size panics. */
  predicate SizeOk(n: nat)
  {
    3 <= n <= 8
  }

  lemma SizeDims(n: nat)
    requires SizeOk(n)
    ensures Dims(n, n) && n < 64 && n * n <= 64
  {
    assert n * n <= 8 * n;
  }

  /** The stones each side starts with. */
  function Reserve(n: nat): nat
    requires SizeOk(n)
  {
    if n == 3 then 10 else if n == 4 then 15 else if n == 5 then 21
    else if n == 6 then 30 else if n == 7 then 40 else 50
  }

  /** The capstones each side starts with. */
  function CapReserve(n: nat): nat
    requires SizeOk(n)
  {
    if n <= 4 then 0 else if n <= 6 then 1 else 2
  }

  /** `Default`: an empty board, full reserves, Player1 to move, move 1. */
  function Start(n: nat): Position
    requires SizeOk(n)
  {
    Position(n, seq(n * n, _ => EmptyPile), PerSide(Reserve(n), Reserve(n)), PerSide(CapReserve(n), CapReserve(n)),
             Player1, 1, Zero, Zero, Zero, PerSide(Zero, Zero))
  }

  /**
   * What the type of a `TakPosition<SIZE>` guarantees: a size `Default` accepts, one stack per
   * square, each stack tidy (a push on a stack of 64 overflows in Rust), and masks that hold
   * no bit beyond the board.
   */
  predicate WellFormed(p: Position)
  {
    SizeOk(p.size) && |p.stacks| == p.size * p.size && |p.stacks| <= 64
    && (forall i :: 0 <= i < |p.stacks| ==> Tidy(p.stacks[i]))
    && Within(p.size, p.size, p.flats) && Within(p.size, p.size, p.standing) && Within(p.size, p.size, p.caps)
    && Within(p.size, p.size, p.sides.p1) && Within(p.size, p.size, p.sides.p2)
  }

  /** `stones_played`: how many stones and capstones have left the two reserves. */
  function StonesPlayed(p: Position): int
    requires SizeOk(p.size)
  {
    2 * Reserve(p.size) + 2 * CapReserve(p.size)
    - p.numPieces.p1 - p.numPieces.p2 - p.numCaps.p1 - p.numCaps.p2
  }

  /** `get_owner` of a square: the owner of the top stone of its stack. */
  function OwnerAt(p: Position, i: nat): Option<Side>
    requires i < |p.stacks| && p.stacks[i].height <= 64
  {
    Owner(p.stacks[i])
  }

  /** `get_piece_on`: the capstone mask first, then the standing mask, then any stone at all. */
  function PieceOn(p: Position, i: nat): Option<Kind>
    requires i < |p.stacks| && i < 64
  {
    if p.caps[i] then Some(Cap)
    else if p.standing[i] then Some(Standing)
    else if p.stacks[i].height != 0 then Some(Flat)
    else None
  }

  function KindMask(p: Position, k: Kind): Word
  {
    match k
    case Flat => p.flats
    case Standing => p.standing
    case Cap => p.caps
  }

  /** `piece_masks[k] ^= from_index(i)`. */
  function ToggleKind(p: Position, k: Kind, i: nat): Position
    requires i < 64
  {
    match k
    case Flat => p.(flats := Xor(p.flats, FromIndex(i)))
    case Standing => p.(standing := Xor(p.standing, FromIndex(i)))
    case Cap => p.(caps := Xor(p.caps, FromIndex(i)))
  }

  /** `side_masks[s] ^= from_index(i)`. */
  function ToggleSide(p: Position, s: Side, i: nat): Position
    requires i < 64
  {
    p.(sides := p.sides.With(s, Xor(p.sides.Get(s), FromIndex(i))))
  }

  /** Stones of kind `k` come out of the stone reserve, capstones out of the capstone reserve. */
  function Spend(p: Position, k: Kind, s: Side, d: int): Position
  {
    if k == Cap then p.(numCaps := p.numCaps.With(s, p.numCaps.Get(s) + d))
    else p.(numPieces := p.numPieces.With(s, p.numPieces.Get(s) + d))
  }

  /** The end of `makemove`: the turn passes, and the move number grows after Player2 has moved. */
  function Passed(p: Position): Position
  {
    var t := Flip(p.turn);
    p.(turn := t, fullmoves := p.fullmoves + if t == Player1 then 1 else 0)
  }

  /** The start of `undomove`: the turn goes back, and so does the move number after Player2's move. */
  function Unpassed(p: Position): Position
  {
    var t := Flip(p.turn);
    p.(turn := t, fullmoves := p.fullmoves - if t == Player2 then 1 else 0)
  }

  /**
   * The side whose stone a drop places: in the first two plies (`stones_played() < 2` before
   * the move) each side places a flat of the other side.
   */
  function DropSide(p: Position, k: Kind, flipped: bool): Side
  {
    if k == Flat && flipped then Flip(p.turn) else p.turn
  }

  /**
   * The mask and reserve updates of a drop: `piece_masks[k]` and `side_masks[s]` toggle at
   * `i`, and the reserve of kind `k` of `t` changes by `d`.
   */
  function Place(p: Position, k: Kind, s: Side, i: nat, t: Side, d: int): Position
    requires i < 64
  {
    Spend(ToggleSide(ToggleKind(p, k, i), s, i), k, t, d)
  }

  /** `makemove` of `Drop(i, k)`. */
  function MakeDrop(p: Position, i: nat, k: Kind): (r: Position)
    requires SizeOk(p.size) && i < |p.stacks| && i < 64 && p.stacks[i].height < 64
    ensures r.size == p.size && |r.stacks| == |p.stacks| && r.stacks[i].height == p.stacks[i].height + 1
    ensures r.turn == Flip(p.turn)
  {
    var play := DropSide(p, k, StonesPlayed(p) < 2);
    var q := p.(stacks := p.stacks[i := PilePush(p.stacks[i], play == Player1)]);
    Passed(Place(q, k, play, i, p.turn, -1))
  }

  /** `undomove` of `Drop(i, k)`: the turn goes back first, so the flip test is `<= 2`. */
  function UndoDrop(p: Position, i: nat, k: Kind): (r: Position)
    requires SizeOk(p.size) && i < |p.stacks| && i < 64 && 0 < p.stacks[i].height <= 64
    ensures r.size == p.size && |r.stacks| == |p.stacks| && r.stacks[i].height == p.stacks[i].height - 1
    ensures forall j :: 0 <= j < |p.stacks| && j != i ==> r.stacks[j] == p.stacks[j]
    ensures r.turn == Flip(p.turn)
  {
    var q := Unpassed(p);
    var play := DropSide(q, k, StonesPlayed(q) <= 2);
    var r := q.(stacks := q.stacks[i := PilePop(q.stacks[i])]);
    Place(r, k, play, i, q.turn, 1)
  }

  lemma ToggleTwice(a: Word, i: nat)
    requires i < 64
    ensures Xor(Xor(a, FromIndex(i)), FromIndex(i)) == a
  {
    XorTwice(a, FromIndex(i));
  }

  /** Placing and then taking back the same stone restores the masks and the reserves. */
  lemma PlaceTwice(p: Position, k: Kind, s: Side, i: nat, t: Side)
    requires i < 64
    ensures Place(Place(p, k, s, i, t, -1), k, s, i, t, 1) == p
  {
    ToggleTwice(KindMask(p, k), i);
    ToggleTwice(p.sides.Get(s), i);
  }

  /** `Place` leaves the stacks, the turn and the move number alone. */
  lemma PlaceFrame(p: Position, k: Kind, s: Side, i: nat, t: Side, d: int)
    requires i < 64
    ensures var q := Place(p, k, s, i, t, d);
      q.stacks == p.stacks && q.turn == p.turn && q.fullmoves == p.fullmoves && q.size == p.size
    ensures k != Cap ==> Place(p, k, s, i, t, d).numPieces.Get(t) == p.numPieces.Get(t) + d
    ensures k != Cap ==> Place(p, k, s, i, t, d).numPieces.Get(Flip(t)) == p.numPieces.Get(Flip(t))
    ensures k != Cap ==> Place(p, k, s, i, t, d).numCaps == p.numCaps
    ensures k == Cap ==> Place(p, k, s, i, t, d).numCaps.Get(t) == p.numCaps.Get(t) + d
    ensures k == Cap ==> Place(p, k, s, i, t, d).numCaps.Get(Flip(t)) == p.numCaps.Get(Flip(t))
    ensures k == Cap ==> Place(p, k, s, i, t, d).numPieces == p.numPieces
  {
  }

  lemma PassedUnpassed(p: Position)
    ensures Unpassed(Passed(p)) == p
  {
  }

  /** `Place` commutes with replacing the stacks. */
  lemma PlaceStacks(p: Position, st: seq<Pile>, k: Kind, s: Side, i: nat, t: Side, d: int)
    requires i < 64
    ensures Place(p, k, s, i, t, d).(stacks := st) == Place(p.(stacks := st), k, s, i, t, d)
  {
  }

  /** A drop takes exactly one stone out of the reserves. */
  lemma PlaceStones(p: Position, k: Kind, s: Side, i: nat, t: Side)
    requires SizeOk(p.size) && i < 64
    ensures StonesPlayed(Place(p, k, s, i, t, -1)) == StonesPlayed(p) + 1
  {
    PlaceFrame(p, k, s, i, t, -1);
  }

  /** `undomove` after `makemove` of a drop restores the position exactly. */
  lemma DropRoundTrip(p: Position, i: nat, k: Kind)
    requires SizeOk(p.size) && i < |p.stacks| && i < 64 && Tidy(p.stacks[i]) && p.stacks[i].height < 64
    ensures UndoDrop(MakeDrop(p, i, k), i, k) == p
  {
    var play := DropSide(p, k, StonesPlayed(p) < 2);
    var q := p.(stacks := p.stacks[i := PilePush(p.stacks[i], play == Player1)]);
    var m := Place(q, k, play, i, p.turn, -1);
    PassedUnpassed(m);
    PlaceFrame(q, k, play, i, p.turn, -1);
    PlaceStones(q, k, play, i, p.turn);
    PushPop(p.stacks[i], play == Player1);
    assert q.stacks[i := PilePop(q.stacks[i])] == p.stacks;
    PlaceStacks(q, p.stacks, k, play, i, p.turn, -1);
    PlaceTwice(p, k, play, i, p.turn);
  }

  // ---------------------------------------------------------------------------------------
  // is_valid

  /** No square in both words: `(a & c).is_occupied()` is false. */
  predicate Disjoint(a: Word, c: Word)
  {
    forall i :: 0 <= i < 64 ==> !(a[i] && c[i])
  }

  lemma DisjointIff(a: Word, c: Word)
    ensures IsOccupied(And(a, c)) <==> !Disjoint(a, c)
  {
    if !Disjoint(a, c) {
      var i :| 0 <= i < 64 && a[i] && c[i];
      assert And(a, c)[i];
    } else {
      assert And(a, c) == Zero;
    }
  }

  /** The checks of `is_valid`'s loop at one square, in the source's order. */
  function SquareCheck(p: Position, i: nat): Result<()>
    requires i < |p.stacks| && i < 64 && p.stacks[i].height <= 64
  {
    var p1, p2 := p.sides.p1[i], p.sides.p2[i];
    var typed := p.flats[i] || p.standing[i] || p.caps[i];
    match OwnerAt(p, i)
    case Some(Player1) =>
      if !p1 then Err("p1 mask not set") else if p2 then Err("p2 mask set")
      else if !typed then Err("no masks set for occupied stack") else Ok(())
    case Some(Player2) =>
      if p1 then Err("p1 mask set") else if !p2 then Err("p2 mask not set")
      else if !typed then Err("no masks set for occupied stack") else Ok(())
    case None =>
      if p1 then Err("p1 mask set") else if p2 then Err("p2 mask set")
      else if p.flats[i] then Err("flat mask set") else if p.standing[i] then Err("standing mask set")
      else if p.caps[i] then Err("cap mask set") else Ok(())
  }

  /** The loop over the squares from index `i` on: `y` outer and `x` inner is increasing index. */
  function SquaresCheck(p: Position, i: nat): Result<()>
    requires WellFormed(p) && i <= |p.stacks|
    decreases |p.stacks| - i
  {
    SizeDims(p.size);
    if i == |p.stacks| then Ok(())
    else if SquareCheck(p, i).Err? then SquareCheck(p, i)
    else SquaresCheck(p, i + 1)
  }

  /** The loops over the standing and the capstone masks, square by square. */
  function MaskCheck(p: Position, sqs: seq<nat>, k: Kind, mismatch: string, wrong: string): Result<()>
    requires WellFormed(p) && forall j :: 0 <= j < |sqs| ==> sqs[j] < |p.stacks|
  {
    SizeDims(p.size);
    if sqs == [] then Ok(())
    else if OwnerAt(p, sqs[0]).None? then Err(mismatch)
    else if p.stacks[sqs[0]].height == 0 then Err("Stack height zero")
    else if PieceOn(p, sqs[0]) != Some(k) then Err(wrong)
    else MaskCheck(p, sqs[1..], k, mismatch, wrong)
  }

  lemma MasksOnBoard(p: Position)
    requires WellFormed(p)
    ensures forall j :: 0 <= j < |Indices(p.standing)| ==> Indices(p.standing)[j] < |p.stacks|
    ensures forall j :: 0 <= j < |Indices(p.caps)| ==> Indices(p.caps)[j] < |p.stacks|
  {
    IndicesWithin(p.size, p.size, p.standing);
    IndicesWithin(p.size, p.size, p.caps);
  }

  /** `is_valid`: the reserves, the mask overlaps, the squares, then the standing and capstone masks. */
  function IsValid(p: Position): (r: Result<()>)
    requires WellFormed(p)
    ensures r.Ok? ==> p.numPieces.p1 >= 0 && p.numPieces.p2 >= 0 && p.numCaps.p1 >= 0 && p.numCaps.p2 >= 0
    ensures r.Ok? ==> forall i :: 0 <= i < |p.stacks| ==> SquareOk(p, i)
  {
    MasksOnBoard(p);
    SquaresCheckOk(p, 0);
    if p.numPieces.p1 < 0 || p.numPieces.p2 < 0 then Err("Invalid piece count")
    else if p.numCaps.p1 < 0 || p.numCaps.p2 < 0 then Err("Invalid cap count")
    else if IsOccupied(And(p.sides.p1, p.sides.p2)) then Err("p1 & p2 mask overlap")
    else if IsOccupied(And(p.flats, p.standing)) then Err("Flat & Standing mask overlaps")
    else if IsOccupied(And(p.standing, p.caps)) then Err("Standing & Cap mask overlaps")
    else if IsOccupied(And(p.flats, p.caps)) then Err("Flat & Cap mask overlaps")
    else if SquaresCheck(p, 0).Err? then SquaresCheck(p, 0)
    else if MaskCheck(p, Indices(p.standing), Standing, "Standing mask & stack mismatch", "Standing mask not standing stack").Err? then
      MaskCheck(p, Indices(p.standing), Standing, "Standing mask & stack mismatch", "Standing mask not standing stack")
    else MaskCheck(p, Indices(p.caps), Cap, "Caps mask & stack mismatch", "Caps mask not caps stack")
  }

  /**
   * What `is_valid` demands of one square: an occupied stack's owner has the square in its
   * side mask, the other side does not, and some piece mask has it; an empty stack has it in
   * no mask.
   */
  predicate SquareOk(p: Position, i: nat)
    requires i < |p.stacks| && i < 64 && p.stacks[i].height <= 64
  {
    match OwnerAt(p, i)
    case Some(s) => p.sides.Get(s)[i] && !p.sides.Get(Flip(s))[i] && (p.flats[i] || p.standing[i] || p.caps[i])
    case None => !p.sides.p1[i] && !p.sides.p2[i] && !p.flats[i] && !p.standing[i] && !p.caps[i]
  }

  /** What `is_valid` demands of the whole position. */
  predicate Consistent(p: Position)
    requires WellFormed(p)
  {
    SizeDims(p.size);
    p.numPieces.p1 >= 0 && p.numPieces.p2 >= 0 && p.numCaps.p1 >= 0 && p.numCaps.p2 >= 0
    && Disjoint(p.sides.p1, p.sides.p2)
    && Disjoint(p.flats, p.standing) && Disjoint(p.standing, p.caps) && Disjoint(p.flats, p.caps)
    && forall i :: 0 <= i < |p.stacks| ==> SquareOk(p, i)
  }

  lemma SquareCheckOk(p: Position, i: nat)
    requires i < |p.stacks| && i < 64 && p.stacks[i].height <= 64
    ensures SquareCheck(p, i).Ok? <==> SquareOk(p, i)
  {
  }

  lemma {:induction false} SquaresCheckOk(p: Position, i: nat)
    requires WellFormed(p) && i <= |p.stacks|
    ensures SquaresCheck(p, i).Ok? <==> forall j :: i <= j < |p.stacks| ==> SquareOk(p, j)
    decreases |p.stacks| - i
  {
    SizeDims(p.size);
    if i < |p.stacks| {
      SquaresCheckOk(p, i + 1);
      SquareCheckOk(p, i);
    }
  }

  /** Once the squares agree with the masks, the loop over a piece mask finds nothing wrong. */
  lemma {:induction false} MaskCheckOk(p: Position, sqs: seq<nat>, k: Kind, mismatch: string, wrong: string)
    requires WellFormed(p) && Consistent(p) && k != Flat
    requires forall j :: 0 <= j < |sqs| ==> sqs[j] < |p.stacks| && KindMask(p, k)[sqs[j]]
    ensures MaskCheck(p, sqs, k, mismatch, wrong) == Ok(())
  {
    SizeDims(p.size);
    if sqs != [] {
      var i := sqs[0];
      assert SquareOk(p, i);
      MaskCheckOk(p, sqs[1..], k, mismatch, wrong);
    }
  }

  lemma MaskMembers(p: Position)
    requires WellFormed(p)
    ensures forall j :: 0 <= j < |Indices(p.standing)| ==> Indices(p.standing)[j] < |p.stacks| && p.standing[Indices(p.standing)[j]]
    ensures forall j :: 0 <= j < |Indices(p.caps)| ==> Indices(p.caps)[j] < |p.stacks| && p.caps[Indices(p.caps)[j]]
  {
    MasksOnBoard(p);
    IndicesMembers(p.standing);
    IndicesMembers(p.caps);
    forall j | 0 <= j < |Indices(p.standing)|
      ensures p.standing[Indices(p.standing)[j]]
    {
      assert Indices(p.standing)[j] in Indices(p.standing);
    }
    forall j | 0 <= j < |Indices(p.caps)|
      ensures p.caps[Indices(p.caps)[j]]
    {
      assert Indices(p.caps)[j] in Indices(p.caps);
    }
  }

  /**
   * `is_valid` accepts exactly the consistent positions: its last two loops (over the standing
   * and capstone masks) never find anything the earlier checks let through.
   */
  lemma IsValidIff(p: Position)
    requires WellFormed(p)
    ensures IsValid(p).Ok? <==> Consistent(p)
  {
    SizeDims(p.size);
    DisjointIff(p.sides.p1, p.sides.p2);
    DisjointIff(p.flats, p.standing);
    DisjointIff(p.standing, p.caps);
    DisjointIff(p.flats, p.caps);
    SquaresCheckOk(p, 0);
    if Consistent(p) {
      MaskMembers(p);
      MaskCheckOk(p, Indices(p.standing), Standing, "Standing mask & stack mismatch", "Standing mask not standing stack");
      MaskCheckOk(p, Indices(p.caps), Cap, "Caps mask & stack mismatch", "Caps mask not caps stack");
    }
  }

  /** A drop the move generator offers: an empty square and a stone of that kind in reserve. */
  predicate DropOk(p: Position, i: nat, k: Kind)
    requires WellFormed(p)
  {
    i < |p.stacks| && !p.sides.p1[i] && !p.sides.p2[i]
    && (if k == Cap then p.numCaps.Get(p.turn) > 0 else p.numPieces.Get(p.turn) > 0)
  }

  /** On a consistent position a square in neither side mask has an empty stack and no piece mask. */
  lemma EmptySquare(p: Position, i: nat)
    requires WellFormed(p) && Consistent(p) && i < |p.stacks| && !p.sides.p1[i] && !p.sides.p2[i]
    ensures p.stacks[i].height == 0 && !p.flats[i] && !p.standing[i] && !p.caps[i]
  {
    assert SquareOk(p, i);
  }

  /** The masks after `Place` on a square that no mask had. */
  lemma PlaceBits(p: Position, k: Kind, s: Side, i: nat, t: Side, d: int)
    requires i < 64 && !p.sides.p1[i] && !p.sides.p2[i] && !p.flats[i] && !p.standing[i] && !p.caps[i]
    ensures var q := Place(p, k, s, i, t, d);
      forall j :: 0 <= j < 64 ==>
        q.sides.Get(s)[j] == (j == i || p.sides.Get(s)[j]) && q.sides.Get(Flip(s))[j] == p.sides.Get(Flip(s))[j]
        && q.flats[j] == (if k == Flat then j == i || p.flats[j] else p.flats[j])
        && q.standing[j] == (if k == Standing then j == i || p.standing[j] else p.standing[j])
        && q.caps[j] == (if k == Cap then j == i || p.caps[j] else p.caps[j])
  {
  }

  /** The stack a drop builds on an empty square. */
  lemma PushedEmpty(s: Pile, b: bool)
    requires Tidy(s) && s.height == 0
    ensures Tidy(PilePush(s, b)) && Owner(PilePush(s, b)) == Some(if b then Player1 else Player2)
  {
    PushedPieces(s, b);
  }

  /** Placing a stone of `play` on an empty square of a consistent position keeps it consistent. */
  lemma PlacedConsistent(p: Position, st: Pile, i: nat, k: Kind, play: Side, t: Side)
    requires WellFormed(p) && Consistent(p) && i < |p.stacks|
    requires !p.sides.p1[i] && !p.sides.p2[i] && !p.flats[i] && !p.standing[i] && !p.caps[i]
    requires Tidy(st) && Owner(st) == Some(play)
    requires if k == Cap then p.numCaps.Get(t) > 0 else p.numPieces.Get(t) > 0
    ensures var m := Place(p.(stacks := p.stacks[i := st]), k, play, i, t, -1);
      WellFormed(m) && Consistent(m) && OwnerAt(m, i) == Some(play) && PieceOn(m, i) == Some(k)
  {
    var q := p.(stacks := p.stacks[i := st]);
    var m := Place(q, k, play, i, t, -1);
    PlaceBits(q, k, play, i, t, -1);
    PlaceFrame(q, k, play, i, t, -1);
    forall j | 0 <= j < |m.stacks|
      ensures SquareOk(m, j)
    {
      if j != i {
        assert SquareOk(p, j);
      }
    }
  }

  /** Consistency does not depend on the turn or the move number. */
  lemma PassedConsistent(m: Position)
    requires WellFormed(m) && Consistent(m)
    ensures WellFormed(Passed(m)) && Consistent(Passed(m))
  {
    var r := Passed(m);
    forall j | 0 <= j < |r.stacks|
      ensures SquareOk(r, j)
    {
      assert SquareOk(m, j);
    }
  }

  /**
   * A drop the generator offers keeps the position consistent: the square gets one stone of
   * the dropping side (the other side's flat in the first two plies) and the kind's mask.
   */
  lemma DropKeepsConsistent(p: Position, i: nat, k: Kind)
    requires WellFormed(p) && Consistent(p) && DropOk(p, i, k)
    ensures p.stacks[i].height == 0
    ensures WellFormed(MakeDrop(p, i, k)) && Consistent(MakeDrop(p, i, k))
    ensures OwnerAt(MakeDrop(p, i, k), i) == Some(DropSide(p, k, StonesPlayed(p) < 2))
    ensures PieceOn(MakeDrop(p, i, k), i) == Some(k)
  {
    EmptySquare(p, i);
    var play := DropSide(p, k, StonesPlayed(p) < 2);
    var st := PilePush(p.stacks[i], play == Player1);
    PushedEmpty(p.stacks[i], play == Player1);
    PlacedConsistent(p, st, i, k, play, p.turn);
    var m := Place(p.(stacks := p.stacks[i := st]), k, play, i, p.turn, -1);
    PassedConsistent(m);
    assert MakeDrop(p, i, k) == Passed(m);
  }

  /**
   * `makemove`'s closing check: after a drop the generator offers, `is_valid` still accepts.
   * (The empty stack is implied by the other requirements, as `DropKeepsConsistent` shows.)
   */
  lemma DropKeepsValid(p: Position, i: nat, k: Kind)
    requires WellFormed(p) && IsValid(p).Ok? && DropOk(p, i, k) && p.stacks[i].height == 0
    ensures WellFormed(MakeDrop(p, i, k)) && IsValid(MakeDrop(p, i, k)).Ok?
  {
    IsValidIff(p);
    DropKeepsConsistent(p, i, k);
    IsValidIff(MakeDrop(p, i, k));
  }

  // ---------------------------------------------------------------------------------------
  // get_result

  /** The squares whose top stone counts for a road of `s`: its flats and its capstones. */
  function RoadStones(p: Position, s: Side): Word
  {
    And(Or(p.flats, p.caps), p.sides.Get(s))
  }

  /**
   * `s` has a road: flooding its road stones from those on the left edge reaches the right
   * edge, or from those on the top edge reaches the bottom edge.
   */
  predicate HasRoad(p: Position, s: Side)
    requires SizeOk(p.size)
  {
    SizeDims(p.size);
    var n, us := p.size, RoadStones(p, s);
    IsOccupied(And(Flood(n, n, And(us, LeftEdge(n, n)), us, FloodRounds), RightEdge(n, n)))
    || IsOccupied(And(Flood(n, n, And(us, TopEdge(n, n)), us, FloodRounds), BottomEdge(n, n)))
  }

  /** The board is covered: as many occupied squares as the board has. */
  predicate Filled(p: Position)
  {
    Count(Or(p.sides.p1, p.sides.p2)) == p.size * p.size
  }

  /** A side has neither stones nor capstones left in reserve. */
  predicate OutOfPieces(p: Position)
  {
    p.numPieces.p1 + p.numCaps.p1 == 0 || p.numPieces.p2 + p.numCaps.p2 == 0
  }

  /**
   * `get_result`: a road wins, and when both sides have one the win goes to the side that is
   * not to move; otherwise a filled board or an empty reserve ends the game on flat count.
   */
  function ResultOf(p: Position): (r: Option<GameResult>)
    requires SizeOk(p.size)
    ensures HasRoad(p, Player1) || HasRoad(p, Player2) ==> r.Some? && r.value.Win?
    ensures forall s :: HasRoad(p, s) && !HasRoad(p, Flip(s)) ==> r == Some(Win(s))
    ensures HasRoad(p, Player1) && HasRoad(p, Player2) ==> r == Some(Win(Flip(p.turn)))
    ensures !HasRoad(p, Player1) && !HasRoad(p, Player2) && (Filled(p) || OutOfPieces(p)) ==>
      var f1, f2 := Count(And(p.sides.p1, p.flats)), Count(And(p.sides.p2, p.flats));
      && (r == Some(Win(Player1)) <==> f1 > f2)
      && (r == Some(Win(Player2)) <==> f2 > f1)
      && (r == Some(Draw) <==> f1 == f2)
    ensures r == Some(Draw) ==> Count(And(p.sides.p1, p.flats)) == Count(And(p.sides.p2, p.flats))
  {
    var r1, r2 := HasRoad(p, Player1), HasRoad(p, Player2);
    if r1 && r2 then Some(Win(Flip(p.turn)))
    else if r1 then Some(Win(Player1))
    else if r2 then Some(Win(Player2))
    else if Filled(p) || OutOfPieces(p) then
      var f1, f2 := Count(And(p.sides.p1, p.flats)), Count(And(p.sides.p2, p.flats));
      if f1 > f2 then Some(Win(Player1)) else if f2 > f1 then Some(Win(Player2)) else Some(Draw)
    else None
  }

  /**
   * When a move leaves both sides with a road, the side that moved wins: `makemove` passes the
   * turn, and `get_result` gives a double road to the side not to move.
   */
  lemma DoubleRoadGoesToMover(p: Position, q: Position)
    requires SizeOk(q.size) && q.turn == Flip(p.turn)
    requires HasRoad(q, Player1) && HasRoad(q, Player2)
    ensures ResultOf(q) == Some(Win(p.turn))
  {
  }

  /** A drop that leaves both sides with a road wins for the side that dropped. */
  lemma DropDoubleRoad(p: Position, i: nat, k: Kind)
    requires SizeOk(p.size) && i < |p.stacks| && i < 64 && p.stacks[i].height < 64
    requires HasRoad(MakeDrop(p, i, k), Player1) && HasRoad(MakeDrop(p, i, k), Player2)
    ensures ResultOf(MakeDrop(p, i, k)) == Some(Win(p.turn))
  {
    DoubleRoadGoesToMover(p, MakeDrop(p, i, k));
  }

  /** The game goes on exactly when there is no road, the board has room and both reserves have stones. */
  lemma ResultNoneIff(p: Position)
    requires SizeOk(p.size)
    ensures ResultOf(p) == None <==>
      (!HasRoad(p, Player1) && !HasRoad(p, Player2) && !Filled(p) && !OutOfPieces(p))
  {
  }

  /** A flood from no square floods nothing. */
  lemma {:induction false} FloodFromNothing(w: nat, h: nat, allowed: Word, k: nat)
    requires Dims(w, h) && w < 64
    ensures Flood(w, h, Zero, allowed, k) == Zero
  {
    if k > 0 {
      FloodFromNothing(w, h, allowed, k - 1);
      var grown := Or(Or(Or(Or(Zero, North(w, h, Zero)), South(w, h, Zero)), East(w, h, Zero)), West(w, h, Zero));
      assert grown == Zero;
      assert Spread(w, h, Zero, allowed) == Zero;
    }
  }

  /** From the first round on, a later round holds every square an earlier one did. */
  lemma FloodMono(w: nat, h: nat, us: Word, allowed: Word, k: nat, m: nat, j: nat)
    requires Dims(w, h) && w < 64 && 1 <= k <= m && j < 64 && Flood(w, h, us, allowed, k)[j]
    ensures Flood(w, h, us, allowed, m)[j]
  {
    var r := k;
    while r < m
      invariant k <= r <= m && Flood(w, h, us, allowed, r)[j]
    {
      FloodGrows(w, h, us, allowed, r);
      r := r + 1;
    }
  }

  /** A flooded board word that meets `edge` shows a road stone on `edge`. */
  lemma FloodMeets(w: nat, h: nat, seed: Word, us: Word, edge: Word)
    requires Dims(w, h) && w < 64
    requires IsOccupied(And(Flood(w, h, seed, us, FloodRounds), edge))
    ensures IsOccupied(seed) && IsOccupied(And(us, edge))
  {
    var f := Flood(w, h, seed, us, FloodRounds);
    if seed == Zero {
      FloodFromNothing(w, h, us, FloodRounds);
    }
    FloodBounds(w, h, seed, us, FloodRounds);
    OccupiedBits(And(f, edge));
    var j :| 0 <= j < 64 && And(f, edge)[j];
    assert And(us, edge)[j];
  }

  /** `s` has road stones on two opposite edges: left and right, or top and bottom. */
  predicate OnOppositeEdges(p: Position, s: Side)
    requires SizeOk(p.size)
  {
    SizeDims(p.size);
    var n, us := p.size, RoadStones(p, s);
    (IsOccupied(And(us, LeftEdge(n, n))) && IsOccupied(And(us, RightEdge(n, n))))
    || (IsOccupied(And(us, TopEdge(n, n))) && IsOccupied(And(us, BottomEdge(n, n))))
  }

  /** A road has road stones on two opposite edges. */
  lemma RoadTouchesEdges(p: Position, s: Side)
    requires SizeOk(p.size) && HasRoad(p, s)
    ensures OnOppositeEdges(p, s)
  {
    var n, us := p.size, RoadStones(p, s);
    SizeDims(n);
    if IsOccupied(And(Flood(n, n, And(us, LeftEdge(n, n)), us, FloodRounds), RightEdge(n, n))) {
      FloodMeets(n, n, And(us, LeftEdge(n, n)), us, RightEdge(n, n));
    } else {
      FloodMeets(n, n, And(us, TopEdge(n, n)), us, BottomEdge(n, n));
    }
  }

  /** Road stones lie on the board. */
  lemma RoadStonesWithin(p: Position, s: Side)
    requires WellFormed(p)
    ensures Within(p.size, p.size, RoadStones(p, s))
  {
    MaskWithin(p.size, p.size, Or(p.flats, p.caps), p.sides.Get(s));
  }

  lemma TopEdgeAt(n: nat, x: nat)
    requires Dims(n, n) && x < n
    ensures Has(TopEdge(n, n), Sq(n, x, n - 1))
  {
    assert (n - 1) * n == n * n - n;
    SqBound(n, n, x, n - 1);
  }

  /** A square of the seed that is also allowed is flooded after the first round. */
  lemma SeedFlooded(n: nat, seed: Word, us: Word, i: nat)
    requires Dims(n, n) && n < 64 && i < 64 && seed[i] && us[i]
    ensures Flood(n, n, seed, us, 1)[i]
  {
    FloodBounds(n, n, seed, us, 1);
    assert And(seed, us)[i];
  }

  /** A flooded square on `edge` makes the flood meet the edge. */
  lemma MeetsAt(f: Word, edge: Word, i: nat)
    requires i < 64 && f[i] && edge[i]
    ensures IsOccupied(And(f, edge))
  {
    assert And(f, edge)[i];
  }

  /** One step of a flood along a line of allowed squares. */
  lemma FloodStep(n: nat, seed: Word, us: Word, k: nat, x: nat, y: nat, x': nat, y': nat)
    requires Dims(n, n) && n < 64 && Within(n, n, us) && 1 <= k
    requires At(n, n, Flood(n, n, seed, us, k), x, y)
    requires x' < n && y' < n && Has(us, Sq(n, x', y'))
    requires Abs(x - x') + Abs(y - y') == 1
    ensures At(n, n, Flood(n, n, seed, us, k + 1), x', y')
  {
    FloodSpreads(n, n, seed, us, k, x, y, x', y');
  }

  /** Flooding along a full rank reaches its last square after `n` rounds. */
  lemma RankReached(n: nat, seed: Word, us: Word, y: nat)
    requires Dims(n, n) && 1 <= n < 64 && Within(n, n, us) && y < n
    requires Has(Flood(n, n, seed, us, 1), Sq(n, 0, y))
    requires forall x :: 0 <= x < n ==> Has(us, Sq(n, x, y))
    ensures At(n, n, Flood(n, n, seed, us, n), n - 1, y)
  {
    var x := 0;
    while x < n - 1
      invariant x < n && At(n, n, Flood(n, n, seed, us, x + 1), x, y)
    {
      assert Has(us, Sq(n, x + 1, y));
      FloodStep(n, seed, us, x + 1, x, y, x + 1, y);
      x := x + 1;
    }
  }

  /** Flooding down a full file reaches its bottom square after `n` rounds. */
  lemma FileReached(n: nat, seed: Word, us: Word, x: nat)
    requires Dims(n, n) && 1 <= n < 64 && Within(n, n, us) && x < n
    requires Has(Flood(n, n, seed, us, 1), Sq(n, x, n - 1))
    requires forall y :: 0 <= y < n ==> Has(us, Sq(n, x, y))
    ensures At(n, n, Flood(n, n, seed, us, n), x, 0)
  {
    var y := n - 1;
    while 0 < y
      invariant y < n && At(n, n, Flood(n, n, seed, us, n - y), x, y)
    {
      var y' := y - 1;
      assert Has(us, Sq(n, x, y'));
      FloodStep(n, seed, us, n - y, x, y, x, y');
      y := y';
    }
  }

  /** A full rank of `us` floods from the left edge to the right edge. */
  lemma RankFlood(n: nat, us: Word, y: nat)
    requires SizeOk(n) && Within(n, n, us) && y < n
    requires forall x :: 0 <= x < n ==> Has(us, Sq(n, x, y))
    ensures Dims(n, n)
    ensures IsOccupied(And(Flood(n, n, And(us, LeftEdge(n, n)), us, FloodRounds), RightEdge(n, n)))
  {
    SizeDims(n);
    var seed := And(us, LeftEdge(n, n));
    LeftEdgeAt(n, n, 0, y);
    SqBound(n, n, 0, y);
    SeedFlooded(n, seed, us, Sq(n, 0, y));
    RankReached(n, seed, us, y);
    var j := Sq(n, n - 1, y);
    SqBound(n, n, n - 1, y);
    FloodMono(n, n, seed, us, n, FloodRounds, j);
    RightEdgeAt(n, n, n - 1, y);
    MeetsAt(Flood(n, n, seed, us, FloodRounds), RightEdge(n, n), j);
  }

  /** A full file of `us` floods from the top edge to the bottom edge. */
  lemma FileFlood(n: nat, us: Word, x: nat)
    requires SizeOk(n) && Within(n, n, us) && x < n
    requires forall y :: 0 <= y < n ==> Has(us, Sq(n, x, y))
    ensures Dims(n, n)
    ensures IsOccupied(And(Flood(n, n, And(us, TopEdge(n, n)), us, FloodRounds), BottomEdge(n, n)))
  {
    SizeDims(n);
    var seed := And(us, TopEdge(n, n));
    TopEdgeAt(n, x);
    SeedFlooded(n, seed, us, Sq(n, x, n - 1));
    FileReached(n, seed, us, x);
    assert Sq(n, x, 0) == x;
    FloodMono(n, n, seed, us, n, FloodRounds, x);
    MeetsAt(Flood(n, n, seed, us, FloodRounds), BottomEdge(n, n), x);
  }

  /** A rank of road stones from the left edge to the right edge is a road. */
  lemma RankIsRoad(p: Position, s: Side, y: nat)
    requires WellFormed(p) && y < p.size
    requires forall x :: 0 <= x < p.size ==> Has(RoadStones(p, s), Sq(p.size, x, y))
    ensures HasRoad(p, s)
  {
    RoadStonesWithin(p, s);
    RankFlood(p.size, RoadStones(p, s), y);
  }

  /** A file of road stones from the top edge to the bottom edge is a road. */
  lemma FileIsRoad(p: Position, s: Side, x: nat)
    requires WellFormed(p) && x < p.size
    requires forall y :: 0 <= y < p.size ==> Has(RoadStones(p, s), Sq(p.size, x, y))
    ensures HasRoad(p, s)
  {
    RoadStonesWithin(p, s);
    FileFlood(p.size, RoadStones(p, s), x);
  }

  /** A side without a stone on the board has no road. */
  lemma NoStonesNoRoad(p: Position, s: Side)
    requires SizeOk(p.size) && p.sides.Get(s) == Zero
    ensures !HasRoad(p, s)
  {
    var n := p.size;
    SizeDims(n);
    assert RoadStones(p, s) == Zero;
    assert And(Zero, LeftEdge(n, n)) == Zero && And(Zero, TopEdge(n, n)) == Zero;
    FloodFromNothing(n, n, Zero, FloodRounds);
    assert And(Zero, RightEdge(n, n)) == Zero && And(Zero, BottomEdge(n, n)) == Zero;
  }

  lemma StartConsistent(n: nat)
    requires SizeOk(n)
    ensures WellFormed(Start(n)) && Consistent(Start(n))
  {
    var p := Start(n);
    SizeDims(n);
    assert WellFormed(p);
    forall i | 0 <= i < |p.stacks|
      ensures SquareOk(p, i)
    {
      assert p.stacks[i] == EmptyPile;
    }
  }

  /** Nobody has a road at the start. */
  lemma StartNoRoad(n: nat, s: Side)
    requires SizeOk(n)
    ensures !HasRoad(Start(n), s)
  {
    NoStonesNoRoad(Start(n), s);
  }

  /** No square is taken at the start. */
  lemma StartNotFilled(n: nat)
    requires SizeOk(n)
    ensures !Filled(Start(n))
  {
    var p := Start(n);
    var a := Or(p.sides.p1, p.sides.p2);
    assert a == Zero;
    CountZeroIff(a);
  }

  /** No game starts decided: no road, an empty board and full reserves. */
  lemma StartUndecided(n: nat)
    requires SizeOk(n)
    ensures ResultOf(Start(n)) == None
  {
    var p := Start(n);
    StartNoRoad(n, Player1);
    StartNoRoad(n, Player2);
    StartNotFilled(n);
    ResultNoneIff(p);
  }

  /** The starting position is well-formed and valid, nothing has been played, and the game is open. */
  lemma StartIsOpen(n: nat)
    requires SizeOk(n)
    ensures WellFormed(Start(n)) && IsValid(Start(n)).Ok? && StonesPlayed(Start(n)) == 0
    ensures ResultOf(Start(n)) == None
  {
    StartConsistent(n);
    IsValidIff(Start(n));
    StartUndecided(n);
  }
}
