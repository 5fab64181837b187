/**
 * Tak spreads: `makemove` and `undomove` of `TakMove::Spread(sq, dir, height, spread, is_crush)`.
 * A spread picks up the top `height` stones of the stack on `sq` and drops them one by one,
 * bottom first, on the squares towards `dir`: before each dropped stone, the next bit of
 * `spread` (trailing zeros skipped) says whether to step to the next square first. A crush
 * ends with a capstone flattening a standing stone.
 *
 * The Rust code changes the position in place; here each loop iteration is a function from
 * the loop's state to the next one, and `None` stands for a panic of the debug build (a
 * `debug_assert!`, an arithmetic overflow or an index off the board).
 */
module TakSpread {
  import opened Wrappers
  import opened GameRules
  import opened Bits
  import opened Bitboards
  import opened Tak

  // ---------------------------------------------------------------------------------------
  // The spread byte

  function ByteFill(v: bool): (s: seq<bool>)
    ensures |s| == 8 && forall j :: 0 <= j < 8 ==> s[j] == v
  {
    seq(8, j => v)
  }

  /** A `u8` as its 8 bits, least significant first. */
  type Byte = b: seq<bool> | |b| == 8 witness ByteFill(false)

  const ByteZero: Byte := ByteFill(false)

  /** `b >> k` on a `u8`, zeros coming in at the top. */
  function ShrByte(b: Byte, k: nat): Byte
  {
    seq(8, j requires 0 <= j < 8 => j + k < 8 && b[j + k])
  }

  /** `while spread & 1 == 0 { spread >>= 1 }`: the spread with its trailing zeros dropped. */
  function Strip(b: Byte): Byte
  {
    ShrByte(b, Tz(b))
  }

  // ---------------------------------------------------------------------------------------
  // Moves and squares

  /** `Dir`: `Up` goes to higher ranks, `Right` to higher files. */
  datatype Dir = Up | Down | Left | Right

  /** `TakMove::Spread(sq, dir, height, spread, is_crush)`. */
  datatype SpreadMove = SpreadMove(sq: nat, dir: Dir, height: nat, spread: Byte, crush: bool)

  function DX(d: Dir): int
  {
    match d
    case Left => -1
    case Right => 1
    case _ => 0
  }

  function DY(d: Dir): int
  {
    match d
    case Down => -1
    case Up => 1
    case _ => 0
  }

  predicate OnBoard(n: nat, x: int, y: int)
  {
    0 <= x < n && 0 <= y < n
  }

  /** Positions the spread functions can index: a size `Default` accepts, one stack per square, no stack above 64. */
  predicate Shaped(p: Position)
  {
    SizeOk(p.size) && |p.stacks| == p.size * p.size
    && forall i :: 0 <= i < |p.stacks| ==> p.stacks[i].height <= 64
  }

  /** The index of an on-board square, below the board's size and the word's width. */
  function Idx(n: nat, x: int, y: int): (i: nat)
    requires SizeOk(n) && OnBoard(n, x, y)
    ensures i == Sq(n, x, y) && i < n * n && i < 64
  {
    SizeDims(n);
    SqBound(n, n, x, y);
    Sq(n, x, y)
  }

  /** `piece_masks[..] &= !from_index(i)` or `|= from_index(i)`. */
  function SetBit(w: Word, i: nat, b: bool): Word
    requires i < 64
  {
    if b then Or(w, FromIndex(i)) else And(w, Complement(FromIndex(i)))
  }

  /**
   * The side masks at `i` made to agree with the owner `o` of the stack there: the owner's
   * mask gets the square and the other side's loses it; nobody's has it when empty.
   */
  function Claim(p: Position, i: nat, o: Option<Side>): Position
    requires i < 64
  {
    p.(sides := PerSide(SetBit(p.sides.p1, i, o == Some(Player1)), SetBit(p.sides.p2, i, o == Some(Player2))))
  }

  // ---------------------------------------------------------------------------------------
  // makemove

  /** The variables of `makemove`'s drop loop. */
  datatype MakeState = MakeState(p: Position, x: int, y: int, toMove: Word, spread: Byte)

  /** The stone `isP1` pushed on square `i`, whose flat mask it sets and whose owner it becomes. */
  function DropStone(p: Position, i: nat, isP1: bool): Position
    requires i < |p.stacks| && i < 64 && p.stacks[i].height < 64
  {
    var q := p.(stacks := p.stacks[i := PilePush(p.stacks[i], isP1)], flats := SetBit(p.flats, i, true));
    Claim(q, i, Some(if isP1 then Player1 else Player2))
  }

  /**
   * One stone of the drop loop: step first when the low bit of `spread` is set, then drop the
   * low bit of `to_move` on the square.
   */
  function MakeStep(s: MakeState, d: Dir): (r: Option<MakeState>)
    requires Shaped(s.p)
    ensures r.Some? ==> Shaped(r.value.p) && r.value.p.size == s.p.size && OnBoard(s.p.size, r.value.x, r.value.y)
    ensures r.Some? ==> r.value.p.turn == s.p.turn
  {
    var n := s.p.size;
    var x := if s.spread[0] then s.x + DX(d) else s.x;
    var y := if s.spread[0] then s.y + DY(d) else s.y;
    if !OnBoard(n, x, y) then None
    else
      var i := Idx(n, x, y);
      if s.p.stacks[i].height >= 64 then None
      else Some(MakeState(DropStone(s.p, i, s.toMove[0]), x, y, Shr(s.toMove, 1), ShrByte(s.spread, 1)))
  }

  /** `k` more iterations of the drop loop. */
  function MakeLoop(s: MakeState, d: Dir, k: nat): (r: Option<MakeState>)
    requires Shaped(s.p)
    ensures r.Some? ==> Shaped(r.value.p) && r.value.p.size == s.p.size && r.value.p.turn == s.p.turn
    ensures r.Some? && OnBoard(s.p.size, s.x, s.y) ==> OnBoard(s.p.size, r.value.x, r.value.y)
    decreases k
  {
    if k == 0 then Some(s)
    else
      match MakeStep(s, d)
      case None => None
      case Some(s') => MakeLoop(s', d, k - 1)
  }

  /** `(b as u64) << i`, as a bit of the word. */
  function XorBit(w: Word, i: nat, b: bool): Word
    requires i < 64
  {
    Xor(w, BitAt(b, i))
  }

  /**
   * `makemove` of a spread: the debug checks on the move, the stones lifted off `sq`, the drop
   * loop, then the top stone's kind moved from `sq` to the last square (a crush turns the
   * standing stone there flat), `sq` given to the owner of what is left on it, and the turn passed.
   */
  function MakeSpread(p: Position, mv: SpreadMove): (r: Option<Position>)
    requires Shaped(p) && mv.sq < |p.stacks|
    ensures (mv.height == 0 || mv.height > p.size || mv.spread == ByteZero || Count(mv.spread) > mv.height
             || mv.height > p.stacks[mv.sq].height || Owner(p.stacks[mv.sq]) != Some(p.turn)) ==> r.None?
    ensures r.Some? ==> Shaped(r.value) && r.value.size == p.size && r.value.turn == Flip(p.turn)
  {
    var n := p.size;
    var sq := mv.sq;
    var h := mv.height;
    if h == 0 || h > n || mv.spread == ByteZero || Count(mv.spread) > h || h > p.stacks[sq].height
       || Owner(p.stacks[sq]) != Some(p.turn) then None
    else
      SizeDims(n);
      SqOf(n, n, sq);
      var pile := p.stacks[sq];
      var q := p.(stacks := p.stacks[sq := PilePopN(pile, h)]);
      match MakeLoop(MakeState(q, sq % n, sq / n, PileTop(pile, h), Strip(mv.spread)), mv.dir, h)
      case None => None
      case Some(e) =>
        var dest := Idx(n, e.x, e.y);
        if mv.crush && !e.p.caps[sq] then None
        else if mv.crush && !e.p.standing[dest] then None
        else Some(Passed(MoveKind(e.p, sq, dest, mv.crush)))
  }

  /**
   * The masks after the drop loop: the kind of the stone that was on top of `sq` moves to
   * `dest` (over the flat the loop marked there), a crush turns the standing stone at `dest`
   * flat, and `sq` is marked as the owner of what is left there.
   */
  function MoveKind(r: Position, sq: nat, dest: nat, crush: bool): (r': Position)
    requires sq < |r.stacks| && sq < 64 && dest < 64 && r.stacks[sq].height <= 64
    ensures r'.stacks == r.stacks && r'.size == r.size && r'.turn == r.turn
  {
    var isStanding := r.standing[sq];
    var isCap := r.caps[sq];
    var r1 := r.(standing := SetBit(r.standing, sq, false), caps := SetBit(r.caps, sq, false));
    var r2 := r1.(flats := XorBit(r1.flats, dest, isStanding || isCap),
                  standing := XorBit(XorBit(r1.standing, dest, isStanding), dest, crush),
                  caps := XorBit(r1.caps, dest, isCap));
    var o := Owner(r2.stacks[sq]);
    Claim(r2.(flats := SetBit(r2.flats, sq, o.Some?)), sq, o)
  }

  // ---------------------------------------------------------------------------------------
  // undomove

  /** The variables of `undomove`'s pick-up loop: `rem` is what is left of the spread, `yee` the stones gathered. */
  datatype UndoState = UndoState(p: Position, x: int, y: int, rem: Byte, yee: nat, moved: Word)

  /**
   * One square of the pick-up loop: step, take back the stones dropped there (up to the next
   * set bit of the spread, or all the rest on the last square), make the masks agree with what
   * is left, and put the stones in `moved` above those gathered so far. `asWritten` keeps the
   * source's `u8` shift, which panics when the count reaches 8.
   */
  function UndoStep(s: UndoState, d: Dir, h: nat, asWritten: bool): (r: Option<UndoState>)
    requires Shaped(s.p)
    ensures r.Some? ==> Shaped(r.value.p) && r.value.p.size == s.p.size && r.value.p.turn == s.p.turn
  {
    var n := s.p.size;
    var x := s.x + DX(d);
    var y := s.y + DY(d);
    if !OnBoard(n, x, y) then None
    else if s.rem == ByteZero && s.yee > h then None
    else
      var count := if s.rem != ByteZero then Tz(s.rem) + 1 else h - s.yee;
      var i := Idx(n, x, y);
      var pile := s.p.stacks[i];
      if count == 0 || count > pile.height || s.yee >= 64 || (asWritten && count >= 8) then None
      else
        var left := PilePopN(pile, count);
        var q := s.p.(stacks := s.p.stacks[i := left]);
        var o := Owner(left);
        var q' := Claim(q.(flats := SetBit(q.flats, i, o.Some?)), i, o);
        Some(UndoState(q', x, y, ShrByte(s.rem, count), s.yee + count, Or(s.moved, Shl(PileTop(pile, count), s.yee))))
  }

  /** `k` more iterations of the pick-up loop. */
  function UndoLoop(s: UndoState, d: Dir, h: nat, asWritten: bool, k: nat): (r: Option<UndoState>)
    requires Shaped(s.p)
    ensures r.Some? ==> Shaped(r.value.p) && r.value.p.size == s.p.size && r.value.p.turn == s.p.turn
    decreases k
  {
    if k == 0 then Some(s)
    else
      match UndoStep(s, d, h, asWritten)
      case None => None
      case Some(s') => UndoLoop(s', d, h, asWritten, k - 1)
  }

  /** `dest` of `undomove`: the square `dist` steps from `sq`, as an index computed before any step. */
  function DestIndex(n: nat, sq: nat, d: Dir, dist: nat): int
  {
    match d
    case Up => sq + n * dist
    case Down => sq - n * dist
    case Left => sq - dist
    case Right => sq + dist
  }

  /**
   * `undomove` of a spread: the turn goes back, the kind of the stone on the last square is
   * read and cleared there, the pick-up loop gathers the stones back, they go back on top of
   * `sq` with that kind, a crushed stone stands up again, and `sq` goes back to its owner.
   */
  function UndoSpreadWith(p: Position, mv: SpreadMove, asWritten: bool): (r: Option<Position>)
    requires Shaped(p) && mv.sq < |p.stacks|
    ensures mv.height == 0 || mv.height > p.size || mv.spread == ByteZero ==> r.None?
    ensures r.Some? ==> Shaped(r.value) && r.value.size == p.size && r.value.turn == Flip(p.turn)
  {
    var q := Unpassed(p);
    var n := q.size;
    var sq := mv.sq;
    var h := mv.height;
    if h == 0 || h > n || mv.spread == ByteZero then None
    else
      var dest := DestIndex(n, sq, mv.dir, Count(mv.spread));
      if !(0 <= dest < 64) then None
      else
        var r := q.(flats := SetBit(q.flats, dest, false), standing := SetBit(q.standing, dest, false),
                    caps := SetBit(q.caps, dest, false));
        SizeDims(n);
        SqOf(n, n, sq);
        match UndoLoop(UndoState(r, sq % n, sq / n, ShrByte(Strip(mv.spread), 1), 0, Zero), mv.dir, h, asWritten, Count(mv.spread))
        case None => None
        case Some(e) =>
          var pile := e.p.stacks[sq];
          if pile.height + h > 64 then None
          else Some(RestoreKind(e.p.(stacks := e.p.stacks[sq := PilePushTop(pile, e.moved, h)]), sq, dest,
                                q.flats[dest], q.standing[dest], q.caps[dest], mv.crush))
  }

  /**
   * The masks after the stones are back on `sq`: `sq` gets the kind read on `dest` before the
   * loop, a crushed stone on `dest` stands up again, and `sq` goes back to its owner.
   */
  function RestoreKind(r: Position, sq: nat, dest: nat, isFlat: bool, isStanding: bool, isCap: bool, crush: bool): (r': Position)
    requires sq < |r.stacks| && sq < 64 && dest < 64 && r.stacks[sq].height <= 64
    ensures r'.stacks == r.stacks && r'.size == r.size && r'.turn == r.turn
  {
    var r2 := r.(flats := Or(SetBit(r.flats, sq, false), BitAt(isFlat, sq)),
                 standing := Or(r.standing, BitAt(isStanding, sq)),
                 caps := Or(r.caps, BitAt(isCap, sq)));
    var r3 := r2.(flats := XorBit(r2.flats, dest, crush), standing := XorBit(r2.standing, dest, crush));
    Claim(r3, sq, Owner(r3.stacks[sq]))
  }

  /** `undomove` of a spread, with the pick-up loop's shift made safe (see the findings). */
  function UndoSpread(p: Position, mv: SpreadMove): Option<Position>
    requires Shaped(p) && mv.sq < |p.stacks|
  {
    UndoSpreadWith(p, mv, false)
  }

  /** `undomove` of a spread exactly as written, `u8` shift included. */
  function UndoSpreadAsWritten(p: Position, mv: SpreadMove): Option<Position>
    requires Shaped(p) && mv.sq < |p.stacks|
  {
    UndoSpreadWith(p, mv, true)
  }

  // ---------------------------------------------------------------------------------------
  // Bits of the spread, stones pushed, squares on the line

  lemma ShrByteShr(b: Byte, a: nat, c: nat)
    ensures ShrByte(ShrByte(b, a), c) == ShrByte(b, a + c)
  {
  }

  lemma ShrShr(w: Word, a: nat, c: nat)
    requires a + c < 64
    ensures Shr(Shr(w, a), c) == Shr(w, a + c)
  {
  }

  lemma {:induction false} CountAppend(s: seq<bool>, t: seq<bool>)
    ensures Count(s + t) == Count(s) + Count(t)
  {
    if |s| > 0 {
      CountAppend(s[1..], t);
      assert (s + t)[1..] == s[1..] + t;
    } else {
      assert s + t == t;
    }
  }

  /** Shifting right by `c` loses exactly the `c` low bits from the count. */
  lemma CountShrByte(b: Byte, c: nat)
    requires c <= 8
    ensures Count(b) == Count(b[..c]) + Count(ShrByte(b, c))
  {
    var z := ByteFill(false)[..c];
    assert ShrByte(b, c) == b[c..] + z;
    CountAppend(b[c..], z);
    CountZero(z);
    assert b == b[..c] + b[c..];
    CountAppend(b[..c], b[c..]);
  }

  /** A spread with its trailing zeros dropped starts with a step and steps as often. */
  lemma StripFacts(b: Byte)
    requires b != ByteZero
    ensures Strip(b)[0] && Count(Strip(b)) == Count(b)
  {
    TzBits(b);
    CountShrByte(b, Tz(b));
    CountZero(b[..Tz(b)]);
  }

  /**
   * The stones the first square of a spread gets, when the next bit steps and `k` stones are
   * left: up to the next set bit, or all `k` when there is none. This is the count the pick-up
   * loop computes.
   */
  function GroupLen(s: Byte, k: nat): nat
  {
    if ShrByte(s, 1) != ByteZero then Tz(ShrByte(s, 1)) + 1 else k
  }

  lemma GroupFacts(s: Byte, k: nat)
    requires s[0] && 1 <= k <= 8 && forall j :: k <= j < 8 ==> !s[j]
    ensures var c := GroupLen(s, k);
      && 1 <= c <= k
      && (forall j :: 1 <= j < c ==> !s[j])
      && (forall j :: k - c <= j < 8 ==> !ShrByte(s, c)[j])
      && (c < k ==> ShrByte(s, c)[0])
      && Count(s) == 1 + Count(ShrByte(s, c))
      && ShrByte(ShrByte(s, 1), c) == ShrByte(ShrByte(s, c), 1)
  {
    var rem := ShrByte(s, 1);
    var c := GroupLen(s, k);
    TzBits(rem);
    if rem == ByteZero {
      forall j | 1 <= j < 8
        ensures !s[j]
      {
        assert rem[j - 1] == s[j];
      }
    } else {
      assert rem[Tz(rem)] == s[c];
    }
    ShrByteShr(s, 1, c);
    ShrByteShr(s, c, 1);
    CountShrByte(s, c);
    CountLow(s[..c], 1);
  }

  /** `m` stones pushed on `pile` one at a time: the low `m` bits of `w`, lowest first. */
  function PushMany(pile: Pile, w: Word, m: nat): (r: Pile)
    requires pile.height + m <= 64
    ensures r.height == pile.height + m
    decreases m
  {
    if m == 0 then pile else PushMany(PilePush(pile, w[0]), Shr(w, 1), m - 1)
  }

  lemma {:induction false} PushManyBits(pile: Pile, w: Word, m: nat)
    requires Tidy(pile) && pile.height + m <= 64
    ensures var r := PushMany(pile, w, m);
      && r.height == pile.height + m && Tidy(r)
      && forall j :: 0 <= j < 64 ==> r.bits[j] == (if j < pile.height then pile.bits[j] else j < pile.height + m && w[j - pile.height])
    decreases m
  {
    if m > 0 {
      var o := PilePush(pile, w[0]);
      PushedPieces(pile, w[0]);
      PushManyBits(o, Shr(w, 1), m - 1);
      assert forall j :: 0 <= j < 64 ==> o.bits[j] == (if j < pile.height then pile.bits[j] else j == pile.height && w[0]);
    }
  }

  /** Taking back the `m` stones pushed gives the pile back, and the bits they came from. */
  lemma PushManyPop(pile: Pile, w: Word, m: nat)
    requires Tidy(pile) && pile.height + m <= 64 && m > 0
    ensures PilePopN(PushMany(pile, w, m), m) == pile
    ensures forall j :: 0 <= j < 64 ==> PileTop(PushMany(pile, w, m), m)[j] == (j < m && w[j])
  {
    PushManyBits(pile, w, m);
    LowMaskBits(pile.height);
    var r := PilePopN(PushMany(pile, w, m), m);
    assert forall j :: 0 <= j < 64 ==> r.bits[j] == pile.bits[j];
  }

  /** Square (a, b) is on the line from (x, y) towards `d`, at (x, y) or beyond. */
  predicate AheadOrAt(d: Dir, x: int, y: int, a: int, b: int)
  {
    match d
    case Up => a == x && b >= y
    case Down => a == x && b <= y
    case Right => b == y && a >= x
    case Left => b == y && a <= x
  }

  predicate Ahead(d: Dir, x: int, y: int, a: int, b: int)
  {
    AheadOrAt(d, x, y, a, b) && (a != x || b != y)
  }

  /** The squares a spread from (x, y) that ends on (ex, ey) passes: beyond the start, up to the end. */
  predicate OnPath(d: Dir, x: int, y: int, ex: int, ey: int, a: int, b: int)
  {
    Ahead(d, x, y, a, b) && AheadOrAt(d, a, b, ex, ey)
  }

  /** The squares the drop loop may still drop on: beyond the cursor, or at it when the next stone does not step. */
  predicate Reach(s: MakeState, d: Dir, a: int, b: int)
  {
    if s.spread[0] then Ahead(d, s.x, s.y, a, b) else AheadOrAt(d, s.x, s.y, a, b)
  }
}
