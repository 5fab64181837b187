/**
 * `HexBitboard<WIDTH, HEIGHT>`: a set of cells of a hex board as the low `size` bits of a
 * 64-bit word, cell (x, y) at bit `Hex::get_index`. Even ranks hold WIDTH cells and odd
 * ranks WIDTH + 1, drawn half a cell further left, so cell (x, y) touches the cells
 * (x - y % 2) and (x + 1 - y % 2) of the ranks above and below it.
 */
module HexBitboards {
  import opened Bits
  import Bitboards
  import Hexes
  import Files
  import Ranks
  import Squares

  /** Boards that fit in the word; a shift by WIDTH must stay below 64. */
  predicate HexDims(w: nat, h: nat)
  {
    1 <= w < 64 && 1 <= h && Hexes.Size(w, h) <= 64
  }

  /**
   * The bit of cell (x, y), counted in reading order: every cell of the ranks below, then the
   * file. `IdxIsGetIndex` shows this is `Hex::get_index`.
   */
  function Idx(w: nat, x: nat, y: nat): nat
  {
    (y / 2) * (2 * w + 1) + (if y % 2 == 1 then w else 0) + x
  }

  /** (x, y) is a cell of the board. */
  predicate Cell(w: nat, h: nat, x: int, y: int)
  {
    0 <= y < h && 0 <= x < w + y % 2
  }

  /** Cell (x, y) exists and is in `b`. */
  predicate At(w: nat, h: nat, b: Word, x: int, y: int)
  {
    Cell(w, h, x, y) && Has(b, Idx(w, x, y))
  }

  /** The word holds no cell beyond the board. */
  predicate Within(w: nat, h: nat, b: Word)
  {
    forall i :: Hexes.Size(w, h) <= i < 64 ==> !b[i]
  }

  /* ---------------------------------------------------------------- cell indices */

  /** Counting cells rank by rank gives `get_index`'s chunks of two ranks, WIDTH + 1 + WIDTH cells each. */
  lemma IdxIsGetIndex(w: nat, x: nat, y: nat)
    ensures Idx(w, x, y) == Hexes.GetIndex(w, Hexes.Hex(Files.File(x), Ranks.Rank(y)))
  {
  }

  /** The index splits into the chunk (pair of ranks) and the offset within it. */
  lemma IdxChunk(w: nat, x: nat, y: nat)
    requires 1 <= w && x < w + y % 2
    ensures Idx(w, x, y) / (2 * w + 1) == y / 2
    ensures Idx(w, x, y) % (2 * w + 1) == (if y % 2 == 1 then w else 0) + x
  {
    IdxIsGetIndex(w, x, y);
    Squares.DivModUnique(Idx(w, x, y), 2 * w + 1, y / 2, (if y % 2 == 1 then w else 0) + x);
  }

  /** Different cells have different bits. */
  lemma IdxUnique(w: nat, x: nat, y: nat, x': nat, y': nat)
    requires 1 <= w && x < w + y % 2 && x' < w + y' % 2 && Idx(w, x, y) == Idx(w, x', y')
    ensures x == x' && y == y'
  {
    IdxChunk(w, x, y);
    IdxChunk(w, x', y');
  }

  /** A cell's bit is below `size` exactly when its rank is on the board. */
  lemma IdxBound(w: nat, h: nat, x: nat, y: nat)
    requires 1 <= w && x < w + y % 2
    ensures y < h <==> Idx(w, x, y) < Hexes.Size(w, h)
  {
    IdxIsGetIndex(w, x, y);
    Hexes.IndexOnBoard(w, h, Hexes.Hex(Files.File(x), Ranks.Rank(y)));
  }

  /** Every bit below `size` is some cell's. */
  lemma CellOf(w: nat, h: nat, i: nat) returns (x: nat, y: nat)
    requires 1 <= w && i < Hexes.Size(w, h)
    ensures Cell(w, h, x, y) && Idx(w, x, y) == i
  {
    var hx := Hexes.FromIndex(w, i);
    Hexes.GetIndexFromIndex(w, i);
    x, y := hx.file.index, hx.rank.index;
    assert hx == Hexes.Hex(Files.File(x), Ranks.Rank(y));
    IdxIsGetIndex(w, x, y);
    IdxBound(w, h, x, y);
  }

  /** Moving along a rank moves the bit by one. */
  lemma IdxRow(w: nat, x: nat, y: nat)
    ensures Idx(w, x + 1, y) == Idx(w, x, y) + 1
  {
  }

  /** One rank up: the bit moves by WIDTH plus the rank's parity, plus the change of file. */
  lemma IdxUp(w: nat, x: nat, x': nat, y: nat)
    ensures Idx(w, x', y + 1) + x == Idx(w, x, y) + w + y % 2 + x'
  {
    var c := y / 2;
    if y % 2 == 1 {
      assert (y + 1) / 2 == c + 1;
      assert (c + 1) * (2 * w + 1) == c * (2 * w + 1) + 2 * w + 1;
    } else {
      assert (y + 1) / 2 == c;
    }
  }

  /* ---------------------------------------------------------------- all, not, size */

  /** `all`: `0xffff_ffff_ffff_ffff >> (64 - size)`. */
  function All(w: nat, h: nat): Word
    requires HexDims(w, h)
  {
    Shr(Ones, 64 - Hexes.Size(w, h))
  }

  /** `all()` has exactly `size` low bits set, one per cell. */
  lemma AllBits(w: nat, h: nat)
    requires HexDims(w, h)
    ensures forall i :: 0 <= i < 64 ==> (All(w, h)[i] <==> i < Hexes.Size(w, h))
    ensures Within(w, h, All(w, h))
  {
  }

  /** The `Not` operator: `!b & all()`. */
  function Not(w: nat, h: nat, b: Word): Word
    requires HexDims(w, h)
  {
    And(Complement(b), All(w, h))
  }

  /** `Not` is the complement on the board and clears everything beyond it. */
  lemma NotBits(w: nat, h: nat, b: Word)
    requires HexDims(w, h)
    ensures Within(w, h, Not(w, h, b))
    ensures forall i :: 0 <= i < Hexes.Size(w, h) ==> (Not(w, h, b)[i] <==> !b[i])
    ensures Within(w, h, b) ==> Not(w, h, Not(w, h, b)) == b
  {
    AllBits(w, h);
    if Within(w, h, b) {
      assert Not(w, h, Not(w, h, b)) == b;
    }
  }

  /** Masking with a board word gives a board word. */
  lemma MaskWithin(w: nat, h: nat, a: Word, c: Word)
    requires Within(w, h, c)
    ensures Within(w, h, And(a, c))
  {
  }

  /* ---------------------------------------------------------------- edges */

  /** The bits below `n` that leave `start` over when divided by `p`. */
  function Stripe(start: nat, p: nat, n: nat): Word
    requires start < p
  {
    seq(64, i requires 0 <= i < 64 => i < n && InStripe(i, start, p))
  }

  /** `i` is `start` plus a multiple of `p`, found by stepping down by `p`. */
  predicate InStripe(i: nat, start: nat, p: nat)
    requires start < p
    decreases i
  {
    if i < p then i == start else InStripe(i - p, start, p)
  }

  /** Stepping down by `p` ends at the remainder. */
  lemma {:induction false} InStripeMod(i: nat, start: nat, p: nat)
    requires start < p
    ensures InStripe(i, start, p) <==> i % p == start
    decreases i
  {
    if i < p {
      Squares.DivModUnique(i, p, 0, i);
    } else {
      InStripeMod(i - p, start, p);
      Squares.DivModUnique(i, p, (i - p) / p + 1, (i - p) % p);
    }
  }

  /** The loop `while i < n { mask |= 1 << i; i += p }` from `i = start`. */
  method StripeLoop(start: nat, p: nat, n: nat) returns (mask: Word)
    requires start < p && n <= 64
    ensures mask == Stripe(start, p, n)
  {
    mask := Zero;
    var i := start;
    assert Stripe(start, p, start) == Zero;
    while i < n
      invariant InStripe(i, start, p) && (i == start || i < n + p)
      invariant mask == Stripe(start, p, i)
    {
      StripeStep(start, p, i);
      mask := Or(mask, FromIndex(i));
      i := i + p;
    }
    StripeEnd(start, p, i, n);
  }

  /** Between two consecutive members of a stripe there are no others. */
  lemma {:induction false} StripeGap(start: nat, p: nat, i: nat, j: nat)
    requires start < p && InStripe(i, start, p) && i <= j < i + p
    ensures InStripe(j, start, p) <==> j == i
    decreases i
  {
    if p <= i {
      StripeGap(start, p, i - p, j - p);
    }
  }

  lemma StripeStep(start: nat, p: nat, i: nat)
    requires start < p && InStripe(i, start, p) && i < 64
    ensures Or(Stripe(start, p, i), FromIndex(i)) == Stripe(start, p, i + p)
    ensures InStripe(i + p, start, p)
  {
    forall j | 0 <= j < 64
      ensures Or(Stripe(start, p, i), FromIndex(i))[j] == Stripe(start, p, i + p)[j]
    {
      if i <= j < i + p {
        StripeGap(start, p, i, j);
      }
    }
  }

  lemma StripeEnd(start: nat, p: nat, i: nat, n: nat)
    requires start < p && InStripe(i, start, p) && n <= i && (i == start || i < n + p)
    ensures Stripe(start, p, i) == Stripe(start, p, n)
  {
    forall j | n <= j < i
      ensures !InStripe(j, start, p)
    {
      if i != start {
        StripeGap(start, p, i - p, j);
      }
    }
    assert forall j :: 0 <= j < 64 ==> Stripe(start, p, i)[j] == Stripe(start, p, n)[j];
  }

  function Period(w: nat): nat { 2 * w + 1 }

  /** The cells with file 0: offsets 0 and WIDTH of each chunk. */
  function LeftEdge(w: nat, h: nat): Word
  {
    Or(Stripe(0, Period(w), Hexes.Size(w, h)), Stripe(w, Period(w), Hexes.Size(w, h)))
  }

  /** The last cell of each rank: offsets WIDTH - 1 and 2 * WIDTH of each chunk. */
  function RightEdge(w: nat, h: nat): Word
    requires 1 <= w
  {
    Or(Stripe(w - 1, Period(w), Hexes.Size(w, h)), Stripe(2 * w, Period(w), Hexes.Size(w, h)))
  }

  /** The first cell of each odd rank, which sticks out on the left. */
  function LeftDoodads(w: nat, h: nat): Word
  {
    Stripe(w, Period(w), Hexes.Size(w, h))
  }

  /** The last cell of each odd rank, which sticks out on the right. */
  function RightDoodads(w: nat, h: nat): Word
  {
    Stripe(2 * w, Period(w), Hexes.Size(w, h))
  }

  /** `get_left_edge`: two loops marking offsets 0 and WIDTH of each chunk. */
  method GetLeftEdge(w: nat, h: nat) returns (mask: Word)
    requires HexDims(w, h)
    ensures mask == LeftEdge(w, h)
  {
    var first := StripeLoop(0, Period(w), Hexes.Size(w, h));
    var second := StripeLoop(w, Period(w), Hexes.Size(w, h));
    mask := Or(first, second);
  }

  /** `get_right_edge`: two loops marking offsets WIDTH - 1 and 2 * WIDTH of each chunk. */
  method GetRightEdge(w: nat, h: nat) returns (mask: Word)
    requires HexDims(w, h)
    ensures mask == RightEdge(w, h)
  {
    var first := StripeLoop(w - 1, Period(w), Hexes.Size(w, h));
    var second := StripeLoop(2 * w, Period(w), Hexes.Size(w, h));
    mask := Or(first, second);
  }

  /** `get_left_doodads`. */
  method GetLeftDoodads(w: nat, h: nat) returns (mask: Word)
    requires HexDims(w, h)
    ensures mask == LeftDoodads(w, h)
  {
    mask := StripeLoop(w, Period(w), Hexes.Size(w, h));
  }

  /** `get_right_doodads`. */
  method GetRightDoodads(w: nat, h: nat) returns (mask: Word)
    requires HexDims(w, h)
    ensures mask == RightDoodads(w, h)
  {
    mask := StripeLoop(2 * w, Period(w), Hexes.Size(w, h));
  }

  /** `get_bottom_edge`: from bit 0, WIDTH - 1 times `mask |= mask << 1`. */
  method GetBottomEdge(w: nat, h: nat) returns (mask: Word)
    requires HexDims(w, h)
    ensures forall i :: 0 <= i < 64 ==> (mask[i] <==> i < w)
  {
    mask := Bitboards.FillUpLoop(FromIndex(0), 1, w);
    Bitboards.FillUpRank(w, 1);
  }

  /** `get_top_edge`: from bit `size - 1`, WIDTH - 1 times `mask |= mask >> 1`. */
  method GetTopEdge(w: nat, h: nat) returns (mask: Word)
    requires HexDims(w, h)
    ensures forall i :: 0 <= i < 64 ==> (mask[i] <==> Hexes.Size(w, h) - w <= i < Hexes.Size(w, h))
  {
    assert Hexes.Size(w, h) >= w by {
      Squares.MulAtLeast(h, w);
    }
    mask := Bitboards.FillDownLoop(FromIndex(Hexes.Size(w, h) - 1), 1, w);
    Bitboards.FillDownBits(Hexes.Size(w, h) - 1, w);
  }

  /** `get_bottom_edge` as built: the low WIDTH bits. */
  function BottomEdge(w: nat): Word
  {
    seq(64, i requires 0 <= i < 64 => i < w)
  }

  /** `get_top_edge` as built: the WIDTH bits below `size`. */
  function TopEdge(w: nat, h: nat): Word
  {
    seq(64, i requires 0 <= i < 64 => Hexes.Size(w, h) - w <= i < Hexes.Size(w, h))
  }

  /** `get_border`: the union of the four edges. */
  function Border(w: nat, h: nat): Word
    requires 1 <= w
  {
    Or(Or(Or(LeftEdge(w, h), RightEdge(w, h)), BottomEdge(w)), TopEdge(w, h))
  }

  /* ---------------------------------------------------------------- reading order */

  /** A cell's bit lies between the first bits of its rank and of the next. */
  lemma IdxRank(w: nat, x: nat, y: nat)
    requires x < w + y % 2
    ensures Idx(w, 0, y) <= Idx(w, x, y) < Idx(w, 0, y + 1)
  {
    IdxUp(w, x, 0, y);
  }

  /** The first bits of the ranks increase with the rank. */
  lemma {:induction false} RankOrder(w: nat, y: nat, y': nat)
    requires 1 <= w && y <= y'
    ensures Idx(w, 0, y) <= Idx(w, 0, y')
    ensures y < y' ==> Idx(w, 0, y) < Idx(w, 0, y')
    decreases y' - y
  {
    if y < y' {
      IdxRank(w, 0, y);
      RankOrder(w, y + 1, y');
    }
  }

  /** Cells of ranks below `r` come before rank `r`'s first bit, the others at or after it. */
  lemma BeforeRank(w: nat, x: nat, y: nat, r: nat)
    requires 1 <= w && x < w + y % 2
    ensures y < r <==> Idx(w, x, y) < Idx(w, 0, r)
  {
    IdxRank(w, x, y);
    if y < r {
      RankOrder(w, y + 1, r);
    } else {
      RankOrder(w, r, y);
    }
  }

  /** The first bit of the top rank: one past `size - WIDTH` when the top rank is an odd one. */
  lemma TopRankStart(w: nat, h: nat)
    requires 1 <= w && 1 <= h
    ensures Idx(w, 0, h - 1) + 1 - h % 2 == Hexes.Size(w, h) - w
    ensures Hexes.Size(w, h) >= w
  {
    var c := (h - 1) / 2;
    IdxIsGetIndex(w, 0, h - 1);
    Squares.MulAtLeast(h, w);
    if h % 2 == 1 {
      assert h == 2 * c + 1 && h / 2 == c;
      assert w * h == c * (2 * w + 1) + w - c;
    } else {
      assert h == 2 * c + 2 && h / 2 == c + 1;
      assert w * h == c * (2 * w + 1) + 2 * w - c;
    }
  }

  /* ---------------------------------------------------------------- edges at cells */

  /** A cell's bit is on the board. */
  lemma CellBit(w: nat, h: nat, x: nat, y: nat)
    requires HexDims(w, h) && Cell(w, h, x, y)
    ensures Idx(w, x, y) < Hexes.Size(w, h) <= 64
  {
    IdxBound(w, h, x, y);
  }

  /** A cell is in the stripe of its offset within the chunk. */
  lemma StripeAt(w: nat, h: nat, start: nat, x: nat, y: nat)
    requires HexDims(w, h) && Cell(w, h, x, y) && start < Period(w)
    ensures Has(Stripe(start, Period(w), Hexes.Size(w, h)), Idx(w, x, y)) <==>
      (if y % 2 == 1 then w else 0) + x == start
  {
    CellBit(w, h, x, y);
    IdxChunk(w, x, y);
    InStripeMod(Idx(w, x, y), start, Period(w));
  }

  /** The left edge is file 0 of every rank. */
  lemma LeftEdgeAt(w: nat, h: nat, x: nat, y: nat)
    requires HexDims(w, h) && Cell(w, h, x, y)
    ensures Has(LeftEdge(w, h), Idx(w, x, y)) <==> x == 0
  {
    HasOr(Stripe(0, Period(w), Hexes.Size(w, h)), Stripe(w, Period(w), Hexes.Size(w, h)), Idx(w, x, y));
    StripeAt(w, h, 0, x, y);
    StripeAt(w, h, w, x, y);
  }

  /** The right edge is the last cell of every rank. */
  lemma RightEdgeAt(w: nat, h: nat, x: nat, y: nat)
    requires HexDims(w, h) && Cell(w, h, x, y)
    ensures Has(RightEdge(w, h), Idx(w, x, y)) <==> x == w - 1 + y % 2
  {
    HasOr(Stripe(w - 1, Period(w), Hexes.Size(w, h)), Stripe(2 * w, Period(w), Hexes.Size(w, h)), Idx(w, x, y));
    StripeAt(w, h, w - 1, x, y);
    StripeAt(w, h, 2 * w, x, y);
  }

  /** The left doodads are the first cells of the odd ranks. */
  lemma LeftDoodadAt(w: nat, h: nat, x: nat, y: nat)
    requires HexDims(w, h) && Cell(w, h, x, y)
    ensures Has(LeftDoodads(w, h), Idx(w, x, y)) <==> y % 2 == 1 && x == 0
  {
    StripeAt(w, h, w, x, y);
  }

  /** The right doodads are the last cells of the odd ranks. */
  lemma RightDoodadAt(w: nat, h: nat, x: nat, y: nat)
    requires HexDims(w, h) && Cell(w, h, x, y)
    ensures Has(RightDoodads(w, h), Idx(w, x, y)) <==> y % 2 == 1 && x == w
  {
    StripeAt(w, h, 2 * w, x, y);
  }

  /** The bottom edge is rank 0. */
  lemma BottomEdgeAt(w: nat, h: nat, x: nat, y: nat)
    requires HexDims(w, h) && Cell(w, h, x, y)
    ensures Has(BottomEdge(w), Idx(w, x, y)) <==> y == 0
  {
    BeforeRank(w, x, y, 1);
    CellBit(w, h, x, y);
  }

  /**
   * The top edge is the top rank when HEIGHT is odd; when HEIGHT is even the top rank has
   * WIDTH + 1 cells and the edge leaves out its first one.
   */
  lemma TopEdgeAt(w: nat, h: nat, x: nat, y: nat)
    requires HexDims(w, h) && Cell(w, h, x, y)
    ensures Has(TopEdge(w, h), Idx(w, x, y)) <==> y == h - 1 && x + h % 2 >= 1
  {
    CellBit(w, h, x, y);
    TopRankStart(w, h);
    BeforeRank(w, x, y, h - 1);
  }

  /** The border is the cells on the first or last file of their rank or on the first or last rank. */
  lemma BorderAt(w: nat, h: nat, x: nat, y: nat)
    requires HexDims(w, h) && Cell(w, h, x, y)
    ensures Has(Border(w, h), Idx(w, x, y)) <==> x == 0 || x == w - 1 + y % 2 || y == 0 || y == h - 1
  {
    var i := Idx(w, x, y);
    HasOr(Or(Or(LeftEdge(w, h), RightEdge(w, h)), BottomEdge(w)), TopEdge(w, h), i);
    HasOr(Or(LeftEdge(w, h), RightEdge(w, h)), BottomEdge(w), i);
    HasOr(LeftEdge(w, h), RightEdge(w, h), i);
    LeftEdgeAt(w, h, x, y);
    RightEdgeAt(w, h, x, y);
    BottomEdgeAt(w, h, x, y);
    TopEdgeAt(w, h, x, y);
  }

  /* ---------------------------------------------------------------- directions */

  /** `left`: `(b >> 1) & !right_edge`. */
  function Left(w: nat, h: nat, b: Word): Word
    requires HexDims(w, h)
  {
    And(Shr(b, 1), Not(w, h, RightEdge(w, h)))
  }

  /** `right`: `(b << 1) & !left_edge`. */
  function Right(w: nat, h: nat, b: Word): Word
    requires HexDims(w, h)
  {
    And(Shl(b, 1), Not(w, h, LeftEdge(w, h)))
  }

  /** `up_left`: `(b << WIDTH) & !right_doodads`. */
  function UpLeft(w: nat, h: nat, b: Word): Word
    requires HexDims(w, h)
  {
    And(Shl(b, w), Not(w, h, RightDoodads(w, h)))
  }

  /** `up_right`: `(b << WIDTH << 1) & !left_doodads`. */
  function UpRight(w: nat, h: nat, b: Word): Word
    requires HexDims(w, h)
  {
    And(Shl(Shl(b, w), 1), Not(w, h, LeftDoodads(w, h)))
  }

  /** `down_left`: `(b >> WIDTH >> 1) & !right_doodads`. */
  function DownLeft(w: nat, h: nat, b: Word): Word
    requires HexDims(w, h)
  {
    And(Shr(Shr(b, w), 1), Not(w, h, RightDoodads(w, h)))
  }

  /** `down_right`: `(b >> WIDTH) & !left_doodads`. */
  function DownRight(w: nat, h: nat, b: Word): Word
    requires HexDims(w, h)
  {
    And(Shr(b, w), Not(w, h, LeftDoodads(w, h)))
  }

  /** The six directions of the hex board. */
  datatype Dir = LeftDir | RightDir | UpLeftDir | UpRightDir | DownLeftDir | DownRightDir

  /** The shift in direction `d`. */
  function Move(w: nat, h: nat, d: Dir, b: Word): Word
    requires HexDims(w, h)
  {
    match d
    case LeftDir => Left(w, h, b)
    case RightDir => Right(w, h, b)
    case UpLeftDir => UpLeft(w, h, b)
    case UpRightDir => UpRight(w, h, b)
    case DownLeftDir => DownLeft(w, h, b)
    case DownRightDir => DownRight(w, h, b)
  }

  /** The cell whose move in direction `d` lands on (x, y). */
  function From(d: Dir, x: nat, y: nat): (int, int)
  {
    match d
    case LeftDir => (x + 1, y)
    case RightDir => (x - 1, y)
    case UpLeftDir => (x + 1 - y % 2, y - 1)
    case UpRightDir => (x - y % 2, y - 1)
    case DownLeftDir => (x + 1 - y % 2, y + 1)
    case DownRightDir => (x - y % 2, y + 1)
  }

  function Opposite(d: Dir): Dir
  {
    match d
    case LeftDir => RightDir
    case RightDir => LeftDir
    case UpLeftDir => DownRightDir
    case UpRightDir => DownLeftDir
    case DownLeftDir => UpRightDir
    case DownRightDir => UpLeftDir
  }

  /** Stepping back in a direction and then in the opposite one returns to the cell. */
  lemma FromOpposite(d: Dir, x: nat, y: nat)
    requires From(d, x, y).0 >= 0 && From(d, x, y).1 >= 0
    ensures From(Opposite(d), From(d, x, y).0, From(d, x, y).1) == (x, y)
  {
  }

  /** The source cell of a move, as an index: the masks decide which cells have one. */
  lemma MaskedAt(w: nat, h: nat, shifted: Word, mask: Word, x: nat, y: nat)
    requires HexDims(w, h) && Cell(w, h, x, y)
    ensures Has(And(shifted, Not(w, h, mask)), Idx(w, x, y)) <==> Has(shifted, Idx(w, x, y)) && !Has(mask, Idx(w, x, y))
  {
    CellBit(w, h, x, y);
    AllBits(w, h);
    HasAnd(shifted, Not(w, h, mask), Idx(w, x, y));
    HasAnd(Complement(mask), All(w, h), Idx(w, x, y));
  }

  lemma LeftAt(w: nat, h: nat, b: Word, x: nat, y: nat)
    requires HexDims(w, h) && Cell(w, h, x, y)
    ensures Has(Left(w, h, b), Idx(w, x, y)) <==> At(w, h, b, x + 1, y)
  {
    MaskedAt(w, h, Shr(b, 1), RightEdge(w, h), x, y);
    RightEdgeAt(w, h, x, y);
    HasShr(b, 1, Idx(w, x, y));
    IdxRow(w, x, y);
  }

  lemma RightAt(w: nat, h: nat, b: Word, x: nat, y: nat)
    requires HexDims(w, h) && Cell(w, h, x, y)
    ensures Has(Right(w, h, b), Idx(w, x, y)) <==> At(w, h, b, x - 1, y)
  {
    MaskedAt(w, h, Shl(b, 1), LeftEdge(w, h), x, y);
    LeftEdgeAt(w, h, x, y);
    CellBit(w, h, x, y);
    HasShl(b, 1, Idx(w, x, y));
    if x > 0 {
      IdxRow(w, x - 1, y);
    }
  }

  lemma UpLeftAt(w: nat, h: nat, b: Word, x: nat, y: nat)
    requires HexDims(w, h) && Cell(w, h, x, y)
    ensures Has(UpLeft(w, h, b), Idx(w, x, y)) <==> At(w, h, b, x + 1 - y % 2, y - 1)
  {
    MaskedAt(w, h, Shl(b, w), RightDoodads(w, h), x, y);
    RightDoodadAt(w, h, x, y);
    CellBit(w, h, x, y);
    HasShl(b, w, Idx(w, x, y));
    UpLeftSource(w, h, x, y);
  }

  /**
   * WIDTH bits below a cell is its down-right neighbour, when it has one; on rank 0 there
   * is nothing WIDTH bits below.
   */
  lemma UpLeftSource(w: nat, h: nat, x: nat, y: nat)
    requires HexDims(w, h) && Cell(w, h, x, y)
    ensures y == 0 ==> Idx(w, x, y) < w
    ensures 0 < y ==> Idx(w, x, y) == Idx(w, x + 1 - y % 2, y - 1) + w
    ensures 0 < y ==> (Cell(w, h, x + 1 - y % 2, y - 1) <==> !(y % 2 == 1 && x == w))
  {
    var c := y / 2;
    if y == 0 {
    } else if y % 2 == 1 {
      assert (y - 1) / 2 == c && (y - 1) % 2 == 0;
    } else {
      assert (y - 1) / 2 == c - 1 && (y - 1) % 2 == 1;
      assert c * (2 * w + 1) == (c - 1) * (2 * w + 1) + 2 * w + 1;
    }
  }

  lemma UpRightAt(w: nat, h: nat, b: Word, x: nat, y: nat)
    requires HexDims(w, h) && Cell(w, h, x, y)
    ensures Has(UpRight(w, h, b), Idx(w, x, y)) <==> At(w, h, b, x - y % 2, y - 1)
  {
    MaskedAt(w, h, Shl(Shl(b, w), 1), LeftDoodads(w, h), x, y);
    LeftDoodadAt(w, h, x, y);
    CellBit(w, h, x, y);
    HasShlShl(b, w, Idx(w, x, y));
    UpRightSource(w, h, x, y);
  }

  /** `b << k << 1` moves every bit up by k + 1. */
  lemma HasShlShl(b: Word, k: nat, i: nat)
    requires k < 64 && i < 64
    ensures Has(Shl(Shl(b, k), 1), i) <==> i >= k + 1 && Has(b, i - k - 1)
  {
    HasShl(Shl(b, k), 1, i);
    if i >= 1 {
      HasShl(b, k, i - 1);
    }
  }

  /**
   * WIDTH + 1 bits below a cell is its down-left neighbour, when it has one; on rank 0
   * there is nothing that far below.
   */
  lemma UpRightSource(w: nat, h: nat, x: nat, y: nat)
    requires HexDims(w, h) && Cell(w, h, x, y)
    ensures y == 0 ==> Idx(w, x, y) < w + 1
    ensures 0 < y && y % 2 <= x ==> Idx(w, x, y) == Idx(w, x - y % 2, y - 1) + w + 1
    ensures 0 < y ==> (Cell(w, h, x - y % 2, y - 1) <==> y % 2 <= x)
  {
    var c := y / 2;
    if y == 0 {
    } else if y % 2 == 1 {
      assert (y - 1) / 2 == c && (y - 1) % 2 == 0;
    } else {
      assert (y - 1) / 2 == c - 1 && (y - 1) % 2 == 1;
      assert c * (2 * w + 1) == (c - 1) * (2 * w + 1) + 2 * w + 1;
    }
  }

  lemma DownLeftAt(w: nat, h: nat, b: Word, x: nat, y: nat)
    requires HexDims(w, h) && Cell(w, h, x, y) && Within(w, h, b)
    ensures Has(DownLeft(w, h, b), Idx(w, x, y)) <==> At(w, h, b, x + 1 - y % 2, y + 1)
  {
    MaskedAt(w, h, Shr(Shr(b, w), 1), RightDoodads(w, h), x, y);
    RightDoodadAt(w, h, x, y);
    HasShrShr(b, w, Idx(w, x, y));
    DownLeftSource(w, h, x, y);
  }

  /** `b >> k >> 1` moves every bit down by k + 1. */
  lemma HasShrShr(b: Word, k: nat, i: nat)
    requires k < 64
    ensures Has(Shr(Shr(b, k), 1), i) <==> Has(b, i + k + 1)
  {
    HasShr(Shr(b, k), 1, i);
    HasShr(b, k, i + 1);
  }

  /**
   * WIDTH + 1 bits above a cell is its up-left neighbour when it has one; past the top rank
   * that bit is beyond `size`.
   */
  lemma DownLeftSource(w: nat, h: nat, x: nat, y: nat)
    requires HexDims(w, h) && Cell(w, h, x, y)
    ensures Idx(w, x + 1 - y % 2, y + 1) == Idx(w, x, y) + w + 1
    ensures x + 1 - y % 2 < w + (y + 1) % 2 <==> !(y % 2 == 1 && x == w)
    ensures x + 1 - y % 2 < w + (y + 1) % 2 ==> (y + 1 < h <==> Idx(w, x, y) + w + 1 < Hexes.Size(w, h))
  {
    var c := y / 2;
    if y % 2 == 1 {
      assert (y + 1) / 2 == c + 1 && (y + 1) % 2 == 0;
      assert (c + 1) * (2 * w + 1) == c * (2 * w + 1) + 2 * w + 1;
    } else {
      assert (y + 1) / 2 == c && (y + 1) % 2 == 1;
    }
    if x + 1 - y % 2 < w + (y + 1) % 2 {
      IdxBound(w, h, x + 1 - y % 2, y + 1);
    }
  }

  lemma DownRightAt(w: nat, h: nat, b: Word, x: nat, y: nat)
    requires HexDims(w, h) && Cell(w, h, x, y) && Within(w, h, b)
    ensures Has(DownRight(w, h, b), Idx(w, x, y)) <==> At(w, h, b, x - y % 2, y + 1)
  {
    MaskedAt(w, h, Shr(b, w), LeftDoodads(w, h), x, y);
    LeftDoodadAt(w, h, x, y);
    HasShr(b, w, Idx(w, x, y));
    DownRightSource(w, h, x, y);
  }

  /**
   * WIDTH bits above a cell is its up-right neighbour when it has one; past the top rank
   * that bit is beyond `size`.
   */
  lemma DownRightSource(w: nat, h: nat, x: nat, y: nat)
    requires HexDims(w, h) && Cell(w, h, x, y)
    ensures y % 2 <= x ==> Idx(w, x - y % 2, y + 1) == Idx(w, x, y) + w
    ensures y % 2 <= x ==> x - y % 2 < w + (y + 1) % 2
    ensures y % 2 <= x ==> (y + 1 < h <==> Idx(w, x, y) + w < Hexes.Size(w, h))
  {
    var c := y / 2;
    if y % 2 == 1 {
      assert (y + 1) / 2 == c + 1 && (y + 1) % 2 == 0;
      assert (c + 1) * (2 * w + 1) == c * (2 * w + 1) + 2 * w + 1;
    } else {
      assert (y + 1) / 2 == c && (y + 1) % 2 == 1;
    }
    if y % 2 <= x {
      IdxBound(w, h, x - y % 2, y + 1);
    }
  }

  /** A move in direction `d` lands on a cell exactly when its source cell is in `b`. */
  lemma MoveAt(w: nat, h: nat, d: Dir, b: Word, x: nat, y: nat)
    requires HexDims(w, h) && Cell(w, h, x, y) && Within(w, h, b)
    ensures Has(Move(w, h, d, b), Idx(w, x, y)) <==> At(w, h, b, From(d, x, y).0, From(d, x, y).1)
  {
    match d
    case LeftDir => MoveLeftAt(w, h, b, x, y);
    case RightDir => MoveRightAt(w, h, b, x, y);
    case UpLeftDir => MoveUpLeftAt(w, h, b, x, y);
    case UpRightDir => MoveUpRightAt(w, h, b, x, y);
    case DownLeftDir => MoveDownLeftAt(w, h, b, x, y);
    case DownRightDir => MoveDownRightAt(w, h, b, x, y);
  }

  lemma MoveLeftAt(w: nat, h: nat, b: Word, x: nat, y: nat)
    requires HexDims(w, h) && Cell(w, h, x, y) && Within(w, h, b)
    ensures Has(Move(w, h, LeftDir, b), Idx(w, x, y)) <==> At(w, h, b, From(LeftDir, x, y).0, From(LeftDir, x, y).1)
  {
    LeftAt(w, h, b, x, y);
  }

  lemma MoveRightAt(w: nat, h: nat, b: Word, x: nat, y: nat)
    requires HexDims(w, h) && Cell(w, h, x, y) && Within(w, h, b)
    ensures Has(Move(w, h, RightDir, b), Idx(w, x, y)) <==> At(w, h, b, From(RightDir, x, y).0, From(RightDir, x, y).1)
  {
    RightAt(w, h, b, x, y);
  }

  lemma MoveUpLeftAt(w: nat, h: nat, b: Word, x: nat, y: nat)
    requires HexDims(w, h) && Cell(w, h, x, y) && Within(w, h, b)
    ensures Has(Move(w, h, UpLeftDir, b), Idx(w, x, y)) <==> At(w, h, b, From(UpLeftDir, x, y).0, From(UpLeftDir, x, y).1)
  {
    UpLeftAt(w, h, b, x, y);
  }

  lemma MoveUpRightAt(w: nat, h: nat, b: Word, x: nat, y: nat)
    requires HexDims(w, h) && Cell(w, h, x, y) && Within(w, h, b)
    ensures Has(Move(w, h, UpRightDir, b), Idx(w, x, y)) <==> At(w, h, b, From(UpRightDir, x, y).0, From(UpRightDir, x, y).1)
  {
    UpRightAt(w, h, b, x, y);
  }

  lemma MoveDownLeftAt(w: nat, h: nat, b: Word, x: nat, y: nat)
    requires HexDims(w, h) && Cell(w, h, x, y) && Within(w, h, b)
    ensures Has(Move(w, h, DownLeftDir, b), Idx(w, x, y)) <==> At(w, h, b, From(DownLeftDir, x, y).0, From(DownLeftDir, x, y).1)
  {
    DownLeftAt(w, h, b, x, y);
  }

  lemma MoveDownRightAt(w: nat, h: nat, b: Word, x: nat, y: nat)
    requires HexDims(w, h) && Cell(w, h, x, y) && Within(w, h, b)
    ensures Has(Move(w, h, DownRightDir, b), Idx(w, x, y)) <==> At(w, h, b, From(DownRightDir, x, y).0, From(DownRightDir, x, y).1)
  {
    DownRightAt(w, h, b, x, y);
  }

  /** Every move stays on the board. */
  lemma MoveWithin(w: nat, h: nat, d: Dir, b: Word)
    requires HexDims(w, h)
    ensures Within(w, h, Move(w, h, d, b))
  {
    AllBits(w, h);
  }

  /* ---------------------------------------------------------------- adjacent, doubles */

  /** `adjacent`: the union of the six moves. */
  function Adjacent(w: nat, h: nat, b: Word): Word
    requires HexDims(w, h)
  {
    Or(Or(Or(Or(Or(Move(w, h, LeftDir, b), Move(w, h, RightDir, b)), Move(w, h, UpLeftDir, b)),
      Move(w, h, UpRightDir, b)), Move(w, h, DownLeftDir, b)), Move(w, h, DownRightDir, b))
  }

  /** Some neighbour of (x, y) is in `b`. */
  ghost predicate Touches(w: nat, h: nat, b: Word, x: nat, y: nat)
  {
    exists d: Dir :: At(w, h, b, From(d, x, y).0, From(d, x, y).1)
  }

  /** A bit of `adjacent` is a bit of one of the six moves. */
  lemma AdjacentMoves(w: nat, h: nat, b: Word, i: nat)
    requires HexDims(w, h)
    ensures Has(Adjacent(w, h, b), i) <==> exists d: Dir :: Has(Move(w, h, d, b), i)
  {
    var l, r, ul := Move(w, h, LeftDir, b), Move(w, h, RightDir, b), Move(w, h, UpLeftDir, b);
    var ur, dl, dr := Move(w, h, UpRightDir, b), Move(w, h, DownLeftDir, b), Move(w, h, DownRightDir, b);
    HasOr(Or(Or(Or(Or(l, r), ul), ur), dl), dr, i);
    HasOr(Or(Or(Or(l, r), ul), ur), dl, i);
    HasOr(Or(Or(l, r), ul), ur, i);
    HasOr(Or(l, r), ul, i);
    HasOr(l, r, i);
    if exists d: Dir :: Has(Move(w, h, d, b), i) {
      var d: Dir :| Has(Move(w, h, d, b), i);
      match d
      case LeftDir =>
      case RightDir =>
      case UpLeftDir =>
      case UpRightDir =>
      case DownLeftDir =>
      case DownRightDir =>
    } else {
      assert !Has(l, i) && !Has(r, i) && !Has(ul, i) && !Has(ur, i) && !Has(dl, i) && !Has(dr, i);
    }
  }

  /** `adjacent` holds exactly the cells with a neighbour in the board word `b`. */
  lemma AdjacentAt(w: nat, h: nat, b: Word, x: nat, y: nat)
    requires HexDims(w, h) && Cell(w, h, x, y) && Within(w, h, b)
    ensures Has(Adjacent(w, h, b), Idx(w, x, y)) <==> Touches(w, h, b, x, y)
  {
    AdjacentMoves(w, h, b, Idx(w, x, y));
    forall d: Dir
      ensures Has(Move(w, h, d, b), Idx(w, x, y)) <==> At(w, h, b, From(d, x, y).0, From(d, x, y).1)
    {
      MoveAt(w, h, d, b, x, y);
    }
  }

  /** `(b.d() & !blockers).d()`: two steps in direction `d` over a non-blocker. */
  function Jump(w: nat, h: nat, d: Dir, b: Word, blockers: Word): Word
    requires HexDims(w, h)
  {
    Move(w, h, d, And(Move(w, h, d, b), Not(w, h, blockers)))
  }

  /** `doubles`: the union of the six two-step jumps. */
  function Doubles(w: nat, h: nat, b: Word, blockers: Word): Word
    requires HexDims(w, h)
  {
    Or(Or(Or(Or(Or(Jump(w, h, LeftDir, b, blockers), Jump(w, h, RightDir, b, blockers)),
      Jump(w, h, UpLeftDir, b, blockers)), Jump(w, h, UpRightDir, b, blockers)),
      Jump(w, h, DownLeftDir, b, blockers)), Jump(w, h, DownRightDir, b, blockers))
  }

  /**
   * A jump in direction `d` lands on (x, y) exactly when the cell one step back is a cell
   * and no blocker, and the cell two steps back is in `b`.
   */
  lemma JumpAt(w: nat, h: nat, d: Dir, b: Word, blockers: Word, x: nat, y: nat)
    requires HexDims(w, h) && Cell(w, h, x, y) && Within(w, h, b)
    ensures Has(Jump(w, h, d, b, blockers), Idx(w, x, y)) <==> JumpFrom(w, h, d, b, blockers, x, y)
  {
    var m := From(d, x, y);
    var step := And(Move(w, h, d, b), Not(w, h, blockers));
    AllBits(w, h);
    MaskWithin(w, h, Move(w, h, d, b), Not(w, h, blockers));
    MoveAt(w, h, d, step, x, y);
    if Cell(w, h, m.0, m.1) {
      MaskedAt(w, h, Move(w, h, d, b), blockers, m.0, m.1);
      MoveAt(w, h, d, b, m.0, m.1);
    }
  }

  /** The cell one step back in direction `d` is a cell and no blocker, and the one two steps back is in `b`. */
  predicate JumpFrom(w: nat, h: nat, d: Dir, b: Word, blockers: Word, x: nat, y: nat)
  {
    var m := From(d, x, y);
    Cell(w, h, m.0, m.1) && !Has(blockers, Idx(w, m.0, m.1)) && At(w, h, b, From(d, m.0, m.1).0, From(d, m.0, m.1).1)
  }

  /** Some jump over a non-blocker from a cell of `b` lands on (x, y). */
  ghost predicate JumpsTo(w: nat, h: nat, b: Word, blockers: Word, x: nat, y: nat)
  {
    exists d: Dir :: JumpFrom(w, h, d, b, blockers, x, y)
  }

  /** A bit of `doubles` is a bit of one of the six jumps. */
  lemma DoublesJumps(w: nat, h: nat, b: Word, blockers: Word, i: nat)
    requires HexDims(w, h)
    ensures Has(Doubles(w, h, b, blockers), i) <==> exists d: Dir :: Has(Jump(w, h, d, b, blockers), i)
  {
    var l, r, ul := Jump(w, h, LeftDir, b, blockers), Jump(w, h, RightDir, b, blockers), Jump(w, h, UpLeftDir, b, blockers);
    var ur, dl, dr := Jump(w, h, UpRightDir, b, blockers), Jump(w, h, DownLeftDir, b, blockers), Jump(w, h, DownRightDir, b, blockers);
    HasOr(Or(Or(Or(Or(l, r), ul), ur), dl), dr, i);
    HasOr(Or(Or(Or(l, r), ul), ur), dl, i);
    HasOr(Or(Or(l, r), ul), ur, i);
    HasOr(Or(l, r), ul, i);
    HasOr(l, r, i);
    if exists d: Dir :: Has(Jump(w, h, d, b, blockers), i) {
      var d: Dir :| Has(Jump(w, h, d, b, blockers), i);
      match d
      case LeftDir =>
      case RightDir =>
      case UpLeftDir =>
      case UpRightDir =>
      case DownLeftDir =>
      case DownRightDir =>
    } else {
      assert !Has(l, i) && !Has(r, i) && !Has(ul, i) && !Has(ur, i) && !Has(dl, i) && !Has(dr, i);
    }
  }

  /** `doubles` reaches a cell two steps away in a straight line only over a non-blocker. */
  lemma DoublesAt(w: nat, h: nat, b: Word, blockers: Word, x: nat, y: nat)
    requires HexDims(w, h) && Cell(w, h, x, y) && Within(w, h, b)
    ensures Has(Doubles(w, h, b, blockers), Idx(w, x, y)) <==> JumpsTo(w, h, b, blockers, x, y)
  {
    var i := Idx(w, x, y);
    DoublesJumps(w, h, b, blockers, i);
    forall d: Dir
      ensures Has(Jump(w, h, d, b, blockers), i) <==> JumpFrom(w, h, d, b, blockers, x, y)
    {
      JumpAt(w, h, d, b, blockers, x, y);
    }
  }

  /* ---------------------------------------------------------------- single cells */

  /** `from_hex`: the word holding the one cell. */
  function FromHex(w: nat, hx: Hexes.Hex): Word
    requires Hexes.GetIndex(w, hx) < 64
  {
    FromIndex(Hexes.GetIndex(w, hx))
  }

  /** `is_set`: `(b >> get_index()) & 1 == 1`; Rust rejects a shift by 64 or more. */
  function IsSet(w: nat, h: nat, b: Word, hx: Hexes.Hex): (r: bool)
    requires Hexes.GetIndex(w, hx) < 64
    ensures Hexes.OnBoard(w, h, hx) ==> (r <==> At(w, h, b, hx.file.index, hx.rank.index))
  {
    IdxIsGetIndex(w, hx.file.index, hx.rank.index);
    b[Hexes.GetIndex(w, hx)]
  }

  /** On a board, the word of one cell holds that cell and no other. */
  lemma FromHexIsSet(w: nat, h: nat, hx: Hexes.Hex, hx': Hexes.Hex)
    requires HexDims(w, h) && Hexes.OnBoard(w, h, hx) && Hexes.OnBoard(w, h, hx')
    requires Hexes.GetIndex(w, hx) < 64 && Hexes.GetIndex(w, hx') < 64
    ensures IsSet(w, h, FromHex(w, hx), hx') <==> hx == hx'
  {
    if Hexes.GetIndex(w, hx) == Hexes.GetIndex(w, hx') {
      IdxIsGetIndex(w, hx.file.index, hx.rank.index);
      IdxIsGetIndex(w, hx'.file.index, hx'.rank.index);
      IdxUnique(w, hx.file.index, hx.rank.index, hx'.file.index, hx'.rank.index);
    }
  }

  /** `lsb`: the cell of the lowest set bit. */
  function Lsb(w: nat, b: Word): (hx: Hexes.Hex)
    requires 1 <= w
    ensures Hexes.GetIndex(w, hx) == Tz(b)
    ensures b != Zero ==> Has(b, Hexes.GetIndex(w, hx)) && forall j :: 0 <= j < Hexes.GetIndex(w, hx) ==> !Has(b, j)
  {
    Hexes.GetIndexFromIndex(w, Tz(b));
    TzZero(b);
    TzBits(b);
    Hexes.FromIndex(w, Tz(b))
  }
}
