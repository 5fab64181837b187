/**
 * `Bitboard<WIDTH, HEIGHT>`: a set of squares of a WIDTH x HEIGHT board as the low
 * WIDTH*HEIGHT bits of a 64-bit word, square (x, y) at bit y*WIDTH + x. The board's
 * dimensions are the parameters `w` and `h` of every operation; the games fix them.
 */
module Bitboards {
  import opened Bits
  import Squares

  /** The const generics the games use: a board that fits in the word. */
  predicate Dims(w: nat, h: nat)
  {
    1 <= w && 1 <= h && w * h <= 64
  }

  /** The bit of square (x, y). */
  function Sq(w: nat, x: nat, y: nat): nat
  {
    y * w + x
  }

  /** The board's squares have bits below WIDTH*HEIGHT. */
  lemma SqBound(w: nat, h: nat, x: nat, y: nat)
    requires Dims(w, h) && x < w && y < h
    ensures Sq(w, x, y) < w * h
  {
    Squares.RowBound(w, h, x, y);
  }

  /** Every bit below WIDTH*HEIGHT is exactly one square's. */
  lemma SqOf(w: nat, h: nat, i: nat)
    requires Dims(w, h) && i < w * h
    ensures i % w < w && i / w < h && i == Sq(w, i % w, i / w)
  {
    if i / w >= h {
      Squares.MulAtLeast(i / w - h + 1, w);
    }
  }

  lemma SqUnique(w: nat, x: nat, y: nat, x': nat, y': nat)
    requires x < w && x' < w && Sq(w, x, y) == Sq(w, x', y')
    ensures x == x' && y == y'
  {
    Squares.DivModUnique(Sq(w, x, y), w, y, x);
    Squares.DivModUnique(Sq(w, x, y), w, y', x');
  }

  /** The word holds no square beyond the board: `b & !all() == 0`. */
  predicate Within(w: nat, h: nat, b: Word)
  {
    forall i :: w * h <= i < 64 ==> !b[i]
  }

  /** `all`: `0xffff_ffff_ffff_ffff >> (64 - WIDTH * HEIGHT)`. */
  function All(w: nat, h: nat): Word
    requires Dims(w, h)
  {
    Shr(Ones, 64 - w * h)
  }

  /** `all()` has exactly the low WIDTH*HEIGHT bits set. */
  lemma AllBits(w: nat, h: nat)
    requires Dims(w, h)
    ensures forall i :: 0 <= i < 64 ==> (All(w, h)[i] <==> i < w * h)
  {
  }

  /** The `Not` operator of the bitboard: `!b & all()`. */
  function Not(w: nat, h: nat, b: Word): (r: Word)
    requires Dims(w, h)
  {
    And(Complement(b), All(w, h))
  }

  /** Masking with a board word, `all()` in particular, gives a board word. */
  lemma MaskWithin(w: nat, h: nat, a: Word, c: Word)
    requires Within(w, h, c)
    ensures Within(w, h, And(a, c))
  {
  }

  lemma AllWithin(w: nat, h: nat)
    requires Dims(w, h)
    ensures Within(w, h, All(w, h))
  {
    AllBits(w, h);
  }

  /** `Not` is the complement within the board, and undoes itself on board words. */
  lemma NotBits(w: nat, h: nat, b: Word)
    requires Dims(w, h)
    ensures Within(w, h, Not(w, h, b))
    ensures forall i :: 0 <= i < w * h ==> (Not(w, h, b)[i] <==> !b[i])
    ensures Within(w, h, b) ==> Not(w, h, Not(w, h, b)) == b
  {
    AllBits(w, h);
    if Within(w, h, b) {
      assert Not(w, h, Not(w, h, b)) == b;
    }
  }

  /** `north`: `(b << WIDTH) & all()`; a shift by 64 or more is an overflow panic in Rust. */
  function North(w: nat, h: nat, b: Word): Word
    requires Dims(w, h) && w < 64
  {
    And(Shl(b, w), All(w, h))
  }

  /** `south`: `(b >> WIDTH) & all()`. */
  function South(w: nat, h: nat, b: Word): Word
    requires Dims(w, h) && w < 64
  {
    And(Shr(b, w), All(w, h))
  }

  /** `east`: `(b << 1) & !left_edge & all()`. */
  function East(w: nat, h: nat, b: Word): Word
    requires Dims(w, h)
  {
    And(And(Shl(b, 1), Not(w, h, LeftEdge(w, h))), All(w, h))
  }

  /** `west`: `(b >> 1) & !right_edge & all()`. */
  function West(w: nat, h: nat, b: Word): Word
    requires Dims(w, h)
  {
    And(And(Shr(b, 1), Not(w, h, RightEdge(w, h))), All(w, h))
  }

  function NorthEast(w: nat, h: nat, b: Word): Word requires Dims(w, h) && w < 64 { East(w, h, North(w, h, b)) }
  function NorthWest(w: nat, h: nat, b: Word): Word requires Dims(w, h) && w < 64 { West(w, h, North(w, h, b)) }
  function SouthEast(w: nat, h: nat, b: Word): Word requires Dims(w, h) && w < 64 { East(w, h, South(w, h, b)) }
  function SouthWest(w: nat, h: nat, b: Word): Word requires Dims(w, h) && w < 64 { West(w, h, South(w, h, b)) }

  /**
   * The edge loops: from `seed`, `k - 1` times OR in the mask shifted up (`FillUp`) or down
   * (`FillDown`) by `s`.
   */
  function FillUp(seed: Word, s: nat, k: nat): Word
    requires k <= 1 || s < 64
  {
    if k <= 1 then seed else var m := FillUp(seed, s, k - 1); Or(m, Shl(m, s))
  }

  function FillDown(seed: Word, s: nat, k: nat): Word
    requires k <= 1 || s < 64
  {
    if k <= 1 then seed else var m := FillDown(seed, s, k - 1); Or(m, Shr(m, s))
  }

  /** What `get_left_edge` computes: the squares of the first file. */
  function LeftEdge(w: nat, h: nat): Word
    requires Dims(w, h)
  {
    seq(64, i requires 0 <= i < 64 => i < w * h && i % w == 0)
  }

  /** What `get_right_edge` computes: the squares of the last file. */
  function RightEdge(w: nat, h: nat): Word
    requires Dims(w, h)
  {
    seq(64, i requires 0 <= i < 64 => i < w * h && i % w == w - 1)
  }

  /** What `get_bottom_edge` computes: the squares of the first rank. */
  function BottomEdge(w: nat, h: nat): Word
    requires Dims(w, h)
  {
    seq(64, i requires 0 <= i < 64 => i < w)
  }

  /** What `get_top_edge` computes: the squares of the last rank. */
  function TopEdge(w: nat, h: nat): Word
    requires Dims(w, h)
  {
    seq(64, i requires 0 <= i < 64 => w * h - w <= i < w * h)
  }

  /** The `k` squares `c`, `c + s`, `c + 2s`, ... */
  predicate OnLine(c: nat, s: nat, k: nat, i: nat)
  {
    exists j :: 0 <= j < k && i == Stride(c, s, j)
  }

  function Stride(c: nat, s: nat, j: nat): nat
  {
    c + j * s
  }

  lemma {:induction false} FillUpBits(c: nat, s: nat, k: nat)
    requires c < 64 && 1 <= k && (k <= 1 || 1 <= s < 64)
    ensures forall i :: 0 <= i < 64 ==> (FillUp(FromIndex(c), s, k)[i] <==> OnLine(c, s, k, i))
  {
    if k > 1 {
      FillUpBits(c, s, k - 1);
      forall i | 0 <= i < 64
        ensures FillUp(FromIndex(c), s, k)[i] <==> OnLine(c, s, k, i)
      {
        if OnLine(c, s, k, i) {
          var j :| 0 <= j < k && i == Stride(c, s, j);
          if j > 0 {
            assert i - s == Stride(c, s, j - 1);
          }
        }
        if i >= s && OnLine(c, s, k - 1, i - s) {
          var j :| 0 <= j < k - 1 && i - s == Stride(c, s, j);
          assert i == Stride(c, s, j + 1);
        }
      }
    } else {
      forall i | 0 <= i < 64
        ensures FillUp(FromIndex(c), s, k)[i] <==> OnLine(c, s, k, i)
      {
        if i == c {
          assert i == Stride(c, s, 0);
        }
      }
    }
  }

  lemma {:induction false} FillDownBits(c: nat, k: nat)
    requires c < 64 && 1 <= k
    ensures forall i :: 0 <= i < 64 ==> (FillDown(FromIndex(c), 1, k)[i] <==> c + 1 - k <= i <= c)
  {
    if k > 1 {
      FillDownBits(c, k - 1);
    }
  }

  /** The bit of (x, y) leaves x over when divided by WIDTH. */
  lemma SqMod(w: nat, x: nat, y: nat)
    requires x < w
    ensures Sq(w, x, y) % w == x
  {
    Squares.DivModUnique(Sq(w, x, y), w, y, x);
  }

  lemma LeftEdgeBits(w: nat, h: nat)
    requires Dims(w, h)
    ensures forall x, y :: 0 <= x < w && 0 <= y < h ==> (Has(LeftEdge(w, h), Sq(w, x, y)) <==> x == 0)
    ensures Within(w, h, LeftEdge(w, h))
  {
    forall x, y | 0 <= x < w && 0 <= y < h
      ensures Has(LeftEdge(w, h), Sq(w, x, y)) <==> x == 0
    {
      SqBound(w, h, x, y);
      SqMod(w, x, y);
    }
  }

  lemma RightEdgeBits(w: nat, h: nat)
    requires Dims(w, h)
    ensures forall x, y :: 0 <= x < w && 0 <= y < h ==> (Has(RightEdge(w, h), Sq(w, x, y)) <==> x == w - 1)
    ensures Within(w, h, RightEdge(w, h))
  {
    forall x, y | 0 <= x < w && 0 <= y < h
      ensures Has(RightEdge(w, h), Sq(w, x, y)) <==> x == w - 1
    {
      SqBound(w, h, x, y);
      SqMod(w, x, y);
    }
  }

  /** The loop of `get_left_edge` and `get_right_edge` builds file `c`. */
  lemma FillUpFile(w: nat, h: nat, c: nat)
    requires Dims(w, h) && c < w
    ensures forall i :: 0 <= i < 64 ==> (FillUp(FromIndex(c), w, h)[i] <==> i < w * h && i % w == c)
  {
    var m := FillUp(FromIndex(c), w, h);
    EdgeBits(w, h, c);
    forall i | 0 <= i < 64
      ensures m[i] <==> i < w * h && i % w == c
    {
      if i < w * h {
        SqOf(w, h, i);
        var x, y := i % w, i / w;
        assert Has(m, Sq(w, x, y)) <==> x == c;
      } else {
        assert !m[i];
      }
    }
  }

  lemma EdgeBits(w: nat, h: nat, c: nat)
    requires Dims(w, h) && c < w
    ensures forall x, y :: 0 <= x < w && 0 <= y < h ==> (Has(FillUp(FromIndex(c), w, h), Sq(w, x, y)) <==> x == c)
    ensures Within(w, h, FillUp(FromIndex(c), w, h))
  {
    var m := FillUp(FromIndex(c), w, h);
    assert c < 64 by {
      SqBound(w, h, c, 0);
    }
    if h > 1 {
      assert w < 64 by {
        assert w * h >= w * 2;
      }
    }
    FillUpBits(c, w, h);
    forall x, y | 0 <= x < w && 0 <= y < h
      ensures Has(m, Sq(w, x, y)) <==> x == c
    {
      SqBound(w, h, x, y);
      if x == c {
        assert Sq(w, x, y) == Stride(c, w, y);
      }
      if OnLine(c, w, h, Sq(w, x, y)) {
        var j :| 0 <= j < h && Sq(w, x, y) == Stride(c, w, j);
        SqUnique(w, x, y, c, j);
      }
    }
    forall i | w * h <= i < 64
      ensures !m[i]
    {
      if OnLine(c, w, h, i) {
        var j :| 0 <= j < h && i == Stride(c, w, j);
        SqBound(w, h, c, j);
      }
    }
  }

  /** The loop of `get_bottom_edge` builds rank 1. */
  lemma FillUpRank(w: nat, h: nat)
    requires Dims(w, h)
    ensures FillUp(FromIndex(0), 1, w) == BottomEdge(w, h)
  {
    SqBound(w, h, w - 1, 0);
    FillUpBits(0, 1, w);
    forall i | 0 <= i < 64
      ensures FillUp(FromIndex(0), 1, w)[i] <==> i < w
    {
      if i < w {
        assert i == Stride(0, 1, i);
      }
    }
  }

  /** The loop of `get_top_edge` builds the last rank. */
  lemma FillDownRank(w: nat, h: nat)
    requires Dims(w, h)
    ensures FillDown(FromIndex(w * h - 1), 1, w) == TopEdge(w, h)
  {
    FillDownBits(w * h - 1, w);
  }

  /** The loop `while i < count { mask |= mask << s; i += 1 }` from `i = 1`. */
  method FillUpLoop(seed: Word, s: nat, count: nat) returns (mask: Word)
    requires count <= 1 || s < 64
    ensures mask == FillUp(seed, s, count)
  {
    mask := seed;
    var i := 1;
    while i < count
      invariant 1 <= i && (i <= count || i == 1)
      invariant mask == FillUp(seed, s, i)
    {
      mask := Or(mask, Shl(mask, s));
      i := i + 1;
    }
  }

  /** The loop `while i < count { mask |= mask >> s; i += 1 }` from `i = 1`. */
  method FillDownLoop(seed: Word, s: nat, count: nat) returns (mask: Word)
    requires count <= 1 || s < 64
    ensures mask == FillDown(seed, s, count)
  {
    mask := seed;
    var i := 1;
    while i < count
      invariant 1 <= i && (i <= count || i == 1)
      invariant mask == FillDown(seed, s, i)
    {
      mask := Or(mask, Shr(mask, s));
      i := i + 1;
    }
  }

  /** `get_left_edge`: from bit 0, HEIGHT-1 times `mask |= mask << WIDTH`. */
  method GetLeftEdge(w: nat, h: nat) returns (mask: Word)
    requires Dims(w, h)
    ensures mask == LeftEdge(w, h)
  {
    EdgeShift(w, h);
    mask := FillUpLoop(FromIndex(0), w, h);
    FillUpFile(w, h, 0);
  }

  /** `get_right_edge`: from bit WIDTH-1, HEIGHT-1 times `mask |= mask << WIDTH`. */
  method GetRightEdge(w: nat, h: nat) returns (mask: Word)
    requires Dims(w, h)
    ensures mask == RightEdge(w, h)
  {
    EdgeShift(w, h);
    mask := FillUpLoop(FromIndex(w - 1), w, h);
    FillUpFile(w, h, w - 1);
  }

  /** `get_bottom_edge`: from bit 0, WIDTH-1 times `mask |= mask << 1`. */
  method GetBottomEdge(w: nat, h: nat) returns (mask: Word)
    requires Dims(w, h)
    ensures mask == BottomEdge(w, h)
  {
    EdgeShift(w, h);
    mask := FillUpLoop(FromIndex(0), 1, w);
    FillUpRank(w, h);
  }

  /** `get_top_edge`: from bit WIDTH*HEIGHT-1, WIDTH-1 times `mask |= mask >> 1`. */
  method GetTopEdge(w: nat, h: nat) returns (mask: Word)
    requires Dims(w, h)
    ensures mask == TopEdge(w, h)
  {
    mask := FillDownLoop(FromIndex(w * h - 1), 1, w);
    FillDownRank(w, h);
  }

  /** The edge loops never shift by 64 or more, and the last file is on the board. */
  lemma EdgeShift(w: nat, h: nat)
    requires Dims(w, h)
    ensures w - 1 < 64 && (h <= 1 || w < 64)
  {
    if h > 1 {
      assert w * h >= w * 2;
    }
  }

  /** Square arithmetic the direction proofs share: the bits of the neighbouring squares. */
  lemma SqNeighbours(w: nat, x: nat, y: nat)
    requires 1 <= w && x < w
    ensures Sq(w, x, y + 1) == Sq(w, x, y) + w
    ensures Sq(w, x, y) >= w <==> y >= 1
  {
    if y >= 1 {
      Squares.MulAtLeast(y, w);
    }
  }

  /** `north` moves every square one rank up and drops the top rank. */
  lemma NorthBits(w: nat, h: nat, b: Word)
    requires Dims(w, h) && w < 64
    ensures Within(w, h, North(w, h, b))
    ensures forall x, y :: 0 <= x < w && 0 <= y < h ==>
      (Has(North(w, h, b), Sq(w, x, y)) <==> 0 < y && Has(b, Sq(w, x, y - 1)))
  {
    AllWithin(w, h);
    MaskWithin(w, h, Shl(b, w), All(w, h));
    forall x, y | 0 <= x < w && 0 <= y < h
      ensures Has(North(w, h, b), Sq(w, x, y)) <==> 0 < y && Has(b, Sq(w, x, y - 1))
    {
      NorthAt(w, h, b, x, y);
    }
  }

  lemma NorthAt(w: nat, h: nat, b: Word, x: nat, y: nat)
    requires Dims(w, h) && w < 64 && x < w && y < h
    ensures Has(North(w, h, b), Sq(w, x, y)) <==> 0 < y && Has(b, Sq(w, x, y - 1))
  {
    var i := Sq(w, x, y);
    SqBound(w, h, x, y);
    OnBoardAt(w, h, x, y);
    HasAnd(Shl(b, w), All(w, h), i);
    HasShl(b, w, i);
    SqNeighbours(w, x, y);
    if y > 0 {
      SqNeighbours(w, x, y - 1);
    }
  }

  /** `south` moves every square of a board word one rank down and drops the bottom rank. */
  lemma SouthBits(w: nat, h: nat, b: Word)
    requires Dims(w, h) && w < 64 && Within(w, h, b)
    ensures Within(w, h, South(w, h, b))
    ensures forall x, y :: 0 <= x < w && 0 <= y < h ==>
      (Has(South(w, h, b), Sq(w, x, y)) <==> y + 1 < h && Has(b, Sq(w, x, y + 1)))
  {
    AllWithin(w, h);
    MaskWithin(w, h, Shr(b, w), All(w, h));
    forall x, y | 0 <= x < w && 0 <= y < h
      ensures Has(South(w, h, b), Sq(w, x, y)) <==> y + 1 < h && Has(b, Sq(w, x, y + 1))
    {
      SouthAt(w, h, b, x, y);
    }
  }

  lemma SouthAt(w: nat, h: nat, b: Word, x: nat, y: nat)
    requires Dims(w, h) && w < 64 && Within(w, h, b) && x < w && y < h
    ensures Has(South(w, h, b), Sq(w, x, y)) <==> y + 1 < h && Has(b, Sq(w, x, y + 1))
  {
    var i := Sq(w, x, y);
    OnBoardAt(w, h, x, y);
    HasAnd(Shr(b, w), All(w, h), i);
    HasShr(b, w, i);
    SqNeighbours(w, x, y);
    if y + 1 == h {
      OffBoard(w, h, b, x, h);
    }
  }

  /** `east` moves every square one file right; nothing wraps onto the left edge. */
  lemma EastBits(w: nat, h: nat, b: Word)
    requires Dims(w, h)
    ensures Within(w, h, East(w, h, b))
    ensures forall x, y :: 0 <= x < w && 0 <= y < h ==>
      (Has(East(w, h, b), Sq(w, x, y)) <==> 0 < x && Has(b, Sq(w, x - 1, y)))
  {
    AllWithin(w, h);
    MaskWithin(w, h, And(Shl(b, 1), Not(w, h, LeftEdge(w, h))), All(w, h));
    forall x, y | 0 <= x < w && 0 <= y < h
      ensures Has(East(w, h, b), Sq(w, x, y)) <==> 0 < x && Has(b, Sq(w, x - 1, y))
    {
      EastAt(w, h, b, x, y);
    }
  }

  lemma EastAt(w: nat, h: nat, b: Word, x: nat, y: nat)
    requires Dims(w, h) && x < w && y < h
    ensures Has(East(w, h, b), Sq(w, x, y)) <==> 0 < x && Has(b, Sq(w, x - 1, y))
  {
    var i := Sq(w, x, y);
    var notLeft := Not(w, h, LeftEdge(w, h));
    SqNeighbours(w, x, y);
    OnBoardAt(w, h, x, y);
    NotEdgeAt(w, h, x, y);
    HasAnd(And(Shl(b, 1), notLeft), All(w, h), i);
    HasAnd(Shl(b, 1), notLeft, i);
    HasShl(b, 1, i);
  }

  /** `west` moves every square one file left; nothing wraps onto the right edge. */
  lemma WestBits(w: nat, h: nat, b: Word)
    requires Dims(w, h)
    ensures Within(w, h, West(w, h, b))
    ensures forall x, y :: 0 <= x < w && 0 <= y < h ==>
      (Has(West(w, h, b), Sq(w, x, y)) <==> x + 1 < w && Has(b, Sq(w, x + 1, y)))
  {
    AllWithin(w, h);
    MaskWithin(w, h, And(Shr(b, 1), Not(w, h, RightEdge(w, h))), All(w, h));
    forall x, y | 0 <= x < w && 0 <= y < h
      ensures Has(West(w, h, b), Sq(w, x, y)) <==> x + 1 < w && Has(b, Sq(w, x + 1, y))
    {
      WestAt(w, h, b, x, y);
    }
  }

  lemma WestAt(w: nat, h: nat, b: Word, x: nat, y: nat)
    requires Dims(w, h) && x < w && y < h
    ensures Has(West(w, h, b), Sq(w, x, y)) <==> x + 1 < w && Has(b, Sq(w, x + 1, y))
  {
    var i := Sq(w, x, y);
    var notRight := Not(w, h, RightEdge(w, h));
    SqNeighbours(w, x, y);
    OnBoardAt(w, h, x, y);
    NotEdgeAt(w, h, x, y);
    HasAnd(And(Shr(b, 1), notRight), All(w, h), i);
    HasAnd(Shr(b, 1), notRight, i);
    HasShr(b, 1, i);
  }

  /** Every square of the board is in `all()`. */
  lemma OnBoardAt(w: nat, h: nat, x: nat, y: nat)
    requires Dims(w, h) && x < w && y < h
    ensures Has(All(w, h), Sq(w, x, y))
  {
    AllBits(w, h);
    SqBound(w, h, x, y);
  }

  /** `!get_left_edge()` and `!get_right_edge()` at one square. */
  lemma NotEdgeAt(w: nat, h: nat, x: nat, y: nat)
    requires Dims(w, h) && x < w && y < h
    ensures Has(Not(w, h, LeftEdge(w, h)), Sq(w, x, y)) <==> x != 0
    ensures Has(Not(w, h, RightEdge(w, h)), Sq(w, x, y)) <==> x != w - 1
  {
    SqBound(w, h, x, y);
    LeftEdgeBits(w, h);
    RightEdgeBits(w, h);
    NotBits(w, h, LeftEdge(w, h));
    NotBits(w, h, RightEdge(w, h));
  }

  /** East never sets a left-edge square, west never a right-edge square. */
  lemma EastWestEdges(w: nat, h: nat, b: Word)
    requires Dims(w, h)
    ensures And(East(w, h, b), LeftEdge(w, h)) == Zero
    ensures And(West(w, h, b), RightEdge(w, h)) == Zero
  {
    LeftEdgeBits(w, h);
    RightEdgeBits(w, h);
    EastBits(w, h, b);
    WestBits(w, h, b);
    forall i | 0 <= i < 64
      ensures !(East(w, h, b)[i] && LeftEdge(w, h)[i]) && !(West(w, h, b)[i] && RightEdge(w, h)[i])
    {
      if i < w * h {
        SqOf(w, h, i);
      }
    }
    assert And(East(w, h, b), LeftEdge(w, h)) == Zero;
    assert And(West(w, h, b), RightEdge(w, h)) == Zero;
  }

  /** Square (x, y) is on the board and set in `b`; coordinates off the board are never set. */
  predicate At(w: nat, h: nat, b: Word, x: int, y: int)
  {
    0 <= x < w && 0 <= y < h && Has(b, Sq(w, x, y))
  }

  function Abs(n: int): nat
  {
    if n < 0 then -n else n
  }

  /** The king distance between two squares. */
  function Cheb(x: int, y: int, x': int, y': int): nat
  {
    if Abs(x - x') < Abs(y - y') then Abs(y - y') else Abs(x - x')
  }

  /** Some square of `b` is exactly `r` king steps from (x, y). */
  ghost predicate Ring(w: nat, h: nat, b: Word, x: int, y: int, r: nat)
  {
    exists x', y' :: At(w, h, b, x', y') && Cheb(x, y, x', y') == r
  }

  /**
   * `adjacent`: `(b << W) | (b >> W) | ((b >> 1) | (b >> (W+1)) | (b << (W-1))) & all().west()
   * | ((b << 1) | (b << (W+1)) | (b >> (W-1))) & all().east()`. The first two terms are not
   * masked, so bits past the board may come out set; every game masks the result.
   */
  function Adjacent(w: nat, h: nat, b: Word): Word
    requires Dims(w, h) && w + 1 < 64
  {
    Or(Or(Or(Shl(b, w), Shr(b, w)),
          And(Or(Or(Shr(b, 1), Shr(b, w + 1)), Shl(b, w - 1)), West(w, h, All(w, h)))),
       And(Or(Or(Shl(b, 1), Shl(b, w + 1)), Shr(b, w - 1)), East(w, h, All(w, h))))
  }

  /** `all().west()` is every square but the last file. */
  lemma AllWest(w: nat, h: nat, x: nat, y: nat)
    requires Dims(w, h) && x < w && y < h
    ensures Has(West(w, h, All(w, h)), Sq(w, x, y)) <==> x + 1 < w
  {
    AllBits(w, h);
    WestBits(w, h, All(w, h));
    assert Has(West(w, h, All(w, h)), Sq(w, x, y)) <==> x + 1 < w && Has(All(w, h), Sq(w, x + 1, y));
    if x + 1 < w {
      SqBound(w, h, x + 1, y);
      assert Sq(w, x + 1, y) < 64;
      assert All(w, h)[Sq(w, x + 1, y)];
    }
  }

  /** `all().east()` is every square but the first file. */
  lemma AllEast(w: nat, h: nat, x: nat, y: nat)
    requires Dims(w, h) && x < w && y < h
    ensures Has(East(w, h, All(w, h)), Sq(w, x, y)) <==> 0 < x
  {
    AllBits(w, h);
    EastBits(w, h, All(w, h));
    assert Has(East(w, h, All(w, h)), Sq(w, x, y)) <==> 0 < x && Has(All(w, h), Sq(w, x - 1, y));
    if 0 < x {
      SqBound(w, h, x - 1, y);
      assert All(w, h)[Sq(w, x - 1, y)];
    }
  }

  /** On the board, `adjacent` holds a square iff a square of the word is one king step away. */
  lemma AdjacentBits(w: nat, h: nat, b: Word)
    requires Dims(w, h) && w + 1 < 64 && Within(w, h, b)
    ensures forall x, y :: 0 <= x < w && 0 <= y < h ==>
      (Has(Adjacent(w, h, b), Sq(w, x, y)) <==> Ring(w, h, b, x, y, 1))
  {
    forall x, y | 0 <= x < w && 0 <= y < h
      ensures Has(Adjacent(w, h, b), Sq(w, x, y)) <==> Ring(w, h, b, x, y, 1)
    {
      AdjacentAt(w, h, b, x, y);
      RingOne(w, h, b, x, y);
    }
  }

  lemma AdjacentAt(w: nat, h: nat, b: Word, x: nat, y: nat)
    requires Dims(w, h) && w + 1 < 64 && Within(w, h, b) && x < w && y < h
    ensures Has(Adjacent(w, h, b), Sq(w, x, y)) <==>
      At(w, h, b, x, y - 1) || At(w, h, b, x, y + 1) ||
      At(w, h, b, x + 1, y) || At(w, h, b, x + 1, y + 1) || At(w, h, b, x + 1, y - 1) ||
      At(w, h, b, x - 1, y) || At(w, h, b, x - 1, y - 1) || At(w, h, b, x - 1, y + 1)
  {
    var i := Sq(w, x, y);
    var vertical := Or(Shl(b, w), Shr(b, w));
    var left := And(Or(Or(Shr(b, 1), Shr(b, w + 1)), Shl(b, w - 1)), West(w, h, All(w, h)));
    var right := And(Or(Or(Shl(b, 1), Shl(b, w + 1)), Shr(b, w - 1)), East(w, h, All(w, h)));
    HasOr(Or(vertical, left), right, i);
    HasOr(vertical, left, i);
    AdjacentVertical(w, h, b, x, y);
    AllWest(w, h, x, y);
    AdjacentLeft(w, h, b, x, y, West(w, h, All(w, h)));
    AllEast(w, h, x, y);
    AdjacentRight(w, h, b, x, y, East(w, h, All(w, h)));
  }

  /** The unmasked `(b << W) | (b >> W)`: the squares straight below and above. */
  lemma AdjacentVertical(w: nat, h: nat, b: Word, x: nat, y: nat)
    requires Dims(w, h) && w + 1 < 64 && Within(w, h, b) && x < w && y < h
    ensures Has(Or(Shl(b, w), Shr(b, w)), Sq(w, x, y)) <==> At(w, h, b, x, y - 1) || At(w, h, b, x, y + 1)
  {
    HasOr(Shl(b, w), Shr(b, w), Sq(w, x, y));
    TermDown(w, h, b, x, y, 0, 1, w);
    TermUp(w, h, b, x, y, 0, 1, w);
  }

  /** The terms masked by `all().west()`: the squares of the next file up. */
  lemma AdjacentLeft(w: nat, h: nat, b: Word, x: nat, y: nat, west: Word)
    requires Dims(w, h) && w + 1 < 64 && Within(w, h, b) && x < w && y < h
    requires Has(west, Sq(w, x, y)) <==> x + 1 < w
    ensures Has(And(Or(Or(Shr(b, 1), Shr(b, w + 1)), Shl(b, w - 1)), west), Sq(w, x, y))
      <==> At(w, h, b, x + 1, y) || At(w, h, b, x + 1, y + 1) || At(w, h, b, x + 1, y - 1)
  {
    var i := Sq(w, x, y);
    HasAnd(Or(Or(Shr(b, 1), Shr(b, w + 1)), Shl(b, w - 1)), west, i);
    if x + 1 < w {
      HasOr(Or(Shr(b, 1), Shr(b, w + 1)), Shl(b, w - 1), i);
      HasOr(Shr(b, 1), Shr(b, w + 1), i);
      TermUp(w, h, b, x, y, 1, 0, 1);
      TermUp(w, h, b, x, y, 1, 1, w + 1);
      TermDown(w, h, b, x, y, 1, 1, w - 1);
    }
  }

  /** The terms masked by `all().east()`: the squares of the file before. */
  lemma AdjacentRight(w: nat, h: nat, b: Word, x: nat, y: nat, east: Word)
    requires Dims(w, h) && w + 1 < 64 && Within(w, h, b) && x < w && y < h
    requires Has(east, Sq(w, x, y)) <==> 0 < x
    ensures Has(And(Or(Or(Shl(b, 1), Shl(b, w + 1)), Shr(b, w - 1)), east), Sq(w, x, y))
      <==> At(w, h, b, x - 1, y) || At(w, h, b, x - 1, y - 1) || At(w, h, b, x - 1, y + 1)
  {
    var i := Sq(w, x, y);
    HasAnd(Or(Or(Shl(b, 1), Shl(b, w + 1)), Shr(b, w - 1)), east, i);
    if 0 < x {
      HasOr(Or(Shl(b, 1), Shl(b, w + 1)), Shr(b, w - 1), i);
      HasOr(Shl(b, 1), Shl(b, w + 1), i);
      TermDown(w, h, b, x, y, -1, 0, 1);
      TermDown(w, h, b, x, y, -1, 1, w + 1);
      TermUp(w, h, b, x, y, -1, 1, w - 1);
    }
  }

  /** `b >> k`, `k = dy * WIDTH + dx`, brings the square `dy` ranks up and `dx` files over onto (x, y). */
  lemma TermUp(w: nat, h: nat, b: Word, x: nat, y: nat, dx: int, dy: nat, k: nat)
    requires Dims(w, h) && Within(w, h, b) && x < w && y < h && k < 64 && k == dy * w + dx
    requires 0 <= x + dx < w
    ensures Has(Shr(b, k), Sq(w, x, y)) == At(w, h, b, x + dx, y + dy)
  {
    assert (y + dy) * w == y * w + dy * w;
    FromAbove(w, h, b, x, y, k, x + dx, y + dy);
  }

  /** `b << k`, `k = dy * WIDTH - dx`, brings the square `dy` ranks down and `dx` files over onto (x, y). */
  lemma TermDown(w: nat, h: nat, b: Word, x: nat, y: nat, dx: int, dy: nat, k: nat)
    requires Dims(w, h) && x < w && y < h && k < 64 && k == dy * w - dx
    requires 0 <= x + dx < w
    ensures Has(Shl(b, k), Sq(w, x, y)) == At(w, h, b, x + dx, y - dy)
  {
    if y >= dy {
      assert (y - dy) * w + dy * w == y * w;
      FromBelow(w, h, b, x, y, k, x + dx, y - dy);
    } else {
      assert (dy - y) * w >= w by {
        Squares.MulAtLeast(dy - y, w);
      }
      assert dy * w - y * w == (dy - y) * w;
      NoneBelow(w, h, b, x, y, k);
    }
  }

  /** A right shift by `k` brings square (x', y'), `k` bits up, onto (x, y). */
  lemma FromAbove(w: nat, h: nat, b: Word, x: nat, y: nat, k: nat, x': nat, y': nat)
    requires Dims(w, h) && Within(w, h, b) && x < w && y < h && k < 64
    requires x' < w && Sq(w, x', y') == Sq(w, x, y) + k
    ensures Has(Shr(b, k), Sq(w, x, y)) == At(w, h, b, x', y')
  {
    HasShr(b, k, Sq(w, x, y));
    if y' >= h {
      OffBoard(w, h, b, x', y');
    }
  }

  /** A left shift by `k` brings square (x', y'), `k` bits down, onto (x, y). */
  lemma FromBelow(w: nat, h: nat, b: Word, x: nat, y: nat, k: nat, x': nat, y': nat)
    requires Dims(w, h) && x < w && y < h && k < 64
    requires x' < w && y' <= y && Sq(w, x', y') + k == Sq(w, x, y)
    ensures Has(Shl(b, k), Sq(w, x, y)) == At(w, h, b, x', y')
  {
    SqBound(w, h, x, y);
    HasShl(b, k, Sq(w, x, y));
  }

  /** A left shift by more than the square's own bit brings nothing onto it. */
  lemma NoneBelow(w: nat, h: nat, b: Word, x: nat, y: nat, k: nat)
    requires Dims(w, h) && x < w && y < h && k < 64 && Sq(w, x, y) < k
    ensures !Has(Shl(b, k), Sq(w, x, y))
  {
    SqBound(w, h, x, y);
    HasShl(b, k, Sq(w, x, y));
  }

  /** A board word has no bit on the ranks past the top. */
  lemma OffBoard(w: nat, h: nat, b: Word, x: nat, y: nat)
    requires Dims(w, h) && Within(w, h, b) && x < w && y >= h
    ensures !Has(b, Sq(w, x, y))
  {
    assert y * w >= h * w;
  }

  /** The squares one king step from (x, y) are its eight neighbours. */
  lemma RingOne(w: nat, h: nat, b: Word, x: int, y: int)
    ensures Ring(w, h, b, x, y, 1) <==>
      At(w, h, b, x, y - 1) || At(w, h, b, x, y + 1) || At(w, h, b, x + 1, y) || At(w, h, b, x + 1, y + 1) ||
      At(w, h, b, x + 1, y - 1) || At(w, h, b, x - 1, y) || At(w, h, b, x - 1, y - 1) || At(w, h, b, x - 1, y + 1)
  {
    RingOneOnly(w, h, b, x, y);
    RingOneSome(w, h, b, x, y);
  }

  lemma RingOneOnly(w: nat, h: nat, b: Word, x: int, y: int)
    ensures Ring(w, h, b, x, y, 1) ==>
      At(w, h, b, x, y - 1) || At(w, h, b, x, y + 1) || At(w, h, b, x + 1, y) || At(w, h, b, x + 1, y + 1) ||
      At(w, h, b, x + 1, y - 1) || At(w, h, b, x - 1, y) || At(w, h, b, x - 1, y - 1) || At(w, h, b, x - 1, y + 1)
  {
    if Ring(w, h, b, x, y, 1) {
      var x', y' :| At(w, h, b, x', y') && Cheb(x, y, x', y') == 1;
      var dx, dy := x' - x, y' - y;
      if dx == -1 {
        if dy == -1 {
          assert At(w, h, b, x - 1, y - 1);
        } else if dy == 0 {
          assert At(w, h, b, x - 1, y);
        } else if dy == 1 {
          assert At(w, h, b, x - 1, y + 1);
        }
      } else if dx == 0 {
        if dy == -1 {
          assert At(w, h, b, x, y - 1);
        } else if dy == 1 {
          assert At(w, h, b, x, y + 1);
        }
      } else if dx == 1 {
        if dy == -1 {
          assert At(w, h, b, x + 1, y - 1);
        } else if dy == 0 {
          assert At(w, h, b, x + 1, y);
        } else if dy == 1 {
          assert At(w, h, b, x + 1, y + 1);
        }
      }
    }
  }

  lemma RingOneSome(w: nat, h: nat, b: Word, x: int, y: int)
    ensures (At(w, h, b, x, y - 1) || At(w, h, b, x, y + 1) || At(w, h, b, x + 1, y) || At(w, h, b, x + 1, y + 1) ||
      At(w, h, b, x + 1, y - 1) || At(w, h, b, x - 1, y) || At(w, h, b, x - 1, y - 1) || At(w, h, b, x - 1, y + 1)) ==> Ring(w, h, b, x, y, 1)
  {
    if At(w, h, b, x, y - 1) {
      assert Cheb(x, y, x, y - 1) == 1;
    }
    if At(w, h, b, x, y + 1) {
      assert Cheb(x, y, x, y + 1) == 1;
    }
    if At(w, h, b, x + 1, y) {
      assert Cheb(x, y, x + 1, y) == 1;
    }
    if At(w, h, b, x + 1, y + 1) {
      assert Cheb(x, y, x + 1, y + 1) == 1;
    }
    if At(w, h, b, x + 1, y - 1) {
      assert Cheb(x, y, x + 1, y - 1) == 1;
    }
    if At(w, h, b, x - 1, y) {
      assert Cheb(x, y, x - 1, y) == 1;
    }
    if At(w, h, b, x - 1, y - 1) {
      assert Cheb(x, y, x - 1, y - 1) == 1;
    }
    if At(w, h, b, x - 1, y + 1) {
      assert Cheb(x, y, x - 1, y + 1) == 1;
    }
  }

  /**
   * `dist2`: the squares exactly two king steps away, as five groups of shifts: two files left
   * (masked by `all().west().west()`), one file left (`all().west()`), the same file (not masked),
   * one file right (`all().east()`) and two files right (`all().east().east()`).
   */
  function Dist2(w: nat, h: nat, b: Word): Word
    requires Dims(w, h) && 2 <= w && 2 * w + 2 < 64
  {
    var all := All(w, h);
    Or(Or(Or(Or(
      And(Or(Or(Or(Or(Shr(b, 2), Shr(b, w + 2)), Shr(b, 2 * w + 2)), Shl(b, w - 2)), Shl(b, 2 * w - 2)), West(w, h, West(w, h, all))),
      And(Or(Shr(b, 2 * w + 1), Shl(b, 2 * w - 1)), West(w, h, all))),
      Or(Shl(b, 2 * w), Shr(b, 2 * w))),
      And(Or(Shl(b, 2 * w + 1), Shr(b, 2 * w - 1)), East(w, h, all))),
      And(Or(Or(Or(Or(Shl(b, 2), Shl(b, 2 * w + 2)), Shl(b, w + 2)), Shr(b, 2 * w - 2)), Shr(b, w - 2)), East(w, h, East(w, h, all))))
  }

  /** On the board, `dist2` holds a square iff a square of the word is exactly two king steps away. */
  lemma Dist2Bits(w: nat, h: nat, b: Word)
    requires Dims(w, h) && 2 <= w && 2 * w + 2 < 64 && Within(w, h, b)
    ensures forall x, y :: 0 <= x < w && 0 <= y < h ==>
      (Has(Dist2(w, h, b), Sq(w, x, y)) <==> Ring(w, h, b, x, y, 2))
  {
    forall x, y | 0 <= x < w && 0 <= y < h
      ensures Has(Dist2(w, h, b), Sq(w, x, y)) <==> Ring(w, h, b, x, y, 2)
    {
      Dist2At(w, h, b, x, y);
      RingTwo(w, h, b, x, y);
    }
  }

  lemma Dist2At(w: nat, h: nat, b: Word, x: nat, y: nat)
    requires Dims(w, h) && 2 <= w && 2 * w + 2 < 64 && Within(w, h, b) && x < w && y < h
    ensures Has(Dist2(w, h, b), Sq(w, x, y)) <==>
      At(w, h, b, x + 2, y) || At(w, h, b, x + 2, y + 1) || At(w, h, b, x + 2, y + 2) || At(w, h, b, x + 2, y - 1) ||
      At(w, h, b, x + 2, y - 2) || At(w, h, b, x + 1, y + 2) || At(w, h, b, x + 1, y - 2) || At(w, h, b, x, y - 2) ||
      At(w, h, b, x, y + 2) || At(w, h, b, x - 1, y - 2) || At(w, h, b, x - 1, y + 2) || At(w, h, b, x - 2, y) ||
      At(w, h, b, x - 2, y - 2) || At(w, h, b, x - 2, y - 1) || At(w, h, b, x - 2, y + 2) || At(w, h, b, x - 2, y + 1)
  {
    var i := Sq(w, x, y);
    var all := All(w, h);
    var left2 := And(Or(Or(Or(Or(Shr(b, 2), Shr(b, w + 2)), Shr(b, 2 * w + 2)), Shl(b, w - 2)), Shl(b, 2 * w - 2)), West(w, h, West(w, h, all)));
    var left1 := And(Or(Shr(b, 2 * w + 1), Shl(b, 2 * w - 1)), West(w, h, all));
    var centre := Or(Shl(b, 2 * w), Shr(b, 2 * w));
    var right1 := And(Or(Shl(b, 2 * w + 1), Shr(b, 2 * w - 1)), East(w, h, all));
    var right2 := And(Or(Or(Or(Or(Shl(b, 2), Shl(b, 2 * w + 2)), Shl(b, w + 2)), Shr(b, 2 * w - 2)), Shr(b, w - 2)), East(w, h, East(w, h, all)));
    HasOr(Or(Or(Or(left2, left1), centre), right1), right2, i);
    HasOr(Or(Or(left2, left1), centre), right1, i);
    HasOr(Or(left2, left1), centre, i);
    HasOr(left2, left1, i);
    AllWest2(w, h, x, y);
    AllWest(w, h, x, y);
    AllEast(w, h, x, y);
    AllEast2(w, h, x, y);
    Dist2Left2(w, h, b, x, y, West(w, h, West(w, h, all)));
    Dist2Left1(w, h, b, x, y, West(w, h, all));
    Dist2Centre(w, h, b, x, y);
    Dist2Right1(w, h, b, x, y, East(w, h, all));
    Dist2Right2(w, h, b, x, y, East(w, h, East(w, h, all)));
  }

  lemma Dist2Left2(w: nat, h: nat, b: Word, x: nat, y: nat, mask: Word)
    requires Dims(w, h) && 2 <= w && 2 * w + 2 < 64 && Within(w, h, b) && x < w && y < h
    requires Has(mask, Sq(w, x, y)) <==> x + 2 < w
    ensures Has(And(Or(Or(Or(Or(Shr(b, 2), Shr(b, w + 2)), Shr(b, 2 * w + 2)), Shl(b, w - 2)), Shl(b, 2 * w - 2)), mask), Sq(w, x, y)) <==>
      At(w, h, b, x + 2, y) ||
      At(w, h, b, x + 2, y + 1) ||
      At(w, h, b, x + 2, y + 2) ||
      At(w, h, b, x + 2, y - 1) ||
      At(w, h, b, x + 2, y - 2)
  {
    var i := Sq(w, x, y);
    HasAnd(Or(Or(Or(Or(Shr(b, 2), Shr(b, w + 2)), Shr(b, 2 * w + 2)), Shl(b, w - 2)), Shl(b, 2 * w - 2)), mask, i);
    if x + 2 < w {
      HasOr(Or(Or(Or(Shr(b, 2), Shr(b, w + 2)), Shr(b, 2 * w + 2)), Shl(b, w - 2)), Shl(b, 2 * w - 2), i);
      HasOr(Or(Or(Shr(b, 2), Shr(b, w + 2)), Shr(b, 2 * w + 2)), Shl(b, w - 2), i);
      HasOr(Or(Shr(b, 2), Shr(b, w + 2)), Shr(b, 2 * w + 2), i);
      HasOr(Shr(b, 2), Shr(b, w + 2), i);
      TermUp(w, h, b, x, y, 2, 0, 2);
      TermUp(w, h, b, x, y, 2, 1, w + 2);
      TermUp(w, h, b, x, y, 2, 2, 2 * w + 2);
      TermDown(w, h, b, x, y, 2, 1, w - 2);
      TermDown(w, h, b, x, y, 2, 2, 2 * w - 2);
    }
  }

  lemma Dist2Left1(w: nat, h: nat, b: Word, x: nat, y: nat, mask: Word)
    requires Dims(w, h) && 2 <= w && 2 * w + 2 < 64 && Within(w, h, b) && x < w && y < h
    requires Has(mask, Sq(w, x, y)) <==> x + 1 < w
    ensures Has(And(Or(Shr(b, 2 * w + 1), Shl(b, 2 * w - 1)), mask), Sq(w, x, y)) <==>
      At(w, h, b, x + 1, y + 2) ||
      At(w, h, b, x + 1, y - 2)
  {
    var i := Sq(w, x, y);
    HasAnd(Or(Shr(b, 2 * w + 1), Shl(b, 2 * w - 1)), mask, i);
    if x + 1 < w {
      HasOr(Shr(b, 2 * w + 1), Shl(b, 2 * w - 1), i);
      TermUp(w, h, b, x, y, 1, 2, 2 * w + 1);
      TermDown(w, h, b, x, y, 1, 2, 2 * w - 1);
    }
  }

  lemma Dist2Centre(w: nat, h: nat, b: Word, x: nat, y: nat)
    requires Dims(w, h) && 2 <= w && 2 * w + 2 < 64 && Within(w, h, b) && x < w && y < h
    ensures Has(Or(Shl(b, 2 * w), Shr(b, 2 * w)), Sq(w, x, y)) <==>
      At(w, h, b, x, y - 2) ||
      At(w, h, b, x, y + 2)
  {
    var i := Sq(w, x, y);
    HasOr(Shl(b, 2 * w), Shr(b, 2 * w), i);
    TermDown(w, h, b, x, y, 0, 2, 2 * w);
    TermUp(w, h, b, x, y, 0, 2, 2 * w);
  }

  lemma Dist2Right1(w: nat, h: nat, b: Word, x: nat, y: nat, mask: Word)
    requires Dims(w, h) && 2 <= w && 2 * w + 2 < 64 && Within(w, h, b) && x < w && y < h
    requires Has(mask, Sq(w, x, y)) <==> 0 < x
    ensures Has(And(Or(Shl(b, 2 * w + 1), Shr(b, 2 * w - 1)), mask), Sq(w, x, y)) <==>
      At(w, h, b, x - 1, y - 2) ||
      At(w, h, b, x - 1, y + 2)
  {
    var i := Sq(w, x, y);
    HasAnd(Or(Shl(b, 2 * w + 1), Shr(b, 2 * w - 1)), mask, i);
    if 0 < x {
      HasOr(Shl(b, 2 * w + 1), Shr(b, 2 * w - 1), i);
      TermDown(w, h, b, x, y, -1, 2, 2 * w + 1);
      TermUp(w, h, b, x, y, -1, 2, 2 * w - 1);
    }
  }

  lemma Dist2Right2(w: nat, h: nat, b: Word, x: nat, y: nat, mask: Word)
    requires Dims(w, h) && 2 <= w && 2 * w + 2 < 64 && Within(w, h, b) && x < w && y < h
    requires Has(mask, Sq(w, x, y)) <==> 1 < x
    ensures Has(And(Or(Or(Or(Or(Shl(b, 2), Shl(b, 2 * w + 2)), Shl(b, w + 2)), Shr(b, 2 * w - 2)), Shr(b, w - 2)), mask), Sq(w, x, y)) <==>
      At(w, h, b, x - 2, y) ||
      At(w, h, b, x - 2, y - 2) ||
      At(w, h, b, x - 2, y - 1) ||
      At(w, h, b, x - 2, y + 2) ||
      At(w, h, b, x - 2, y + 1)
  {
    var i := Sq(w, x, y);
    HasAnd(Or(Or(Or(Or(Shl(b, 2), Shl(b, 2 * w + 2)), Shl(b, w + 2)), Shr(b, 2 * w - 2)), Shr(b, w - 2)), mask, i);
    if 1 < x {
      HasOr(Or(Or(Or(Shl(b, 2), Shl(b, 2 * w + 2)), Shl(b, w + 2)), Shr(b, 2 * w - 2)), Shr(b, w - 2), i);
      HasOr(Or(Or(Shl(b, 2), Shl(b, 2 * w + 2)), Shl(b, w + 2)), Shr(b, 2 * w - 2), i);
      HasOr(Or(Shl(b, 2), Shl(b, 2 * w + 2)), Shl(b, w + 2), i);
      HasOr(Shl(b, 2), Shl(b, 2 * w + 2), i);
      TermDown(w, h, b, x, y, -2, 0, 2);
      TermDown(w, h, b, x, y, -2, 2, 2 * w + 2);
      TermDown(w, h, b, x, y, -2, 1, w + 2);
      TermUp(w, h, b, x, y, -2, 2, 2 * w - 2);
      TermUp(w, h, b, x, y, -2, 1, w - 2);
    }
  }

  /** `all().west().west()` is every square but the last two files. */
  lemma AllWest2(w: nat, h: nat, x: nat, y: nat)
    requires Dims(w, h) && x < w && y < h
    ensures Has(West(w, h, West(w, h, All(w, h))), Sq(w, x, y)) <==> x + 2 < w
  {
    WestAt(w, h, West(w, h, All(w, h)), x, y);
    if x + 1 < w {
      AllWest(w, h, x + 1, y);
    }
  }

  /** `all().east().east()` is every square but the first two files. */
  lemma AllEast2(w: nat, h: nat, x: nat, y: nat)
    requires Dims(w, h) && x < w && y < h
    ensures Has(East(w, h, East(w, h, All(w, h))), Sq(w, x, y)) <==> 1 < x
  {
    EastAt(w, h, East(w, h, All(w, h)), x, y);
    if 0 < x {
      AllEast(w, h, x - 1, y);
    }
  }

  /** The squares two king steps from (x, y) are the sixteen of the ring around its neighbours. */
  lemma RingTwo(w: nat, h: nat, b: Word, x: int, y: int)
    ensures Ring(w, h, b, x, y, 2) <==>
      At(w, h, b, x + 2, y) || At(w, h, b, x + 2, y + 1) || At(w, h, b, x + 2, y + 2) || At(w, h, b, x + 2, y - 1) ||
      At(w, h, b, x + 2, y - 2) || At(w, h, b, x + 1, y + 2) || At(w, h, b, x + 1, y - 2) || At(w, h, b, x, y - 2) ||
      At(w, h, b, x, y + 2) || At(w, h, b, x - 1, y - 2) || At(w, h, b, x - 1, y + 2) || At(w, h, b, x - 2, y) ||
      At(w, h, b, x - 2, y - 2) || At(w, h, b, x - 2, y - 1) || At(w, h, b, x - 2, y + 2) || At(w, h, b, x - 2, y + 1)
  {
    RingTwoOnly(w, h, b, x, y);
    RingTwoSome(w, h, b, x, y);
  }

  lemma RingTwoOnly(w: nat, h: nat, b: Word, x: int, y: int)
    ensures Ring(w, h, b, x, y, 2) ==>
      At(w, h, b, x + 2, y) || At(w, h, b, x + 2, y + 1) || At(w, h, b, x + 2, y + 2) || At(w, h, b, x + 2, y - 1) ||
      At(w, h, b, x + 2, y - 2) || At(w, h, b, x + 1, y + 2) || At(w, h, b, x + 1, y - 2) || At(w, h, b, x, y - 2) ||
      At(w, h, b, x, y + 2) || At(w, h, b, x - 1, y - 2) || At(w, h, b, x - 1, y + 2) || At(w, h, b, x - 2, y) ||
      At(w, h, b, x - 2, y - 2) || At(w, h, b, x - 2, y - 1) || At(w, h, b, x - 2, y + 2) || At(w, h, b, x - 2, y + 1)
  {
    if Ring(w, h, b, x, y, 2) {
      var x', y' :| At(w, h, b, x', y') && Cheb(x, y, x', y') == 2;
      var dx, dy := x' - x, y' - y;
      if dx == -2 {
        if dy == -2 {
          assert At(w, h, b, x - 2, y - 2);
        } else if dy == -1 {
          assert At(w, h, b, x - 2, y - 1);
        } else if dy == 0 {
          assert At(w, h, b, x - 2, y);
        } else if dy == 1 {
          assert At(w, h, b, x - 2, y + 1);
        } else if dy == 2 {
          assert At(w, h, b, x - 2, y + 2);
        }
      } else if dx == -1 {
        if dy == -2 {
          assert At(w, h, b, x - 1, y - 2);
        } else if dy == 2 {
          assert At(w, h, b, x - 1, y + 2);
        }
      } else if dx == 0 {
        if dy == -2 {
          assert At(w, h, b, x, y - 2);
        } else if dy == 2 {
          assert At(w, h, b, x, y + 2);
        }
      } else if dx == 1 {
        if dy == -2 {
          assert At(w, h, b, x + 1, y - 2);
        } else if dy == 2 {
          assert At(w, h, b, x + 1, y + 2);
        }
      } else if dx == 2 {
        if dy == -2 {
          assert At(w, h, b, x + 2, y - 2);
        } else if dy == -1 {
          assert At(w, h, b, x + 2, y - 1);
        } else if dy == 0 {
          assert At(w, h, b, x + 2, y);
        } else if dy == 1 {
          assert At(w, h, b, x + 2, y + 1);
        } else if dy == 2 {
          assert At(w, h, b, x + 2, y + 2);
        }
      }
    }
  }

  lemma RingTwoSome(w: nat, h: nat, b: Word, x: int, y: int)
    ensures (At(w, h, b, x + 2, y) || At(w, h, b, x + 2, y + 1) || At(w, h, b, x + 2, y + 2) || At(w, h, b, x + 2, y - 1) ||
      At(w, h, b, x + 2, y - 2) || At(w, h, b, x + 1, y + 2) || At(w, h, b, x + 1, y - 2) || At(w, h, b, x, y - 2) ||
      At(w, h, b, x, y + 2) || At(w, h, b, x - 1, y - 2) || At(w, h, b, x - 1, y + 2) || At(w, h, b, x - 2, y) ||
      At(w, h, b, x - 2, y - 2) || At(w, h, b, x - 2, y - 1) || At(w, h, b, x - 2, y + 2) || At(w, h, b, x - 2, y + 1)) ==> Ring(w, h, b, x, y, 2)
  {
    if At(w, h, b, x + 2, y) {
      assert Cheb(x, y, x + 2, y) == 2;
    }
    if At(w, h, b, x + 2, y + 1) {
      assert Cheb(x, y, x + 2, y + 1) == 2;
    }
    if At(w, h, b, x + 2, y + 2) {
      assert Cheb(x, y, x + 2, y + 2) == 2;
    }
    if At(w, h, b, x + 2, y - 1) {
      assert Cheb(x, y, x + 2, y - 1) == 2;
    }
    if At(w, h, b, x + 2, y - 2) {
      assert Cheb(x, y, x + 2, y - 2) == 2;
    }
    if At(w, h, b, x + 1, y + 2) {
      assert Cheb(x, y, x + 1, y + 2) == 2;
    }
    if At(w, h, b, x + 1, y - 2) {
      assert Cheb(x, y, x + 1, y - 2) == 2;
    }
    if At(w, h, b, x, y - 2) {
      assert Cheb(x, y, x, y - 2) == 2;
    }
    if At(w, h, b, x, y + 2) {
      assert Cheb(x, y, x, y + 2) == 2;
    }
    if At(w, h, b, x - 1, y - 2) {
      assert Cheb(x, y, x - 1, y - 2) == 2;
    }
    if At(w, h, b, x - 1, y + 2) {
      assert Cheb(x, y, x - 1, y + 2) == 2;
    }
    if At(w, h, b, x - 2, y) {
      assert Cheb(x, y, x - 2, y) == 2;
    }
    if At(w, h, b, x - 2, y - 2) {
      assert Cheb(x, y, x - 2, y - 2) == 2;
    }
    if At(w, h, b, x - 2, y - 1) {
      assert Cheb(x, y, x - 2, y - 1) == 2;
    }
    if At(w, h, b, x - 2, y + 2) {
      assert Cheb(x, y, x - 2, y + 2) == 2;
    }
    if At(w, h, b, x - 2, y + 1) {
      assert Cheb(x, y, x - 2, y + 1) == 2;
    }
  }

  /** The word of one square holds that square and nothing else on the board. */
  lemma AtSquare(w: nat, h: nat, mx: nat, my: nat, x: int, y: int)
    requires Dims(w, h) && mx < w && my < h
    ensures Sq(w, mx, my) < w * h
    ensures At(w, h, FromIndex(Sq(w, mx, my)), x, y) <==> x == mx && y == my
  {
    SqBound(w, h, mx, my);
    if 0 <= x < w && 0 <= y < h && Sq(w, x, y) == Sq(w, mx, my) {
      SqUnique(w, x, y, mx, my);
    }
  }

  /** Around one square, the ring of radius `r` is the squares at king distance `r` from it. */
  lemma RingSquare(w: nat, h: nat, mx: nat, my: nat, x: int, y: int, r: nat)
    requires Dims(w, h) && mx < w && my < h
    ensures Sq(w, mx, my) < w * h
    ensures Within(w, h, FromIndex(Sq(w, mx, my)))
    ensures Ring(w, h, FromIndex(Sq(w, mx, my)), x, y, r) <==> Cheb(x, y, mx, my) == r
  {
    SqBound(w, h, mx, my);
    var b := FromIndex(Sq(w, mx, my));
    if Ring(w, h, b, x, y, r) {
      var x', y' :| At(w, h, b, x', y') && Cheb(x, y, x', y') == r;
      AtSquare(w, h, mx, my, x', y');
    }
    if Cheb(x, y, mx, my) == r {
      AtSquare(w, h, mx, my, mx, my);
    }
  }

  /** `from_square(m).adjacent()` holds exactly the squares one king step from `m`. */
  lemma AdjacentSquare(w: nat, h: nat, mx: nat, my: nat, x: nat, y: nat)
    requires Dims(w, h) && w + 1 < 64 && mx < w && my < h && x < w && y < h
    ensures Sq(w, mx, my) < w * h && Sq(w, x, y) < w * h
    ensures Has(Adjacent(w, h, FromIndex(Sq(w, mx, my))), Sq(w, x, y)) <==> Cheb(x, y, mx, my) == 1
  {
    SqBound(w, h, x, y);
    RingSquare(w, h, mx, my, x, y, 1);
    AdjacentBits(w, h, FromIndex(Sq(w, mx, my)));
  }

  /** `from_square(m).dist2()` holds exactly the squares two king steps from `m`. */
  lemma Dist2Square(w: nat, h: nat, mx: nat, my: nat, x: nat, y: nat)
    requires Dims(w, h) && 2 <= w && 2 * w + 2 < 64 && mx < w && my < h && x < w && y < h
    ensures Sq(w, mx, my) < w * h && Sq(w, x, y) < w * h
    ensures Has(Dist2(w, h, FromIndex(Sq(w, mx, my))), Sq(w, x, y)) <==> Cheb(x, y, mx, my) == 2
  {
    SqBound(w, h, x, y);
    RingSquare(w, h, mx, my, x, y, 2);
    Dist2Bits(w, h, FromIndex(Sq(w, mx, my)));
  }

  /** `from_coords`: the word of square (x, y); a bit past 63 is a shift overflow in Rust. */
  function FromCoords(w: nat, x: nat, y: nat): Word
    requires Sq(w, x, y) < 64
  {
    FromIndex(Sq(w, x, y))
  }

  /** `from_file`: `get_left_edge() << f`. */
  function FromFile(w: nat, h: nat, f: nat): Word
    requires Dims(w, h) && f < w
  {
    Shl(LeftEdge(w, h), f)
  }

  /** `from_rank`: `get_bottom_edge() << r * WIDTH`. */
  function FromRank(w: nat, h: nat, r: nat): Word
    requires Dims(w, h) && r < h
  {
    SqBound(w, h, 0, r);
    Shl(BottomEdge(w, h), r * w)
  }

  /** `from_file(f)` is file f: the squares (f, y) and no others. */
  lemma FromFileBits(w: nat, h: nat, f: nat)
    requires Dims(w, h) && f < w
    ensures Within(w, h, FromFile(w, h, f))
    ensures forall x, y :: 0 <= x < w && 0 <= y < h ==> (Has(FromFile(w, h, f), Sq(w, x, y)) <==> x == f)
  {
    forall i | w * h <= i < 64
      ensures !FromFile(w, h, f)[i]
    {
      FromFileOff(w, h, f, i);
    }
    forall x, y | 0 <= x < w && 0 <= y < h
      ensures Has(FromFile(w, h, f), Sq(w, x, y)) <==> x == f
    {
      FromFileAt(w, h, f, x, y);
    }
  }

  lemma FromFileAt(w: nat, h: nat, f: nat, x: nat, y: nat)
    requires Dims(w, h) && f < w && x < w && y < h
    ensures Has(FromFile(w, h, f), Sq(w, x, y)) <==> x == f
  {
    var i := Sq(w, x, y);
    SqBound(w, h, x, y);
    HasShl(LeftEdge(w, h), f, i);
    if x >= f {
      LeftEdgeAt(w, h, x - f, y);
    } else if y >= 1 {
      assert i - f == Sq(w, x + w - f, y - 1);
      LeftEdgeAt(w, h, x + w - f, y - 1);
    }
  }

  /** Shifting the left edge by less than a rank puts nothing past the board. */
  lemma FromFileOff(w: nat, h: nat, f: nat, i: nat)
    requires Dims(w, h) && f < w && w * h <= i < 64
    ensures !FromFile(w, h, f)[i]
  {
    if i >= f && i - f < w * h {
      var j := i - f;
      SqOf(w, h, j);
      if j % w == 0 {
        SqBound(w, h, f, j / w);
      }
    }
  }

  lemma LeftEdgeAt(w: nat, h: nat, x: nat, y: nat)
    requires Dims(w, h) && x < w && y < h
    ensures Has(LeftEdge(w, h), Sq(w, x, y)) <==> x == 0
  {
    SqBound(w, h, x, y);
    SqMod(w, x, y);
  }

  lemma RightEdgeAt(w: nat, h: nat, x: nat, y: nat)
    requires Dims(w, h) && x < w && y < h
    ensures Has(RightEdge(w, h), Sq(w, x, y)) <==> x == w - 1
  {
    SqBound(w, h, x, y);
    SqMod(w, x, y);
  }

  /** `from_rank(r)` is rank r: the squares (x, r) and no others. */
  lemma FromRankBits(w: nat, h: nat, r: nat)
    requires Dims(w, h) && r < h
    ensures Within(w, h, FromRank(w, h, r))
    ensures forall x, y :: 0 <= x < w && 0 <= y < h ==> (Has(FromRank(w, h, r), Sq(w, x, y)) <==> y == r)
  {
    forall i | w * h <= i < 64
      ensures !FromRank(w, h, r)[i]
    {
      assert (h - r) * w >= w by {
        Squares.MulAtLeast(h - r, w);
      }
    }
    forall x, y | 0 <= x < w && 0 <= y < h
      ensures Has(FromRank(w, h, r), Sq(w, x, y)) <==> y == r
    {
      FromRankAt(w, h, r, x, y);
    }
  }

  lemma FromRankAt(w: nat, h: nat, r: nat, x: nat, y: nat)
    requires Dims(w, h) && r < h && x < w && y < h
    ensures Has(FromRank(w, h, r), Sq(w, x, y)) <==> y == r
  {
    SqBound(w, h, x, y);
    SqBound(w, h, 0, r);
    HasShl(BottomEdge(w, h), r * w, Sq(w, x, y));
    if y < r {
      assert (r - y) * w >= w by {
        Squares.MulAtLeast(r - y, w);
      }
    } else if y > r {
      assert (y - r) * w >= w by {
        Squares.MulAtLeast(y - r, w);
      }
    }
  }

  /** `get_border`: the union of the four edges. */
  function Border(w: nat, h: nat): Word
    requires Dims(w, h)
  {
    Or(Or(Or(LeftEdge(w, h), RightEdge(w, h)), BottomEdge(w, h)), TopEdge(w, h))
  }

  /** The border is the squares on the first or last file or rank. */
  lemma BorderBits(w: nat, h: nat)
    requires Dims(w, h)
    ensures Within(w, h, Border(w, h))
    ensures forall x, y :: 0 <= x < w && 0 <= y < h ==>
      (Has(Border(w, h), Sq(w, x, y)) <==> x == 0 || x == w - 1 || y == 0 || y == h - 1)
  {
    forall x, y | 0 <= x < w && 0 <= y < h
      ensures Has(Border(w, h), Sq(w, x, y)) <==> x == 0 || x == w - 1 || y == 0 || y == h - 1
    {
      BorderAt(w, h, x, y);
    }
  }

  lemma BorderAt(w: nat, h: nat, x: nat, y: nat)
    requires Dims(w, h) && x < w && y < h
    ensures Has(Border(w, h), Sq(w, x, y)) <==> x == 0 || x == w - 1 || y == 0 || y == h - 1
  {
    var i := Sq(w, x, y);
    HasOr(Or(Or(LeftEdge(w, h), RightEdge(w, h)), BottomEdge(w, h)), TopEdge(w, h), i);
    HasOr(Or(LeftEdge(w, h), RightEdge(w, h)), BottomEdge(w, h), i);
    HasOr(LeftEdge(w, h), RightEdge(w, h), i);
    LeftEdgeAt(w, h, x, y);
    RightEdgeAt(w, h, x, y);
    SqBound(w, h, x, y);
    SqNeighbours(w, x, y);
    assert w * h - w == (h - 1) * w;
    if y + 1 < h {
      SqBound(w, h - 1, x, y);
    } else {
      assert i == (h - 1) * w + x;
    }
  }

  /** `is_index_set` / `is_square_set`: `(b >> i) & 1 == 1`; Rust rejects a shift by 64 or more. */
  function IsIndexSet(b: Word, i: nat): (r: bool)
    requires i < 64
    ensures r <==> i in Indices(b)
  {
    IndicesMembers(b);
    b[i]
  }

  /** The set-bit iterator over a board word yields squares of the board. */
  lemma IndicesWithin(w: nat, h: nat, a: Word)
    requires Within(w, h, a)
    ensures forall i :: 0 <= i < |Indices(a)| ==> Indices(a)[i] < w * h
  {
    IndicesMembers(a);
    forall i | 0 <= i < |Indices(a)|
      ensures Indices(a)[i] < w * h
    {
      assert Indices(a)[i] in Indices(a);
    }
  }

  /** `is_empty`: no bit set. */
  function IsEmpty(b: Word): (r: bool)
  {
    b == Zero
  }

  /** `is_empty` holds exactly when the popcount is 0. */
  lemma EmptyCount(b: Word)
    ensures IsEmpty(b) <==> Count(b) == 0
  {
    CountZeroIff(b);
  }

  /** `is_full`: every square of the board set. */
  function IsFull(w: nat, h: nat, b: Word): (r: bool)
    requires Dims(w, h)
    ensures Within(w, h, b) ==> (r <==> forall x, y :: 0 <= x < w && 0 <= y < h ==> Has(b, Sq(w, x, y)))
  {
    FullBits(w, h, b);
    b == All(w, h)
  }

  lemma FullBits(w: nat, h: nat, b: Word)
    requires Dims(w, h)
    ensures Within(w, h, b) ==> (b == All(w, h) <==> forall x, y :: 0 <= x < w && 0 <= y < h ==> Has(b, Sq(w, x, y)))
  {
    if Within(w, h, b) && forall x, y :: 0 <= x < w && 0 <= y < h ==> Has(b, Sq(w, x, y)) {
      EverySquareIsAll(w, h, b);
    }
    if b == All(w, h) {
      AllHasEverySquare(w, h);
    }
  }

  lemma EverySquareIsAll(w: nat, h: nat, b: Word)
    requires Dims(w, h) && Within(w, h, b)
    requires forall x, y :: 0 <= x < w && 0 <= y < h ==> Has(b, Sq(w, x, y))
    ensures b == All(w, h)
  {
    AllBits(w, h);
    forall i | 0 <= i < 64
      ensures b[i] == All(w, h)[i]
    {
      if i < w * h {
        SqOf(w, h, i);
        var x, y := i % w, i / w;
        assert Has(b, Sq(w, x, y));
      }
    }
  }

  lemma AllHasEverySquare(w: nat, h: nat)
    requires Dims(w, h)
    ensures forall x, y :: 0 <= x < w && 0 <= y < h ==> Has(All(w, h), Sq(w, x, y))
  {
    AllBits(w, h);
    forall x, y | 0 <= x < w && 0 <= y < h
      ensures Has(All(w, h), Sq(w, x, y))
    {
      SqBound(w, h, x, y);
    }
  }

  /** `is_occupied`: some bit set. */
  function IsOccupied(b: Word): (r: bool)
  {
    b != Zero
  }

  /** `is_occupied` holds exactly when some bit is set. */
  lemma OccupiedBits(b: Word)
    ensures IsOccupied(b) <==> exists i :: 0 <= i < 64 && b[i]
  {
    TzZero(b);
    TzBits(b);
  }

  /** `lsb`: the index of the lowest set square; 64 for the empty word. */
  function Lsb(b: Word): (i: nat)
    ensures i <= 64
    ensures i < 64 <==> b != Zero
    ensures i < 64 ==> b[i] && forall j :: 0 <= j < i ==> !b[j]
  {
    TzZero(b);
    TzBits(b);
    Tz(b)
  }

  /** `msb`: `63 - leading_zeros`, the index of the highest set square; -1 for the empty word. */
  function Msb(b: Word): (i: int)
    ensures -1 <= i < 64
    ensures 0 <= i <==> b != Zero
    ensures 0 <= i ==> b[i] && forall j :: i < j < 64 ==> !b[j]
  {
    LzBits(b);
    LzZero(b);
    63 - Lz(b)
  }

  /** `popped`: the word without its lowest square; Rust overflows on the empty word. */
  function Popped(b: Word): (r: Word)
    requires b != Zero
    ensures Count(r) + 1 == Count(b)
    ensures forall i :: 0 <= i < 64 ==> (r[i] <==> b[i] && i != Lsb(b))
  {
    ClearLowestIsUpdate(b);
    assert Xor(b, FromIndex(Lsb(b))) == ClearLowest(b);
    Xor(b, FromIndex(Lsb(b)))
  }

  /** `swap` on an 8x8 board: `swap_bytes`, which mirrors the ranks. */
  function Swap(b: Word): (r: Word)
    ensures forall x, y :: 0 <= x < 8 && 0 <= y < 8 ==> r[Sq(8, x, y)] == b[Sq(8, x, 7 - y)]
  {
    SwapRanks(b);
    SwapBytes(b)
  }

  lemma SwapRanks(b: Word)
    ensures forall x, y :: 0 <= x < 8 && 0 <= y < 8 ==> SwapBytes(b)[Sq(8, x, y)] == b[Sq(8, x, 7 - y)]
  {
    forall x, y | 0 <= x < 8 && 0 <= y < 8
      ensures SwapBytes(b)[Sq(8, x, y)] == b[Sq(8, x, 7 - y)]
    {
      var j := Sq(8, x, y);
      assert j / 8 == y && j % 8 == x;
    }
  }

  /** `swap` undoes itself. */
  lemma SwapInvolution(b: Word)
    ensures Swap(Swap(b)) == b
  {
    SwapBytesInvolution(b);
  }

  /* ---------------------------------------------------------------- floodfill */

  /** Every bit of `a` is a bit of `c`. */
  predicate Subset(a: Word, c: Word)
  {
    forall i :: 0 <= i < 64 ==> a[i] ==> c[i]
  }

  /** One round of `floodfill`: `(us | north | south | east | west) & allowed`. */
  function Spread(w: nat, h: nat, us: Word, allowed: Word): Word
    requires Dims(w, h) && w < 64
  {
    And(Or(Or(Or(Or(us, North(w, h, us)), South(w, h, us)), East(w, h, us)), West(w, h, us)), allowed)
  }

  /** `n` rounds of `Spread` starting from `us`. */
  function Flood(w: nat, h: nat, us: Word, allowed: Word, n: nat): Word
    requires Dims(w, h) && w < 64
  {
    if n == 0 then us else Spread(w, h, Flood(w, h, us, allowed, n - 1), allowed)
  }

  /** The rounds `floodfill` runs. */
  const FloodRounds: nat := 15

  /** `floodfill(us, allowed)`: fifteen rounds of spreading into `allowed`. */
  method FloodFill(w: nat, h: nat, us: Word, allowed: Word) returns (r: Word)
    requires Dims(w, h) && w < 64
    ensures r == Flood(w, h, us, allowed, FloodRounds)
  {
    r := us;
    var i := 0;
    while i < FloodRounds
      invariant i <= FloodRounds
      invariant r == Flood(w, h, us, allowed, i)
    {
      FloodStep(w, h, us, allowed, i);
      r := Spread(w, h, r, allowed);
      i := i + 1;
    }
  }

  /** One more round spreads the flood once more. */
  lemma FloodStep(w: nat, h: nat, us: Word, allowed: Word, n: nat)
    requires Dims(w, h) && w < 64
    ensures Flood(w, h, us, allowed, n + 1) == Spread(w, h, Flood(w, h, us, allowed, n), allowed)
  {
  }

  /** A round keeps what is already allowed and adds only allowed squares. */
  lemma SpreadBounds(w: nat, h: nat, us: Word, allowed: Word)
    requires Dims(w, h) && w < 64
    ensures Subset(And(us, allowed), Spread(w, h, us, allowed))
    ensures Subset(Spread(w, h, us, allowed), allowed)
  {
    GrownBounds(us, North(w, h, us), South(w, h, us), East(w, h, us), West(w, h, us), allowed);
  }

  lemma GrownBounds(us: Word, n: Word, s: Word, e: Word, wst: Word, allowed: Word)
    ensures Subset(And(us, allowed), And(Or(Or(Or(Or(us, n), s), e), wst), allowed))
    ensures Subset(And(Or(Or(Or(Or(us, n), s), e), wst), allowed), allowed)
  {
  }

  /** From the first round on, the flood holds `us & allowed` and lies inside `allowed`. */
  lemma {:induction false} FloodBounds(w: nat, h: nat, us: Word, allowed: Word, n: nat)
    requires Dims(w, h) && w < 64 && 1 <= n
    ensures Subset(And(us, allowed), Flood(w, h, us, allowed, n))
    ensures Subset(Flood(w, h, us, allowed, n), allowed)
  {
    var prev := Flood(w, h, us, allowed, n - 1);
    SpreadBounds(w, h, prev, allowed);
    if n > 1 {
      FloodBounds(w, h, us, allowed, n - 1);
      assert Subset(And(us, allowed), And(prev, allowed));
    }
  }

  /** From the first round on, each round only adds squares. */
  lemma FloodGrows(w: nat, h: nat, us: Word, allowed: Word, n: nat)
    requires Dims(w, h) && w < 64 && 1 <= n
    ensures Subset(Flood(w, h, us, allowed, n), Flood(w, h, us, allowed, n + 1))
  {
    FloodBounds(w, h, us, allowed, n);
    SpreadBounds(w, h, Flood(w, h, us, allowed, n), allowed);
    assert And(Flood(w, h, us, allowed, n), allowed) == Flood(w, h, us, allowed, n);
  }

  /**
   * A round reaches every allowed square orthogonally next to one already flooded:
   * on a board word `allowed`, the flood spreads one step in each of the four directions.
   */
  lemma FloodSpreads(w: nat, h: nat, us: Word, allowed: Word, n: nat, x: nat, y: nat, x': nat, y': nat)
    requires Dims(w, h) && w < 64 && Within(w, h, allowed) && 1 <= n
    requires At(w, h, Flood(w, h, us, allowed, n), x, y) && At(w, h, allowed, x', y')
    requires Abs(x - x') + Abs(y - y') == 1
    ensures At(w, h, Flood(w, h, us, allowed, n + 1), x', y')
  {
    var f := Flood(w, h, us, allowed, n);
    var i := Sq(w, x', y');
    FloodBounds(w, h, us, allowed, n);
    assert Within(w, h, f);
    var grown := Or(Or(Or(Or(f, North(w, h, f)), South(w, h, f)), East(w, h, f)), West(w, h, f));
    HasAnd(grown, allowed, i);
    HasOr(Or(Or(Or(f, North(w, h, f)), South(w, h, f)), East(w, h, f)), West(w, h, f), i);
    HasOr(Or(Or(f, North(w, h, f)), South(w, h, f)), East(w, h, f), i);
    HasOr(Or(f, North(w, h, f)), South(w, h, f), i);
    HasOr(f, North(w, h, f), i);
    if y' == y + 1 {
      NorthAt(w, h, f, x', y');
    } else if y == y' + 1 {
      SouthAt(w, h, f, x', y');
    } else if x' == x + 1 {
      EastAt(w, h, f, x', y');
    } else {
      WestAt(w, h, f, x', y');
    }
  }

  /* ---------------------------------------------------------------- rays */

  /** One extension of a ray: `mask | (mask & !blockers).north()`. */
  function Extend(w: nat, h: nat, mask: Word, blockers: Word): Word
    requires Dims(w, h) && w < 64
  {
    Or(mask, North(w, h, And(mask, Not(w, h, blockers))))
  }

  /** `mask = self.north()` followed by `k` extensions. */
  function NorthRay(w: nat, h: nat, b: Word, blockers: Word, k: nat): Word
    requires Dims(w, h) && w < 64
  {
    if k == 0 then North(w, h, b) else Extend(w, h, NorthRay(w, h, b, blockers, k - 1), blockers)
  }

  /** `ray_north`: the first step and six extensions past unblocked squares. */
  method RayNorth(w: nat, h: nat, b: Word, blockers: Word) returns (mask: Word)
    requires Dims(w, h) && w < 64
    ensures mask == NorthRay(w, h, b, blockers, 6)
  {
    mask := North(w, h, b);
    mask := Or(mask, North(w, h, And(mask, Not(w, h, blockers))));
    assert mask == NorthRay(w, h, b, blockers, 1);
    mask := Or(mask, North(w, h, And(mask, Not(w, h, blockers))));
    assert mask == NorthRay(w, h, b, blockers, 2);
    mask := Or(mask, North(w, h, And(mask, Not(w, h, blockers))));
    assert mask == NorthRay(w, h, b, blockers, 3);
    mask := Or(mask, North(w, h, And(mask, Not(w, h, blockers))));
    assert mask == NorthRay(w, h, b, blockers, 4);
    mask := Or(mask, North(w, h, And(mask, Not(w, h, blockers))));
    assert mask == NorthRay(w, h, b, blockers, 5);
    mask := Or(mask, North(w, h, And(mask, Not(w, h, blockers))));
  }

  /** No blocker on file `x` strictly between ranks `lo` and `hi`. */
  predicate Clear(w: nat, blockers: Word, x: nat, lo: nat, hi: nat)
  {
    forall j :: lo < j < hi ==> !Has(blockers, Sq(w, x, j))
  }

  lemma NotAt(w: nat, h: nat, b: Word, x: nat, y: nat)
    requires Dims(w, h) && x < w && y < h
    ensures Has(Not(w, h, b), Sq(w, x, y)) <==> !Has(b, Sq(w, x, y))
  {
    SqBound(w, h, x, y);
    OnBoardAt(w, h, x, y);
    HasAnd(Complement(b), All(w, h), Sq(w, x, y));
  }

  /** An extension adds the square above each unblocked square of the mask. */
  lemma ExtendAt(w: nat, h: nat, mask: Word, blockers: Word, x: nat, y: nat)
    requires Dims(w, h) && w < 64 && x < w && y < h
    ensures Has(Extend(w, h, mask, blockers), Sq(w, x, y)) <==>
      Has(mask, Sq(w, x, y)) || (0 < y && Has(mask, Sq(w, x, y - 1)) && !Has(blockers, Sq(w, x, y - 1)))
  {
    var free := And(mask, Not(w, h, blockers));
    HasOr(mask, North(w, h, free), Sq(w, x, y));
    NorthAt(w, h, free, x, y);
    if 0 < y {
      HasAnd(mask, Not(w, h, blockers), Sq(w, x, y - 1));
      NotAt(w, h, blockers, x, y - 1);
    }
  }

  /** The first step from the single square (x, y) is the square above it. */
  lemma RayStart(w: nat, h: nat, x: nat, y: nat, x': nat, y': nat)
    requires Dims(w, h) && w < 64 && x < w && y < h && x' < w && y' < h && Sq(w, x, y) < w * h
    ensures Has(North(w, h, FromCoords(w, x, y)), Sq(w, x', y')) <==> x' == x && y' == y + 1
  {
    NorthAt(w, h, FromCoords(w, x, y), x', y');
    if y' > 0 {
      SqBound(w, h, x', y' - 1);
      if Sq(w, x', y' - 1) == Sq(w, x, y) {
        SqUnique(w, x', y' - 1, x, y);
      }
    }
  }

  /**
   * The ray from the single square (x, y) holds the squares above it on its file, at most
   * k + 1 ranks up, up to and including the first blocker, and nothing else.
   */
  lemma {:induction false} RayNorthAt(w: nat, h: nat, x: nat, y: nat, blockers: Word, k: nat, x': nat, y': nat)
    requires Dims(w, h) && w < 64 && x < w && y < h && x' < w && y' < h && Sq(w, x, y) < w * h
    ensures Has(NorthRay(w, h, FromCoords(w, x, y), blockers, k), Sq(w, x', y')) <==>
      x' == x && y < y' <= y + k + 1 && Clear(w, blockers, x, y, y')
    decreases k, 1
  {
    if k == 0 {
      RayStart(w, h, x, y, x', y');
    } else {
      var m := NorthRay(w, h, FromCoords(w, x, y), blockers, k - 1);
      var here := Has(m, Sq(w, x', y'));
      var clear := Clear(w, blockers, x, y, y');
      RayNorthAt(w, h, x, y, blockers, k - 1, x', y');
      assert here <==> x' == x && y < y' <= y + k && clear;
      var below := 0 < y' && Has(m, Sq(w, x', y' - 1)) && !Has(blockers, Sq(w, x', y' - 1));
      RayBelowAt(w, h, x, y, blockers, k, x', y');
      assert below <==> x' == x && y + 1 < y' <= y + k + 1 && clear;
      ExtendAt(w, h, m, blockers, x', y');
      assert y' == y + 1 ==> clear by {
        ClearNext(w, blockers, x, y);
      }
      RayStep(here, below, x' == x, y, y', k, clear);
    }
  }

  /** `ray_north` from a single square: up its file to the first blocker, at most seven ranks. */
  lemma RayNorthSquares(w: nat, h: nat, x: nat, y: nat, blockers: Word)
    requires Dims(w, h) && w < 64 && x < w && y < h && Sq(w, x, y) < w * h
    ensures forall x', y' :: 0 <= x' < w && 0 <= y' < h ==>
      (Has(NorthRay(w, h, FromCoords(w, x, y), blockers, 6), Sq(w, x', y')) <==>
        x' == x && y < y' <= y + 7 && Clear(w, blockers, x, y, y'))
  {
    forall x', y' | 0 <= x' < w && 0 <= y' < h
      ensures Has(NorthRay(w, h, FromCoords(w, x, y), blockers, 6), Sq(w, x', y')) <==>
        x' == x && y < y' <= y + 7 && Clear(w, blockers, x, y, y')
    {
      RayNorthAt(w, h, x, y, blockers, 6, x', y');
    }
  }

  /** The square below (x', y') is in the ray of length k and unblocked exactly when the ray of length k + 1 reaches past it. */
  lemma {:induction false} RayBelowAt(w: nat, h: nat, x: nat, y: nat, blockers: Word, k: nat, x': nat, y': nat)
    requires Dims(w, h) && w < 64 && x < w && y < h && x' < w && y' < h && Sq(w, x, y) < w * h && 1 <= k
    ensures var m := NorthRay(w, h, FromCoords(w, x, y), blockers, k - 1);
      0 < y' && Has(m, Sq(w, x', y' - 1)) && !Has(blockers, Sq(w, x', y' - 1)) <==>
      x' == x && y + 1 < y' <= y + k + 1 && Clear(w, blockers, x, y, y')
    decreases k, 0
  {
    if y' > 0 {
      var m := NorthRay(w, h, FromCoords(w, x, y), blockers, k - 1);
      RayNorthAt(w, h, x, y, blockers, k - 1, x', y' - 1);
      if x' == x && y + 1 < y' {
        ClearStep(w, blockers, x, y, y');
      }
      RayBelow(Has(m, Sq(w, x', y' - 1)), Has(blockers, Sq(w, x', y' - 1)), x' == x, y, y', k,
        Clear(w, blockers, x, y, y' - 1), Clear(w, blockers, x, y, y'));
    }
  }

  /** The propositional core of one ray extension. */
  /** Nothing lies strictly between a rank and the next. */
  lemma ClearNext(w: nat, blockers: Word, x: nat, y: nat)
    ensures Clear(w, blockers, x, y, y + 1)
  {
  }

  lemma RayStep(here: bool, below: bool, onFile: bool, y: nat, y': nat, k: nat, clear: bool)
    requires 1 <= k
    requires here <==> onFile && y < y' <= y + k && clear
    requires y' == y + 1 ==> clear
    requires below <==> onFile && y + 1 < y' <= y + k + 1 && clear
    ensures here || below <==> onFile && y < y' <= y + k + 1 && clear
  {
  }

  /** The square below is in the ray and unblocked exactly when the ray may go one further. */
  lemma RayBelow(had: bool, blocked: bool, onFile: bool, y: nat, y': nat, k: nat, clearBefore: bool, clear: bool)
    requires 1 <= y'
    requires had <==> onFile && y < y' - 1 <= y + k && clearBefore
    requires onFile && y + 1 < y' ==> (clear <==> clearBefore && !blocked)
    ensures had && !blocked <==> onFile && y + 1 < y' <= y + k + 1 && clear
  {
  }

  lemma ClearStep(w: nat, blockers: Word, x: nat, lo: nat, hi: nat)
    requires lo + 1 < hi
    ensures Clear(w, blockers, x, lo, hi) <==> Clear(w, blockers, x, lo, hi - 1) && !Has(blockers, Sq(w, x, hi - 1))
  {
  }
}
