/**
 * `Square<WIDTH, HEIGHT>(u8)`: a cell of a rectangular board, numbered rank by rank from
 * the bottom-left corner (index = rank * WIDTH + file), written as a file letter and a
 * rank character.
 */
module Squares {
  import opened Wrappers

  datatype Square = Square(index: nat)

  /**
   * Board sizes whose squares, and every intermediate `u8` value the parser computes, fit
   * in a byte.
   */
  predicate ValidDims(w: nat, h: nat) { 1 <= w <= 16 && 1 <= h && w * h <= 255 }

  predicate OnBoard(w: nat, h: nat, sq: Square) { sq.index < w * h }

  /** `get_file`: the column, `index % WIDTH`. */
  function FileOf(w: nat, sq: Square): (f: nat)
    requires 1 <= w
    ensures f < w
  {
    sq.index % w
  }

  /** `get_rank`: the row, `index / WIDTH`. */
  function RankOf(w: nat, sq: Square): nat
    requires 1 <= w
  {
    sq.index / w
  }

  /** Every square is its rank's row offset plus its file. */
  lemma FileRankDecompose(w: nat, sq: Square)
    requires 1 <= w
    ensures sq.index == RankOf(w, sq) * w + FileOf(w, sq)
  {
  }

  /** `from_coords`: `(y * WIDTH + x) as u8`, which wraps modulo 256. */
  function FromCoords(w: nat, x: int, y: int): (sq: Square)
    ensures sq.index < 256
  {
    Square((y * w + x) % 256)
  }

  /** On the board, coordinates and squares correspond one to one. */
  lemma FromCoordsOnBoard(w: nat, h: nat, x: int, y: int)
    requires ValidDims(w, h) && 0 <= x < w && 0 <= y < h
    ensures OnBoard(w, h, FromCoords(w, x, y))
    ensures FileOf(w, FromCoords(w, x, y)) == x && RankOf(w, FromCoords(w, x, y)) == y
  {
    RowBound(w, h, x, y);
    assert (y * w + x) % 256 == y * w + x;
    DivModUnique(y * w + x, w, y, x);
  }

  lemma RowBound(w: nat, h: nat, x: nat, y: nat)
    requires 0 <= x < w && 0 <= y < h
    ensures y * w + x < w * h
  {
    assert y * w + x < y * w + w == (y + 1) * w <= h * w;
  }

  lemma DivModUnique(n: int, d: int, q: int, r: int)
    requires 0 < d && 0 <= r < d && n == q * d + r
    ensures n / d == q && n % d == r
  {
    var q' := n / d;
    var r' := n % d;
    assert n == q' * d + r';
    if q > q' {
      MulAtLeast(q - q', d);
    } else if q < q' {
      MulAtLeast(q' - q, d);
    }
  }

  lemma MulAtLeast(a: int, d: int)
    requires 1 <= a && 0 < d
    ensures a * d >= d
  {
  }

  /** The index `WIDTH * rank + file` the parser builds, bounded by the rank it accepted. */
  lemma ParsedIndexBound(w: nat, rank: nat, file: nat, rows: nat)
    requires file < w && rank < rows
    ensures w * rank + file < w * rows
  {
    RowBound(w, rows, file, rank);
  }

  /** The two characters' offsets from 'a' and '1'. */
  function FileOffset(c: char): int { c as int - 'a' as int }
  function RankOffset(c: char): int { c as int - '1' as int }

  /**
   * `Square::from_string` as written: the rank character is bounded by `'1' + WIDTH`
   * instead of `'1' + HEIGHT`, and the computed index is then checked against the board.
   */
  function FromStringAsWritten(w: nat, h: nat, word: string): (r: Result<Square>)
    requires ValidDims(w, h)
    ensures r.Ok? <==> |word| == 2 && 0 <= FileOffset(word[0]) < w && 0 <= RankOffset(word[1]) < w
                        && w * RankOffset(word[1]) + FileOffset(word[0]) < w * h
    ensures r.Ok? ==> OnBoard(w, h, r.value)
  {
    if |word| != 2 then Err("Uh oh")
    else
      var c1 := word[0];
      var c2 := word[1];
      if c1 < 'a' || c1 as int >= 'a' as int + w then Err("Uh oh")
      else if c2 < '1' || c2 as int >= '1' as int + w then Err("Uh oh")
      else
        var file := c1 as int - 'a' as int;
        var rank := c2 as int - '1' as int;
        ParsedIndexBound(w, rank, file, w);
        var idx := w * rank + file;
        if idx >= w * h then Err("Uh oh") else Ok(Square(idx))
  }

  /**
   * `Square::from_string` with the rank character bounded by `'1' + HEIGHT`: a word
   * parses exactly when it is a file letter of the board followed by a rank character of
   * the board.
   */
  function FromString(w: nat, h: nat, word: string): (r: Result<Square>)
    requires ValidDims(w, h)
    ensures r.Ok? <==> |word| == 2 && 0 <= FileOffset(word[0]) < w && 0 <= RankOffset(word[1]) < h
    ensures r.Ok? ==> OnBoard(w, h, r.value)
                      && FileOf(w, r.value) == FileOffset(word[0])
                      && RankOf(w, r.value) == RankOffset(word[1])
  {
    if |word| != 2 then Err("Uh oh")
    else
      var c1 := word[0];
      var c2 := word[1];
      if c1 < 'a' || c1 as int >= 'a' as int + w then Err("Uh oh")
      else if c2 < '1' || c2 as int >= '1' as int + h then Err("Uh oh")
      else
        var file := c1 as int - 'a' as int;
        var rank := c2 as int - '1' as int;
        ParsedIndexBound(w, rank, file, h);
        DivModUnique(w * rank + file, w, rank, file);
        var idx := w * rank + file;
        if idx >= w * h then Err("Uh oh") else Ok(Square(idx))
  }

  /** Display: the file letter `b'a' + file` and the rank character `b'1' + rank`. */
  function ToString(w: nat, h: nat, sq: Square): (s: string)
    requires ValidDims(w, h) && OnBoard(w, h, sq)
    ensures |s| == 2 && FileOffset(s[0]) == FileOf(w, sq) && RankOffset(s[1]) == RankOf(w, sq)
  {
    RankBound(w, h, sq);
    [('a' as int + FileOf(w, sq)) as char, ('1' as int + RankOf(w, sq)) as char]
  }

  lemma RankBound(w: nat, h: nat, sq: Square)
    requires ValidDims(w, h) && OnBoard(w, h, sq)
    ensures RankOf(w, sq) < h
  {
    FileRankDecompose(w, sq);
  }

  /** Every square of the board prints as a word that parses back to it. */
  lemma FromStringToString(w: nat, h: nat, sq: Square)
    requires ValidDims(w, h) && OnBoard(w, h, sq)
    ensures FromString(w, h, ToString(w, h, sq)) == Ok(sq)
  {
    RankBound(w, h, sq);
    FileRankDecompose(w, sq);
    var r := FromString(w, h, ToString(w, h, sq));
    assert r.value.index == w * RankOf(w, sq) + FileOf(w, sq);
  }

  /** On a board at least as wide as it is tall the written check is harmless. */
  lemma FromStringAsWrittenToString(w: nat, h: nat, sq: Square)
    requires ValidDims(w, h) && OnBoard(w, h, sq) && h <= w
    ensures FromStringAsWritten(w, h, ToString(w, h, sq)) == Ok(sq)
  {
    RankBound(w, h, sq);
    FileRankDecompose(w, sq);
  }

  /**
   * On a board taller than it is wide the written check refuses a square of the board:
   * on a 3x6 board, square 9 (file a, rank 4) prints as "a4", which does not parse.
   */
  lemma FromStringAsWrittenRejectsTallRank()
    ensures OnBoard(3, 6, Square(9)) && ToString(3, 6, Square(9)) == "a4"
    ensures FromStringAsWritten(3, 6, "a4").Err?
    ensures FromString(3, 6, "a4") == Ok(Square(9))
  {
    FromStringToString(3, 6, Square(9));
  }
}
