/**
 * `Hex<WIDTH, HEIGHT>`: a cell of a hex board whose even ranks hold WIDTH cells and whose
 * odd ranks hold WIDTH + 1. Cells are numbered rank by rank, so every pair of ranks (a
 * "chunk") takes 2 * WIDTH + 1 consecutive indices.
 */
module Hexes {
  import opened Wrappers
  import Files
  import Ranks
  import Squares

  datatype Hex = Hex(file: Files.File, rank: Ranks.Rank)

  predicate ValidDims(w: nat, h: nat) { Files.ValidWidth(w) && w <= 127 && Ranks.ValidHeight(h) }

  /** A cell of the board: an odd rank has one more file than an even one. */
  predicate OnBoard(w: nat, h: nat, hx: Hex) {
    hx.rank.index < h && hx.file.index < w + hx.rank.index % 2
  }

  /** `size`: the number of cells, WIDTH * HEIGHT + HEIGHT / 2. */
  function Size(w: nat, h: nat): nat { w * h + h / 2 }

  function ChunkSize(w: nat): nat { 2 * w + 1 }

  /** `get_index`: whole chunks below, then WIDTH more on an odd rank, then the file. */
  function GetIndex(w: nat, hx: Hex): nat
  {
    (hx.rank.index / 2) * ChunkSize(w) + (if hx.rank.index % 2 == 1 then w else 0) + hx.file.index
  }

  /** `from_index`: the inverse of `get_index`, splitting the index into chunk and offset. */
  function FromIndex(w: nat, idx: nat): (hx: Hex)
    requires 1 <= w
  {
    var p := ChunkSize(w);
    var chunk: nat := idx / p;
    var chunkIdx: nat := idx % p;
    var isWide := chunkIdx >= w;
    Hex(Files.File(if isWide then chunkIdx - w else chunkIdx),
        Ranks.Rank(2 * chunk + (if isWide then 1 else 0)))
  }

  /** Every cell's index leads back to the cell. */
  lemma FromIndexGetIndex(w: nat, hx: Hex)
    requires 1 <= w && hx.file.index < w + hx.rank.index % 2
    ensures FromIndex(w, GetIndex(w, hx)) == hx
  {
    var c := hx.rank.index / 2;
    var off := (if hx.rank.index % 2 == 1 then w else 0) + hx.file.index;
    Squares.DivModUnique(GetIndex(w, hx), ChunkSize(w), c, off);
  }

  /** Every index names a cell whose index it is. */
  lemma GetIndexFromIndex(w: nat, idx: nat)
    requires 1 <= w
    ensures GetIndex(w, FromIndex(w, idx)) == idx
  {
    var hx := FromIndex(w, idx);
    assert hx.rank.index / 2 == idx / ChunkSize(w);
    assert hx.rank.index % 2 == 1 <==> idx % ChunkSize(w) >= w;
  }

  /** The cells of the board take exactly the indices below `size`. */
  lemma IndexOnBoard(w: nat, h: nat, hx: Hex)
    requires 1 <= w && hx.file.index < w + hx.rank.index % 2
    ensures hx.rank.index < h <==> GetIndex(w, hx) < Size(w, h)
  {
    var c, hc := hx.rank.index / 2, h / 2;
    var p := ChunkSize(w);
    SizeInChunks(w, h);
    if c < hc {
      MulLt(c, hc, p);
    } else if hc < c {
      MulLt(hc, c, p);
    }
    ChunkOrder(w, hx.file.index, hx.rank.index % 2, h % 2, c, hc, c * p, hc * p);
  }

  /**
   * Comparing a cell's index with `size`, chunk by chunk: the products `chunk * ChunkSize`
   * are passed in as `cp` and `hp` with the order facts about them.
   */
  lemma ChunkOrder(w: nat, x: nat, b: nat, hb: nat, c: nat, hc: nat, cp: int, hp: int)
    requires 1 <= w && b <= 1 && hb <= 1 && x < w + b
    requires c < hc ==> cp + ChunkSize(w) <= hp
    requires hc < c ==> hp + ChunkSize(w) <= cp
    requires c == hc ==> cp == hp
    ensures 2 * c + b < 2 * hc + hb <==> cp + (if b == 1 then w else 0) + x < hp + (if hb == 1 then w else 0)
  {
  }

  /** `size` counts HEIGHT / 2 whole chunks and, for an odd HEIGHT, one more even rank. */
  lemma SizeInChunks(w: nat, h: nat)
    ensures Size(w, h) == (h / 2) * ChunkSize(w) + (if h % 2 == 1 then w else 0)
  {
    var hc, hb := h / 2, h % 2;
    assert h == 2 * hc + hb;
    assert w * h == w * (2 * hc) + w * hb;
  }

  lemma MulLt(a: nat, b: nat, k: nat)
    requires a < b
    ensures a * k + k <= b * k
  {
    assert b * k == a * k + k + (b - a - 1) * k;
  }

  /**
   * `Hex::from_string`: at least two characters, a file letter of a WIDTH-wide board, then
   * a rank number of the board.
   */
  function FromString(w: nat, h: nat, word: string): (r: Result<Hex>)
    requires ValidDims(w, h)
    ensures |word| < 2 ==> r.Err?
    ensures r.Ok? <==> |word| >= 2 && Files.FromString(w, word[..1]).Ok? && Ranks.FromString(h, word[1..]).Ok?
    ensures r.Ok? ==> r.value.file.index < w && r.value.rank.index < h
  {
    if |word| < 2 then Err("movestr too short")
    else
      match (Files.FromString(w, word[..1]), Ranks.FromString(h, word[1..]))
      case (Ok(f), Ok(rk)) => Ok(Hex(f, rk))
      case _ => Err("Uh oh")
  }

  /** Display: the file letter followed by the rank number. */
  function ToString(hx: Hex): (s: string)
    requires 'a' as int + hx.file.index < 256 && hx.rank.index < 255
    ensures |s| >= 2
  {
    Files.ToString(hx.file) + Ranks.ToString(hx.rank)
  }

  /** Every cell whose file is a letter of the board prints as a word that parses back to it. */
  lemma FromStringToString(w: nat, h: nat, hx: Hex)
    requires ValidDims(w, h) && hx.file.index < w && hx.rank.index < h
    ensures FromString(w, h, ToString(hx)) == Ok(hx)
  {
    var s := ToString(hx);
    assert s[..1] == Files.ToString(hx.file);
    assert s[1..] == Ranks.ToString(hx.rank);
    Files.FromStringToString(w, hx.file);
    Ranks.FromStringToString(h, hx.rank);
  }

  /**
   * The last cell of an odd rank has file WIDTH, which Display prints as a letter that
   * `File<WIDTH>` rejects: on a 4x5 board, cell (4, 1) prints as "e2" and does not parse.
   */
  lemma FromStringRejectsWideCell()
    ensures OnBoard(4, 5, Hex(Files.File(4), Ranks.Rank(1)))
    ensures ToString(Hex(Files.File(4), Ranks.Rank(1))) == "e2"
    ensures FromString(4, 5, "e2").Err?
  {
    assert Ranks.ToString(Ranks.Rank(1)) == "2";
  }

  /**
   * `from_string` as the layout calls for: the file letter may name any cell of the rank it is
   * on, so an odd rank takes one letter more than `File<WIDTH>` allows.
   */
  function FromStringWide(w: nat, h: nat, word: string): (r: Result<Hex>)
    requires ValidDims(w, h)
    ensures |word| < 2 ==> r.Err?
    ensures r.Ok? <==> |word| >= 2 && Files.FromString(w + 1, word[..1]).Ok? && Ranks.FromString(h, word[1..]).Ok?
                       && Files.FromString(w + 1, word[..1]).value.index < w + Ranks.FromString(h, word[1..]).value.index % 2
    ensures r.Ok? ==> OnBoard(w, h, r.value)
  {
    if |word| < 2 then Err("movestr too short")
    else
      match (Files.FromString(w + 1, word[..1]), Ranks.FromString(h, word[1..]))
      case (Ok(f), Ok(rk)) => if f.index < w + rk.index % 2 then Ok(Hex(f, rk)) else Err("Uh oh")
      case _ => Err("Uh oh")
  }

  /** Every cell of the board, the last cell of an odd rank included, prints as a word that parses back to it. */
  lemma FromStringWideToString(w: nat, h: nat, hx: Hex)
    requires ValidDims(w, h) && OnBoard(w, h, hx)
    ensures FromStringWide(w, h, ToString(hx)) == Ok(hx)
  {
    var s := ToString(hx);
    assert s[..1] == Files.ToString(hx.file);
    assert s[1..] == Ranks.ToString(hx.rank);
    Files.FromStringToString(w + 1, hx.file);
    Ranks.FromStringToString(h, hx.rank);
  }

  /** Wherever the parser as written succeeds, the corrected one gives the same cell. */
  lemma FromStringWideExtends(w: nat, h: nat, word: string)
    requires ValidDims(w, h) && FromString(w, h, word).Ok?
    ensures FromStringWide(w, h, word) == FromString(w, h, word)
  {
  }

  /** `to_string_inverted`: the rank as a letter from 'a', then the file as a character from '1'. */
  function ToStringInverted(hx: Hex): (s: string)
    requires 'a' as int + hx.rank.index < 256 && '1' as int + hx.file.index < 256
    ensures |s| == 2
    ensures s[0] as int - 'a' as int == hx.rank.index && s[1] as int - '1' as int == hx.file.index
  {
    [('a' as int + hx.rank.index) as char, ('1' as int + hx.file.index) as char]
  }
}
