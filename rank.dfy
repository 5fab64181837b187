/** `Rank<HEIGHT>`: a row of a board of `HEIGHT` rows, written as its 1-based number. */
module Ranks {
  import opened Wrappers
  import Decimal

  datatype Rank = Rank(index: nat)

  /** The board heights a `u8` rank can count. */
  predicate ValidHeight(h: nat) { 1 <= h <= 255 }

  /** `Rank::from_string`: a `u8` number in 1..=HEIGHT names the rank below it. */
  function FromString(h: nat, word: string): (r: Result<Rank>)
    requires ValidHeight(h)
    ensures Decimal.ParseU8(word).None? ==> r.Err?
    ensures r.Ok? <==> Decimal.ParseU8(word).Some? && 1 <= Decimal.ParseU8(word).value <= h
    ensures r.Ok? ==> r.value.index + 1 == Decimal.ParseU8(word).value && r.value.index < h
  {
    match Decimal.ParseU8(word)
    case Some(n) => if n < 1 || n > h then Err("char out of range") else Ok(Rank(n - 1))
    case None => Err("Uh oh")
  }

  /** `flipped`: the same rank counted from the other side of the board. */
  function Flipped(h: nat, r: Rank): (f: Rank)
    requires ValidHeight(h) && r.index < h
    ensures f.index < h && f.index + r.index == h - 1
  {
    Rank(h - r.index - 1)
  }

  lemma FlippedInvolution(h: nat, r: Rank)
    requires ValidHeight(h) && r.index < h
    ensures Flipped(h, Flipped(h, r)) == r
  {
  }

  /** Display: the 1-based rank number in decimal. */
  function ToString(r: Rank): (s: string)
    requires r.index < 255
    ensures |s| > 0
  {
    Decimal.NatToString(r.index + 1)
  }

  /** Every rank of the board prints as a number that parses back to it. */
  lemma FromStringToString(h: nat, r: Rank)
    requires ValidHeight(h) && r.index < h
    ensures FromString(h, ToString(r)) == Ok(r)
  {
    Decimal.ParseUnsignedDisplay(r.index + 1, Decimal.U8_MAX);
  }
}
