/**
 * A `u64` as its 64 bits: element `i` of a `Word` is bit `i`, element 0 the least
 * significant. The word operations the bitboards use (`&`, `|`, `^`, `!`, `<<`, `>>`,
 * wrapping `- 1`, `count_ones`, `trailing_zeros`, `leading_zeros`, `swap_bytes`) are defined
 * bit by bit, and `Value` gives the number a word stands for.
 */
module Bits {

  /** 64 copies of the bit `v`. */
  function Fill(v: bool): (s: seq<bool>)
    ensures |s| == 64 && forall j :: 0 <= j < 64 ==> s[j] == v
  {
    seq(64, j => v)
  }

  type Word = b: seq<bool> | |b| == 64 witness Fill(false)

  const Zero: Word := Fill(false)
  const Ones: Word := Fill(true)

  /** The unsigned number written by the bits `s`, least significant first. */
  function Value(s: seq<bool>): nat
  {
    if |s| == 0 then 0 else (if s[0] then 1 else 0) + 2 * Value(s[1..])
  }

  function Pow2(n: nat): nat
  {
    if n == 0 then 1 else 2 * Pow2(n - 1)
  }

  /** `1u64 << i`. */
  function FromIndex(i: nat): Word
    requires i < 64
  {
    seq(64, j => j == i)
  }

  /** Bit `i` of `a` is set: `(a >> i) & 1 == 1`, false for indices past the word. */
  predicate Has(a: Word, i: nat)
  {
    i < 64 && a[i]
  }

  function And(a: Word, c: Word): Word
  {
    seq(64, j requires 0 <= j < 64 => a[j] && c[j])
  }

  function Or(a: Word, c: Word): Word
  {
    seq(64, j requires 0 <= j < 64 => a[j] || c[j])
  }

  function Xor(a: Word, c: Word): Word
  {
    seq(64, j requires 0 <= j < 64 => a[j] != c[j])
  }

  /** The `u64` operator `!`: every bit flipped. */
  function Complement(a: Word): Word
  {
    seq(64, j requires 0 <= j < 64 => !a[j])
  }

  /** `a << k`: bits move up by `k`; those pushed past bit 63 are lost. Rust rejects `k >= 64`. */
  function Shl(a: Word, k: nat): Word
    requires k < 64
  {
    seq(64, j requires 0 <= j < 64 => j >= k && a[j - k])
  }

  /** `a >> k`: bits move down by `k`; zeros come in at the top. */
  function Shr(a: Word, k: nat): Word
    requires k < 64
  {
    seq(64, j requires 0 <= j < 64 => j + k < 64 && a[j + k])
  }

  lemma HasAnd(a: Word, c: Word, i: nat)
    ensures Has(And(a, c), i) == (Has(a, i) && Has(c, i))
  {
  }

  lemma HasOr(a: Word, c: Word, i: nat)
    ensures Has(Or(a, c), i) == (Has(a, i) || Has(c, i))
  {
  }

  /** Bit `i` of `a >> k` is bit `i + k` of `a`. */
  lemma HasShr(a: Word, k: nat, i: nat)
    requires k < 64
    ensures Has(Shr(a, k), i) == Has(a, i + k)
  {
  }

  /** Bit `i` of `a << k` is bit `i - k` of `a`, and clear below `k`. */
  lemma HasShl(a: Word, k: nat, i: nat)
    requires k < 64 && i < 64
    ensures Has(Shl(a, k), i) == (i >= k && Has(a, i - k))
  {
  }

  /** `trailing_zeros`: the index of the lowest set bit, or the length when none is set. */
  function Tz(s: seq<bool>): (t: nat)
    ensures t <= |s|
  {
    if |s| == 0 || s[0] then 0 else 1 + Tz(s[1..])
  }

  /** `leading_zeros`: how many bits above the highest set one, or the length when none is set. */
  function Lz(s: seq<bool>): (t: nat)
    ensures t <= |s|
  {
    if |s| == 0 || s[|s| - 1] then 0 else 1 + Lz(s[..|s| - 1])
  }

  /** `count_ones`. */
  function Count(s: seq<bool>): (n: nat)
    ensures n <= |s|
  {
    if |s| == 0 then 0 else (if s[0] then 1 else 0) + Count(s[1..])
  }

  /** Wrapping `s - 1`: the borrow runs up through the low zeros and stops at the lowest one. */
  function Dec(s: seq<bool>): (d: seq<bool>)
    ensures |d| == |s|
  {
    if |s| == 0 then []
    else if s[0] then [false] + s[1..]
    else [true] + Dec(s[1..])
  }

  /** `swap_bytes`: byte `k` of the result is byte `7 - k` of `a`. */
  function SwapBytes(a: Word): Word
  {
    seq(64, j requires 0 <= j < 64 => a[(7 - j / 8) * 8 + j % 8])
  }

  /** `trailing_zeros` finds the lowest set bit. */
  lemma {:induction false} TzBits(s: seq<bool>)
    ensures forall j :: 0 <= j < Tz(s) ==> !s[j]
    ensures Tz(s) < |s| ==> s[Tz(s)]
  {
    if |s| > 0 && !s[0] {
      TzBits(s[1..]);
      forall j | 0 < j < Tz(s)
        ensures !s[j]
      {
        assert s[j] == s[1..][j - 1];
      }
    }
  }

  /** `leading_zeros` finds the highest set bit. */
  lemma {:induction false} LzBits(s: seq<bool>)
    ensures forall j :: |s| - Lz(s) <= j < |s| ==> !s[j]
    ensures Lz(s) < |s| ==> s[|s| - 1 - Lz(s)]
  {
    if |s| > 0 && !s[|s| - 1] {
      var p := s[..|s| - 1];
      LzBits(p);
      assert forall j :: 0 <= j < |p| ==> s[j] == p[j];
    }
  }

  /** Subtracting one clears the lowest set bit and sets every bit below it. */
  lemma {:induction false} DecBits(s: seq<bool>)
    ensures forall j :: 0 <= j < |s| ==> Dec(s)[j] == (j < Tz(s) || (j > Tz(s) && s[j]))
  {
    if |s| > 0 && !s[0] {
      DecBits(s[1..]);
      forall j | 0 < j < |s|
        ensures Dec(s)[j] == (j < Tz(s) || (j > Tz(s) && s[j]))
      {
        assert Dec(s)[j] == Dec(s[1..])[j - 1];
      }
    }
  }

  /** `Dec` is subtraction of one, wrapping from zero to all ones. */
  lemma {:induction false} DecValue(s: seq<bool>)
    ensures Tz(s) < |s| ==> Value(Dec(s)) + 1 == Value(s)
    ensures Tz(s) == |s| ==> Value(Dec(s)) + 1 == Pow2(|s|)
  {
    if |s| > 0 {
      if s[0] {
        assert Dec(s)[1..] == s[1..];
      } else {
        DecValue(s[1..]);
        assert Dec(s)[1..] == Dec(s[1..]);
      }
    }
  }

  /** Clearing one set bit lowers the count by one. */
  lemma {:induction false} CountClear(s: seq<bool>, i: nat)
    requires i < |s| && s[i]
    ensures Count(s[i := false]) + 1 == Count(s)
  {
    if i > 0 {
      CountClear(s[1..], i - 1);
      assert s[i := false][1..] == s[1..][i - 1 := false];
    } else {
      assert s[i := false][1..] == s[1..];
    }
  }

  /** A word whose set bits are exactly the `n` lowest has count `n`. */
  lemma {:induction false} CountLow(s: seq<bool>, n: nat)
    requires n <= |s| && forall j :: 0 <= j < |s| ==> (s[j] <==> j < n)
    ensures Count(s) == n
  {
    if |s| > 0 {
      CountLow(s[1..], if n == 0 then 0 else n - 1);
    }
  }

  lemma {:induction false} CountZero(s: seq<bool>)
    requires forall j :: 0 <= j < |s| ==> !s[j]
    ensures Count(s) == 0 && Tz(s) == |s|
  {
    if |s| > 0 {
      CountZero(s[1..]);
    }
  }

  /** A word whose `trailing_zeros` is 64 is zero. */
  lemma TzZero(a: Word)
    ensures Tz(a) == 64 <==> a == Zero
  {
    TzBits(a);
    if Tz(a) == 64 {
      assert a == Zero;
    }
    if a == Zero {
      CountZero(a);
    }
  }

  /** A word has no set bit iff it counts none. */
  lemma CountZeroIff(a: Word)
    ensures Count(a) == 0 <==> a == Zero
  {
    if a == Zero {
      CountZero(a);
    } else {
      TzZero(a);
      TzBits(a);
      CountClear(a, Tz(a));
    }
  }

  /** A word whose `leading_zeros` is 64 is zero. */
  lemma LzZero(a: Word)
    ensures Lz(a) == 64 <==> a == Zero
  {
    LzBits(a);
    if a == Zero {
      LzAllClear(a);
    }
  }

  lemma {:induction false} LzAllClear(s: seq<bool>)
    requires forall j :: 0 <= j < |s| ==> !s[j]
    ensures Lz(s) == |s|
  {
    if |s| > 0 {
      LzAllClear(s[..|s| - 1]);
    }
  }

  /** `b & (b - 1)`: the word without its lowest set bit. */
  function ClearLowest(a: Word): Word
  {
    And(a, Dec(a))
  }

  lemma ClearLowestIsUpdate(a: Word)
    requires a != Zero
    ensures Tz(a) < 64 && a[Tz(a)]
    ensures ClearLowest(a) == a[Tz(a) := false]
    ensures Count(ClearLowest(a)) + 1 == Count(a)
  {
    TzZero(a);
    TzBits(a);
    DecBits(a);
    assert ClearLowest(a) == a[Tz(a) := false];
    CountClear(a, Tz(a));
  }

  /** `lsb_bb`: `b ^ (b & (b - 1))`, the word holding only the lowest set bit. */
  function LsbBb(a: Word): Word
  {
    Xor(a, ClearLowest(a))
  }

  lemma LsbBbIsLowestBit(a: Word)
    ensures a == Zero ==> LsbBb(a) == Zero
    ensures a != Zero ==> Tz(a) < 64 && LsbBb(a) == FromIndex(Tz(a))
  {
    if a == Zero {
      assert LsbBb(a) == Zero;
    } else {
      ClearLowestIsUpdate(a);
      assert LsbBb(a) == FromIndex(Tz(a));
    }
  }

  /**
   * The set-bit iterator: yield `trailing_zeros`, then clear the lowest set bit, until the
   * word is zero.
   */
  function Indices(a: Word): seq<nat>
    decreases Count(a)
  {
    if a == Zero then []
    else
      ClearLowestIsUpdate(a);
      [Tz(a)] + Indices(ClearLowest(a))
  }

  predicate Increasing(s: seq<nat>)
  {
    forall i, j :: 0 <= i < j < |s| ==> s[i] < s[j]
  }

  /** The iterator yields exactly the set bits. */
  lemma {:induction false} IndicesMembers(a: Word)
    ensures forall i :: i in Indices(a) <==> 0 <= i < 64 && a[i]
    decreases Count(a)
  {
    if a == Zero {
    } else {
      var t, c := Tz(a), ClearLowest(a);
      ClearLowestIsUpdate(a);
      IndicesMembers(c);
      assert Indices(a) == [t] + Indices(c);
      forall i
        ensures i in Indices(a) <==> 0 <= i < 64 && a[i]
      {
        assert i in Indices(a) <==> i == t || i in Indices(c);
        if 0 <= i < 64 {
          assert a[i] <==> i == t || c[i];
        }
      }
    }
  }

  /** The iterator yields the set bits lowest first, as many of them as `count_ones` says. */
  lemma {:induction false} IndicesOrdered(a: Word)
    ensures Increasing(Indices(a)) && |Indices(a)| == Count(a)
    decreases Count(a)
  {
    if a == Zero {
      CountZero(a);
    } else {
      var t, c := Tz(a), ClearLowest(a);
      ClearLowestIsUpdate(a);
      TzBits(a);
      IndicesMembers(c);
      IndicesOrdered(c);
      forall x | x in Indices(c)
        ensures x > t
      {
        assert c[x];
      }
      IncreasingCons(t, Indices(c));
    }
  }

  /** A bit index of the word. */
  type Bit = i: nat | i < 64

  /** Every index the iterator yields is a bit index. */
  lemma IndicesBelow(a: Word)
    ensures forall i :: 0 <= i < |Indices(a)| ==> Indices(a)[i] < 64
  {
    IndicesMembers(a);
    forall i | 0 <= i < |Indices(a)|
      ensures Indices(a)[i] < 64
    {
      assert Indices(a)[i] in Indices(a);
    }
  }

  /** A single square's word counts one. */
  lemma CountFromIndex(i: nat)
    requires i < 64
    ensures Count(FromIndex(i)) == 1
  {
    CountClear(FromIndex(i), i);
    assert FromIndex(i)[i := false] == Zero;
    CountZero(Zero);
  }

  /** A word that counts one is a single square's word, the square the iterator yields. */
  lemma CountOne(a: Word)
    requires Count(a) == 1
    ensures |Indices(a)| == 1 && Indices(a)[0] < 64 && a == FromIndex(Indices(a)[0])
  {
    IndicesOrdered(a);
    IndicesMembers(a);
    var s := Indices(a)[0];
    assert s in Indices(a);
    forall j | 0 <= j < 64
      ensures a[j] == FromIndex(s)[j]
    {
      if a[j] {
        assert j in Indices(a);
      }
    }
  }

  /** The iterator yields as many squares as `count_ones` says. */
  lemma IndicesLength(a: Word)
    ensures |Indices(a)| == Count(a)
  {
    IndicesOrdered(a);
  }

  /** Two increasing sequences with the same members are the same sequence. */
  lemma {:induction false} IncreasingUnique(s: seq<nat>, t: seq<nat>)
    requires Increasing(s) && Increasing(t)
    requires forall x :: x in s <==> x in t
    ensures s == t
    decreases |s|
  {
    if s != [] {
      assert s[0] in s;
      assert t[0] in t;
      var k :| 0 <= k < |t| && t[k] == s[0];
      var l :| 0 <= l < |s| && s[l] == t[0];
      assert t[0] <= t[k] && s[0] <= s[l];
      forall x
        ensures x in s[1..] <==> x in t[1..]
      {
        TailIn(s, t, x);
        TailIn(t, s, x);
      }
      IncreasingUnique(s[1..], t[1..]);
      assert s == [s[0]] + s[1..];
      assert t == [t[0]] + t[1..];
    } else if t != [] {
      HeadIn(t);
    }
  }

  /** Past equal heads, a member of the tail of one increasing sequence is in the tail of the other. */
  lemma TailIn(s: seq<nat>, t: seq<nat>, x: nat)
    requires Increasing(s) && Increasing(t) && s != [] && t != [] && s[0] == t[0]
    requires forall y :: y in s <==> y in t
    ensures x in s[1..] ==> x in t[1..]
  {
    if x in s[1..] {
      var i :| 0 <= i < |s[1..]| && s[1..][i] == x;
      assert s[i + 1] == x && x > s[0];
      assert x in t;
      var j :| 0 <= j < |t| && t[j] == x;
      assert j != 0;
      assert t[1..][j - 1] == x;
    }
  }

  lemma HeadIn(t: seq<nat>)
    requires t != []
    ensures t[0] in t
  {
  }

  lemma IncreasingCons(t: nat, s: seq<nat>)
    requires Increasing(s) && forall x :: x in s ==> x > t
    ensures Increasing([t] + s)
  {
    forall i, j | 0 <= i < j < |s| + 1
      ensures ([t] + s)[i] < ([t] + s)[j]
    {
      if i == 0 {
        assert s[j - 1] in s;
      }
    }
  }

  /** Swapping the bytes twice gives the word back. */
  lemma SwapBytesInvolution(a: Word)
    ensures SwapBytes(SwapBytes(a)) == a
  {
    forall j | 0 <= j < 64
      ensures SwapBytes(SwapBytes(a))[j] == a[j]
    {
      var k := (7 - j / 8) * 8 + j % 8;
      assert k / 8 == 7 - j / 8 && k % 8 == j % 8;
    }
  }

  /** `^` with the same word twice gives the word back. */
  lemma XorTwice(a: Word, c: Word)
    ensures Xor(Xor(a, c), c) == a
  {
    assert forall j :: 0 <= j < 64 ==> Xor(Xor(a, c), c)[j] == a[j];
  }
}
