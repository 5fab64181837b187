/**
 * The stand-alone perft routines: `perft_impl` (children by `after_move`, a copy with the move
 * made), the `perft` driver that reports every depth up to the requested one, and `split`,
 * which reports the count below each root move.
 */
module PerftDriver {
  import opened Wrappers
  import opened GameRules

  /** `perft_impl`: the same count as the in-place `perft`, reached through copies. */
  method PerftImpl<P(!new), M(!new)>(g: Game<P, M>, pos: P, depth: nat) returns (nodes: nat)
    ensures nodes == PerftCount(g, pos, depth)
    decreases depth
  {
    if depth == 0 {
      return 1;
    }
    if depth == 1 {
      return g.countMoves(pos);
    }
    var ms := g.moves(pos);
    nodes := 0;
    for i := 0 to |ms|
      invariant nodes == SumPerft(g, pos, ms[..i], depth - 1)
    {
      assert ms[..i + 1][..i] == ms[..i];
      var npos := g.make(pos, ms[i]);
      var n := PerftImpl(g, npos, depth - 1);
      nodes := nodes + n;
    }
    assert ms[..|ms|] == ms;
  }

  /** One line of the `perft` driver's output: a depth and its count (the elapsed time is left out). */
  datatype PerftInfo = PerftInfo(depth: nat, nodes: nat)

  /**
   * `perft`: reports the counts of depths 1..depth in increasing order, then hands the last
   * count (0 when no depth was searched) to the final handler.
   */
  method Perft<P(!new), M(!new)>(g: Game<P, M>, pos: P, depth: int) returns (infos: seq<PerftInfo>, last: nat)
    ensures |infos| == if depth > 0 then depth else 0
    ensures forall i :: 0 <= i < |infos| ==> infos[i] == PerftInfo(i + 1, PerftCount(g, pos, i + 1))
    ensures last == if depth > 0 then PerftCount(g, pos, depth) else 0
  {
    infos := [];
    last := 0;
    var i := 1;
    while i <= depth
      invariant if depth > 0 then 1 <= i <= depth + 1 else i == 1
      invariant |infos| == i - 1
      invariant forall k :: 0 <= k < |infos| ==> infos[k] == PerftInfo(k + 1, PerftCount(g, pos, k + 1))
      invariant last == if i > 1 then PerftCount(g, pos, i - 1) else 0
    {
      var nodes := PerftImpl(g, pos, i);
      last := nodes;
      infos := infos + [PerftInfo(i, nodes)];
      i := i + 1;
    }
  }

  /** One line of `split`'s output: a root move and the count below it. */
  datatype SplitInfo<M> = SplitInfo(mv: M, nodes: nat)

  /**
   * `split`: every root move once, in generator order, with the count `depth - 1` plies below
   * it; the total is their sum.
   */
  method Split<P(!new), M(!new)>(g: Game<P, M>, pos: P, depth: nat) returns (infos: seq<SplitInfo<M>>, total: nat)
    requires depth >= 1
    ensures |infos| == |g.moves(pos)|
    ensures forall i :: 0 <= i < |infos| ==>
      infos[i] == SplitInfo(g.moves(pos)[i], PerftCount(g, g.make(pos, g.moves(pos)[i]), depth - 1))
    ensures total == SumPerft(g, pos, g.moves(pos), depth - 1)
  {
    var ms := g.moves(pos);
    infos := [];
    total := 0;
    for i := 0 to |ms|
      invariant |infos| == i
      invariant forall k :: 0 <= k < i ==> infos[k] == SplitInfo(ms[k], PerftCount(g, g.make(pos, ms[k]), depth - 1))
      invariant total == SumPerft(g, pos, ms[..i], depth - 1)
    {
      assert ms[..i + 1][..i] == ms[..i];
      var nodes := PerftImpl(g, g.make(pos, ms[i]), depth - 1);
      total := total + nodes;
      infos := infos + [SplitInfo(ms[i], nodes)];
    }
    assert ms[..|ms|] == ms;
  }

  /** The split total is the perft count of the root, for a game whose `count_moves` agrees. */
  lemma SplitTotalIsPerft<P(!new), M(!new)>(g: Game<P, M>, pos: P, depth: nat)
    requires depth >= 1
    requires Reversible(g) && CountsAgree(g) && g.valid(pos)
    ensures SumPerft(g, pos, g.moves(pos), depth - 1) == PerftCount(g, pos, depth)
  {
    if depth == 1 {
      SumPerftAtZero(g, pos, g.moves(pos));
    }
  }

  /**
   * `perft_impl` at a negative depth, which `split` reaches with a depth of 0 or less: neither
   * base case matches, so the count walks the whole game tree below `p` and sums what its
   * leaves give. `fuel` bounds how deep the walk goes; None means it ran out (on a game that
   * does not end, the source recurses until the stack overflows).
   */
  function BelowZero<P(!new), M(!new)>(g: Game<P, M>, p: P, fuel: nat): Option<nat>
    decreases fuel, 0
  {
    if fuel == 0 then None else SumBelowZero(g, p, g.moves(p), fuel - 1)
  }

  /** The loop over the moves of `perft_impl` at a negative depth, with the same fuel for each child. */
  function SumBelowZero<P(!new), M(!new)>(g: Game<P, M>, p: P, ms: seq<M>, fuel: nat): Option<nat>
    decreases fuel, |ms|
  {
    if ms == [] then Some(0)
    else
      match (SumBelowZero(g, p, ms[..|ms| - 1], fuel), BelowZero(g, g.make(p, ms[|ms| - 1]), fuel))
      case (Some(a), Some(b)) => Some(a + b)
      case _ => None
  }

  /**
   * A negative-depth count that finishes is 0: every branch ends in a position without moves,
   * where the loop adds nothing, so `split` with a depth of 0 or less reports 0 below every
   * root move (or never returns).
   */
  lemma {:induction false} BelowZeroIsZero<P(!new), M(!new)>(g: Game<P, M>, p: P, fuel: nat)
    ensures BelowZero(g, p, fuel) == None || BelowZero(g, p, fuel) == Some(0)
    decreases fuel, 0
  {
    if fuel > 0 {
      SumBelowZeroIsZero(g, p, g.moves(p), fuel - 1);
    }
  }

  lemma {:induction false} SumBelowZeroIsZero<P(!new), M(!new)>(g: Game<P, M>, p: P, ms: seq<M>, fuel: nat)
    ensures SumBelowZero(g, p, ms, fuel) == None || SumBelowZero(g, p, ms, fuel) == Some(0)
    decreases fuel, |ms|
  {
    if ms != [] {
      SumBelowZeroIsZero(g, p, ms[..|ms| - 1], fuel);
      BelowZeroIsZero(g, g.make(p, ms[|ms| - 1]), fuel);
    }
  }

  /** A position without moves ends the negative-depth walk at once with 0. */
  lemma StuckBelowZero<P(!new), M(!new)>(g: Game<P, M>, p: P, fuel: nat)
    requires fuel > 0 && g.moves(p) == []
    ensures BelowZero(g, p, fuel) == Some(0)
  {
  }

  lemma SumPerftAtZero<P(!new), M(!new)>(g: Game<P, M>, p: P, ms: seq<M>)
    ensures SumPerft(g, p, ms, 0) == |ms|
  {
    if ms != [] {
      SumPerftAtZero(g, p, ms[..|ms| - 1]);
    }
  }
}
