/**
 * `random`: the baseline engine that plays a uniformly indexed legal move. The random number
 * generator is a closure in the program; here the one number it hands out is a parameter, or it
 * is drawn from a `XorshiftGenerator`.
 */
module RandomSearch {
  import opened Wrappers
  import opened GameRules
  import Prng

  /** The index a random number selects among `n` moves. */
  function MoveIndex(r: nat, n: nat): (i: nat)
    requires n > 0
    ensures i < n
    ensures r < n ==> i == r
  {
    r % n
  }

  /**
   * The move picked for one random number. The source takes the remainder by the number of legal
   * moves, so a position without moves is a division by zero there, not a `None`.
   */
  function Pick<P(!new), M(!new)>(g: Game<P, M>, pos: P, r: nat): (m: Option<M>)
    requires |g.moves(pos)| > 0
    ensures m.Some? && m.value in g.moves(pos)
  {
    var ms := g.moves(pos);
    Some(ms[MoveIndex(r, |ms|)])
  }

  /** Every legal move is picked by some random number, so none is out of reach. */
  lemma EveryMoveReachable<P(!new), M(!new)>(g: Game<P, M>, pos: P, i: nat)
    requires i < |g.moves(pos)| <= 0x1_0000_0000_0000_0000
    ensures exists r: nat :: r < 0x1_0000_0000_0000_0000 && Pick(g, pos, r) == Some(g.moves(pos)[i])
  {
    assert Pick(g, pos, i) == Some(g.moves(pos)[i]);
  }

  /** `random` with a xorshift generator: exactly one number is drawn, and it picks the move. */
  method Random<P(!new), M(!new)>(g: Game<P, M>, pos: P, rng: Prng.XorshiftGenerator) returns (m: Option<M>)
    requires |g.moves(pos)| > 0
    modifies rng
    ensures rng.state == Prng.Step(old(rng.state))
    ensures m == Pick(g, pos, rng.state as nat)
  {
    var moves := LegalMoves(g, pos);
    var r := rng.Next();
    m := Some(moves[MoveIndex(r as nat, |moves|)]);
  }
}
