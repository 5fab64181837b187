/**
 * The value the searches compute, stated once: negamax over the game tree with mate-distance
 * scores for finished games, and the principal variation it picks (the first best move wins
 * ties, because the line only changes on a strict improvement).
 */
module GameTree {
  import opened Wrappers
  import opened GameRules

  const INF_SCORE := 10_000_000
  const MATE_SCORE := 1_000_000

  /** A score together with its principal variation. */
  datatype Line<M> = Line(score: int, pv: seq<M>)

  /**
   * The score of a finished game for the side to move, `ply` plies below the root: a win
   * scores `MATE_SCORE - ply`, a loss `-MATE_SCORE + ply`, a draw 0. A nearer win scores
   * higher and a nearer loss lower.
   */
  function TerminalScore(r: GameResult, turn: Side, ply: nat): (v: int)
    ensures r.Draw? ==> v == 0
    ensures ply < MATE_SCORE ==> (v > 0 <==> r.Win? && r.winner == turn)
    ensures ply < MATE_SCORE ==> (v < 0 <==> r.Win? && r.winner != turn)
    ensures ply <= MATE_SCORE ==> -MATE_SCORE <= v <= MATE_SCORE
  {
    match r
    case Win(s) => if s == turn then MATE_SCORE - ply else -MATE_SCORE + ply
    case Draw => 0
  }

  /**
   * Negamax from `p`, searched `depth` plies deep, `ply` plies below the root: the terminal
   * score of a finished game, `eval` at depth 0, otherwise the best of the moves.
   */
  function Negamax<P(!new), M(!new)>(g: Game<P, M>, p: P, depth: nat, ply: nat, eval: P -> int): Line<M>
    decreases depth, 1
  {
    match g.result(p)
    case Some(r) => Line(TerminalScore(r, g.turn(p), ply), [])
    case None =>
      if depth == 0 then Line(eval(p), [])
      else BestOf(g, p, g.moves(p), depth - 1, ply + 1, eval)
  }

  /** The value of move `m` for the side to move at `p`: the negated value of the child. */
  function MoveValue<P(!new), M(!new)>(g: Game<P, M>, p: P, m: M, depth: nat, ply: nat, eval: P -> int): int
    decreases depth, 2
  {
    -Negamax(g, g.make(p, m), depth, ply, eval).score
  }

  /**
   * The moves `ms` tried in order, starting from `-INF_SCORE` and an empty line; a move
   * replaces the line only when its value is strictly greater.
   */
  function BestOf<P(!new), M(!new)>(g: Game<P, M>, p: P, ms: seq<M>, depth: nat, ply: nat, eval: P -> int): Line<M>
    decreases depth + 1, 0, |ms|
  {
    if ms == [] then Line(-INF_SCORE, [])
    else
      var best := BestOf(g, p, ms[..|ms| - 1], depth, ply, eval);
      var m := ms[|ms| - 1];
      var child := Negamax(g, g.make(p, m), depth, ply, eval);
      if -child.score > best.score then Line(-child.score, [m] + child.pv) else best
  }

  /** The number of positions a search that never stops visits. */
  function TreeSize<P(!new), M(!new)>(g: Game<P, M>, p: P, depth: nat): nat
    decreases depth, 1
  {
    if g.result(p).Some? || depth == 0 then 1 else 1 + SumTreeSize(g, p, g.moves(p), depth - 1)
  }

  function SumTreeSize<P(!new), M(!new)>(g: Game<P, M>, p: P, ms: seq<M>, depth: nat): nat
    decreases depth + 1, 0, |ms|
  {
    if ms == [] then 0
    else SumTreeSize(g, p, ms[..|ms| - 1], depth) + TreeSize(g, g.make(p, ms[|ms| - 1]), depth)
  }

  /** One more move: the fold step of `BestOf`, as the search loops take it. */
  lemma BestOfStep<P(!new), M(!new)>(g: Game<P, M>, p: P, ms: seq<M>, k: nat, depth: nat, ply: nat, eval: P -> int)
    requires k < |ms|
    ensures var child := Negamax(g, g.make(p, ms[k]), depth, ply, eval);
      var best := BestOf(g, p, ms[..k], depth, ply, eval);
      BestOf(g, p, ms[..k + 1], depth, ply, eval)
        == if -child.score > best.score then Line(-child.score, [ms[k]] + child.pv) else best
  {
    assert ms[..k + 1][..k] == ms[..k];
  }

  /**
   * `BestOf` is the maximum of the move values (and `-INF_SCORE`), attained by the FIRST move
   * reaching it, whose line it returns; the line is empty exactly when no move beats `-INF_SCORE`.
   */
  lemma {:induction false} BestOfIsFirstMax<P(!new), M(!new)>(g: Game<P, M>, p: P, ms: seq<M>, depth: nat, ply: nat, eval: P -> int)
    ensures var b := BestOf(g, p, ms, depth, ply, eval);
      && b.score >= -INF_SCORE
      && (forall i :: 0 <= i < |ms| ==> MoveValue(g, p, ms[i], depth, ply, eval) <= b.score)
      && (b.pv == [] <==> b.score == -INF_SCORE)
      && (b.pv != [] ==>
            exists i :: 0 <= i < |ms| && b.pv[0] == ms[i]
              && MoveValue(g, p, ms[i], depth, ply, eval) == b.score
              && b.pv == [ms[i]] + Negamax(g, g.make(p, ms[i]), depth, ply, eval).pv
              && (forall j :: 0 <= j < i ==> MoveValue(g, p, ms[j], depth, ply, eval) < b.score))
    decreases |ms|
  {
    if ms != [] {
      var n := |ms| - 1;
      var init := ms[..n];
      BestOfIsFirstMax(g, p, init, depth, ply, eval);
      var b0 := BestOf(g, p, init, depth, ply, eval);
      var b := BestOf(g, p, ms, depth, ply, eval);
      assert forall i :: 0 <= i < n ==> init[i] == ms[i];
      if b != b0 {
        assert b.pv[0] == ms[n];
      } else if b.pv != [] {
        var i :| 0 <= i < n && b0.pv[0] == init[i]
          && MoveValue(g, p, init[i], depth, ply, eval) == b0.score
          && b0.pv == [init[i]] + Negamax(g, g.make(p, init[i]), depth, ply, eval).pv
          && forall j :: 0 <= j < i ==> MoveValue(g, p, init[j], depth, ply, eval) < b0.score;
        assert b.pv[0] == ms[i];
      }
    }
  }

  /** No line scores below `-INF_SCORE`. */
  lemma BestOfFloor<P(!new), M(!new)>(g: Game<P, M>, p: P, ms: seq<M>, depth: nat, ply: nat, eval: P -> int)
    ensures BestOf(g, p, ms, depth, ply, eval).score >= -INF_SCORE
  {
    BestOfIsFirstMax(g, p, ms, depth, ply, eval);
  }

  /** A longer prefix of the moves never scores lower. */
  lemma BestOfPrefix<P(!new), M(!new)>(g: Game<P, M>, p: P, ms: seq<M>, k: nat, depth: nat, ply: nat, eval: P -> int)
    requires k <= |ms|
    ensures BestOf(g, p, ms[..k], depth, ply, eval).score <= BestOf(g, p, ms, depth, ply, eval).score
  {
    var pre := ms[..k];
    BestOfIsFirstMax(g, p, pre, depth, ply, eval);
    BestOfIsFirstMax(g, p, ms, depth, ply, eval);
    var b := BestOf(g, p, pre, depth, ply, eval);
    if b.pv != [] {
      var i :| 0 <= i < k && MoveValue(g, p, pre[i], depth, ply, eval) == b.score;
      assert pre[i] == ms[i];
    }
  }

  /** The first move of a principal variation is one of the generated moves. */
  lemma NegamaxFirstMove<P(!new), M(!new)>(g: Game<P, M>, p: P, depth: nat, ply: nat, eval: P -> int)
    ensures var l := Negamax(g, p, depth, ply, eval);
      l.pv != [] ==> g.result(p).None? && depth > 0 && l.pv[0] in g.moves(p)
  {
    if g.result(p).None? && depth > 0 {
      BestOfIsFirstMax(g, p, g.moves(p), depth - 1, ply + 1, eval);
    }
  }

  /** `eval` keeps inside the scores the search reserves for finished games and empty nodes. */
  ghost predicate EvalWithin<P(!new)>(eval: P -> int)
  {
    forall p :: -INF_SCORE <= eval(p) <= INF_SCORE
  }

  /** `eval` keeps strictly inside `(-INF_SCORE, INF_SCORE)`. */
  ghost predicate EvalInside<P(!new)>(eval: P -> int)
  {
    forall p :: -INF_SCORE < eval(p) < INF_SCORE
  }

  /**
   * Every unfinished position a search expands within `depth` plies of `p` has a generated
   * move, so no move loop runs empty.
   */
  ghost predicate NoDeadEnds<P(!new), M(!new)>(g: Game<P, M>, p: P, depth: nat)
    decreases depth
  {
    g.result(p).None? && depth > 0 ==>
      g.moves(p) != [] && forall m :: m in g.moves(p) ==> NoDeadEnds(g, g.make(p, m), depth - 1)
  }

  /** With a bounded `eval` and mates found within `MATE_SCORE` plies, every score is within `INF_SCORE`. */
  lemma {:induction false} NegamaxBounded<P(!new), M(!new)>(g: Game<P, M>, p: P, depth: nat, ply: nat, eval: P -> int)
    requires EvalWithin(eval)
    requires ply + depth <= MATE_SCORE
    ensures -INF_SCORE <= Negamax(g, p, depth, ply, eval).score <= INF_SCORE
    decreases depth, 1
  {
    if g.result(p).None? && depth > 0 {
      BestOfBounded(g, p, g.moves(p), depth - 1, ply + 1, eval);
    }
  }

  lemma {:induction false} BestOfBounded<P(!new), M(!new)>(g: Game<P, M>, p: P, ms: seq<M>, depth: nat, ply: nat, eval: P -> int)
    requires EvalWithin(eval)
    requires ply + depth <= MATE_SCORE
    ensures -INF_SCORE <= BestOf(g, p, ms, depth, ply, eval).score <= INF_SCORE
    decreases depth + 1, 0, |ms|
  {
    if ms != [] {
      BestOfBounded(g, p, ms[..|ms| - 1], depth, ply, eval);
      NegamaxBounded(g, g.make(p, ms[|ms| - 1]), depth, ply, eval);
    }
  }

  /** One more move adds its subtree. */
  lemma SumTreeSizeStep<P(!new), M(!new)>(g: Game<P, M>, p: P, ms: seq<M>, k: nat, depth: nat)
    requires k < |ms|
    ensures SumTreeSize(g, p, ms[..k + 1], depth) == SumTreeSize(g, p, ms[..k], depth) + TreeSize(g, g.make(p, ms[k]), depth)
  {
    assert ms[..k + 1][..k] == ms[..k];
  }

  /** A prefix of the moves visits no more positions than all of them. */
  lemma {:induction false} SumTreeSizePrefix<P(!new), M(!new)>(g: Game<P, M>, p: P, ms: seq<M>, k: nat, depth: nat)
    requires k <= |ms|
    ensures SumTreeSize(g, p, ms[..k], depth) <= SumTreeSize(g, p, ms, depth)
    decreases |ms| - k
  {
    if k < |ms| {
      SumTreeSizePrefix(g, p, ms[..|ms| - 1], k, depth);
      assert ms[..|ms| - 1][..k] == ms[..k];
      assert ms[..|ms|] == ms;
    } else {
      assert ms[..k] == ms;
    }
  }
}
