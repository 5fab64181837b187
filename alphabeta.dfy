/**
 * The alpha-beta search: `alphabeta_impl`, negamax with an (alpha, beta) window and cut-offs,
 * reaching children by copies with the move made, and the `alphabeta` iterative-deepening
 * driver, which searches every depth with the root window (-1e9, 1e9).
 */
module AlphaBeta {
  import opened Wrappers
  import opened GameRules
  import opened Go
  import opened GameTree
  import opened StopPolicy
  import opened Deepening
  import opened Minimax

  const ROOT_WINDOW := 1_000_000_000

  /**
   * The fail-soft promise of a search with window (a, b) about the true value `v`: a score at
   * or below `a` bounds it from above, one at or above `b` bounds it from below, and a score
   * strictly inside the window is exact, with the exact line.
   */
  ghost predicate FailSoft<M>(v: Line<M>, a: int, b: int, score: int, pv: seq<M>)
  {
    && (score <= a ==> v.score <= score)
    && (score >= b ==> v.score >= score)
    && (a < score < b ==> v.score == score && v.pv == pv)
  }

  /**
   * `alphabeta_impl`. Stops and counting as in `minimax_impl`; children are searched with the
   * window (-beta, -alpha), alpha is raised by every better score and the move loop ends once
   * alpha reaches beta. A search that never stops is fail-soft with respect to negamax and
   * visits no more positions than the full tree.
   */
  method AlphaBetaImpl<P(!new), M(!new)>(g: Game<P, M>, pos: P, alpha0: int, beta: int, depth: nat, ply: nat,
                                          stats: SearchStats, stop: SearchStats -> bool, eval: P -> int)
    returns (score: int, stats': SearchStats, pv: seq<M>)
    requires alpha0 < beta
    ensures stop(stats) ==> score == 0 && stats' == stats && pv == []
    ensures !stop(stats) ==> stats'.nodes >= stats.nodes + 1 && stats'.seldepth >= Max(stats.seldepth, ply)
    ensures stats'.nodes >= stats.nodes && stats'.seldepth >= stats.seldepth
    ensures pv != [] ==> pv[0] in g.moves(pos)
    ensures g.result(pos).Some? || depth == 0 ==> pv == []
    ensures NeverStops(stop) ==>
      FailSoft(Negamax(g, pos, depth, ply, eval), alpha0, beta, score, pv)
      && stats'.nodes <= stats.nodes + TreeSize(g, pos, depth)
    ensures !stop(stats) && g.result(pos).None? && depth > 0 && g.moves(pos) == [] ==> score == -INF_SCORE
    ensures EvalInside(eval) && ply + depth <= MATE_SCORE && NoDeadEnds(g, pos, depth) ==>
      -INF_SCORE < score < INF_SCORE
    decreases depth, 2
  {
    if stop(stats) {
      return 0, stats, [];
    }
    stats' := SearchStats(stats.nodes + 1, Max(stats.seldepth, ply));
    pv := [];
    var result := g.result(pos);
    if result.Some? {
      match result.value
      case Win(s) =>
        if s == g.turn(pos) {
          return MATE_SCORE - ply, stats', pv;
        } else {
          return -MATE_SCORE + ply, stats', pv;
        }
      case Draw =>
        return 0, stats', pv;
    }
    if depth == 0 {
      return eval(pos), stats', pv;
    }
    var ms := LegalMoves(g, pos);
    assert Negamax(g, pos, depth, ply, eval) == BestOf(g, pos, ms, depth - 1, ply + 1, eval);
    assert TreeSize(g, pos, depth) == 1 + SumTreeSize(g, pos, ms, depth - 1);
    score, stats', pv := SearchMoves(g, pos, ms, alpha0, beta, depth, ply, stats', stop, eval);
  }

  /**
   * The move loop of `alphabeta_impl` at a position searched `depth > 0` plies deep: the moves
   * `ms` in order, each child searched with the window (-beta, -alpha), until alpha reaches
   * beta. Fail-soft against the negamax value of the moves, visiting no more positions than
   * their subtrees. The score after the loop is above `-INF_SCORE` (the source's closing
   * assertion) once there is a move and no searched child runs out of moves unfinished; with
   * no move at all it is `-INF_SCORE`, and the assertion fails.
   */
  method SearchMoves<P(!new), M(!new)>(g: Game<P, M>, pos: P, ms: seq<M>, alpha0: int, beta: int, depth: nat, ply: nat,
                                        stats: SearchStats, stop: SearchStats -> bool, eval: P -> int)
    returns (best: int, stats': SearchStats, pv: seq<M>)
    requires alpha0 < beta && depth > 0
    ensures stats'.nodes >= stats.nodes && stats'.seldepth >= stats.seldepth
    ensures pv != [] ==> pv[0] in ms
    ensures NeverStops(stop) ==>
      FailSoft(BestOf(g, pos, ms, depth - 1, ply + 1, eval), alpha0, beta, best, pv)
      && stats'.nodes <= stats.nodes + SumTreeSize(g, pos, ms, depth - 1)
    ensures ms == [] ==> best == -INF_SCORE
    ensures (&& ms != [] && EvalInside(eval) && ply + depth <= MATE_SCORE
             && forall m :: m in ms ==> NoDeadEnds(g, g.make(pos, m), depth - 1)) ==>
      -INF_SCORE < best < INF_SCORE
    decreases depth, 1
  {
    ghost var never := NeverStops(stop);
    ghost var sound := EvalInside(eval) && ply + depth <= MATE_SCORE
      && (forall m :: m in ms ==> NoDeadEnds(g, g.make(pos, m), depth - 1));
    stats' := stats;
    pv := [];
    var alpha := alpha0;
    best := -INF_SCORE;
    var k := 0;
    while k < |ms| && alpha < beta
      invariant k <= |ms|
      invariant stats'.nodes >= stats.nodes && stats'.seldepth >= stats.seldepth
      invariant pv != [] ==> pv[0] in ms
      invariant alpha < beta ==> Window(alpha0, beta, alpha, best)
      invariant alpha >= beta ==> 1 <= k && best >= beta
      invariant never && alpha < beta ==> SoFar(alpha0, best, pv, BestOf(g, pos, ms[..k], depth - 1, ply + 1, eval))
      invariant never && alpha >= beta ==> best == -INF_SCORE || BestOf(g, pos, ms[..k], depth - 1, ply + 1, eval).score >= best
      invariant never ==> stats'.nodes <= stats.nodes + SumTreeSize(g, pos, ms[..k], depth - 1)
      invariant k == 0 ==> best == -INF_SCORE
      invariant sound ==> best < INF_SCORE && (k > 0 ==> -INF_SCORE < best)
    {
      alpha, best, pv, stats' := TryMove(g, pos, ms, k, alpha0, beta, alpha, best, pv, depth, ply, stats.nodes, stats', stop, eval, never, sound);
      k := k + 1;
    }
    LoopExit(g, pos, ms, k, depth - 1, ply + 1, eval, never, alpha0, beta, alpha, best, pv, stats.nodes, stats'.nodes);
  }

  /** The move loop ended, on a cut-off or out of moves: its answer is fail-soft against the value of all the moves. */
  lemma LoopExit<P(!new), M(!new)>(g: Game<P, M>, pos: P, ms: seq<M>, k: nat, depth: nat, ply: nat, eval: P -> int,
                                    never: bool, alpha0: int, beta: int, alpha: int, best: int, pv: seq<M>,
                                    base: nat, nodes: nat)
    requires k <= |ms| && (k == |ms| || alpha >= beta) && alpha0 < beta
    requires alpha < beta ==> Window(alpha0, beta, alpha, best)
    requires alpha >= beta ==> 1 <= k && best >= beta
    requires never && alpha < beta ==> SoFar(alpha0, best, pv, BestOf(g, pos, ms[..k], depth, ply, eval))
    requires never && alpha >= beta ==> best == -INF_SCORE || BestOf(g, pos, ms[..k], depth, ply, eval).score >= best
    requires never ==> nodes <= base + SumTreeSize(g, pos, ms[..k], depth)
    ensures never ==> FailSoft(BestOf(g, pos, ms, depth, ply, eval), alpha0, beta, best, pv)
    ensures never ==> nodes <= base + SumTreeSize(g, pos, ms, depth)
  {
    if alpha >= beta {
      CutOffMoves(g, pos, ms, k - 1, depth, ply, eval, never, alpha0, beta, best, pv);
      SumTreeSizePrefix(g, pos, ms, k, depth);
    } else {
      assert ms[..k] == ms;
      DoneMoves(g, pos, ms, depth, ply, eval, never, alpha0, beta, alpha, best, pv);
    }
  }

  /**
   * One pass of the move loop: the child after `ms[k]` searched with the window (-beta, -alpha),
   * the best score and line replaced on a strict improvement and alpha raised. It keeps the
   * loop's facts for one more move, and on a cut-off leaves a best score at or above beta that
   * the moves so far reach.
   */
  method TryMove<P(!new), M(!new)>(g: Game<P, M>, pos: P, ms: seq<M>, k: nat, alpha0: int, beta: int,
                                    alpha: int, best: int, pv: seq<M>, depth: nat, ply: nat,
                                    ghost base: nat, stats: SearchStats, stop: SearchStats -> bool, eval: P -> int,
                                    ghost never: bool, ghost sound: bool)
    returns (alpha': int, best': int, pv': seq<M>, stats': SearchStats)
    requires k < |ms| && depth > 0
    requires Window(alpha0, beta, alpha, best)
    requires pv != [] ==> pv[0] in ms
    requires never ==> NeverStops(stop)
    requires never ==> SoFar(alpha0, best, pv, BestOf(g, pos, ms[..k], depth - 1, ply + 1, eval))
    requires never ==> stats.nodes <= base + SumTreeSize(g, pos, ms[..k], depth - 1)
    requires sound ==>
      EvalInside(eval) && ply + depth <= MATE_SCORE && best < INF_SCORE && NoDeadEnds(g, g.make(pos, ms[k]), depth - 1)
    ensures stats'.nodes >= stats.nodes && stats'.seldepth >= stats.seldepth
    ensures pv' != [] ==> pv'[0] in ms
    ensures alpha' < beta ==> Window(alpha0, beta, alpha', best')
    ensures never && alpha' < beta ==>
      && SoFar(alpha0, best', pv', BestOf(g, pos, ms[..k + 1], depth - 1, ply + 1, eval))
      && stats'.nodes <= base + SumTreeSize(g, pos, ms[..k + 1], depth - 1)
    ensures alpha' >= beta ==> best' >= beta
    ensures never && alpha' >= beta ==>
      && (best' == -INF_SCORE || BestOf(g, pos, ms[..k + 1], depth - 1, ply + 1, eval).score >= best')
      && stats'.nodes <= base + SumTreeSize(g, pos, ms[..k + 1], depth - 1)
    ensures sound ==> -INF_SCORE < best' < INF_SCORE
    decreases depth, 0
  {
    ghost var m := BestOf(g, pos, ms[..k], depth - 1, ply + 1, eval);
    ghost var m' := BestOf(g, pos, ms[..k + 1], depth - 1, ply + 1, eval);
    BestOfStep(g, pos, ms, k, depth - 1, ply + 1, eval);
    var child := g.make(pos, ms[k]);
    ghost var cv := Negamax(g, child, depth - 1, ply + 1, eval);
    var childScore, childPv;
    childScore, stats', childPv := AlphaBetaImpl(g, child, -beta, -alpha, depth - 1, ply + 1, stats, stop, eval);
    var s := -childScore;
    alpha', best', pv' := alpha, best, pv;
    if s > best' {
      best' := s;
      pv' := [ms[k]] + childPv;
    }
    if s > alpha' {
      alpha' := s;
    }
    WindowStep(never, alpha0, beta, alpha, best, pv, m, ms[k], cv, childScore, childPv, alpha', best', pv', m');
    SumTreeSizeStep(g, pos, ms, k, depth - 1);
  }


  /**
   * At the root window (-1e9, 1e9) a search that never stops is exact: with a bounded `eval`
   * and mates within `MATE_SCORE` plies every value lies inside the window, so the fail-soft
   * answer is negamax's score and line.
   */
  lemma RootWindowIsExact<P(!new), M(!new)>(g: Game<P, M>, pos: P, depth: nat, eval: P -> int, score: int, pv: seq<M>)
    requires EvalWithin(eval) && depth <= MATE_SCORE
    requires FailSoft(Negamax(g, pos, depth, 0, eval), -ROOT_WINDOW, ROOT_WINDOW, score, pv)
    ensures Line(score, pv) == Negamax(g, pos, depth, 0, eval)
  {
    NegamaxBounded(g, pos, depth, 0, eval);
  }

  /**
   * One depth of the driver: `alphabeta_impl` at the root window with the statistics carried
   * over, then the report. A depth beyond the first that `stop` cut is reported as interrupted
   * and ends the deepening; otherwise the depth is completed and the best move kept. Exact,
   * and never cut, when the search never stops.
   */
  method DeepenStep<P(!new), M(!new)>(g: Game<P, M>, pos: P, depth: nat, stats: SearchStats, stop: SearchStats -> bool,
                                       eval: P -> int, reports: seq<Report<M>>, bestmove: Option<M>, ghost exact: bool)
    returns (stopped: bool, stats': SearchStats, reports': seq<Report<M>>, bestmove': Option<M>)
    requires 1 <= depth && |reports| == depth - 1 && Consecutive(reports) && bestmove == LastMove(reports)
    requires bestmove.Some? ==> bestmove.value in g.moves(pos)
    requires exact ==> NeverStops(stop) && EvalWithin(eval) && depth <= MATE_SCORE
    requires exact ==> LinesOf(reports) == NegamaxLines(g, pos, depth - 1, eval) && bestmove == DeepestBest(g, pos, depth - 1, eval)
    ensures |reports'| == depth && bestmove' == LastMove(reports')
    ensures bestmove'.Some? ==> bestmove'.value in g.moves(pos)
    ensures reports'[..depth - 1] == reports
    ensures stopped ==> depth > 1
    ensures !stopped ==> reports'[depth - 1].Completed? && (stop(stats) || g.result(pos).Some? ==> reports'[depth - 1].pv == [])
    ensures stopped ==> !exact && InOrder(reports')
    ensures !stopped ==> Consecutive(reports')
    ensures !stopped && exact ==>
      && LinesOf(reports') == NegamaxLines(g, pos, depth, eval)
      && bestmove' == DeepestBest(g, pos, depth, eval)
  {
    var score, pv;
    score, stats', pv := AlphaBetaImpl(g, pos, -ROOT_WINDOW, ROOT_WINDOW, depth, 0, stats, stop, eval);
    if depth > 1 && stop(stats') {
      RecordInterrupted(reports, bestmove, Interrupted(stats'.nodes, pv));
      return true, stats', reports + [Interrupted(stats'.nodes, pv)], bestmove;
    }
    var r := Completed(depth, score, stats'.nodes, pv);
    RecordCompleted(reports, bestmove, r, g.moves(pos));
    if exact {
      RootWindowIsExact(g, pos, depth, eval, score, pv);
      ExactStep(g, pos, depth, eval, reports, bestmove, r);
    }
    return false, stats', reports + [r], KeepBest(bestmove, pv);
  }

  /**
   * `alphabeta`: the iterative-deepening driver of `minimax` with `alphabeta_impl` at the root
   * window in place of `minimax_impl`. With no limit on nodes or time, a bounded `eval` and
   * depths within `MATE_SCORE`, every depth completes with negamax's score and line, so it ends
   * with the same best move as `minimax`.
   */
  method Search<P(!new), M(!new)>(g: Game<P, M>, pos: P, settings: GoSettings, clock: SearchStats -> nat, eval: P -> int)
    returns (bestmove: Option<M>, reports: seq<Report<M>>)
    requires TimesInRange(settings)
    ensures |reports| <= Max(MaxDepth(settings), 0)
    ensures InOrder(reports)
    ensures bestmove == LastMove(reports)
    ensures 1 <= MaxDepth(settings) && (ShouldStop(settings, g.turn(pos), 0, 0) || g.result(pos).Some?) ==>
      BestAsWritten(reports).Err?
    ensures BestAsWritten(reports).Ok? ==> BestAsWritten(reports).value == bestmove
    ensures bestmove.Some? ==> bestmove.value in g.moves(pos)
    ensures Unlimited(settings, g.turn(pos)) && EvalWithin(eval) && MaxDepth(settings) <= MATE_SCORE ==>
      && Consecutive(reports)
      && LinesOf(reports) == NegamaxLines(g, pos, Max(MaxDepth(settings), 0), eval)
      && bestmove == DeepestBest(g, pos, |reports|, eval)
  {
    var us := g.turn(pos);
    var stop := (s: SearchStats) => ShouldStop(settings, us, s.nodes, clock(s));
    if Unlimited(settings, us) {
      forall s: SearchStats
        ensures !stop(s)
      {
        assert stop(s) == ShouldStop(settings, us, s.nodes, clock(s));
      }
    }
    if ShouldStop(settings, us, 0, 0) {
      StopIsMonotone(settings, us, 0, 0, 0, clock(SearchStats(0, 0)));
      assert stop(SearchStats(0, 0));
    }
    bestmove, reports := Deepen(g, pos, MaxDepth(settings), stop, eval);
  }

  /**
   * The deepening loop of `alphabeta`: depths 1, 2, ... up to `maxDepth`, each searched at the
   * root window with the statistics carried over, stopping after a depth beyond the first that
   * `stop` cut.
   */
  method Deepen<P(!new), M(!new)>(g: Game<P, M>, pos: P, maxDepth: int, stop: SearchStats -> bool, eval: P -> int)
    returns (bestmove: Option<M>, reports: seq<Report<M>>)
    ensures |reports| <= Max(maxDepth, 0)
    ensures InOrder(reports)
    ensures 1 <= maxDepth ==> 1 <= |reports|
    ensures 1 <= maxDepth && (stop(SearchStats(0, 0)) || g.result(pos).Some?) ==>
      reports[0].Completed? && reports[0].pv == [] && BestAsWritten(reports).Err?
    ensures BestAsWritten(reports).Ok? ==> BestAsWritten(reports).value == bestmove
    ensures bestmove == LastMove(reports)
    ensures bestmove.Some? ==> bestmove.value in g.moves(pos)
    ensures NeverStops(stop) && EvalWithin(eval) && maxDepth <= MATE_SCORE ==>
      && Consecutive(reports)
      && LinesOf(reports) == NegamaxLines(g, pos, Max(maxDepth, 0), eval)
      && bestmove == DeepestBest(g, pos, |reports|, eval)
  {
    bestmove := None;
    reports := [];
    var stats := SearchStats(0, 0);
    ghost var exact := NeverStops(stop) && EvalWithin(eval) && maxDepth <= MATE_SCORE;
    var depth := 1;
    while depth <= maxDepth
      invariant 1 <= depth && |reports| == depth - 1 && depth - 1 <= Max(maxDepth, 0)
      invariant Consecutive(reports)
      invariant bestmove == LastMove(reports)
      invariant depth == 1 ==> stats == SearchStats(0, 0)
      invariant depth > 1 && (stop(SearchStats(0, 0)) || g.result(pos).Some?) ==> reports[0].Completed? && reports[0].pv == []
      invariant bestmove.Some? ==> bestmove.value in g.moves(pos)
      invariant exact ==>
        && LinesOf(reports) == NegamaxLines(g, pos, depth - 1, eval)
        && bestmove == DeepestBest(g, pos, depth - 1, eval)
    {
      var stopped;
      stopped, stats, reports, bestmove := DeepenStep(g, pos, depth, stats, stop, eval, reports, bestmove, exact);
      if stopped {
        break;
      }
      depth := depth + 1;
    }
    BestAsWrittenIsLastMove(reports);
  }

  /** The loop's bounds on alpha and the best score: alpha is the window's lower end raised by the scores above it. */
  predicate Window(alpha0: int, beta: int, alpha: int, best: int)
  {
    && alpha0 <= alpha < beta
    && best >= -INF_SCORE
    && (best > -INF_SCORE ==> alpha == Max(alpha0, best))
    && (best == -INF_SCORE ==> alpha <= Max(alpha0, -INF_SCORE))
  }

  /**
   * What the move loop keeps about the moves tried so far, against their negamax value `m`:
   * while the best score is at or below the window's lower end it bounds `m` from above, and
   * once it is above, it is `m`'s score with `m`'s line.
   */
  ghost predicate SoFar<M>(alpha0: int, best: int, pv: seq<M>, m: Line<M>)
  {
    && (best <= alpha0 ==> m.score <= best)
    && (alpha0 < best ==> m.score == best && m.pv == pv)
  }

  /**
   * One move of the loop: the child's fail-soft answer keeps the loop's facts, and a cut-off
   * leaves a best score at or above beta that the moves tried so far reach (or the untouched
   * `-INF_SCORE`).
   */
  lemma WindowStep<M>(never: bool, alpha0: int, beta: int, alpha: int, best: int, pv: seq<M>, m: Line<M>,
                      x: M, cv: Line<M>, cs: int, cpv: seq<M>,
                      alpha': int, best': int, pv': seq<M>, m': Line<M>)
    requires Window(alpha0, beta, alpha, best)
    requires never ==> SoFar(alpha0, best, pv, m) && FailSoft(cv, -beta, -alpha, cs, cpv)
    requires best' == (if -cs > best then -cs else best) && pv' == (if -cs > best then [x] + cpv else pv)
    requires alpha' == (if -cs > alpha then -cs else alpha)
    requires m' == (if -cv.score > m.score then Line(-cv.score, [x] + cv.pv) else m)
    ensures alpha' < beta ==> Window(alpha0, beta, alpha', best')
    ensures never && alpha' < beta ==> SoFar(alpha0, best', pv', m')
    ensures alpha' >= beta ==> best' >= beta
    ensures never && alpha' >= beta ==> best' == -INF_SCORE || m'.score >= best'
  {
  }

  /** A cut-off: a best score at or above beta that the whole move list reaches is fail-soft. */
  lemma CutOff<M>(never: bool, alpha0: int, beta: int, best: int, pv: seq<M>, m: Line<M>, v: Line<M>)
    requires alpha0 < beta <= best
    requires never ==> best == -INF_SCORE || m.score >= best
    requires m.score <= v.score && v.score >= -INF_SCORE
    ensures never ==> FailSoft(v, alpha0, beta, best, pv)
  {
  }

  /** A cut-off after `ms[k]` is fail-soft against the value of all the moves. */
  lemma CutOffMoves<P(!new), M(!new)>(g: Game<P, M>, pos: P, ms: seq<M>, k: nat, depth: nat, ply: nat, eval: P -> int,
                                       never: bool, alpha0: int, beta: int, best: int, pv: seq<M>)
    requires k < |ms| && alpha0 < beta <= best
    requires never ==> best == -INF_SCORE || BestOf(g, pos, ms[..k + 1], depth, ply, eval).score >= best
    ensures never ==> FailSoft(BestOf(g, pos, ms, depth, ply, eval), alpha0, beta, best, pv)
  {
    BestOfPrefix(g, pos, ms, k + 1, depth, ply, eval);
    BestOfFloor(g, pos, ms, depth, ply, eval);
    CutOff(never, alpha0, beta, best, pv, BestOf(g, pos, ms[..k + 1], depth, ply, eval), BestOf(g, pos, ms, depth, ply, eval));
  }

  /** Running out of moves inside the window is fail-soft against the value of all the moves. */
  lemma DoneMoves<P(!new), M(!new)>(g: Game<P, M>, pos: P, ms: seq<M>, depth: nat, ply: nat, eval: P -> int,
                                     never: bool, alpha0: int, beta: int, alpha: int, best: int, pv: seq<M>)
    requires Window(alpha0, beta, alpha, best)
    requires never ==> SoFar(alpha0, best, pv, BestOf(g, pos, ms, depth, ply, eval))
    ensures never ==> FailSoft(BestOf(g, pos, ms, depth, ply, eval), alpha0, beta, best, pv)
  {
    BestOfFloor(g, pos, ms, depth, ply, eval);
    WindowDone(never, alpha0, beta, alpha, best, pv, BestOf(g, pos, ms, depth, ply, eval));
  }

  /** The loop ran out of moves inside the window: its best score is fail-soft against their value. */
  lemma WindowDone<M>(never: bool, alpha0: int, beta: int, alpha: int, best: int, pv: seq<M>, m: Line<M>)
    requires Window(alpha0, beta, alpha, best) && (never ==> SoFar(alpha0, best, pv, m))
    requires m.score >= -INF_SCORE
    ensures never ==> FailSoft(m, alpha0, beta, best, pv)
  {
  }

}
