/**
 * The minimax search: `minimax_impl`, negamax by making and unmaking moves on one position,
 * and the `minimax` iterative-deepening driver.
 */
module Minimax {
  import opened Wrappers
  import opened GameRules
  import opened Go
  import opened GameTree
  import opened StopPolicy
  import opened Deepening

  function Max(a: int, b: int): int
  {
    if a >= b then a else b
  }

  /** The stop function never says stop. */
  ghost predicate NeverStops(stop: SearchStats -> bool)
  {
    forall s :: !stop(s)
  }

  /**
   * `minimax_impl`. A stop before the node is counted returns 0 with the statistics and the
   * line untouched; otherwise the node is counted and `seldepth` raised to `ply`. The position
   * comes back unchanged, and a search that never stops returns exactly negamax's score and
   * line, having visited `TreeSize` positions.
   */
  method MinimaxImpl<P(!new), M(!new)>(g: Game<P, M>, pos: P, depth: nat, ply: nat, stats: SearchStats,
                                        stop: SearchStats -> bool, eval: P -> int)
    returns (score: int, stats': SearchStats, pv: seq<M>, pos': P)
    requires Reversible(g) && g.valid(pos)
    ensures pos' == pos
    ensures stop(stats) ==> score == 0 && stats' == stats && pv == []
    ensures !stop(stats) ==> stats'.nodes >= stats.nodes + 1 && stats'.seldepth >= Max(stats.seldepth, ply)
    ensures stats'.nodes >= stats.nodes && stats'.seldepth >= stats.seldepth
    ensures pv != [] ==> pv[0] in g.moves(pos)
    ensures g.result(pos).Some? || depth == 0 ==> pv == []
    ensures NeverStops(stop) ==>
      Line(score, pv) == Negamax(g, pos, depth, ply, eval) && stats'.nodes == stats.nodes + TreeSize(g, pos, depth)
    decreases depth, 1
  {
    pos' := pos;
    if stop(stats) {
      return 0, stats, [], pos';
    }
    stats' := SearchStats(stats.nodes + 1, Max(stats.seldepth, ply));
    pv := [];
    var result := g.result(pos');
    if result.Some? {
      match result.value
      case Win(s) =>
        if s == g.turn(pos') {
          return MATE_SCORE - ply, stats', pv, pos';
        } else {
          return -MATE_SCORE + ply, stats', pv, pos';
        }
      case Draw =>
        return 0, stats', pv, pos';
    }
    if depth == 0 {
      return eval(pos'), stats', pv, pos';
    }
    var ms := LegalMoves(g, pos');
    score, stats', pv, pos' := SearchMoves(g, pos', ms, depth - 1, ply + 1, stats', stop, eval);
  }

  /**
   * The move loop of `minimax_impl`: each move is made, searched one ply deeper with the
   * statistics threaded through, and unmade; the line changes only when a move's negated score
   * is strictly better than the best so far, which starts at `-INF_SCORE`.
   */
  method SearchMoves<P(!new), M(!new)>(g: Game<P, M>, pos: P, ms: seq<M>, depth: nat, ply: nat, stats: SearchStats,
                                        stop: SearchStats -> bool, eval: P -> int)
    returns (best: int, stats': SearchStats, pv: seq<M>, pos': P)
    requires Reversible(g) && g.valid(pos) && ms == g.moves(pos)
    ensures pos' == pos
    ensures stats'.nodes >= stats.nodes && stats'.seldepth >= stats.seldepth
    ensures pv != [] ==> pv[0] in ms
    ensures NeverStops(stop) ==>
      Line(best, pv) == BestOf(g, pos, ms, depth, ply, eval)
      && stats'.nodes == stats.nodes + SumTreeSize(g, pos, ms, depth)
    decreases depth + 1, 0
  {
    best := -INF_SCORE;
    pv := [];
    stats' := stats;
    pos' := pos;
    for k := 0 to |ms|
      invariant pos' == pos
      invariant stats'.nodes >= stats.nodes && stats'.seldepth >= stats.seldepth
      invariant pv != [] ==> pv[0] in ms
      invariant NeverStops(stop) ==>
        Line(best, pv) == BestOf(g, pos, ms[..k], depth, ply, eval)
        && stats'.nodes == stats.nodes + SumTreeSize(g, pos, ms[..k], depth)
    {
      BestOfStep(g, pos, ms, k, depth, ply, eval);
      SumTreeSizeStep(g, pos, ms, k, depth);
      var child := g.make(pos', ms[k]);
      var childScore, childStats, childPv, child' := MinimaxImpl(g, child, depth, ply, stats', stop, eval);
      stats' := childStats;
      pos' := g.undo(child', ms[k]);
      var s := -childScore;
      if s > best {
        best := s;
        pv := [ms[k]] + childPv;
      }
    }
    assert ms[..|ms|] == ms;
  }

  /**
   * `minimax`: searches depths 1..MaxDepth in turn, from ply 0, with the statistics carried
   * across depths, and stops early only when a depth beyond the first ends with the stop policy
   * saying stop. Every completed depth with a non-empty line sets the best move to its first
   * move. With no limit on nodes or time, every depth completes with negamax's score and line.
   */
  method Search<P(!new), M(!new)>(g: Game<P, M>, pos: P, settings: GoSettings, clock: SearchStats -> nat, eval: P -> int)
    returns (bestmove: Option<M>, reports: seq<Report<M>>)
    requires Reversible(g) && g.valid(pos)
    requires TimesInRange(settings)
    ensures |reports| <= Max(MaxDepth(settings), 0)
    ensures InOrder(reports)
    ensures bestmove == LastMove(reports)
    ensures 1 <= MaxDepth(settings) && (ShouldStop(settings, g.turn(pos), 0, 0) || g.result(pos).Some?) ==>
      BestAsWritten(reports).Err?
    ensures BestAsWritten(reports).Ok? ==> BestAsWritten(reports).value == bestmove
    ensures bestmove.Some? ==> bestmove.value in g.moves(pos)
    ensures Unlimited(settings, g.turn(pos)) ==>
      reports == FullReports(g, pos, Max(MaxDepth(settings), 0), eval)
      && bestmove == DeepestBest(g, pos, |reports|, eval)
  {
    var us := g.turn(pos);
    var stop := (s: SearchStats) => ShouldStop(settings, us, s.nodes, clock(s));
    if Unlimited(settings, us) {
      forall s: SearchStats
        ensures !stop(s)
      {
        assert stop(s) == ShouldStop(settings, us, s.nodes, clock(s));
      }
    }
    if ShouldStop(settings, us, 0, 0) {
      StopIsMonotone(settings, us, 0, 0, 0, clock(SearchStats(0, 0)));
      assert stop(SearchStats(0, 0));
    }
    bestmove, reports := Deepen(g, pos, MaxDepth(settings), stop, eval);
  }

  /**
   * The deepening loop of `minimax`: depths 1, 2, ... up to `maxDepth`, each searched from a fresh
   * root with the statistics carried over, stopping after a depth beyond the first that `stop` cut.
   */
  method Deepen<P(!new), M(!new)>(g: Game<P, M>, pos: P, maxDepth: int, stop: SearchStats -> bool, eval: P -> int)
    returns (bestmove: Option<M>, reports: seq<Report<M>>)
    requires Reversible(g) && g.valid(pos)
    ensures |reports| <= Max(maxDepth, 0)
    ensures InOrder(reports)
    ensures 1 <= maxDepth ==> 1 <= |reports|
    ensures 1 <= maxDepth && (stop(SearchStats(0, 0)) || g.result(pos).Some?) ==>
      reports[0].Completed? && reports[0].pv == [] && BestAsWritten(reports).Err?
    ensures BestAsWritten(reports).Ok? ==> BestAsWritten(reports).value == bestmove
    ensures bestmove == LastMove(reports)
    ensures bestmove.Some? ==> bestmove.value in g.moves(pos)
    ensures NeverStops(stop) ==>
      reports == FullReports(g, pos, Max(maxDepth, 0), eval)
      && bestmove == DeepestBest(g, pos, |reports|, eval)
  {
    bestmove := None;
    reports := [];
    var stats := SearchStats(0, 0);
    ghost var never := NeverStops(stop);
    var depth := 1;
    while depth <= maxDepth
      invariant 1 <= depth && |reports| == depth - 1 && depth - 1 <= Max(maxDepth, 0)
      invariant Consecutive(reports)
      invariant bestmove == LastMove(reports)
      invariant depth == 1 ==> stats == SearchStats(0, 0)
      invariant depth > 1 && (stop(SearchStats(0, 0)) || g.result(pos).Some?) ==> reports[0].Completed? && reports[0].pv == []
      invariant bestmove.Some? ==> bestmove.value in g.moves(pos)
      invariant never ==>
        && stats.nodes == NodesThrough(g, pos, depth - 1)
        && reports == FullReports(g, pos, depth - 1, eval)
        && bestmove == DeepestBest(g, pos, depth - 1, eval)
    {
      var stopped;
      stopped, stats, reports, bestmove := DeepenStep(g, pos, depth, stats, stop, eval, reports, bestmove, never);
      if stopped {
        break;
      }
      depth := depth + 1;
    }
    BestAsWrittenIsLastMove(reports);
  }

  /**
   * One depth of the driver: `minimax_impl` from the root with the statistics carried over,
   * then the report. A depth beyond the first that `stop` cut is reported as interrupted and
   * ends the deepening; otherwise the depth is completed and the best move kept. With a search
   * that never stops, the reports are the full ones.
   */
  method DeepenStep<P(!new), M(!new)>(g: Game<P, M>, pos: P, depth: nat, stats: SearchStats, stop: SearchStats -> bool,
                                       eval: P -> int, reports: seq<Report<M>>, bestmove: Option<M>, ghost never: bool)
    returns (stopped: bool, stats': SearchStats, reports': seq<Report<M>>, bestmove': Option<M>)
    requires Reversible(g) && g.valid(pos)
    requires 1 <= depth && |reports| == depth - 1 && Consecutive(reports) && bestmove == LastMove(reports)
    requires bestmove.Some? ==> bestmove.value in g.moves(pos)
    requires never ==> NeverStops(stop)
    requires never ==>
      && stats.nodes == NodesThrough(g, pos, depth - 1)
      && reports == FullReports(g, pos, depth - 1, eval)
      && bestmove == DeepestBest(g, pos, depth - 1, eval)
    ensures |reports'| == depth && bestmove' == LastMove(reports')
    ensures bestmove'.Some? ==> bestmove'.value in g.moves(pos)
    ensures reports'[..depth - 1] == reports
    ensures stopped ==> depth > 1
    ensures !stopped ==> reports'[depth - 1].Completed? && (stop(stats) || g.result(pos).Some? ==> reports'[depth - 1].pv == [])
    ensures stopped ==> !never && InOrder(reports')
    ensures !stopped ==> Consecutive(reports')
    ensures !stopped && never ==>
      && stats'.nodes == NodesThrough(g, pos, depth)
      && reports' == FullReports(g, pos, depth, eval)
      && bestmove' == DeepestBest(g, pos, depth, eval)
  {
    var score, pv, p;
    score, stats', pv, p := MinimaxImpl(g, pos, depth, 0, stats, stop, eval);
    if depth > 1 && stop(stats') {
      RecordInterrupted(reports, bestmove, Interrupted(stats'.nodes, pv));
      return true, stats', reports + [Interrupted(stats'.nodes, pv)], bestmove;
    }
    var r := Completed(depth, score, stats'.nodes, pv);
    RecordCompleted(reports, bestmove, r, g.moves(pos));
    if never {
      FullReportsStep(g, pos, depth, eval, reports, bestmove, stats.nodes, r);
    }
    return false, stats', reports + [r], KeepBest(bestmove, pv);
  }

  /**
   * The reports of a driver that never stops, after depths 1..depth: each depth completed with
   * negamax's score and line and the positions visited so far.
   */
  function FullReports<P(!new), M(!new)>(g: Game<P, M>, pos: P, depth: nat, eval: P -> int): (rs: seq<Report<M>>)
    ensures |rs| == depth
    ensures forall i :: 0 <= i < depth ==> rs[i].Completed? && rs[i].depth == i + 1
  {
    if depth == 0 then []
    else
      var line := Negamax(g, pos, depth, 0, eval);
      FullReports(g, pos, depth - 1, eval) + [Completed(depth, line.score, NodesThrough(g, pos, depth), line.pv)]
  }

  /** The positions a driver that never stops has visited after depths 1..depth. */
  function NodesThrough<P(!new), M(!new)>(g: Game<P, M>, pos: P, depth: nat): nat
  {
    if depth == 0 then 0 else NodesThrough(g, pos, depth - 1) + TreeSize(g, pos, depth)
  }

  /** A completed depth of a driver that never stops extends the full reports by one. */
  lemma FullReportsStep<P(!new), M(!new)>(g: Game<P, M>, pos: P, depth: nat, eval: P -> int,
                                          reports: seq<Report<M>>, bestmove: Option<M>, prevNodes: nat, r: Report<M>)
    requires 1 <= depth
    requires reports == FullReports(g, pos, depth - 1, eval) && bestmove == DeepestBest(g, pos, depth - 1, eval)
    requires prevNodes == NodesThrough(g, pos, depth - 1)
    requires r.Completed? && r.depth == depth && Line(r.score, r.pv) == Negamax(g, pos, depth, 0, eval)
    requires r.nodes == prevNodes + TreeSize(g, pos, depth)
    ensures reports + [r] == FullReports(g, pos, depth, eval)
    ensures r.nodes == NodesThrough(g, pos, depth)
    ensures KeepBest(bestmove, r.pv) == DeepestBest(g, pos, depth, eval)
  {
  }
}
