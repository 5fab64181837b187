/**
 * What the iterative-deepening drivers share: the depth bound, the reports they hand to the
 * info handler, and how the best move is kept from one completed depth to the next.
 */
module Deepening {
  import opened Wrappers
  import opened GameRules
  import opened Go
  import opened GameTree

  /** `settings.depth.unwrap_or(128)`. */
  function MaxDepth(settings: GoSettings): int
  {
    if settings.depth.Some? then settings.depth.value else 128
  }

  /**
   * One call of the info handler: a completed depth with its score, the node count so far and
   * the line; or an interrupted depth, reported with the node count and the partial line.
   * The elapsed time in both is left out.
   */
  datatype Report<M> = Completed(depth: nat, score: int, nodes: nat, pv: seq<M>) | Interrupted(nodes: nat, pv: seq<M>)

  /**
   * The driver's `bestmove = Some(pv[0])` as written: it indexes the line of a completed depth
   * and so needs that line to be non-empty.
   */
  function RecordBestAsWritten<M>(pv: seq<M>): (best: Option<M>)
    requires pv != []
    ensures best.Some? && best.value in pv
  {
    Some(pv[0])
  }

  /** The corrected update: a completed depth with an empty line keeps the previous best move. */
  function KeepBest<M>(best: Option<M>, pv: seq<M>): (r: Option<M>)
    ensures pv != [] ==> r == RecordBestAsWritten(pv)
    ensures pv == [] ==> r == best
  {
    if pv == [] then best else Some(pv[0])
  }

  /**
   * What the drivers' `bestmove = Some(pv[0])` leaves after the reports, as written: the first
   * move of the last completed line, or `Err` from the first completed depth whose line is
   * empty, where the indexing panics.
   */
  function BestAsWritten<M>(reports: seq<Report<M>>): Result<Option<M>>
  {
    if reports == [] then Ok(None)
    else
      var before := BestAsWritten(reports[..|reports| - 1]);
      var last := reports[|reports| - 1];
      if before.Err? || last.Interrupted? then before
      else if last.pv == [] then Err("index out of bounds")
      else Ok(RecordBestAsWritten(last.pv))
  }

  /** Some completed depth has an empty line. */
  predicate HasEmptyLine<M>(reports: seq<Report<M>>)
  {
    exists i :: 0 <= i < |reports| && reports[i].Completed? && reports[i].pv == []
  }

  /**
   * The drivers as written panic exactly when a completed depth has an empty line; when they
   * do not, they end with the best move `KeepBest` keeps.
   */
  lemma {:induction false} BestAsWrittenIsLastMove<M>(reports: seq<Report<M>>)
    ensures BestAsWritten(reports).Err? <==> HasEmptyLine(reports)
    ensures BestAsWritten(reports).Ok? ==> BestAsWritten(reports).value == LastMove(reports)
  {
    if reports != [] {
      var n := |reports| - 1;
      var init := reports[..n];
      BestAsWrittenIsLastMove(init);
      assert forall i :: 0 <= i < n ==> init[i] == reports[i];
      if HasEmptyLine(init) {
        var i :| 0 <= i < n && init[i].Completed? && init[i].pv == [];
        assert reports[i] == init[i];
      }
      if HasEmptyLine(reports) && !(reports[n].Completed? && reports[n].pv == []) {
        var i :| 0 <= i < |reports| && reports[i].Completed? && reports[i].pv == [];
        assert init[i] == reports[i];
      }
    }
  }

  /** Every report is a completed depth, the i-th of depth i + 1. */
  predicate Consecutive<M>(reports: seq<Report<M>>)
  {
    forall i :: 0 <= i < |reports| ==> reports[i].Completed? && reports[i].depth == i + 1
  }

  /**
   * The reports a driver hands out: completed depths 1, 2, ... in order, possibly followed by
   * one interrupted depth, which is never the first.
   */
  predicate InOrder<M>(reports: seq<Report<M>>)
  {
    Consecutive(reports)
    || (|reports| >= 2 && Consecutive(reports[..|reports| - 1]) && reports[|reports| - 1].Interrupted?)
  }

  lemma ConsecutiveAppend<M>(reports: seq<Report<M>>, r: Report<M>)
    requires Consecutive(reports)
    ensures r.Completed? && r.depth == |reports| + 1 ==> Consecutive(reports + [r])
    ensures r.Interrupted? && |reports| >= 1 ==> InOrder(reports + [r])
  {
    assert (reports + [r])[..|reports|] == reports;
  }

  /** The best move after the reports: the first move of the last completed non-empty line. */
  function LastMove<M>(reports: seq<Report<M>>): (r: Option<M>)
    ensures r.Some? ==>
      exists i :: 0 <= i < |reports| && reports[i].Completed? && reports[i].pv != [] && r.value == reports[i].pv[0]
  {
    if reports == [] then None
    else
      var last := reports[|reports| - 1];
      if last.Completed? then KeepBest(LastMove(reports[..|reports| - 1]), last.pv)
      else LastMove(reports[..|reports| - 1])
  }

  /** The best move a driver that never stops ends with after depths 1..depth. */
  function DeepestBest<P(!new), M(!new)>(g: Game<P, M>, p: P, depth: nat, eval: P -> int): Option<M>
  {
    if depth == 0 then None
    else KeepBest(DeepestBest(g, p, depth - 1, eval), Negamax(g, p, depth, 0, eval).pv)
  }

  /** The deepest best move is one of the generated moves, found at some depth's principal variation. */
  lemma {:induction false} DeepestBestIsLegal<P(!new), M(!new)>(g: Game<P, M>, p: P, depth: nat, eval: P -> int)
    ensures var r := DeepestBest(g, p, depth, eval);
      r.Some? ==>
        && r.value in g.moves(p)
        && exists d :: 1 <= d <= depth && Negamax(g, p, d, 0, eval).pv != [] && r.value == Negamax(g, p, d, 0, eval).pv[0]
  {
    if depth > 0 {
      DeepestBestIsLegal(g, p, depth - 1, eval);
      NegamaxFirstMove(g, p, depth, 0, eval);
    }
  }

  /** Appending a report: a completed one updates the best move, an interrupted one leaves it. */
  lemma LastMoveAppend<M>(reports: seq<Report<M>>, r: Report<M>)
    ensures LastMove(reports + [r]) == if r.Completed? then KeepBest(LastMove(reports), r.pv) else LastMove(reports)
  {
    assert (reports + [r])[..|reports|] == reports;
  }

  /** The score and line of each report. */
  function LinesOf<M>(reports: seq<Report<M>>): (ls: seq<Line<M>>)
    requires Consecutive(reports)
    ensures |ls| == |reports|
  {
    if reports == [] then []
    else
      var last := reports[|reports| - 1];
      LinesOf(reports[..|reports| - 1]) + [Line(last.score, last.pv)]
  }

  /** Negamax's score and line at depths 1..depth, from the root. */
  function NegamaxLines<P(!new), M(!new)>(g: Game<P, M>, p: P, depth: nat, eval: P -> int): (ls: seq<Line<M>>)
    ensures |ls| == depth
  {
    if depth == 0 then [] else NegamaxLines(g, p, depth - 1, eval) + [Negamax(g, p, depth, 0, eval)]
  }

  lemma LinesOfAppend<M>(reports: seq<Report<M>>, r: Report<M>)
    requires Consecutive(reports) && r.Completed? && r.depth == |reports| + 1
    ensures Consecutive(reports + [r])
    ensures LinesOf(reports + [r]) == LinesOf(reports) + [Line(r.score, r.pv)]
  {
    ConsecutiveAppend(reports, r);
    assert (reports + [r])[..|reports|] == reports;
  }

  /** A completed depth that found negamax's line extends the negamax lines and the deepest best move by one depth. */
  lemma ExactStep<P(!new), M(!new)>(g: Game<P, M>, p: P, depth: nat, eval: P -> int,
                                    reports: seq<Report<M>>, bestmove: Option<M>, r: Report<M>)
    requires 1 <= depth && Consecutive(reports) && |reports| == depth - 1
    requires LinesOf(reports) == NegamaxLines(g, p, depth - 1, eval) && bestmove == DeepestBest(g, p, depth - 1, eval)
    requires r.Completed? && r.depth == depth && Line(r.score, r.pv) == Negamax(g, p, depth, 0, eval)
    ensures LinesOf(reports + [r]) == NegamaxLines(g, p, depth, eval)
    ensures KeepBest(bestmove, r.pv) == DeepestBest(g, p, depth, eval)
  {
    LinesOfAppend(reports, r);
  }

  /** Recording a completed depth: the reports stay consecutive and the best move follows `KeepBest`. */
  lemma RecordCompleted<M>(reports: seq<Report<M>>, bestmove: Option<M>, r: Report<M>, legal: seq<M>)
    requires Consecutive(reports) && bestmove == LastMove(reports)
    requires r.Completed? && r.depth == |reports| + 1
    requires bestmove.Some? ==> bestmove.value in legal
    requires r.pv != [] ==> r.pv[0] in legal
    ensures Consecutive(reports + [r])
    ensures LastMove(reports + [r]) == KeepBest(bestmove, r.pv)
    ensures KeepBest(bestmove, r.pv).Some? ==> KeepBest(bestmove, r.pv).value in legal
  {
    ConsecutiveAppend(reports, r);
    LastMoveAppend(reports, r);
  }

  /** Recording an interrupted depth after a completed one: the reports are in order, the best move unchanged. */
  lemma RecordInterrupted<M>(reports: seq<Report<M>>, bestmove: Option<M>, r: Report<M>)
    requires Consecutive(reports) && |reports| >= 1 && bestmove == LastMove(reports)
    requires r.Interrupted?
    ensures InOrder(reports + [r])
    ensures LastMove(reports + [r]) == bestmove
  {
    ConsecutiveAppend(reports, r);
    LastMoveAppend(reports, r);
  }
}
