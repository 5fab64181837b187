/**
 * The `position` command's board part: "startpos", or "fen" followed by the FEN's words up to
 * (not including) the word "moves", which stays in the stream for the caller.
 */
module PositionCommand {
  import opened Wrappers
  import opened Words

  const Failure := "Uh oh"

  /** The index of the first "moves" at or after `i`, or the end of the words. */
  function FenEnd(words: seq<string>, i: nat): (e: nat)
    requires i <= |words|
    ensures i <= e <= |words|
    ensures forall k :: i <= k < e ==> words[k] != "moves"
    ensures e < |words| ==> words[e] == "moves"
    decreases |words| - i
  {
    if i == |words| || words[i] == "moves" then i else FenEnd(words, i + 1)
  }

  /**
   * `parse`: the result and the index of the first word left in the stream. The first word
   * is always consumed. The words come from the whitespace splitter, so none is empty.
   */
  method Parse(words: seq<string>) returns (r: Result<string>, next: nat)
    requires forall k :: 0 <= k < |words| ==> IsWord(words[k])
    ensures next <= |words|
    ensures words == [] ==> r == Err(Failure) && next == 0
    ensures words != [] && words[0] == "startpos" ==> r == Ok("startpos") && next == 1
    ensures words != [] && words[0] != "startpos" && words[0] != "fen" ==> r == Err(Failure) && next == 1
    ensures words != [] && words[0] == "fen" ==>
      next == FenEnd(words, 1)
      && r == (if next == 1 then Err(Failure) else Ok(JoinWords(words[1..next])))
  {
    if words == [] {
      return Err(Failure), 0;
    }
    if words[0] == "startpos" {
      return Ok("startpos"), 1;
    }
    if words[0] != "fen" {
      return Err(Failure), 1;
    }
    var fen := "";
    next := 1;
    while next < |words| && words[next] != "moves"
      invariant 1 <= next <= |words|
      invariant FenEnd(words, 1) == FenEnd(words, next)
      invariant fen == JoinWords(words[1..next])
      invariant fen == "" <==> next == 1
      decreases |words| - next
    {
      JoinAppend(words[1..next], words[next]);
      assert words[1..next + 1] == words[1..next] + [words[next]];
      if fen != "" {
        fen := fen + " ";
      }
      fen := fen + words[next];
      next := next + 1;
    }
    if fen == "" {
      return Err(Failure), next;
    }
    return Ok(fen), next;
  }

  /** Appending a word to a non-empty join adds one space and the word. */
  lemma JoinAppend(ws: seq<string>, w: string)
    requires w != ""
    ensures JoinWords(ws + [w]) == if ws == [] then w else JoinWords(ws) + " " + w
    ensures JoinWords(ws + [w]) != ""
  {
    var ws' := ws + [w];
    if |ws| > 1 {
      assert ws'[1..] == ws[1..] + [w];
      JoinAppend(ws[1..], w);
      calc {
        JoinWords(ws');
        ws[0] + " " + JoinWords(ws[1..] + [w]);
        ws[0] + " " + (JoinWords(ws[1..]) + " " + w);
        (ws[0] + " " + JoinWords(ws[1..])) + " " + w;
      }
    } else if |ws| == 1 {
      assert ws'[1..] == [w];
    }
  }
}
