/**
 * The `GameRules` contract every game implements, and its default methods.
 *
 * A game is a value of type `Game<P, M>`: the functions a Rust implementation of the trait
 * supplies, over positions `P` and moves `M`. The move generator becomes `moves`, the list of
 * moves in the order the generator produces them. `makemove`/`undomove` become `make`/`undo`
 * returning the new position. `valid` is the set of positions the game can reach, on which
 * `undo` must reverse `make`.
 */
module GameRules {
  import opened Wrappers

  datatype Side = Player1 | Player2

  function Flip(s: Side): (r: Side)
    ensures r != s
  {
    if s == Player1 then Player2 else Player1
  }

  datatype GameResult = Win(winner: Side) | Draw

  datatype Game<!P(!new), !M(!new)> = Game(
    moves: P -> seq<M>,
    countMoves: P -> nat,
    make: (P, M) -> P,
    undo: (P, M) -> P,
    result: P -> Option<GameResult>,
    gameover: P -> bool,
    turn: P -> Side,
    valid: P -> bool)

  /** `undomove` reverses `makemove` for every generated move of a valid position, which stays valid. */
  ghost predicate Reversible<P(!new), M(!new)>(g: Game<P, M>)
  {
    forall p, m :: g.valid(p) && m in g.moves(p) ==>
      g.valid(g.make(p, m)) && g.undo(g.make(p, m), m) == p
  }

  /** The game's `count_moves` agrees with its generator. */
  ghost predicate CountsAgree<P(!new), M(!new)>(g: Game<P, M>)
  {
    forall p :: g.valid(p) ==> g.countMoves(p) == |g.moves(p)|
  }

  /** The game's `is_gameover` agrees with `get_result().is_some()`. */
  ghost predicate GameoverAgrees<P(!new), M(!new)>(g: Game<P, M>)
  {
    forall p :: g.valid(p) ==> (g.gameover(p) <==> g.result(p).Some?)
  }

  /** Default `is_gameover`: the game is over exactly when it has a result. */
  function DefaultGameover<P(!new), M(!new)>(g: Game<P, M>, p: P): (over: bool)
    ensures over <==> g.result(p).Some?
  {
    g.result(p).Some?
  }

  /** Default `legal_moves`: collect what the generator yields, in order. */
  method LegalMoves<P(!new), M(!new)>(g: Game<P, M>, p: P) returns (ms: seq<M>)
    ensures ms == g.moves(p)
  {
    var generated := g.moves(p);
    ms := [];
    for i := 0 to |generated|
      invariant ms == generated[..i]
    {
      ms := ms + [generated[i]];
    }
  }

  /** Default `count_moves`: count what the generator yields. */
  method DefaultCountMoves<P(!new), M(!new)>(g: Game<P, M>, p: P) returns (n: nat)
    ensures n == |g.moves(p)|
  {
    var generated := g.moves(p);
    n := 0;
    for i := 0 to |generated|
      invariant n == i
    {
      n := n + 1;
    }
  }

  /**
   * What `perft` computes: 1 at depth 0, the game's `count_moves` at depth 1, and below that
   * the sum over the generated moves of the children's counts.
   */
  function PerftCount<P(!new), M(!new)>(g: Game<P, M>, p: P, depth: nat): nat
    decreases depth, 1
  {
    if depth == 0 then 1
    else if depth == 1 then g.countMoves(p)
    else SumPerft(g, p, g.moves(p), depth - 1)
  }

  /** The sum of `PerftCount(make(p, m), depth)` over the moves `ms`. */
  function SumPerft<P(!new), M(!new)>(g: Game<P, M>, p: P, ms: seq<M>, depth: nat): nat
    decreases depth + 1, 0, |ms|
  {
    if ms == [] then 0
    else SumPerft(g, p, ms[..|ms| - 1], depth) + PerftCount(g, g.make(p, ms[|ms| - 1]), depth)
  }

  /** A prefix one longer is the prefix and the next element. */
  lemma TakeSnoc<T>(s: seq<T>, i: nat)
    requires i < |s|
    ensures s[..i + 1] == s[..i] + [s[i]]
  {
  }

  /** The prefix as long as the sequence is the sequence. */
  lemma TakeFull<T>(s: seq<T>)
    ensures s[..|s|] == s
  {
  }

  lemma AppendAssoc<T>(a: seq<T>, b: seq<T>, c: seq<T>)
    ensures (a + b) + c == a + (b + c)
  {
  }

  /** An element of a non-empty sequence is in the part before the last element or is the last. */
  lemma InInitOrLast<T>(s: seq<T>, x: T)
    requires s != []
    ensures x in s <==> x in s[..|s| - 1] || x == s[|s| - 1]
  {
    assert s == s[..|s| - 1] + [s[|s| - 1]];
  }

  /** e * (e - 1) * ... * (e - d + 1): the number of ways to fill d of e empty squares in order. */
  function Falling(e: int, d: nat): nat
  {
    if d == 0 then 1 else if e <= 0 then 0 else e * Falling(e - 1, d - 1)
  }

  lemma MulSucc(a: nat, f: nat)
    ensures a * f + f == (a + 1) * f
  {
  }

  /** Every move keeps the position valid and takes exactly one move away, as filling an empty square does. */
  ghost predicate FillsOne<P(!new), M(!new)>(g: Game<P, M>)
  {
    forall p, m :: g.valid(p) && m in g.moves(p) ==>
      g.valid(g.make(p, m)) && g.countMoves(g.make(p, m)) + 1 == g.countMoves(p)
  }

  /** In a game where every move fills one square and nothing ends early, perft is e (e-1) ... (e-d+1). */
  lemma {:induction false} FillingPerft<P(!new), M(!new)>(g: Game<P, M>, p: P, d: nat)
    requires FillsOne(g) && CountsAgree(g) && g.valid(p)
    ensures PerftCount(g, p, d) == Falling(g.countMoves(p), d)
    decreases d, 1
  {
    if d > 1 {
      var e := g.countMoves(p);
      FillingSumPerft(g, p, g.moves(p), d - 1);
      assert e * Falling(e - 1, d - 1) == Falling(e, d);
    }
  }

  lemma {:induction false} FillingSumPerft<P(!new), M(!new)>(g: Game<P, M>, p: P, ms: seq<M>, d: nat)
    requires FillsOne(g) && CountsAgree(g) && g.valid(p)
    requires forall i :: 0 <= i < |ms| ==> ms[i] in g.moves(p)
    ensures SumPerft(g, p, ms, d) == |ms| * Falling(g.countMoves(p) - 1, d)
    decreases d + 1, 0, |ms|
  {
    if ms != [] {
      var rest, last := ms[..|ms| - 1], ms[|ms| - 1];
      FillingSumPerft(g, p, rest, d);
      FillingPerft(g, g.make(p, last), d);
      MulSucc(|rest|, Falling(g.countMoves(p) - 1, d));
    }
  }

  /** The number of move sequences of length `depth` from `p`: the reference meaning of perft. */
  function Leaves<P(!new), M(!new)>(g: Game<P, M>, p: P, depth: nat): nat
    decreases depth, 1
  {
    if depth == 0 then 1 else SumLeaves(g, p, g.moves(p), depth - 1)
  }

  function SumLeaves<P(!new), M(!new)>(g: Game<P, M>, p: P, ms: seq<M>, depth: nat): nat
    decreases depth + 1, 0, |ms|
  {
    if ms == [] then 0
    else SumLeaves(g, p, ms[..|ms| - 1], depth) + Leaves(g, g.make(p, ms[|ms| - 1]), depth)
  }

  lemma SumLeavesOfLeaves<P(!new), M(!new)>(g: Game<P, M>, p: P, ms: seq<M>)
    ensures SumLeaves(g, p, ms, 0) == |ms|
  {
    if ms != [] {
      SumLeavesOfLeaves(g, p, ms[..|ms| - 1]);
    }
  }

  /** With a `count_moves` that agrees with the generator, perft counts the leaves of the game tree. */
  lemma {:induction false} PerftIsLeaves<P(!new), M(!new)>(g: Game<P, M>, p: P, depth: nat)
    requires Reversible(g) && CountsAgree(g) && g.valid(p)
    ensures PerftCount(g, p, depth) == Leaves(g, p, depth)
    decreases depth, 1
  {
    if depth == 1 {
      SumLeavesOfLeaves(g, p, g.moves(p));
    } else if depth > 1 {
      SumPerftIsSumLeaves(g, p, g.moves(p), depth - 1);
    }
  }

  lemma {:induction false} SumPerftIsSumLeaves<P(!new), M(!new)>(g: Game<P, M>, p: P, ms: seq<M>, depth: nat)
    requires Reversible(g) && CountsAgree(g) && g.valid(p)
    requires forall m :: m in ms ==> m in g.moves(p)
    ensures SumPerft(g, p, ms, depth) == SumLeaves(g, p, ms, depth)
    decreases depth + 1, 0, |ms|
  {
    if ms != [] {
      var last := ms[|ms| - 1];
      SumPerftIsSumLeaves(g, p, ms[..|ms| - 1], depth);
      PerftIsLeaves(g, g.make(p, last), depth);
    }
  }

  /**
   * Default `perft`: the in-place search. Each child is reached by `make` and left by `undo`,
   * so the position comes back unchanged and the count is `PerftCount`.
   */
  method Perft<P(!new), M(!new)>(g: Game<P, M>, pos: P, depth: nat) returns (nodes: nat, pos': P)
    requires Reversible(g) && g.valid(pos)
    ensures nodes == PerftCount(g, pos, depth)
    ensures pos' == pos
    decreases depth
  {
    if depth == 0 {
      return 1, pos;
    }
    if depth == 1 {
      return g.countMoves(pos), pos;
    }
    var ms := LegalMoves(g, pos);
    nodes := 0;
    pos' := pos;
    for i := 0 to |ms|
      invariant pos' == pos
      invariant nodes == SumPerft(g, pos, ms[..i], depth - 1)
    {
      assert ms[..i + 1][..i] == ms[..i];
      var child := g.make(pos', ms[i]);
      var n, child' := Perft(g, child, depth - 1);
      nodes := nodes + n;
      pos' := g.undo(child', ms[i]);
    }
    assert ms[..|ms|] == ms;
  }
}
