/**
 * The board field of a FEN, as the `GameRules` defaults read and write it.
 *
 * `set_fen` walks the first space-separated part character by character: digit runs accumulate
 * a (multi-digit) count of empty squares, '/' moves to the start of the rank below, and any
 * other character is handed to the game's `set_piece` at the current square. `get_board_fen`
 * prints the ranks top-down, each square's string or a decimal count of the empty squares
 * before the next piece, with '/' between ranks. A game's pieces and `set_piece` are not part
 * of this module: a walk records the `set_piece` calls it makes, and `set_piece`'s answer
 * ("move to the next square") is a parameter.
 */
module BoardFen {
  import opened Wrappers
  import opened Decimal

  /** One call `set_piece(x, y, c, yee)`. */
  datatype Placement = Placement(x: int, y: int, piece: char, yee: nat)

  /** The walk's variables `x`, `y`, `spaces`, `yee`, and the calls made so far. */
  datatype Cursor = Cursor(x: int, y: int, spaces: int, yee: nat, placed: seq<Placement>)

  /** `set_piece`'s answer: whether the next character goes to the next square. */
  type NextX = (int, int, char, nat) -> bool

  /** The walk starts at the left of the top rank. */
  function Start(height: int): Cursor
  {
    Cursor(0, height - 1, 0, 0, [])
  }

  /** One character of the board field. */
  function Step(cur: Cursor, c: char, nextX: NextX): (r: Cursor)
    ensures !IsDigit(c) && c != '/' ==>
      r.placed == cur.placed + [Placement(cur.x + cur.spaces, cur.y, c, cur.yee)] && r.spaces == 0
    ensures IsDigit(c) || c == '/' ==> r.placed == cur.placed
    ensures c == '/' ==> r.x == 0 && r.y == cur.y - 1 && r.spaces == 0
  {
    if IsDigit(c) then cur.(spaces := 10 * cur.spaces + DigitValue(c))
    else if c == '/' then cur.(spaces := 0, x := 0, y := cur.y - 1)
    else
      var x := cur.x + cur.spaces;
      var placed := cur.placed + [Placement(x, cur.y, c, cur.yee)];
      if nextX(x, cur.y, c, cur.yee) then Cursor(x + 1, cur.y, 0, 0, placed)
      else Cursor(x, cur.y, 0, cur.yee + 1, placed)
  }

  /** The cursor after the characters of `s`, in order. */
  function Walk(cur: Cursor, s: string, nextX: NextX): Cursor
    decreases |s|
  {
    if s == [] then cur else Step(Walk(cur, s[..|s| - 1], nextX), s[|s| - 1], nextX)
  }

  /** `fen.split(' ')`: the parts between single spaces, empty ones included. */
  function SplitSpaces(s: string): (parts: seq<string>)
    ensures |parts| >= 1
    ensures forall i :: 0 <= i < |parts| ==> ' ' !in parts[i]
    decreases |s|
  {
    if ' ' !in s then [s]
    else
      var i := FirstSpace(s);
      [s[..i]] + SplitSpaces(s[i + 1..])
  }

  function FirstSpace(s: string): (i: nat)
    requires ' ' in s
    ensures i < |s| && s[i] == ' ' && ' ' !in s[..i]
  {
    if s[0] == ' ' then 0 else 1 + FirstSpace(s[1..])
  }

  function JoinSpaces(parts: seq<string>): string
    requires |parts| >= 1
  {
    if |parts| == 1 then parts[0] else parts[0] + " " + JoinSpaces(parts[1..])
  }

  /** Splitting on spaces loses nothing: the parts joined with single spaces give back the FEN. */
  lemma {:induction false} SplitSpacesJoin(s: string)
    ensures JoinSpaces(SplitSpaces(s)) == s
    decreases |s|
  {
    if ' ' in s {
      var i := FirstSpace(s);
      var rest := SplitSpaces(s[i + 1..]);
      SplitSpacesJoin(s[i + 1..]);
      assert SplitSpaces(s)[1..] == rest;
      assert JoinSpaces(SplitSpaces(s)) == s[..i] + " " + JoinSpaces(rest);
      assert s == s[..i] + " " + s[i + 1..];
    }
  }

  /** What `set_fen` does with a FEN. */
  datatype FenAction =
    | StartPosition
    | Board(placed: seq<Placement>, fields: seq<string>)

  /**
   * `set_fen`: "startpos" is the start position; otherwise the position is cleared, the first
   * part is walked as the board and each later part goes, numbered from 1, to `parse_fen_part`.
   */
  function SetFen(fen: string, height: int, nextX: NextX): (a: FenAction)
    ensures fen == "startpos" <==> a.StartPosition?
    ensures a.Board? ==>
      var parts := SplitSpaces(fen);
      && a.placed == Walk(Start(height), parts[0], nextX).placed
      && [parts[0]] + a.fields == parts
  {
    if fen == "startpos" then StartPosition
    else
      var parts := SplitSpaces(fen);
      Board(ScanBoard(parts[0], height, nextX), parts[1..])
  }

  /** The board walk of `set_fen`, as the loop over the characters of the board part. */
  method ScanBoardLoop(field: string, height: int, nextX: NextX) returns (placed: seq<Placement>)
    ensures placed == Walk(Start(height), field, nextX).placed
  {
    var cur := Start(height);
    for i := 0 to |field|
      invariant cur == Walk(Start(height), field[..i], nextX)
    {
      assert field[..i + 1][..i] == field[..i];
      var c := field[i];
      if IsDigit(c) {
        cur := cur.(spaces := 10 * cur.spaces + DigitValue(c));
      } else if c == '/' {
        cur := cur.(spaces := 0, x := 0, y := cur.y - 1);
      } else {
        var x := cur.x + cur.spaces;
        var placed := cur.placed + [Placement(x, cur.y, c, cur.yee)];
        if nextX(x, cur.y, c, cur.yee) {
          cur := Cursor(x + 1, cur.y, 0, 0, placed);
        } else {
          cur := Cursor(x, cur.y, 0, cur.yee + 1, placed);
        }
      }
    }
    assert field[..|field|] == field;
    placed := cur.placed;
  }

  function ScanBoard(field: string, height: int, nextX: NextX): seq<Placement>
  {
    Walk(Start(height), field, nextX).placed
  }

  /** A pending count of empty squares, printed only when positive. */
  function Pending(spaces: nat): (s: string)
    ensures AllDigits(s)
    ensures spaces > 0 ==> s != [] && DigitsValue(s) == spaces
    ensures spaces == 0 ==> s == []
  {
    if spaces > 0 then NatToString(spaces) else ""
  }

  /** A rank's text from its cells, with `spaces` empty squares already passed. */
  function RankText(cells: seq<Option<string>>, spaces: nat): string
    decreases |cells|
  {
    if cells == [] then Pending(spaces)
    else if cells[0].None? then RankText(cells[1..], spaces + 1)
    else Pending(spaces) + cells[0].value + RankText(cells[1..], 0)
  }

  /** The cells of rank `y`, files 0 to width - 1, as `get_square_string` gives them. */
  function Row(square: (int, int) -> Option<string>, width: nat, y: int): (cells: seq<Option<string>>)
    ensures |cells| == width
    ensures forall x :: 0 <= x < width ==> cells[x] == square(x, y)
  {
    seq(width, x => square(x, y))
  }

  /** The ranks of the board, top-down: `ranks[i]` is rank `height - 1 - i`. */
  function Ranks(square: (int, int) -> Option<string>, width: nat, height: nat): (ranks: seq<seq<Option<string>>>)
    ensures |ranks| == height
    ensures forall i :: 0 <= i < height ==> ranks[i] == Row(square, width, height - 1 - i)
  {
    seq(height, i => Row(square, width, height - 1 - i))
  }

  /** The texts of the ranks, separated by '/'. */
  function RanksText(ranks: seq<seq<Option<string>>>): string
  {
    if ranks == [] then ""
    else RankText(ranks[0], 0) + (if |ranks| > 1 then "/" + RanksText(ranks[1..]) else "")
  }

  /** `get_board_fen`: all the ranks, top-down. */
  function BoardFenOf(square: (int, int) -> Option<string>, width: nat, height: nat): string
  {
    RanksText(Ranks(square, width, height))
  }

  /** `get_board_fen` as the loop over the ranks, top-down. */
  method GetBoardFen(square: (int, int) -> Option<string>, width: nat, height: nat) returns (fen: string)
    ensures fen == BoardFenOf(square, width, height)
  {
    ghost var ranks := Ranks(square, width, height);
    fen := "";
    var y := height;
    while y > 0
      invariant 0 <= y <= height
      invariant y > 0 ==> fen + RanksText(ranks[height - y..]) == BoardFenOf(square, width, height)
      invariant y == 0 ==> fen == BoardFenOf(square, width, height)
    {
      ghost var before := fen;
      ghost var i := height - y;
      assert ranks[i..][1..] == ranks[i + 1..];
      y := y - 1;
      ghost var rank := RankText(ranks[i], 0);
      assert ranks[i] == Row(square, width, y);
      fen := AppendRank(fen, square, width, y);
      assert fen == before + rank;
      if y > 0 {
        fen := fen + "/";
        assert RanksText(ranks[i..]) == rank + ("/" + RanksText(ranks[i + 1..]));
        AppendAssoc(before, rank, "/" + RanksText(ranks[i + 1..]));
        AppendAssoc(before + rank, "/", RanksText(ranks[i + 1..]));
      } else {
        assert RanksText(ranks[i..]) == rank + "" == rank;
      }
    }
  }

  /** The inner loop of `get_board_fen`: one rank, left to right. */
  method AppendRank(prefix: string, square: (int, int) -> Option<string>, width: nat, y: int) returns (fen: string)
    ensures fen == prefix + RankText(Row(square, width, y), 0)
  {
    ghost var cells := Row(square, width, y);
    fen := prefix;
    var spaces := 0;
    for x := 0 to width
      invariant fen + RankText(cells[x..], spaces) == prefix + RankText(cells, 0)
    {
      assert cells[x..][1..] == cells[x + 1..];
      if square(x, y).Some? {
        if spaces > 0 {
          fen := fen + NatToString(spaces);
          spaces := 0;
        }
        fen := fen + square(x, y).value;
      } else {
        spaces := spaces + 1;
      }
    }
    assert cells[width..] == [];
    if spaces > 0 {
      fen := fen + NatToString(spaces);
    }
  }

  /** A square string `set_piece` reads back as one piece: one character, neither digit nor '/'. */
  predicate IsPieceText(s: string)
  {
    |s| == 1 && !IsDigit(s[0]) && s[0] != '/'
  }

  /** Every occupied square of the board prints as a single piece character. */
  ghost predicate SingleCharPieces(square: (int, int) -> Option<string>, width: nat, height: nat)
  {
    forall x, y :: 0 <= x < width && 0 <= y < height && square(x, y).Some? ==> IsPieceText(square(x, y).value)
  }

  /** Every `set_piece` call moves on to the next square, as in all the games that use the default. */
  ghost predicate AlwaysNext(nextX: NextX)
  {
    forall x, y, c, yee :: nextX(x, y, c, yee)
  }

  /** Every occupied cell prints as a single piece character. */
  predicate PieceCells(cells: seq<Option<string>>)
  {
    forall i :: 0 <= i < |cells| && cells[i].Some? ==> IsPieceText(cells[i].value)
  }

  predicate PieceRanks(ranks: seq<seq<Option<string>>>)
  {
    forall i :: 0 <= i < |ranks| ==> PieceCells(ranks[i])
  }

  lemma RanksPieceCells(square: (int, int) -> Option<string>, width: nat, height: nat)
    requires SingleCharPieces(square, width, height)
    ensures PieceRanks(Ranks(square, width, height))
  {
    var ranks: seq<seq<Option<string>>> := Ranks(square, width, height);
    forall i: int, x: int | 0 <= i < height && 0 <= x < width && ranks[i][x].Some?
      ensures IsPieceText(ranks[i][x].value)
    {
      assert ranks[i][x] == square(x, height - 1 - i);
    }
  }

  /** The occupied cells of `cells[k..]` on rank `y`, left to right, as `set_piece` calls. */
  function Pieces(cells: seq<Option<string>>, k: nat, y: int): (ps: seq<Placement>)
    requires k <= |cells| && PieceCells(cells)
    ensures forall j :: 0 <= j < |ps| ==> k <= ps[j].x < |cells| && ps[j].y == y && ps[j].yee == 0
    decreases |cells| - k
  {
    if k == |cells| then []
    else if cells[k].None? then Pieces(cells, k + 1, y)
    else [Placement(k, y, cells[k].value[0], 0)] + Pieces(cells, k + 1, y)
  }

  /** The occupied squares of the ranks, the first being rank `y`, rank by rank, left to right. */
  function RanksPieces(ranks: seq<seq<Option<string>>>, y: int): seq<Placement>
    requires PieceRanks(ranks)
  {
    if ranks == [] then [] else Pieces(ranks[0], 0, y) + RanksPieces(ranks[1..], y - 1)
  }

  /** The occupied squares of the board, top rank first, each rank left to right. */
  function Occupied(square: (int, int) -> Option<string>, width: nat, height: nat): seq<Placement>
    requires SingleCharPieces(square, width, height)
  {
    RanksPieceCells(square, width, height);
    RanksPieces(Ranks(square, width, height), height - 1)
  }

  /**
   * The board round trip: walking the printed board of single-character pieces calls
   * `set_piece` exactly once per occupied square, with its own character, top rank first.
   */
  lemma SetFenReadsBoardFen(square: (int, int) -> Option<string>, width: nat, height: nat, nextX: NextX)
    requires height > 0 && SingleCharPieces(square, width, height) && AlwaysNext(nextX)
    ensures ScanBoard(BoardFenOf(square, width, height), height, nextX) == Occupied(square, width, height)
  {
    RanksPieceCells(square, width, height);
    WalkRanks(Ranks(square, width, height), Start(height), nextX);
  }

  lemma {:induction false} WalkRanks(ranks: seq<seq<Option<string>>>, cur: Cursor, nextX: NextX)
    requires PieceRanks(ranks) && AlwaysNext(nextX)
    requires cur.x == 0 && cur.spaces == 0 && cur.yee == 0
    ensures Walk(cur, RanksText(ranks), nextX).placed == cur.placed + RanksPieces(ranks, cur.y)
  {
    if ranks != [] {
      var rank := RankText(ranks[0], 0);
      assert ranks[0][0..] == ranks[0];
      WalkRank(ranks[0], 0, 0, cur, nextX);
      var mid := Walk(cur, rank, nextX);
      if |ranks| > 1 {
        var rest := RanksText(ranks[1..]);
        WalkAppend(cur, rank, "/" + rest, nextX);
        WalkSlash(mid, rest, nextX);
        var next := Step(mid, '/', nextX);
        WalkRanks(ranks[1..], next, nextX);
        assert RanksText(ranks) == rank + ("/" + rest);
        assert next.placed == cur.placed + Pieces(ranks[0], 0, cur.y) && next.y == cur.y - 1;
        assert RanksPieces(ranks, cur.y) == Pieces(ranks[0], 0, cur.y) + RanksPieces(ranks[1..], cur.y - 1);
        calc {
          Walk(cur, RanksText(ranks), nextX).placed;
          Walk(next, rest, nextX).placed;
          next.placed + RanksPieces(ranks[1..], next.y);
          (cur.placed + Pieces(ranks[0], 0, cur.y)) + RanksPieces(ranks[1..], cur.y - 1);
          { AppendAssoc(cur.placed, Pieces(ranks[0], 0, cur.y), RanksPieces(ranks[1..], cur.y - 1)); }
          cur.placed + (Pieces(ranks[0], 0, cur.y) + RanksPieces(ranks[1..], cur.y - 1));
        }
      } else {
        assert ranks[1..] == [];
        assert RanksText(ranks) == rank + "" == rank;
        assert RanksPieces(ranks, cur.y) == Pieces(ranks[0], 0, cur.y) + [];
      }
    }
  }

  /** Walking a rank's text from column `k`, with `spaces` empty squares passed, places its pieces. */
  lemma {:induction false} WalkRank(cells: seq<Option<string>>, k: nat, spaces: nat, cur: Cursor, nextX: NextX)
    requires k <= |cells| && spaces <= k && AlwaysNext(nextX) && PieceCells(cells)
    requires cur.x == k - spaces && cur.spaces == 0 && cur.yee == 0
    ensures var r := Walk(cur, RankText(cells[k..], spaces), nextX);
      r.placed == cur.placed + Pieces(cells, k, cur.y) && r.y == cur.y && r.yee == 0
    decreases |cells| - k, 1
  {
    if k == |cells| {
      assert cells[k..] == [];
      WalkDigits(cur, Pending(spaces), nextX);
    } else if cells[k].None? {
      assert cells[k..][1..] == cells[k + 1..];
      WalkRank(cells, k + 1, spaces + 1, cur, nextX);
    } else {
      WalkRankPiece(cells, k, spaces, cur, nextX);
    }
  }

  /** The step of `WalkRank` at an occupied cell. */
  lemma {:induction false} WalkRankPiece(cells: seq<Option<string>>, k: nat, spaces: nat, cur: Cursor, nextX: NextX)
    requires k < |cells| && spaces <= k && AlwaysNext(nextX) && PieceCells(cells) && cells[k].Some?
    requires cur.x == k - spaces && cur.spaces == 0 && cur.yee == 0
    ensures var r := Walk(cur, RankText(cells[k..], spaces), nextX);
      r.placed == cur.placed + Pieces(cells, k, cur.y) && r.y == cur.y && r.yee == 0
    decreases |cells| - k, 0
  {
    assert cells[k..][1..] == cells[k + 1..];
    var piece := cells[k].value;
    var rest := RankText(cells[k + 1..], 0);
    assert RankText(cells[k..], spaces) == (Pending(spaces) + piece) + rest;
    WalkPiece(cur, spaces, piece, nextX);
    var placed := Walk(cur, Pending(spaces) + piece, nextX);
    WalkAppend(cur, Pending(spaces) + piece, rest, nextX);
    WalkRank(cells, k + 1, 0, placed, nextX);
  }

  /** A '/' moves to the start of the rank below. */
  lemma WalkSlash(cur: Cursor, rest: string, nextX: NextX)
    ensures Walk(cur, "/" + rest, nextX) == Walk(Step(cur, '/', nextX), rest, nextX)
  {
    WalkAppend(cur, "/", rest, nextX);
    assert "/"[..0] == [];
  }

  /** The text of one piece after a pending count places it at the counted column. */
  lemma WalkPiece(cur: Cursor, spaces: nat, piece: string, nextX: NextX)
    requires IsPieceText(piece) && AlwaysNext(nextX) && cur.spaces == 0
    ensures Walk(cur, Pending(spaces) + piece, nextX) ==
      Cursor(cur.x + spaces + 1, cur.y, 0, 0, cur.placed + [Placement(cur.x + spaces, cur.y, piece[0], cur.yee)])
  {
    WalkDigits(cur, Pending(spaces), nextX);
    WalkAppend(cur, Pending(spaces), piece, nextX);
    assert piece[..0] == [];
  }

  /** A run of digits only accumulates the count of empty squares. */
  lemma {:induction false} WalkDigits(cur: Cursor, digits: string, nextX: NextX)
    requires AllDigits(digits) && cur.spaces == 0
    ensures Walk(cur, digits, nextX) == cur.(spaces := DigitsValue(digits))
    decreases |digits|
  {
    if digits != [] {
      WalkDigits(cur, digits[..|digits| - 1], nextX);
    }
  }

  /** Walking two texts one after the other is walking their concatenation. */
  lemma {:induction false} WalkAppend(cur: Cursor, a: string, b: string, nextX: NextX)
    ensures Walk(cur, a + b, nextX) == Walk(Walk(cur, a, nextX), b, nextX)
    decreases |b|
  {
    if b == [] {
      assert a + b == a;
    } else {
      assert (a + b)[..|a + b| - 1] == a + b[..|b| - 1];
      WalkAppend(cur, a, b[..|b| - 1], nextX);
    }
  }

  lemma AppendAssoc<T>(a: seq<T>, b: seq<T>, c: seq<T>)
    ensures (a + b) + c == a + (b + c)
  {
  }
}
