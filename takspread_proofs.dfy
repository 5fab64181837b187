/**
 * Facts about the spread make/undo pair of `TakSpread`.
 *
 * - The drop loop of `makemove` leaves every square outside the run it walks (from the square
 *   after `sq` to its last square) unchanged (`MakeLoopKeeps`).
 * - For a spread that drops one group on the next square, the pick-up loop of `undomove` takes
 *   back exactly what was dropped there and returns to the same cursor (`OneGroupRoundTrip`).
 * - The pick-up loop as written shifts the u8 spread by the whole group when eight stones land
 *   on one square, which overflows (`UndoSpreadAsWrittenFailsOnEight`); wherever it does not,
 *   the corrected `undomove` gives the same position (`UndoSpreadExtends`).
 */
module TakSpreadProofs {
  import opened Wrappers
  import opened GameRules
  import opened Bits
  import opened Bitboards
  import opened Tak
  import opened TakSpread

  // ---------------------------------------------------------------------------------------
  // The drop loop

  /** One stone of the drop loop that goes through: where it lands and what it changes in the stacks. */
  lemma MakeStepValue(s: MakeState, d: Dir)
    requires Shaped(s.p) && MakeStep(s, d).Some?
    ensures var x := if s.spread[0] then s.x + DX(d) else s.x;
      var y := if s.spread[0] then s.y + DY(d) else s.y;
      && OnBoard(s.p.size, x, y)
      && var i := Idx(s.p.size, x, y);
      && s.p.stacks[i].height < 64
      && var t := MakeStep(s, d).value;
      && t.p.stacks == s.p.stacks[i := PilePush(s.p.stacks[i], s.toMove[0])]
      && t.x == x && t.y == y && t.toMove == Shr(s.toMove, 1) && t.spread == ShrByte(s.spread, 1)
  {
  }

  /** One stone of the drop loop goes through when the square it lands on is on the board and not full. */
  lemma MakeStepSome(s: MakeState, d: Dir)
    requires Shaped(s.p)
    ensures var x := if s.spread[0] then s.x + DX(d) else s.x;
      var y := if s.spread[0] then s.y + DY(d) else s.y;
      MakeStep(s, d).Some? <==> OnBoard(s.p.size, x, y) && s.p.stacks[Idx(s.p.size, x, y)].height < 64
  {
  }

  /** One stone of the drop loop, as a whole new loop state. */
  lemma MakeStepIs(s: MakeState, d: Dir)
    requires Shaped(s.p) && MakeStep(s, d).Some?
    ensures var x := if s.spread[0] then s.x + DX(d) else s.x;
      var y := if s.spread[0] then s.y + DY(d) else s.y;
      && OnBoard(s.p.size, x, y)
      && var i := Idx(s.p.size, x, y);
      && s.p.stacks[i].height < 64
      && MakeStep(s, d).value == MakeState(DropStone(s.p, i, s.toMove[0]), x, y, Shr(s.toMove, 1), ShrByte(s.spread, 1))
  {
  }

  /** The first iteration of the drop loop, then the others. */
  lemma MakeLoopHead(s: MakeState, d: Dir, k: nat)
    requires Shaped(s.p) && k > 0 && MakeLoop(s, d, k).Some?
    ensures MakeStep(s, d).Some? && MakeLoop(s, d, k) == MakeLoop(MakeStep(s, d).value, d, k - 1)
  {
  }

  lemma ShrZero(w: Word)
    ensures Shr(w, 0) == w
  {
  }

  lemma ShrByteZero(b: Byte)
    ensures ShrByte(b, 0) == b
  {
  }

  /** Stones dropped without a step all land on the cursor's square, one on top of the other. */
  lemma {:induction false} RunPushes(s: MakeState, d: Dir, m: nat)
    requires Shaped(s.p) && OnBoard(s.p.size, s.x, s.y) && m < 8
    requires forall j :: 0 <= j < m ==> !s.spread[j]
    requires MakeLoop(s, d, m).Some?
    ensures var i := Idx(s.p.size, s.x, s.y);
      var t := MakeLoop(s, d, m).value;
      && s.p.stacks[i].height + m <= 64
      && t.p.stacks == s.p.stacks[i := PushMany(s.p.stacks[i], s.toMove, m)]
      && t.x == s.x && t.y == s.y && t.toMove == Shr(s.toMove, m) && t.spread == ShrByte(s.spread, m)
    decreases m
  {
    if m == 0 {
      ShrZero(s.toMove);
      ShrByteZero(s.spread);
      assert s.p.stacks[Idx(s.p.size, s.x, s.y) := s.p.stacks[Idx(s.p.size, s.x, s.y)]] == s.p.stacks;
    } else {
      MakeLoopHead(s, d, m);
      MakeStepValue(s, d);
      var s' := MakeStep(s, d).value;
      var i := Idx(s.p.size, s.x, s.y);
      var orig := s.p.stacks[i];
      var w := s.toMove;
      assert s'.p.stacks == s.p.stacks[i := PilePush(orig, w[0])];
      RunPushes(s', d, m - 1);
      assert PushMany(orig, w, m) == PushMany(PilePush(orig, w[0]), Shr(w, 1), m - 1);
      assert s.p.stacks[i := PilePush(orig, w[0])][i := PushMany(orig, w, m)] == s.p.stacks[i := PushMany(orig, w, m)];
      ShrShr(w, 1, m - 1);
      ShrByteShr(s.spread, 1, m - 1);
    }
  }

  /**
   * A group of `c` stones: the first steps to the next square, the other `c - 1` drop there
   * too; together they are pushed on that square's stack.
   */
  lemma GroupStep(s: MakeState, d: Dir, c: nat)
    requires Shaped(s.p) && 1 <= c <= 8 && s.spread[0]
    requires forall j :: 1 <= j < c ==> !s.spread[j]
    requires MakeLoop(s, d, c).Some?
    ensures OnBoard(s.p.size, s.x + DX(d), s.y + DY(d))
    ensures var i := Idx(s.p.size, s.x + DX(d), s.y + DY(d));
      var t := MakeLoop(s, d, c).value;
      && s.p.stacks[i].height + c <= 64
      && t.p.stacks == s.p.stacks[i := PushMany(s.p.stacks[i], s.toMove, c)]
      && t.x == s.x + DX(d) && t.y == s.y + DY(d) && t.toMove == Shr(s.toMove, c) && t.spread == ShrByte(s.spread, c)
  {
    MakeLoopHead(s, d, c);
    MakeStepValue(s, d);
    var s' := MakeStep(s, d).value;
    var i := Idx(s.p.size, s.x + DX(d), s.y + DY(d));
    var orig := s.p.stacks[i];
    var w := s.toMove;
    assert s'.p.stacks == s.p.stacks[i := PilePush(orig, w[0])];
    RunPushes(s', d, c - 1);
    assert PushMany(orig, w, c) == PushMany(PilePush(orig, w[0]), Shr(w, 1), c - 1);
    assert s.p.stacks[i := PilePush(orig, w[0])][i := PushMany(orig, w, c)] == s.p.stacks[i := PushMany(orig, w, c)];
    ShrShr(w, 1, c - 1);
    ShrByteShr(s.spread, 1, c - 1);
  }

  /** An on-board square's index is `i` exactly when the square is `i`'s file and rank. */
  lemma IdxCoords(n: nat, x: int, y: int, i: nat)
    requires SizeOk(n) && OnBoard(n, x, y) && i < n * n
    ensures OnBoard(n, i % n, i / n) && i == Idx(n, i % n, i / n)
    ensures i == Idx(n, x, y) <==> i % n == x && i / n == y
  {
    SizeDims(n);
    var a, b := i % n, i / n;
    SqOf(n, n, i);
    assert i == Sq(n, a, b);
    if i == Idx(n, x, y) {
      SqUnique(n, x, y, a, b);
    }
  }

  /** The square the next stone drops on is within reach, and what is within reach only shrinks. */
  lemma ReachShrinks(s: MakeState, d: Dir, s': MakeState, a: int, b: int)
    requires s'.x == (if s.spread[0] then s.x + DX(d) else s.x) && s'.y == (if s.spread[0] then s.y + DY(d) else s.y)
    ensures Reach(s, d, s'.x, s'.y)
    ensures Reach(s', d, a, b) ==> Reach(s, d, a, b)
  {
  }

  /** The loop state with the stack on `i` replaced. */
  function WithStack(s: MakeState, i: nat, pile: Pile): MakeState
    requires i < |s.p.stacks|
  {
    s.(p := s.p.(stacks := s.p.stacks[i := pile]))
  }

  lemma WithStackShaped(s: MakeState, i: nat, pile: Pile)
    requires Shaped(s.p) && i < |s.p.stacks| && pile.height <= 64
    ensures Shaped(WithStack(s, i, pile).p)
  {
    var w := WithStack(s, i, pile);
    forall j | 0 <= j < |w.p.stacks|
      ensures w.p.stacks[j].height <= 64
    {
      if j != i {
        assert w.p.stacks[j] == s.p.stacks[j];
      }
    }
  }

  /** Dropping a stone on `j` and replacing the stack on another square `i` commute. */
  lemma DropStoneOther(p: Position, j: nat, b: bool, i: nat, pile: Pile)
    requires j < |p.stacks| && j < 64 && p.stacks[j].height < 64 && i < |p.stacks| && i != j
    ensures DropStone(p.(stacks := p.stacks[i := pile]), j, b)
      == DropStone(p, j, b).(stacks := DropStone(p, j, b).stacks[i := pile])
  {
    assert p.stacks[i := pile][j := PilePush(p.stacks[j], b)] == p.stacks[j := PilePush(p.stacks[j], b)][i := pile];
  }

  /** Two on-board squares have the same index exactly when they are the same square. */
  lemma IdxEq(n: nat, a: int, b: int, x: int, y: int)
    requires SizeOk(n) && OnBoard(n, a, b) && OnBoard(n, x, y)
    ensures Idx(n, a, b) == Idx(n, x, y) <==> a == x && b == y
  {
    SizeDims(n);
    if Idx(n, a, b) == Idx(n, x, y) {
      SqUnique(n, a, b, x, y);
    }
  }

  /** A square out of reach is not the square the next stone drops on. */
  lemma OutOfReach(s: MakeState, d: Dir, a: int, b: int)
    requires SizeOk(s.p.size) && OnBoard(s.p.size, a, b)
    requires !Reach(s, d, a, b)
    ensures var x := if s.spread[0] then s.x + DX(d) else s.x;
      var y := if s.spread[0] then s.y + DY(d) else s.y;
      OnBoard(s.p.size, x, y) ==> Idx(s.p.size, a, b) != Idx(s.p.size, x, y)
  {
    var x := if s.spread[0] then s.x + DX(d) else s.x;
    var y := if s.spread[0] then s.y + DY(d) else s.y;
    if OnBoard(s.p.size, x, y) {
      ReachShrinks(s, d, MakeState(s.p, x, y, s.toMove, s.spread), a, b);
      IdxEq(s.p.size, a, b, x, y);
    }
  }

  /** One stone of the drop loop, with the stack on a square (a, b) out of reach replaced before or after. */
  lemma StepOther(s: MakeState, d: Dir, a: int, b: int, i: nat, pile: Pile)
    requires Shaped(s.p) && OnBoard(s.p.size, a, b) && i == Idx(s.p.size, a, b) && pile.height <= 64
    requires !Reach(s, d, a, b)
    ensures Shaped(WithStack(s, i, pile).p)
    ensures MakeStep(WithStack(s, i, pile), d).Some? == MakeStep(s, d).Some?
    ensures MakeStep(s, d).Some? ==>
      && MakeStep(WithStack(s, i, pile), d).value == WithStack(MakeStep(s, d).value, i, pile)
      && !Reach(MakeStep(s, d).value, d, a, b)
  {
    WithStackShaped(s, i, pile);
    OutOfReach(s, d, a, b);
    var w := WithStack(s, i, pile);
    var n := s.p.size;
    var x := if s.spread[0] then s.x + DX(d) else s.x;
    var y := if s.spread[0] then s.y + DY(d) else s.y;
    MakeStepSome(s, d);
    MakeStepSome(w, d);
    if OnBoard(n, x, y) {
      var j := Idx(n, x, y);
      assert w.p.stacks[j] == s.p.stacks[j];
    }
    if MakeStep(s, d).Some? {
      MakeStepIs(s, d);
      MakeStepIs(w, d);
      var s' := MakeStep(s, d).value;
      ReachShrinks(s, d, s', a, b);
      DropStoneOther(s.p, Idx(n, x, y), s.toMove[0], i, pile);
    }
  }

  /**
   * The drop loop never looks at a square out of its reach: replacing the stack there before
   * the loop or after it comes to the same.
   */
  lemma {:induction false} MakeLoopOther(s: MakeState, d: Dir, k: nat, a: int, b: int, i: nat, pile: Pile)
    requires Shaped(s.p) && OnBoard(s.p.size, a, b) && i == Idx(s.p.size, a, b) && pile.height <= 64
    requires !Reach(s, d, a, b)
    ensures Shaped(WithStack(s, i, pile).p)
    ensures MakeLoop(WithStack(s, i, pile), d, k).Some? == MakeLoop(s, d, k).Some?
    ensures MakeLoop(s, d, k).Some? ==> MakeLoop(WithStack(s, i, pile), d, k).value == WithStack(MakeLoop(s, d, k).value, i, pile)
    decreases k
  {
    StepOther(s, d, a, b, i, pile);
    if k > 0 && MakeStep(s, d).Some? {
      MakeLoopOther(MakeStep(s, d).value, d, k - 1, a, b, i, pile);
    }
  }

  /** The drop loop leaves a square out of its reach as it was. */
  lemma MakeLoopKeeps(s: MakeState, d: Dir, k: nat, a: int, b: int, i: nat)
    requires Shaped(s.p) && OnBoard(s.p.size, a, b) && i == Idx(s.p.size, a, b)
    requires !Reach(s, d, a, b)
    requires MakeLoop(s, d, k).Some?
    ensures MakeLoop(s, d, k).value.p.stacks[i] == s.p.stacks[i]
  {
    var t := MakeLoop(s, d, k).value;
    MakeLoopOther(s, d, k, a, b, i, s.p.stacks[i]);
    assert WithStack(s, i, s.p.stacks[i]) == s;
    assert t == WithStack(t, i, s.p.stacks[i]);
  }

  // ---------------------------------------------------------------------------------------
  // The pick-up loop against the drop loop

  /** One square of the pick-up loop that takes `count` stones off a stack that has them. */
  lemma UndoStepValue(u: UndoState, d: Dir, h: nat, count: nat)
    requires Shaped(u.p) && u.yee < 64 && u.yee <= h && 1 <= count
    requires count == if u.rem != ByteZero then Tz(u.rem) + 1 else h - u.yee
    requires OnBoard(u.p.size, u.x + DX(d), u.y + DY(d))
    requires count <= u.p.stacks[Idx(u.p.size, u.x + DX(d), u.y + DY(d))].height
    ensures var i := Idx(u.p.size, u.x + DX(d), u.y + DY(d));
      var pile := u.p.stacks[i];
      var r := UndoStep(u, d, h, false);
      && r.Some?
      && r.value.p.stacks == u.p.stacks[i := PilePopN(pile, count)]
      && r.value.x == u.x + DX(d) && r.value.y == u.y + DY(d)
      && r.value.rem == ShrByte(u.rem, count) && r.value.yee == u.yee + count
      && r.value.moved == Or(u.moved, Shl(PileTop(pile, count), u.yee))
  {
  }

  /**
   * One square of the pick-up loop, on a square where the drop loop pushed `c` stones: the
   * stones come off and the pile is as before.
   */
  lemma UndoGroupStep(u: UndoState, d: Dir, h: nat, c: nat, orig: Pile, w: Word, n: nat, x0: int, y0: int)
    requires Shaped(u.p) && u.p.size == n && u.x == x0 && u.y == y0
    requires h <= 8 && u.yee + c <= h && 1 <= c
    requires c == if u.rem != ByteZero then Tz(u.rem) + 1 else h - u.yee
    requires OnBoard(n, x0 + DX(d), y0 + DY(d))
    requires Tidy(orig) && orig.height + c <= 64
    requires u.p.stacks[Idx(n, x0 + DX(d), y0 + DY(d))] == PushMany(orig, w, c)
    ensures var r := UndoStep(u, d, h, false);
      && r.Some?
      && r.value.p.stacks == u.p.stacks[Idx(n, x0 + DX(d), y0 + DY(d)) := orig]
      && r.value.x == x0 + DX(d) && r.value.y == y0 + DY(d)
      && r.value.rem == ShrByte(u.rem, c) && r.value.yee == u.yee + c
  {
    UndoStepValue(u, d, h, c);
    PushManyPop(orig, w, c);
  }

  /** The low `c` bits of `w`, the others clear. */
  function LowBits(w: Word, c: nat): Word
  {
    seq(64, j requires 0 <= j < 64 => j < c && w[j])
  }

  /** The stones that square gives back, the low `c` bits of `w`, go into `moved` above the `yee` gathered before. */
  lemma UndoGroupMoved(u: UndoState, d: Dir, h: nat, c: nat, orig: Pile, w: Word, n: nat, x0: int, y0: int)
    requires Shaped(u.p) && u.p.size == n && u.x == x0 && u.y == y0
    requires h <= 8 && u.yee + c <= h && 1 <= c
    requires c == if u.rem != ByteZero then Tz(u.rem) + 1 else h - u.yee
    requires OnBoard(n, x0 + DX(d), y0 + DY(d))
    requires Tidy(orig) && orig.height + c <= 64
    requires u.p.stacks[Idx(n, x0 + DX(d), y0 + DY(d))] == PushMany(orig, w, c)
    ensures UndoStep(u, d, h, false).Some?
    ensures UndoStep(u, d, h, false).value.moved == Or(u.moved, Shl(LowBits(w, c), u.yee))
  {
    UndoStepValue(u, d, h, c);
    PushManyPop(orig, w, c);
    assert PileTop(PushMany(orig, w, c), c) == LowBits(w, c);
  }

  /** A byte that counts no set bit is zero. */
  lemma ByteCountZero(b: Byte)
    requires Count(b) == 0
    ensures b == ByteZero
  {
    if b != ByteZero {
      var i :| 0 <= i < 8 && b[i];
      CountClear(b, i);
    }
  }

  /** One iteration of the pick-up loop is one step. */
  lemma UndoLoopOne(u: UndoState, d: Dir, h: nat, asWritten: bool)
    requires Shaped(u.p)
    ensures UndoLoop(u, d, h, asWritten, 1) == UndoStep(u, d, h, asWritten)
  {
  }

  /**
   * A spread that drops all its stones on one square, round trip of the loops: the drop loop
   * pushes the `k` stones on the next square, and one square of the pick-up loop, started where
   * the drop loop started, takes them all back, ends where the drop loop ended, and puts them in
   * `moved` above the `yee` stones gathered before, in the order they were dropped.
   */
  lemma OneGroupRoundTrip(s: MakeState, u: UndoState, d: Dir, h: nat, k: nat)
    requires Shaped(s.p) && u.p.size == s.p.size && Shaped(u.p)
    requires forall i :: 0 <= i < |s.p.stacks| ==> Tidy(s.p.stacks[i])
    requires s.spread[0] && 1 <= k <= 8 && forall j :: 1 <= j < 8 ==> !s.spread[j]
    requires MakeLoop(s, d, k).Some?
    requires u.p.stacks == MakeLoop(s, d, k).value.p.stacks
    requires u.x == s.x && u.y == s.y && u.rem == ByteZero && u.yee + k == h && h <= 8
    ensures var e := UndoLoop(u, d, h, false, 1);
      && e.Some?
      && e.value.p.stacks == s.p.stacks
      && e.value.x == MakeLoop(s, d, k).value.x && e.value.y == MakeLoop(s, d, k).value.y
      && e.value.moved == Or(u.moved, Shl(LowBits(s.toMove, k), u.yee))
  {
    GroupStep(s, d, k);
    var n := s.p.size;
    var iP := Idx(n, s.x + DX(d), s.y + DY(d));
    UndoGroupBack(u, d, h, k, s.toMove, n, s.x, s.y, s.p.stacks, iP);
    UndoLoopOne(u, d, h, false);
  }

  /** The pick-up step on a square holding `c` stones pushed on `base`: it gives back `base` and those stones. */
  lemma UndoGroupBack(u: UndoState, d: Dir, h: nat, c: nat, w: Word, n: nat, x0: int, y0: int, base: seq<Pile>, iP: nat)
    requires Shaped(u.p) && u.p.size == n && u.x == x0 && u.y == y0
    requires h <= 8 && u.yee + c == h && 1 <= c && u.rem == ByteZero
    requires OnBoard(n, x0 + DX(d), y0 + DY(d)) && iP == Idx(n, x0 + DX(d), y0 + DY(d))
    requires iP < |base| && Tidy(base[iP]) && base[iP].height + c <= 64
    requires u.p.stacks == base[iP := PushMany(base[iP], w, c)]
    ensures var r := UndoStep(u, d, h, false);
      && r.Some?
      && r.value.p.stacks == base
      && r.value.x == x0 + DX(d) && r.value.y == y0 + DY(d)
      && r.value.moved == Or(u.moved, Shl(LowBits(w, c), u.yee))
  {
    var orig := base[iP];
    UndoGroupStep(u, d, h, c, orig, w, n, x0, y0);
    UndoGroupMoved(u, d, h, c, orig, w, n, x0, y0);
    assert base[iP := PushMany(orig, w, c)][iP := orig] == base;
  }

  /**
   * The pick-up loop as written cannot take back a group of 8 stones: on the last square
   * `rem >>= count` shifts a `u8` by 8, which the debug build rejects. So `undomove` as written
   * fails on every spread of 8 stones onto one square, which the corrected loop takes back.
   */
  lemma UndoSpreadAsWrittenFailsOnEight(p: Position, mv: SpreadMove)
    requires Shaped(p) && mv.sq < |p.stacks|
    requires mv.height == 8 && Count(mv.spread) == 1
    ensures UndoSpreadAsWritten(p, mv) == None
  {
    var b := Strip(mv.spread);
    if mv.spread != ByteZero {
      StripFacts(mv.spread);
      CountShrByte(b, 1);
      assert Count(b[..1]) == 1 by {
        CountLow(b[..1], 1);
      }
      ByteCountZero(ShrByte(b, 1));
    }
  }

  /** Without the `u8` shift check, one step of the pick-up loop goes through wherever it did with it, to the same state. */
  lemma UndoStepExtends(s: UndoState, d: Dir, h: nat)
    requires Shaped(s.p) && UndoStep(s, d, h, true).Some?
    ensures UndoStep(s, d, h, false) == UndoStep(s, d, h, true)
  {
  }

  lemma {:induction false} UndoLoopExtends(s: UndoState, d: Dir, h: nat, k: nat)
    requires Shaped(s.p) && UndoLoop(s, d, h, true, k).Some?
    ensures UndoLoop(s, d, h, false, k) == UndoLoop(s, d, h, true, k)
    decreases k
  {
    if k > 0 {
      UndoStepExtends(s, d, h);
      UndoLoopExtends(UndoStep(s, d, h, true).value, d, h, k - 1);
    }
  }

  /**
   * The corrected `undomove` agrees with the one as written wherever the latter does not
   * panic: the correction only removes the overflow on a group of eight.
   */
  lemma UndoSpreadExtends(p: Position, mv: SpreadMove)
    requires Shaped(p) && mv.sq < |p.stacks| && UndoSpreadAsWritten(p, mv).Some?
    ensures UndoSpread(p, mv) == UndoSpreadAsWritten(p, mv)
  {
    var q := Unpassed(p);
    var n := q.size;
    var dest := DestIndex(n, mv.sq, mv.dir, Count(mv.spread));
    var r := q.(flats := SetBit(q.flats, dest, false), standing := SetBit(q.standing, dest, false),
                caps := SetBit(q.caps, dest, false));
    SizeDims(n);
    SqOf(n, n, mv.sq);
    UndoLoopExtends(UndoState(r, mv.sq % n, mv.sq / n, ShrByte(Strip(mv.spread), 1), 0, Zero), mv.dir, mv.height, Count(mv.spread));
  }

  /** A spread that leaves both sides with a road wins for the side that spread. */
  lemma SpreadDoubleRoad(p: Position, mv: SpreadMove)
    requires Shaped(p) && mv.sq < |p.stacks| && MakeSpread(p, mv).Some?
    requires HasRoad(MakeSpread(p, mv).value, Player1) && HasRoad(MakeSpread(p, mv).value, Player2)
    ensures ResultOf(MakeSpread(p, mv).value) == Some(Win(p.turn))
  {
    DoubleRoadGoesToMover(p, MakeSpread(p, mv).value);
  }
}
