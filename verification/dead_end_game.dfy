/** A game the server engine reaches and cannot leave: sub-board 0 fills up
    without a line, keeps the empty outcome, and the routing rule sends the
    next player into it while the game is still in progress. */
module DeadEndGame {
  import opened Wrappers
  import opened Board
  import opened Lines
  import opened Games

  /** The grid after the whole run. Board 0 reads X O X / X O O / O X X, full
      with no line; every other board holds at most two marks. */
  const Final: seq<seq<Mark>> := [
    [X, O, X, X, O, O, O, X, X],
    [X, Blank, Blank, Blank, Blank, Blank, Blank, Blank, Blank],
    [O, Blank, Blank, Blank, Blank, Blank, Blank, Blank, Blank],
    [O, Blank, Blank, Blank, Blank, Blank, Blank, Blank, Blank],
    [X, Blank, Blank, Blank, Blank, Blank, Blank, Blank, Blank],
    [X, Blank, Blank, Blank, Blank, Blank, Blank, Blank, Blank],
    [O, Blank, Blank, Blank, Blank, Blank, X, Blank, Blank],
    [O, Blank, Blank, Blank, Blank, Blank, Blank, Blank, Blank],
    [O, Blank, Blank, Blank, Blank, Blank, Blank, Blank, Blank]]

  /** Every filled cell of the grid already holds its final mark. */
  predicate Below(boards: seq<seq<Mark>>)
    requires Grid(boards)
  {
    forall i, j :: 0 <= i < 9 && 0 <= j < 9 ==> boards[i][j] == Blank || boards[i][j] == Final[i][j]
  }

  /** No board of the final grid has a line. */
  lemma FinalHasNoLines(i: Index)
    ensures CheckWinner(Final[i]) == None
  {
    NoLineIn(Final[i]);
  }

  /** A legal move toward the final grid: no board gets decided, so the move
      goes through, play is routed to the cell's board, and the game goes on. */
  lemma QuietMove(g: Game, who: Caller, b: Index, p: Index)
    requires Shaped(g) && g.status == Playing && g.winner == None
    requires Authorized(who, g.currentTurn) && (who.isPlayerX || who.isPlayerO)
    requires g.activeBoard == AnyBoard || g.activeBoard == b
    requires forall i :: 0 <= i < 9 ==> g.innerWinners[i] == Blank
    requires g.boards[b][p] == Blank && Final[b][p] == g.currentTurn && Below(g.boards)
    ensures MakeMove(g, who, b, p) ==
      Success(Game(Place(g.boards, b, p, g.currentTurn), Other(g.currentTurn), p, g.innerWinners, Playing, None))
    ensures Below(Place(g.boards, b, p, g.currentTurn))
  {
    var nb := Place(g.boards, b, p, g.currentTurn);
    FinalHasNoLines(b);
    FewerMarksNoLine(nb[b], Final[b]);
    EmptyHasNoWinner(g.innerWinners);
  }

  /** The run. Board 0 is filled in the order 0, 1, 4, 5, 6, 2, 3, 7, 8. Cell 0
      of board 0 routes play back into board 0, and every cell 0 of another
      board does too, so most visits elsewhere last one move; X's move into
      cell 6 of board 6 keeps play there for one move more, which hands the
      remaining cells of board 0 to X. */
  const DeadEndMoves: seq<Move> := [
    Move(PX, 0, 0), Move(PO, 0, 1), Move(PX, 1, 0), Move(PO, 0, 4), Move(PX, 4, 0), Move(PO, 0, 5),
    Move(PX, 5, 0), Move(PO, 0, 6), Move(PX, 6, 6), Move(PO, 6, 0), Move(PX, 0, 2), Move(PO, 2, 0),
    Move(PX, 0, 3), Move(PO, 3, 0), Move(PX, 0, 7), Move(PO, 7, 0), Move(PX, 0, 8), Move(PO, 8, 0)]

  /** The index of the move of the run that fills each cell, or -1 for a
      cell the run leaves empty. */
  const FilledAt: seq<seq<int>> := [
    [0, 1, 10, 12, 3, 5, 7, 14, 16],
    [2, -1, -1, -1, -1, -1, -1, -1, -1],
    [11, -1, -1, -1, -1, -1, -1, -1, -1],
    [13, -1, -1, -1, -1, -1, -1, -1, -1],
    [4, -1, -1, -1, -1, -1, -1, -1, -1],
    [6, -1, -1, -1, -1, -1, -1, -1, -1],
    [9, -1, -1, -1, -1, -1, 8, -1, -1],
    [15, -1, -1, -1, -1, -1, -1, -1, -1],
    [17, -1, -1, -1, -1, -1, -1, -1, -1]]

  /** What move `k` of the run is: played by the player whose turn it is, in
      the board the previous move routes to, into a cell whose final mark is
      the mover's and that no other move fills. */
  lemma RouteFacts(k: nat)
    requires k < |DeadEndMoves|
    ensures var m := DeadEndMoves[k];
      && FilledAt[m.board][m.pos] == k
      && Final[m.board][m.pos] == TurnAt(k)
      && m.who == (if TurnAt(k) == X then PX else PO)
      && TurnAt(k + 1) == Other(TurnAt(k))
      && (k > 0 ==> m.board == DeadEndMoves[k - 1].pos)
  {
    // One case per move: each case is a lookup in the literal tables, which
    // the solver settles far more cheaply than the facts for an unknown `k`.
    if k == 0 { }
    else if k == 1 { }
    else if k == 2 { }
    else if k == 3 { }
    else if k == 4 { }
    else if k == 5 { }
    else if k == 6 { }
    else if k == 7 { }
    else if k == 8 { }
    else if k == 9 { }
    else if k == 10 { }
    else if k == 11 { }
    else if k == 12 { }
    else if k == 13 { }
    else if k == 14 { }
    else if k == 15 { }
    else if k == 16 { }
    else { }
  }

  /** Every cell of board 0 is filled by some move of the run. */
  lemma BoardZeroCovered(j: Index)
    ensures exists t :: 0 <= t < |DeadEndMoves| && DeadEndMoves[t].board == 0 && DeadEndMoves[t].pos == j
  {
    if j == 0 { assert DeadEndMoves[0].board == 0 && DeadEndMoves[0].pos == 0; }
    else if j == 1 { assert DeadEndMoves[1].board == 0 && DeadEndMoves[1].pos == 1; }
    else if j == 2 { assert DeadEndMoves[10].board == 0 && DeadEndMoves[10].pos == 2; }
    else if j == 3 { assert DeadEndMoves[12].board == 0 && DeadEndMoves[12].pos == 3; }
    else if j == 4 { assert DeadEndMoves[3].board == 0 && DeadEndMoves[3].pos == 4; }
    else if j == 5 { assert DeadEndMoves[5].board == 0 && DeadEndMoves[5].pos == 5; }
    else if j == 6 { assert DeadEndMoves[7].board == 0 && DeadEndMoves[7].pos == 6; }
    else if j == 7 { assert DeadEndMoves[14].board == 0 && DeadEndMoves[14].pos == 7; }
    else { assert DeadEndMoves[16].board == 0 && DeadEndMoves[16].pos == 8; }
  }

  /** The game the first `k` moves of the run produce, as far as the rest of
      the run needs it. */
  predicate AtMove(g: Game, k: nat)
    requires k <= |DeadEndMoves|
  {
    && Shaped(g) && g.status == Playing && g.winner == None && Below(g.boards)
    && (forall i :: 0 <= i < 9 ==> g.innerWinners[i] == Blank)
    && g.currentTurn == TurnAt(k)
    && g.activeBoard == (if k == 0 then AnyBoard else DeadEndMoves[k - 1].pos)
    && (forall i, j :: 0 <= i < 9 && 0 <= j < 9 && FilledAt[i][j] >= k ==> g.boards[i][j] == Blank)
    && (forall t :: 0 <= t < k && DeadEndMoves[t].board == 0 ==> g.boards[0][DeadEndMoves[t].pos] != Blank)
  }

  /** The game after move `k` of the run. */
  function After(g: Game, k: nat): Game
    requires k < |DeadEndMoves| && Shaped(g)
  {
    var m := DeadEndMoves[k];
    Game(Place(g.boards, m.board, m.pos, g.currentTurn), Other(g.currentTurn), m.pos, g.innerWinners, Playing, None)
  }

  /** Move `k` of the run goes through and leaves the game the first `k + 1`
      moves produce. */
  lemma Advance(g: Game, k: nat)
    requires k < |DeadEndMoves| && AtMove(g, k)
    ensures MakeMove(g, DeadEndMoves[k].who, DeadEndMoves[k].board, DeadEndMoves[k].pos) == Success(After(g, k))
    ensures AtMove(After(g, k), k + 1)
  {
    RouteFacts(k);
    var m := DeadEndMoves[k];
    QuietMove(g, m.who, m.board, m.pos);
    AdvanceCells(g, k);
    var g' := After(g, k);
    assert g'.currentTurn == TurnAt(k + 1);
    assert g'.activeBoard == DeadEndMoves[k].pos;
    assert Below(g'.boards);
  }

  /** The cells the rest of the run fills are still empty after move `k`,
      and the board 0 cells filled so far stay filled. */
  lemma AdvanceCells(g: Game, k: nat)
    requires k < |DeadEndMoves| && AtMove(g, k)
    requires FilledAt[DeadEndMoves[k].board][DeadEndMoves[k].pos] == k
    ensures var nb := After(g, k).boards;
      && (forall i, j :: 0 <= i < 9 && 0 <= j < 9 && FilledAt[i][j] >= k + 1 ==> nb[i][j] == Blank)
      && (forall t :: 0 <= t < k + 1 && DeadEndMoves[t].board == 0 ==> nb[0][DeadEndMoves[t].pos] != Blank)
  {
    var m := DeadEndMoves[k];
    var nb := After(g, k).boards;
    forall i, j | 0 <= i < 9 && 0 <= j < 9 && FilledAt[i][j] >= k + 1 ensures nb[i][j] == Blank {
      assert i != m.board || j != m.pos;
    }
    forall t | 0 <= t < k + 1 && DeadEndMoves[t].board == 0 ensures nb[0][DeadEndMoves[t].pos] != Blank {
      if t < k && (m.board != 0 || m.pos != DeadEndMoves[t].pos) {
        assert nb[0][DeadEndMoves[t].pos] == g.boards[0][DeadEndMoves[t].pos];
      }
    }
  }

  /** The run from move `k` on goes through, ending with board 0 full and
      play routed to it. */
  lemma {:induction false} RunFrom(g: Game, k: nat)
    requires k <= |DeadEndMoves| && AtMove(g, k)
    ensures var r := Play(g, DeadEndMoves[k..]);
      r.Success? && r.value.status == Playing && r.value.activeBoard == 0
      && forall j :: 0 <= j < 9 ==> r.value.boards[0][j] != Blank
    decreases |DeadEndMoves| - k
  {
    if k == |DeadEndMoves| {
      forall j | 0 <= j < 9 ensures g.boards[0][j] != Blank {
        BoardZeroCovered(j);
      }
      assert DeadEndMoves[k..] == [];
    } else {
      Advance(g, k);
      PlayStep(g, DeadEndMoves, k, After(g, k));
      RunFrom(After(g, k), k + 1);
    }
  }

  /** After the run the game is in progress, play is routed to the full,
      undecided board 0, and no move whatsoever is accepted. */
  lemma DeadEndReachable()
    ensures var r := Play(CreateGame(), DeadEndMoves);
      && r.Success? && r.value.status == Playing && r.value.activeBoard == 0
      && (forall j :: 0 <= j < 9 ==> r.value.boards[0][j] != Blank)
      && forall who, b, p :: MakeMove(r.value, who, b, p).Failure?
  {
    var g := CreateGame();
    RunFrom(g, 0);
    CreateGameInv();
    PlayInv(g, DeadEndMoves);
    var f := Play(g, DeadEndMoves).value;
    forall who, b, p ensures MakeMove(f, who, b, p).Failure? {
      DeadEnd(f, who, b, p);
    }
  }
}
