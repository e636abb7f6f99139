/** A game the client slice reaches in which the outcome of a won board
    changes hands. The reducer has no "board already completed" guard, so O
    may play into the board X has won, and O's new line comes first in scan
    order. The server, given the same moves, reaches the same state and
    refuses that move. */
module OverwriteGame {
  import opened Wrappers
  import opened Board
  import opened Lines
  import GameSlice
  import Games

  /** The run of `makeMove` actions. X wins board 0 with its bottom row on
      action 10; O then answers in board 8 and X in board 5, both in cell 0,
      which names the won board and so leaves play free. */
  const Actions: seq<GameSlice.Payload> := [
    GameSlice.Payload(4, 0), GameSlice.Payload(0, 0), GameSlice.Payload(0, 6), GameSlice.Payload(6, 0),
    GameSlice.Payload(0, 7), GameSlice.Payload(7, 1), GameSlice.Payload(1, 0), GameSlice.Payload(0, 1),
    GameSlice.Payload(1, 3), GameSlice.Payload(3, 0), GameSlice.Payload(0, 8), GameSlice.Payload(8, 0),
    GameSlice.Payload(5, 0)]

  /** The same run submitted to the server, each move by the player to move. */
  const ServerMoves: seq<Games.Move> := [
    Games.Move(Games.PX, 4, 0), Games.Move(Games.PO, 0, 0), Games.Move(Games.PX, 0, 6), Games.Move(Games.PO, 6, 0),
    Games.Move(Games.PX, 0, 7), Games.Move(Games.PO, 7, 1), Games.Move(Games.PX, 1, 0), Games.Move(Games.PO, 0, 1),
    Games.Move(Games.PX, 1, 3), Games.Move(Games.PO, 3, 0), Games.Move(Games.PX, 0, 8), Games.Move(Games.PO, 8, 0),
    Games.Move(Games.PX, 5, 0)]

  /** The grid after the run. Board 0 reads O O . / . . . / X X X. */
  const Final: seq<seq<Mark>> := [
    [O, O, Blank, Blank, Blank, Blank, X, X, X],
    [X, Blank, Blank, X, Blank, Blank, Blank, Blank, Blank],
    [Blank, Blank, Blank, Blank, Blank, Blank, Blank, Blank, Blank],
    [O, Blank, Blank, Blank, Blank, Blank, Blank, Blank, Blank],
    [X, Blank, Blank, Blank, Blank, Blank, Blank, Blank, Blank],
    [X, Blank, Blank, Blank, Blank, Blank, Blank, Blank, Blank],
    [O, Blank, Blank, Blank, Blank, Blank, Blank, Blank, Blank],
    [Blank, O, Blank, Blank, Blank, Blank, Blank, Blank, Blank],
    [O, Blank, Blank, Blank, Blank, Blank, Blank, Blank, Blank]]

  /** The index of the action that fills each cell, or -1 for a cell the run
      leaves empty. */
  const FilledAt: seq<seq<int>> := [
    [1, 7, -1, -1, -1, -1, 2, 4, 10],
    [6, -1, -1, 8, -1, -1, -1, -1, -1],
    [-1, -1, -1, -1, -1, -1, -1, -1, -1],
    [9, -1, -1, -1, -1, -1, -1, -1, -1],
    [0, -1, -1, -1, -1, -1, -1, -1, -1],
    [12, -1, -1, -1, -1, -1, -1, -1, -1],
    [3, -1, -1, -1, -1, -1, -1, -1, -1],
    [-1, 5, -1, -1, -1, -1, -1, -1, -1],
    [11, -1, -1, -1, -1, -1, -1, -1, -1]]

  /** The active board after the first `k` actions. */
  const ActiveAt: seq<int> := [AnyBoard, 0, 0, 6, 0, 7, 1, 0, 1, 3, 0, 8, AnyBoard, AnyBoard]

  /** Board 0 just before X completes its bottom row. */
  const BeforeWin: seq<Mark> := [O, O, Blank, Blank, Blank, Blank, X, X, Blank]

  /** A line-free board that holds every mark board `b` gets from an action
      that does not decide it. */
  function QuietBound(b: Index): seq<Mark> {
    if b == 0 then BeforeWin else Final[b]
  }

  /** The sub-board outcomes after the first `k` actions: X holds board 0
      from action 10 on, and nothing else is decided. */
  function WonAt(k: nat, i: Index): Mark {
    if i == 0 && k > 10 then X else Blank
  }

  /** The slice state after the first `k` actions, as far as the rest of the
      run needs it. */
  predicate AtStep(s: GameSlice.GameState, k: nat)
    requires k <= |Actions|
  {
    && GameSlice.Shaped(s) && s.status == Playing
    && s.currentTurn == TurnAt(k)
    && s.activeBoard == ActiveAt[k]
    && (forall i: Index :: s.innerWinners[i] == WonAt(k, i))
    && GridAt(s.boards, k)
  }

  /** What action `k` is: the server move of the same index plays the same
      cell for the player to move, the cell is the one `FilledAt` gives it
      and ends up holding the mover's mark, the board is the active one, and
      the action routes play as `ActiveAt` says. */
  lemma StepFacts(k: nat)
    requires k < |Actions|
    ensures var a := Actions[k];
      && ServerMoves[k] == Games.Move(if TurnAt(k) == X then Games.PX else Games.PO, a.boardIndex, a.position)
      && FilledAt[a.boardIndex][a.position] == k
      && Final[a.boardIndex][a.position] == TurnAt(k)
      && TurnAt(k + 1) == Other(TurnAt(k))
      && (ActiveAt[k] == AnyBoard || ActiveAt[k] == a.boardIndex)
      && ActiveAt[k + 1] == (if a.position == 0 && k >= 10 then AnyBoard else a.position)
      && (a.boardIndex == 0 ==> k <= 10)
  {
    // One case per action, as lookups in the literal tables: far cheaper for
    // the solver than the same facts for an unknown `k`.
    if k == 0 { }
    else if k == 1 { }
    else if k == 2 { }
    else if k == 3 { }
    else if k == 4 { }
    else if k == 5 { }
    else if k == 6 { }
    else if k == 7 { }
    else if k == 8 { }
    else if k == 9 { }
    else if k == 10 { }
    else if k == 11 { }
    else { }
  }

  /** No board of `QuietBound` has a line. */
  lemma QuietBoundNoLine(b: Index)
    ensures CheckWinner(QuietBound(b)) == None
  {
    NoLineIn(QuietBound(b));
  }

  /** Board 0 of the final grid is X's, by its bottom row. */
  lemma BoardZeroWon()
    ensures CheckWinner(Final[0]) == Some(X)
  {
    assert !Complete(Final[0], 0) && !Complete(Final[0], 1) && Complete(Final[0], 2);
  }

  /** The outcomes after action 10 have no meta-line. */
  lemma OneDecidedNoLine(w: seq<Mark>)
    requires |w| == 9 && forall i :: 1 <= i < 9 ==> w[i] == Blank
    ensures CheckWinner(w) == None
  {
    NoLineIn(w);
  }

  /** The grid after the first `k` actions of a run that fills cell `(i, j)`
      with `final[i][j]` at action `filled[i][j]`, cell by cell. */
  predicate GridBy(boards: seq<seq<Mark>>, filled: seq<seq<int>>, final: seq<seq<Mark>>, k: nat)
    requires Grid(boards) && Grid(final) && |filled| == 9 && forall i :: 0 <= i < 9 ==> |filled[i]| == 9
  {
    forall i, j :: 0 <= i < 9 && 0 <= j < 9 ==>
      boards[i][j] == (if 0 <= filled[i][j] < k then final[i][j] else Blank)
  }

  /** The grid after the first `k` actions of this run. */
  predicate GridAt(boards: seq<seq<Mark>>, k: nat)
    requires Grid(boards)
  {
    GridBy(boards, FilledAt, Final, k)
  }

  /** Both tables have nine rows of nine entries. */
  lemma TablesShaped()
    ensures |FilledAt| == 9 && forall i :: 0 <= i < 9 ==> |FilledAt[i]| == 9
    ensures Grid(Final)
  {
    forall i | 0 <= i < 9 ensures |FilledAt[i]| == 9 && |Final[i]| == 9 {
      // One case per row, as in `StepFacts`.
      if i == 0 { } else if i == 1 { } else if i == 2 { } else if i == 3 { }
      else if i == 4 { } else if i == 5 { } else if i == 6 { } else if i == 7 { } else { }
    }
  }

  /** `FilledAt` names, for each cell it fills, the action that plays that cell. */
  lemma FilledAtInverse(i: Index, j: Index)
    ensures FilledAt[i][j] >= 0 ==>
      FilledAt[i][j] < |Actions| && Actions[FilledAt[i][j]] == GameSlice.Payload(i, j)
  {
    // One case per board, as in `StepFacts`.
    if i == 0 { } else if i == 1 { } else if i == 2 { } else if i == 3 { }
    else if i == 4 { } else if i == 5 { } else if i == 6 { } else if i == 7 { } else { }
  }

  /** Writing the mark of action `k` into the one cell that action fills,
      and nothing else, turns the grid after `k` actions into the grid after
      `k + 1`. */
  lemma StepCells(before: seq<seq<Mark>>, after: seq<seq<Mark>>, filled: seq<seq<int>>, final: seq<seq<Mark>>,
                  k: nat, b: Index, p: Index)
    requires Grid(before) && Grid(after) && Grid(final)
    requires |filled| == 9 && forall i :: 0 <= i < 9 ==> |filled[i]| == 9
    requires GridBy(before, filled, final, k)
    requires forall i, j :: 0 <= i < 9 && 0 <= j < 9 && filled[i][j] == k ==> i == b && j == p
    requires filled[b][p] == k && after[b][p] == final[b][p]
    requires forall j :: 0 <= j < 9 && j != p ==> after[b][j] == before[b][j]
    requires forall i :: 0 <= i < 9 && i != b ==> after[i] == before[i]
    ensures GridBy(after, filled, final, k + 1)
  {
    forall i, j | 0 <= i < 9 && 0 <= j < 9
      ensures after[i][j] == (if 0 <= filled[i][j] < k + 1 then final[i][j] else Blank)
    {
      if i != b {
        assert after[i] == before[i];
      } else if j != p {
        assert after[i][j] == before[i][j];
      }
    }
  }

  /** Action `k` fills exactly one cell: the one it plays. */
  lemma FilledOnce(k: nat)
    requires k < |Actions|
    ensures forall i, j :: 0 <= i < 9 && 0 <= j < 9 && FilledAt[i][j] == k ==>
      i == Actions[k].boardIndex && j == Actions[k].position
  {
    forall i: Index, j: Index | FilledAt[i][j] == k
      ensures i == Actions[k].boardIndex && j == Actions[k].position
    {
      FilledAtInverse(i, j);
    }
  }

  /** The board action `k` plays, once played, has a line only for action
      10, and then it is X's. */
  lemma StepWinner(nb: seq<Mark>, k: nat)
    requires k < |Actions| && |nb| == 9
    requires forall j :: 0 <= j < 9 ==>
      nb[j] == (if 0 <= FilledAt[Actions[k].boardIndex][j] < k + 1 then Final[Actions[k].boardIndex][j] else Blank)
    ensures CheckWinner(nb) == if k == 10 then Some(X) else None
  {
    StepFacts(k);
    var b := Actions[k].boardIndex;
    if k == 10 {
      assert nb == Final[0];
      BoardZeroWon();
    } else {
      QuietBoundNoLine(b);
      FewerMarksNoLine(nb, QuietBound(b));
    }
  }

  /** Action `k` plays an empty cell and leaves the grid after `k + 1` actions. */
  lemma StepGrid(s: GameSlice.GameState, k: nat)
    requires k < |Actions| && AtStep(s, k)
    ensures s.boards[Actions[k].boardIndex][Actions[k].position] == Blank
    ensures GridAt(GameSlice.Apply(s, Actions[k].boardIndex, Actions[k].position).boards, k + 1)
  {
    StepFacts(k);
    var b, p := Actions[k].boardIndex, Actions[k].position;
    assert s.boards[b][p] == Blank;
    var r := GameSlice.Apply(s, b, p);
    FilledOnce(k);
    TablesShaped();
    StepCells(s.boards, r.boards, FilledAt, Final, k, b, p);
  }

  /** After action `k` the sub-board outcomes are those after `k + 1`
      actions, and the game is still in progress. */
  lemma StepOutcomes(s: GameSlice.GameState, k: nat)
    requires k < |Actions| && AtStep(s, k) && s.boards[Actions[k].boardIndex][Actions[k].position] == Blank
    requires GridAt(GameSlice.Apply(s, Actions[k].boardIndex, Actions[k].position).boards, k + 1)
    ensures var r := GameSlice.Apply(s, Actions[k].boardIndex, Actions[k].position);
      && (forall i: Index :: r.innerWinners[i] == WonAt(k + 1, i))
      && r.status == Playing
  {
    StepFacts(k);
    var b, p := Actions[k].boardIndex, Actions[k].position;
    var r := GameSlice.Apply(s, b, p);
    StepWinner(r.boards[b], k);
    forall i: Index ensures r.innerWinners[i] == WonAt(k + 1, i) {
      if i != b {
        assert r.innerWinners[i] == s.innerWinners[i];
      }
    }
    if k < 10 {
      EmptyHasNoWinner(r.innerWinners);
    } else {
      OneDecidedNoLine(r.innerWinners);
    }
    assert r.innerWinners[1] == Blank;
  }

  /** Action `k` is accepted and leaves the state the first `k + 1` actions
      produce. */
  lemma Advance(s: GameSlice.GameState, k: nat)
    requires k < |Actions| && AtStep(s, k)
    ensures var a := Actions[k];
      GameSlice.MakeMove(s, a.boardIndex, a.position) == GameSlice.Apply(s, a.boardIndex, a.position)
    ensures AtStep(GameSlice.MakeMove(s, Actions[k].boardIndex, Actions[k].position), k + 1)
  {
    StepFacts(k);
    StepGrid(s, k);
    StepOutcomes(s, k);
  }

  /** Running from action `k` is that action followed by the run from `k + 1`. */
  lemma RunStep(s: GameSlice.GameState, k: nat)
    requires GameSlice.Shaped(s) && k < |Actions|
    ensures GameSlice.Run(s, Actions[k..]) ==
      GameSlice.Run(GameSlice.MakeMove(s, Actions[k].boardIndex, Actions[k].position), Actions[k + 1..])
  {
    assert Actions[k..][0] == Actions[k];
    assert Actions[k..][1..] == Actions[k + 1..];
  }

  /** The run from action `k` on ends in the state the whole run produces. */
  lemma {:induction false} RunFrom(s: GameSlice.GameState, k: nat)
    requires k <= |Actions| && AtStep(s, k)
    ensures AtStep(GameSlice.Run(s, Actions[k..]), |Actions|)
    decreases |Actions| - k
  {
    if k == |Actions| {
      assert Actions[k..] == [];
    } else {
      Advance(s, k);
      RunStep(s, k);
      RunFrom(GameSlice.MakeMove(s, Actions[k].boardIndex, Actions[k].position), k + 1);
    }
  }

  /** The slice state after the run. */
  function Reached(): GameSlice.GameState {
    GameSlice.Run(GameSlice.InitialState(), Actions)
  }

  /** The run from `initialState` is the state `AtStep` describes. */
  lemma ReachedAtEnd()
    ensures AtStep(Reached(), |Actions|)
  {
    RunFrom(GameSlice.InitialState(), 0);
  }

  /** The end of the run: a game in progress with board 0 won by X by its
      bottom row, O to move and free to play anywhere. */
  predicate WonByX(s: GameSlice.GameState) {
    && GameSlice.Shaped(s) && s.status == Playing && s.currentTurn == O && s.activeBoard == AnyBoard
    && s.boards[0] == Final[0] && s.innerWinners[0] == X
  }

  /** The state the whole run describes is the end of the run. */
  lemma AtEndWonByX(s: GameSlice.GameState)
    requires AtStep(s, |Actions|)
    ensures WonByX(s)
  {
    assert s.boards[0] == Final[0];
  }

  /** O's move into cell 2 of board 0 at the end of the run is accepted,
      completes O's top row and, the top row coming first in scan order,
      makes O the board's winner. */
  lemma OverwriteAtEnd(s: GameSlice.GameState)
    requires WonByX(s)
    ensures var r := GameSlice.MakeMove(s, 0, 2);
      r != s && r.boards[0][2] == O && r.innerWinners[0] == O
  {
    var r := GameSlice.Apply(s, 0, 2);
    assert r.boards[0] == Final[0][2 := O];
    assert Complete(r.boards[0], 0);
  }

  /** From `initialState`, the run leaves a game in progress with board 0 won
      by X and O free to play anywhere. O's move into cell 2 of board 0 is
      accepted, and the board's outcome becomes O. */
  lemma DecidedBoardOverwritten()
    ensures var s := Reached();
      && s.status == Playing && s.currentTurn == O && s.activeBoard == AnyBoard
      && s.innerWinners[0] == X
      && var r := GameSlice.MakeMove(s, 0, 2);
         r != s && r.boards[0][2] == O && r.innerWinners[0] == O
  {
    ReachedAtEnd();
    AtEndWonByX(Reached());
    OverwriteAtEnd(Reached());
  }

  /** Server move `k` is accepted, and the new record, seen through the
      slice's fields, is the slice state after action `k`. */
  lemma ServerStep(g: Games.Game, k: nat)
    requires k < |Actions| && Games.Shaped(g) && AtStep(GameSlice.FromServer(g), k)
    ensures var m := ServerMoves[k];
      var r := Games.MakeMove(g, m.who, m.board, m.pos);
      && r.Success?
      && GameSlice.FromServer(r.value) ==
         GameSlice.MakeMove(GameSlice.FromServer(g), Actions[k].boardIndex, Actions[k].position)
  {
    StepFacts(k);
    var s := GameSlice.FromServer(g);
    var m := ServerMoves[k];
    assert g.innerWinners[m.board] == WonAt(k, m.board);
    GameSlice.AgreesWithServer(g, m.who, m.board, m.pos);
    Advance(s, k);
  }

  /** The server accepts the run from action `k` on and stays in step with the
      slice: its record, seen through the slice's fields, is the slice state. */
  lemma {:induction false} ServerRunFrom(g: Games.Game, k: nat)
    requires k <= |Actions| && Games.Shaped(g) && AtStep(GameSlice.FromServer(g), k)
    ensures var r := Games.Play(g, ServerMoves[k..]);
      r.Success? && GameSlice.FromServer(r.value) == GameSlice.Run(GameSlice.FromServer(g), Actions[k..])
    decreases |Actions| - k
  {
    var s := GameSlice.FromServer(g);
    if k == |Actions| {
      assert ServerMoves[k..] == [] && Actions[k..] == [];
    } else {
      var m := ServerMoves[k];
      ServerStep(g, k);
      var g' := Games.MakeMove(g, m.who, m.board, m.pos).value;
      Advance(s, k);
      Games.PlayStep(g, ServerMoves, k, g');
      RunStep(s, k);
      ServerRunFrom(g', k + 1);
    }
  }

  /** The server refuses O's move into board 0 at the end of the run. */
  lemma ServerRefusesAtEnd(g: Games.Game)
    requires Games.Shaped(g) && WonByX(GameSlice.FromServer(g))
    ensures Games.MakeMove(g, Games.PO, 0, 2) == Failure(Games.BoardCompleted)
  {
  }

  /** The server, given the same run from a new game, accepts every move and
      reaches the same state, then refuses O's move into board 0 because the
      board is already completed. */
  lemma ServerRefusesOverwrite()
    ensures var r := Games.Play(Games.CreateGame(), ServerMoves);
      && r.Success? && GameSlice.FromServer(r.value) == Reached()
      && Games.MakeMove(r.value, Games.PO, 0, 2) == Failure(Games.BoardCompleted)
  {
    GameSlice.InitialInv();
    ServerRunFrom(Games.CreateGame(), 0);
    ReachedAtEnd();
    AtEndWonByX(Reached());
    ServerRefusesAtEnd(Games.Play(Games.CreateGame(), ServerMoves).value);
  }
}
