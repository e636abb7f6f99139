/** The client copy of the engine (src/gameSlice.ts): the Redux slice's state,
    its `initialState`, its own `checkWinner`, and the `makeMove` and
    `resetGame` reducers. */
module GameSlice {

  import opened Wrappers
  import opened Board
  import Lines
  import Games

  /** The slice's `GameState`; unlike the server record it has no `winner`. */
  datatype GameState = GameState(
    boards: seq<seq<Mark>>,
    currentTurn: Player,
    activeBoard: int,
    innerWinners: seq<Mark>,
    status: Status)

  /** Nine boards of nine cells and nine sub-board outcomes. */
  predicate Shaped(s: GameState) {
    Grid(s.boards) && |s.innerWinners| == 9
  }

  /** The payload of a `makeMove` action. */
  datatype Payload = Payload(boardIndex: Index, position: Index)

  /** `initialState`: empty boards, X to move, any board, nothing decided, in progress. */
  function InitialState(): (s: GameState)
    ensures Shaped(s)
    ensures forall i, j :: 0 <= i < 9 && 0 <= j < 9 ==> s.boards[i][j] == Blank
    ensures forall i :: 0 <= i < 9 ==> s.innerWinners[i] == Blank
    ensures s.currentTurn == X && s.activeBoard == AnyBoard && s.status == Playing
  {
    GameState(EmptyGrid(), X, AnyBoard, seq(9, _ => Blank), Playing)
  }

  /** The server record seen through the slice's fields. */
  function FromServer(g: Games.Game): GameState {
    GameState(g.boards, g.currentTurn, g.activeBoard, g.innerWinners, g.status)
  }

  /** Line `a b c` of the board holds three equal non-empty marks. */
  predicate Line(board: seq<Mark>, a: Index, b: Index, c: Index)
    requires |board| == 9
  {
    board[a] != Blank && board[a] == board[b] && board[a] == board[c]
  }

  /** The slice's own `checkWinner`, the eight lines tried one after another. */
  function CheckWinner(board: seq<Mark>): Option<Player>
    requires |board| == 9
  {
    if Line(board, 0, 1, 2) then Some(board[0])
    else if Line(board, 3, 4, 5) then Some(board[3])
    else if Line(board, 6, 7, 8) then Some(board[6])
    else if Line(board, 0, 3, 6) then Some(board[0])
    else if Line(board, 1, 4, 7) then Some(board[1])
    else if Line(board, 2, 5, 8) then Some(board[2])
    else if Line(board, 0, 4, 8) then Some(board[0])
    else if Line(board, 2, 4, 6) then Some(board[2])
    else None
  }

  /** The slice's `checkWinner` and the server's agree on every board: same
      lines, same order. */
  lemma CheckWinnerAgrees(board: seq<Mark>)
    requires |board| == 9
    ensures CheckWinner(board) == Lines.CheckWinner(board)
  {
  }

  /** `resetGame`: whatever the current state, the slice goes back to the
      server's fresh game, which satisfies the invariant. */
  function ResetGame(s: GameState): (r: GameState)
    ensures r == FromServer(Games.CreateGame())
    ensures Inv(r)
  {
    InitialInv();
    InitialState()
  }

  /** The `makeMove` reducer. A failed guard returns without touching the
      state; otherwise the move is written in. */
  function MakeMove(s: GameState, b: Index, p: Index): (r: GameState)
    requires Shaped(s)
    ensures Shaped(r)
    // each guard is a no-op, and a move that passes them always changes the state
    ensures r == s <==>
      s.status != Playing || s.boards[b][p] != Blank || (s.activeBoard != AnyBoard && s.activeBoard != b)
  {
    if s.status != Playing then s
    else if s.boards[b][p] != Blank then s
    else if s.activeBoard != AnyBoard && s.activeBoard != b then s
    else Apply(s, b, p)
  }

  /** The body of the reducer after its guards. There is no check that board
      `b` is still undecided, so a decided board's outcome can be replaced. */
  function Apply(s: GameState, b: Index, p: Index): (r: GameState)
    requires Shaped(s) && s.boards[b][p] == Blank
    // exactly one cell changes, from empty to the mover's mark
    ensures Shaped(r)
    ensures r.boards[b][p] == s.currentTurn
    ensures forall j :: 0 <= j < 9 && j != p ==> r.boards[b][j] == s.boards[b][j]
    ensures forall i :: 0 <= i < 9 && i != b ==> r.boards[i] == s.boards[i]
    // the turn passes to the other player
    ensures r.currentTurn == Other(s.currentTurn)
    // only the played board's outcome may change: to the line check of the
    // board when it has a line, otherwise it is kept
    ensures forall i :: 0 <= i < 9 && i != b ==> r.innerWinners[i] == s.innerWinners[i]
    ensures Lines.CheckWinner(r.boards[b]).Some? ==> r.innerWinners[b] == Lines.CheckWinner(r.boards[b]).value
    ensures Lines.CheckWinner(r.boards[b]).None? ==> r.innerWinners[b] == s.innerWinners[b]
    // play goes to the board named by the cell, or anywhere when that board is decided
    ensures r.activeBoard == p || r.activeBoard == AnyBoard
    ensures r.activeBoard == AnyBoard <==> r.innerWinners[p] != Blank
    // the status follows the server's line check over the outcomes
    ensures Lines.StatusFits(r.innerWinners, r.status)
  {
    var boards := Place(s.boards, b, p, s.currentTurn);
    var innerWinner := CheckWinner(boards[b]);
    var innerWinners := if innerWinner.Some? then s.innerWinners[b := innerWinner.value] else s.innerWinners;
    var winner := CheckWinner(innerWinners);
    var isDraw := winner.None? && forall i :: 0 <= i < 9 ==> innerWinners[i] != Blank;
    var nextActiveBoard := if innerWinners[p] != Blank then AnyBoard else p;
    CheckWinnerAgrees(boards[b]);
    CheckWinnerAgrees(innerWinners);
    GameState(
      boards,
      Other(s.currentTurn),
      nextActiveBoard,
      innerWinners,
      if winner.Some? then Won else if isDraw then Draw else Playing)
  }

  /** The facts the slice keeps from `initialState` on: the same as the
      server's, without the `winner` field. */
  predicate Inv(s: GameState) {
    && Shaped(s)
    && Lines.Routed(s.activeBoard, s.innerWinners)
    && Lines.Consistent(s.boards, s.innerWinners)
    && Lines.StatusFits(s.innerWinners, s.status)
    && Balanced(s.boards, s.currentTurn)
  }

  /** `initialState` satisfies the invariant and is the server's fresh game. */
  lemma InitialInv()
    ensures Inv(InitialState())
    ensures InitialState() == FromServer(Games.CreateGame())
  {
    Games.CreateGameInv();
  }

  /** Every reducer step keeps the invariant, even a move into a decided board:
      a line, once complete, stays complete. */
  lemma MakeMoveInv(s: GameState, b: Index, p: Index)
    requires Inv(s)
    ensures Inv(MakeMove(s, b, p))
  {
    var r := MakeMove(s, b, p);
    if r != s {
      assert r.boards == Place(s.boards, b, p, s.currentTurn);
      PlaceKeepsBalance(s.boards, b, p, s.currentTurn);
      if s.innerWinners[b] != Blank {
        Lines.WinPersists(s.boards[b], p, s.currentTurn);
      }
      forall i | 0 <= i < 9 ensures r.innerWinners[i] == Lines.WinnerOf(r.boards[i]) {
        if i != b {
          assert r.boards[i] == s.boards[i];
        }
      }
    }
  }

  /** The reducer applied to a sequence of actions. */
  function Run(s: GameState, actions: seq<Payload>): (r: GameState)
    requires Shaped(s)
    ensures Shaped(r)
    decreases |actions|
  {
    if |actions| == 0 then s
    else Run(MakeMove(s, actions[0].boardIndex, actions[0].position), actions[1..])
  }

  /** Every state the slice reaches satisfies the invariant. */
  lemma {:induction false} RunInv(s: GameState, actions: seq<Payload>)
    requires Inv(s)
    ensures Inv(Run(s, actions))
    decreases |actions|
  {
    if |actions| > 0 {
      MakeMoveInv(s, actions[0].boardIndex, actions[0].position);
      RunInv(MakeMove(s, actions[0].boardIndex, actions[0].position), actions[1..]);
    }
  }

  /** The invariant over every state reached from `initialState`, spelled out. */
  lemma ReachableInv(actions: seq<Payload>)
    ensures var s := Run(InitialState(), actions);
      && (s.activeBoard != AnyBoard ==> 0 <= s.activeBoard < 9 && s.innerWinners[s.activeBoard] == Blank)
      && (forall i :: 0 <= i < 9 ==> s.innerWinners[i] == Lines.WinnerOf(s.boards[i]))
      && (s.status == Won <==> Lines.CheckWinner(s.innerWinners).Some?)
      && (s.status == Draw <==> Lines.CheckWinner(s.innerWinners).None? && Lines.AllDecided(s.innerWinners))
      && CountGrid(s.boards, X) - CountGrid(s.boards, O) == (if s.currentTurn == O then 1 else 0)
  {
    InitialInv();
    RunInv(InitialState(), actions);
  }

  /** A decided board stays decided, though not necessarily for the same
      player: the reducer only ever stores a player's mark as an outcome. */
  lemma {:induction false} DecidedStaysDecided(s: GameState, actions: seq<Payload>, i: Index)
    requires Shaped(s) && s.innerWinners[i] != Blank
    ensures Run(s, actions).innerWinners[i] != Blank
    decreases |actions|
  {
    if |actions| > 0 {
      DecidedStaysDecided(MakeMove(s, actions[0].boardIndex, actions[0].position), actions[1..], i);
    }
  }

  /** Once the game is won or drawn, every action is a no-op. */
  lemma {:induction false} FinishedStaysFinished(s: GameState, actions: seq<Payload>)
    requires Shaped(s) && s.status != Playing
    ensures Run(s, actions) == s
    decreases |actions|
  {
    if |actions| > 0 {
      FinishedStaysFinished(s, actions[1..]);
    }
  }

  /** Where the played board is undecided and the caller holds the seat to
      move, the reducer and the server handler accept the same moves and
      produce the same next state, although they check their guards in a
      different order. */
  lemma AgreesWithServer(g: Games.Game, who: Games.Caller, b: Index, p: Index)
    requires Games.Shaped(g) && g.innerWinners[b] == Blank
    requires Games.Authorized(who, g.currentTurn)
    ensures var r := Games.MakeMove(g, who, b, p);
      && (r.Success? <==> MakeMove(FromServer(g), b, p) != FromServer(g))
      && (r.Success? ==> MakeMove(FromServer(g), b, p) == FromServer(r.value))
  {
    var s := FromServer(g);
    var r := Games.MakeMove(g, who, b, p);
    if r.Success? {
      var boards := Place(g.boards, b, p, g.currentTurn);
      CheckWinnerAgrees(boards[b]);
      var w := Lines.CheckWinner(boards[b]);
      CheckWinnerAgrees(if w.Some? then g.innerWinners[b := w.value] else g.innerWinners);
    }
  }
}
