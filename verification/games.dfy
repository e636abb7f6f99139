/** The server copy of the engine (convex/games.ts): the game record, the
    record `createGame` inserts, and the pure part of the `makeMove` handler. */
module Games {

  import opened Wrappers
  import opened Board
  import opened Lines

  /** What the handler knows about the signed-in user: whether they are the
      game's X player and whether they are its O player. */
  datatype Caller = Caller(isPlayerX: bool, isPlayerO: bool)

  /** The signed-in X player and the signed-in O player. */
  const PX := Caller(true, false)
  const PO := Caller(false, true)

  /** The handler's rejections, in the order it checks them. */
  datatype Reason =
    | GameOver        // "Game is over"
    | NotAPlayer      // "Not a player in this game"
    | NotYourTurn     // "Not your turn"
    | WrongBoard      // "Must play in the active board"
    | BoardCompleted  // "This board is already completed"
    | PositionTaken   // "Position already taken"

  /** The engine fields of a stored game. */
  datatype Game = Game(
    boards: seq<seq<Mark>>,
    currentTurn: Player,
    activeBoard: int,
    innerWinners: seq<Mark>,
    status: Status,
    winner: Option<Player>)

  /** A well-formed record: nine boards of nine cells and nine sub-board outcomes. */
  predicate Shaped(g: Game) {
    Grid(g.boards) && |g.innerWinners| == 9
  }

  /** One move: who submits it, the sub-board and the cell. */
  datatype Move = Move(who: Caller, board: Index, pos: Index)

  /** The record `createGame` inserts: empty boards, X to move, any board, no
      sub-board decided, game in progress and no winner. */
  function CreateGame(): (g: Game)
    ensures Shaped(g)
    ensures forall i, j :: 0 <= i < 9 && 0 <= j < 9 ==> g.boards[i][j] == Blank
    ensures forall i :: 0 <= i < 9 ==> g.innerWinners[i] == Blank
    ensures g.currentTurn == X && g.activeBoard == AnyBoard
    ensures g.status == Playing && g.winner == None
  {
    Game(EmptyGrid(), X, AnyBoard, seq(9, _ => Blank), Playing, None)
  }

  /** The caller holds the seat whose turn it is. */
  predicate Authorized(who: Caller, turn: Player) {
    (turn == X ==> who.isPlayerX) && (turn == O ==> who.isPlayerO)
  }

  /** Position of a reason in the handler's check order. */
  function Rank(e: Reason): nat {
    match e
    case GameOver => 0
    case NotAPlayer => 1
    case NotYourTurn => 2
    case WrongBoard => 3
    case BoardCompleted => 4
    case PositionTaken => 5
  }

  /** The condition under which the handler reports `e`, taken on its own. */
  predicate Violated(g: Game, who: Caller, b: Index, p: Index, e: Reason)
    requires Shaped(g)
  {
    match e
    case GameOver => g.status != Playing
    case NotAPlayer => !who.isPlayerX && !who.isPlayerO
    case NotYourTurn => !Authorized(who, g.currentTurn)
    case WrongBoard => g.activeBoard != AnyBoard && g.activeBoard != b
    case BoardCompleted => g.innerWinners[b] != Blank
    case PositionTaken => g.boards[b][p] != Blank
  }

  /** The pure part of `makeMove`: the guard chain, then the new record the
      handler patches in. A rejection carries no record: the stored game is
      left as it was. */
  function MakeMove(g: Game, who: Caller, b: Index, p: Index): (r: Result<Game, Reason>)
    requires Shaped(g)
    // The reported reason is the first violated condition in check order,
    // and a move is accepted exactly when no condition is violated.
    ensures r.Failure? ==>
      && Violated(g, who, b, p, r.error)
      && forall e :: Rank(e) < Rank(r.error) ==> !Violated(g, who, b, p, e)
    ensures r.Success? <==> forall e :: !Violated(g, who, b, p, e)
  {
    // Each rejecting branch names the condition it witnesses.
    if g.status != Playing then
      assert Violated(g, who, b, p, GameOver);
      Failure(GameOver)
    else if !who.isPlayerX && !who.isPlayerO then
      assert Violated(g, who, b, p, NotAPlayer);
      Failure(NotAPlayer)
    else if (g.currentTurn == X && !who.isPlayerX) || (g.currentTurn == O && !who.isPlayerO) then
      assert Violated(g, who, b, p, NotYourTurn);
      Failure(NotYourTurn)
    else if g.activeBoard != AnyBoard && g.activeBoard != b then
      assert Violated(g, who, b, p, WrongBoard);
      Failure(WrongBoard)
    else if g.innerWinners[b] != Blank then
      assert Violated(g, who, b, p, BoardCompleted);
      Failure(BoardCompleted)
    else if g.boards[b][p] != Blank then
      assert Violated(g, who, b, p, PositionTaken);
      Failure(PositionTaken)
    else Success(Apply(g, b, p))
  }

  /** The update `makeMove` patches in once every guard has passed: the mark,
      the played board's outcome, the overall outcome, the next active board
      and the turn. */
  function Apply(g: Game, b: Index, p: Index): (g': Game)
    requires Shaped(g) && g.innerWinners[b] == Blank && g.boards[b][p] == Blank
    // exactly one cell changes, from empty to the mover's mark
    ensures Shaped(g')
    ensures g'.boards[b][p] == g.currentTurn
    ensures forall j :: 0 <= j < 9 && j != p ==> g'.boards[b][j] == g.boards[b][j]
    ensures forall i :: 0 <= i < 9 && i != b ==> g'.boards[i] == g.boards[i]
    // the turn passes to the other player
    ensures g'.currentTurn == Other(g.currentTurn)
    // only the played board's outcome may change, and it becomes its line check
    ensures forall i :: 0 <= i < 9 && i != b ==> g'.innerWinners[i] == g.innerWinners[i]
    ensures g'.innerWinners[b] == WinnerOf(g'.boards[b])
    // play goes to the board named by the cell, or anywhere when that board is decided
    ensures g'.activeBoard == p || g'.activeBoard == AnyBoard
    ensures g'.activeBoard == AnyBoard <==> g'.innerWinners[p] != Blank
    // the status and winner follow the line check over the outcomes
    ensures StatusFits(g'.innerWinners, g'.status)
    ensures g'.winner == CheckWinner(g'.innerWinners)
  {
    var newBoards := Place(g.boards, b, p, g.currentTurn);
    var innerWinner := CheckWinner(newBoards[b]);
    var newInnerWinners :=
      if innerWinner.Some? then g.innerWinners[b := innerWinner.value] else g.innerWinners;
    var winner := CheckWinner(newInnerWinners);
    var isDraw := winner.None? && forall i :: 0 <= i < 9 ==> newInnerWinners[i] != Blank;
    var nextActiveBoard := if newInnerWinners[p] != Blank then AnyBoard else p;
    Game(
      newBoards,
      Other(g.currentTurn),
      nextActiveBoard,
      newInnerWinners,
      if winner.Some? then Won else if isDraw then Draw else Playing,
      winner)
  }

  /** The record stored after the handler runs: the patched record when the
      move is accepted, the record as it was when a guard throws. */
  function Stored(g: Game, who: Caller, b: Index, p: Index): (r: Game)
    requires Shaped(g)
    ensures Shaped(r)
    // a rejected move leaves the record untouched, an accepted one always changes it
    ensures r == g <==> MakeMove(g, who, b, p).Failure?
  {
    match MakeMove(g, who, b, p)
    case Success(g') => g'
    case Failure(_) => g
  }

  /** The first move of a fresh game: X plays cell 0 of the centre board, so
      O must answer in board 0 and the game goes on. */
  lemma OpeningMove()
    ensures var r := MakeMove(CreateGame(), Caller(true, false), 4, 0);
      && r.Success?
      && r.value.boards[4][0] == X
      && r.value.currentTurn == O
      && r.value.activeBoard == 0
      && r.value.status == Playing
      && r.value.winner == None
  {
  }

  /** The facts every game built by `createGame` and accepted moves keeps. */
  predicate Inv(g: Game) {
    && Shaped(g)
    && Routed(g.activeBoard, g.innerWinners)
    && Consistent(g.boards, g.innerWinners)
    && StatusFits(g.innerWinners, g.status)
    && g.winner == CheckWinner(g.innerWinners)
    && Balanced(g.boards, g.currentTurn)
  }

  /** Moves applied in order from `g`; the first rejection ends the run. */
  function Play(g: Game, moves: seq<Move>): (r: Result<Game, Reason>)
    requires Shaped(g)
    ensures r.Success? ==> Shaped(r.value)
    ensures |moves| == 0 ==> r == Success(g)
    decreases |moves|
  {
    if |moves| == 0 then Success(g)
    else
      match MakeMove(g, moves[0].who, moves[0].board, moves[0].pos)
      case Failure(e) => Failure(e)
      case Success(g') => Play(g', moves[1..])
  }

  /** Running from move `k` is one accepted move followed by the run from `k + 1`. */
  lemma PlayStep(g: Game, moves: seq<Move>, k: nat, g': Game)
    requires Shaped(g) && k < |moves|
    requires MakeMove(g, moves[k].who, moves[k].board, moves[k].pos) == Success(g')
    ensures Play(g, moves[k..]) == Play(g', moves[k + 1..])
  {
    assert moves[k..][0] == moves[k];
    assert moves[k..][1..] == moves[k + 1..];
  }

  /** The record `createGame` inserts satisfies the invariant. */
  lemma CreateGameInv()
    ensures Inv(CreateGame())
  {
    var g := CreateGame();
    forall i | 0 <= i < 9 ensures g.innerWinners[i] == WinnerOf(g.boards[i]) {
      EmptyHasNoWinner(g.boards[i]);
    }
    assert Consistent(g.boards, g.innerWinners);
    EmptyHasNoWinner(g.innerWinners);
    assert StatusFits(g.innerWinners, g.status) by {
      assert !AllDecided(g.innerWinners) by { assert g.innerWinners[0] == Blank; }
    }
    CountGridAbsent(g.boards, X);
    CountGridAbsent(g.boards, O);
    assert Balanced(g.boards, g.currentTurn);
  }

  /** An accepted move keeps the invariant. */
  lemma MakeMoveInv(g: Game, who: Caller, b: Index, p: Index)
    requires Inv(g)
    ensures MakeMove(g, who, b, p).Success? ==> Inv(MakeMove(g, who, b, p).value)
  {
    var r := MakeMove(g, who, b, p);
    if r.Success? {
      var g' := r.value;
      assert g'.boards == Place(g.boards, b, p, g.currentTurn);
      PlaceKeepsBalance(g.boards, b, p, g.currentTurn);
      forall i | 0 <= i < 9 ensures g'.innerWinners[i] == WinnerOf(g'.boards[i]) {
        if i != b {
          assert g'.boards[i] == g.boards[i];
        }
      }
    }
  }

  /** Every game reached from `createGame` by accepted moves satisfies the invariant. */
  lemma {:induction false} PlayInv(g: Game, moves: seq<Move>)
    requires Inv(g)
    ensures Play(g, moves).Success? ==> Inv(Play(g, moves).value)
    decreases |moves|
  {
    if |moves| > 0 {
      var m := moves[0];
      MakeMoveInv(g, m.who, m.board, m.pos);
      var r := MakeMove(g, m.who, m.board, m.pos);
      if r.Success? {
        PlayInv(r.value, moves[1..]);
      }
    }
  }

  /** The invariant over reachable games, spelled out: the active board is
      never a decided one, each outcome is its board's line check, the status
      and winner follow the outcomes, and X leads O by one exactly on O's turn. */
  lemma ReachableInv(moves: seq<Move>)
    ensures var r := Play(CreateGame(), moves);
      r.Success? ==>
      var g := r.value;
      && (g.activeBoard != AnyBoard ==> 0 <= g.activeBoard < 9 && g.innerWinners[g.activeBoard] == Blank)
      && (forall i :: 0 <= i < 9 ==> g.innerWinners[i] == WinnerOf(g.boards[i]))
      && (g.status == Won <==> CheckWinner(g.innerWinners).Some?)
      && g.winner == CheckWinner(g.innerWinners)
      && (g.status == Draw <==> CheckWinner(g.innerWinners).None? && AllDecided(g.innerWinners))
      && CountGrid(g.boards, X) - CountGrid(g.boards, O) == (if g.currentTurn == O then 1 else 0)
  {
    CreateGameInv();
    PlayInv(CreateGame(), moves);
  }

  /** Once a game is won or drawn, every later move is refused as "Game is
      over" and the record never changes again. */
  lemma {:induction false} FinishedStaysFinished(g: Game, moves: seq<Move>)
    requires Shaped(g) && g.status != Playing && |moves| > 0
    ensures Play(g, moves) == Failure(GameOver)
  {
  }

  /** A decided sub-board is frozen: its outcome and every cell of it stay as
      they are through any run of accepted moves. */
  lemma {:induction false} DecidedBoardFrozen(g: Game, moves: seq<Move>, i: Index)
    requires Shaped(g) && g.innerWinners[i] != Blank
    ensures Play(g, moves).Success? ==>
      Play(g, moves).value.innerWinners[i] == g.innerWinners[i]
      && Play(g, moves).value.boards[i] == g.boards[i]
    decreases |moves|
  {
    if |moves| > 0 {
      var m := moves[0];
      var r := MakeMove(g, m.who, m.board, m.pos);
      if r.Success? {
        DecidedBoardFrozen(r.value, moves[1..], i);
      }
    }
  }

  /** A filled cell is never cleared or overwritten. */
  lemma {:induction false} CellsPersist(g: Game, moves: seq<Move>, i: Index, j: Index)
    requires Shaped(g) && g.boards[i][j] != Blank
    ensures Play(g, moves).Success? ==> Play(g, moves).value.boards[i][j] == g.boards[i][j]
    decreases |moves|
  {
    if |moves| > 0 {
      var m := moves[0];
      var r := MakeMove(g, m.who, m.board, m.pos);
      if r.Success? {
        CellsPersist(r.value, moves[1..], i, j);
      }
    }
  }

  /** A sub-board that fills up without a line keeps the empty outcome, so the
      routing rule can make it the active board; then no move at all is
      accepted although the game is still in progress. */
  lemma DeadEnd(g: Game, who: Caller, b: Index, p: Index)
    requires Shaped(g) && Routed(g.activeBoard, g.innerWinners)
    requires g.status == Playing && g.activeBoard != AnyBoard
    requires forall j :: 0 <= j < 9 ==> g.boards[g.activeBoard][j] != Blank
    ensures MakeMove(g, who, b, p).Failure?
    ensures MakeMove(g, who, b, p).error in {NotAPlayer, NotYourTurn, WrongBoard, PositionTaken}
  {
  }
}
