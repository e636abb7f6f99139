# Ultimate Tic-Tac-Toe move engine

A Dafny model of the move engine of an Ultimate Tic-Tac-Toe game: nine 3x3
sub-boards, where the cell a player marks names the sub-board the opponent
must play in next. The repository holds the engine twice, and both copies
are modelled:

- the server copy, `convex/games.ts`: the record `createGame` inserts, the
  pure part of the `makeMove` mutation (its guard chain, the mark, the
  sub-board winner, the overall winner or draw, the routing of the next
  active board, the turn flip) and `checkWinner`;
- the client copy, `src/gameSlice.ts`: the Redux slice's `initialState`, its
  own `checkWinner`, the `makeMove` reducer and `resetGame`.

Modules:

- `Wrappers` (wrappers.dfy): `Option` and `Result`.
- `Board` (board.dfy): the cell mark (`Blank` is the empty string, `X`, `O`),
  the 9x9 grid, writing one cell (`Place`), and counting marks, used to state
  the X/O balance.
- `Lines` (lines.dfy): the eight winning lines in scan order, `checkWinner`
  (a recursive scan of the lines), the sub-board outcome as stored
  (`WinnerOf`: the winner's mark or the empty mark), and the invariant
  predicates both copies keep.
- `Games` (games.dfy): the server record, `CreateGame`, `MakeMove` (guards;
  a rejection is a `Failure` carrying the reason, so nothing is patched),
  `Apply` (the patched record), the invariant `Inv` and its induction over
  runs of moves (`Play`).
- `DeadEndGame` (dead_end_game.dfy): a concrete run of 18 moves after which
  the server game is still in progress but accepts no move.
- `GameSlice` (game_slice.dfy): the slice state (no `winner` field), the
  reducer (a failed guard returns the state unchanged), its invariant, and
  its comparison with the server.
- `OverwriteGame` (overwrite_game.dfy): a concrete run of 13 reducer actions
  from `initialState` after which a move into a won board changes that
  board's outcome; the server, given the same moves, refuses that move.

The signed-in user enters the server model only as the two facts the handler
derives from the user id: whether they are the game's X player and whether
they are its O player (`Games.Caller`). The `activeBoard` value keeps the
code's `-1` meaning "any board" (`Board.AnyBoard`).

A sub-board that fills up without a line gets no outcome: only `X` or `O` is
ever stored (convex/games.ts:93-95), so an overall draw needs all nine
sub-boards to be won. The server rejects a caller who holds neither seat and a
player moving out of turn, and the model keeps the handler's six guards in the
order the code checks them (convex/games.ts:43-79).

Two consequences of the code as written are proved rather than repaired:

- `DeadEndGame.DeadEndReachable`: a sub-board that fills up without a line
  keeps the empty outcome, so the routing rule can make it the active board;
  after a concrete run of 18 accepted moves the game is still "playing" and
  every further move is rejected.
- `OverwriteGame.DecidedBoardOverwritten`: the reducer has no "already
  completed" guard. After a concrete run of 13 actions from `initialState`,
  X has won board 0 with its bottom row and O may play anywhere. O's move
  into cell 2 of board 0 is accepted. It completes O's top row, which comes
  first in scan order, so the board's outcome changes from X to O. The
  server accepts the same 13 moves, reaches the same state, and rejects
  that move (`OverwriteGame.ServerRefusesOverwrite`).

## Model

| member | source | states |
|---|---|---|
| Board.Other | convex/games.ts:110 | the next player is never the one who just moved |
| Board.EmptyGrid | convex/games.ts:13-17 | nine boards, each of nine empty cells |
| Board.Place | convex/games.ts:82-88 | cell `p` of board `b` becomes the mark; every other cell of board `b` and every other board is unchanged |
| Board.PlaceKeepsBalance | convex/games.ts:81-110 | writing the mover's mark into an empty cell and passing the turn keeps "X count minus O count is 1 on O's turn and 0 otherwise" |
| Lines.ScanSpec | convex/games.ts:174-179 | the scan from line `k` finds nothing exactly when no later line is complete, else the mark of the first complete line from `k` on |
| Lines.CheckWinnerSpec | convex/games.ts:162-180 | `checkWinner` is null exactly when none of the eight lines holds three equal non-empty marks; otherwise it returns the mark filling the first such line in the listed order |
| Lines.EmptyHasNoWinner | convex/games.ts:162-180 | a board of empty cells has no winner |
| Lines.WinPersists | src/gameSlice.ts:52-56 | marking an empty cell never breaks a complete line, so a board with a winner keeps one |
| Games.CreateGame | convex/games.ts:13-26 | the new game has nine 9-cell empty boards, X to move, active board -1, all inner winners empty, status "playing" and no winner |
| Games.CreateGameInv | convex/games.ts:13-26 | the new game satisfies the reachable-state invariant |
| Games.MakeMove | convex/games.ts:43-79 | the reported rejection is the first violated condition in the order game over, not a player, not your turn, wrong active board, board completed, position taken; a move is accepted exactly when none is violated |
| Games.Apply | convex/games.ts:81-115 | an accepted move changes exactly `boards[b][p]` from empty to the mover's mark, flips the turn, changes only `innerWinners[b]`, which becomes the line check of the new board, routes play to `p` or to -1 exactly when board `p` is decided, sets "won" exactly when the meta line check finds a winner (and stores it) and "draw" exactly when it finds none and every board is decided |
| Games.Stored | convex/games.ts:108-115 | the stored record is unchanged exactly when the handler throws |
| Games.OpeningMove | convex/games.ts:101-110 | from a new game, X marking cell 0 of board 4 sends O to board 0 with the game still in progress |
| Games.MakeMoveInv | convex/games.ts:66-115 | an accepted move preserves the invariant |
| Games.PlayInv | convex/games.ts:66-115 | every run of accepted moves from an invariant state ends in an invariant state |
| Games.ReachableInv | convex/games.ts:91-114 | in every reachable game the active board is -1 or an undecided board, each inner winner is its board's line check or empty, "won" holds iff the meta line check finds a winner, which is the stored winner, "draw" iff it finds none and all boards are decided, and X leads O by one exactly on O's turn |
| Games.FinishedStaysFinished | convex/games.ts:43 | once the game is won or drawn every later move is rejected as game over |
| Games.DecidedBoardFrozen | convex/games.ts:71-74 | once an inner winner is set, it and its board never change again |
| Games.CellsPersist | convex/games.ts:76-79 | a marked cell is never cleared or overwritten |
| Games.DeadEnd | convex/games.ts:101-106 | when play is routed to a full board of a game in progress, every move is rejected |
| DeadEndGame.DeadEndReachable | convex/games.ts:91-106 | a concrete run of accepted moves from a new game reaches a game in progress whose active board is full and undecided, where no move is accepted |
| GameSlice.InitialState | src/gameSlice.ts:11-19 | the initial state has empty boards, X to move, active board -1, all inner winners empty and status "playing" |
| GameSlice.InitialInv | src/gameSlice.ts:11-19 | the initial state satisfies the invariant and equals the server's new game without its `winner` field |
| GameSlice.ResetGame | src/gameSlice.ts:67 | whatever the state, reset yields the server's new game, which satisfies the invariant |
| GameSlice.CheckWinnerAgrees | src/gameSlice.ts:21-38 | the slice's `checkWinner` equals the server's on every board: same lines, same order |
| GameSlice.MakeMove | src/gameSlice.ts:48-51 | the reducer leaves the state unchanged exactly when the game is over, the cell is taken or the board is not the active one |
| GameSlice.Apply | src/gameSlice.ts:52-65 | an accepted move writes only `boards[b][p]`, flips the turn, changes only `innerWinners[b]` (to the board's line check when it has a line, else kept), routes play to `p` or to -1 exactly when board `p` is decided, and sets the status from the meta line check as the server does |
| GameSlice.MakeMoveInv | src/gameSlice.ts:44-66 | every reducer step, including a move into a decided board, preserves the invariant |
| GameSlice.RunInv | src/gameSlice.ts:44-66 | every sequence of reducer steps from an invariant state ends in an invariant state |
| GameSlice.ReachableInv | src/gameSlice.ts:44-66 | every state reached from `initialState` keeps the same invariant as the server's reachable games |
| GameSlice.DecidedStaysDecided | src/gameSlice.ts:53-56 | a decided board stays decided through any sequence of actions |
| GameSlice.FinishedStaysFinished | src/gameSlice.ts:48 | once the game is won or drawn every action is a no-op |
| GameSlice.AgreesWithServer | src/gameSlice.ts:44-66 | when the played board is undecided and the caller holds the seat to move, the reducer changes the state exactly when the server accepts, and to the server's new record minus `winner` |
| OverwriteGame.DecidedBoardOverwritten | src/gameSlice.ts:44-66 | a concrete run of actions from `initialState` reaches a game in progress where X has won board 0, O is to move and may play anywhere; O's move into that board is accepted and the board's outcome becomes O |
| OverwriteGame.ServerRefusesOverwrite | convex/games.ts:43-114 | the server accepts the same run of moves from a new game, reaches the same state, and rejects O's move into board 0 as "board already completed" |

## Left out

- Authentication and storage: `getAuthUserId`, the "Not authenticated" and "Game not found" errors, `ctx.db.get/insert/patch/delete`, and the player ids of the record. The caller's identity is reduced to `Games.Caller`.
- `deleteGame`, `getGame`, `listGames` (convex/games.ts) and convex/users.ts: storage queries and user listing, outside the engine.
- The `??` fallbacks for legacy records (convex/games.ts:58-64) and the old single-board field: records are assumed well formed (nine boards of nine cells, nine inner winners), which every engine member requires.
- Out-of-range or fractional `boardIndex`/`position`: the arguments are typed 0..8 (`Board.Index`).
- Status and turn strings other than "playing"/"won"/"draw" and "X"/"O": the model's types admit only those values.
- convex/schema.ts (type declarations), src/App.tsx and src/GameBoard.tsx (React rendering): not part of this model.
- Serialising concurrent mutations of one game: the host's job, not the engine's.
