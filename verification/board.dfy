/** The vocabulary shared by both copies of the engine: cell marks, the 9x9
    grid of sub-boards, writing one cell, and counting marks on the grid. */
module Board {

  /** The content of a cell: the empty string, "X" or "O". */
  datatype Mark = Blank | X | O

  /** A mark that a player puts down; `currentTurn` is always one of these. */
  type Player = m: Mark | m != Blank witness X

  /** A sub-board id or a cell position, 0 to 8. */
  type Index = i: int | 0 <= i < 9

  /** The `activeBoard` value meaning "any undecided board may be played". */
  const AnyBoard: int := -1

  /** The `status` of a game: "playing", "won" or "draw". */
  datatype Status = Playing | Won | Draw

  /** The player who moves after `p`: the only player other than `p`. */
  function Other(p: Player): (q: Player)
    ensures q != p
  {
    if p == X then O else X
  }

  /** The player who makes move `k` of a game, counting from 0: X opens. */
  function TurnAt(k: nat): Player {
    if k % 2 == 0 then X else O
  }

  /** Nine sub-boards of nine cells each. */
  predicate Grid(boards: seq<seq<Mark>>) {
    |boards| == 9 && forall i :: 0 <= i < 9 ==> |boards[i]| == 9
  }

  /** Nine boards of nine empty cells. */
  function EmptyGrid(): (g: seq<seq<Mark>>)
    ensures Grid(g)
    ensures forall i, j :: 0 <= i < 9 && 0 <= j < 9 ==> g[i][j] == Blank
  {
    seq(9, _ => seq(9, _ => Blank))
  }

  /** The grid with cell `p` of sub-board `b` set to `m`; every other cell of
      every board is kept. */
  function Place(boards: seq<seq<Mark>>, b: Index, p: Index, m: Mark): (r: seq<seq<Mark>>)
    requires Grid(boards)
    ensures Grid(r)
    ensures r[b][p] == m
    ensures forall j :: 0 <= j < 9 && j != p ==> r[b][j] == boards[b][j]
    ensures forall i :: 0 <= i < 9 && i != b ==> r[i] == boards[i]
  {
    boards[b := boards[b][p := m]]
  }

  /** Number of cells of `cells` holding `m`. */
  function Count(cells: seq<Mark>, m: Mark): nat
    decreases |cells|
  {
    if |cells| == 0 then 0 else (if cells[0] == m then 1 else 0) + Count(cells[1..], m)
  }

  /** Number of cells of all boards holding `m`. */
  function CountGrid(boards: seq<seq<Mark>>, m: Mark): nat
    decreases |boards|
  {
    if |boards| == 0 then 0 else Count(boards[0], m) + CountGrid(boards[1..], m)
  }

  /** X has moved once more than O when it is O's turn, and as often as O otherwise. */
  predicate Balanced(boards: seq<seq<Mark>>, turn: Player) {
    CountGrid(boards, X) == CountGrid(boards, O) + (if turn == O then 1 else 0)
  }

  /** Overwriting one cell moves one unit of count from the old mark to the new one. */
  lemma {:induction false} CountUpdate(cells: seq<Mark>, p: nat, m: Mark, v: Mark)
    requires p < |cells|
    ensures Count(cells[p := v], m) + (if cells[p] == m then 1 else 0)
         == Count(cells, m) + (if v == m then 1 else 0)
    decreases p
  {
    if p == 0 {
      assert cells[p := v][1..] == cells[1..];
    } else {
      CountUpdate(cells[1..], p - 1, m, v);
      assert cells[p := v][1..] == cells[1..][p - 1 := v];
    }
  }

  /** Replacing one board changes the grid count by the difference of the two boards' counts. */
  lemma {:induction false} CountGridUpdate(boards: seq<seq<Mark>>, b: nat, row: seq<Mark>, m: Mark)
    requires b < |boards|
    ensures CountGrid(boards[b := row], m) + Count(boards[b], m)
         == CountGrid(boards, m) + Count(row, m)
    decreases b
  {
    if b == 0 {
      assert boards[b := row][1..] == boards[1..];
    } else {
      CountGridUpdate(boards[1..], b - 1, row, m);
      assert boards[b := row][1..] == boards[1..][b - 1 := row];
    }
  }

  /** A board without `m` counts no `m`. */
  lemma {:induction false} CountAbsent(cells: seq<Mark>, m: Mark)
    requires forall i :: 0 <= i < |cells| ==> cells[i] != m
    ensures Count(cells, m) == 0
    decreases |cells|
  {
    if |cells| > 0 {
      CountAbsent(cells[1..], m);
    }
  }

  /** A grid without `m` counts no `m`. */
  lemma {:induction false} CountGridAbsent(boards: seq<seq<Mark>>, m: Mark)
    requires forall i, j :: 0 <= i < |boards| && 0 <= j < |boards[i]| ==> boards[i][j] != m
    ensures CountGrid(boards, m) == 0
    decreases |boards|
  {
    if |boards| > 0 {
      CountAbsent(boards[0], m);
      CountGridAbsent(boards[1..], m);
    }
  }

  /** Writing `m` into an empty cell adds one `m` and leaves every other mark's count alone. */
  lemma PlaceCounts(boards: seq<seq<Mark>>, b: Index, p: Index, m: Player, n: Mark)
    requires Grid(boards) && boards[b][p] == Blank && n != Blank
    ensures CountGrid(Place(boards, b, p, m), n) == CountGrid(boards, n) + (if n == m then 1 else 0)
  {
    CountUpdate(boards[b], p, n, m);
    CountGridUpdate(boards, b, boards[b][p := m], n);
  }

  /** Placing the mover's mark in an empty cell and handing the turn over keeps the
      X/O balance. */
  lemma PlaceKeepsBalance(boards: seq<seq<Mark>>, b: Index, p: Index, turn: Player)
    requires Grid(boards) && boards[b][p] == Blank && Balanced(boards, turn)
    ensures Balanced(Place(boards, b, p, turn), Other(turn))
  {
    PlaceCounts(boards, b, p, turn, X);
    PlaceCounts(boards, b, p, turn, O);
  }
}
