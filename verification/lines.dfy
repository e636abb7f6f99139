/** The line check `checkWinner` (convex/games.ts and src/gameSlice.ts carry
    identical copies) and the facts both engines keep about it. */
module Lines {

  import opened Wrappers
  import opened Board

  /** The eight winning lines in the order the check scans them: the three
      rows, the three columns, then the two diagonals. */
  const WinLines: seq<(Index, Index, Index)> :=
    [(0, 1, 2), (3, 4, 5), (6, 7, 8),
     (0, 3, 6), (1, 4, 7), (2, 5, 8),
     (0, 4, 8), (2, 4, 6)]

  /** Line `k` holds three equal non-empty marks. */
  predicate Complete(cells: seq<Mark>, k: nat)
    requires |cells| == 9 && k < 8
  {
    var (a, b, c) := WinLines[k];
    cells[a] != Blank && cells[a] == cells[b] && cells[a] == cells[c]
  }

  /** Line `k` is complete and no line before it in scan order is. */
  predicate FirstComplete(cells: seq<Mark>, k: nat)
    requires |cells| == 9 && k < 8
  {
    Complete(cells, k) && forall i :: 0 <= i < k ==> !Complete(cells, i)
  }

  /** The scan of lines `k..7`, returning the mark of the first complete one. */
  function Scan(cells: seq<Mark>, k: nat): Option<Player>
    requires |cells| == 9 && k <= 8
    decreases 8 - k
  {
    if k == 8 then None
    else if Complete(cells, k) then Some(cells[WinLines[k].0])
    else Scan(cells, k + 1)
  }

  /** `checkWinner`: the mark of the first complete line, or nothing. */
  function CheckWinner(cells: seq<Mark>): Option<Player>
    requires |cells| == 9
  {
    Scan(cells, 0)
  }

  /** The scan from line `k` finds nothing exactly when no line from `k` on is
      complete, and otherwise returns the mark of the first complete one. */
  lemma {:induction false} ScanSpec(cells: seq<Mark>, k: nat)
    requires |cells| == 9 && k <= 8
    ensures Scan(cells, k).None? <==> forall j :: k <= j < 8 ==> !Complete(cells, j)
    ensures Scan(cells, k).Some? ==>
      exists j :: k <= j < 8 && Complete(cells, j) && cells[WinLines[j].0] == Scan(cells, k).value
                  && forall i :: k <= i < j ==> !Complete(cells, i)
    decreases 8 - k
  {
    if k < 8 && !Complete(cells, k) {
      ScanSpec(cells, k + 1);
    }
  }

  /** `checkWinner` returns nothing exactly when none of the eight lines is
      complete; otherwise it returns the mark filling the first complete line
      in scan order. */
  lemma CheckWinnerSpec(cells: seq<Mark>)
    requires |cells| == 9
    ensures CheckWinner(cells).None? <==> forall j :: 0 <= j < 8 ==> !Complete(cells, j)
    ensures CheckWinner(cells).Some? ==>
      exists j :: 0 <= j < 8 && FirstComplete(cells, j)
                  && var (a, b, c) := WinLines[j];
                     cells[a] == CheckWinner(cells).value && cells[b] == CheckWinner(cells).value
                     && cells[c] == CheckWinner(cells).value
  {
    ScanSpec(cells, 0);
  }

  /** The sub-board outcome as the engines store it: the winner's mark, or the
      empty mark when no line is complete (there is no separate "draw" value). */
  function WinnerOf(cells: seq<Mark>): Mark
    requires |cells| == 9
  {
    match CheckWinner(cells)
    case Some(m) => m
    case None => Blank
  }

  /** Every stored sub-board outcome is the line check of its board. */
  predicate Consistent(boards: seq<seq<Mark>>, innerWinners: seq<Mark>)
    requires Grid(boards) && |innerWinners| == 9
  {
    forall i :: 0 <= i < 9 ==> innerWinners[i] == WinnerOf(boards[i])
  }

  /** Every sub-board has a recorded winner. */
  predicate AllDecided(innerWinners: seq<Mark>)
  {
    forall i :: 0 <= i < |innerWinners| ==> innerWinners[i] != Blank
  }

  /** The game status agrees with the line check over the sub-board outcomes:
      "won" exactly when a meta-line is complete, "draw" exactly when none is
      and every sub-board is decided. */
  predicate StatusFits(innerWinners: seq<Mark>, status: Status)
    requires |innerWinners| == 9
  {
    && (status == Won <==> CheckWinner(innerWinners).Some?)
    && (status == Draw <==> CheckWinner(innerWinners).None? && AllDecided(innerWinners))
  }

  /** The active board is "any", or an undecided board. */
  predicate Routed(activeBoard: int, innerWinners: seq<Mark>)
    requires |innerWinners| == 9
  {
    activeBoard == AnyBoard || (0 <= activeBoard < 9 && innerWinners[activeBoard] == Blank)
  }

  /** A board with no marks has no complete line. */
  lemma EmptyHasNoWinner(cells: seq<Mark>)
    requires |cells| == 9 && forall i :: 0 <= i < 9 ==> cells[i] == Blank
    ensures CheckWinner(cells) == None
  {
    forall j | 0 <= j < 8 ensures !Complete(cells, j) {
      assert cells[WinLines[j].0] == Blank;
    }
    CheckWinnerSpec(cells);
  }

  /** A board on which each of the eight lines is incomplete has no winner. */
  lemma NoLineIn(cells: seq<Mark>)
    requires |cells| == 9
    requires !Complete(cells, 0) && !Complete(cells, 1) && !Complete(cells, 2) && !Complete(cells, 3)
    requires !Complete(cells, 4) && !Complete(cells, 5) && !Complete(cells, 6) && !Complete(cells, 7)
    ensures CheckWinner(cells) == None
  {
    CheckWinnerSpec(cells);
  }

  /** A board whose marks are among a line-free board's marks is line-free too. */
  lemma FewerMarksNoLine(cells: seq<Mark>, full: seq<Mark>)
    requires |cells| == 9 && |full| == 9 && CheckWinner(full) == None
    requires forall j :: 0 <= j < 9 ==> cells[j] == Blank || cells[j] == full[j]
    ensures CheckWinner(cells) == None
  {
    CheckWinnerSpec(full);
    forall k | 0 <= k < 8 ensures !Complete(cells, k) {
      assert !Complete(full, k);
    }
    CheckWinnerSpec(cells);
  }

  /** Writing a mark into an empty cell cannot break a complete line, so a
      board that has a winner keeps having one. */
  lemma WinPersists(cells: seq<Mark>, p: Index, m: Player)
    requires |cells| == 9 && cells[p] == Blank && CheckWinner(cells).Some?
    ensures CheckWinner(cells[p := m]).Some?
  {
    CheckWinnerSpec(cells);
    var j :| 0 <= j < 8 && Complete(cells, j);
    assert Complete(cells[p := m], j);
    CheckWinnerSpec(cells[p := m]);
  }
}
