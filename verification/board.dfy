/** The Connect Four program the video teaches (the text shown in its code
    windows): `make_board`, `add_token` and the four `winner_*` scans.

    A board is a list of rows, row 0 at the top; a cell holds the string
    " " when it is free and the player's token otherwise.  Every Python
    index `b[r][c]` of the program appears here as a Dafny sequence index,
    so Dafny's obligation that the index is in range is exactly the video's
    point that the `- 3` bounds and the column start 3 keep the scans on the
    board.
 */
module Board {

  import opened Wrappers

  type Token = string
  type Board = seq<seq<Token>>

  /** The token of a free cell. */
  const Free: Token := " "

  /** Every row has the same length as every other. */
  predicate Rectangular(b: Board) {
    forall i, j :: 0 <= i < |b| && 0 <= j < |b| ==> |b[i]| == |b[j]|
  }

  /** Python's `[x] * n` and `range(0, n)` treat a negative count as zero. */
  function Count(n: int): nat { if n < 0 then 0 else n }

  // ---------------------------------------------------------------------
  // make_board

  /** `[" "] * width` */
  function FreeRow(width: int): (row: seq<Token>)
    ensures |row| == Count(width)
    ensures forall c :: 0 <= c < |row| ==> row[c] == Free
  {
    seq(Count(width), _ => Free)
  }

  /** The list `b` after the loop of `make_board` has appended `n` rows. */
  function {:induction false} MakeRows(width: int, n: nat): (b: Board)
    ensures |b| == n
    ensures forall r :: 0 <= r < n ==> |b[r]| == Count(width)
    ensures forall r, c :: 0 <= r < n && 0 <= c < |b[r]| ==> b[r][c] == Free
    decreases n
  {
    if n == 0 then [] else MakeRows(width, n - 1) + [FreeRow(width)]
  }

  /** `make_board(width, height)` */
  function MakeBoard(width: int, height: int): (b: Board)
    ensures |b| == Count(height)
    ensures Rectangular(b)
    ensures forall r :: 0 <= r < |b| ==> |b[r]| == Count(width)
    ensures forall r, c :: 0 <= r < |b| && 0 <= c < |b[r]| ==> b[r][c] == Free
  {
    MakeRows(width, Count(height))
  }

  // ---------------------------------------------------------------------
  // add_token

  /** `board[row][col] = player`: the board with one cell replaced. */
  function SetCell(b: Board, row: nat, col: nat, v: Token): (b': Board)
    requires row < |b| && col < |b[row]|
    ensures |b'| == |b|
    ensures forall r :: 0 <= r < |b| ==> |b'[r]| == |b[r]|
    ensures b'[row][col] == v
    ensures forall r, c :: 0 <= r < |b| && 0 <= c < |b[r]| && (r, c) != (row, col) ==> b'[r][c] == b[r][c]
  {
    b[row := b[row][col := v]]
  }

  /** The loop `for row in range(from, len(board))` of `add_token`, looking
      for the first occupied cell of column `col`. */
  function FirstOccupied(b: Board, col: nat, from: nat): (r: Option<nat>)
    requires Rectangular(b) && |b| > 0 && col < |b[0]|
    ensures r.Some? ==> from <= r.value < |b| && b[r.value][col] != Free
    ensures r.Some? ==> forall k :: from <= k < r.value ==> b[k][col] == Free
    ensures r.None? ==> forall k :: from <= k < |b| ==> b[k][col] == Free
    decreases |b| - from
  {
    if from >= |b| then None
    else if b[from][col] != Free then Some(from)
    else FirstOccupied(b, col, from + 1)
  }

  /** Where a token dropped into column `col` comes to rest: the free cell
      directly above the highest occupied cell below the top row, or the
      bottom row when the column is free. */
  ghost predicate IsLanding(b: Board, col: nat, row: nat)
    requires Rectangular(b) && |b| > 0 && col < |b[0]|
  {
    && row < |b|
    && (forall k :: 1 <= k <= row ==> b[k][col] == Free)
    && (row + 1 < |b| ==> b[row + 1][col] != Free)
  }

  /** The row `add_token` writes into when the top cell of `col` is free and
      the board has at least two rows. */
  function LandingRow(b: Board, col: nat): (row: nat)
    requires Rectangular(b) && |b| >= 2 && col < |b[0]|
    ensures IsLanding(b, col, row)
    ensures forall other :: 0 <= other < |b| && IsLanding(b, col, other) ==> other == row
  {
    match FirstOccupied(b, col, 1)
    case Some(r) => r - 1
    case None => |b| - 1
  }

  /** `add_token(col, player, board)`: the board it leaves behind, or the
      exception it raises.  A full column leaves the board as it was; a
      one-row board with a free top cell reads the loop variable `row` that
      the empty loop never bound. */
  function AddToken(col: int, player: Token, board: Board): (r: Result<Board>)
    requires Rectangular(board)
    ensures r.Ok? <==> |board| > 0 && -|board[0]| <= col < |board[0]|
                       && !(|board| == 1 && board[0][NormIndex(|board[0]|, col).value] == Free)
    ensures r.Ok? ==> var c := NormIndex(|board[0]|, col).value;
                      board[0][c] != Free ==> r.value == board
    ensures r.Ok? ==> var c := NormIndex(|board[0]|, col).value;
                      board[0][c] == Free ==> r.value == SetCell(board, LandingRow(board, c), c, player)
  {
    if |board| == 0 then Err(IndexError)
    else match NormIndex(|board[0]|, col)
      case None => Err(IndexError)
      case Some(c) =>
        if board[0][c] != Free then Ok(board)
        else match FirstOccupied(board, c, 1)
          case Some(row) => Ok(SetCell(board, row - 1, c, player))
          case None =>
            if |board| == 1 then Err(UnboundLocal)
            else Ok(SetCell(board, |board| - 1, c, player))
  }

  /** A successful drop into a free column changes exactly one cell, in that
      column, to the player's token, and keeps the shape of the board. */
  lemma AddTokenChangesOneCell(col: nat, player: Token, board: Board)
    requires Rectangular(board) && |board| >= 2 && col < |board[0]|
    requires board[0][col] == Free
    ensures AddToken(col, player, board).Ok?
    ensures var b' := AddToken(col, player, board).value;
            && Rectangular(b') && |b'| == |board|
            && (exists row ::
                  && 0 <= row < |board| && IsLanding(board, col, row) && b'[row][col] == player
                  && forall r, c :: 0 <= r < |board| && 0 <= c < |board[r]| && (r, c) != (row, col) ==> b'[r][c] == board[r][c])
  {
    var row := LandingRow(board, col);
    var b' := AddToken(col, player, board).value;
    assert b'[row][col] == player;
  }

  /** A board as gravity leaves it: column c holds the stack `stacks[c]`,
      bottom cell first, and is free above it. */
  ghost predicate HoldsStacks(b: Board, stacks: seq<seq<Token>>) {
    && Rectangular(b) && |b| > 0 && |b[0]| == |stacks|
    && (forall c :: 0 <= c < |stacks| ==> |stacks[c]| <= |b|)
    && (forall c, i :: 0 <= c < |stacks| && 0 <= i < |stacks[c]| ==> stacks[c][i] != Free)
    && (forall r, c :: 0 <= r < |b| && 0 <= c < |stacks| ==>
          b[r][c] == if r >= |b| - |stacks[c]| then stacks[c][|b| - 1 - r] else Free)
  }

  /** The stacks determine the board: two boards of the same height that
      hold the same stacks are equal. */
  lemma StacksDetermineBoard(b1: Board, b2: Board, stacks: seq<seq<Token>>)
    requires HoldsStacks(b1, stacks) && HoldsStacks(b2, stacks) && |b1| == |b2|
    ensures b1 == b2
  {
    forall r | 0 <= r < |b1| ensures b1[r] == b2[r] {
      assert |b1[r]| == |b1[0]| && |b2[r]| == |b2[0]|;
      forall c | 0 <= c < |b1[r]| ensures b1[r][c] == b2[r][c] {
        assert c < |stacks|;
        var n := |stacks[c]|;
        assert b1[r][c] == if r >= |b1| - n then stacks[c][|b1| - 1 - r] else Free;
        assert b2[r][c] == if r >= |b2| - n then stacks[c][|b2| - 1 - r] else Free;
      }
    }
  }

  /** A fresh board holds an empty stack in every column. */
  lemma MakeBoardHoldsNothing(width: nat, height: nat)
    requires height > 0
    ensures HoldsStacks(MakeBoard(width, height), seq(width, _ => []))
  {
  }

  /** Dropping into a column that is not full pushes the token on top of
      that column's stack and leaves every other stack as it was. */
  lemma AddTokenPushes(col: nat, player: Token, b: Board, stacks: seq<seq<Token>>)
    requires HoldsStacks(b, stacks) && |b| >= 2 && col < |stacks|
    requires |stacks[col]| < |b| && player != Free
    ensures LandingRow(b, col) == |b| - 1 - |stacks[col]|
    ensures AddToken(col, player, b).Ok?
    ensures HoldsStacks(AddToken(col, player, b).value, stacks[col := stacks[col] + [player]])
  {
    var row := |b| - 1 - |stacks[col]|;
    assert IsLanding(b, col, row);
    assert b[0][col] == Free;
    assert NormIndex(|b[0]|, col) == Some(col);
  }

  /** Dropping into a full column changes nothing. */
  lemma AddTokenFullColumn(col: nat, player: Token, b: Board, stacks: seq<seq<Token>>)
    requires HoldsStacks(b, stacks) && col < |stacks| && |stacks[col]| == |b|
    ensures AddToken(col, player, b) == Ok(b)
  {
    assert b[0][col] == stacks[col][|b| - 1];
    assert NormIndex(|b[0]|, col) == Some(col);
  }

  // ---------------------------------------------------------------------
  // winner_horizontal, winner_vertical, winner_diagonal1, winner_diagonal2

  /** The four scans differ only in the direction of the window of four
      cells and in the bounds of their two loops. */
  datatype Direction = Horizontal | Vertical | Diagonal1 | Diagonal2

  function RowStep(d: Direction): int {
    if d.Horizontal? then 0 else 1
  }

  function ColStep(d: Direction): int {
    match d
    case Horizontal => 1
    case Vertical => 0
    case Diagonal1 => 1
    case Diagonal2 => -1
  }

  /** Stop of the outer loop: `len(b)`, or `len(b) - 3` when the window
      goes down. */
  function RowStop(b: Board, d: Direction): int {
    if d.Horizontal? then |b| else |b| - 3
  }

  /** Start of the inner loop: 3 for the down-left diagonal, else 0. */
  function ColStart(d: Direction): int {
    if d.Diagonal2? then 3 else 0
  }

  /** Stop of the inner loop: `len(b[row]) - 3` when the window goes
      right, `len(b[row])` otherwise. */
  function ColStop(b: Board, d: Direction, row: nat): int
    requires row < |b|
  {
    if d.Horizontal? || d.Diagonal1? then |b[row]| - 3 else |b[row]|
  }

  /** The scan of direction `d` visits start (row, col). */
  predicate InScan(b: Board, d: Direction, row: int, col: int) {
    0 <= row < RowStop(b, d) && row < |b| && ColStart(d) <= col < ColStop(b, d, row)
  }

  /** What the program relies on: the horizontal scan reads each row on its
      own, the other three read the rows below, which must be as long. */
  predicate Scannable(b: Board, d: Direction) {
    d.Horizontal? || Rectangular(b)
  }

  /** The `- 3` bounds and the start column 3 keep every cell of every
      window on the board: `b[row + k*dr][col + k*dc]` is in range for
      k = 0..3. */
  lemma WindowInBounds(b: Board, d: Direction, row: int, col: int, k: int)
    requires Scannable(b, d) && InScan(b, d, row, col) && 0 <= k <= 3
    ensures 0 <= row + k * RowStep(d) < |b|
    ensures 0 <= col + k * ColStep(d) < |b[row + k * RowStep(d)]|
  {
  }

  /** `b[row + k*dr][col + k*dc]` read with Python's indexing: a negative
      index counts from the end, one outside the list raises IndexError. */
  function PyCell(b: Board, d: Direction, row: int, col: int, k: int): (r: Result<Token>)
    ensures r.Ok? <==> NormIndex(|b|, row + k * RowStep(d)).Some?
                       && NormIndex(|b[NormIndex(|b|, row + k * RowStep(d)).value]|, col + k * ColStep(d)).Some?
    ensures r.Err? ==> r.error == IndexError
  {
    match NormIndex(|b|, row + k * RowStep(d))
    case None => Err(IndexError)
    case Some(i) =>
      match NormIndex(|b[i]|, col + k * ColStep(d))
      case None => Err(IndexError)
      case Some(j) => Ok(b[i][j])
  }

  /** Within the scan's bounds Python reads exactly the window's cells. */
  lemma PyCellInScan(b: Board, d: Direction, row: int, col: int, k: int)
    requires Scannable(b, d) && InScan(b, d, row, col) && 0 <= k <= 3
    ensures PyCell(b, d, row, col, k) == Ok(Cell(b, d, row, col, k))
  {
    WindowInBounds(b, d, row, col, k);
  }

  /** Without the `- 3`, the inner loop of the horizontal scan would reach
      the last column, and the first comparison there reads one cell past
      the end of the row: an IndexError.  Starting the down-left diagonal
      at column 0 instead of 3 reads column -1, which Python silently takes
      as the last column of the next row. */
  lemma WhyTheBoundsMatter(b: Board, row: int)
    requires 0 <= row < |b| && |b[row]| > 0
    ensures var last := |b[row]| - 1;
            && !InScan(b, Horizontal, row, last)
            && PyCell(b, Horizontal, row, last, 1) == Err(IndexError)
    ensures row + 1 < |b| && |b[row + 1]| > 0 ==>
              && !InScan(b, Diagonal2, row, 0)
              && PyCell(b, Diagonal2, row, 0, 1) == Ok(b[row + 1][|b[row + 1]| - 1])
  {
  }

  /** Cell k of the window that starts at (row, col). */
  function Cell(b: Board, d: Direction, row: int, col: int, k: int): Token
    requires Scannable(b, d) && InScan(b, d, row, col) && 0 <= k <= 3
  {
    WindowInBounds(b, d, row, col, k);
    b[row + k * RowStep(d)][col + k * ColStep(d)]
  }

  /** Four equal tokens, not free, in the window that starts at (row, col). */
  predicate IsRun(b: Board, d: Direction, row: int, col: int)
    requires Scannable(b, d)
  {
    && InScan(b, d, row, col)
    && b[row][col] != Free
    && b[row][col] == Cell(b, d, row, col, 1)
    && b[row][col] == Cell(b, d, row, col, 2)
    && b[row][col] == Cell(b, d, row, col, 3)
  }

  /** (r, c) comes at or after (row, col) in the row-major order of the
      two nested loops. */
  predicate AtOrAfter(r: int, c: int, row: int, col: int) {
    r > row || (r == row && c >= col)
  }

  /** The two nested loops of a `winner_*` function, resumed at start
      (row, col).  Each `b[...]` below is an index the program performs,
      with the short-circuit `and` guarding the later comparisons. */
  function ScanFrom(b: Board, d: Direction, row: nat, col: int): Token
    requires Scannable(b, d)
    requires col >= ColStart(d)
    decreases RowStop(b, d) - row, if row < |b| then ColStop(b, d, row) - col else 0
  {
    if row >= RowStop(b, d) || row >= |b| then Free
    else if col >= ColStop(b, d, row) then ScanFrom(b, d, row + 1, ColStart(d))
    else if b[row][col] == Free then ScanFrom(b, d, row, col + 1)
    else
      var dr, dc := RowStep(d), ColStep(d);
      if b[row][col] == b[row + dr][col + dc]
         && b[row][col] == b[row + 2 * dr][col + 2 * dc]
         && b[row][col] == b[row + 3 * dr][col + 3 * dc]
      then b[row][col]
      else ScanFrom(b, d, row, col + 1)
  }

  /** `winner_horizontal(b)`, `winner_vertical(b)`, `winner_diagonal1(b)`
      and `winner_diagonal2(b)`. */
  function Winner(b: Board, d: Direction): Token
    requires Scannable(b, d)
  {
    ScanFrom(b, d, 0, ColStart(d))
  }

  /** No start at or after (row, col) begins a run. */
  ghost predicate NoRunFrom(b: Board, d: Direction, row: int, col: int)
    requires Scannable(b, d)
  {
    forall r, c :: AtOrAfter(r, c, row, col) ==> !IsRun(b, d, r, c)
  }

  /** (r, c) is the first start at or after (row, col) that begins a run. */
  ghost predicate FirstRunFrom(b: Board, d: Direction, row: int, col: int, r: int, c: int)
    requires Scannable(b, d)
  {
    && AtOrAfter(r, c, row, col)
    && IsRun(b, d, r, c)
    && forall r', c' :: AtOrAfter(r', c', row, col) && !AtOrAfter(r', c', r, c) ==> !IsRun(b, d, r', c')
  }

  lemma NoRunPastLastRow(b: Board, d: Direction, row: int, col: int)
    requires Scannable(b, d) && (row >= RowStop(b, d) || row >= |b|)
    ensures NoRunFrom(b, d, row, col)
  {
  }

  lemma NoRunNextRow(b: Board, d: Direction, row: nat, col: int)
    requires Scannable(b, d) && row < |b| && col >= ColStop(b, d, row)
    ensures NoRunFrom(b, d, row, col) <==> NoRunFrom(b, d, row + 1, ColStart(d))
  {
    if NoRunFrom(b, d, row + 1, ColStart(d)) {
      forall r, c | AtOrAfter(r, c, row, col) ensures !IsRun(b, d, r, c) {
        if !AtOrAfter(r, c, row + 1, ColStart(d)) {
          assert r == row || c < ColStart(d);
        }
      }
    }
  }

  lemma NoRunNextCol(b: Board, d: Direction, row: int, col: int)
    requires Scannable(b, d)
    ensures NoRunFrom(b, d, row, col) <==> !IsRun(b, d, row, col) && NoRunFrom(b, d, row, col + 1)
  {
    if !IsRun(b, d, row, col) && NoRunFrom(b, d, row, col + 1) {
      forall r, c | AtOrAfter(r, c, row, col) ensures !IsRun(b, d, r, c) {
        if !AtOrAfter(r, c, row, col + 1) {
          assert r == row && c == col;
        }
      }
    }
  }

  lemma FirstRunNextRow(b: Board, d: Direction, row: nat, col: int, r: int, c: int)
    requires Scannable(b, d) && row < |b| && col >= ColStop(b, d, row)
    requires FirstRunFrom(b, d, row + 1, ColStart(d), r, c)
    ensures FirstRunFrom(b, d, row, col, r, c)
  {
    forall r', c' | AtOrAfter(r', c', row, col) && !AtOrAfter(r', c', r, c)
      ensures !IsRun(b, d, r', c')
    {
      if !AtOrAfter(r', c', row + 1, ColStart(d)) {
        assert r' == row || c' < ColStart(d);
      }
    }
  }

  lemma FirstRunNextCol(b: Board, d: Direction, row: int, col: int, r: int, c: int)
    requires Scannable(b, d) && !IsRun(b, d, row, col)
    requires FirstRunFrom(b, d, row, col + 1, r, c)
    ensures FirstRunFrom(b, d, row, col, r, c)
  {
    forall r', c' | AtOrAfter(r', c', row, col) && !AtOrAfter(r', c', r, c)
      ensures !IsRun(b, d, r', c')
    {
      if !AtOrAfter(r', c', row, col + 1) {
        assert r' == row && c' == col;
      }
    }
  }

  /** There is only one first run. */
  lemma FirstRunUnique(b: Board, d: Direction, row: int, col: int, r1: int, c1: int, r2: int, c2: int)
    requires Scannable(b, d)
    requires FirstRunFrom(b, d, row, col, r1, c1) && FirstRunFrom(b, d, row, col, r2, c2)
    ensures r1 == r2 && c1 == c2
  {
  }

  /** What the scan resumed at (row, col) promises: the token of the first
      run at or after that start, and " " exactly when there is none. */
  ghost predicate ScanMeetsSpec(b: Board, d: Direction, row: nat, col: int)
    requires Scannable(b, d) && col >= ColStart(d)
  {
    && (ScanFrom(b, d, row, col) == Free <==> NoRunFrom(b, d, row, col))
    && (ScanFrom(b, d, row, col) != Free ==>
          exists r, c :: FirstRunFrom(b, d, row, col, r, c) && ScanFrom(b, d, row, col) == b[r][c])
  }

  /** The step at the end of a row: the scan goes on with the next row. */
  lemma ScanSpecNextRow(b: Board, d: Direction, row: nat, col: int)
    requires Scannable(b, d) && col >= ColStart(d)
    requires row < RowStop(b, d) && row < |b| && col >= ColStop(b, d, row)
    requires ScanMeetsSpec(b, d, row + 1, ColStart(d))
    ensures ScanMeetsSpec(b, d, row, col)
  {
    NoRunNextRow(b, d, row, col);
    if ScanFrom(b, d, row, col) != Free {
      var r, c :| FirstRunFrom(b, d, row + 1, ColStart(d), r, c) && ScanFrom(b, d, row + 1, ColStart(d)) == b[r][c];
      FirstRunNextRow(b, d, row, col, r, c);
    }
  }

  /** At a start that begins no run the program's `and` chain fails or the
      cell is free, so the scan moves on to the next column. */
  lemma ScanSkipsNoRun(b: Board, d: Direction, row: nat, col: int)
    requires Scannable(b, d) && col >= ColStart(d)
    requires row < RowStop(b, d) && row < |b| && ColStart(d) <= col < ColStop(b, d, row)
    requires !IsRun(b, d, row, col)
    ensures ScanFrom(b, d, row, col) == ScanFrom(b, d, row, col + 1)
  {
    if b[row][col] != Free {
      var dr, dc := RowStep(d), ColStep(d);
      assert Cell(b, d, row, col, 1) == b[row + dr][col + dc];
      assert Cell(b, d, row, col, 2) == b[row + 2 * dr][col + 2 * dc];
      assert Cell(b, d, row, col, 3) == b[row + 3 * dr][col + 3 * dc];
    }
  }

  /** The step past a start that begins no run: the scan goes on with the
      next column. */
  lemma ScanSpecNextCol(b: Board, d: Direction, row: nat, col: int)
    requires Scannable(b, d) && col >= ColStart(d)
    requires row < RowStop(b, d) && row < |b| && col < ColStop(b, d, row)
    requires !IsRun(b, d, row, col)
    requires ScanMeetsSpec(b, d, row, col + 1)
    ensures ScanMeetsSpec(b, d, row, col)
  {
    ScanSkipsNoRun(b, d, row, col);
    NoRunNextCol(b, d, row, col);
    if ScanFrom(b, d, row, col) != Free {
      var r, c :| FirstRunFrom(b, d, row, col + 1, r, c) && ScanFrom(b, d, row, col + 1) == b[r][c];
      FirstRunNextCol(b, d, row, col, r, c);
    }
  }

  /** The scan resumed at (row, col) returns the token of the first run at
      or after that start, and " " exactly when there is none. */
  lemma {:induction false} ScanFromSpec(b: Board, d: Direction, row: nat, col: int)
    requires Scannable(b, d) && col >= ColStart(d)
    ensures ScanFrom(b, d, row, col) == Free <==> NoRunFrom(b, d, row, col)
    ensures ScanFrom(b, d, row, col) != Free ==>
              exists r, c :: FirstRunFrom(b, d, row, col, r, c) && ScanFrom(b, d, row, col) == b[r][c]
    decreases RowStop(b, d) - row, if row < |b| then ColStop(b, d, row) - col else 0
  {
    if row >= RowStop(b, d) || row >= |b| {
      NoRunPastLastRow(b, d, row, col);
    } else if col >= ColStop(b, d, row) {
      ScanFromSpec(b, d, row + 1, ColStart(d));
      ScanSpecNextRow(b, d, row, col);
    } else if IsRun(b, d, row, col) {
      assert ScanFrom(b, d, row, col) == b[row][col];
      assert FirstRunFrom(b, d, row, col, row, col);
    } else {
      ScanFromSpec(b, d, row, col + 1);
      ScanSpecNextCol(b, d, row, col);
    }
  }

  /** The whole of a `winner_*` function: the token of the first run in
      row-major order of starts, or " " exactly when there is no run. */
  lemma WinnerSpec(b: Board, d: Direction)
    requires Scannable(b, d)
    ensures Winner(b, d) == Free <==> forall r, c :: !IsRun(b, d, r, c)
    ensures Winner(b, d) != Free ==>
              exists r, c :: IsRun(b, d, r, c) && Winner(b, d) == b[r][c]
                             && forall r', c' :: !AtOrAfter(r', c', r, c) ==> !IsRun(b, d, r', c')
  {
    ScanFromSpec(b, d, 0, ColStart(d));
    forall r, c | IsRun(b, d, r, c) ensures AtOrAfter(r, c, 0, ColStart(d)) { }
    if Winner(b, d) != Free {
      var r, c :| FirstRunFrom(b, d, 0, ColStart(d), r, c) && Winner(b, d) == b[r][c];
      assert forall r', c' :: !AtOrAfter(r', c', r, c) ==> !IsRun(b, d, r', c');
    }
  }

  /** A scan that is shown the first run returns its token. */
  lemma FirstRunIsWinner(b: Board, d: Direction, r: int, c: int)
    requires Scannable(b, d) && FirstRunFrom(b, d, 0, ColStart(d), r, c)
    ensures Winner(b, d) == b[r][c]
  {
    ScanFromSpec(b, d, 0, ColStart(d));
    var r', c' :| FirstRunFrom(b, d, 0, ColStart(d), r', c') && Winner(b, d) == b[r'][c'];
    FirstRunUnique(b, d, 0, ColStart(d), r, c, r', c');
  }

  /** Which of the three offsets the `and` chain compares at a start whose
      token is not free: it stops at the first comparison that is false. */
  function ComparedOffsets(b: Board, d: Direction, row: int, col: int): (offs: seq<int>)
    requires Scannable(b, d) && InScan(b, d, row, col)
    ensures 1 <= |offs| <= 3
    ensures forall i :: 0 <= i < |offs| ==> offs[i] == i + 1
    ensures forall i :: 0 <= i < |offs| - 1 ==> Cell(b, d, row, col, offs[i]) == b[row][col]
    ensures |offs| < 3 ==> Cell(b, d, row, col, |offs|) != b[row][col]
  {
    var t := b[row][col];
    if t != Cell(b, d, row, col, 1) then [1]
    else if t != Cell(b, d, row, col, 2) then [1, 2]
    else [1, 2, 3]
  }

  /** The condition is true exactly when all three offsets were compared and
      the last comparison held as well. */
  lemma ShortCircuitDecides(b: Board, d: Direction, row: int, col: int)
    requires Scannable(b, d) && InScan(b, d, row, col) && b[row][col] != Free
    ensures IsRun(b, d, row, col) <==>
              (|ComparedOffsets(b, d, row, col)| == 3 && Cell(b, d, row, col, 3) == b[row][col])
  {
  }
}
