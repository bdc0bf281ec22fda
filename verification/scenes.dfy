/** The scene logic that replays the Connect Four program: the row-by-row
    decision of the add-token scene, and the horizontal scan of the winner
    scene with its short-circuit `and`.
 */
module Scenes {

  import opened Wrappers
  import opened Board
  import opened Samples

  // ---------------------------------------------------------------------
  // The add-token scene: `animate_add_token` replays `add_token` on the
  // 6 x 7 board the scene draws

  /** `set_into_board(player, row, col)`: only the two players' tokens may
      be written. */
  function SetIntoBoard(b: Board, player: Token, row: nat, col: nat): (r: Result<Board>)
    requires row < |b| && col < |b[row]|
    ensures r.Ok? <==> player == G || player == B
    ensures r.Ok? ==> r.value == SetCell(b, row, col, player)
  {
    if player != G && player != B then Err(AssertionFailed)
    else Ok(SetCell(b, row, col, player))
  }

  /** The scene's `for row in range(1, 6)` loop from `row` on: it writes
      above the first occupied cell, or into row 5 when the loop runs out. */
  function SceneLoop(b: Board, col: nat, player: Token, row: nat): (r: Result<Board>)
    requires Rectangular(b) && |b| == 6 && col < |b[0]| && 1 <= row <= 6
    decreases 6 - row
  {
    if row == 6 then SetIntoBoard(b, player, 5, col)
    else if b[row][col] != Free then SetIntoBoard(b, player, row - 1, col)
    else SceneLoop(b, col, player, row + 1)
  }

  /** `animate_add_token(col, player)` on the scene's board: a column
      outside the row has no `div_{col-1}_{col}` key, and an occupied top
      cell stops the scene at its `assert False`. */
  function SceneDrop(col: int, player: Token, b: Board): (r: Result<Board>)
    requires Rectangular(b) && |b| == 6 && |b[0]| == 7
    ensures !(0 <= col < 7) ==> r == Err(KeyError)
    ensures 0 <= col < 7 && b[0][col] != Free ==> r == Err(AssertionFailed)
  {
    if !(0 <= col < 7) then Err(KeyError)
    else if b[0][col] != Free then Err(AssertionFailed)
    else SceneLoop(b, col, player, 1)
  }

  lemma {:induction false} SceneLoopLands(b: Board, col: nat, player: Token, row: nat)
    requires Rectangular(b) && |b| == 6 && col < |b[0]| && 1 <= row <= 6
    requires forall k :: 1 <= k < row ==> b[k][col] == Free
    requires player == G || player == B
    ensures SceneLoop(b, col, player, row) == Ok(SetCell(b, LandingRow(b, col), col, player))
    decreases 6 - row
  {
    if row == 6 {
      assert IsLanding(b, col, 5);
    } else if b[row][col] != Free {
      assert IsLanding(b, col, row - 1);
    } else {
      SceneLoopLands(b, col, player, row + 1);
    }
  }

  /** On its board the scene does what the program does: for a column in
      range whose top cell is free, each player's drop gives the board
      `add_token` returns; anything else is an exception in the scene. */
  lemma SceneDropIsAddToken(col: int, player: Token, b: Board)
    requires Rectangular(b) && |b| == 6 && |b[0]| == 7
    ensures SceneDrop(col, player, b).Ok? <==>
              0 <= col < 7 && b[0][col] == Free && (player == G || player == B)
    ensures SceneDrop(col, player, b).Ok? ==> SceneDrop(col, player, b) == AddToken(col, player, b)
  {
    if 0 <= col < 7 && b[0][col] == Free {
      assert NormIndex(|b[0]|, col) == Some(col);
      if player == G || player == B {
        SceneLoopLands(b, col, player, 1);
      } else {
        SceneLoopFails(b, col, player, 1);
      }
    }
  }

  lemma {:induction false} SceneLoopFails(b: Board, col: nat, player: Token, row: nat)
    requires Rectangular(b) && |b| == 6 && col < |b[0]| && 1 <= row <= 6
    requires player != G && player != B
    ensures SceneLoop(b, col, player, row) == Err(AssertionFailed)
    decreases 6 - row
  {
    if row < 6 && b[row][col] == Free {
      SceneLoopFails(b, col, player, row + 1);
    }
  }

  // ---------------------------------------------------------------------
  // The horizontal winner scene: the scan of `partial_game`, start by
  // start, with the short-circuit `and`

  /** What the scene shows at one start: a free cell is skipped with
      `continue`; otherwise the offsets the `and` chain compares, and
      whether the whole condition held. */
  datatype Visit = Visit(row: nat, col: nat, free: bool, offsets: seq<int>, won: bool)

  /** The scene's visit of start (row, col). */
  function VisitAt(b: Board, row: nat, col: nat): (v: Visit)
    requires Rectangular(b) && |b| == 6 && |b[0]| == 7 && row < 4 && col < 4
    ensures v.row == row && v.col == col
    ensures v.free <==> b[row][col] == Free
    ensures v.won ==> !v.free && |v.offsets| == 3
  {
    if b[row][col] == Free then Visit(row, col, true, [], false)
    else
      var offs := ComparedOffsets(b, Horizontal, row, col);
      Visit(row, col, false, offs, |offs| == 3 && Cell(b, Horizontal, row, col, 3) == b[row][col])
  }

  /** A visit is won exactly when a run starts there. */
  lemma VisitWonIsRun(b: Board, row: nat, col: nat)
    requires Rectangular(b) && |b| == 6 && |b[0]| == 7 && row < 4 && col < 4
    ensures VisitAt(b, row, col).won <==> IsRun(b, Horizontal, row, col)
  {
    if b[row][col] != Free {
      ShortCircuitDecides(b, Horizontal, row, col);
    }
  }

  /** The scene's nested `for row in range(0, 4)` / `for col in range(0, 4)`
      from (row, col) on, stopping after the first won visit. */
  function SceneFrom(b: Board, row: nat, col: nat): (vs: seq<Visit>)
    requires Rectangular(b) && |b| == 6 && |b[0]| == 7
    ensures forall i :: 0 <= i < |vs| ==> vs[i].row < 4 && vs[i].col < 4
    ensures forall i :: 0 <= i < |vs| - 1 ==> !vs[i].won
    decreases 4 - row, 4 - col
  {
    if row >= 4 then []
    else if col >= 4 then SceneFrom(b, row + 1, 0)
    else
      var v := VisitAt(b, row, col);
      if v.won then [v] else [v] + SceneFrom(b, row, col + 1)
  }

  /** No run starts at or after (row, col) in the rows the scene scans. */
  ghost predicate NoSceneRunFrom(b: Board, row: int, col: int) {
    forall r, c :: AtOrAfter(r, c, row, col) && r < 4 ==> !IsRun(b, Horizontal, r, c)
  }

  /** The scene's visits from (row, col) end in a won visit. */
  predicate EndsWon(vs: seq<Visit>) {
    |vs| > 0 && vs[|vs| - 1].won
  }

  /** The scene stops at the first run in rows 0 to 3; when it meets none,
      no run starts in those rows. */
  lemma {:induction false} SceneFromFindsFirstRun(b: Board, row: nat, col: nat)
    requires Rectangular(b) && |b| == 6 && |b[0]| == 7 && col <= 4
    ensures EndsWon(SceneFrom(b, row, col)) ==>
              var v := SceneFrom(b, row, col)[|SceneFrom(b, row, col)| - 1];
              FirstRunFrom(b, Horizontal, row, col, v.row, v.col)
    ensures !EndsWon(SceneFrom(b, row, col)) ==> NoSceneRunFrom(b, row, col)
    decreases 4 - row, 4 - col, 1
  {
    if row >= 4 {
    } else if col >= 4 {
      SceneFromNextRow(b, row, col);
    } else {
      SceneFromNextCol(b, row, col);
    }
  }

  lemma {:induction false} SceneFromNextRow(b: Board, row: nat, col: nat)
    requires Rectangular(b) && |b| == 6 && |b[0]| == 7 && row < 4 && col == 4
    ensures EndsWon(SceneFrom(b, row, col)) ==>
              var v := SceneFrom(b, row, col)[|SceneFrom(b, row, col)| - 1];
              FirstRunFrom(b, Horizontal, row, col, v.row, v.col)
    ensures !EndsWon(SceneFrom(b, row, col)) ==> NoSceneRunFrom(b, row, col)
    decreases 4 - row, 4 - col, 0
  {
    var vs := SceneFrom(b, row + 1, 0);
    assert SceneFrom(b, row, col) == vs;
    SceneFromFindsFirstRun(b, row + 1, 0);
    if EndsWon(vs) {
      FirstRunNextRow(b, Horizontal, row, col, vs[|vs| - 1].row, vs[|vs| - 1].col);
    } else {
      forall r, c | AtOrAfter(r, c, row, col) && r < 4 ensures !IsRun(b, Horizontal, r, c) {
        if !AtOrAfter(r, c, row + 1, 0) {
          assert !InScan(b, Horizontal, r, c);
        }
      }
    }
  }

  lemma {:induction false} SceneFromNextCol(b: Board, row: nat, col: nat)
    requires Rectangular(b) && |b| == 6 && |b[0]| == 7 && row < 4 && col < 4
    ensures EndsWon(SceneFrom(b, row, col)) ==>
              var v := SceneFrom(b, row, col)[|SceneFrom(b, row, col)| - 1];
              FirstRunFrom(b, Horizontal, row, col, v.row, v.col)
    ensures !EndsWon(SceneFrom(b, row, col)) ==> NoSceneRunFrom(b, row, col)
    decreases 4 - row, 4 - col, 0
  {
    var v := VisitAt(b, row, col);
    VisitWonIsRun(b, row, col);
    if v.won {
      assert SceneFrom(b, row, col) == [v];
      assert FirstRunFrom(b, Horizontal, row, col, row, col);
    } else {
      var rest := SceneFrom(b, row, col + 1);
      assert SceneFrom(b, row, col) == [v] + rest;
      SceneFromFindsFirstRun(b, row, col + 1);
      if EndsWon(rest) {
        assert SceneFrom(b, row, col)[|SceneFrom(b, row, col)| - 1] == rest[|rest| - 1];
        FirstRunNextCol(b, Horizontal, row, col, rest[|rest| - 1].row, rest[|rest| - 1].col);
      } else {
        assert !EndsWon(SceneFrom(b, row, col));
        NoSceneRunNextCol(b, row, col);
      }
    }
  }

  /** Every visit of the scene resumed at (row, col) is at or after that
      start. */
  lemma {:induction false} SceneFromAfter(b: Board, row: nat, col: nat)
    requires Rectangular(b) && |b| == 6 && |b[0]| == 7 && col <= 4
    ensures forall i :: 0 <= i < |SceneFrom(b, row, col)| ==>
              AtOrAfter(SceneFrom(b, row, col)[i].row, SceneFrom(b, row, col)[i].col, row, col)
    decreases 4 - row, 4 - col
  {
    if row >= 4 {
    } else if col >= 4 {
      SceneFromAfter(b, row + 1, 0);
    } else if !VisitAt(b, row, col).won {
      SceneFromAfter(b, row, col + 1);
    }
  }

  /** A start without a run adds none to the rest of its row. */
  lemma NoSceneRunNextCol(b: Board, row: nat, col: nat)
    requires Rectangular(b) && |b| == 6 && |b[0]| == 7
    requires !IsRun(b, Horizontal, row, col) && NoSceneRunFrom(b, row, col + 1)
    ensures NoSceneRunFrom(b, row, col)
  {
    forall r, c | AtOrAfter(r, c, row, col) && r < 4 ensures !IsRun(b, Horizontal, r, c) {
      if !AtOrAfter(r, c, row, col + 1) {
        assert r == row && c == col;
      }
    }
  }

  /** The whole scene: when it ends on a won visit, it has shown the token
      `winner_horizontal` returns. */
  lemma SceneShowsWinner(b: Board)
    requires Rectangular(b) && |b| == 6 && |b[0]| == 7
    requires EndsWon(SceneFrom(b, 0, 0))
    ensures var v := SceneFrom(b, 0, 0)[|SceneFrom(b, 0, 0)| - 1];
            Winner(b, Horizontal) == b[v.row][v.col] != Free
  {
    var vs := SceneFrom(b, 0, 0);
    var v := vs[|vs| - 1];
    SceneFromFindsFirstRun(b, 0, 0);
    FirstRunIsWinner(b, Horizontal, v.row, v.col);
  }

  /** When the scene meets no run, no run starts in rows 0 to 3. */
  lemma SceneShowsNoRun(b: Board)
    requires Rectangular(b) && |b| == 6 && |b[0]| == 7
    requires !EndsWon(SceneFrom(b, 0, 0))
    ensures forall r, c :: 0 <= r < 4 ==> !IsRun(b, Horizontal, r, c)
  {
    SceneFromFindsFirstRun(b, 0, 0);
    forall r, c | 0 <= r < 4 ensures !IsRun(b, Horizontal, r, c) {
      if c < 0 {
        assert !InScan(b, Horizontal, r, c);
      } else {
        assert AtOrAfter(r, c, 0, 0);
      }
    }
  }

  /** Every start of the two nested `range(0, 4)` loops from (r, c) on,
      in loop order. */
  function Grid(r: nat, c: nat): (starts: seq<(int, int)>)
    requires c <= 4
    decreases 4 - r, 4 - c
  {
    if r >= 4 then []
    else if c >= 4 then Grid(r + 1, 0)
    else [(r, c)] + Grid(r, c + 1)
  }

  /** The starts of the visits, in order. */
  function VisitStarts(vs: seq<Visit>): (starts: seq<(int, int)>)
    ensures |starts| == |vs|
    ensures forall i :: 0 <= i < |vs| ==> starts[i] == (vs[i].row, vs[i].col)
  {
    if vs == [] then [] else [(vs[0].row, vs[0].col)] + VisitStarts(vs[1..])
  }

  /** The starts the slider of the overview scene stops at, from (r, c)
      on: its `break` at (stopRow, stopCol) leaves only the inner loop, so
      the outer loop goes on with the next row. The scene hard-codes the
      break at (3, 1), in the last row. */
  function LoopStarts(r: nat, c: nat, stopRow: nat, stopCol: nat): (stops: seq<(int, int)>)
    requires c <= 4
    ensures r < 4 && c < 4 ==> |stops| > 0 && stops[0] == (r, c)
    ensures forall i :: 0 <= i < |stops| ==> r <= stops[i].0 < 4 && 0 <= stops[i].1 < 4
    decreases 4 - r, 4 - c
  {
    if r >= 4 then []
    else if c >= 4 then LoopStarts(r + 1, 0, stopRow, stopCol)
    else if r == stopRow && c == stopCol then [(r, c)] + LoopStarts(r + 1, 0, stopRow, stopCol)
    else [(r, c)] + LoopStarts(r, c + 1, stopRow, stopCol)
  }

  /** Past the row of the `break` the slider visits every start. */
  lemma {:induction false} LoopStartsPastStop(r: nat, c: nat, stopRow: nat, stopCol: nat)
    requires c <= 4 && r > stopRow
    ensures LoopStarts(r, c, stopRow, stopCol) == Grid(r, c)
    decreases 4 - r, 4 - c
  {
    if r >= 4 {
    } else if c >= 4 {
      LoopStartsPastStop(r + 1, 0, stopRow, stopCol);
    } else {
      LoopStartsPastStop(r, c + 1, stopRow, stopCol);
    }
  }

  /** A slider with its `break` at the scene's first run stops at the
      scene's starts, in the same order, and then at every start of the
      rows below the break. */
  lemma {:induction false} LoopStartsFollowScene(b: Board, r: nat, c: nat, stopRow: nat, stopCol: nat)
    requires Rectangular(b) && |b| == 6 && |b[0]| == 7 && c <= 4
    requires EndsWon(SceneFrom(b, r, c))
    requires SceneFrom(b, r, c)[|SceneFrom(b, r, c)| - 1].row == stopRow
    requires SceneFrom(b, r, c)[|SceneFrom(b, r, c)| - 1].col == stopCol
    ensures LoopStarts(r, c, stopRow, stopCol) == VisitStarts(SceneFrom(b, r, c)) + Grid(stopRow + 1, 0)
    decreases 4 - r, 4 - c, 1
  {
    var vs := SceneFrom(b, r, c);
    if c >= 4 {
      assert vs == SceneFrom(b, r + 1, 0);
      LoopStartsFollowScene(b, r + 1, 0, stopRow, stopCol);
    } else if VisitAt(b, r, c).won {
      assert vs == [VisitAt(b, r, c)];
      assert VisitStarts(vs) == [(r, c)];
      LoopStartsPastStop(r + 1, 0, stopRow, stopCol);
    } else {
      LoopStartsNextCol(b, r, c, stopRow, stopCol);
    }
  }

  /** The step past a start the scene does not win at: both the slider and
      the scene go on with the next column. */
  lemma {:induction false} LoopStartsNextCol(b: Board, r: nat, c: nat, stopRow: nat, stopCol: nat)
    requires Rectangular(b) && |b| == 6 && |b[0]| == 7 && r < 4 && c < 4
    requires !VisitAt(b, r, c).won
    requires EndsWon(SceneFrom(b, r, c))
    requires SceneFrom(b, r, c)[|SceneFrom(b, r, c)| - 1].row == stopRow
    requires SceneFrom(b, r, c)[|SceneFrom(b, r, c)| - 1].col == stopCol
    ensures LoopStarts(r, c, stopRow, stopCol) == VisitStarts(SceneFrom(b, r, c)) + Grid(stopRow + 1, 0)
    decreases 4 - r, 4 - c, 0
  {
    SceneNextCol(b, r, c, stopRow, stopCol);
    LoopStartsFollowScene(b, r, c + 1, stopRow, stopCol);
    LoopStartsCons(r, c, stopRow, stopCol, VisitAt(b, r, c), SceneFrom(b, r, c + 1), Grid(stopRow + 1, 0));
  }

  /** Past a start it does not win at, the scene is that visit followed by
      the scene from the next column, which ends at the same run. */
  lemma SceneNextCol(b: Board, r: nat, c: nat, stopRow: nat, stopCol: nat)
    requires Rectangular(b) && |b| == 6 && |b[0]| == 7 && r < 4 && c < 4
    requires !VisitAt(b, r, c).won
    requires EndsWon(SceneFrom(b, r, c))
    requires SceneFrom(b, r, c)[|SceneFrom(b, r, c)| - 1].row == stopRow
    requires SceneFrom(b, r, c)[|SceneFrom(b, r, c)| - 1].col == stopCol
    ensures (r, c) != (stopRow, stopCol)
    ensures SceneFrom(b, r, c) == [VisitAt(b, r, c)] + SceneFrom(b, r, c + 1)
    ensures EndsWon(SceneFrom(b, r, c + 1))
    ensures SceneFrom(b, r, c + 1)[|SceneFrom(b, r, c + 1)| - 1].row == stopRow
    ensures SceneFrom(b, r, c + 1)[|SceneFrom(b, r, c + 1)| - 1].col == stopCol
  {
    var vs := SceneFrom(b, r, c);
    var rest := SceneFrom(b, r, c + 1);
    assert vs == [VisitAt(b, r, c)] + rest;
    SceneFromAfter(b, r, c + 1);
    assert rest[|rest| - 1] == vs[|vs| - 1];
  }

  /** A start the slider passes and the scene visits adds the same entry
      to the front of both. */
  lemma LoopStartsCons(r: nat, c: nat, stopRow: nat, stopCol: nat, v: Visit, rest: seq<Visit>, tail: seq<(int, int)>)
    requires r < 4 && c < 4 && (r, c) != (stopRow, stopCol)
    requires v.row == r && v.col == c
    requires LoopStarts(r, c + 1, stopRow, stopCol) == VisitStarts(rest) + tail
    ensures LoopStarts(r, c, stopRow, stopCol) == VisitStarts([v] + rest) + tail
  {
    var vs := [v] + rest;
    assert vs[1..] == rest;
    assert VisitStarts(vs) == [(r, c)] + VisitStarts(rest);
    assert LoopStarts(r, c, stopRow, stopCol) == [(r, c)] + LoopStarts(r, c + 1, stopRow, stopCol);
    ConcatAssoc([(r, c)], VisitStarts(rest), tail);
  }

  lemma ConcatAssoc<T>(a: seq<T>, b: seq<T>, c: seq<T>)
    ensures a + (b + c) == (a + b) + c
  {
  }

}
