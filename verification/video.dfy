/** What the video shows, checked against the program: the boards its
    scripts produce, where each drop lands, and which token each scene
    reports.
 */
module Video {

  import opened Wrappers
  import opened Board
  import opened Samples
  import opened Scenes

  // ---------------------------------------------------------------------
  // partial_game

  lemma PartialGameUnstarred()
    ensures |PartialGame| == |PartialGameMarked|
    ensures forall r, c :: 0 <= r < |PartialGame| && 0 <= c < |PartialGame[r]| ==>
              c < |PartialGameMarked[r]| && PartialGame[r][c] == Unstar(PartialGameMarked[r][c])
  {
  }

  /** On `partial_game` the horizontal scan first succeeds at row 3,
      column 1, with "B". */
  lemma PartialGameHorizontalWinner()
    ensures Rectangular(PartialGame)
    ensures IsRun(PartialGame, Horizontal, 3, 1)
    ensures Winner(PartialGame, Horizontal) == B
  {
    var b := PartialGame;
    assert Winner(b, Horizontal) == B;
  }

  // ---------------------------------------------------------------------
  // The first scene

  /** The four drops of the first scene land in rows 5, 5, 4 and 3 and
      leave the board drawn above. */
  lemma FirstSceneReplays()
    ensures DropsLandAsShown(EmptyBoard, FirstSceneDrops)
    ensures AfterDrops(EmptyBoard, FirstSceneDrops) == Ok(FirstSceneFinal)
  {
    EmptyBoardHoldsNothing();
    var states := [
      [[], [], [], [], [], [], []],
      [[], [], [G], [], [], [], []],
      [[], [], [G], [], [B], [], []],
      [[], [], [G, G], [], [B], [], []],
      [[], [], [G, G, B], [], [B], [], []]
    ];
    assert HoldsStacks(FirstSceneFinal, states[4]);
    ReplayByStates(EmptyBoard, states, FirstSceneDrops, FirstSceneFinal);
  }

  /** The cells marked in `partial_game` are exactly the tokens the first
      scene's drops leave: the add-token scene skips those cells when it
      fills in the rest. */
  lemma FirstSceneMarksPartialGame()
    ensures |FirstSceneFinal| == |PartialGameMarked|
    ensures forall r, c :: 0 <= r < |FirstSceneFinal| && 0 <= c < |FirstSceneFinal[r]| ==>
              c < |PartialGameMarked[r]| &&
              FirstSceneFinal[r][c] == (if '*' in PartialGameMarked[r][c] then Unstar(PartialGameMarked[r][c]) else Free)
  {
  }

  // ---------------------------------------------------------------------
  // The intro

  /** Every (player, column, row) the intro animates is the row `add_token`
      would choose after the earlier drops, and they leave the board drawn
      above. */
  lemma IntroReplays()
    ensures DropsLandAsShown(EmptyBoard, IntroDrops)
    ensures AfterDrops(EmptyBoard, IntroDrops) == Ok(IntroFinal)
  {
    EmptyBoardHoldsNothing();
    var states := [
      [[], [], [], [], [], [], []],
      [[], [], [], [], [], [G], []],
      [[], [], [], [B], [], [G], []],
      [[], [], [], [B], [], [G, G], []],
      [[], [], [B], [B], [], [G, G], []],
      [[], [], [B], [B], [], [G, G, G], []],
      [[], [], [B], [B], [], [G, G, G, B], []],
      [[], [], [B, G], [B], [], [G, G, G, B], []],
      [[], [B], [B, G], [B], [], [G, G, G, B], []],
      [[], [B], [B, G], [B], [G], [G, G, G, B], []],
      [[B], [B], [B, G], [B], [G], [G, G, G, B], []]
    ];
    assert HoldsStacks(IntroFinal, states[10]);
    ReplayByStates(EmptyBoard, states, IntroDrops, IntroFinal);
  }

  /** The final board of the intro has "B" in row 5, columns 0 to 3, the
      first run the horizontal scan meets. */
  lemma IntroHorizontalWinner()
    ensures Rectangular(IntroFinal)
    ensures IsRun(IntroFinal, Horizontal, 5, 0)
    ensures Winner(IntroFinal, Horizontal) == B
  {
    assert Winner(IntroFinal, Horizontal) == B;
  }

  // ---------------------------------------------------------------------
  // The horizontal winner scene

  /** The visits the scene makes on `partial_game`: the eight free starts
      of rows 0 and 1, then (2, 0) and (2, 1) free, (2, 2) stopping after
      two comparisons, (2, 3) after one, (3, 0) free, and (3, 1) won. */
  const PartialGameVisits: seq<Visit> := [
    Visit(0, 0, true, [], false),
    Visit(0, 1, true, [], false),
    Visit(0, 2, true, [], false),
    Visit(0, 3, true, [], false),
    Visit(1, 0, true, [], false),
    Visit(1, 1, true, [], false),
    Visit(1, 2, true, [], false),
    Visit(1, 3, true, [], false),
    Visit(2, 0, true, [], false),
    Visit(2, 1, true, [], false),
    Visit(2, 2, false, [1, 2], false),
    Visit(2, 3, false, [1], false),
    Visit(3, 0, true, [], false),
    Visit(3, 1, false, [1, 2, 3], true)
  ]

  lemma PartialGameSceneFromRow3()
    ensures SceneFrom(PartialGame, 3, 0) == PartialGameVisits[12..]
  {
    PartialGameShape();
  }

  lemma PartialGameSceneFromRow2()
    ensures SceneFrom(PartialGame, 2, 0) == PartialGameVisits[8..]
  {
    PartialGameShape();
    PartialGameSceneFromRow3();
  }

  lemma PartialGameSceneFromRow1()
    ensures SceneFrom(PartialGame, 1, 0) == PartialGameVisits[4..]
  {
    PartialGameShape();
    PartialGameSceneFromRow2();
  }

  lemma PartialGameScene()
    ensures SceneFrom(PartialGame, 0, 0) == PartialGameVisits
    ensures PartialGame[3][1] == B
  {
    PartialGameShape();
    PartialGameSceneFromRow1();
  }

  /** The slider stops at the same fourteen starts, in the same order, as
      the scene's visits of `partial_game`. */
  lemma SliderFollowsScene()
    ensures LoopStarts(0, 0, 3, 1) == VisitStarts(PartialGameVisits)
  {
    PartialGameShape();
    PartialGameScene();
    var vs := PartialGameVisits;
    assert EndsWon(vs) && vs[|vs| - 1].row == 3 && vs[|vs| - 1].col == 1;
    LoopStartsFollowScene(PartialGame, 0, 0, 3, 1);
    assert Grid(4, 0) == [];
  }

  /** `partial_game` has six rows of seven cells. */
  lemma PartialGameShape()
    ensures Rectangular(PartialGame) && |PartialGame| == 6 && |PartialGame[0]| == 7
  {
    var b := PartialGame;
    assert forall i :: 0 <= i < |b| ==> |b[i]| == 7;
  }
}
