/** The fixed inputs of the video: the half-played `partial_game`, the
    scripts of `add_token` calls the first scene and the intro animate, and
    the general facts that replay such a script on a board.
 */
module Samples {

  import opened Wrappers
  import opened Board


  const G: Token := "G"
  const B: Token := "B"

  // ---------------------------------------------------------------------
  // partial_game

  /** A token with the `'*'` highlighting markers removed. */
  function Unstar(t: Token): (u: Token)
    ensures forall i :: 0 <= i < |u| ==> u[i] != '*'
    ensures |u| <= |t|
  {
    if |t| == 0 then ""
    else if t[0] == '*' then Unstar(t[1..])
    else [t[0]] + Unstar(t[1..])
  }

  /** `partial_game` as written, with the marker on the four cells the
      first scene's drops fill. */
  const PartialGameMarked: Board := [
    [" ", " ", " ", " ", " ", " ", " "],
    [" ", " ", " ", " ", " ", " ", " "],
    [" ", " ", "G", "G", " ", " ", " "],
    [" ", "B", "B*", "B", "B", " ", " "],
    [" ", "B", "G*", "B", "G", " ", " "],
    ["B", "G", "G*", "G", "B*", "G", " "]
  ]

  /** `partial_game` as the scans compare it, markers removed. */
  const PartialGame: Board := [
    [" ", " ", " ", " ", " ", " ", " "],
    [" ", " ", " ", " ", " ", " ", " "],
    [" ", " ", "G", "G", " ", " ", " "],
    [" ", "B", "B", "B", "B", " ", " "],
    [" ", "B", "G", "B", "G", " ", " "],
    ["B", "G", "G", "G", "B", "G", " "]
  ]

  // ---------------------------------------------------------------------
  // Scripts of drops

  /** One call `add_token(col, player, board)` of a fixed script, with the
      row the scene shows the token landing in. */
  datatype Drop = Drop(player: Token, col: nat, row: nat)

  /** Replays a script of drops from `b`: each drop must go into a column
      whose top cell is free, and must land in the row the script names. */
  predicate DropsLandAsShown(b: Board, drops: seq<Drop>)
    requires Rectangular(b)
    decreases |drops|
  {
    if |drops| == 0 then true
    else
      var d := drops[0];
      && |b| >= 2 && d.col < |b[0]| && b[0][d.col] == Free
      && LandingRow(b, d.col) == d.row
      && var r := AddToken(d.col, d.player, b);
         r.Ok? && Rectangular(r.value) && DropsLandAsShown(r.value, drops[1..])
  }

  /** The board after all the drops of a script. */
  function AfterDrops(b: Board, drops: seq<Drop>): Result<Board>
    requires Rectangular(b)
    decreases |drops|
  {
    if |drops| == 0 then Ok(b)
    else
      var r := AddToken(drops[0].col, drops[0].player, b);
      if r.Err? then r
      else if !Rectangular(r.value) then Err(AssertionFailed)
      else AfterDrops(r.value, drops[1..])
  }

  /** The column stacks after drops `i..` of a script, each token pushed on
      top of its column. */
  function Pushed(stacks: seq<seq<Token>>, drops: seq<Drop>, i: nat): (s: seq<seq<Token>>)
    ensures |s| == |stacks|
    decreases |drops| - i
  {
    if i >= |drops| then stacks
    else if drops[i].col < |stacks| then
      Pushed(stacks[drops[i].col := stacks[drops[i].col] + [drops[i].player]], drops, i + 1)
    else Pushed(stacks, drops, i + 1)
  }

  /** Every drop `i..` of the script goes into a column that is not yet
      full on a board of `height` rows, and the row it names is the one
      just above that column's stack. */
  predicate ScriptFits(height: nat, stacks: seq<seq<Token>>, drops: seq<Drop>, i: nat)
    decreases |drops| - i
  {
    if i >= |drops| then true
    else
      var d := drops[i];
      && d.col < |stacks| && d.player != Free
      && |stacks[d.col]| < height && d.row == height - 1 - |stacks[d.col]|
      && ScriptFits(height, stacks[d.col := stacks[d.col] + [d.player]], drops, i + 1)
  }

  /** A script that fits the stacks of a board replays: every drop lands
      where it says, and the final board holds the pushed stacks. */
  lemma {:induction false} ScriptReplays(b: Board, stacks: seq<seq<Token>>, drops: seq<Drop>, i: nat)
    requires HoldsStacks(b, stacks) && |b| >= 2 && ScriptFits(|b|, stacks, drops, i)
    requires i <= |drops|
    ensures DropsLandAsShown(b, drops[i..])
    ensures AfterDrops(b, drops[i..]).Ok?
    ensures |AfterDrops(b, drops[i..]).value| == |b|
    ensures HoldsStacks(AfterDrops(b, drops[i..]).value, Pushed(stacks, drops, i))
    decreases |drops| - i
  {
    if i < |drops| {
      var d := drops[i];
      AddTokenPushes(d.col, d.player, b, stacks);
      var b' := AddToken(d.col, d.player, b).value;
      ScriptReplays(b', stacks[d.col := stacks[d.col] + [d.player]], drops, i + 1);
      assert drops[i..][1..] == drops[i + 1..];
    }
  }

  /** `after` is `before` with drop `d` pushed, and the drop fits. */
  predicate PushStep(height: nat, before: seq<seq<Token>>, d: Drop, after: seq<seq<Token>>) {
    && d.col < |before| && d.player != Free
    && |before[d.col]| < height && d.row == height - 1 - |before[d.col]|
    && |after| == |before|
    && forall c :: 0 <= c < |before| ==> after[c] == if c == d.col then before[c] + [d.player] else before[c]
  }

  /** A list of stack states, each one drop after the previous, shows that
      the script fits and what it pushes. */
  lemma {:induction false} PushChain(height: nat, states: seq<seq<seq<Token>>>, drops: seq<Drop>, i: nat)
    requires |states| == |drops| + 1 && i <= |drops|
    requires forall k :: i <= k < |drops| ==> PushStep(height, states[k], drops[k], states[k + 1])
    ensures ScriptFits(height, states[i], drops, i)
    ensures Pushed(states[i], drops, i) == states[|drops|]
    decreases |drops| - i
  {
    if i < |drops| {
      var d := drops[i];
      assert PushStep(height, states[i], d, states[i + 1]);
      assert states[i][d.col := states[i][d.col] + [d.player]] == states[i + 1];
      PushChain(height, states, drops, i + 1);
    }
  }

  /** A script replays from `b` to `final` when a list of stack states
      links them drop by drop. */
  lemma ReplayByStates(b: Board, states: seq<seq<seq<Token>>>, drops: seq<Drop>, final: Board)
    requires |states| == |drops| + 1
    requires HoldsStacks(b, states[0]) && |b| >= 2
    requires forall k :: 0 <= k < |drops| ==> PushStep(|b|, states[k], drops[k], states[k + 1])
    requires HoldsStacks(final, states[|drops|]) && |final| == |b|
    ensures DropsLandAsShown(b, drops)
    ensures AfterDrops(b, drops) == Ok(final)
  {
    PushChain(|b|, states, drops, 0);
    ScriptReplays(b, states[0], drops, 0);
    assert drops[0..] == drops;
    StacksDetermineBoard(AfterDrops(b, drops).value, final, states[|drops|]);
  }

  /** The empty board of the video: six rows of seven columns. */
  const EmptyBoard: Board := MakeBoard(7, 6)

  const NoStacks: seq<seq<Token>> := [[], [], [], [], [], [], []]

  lemma EmptyBoardHoldsNothing()
    ensures HoldsStacks(EmptyBoard, NoStacks)
  {
    MakeBoardHoldsNothing(7, 6);
    assert NoStacks == seq(7, _ => []);
  }

  // ---------------------------------------------------------------------
  // The first scene: make_board(7, 6) and four calls of add_token

  /** `add_token(2, "G")`, `(4, "B")`, `(2, "G")`, `(2, "B")`, landing in
      rows 5, 5, 4 and 3 as the falling pieces show. */
  const FirstSceneDrops: seq<Drop> := [Drop(G, 2, 5), Drop(B, 4, 5), Drop(G, 2, 4), Drop(B, 2, 3)]

  /** The board after the first scene. */
  const FirstSceneFinal: Board := [
    [" ", " ", " ", " ", " ", " ", " "],
    [" ", " ", " ", " ", " ", " ", " "],
    [" ", " ", " ", " ", " ", " ", " "],
    [" ", " ", "B", " ", " ", " ", " "],
    [" ", " ", "G", " ", " ", " ", " "],
    [" ", " ", "G", " ", "B", " ", " "]
  ]

  // ---------------------------------------------------------------------
  // The intro: ten drops ending in four "B" along the bottom row

  const IntroDrops: seq<Drop> := [
    Drop(G, 5, 5), Drop(B, 3, 5), Drop(G, 5, 4), Drop(B, 2, 5), Drop(G, 5, 3),
    Drop(B, 5, 2), Drop(G, 2, 4), Drop(B, 1, 5), Drop(G, 4, 5), Drop(B, 0, 5)
  ]

  /** The board at the end of the intro. */
  const IntroFinal: Board := [
    [" ", " ", " ", " ", " ", " ", " "],
    [" ", " ", " ", " ", " ", " ", " "],
    [" ", " ", " ", " ", " ", "B", " "],
    [" ", " ", " ", " ", " ", "G", " "],
    [" ", " ", "G", " ", " ", "G", " "],
    ["B", "B", "B", "B", "G", "G", " "]
  ]
}
