# Connect Four video and the manim_ace visual debugger, modelled in Dafny

The repository produces a teaching video about a small Connect Four program.
It is built on `manim_ace`, a set of Manim helpers that animate a program as a
debugger would show it:
- a code window with a program counter;
- a shelf of variable boxes per scope;
- lists drawn as tables;
- `for ... in range(...)` loops that expand into the list they walk;
- function boxes with input and output ports.

This project models two layers and proves what each promises. Geometry,
colours as pixels, timing and rendering are left out.

- **The Connect Four program.** It is embedded as text in `connect_four.py`,
  and the scenes re-enact it. Module `Board` models `make_board`,
  `add_token` and the four `winner_*` scans. A Python index `b[r][c]` is a
  Dafny sequence index, so the video's point that the `- 3` bounds and the
  starting column 3 keep every access on the board becomes a proof
  obligation (`Board.WindowInBounds`). Module `Scenes` holds the decisions
  the scenes make as they re-execute the program on real data: where a
  dropped token lands, and which starts the horizontal scan visits. Module
  `Video` checks both against the video's fixed inputs, `partial_game`
  and the intro's drop list. Module `Samples` holds those inputs and the
  replay machinery.
- **The debugger bookkeeping.** These modules keep the logical state of
  each `manim_ace` component:
  - `Variables`: variable boxes, scopes and the scope stack;
  - `Lists`: a list's contents and sub-object keys, its aliases and
    `Pointer`;
  - `Loops`: `ForRange`;
  - `Code`: code-window keys, `lines`, dot stripping, scope kinds and the
    palette;
  - `Functions`: function boxes;
  - `AceScene`: the program-counter stack, scene-level variable access,
    integer calculations and `remove_without_degrouping`.

  `Values` models the values a box or a cell shows, and `Text` models
  `str` and `int` on integers.

Conventions:
- A Python exception is a `Result` error of the matching kind
  (`Wrappers.PyError`).
- A failed `assert` is `AssertionFailed`.
- Mobjects are known only by caller-chosen identities.
- The program-counter steps of `AceScene` change state before they can
  raise. They return the new state together with the exception, so the
  change is not lost.

## Model

| member | source | states |
|---|---|---|
| Wrappers.NormIndex | connect_four.py:34 | Python list indexing: `-n <= i < n` is accepted, and a negative index counts from the end. |
| Text.IntRoundTrip | manim_ace/scene.py:189 | `int(str(n)) == n` for every integer n. |
| Text.IntToStringInjective | manim_ace/loops.py:119 | Two integers have the same `str` exactly when they are equal. |
| Text.KeyInjective | manim_ace/variables.py:208 | Keys `prefix + str(i)` such as `scope_{i}` are equal exactly when the integers are. |
| Values.Display | manim_ace/variables.py:15-19 | A box shows a non-empty text: `str(v)`, or a string in double quotes, or `<list>`. |
| Values.DisplayQuotesStrings | manim_ace/variables.py:15-19 | A value is shown in quotes iff it is a string, and the quotes enclose exactly the string. |
| Values.DisplayIntReadsBack | manim_ace/variables.py:15 | The text shown for an integer parses back to that integer. |
| Values.ToInt | manim_ace/scene.py:189-191 | `int(v)`: ints unchanged; booleans become 0/1. A string succeeds iff it is a decimal numeral, and gives that number; any other string raises ValueError. None and lists raise TypeError. |
| Values.ToIntOfDisplayedInt | manim_ace/scene.py:189 | `int` of the text of n is n. |
| Board.FreeRow | connect_four.py:30 | `[" "] * width`: `max(width, 0)` free cells. |
| Board.MakeRows | connect_four.py:28-30 | After n iterations the list has n rows, each a free row of the width. |
| Board.MakeBoard | connect_four.py:27-31 | `make_board(w, h)` has `max(h,0)` rows, each of length `max(w,0)`, all cells `" "`, rectangular. |
| Board.SetCell | connect_four.py:38 | An assignment `board[r][c] = p` changes that cell and no other. |
| Board.FirstOccupied | connect_four.py:36-37 | The loop finds the first occupied row at or after `from`, and every row before it is free; None when the whole column is free. |
| Board.LandingRow | connect_four.py:36-40 | The row `add_token` writes is the unique landing row: free from row 1 down to it, occupied or the bottom just below. |
| Board.AddToken | connect_four.py:33-40 | It succeeds exactly for an in-range column (negative columns count from the end), except on a one-row board with a free top (unbound `row`). A full column leaves the board unchanged. Otherwise the token is written at the landing row. |
| Board.AddTokenChangesOneCell | connect_four.py:36-40 | A drop into a free column changes exactly one cell, in that column at the landing row, to the player's token. |
| Board.MakeBoardHoldsNothing | connect_four.py:27-31 | A fresh board holds only empty column stacks. |
| Board.AddTokenPushes | connect_four.py:36-40 | Seen as column stacks, `add_token` pushes the token onto its column's stack, landing just above it. |
| Board.AddTokenFullColumn | connect_four.py:34-35 | A column with a full stack has an occupied top cell, so the board comes back unchanged. |
| Board.StacksDetermineBoard | connect_four.py:33-40 | Two boards of the same height holding the same column stacks are equal. |
| Board.WindowInBounds | connect_four.py:50-101 | For every start the four scans visit, each `b[row + k*dr][col + k*dc]` with k = 0..3 is in range. This holds on any board, ragged for the horizontal scan, rectangular for the others. |
| Board.PyCell | connect_four.py:55-57 | A window cell read with Python indexing. It succeeds iff both indices are within `-len <= i < len`, and otherwise raises IndexError. |
| Board.PyCellInScan | connect_four.py:50-101 | For every start the scan visits, Python's read of window cell k is exactly that cell: no IndexError and no wrapped index. |
| Board.WhyTheBoundsMatter | connect_four.py:1625-1653 | Starting at the last column, outside the scan, the horizontal window's first comparison reads past the end of the row and raises IndexError. Starting the down-left diagonal at column 0, outside the scan, reads column -1, which Python takes silently as the last cell of the next row. |
| Board.ScanFromSpec | connect_four.py:50-59 | The nested loops from a start return `" "` iff no run of four starts at or after it. Otherwise they return the token of the first such run in row-major order. |
| Board.WinnerSpec | connect_four.py:50-101 | `winner_*` returns `" "` iff no run exists. Otherwise it returns the token at the first run start, with no run before it. |
| Board.FirstRunIsWinner | connect_four.py:50-101 | The token at the first run in row-major order is what `winner_*` returns. |
| Board.ComparedOffsets | connect_four.py:55-57 | The short-circuit `and` evaluates offsets 1, 2, 3 in order and stops after the first comparison that fails. |
| Board.ShortCircuitDecides | connect_four.py:55-58 | The condition holds iff all three offsets were compared and the last also matched. |
| Samples.ScriptReplays | connect_four.py:33-40 | A script of drops that fits the column stacks lands each drop in its named row. The final board holds the pushed stacks. |
| Samples.PushChain | connect_four.py:33-40 | A chain of stack states linked drop by drop shows that the script fits, and which stacks it ends with. |
| Samples.ReplayByStates | connect_four.py:33-40 | Such a chain replays the script from the first board to the final board. |
| Scenes.SetIntoBoard | connect_four.py:990-996 | Only the two players' tokens may be written. Such a write sets exactly that cell. |
| Scenes.SceneDrop | connect_four.py:784-814 | A column outside the board has no divider key (KeyError). An occupied top cell hits the scene's `assert False`. |
| Scenes.SceneLoopLands | connect_four.py:878-940 | The scene's `for row in range(1, 6)` loop writes the token at the landing row `add_token` computes. |
| Scenes.SceneDropIsAddToken | connect_four.py:807-940 | On a 6x7 board the scene succeeds exactly for an in-range column with a free top and a real player. It then yields the board `add_token` returns. |
| Scenes.SceneLoopFails | connect_four.py:990-996 | Any other token is refused by `set_into_board`'s assert wherever the loop writes. |
| Scenes.VisitAt | connect_four.py:1474-1536 | A visit is marked free iff its cell is `" "`. A won visit compared all three offsets. |
| Scenes.VisitWonIsRun | connect_four.py:1474-1536 | A visit is won exactly when a run of four starts at its cell. |
| Scenes.SceneFrom | connect_four.py:1254-1589 | The scene's nested loops visit starts in rows and columns 0-3. Its `done` flag ends both loops after the first won visit. |
| Scenes.SceneFromFindsFirstRun | connect_four.py:1254-1589 | When the visits end in a win, that start is the first run from the current start. Otherwise no run starts in rows 0-3 at or after it. |
| Scenes.SceneFromNextRow | connect_four.py:1254-1589 | Same claim as SceneFromFindsFirstRun, for a scan resumed at the end of a row. |
| Scenes.SceneFromNextCol | connect_four.py:1254-1589 | Same claim as SceneFromFindsFirstRun, for a scan resumed inside a row. |
| Scenes.SceneShowsWinner | connect_four.py:1254-1589 | When the scene ends on a win it has shown the token `winner_horizontal` returns. |
| Scenes.SceneShowsNoRun | connect_four.py:1254-1589 | When the scene finds nothing, no run starts in rows 0-3. |
| Scenes.LoopStartsFollowScene | connect_four.py:1166-1174 | With its `break` at the scene's first run, the slider stops at the scene's starts in order. After them it stops at every start of the rows below the break, because the `break` leaves only the inner loop. |
| Scenes.LoopStarts | connect_four.py:1166-1174 | The slider's stops lie among the starts of rows and columns 0-3, beginning with the start it resumes at. |
| Video.PartialGameUnstarred | connect_four.py:104-111 | The compared board is `partial_game` with the `*` markers dropped, cell by cell. |
| Video.PartialGameHorizontalWinner | connect_four.py:1166-1174 | On `partial_game` a run starts at (3, 1) and `winner_horizontal` returns "B". |
| Video.FirstSceneReplays | connect_four.py:42-46 | `add_token(2,"G")`, `(4,"B")`, `(2,"G")`, `(2,"B")` on the empty 6x7 board land in rows 5, 5, 4, 3. |
| Video.FirstSceneMarksPartialGame | connect_four.py:607-612 | The cells marked `*` in `partial_game` are exactly the tokens the first scene dropped, so skipping them rebuilds the board. |
| Video.IntroReplays | connect_four.py:2158-2169 | Every `(player, col, row)` of the intro is the row `add_token` picks after the earlier drops. |
| Video.IntroHorizontalWinner | connect_four.py:2158-2181 | The intro ends with "B" in row 5, columns 0-3, the first run, so `winner_horizontal` returns "B". |
| Video.PartialGameSceneFromRow2 | connect_four.py:1474-1554 | From row 2 the scene skips (2,0) and (2,1). It compares offsets 1 and 2 at (2,2) and only 1 at (2,3), skips (3,0), and wins at (3,1). |
| Video.PartialGameScene | connect_four.py:1254-1589 | The whole scene on `partial_game` is the fourteen visits listed, ending in "B" at (3,1). |
| Video.SliderFollowsScene | connect_four.py:1166-1174 | With the break at (3, 1), in the last row, the slider's stops are exactly the scene's fourteen starts, in order, and nothing after them. |
| Variables.UpdateContents | manim_ace/variables.py:50-53 | The box keeps its name, holds the new value and shows its display text. |
| Variables.UpdateContentsOverwrites | manim_ace/variables.py:50-53 | Two updates in a row leave only the second visible. |
| Variables.HasDippingChar | manim_ace/variables.py:74-79 | True iff the text contains one of g, j, p, q, y. |
| Variables.ContentsNudge | manim_ace/variables.py:35-42 | The contents move up 1 when name and contents both or neither dip, up 5 when only the name dips, and down 5 when only the contents dip (hundredths). |
| Variables.ShelfHeight | manim_ace/variables.py:82-85 | In tenths: 5 when empty, otherwise `6*rows + 1` with rows = entries / perRow, half rows included. |
| Variables.ShelfHeightIncreasing | manim_ace/variables.py:82-85 | With one box per row the height grows strictly with the number of boxes. |
| Variables.HalfRowIsLowerThanEmpty | manim_ace/variables.py:157-158 | With two per row, one box gives a lower formula height than none. The `max` with the old shelf hides this. |
| Variables.NewScope | manim_ace/variables.py:88-100 | A new scope holds only its shelf and no slots, and keeps the given `vars_per_row` and shelf height. |
| Variables.CheckSlot | manim_ace/variables.py:104-140 | With one box per row: a non-index slot asserts, and a later index needs the index before it (KeyError otherwise). With two per row: a non-pair slot raises TypeError; (0,0) and (0,1) are accepted; a lower pair needs the pair above it (assert otherwise). Any other `vars_per_row` asserts. |
| Variables.CreateVariable | manim_ace/variables.py:104-152 | A slot check failure is passed on unchanged. A slot that passes the checks succeeds iff it is free; a taken one hits the assert. A success holds the new box under its name. |
| Variables.CreateVariableAddsOneSlot | manim_ace/variables.py:104-158 | Creating into an occupied slot fails, on the slot checks or on the final assert. A success adds exactly one slot holding the name and the box under the name, keeps all other slots, and never shrinks the shelf. |
| Variables.DefaultCreateKeepsSinglesDense | manim_ace/variables.py:105-110 | With one per row and default slots, the slots stay 0..n-1. |
| Variables.DefaultCreateKeepsPairsDense | manim_ace/variables.py:113-116 | With two per row and default slots, the slots stay `(i // 2, i % 2)`. |
| Variables.AddMobj | manim_ace/variables.py:177-179 | Adding a mobject to a scope binds the key and leaves the slots alone. |
| Variables.NewArea | manim_ace/variables.py:182-194 | A new area has keys `scope_0` and `variables_txt` and one root scope. That scope holds only its shelf, has no slots, keeps the given `vars_per_row`, and has the shelf height of an empty scope. |
| Variables.NewAreaKeysMatchStack | manim_ace/variables.py:182-194 | In a new area, `scope_i` is a key exactly for the scopes on the stack. |
| Variables.TopScope | manim_ace/variables.py:196-197 | The top is the last scope; an empty stack raises IndexError. |
| Variables.PushScope | manim_ace/variables.py:199-211 | A push appends one scope, keeps the others, and adds key `scope_{old length}`. |
| Variables.PopScope | manim_ace/variables.py:213-223 | A pop removes the last scope and its key; an empty stack or a missing key fails. |
| Variables.PushedScopeIsTop | manim_ace/variables.py:199-211 | The pushed scope is the top: empty, with the requested boxes per row, at least as tall as the one below. |
| Variables.PushKeepsKeys | manim_ace/variables.py:208 | A push keeps `scope_i` keys in step with the stack. |
| Variables.PopKeepsKeys | manim_ace/variables.py:221-222 | A pop keeps `scope_i` keys in step with the stack. |
| Variables.PushThenPopRestores | manim_ace/variables.py:199-223 | A push followed by a pop gives back the same stack and key set. |
| Variables.PopRootLeavesNoTop | manim_ace/variables.py:213-223 | Popping the only scope succeeds, and then there is no top scope. |
| Lists.Labels | manim_ace/lists.py:16-29 | An empty list shows one `<empty>` label. Otherwise each item is shown as a box would show it. |
| Lists.LabelsQuoteStrings | manim_ace/lists.py:22-29 | A label is quoted iff its item is a string, and a list item shows `<list>`. |
| Lists.KeyNameInjective | manim_ace/lists.py:170-180 | Different parts have different VDict keys. |
| Lists.DivKeyInjective | manim_ace/lists.py:180 | `div_{i-1}_{i}` keys are distinct for distinct i. |
| Lists.TableKeys | manim_ace/lists.py:170-180 | A table of n cells has `index_0..index_{n-1}` and `div_{i-1}_{i}` for 1 <= i < n, and no backgrounds. |
| Lists.BuildKeys | manim_ace/lists.py:178-180 | The builder loop yields exactly those keys. |
| Lists.CreateHorizontalList | manim_ace/lists.py:160-181 | It succeeds iff there is exactly one non-empty row. It then yields the keys of its cells; otherwise it asserts. |
| Lists.CreateVerticalList | manim_ace/lists.py:184-205 | It succeeds iff there is at least one row and the rows have one cell. It then yields the keys of its rows; otherwise it asserts. |
| Lists.NewList | manim_ace/lists.py:9-50 | A new list holds the given contents, the given direction and the keys of its labels' table, and remembers its length for the alias. |
| Lists.Get | manim_ace/lists.py:52-57 | A lookup succeeds iff the alias-resolved key is present, and returns that part. |
| Lists.NewListAliases | manim_ace/lists.py:41-57 | On a new list, `div_-1_0` is `left_line` when horizontal and `top_line` otherwise. `div_{n-1}_{n}` is `right_line` or `bottom_line`. Every divider in between is itself. |
| Lists.Append | manim_ace/lists.py:59-111 | The item is added at the end; direction, built length and every existing key are kept. |
| Lists.AppendKeepsShape | manim_ace/lists.py:59-111 | Earlier entries and all existing keys are kept. An empty list's cell is taken over with no new keys. Otherwise only `index_n` and `div_{n-1}_{n}` are added. |
| Lists.SetItemChangesOneEntry | manim_ace/lists.py:114-124 | An empty list or a resize asserts. It succeeds exactly for `0 <= index < len` and changes only that entry. Keys, direction and built length, and so both aliases, are kept. A negative index fails on the `index_{index}` lookup. |
| Lists.SetItem | manim_ace/lists.py:114-124 | `animate_set`: an empty list or a resize asserts. It succeeds iff `0 <= index < len`, giving the new value at that index and every other entry unchanged. Length, keys, direction and built length are kept. A negative index fails with KeyError and one out of range with IndexError. |
| Lists.AddBackgroundForCell | manim_ace/lists.py:142-152 | As written: it succeeds iff both neighbouring dividers resolve, and adds `back_{index}`. |
| Lists.StaleLastAlias | manim_ace/lists.py:41-57 | After `List([1])` and one append, `div_0_1` resolves to the right line, and cell 1 cannot get a background. |
| Lists.GetCurrent | manim_ace/lists.py:52-57 | The corrected lookup: the last alias follows the current length. |
| Lists.AddBackgroundForCellCurrent | manim_ace/lists.py:142-152 | `add_background_for_cell` over the corrected lookup. |
| Lists.CorrectedAliasesResolve | manim_ace/lists.py:41-57 | With corrected aliases every shaped list resolves both ends and all inner dividers, and every cell can get a background. |
| Lists.PointTo | manim_ace/lists.py:226-232 | `point_to` changes only the end. |
| Lists.PointFrom | manim_ace/lists.py:234-240 | `point_from` changes only the start. |
| Lists.Relocate | manim_ace/lists.py:242-249 | `relocate` sets both ends. |
| Lists.OneEndThenTheOther | manim_ace/lists.py:226-249 | Moving both ends one at a time in either order is a relocation, which forgets the old ends. |
| Loops.PyRange | manim_ace/loops.py:113 | `range` with step 0 raises ValueError; any other step succeeds. |
| Loops.RangeElements | manim_ace/loops.py:113 | Element i is `start + i*step`. All elements lie before `stop` in the step's direction, and the next one would not. |
| Loops.EmptyRange | manim_ace/loops.py:113 | With a positive step the range is empty iff `start >= stop`. |
| Loops.Texts | manim_ace/loops.py:119 | One `str(x)` per element. |
| Loops.RangeTextIsListText | manim_ace/loops.py:113-114 | The glyph text is `str(range)` with its spaces removed. |
| Loops.ItemAtStart | manim_ace/loops.py:117-129 | Each item's glyphs sit at its start offset, followed by `,` or, after the last, `]`. |
| Loops.TargetsCoverElements | manim_ace/loops.py:114-130 | One target per element. Its slice of the glyph text is `str(element)`, followed by `,` or `]`. |
| Loops.MakeTargets | manim_ace/loops.py:116-130 | The offset loop computes exactly those targets. |
| Loops.StartAdvances | manim_ace/loops.py:128-129 | Each offset advances by the element's length plus one for the comma. |
| Loops.NewForRange | manim_ace/loops.py:11-18 | A new iterator holds the given loop variable, index -1, an empty range and nothing expanded. |
| Loops.MakeRangeAndTargets | manim_ace/loops.py:112-131 | It keeps index and loop variable, and sets the range, the glyph text and the targets; step 0 raises. |
| Loops.ExpandRange | manim_ace/loops.py:52-70 | A shown step must be given and non-zero, else it asserts. With no step shown, the step is 1. |
| Loops.ShowRange | manim_ace/loops.py:96-97 | `show_range` succeeds iff the step is not zero, else ValueError. It keeps the index and the loop variable, holds the range's elements, and is expanded with the range's glyph text and targets. |
| Loops.ShowAgreesWithExpand | manim_ace/loops.py:52-97 | `show_range` and `expand_range` give the same range and targets for the same arguments. |
| Loops.GoNext | manim_ace/loops.py:134-141 | Before any expansion: AttributeError. It succeeds iff the next index is valid Python indexing into both the targets and the range; otherwise IndexError. On success the index rises by one and the loop variable shows the range element at that index. |
| Loops.StepsFollowRange | manim_ace/loops.py:134-141 | From an expansion, step k (k <= len) puts the index at k-1 with the loop variable holding element k-1. Step len+1 fails with IndexError. |
| Code.SwapColor | manim_ace/code.py:21-29 | `#A90D91` becomes `#900A7F`; every other colour is unchanged. |
| Code.ApplyPalette | manim_ace/code.py:27-29 | Every entry of every line gets its colour swapped, and its text is kept. |
| Code.PaletteIdempotent | manim_ace/code.py:21-29 | After the swap no `#A90D91` remains, and swapping again changes nothing. |
| Code.CountLeadingDots | manim_ace/code.py:71-76 | The loop counts the dots before the first non-dot glyph. |
| Code.LeadingDotsIsMaximal | manim_ace/code.py:71-77 | The removed run is all dots and is followed by a non-dot or the end. |
| Code.LeadingDotsUnique | manim_ace/code.py:71-77 | Only one prefix length has that property. |
| Code.StripDotsSpec | manim_ace/code.py:71-77 | The line is the removed dots followed by the rest. The rest does not start with a dot, and stripping twice changes nothing. |
| Code.StripLine | manim_ace/code.py:71-77 | The removal loop leaves the stripped line. |
| Code.NewCodeWindow | manim_ace/code.py:33-83 | `line_offset = start - 1`. Keys `line_k` and `label_k` exist for exactly k in start..start+n-1, and lines are stored stripped. Labels with k % 10 == 1 are shifted, and only those. |
| Code.Lines | manim_ace/code.py:93-100 | `lines(s, e)` is lines s..e inclusive, in order, and raises KeyError if one is missing. A missing end means `total_lines - 1 + line_offset`. |
| Code.LinesFrom | manim_ace/code.py:97-99 | The lookup loop succeeds iff every line of the span exists. |
| Code.LinesOfNewWindow | manim_ace/code.py:93-100 | On a new window a span works iff it lies within the numbered lines. With no end, it stops one line before the last. |
| Code.KindColor | manim_ace/code.py:109-124 | Only for, for2, if, else, elif, def and while are known; any other kind asserts. |
| Code.KindColorsDistinct | manim_ace/code.py:109-124 | for and while share a colour; every other pair of kinds differs. |
| Code.HighlightScope | manim_ace/code.py:106-144 | Success iff the kind is known, the keyword line exists and every body line `line+off .. line+off+lines-1` exists. An unknown kind asserts; a missing line raises KeyError. The body spans exactly those lines, and the result is stored under `scope_{line}`. |
| Code.HighlightBodySpan | manim_ace/code.py:129-144 | On a new window the highlight succeeds when its lines exist. The body has exactly `lines` lines, starting at `line+off`. |
| Functions.KindOf | manim_ace/functions.py:21-25 | Library overrides user, which overrides standard. |
| Functions.InputKeys | manim_ace/functions.py:38-44 | The input keys are `input_1..input_n`; there are none for n <= 0. |
| Functions.AddInputs | manim_ace/functions.py:38-44 | The input loop adds exactly those keys. |
| Functions.NewFunction | manim_ace/functions.py:8-57 | Flagged as both user and library: asserts. No inputs and no outputs: asserts. More than one output: asserts. Otherwise the result is the box Built describes. |
| Functions.Built | manim_ace/functions.py:38-57 | `input_i` for 1 <= i <= n; `output_1` iff one output; always `box` and `label`; `desc_txt` iff not a user function. The box keeps the input and output counts and its colour kind. |
| Functions.AllInputs | manim_ace/functions.py:59-63 | `all_inputs` lists `input_1..input_n` in order, and raises KeyError if one is missing. |
| Functions.InputsFrom | manim_ace/functions.py:61-62 | The loop from i on lists `input_{i+1}..input_n`. |
| Functions.AllInputsOfBuilt | manim_ace/functions.py:59-63 | On a constructed box `all_inputs` succeeds and lists every input key. |
| AceScene.Setup | manim_ace/scene.py:27-33 | No counter, `pc_loc = (-1,0,0)`, an empty stack, no code window or variables. |
| AceScene.SetCode | manim_ace/scene.py:61-63 | Only the code window changes. |
| AceScene.SetVariables | manim_ace/scene.py:65-66 | Only the variable area changes. |
| AceScene.MovePc | manim_ace/scene.py:68-76 | `pc_loc` becomes exactly (line, start, end), even when the lookup then fails. The call fails iff there is no window or no `line_{line}`. The first move creates the counter. |
| AceScene.PcEndScope | manim_ace/scene.py:78-91 | Only `if` (down) and `for`/`while` (up) are accepted. It also needs a counter and `label_{line}`. |
| AceScene.PushPc | manim_ace/scene.py:277-285 | Push saves (pc, pc_loc), installs the new counter and moves it. With no counter yet it fails after saving. |
| AceScene.PopPc | manim_ace/scene.py:287-295 | Pop needs a counter and fails on an empty stack. Otherwise it restores the saved counter and location. |
| AceScene.PushThenPopRestores | manim_ace/scene.py:277-295 | A successful push followed by pop gives back counter, location and stack exactly. |
| AceScene.PushBeforeMoveFails | manim_ace/scene.py:277-288 | Pushing before the first move raises after saving `(None, (-1,0,0))`. A pop then fails its layer assert. |
| AceScene.CallAndReturn | manim_ace/scene.py:68-76 | Move, push, pop: the counter ends where the first move put it, and nothing remains saved. |
| AceScene.HighlightScope | manim_ace/scene.py:201-209 | It highlights at the counter's location unless one is given, with the body starting on the next line. |
| AceScene.HighlightAtCounter | manim_ace/scene.py:203-205 | Without a location the new scope is keyed by the counter's line and spans its glyphs. |
| AceScene.SceneTop | manim_ace/scene.py:101 | The innermost scope: AttributeError with no area, IndexError on an empty stack, otherwise the last scope of the stack. |
| AceScene.GetVariable | manim_ace/scene.py:311-312 | `get_variable` returns what the top scope holds under the name, else KeyError. |
| AceScene.GetVariableSeesOnlyTop | manim_ace/scene.py:311-312 | A name bound only in an outer scope is not found. |
| AceScene.CreateVariable | manim_ace/scene.py:96-107 | A name already in the top scope asserts. Otherwise it succeeds exactly when the scope's own create succeeds, passing on its error. Only the top scope changes. |
| AceScene.CreateThenGet | manim_ace/scene.py:96-107 | After a create the variable is found with its value and outer scopes are unchanged. Creating it again asserts. |
| AceScene.UpdateVariable | manim_ace/scene.py:144-150 | The entry must be a variable box, which then shows the new value under the same name. |
| AceScene.UpdateThenGet | manim_ace/scene.py:144-150 | After an update the name reads the new value; every other name reads as before. |
| AceScene.OperandValue | manim_ace/scene.py:155-170 | A name yields its box's value; a literal must be truthy. |
| AceScene.NumericCalculation | manim_ace/scene.py:152-199 | It succeeds iff both operands resolve, there is a variable area, the operator is `*` or `+`, and both operands convert with `int`. The result is then their product or sum. Operand errors come first, in order; then a missing area (TypeError); any other operator asserts. |
| AceScene.CalculationOnBoxes | manim_ace/scene.py:188-194 | Two integer boxes give a*b and a+b. A literal showing `str(n)` counts as n, and `-` asserts. |
| AceScene.FirstAt | manim_ace/scene.py:316-317 | The first index on the level holding the target, or None if it is absent there. |
| AceScene.RemoveFrom | manim_ace/scene.py:315-322 | It returns true iff the target occurs anywhere. A target on the current level is removed there first. An absent target leaves the tree unchanged. |
| AceScene.RemoveInChildren | manim_ace/scene.py:319-321 | Children are searched in order. A removal in the first subtree leaves later siblings untouched, and top-level identities are kept. |
| AceScene.RemoveTakesOne | manim_ace/scene.py:315-322 | In a mobject tree whose groups share no sub-mobjects, and where occurrences of the target are not nested, exactly one occurrence is removed. |

## Left out

- Geometry, layout, colours as drawn, fonts, animation and timing: `play`, `wait`, `next_to`, `align_to`, widths and heights, layers and the camera. Only the logical fields and keys are modelled. `manim_ace/utils.py` is purely geometric.
- Floating point: the box and shelf sizes, `MIN_HEIGHT` and the rounding in `numeric_calculation`. `shelf_height` is modelled in integer tenths.
- Variables.PushScope: uses the new scope's formula height or the previous shelf's height. The source uses the previous scope's drawn height, which also counts boxes that overhang the shelf.
- Variables.PopScope: popping the root scope succeeds; `pop_variable_stack` does not guard the last scope.
- Code.Lines: `lines(s, None)` stops at `total_lines - 1 + line_offset`, one line before the last numbered line, as written. The rendered code ends with a newline, so in practice this is the last real line.
- Scenes.SceneDrop: the scene is modelled on the video's 6x7 board only. Its scan (`Scenes.SceneFrom`) covers rows and columns 0-3 as the scene hard-codes them.
- Mutation before an exception is kept only by the `AceScene` program-counter steps. Elsewhere a `Result` error discards it:
  - `animate_set` writes `contents[index]` before the lookup that raises KeyError;
  - `go_next` increments `index` before the failing target lookup;
  - `VariableScope.create_variable` adds the box before the occupied-slot assert.
- A `List`'s `contents` aliases the caller's list. The model copies it.
- AceScene.RemoveTakesOne: mobjects are modelled as a tree of values, so a sub-mobject held by two groups is two copies. In Python, `mobjects.remove(target)` changes the one shared `submobjects` list, and every parent sees the removal. The model counts one removal there.
- `pop_pc`'s layer check is modelled as "the counter exists", which is when the scene keeps it on the top layer.
- `create_variable`'s check that the shelf is still among the scope's submobjects always holds in the model, which never takes groups apart.
- The font-availability assertions in `setup` are a check of the environment.
- `ForRange.finish` and `break_anims` only animate. They change no logical field of the iterator, so they have no model.
- `animate_user_fn`, `cross_fade`, `set_functions_anchor` and `AnimatedCodeScene.add`/`remove` only arrange mobjects on screen.
- `manim_ace/conditionals.py` (a styling widget), `sample_code.py` (a demo script) and the purely visual parts of the intro and outro scenes.
- Values.ToInt: accepts an optional minus sign followed by digits. Python's `int` also allows surrounding whitespace, a `+` sign and underscores.
- Lists.CreateVerticalList: requires rows of equal length. Manim's `Table` rejects ragged rows, and that check is not part of this model.
- The `*` markers of `partial_game` only steer highlighting. The scans are modelled on the board without them (`Video.PartialGameUnstarred`).

## Findings

| source | as written | input that shows it | evidently intended | confidence | as-written member | corrected member |
|---|---|---|---|---|---|---|
| manim_ace/lists.py:41-57, 142-152 | The last divider alias `div_{n-1}_{n}` is fixed when the list is built. After `animate_append` it names a real inner divider yet still resolves to the outer line, and the new last divider has no key. | `List([1])`, then `animate_append(2)`: `l['div_0_1']` is the right outline line, and `add_background_for_cell(1)` raises KeyError on `div_1_2`. | The alias tracks the current length, so inner dividers resolve to themselves and every cell can get a background. | medium, not executed | Lists.StaleLastAlias | Lists.CorrectedAliasesResolve |
