/** `ForRange`: a `for x in range(...)` loop shown by expanding the range
    into the text of its list and stepping a highlight along it.

    Manim's `Text` drops spaces, so the glyphs of the expanded range are
    the text of the list with its spaces removed: `[0,1,2]`.  A target is
    the run of glyphs of one element, given by its first glyph's offset
    and its length.
 */
module Loops {

  import opened Wrappers
  import opened Text
  import opened Values
  import opened Variables

  // ---------------------------------------------------------------------
  // range(start, stop, step)

  /** The elements of `range(start, stop, step)` for a step that is not
      zero. */
  function RangeFrom(start: int, stop: int, step: int): (r: seq<int>)
    requires step != 0
    decreases if step > 0 then stop - start else start - stop
  {
    if (step > 0 && start < stop) || (step < 0 && start > stop) then [start] + RangeFrom(start + step, stop, step)
    else []
  }

  /** `list(range(start, stop, step))`: a ValueError for a zero step. */
  function PyRange(start: int, stop: int, step: int): (r: Result<seq<int>>)
    ensures r.Ok? <==> step != 0
  {
    if step == 0 then Err(ValueError) else Ok(RangeFrom(start, stop, step))
  }

  /** Python's range: element i is `start + i * step`, every element lies
      before `stop` in the direction of the step, and the next one would
      not. */
  lemma {:induction false} RangeElements(start: int, stop: int, step: int)
    requires step != 0
    ensures var r := RangeFrom(start, stop, step);
            && (forall i :: 0 <= i < |r| ==> r[i] == start + i * step)
            && (step > 0 ==> (forall i :: 0 <= i < |r| ==> r[i] < stop) && start + |r| * step >= stop)
            && (step < 0 ==> (forall i :: 0 <= i < |r| ==> r[i] > stop) && start + |r| * step <= stop)
    decreases if step > 0 then stop - start else start - stop
  {
    var r := RangeFrom(start, stop, step);
    if |r| > 0 {
      RangeElements(start + step, stop, step);
      var r' := RangeFrom(start + step, stop, step);
      assert r == [start] + r';
      forall i | 1 <= i < |r| ensures r[i] == start + i * step {
        assert r[i] == r'[i - 1] == start + step + (i - 1) * step;
      }
      assert start + step + |r'| * step == start + |r| * step;
    }
  }

  /** With a positive step the range is empty exactly when start is not
      before stop. */
  lemma EmptyRange(start: int, stop: int, step: int)
    requires step > 0
    ensures RangeFrom(start, stop, step) == [] <==> start >= stop
  {
  }

  // ---------------------------------------------------------------------
  // The text of the range and its targets

  /** The text of each element, `str(x)`. */
  function Texts(xs: seq<int>): (ws: seq<string>)
    ensures |ws| == |xs| && forall i :: 0 <= i < |xs| ==> ws[i] == IntToString(xs[i])
  {
    seq(|xs|, i requires 0 <= i < |xs| => IntToString(xs[i]))
  }

  /** A bracketed list of texts cut after its first k items (the closing
      bracket not yet written), items joined by `sep`. */
  function JoinUpTo(ws: seq<string>, k: nat, sep: string): string
    requires k <= |ws|
  {
    if k == 0 then "[" else JoinUpTo(ws, k - 1, sep) + Piece(ws, k - 1, sep)
  }

  /** Item k, after the separator from the item before. */
  function Piece(ws: seq<string>, k: nat, sep: string): string
    requires k < |ws|
  {
    (if k > 0 then sep else "") + ws[k]
  }

  /** `str(xs)` for a list of integers. */
  function PyListStr(xs: seq<int>): string {
    JoinUpTo(Texts(xs), |xs|, ", ") + "]"
  }

  /** The glyphs of the expanded range: the same with no spaces. */
  function RangeText(xs: seq<int>): string {
    JoinUpTo(Texts(xs), |xs|, ",") + "]"
  }

  /** A text with its spaces removed, as `Text` renders it. */
  function RemoveSpaces(s: string): (t: string)
    ensures |t| <= |s|
  {
    if |s| == 0 then "" else (if s[0] == ' ' then "" else [s[0]]) + RemoveSpaces(s[1..])
  }

  lemma {:induction false} RemoveSpacesConcat(s: string, t: string)
    ensures RemoveSpaces(s + t) == RemoveSpaces(s) + RemoveSpaces(t)
  {
    if |s| > 0 {
      assert (s + t)[0] == s[0];
      assert (s + t)[1..] == s[1..] + t;
      RemoveSpacesConcat(s[1..], t);
    } else {
      assert s + t == t;
    }
  }

  predicate NoSpace(s: string) {
    forall i :: 0 <= i < |s| ==> s[i] != ' '
  }

  lemma {:induction false} RemoveSpacesKeeps(s: string)
    requires NoSpace(s)
    ensures RemoveSpaces(s) == s
  {
    if |s| > 0 {
      RemoveSpacesKeeps(s[1..]);
      assert s == [s[0]] + s[1..];
    }
  }

  lemma IntTextHasNoSpace(n: int)
    ensures NoSpace(IntToString(n))
  {
    var s := IntToString(n);
    if n < 0 {
      assert s == "-" + NatToString(-n);
    }
  }

  lemma {:induction false} JoinWithoutSpaces(ws: seq<string>, k: nat)
    requires k <= |ws|
    requires forall i :: 0 <= i < |ws| ==> NoSpace(ws[i])
    ensures RemoveSpaces(JoinUpTo(ws, k, ", ")) == JoinUpTo(ws, k, ",")
  {
    if k > 0 {
      JoinWithoutSpaces(ws, k - 1);
      var sep := if k > 1 then ", " else "";
      RemoveSpacesConcat(JoinUpTo(ws, k - 1, ", "), Piece(ws, k - 1, ", "));
      RemoveSpacesConcat(sep, ws[k - 1]);
      RemoveSpacesKeeps(ws[k - 1]);
      assert RemoveSpaces(", ") == ",";
      assert RemoveSpaces("") == "";
    } else {
      assert RemoveSpaces("[") == "[";
    }
  }

  /** The expanded range is exactly what `Text(str(range))` shows. */
  lemma RangeTextIsListText(xs: seq<int>)
    ensures RemoveSpaces(PyListStr(xs)) == RangeText(xs)
  {
    var ws := Texts(xs);
    forall i | 0 <= i < |ws| ensures NoSpace(ws[i]) {
      IntTextHasNoSpace(xs[i]);
    }
    JoinWithoutSpaces(ws, |ws|);
    RemoveSpacesConcat(JoinUpTo(ws, |ws|, ", "), "]");
    assert RemoveSpaces("]") == "]";
  }

  /** Where item i starts: after the bracket and, for each earlier item,
      its glyphs and a comma. */
  function Start(ws: seq<string>, i: nat): nat
    requires i <= |ws|
  {
    |JoinUpTo(ws, i, ",")| + (if i > 0 then 1 else 0)
  }

  /** The glyph run of one element. */
  datatype Target = Target(offset: nat, len: nat)

  /** The targets as a definition: one per element. */
  function TargetsOf(xs: seq<int>): (ts: seq<Target>)
    ensures |ts| == |xs|
  {
    var ws := Texts(xs);
    seq(|xs|, i requires 0 <= i < |xs| => Target(Start(ws, i), |ws[i]|))
  }

  lemma {:induction false} JoinPrefix(ws: seq<string>, k: nat, m: nat)
    requires k <= m <= |ws|
    ensures |JoinUpTo(ws, k, ",")| <= |JoinUpTo(ws, m, ",")|
    ensures JoinUpTo(ws, m, ",")[..|JoinUpTo(ws, k, ",")|] == JoinUpTo(ws, k, ",")
    decreases m
  {
    if k < m {
      JoinPrefix(ws, k, m - 1);
      var a := JoinUpTo(ws, m - 1, ",");
      var len := |JoinUpTo(ws, k, ",")|;
      assert JoinUpTo(ws, m, ",") == a + Piece(ws, m - 1, ",");
      assert (a + Piece(ws, m - 1, ","))[..len] == a[..len];
    }
  }

  /** Each item's glyphs sit at its start, followed by a comma, or by the
      closing bracket after the last item. */
  lemma ItemAtStart(ws: seq<string>, i: nat)
    requires i < |ws|
    ensures var t := JoinUpTo(ws, |ws|, ",") + "]"; var s := Start(ws, i);
            && s + |ws[i]| < |t|
            && t[s..s + |ws[i]|] == ws[i]
            && t[s + |ws[i]|] == (if i + 1 < |ws| then ',' else ']')
  {
    var whole := JoinUpTo(ws, |ws|, ",");
    var t := whole + "]";
    var p := JoinUpTo(ws, i + 1, ",");
    var s := Start(ws, i);
    var n := |ws[i]|;
    assert p == JoinUpTo(ws, i, ",") + Piece(ws, i, ",");
    assert |p| == s + n;
    assert p[s..] == ws[i];
    JoinPrefix(ws, i + 1, |ws|);
    assert whole[..|p|] == p;
    assert t[s..s + n] == whole[s..s + n] == p[s..];
    if i + 1 < |ws| {
      JoinPrefix(ws, i + 2, |ws|);
      var q := JoinUpTo(ws, i + 2, ",");
      assert q == p + Piece(ws, i + 1, ",");
      assert q[|p|] == ',';
      assert whole[..|q|] == q;
      assert t[s + n] == whole[s + n] == q[s + n];
    } else {
      assert whole == p;
    }
  }

  /** Every target of a range covers exactly its element's text, followed
      by `,` or `]`. */
  lemma TargetsCoverElements(xs: seq<int>)
    ensures forall i :: 0 <= i < |xs| ==>
              && TargetsOf(xs)[i].offset + TargetsOf(xs)[i].len < |RangeText(xs)|
              && RangeText(xs)[TargetsOf(xs)[i].offset..TargetsOf(xs)[i].offset + TargetsOf(xs)[i].len] == IntToString(xs[i])
              && RangeText(xs)[TargetsOf(xs)[i].offset + TargetsOf(xs)[i].len] in {',', ']'}
  {
    var ws := Texts(xs);
    forall i | 0 <= i < |xs|
      ensures && TargetsOf(xs)[i].offset + TargetsOf(xs)[i].len < |RangeText(xs)|
              && RangeText(xs)[TargetsOf(xs)[i].offset..TargetsOf(xs)[i].offset + TargetsOf(xs)[i].len] == IntToString(xs[i])
              && RangeText(xs)[TargetsOf(xs)[i].offset + TargetsOf(xs)[i].len] in {',', ']'}
    {
      ItemAtStart(ws, i);
    }
  }

  /** The loop of `_make_range_and_targets`: the offset starts after the
      bracket and moves past each element and its comma. */
  method MakeTargets(xs: seq<int>) returns (targets: seq<Target>)
    ensures targets == TargetsOf(xs)
  {
    var all := TargetsOf(xs);
    targets := [];
    var offset := 1;
    var i := 0;
    while i < |xs|
      invariant 0 <= i <= |xs|
      invariant offset == Start(Texts(xs), i)
      invariant targets == all[..i]
    {
      var newLen := |IntToString(xs[i])|;
      StartAdvances(Texts(xs), i);
      assert all[i] == Target(offset, newLen);
      targets := targets + [Target(offset, newLen)];
      offset := offset + newLen;
      offset := offset + 1;
      i := i + 1;
    }
    assert all[..|xs|] == all;
  }

  /** The next item starts past this one and its comma. */
  lemma StartAdvances(ws: seq<string>, i: nat)
    requires i < |ws|
    ensures Start(ws, i + 1) == Start(ws, i) + |ws[i]| + 1
  {
    assert JoinUpTo(ws, i + 1, ",") == JoinUpTo(ws, i, ",") + Piece(ws, i, ",");
  }

  // ---------------------------------------------------------------------
  // The iterator

  /** The expanded range: its glyphs and the targets in them. */
  datatype Expansion = Expansion(text: string, targets: seq<Target>)

  /** A `ForRange`: the loop variable's box, the range, the position of
      the highlight, and the expansion once there is one. */
  datatype ForRange = ForRange(loopVar: VarBox, range: seq<int>, index: int, expansion: Option<Expansion>)

  /** `ForRange(loop_var, range_code)`: nothing expanded, before the first
      element. */
  function NewForRange(loopVar: VarBox): (f: ForRange)
    ensures f.loopVar == loopVar && f.index == -1 && f.range == [] && f.expansion.None?
  {
    ForRange(loopVar, [], -1, None)
  }

  /** `_make_range_and_targets(start, stop, step)`. */
  function MakeRangeAndTargets(f: ForRange, start: int, stop: int, step: int): (r: Result<ForRange>)
    ensures r.Ok? <==> step != 0
    ensures r.Ok? ==> r.value.index == f.index && r.value.loopVar == f.loopVar
    ensures r.Ok? ==> r.value.range == PyRange(start, stop, step).value
    ensures r.Ok? ==> r.value.expansion == Some(Expansion(RangeText(r.value.range), TargetsOf(r.value.range)))
  {
    match PyRange(start, stop, step)
    case Err(e) => Err(e)
    case Ok(xs) => Ok(f.(range := xs, expansion := Some(Expansion(RangeText(xs), TargetsOf(xs)))))
  }

  /** `expand_range(..., start, stop, step, step_mobj)`: a step shown on
      screen must be given and not zero; with none shown the step is 1,
      whatever was passed. */
  function ExpandRange(f: ForRange, start: int, stop: int, step: Option<int>, stepShown: bool): (r: Result<ForRange>)
    ensures stepShown && (step.None? || step == Some(0)) ==> r == Err(AssertionFailed)
    ensures !stepShown ==> r == MakeRangeAndTargets(f, start, stop, 1)
    ensures stepShown && step.Some? && step.value != 0 ==> r == MakeRangeAndTargets(f, start, stop, step.value)
  {
    if stepShown then
      if step.None? || step.value == 0 then Err(AssertionFailed)
      else MakeRangeAndTargets(f, start, stop, step.value)
    else MakeRangeAndTargets(f, start, stop, 1)
  }

  /** `show_range(start, stop, step=1)`. */
  function ShowRange(f: ForRange, start: int, stop: int, step: int): (r: Result<ForRange>)
    ensures r.Ok? <==> step != 0
    ensures r.Err? ==> r.error == ValueError
    ensures r.Ok? ==> r.value.index == f.index && r.value.loopVar == f.loopVar
    ensures r.Ok? ==> r.value.range == RangeFrom(start, stop, step)
    ensures r.Ok? ==> Expanded(r.value) && r.value.expansion.value.text == RangeText(r.value.range)
  {
    MakeRangeAndTargets(f, start, stop, step)
  }

  /** The two ways of expanding agree on the range and its targets. */
  lemma ShowAgreesWithExpand(f: ForRange, start: int, stop: int, step: int)
    requires step != 0
    ensures ShowRange(f, start, stop, step) == ExpandRange(f, start, stop, Some(step), true)
    ensures ShowRange(f, start, stop, 1) == ExpandRange(f, start, stop, None, false)
    ensures ShowRange(f, start, stop, step).value.range == RangeFrom(start, stop, step)
  {
  }

  /** `go_next()`: the index moves on, the highlight goes to the target
      at the new index and the loop variable takes the element there, both
      looked up with Python indexing.  Before any expansion there are no
      targets (an AttributeError); past the last one, an IndexError. */
  function GoNext(f: ForRange): (r: Result<ForRange>)
    ensures f.expansion.None? ==> r == Err(AttributeError)
    ensures f.expansion.Some? ==>
              (r.Ok? <==> NormIndex(|f.expansion.value.targets|, f.index + 1).Some?
                          && NormIndex(|f.range|, f.index + 1).Some?)
    ensures f.expansion.Some? && r.Err? ==> r.error == IndexError
    ensures r.Ok? ==> r.value.index == f.index + 1
    ensures r.Ok? ==> r.value.range == f.range && r.value.expansion == f.expansion
    ensures r.Ok? ==> r.value.loopVar == UpdateContents(f.loopVar, VInt(f.range[NormIndex(|f.range|, f.index + 1).value]))
  {
    match f.expansion
    case None => Err(AttributeError)
    case Some(e) =>
      match NormIndex(|e.targets|, f.index + 1)
      case None => Err(IndexError)
      case Some(_) =>
        match NormIndex(|f.range|, f.index + 1)
        case None => Err(IndexError)
        case Some(k) => Ok(f.(index := f.index + 1, loopVar := UpdateContents(f.loopVar, VInt(f.range[k]))))
  }

  /** A range as an expansion leaves it: the targets are those of the
      range. */
  ghost predicate Expanded(f: ForRange) {
    f.expansion.Some? && f.expansion.value.targets == TargetsOf(f.range)
  }

  /** `go_next` applied k times. */
  function GoNextTimes(f: ForRange, k: nat): Result<ForRange> {
    if k == 0 then Ok(f)
    else match GoNextTimes(f, k - 1)
      case Err(e) => Err(e)
      case Ok(g) => GoNext(g)
  }

  /** From a fresh expansion, the first `|range|` steps succeed, step k
      leaving the highlight on element k-1 and the loop variable holding
      it; one more step fails. */
  lemma {:induction false} StepsFollowRange(f: ForRange, k: nat)
    requires Expanded(f) && f.index == -1
    ensures k <= |f.range| ==> GoNextTimes(f, k).Ok?
    ensures k <= |f.range| ==> GoNextTimes(f, k).value.index == k - 1
    ensures k <= |f.range| ==> Expanded(GoNextTimes(f, k).value) && GoNextTimes(f, k).value.range == f.range
    ensures 0 < k <= |f.range| ==> GoNextTimes(f, k).value.loopVar == UpdateContents(f.loopVar, VInt(f.range[k - 1]))
    ensures k == |f.range| + 1 ==> GoNextTimes(f, k) == Err(IndexError)
  {
    if k > 0 {
      StepsFollowRange(f, k - 1);
    }
  }
}
