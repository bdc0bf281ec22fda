/** A `List` on screen: the logical contents, the labels its cells show,
    the keys of its parts, the two divider aliases, and the `Pointer`
    arrow.  Parts are known by their keys only.
 */
module Lists {

  import opened Wrappers
  import opened Text
  import opened Values

  // ---------------------------------------------------------------------
  // Labels and keys

  /** The label of every cell: one `<empty>` cell for an empty list,
      otherwise each item as a box would show it. */
  function Labels(items: seq<Value>): (r: seq<string>)
    ensures |items| == 0 ==> r == ["<empty>"]
    ensures |items| > 0 ==> |r| == |items| && forall i :: 0 <= i < |items| ==> r[i] == Display(items[i])
  {
    if |items| == 0 then ["<empty>"] else seq(|items|, i requires 0 <= i < |items| => Display(items[i]))
  }

  /** An item is shown in quotes exactly when it is a string, and a list
      item as `<list>`. */
  lemma LabelsQuoteStrings(items: seq<Value>, i: int)
    requires 0 <= i < |items|
    ensures items[i].VStr? <==> |Labels(items)[i]| >= 2 && Labels(items)[i][0] == '"'
    ensures items[i].VList? ==> Labels(items)[i] == "<list>"
  {
    DisplayQuotesStrings(items[i]);
  }

  /** The parts of a list, by key.  `DivBefore(i)` is the divider to the
      left of (or above) cell i, keyed `div_{i-1}_{i}`; every divider the
      code looks up has a key of that form. */
  datatype Part =
    | BackgroundRect | TopLine | BottomLine | LeftLine | RightLine
    | Index(i: int)
    | DivBefore(cell: int)
    | Back(i: int)

  /** The VDict key of a part. */
  function KeyName(p: Part): string {
    match p
    case BackgroundRect => "background_rect"
    case TopLine => "top_line"
    case BottomLine => "bottom_line"
    case LeftLine => "left_line"
    case RightLine => "right_line"
    case Index(i) => "index_" + IntToString(i)
    case DivBefore(i) => "div_" + IntToString(i - 1) + "_" + IntToString(i)
    case Back(i) => "back_" + IntToString(i)
  }

  /** Which kind of part a key names, read off its first and fifth
      characters. */
  function KindOfKey(s: string): int {
    if |s| < 5 then -1
    else if s[0] == 'b' then (if s[4] == 'g' then 0 else if s[4] == 'o' then 2 else 7)
    else if s[0] == 't' then 1
    else if s[0] == 'l' then 3
    else if s[0] == 'r' then 4
    else if s[0] == 'i' then 5
    else if s[0] == 'd' then 6
    else -1
  }

  function KindOf(p: Part): int {
    match p
    case BackgroundRect => 0
    case TopLine => 1
    case BottomLine => 2
    case LeftLine => 3
    case RightLine => 4
    case Index(_) => 5
    case DivBefore(_) => 6
    case Back(_) => 7
  }

  lemma KindOfKeyName(p: Part)
    ensures KindOfKey(KeyName(p)) == KindOf(p)
  {
    match p
    case Index(i) =>
      assert KeyName(p)[0] == 'i' && |KeyName(p)| >= 5;
    case DivBefore(i) =>
      assert KeyName(p)[0] == 'd' && |KeyName(p)| >= 5;
    case Back(i) =>
      assert KeyName(p)[0] == 'b' && KeyName(p)[4] == '_' && |KeyName(p)| >= 5;
    case _ =>
  }

  /** Different parts have different keys, so looking a part up by its
      key is looking it up by the part. */
  lemma KeyNameInjective(p: Part, q: Part)
    ensures KeyName(p) == KeyName(q) <==> p == q
  {
    if KeyName(p) == KeyName(q) {
      KindOfKeyName(p);
      KindOfKeyName(q);
      match p
      case Index(i) =>
        KeyInjective("index_", i, q.i);
      case Back(i) =>
        KeyInjective("back_", i, q.i);
      case DivBefore(c) =>
        DivKeyInjective(c, q.cell);
      case _ =>
    }
  }

  lemma DivKeyInjective(c: int, d: int)
    requires KeyName(DivBefore(c)) == KeyName(DivBefore(d))
    ensures c == d
  {
    IntTextHasNoUnderscore(c - 1);
    IntTextHasNoUnderscore(d - 1);
    SplitDivKey(IntToString(c - 1), IntToString(c), IntToString(d - 1), IntToString(d));
    IntToStringInjective(c, d);
  }

  lemma SplitDivKey(a: string, b: string, e: string, f: string)
    requires NoUnderscore(a) && NoUnderscore(e)
    requires "div_" + a + "_" + b == "div_" + e + "_" + f
    ensures a == e && b == f
  {
    assert "div_" + a + "_" + b == "div_" + (a + "_" + b);
    assert "div_" + e + "_" + f == "div_" + (e + "_" + f);
    PrefixCancels("div_", a + "_" + b, e + "_" + f);
    SplitAtUnderscore(a, b, e, f);
  }

  lemma PrefixCancels(p: string, u: string, w: string)
    requires p + u == p + w
    ensures u == w
  {
    assert u == (p + u)[|p|..];
    assert w == (p + w)[|p|..];
  }

  /** The text of an integer has no `_`, so `s + "_" + u` splits at its
      first `_`. */
  lemma SplitAtUnderscore(s: string, u: string, t: string, w: string)
    requires NoUnderscore(s) && NoUnderscore(t)
    requires s + "_" + u == t + "_" + w
    ensures s == t && u == w
  {
    var x := s + "_" + u;
    FirstUnderscore(s, u);
    FirstUnderscore(t, w);
    assert |s| == |t|;
    assert s == x[..|s|] == t;
    assert u == x[|s| + 1..] == w;
  }

  /** In `s + "_" + u` with no `_` in s, the first `_` is right after s. */
  lemma FirstUnderscore(s: string, u: string)
    requires NoUnderscore(s)
    ensures (s + "_" + u)[|s|] == '_'
    ensures forall k :: 0 <= k < |s| ==> (s + "_" + u)[k] != '_'
  {
  }

  predicate NoUnderscore(s: string) {
    forall i :: 0 <= i < |s| ==> s[i] != '_'
  }

  lemma IntTextHasNoUnderscore(n: int)
    ensures NoUnderscore(IntToString(n))
  {
    var s := IntToString(n);
    if n < 0 {
      assert s == "-" + NatToString(-n);
    }
  }

  /** The outline parts every list has. */
  const Outline: set<Part> := {BackgroundRect, TopLine, BottomLine, LeftLine, RightLine}

  /** The parts of a table of n cells: the outline, one `index_i` per
      cell, and a divider before every cell but the first. */
  function TableKeys(n: nat): (keys: set<Part>)
    ensures forall i :: Index(i) in keys <==> 0 <= i < n
    ensures forall i :: DivBefore(i) in keys <==> 1 <= i < n
    ensures forall i :: Back(i) !in keys
  {
    Outline + (set i | 0 <= i < n :: Index(i)) + (set i | 1 <= i < n :: DivBefore(i))
  }

  /** The loop both list builders run: the first cell, then each further
      cell with the divider before it. */
  method BuildKeys(n: nat) returns (keys: set<Part>)
    requires n >= 1
    ensures keys == TableKeys(n)
  {
    keys := Outline + {Index(0)};
    var i := 1;
    while i < n
      invariant 1 <= i <= n
      invariant keys == TableKeys(i)
    {
      keys := keys + {Index(i), DivBefore(i)};
      i := i + 1;
    }
  }

  /** `create_horizontal_list(data)`: one row, not empty. */
  method CreateHorizontalList(data: seq<seq<string>>) returns (r: Result<set<Part>>)
    ensures r.Ok? <==> |data| == 1 && |data[0]| > 0
    ensures r.Ok? ==> r.value == TableKeys(|data[0]|)
    ensures !r.Ok? ==> r == Err(AssertionFailed)
  {
    if |data| != 1 || |data[0]| == 0 {
      return Err(AssertionFailed);
    }
    var keys := BuildKeys(|data[0]|);
    r := Ok(keys);
  }

  /** `create_vertical_list(data)`: at least one row, each of one cell (the
      builder checks the first; the table needs them all alike). */
  method CreateVerticalList(data: seq<seq<string>>) returns (r: Result<set<Part>>)
    requires forall i :: 0 <= i < |data| ==> |data[i]| == |data[0]|
    ensures r.Ok? <==> |data| > 0 && |data[0]| == 1
    ensures r.Ok? ==> r.value == TableKeys(|data|)
    ensures !r.Ok? ==> r == Err(AssertionFailed)
  {
    if |data| == 0 || |data[0]| != 1 {
      return Err(AssertionFailed);
    }
    var keys := BuildKeys(|data|);
    r := Ok(keys);
  }

  // ---------------------------------------------------------------------
  // The List object

  /** A list: its contents, its direction, the length it was built with
      (which fixes the last alias), and its parts. */
  datatype ListObj = ListObj(contents: seq<Value>, horizontal: bool, builtLength: nat, keys: set<Part>)

  /** The number of cells: an empty list still shows one. */
  function Cells(n: nat): nat { if n == 0 then 1 else n }

  /** `List(initial_contents, horizontal)`: the table of its labels. */
  function NewList(items: seq<Value>, horizontal: bool): (l: ListObj)
    ensures l.contents == items && l.builtLength == |items| && l.horizontal == horizontal
    ensures l.keys == TableKeys(|Labels(items)|)
  {
    ListObj(items, horizontal, |items|, TableKeys(Cells(|items|)))
  }

  /** The first and the last outline line along the list's direction. */
  function FirstLine(l: ListObj): Part { if l.horizontal then LeftLine else TopLine }
  function LastLine(l: ListObj): Part { if l.horizontal then RightLine else BottomLine }

  /** `__getitem__` as written: `div_-1_0` first, then the last alias for
      the length the list was built with. */
  function Resolve(l: ListObj, key: Part): Part {
    if key == DivBefore(0) then FirstLine(l)
    else if key == DivBefore(l.builtLength) then LastLine(l)
    else key
  }

  /** `l[key]`: the part the key resolves to, or a KeyError. */
  function Get(l: ListObj, key: Part): (r: Result<Part>)
    ensures r.Ok? <==> Resolve(l, key) in l.keys
    ensures r.Ok? ==> r.value == Resolve(l, key)
  {
    var k := Resolve(l, key);
    if k in l.keys then Ok(k) else Err(KeyError)
  }

  /** A list as built or grown: every part of its current cells is there,
      and it has not shrunk below its built length. */
  ghost predicate Shaped(l: ListObj) {
    TableKeys(Cells(|l.contents|)) <= l.keys && l.builtLength <= |l.contents|
  }

  /** A new list is shaped, and on it the aliases name the outline:
      `div_-1_0` the first line and `div_{n-1}_{n}` the last, while every
      divider in between is itself. */
  lemma NewListAliases(items: seq<Value>, horizontal: bool, i: int)
    requires |items| > 0
    ensures Shaped(NewList(items, horizontal))
    ensures Get(NewList(items, horizontal), DivBefore(0)) == Ok(if horizontal then LeftLine else TopLine)
    ensures Get(NewList(items, horizontal), DivBefore(|items|)) == Ok(if horizontal then RightLine else BottomLine)
    ensures 1 <= i < |items| ==> Get(NewList(items, horizontal), DivBefore(i)) == Ok(DivBefore(i))
  {
  }

  /** `animate_append(item)`: the item goes at the end; a list that had
      items also gains the divider before the new cell and the cell. */
  function Append(l: ListObj, item: Value): (l': ListObj)
    ensures l'.contents == l.contents + [item]
    ensures l'.horizontal == l.horizontal && l'.builtLength == l.builtLength
    ensures l.keys <= l'.keys
  {
    var n := |l.contents|;
    var keys := if n == 0 then l.keys else l.keys + {DivBefore(n), Index(n)};
    ListObj(l.contents + [item], l.horizontal, l.builtLength, keys)
  }

  /** Appending keeps earlier entries, adds at most the new cell's parts
      (none when the empty list's `<empty>` cell is taken over), and keeps
      the list shaped. */
  lemma AppendKeepsShape(l: ListObj, item: Value)
    requires Shaped(l)
    ensures Shaped(Append(l, item))
    ensures forall i :: 0 <= i < |l.contents| ==> Append(l, item).contents[i] == l.contents[i]
    ensures l.keys <= Append(l, item).keys
    ensures |l.contents| == 0 ==> Append(l, item).keys == l.keys
    ensures |l.contents| > 0 ==> Append(l, item).keys - l.keys <= {Index(|l.contents|), DivBefore(|l.contents|)}
  {
    var n := |l.contents|;
    if n > 0 {
      assert TableKeys(n + 1) == TableKeys(n) + {Index(n), DivBefore(n)};
    }
  }

  /** `animate_set(index, value, resize)`: only on a non-empty list and
      without resizing; the index may count from the end, but the cell is
      then looked up as `index_{index}` under the negative number. */
  function SetItem(l: ListObj, index: int, v: Value, resize: bool): (r: Result<ListObj>)
    ensures |l.contents| == 0 || resize ==> r == Err(AssertionFailed)
    ensures r.Ok? <==> |l.contents| > 0 && !resize && 0 <= index < |l.contents|
    ensures r.Ok? ==> |r.value.contents| == |l.contents| && r.value.contents[index] == v && r.value.keys == l.keys
    ensures r.Ok? ==> forall i :: 0 <= i < |l.contents| && i != index ==> r.value.contents[i] == l.contents[i]
    ensures r.Ok? ==> r.value.horizontal == l.horizontal && r.value.builtLength == l.builtLength
    ensures |l.contents| > 0 && !resize && -|l.contents| <= index < 0 ==> r == Err(KeyError)
    ensures |l.contents| > 0 && !resize && (index < -|l.contents| || index >= |l.contents|) ==> r == Err(IndexError)
  {
    if |l.contents| == 0 then Err(AssertionFailed)
    else if resize then Err(AssertionFailed)
    else match NormIndex(|l.contents|, index)
      case None => Err(IndexError)
      case Some(k) =>
        var rebuilt := NewList(l.contents[k := v], l.horizontal);
        match Get(rebuilt, Index(index))
        case Err(e) => Err(e)
        case Ok(_) => Ok(l.(contents := l.contents[k := v]))
  }

  /** Setting fails on an empty list or a resize, succeeds exactly for an
      index in range from the front, and then changes that one entry; a
      negative index Python would accept fails on the cell lookup. */
  lemma SetItemChangesOneEntry(l: ListObj, index: int, v: Value, resize: bool)
    ensures |l.contents| == 0 || resize ==> SetItem(l, index, v, resize) == Err(AssertionFailed)
    ensures SetItem(l, index, v, resize).Ok? <==> |l.contents| > 0 && !resize && 0 <= index < |l.contents|
    ensures SetItem(l, index, v, resize).Ok? ==>
              && |SetItem(l, index, v, resize).value.contents| == |l.contents|
              && SetItem(l, index, v, resize).value.contents[index] == v
              && (forall i :: 0 <= i < |l.contents| && i != index ==> SetItem(l, index, v, resize).value.contents[i] == l.contents[i])
              && SetItem(l, index, v, resize).value.keys == l.keys
              && SetItem(l, index, v, resize).value.horizontal == l.horizontal
              && SetItem(l, index, v, resize).value.builtLength == l.builtLength
    ensures |l.contents| > 0 && !resize && -|l.contents| <= index < 0 ==> SetItem(l, index, v, resize) == Err(KeyError)
    ensures |l.contents| > 0 && !resize && (index < -|l.contents| || index >= |l.contents|) ==> SetItem(l, index, v, resize) == Err(IndexError)
  {
  }

  // ---------------------------------------------------------------------
  // add_background_for_cell, as written and corrected

  /** `add_background_for_cell(index)`: looks up the dividers on both
      sides of the cell, through the aliases, and keeps a background under
      `back_{index}`. */
  function AddBackgroundForCell(l: ListObj, index: int): (r: Result<ListObj>)
    ensures r.Ok? <==> Get(l, DivBefore(index)).Ok? && Get(l, DivBefore(index + 1)).Ok?
    ensures r.Ok? ==> r.value == l.(keys := l.keys + {Back(index)})
  {
    if Get(l, DivBefore(index)).Err? then Err(KeyError)
    else if Get(l, DivBefore(index + 1)).Err? then Err(KeyError)
    else Ok(l.(keys := l.keys + {Back(index)}))
  }

  /** The aliases as evidently intended: the last one follows the current
      length. */
  function ResolveCurrent(l: ListObj, key: Part): Part {
    if key == DivBefore(0) then FirstLine(l)
    else if key == DivBefore(Cells(|l.contents|)) then LastLine(l)
    else key
  }

  function GetCurrent(l: ListObj, key: Part): (r: Result<Part>)
    ensures r.Ok? <==> ResolveCurrent(l, key) in l.keys
    ensures r.Ok? ==> r.value == ResolveCurrent(l, key)
  {
    var k := ResolveCurrent(l, key);
    if k in l.keys then Ok(k) else Err(KeyError)
  }

  /** `add_background_for_cell` over the corrected aliases. */
  function AddBackgroundForCellCurrent(l: ListObj, index: int): (r: Result<ListObj>)
    ensures r.Ok? <==> GetCurrent(l, DivBefore(index)).Ok? && GetCurrent(l, DivBefore(index + 1)).Ok?
    ensures r.Ok? ==> r.value == l.(keys := l.keys + {Back(index)})
  {
    if GetCurrent(l, DivBefore(index)).Err? then Err(KeyError)
    else if GetCurrent(l, DivBefore(index + 1)).Err? then Err(KeyError)
    else Ok(l.(keys := l.keys + {Back(index)}))
  }

  /** With the corrected aliases, on any shaped list, `div_-1_0` is the
      first line, the divider after the last cell is the last line, every
      divider in between is itself, and so every cell can be given a
      background. */
  lemma CorrectedAliasesResolve(l: ListObj, i: int)
    requires Shaped(l)
    ensures GetCurrent(l, DivBefore(0)) == Ok(FirstLine(l))
    ensures GetCurrent(l, DivBefore(Cells(|l.contents|))) == Ok(LastLine(l))
    ensures 1 <= i < |l.contents| ==> GetCurrent(l, DivBefore(i)) == Ok(DivBefore(i))
    ensures 0 <= i < Cells(|l.contents|) ==> AddBackgroundForCellCurrent(l, i).Ok?
  {
  }

  /** As written, `List([1])` followed by `animate_append(2)` has the
      divider `div_0_1` among its parts, yet looking it up gives the right
      outline line; and the second cell cannot get a background, because
      `div_1_2` is found neither as a part nor as an alias.  With the
      corrected aliases both work. */
  lemma StaleLastAlias()
    ensures var l := Append(NewList([VInt(1)], true), VInt(2));
            && DivBefore(1) in l.keys
            && KeyName(DivBefore(1)) == "div_0_1"
            && Get(l, DivBefore(1)) == Ok(RightLine)
            && AddBackgroundForCell(l, 1) == Err(KeyError)
            && GetCurrent(l, DivBefore(1)) == Ok(DivBefore(1))
            && AddBackgroundForCellCurrent(l, 1).Ok?
  {
    var l := Append(NewList([VInt(1)], true), VInt(2));
    assert IntToString(0) == "0" && IntToString(1) == "1";
    assert DivBefore(2) !in l.keys;
    CorrectedAliasesResolve(l, 1);
  }

  // ---------------------------------------------------------------------
  // Pointer

  /** An arrow between two points; the points are whatever the caller
      uses for positions. */
  datatype Pointer<P> = Pointer(start: P, end: P)

  /** `point_to(end)`. */
  function PointTo<P>(p: Pointer<P>, e: P): (q: Pointer<P>)
    ensures q.end == e && q.start == p.start
  {
    p.(end := e)
  }

  /** `point_from(start)`. */
  function PointFrom<P>(p: Pointer<P>, s: P): (q: Pointer<P>)
    ensures q.start == s && q.end == p.end
  {
    p.(start := s)
  }

  /** `relocate(start, end)`. */
  function Relocate<P>(p: Pointer<P>, s: P, e: P): (q: Pointer<P>)
    ensures q.start == s && q.end == e
  {
    Pointer(s, e)
  }

  /** Moving the two ends one at a time, in either order, is a relocation,
      and relocating makes the old ends irrelevant. */
  lemma OneEndThenTheOther<P>(p: Pointer<P>, s: P, e: P)
    ensures PointFrom(PointTo(p, e), s) == Relocate(p, s, e)
    ensures PointTo(PointFrom(p, s), e) == Relocate(p, s, e)
    ensures forall q: Pointer<P> :: Relocate(q, s, e) == Relocate(p, s, e)
  {
  }
}
