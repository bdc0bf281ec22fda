/** The variables panel of the visual debugger: variable boxes, the shelf
    of one scope with its slots, and the stack of scopes.

    Geometry is gone; what is left is which keys each container holds,
    which slot each variable occupies, the value each box shows, and the
    shelf height, in tenths of a scene unit.
 */
module Variables {

  import opened Wrappers
  import opened Text
  import opened Values

  // ---------------------------------------------------------------------
  // VariableBox

  /** A variable's box: its name and the value it currently shows. */
  datatype VarBox = VarBox(name: string, value: Value) {
    /** The text in the box's `contents` part. */
    function Contents(): string { Display(value) }
  }

  /** `update_contents(new_value, source)`: the box keeps its name and
      shows the new value. */
  function UpdateContents(box: VarBox, v: Value): (b: VarBox)
    ensures b.name == box.name && b.value == v
    ensures b.Contents() == Display(v)
  {
    box.(value := v)
  }

  /** Only the last update is visible. */
  lemma UpdateContentsOverwrites(box: VarBox, v1: Value, v2: Value)
    ensures UpdateContents(UpdateContents(box, v1), v2) == UpdateContents(box, v2)
  {
  }

  /** The letters that reach below the baseline. */
  const Dips: string := "gjpqy"

  predicate Dipping(s: string) {
    exists i :: 0 <= i < |Dips| && Dips[i] in s
  }

  /** `has_dipping_char(s)`: the loop over the five letters, returning at
      the first one found in `s`. */
  method HasDippingChar(s: string) returns (r: bool)
    ensures r <==> Dipping(s)
    ensures r <==> exists i :: 0 <= i < |s| && s[i] in Dips
  {
    var k := 0;
    while k < |Dips|
      invariant 0 <= k <= |Dips|
      invariant forall j :: 0 <= j < k ==> Dips[j] !in s
    {
      if Dips[k] in s {
        r := true;
        assert exists i :: 0 <= i < |s| && s[i] == Dips[k];
        return;
      }
      k := k + 1;
    }
    r := false;
    forall i | 0 <= i < |s| ensures s[i] !in Dips {
      forall j | 0 <= j < |Dips| ensures Dips[j] != s[i] {
        assert Dips[j] !in s;
      }
    }
  }

  /** How far the contents text is nudged up (positive) or down, in
      hundredths, so that it sits on the name's baseline: a small lift when
      both or neither dip, a larger one when only the name dips, and a drop
      when only the contents dip. */
  function ContentsNudge(box: VarBox): (n: int)
    ensures Dipping(box.name) == Dipping(box.Contents()) ==> n == 1
    ensures Dipping(box.name) && !Dipping(box.Contents()) ==> n == 5
    ensures !Dipping(box.name) && Dipping(box.Contents()) ==> n == -5
  {
    var dn, dc := Dipping(box.name), Dipping(box.Contents());
    if dn == dc then 1
    else if dn && !dc then 5
    else -5
  }

  // ---------------------------------------------------------------------
  // shelf_height

  /** `shelf_height(entries / perRow)`, in tenths: 0.5 for an empty shelf,
      otherwise 0.5 per row of boxes plus 0.1 between rows and 0.2 of
      padding. */
  function ShelfHeight(entries: nat, perRow: nat): (h: nat)
    requires perRow == 1 || perRow == 2
    ensures entries == 0 ==> h == 5
    ensures entries > 0 ==> h * perRow == 6 * entries + perRow
  {
    if entries == 0 then 5
    else if perRow == 1 then 6 * entries + 1
    else 3 * entries + 1
  }

  /** With one box per row, more rows make a strictly taller shelf. */
  lemma ShelfHeightIncreasing(m: nat, n: nat)
    requires m < n
    ensures ShelfHeight(m, 1) < ShelfHeight(n, 1)
  {
  }

  /** With two per row, `shelf_height(0.5)` is 0.4, lower than the empty
      shelf's 0.5: the shelf only grows because the height taken is the
      larger of the old one and this. */
  lemma HalfRowIsLowerThanEmpty()
    ensures ShelfHeight(1, 2) < ShelfHeight(0, 2)
  {
  }

  // ---------------------------------------------------------------------
  // VariableScope

  /** Where a box sits on the shelf: an index with one box per row, a
      (row, column) pair with two. */
  datatype Slot = Single(index: int) | Pair(row: int, col: int)

  /** What a scope's VDict holds under a key. */
  datatype Entry = Shelf | Box(box: VarBox) | Other(id: nat)

  /** A scope: its VDict entries, the slot of each variable box (by name),
      the boxes per row, and the shelf height in tenths. */
  datatype Scope = Scope(entries: map<string, Entry>, slots: map<Slot, string>, perRow: int, shelfHeight: nat)

  /** `VariableScope(height=..., vars_per_row=...)`: an empty shelf. */
  function NewScope(perRow: int, height: nat): (s: Scope)
    ensures s.entries.Keys == {"shelf"} && s.entries["shelf"] == Shelf && s.slots == map[]
    ensures s.perRow == perRow && s.shelfHeight == height
  {
    Scope(map["shelf" := Shelf], map[], perRow, height)
  }

  /** The slot `create_variable` uses when none is given. */
  function DefaultSlot(count: nat, perRow: int): Slot {
    if perRow == 1 then Single(count) else Pair(count / 2, count % 2)
  }

  /** The checks `create_variable` makes on the slot before placing the
      box: the kind of slot must suit `vars_per_row`, a later single slot
      needs the one before it, and a pair below the first row needs the
      slot above it. */
  function CheckSlot(s: Scope, w: Slot): (r: Result<Slot>)
    ensures r.Ok? ==> r.value == w
    ensures s.perRow != 1 && s.perRow != 2 ==> r == Err(AssertionFailed)
    ensures s.perRow == 1 ==> (r.Ok? <==> w.Single? && (|s.slots| == 0 || Single(w.index - 1) in s.slots))
    ensures s.perRow == 1 && !w.Single? ==> r == Err(AssertionFailed)
    ensures s.perRow == 1 && w.Single? && r.Err? ==> r.error == KeyError
    ensures s.perRow == 2 && !w.Pair? ==> r == Err(TypeError)
    ensures s.perRow == 2 && (w == Pair(0, 0) || w == Pair(0, 1)) ==> r.Ok?
    ensures s.perRow == 2 && w.Pair? && w != Pair(0, 0) && w != Pair(0, 1) ==>
              (r.Ok? <==> Pair(w.row - 1, w.col) in s.slots)
    ensures s.perRow == 2 && w.Pair? && r.Err? ==> r.error == AssertionFailed
  {
    if s.perRow == 1 then
      if !w.Single? then Err(AssertionFailed)
      else if |s.slots| == 0 then Ok(w)
      else if Single(w.index - 1) !in s.slots then Err(KeyError)
      else Ok(w)
    else if s.perRow == 2 then
      if !w.Pair? then Err(TypeError)
      else if w == Pair(0, 0) || w == Pair(0, 1) then Ok(w)
      else if Pair(w.row - 1, w.col) !in s.slots then Err(AssertionFailed)
      else Ok(w)
    else Err(AssertionFailed)
  }

  /** The result of a successful `create_variable`: the new scope, the new
      box, and how much taller the shelf became. */
  datatype Created = Created(scope: Scope, box: VarBox, heightDelta: nat)

  /** `VariableScope.create_variable(name, value, where)`. */
  function CreateVariable(s: Scope, name: string, value: Value, where: Option<Slot>): (r: Result<Created>)
    ensures var w := if where.Some? then where.value else DefaultSlot(|s.slots|, s.perRow);
            && (CheckSlot(s, w).Err? ==> r == Err(CheckSlot(s, w).error))
            && (CheckSlot(s, w).Ok? ==> (r.Ok? <==> w !in s.slots))
            && (CheckSlot(s, w).Ok? && w in s.slots ==> r == Err(AssertionFailed))
    ensures r.Ok? ==> r.value.box == VarBox(name, value) && name in r.value.scope.entries
  {
    var w := if where.Some? then where.value else DefaultSlot(|s.slots|, s.perRow);
    var checked := CheckSlot(s, w);
    if checked.Err? then Err(checked.error)
    else if w in s.slots then Err(AssertionFailed)
    else
      var slots := s.slots[w := name];
      var h := ShelfHeight(|slots|, s.perRow);
      var height := if h > s.shelfHeight then h else s.shelfHeight;
      Ok(Created(Scope(s.entries[name := Box(VarBox(name, value))], slots, s.perRow, height),
                 VarBox(name, value), height - s.shelfHeight))
  }

  /** A successful create adds exactly one slot, holding the new name, and
      the new box under that name; nothing else in the scope changes and
      the shelf does not shrink.  Creating into an occupied slot fails, on
      the slot checks or on the final assert. */
  lemma CreateVariableAddsOneSlot(s: Scope, name: string, value: Value, where: Option<Slot>)
    ensures var w := if where.Some? then where.value else DefaultSlot(|s.slots|, s.perRow);
            w in s.slots ==> CreateVariable(s, name, value, where).Err?
    ensures var r := CreateVariable(s, name, value, where);
            var w := if where.Some? then where.value else DefaultSlot(|s.slots|, s.perRow);
            r.Ok? ==>
              && w !in s.slots
              && r.value.scope.slots.Keys == s.slots.Keys + {w}
              && |r.value.scope.slots| == |s.slots| + 1
              && r.value.scope.slots[w] == name
              && (forall k :: k in s.slots ==> r.value.scope.slots[k] == s.slots[k])
              && r.value.scope.entries == s.entries[name := Box(VarBox(name, value))]
              && r.value.scope.perRow == s.perRow
              && r.value.scope.shelfHeight == s.shelfHeight + r.value.heightDelta
              && r.value.scope.shelfHeight >= ShelfHeight(|s.slots| + 1, s.perRow)
  {
  }

  /** With one box per row, slots filled in order hold exactly the indices
      0 .. n-1. */
  ghost predicate DenseSingles(s: Scope) {
    forall w :: w in s.slots <==> w.Single? && 0 <= w.index < |s.slots|
  }

  /** With two per row, slots filled in order hold exactly the pairs
      (i / 2, i % 2) for i < n. */
  ghost predicate DensePairs(s: Scope) {
    forall w :: w in s.slots <==> w.Pair? && 0 <= w.row && 0 <= w.col < 2 && 2 * w.row + w.col < |s.slots|
  }

  lemma DenseSinglesCount(s: Scope, n: nat)
    requires DenseSingles(s) && n == |s.slots|
    ensures s.slots.Keys == set i | 0 <= i < n :: Single(i)
  {
  }

  /** Creating with the default slot, one box per row, always succeeds on a
      densely filled shelf and keeps it dense. */
  lemma DefaultCreateKeepsSinglesDense(s: Scope, name: string, value: Value)
    requires s.perRow == 1 && DenseSingles(s)
    ensures CreateVariable(s, name, value, None).Ok?
    ensures DenseSingles(CreateVariable(s, name, value, None).value.scope)
  {
    var n := |s.slots|;
    assert Single(n) !in s.slots;
    if n > 0 {
      assert Single(n - 1) in s.slots;
    }
    var s' := CreateVariable(s, name, value, None).value.scope;
    assert |s'.slots| == n + 1;
  }

  /** The same with two boxes per row: the default slot's upper neighbour
      is always there. */
  lemma DefaultCreateKeepsPairsDense(s: Scope, name: string, value: Value)
    requires s.perRow == 2 && DensePairs(s)
    ensures CreateVariable(s, name, value, None).Ok?
    ensures DensePairs(CreateVariable(s, name, value, None).value.scope)
  {
    var n := |s.slots|;
    var w := Pair(n / 2, n % 2);
    assert w !in s.slots;
    if w != Pair(0, 0) && w != Pair(0, 1) {
      assert Pair(w.row - 1, w.col) in s.slots;
    }
    var s' := CreateVariable(s, name, value, None).value.scope;
    assert |s'.slots| == n + 1;
    forall v ensures v in s'.slots <==> v.Pair? && 0 <= v.row && 0 <= v.col < 2 && 2 * v.row + v.col < n + 1 {
      if v.Pair? && 0 <= v.row && 0 <= v.col < 2 && 2 * v.row + v.col == n {
        assert v == w;
      }
    }
  }

  /** `add_mobj(key, mobj)`: any other mobject kept with the scope. */
  function AddMobj(s: Scope, key: string, id: nat): (s': Scope)
    ensures s'.entries.Keys == s.entries.Keys + {key}
    ensures s'.slots == s.slots
  {
    s.(entries := s.entries[key := Other(id)])
  }

  // ---------------------------------------------------------------------
  // VariableArea

  /** The key of the i-th scope in the area's VDict. */
  function ScopeKey(i: int): string {
    "scope_" + IntToString(i)
  }

  /** The area: the stack of scopes, innermost last, and the keys of its
      VDict. */
  datatype Area = Area(stack: seq<Scope>, keys: set<string>)

  /** Every scope on the stack, and no other, is present under its key. */
  ghost predicate KeysMatchStack(a: Area) {
    forall i :: ScopeKey(i) in a.keys <==> 0 <= i < |a.stack|
  }

  /** `VariableArea(vars_per_row=...)`: one empty scope. */
  function NewArea(perRow: int): (a: Area)
    ensures |a.stack| == 1 && a.keys == {"scope_0", "variables_txt"}
    ensures a.stack[0].entries.Keys == {"shelf"} && a.stack[0].slots == map[]
    ensures a.stack[0].perRow == perRow && a.stack[0].shelfHeight == ShelfHeight(0, 1)
  {
    Area([NewScope(perRow, ShelfHeight(0, 1))], {"scope_0", "variables_txt"})
  }

  lemma NewAreaKeysMatchStack(perRow: int)
    ensures KeysMatchStack(NewArea(perRow))
  {
    var a := NewArea(perRow);
    assert ScopeKey(0) == "scope_0";
    forall i ensures ScopeKey(i) in a.keys <==> 0 <= i < |a.stack| {
      KeyInjective("scope_", i, 0);
      assert ScopeKey(i)[0] == 's';
    }
  }

  /** `top_scope()`: the innermost scope. */
  function TopScope(a: Area): (r: Result<Scope>)
    ensures r.Ok? <==> |a.stack| > 0
    ensures r.Ok? ==> r.value == a.stack[|a.stack| - 1]
  {
    if |a.stack| == 0 then Err(IndexError) else Ok(a.stack[|a.stack| - 1])
  }

  /** `push_variable_stack(initial_lines, vars_per_row)`: a new empty scope
      on top, at least as tall as the one below, under the next key. */
  function PushScope(a: Area, initialLines: nat, perRow: int): (r: Result<Area>)
    ensures r.Ok? <==> |a.stack| > 0
    ensures r.Ok? ==> |r.value.stack| == |a.stack| + 1 && r.value.stack[..|a.stack|] == a.stack
    ensures r.Ok? ==> r.value.keys == a.keys + {ScopeKey(|a.stack|)}
  {
    match TopScope(a)
    case Err(e) => Err(e)
    case Ok(prev) =>
      var h := ShelfHeight(initialLines, 1);
      var height := if h > prev.shelfHeight then h else prev.shelfHeight;
      Ok(Area(a.stack + [NewScope(perRow, height)], a.keys + {ScopeKey(|a.stack|)}))
  }

  /** `pop_variable_stack()`: drops the innermost scope and its key; the
      VDict refuses to remove a key it does not hold. */
  function PopScope(a: Area): (r: Result<Area>)
    ensures r.Ok? <==> |a.stack| > 0 && ScopeKey(|a.stack| - 1) in a.keys
    ensures r.Ok? ==> r.value.stack == a.stack[..|a.stack| - 1]
    ensures r.Ok? ==> r.value.keys == a.keys - {ScopeKey(|a.stack| - 1)}
  {
    if |a.stack| == 0 then Err(IndexError)
    else if ScopeKey(|a.stack| - 1) !in a.keys then Err(KeyError)
    else Ok(Area(a.stack[..|a.stack| - 1], a.keys - {ScopeKey(|a.stack| - 1)}))
  }

  /** The pushed scope is the new top, empty. */
  lemma PushedScopeIsTop(a: Area, initialLines: nat, perRow: int)
    requires |a.stack| > 0
    ensures var t := TopScope(PushScope(a, initialLines, perRow).value);
            t.Ok? && t.value.slots == map[] && t.value.entries.Keys == {"shelf"}
            && t.value.perRow == perRow && t.value.shelfHeight >= a.stack[|a.stack| - 1].shelfHeight
  {
  }

  /** Push and pop keep the keys in step with the stack. */
  lemma PushKeepsKeys(a: Area, initialLines: nat, perRow: int)
    requires KeysMatchStack(a) && |a.stack| > 0
    ensures KeysMatchStack(PushScope(a, initialLines, perRow).value)
  {
    var a' := PushScope(a, initialLines, perRow).value;
    forall i ensures ScopeKey(i) in a'.keys <==> 0 <= i < |a'.stack| {
      KeyInjective("scope_", i, |a.stack|);
    }
  }

  lemma PopKeepsKeys(a: Area)
    requires KeysMatchStack(a) && |a.stack| > 0
    ensures PopScope(a).Ok?
    ensures KeysMatchStack(PopScope(a).value)
  {
    var a' := PopScope(a).value;
    forall i ensures ScopeKey(i) in a'.keys <==> 0 <= i < |a'.stack| {
      KeyInjective("scope_", i, |a.stack| - 1);
    }
  }

  /** A push followed by a pop gives back the stack and the key set. */
  lemma PushThenPopRestores(a: Area, initialLines: nat, perRow: int)
    requires KeysMatchStack(a) && |a.stack| > 0
    ensures PushScope(a, initialLines, perRow).Ok?
    ensures PopScope(PushScope(a, initialLines, perRow).value) == Ok(a)
  {
    var a' := PushScope(a, initialLines, perRow).value;
    assert ScopeKey(|a.stack|) !in a.keys;
    assert a'.stack[..|a.stack|] == a.stack;
    assert a'.keys - {ScopeKey(|a.stack|)} == a.keys;
  }

  /** Popping the last scope is allowed and leaves no top scope. */
  lemma PopRootLeavesNoTop(perRow: int)
    ensures PopScope(NewArea(perRow)).Ok?
    ensures TopScope(PopScope(NewArea(perRow)).value) == Err(IndexError)
  {
    assert ScopeKey(0) == "scope_0";
  }
}
