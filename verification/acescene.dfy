/** The bookkeeping of `AnimatedCodeScene`: where the program counter
    points, the stack of saved program counters, the variables of the
    innermost scope, the integer calculations a scene shows, and the
    removal of a mobject from the scene's tree.  Mobjects are identified
    by numbers the caller supplies; nothing is drawn.
 */
module AceScene {

  import opened Wrappers
  import opened Values
  import opened Variables
  import Code

  // ---------------------------------------------------------------------
  // Program counter

  /** A program-counter location: line, first and last glyph. */
  datatype Loc = Loc(line: int, start: int, end: int)

  /** An entry of the program-counter stack: the counter and where it was. */
  datatype Saved = Saved(pc: Option<nat>, loc: Loc)

  /** The logical state of the scene: the current counter (a mobject, or
      none yet), its location, the saved counters, the code window and the
      variable area, each absent until the scene sets it. */
  datatype SceneState = SceneState(
    pc: Option<nat>,
    pcLoc: Loc,
    pcStack: seq<Saved>,
    code: Option<Code.CodeWindow>,
    variables: Option<Area>)

  /** The state after a step, with the exception it raised if any: the
      program-counter steps change the state before they can fail, and the
      change survives the exception. */
  datatype Step = Step(state: SceneState, error: Option<PyError>)

  /** `setup()`: no counter, location (-1, 0, 0), nothing saved. */
  function Setup(): (s: SceneState)
    ensures s.pc == None && s.pcLoc == Loc(-1, 0, 0) && s.pcStack == []
    ensures s.code == None && s.variables == None
  {
    SceneState(None, Loc(-1, 0, 0), [], None, None)
  }

  /** `set_code(cw)` and `set_variables(va)`. */
  function SetCode(s: SceneState, w: Code.CodeWindow): (s': SceneState)
    ensures s'.code == Some(w) && s' == s.(code := s'.code)
  {
    s.(code := Some(w))
  }

  function SetVariables(s: SceneState, a: Area): (s': SceneState)
    ensures s'.variables == Some(a) && s' == s.(variables := s'.variables)
  {
    s.(variables := Some(a))
  }

  /** `move_pc(line, start, end)`: the location is set first; then the
      line is looked up in the code window (a missing window cannot be
      indexed, a missing line is a KeyError); a scene without a counter
      gets the new one, `newPc`, and an existing counter is kept and
      reshaped. */
  function MovePc(s: SceneState, line: int, start: int, end: int, newPc: nat): (r: Step)
    ensures r.state.pcLoc == Loc(line, start, end)
    ensures r.state.pcStack == s.pcStack && r.state.code == s.code && r.state.variables == s.variables
    ensures r.error.None? <==> s.code.Some? && line in s.code.value.lines
    ensures r.error.Some? ==> r.state.pc == s.pc
    ensures r.error.None? ==> r.state.pc == (if s.pc.None? then Some(newPc) else s.pc)
  {
    var s1 := s.(pcLoc := Loc(line, start, end));
    if s.code.None? then Step(s1, Some(TypeError))
    else if line !in s.code.value.lines then Step(s1, Some(KeyError))
    else if s.pc.None? then Step(s1.(pc := Some(newPc)), None)
    else Step(s1, None)
  }

  /** Where the end-of-scope marker is aligned. */
  datatype Align = Up | Down

  /** `pc_end_scope(line, scope_type)`: only `if` (down) and `for` or
      `while` (up) are known; the marker then needs the counter and the
      line's label.  The logical state does not change. */
  function PcEndScope(s: SceneState, line: int, kind: string): (r: Result<Align>)
    ensures kind !in {"if", "for", "while"} ==> r == Err(AssertionFailed)
    ensures r.Ok? <==> kind in {"if", "for", "while"} && s.pc.Some? && s.code.Some? && line in s.code.value.labels
    ensures r.Ok? ==> (r.value == Down <==> kind == "if")
  {
    var align :=
      if kind == "if" then Ok(Down)
      else if kind == "for" || kind == "while" then Ok(Up)
      else Err(AssertionFailed);
    if align.Err? then align
    else if s.pc.None? then Err(AttributeError)
    else if s.code.None? then Err(TypeError)
    else if line !in s.code.value.labels then Err(KeyError)
    else align
  }

  /** `push_pc(line, start, end, init_pc)`: the counter and its location
      are saved, `init_pc` becomes the counter, and it moves to the new
      location.  Putting a missing counter on the bottom layer fails, after
      it has been saved. */
  function PushPc(s: SceneState, line: int, start: int, end: int, initPc: nat): (r: Step)
    ensures r.state.pcStack == s.pcStack + [Saved(s.pc, s.pcLoc)]
    ensures s.pc.None? ==> r == Step(s.(pcStack := r.state.pcStack), Some(TypeError))
    ensures s.pc.Some? ==> r.state.pc == Some(initPc) && r.state.pcLoc == Loc(line, start, end)
    ensures s.pc.Some? ==> (r.error.None? <==> s.code.Some? && line in s.code.value.lines)
  {
    var s1 := s.(pcStack := s.pcStack + [Saved(s.pc, s.pcLoc)]);
    if s.pc.None? then Step(s1, Some(TypeError))
    else MovePc(s1.(pc := Some(initPc)), line, start, end, initPc)
  }

  /** `pop_pc()`: the counter must be on the top layer, which it is once
      it exists; then the saved counter and location come back.  An empty
      stack is an IndexError; restoring a missing counter fails when it is
      put back on the top layer, after the restore. */
  function PopPc(s: SceneState): (r: Step)
    ensures s.pc.None? ==> r == Step(s, Some(AssertionFailed))
    ensures s.pc.Some? && s.pcStack == [] ==> r == Step(s, Some(IndexError))
    ensures s.pc.Some? && s.pcStack != [] ==>
              var top := s.pcStack[|s.pcStack| - 1];
              && r.state == s.(pc := top.pc, pcLoc := top.loc, pcStack := s.pcStack[..|s.pcStack| - 1])
              && (r.error.None? <==> top.pc.Some?)
  {
    if s.pc.None? then Step(s, Some(AssertionFailed))
    else if |s.pcStack| == 0 then Step(s, Some(IndexError))
    else
      var top := s.pcStack[|s.pcStack| - 1];
      var s1 := s.(pc := top.pc, pcLoc := top.loc, pcStack := s.pcStack[..|s.pcStack| - 1]);
      if top.pc.None? then Step(s1, Some(TypeError)) else Step(s1, None)
  }

  /** A push that succeeds followed by a pop gives back the counter, its
      location and the stack exactly. */
  lemma PushThenPopRestores(s: SceneState, line: int, start: int, end: int, initPc: nat)
    requires s.pc.Some?
    requires s.code.Some? && line in s.code.value.lines
    ensures PushPc(s, line, start, end, initPc).error == None
    ensures PopPc(PushPc(s, line, start, end, initPc).state) == Step(s, None)
  {
    var s' := PushPc(s, line, start, end, initPc).state;
    assert s'.pcStack[..|s'.pcStack| - 1] == s.pcStack;
  }

  /** Pushes before the first move fail: the scene has no counter to save
      on the bottom layer, and a pop then trips the layer check. */
  lemma PushBeforeMoveFails(line: int, start: int, end: int, initPc: nat, w: Code.CodeWindow)
    ensures var r := PushPc(SetCode(Setup(), w), line, start, end, initPc);
            && r.error == Some(TypeError)
            && r.state.pcStack == [Saved(None, Loc(-1, 0, 0))]
            && PopPc(r.state).error == Some(AssertionFailed)
  {
  }

  /** A call traced through the counter stack: after moving to a line,
      entering a call and returning, the counter is back where it was,
      with nothing left saved. */
  lemma CallAndReturn(w: Code.CodeWindow, l1: int, l2: int, pc1: nat, pc2: nat)
    requires l1 in w.lines && l2 in w.lines
    ensures var moved := MovePc(SetCode(Setup(), w), l1, 0, 3, pc1);
            var pushed := PushPc(moved.state, l2, 4, 8, pc2);
            var popped := PopPc(pushed.state);
            && moved.error == None && pushed.error == None && popped.error == None
            && popped.state.pc == Some(pc1) && popped.state.pcLoc == Loc(l1, 0, 3)
            && popped.state.pcStack == []
  {
    var moved := MovePc(SetCode(Setup(), w), l1, 0, 3, pc1);
    PushThenPopRestores(moved.state, l2, 4, 8, pc2);
  }

  /** `highlight_scope(scope_type, lines, loc=...)`: at the counter's
      location unless one is given, with the body starting on the next
      line. */
  function HighlightScope(s: SceneState, kind: string, lines: int, loc: Option<Loc>): (r: Result<SceneState>)
    ensures s.code.None? ==> r == Err(AttributeError)
    ensures var l := if loc.Some? then loc.value else s.pcLoc;
            s.code.Some? ==>
              && (r.Ok? <==> Code.HighlightScope(s.code.value, kind, lines, l.line, l.start, l.end, 1).Ok?)
              && (r.Ok? ==> r.value == s.(code := Some(Code.HighlightScope(s.code.value, kind, lines, l.line, l.start, l.end, 1).value)))
  {
    var l := if loc.Some? then loc.value else s.pcLoc;
    if s.code.None? then Err(AttributeError)
    else match Code.HighlightScope(s.code.value, kind, lines, l.line, l.start, l.end, 1)
      case Err(e) => Err(e)
      case Ok(w) => Ok(s.(code := Some(w)))
  }

  /** Highlighting without a location marks the scope of the line the
      counter is on. */
  lemma HighlightAtCounter(s: SceneState, kind: string, lines: int)
    requires HighlightScope(s, kind, lines, None).Ok?
    ensures var w := HighlightScope(s, kind, lines, None).value.code;
            w.Some? && s.pcLoc.line in w.value.scopes
            && w.value.scopes[s.pcLoc.line].keywordStart == s.pcLoc.start
            && w.value.scopes[s.pcLoc.line].keywordEnd == s.pcLoc.end
  {
  }

  // ---------------------------------------------------------------------
  // Variables of the innermost scope

  /** The innermost scope, through the area the scene holds. */
  function SceneTop(s: SceneState): (r: Result<Scope>)
    ensures s.variables.None? ==> r == Err(AttributeError)
    ensures r.Ok? <==> s.variables.Some? && |s.variables.value.stack| > 0
    ensures r.Ok? ==> r.value == s.variables.value.stack[|s.variables.value.stack| - 1]
    ensures s.variables.Some? && |s.variables.value.stack| == 0 ==> r == Err(IndexError)
  {
    if s.variables.None? then Err(AttributeError) else TopScope(s.variables.value)
  }

  /** `get_variable(name)`: whatever the innermost scope holds under the
      name. */
  function GetVariable(s: SceneState, name: string): (r: Result<Entry>)
    ensures r.Ok? <==> SceneTop(s).Ok? && name in SceneTop(s).value.entries
    ensures r.Ok? ==> r.value == SceneTop(s).value.entries[name]
    ensures SceneTop(s).Ok? && name !in SceneTop(s).value.entries ==> r == Err(KeyError)
  {
    match SceneTop(s)
    case Err(e) => Err(e)
    case Ok(top) => if name in top.entries then Ok(top.entries[name]) else Err(KeyError)
  }

  /** Lookups see only the innermost scope: a name bound in an outer
      scope and not in the innermost one is not found. */
  lemma GetVariableSeesOnlyTop(s: SceneState, name: string, i: nat)
    requires s.variables.Some? && i + 1 < |s.variables.value.stack|
    requires name in s.variables.value.stack[i].entries
    requires name !in s.variables.value.stack[|s.variables.value.stack| - 1].entries
    ensures GetVariable(s, name) == Err(KeyError)
  {
  }

  /** Replaces the innermost scope. */
  function WithTop(a: Area, top: Scope): (a': Area)
    requires |a.stack| > 0
    ensures |a'.stack| == |a.stack| && a'.stack[|a.stack| - 1] == top
    ensures a'.stack[..|a.stack| - 1] == a.stack[..|a.stack| - 1] && a'.keys == a.keys
  {
    a.(stack := a.stack[..|a.stack| - 1] + [top])
  }

  /** `create_variable(name, value, where=...)`: the name must be new in
      the innermost scope (whose own `shelf` counts as taken); then the
      scope places the box. */
  function CreateVariable(s: SceneState, name: string, value: Value, where: Option<Slot>): (r: Result<(SceneState, VarBox)>)
    ensures SceneTop(s).Ok? && name in SceneTop(s).value.entries ==> r == Err(AssertionFailed)
    ensures SceneTop(s).Err? ==> r == Err(SceneTop(s).error)
    ensures SceneTop(s).Ok? && name !in SceneTop(s).value.entries ==>
              && (r.Ok? <==> Variables.CreateVariable(SceneTop(s).value, name, value, where).Ok?)
              && (r.Err? ==> r.error == Variables.CreateVariable(SceneTop(s).value, name, value, where).error)
    ensures r.Ok? ==> && s.variables.Some? && SceneTop(s).Ok?
                      && Variables.CreateVariable(SceneTop(s).value, name, value, where).Ok?
                      && r.value.0.variables == Some(WithTop(s.variables.value, Variables.CreateVariable(SceneTop(s).value, name, value, where).value.scope))
                      && r.value.1 == VarBox(name, value)
                      && r.value.0 == s.(variables := r.value.0.variables)
  {
    match SceneTop(s)
    case Err(e) => Err(e)
    case Ok(top) =>
      if name in top.entries then Err(AssertionFailed)
      else match Variables.CreateVariable(top, name, value, where)
        case Err(e) => Err(e)
        case Ok(c) => Ok((s.(variables := Some(WithTop(s.variables.value, c.scope))), c.box))
  }

  /** A created variable is found by `get_variable` with its value, the
      outer scopes are untouched, and a second create of the same name
      fails. */
  lemma CreateThenGet(s: SceneState, name: string, value: Value, where: Option<Slot>, value2: Value, where2: Option<Slot>)
    requires CreateVariable(s, name, value, where).Ok?
    ensures var s' := CreateVariable(s, name, value, where).value.0;
            && GetVariable(s', name) == Ok(Box(VarBox(name, value)))
            && s'.variables.value.stack[..|s.variables.value.stack| - 1] == s.variables.value.stack[..|s.variables.value.stack| - 1]
            && CreateVariable(s', name, value2, where2) == Err(AssertionFailed)
  {
  }

  /** `update_variable(name, new_content)`: the innermost scope's entry
      under the name must be a variable box, which then shows the new
      value. */
  function UpdateVariable(s: SceneState, name: string, v: Value): (r: Result<SceneState>)
    ensures r.Ok? <==> GetVariable(s, name).Ok? && GetVariable(s, name).value.Box?
    ensures GetVariable(s, name).Ok? && !GetVariable(s, name).value.Box? ==> r == Err(AttributeError)
    ensures r.Ok? ==> var top := SceneTop(s).value;
              r.value == s.(variables := Some(WithTop(s.variables.value, top.(entries := top.entries[name := Box(UpdateContents(top.entries[name].box, v))]))))
  {
    match GetVariable(s, name)
    case Err(e) => Err(e)
    case Ok(entry) =>
      if !entry.Box? then Err(AttributeError)
      else
        var top := SceneTop(s).value;
        Ok(s.(variables := Some(WithTop(s.variables.value, top.(entries := top.entries[name := Box(UpdateContents(entry.box, v))])))))
  }

  /** After an update the variable keeps its name and shows the new value;
      every other name reads as before. */
  lemma UpdateThenGet(s: SceneState, name: string, v: Value, other: string)
    requires UpdateVariable(s, name, v).Ok?
    requires other != name
    ensures var e := GetVariable(UpdateVariable(s, name, v).value, name);
            e.Ok? && e.value.Box? && e.value.box.value == v && e.value.box.name == GetVariable(s, name).value.box.name
    ensures GetVariable(UpdateVariable(s, name, v).value, other) == GetVariable(s, name := other)
  {
  }

  // ---------------------------------------------------------------------
  // Calculations

  /** An operand: a variable's name, or a value already on screen. */
  datatype Operand = Named(name: string) | Literal(value: Value)

  /** The value an operand stands for: a named variable's box value, or
      the literal, which must be truthy. */
  function OperandValue(s: SceneState, o: Operand): (r: Result<Value>)
    ensures o.Literal? ==> (r.Ok? <==> Truthy(o.value)) && (r.Ok? ==> r.value == o.value)
    ensures o.Named? ==> (r.Ok? <==> GetVariable(s, o.name).Ok? && GetVariable(s, o.name).value.Box?)
    ensures o.Named? && r.Ok? ==> r.value == GetVariable(s, o.name).value.box.value
  {
    match o
    case Literal(v) => if Truthy(v) then Ok(v) else Err(AssertionFailed)
    case Named(n) =>
      match GetVariable(s, n)
      case Err(e) => Err(e)
      case Ok(entry) => if entry.Box? then Ok(entry.box.value) else Err(AttributeError)
  }

  /** `numeric_calculation(first, second, operation)` with integers: both
      operands are resolved, the result is placed below the variable area,
      and only `*` and `+` are known; the operands are then converted with
      `int`, the first before the second. */
  function NumericCalculation(s: SceneState, first: Operand, second: Operand, op: string): (r: Result<int>)
    ensures r.Ok? <==> && OperandValue(s, first).Ok? && OperandValue(s, second).Ok?
                       && s.variables.Some? && (op == "*" || op == "+")
                       && ToInt(OperandValue(s, first).value).Ok? && ToInt(OperandValue(s, second).value).Ok?
    ensures OperandValue(s, first).Err? ==> r == Err(OperandValue(s, first).error)
    ensures OperandValue(s, first).Ok? && OperandValue(s, second).Err? ==> r == Err(OperandValue(s, second).error)
    ensures OperandValue(s, first).Ok? && OperandValue(s, second).Ok? && s.variables.None? ==> r == Err(TypeError)
    ensures r.Ok? ==> var a := ToInt(OperandValue(s, first).value).value;
                      var b := ToInt(OperandValue(s, second).value).value;
                      r.value == (if op == "*" then a * b else a + b)
    ensures OperandValue(s, first).Ok? && OperandValue(s, second).Ok? && s.variables.Some? && op != "*" && op != "+" ==>
              r == Err(AssertionFailed)
  {
    match OperandValue(s, first)
    case Err(e) => Err(e)
    case Ok(x) =>
      match OperandValue(s, second)
      case Err(e) => Err(e)
      case Ok(y) =>
        if s.variables.None? then Err(TypeError)
        else if op != "*" && op != "+" then Err(AssertionFailed)
        else match ToInt(x)
          case Err(e) => Err(e)
          case Ok(a) =>
            match ToInt(y)
            case Err(e) => Err(e)
            case Ok(b) => Ok(if op == "*" then a * b else a + b)
  }

  /** Two integer variables multiply and add as integers; a literal shown
      as the text of a number counts as that number. */
  lemma CalculationOnBoxes(s: SceneState, x: string, y: string, a: int, b: int, n: int)
    requires GetVariable(s, x) == Ok(Box(VarBox(x, VInt(a))))
    requires GetVariable(s, y) == Ok(Box(VarBox(y, VInt(b))))
    ensures NumericCalculation(s, Named(x), Named(y), "*") == Ok(a * b)
    ensures NumericCalculation(s, Named(x), Named(y), "+") == Ok(a + b)
    ensures NumericCalculation(s, Named(x), Literal(VStr(PyStr(VInt(n)))), "+") == Ok(a + n)
    ensures NumericCalculation(s, Named(x), Named(y), "-") == Err(AssertionFailed)
  {
    ToIntOfDisplayedInt(n);
    assert Truthy(VStr(PyStr(VInt(n)))) by {
      Text.IntRoundTrip(n);
    }
  }

  // ---------------------------------------------------------------------
  // Removing a mobject without breaking up its groups

  /** A mobject and its sub-mobjects; equality of mobjects is identity,
      so the tree is searched by identifier. */
  datatype Mob = Mob(id: nat, children: seq<Mob>)

  /** The index of the first mobject with identifier t on this level. */
  function FirstAt(ms: seq<Mob>, t: nat): (r: Option<nat>)
    ensures r.Some? ==> r.value < |ms| && ms[r.value].id == t
    ensures r.Some? ==> forall j :: 0 <= j < r.value ==> ms[j].id != t
    ensures r.None? <==> forall j :: 0 <= j < |ms| ==> ms[j].id != t
  {
    if |ms| == 0 then None
    else if ms[0].id == t then Some(0)
    else match FirstAt(ms[1..], t)
      case None => None
      case Some(k) => Some(k + 1)
  }

  /** How often identifier t occurs anywhere in the forest. */
  function Count(ms: seq<Mob>, t: nat): nat
    decreases ms
  {
    if |ms| == 0 then 0
    else (if ms[0].id == t then 1 else 0) + Count(ms[0].children, t) + Count(ms[1..], t)
  }

  lemma {:induction false} CountConcat(a: seq<Mob>, b: seq<Mob>, t: nat)
    ensures Count(a + b, t) == Count(a, t) + Count(b, t)
    decreases a
  {
    if |a| == 0 {
      assert a + b == b;
    } else {
      assert (a + b)[0] == a[0];
      assert (a + b)[1..] == a[1..] + b;
      CountConcat(a[1..], b, t);
    }
  }

  /** `remove_without_degrouping(mobjects, target)`: on this level the
      first occurrence is taken out; otherwise each mobject's sub-mobjects
      are searched in turn, and the search stops at the first removal. */
  function RemoveFrom(ms: seq<Mob>, t: nat): (r: (bool, seq<Mob>))
    ensures r.0 <==> Count(ms, t) > 0
    ensures !r.0 ==> r.1 == ms
    ensures FirstAt(ms, t).Some? ==> r.1 == ms[..FirstAt(ms, t).value] + ms[FirstAt(ms, t).value + 1..]
    decreases ms, 1
  {
    match FirstAt(ms, t)
    case Some(k) =>
      CountSplit(ms, k, t);
      (true, ms[..k] + ms[k + 1..])
    case None => RemoveInChildren(ms, t)
  }

  /** The search through the sub-mobjects, in order. */
  function RemoveInChildren(ms: seq<Mob>, t: nat): (r: (bool, seq<Mob>))
    requires FirstAt(ms, t).None?
    ensures r.0 <==> Count(ms, t) > 0
    ensures !r.0 ==> r.1 == ms
    ensures |r.1| == |ms| && forall j :: 0 <= j < |ms| ==> r.1[j].id == ms[j].id
    ensures |ms| > 0 && Count(ms[0].children, t) > 0 ==> r.1[1..] == ms[1..]
    decreases ms, 0
  {
    if |ms| == 0 then (false, ms)
    else
      var first := RemoveFrom(ms[0].children, t);
      if first.0 then (true, [ms[0].(children := first.1)] + ms[1..])
      else
        var rest := RemoveInChildren(ms[1..], t);
        assert ms == [ms[0]] + ms[1..];
        (rest.0, [ms[0]] + rest.1)
  }

  lemma {:induction false} CountSplit(ms: seq<Mob>, k: nat, t: nat)
    requires k < |ms|
    ensures Count(ms, t) == Count(ms[..k], t) + (if ms[k].id == t then 1 else 0) + Count(ms[k].children, t) + Count(ms[k + 1..], t)
  {
    assert ms == ms[..k] + ms[k..];
    CountConcat(ms[..k], ms[k..], t);
    assert ms[k..][1..] == ms[k + 1..];
  }

  /** No occurrence of t lies inside another occurrence of t. */
  predicate NotNested(ms: seq<Mob>, t: nat)
    decreases ms
  {
    forall j :: 0 <= j < |ms| ==> (ms[j].id == t ==> Count(ms[j].children, t) == 0) && NotNested(ms[j].children, t)
  }

  /** When occurrences are not nested, a removal takes out exactly one of
      them. */
  lemma {:induction false} RemoveTakesOne(ms: seq<Mob>, t: nat)
    requires NotNested(ms, t) && Count(ms, t) > 0
    ensures Count(RemoveFrom(ms, t).1, t) == Count(ms, t) - 1
    decreases ms, 1
  {
    match FirstAt(ms, t)
    case Some(k) =>
      CountSplit(ms, k, t);
      CountConcat(ms[..k], ms[k + 1..], t);
    case None =>
      RemoveInChildrenTakesOne(ms, t);
  }

  lemma {:induction false} RemoveInChildrenTakesOne(ms: seq<Mob>, t: nat)
    requires FirstAt(ms, t).None? && NotNested(ms, t) && Count(ms, t) > 0
    ensures Count(RemoveInChildren(ms, t).1, t) == Count(ms, t) - 1
    decreases ms, 0
  {
    assert ms[0].id != t;
    var first := RemoveFrom(ms[0].children, t);
    if first.0 {
      RemoveTakesOne(ms[0].children, t);
      var m := ms[0].(children := first.1);
      assert ([m] + ms[1..])[1..] == ms[1..];
    } else {
      assert FirstAt(ms[1..], t).None? by {
        assert forall j :: 0 <= j < |ms[1..]| ==> ms[1..][j] == ms[j + 1];
      }
      assert NotNested(ms[1..], t) by {
        assert forall j :: 0 <= j < |ms[1..]| ==> ms[1..][j] == ms[j + 1];
      }
      RemoveInChildrenTakesOne(ms[1..], t);
      var rest := RemoveInChildren(ms[1..], t);
      assert ([ms[0]] + rest.1)[1..] == rest.1;
    }
  }
}
