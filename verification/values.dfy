/** The Python values the visual debugger puts in variable boxes and list
    cells, and the two things it does with them: show them as text, and
    read them as integers for a calculation.
 */
module Values {

  import opened Wrappers
  import opened Text

  /** A value held by a variable or a list cell.  A `List` mobject is known
      only by an identity chosen by the caller. */
  datatype Value =
    | VInt(i: int)
    | VStr(s: string)
    | VBool(b: bool)
    | VNone
    | VList(id: nat)

  /** `str(v)` for the values that are not strings or lists. */
  function PyStr(v: Value): (t: string)
    requires !v.VStr? && !v.VList?
  {
    match v
    case VInt(i) => IntToString(i)
    case VBool(b) => if b then "True" else "False"
    case VNone => "None"
  }

  /** The text a variable box or a list cell shows for a value: a string in
      double quotes, `<list>` for a list, and `str(v)` for anything else. */
  function Display(v: Value): (t: string)
    ensures |t| >= 1
  {
    match v
    case VStr(s) => "\"" + s + "\""
    case VList(_) => "<list>"
    case _ => PyStr(v)
  }

  /** Strings, and only strings, are shown in quotes; the quotes enclose
      exactly the string. */
  lemma DisplayQuotesStrings(v: Value)
    ensures v.VStr? <==> |Display(v)| >= 2 && Display(v)[0] == '"'
    ensures v.VStr? ==> Display(v)[1..|Display(v)| - 1] == v.s
  {
    if v.VInt? {
      assert Display(v)[0] == '-' || IsDigit(Display(v)[0]);
    }
  }

  /** An integer's text reads back as the integer, so two different
      integers are never shown alike. */
  lemma DisplayIntReadsBack(i: int)
    ensures ParseInt(Display(VInt(i))) == Some(i)
  {
    IntRoundTrip(i);
  }

  /** Python's truth value of a value; every `List` mobject counts as
      true. */
  predicate Truthy(v: Value) {
    match v
    case VInt(i) => i != 0
    case VStr(s) => |s| > 0
    case VBool(b) => b
    case VNone => false
    case VList(_) => true
  }

  /** `int(v)`: integers as they are, booleans as 0 or 1, strings of an
      optional minus sign and digits as their number; `int("x")` is a
      ValueError and `int(None)` a TypeError. */
  function ToInt(v: Value): (r: Result<int>)
    ensures v.VInt? ==> r == Ok(v.i)
    ensures v.VBool? ==> r == Ok(if v.b then 1 else 0)
    ensures v.VStr? ==> (r.Ok? <==> ParseInt(v.s).Some?)
    ensures v.VStr? && r.Ok? ==> r.value == ParseInt(v.s).value
    ensures v.VStr? && r.Err? ==> r.error == ValueError
    ensures v.VNone? || v.VList? ==> r == Err(TypeError)
  {
    match v
    case VInt(i) => Ok(i)
    case VBool(b) => Ok(if b then 1 else 0)
    case VStr(s) => (match ParseInt(s) case Some(n) => Ok(n) case None => Err(ValueError))
    case VNone => Err(TypeError)
    case VList(_) => Err(TypeError)
  }

  /** `int(str(n))` gives back n: a value shown by a box can be read back
      by a calculation. */
  lemma ToIntOfDisplayedInt(n: int)
    ensures ToInt(VStr(PyStr(VInt(n)))) == Ok(n)
  {
    IntRoundTrip(n);
  }
}
