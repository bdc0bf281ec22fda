/** The code window: rendered source lines keyed by line number, the
    labels beside them, the scope rectangles, and the palette of the
    syntax highlighting.  What the renderer draws for each line is an input:
    a sequence of glyphs, some of them the invisible dots it puts for
    leading indentation.
 */
module Code {

  import opened Wrappers

  // ---------------------------------------------------------------------
  // CodeWithPalette

  /** The one colour the palette replaces, and its replacement. */
  const TooLightPurple: string := "#A90D91"
  const DarkerPurple: string := "#900A7F"

  /** `palette_swap.get(colour, colour)`. */
  function SwapColor(c: string): (d: string)
    ensures c == TooLightPurple ==> d == DarkerPurple
    ensures c != TooLightPurple ==> d == c
  {
    if c == TooLightPurple then DarkerPurple else c
  }

  /** One entry of the highlighter's output: a text and its colour. */
  datatype Entry = Entry(text: string, color: string)

  /** The swap applied to every entry of every line. */
  function ApplyPalette(json: seq<seq<Entry>>): (r: seq<seq<Entry>>)
    ensures |r| == |json|
    ensures forall i :: 0 <= i < |json| ==> |r[i]| == |json[i]|
    ensures forall i, j :: 0 <= i < |json| && 0 <= j < |json[i]| ==>
              r[i][j] == Entry(json[i][j].text, SwapColor(json[i][j].color))
  {
    seq(|json|, i requires 0 <= i < |json| =>
      seq(|json[i]|, j requires 0 <= j < |json[i]| => json[i][j].(color := SwapColor(json[i][j].color))))
  }

  /** After the swap the light purple is gone, the texts are as they were,
      and swapping again changes nothing. */
  lemma PaletteIdempotent(json: seq<seq<Entry>>)
    ensures ApplyPalette(ApplyPalette(json)) == ApplyPalette(json)
    ensures forall i, j :: 0 <= i < |json| && 0 <= j < |json[i]| ==>
              ApplyPalette(json)[i][j].color != TooLightPurple && ApplyPalette(json)[i][j].text == json[i][j].text
  {
    var once := ApplyPalette(json);
    assert DarkerPurple != TooLightPurple;
    forall i | 0 <= i < |json| ensures ApplyPalette(once)[i] == once[i] {
      assert forall j :: 0 <= j < |json[i]| ==> ApplyPalette(once)[i][j] == once[i][j];
    }
  }

  // ---------------------------------------------------------------------
  // Leading dots

  /** A rendered glyph: one of the invisible dots standing for leading
      indentation, or anything else. */
  datatype Glyph = Dot | Char(c: char)

  /** The number of dots the removal loop collects: it stops at the first
      glyph that is not a dot. */
  method CountLeadingDots(g: seq<Glyph>) returns (k: nat)
    ensures k <= |g|
    ensures forall j :: 0 <= j < k ==> g[j] == Dot
    ensures k < |g| ==> g[k] != Dot
  {
    k := 0;
    while k < |g|
      invariant k <= |g|
      invariant forall j :: 0 <= j < k ==> g[j] == Dot
    {
      if g[k] != Dot {
        return;
      }
      k := k + 1;
    }
  }

  /** The same count as a definition. */
  function LeadingDots(g: seq<Glyph>): (k: nat)
    ensures k <= |g|
  {
    if |g| == 0 || g[0] != Dot then 0 else 1 + LeadingDots(g[1..])
  }

  lemma {:induction false} LeadingDotsIsMaximal(g: seq<Glyph>)
    ensures forall j :: 0 <= j < LeadingDots(g) ==> g[j] == Dot
    ensures LeadingDots(g) < |g| ==> g[LeadingDots(g)] != Dot
  {
    if |g| > 0 && g[0] == Dot {
      LeadingDotsIsMaximal(g[1..]);
    }
  }

  /** A line with its leading dots removed. */
  function StripDots(g: seq<Glyph>): (s: seq<Glyph>)
    ensures |s| <= |g|
  {
    g[LeadingDots(g)..]
  }

  /** Only the maximal run of leading dots goes: what is left is a suffix
      that does not start with a dot, the part removed is all dots, and a
      second strip changes nothing. */
  lemma StripDotsSpec(g: seq<Glyph>)
    ensures |StripDots(g)| > 0 ==> StripDots(g)[0] != Dot
    ensures g == g[..LeadingDots(g)] + StripDots(g)
    ensures forall j :: 0 <= j < |g| - |StripDots(g)| ==> g[j] == Dot
    ensures StripDots(StripDots(g)) == StripDots(g)
  {
    LeadingDotsIsMaximal(g);
  }

  /** The loop and the definition agree. */
  method StripLine(g: seq<Glyph>) returns (s: seq<Glyph>)
    ensures s == StripDots(g)
  {
    var k := CountLeadingDots(g);
    LeadingDotsIsMaximal(g);
    LeadingDotsUnique(g, k);
    s := g[k..];
  }

  lemma {:induction false} LeadingDotsUnique(g: seq<Glyph>, k: nat)
    requires k <= |g|
    requires forall j :: 0 <= j < k ==> g[j] == Dot
    requires k < |g| ==> g[k] != Dot
    ensures LeadingDots(g) == k
  {
    if k > 0 {
      LeadingDotsUnique(g[1..], k - 1);
    }
  }

  // ---------------------------------------------------------------------
  // CodeWindow

  /** The colour a scope is drawn in. */
  datatype ScopeColor = ForScope | NestedScope | IfScope | ElseScope | ElifScope | UserFunction

  /** A highlighted scope: its colour, the body's line numbers and the
      keyword's glyph range on the scope's first line. */
  datatype ScopeRect = ScopeRect(color: ScopeColor, body: seq<int>, keywordStart: int, keywordEnd: int)

  /** A code window: `line_offset`, `total_lines`, the stripped line under
      each `line_{k}` key, the labels under `label_{k}`, which labels are
      nudged left, and the scopes under `scope_{k}`. */
  datatype CodeWindow = CodeWindow(
    lineOffset: int,
    totalLines: nat,
    lines: map<int, seq<Glyph>>,
    labels: set<int>,
    shifted: set<int>,
    scopes: map<int, ScopeRect>)

  /** Labels whose number ends in 1 get the extra nudge.  Python's `%` by
      10 is never negative, as Dafny's. */
  predicate ShiftsLabel(n: int) { n % 10 == 1 }

  /** `CodeWindow(source, start_at_line=...)`, given the renderer's lines. */
  function NewCodeWindow(rendered: seq<seq<Glyph>>, startAt: int): (w: CodeWindow)
    ensures w.lineOffset == startAt - 1 && w.totalLines == |rendered|
    ensures forall k :: k in w.lines <==> startAt <= k < startAt + |rendered|
    ensures forall k :: k in w.labels <==> startAt <= k < startAt + |rendered|
    ensures forall k :: k in w.lines ==> w.lines[k] == StripDots(rendered[k - startAt])
    ensures forall k :: k in w.shifted <==> k in w.labels && ShiftsLabel(k)
    ensures w.scopes == map[]
  {
    var numbers := Span(startAt, startAt + |rendered| - 1);
    SpanMembers(startAt, startAt + |rendered| - 1);
    CodeWindow(
      startAt - 1,
      |rendered|,
      map k | k in numbers :: StripDots(rendered[k - startAt]),
      set k | k in numbers,
      set k | k in numbers && ShiftsLabel(k),
      map[])
  }

  /** Line numbers start..end, inclusive. */
  function Span(start: int, end: int): (s: seq<int>)
    ensures |s| == if end >= start then end - start + 1 else 0
    ensures forall j :: 0 <= j < |s| ==> s[j] == start + j
    decreases end - start
  {
    if end < start then [] else [start] + Span(start + 1, end)
  }

  lemma SpanMembers(start: int, end: int)
    ensures forall k :: k in Span(start, end) <==> start <= k <= end
  {
    forall k | start <= k <= end ensures k in Span(start, end) {
      assert Span(start, end)[k - start] == k;
    }
  }

  /** `lines(start, end)`: lines start..end inclusive, each looked up by
      key; a missing end means `total_lines - 1 + line_offset`. */
  function Lines(w: CodeWindow, start: int, end: Option<int>): (r: Result<seq<int>>)
    ensures var e := if end.Some? then end.value else w.totalLines - 1 + w.lineOffset;
            && (r.Ok? <==> forall k :: start <= k <= e ==> k in w.lines)
            && (r.Ok? ==> r.value == Span(start, e))
            && (r.Err? ==> r.error == KeyError)
  {
    var e := if end.Some? then end.value else w.totalLines - 1 + w.lineOffset;
    LinesFrom(w, start, e)
  }

  function LinesFrom(w: CodeWindow, k: int, e: int): (r: Result<seq<int>>)
    ensures r.Ok? <==> forall j :: k <= j <= e ==> j in w.lines
    ensures r.Ok? ==> r.value == Span(k, e)
    ensures r.Err? ==> r.error == KeyError
    decreases e - k
  {
    if k > e then Ok([])
    else if k !in w.lines then Err(KeyError)
    else match LinesFrom(w, k + 1, e)
      case Err(err) => Err(err)
      case Ok(rest) => Ok([k] + rest)
  }

  /** On a new window any span inside the numbered lines can be taken,
      and no span reaching outside them; with no end given the span stops
      one line before the last. */
  lemma LinesOfNewWindow(rendered: seq<seq<Glyph>>, startAt: int, s: int, e: int)
    requires |rendered| > 0
    ensures var w := NewCodeWindow(rendered, startAt);
            && (Lines(w, s, Some(e)).Ok? <==> e < s || (startAt <= s && e < startAt + |rendered|))
            && Lines(w, startAt, None) == Ok(Span(startAt, startAt + |rendered| - 2))
  {
    var w := NewCodeWindow(rendered, startAt);
    if !(e < s || (startAt <= s && e < startAt + |rendered|)) {
      if s < startAt {
        assert s !in w.lines;
      } else {
        assert e !in w.lines;
      }
    }
  }

  /** The colour of each kind of scope `highlight_scope` knows. */
  function KindColor(kind: string): (r: Result<ScopeColor>)
    ensures r.Ok? <==> kind in {"for", "for2", "if", "else", "elif", "def", "while"}
    ensures r.Err? ==> r.error == AssertionFailed
  {
    if kind == "for" then Ok(ForScope)
    else if kind == "for2" then Ok(NestedScope)
    else if kind == "if" then Ok(IfScope)
    else if kind == "else" then Ok(ElseScope)
    else if kind == "elif" then Ok(ElifScope)
    else if kind == "def" then Ok(UserFunction)
    else if kind == "while" then Ok(ForScope)
    else Err(AssertionFailed)
  }

  /** `for` and `while` share a colour; every other kind has its own. */
  lemma KindColorsDistinct(k1: string, k2: string)
    requires KindColor(k1).Ok? && KindColor(k2).Ok?
    ensures KindColor(k1) == KindColor(k2) <==> k1 == k2 || ({k1, k2} == {"for", "while"})
  {
  }

  /** `highlight_scope(kind, lines, indents, line, start, end, offset)`:
      the body is the `lines` lines starting `offset` after the keyword's
      line, the keyword is looked up on its line, and the rectangle is kept
      under `scope_{line}`. */
  function HighlightScope(w: CodeWindow, kind: string, lines: int, line: int, start: int, end: int, bodyOffset: int): (r: Result<CodeWindow>)
    ensures r.Ok? <==> && KindColor(kind).Ok? && line in w.lines
                       && forall k :: line + bodyOffset <= k <= line + bodyOffset + lines - 1 ==> k in w.lines
    ensures r.Ok? ==> r.value == w.(scopes := w.scopes[line := ScopeRect(KindColor(kind).value, Span(line + bodyOffset, line + bodyOffset + lines - 1), start, end)])
    ensures KindColor(kind).Err? ==> r == Err(AssertionFailed)
    ensures KindColor(kind).Ok? && r.Err? ==> r.error == KeyError
  {
    match KindColor(kind)
    case Err(e) => Err(e)
    case Ok(color) =>
      match Lines(w, line + bodyOffset, Some(line + bodyOffset + lines - 1))
      case Err(e) => Err(e)
      case Ok(body) =>
        if line !in w.lines then Err(KeyError)
        else Ok(w.(scopes := w.scopes[line := ScopeRect(color, body, start, end)]))
  }

  /** A highlighted body spans exactly `lines` lines, from `line + offset`
      on, and succeeds on a new window when they and the keyword's line
      are all numbered lines. */
  lemma HighlightBodySpan(rendered: seq<seq<Glyph>>, startAt: int, kind: string, lines: nat, line: int, start: int, end: int, bodyOffset: int)
    requires KindColor(kind).Ok?
    requires startAt <= line < startAt + |rendered|
    requires lines == 0 || (startAt <= line + bodyOffset && line + bodyOffset + lines - 1 < startAt + |rendered|)
    ensures var r := HighlightScope(NewCodeWindow(rendered, startAt), kind, lines, line, start, end, bodyOffset);
            && r.Ok?
            && line in r.value.scopes
            && |r.value.scopes[line].body| == lines
            && (forall j :: 0 <= j < lines ==> r.value.scopes[line].body[j] == line + bodyOffset + j)
  {
  }
}
