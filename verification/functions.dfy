/** A function box: the triangles for its inputs and output, the box, its
    name and description, and the colour that tells standard, user and
    library functions apart.
 */
module Functions {

  import opened Wrappers

  /** The parts of a function box, by key: `input_{i}`, `output_1`,
      `box`, `label` and `desc_txt`. */
  datatype FnPart = Input(i: int) | Output1 | BoxPart | LabelPart | DescTxt

  /** Which fill colour the box takes. */
  datatype FnKind = Standard | User | Library

  datatype FunctionBox = FunctionBox(numInputs: int, numOutputs: int, kind: FnKind, keys: set<FnPart>)

  /** The colour kind: library wins over user, user over standard. */
  function KindOf(user: bool, library: bool): (k: FnKind)
    ensures library ==> k == Library
    ensures !library && user ==> k == User
    ensures !library && !user ==> k == Standard
  {
    var color := Standard;
    var color := if user then User else color;
    if library then Library else color
  }

  /** The input triangles `input_1 .. input_n`. */
  function InputKeys(n: int): (s: set<FnPart>)
    ensures forall p :: p in s <==> p.Input? && 1 <= p.i <= n
  {
    set i | 1 <= i <= n :: Input(i)
  }

  /** The input loop of the constructor: the first triangle, then one more
      below the previous for each further input. */
  method AddInputs(n: int) returns (keys: set<FnPart>)
    ensures keys == InputKeys(n)
  {
    keys := {};
    if n > 0 {
      keys := keys + {Input(1)};
    }
    var i := 1;
    while i < n
      invariant n > 0 ==> 1 <= i <= n
      invariant keys == InputKeys(if n > 0 then i else 0)
    {
      keys := keys + {Input(i + 1)};
      i := i + 1;
    }
    if n <= 0 {
      assert InputKeys(n) == {};
    }
  }

  /** `Function(name, desc, num_inputs, num_outputs, user_fn, library_fn)`. */
  method NewFunction(numInputs: int, numOutputs: int, user: bool, library: bool) returns (r: Result<FunctionBox>)
    ensures r.Ok? <==> !(user && library) && (numInputs >= 1 || numOutputs >= 1) && (numOutputs == 0 || numOutputs == 1)
    ensures r.Err? ==> r.error == AssertionFailed
    ensures r.Ok? ==> r.value == Built(numInputs, numOutputs, user, library)
  {
    if user && library {
      return Err(AssertionFailed);
    }
    if !(numInputs >= 1 || numOutputs >= 1) {
      return Err(AssertionFailed);
    }
    var keys := AddInputs(numInputs);
    if numOutputs == 1 {
      keys := keys + {Output1};
    } else if numOutputs != 0 {
      return Err(AssertionFailed);
    }
    keys := keys + {BoxPart, LabelPart};
    if !user {
      keys := keys + {DescTxt};
    }
    r := Ok(FunctionBox(numInputs, numOutputs, KindOf(user, library), keys));
  }

  /** The box a successful construction yields, part by part. */
  function Built(numInputs: int, numOutputs: int, user: bool, library: bool): (f: FunctionBox)
    ensures forall i :: Input(i) in f.keys <==> 1 <= i <= numInputs
    ensures Output1 in f.keys <==> numOutputs == 1
    ensures DescTxt in f.keys <==> !user
    ensures BoxPart in f.keys && LabelPart in f.keys
    ensures f.kind == KindOf(user, library)
    ensures f.numInputs == numInputs && f.numOutputs == numOutputs
  {
    FunctionBox(numInputs, numOutputs, KindOf(user, library),
      InputKeys(numInputs) + (if numOutputs == 1 then {Output1} else {}) + {BoxPart, LabelPart} + (if user then {} else {DescTxt}))
  }

  /** `all_inputs()`: the input triangles in order, each looked up by key. */
  function AllInputs(f: FunctionBox): (r: Result<seq<FnPart>>)
    ensures r.Ok? <==> forall i :: 1 <= i <= f.numInputs ==> Input(i) in f.keys
    ensures r.Ok? ==> |r.value| == (if f.numInputs > 0 then f.numInputs else 0)
    ensures r.Ok? ==> forall j :: 0 <= j < |r.value| ==> r.value[j] == Input(j + 1)
  {
    InputsFrom(f, 0)
  }

  function InputsFrom(f: FunctionBox, j: int): (r: Result<seq<FnPart>>)
    requires j >= 0
    ensures r.Ok? <==> forall i :: j + 1 <= i <= f.numInputs ==> Input(i) in f.keys
    ensures r.Ok? ==> |r.value| == (if f.numInputs > j then f.numInputs - j else 0)
    ensures r.Ok? ==> forall k :: 0 <= k < |r.value| ==> r.value[k] == Input(j + k + 1)
    decreases f.numInputs - j
  {
    if j >= f.numInputs then Ok([])
    else if Input(j + 1) !in f.keys then Err(KeyError)
    else match InputsFrom(f, j + 1)
      case Err(e) => Err(e)
      case Ok(rest) => Ok([Input(j + 1)] + rest)
  }

  /** On a constructed box `all_inputs` succeeds and lists every input
      key, and nothing else among its keys is an input. */
  lemma AllInputsOfBuilt(numInputs: int, numOutputs: int, user: bool, library: bool)
    ensures var f := Built(numInputs, numOutputs, user, library);
            && AllInputs(f).Ok?
            && (forall p :: p in f.keys && p.Input? ==> p in AllInputs(f).value)
  {
    var f := Built(numInputs, numOutputs, user, library);
    forall p | p in f.keys && p.Input? ensures p in AllInputs(f).value {
      assert AllInputs(f).value[p.i - 1] == p;
    }
  }
}
