/** Type inference for a key without a type keyword: the tests of the
    `py_types` table are tried in order, int, float, bool, str, and the first
    whose result is truthy decides the Python type, which `py_to_cpp` (or the
    sign of the integer) turns into a C++ type. */
module Inference {
  import opened Wrappers
  import opened Text
  import opened Numbers
  import opened CppTypes
  import opened ConfigErrors

  datatype PyType = PyInt | PyFloat | PyBool | PyStr

  /** The `py_types` table, in the order its tests are tried. */
  const PyTypes: seq<PyType> := [PyInt, PyFloat, PyBool, PyStr]

  /** What calling a test on the value does: raise `ValueError`, or return a
      value whose truthiness is given. */
  datatype Outcome = Raised | Returned(truthy: bool)

  /** The boolean test: `x.lower() == 'true' or x.lower() == 'false'`. */
  predicate IsBoolWord(val: string) {
    Lower(val) == "true" || Lower(val) == "false"
  }

  /** The test of one table row applied to the value. `int` and `float` raise on
      a non-number and are falsy on zero; `str` is falsy on the empty string. */
  function Test(pt: PyType, val: string): Outcome {
    match pt
    case PyInt => (match ParseInt(val) case None => Raised case Some(n) => Returned(n != 0))
    case PyFloat => (match ParseFloat(val) case None => Raised case Some(d) => Returned(!d.IsZero()))
    case PyBool => Returned(IsBoolWord(val))
    case PyStr => Returned(val != [])
  }

  predicate Accepts(pt: PyType, val: string) {
    Test(pt, val) == Returned(true)
  }

  /** The `py_to_cpp` table; `int` is not in it, and neither is `None`. */
  const PyToCpp: map<PyType, CppType> := map[PyBool := Bool, PyStr := StdString, PyFloat := Double]

  /** The first row of the table, from row `i` on, whose test returns a
      truthy value. */
  function FirstAccepted(val: string, i: nat): (r: Option<PyType>)
    requires i <= |PyTypes|
    ensures r.Some? ==> Accepts(r.value, val)
    decreases |PyTypes| - i
  {
    if i == |PyTypes| then None
    else if Accepts(PyTypes[i], val) then Some(PyTypes[i])
    else FirstAccepted(val, i + 1)
  }

  /** The inferred type: the first accepted row, turned into a C++ type by the
      sign of the integer or by `py_to_cpp`; no row at all is the `KeyError`
      of looking up `None`. Only five of the eight types can come out, and
      the `KeyError` is the only failure. */
  function Infer(val: string): (r: Result<CppType, Error>)
    ensures r.Success? ==> r.value in {Int32, UInt64, Double, Bool, StdString}
    ensures r.Failure? ==> r.error == NoTypeInferred
  {
    match FirstAccepted(val, 0)
    case None => Failure(NoTypeInferred)
    case Some(pt) =>
      if pt == PyInt then Success(if ParseInt(val).value < 0 then Int32 else UInt64)
      else Success(PyToCpp[pt])
  }

  /** The tests are tried in table order and the first truthy one wins. */
  lemma InferInOrder(val: string)
    ensures Infer(val) ==
      if Accepts(PyInt, val) then Success(if ParseInt(val).value < 0 then Int32 else UInt64)
      else if Accepts(PyFloat, val) then Success(Double)
      else if Accepts(PyBool, val) then Success(Bool)
      else if Accepts(PyStr, val) then Success(StdString)
      else Failure(NoTypeInferred)
  {
    assert FirstAccepted(val, 4) == None;
    assert FirstAccepted(val, 3) == if Accepts(PyStr, val) then Some(PyStr) else None;
    assert FirstAccepted(val, 2) == if Accepts(PyBool, val) then Some(PyBool) else FirstAccepted(val, 3);
    assert FirstAccepted(val, 1) == if Accepts(PyFloat, val) then Some(PyFloat) else FirstAccepted(val, 2);
    assert FirstAccepted(val, 0) == if Accepts(PyInt, val) then Some(PyInt) else FirstAccepted(val, 1);
    assert PyToCpp[PyFloat] == Double && PyToCpp[PyBool] == Bool && PyToCpp[PyStr] == StdString;
  }

  /** `infer_cpp_type`: the loop over the test table with its early exit. */
  method InferCppType(val: string) returns (r: Result<CppType, Error>)
    ensures r == Infer(val)
  {
    var pyType: Option<PyType> := None;
    var i := 0;
    while i < |PyTypes|
      invariant 0 <= i <= |PyTypes|
      invariant pyType == None
      invariant FirstAccepted(val, i) == FirstAccepted(val, 0)
    {
      if Test(PyTypes[i], val) == Returned(true) {
        pyType := Some(PyTypes[i]);
        break;
      }
      i := i + 1;
    }
    assert pyType == FirstAccepted(val, 0);
    if pyType == Some(PyInt) {
      if ParseInt(val).value < 0 {
        return Success(Int32);
      } else {
        return Success(UInt64);
      }
    }
    if pyType.Some? && pyType.value in PyToCpp {
      r := Success(PyToCpp[pyType.value]);
    } else {
      r := Failure(NoTypeInferred);
    }
  }

  /** A nonzero integer literal gives `int32_t` when negative and `uint64_t`
      otherwise, and `str(n)` for every nonzero `n` is such a literal. */
  lemma IntegerInference(val: string)
    requires ParseInt(val).Some? && ParseInt(val).value != 0
    ensures Infer(val) == Success(if ParseInt(val).value < 0 then Int32 else UInt64)
  {
    InferInOrder(val);
  }

  lemma IntToStringInference(n: int)
    requires n != 0
    ensures Infer(IntToString(n)) == Success(if n < 0 then Int32 else UInt64)
  {
    IntRoundTrip(n);
  }

  /** The truthiness quirk: a zero integer (`0`, `-0`, `+00`) fails both the
      int and the float test and is inferred as a string. */
  lemma ZeroIntegerIsString(val: string)
    requires ParseInt(val) == Some(0)
    ensures Infer(val) == Success(StdString)
  {
    InferInOrder(val);
    IntIsFloat(val);
    assert val != [];
    assert IsDigit(val[0]) || val[0] in "+-";
    assert LowerChar(val[0]) == val[0];
    assert !IsBoolWord(val);
  }

  /** So is a float literal that is not an integer literal and rounds to 0.0:
      all its digits are zeros (`0.0`, `.0e5`) or it underflows (`1e-400`). */
  lemma ZeroFloatIsString(val: string)
    requires ParseInt(val).None? && ParseFloat(val).Some? && ParseFloat(val).value.IsZero()
    ensures Infer(val) == Success(StdString)
  {
    InferInOrder(val);
    assert val != [];
    if IsBoolWord(val) {
      BoolWordNotANumber(val);
    }
  }

  /** A boolean word starts with a letter, so it is no number. */
  lemma BoolWordNotANumber(val: string)
    requires IsBoolWord(val)
    ensures ParseInt(val).None? && ParseFloat(val).None?
  {
    assert Lower(val)[0] == 't' || Lower(val)[0] == 'f';
    assert val[0] in "tTfF";
    NotANumber(val);
  }

  /** A float literal that is not an integer literal and does not round to 0.0
      gives `double` (a literal beyond the largest double is infinity, which is
      truthy too). */
  lemma FloatInference(val: string)
    requires ParseInt(val).None? && ParseFloat(val).Some? && !ParseFloat(val).value.IsZero()
    ensures Infer(val) == Success(Double)
  {
    InferInOrder(val);
  }

  /** `true` and `false` in any letter case give `bool`, and nothing else does. */
  lemma BoolInference(val: string)
    ensures Infer(val) == Success(Bool) <==> IsBoolWord(val)
  {
    InferInOrder(val);
    if IsBoolWord(val) {
      BoolWordNotANumber(val);
    }
  }

  /** Inference fails on the empty value and on no other. */
  lemma InferenceFailsOnlyOnEmpty(val: string)
    ensures Infer(val).Failure? <==> val == []
    ensures Infer(val).Failure? ==> Infer(val).error == NoTypeInferred
  {
    InferInOrder(val);
    if val == [] {
      assert ParseInt(val).None?;
      assert ParseFloat(val).None? by {
        assert IndexOfExponent(val) == 0;
        assert IndexOf(val[..0], '.') == 0;
      }
      assert Lower(val) == [];
    }
  }

  /** A value inferred as a string is exactly one no earlier test accepted:
      not a nonzero number, not a boolean word, not empty. */
  lemma StringInference(val: string)
    ensures Infer(val) == Success(StdString) <==>
      val != [] && !IsBoolWord(val) && !Accepts(PyInt, val) && !Accepts(PyFloat, val)
  {
    InferInOrder(val);
  }
}
