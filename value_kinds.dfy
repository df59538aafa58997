/** Value classification (GPflow/misc.py is_ndarray, is_tensor, is_number,
    is_valid_param_value). A Python value is represented by its runtime kind. */
module ValueKinds {

  /** The runtime kinds the predicates tell apart. */
  datatype Value =
    | NoneValue   // Python None
    | Str         // str, including numpy's str_
    | Bytes       // bytes, numpy's bytes_, and memoryview
    | Scalar      // int, float, complex, bool, a numpy scalar, or any other
                  // numbers.Number instance (Fraction, Decimal, ...)
    | NdArray     // numpy ndarray of any shape (a 0-d array too)
    | Tensor      // framework tensor
    | Variable    // framework variable
    | Other       // lists, dicts, objects, ...

  /** numpy's isscalar: Python and numpy scalars, numbers.Number instances, str,
      bytes and memoryview; never None and never an array, a 0-d array included. */
  predicate IsScalar(v: Value)
    ensures IsScalar(v) ==> v != NoneValue && !v.NdArray? && !v.Other?
  {
    v.Str? || v.Bytes? || v.Scalar?
  }

  /** is_ndarray: an instance of numpy's ndarray. */
  predicate IsNdarray(v: Value)
    ensures IsNdarray(v) ==> !IsScalar(v)
  {
    v.NdArray?
  }

  /** is_tensor: a framework tensor or variable. */
  predicate IsTensor(v: Value)
    ensures IsTensor(v) ==> !IsScalar(v) && !IsNdarray(v)
  {
    v.Tensor? || v.Variable?
  }

  /** is_number: a scalar that is not a str. */
  predicate IsNumber(v: Value)
    ensures IsNumber(v) ==> IsScalar(v) && v != NoneValue && !v.Str?
  {
    !v.Str? && IsScalar(v)
  }

  /** is_valid_param_value as written: `and` binds tighter than `or`, so the
      None test guards only is_number. */
  predicate IsValidParamValue(v: Value)
    ensures IsValidParamValue(v) ==> v != NoneValue && !v.Str? && !v.Other?
  {
    (v != NoneValue && IsNumber(v)) || IsNdarray(v) || IsTensor(v)
  }

  /** The reading the layout of the source suggests: None is rejected outright. */
  predicate IsValidParamValueGuarded(v: Value)
  {
    v != NoneValue && (IsNumber(v) || IsNdarray(v) || IsTensor(v))
  }

  /** The precedence quirk changes nothing: None is neither an array nor a tensor,
      so both readings accept exactly the same values. */
  lemma PrecedenceQuirkHarmless(v: Value)
    ensures IsValidParamValue(v) <==> IsValidParamValueGuarded(v)
  {
  }

  /** A str is never a number, although numpy calls it a scalar. */
  lemma StringIsNotNumber(v: Value)
    requires v.Str?
    ensures IsScalar(v) && !IsNumber(v) && !IsValidParamValue(v)
  {
  }

  /** The values accepted as parameter values, kind by kind. */
  lemma ValidParamValueKinds(v: Value)
    ensures IsValidParamValue(v) <==>
      (v.Scalar? || v.Bytes? || v.NdArray? || v.Tensor? || v.Variable?)
  {
  }

  /** The three classes are disjoint: a value is at most one of number, array, tensor. */
  lemma ClassesDisjoint(v: Value)
    ensures !(IsNumber(v) && IsNdarray(v))
    ensures !(IsNumber(v) && IsTensor(v))
    ensures !(IsNdarray(v) && IsTensor(v))
  {
  }
}
