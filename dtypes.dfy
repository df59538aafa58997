/** Dtype normalisation (GPflow/misc.py normalize_dtype). The input is described
    by its element type and by whether it arrived wrapped in the framework's DType
    object; a raw input is a numpy array or numpy scalar, whose `dtype.type` the
    source reads. */
module Dtypes {
  import opened Errors

  /** Element types a numpy or framework dtype can name. */
  datatype ElemType =
    | Float16 | Float32 | Float64
    | Int8 | Int16 | Int32 | Int64
    | UInt8 | UInt16 | UInt32 | UInt64
    | Bool | Complex64 | Complex128 | String | Object

  /** The configured float precision (settings.dtypes.float_type). */
  datatype Precision = Single | Double

  /** An input of normalize_dtype: Raw(e) is a numpy array or numpy scalar of
      element type e; Wrapped(e) is a framework DType naming e. */
  datatype Dtype = Raw(elem: ElemType) | Wrapped(elem: ElemType)

  /** The element type of the configured precision. */
  function FloatElem(p: Precision): (t: ElemType)
    ensures IsFloat(t)
  {
    match p
    case Single => Float32
    case Double => Float64
  }

  /** Float widths normalize_dtype accepts. */
  predicate IsFloat(t: ElemType)
  {
    t == Float32 || t == Float64
  }

  /** Integer widths normalize_dtype accepts. */
  predicate IsInt(t: ElemType)
  {
    t == Int16 || t == Int32 || t == Int64
  }

  /** The element type normalize_dtype maps a supported type to. */
  function NormalElem(t: ElemType, p: Precision): ElemType
    requires IsFloat(t) || IsInt(t)
  {
    if IsFloat(t) then FloatElem(p) else Int32
  }

  /** The same wrapping as `d`, around element type `t`. */
  function Rewrap(d: Dtype, t: ElemType): (r: Dtype)
    ensures r.elem == t && r.Wrapped? == d.Wrapped?
  {
    if d.Wrapped? then Wrapped(t) else Raw(t)
  }

  /** normalize_dtype as written. FLOAT_TYPE is the framework's DType, so a float
      array comes back as a wrapped dtype, while an integer array comes back as the
      raw int32 type. The Wrapped cases follow the unwrap and rewrap of the source;
      see the README for the attribute lookup that stands in their way. */
  function NormalizeDtypeAsWritten(d: Dtype, p: Precision): (r: Result<Dtype, Error>)
    ensures r.Err? <==> !IsFloat(d.elem) && !IsInt(d.elem)
    ensures r.Err? ==> r.error == UnknownDtype
    ensures r.Ok? && IsFloat(d.elem) ==> r.value == Wrapped(FloatElem(p))
    ensures r.Ok? && IsInt(d.elem) ==> r.value == Rewrap(d, Int32)
  {
    if IsFloat(d.elem) then Ok(Wrapped(FloatElem(p)))
    else if IsInt(d.elem) then Ok(if d.Wrapped? then Wrapped(Int32) else Raw(Int32))
    else Err(UnknownDtype)
  }

  /** normalize_dtype as intended: floats go to the configured precision, the
      accepted integers to int32, anything else raises; the result is wrapped
      exactly when the input was (the raw float is numpy's NP_FLOAT_TYPE). */
  function NormalizeDtype(d: Dtype, p: Precision): (r: Result<Dtype, Error>)
    ensures r.Err? <==> !IsFloat(d.elem) && !IsInt(d.elem)
    ensures r.Err? ==> r.error == UnknownDtype
    ensures r.Ok? ==> r.value.Wrapped? == d.Wrapped?
    ensures r.Ok? && IsFloat(d.elem) ==> r.value.elem == FloatElem(p)
    ensures r.Ok? && IsInt(d.elem) ==> r.value.elem == Int32
  {
    if IsFloat(d.elem) || IsInt(d.elem) then Ok(Rewrap(d, NormalElem(d.elem, p)))
    else Err(UnknownDtype)
  }

  // ---------------------------------------------------------------------------
  // Properties.

  /** Normalising a normalised dtype changes nothing. */
  lemma NormalizeIdempotent(d: Dtype, p: Precision)
    requires NormalizeDtype(d, p).Ok?
    ensures NormalizeDtype(NormalizeDtype(d, p).value, p) == NormalizeDtype(d, p)
  {
  }

  /** Every successful result is the configured float type or int32. */
  lemma NormalizeRange(d: Dtype, p: Precision)
    requires NormalizeDtype(d, p).Ok?
    ensures NormalizeDtype(d, p).value.elem in {FloatElem(p), Int32}
  {
  }

  /** The as-written version differs from the intended one on raw floats only. */
  lemma AsWrittenDiffersOnRawFloatOnly(d: Dtype, p: Precision)
    ensures NormalizeDtypeAsWritten(d, p) != NormalizeDtype(d, p) <==> d.Raw? && IsFloat(d.elem)
  {
  }

  /** A raw 64-bit float with single precision configured: the source answers
      the wrapped float32, where a raw dtype should give a raw one. */
  lemma RawFloatComesBackWrapped()
    ensures NormalizeDtypeAsWritten(Raw(Float64), Single) == Ok(Wrapped(Float32))
    ensures NormalizeDtype(Raw(Float64), Single) == Ok(Raw(Float32))
    ensures NormalizeDtypeAsWritten(Raw(Int16), Single) == Ok(Raw(Int32))
  {
  }
}
