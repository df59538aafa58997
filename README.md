# GPflow `misc.py` helpers in Dafny

This project models the helper module `GPflow/misc.py` of GPflow, a Gaussian-process
library built on a dataflow-graph framework. The framework objects are replaced by
plain values:

- the graph's tensors become a map from `"name:index"` address strings to tensor ids;
- the graph's trainables collection becomes a `seq` field of a `Graph` class, which
  the two collection helpers update in place;
- a Python value becomes its runtime kind (None, str, bytes, scalar, ndarray,
  tensor, variable, other);
- an input of `normalize_dtype` becomes an element-type enum with a flag: `Raw(e)` is
  a numpy array or numpy scalar of element type e, `Wrapped(e)` a framework `DType`;
- the configured float precision is a parameter.

Modules, one per group of helpers:

- `Errors` (errors.dfy): `Option`, `Result` and `Outcome`, plus the error kinds the
  helpers raise.
- `TensorNames` (tensor_names.dfy): `tensor_name`, the address join, `_get_tensor_by_name`
  and `get_tensor_by_name`. Python's `str.join` is the function `Join`. Python's
  `str.split` is the function `Split`, which serves as its inverse. The two are
  proved to round-trip in both directions.
- `ValueKinds` (value_kinds.dfy): `is_ndarray`, `is_tensor`, `is_number` and
  `is_valid_param_value`. The last keeps the source's operator precedence:
  `(value is not None and is_number(value)) or is_ndarray(value) or is_tensor(value)`.
- `Trainables` (trainables.dfy): `add_to_trainables` and `remove_from_trainables`.
  They are methods of the class `Graph`, proved against the specification functions
  `Added` and `RemovedFirst`.
- `Dtypes` (dtypes.dfy): `normalize_dtype`, as written and as intended (see Findings).
- `TriangularPack` (vec_to_tri.dfy): `vec_to_tri`. A batch loop stands for `tf.map_fn`.
  An inner loop stands for `tf.scatter_nd`: it writes update k at the k-th coordinate of
  `np.tril_indices(N)` in an `array3` that starts filled with zero. The result is proved
  equal to the index formula "entry (i, j) is `vector[i(i+1)/2 + j]` for j <= i, zero
  above the diagonal".

Points where the code behaves differently from what a reader might expect:

- `is_number` (GPflow/misc.py:59-60) accepts `bytes`: numpy's `isscalar` is true for
  bytes, and `is_number` excludes only `str`. The model follows the code.
- `normalize_dtype` returns `FLOAT_TYPE`, a wrapped framework dtype (line 27 compares
  it with `tf.float32`), for a float numpy array, while an integer array comes back
  as the raw `np.int32`. Raw in, raw out is intended, as the `tf_type` flag
  (GPflow/misc.py:89-91) and the conditional rewrap at GPflow/misc.py:99 show. The raw
  path is modelled as written, and the discrepancy is logged under Findings; the
  wrapped path follows the unwrap and rewrap the code intends (see "## Left out").
- `vec_to_tri` with N = 0: `np.tril_indices(0)` is empty, so the index constant built
  at GPflow/misc.py:117-118 has shape [0] rather than [0, 2]. The scatter at
  GPflow/misc.py:121 then expects updates of shape [0, 0], which a packed vector never
  has, and raises. The model raises `ShapeMismatch` for N = 0.

## Model

| member | source | states |
|---|---|---|
| TensorNames.TensorName | GPflow/misc.py:34-35 | no segments give `""`; one segment is returned unchanged |
| TensorNames.SplitJoin | GPflow/misc.py:34-35 | joining separator-free parts and splitting the result gives back exactly those parts, in order |
| TensorNames.JoinSplit | GPflow/misc.py:34-35 | splitting any string on the separator and joining the pieces gives back the string |
| TensorNames.TensorNameSegments | GPflow/misc.py:34-35 | `tensor_name` keeps every '/'-free segment, in order, recoverable by splitting on '/' |
| TensorNames.Address | GPflow/misc.py:130 | the looked-up address is the name, then ':', then the index |
| TensorNames.AddressInjective | GPflow/misc.py:128-132 | two colon-free (name, index) pairs with the same address are the same pair |
| TensorNames.LookupTensor | GPflow/misc.py:128-132 | returns the graph's entry for `name:index` when that key exists, None (the caught KeyError) otherwise |
| TensorNames.GetTensorByName | GPflow/misc.py:38-48 | with an index: exactly the lookup of that index; without one: raises the ambiguity error iff both `name:0` and `name:1` exist, otherwise the lookup of `name:0` |
| TensorNames.DefaultIndexIsZero | GPflow/misc.py:42-48 | without an index, a call that does not raise equals the call with index "0" |
| TensorNames.MissingZeroIsNotFound | GPflow/misc.py:42-44 | when `name:0` is absent the result is None, even if `name:1` exists |
| TensorNames.AmbiguousIffBothIndices | GPflow/misc.py:45-47 | the index-less call raises iff the explicit lookups of "0" and "1" both find a tensor |
| ValueKinds.IsScalar | GPflow/misc.py:60 | numpy's `isscalar`: true for Python and numpy scalars, other `numbers.Number` instances, str, bytes and memoryview; never None, an array, or an object of none of those kinds |
| ValueKinds.IsNdarray | GPflow/misc.py:51-52 | `is_ndarray`: true for an ndarray instance, which is never a scalar |
| ValueKinds.IsTensor | GPflow/misc.py:55-56 | `is_tensor`: true for a framework tensor or variable, which is neither a scalar nor an ndarray |
| ValueKinds.IsNumber | GPflow/misc.py:59-60 | `is_number`: a scalar that is not a str, so never None and never a str |
| ValueKinds.IsValidParamValue | GPflow/misc.py:63-67 | `(not None and is_number) or is_ndarray or is_tensor`, with the source's precedence; never accepts None, a str or another object |
| ValueKinds.PrecedenceQuirkHarmless | GPflow/misc.py:63-67 | the as-written precedence accepts exactly the values the fully guarded reading accepts, since None is neither array nor tensor |
| ValueKinds.StringIsNotNumber | GPflow/misc.py:59-60 | a str is a numpy scalar but never a number and never a valid parameter value |
| ValueKinds.ValidParamValueKinds | GPflow/misc.py:51-67 | a value is a valid parameter value iff it is a non-str scalar, bytes, an ndarray, a tensor or a variable |
| ValueKinds.ClassesDisjoint | GPflow/misc.py:51-60 | no value is two of number, ndarray, tensor |
| Trainables.Added | GPflow/misc.py:70-73 | the variable is a member afterwards; the contents gain one copy of it exactly when it was absent |
| Trainables.FirstIndex | GPflow/misc.py:82 | the position found holds the variable and no earlier position does |
| Trainables.RemovedFirst | GPflow/misc.py:82 | one element shorter; elements before the first occurrence stay, later ones shift down by one; contents lose one copy of the variable |
| Trainables.Graph.AddToTrainables | GPflow/misc.py:70-73 | member afterwards; unchanged if already a member, otherwise appended at the end |
| Trainables.Graph.RemoveFromTrainables | GPflow/misc.py:76-82 | raises `NotInTrainables` and changes nothing iff the variable is absent; otherwise deletes its first occurrence |
| Trainables.AddIdempotent | GPflow/misc.py:70-73 | adding twice equals adding once |
| Trainables.AddTwiceOneInstance | GPflow/misc.py:70-73 | adding an absent variable twice leaves exactly one instance |
| Trainables.AddKeepsDistinct | GPflow/misc.py:70-73 | adding never introduces a duplicate |
| Trainables.RemoveUndoesAdd | GPflow/misc.py:70-82 | removing a variable just added to a collection without it restores the collection exactly |
| Trainables.RemoveFromDistinct | GPflow/misc.py:76-82 | in a duplicate-free collection, removal leaves no copy of the variable and no duplicate |
| Trainables.ReAddAfterRemove | GPflow/misc.py:70-82 | removing then re-adding a member of a duplicate-free collection restores its contents, with the variable moved to the end |
| Dtypes.NormalizeDtypeAsWritten | GPflow/misc.py:84-99 | raises iff the element type is neither float32/float64 nor int16/int32/int64; floats give the wrapped configured float type; ints give int32, wrapped exactly when the input was |
| Dtypes.NormalizeDtype | GPflow/misc.py:84-99 | raises iff the element type is unsupported; floats give the configured float type, ints give int32; the result is wrapped exactly when the input was |
| Dtypes.NormalizeIdempotent | GPflow/misc.py:89-99 | normalising a normalised dtype returns it unchanged |
| Dtypes.NormalizeRange | GPflow/misc.py:93-96 | every successful result is the configured float type or int32 |
| Dtypes.AsWrittenDiffersOnRawFloatOnly | GPflow/misc.py:93-99 | the as-written and intended versions differ exactly on raw inputs (float numpy arrays or scalars) of a float type |
| Dtypes.RawFloatComesBackWrapped | GPflow/misc.py:93-99 | a float64 numpy array with single precision configured gives the wrapped float32 as written and the raw float32 as intended |
| TriangularPack.PositionBound | GPflow/misc.py:112-115 | every lower-triangle position i(i+1)/2 + j of an N x N matrix is below M = N(N+1)/2 |
| TriangularPack.PositionInjective | GPflow/misc.py:117 | distinct lower-triangle entries have distinct packed positions |
| TriangularPack.TrilIndices | GPflow/misc.py:117 | tril_indices(N) has N(N+1)/2 coordinates |
| TriangularPack.TrilIndicesAt | GPflow/misc.py:117 | coordinate (i, j) with j <= i sits at position i(i+1)/2 + j of tril_indices |
| TriangularPack.TrilIndicesInverse | GPflow/misc.py:117 | every coordinate of tril_indices is in the lower triangle, at the position its index formula gives |
| TriangularPack.TrilIndicesDistinct | GPflow/misc.py:117-121 | tril_indices lists no coordinate twice, so the scatter never combines updates |
| TriangularPack.ScatterMatchesFormula | GPflow/misc.py:117-121 | the k-th update, scattered at the k-th tril coordinate, is the entry the index formula reads there |
| TriangularPack.TwoByTwo | GPflow/misc.py:101-123 | N = 2 and [a, b, c] give [[a, 0], [b, c]] |
| TriangularPack.ScatterInto | GPflow/misc.py:120-121 | scattering into a zero slice gives the index-formula matrix in that slice and leaves the other slices alone |
| TriangularPack.VecToTri | GPflow/misc.py:101-123 | fails iff N = 0 (the index constant has the wrong shape) or some vector's length is not N(N+1)/2; otherwise D matrices of N x N, where entry (i, j) is `vector[i(i+1)/2 + j]` for j <= i and zero above, by the same mapping for every vector |

## Left out

- The default graph (`_get_graph`, GPflow/misc.py:125-126) is left out. The graph is always an explicit argument.
- The framework's validation of an address is not modelled. An address that does not parse as one name and one index raises an error that `_get_tensor_by_name` does not catch; the model treats every address as a plain map lookup.
- Exception messages are not modelled. Errors are variants of `Errors.Error`.
- The module-level settings reads and `NP_FLOAT_TYPE` (GPflow/misc.py:25-27) are not modelled. The configured precision is a parameter. In `Dtypes.NormalizeDtype`, the raw configured float is what `NP_FLOAT_TYPE` names.
- numpy and framework dtype objects (`as_numpy_dtype`, `tf.as_dtype`, `value.dtype.type`) are not modelled. An input is an element type with a wrapped flag. A raw input stands for a numpy array or scalar. A bare numpy dtype object has no `dtype` attribute, so it raises AttributeError at GPflow/misc.py:93, and the model does not include that error.
- Dtypes.NormalizeDtypeAsWritten: as written, a framework `DType` input raises AttributeError at GPflow/misc.py:93. Line 92 turns it into a numpy scalar class such as `np.float64`, and `.dtype` on that class is an instance descriptor with no `type`. The model's Wrapped cases follow the unwrap and rewrap intended by GPflow/misc.py:90-92 and GPflow/misc.py:99 rather than that error.
- `isinstance` and `np.isscalar` are not modelled. Values are runtime kinds, and subclasses are folded into their base kind.
- Variable identity is not modelled. Membership in the trainables collection uses the equality of the variable type.
- TriangularPack.VecToTri: the element type is abstract with a given zero, so no floating-point arithmetic is modelled. `scatter_nd` adds updates that share an index, which the model does not capture. This never arises here, because `TriangularPack.TrilIndicesDistinct` proves the indices distinct.
- TriangularPack.VecToTri: the shape errors (N = 0, or a vector length other than N(N+1)/2) follow the framework's rule for `scatter_nd` shapes. That rule is outside this model. For an empty batch, the static row length M is not represented, so an empty batch with N > 0 always succeeds.
- TriangularPack.VecToTri: `map_fn` builds one N x N tensor per vector and stacks them. The model scatters straight into the matching slice of one zero-filled D x N x N array.
- Concurrency is left out. The source assumes single-threaded use.

## Findings

| source | as written | input that shows it | evidently intended | confidence | as-written member | corrected member |
|---|---|---|---|---|---|---|
| GPflow/misc.py:93-99 | for a float numpy array the result is `FLOAT_TYPE`, the framework's wrapped dtype, returned as is; for an int array it is the raw `np.int32` | a float64 numpy array with float32 configured yields the framework's float32 `DType` rather than numpy's float32 | raw in, raw out: the numpy float type `NP_FLOAT_TYPE` (line 27) for raw input, and wrapping only when the input was wrapped | medium; not executed | Dtypes.NormalizeDtypeAsWritten, Dtypes.RawFloatComesBackWrapped | Dtypes.NormalizeDtype, Dtypes.NormalizeIdempotent |
