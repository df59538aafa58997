/** Packing vectors into lower-triangular matrices (GPflow/misc.py vec_to_tri).
    Each length-M vector of a batch of D is scattered into an N x N zero matrix
    at the lower-triangle coordinates, enumerated row by row as numpy's
    tril_indices(N) does; M must be N(N+1)/2. */
module TriangularPack {
  import opened Errors

  /** The N-th triangular number: how many entries the lower triangle of an N x N matrix has. */
  function TriangularNumber(n: nat): nat
  {
    if n == 0 then 0 else TriangularNumber(n - 1) + n
  }

  /** The closed form of the docstring's check, N(N+1) == 2M. */
  lemma {:induction false} TriangularNumberClosedForm(n: nat)
    ensures 2 * TriangularNumber(n) == n * (n + 1)
  {
    if n > 0 {
      TriangularNumberClosedForm(n - 1);
      assert n * (n + 1) == (n - 1) * n + 2 * n;
    }
  }

  /** The position in the packed vector of lower-triangle entry (i, j). */
  function Position(i: nat, j: nat): nat
  {
    TriangularNumber(i) + j
  }

  lemma TriangularNumberStep(n: nat)
    ensures TriangularNumber(n + 1) == TriangularNumber(n) + n + 1
  {
  }

  lemma {:induction false} TriangularNumberMonotone(a: nat, b: nat)
    requires a <= b
    ensures TriangularNumber(a) <= TriangularNumber(b)
    decreases b - a
  {
    if a < b {
      TriangularNumberStep(a);
      TriangularNumberMonotone(a + 1, b);
    }
  }

  /** Entries of an N x N lower triangle have positions below N(N+1)/2. */
  lemma PositionBound(n: nat, i: nat, j: nat)
    requires j <= i < n
    ensures Position(i, j) < TriangularNumber(n)
  {
    TriangularNumberStep(i);
    TriangularNumberMonotone(i + 1, n);
  }

  /** Different lower-triangle entries have different positions. */
  lemma PositionInjective(i1: nat, j1: nat, i2: nat, j2: nat)
    requires j1 <= i1 && j2 <= i2
    requires Position(i1, j1) == Position(i2, j2)
    ensures i1 == i2 && j1 == j2
  {
    if i1 < i2 {
      PositionBound(i2, i1, j1);
    } else if i2 < i1 {
      PositionBound(i1, i2, j2);
    }
  }

  /** The coordinates (i, 0), ..., (i, i) of row i of the lower triangle. */
  function RowIndices(i: nat): (r: seq<(nat, nat)>)
    ensures |r| == i + 1
    ensures forall j :: 0 <= j <= i ==> r[j] == (i, j)
  {
    seq(i + 1, j requires 0 <= j <= i => (i, j))
  }

  /** numpy's tril_indices(n), zipped into (row, column) pairs: row by row,
      and within a row by increasing column. */
  function TrilIndices(n: nat): (r: seq<(nat, nat)>)
    ensures |r| == TriangularNumber(n)
  {
    if n == 0 then []
    else
      TriangularNumberStep(n - 1);
      TrilIndices(n - 1) + RowIndices(n - 1)
  }

  /** Entry (i, j) of the lower triangle is at position i(i+1)/2 + j of tril_indices. */
  lemma {:induction false} TrilIndicesAt(n: nat, i: nat, j: nat)
    requires j <= i < n
    ensures Position(i, j) < |TrilIndices(n)|
    ensures TrilIndices(n)[Position(i, j)] == (i, j)
  {
    PositionBound(n, i, j);
    if i < n - 1 {
      PositionBound(n - 1, i, j);
      TrilIndicesAt(n - 1, i, j);
    }
  }

  /** Every coordinate of tril_indices lies in the lower triangle, at the
      position its index formula gives. */
  lemma {:induction false} TrilIndicesInverse(n: nat, k: nat)
    requires k < TriangularNumber(n)
    ensures TrilIndices(n)[k].1 <= TrilIndices(n)[k].0 < n
    ensures Position(TrilIndices(n)[k].0, TrilIndices(n)[k].1) == k
  {
    TriangularNumberStep(n - 1);
    if k < TriangularNumber(n - 1) {
      TrilIndicesInverse(n - 1, k);
    }
  }

  /** tril_indices lists no coordinate twice, so scatter_nd never combines two updates. */
  lemma TrilIndicesDistinct(n: nat, k1: nat, k2: nat)
    requires k1 < k2 < TriangularNumber(n)
    ensures TrilIndices(n)[k1] != TrilIndices(n)[k2]
  {
    TrilIndicesInverse(n, k1);
    TrilIndicesInverse(n, k2);
  }

  /** Entry (i, j) of the matrix unpacked from `v`: the packed entry at
      i(i+1)/2 + j on and below the diagonal, zero above it. */
  function TriEntry<T>(v: seq<T>, n: nat, i: nat, j: nat, zero: T): T
    requires i < n && j < n && |v| == TriangularNumber(n)
  {
    if j <= i then
      PositionBound(n, i, j);
      v[Position(i, j)]
    else zero
  }

  /** Scattering update k at the k-th coordinate of tril_indices agrees with the
      index formula: each packed entry lands where TriEntry reads it. */
  lemma ScatterMatchesFormula<T>(v: seq<T>, n: nat, k: nat, zero: T)
    requires |v| == TriangularNumber(n) && k < |v|
    ensures TrilIndices(n)[k].0 < n && TrilIndices(n)[k].1 < n
    ensures TriEntry(v, n, TrilIndices(n)[k].0, TrilIndices(n)[k].1, zero) == v[k]
  {
    TrilIndicesInverse(n, k);
  }

  /** N = 2 and the vector [a, b, c] give the matrix [[a, 0], [b, c]]. */
  lemma TwoByTwo<T>(a: T, b: T, c: T, zero: T)
    ensures TrilIndices(2) == [(0, 0), (1, 0), (1, 1)]
    ensures TriEntry([a, b, c], 2, 0, 0, zero) == a && TriEntry([a, b, c], 2, 0, 1, zero) == zero
    ensures TriEntry([a, b, c], 2, 1, 0, zero) == b && TriEntry([a, b, c], 2, 1, 1, zero) == c
  {
    assert TrilIndices(1) == [(0, 0)];
  }

  /** tf.scatter_nd of one vector into slice `d` of `out`, which holds zeros:
      update k is written at indices[k]. */
  method ScatterInto<T>(out: array3<T>, d: nat, indices: seq<(nat, nat)>, v: seq<T>, n: nat, zero: T)
    requires d < out.Length0 && out.Length1 == n && out.Length2 == n
    requires indices == TrilIndices(n) && |v| == TriangularNumber(n)
    requires forall i, j :: 0 <= i < n && 0 <= j < n ==> out[d, i, j] == zero
    modifies out
    ensures forall i, j :: 0 <= i < n && 0 <= j < n ==> out[d, i, j] == TriEntry(v, n, i, j, zero)
    ensures forall e, i, j :: 0 <= e < out.Length0 && e != d && 0 <= i < n && 0 <= j < n ==>
      out[e, i, j] == old(out[e, i, j])
  {
    for k := 0 to |indices|
      invariant forall i, j :: 0 <= i < n && 0 <= j < n ==>
        out[d, i, j] == if j <= i && Position(i, j) < k then TriEntry(v, n, i, j, zero) else zero
      invariant forall e, i, j :: 0 <= e < out.Length0 && e != d && 0 <= i < n && 0 <= j < n ==>
        out[e, i, j] == old(out[e, i, j])
    {
      TrilIndicesInverse(n, k);
      var (i, j) := indices[k];
      forall i', j' | 0 <= i' < n && 0 <= j' < n && j' <= i' && Position(i', j') == k
        ensures i' == i && j' == j
      {
        PositionInjective(i', j', i, j);
      }
      out[d, i, j] := v[k];
    }
    forall i, j | 0 <= j <= i < n
      ensures Position(i, j) < |indices|
    {
      PositionBound(n, i, j);
    }
  }

  /** vec_to_tri(vectors, N): the D x N x N batch of lower-triangular matrices.
      The framework's scatter raises when a vector's length is not N(N+1)/2, and
      for N = 0, where the empty index constant has shape [0] instead of [0, 2]. */
  method VecToTri<T>(vectors: seq<seq<T>>, n: nat, zero: T) returns (r: Result<array3<T>, Error>)
    ensures r.Ok? <==> n > 0 && forall d :: 0 <= d < |vectors| ==> |vectors[d]| == TriangularNumber(n)
    ensures r.Err? ==> r.error == ShapeMismatch
    ensures r.Ok? ==> fresh(r.value)
    ensures r.Ok? ==> r.value.Length0 == |vectors| && r.value.Length1 == n && r.value.Length2 == n
    ensures r.Ok? ==> forall d, i, j :: 0 <= d < |vectors| && 0 <= i < n && 0 <= j < n ==>
      r.value[d, i, j] == TriEntry(vectors[d], n, i, j, zero)
  {
    if n == 0 || exists d :: 0 <= d < |vectors| && |vectors[d]| != TriangularNumber(n) {
      return Err(ShapeMismatch);
    }
    var indices := TrilIndices(n);
    var out := new T[|vectors|, n, n]((_, _, _) => zero);
    for d := 0 to |vectors|
      invariant forall e, i, j :: 0 <= e < d && 0 <= i < n && 0 <= j < n ==>
        out[e, i, j] == TriEntry(vectors[e], n, i, j, zero)
      invariant forall e, i, j :: d <= e < |vectors| && 0 <= i < n && 0 <= j < n ==>
        out[e, i, j] == zero
    {
      ScatterInto(out, d, indices, vectors[d], n, zero);
    }
    return Ok(out);
  }
}
