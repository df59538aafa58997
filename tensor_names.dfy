/** Tensor naming and lookup by "name:index" address (GPflow/misc.py tensor_name,
    get_tensor_by_name, _get_tensor_by_name). The computation graph's tensors are
    a map from address strings to tensor identities, passed explicitly. */
module TensorNames {
  import opened Errors

  /** Identity of a tensor in a graph. */
  type TensorId = nat

  /** The tensors of a graph, keyed by their "name:index" address. */
  type TensorMap = map<string, TensorId>

  /** Python's `sep.join(parts)`. */
  function Join(parts: seq<string>, sep: char): string
  {
    if |parts| == 0 then ""
    else if |parts| == 1 then parts[0]
    else parts[0] + [sep] + Join(parts[1..], sep)
  }

  /** Python's `s.split(sep)`: the pieces between separators, always at least one piece. */
  function Split(s: string, sep: char): (parts: seq<string>)
    ensures |parts| >= 1
  {
    if |s| == 0 then [""]
    else
      var rest := Split(s[1..], sep);
      if s[0] == sep then [""] + rest
      else [[s[0]] + rest[0]] + rest[1..]
  }

  /** No part contains the separator. */
  predicate SeparatorFree(parts: seq<string>, sep: char)
  {
    forall k :: 0 <= k < |parts| ==> sep !in parts[k]
  }

  /** tensor_name(*subnames): the segments joined with '/'. */
  function TensorName(subnames: seq<string>): (r: string)
    ensures |subnames| == 0 ==> r == ""
    ensures |subnames| == 1 ==> r == subnames[0]
  {
    Join(subnames, '/')
  }

  /** The address looked up by _get_tensor_by_name: ':'.join([name, index]). */
  function Address(name: string, index: string): (r: string)
    ensures r == name + [':'] + index
  {
    assert [name, index][1..] == [index] && Join([index], ':') == index;
    Join([name, index], ':')
  }

  /** _get_tensor_by_name: the tensor at exactly "name:index", or None when the
      graph raises KeyError for that address. */
  function LookupTensor(name: string, index: string, g: TensorMap): (r: Option<TensorId>)
    ensures r.Some? <==> Address(name, index) in g
    ensures r.Some? ==> r.value == g[Address(name, index)]
  {
    var key := Address(name, index);
    if key in g then Some(g[key]) else None
  }

  /** get_tensor_by_name(name, index, graph). With an index, the exact lookup.
      Without one, index "0"; when "0" exists and "1" exists too, the name is
      ambiguous and the call raises. */
  function GetTensorByName(name: string, index: Option<string>, g: TensorMap): (r: Result<Option<TensorId>, Error>)
    ensures index.Some? ==> r.Ok? && r.value == LookupTensor(name, index.value, g)
    ensures index.None? ==>
      (r.Err? <==> Address(name, "0") in g && Address(name, "1") in g)
    ensures r.Err? ==> r.error == AmbiguousTensor(name)
    ensures index.None? && r.Ok? ==> r.value == LookupTensor(name, "0", g)
  {
    if index.Some? then Ok(LookupTensor(name, index.value, g))
    else
      var tensor := LookupTensor(name, "0", g);
      if tensor.None? then Ok(tensor)
      else if LookupTensor(name, "1", g).Some? then Err(AmbiguousTensor(name))
      else Ok(tensor)
  }

  // ---------------------------------------------------------------------------
  // Join and Split are inverse to each other.

  lemma {:induction false} JoinCons(p: string, rest: seq<string>, sep: char)
    requires |rest| >= 1
    ensures Join([p] + rest, sep) == p + [sep] + Join(rest, sep)
  {
    assert ([p] + rest)[1..] == rest;
  }

  /** Splitting a separator-free prefix followed by a separator peels that prefix off. */
  lemma {:induction false} SplitAfterPart(a: string, t: string, sep: char)
    requires sep !in a
    ensures Split(a + [sep] + t, sep) == [a] + Split(t, sep)
  {
    if |a| == 0 {
      assert a + [sep] + t == [sep] + t;
      assert ([sep] + t)[1..] == t;
    } else {
      var s := a + [sep] + t;
      assert s[0] == a[0] && s[1..] == a[1..] + [sep] + t;
      SplitAfterPart(a[1..], t, sep);
      var rest := Split(s[1..], sep);
      assert rest[0] == a[1..] && rest[1..] == Split(t, sep);
      assert [a[0]] + a[1..] == a;
    }
  }

  /** A separator-free string splits into itself. */
  lemma {:induction false} SplitWhole(a: string, sep: char)
    requires sep !in a
    ensures Split(a, sep) == [a]
  {
    if |a| > 0 {
      SplitWhole(a[1..], sep);
      assert [a[0]] + a[1..] == a;
    }
  }

  /** Joining then splitting gives back the parts, when none contains the separator. */
  lemma {:induction false} SplitJoin(parts: seq<string>, sep: char)
    requires |parts| >= 1 && SeparatorFree(parts, sep)
    ensures Split(Join(parts, sep), sep) == parts
  {
    if |parts| == 1 {
      SplitWhole(parts[0], sep);
    } else {
      SplitJoin(parts[1..], sep);
      SplitAfterPart(parts[0], Join(parts[1..], sep), sep);
      assert [parts[0]] + parts[1..] == parts;
    }
  }

  /** Splitting then joining gives back the string, whatever it holds. */
  lemma {:induction false} JoinSplit(s: string, sep: char)
    ensures Join(Split(s, sep), sep) == s
  {
    if |s| > 0 {
      var rest := Split(s[1..], sep);
      JoinSplit(s[1..], sep);
      if s[0] == sep {
        JoinCons("", rest, sep);
      } else if |rest| == 1 {
        assert [s[0]] + s[1..] == s;
      } else {
        JoinCons([s[0]] + rest[0], rest[1..], sep);
        JoinCons(rest[0], rest[1..], sep);
        assert [rest[0]] + rest[1..] == rest;
        assert [s[0]] + s[1..] == s;
      }
    }
  }

  /** tensor_name of separator-free segments keeps every segment, in order. */
  lemma TensorNameSegments(subnames: seq<string>)
    requires |subnames| >= 1 && SeparatorFree(subnames, '/')
    ensures Split(TensorName(subnames), '/') == subnames
  {
    SplitJoin(subnames, '/');
  }

  /** Distinct colon-free (name, index) pairs have distinct addresses, so each
      lookup of get_tensor_by_name addresses one tensor only. */
  lemma AddressInjective(n1: string, i1: string, n2: string, i2: string)
    requires ':' !in n1 && ':' !in i1 && ':' !in n2 && ':' !in i2
    requires Address(n1, i1) == Address(n2, i2)
    ensures n1 == n2 && i1 == i2
  {
    assert SeparatorFree([n1, i1], ':') && SeparatorFree([n2, i2], ':');
    SplitJoin([n1, i1], ':');
    SplitJoin([n2, i2], ':');
  }

  // ---------------------------------------------------------------------------
  // get_tensor_by_name without an index.

  /** Without an index, a lookup that does not raise is the lookup of index "0". */
  lemma DefaultIndexIsZero(name: string, g: TensorMap)
    requires GetTensorByName(name, None, g).Ok?
    ensures GetTensorByName(name, None, g) == GetTensorByName(name, Some("0"), g)
  {
  }

  /** A missing "name:0" gives None, whether or not "name:1" exists. */
  lemma MissingZeroIsNotFound(name: string, g: TensorMap)
    requires Address(name, "0") !in g
    ensures GetTensorByName(name, None, g) == Ok(None)
  {
  }

  /** The index-less lookup raises exactly when both explicit lookups of "0" and "1" succeed. */
  lemma AmbiguousIffBothIndices(name: string, g: TensorMap)
    ensures GetTensorByName(name, None, g).Err? <==>
      (GetTensorByName(name, Some("0"), g).value.Some? &&
       GetTensorByName(name, Some("1"), g).value.Some?)
  {
  }
}
