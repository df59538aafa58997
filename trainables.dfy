/** The graph's collection of trainable variables (GPflow/misc.py
    add_to_trainables, remove_from_trainables). The collection is a list the
    graph owns and the helpers update in place. */
module Trainables {
  import opened Errors

  /** `s` with `v` appended unless `v` is already a member. */
  function Added<V(==)>(s: seq<V>, v: V): (r: seq<V>)
    ensures v in r
    ensures multiset(r) == if v in s then multiset(s) else multiset(s) + multiset{v}
  {
    if v in s then s else s + [v]
  }

  /** Position of the first occurrence of `v` in `s`. */
  function FirstIndex<V(==)>(s: seq<V>, v: V): (i: nat)
    requires v in s
    ensures i < |s| && s[i] == v && v !in s[..i]
  {
    if s[0] == v then 0
    else
      assert v in s[1..];
      var j := FirstIndex(s[1..], v);
      assert s[..j + 1] == [s[0]] + s[1..][..j];
      j + 1
  }

  /** Python's list.remove for a member: the first occurrence of `v` deleted. */
  function RemovedFirst<V(==)>(s: seq<V>, v: V): (r: seq<V>)
    requires v in s
    ensures |r| == |s| - 1
    ensures forall k :: 0 <= k < |r| ==>
      r[k] == if k < FirstIndex(s, v) then s[k] else s[k + 1]
    ensures multiset(r) == multiset(s) - multiset{v}
  {
    var i := FirstIndex(s, v);
    assert s == s[..i] + [s[i]] + s[i + 1..];
    s[..i] + s[i + 1..]
  }

  /** Every element occurs at most once. */
  predicate Distinct<V(==)>(s: seq<V>)
  {
    forall i, j :: 0 <= i < j < |s| ==> s[i] != s[j]
  }

  /** A graph, as the collection helpers see it: its trainables collection. */
  class Graph<V(==)> {
    var trainables: seq<V>

    constructor (trainables: seq<V>)
      ensures this.trainables == trainables
    {
      this.trainables := trainables;
    }

    /** add_to_trainables: append `v` unless it is already in the collection. */
    method AddToTrainables(v: V)
      modifies this
      ensures v in trainables
      ensures v in old(trainables) ==> trainables == old(trainables)
      ensures v !in old(trainables) ==> trainables == old(trainables) + [v]
      ensures trainables == Added(old(trainables), v)
    {
      if v !in trainables {
        trainables := trainables + [v];
      }
    }

    /** remove_from_trainables: delete the first occurrence of `v`; raise
        GPflowError, changing nothing, when `v` is not in the collection. */
    method RemoveFromTrainables(v: V) returns (r: Outcome<Error>)
      modifies this
      ensures r.Fail? <==> v !in old(trainables)
      ensures r.Fail? ==> r.error == NotInTrainables && trainables == old(trainables)
      ensures r.Pass? ==> trainables == RemovedFirst(old(trainables), v)
    {
      if v !in trainables {
        return Fail(NotInTrainables);
      }
      var i := FirstIndex(trainables, v);
      trainables := trainables[..i] + trainables[i + 1..];
      r := Pass;
    }
  }

  // ---------------------------------------------------------------------------
  // Properties of the two updates.

  /** Adding twice is adding once. */
  lemma AddIdempotent<V>(s: seq<V>, v: V)
    ensures Added(Added(s, v), v) == Added(s, v)
  {
  }

  /** Adding twice a variable that was absent leaves exactly one instance of it. */
  lemma AddTwiceOneInstance<V>(s: seq<V>, v: V)
    requires v !in s
    ensures multiset(Added(Added(s, v), v))[v] == 1
  {
  }

  /** The collection never gains a duplicate through add_to_trainables. */
  lemma AddKeepsDistinct<V>(s: seq<V>, v: V)
    requires Distinct(s)
    ensures Distinct(Added(s, v))
  {
  }

  /** Removing a variable just added to a collection without it restores the collection. */
  lemma {:induction false} RemoveUndoesAdd<V>(s: seq<V>, v: V)
    requires v !in s
    ensures v in Added(s, v)
    ensures RemovedFirst(Added(s, v), v) == s
  {
    var t := Added(s, v);
    assert t == s + [v];
    assert t[..|s|] == s;
    assert FirstIndex(t, v) == |s|;
  }

  /** In a collection without duplicates, removal takes the variable out entirely. */
  lemma RemoveFromDistinct<V>(s: seq<V>, v: V)
    requires Distinct(s) && v in s
    ensures v !in RemovedFirst(s, v)
    ensures Distinct(RemovedFirst(s, v))
  {
    var r := RemovedFirst(s, v);
    var i := FirstIndex(s, v);
    forall k | 0 <= k < |r|
      ensures r[k] != v
    {
      if k >= i { assert s[k + 1] != s[i]; }
    }
    forall a, b | 0 <= a < b < |r|
      ensures r[a] != r[b]
    {
      var a' := if a < i then a else a + 1;
      var b' := if b < i then b else b + 1;
      assert r[a] == s[a'] && r[b] == s[b'] && a' < b';
    }
  }

  /** Removing then re-adding a member restores the collection's contents, with
      the variable moved to the end. */
  lemma ReAddAfterRemove<V>(s: seq<V>, v: V)
    requires Distinct(s) && v in s
    ensures v !in RemovedFirst(s, v)
    ensures Added(RemovedFirst(s, v), v) == RemovedFirst(s, v) + [v]
    ensures multiset(Added(RemovedFirst(s, v), v)) == multiset(s)
  {
    RemoveFromDistinct(s, v);
  }
}
