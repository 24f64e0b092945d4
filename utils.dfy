/** Model of src/utils.rs: `iter_some`, the floating-point helpers being out of scope. */
module Utils {
  import opened Wrappers

  /** The positions of `v` that hold a value. */
  function SomePositions<T>(v: seq<Option<T>>, from: nat): (s: set<nat>)
    ensures forall j :: j in s <==> from <= j < |v| && v[j].Some?
  {
    set j: nat | from <= j < |v| && v[j].Some?
  }

  /** `iter_some(v)` from position `from` on: `enumerate` followed by `filter_map`,
      i.e. the pairs (i, item) for every i >= from with v[i] == Some(item), in index order. */
  function IterSomeFrom<T>(v: seq<Option<T>>, from: nat): (r: seq<(nat, T)>)
    requires from <= |v|
    ensures |r| <= |v| - from
    ensures forall k :: 0 <= k < |r| ==> from <= r[k].0 < |v| && v[r[k].0] == Some(r[k].1)
    ensures forall k, l :: 0 <= k < l < |r| ==> r[k].0 < r[l].0
    decreases |v| - from
  {
    if from == |v| then []
    else
      var rest := IterSomeFrom(v, from + 1);
      match v[from]
      case Some(item) => [(from, item)] + rest
      case None => rest
  }

  /** `iter_some(v)`: every yielded pair names a Some position and its contents, and the
      positions strictly increase. */
  function IterSome<T>(v: seq<Option<T>>): (r: seq<(nat, T)>)
    ensures forall k :: 0 <= k < |r| ==> r[k].0 < |v| && v[r[k].0] == Some(r[k].1)
    ensures forall k, l :: 0 <= k < l < |r| ==> r[k].0 < r[l].0
  {
    IterSomeFrom(v, 0)
  }

  /** Every Some position from `from` on is yielded (and, the positions being strictly
      increasing, exactly once). */
  lemma {:induction false} IterSomeFromComplete<T>(v: seq<Option<T>>, from: nat, j: nat)
    requires from <= j < |v| && v[j].Some?
    ensures exists k :: 0 <= k < |IterSomeFrom(v, from)| && IterSomeFrom(v, from)[k] == (j, v[j].value)
    decreases j - from
  {
    var r := IterSomeFrom(v, from);
    if j == from {
      assert r[0] == (j, v[j].value);
    } else {
      IterSomeFromComplete(v, from + 1, j);
      var rest := IterSomeFrom(v, from + 1);
      var k :| 0 <= k < |rest| && rest[k] == (j, v[j].value);
      if v[from].Some? {
        assert r[k + 1] == rest[k];
      } else {
        assert r[k] == rest[k];
      }
    }
  }

  lemma IterSomeComplete<T>(v: seq<Option<T>>, j: nat)
    requires j < |v| && v[j].Some?
    ensures exists k :: 0 <= k < |IterSome(v)| && IterSome(v)[k] == (j, v[j].value)
  {
    IterSomeFromComplete(v, 0, j);
    assert IterSome(v) == IterSomeFrom(v, 0);
  }

  /** The number of yielded pairs is the number of Some entries. */
  lemma {:induction false} IterSomeFromCount<T>(v: seq<Option<T>>, from: nat)
    requires from <= |v|
    ensures |IterSomeFrom(v, from)| == |SomePositions(v, from)|
    decreases |v| - from
  {
    if from == |v| {
      assert SomePositions(v, from) == {};
    } else {
      IterSomeFromCount(v, from + 1);
      if v[from].Some? {
        assert SomePositions(v, from) == {from} + SomePositions(v, from + 1);
      } else {
        assert SomePositions(v, from) == SomePositions(v, from + 1);
      }
    }
  }

  lemma IterSomeCount<T>(v: seq<Option<T>>)
    ensures |IterSome(v)| == |SomePositions(v, 0)|
  {
    IterSomeFromCount(v, 0);
    assert IterSome(v) == IterSomeFrom(v, 0);
  }

  /** The items alone, as `iter().flatten()` yields them. */
  function Somes<T>(v: seq<Option<T>>): (r: seq<T>)
    ensures |r| == |IterSome(v)|
    ensures forall k :: 0 <= k < |r| ==> r[k] == IterSome(v)[k].1
  {
    var pairs := IterSome(v);
    seq(|pairs|, k requires 0 <= k < |pairs| => pairs[k].1)
  }

  /** No value in `v`, nothing yielded. */
  lemma SomesEmpty<T>(v: seq<Option<T>>)
    ensures Somes(v) == [] <==> forall j :: 0 <= j < |v| ==> v[j].None?
  {
    if Somes(v) == [] {
      forall j | 0 <= j < |v| ensures v[j].None? {
        if v[j].Some? { IterSomeComplete(v, j); }
      }
    } else {
      var r := IterSome(v);
      assert v[r[0].0].Some?;
    }
  }
}
