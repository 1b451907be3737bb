/**
 * The accept/reject-and-count loop shared by `fetchOpens` and
 * `fetchNhiStores`, and the order-keeping filter `fetchOldStores` applies:
 * each row either yields one record, in input order, or is counted.
 */
module Batch {
  import opened Options

  /** The records `f` accepts, in input order (the loop's `push`). */
  function FilterMap<T, U>(f: T -> Option<U>, xs: seq<T>): (r: seq<U>)
    ensures |r| <= |xs|
  {
    if xs == [] then []
    else
      var init := FilterMap(f, xs[..|xs| - 1]);
      match f(xs[|xs| - 1])
      case Some(v) => init + [v]
      case None => init
  }

  /** The number of rows `f` rejects (the loop's `errCnt`). */
  function Rejected<T, U>(f: T -> Option<U>, xs: seq<T>): nat
  {
    if xs == [] then 0
    else Rejected(f, xs[..|xs| - 1]) + (if f(xs[|xs| - 1]).None? then 1 else 0)
  }

  /** The positions of the accepted rows, increasing. */
  function AcceptedIndices<T, U>(f: T -> Option<U>, xs: seq<T>): (idx: seq<nat>)
    ensures forall j :: 0 <= j < |idx| ==> idx[j] < |xs| && f(xs[idx[j]]).Some?
    ensures forall j, k :: 0 <= j < k < |idx| ==> idx[j] < idx[k]
    ensures forall i :: 0 <= i < |xs| && f(xs[i]).Some? ==> i in idx
  {
    if xs == [] then []
    else
      var init := AcceptedIndices(f, xs[..|xs| - 1]);
      if f(xs[|xs| - 1]).Some? then init + [|xs| - 1] else init
  }

  /**
   * The output is exactly the images of the accepted rows, in the order of
   * their positions, and every row is either in the output or counted.
   */
  lemma {:induction false} FilterMapSpec<T, U>(f: T -> Option<U>, xs: seq<T>)
    ensures |FilterMap(f, xs)| + Rejected(f, xs) == |xs|
    ensures |FilterMap(f, xs)| == |AcceptedIndices(f, xs)|
    ensures forall j :: 0 <= j < |FilterMap(f, xs)| ==>
              f(xs[AcceptedIndices(f, xs)[j]]) == Some(FilterMap(f, xs)[j])
  {
    if xs != [] {
      var init := xs[..|xs| - 1];
      FilterMapSpec(f, init);
      assert forall i :: 0 <= i < |init| ==> init[i] == xs[i];
    }
  }

  /** A value is in the output exactly when some row is accepted as that value. */
  lemma FilterMapMembers<T, U>(f: T -> Option<U>, xs: seq<T>, v: U)
    ensures v in FilterMap(f, xs) <==> exists i :: 0 <= i < |xs| && f(xs[i]) == Some(v)
  {
    FilterMapSpec(f, xs);
    var out, idx := FilterMap(f, xs), AcceptedIndices(f, xs);
    if v in out {
      var j :| 0 <= j < |out| && out[j] == v;
      assert f(xs[idx[j]]) == Some(v);
    }
    if i :| 0 <= i < |xs| && f(xs[i]) == Some(v) {
      var j :| 0 <= j < |idx| && idx[j] == i;
      assert out[j] == v;
    }
  }

  /**
   * The loop itself: one pass over the rows, pushing each accepted record
   * and counting each rejected row, so that output and count always
   * account for every row seen so far.
   */
  method RunBatch<T, U>(f: T -> Option<U>, rows: seq<T>) returns (out: seq<U>, errCnt: nat)
    ensures out == FilterMap(f, rows)
    ensures errCnt == Rejected(f, rows)
    ensures |out| + errCnt == |rows|
  {
    out, errCnt := [], 0;
    var i := 0;
    while i < |rows|
      invariant 0 <= i <= |rows|
      invariant out == FilterMap(f, rows[..i])
      invariant errCnt == Rejected(f, rows[..i])
    {
      assert rows[..i + 1][..i] == rows[..i];
      var r := f(rows[i]);
      if r.Some? {
        out := out + [r.value];
      } else {
        errCnt := errCnt + 1;
      }
      i := i + 1;
    }
    assert rows[..i] == rows;
    FilterMapSpec(f, rows);
  }

  /** Every output record is the image of some row. */
  lemma FilterMapImages<T, U>(f: T -> Option<U>, xs: seq<T>)
    ensures forall j :: 0 <= j < |FilterMap(f, xs)| ==>
              exists i :: 0 <= i < |xs| && f(xs[i]) == Some(FilterMap(f, xs)[j])
  {
    FilterMapSpec(f, xs);
    var idx := AcceptedIndices(f, xs);
    forall j | 0 <= j < |FilterMap(f, xs)|
      ensures exists i :: 0 <= i < |xs| && f(xs[i]) == Some(FilterMap(f, xs)[j])
    {
      assert f(xs[idx[j]]) == Some(FilterMap(f, xs)[j]);
    }
  }

  /** When `f` accepts every row as itself, the filter is the identity. */
  lemma {:induction false} FilterMapKeepsAll<T>(f: T -> Option<T>, xs: seq<T>)
    requires forall i :: 0 <= i < |xs| ==> f(xs[i]) == Some(xs[i])
    ensures FilterMap(f, xs) == xs
  {
    if xs != [] {
      FilterMapKeepsAll(f, xs[..|xs| - 1]);
    }
  }
}
