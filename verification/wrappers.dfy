/** Failure-carrying datatypes shared by every module of the model: `Option` for
    Rust's `Option` and JavaScript's `null`/`undefined`, `Result` for Rust's
    `Result<T, String>` command returns. */
module Wrappers {

  datatype Option<+T> = None | Some(value: T)

  datatype Result<+T, +E> = Ok(value: T) | Err(error: E)

  /** The `Some` results of `f` over `xs`, in order: Rust's `filter_map`, or a
      loop that pushes only the items it can read. */
  function FilterMap<T, U>(xs: seq<T>, f: T -> Option<U>): (r: seq<U>)
    ensures |r| <= |xs|
  {
    if xs == [] then []
    else match f(xs[0])
      case None => FilterMap(xs[1..], f)
      case Some(y) => [y] + FilterMap(xs[1..], f)
  }

  /** Filtering a concatenation concatenates the filtered parts, so the kept
      items stay in their original order. */
  lemma {:induction false} FilterMapAppend<T, U>(a: seq<T>, b: seq<T>, f: T -> Option<U>)
    ensures FilterMap(a + b, f) == FilterMap(a, f) + FilterMap(b, f)
  {
    if a == [] {
      assert a + b == b;
    } else {
      assert (a + b)[0] == a[0];
      assert (a + b)[1..] == a[1..] + b;
      FilterMapAppend(a[1..], b, f);
    }
  }

  /** Nothing is kept when `f` reads none of the items. */
  lemma {:induction false} FilterMapNone<T, U>(xs: seq<T>, f: T -> Option<U>)
    requires forall i :: 0 <= i < |xs| ==> f(xs[i]).None?
    ensures FilterMap(xs, f) == []
  {
    if xs != [] {
      assert forall i :: 0 <= i < |xs| - 1 ==> xs[1..][i] == xs[i + 1];
      FilterMapNone(xs[1..], f);
    }
  }

  /** Everything is kept, position by position, when `f` reads every item. */
  lemma {:induction false} FilterMapAll<T, U>(xs: seq<T>, f: T -> Option<U>)
    requires forall i :: 0 <= i < |xs| ==> f(xs[i]).Some?
    ensures |FilterMap(xs, f)| == |xs|
    ensures forall i :: 0 <= i < |xs| ==> f(xs[i]) == Some(FilterMap(xs, f)[i])
  {
    if xs != [] {
      assert forall i :: 0 <= i < |xs| - 1 ==> xs[1..][i] == xs[i + 1];
      FilterMapAll(xs[1..], f);
    }
  }
}
