/**
 The stable sort the program relies on, as insertion: sorted, a permutation, and equal elements keep
 their order.
 */
module StableSort {
  import opened Prelude

  /** Among the elements of `xs`, `le` is total and transitive: all that a sort of `xs` needs of it. */
  ghost predicate TotalPreorder<T>(le: (T, T) -> bool, xs: seq<T>) {
    && (forall x, y :: x in xs && y in xs ==> le(x, y) || le(y, x))
    && (forall x, y, z :: x in xs && y in xs && z in xs && le(x, y) && le(y, z) ==> le(x, z))
  }

  ghost predicate SortedBy<T>(le: (T, T) -> bool, xs: seq<T>) {
    forall i, j :: 0 <= i < j < |xs| ==> le(xs[i], xs[j])
  }

  /** `x`, which came before every element of `ys`, put in front of the first one it does not exceed. */
  function Insert<T>(le: (T, T) -> bool, x: T, ys: seq<T>): seq<T> {
    if ys == [] || le(x, ys[0]) then [x] + ys else [ys[0]] + Insert(le, x, ys[1..])
  }

  function Sort<T>(le: (T, T) -> bool, xs: seq<T>): seq<T> {
    if xs == [] then [] else Insert(le, xs[0], Sort(le, xs[1..]))
  }

  lemma {:induction false} InsertPermutes<T>(le: (T, T) -> bool, x: T, ys: seq<T>)
    ensures multiset(Insert(le, x, ys)) == multiset{x} + multiset(ys)
    ensures |Insert(le, x, ys)| == |ys| + 1
  {
    if ys == [] || le(x, ys[0]) {
    } else {
      InsertPermutes(le, x, ys[1..]);
      assert ys == [ys[0]] + ys[1..];
    }
  }

  lemma {:induction false} InsertSorts<T>(le: (T, T) -> bool, x: T, ys: seq<T>)
    requires TotalPreorder(le, [x] + ys) && SortedBy(le, ys)
    ensures SortedBy(le, Insert(le, x, ys))
  {
    assert x in [x] + ys && forall y :: y in ys ==> y in [x] + ys;
    if ys == [] || le(x, ys[0]) {
    } else {
      var rest := Insert(le, x, ys[1..]);
      assert forall y :: y in [x] + ys[1..] ==> y in [x] + ys;
      InsertSorts(le, x, ys[1..]);
      InsertPermutes(le, x, ys[1..]);
      forall j | 0 <= j < |rest| ensures le(ys[0], rest[j]) {
        assert rest[j] in multiset(rest);
        assert rest[j] == x || rest[j] in ys[1..];
      }
    }
  }

  /** The sort returns the same elements, in order. */
  lemma {:induction false} SortSorts<T>(le: (T, T) -> bool, xs: seq<T>)
    requires TotalPreorder(le, xs)
    ensures SortedBy(le, Sort(le, xs))
    ensures multiset(Sort(le, xs)) == multiset(xs)
    ensures |Sort(le, xs)| == |xs|
  {
    if xs != [] {
      var rest := Sort(le, xs[1..]);
      assert xs == [xs[0]] + xs[1..];
      SortSorts(le, xs[1..]);
      forall y | y in [xs[0]] + rest ensures y in xs {
        assert y == xs[0] || y in multiset(rest);
      }
      InsertSorts(le, xs[0], rest);
      InsertPermutes(le, xs[0], rest);
    }
  }

  lemma {:induction false} InsertStable<T(!new)>(le: (T, T) -> bool, p: T -> bool, x: T, ys: seq<T>)
    requires forall a, b :: p(a) && p(b) ==> le(a, b)
    ensures Filter(p, Insert(le, x, ys)) == Filter(p, [x] + ys)
  {
    if ys == [] || le(x, ys[0]) {
    } else {
      var rest := Insert(le, x, ys[1..]);
      InsertStable(le, p, x, ys[1..]);
      assert ([ys[0]] + rest)[1..] == rest;
      assert ([x] + ys)[1..] == ys && ([x] + ys[1..])[1..] == ys[1..];
    }
  }

  /** Stability: any class of mutually equal elements comes out in the order it went in. */
  lemma {:induction false} SortStable<T(!new)>(le: (T, T) -> bool, p: T -> bool, xs: seq<T>)
    requires forall a, b :: p(a) && p(b) ==> le(a, b)
    ensures Filter(p, Sort(le, xs)) == Filter(p, xs)
  {
    if xs != [] {
      SortStable(le, p, xs[1..]);
      InsertStable(le, p, xs[0], Sort(le, xs[1..]));
      assert ([xs[0]] + Sort(le, xs[1..]))[1..] == Sort(le, xs[1..]);
    }
  }
}
