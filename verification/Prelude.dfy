/** Shared value types and the sequence vocabulary the other modules state their properties in. */
module Prelude {

  type Byte = b: int | 0 <= b < 0x100

  datatype Option<+T> = None | Some(value: T)

  datatype Result<+T, +E> = Ok(value: T) | Err(error: E)

  function Min(a: int, b: int): int {
    if a <= b then a else b
  }

  function Max(a: int, b: int): int {
    if a <= b then b else a
  }

  function RealMin(a: real, b: real): real {
    if a <= b then a else b
  }

  function RealMax(a: real, b: real): real {
    if a <= b then b else a
  }

  /** The elements of `xs` that satisfy `p`, in order. */
  function Filter<T>(p: T -> bool, xs: seq<T>): seq<T> {
    if xs == [] then [] else (if p(xs[0]) then [xs[0]] else []) + Filter(p, xs[1..])
  }

  lemma {:induction false} FilterMember<T>(p: T -> bool, xs: seq<T>, x: T)
    ensures x in Filter(p, xs) <==> x in xs && p(x)
    ensures |Filter(p, xs)| <= |xs|
  {
    if xs != [] {
      FilterMember(p, xs[1..], x);
      assert xs == [xs[0]] + xs[1..];
    }
  }

  lemma {:induction false} FilterConcat<T>(p: T -> bool, xs: seq<T>, ys: seq<T>)
    ensures Filter(p, xs + ys) == Filter(p, xs) + Filter(p, ys)
  {
    if xs == [] {
      assert xs + ys == ys;
    } else {
      FilterConcat(p, xs[1..], ys);
      assert (xs + ys)[1..] == xs[1..] + ys;
      assert (xs + ys)[0] == xs[0];
    }
  }

  lemma {:induction false} FilterAll<T>(xs: seq<T>)
    ensures Filter((x: T) => true, xs) == xs
  {
    if xs != [] {
      FilterAll(xs[1..]);
    }
  }

  lemma {:induction false} SameSelection<T>(p: T -> bool, q: T -> bool, xs: seq<T>)
    requires forall x :: x in xs ==> (p(x) <==> q(x))
    ensures Filter(p, xs) == Filter(q, xs)
  {
    if xs != [] {
      SameSelection(p, q, xs[1..]);
    }
  }

  /** Two disjoint selections that make up a third count together as it does. */
  lemma {:induction false} CountSplit<T>(p: T -> bool, q: T -> bool, whole: T -> bool, xs: seq<T>)
    requires forall x :: x in xs ==> (whole(x) <==> p(x) || q(x)) && !(p(x) && q(x))
    ensures |Filter(p, xs)| + |Filter(q, xs)| == |Filter(whole, xs)|
    ensures forall x :: x in Filter(whole, xs) <==> x in Filter(p, xs) || x in Filter(q, xs)
  {
    if xs != [] {
      assert xs == [xs[0]] + xs[1..];
      CountSplit(p, q, whole, xs[1..]);
    }
  }

  /** No element of `xs` occurs twice. */
  ghost predicate Distinct<T>(xs: seq<T>) {
    forall i, j :: 0 <= i < j < |xs| ==> xs[i] != xs[j]
  }

  ghost function Elements<T>(xs: seq<T>): set<T> {
    set x | x in xs
  }

  lemma {:induction false} DistinctCount<T>(xs: seq<T>)
    requires Distinct(xs)
    ensures |Elements(xs)| == |xs|
  {
    if xs != [] {
      DistinctCount(xs[1..]);
      assert Elements(xs) == {xs[0]} + Elements(xs[1..]);
    }
  }

  lemma {:induction false} SubsetCount<T>(a: set<T>, b: set<T>)
    requires a <= b
    ensures |a| <= |b|
  {
    assert b == a + (b - a);
  }

  function LowerChar(c: char): char {
    if 'A' <= c <= 'Z' then c + 32 as char else c
  }

  function Lower(s: string): (r: string)
    ensures |r| == |s|
    ensures forall i :: 0 <= i < |s| ==> r[i] == LowerChar(s[i])
  {
    seq(|s|, i requires 0 <= i < |s| => LowerChar(s[i]))
  }

  /** Two characters differ at most in case: they are one, or a capital and its small letter. */
  lemma {:induction false} CaseOnly(c: char, d: char)
    ensures LowerChar(c) == LowerChar(d) <==>
              || c == d
              || ('A' <= c <= 'Z' && d as int == c as int + 32)
              || ('A' <= d <= 'Z' && c as int == d as int + 32)
  {
  }

  /** Equal but for the case of ASCII letters. */
  predicate EqIgnoreCase(a: string, b: string) {
    Lower(a) == Lower(b)
  }
}
