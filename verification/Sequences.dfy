/** The optional values and sequence operations that every component shares. */
module Options {
  datatype Option<+T> = None | Some(value: T)
}

module Sequences {

  /** The elements satisfying `p`, in order: a SQL WHERE clause over ordered rows. */
  function Filter<T>(xs: seq<T>, p: T -> bool): (ys: seq<T>)
    ensures |ys| <= |xs|
  {
    if xs == [] then [] else if p(xs[0]) then [xs[0]] + Filter(xs[1..], p) else Filter(xs[1..], p)
  }

  /** A SQL LIMIT clause. */
  function Take<T>(xs: seq<T>, n: nat): seq<T> {
    if n < |xs| then xs[..n] else xs
  }

  function Max(a: int, b: int): int {
    if a < b then b else a
  }

  function Min(a: int, b: int): int {
    if a < b then a else b
  }

  function Last<T>(xs: seq<T>): T
    requires xs != []
  {
    xs[|xs| - 1]
  }

  lemma {:induction false} FilterConcat<T>(xs: seq<T>, ys: seq<T>, p: T -> bool)
    ensures Filter(xs + ys, p) == Filter(xs, p) + Filter(ys, p)
  {
    if xs == [] {
      assert xs + ys == ys;
    } else {
      var rest := xs[1..];
      assert (xs + ys)[1..] == rest + ys;
      FilterConcat(rest, ys, p);
      assert [xs[0]] + (Filter(rest, p) + Filter(ys, p)) == ([xs[0]] + Filter(rest, p)) + Filter(ys, p);
    }
  }

  lemma FilterSnoc<T>(xs: seq<T>, x: T, p: T -> bool)
    ensures Filter(xs + [x], p) == if p(x) then Filter(xs, p) + [x] else Filter(xs, p)
  {
    FilterConcat(xs, [x], p);
    assert [x][1..] == [];
  }

  lemma {:induction false} FilterAll<T>(xs: seq<T>, p: T -> bool)
    requires forall x :: x in xs ==> p(x)
    ensures Filter(xs, p) == xs
  {
    if xs == [] {
    } else {
      FilterAll(xs[1..], p);
    }
  }

  lemma {:induction false} FilterNone<T>(xs: seq<T>, p: T -> bool)
    requires forall x :: x in xs ==> !p(x)
    ensures Filter(xs, p) == []
  {
    if xs == [] {
    } else {
      FilterNone(xs[1..], p);
    }
  }

  lemma {:induction false} FilterMember<T>(xs: seq<T>, p: T -> bool, x: T)
    ensures x in Filter(xs, p) <==> x in xs && p(x)
  {
    if xs == [] {
    } else {
      FilterMember(xs[1..], p, x);
    }
  }

  lemma FilterSound<T>(xs: seq<T>, p: T -> bool)
    ensures forall y :: y in Filter(xs, p) ==> p(y) && y in xs
  {
    forall y | y in Filter(xs, p)
      ensures p(y) && y in xs
    {
      FilterMember(xs, p, y);
    }
  }

  /** Filtering twice is filtering once by the conjunction. */
  lemma {:induction false} FilterFilter<T>(xs: seq<T>, p: T -> bool, q: T -> bool, both: T -> bool)
    requires forall x :: x in xs ==> (both(x) <==> p(x) && q(x))
    ensures Filter(Filter(xs, p), q) == Filter(xs, both)
  {
    if xs == [] {
    } else {
      var rest := Filter(xs[1..], p);
      FilterFilter(xs[1..], p, q, both);
      assert both(xs[0]) <==> p(xs[0]) && q(xs[0]);
      assert ([xs[0]] + rest)[1..] == rest;
    }
  }

  lemma {:induction false} FilterSame<T>(xs: seq<T>, p: T -> bool, q: T -> bool)
    requires forall x :: x in xs ==> (p(x) <==> q(x))
    ensures Filter(xs, p) == Filter(xs, q)
  {
    if xs == [] {
    } else {
      FilterSame(xs[1..], p, q);
    }
  }

  /** A filter keeps the order: two of its elements stand in the same order where they come from. */
  lemma {:induction false} FilterPositions<T>(s: seq<T>, p: T -> bool, i: nat, j: nat) returns (a: nat, b: nat)
    requires i < j < |Filter(s, p)|
    ensures a < b < |s| && s[a] == Filter(s, p)[i] && s[b] == Filter(s, p)[j]
  {
    var rest := Filter(s[1..], p);
    if !p(s[0]) {
      a, b := FilterPositions(s[1..], p, i, j);
      a, b := a + 1, b + 1;
    } else if i > 0 {
      a, b := FilterPositions(s[1..], p, i - 1, j - 1);
      a, b := a + 1, b + 1;
    } else {
      b := FilterPosition(s[1..], p, j - 1);
      a, b := 0, b + 1;
    }
  }

  lemma {:induction false} FilterPosition<T>(s: seq<T>, p: T -> bool, j: nat) returns (b: nat)
    requires j < |Filter(s, p)|
    ensures b < |s| && s[b] == Filter(s, p)[j]
  {
    if !p(s[0]) {
      b := FilterPosition(s[1..], p, j);
      b := b + 1;
    } else if j > 0 {
      b := FilterPosition(s[1..], p, j - 1);
      b := b + 1;
    } else {
      b := 0;
    }
  }

  lemma {:induction false} FilterDrops<T>(s: seq<T>, p: T -> bool, i: nat)
    requires i < |s| && !p(s[i])
    ensures |Filter(s, p)| < |s|
  {
    if i == 0 {
    } else {
      FilterDrops(s[1..], p, i - 1);
    }
  }
}
