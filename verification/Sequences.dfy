/** List comprehensions: the elements of a list that satisfy a condition, in order. */
module Sequences {

  function Filter<T>(f: T -> bool, xs: seq<T>): (r: seq<T>)
    ensures forall i | 0 <= i < |r| :: r[i] in xs && f(r[i])
  {
    if xs == [] then []
    else
      var n := |xs| - 1;
      Filter(f, xs[..n]) + if f(xs[n]) then [xs[n]] else []
  }

  lemma FilterSnoc<T>(f: T -> bool, xs: seq<T>, x: T)
    ensures Filter(f, xs + [x]) == Filter(f, xs) + if f(x) then [x] else []
  {
    assert (xs + [x])[..|xs|] == xs;
  }

  lemma {:induction false} FilterAppend<T>(f: T -> bool, xs: seq<T>, ys: seq<T>)
    ensures Filter(f, xs + ys) == Filter(f, xs) + Filter(f, ys)
  {
    if ys == [] {
      assert xs + ys == xs;
    } else {
      var n := |ys| - 1;
      FilterAppend(f, xs, ys[..n]);
      Snoc(ys);
      Associative(xs, ys[..n], [ys[n]]);
      FilterSnoc(f, xs + ys[..n], ys[n]);
      FilterSnoc(f, ys[..n], ys[n]);
      Associative(Filter(f, xs), Filter(f, ys[..n]), if f(ys[n]) then [ys[n]] else []);
    }
  }

  lemma {:induction false} FilterFinds<T>(f: T -> bool, xs: seq<T>, i: nat)
    requires i < |xs| && f(xs[i])
    ensures xs[i] in Filter(f, xs)
  {
    var n := |xs| - 1;
    if i < n {
      FilterFinds(f, xs[..n], i);
    }
  }

  lemma {:induction false} FilterNone<T>(f: T -> bool, xs: seq<T>)
    requires forall i | 0 <= i < |xs| :: !f(xs[i])
    ensures Filter(f, xs) == []
  {
    if xs != [] {
      FilterNone(f, xs[..|xs| - 1]);
    }
  }

  /** A comprehension with exactly one element comes from exactly one position. */
  lemma {:induction false} FilterSingle<T>(f: T -> bool, xs: seq<T>) returns (i: nat)
    requires |Filter(f, xs)| == 1
    ensures i < |xs| && Filter(f, xs) == [xs[i]] && forall j | 0 <= j < |xs| :: f(xs[j]) <==> j == i
  {
    var n := |xs| - 1;
    if f(xs[n]) {
      i := n;
      forall j | 0 <= j < n ensures !f(xs[j]) {
        if f(xs[j]) { FilterFinds(f, xs[..n], j); }
      }
    } else {
      i := FilterSingle(f, xs[..n]);
      assert forall j | 0 <= j < n :: xs[..n][j] == xs[j];
    }
  }

  lemma {:induction false} FilterOne<T>(f: T -> bool, xs: seq<T>, i: nat)
    requires i < |xs| && forall j | 0 <= j < |xs| :: f(xs[j]) <==> j == i
    ensures Filter(f, xs) == [xs[i]]
  {
    var n := |xs| - 1;
    if i == n {
      FilterNone(f, xs[..n]);
    } else {
      FilterOne(f, xs[..n], i);
    }
  }

  lemma MultisetMiddle<T>(u: seq<T>, x: T, v: seq<T>)
    ensures multiset(u + [x] + v) == multiset(u + v) + multiset{x}
  {
  }

  lemma MultisetCancel<T>(a: multiset<T>, b: multiset<T>, x: T)
    requires a + multiset{x} == b + multiset{x}
    ensures a == b
  {
    assert a == a + multiset{x} - multiset{x} == b + multiset{x} - multiset{x} == b;
  }

  /** Taking out of ys the last element of a list with the same elements. */
  lemma TakeOut<T>(xs: seq<T>, ys: seq<T>) returns (u: seq<T>, v: seq<T>)
    requires xs != [] && multiset(xs) == multiset(ys)
    ensures ys == u + [xs[|xs| - 1]] + v && multiset(xs[..|xs| - 1]) == multiset(u + v)
  {
    var n := |xs| - 1;
    var x := xs[n];
    assert xs == xs[..n] + [x] + [] && xs[..n] == xs[..n] + [];
    MultisetMiddle(xs[..n], x, []);
    assert x in multiset(ys);
    var k :| 0 <= k < |ys| && ys[k] == x;
    u, v := ys[..k], ys[k + 1..];
    assert ys == u + [x] + v;
    MultisetMiddle(u, x, v);
    MultisetCancel(multiset(xs[..n]), multiset(u + v), x);
  }

  lemma Snoc<T>(xs: seq<T>)
    requires xs != []
    ensures xs == xs[..|xs| - 1] + [xs[|xs| - 1]]
  {
  }

  lemma Associative<T>(xs: seq<T>, ys: seq<T>, zs: seq<T>)
    ensures xs + (ys + zs) == xs + ys + zs
  {
  }
}
