/** Stock datatypes and the few facts every module needs. */
module Prelude {

  datatype Option<+T> = None | Some(value: T)

  function Max(a: int, b: int): int {
    if a < b then b else a
  }

  function Min(a: int, b: int): int {
    if a < b then a else b
  }

  lemma SubsetSize<T>(a: set<T>, b: set<T>)
    requires a <= b
    ensures |a| <= |b|
  {
    assert b == a + (b - a);
  }

  lemma DisjointSize<T>(a: set<T>, b: set<T>)
    requires a !! b
    ensures |a + b| == |a| + |b|
  {
  }

  /** Numbers written as quotient and remainder lie in order of their quotients. */
  lemma QuotientGap(x: nat, d: nat, y: nat, width: nat)
    requires d < width
    ensures x < y ==> x * width + d < y * width
  {
    if x < y { assert (x + 1) * width <= y * width; }
  }

  ghost function MaxOf(s: set<nat>): (m: nat)
    requires s != {}
    ensures m in s && forall x :: x in s ==> x <= m
    decreases |s|
  {
    var x :| x in s;
    var rest := s - {x};
    assert s == rest + {x};
    if rest == {} then x else var m := MaxOf(rest); if m < x then x else m
  }

  ghost function MinOf(s: set<nat>): (m: nat)
    requires s != {}
    ensures m in s && forall x :: x in s ==> m <= x
    decreases |s|
  {
    var x :| x in s;
    var rest := s - {x};
    assert s == rest + {x};
    if rest == {} then x else var m := MinOf(rest); if x < m then x else m
  }

  method LargestOf(s: set<nat>) returns (m: nat)
    requires s != {}
    ensures m == MaxOf(s)
  {
    m :| m in s;
    var rest := s - {m};
    while rest != {}
      invariant rest <= s && m in s
      invariant forall x :: x in s && x !in rest ==> x <= m
      decreases |rest|
    {
      var x :| x in rest;
      if m < x { m := x; }
      rest := rest - {x};
    }
  }

  method LeastOf(s: set<nat>) returns (m: nat)
    requires s != {}
    ensures m == MinOf(s)
  {
    m :| m in s;
    var rest := s - {m};
    while rest != {}
      invariant rest <= s && m in s
      invariant forall x :: x in s && x !in rest ==> m <= x
      decreases |rest|
    {
      var x :| x in rest;
      if x < m { m := x; }
      rest := rest - {x};
    }
  }
}
