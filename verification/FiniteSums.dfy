/** Finite sums of natural numbers over sets, and cardinalities of unions and images. */
module FiniteSums {

  ghost function SumOver<T>(s: set<T>, f: T -> nat): nat
  {
    if s == {} then 0 else
      var x :| x in s;
      f(x) + SumOver(s - {x}, f)
  }

  /** The element that is split off does not matter. */
  lemma {:induction false} SumRemove<T>(s: set<T>, f: T -> nat, x: T)
    requires x in s
    ensures SumOver(s, f) == f(x) + SumOver(s - {x}, f)
  {
    var y :| y in s && SumOver(s, f) == f(y) + SumOver(s - {y}, f);
    if y != x {
      SumRemove(s - {y}, f, x);
      SumRemove(s - {x}, f, y);
      assert s - {y} - {x} == s - {x} - {y};
    }
  }

  lemma {:induction false} SumAdd<T>(s: set<T>, f: T -> nat, x: T)
    requires x !in s
    ensures SumOver(s + {x}, f) == SumOver(s, f) + f(x)
  {
    SumRemove(s + {x}, f, x);
    assert s + {x} - {x} == s;
  }

  lemma {:induction false} SumCongruent<T>(s: set<T>, f: T -> nat, g: T -> nat)
    requires forall x :: x in s ==> f(x) == g(x)
    ensures SumOver(s, f) == SumOver(s, g)
  {
    if s != {} {
      var x :| x in s;
      SumRemove(s, f, x);
      SumRemove(s, g, x);
      SumCongruent(s - {x}, f, g);
    }
  }

  /** Terms outside a subset that are all zero do not count. */
  lemma {:induction false} SumSupport<T>(s: set<T>, t: set<T>, f: T -> nat)
    requires s <= t
    requires forall x :: x in t - s ==> f(x) == 0
    ensures SumOver(s, f) == SumOver(t, f)
  {
    if t - s != {} {
      var x :| x in t - s;
      SumRemove(t, f, x);
      SumSupport(s, t - {x}, f);
    } else {
      assert t == s + (t - s) == s;
    }
  }

  lemma {:induction false} SumSubset<T>(s: set<T>, t: set<T>, f: T -> nat)
    requires s <= t
    ensures SumOver(s, f) <= SumOver(t, f)
  {
    if t - s != {} {
      var x :| x in t - s;
      SumRemove(t, f, x);
      SumSubset(s, t - {x}, f);
    } else {
      assert t == s + (t - s) == s;
    }
  }

  /** Multiplication behind a name, so that only these lemmas meet nonlinear arithmetic. */
  function Times(a: nat, b: nat): nat {
    a * b
  }

  lemma TimesSum(a: nat, b: nat, c: nat)
    ensures Times(a, b + c) == Times(a, b) + Times(a, c)
    ensures Times(b + c, a) == Times(b, a) + Times(c, a)
  {
  }

  lemma DisjointSize<T>(a: set<T>, b: set<T>)
    requires a !! b
    ensures |a + b| == |a| + |b|
  {
  }

  lemma SubsetSize<T>(a: set<T>, b: set<T>)
    requires a <= b
    ensures |a| <= |b|
  {
    assert b == a + (b - a);
    DisjointSize(a, b - a);
  }

  /** A loop over a set: what has been visited once `x` is taken off the list. */
  lemma Visit<T>(all: set<T>, todo: set<T>, x: T)
    requires todo <= all && x in todo
    ensures todo - {x} <= all && x !in all - todo
    ensures all - (todo - {x}) == (all - todo) + {x}
  {
  }
}
