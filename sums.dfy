/** Sums of real-valued terms over a finite set of keys.

    JavaScript's `for...in` and `forEach` over an object visit its keys in an
    order fixed by the engine; over the reals addition is commutative, so the
    model sums over the key SET and proves that the choice of order does not
    matter (SumRemove). */
module Sums {

  /** Some element of a non-empty set; which one is irrelevant (see SumRemove). */
  ghost function Pick(s: set<string>): (k: string)
    requires s != {}
    ensures k in s
  {
    var k :| k in s; k
  }

  /** The sum of f over the keys in s. */
  ghost function Sum(s: set<string>, f: string -> real): real
    decreases s
  {
    if s == {} then 0.0 else var k := Pick(s); f(k) + Sum(s - {k}, f)
  }

  /** Any element may be taken out first: the sum does not depend on the order. */
  lemma {:induction false} SumRemove(s: set<string>, f: string -> real, k: string)
    requires k in s
    ensures Sum(s, f) == f(k) + Sum(s - {k}, f)
    decreases s
  {
    var p := Pick(s);
    if p != k {
      SumRemove(s - {p}, f, k);
      SumRemove(s - {k}, f, p);
      assert s - {p} - {k} == s - {k} - {p};
    }
  }

  lemma SumInsert(s: set<string>, f: string -> real, k: string)
    requires k !in s
    ensures Sum(s + {k}, f) == Sum(s, f) + f(k)
  {
    SumRemove(s + {k}, f, k);
    assert s + {k} - {k} == s;
  }

  /** Terms that agree on s have the same sum over s. */
  lemma {:induction false} SumCongruent(s: set<string>, f: string -> real, g: string -> real)
    requires forall k :: k in s ==> f(k) == g(k)
    ensures Sum(s, f) == Sum(s, g)
    decreases s
  {
    if s != {} {
      var p := Pick(s);
      SumCongruent(s - {p}, f, g);
    }
  }

  /** Keys outside t contribute nothing when f vanishes there. */
  lemma {:induction false} SumRestrict(s: set<string>, t: set<string>, f: string -> real)
    requires forall k :: k in s && k !in t ==> f(k) == 0.0
    ensures Sum(s, f) == Sum(s * t, f)
    decreases s
  {
    if s != {} {
      var p := Pick(s);
      SumRestrict(s - {p}, t, f);
      assert (s - {p}) * t == s * t - {p};
      if p in t {
        SumRemove(s * t, f, p);
      } else {
        assert s * t - {p} == s * t;
      }
    }
  }

  /** Scaling every term scales the sum. */
  lemma {:induction false} SumScale(s: set<string>, f: string -> real, g: string -> real, c: real)
    requires forall k :: k in s ==> g(k) == c * f(k)
    ensures Sum(s, g) == c * Sum(s, f)
    decreases s
  {
    if s != {} {
      var p := Pick(s);
      SumScale(s - {p}, f, g, c);
    }
  }

  /** Dividing every term by the total gives shares that add up to 1. */
  lemma SumShares(s: set<string>, f: string -> real, g: string -> real, total: real)
    requires total > 0.0 && Sum(s, f) == total
    requires forall k :: k in s ==> g(k) == f(k) / total
    ensures Sum(s, g) == 1.0
  {
    var c := 1.0 / total;
    forall k | k in s ensures g(k) == c * f(k) {
      DivideAsScale(f(k), total);
    }
    SumScale(s, f, g, c);
    InverseTimes(total, Sum(s, f));
  }

  lemma DivideAsScale(x: real, n: real)
    requires n > 0.0
    ensures x / n == (1.0 / n) * x
  {
  }

  lemma InverseTimes(n: real, x: real)
    requires n > 0.0 && x == n
    ensures (1.0 / n) * x == 1.0
  {
  }

  /** The sum of two term functions is the sum of their sums. */
  lemma {:induction false} SumAdd(s: set<string>, f: string -> real, g: string -> real, h: string -> real)
    requires forall k :: k in s ==> h(k) == f(k) + g(k)
    ensures Sum(s, h) == Sum(s, f) + Sum(s, g)
    decreases s
  {
    if s != {} {
      var p := Pick(s);
      SumAdd(s - {p}, f, g, h);
    }
  }

  /** A term that is 1 at one key of s and 0 elsewhere sums to 1. */
  lemma {:induction false} SumIndicator(s: set<string>, f: string -> real, x: string)
    requires x in s
    requires forall k :: k in s ==> f(k) == if k == x then 1.0 else 0.0
    ensures Sum(s, f) == 1.0
  {
    SumRemove(s, f, x);
    SumZero(s - {x}, f);
  }

  lemma {:induction false} SumZero(s: set<string>, f: string -> real)
    requires forall k :: k in s ==> f(k) == 0.0
    ensures Sum(s, f) == 0.0
    decreases s
  {
    if s != {} {
      var p := Pick(s);
      SumZero(s - {p}, f);
    }
  }

  /** Non-negative terms have a non-negative sum, and a positive one if some term is positive. */
  lemma {:induction false} SumNonNegative(s: set<string>, f: string -> real)
    requires forall k :: k in s ==> f(k) >= 0.0
    ensures Sum(s, f) >= 0.0
    ensures (exists k :: k in s && f(k) > 0.0) ==> Sum(s, f) > 0.0
    decreases s
  {
    if s != {} {
      var p := Pick(s);
      SumNonNegative(s - {p}, f);
      if exists k :: k in s && f(k) > 0.0 {
        var k :| k in s && f(k) > 0.0;
        if k != p {
          assert k in s - {p};
        }
      }
    }
  }
}
