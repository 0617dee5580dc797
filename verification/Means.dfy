/**
 * Comparing geometric means without roots or logarithms: of two hosts with factor products `p`, `q` over `m` and `n`
 * cells, the first has the smaller mean exactly when `p` to the `n` is below `q` to the `m`. This is the order by which
 * src/estimates.js ranks the hosts that may become the anchor.
 */
module Means {
  /** The product of some positive factors and how many there are. */
  datatype Factors = Factors(product: real, count: nat)

  type Mean = m: Factors | m.product > 0.0 && m.count > 0 witness Factors(1.0, 1)

  function Pow(x: real, n: nat): real { if n == 0 then 1.0 else x * Pow(x, n - 1) }

  /** The geometric mean of `a` is below that of `b`. */
  predicate Below(a: Mean, b: Mean) { Pow(a.product, b.count) < Pow(b.product, a.count) }

  lemma Times(a: real, b: real)
    requires a > 0.0 && b > 0.0
    ensures a * b > 0.0
  {}

  lemma TimesLess(a: real, b: real, c: real, d: real)
    requires 0.0 < a && 0.0 < b && a <= c && b <= d
    ensures a * b <= c * d && (a < c || b < d ==> a * b < c * d)
  {
    assert a * b <= c * b && c * b <= c * d;
  }

  lemma Regroup(a: real, b: real, c: real, d: real)
    ensures (a * b) * (c * d) == (a * c) * (b * d)
  {}

  lemma {:induction false} PowPositive(x: real, n: nat)
    requires x > 0.0
    ensures Pow(x, n) > 0.0
  {
    if n > 0 {
      PowPositive(x, n - 1);
      Times(x, Pow(x, n - 1));
    }
  }

  lemma {:induction false} PowMonotone(x: real, y: real, n: nat)
    requires 0.0 < x <= y
    ensures Pow(x, n) <= Pow(y, n) && (x < y && n > 0 ==> Pow(x, n) < Pow(y, n))
  {
    if n > 0 {
      PowMonotone(x, y, n - 1);
      PowPositive(x, n - 1);
      TimesLess(x, Pow(x, n - 1), y, Pow(y, n - 1));
    }
  }

  lemma {:induction false} PowOfProduct(x: real, y: real, n: nat)
    ensures Pow(x * y, n) == Pow(x, n) * Pow(y, n)
  {
    if n > 0 {
      PowOfProduct(x, y, n - 1);
      Regroup(x, y, Pow(x, n - 1), Pow(y, n - 1));
    }
  }

  /** Powers of powers commute. */
  lemma {:induction false} PowPow(x: real, m: nat, n: nat)
    ensures Pow(Pow(x, m), n) == Pow(Pow(x, n), m)
  {
    if m == 0 {
      OneToThe(n);
    } else {
      var p := Pow(x, m - 1);
      PowPow(x, m - 1, n);
      PowOfProduct(x, p, n);
      SamePow(Pow(x, m), x * p, n);
      assert Pow(Pow(x, n), m) == Pow(x, n) * Pow(Pow(x, n), m - 1);
    }
  }

  lemma SamePow(a: real, b: real, n: nat)
    requires a == b
    ensures Pow(a, n) == Pow(b, n)
  {}

  lemma {:induction false} OneToThe(n: nat)
    ensures Pow(1.0, n) == 1.0
  {
    if n > 0 { OneToThe(n - 1); }
  }

  /** Comparing `n`-th powers is comparing. */
  lemma PowCompares(x: real, y: real, n: nat)
    requires x > 0.0 && y > 0.0 && n > 0
    ensures Pow(x, n) < Pow(y, n) <==> x < y
  {
    if x < y { PowMonotone(x, y, n); } else { PowMonotone(y, x, n); }
  }

  /** Not above is transitive: compare both with the third after raising to its count. */
  lemma NotAboveTransitive(a: Mean, b: Mean, c: Mean)
    requires !Below(b, a) && !Below(c, b)
    ensures !Below(c, a) && (Below(a, b) || Below(b, c) ==> Below(a, c))
  {
    var x, y := Pow(a.product, b.count), Pow(b.product, a.count);
    var u, v := Pow(b.product, c.count), Pow(c.product, b.count);
    PowPositive(a.product, b.count);
    PowPositive(b.product, c.count);
    PowMonotone(x, y, c.count);
    PowMonotone(u, v, a.count);
    PowPow(a.product, b.count, c.count);
    PowPow(b.product, a.count, c.count);
    PowPow(c.product, b.count, a.count);
    PowPositive(a.product, c.count);
    PowPositive(c.product, a.count);
    PowCompares(Pow(a.product, c.count), Pow(c.product, a.count), b.count);
    PowCompares(Pow(c.product, a.count), Pow(a.product, c.count), b.count);
  }
}
