/** Numbers as digit strings in any base, highest digit first. */
module Radix {
  import opened Arith

  predicate AreDigits(b: nat, ds: seq<nat>) {
    forall i :: 0 <= i < |ds| ==> ds[i] < b
  }

  function Value(b: nat, ds: seq<nat>): nat {
    if ds == [] then 0 else Product(Value(b, ds[..|ds| - 1]), b) + ds[|ds| - 1]
  }

  /** The shortest digit string of a number; zero has none. */
  function Digits(b: nat, n: nat): (ds: seq<nat>)
    requires 2 <= b
    ensures AreDigits(b, ds)
    ensures ds == [] || ds[0] != 0
    decreases n
  {
    if n == 0 then []
    else
      QuotientSmaller(n, b);
      Digits(b, n / b) + [n % b]
  }

  lemma QuotientSmaller(n: nat, b: nat)
    requires 0 < n && 2 <= b
    ensures n / b < n && (n < b ==> n / b == 0 && n % b == n)
    ensures n == Product(n / b, b) + n % b
  {
    var q, r := n / b, n % b;
    assert n == q * b + r;
    if n < b {
      ModOf(0, n, b);
    }
    MulMono(2, b, q);
    assert 2 * q <= b * q == q * b;
  }

  lemma {:induction false} ValueOfDigits(b: nat, n: nat)
    requires 2 <= b
    ensures Value(b, Digits(b, n)) == n
    decreases n
  {
    hide Product;
    if n != 0 {
      QuotientSmaller(n, b);
      ValueOfDigits(b, n / b);
      assert Digits(b, n)[..|Digits(b, n)| - 1] == Digits(b, n / b);
    }
  }

  lemma DigitSplit(q: nat, d: nat, b: nat)
    requires d < b
    ensures (Product(q, b) + d) / b == q && (Product(q, b) + d) % b == d
  {
    hide *;
    ProductIs(q, b);
    ModOf(q, d, b);
  }

  lemma ProductIs(q: nat, b: nat)
    ensures Product(q, b) == q * b
  {
  }

  lemma DigitsSnoc(b: nat, n: nat, d: nat)
    requires 2 <= b && d < b && (0 < n || 0 < d)
    ensures Digits(b, Product(n, b) + d) == Digits(b, n) + [d]
  {
    hide Product;
    DigitSplit(n, d, b);
    assert Product(n, b) + d != 0 by {
      ProductPositive(n, b);
    }
  }

  lemma ProductPositive(n: nat, b: nat)
    requires 0 < b
    ensures Product(n, b) == 0 <==> n == 0
  {
    if 0 < n { MulMono(1, n, b); }
  }

  /** A digit string without leading zero is the shortest one of its value. */
  lemma {:induction false} DigitsOfValue(b: nat, ds: seq<nat>)
    requires 2 <= b && AreDigits(b, ds) && (ds == [] || ds[0] != 0)
    ensures Digits(b, Value(b, ds)) == ds
    ensures Value(b, ds) == 0 <==> ds == []
    decreases |ds|
  {
    hide Product;
    if ds != [] {
      var front, last := ds[..|ds| - 1], ds[|ds| - 1];
      DigitsOfValue(b, front);
      ProductPositive(Value(b, front), b);
      DigitsSnoc(b, Value(b, front), last);
    }
  }

  lemma ValueSnoc(b: nat, ds: seq<nat>, d: nat)
    ensures Value(b, ds + [d]) == Product(Value(b, ds), b) + d
  {
    assert (ds + [d])[..|ds|] == ds;
  }

  /** Leading zeros do not count. */
  lemma {:induction false} ValueLeadingZeros(b: nat, z: seq<nat>, ds: seq<nat>)
    requires forall i :: 0 <= i < |z| ==> z[i] == 0
    ensures Value(b, z + ds) == Value(b, ds)
    decreases |z| + |ds|
  {
    if ds != [] {
      ValueLeadingZeros(b, z, ds[..|ds| - 1]);
      assert (z + ds)[..|z + ds| - 1] == z + ds[..|ds| - 1];
    } else if z != [] {
      ValueLeadingZeros(b, z[..|z| - 1], []);
      assert z + [] == z && z[..|z| - 1] + [] == z[..|z| - 1];
    } else {
      assert z + ds == [];
    }
  }

  /** A string of n digits in the smaller base stands for less than any number that needs more digits. */
  lemma {:induction false} DigitsBound(b: nat, n: nat, k: nat)
    requires 2 <= b && n < Power(b, k)
    ensures |Digits(b, n)| <= k
    decreases k
  {
    hide Product;
    if n != 0 && k != 0 {
      QuotientSmaller(n, b);
      QuotientBelow(n, b, Power(b, k - 1));
      DigitsBound(b, n / b, k - 1);
    }
  }

  function Power(b: nat, k: nat): nat {
    if k == 0 then 1 else Product(Power(b, k - 1), b)
  }

  lemma QuotientBelow(n: nat, b: nat, p: nat)
    requires 0 < b && n < Product(p, b)
    ensures n / b < p
  {
    assert n == n / b * b + n % b;
    if p <= n / b {
      MulMono(p, n / b, b);
    }
  }

  lemma {:induction false} ValueBound(b: nat, ds: seq<nat>)
    requires 0 < b && AreDigits(b, ds)
    ensures Value(b, ds) < Power(b, |ds|)
    decreases |ds|
  {
    hide Product;
    if ds != [] {
      ValueBound(b, ds[..|ds| - 1]);
      DigitBelow(Value(b, ds[..|ds| - 1]), ds[|ds| - 1], b, Power(b, |ds| - 1));
    }
  }

  lemma DigitBelow(q: nat, d: nat, b: nat, p: nat)
    requires q < p && d < b
    ensures Product(q, b) + d < Product(p, b)
  {
    MulMono(q + 1, p, b);
    assert (q + 1) * b == q * b + b;
  }

  lemma {:induction false} PowerAdd(b: nat, m: nat, n: nat)
    ensures Power(b, m + n) == Product(Power(b, m), Power(b, n))
    decreases n
  {
    if n == 0 {
      assert Power(b, m) * 1 == Power(b, m);
    } else {
      PowerAdd(b, m, n - 1);
      assert Power(b, m + n) == Power(b, m + (n - 1)) * b;
      assert Power(b, m) * Power(b, n - 1) * b == Power(b, m) * (Power(b, n - 1) * b);
    }
  }

  /** If i digits of one base never need more than j digits of another, neither do k times as many. */
  lemma {:induction false} PowerBlocks(a: nat, i: nat, b: nat, j: nat, k: nat)
    requires Power(a, i) <= Power(b, j)
    ensures Power(a, k * i) <= Power(b, k * j)
    decreases k
  {
    hide Power, Product;
    if k == 0 {
      PowerZero(a);
      PowerZero(b);
      assert k * i == 0 && k * j == 0;
    } else {
      PowerBlocks(a, i, b, j, k - 1);
      PowerAdd(a, (k - 1) * i, i);
      PowerAdd(b, (k - 1) * j, j);
      assert (k - 1) * i + i == k * i && (k - 1) * j + j == k * j;
      ProductMono(Power(a, (k - 1) * i), Power(b, (k - 1) * j), Power(a, i), Power(b, j));
    }
  }

  lemma PowerZero(b: nat)
    ensures Power(b, 0) == 1
  {
  }

  lemma ProductMono(p: nat, q: nat, x: nat, y: nat)
    requires p <= q && x <= y
    ensures Product(p, x) <= Product(q, y)
  {
    MulMono(p, q, x);
    MulMono(x, y, q);
    assert q * x == x * q && q * y == y * q;
  }
}
