/** Arithmetic facts about powers of 256 and about Euclidean division, shared by the codecs and the target arithmetic. */
module Arith {

  function Max(a: int, b: int): int {
    if a < b then b else a
  }

  function Min(a: int, b: int): int {
    if a < b then a else b
  }

  function Pow256(n: nat): (p: nat)
    ensures 1 <= p
  {
    if n == 0 then 1 else 256 * Pow256(n - 1)
  }

  /** Shifting left by k bytes. */
  function ShiftUp(t: nat, k: nat): nat {
    t * Pow256(k)
  }

  /** Shifting right by k bytes. */
  function ShiftDown(t: nat, k: nat): nat {
    Quotient(t, Pow256(k))
  }

  function Quotient(a: nat, d: nat): nat
    requires 0 < d
  {
    a / d
  }

  lemma {:induction false} Pow256Add(a: nat, b: nat)
    ensures Pow256(a + b) == Pow256(a) * Pow256(b)
  {
    if a == 0 {
    } else {
      Pow256Add(a - 1, b);
      assert Pow256(a + b) == 256 * Pow256(a - 1 + b);
      MulAssoc(256, Pow256(a - 1), Pow256(b));
    }
  }

  lemma {:induction false} Pow256Mono(a: nat, b: nat)
    requires a <= b
    ensures Pow256(a) <= Pow256(b)
    decreases b
  {
    if a < b {
      Pow256Mono(a, b - 1);
    }
  }

  lemma Pow256Small()
    ensures Pow256(0) == 1 && Pow256(1) == 0x100 && Pow256(2) == 0x1_0000 && Pow256(3) == 0x100_0000
  {
    assert Pow256(1) == 256 * Pow256(0);
    assert Pow256(2) == 256 * Pow256(1);
    assert Pow256(3) == 256 * Pow256(2);
  }

  lemma MulAssoc(a: int, b: int, c: int)
    ensures (a * b) * c == a * (b * c)
  {
  }

  lemma MulMono(a: nat, b: nat, c: nat)
    requires a <= b
    ensures a * c <= b * c
  {
  }

  lemma MulStrictMono(a: nat, b: nat, c: nat)
    requires a < b && 0 < c
    ensures a * c < b * c
  {
    assert b * c == a * c + (b - a) * c;
  }

  /** Comparing two multiples of the same positive number compares the multipliers. */
  lemma MulLess(x: int, y: int, d: int)
    requires 0 < d && x * d < y * d
    ensures x < y
  {
  }

  lemma DivUnique(a: int, d: int, q: int, r: int)
    requires 0 < d && 0 <= r < d && a == q * d + r
    ensures a / d == q && a % d == r
  {
    var q', r' := a / d, a % d;
    assert a == q' * d + r';
    assert q' * d < (q + 1) * d;
    assert q * d < (q' + 1) * d;
    MulLess(q', q + 1, d);
    MulLess(q, q' + 1, d);
  }

  lemma DivMono(a: int, b: int, d: int)
    requires 0 < d && a <= b
    ensures a / d <= b / d
  {
    assert a == (a / d) * d + a % d;
    assert b == (b / d) * d + b % d;
    assert (a / d) * d < (b / d + 1) * d;
    MulLess(a / d, b / d + 1, d);
  }

  lemma DivOfMul(q: int, d: int)
    requires 0 < d
    ensures (q * d) / d == q && (q * d) % d == 0
  {
    DivUnique(q * d, d, q, 0);
  }

  lemma DivDiv(a: nat, b: nat, c: nat)
    requires 0 < b && 0 < c
    ensures 0 < b * c
    ensures (a / b) / c == a / (b * c)
  {
    MulStrictMono(0, b, c);
    var x := a / b;
    var q := x / c;
    var r := (x % c) * b + a % b;
    assert a == x * b + a % b;
    assert x == q * c + x % c;
    assert x * b == (q * c + x % c) * b == (q * c) * b + (x % c) * b;
    assert (q * c) * b == q * (b * c);
    MulMono(x % c, c - 1, b);
    assert (c - 1) * b == b * c - b;
    DivUnique(a, b * c, q, r);
  }

  /** The quotient is the largest multiplier that stays at or below the dividend. */
  lemma DivAtLeast(a: int, d: int, q: int)
    requires 0 < d && q * d <= a
    ensures q <= a / d
  {
    DivMono(q * d, a, d);
    DivOfMul(q, d);
  }

  lemma DivAtMost(a: int, d: int, q: int)
    requires 0 < d && a < (q + 1) * d
    ensures a / d <= q
  {
    assert a == (a / d) * d + a % d;
    MulLess(a / d, q + 1, d);
  }

  function Product(a: nat, b: nat): nat {
    a * b
  }

  /** A target stretched by the ratio num / den, rounded down. */
  function Scale(a: nat, num: nat, den: nat): nat
    requires 0 < den
  {
    Quotient(Product(a, num), den)
  }

  lemma ScaleMono(a: nat, b: nat, num: nat, num': nat, den: nat)
    requires 0 < den && a <= b && num <= num'
    ensures Scale(a, num, den) <= Scale(b, num', den)
  {
    MulMono(a, b, num);
    MulMono(num, num', b);
    DivMono(a * num, b * num', den);
  }

  /** Scaling by at most k never yields more than k times the value. */
  lemma ScaleAtMost(a: nat, num: nat, den: nat, k: nat)
    requires 0 < den && num <= k * den
    ensures Scale(a, num, den) <= k * a
  {
    MulMono(num, k * den, a);
    assert a * (k * den) == (k * a) * den;
    DivMono(a * num, (k * a) * den, den);
    DivOfMul(k * a, den);
  }

  lemma ScaleSame(a: nat, num: nat)
    requires 0 < num
    ensures Scale(a, num, num) == a
  {
    DivOfMul(a, num);
  }

  lemma DivMod(x: nat, m: nat)
    requires 0 < m
    ensures x == Product(x / m, m) + x % m && x % m < m
  {
  }

  /** Quotient and remainder of a multiple plus a small rest. */
  lemma ModOf(q: nat, r: nat, p: nat)
    requires r < p
    ensures (q * p + r) % p == r && (q * p + r) / p == q
  {
    var n := q * p + r;
    assert n == n / p * p + n % p;
    var k := n / p - q;
    assert k * p == r - n % p;
    if 0 < k {
      AtLeastOnce(k, p);
    } else if k < 0 {
      AtLeastOnce(-k, p);
      Negated(k, p);
    }
  }

  lemma AtLeastOnce(k: nat, p: nat)
    requires 0 < k
    ensures p <= k * p
  {
    MulMono(1, k, p);
  }

  lemma Negated(k: int, p: nat)
    ensures (-k) * p == -(k * p)
  {
  }

  lemma MulStrict(a: nat, b: nat, c: nat)
    requires a < b && 0 < c
    ensures a * c < b * c && c * a < c * b
  {
    MulMono(a + 1, b, c);
    assert (a + 1) * c == a * c + c;
    assert c * a == a * c && c * b == b * c;
  }
}
