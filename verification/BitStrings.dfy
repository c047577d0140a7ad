/** Numbers as fixed-width groups of bits, highest bit first, and the regrouping of a bit stream. */
module BitStrings {
  import opened Arith
  import opened Primitives

  /** The lowest w bits of a number. */
  function Bits(v: nat, w: nat): (s: seq<bool>)
    ensures |s| == w
  {
    if w == 0 then [] else Bits(v / 2, w - 1) + [v % 2 == 1]
  }

  /** The bits of all groups in a row. */
  function Stream(groups: seq<nat>, w: nat): (s: seq<bool>)
    ensures |s| == w * |groups|
  {
    if groups == [] then []
    else
      LengthStep(w, |groups|);
      Stream(groups[..|groups| - 1], w) + Bits(groups[|groups| - 1], w)
  }

  lemma LengthStep(w: nat, n: nat)
    requires 0 < n
    ensures w * (n - 1) + w == w * n
  {
  }

  predicate Fit(groups: seq<nat>, w: nat) {
    forall i :: 0 <= i < |groups| ==> groups[i] < Pow2(w)
  }

  function Low(n: nat): (s: seq<bool>)
    ensures |s| == n && forall i :: 0 <= i < n ==> !s[i]
  {
    seq(n, i requires 0 <= i < n => false)
  }

  predicate AllLow(s: seq<bool>) {
    forall i :: 0 <= i < |s| ==> !s[i]
  }

  // ---------------------------------------------------------------------------
  // Single numbers
  // ---------------------------------------------------------------------------

  lemma Pow2Step(n: nat)
    ensures Pow2(n + 1) == 2 * Pow2(n) && Pow2(0) == 1
  {
  }

  lemma {:induction false} Pow2Add(a: nat, b: nat)
    ensures Pow2(a + b) == Product(Pow2(a), Pow2(b))
  {
    if b != 0 {
      Pow2Add(a, b - 1);
      assert Pow2(a + b) == 2 * Pow2(a + (b - 1));
      assert Pow2(a) * (2 * Pow2(b - 1)) == 2 * (Pow2(a) * Pow2(b - 1));
    }
  }

  /** Shifting one number left by f bits and adding another of f bits puts their bits next to each other. */
  lemma {:induction false} BitsJoin(acc: nat, v: nat, k: nat, f: nat)
    requires v < Pow2(f)
    ensures Bits(Product(acc, Pow2(f)) + v, k + f) == Bits(acc, k) + Bits(v, f)
    decreases f
  {
    hide Product;
    if f == 0 {
      ProductOne(acc);
      assert Bits(acc, k) + Bits(v, 0) == Bits(acc, k);
    } else {
      HalveJoin(acc, Pow2(f - 1), v);
      BitsJoin(acc, v / 2, k, f - 1);
      var n := Product(acc, Pow2(f)) + v;
      assert Bits(n, k + f) == Bits(n / 2, k + f - 1) + [n % 2 == 1];
      assert k + f - 1 == k + (f - 1);
    }
  }

  lemma ProductOne(a: nat)
    ensures Product(a, 1) == a && Product(0, a) == 0
  {
  }

  lemma HalveJoin(acc: nat, p: nat, v: nat)
    ensures (Product(acc, 2 * p) + v) / 2 == Product(acc, p) + v / 2
    ensures (Product(acc, 2 * p) + v) % 2 == v % 2
  {
    assert acc * (2 * p) == 2 * (acc * p);
  }

  /** Masking off high bits keeps the low ones. */
  lemma {:induction false} BitsMask(x: nat, m: nat, k: nat)
    requires k <= m
    ensures Bits(x % Pow2(m), k) == Bits(x, k)
    decreases k
  {
    if k != 0 {
      HalveMod(x, Pow2(m - 1), Pow2(m));
      BitsMask(x / 2, m - 1, k - 1);
    }
  }

  lemma HalveMod(x: nat, p: nat, m: nat)
    requires 0 < p && m == 2 * p
    ensures (x % m) / 2 == (x / 2) % p && (x % m) % 2 == x % 2
    ensures x / 2 / p == x / m
  {
    hide *;
    DivMod(x, m);
    HalveParts(x, x / m, x % m, p, m);
  }

  lemma HalveParts(x: nat, q: nat, r: nat, p: nat, m: nat)
    requires m == 2 * p && x == Product(q, m) + r && r < m
    ensures x / 2 % p == r / 2 && x / 2 / p == q && x % 2 == r % 2
  {
    var k := q * p;
    assert q * m == 2 * k;
    HalveSum(x, k, r);
    ModOf(q, r / 2, p);
  }

  lemma HalveSum(x: nat, k: nat, r: nat)
    requires x == 2 * k + r
    ensures x / 2 == k + r / 2 && x % 2 == r % 2
  {
  }

  /** The top t of the lowest b + t bits, then the lowest b. */
  lemma {:induction false} BitsSplit(acc: nat, b: nat, t: nat)
    ensures Bits(acc, b + t) == Bits(acc / Pow2(b) % Pow2(t), t) + Bits(acc, b)
    decreases b
  {
    if b == 0 {
      BitsMask(acc, t, t);
      assert acc / 1 == acc;
      assert Bits(acc, t) + Bits(acc, 0) == Bits(acc, t);
    } else {
      BitsSplit(acc / 2, b - 1, t);
      HalveMod(acc, Pow2(b - 1), Pow2(b));
      assert b + t - 1 == (b - 1) + t;
      assert Bits(acc, b + t) == Bits(acc / 2, b + t - 1) + [acc % 2 == 1];
    }
  }

  /** Bits determine the number. */
  lemma {:induction false} BitsInjective(a: nat, b: nat, w: nat)
    requires a < Pow2(w) && b < Pow2(w) && Bits(a, w) == Bits(b, w)
    ensures a == b
    decreases w
  {
    if w != 0 {
      assert Bits(a, w)[..w - 1] == Bits(a / 2, w - 1);
      assert Bits(b, w)[..w - 1] == Bits(b / 2, w - 1);
      assert Bits(a, w)[w - 1] == (a % 2 == 1);
      assert Bits(b, w)[w - 1] == (b % 2 == 1);
      BitsInjective(a / 2, b / 2, w - 1);
    }
  }

  lemma {:induction false} BitsOfZero(w: nat)
    ensures Bits(0, w) == Low(w)
  {
    if w != 0 { BitsOfZero(w - 1); }
  }

  // ---------------------------------------------------------------------------
  // Streams
  // ---------------------------------------------------------------------------

  lemma StreamSnoc(groups: seq<nat>, g: nat, w: nat)
    ensures Stream(groups + [g], w) == Stream(groups, w) + Bits(g, w)
  {
    assert (groups + [g])[..|groups|] == groups;
  }

  lemma {:induction false} StreamInjective(a: seq<nat>, b: seq<nat>, w: nat)
    requires 0 < w && Fit(a, w) && Fit(b, w) && Stream(a, w) == Stream(b, w)
    ensures a == b
    decreases |a|
  {
    SameCount(w, |a|, |b|);
    if a != [] {
      var n := |a| - 1;
      var s := Stream(a, w);
      LengthStep(w, |a|);
      assert s == Stream(a[..n], w) + Bits(a[n], w);
      assert s == Stream(b[..n], w) + Bits(b[n], w);
      assert s[..w * n] == Stream(a[..n], w) == Stream(b[..n], w);
      assert s[w * n..] == Bits(a[n], w) == Bits(b[n], w);
      BitsInjective(a[n], b[n], w);
      StreamInjective(a[..n], b[..n], w);
    }
  }

  lemma SameCount(w: nat, m: nat, n: nat)
    requires 0 < w && w * m == w * n
    ensures m == n
  {
    if m < n { MulStrict(m, n, w); }
    if n < m { MulStrict(n, m, w); }
  }

  // ---------------------------------------------------------------------------
  // Regrouping
  // ---------------------------------------------------------------------------

  /** Number of bits left over when n bits are cut into groups of w. */
  function Left(n: nat, w: nat): (r: nat)
    requires 0 < w
    ensures r < w
  {
    n % w
  }

  /** What regrouping `input` yields: with padding, all bits and then zeros up to a full group; without, all
      full groups, provided that fewer than `from` bits are left over and all of those are zero. */
  ghost predicate IsRegrouped(input: seq<nat>, from: nat, to: nat, pad: bool, out: Option<seq<nat>>)
    requires 0 < from && 0 < to
  {
    var s := Stream(input, from);
    var left := Left(|s|, to);
    match out
    case None => !Fit(input, from) || (!pad && (from <= left || !AllLow(s[|s| - left..])))
    case Some(groups) =>
      && Fit(input, from) && Fit(groups, to)
      && if pad then Stream(groups, to) == s + Low(if left == 0 then 0 else to - left)
         else left < from && AllLow(s[|s| - left..]) && Stream(groups, to) == s[..|s| - left]
  }

  function NumberOf(s: seq<bool>): nat {
    if s == [] then 0 else 2 * NumberOf(s[..|s| - 1]) + if s[|s| - 1] then 1 else 0
  }

  lemma {:induction false} NumberBits(s: seq<bool>)
    ensures NumberOf(s) < Pow2(|s|) && Bits(NumberOf(s), |s|) == s
    decreases |s|
  {
    if s != [] {
      NumberBits(s[..|s| - 1]);
      assert s == s[..|s| - 1] + [s[|s| - 1]];
    }
  }

  /** A stream of n full groups of w bits, cut into groups. */
  function Cut(s: seq<bool>, w: nat, n: nat): (groups: seq<nat>)
    requires |s| == w * n
    ensures |groups| == n
    decreases n
  {
    if n == 0 then []
    else
      LengthStep(w, n);
      Cut(s[..w * (n - 1)], w, n - 1) + [NumberOf(s[w * (n - 1)..])]
  }

  lemma {:induction false} CutStream(s: seq<bool>, w: nat, n: nat)
    requires |s| == w * n
    ensures Stream(Cut(s, w, n), w) == s && Fit(Cut(s, w, n), w)
    decreases n
  {
    hide NumberOf, Bits;
    if n != 0 {
      LengthStep(w, n);
      var front, last := s[..w * (n - 1)], s[w * (n - 1)..];
      CutStream(front, w, n - 1);
      NumberBits(last);
      StreamSnoc(Cut(front, w, n - 1), NumberOf(last), w);
      assert front + last == s;
    }
  }

  lemma FullGroups(n: nat, w: nat)
    requires 0 < w
    ensures Left(n, w) <= n && 0 <= n / w
    ensures n - Left(n, w) == w * (n / w)
    ensures Left(n, w) != 0 ==> n + (w - Left(n, w)) == w * (n / w + 1)
  {
    DivMod(n, w);
    assert n / w * w == w * (n / w);
    assert w * (n / w + 1) == w * (n / w) + w;
  }

  /** The result of regrouping. */
  function Regroup(input: seq<nat>, from: nat, to: nat, pad: bool): Option<seq<nat>>
    requires 0 < from && 0 < to
  {
    var s := Stream(input, from);
    var left := Left(|s|, to);
    FullGroups(|s|, to);
    if !Fit(input, from) then None
    else if pad then
      if left == 0 then Some(Cut(s, to, |s| / to)) else Some(Cut(s + Low(to - left), to, |s| / to + 1))
    else if from <= left || !AllLow(s[|s| - left..]) then None
    else Some(Cut(s[..|s| - left], to, |s| / to))
  }

  lemma RegroupIs(input: seq<nat>, from: nat, to: nat, pad: bool)
    requires 0 < from && 0 < to
    ensures IsRegrouped(input, from, to, pad, Regroup(input, from, to, pad))
  {
    hide Stream, Cut, Left;
    var s := Stream(input, from);
    var left := Left(|s|, to);
    FullGroups(|s|, to);
    if Fit(input, from) {
      if pad && left == 0 {
        CutStream(s, to, |s| / to);
        assert s + Low(0) == s;
      } else if pad {
        CutStream(s + Low(to - left), to, |s| / to + 1);
      } else if left < from && AllLow(s[|s| - left..]) {
        CutStream(s[..|s| - left], to, |s| / to);
      }
    }
  }

  /** An accumulator of bits: the groups put out so far, then its lowest `bits` bits. */
  ghost predicate Carries(input: seq<nat>, from: nat, out: seq<nat>, to: nat, acc: nat, bits: nat) {
    Fit(input, from) && Fit(out, to) && Stream(out, to) + Bits(acc, bits) == Stream(input, from)
  }

  lemma CarriesIn(input: seq<nat>, from: nat, out: seq<nat>, to: nat, acc: nat, bits: nat, v: nat, m: nat)
    requires Carries(input, from, out, to, acc, bits) && v < Pow2(from) && bits + from <= m
    ensures Carries(input + [v], from, out, to, (Product(acc, Pow2(from)) + v) % Pow2(m), bits + from)
  {
    hide Bits, Product;
    BitsJoin(acc, v, bits, from);
    BitsMask(Product(acc, Pow2(from)) + v, m, bits + from);
    StreamSnoc(input, v, from);
  }

  lemma CarriesOut(input: seq<nat>, from: nat, out: seq<nat>, to: nat, acc: nat, bits: nat)
    requires Carries(input, from, out, to, acc, bits) && to <= bits
    ensures Carries(input, from, out + [acc / Pow2(bits - to) % Pow2(to)], to, acc, bits - to)
  {
    hide Bits;
    var g := acc / Pow2(bits - to) % Pow2(to);
    BitsSplit(acc, bits - to, to);
    StreamSnoc(out, g, to);
  }

  lemma CarriesNothing(from: nat, to: nat)
    ensures Carries([], from, [], to, 0, 0)
  {
  }

  /** The number of bits in the accumulator is what the full groups leave over. */
  lemma CarriesLeft(input: seq<nat>, from: nat, out: seq<nat>, to: nat, acc: nat, bits: nat)
    requires Carries(input, from, out, to, acc, bits) && bits < to
    ensures Left(|Stream(input, from)|, to) == bits
    ensures Stream(input, from)[|Stream(input, from)| - bits..] == Bits(acc, bits)
    ensures Stream(input, from)[..|Stream(input, from)| - bits] == Stream(out, to)
  {
    hide Stream, Bits, Fit, Left;
    var s := Stream(input, from);
    assert |s| == to * |out| + bits;
    LeftIs(|out|, bits, to);
    assert s == Stream(out, to) + Bits(acc, bits);
  }

  lemma LeftIs(n: nat, bits: nat, w: nat)
    requires bits < w
    ensures Left(w * n + bits, w) == bits
  {
    ModOf(n, bits, w);
    assert n * w == w * n;
  }

  /** The last group, filled up with zeros. */
  lemma PaddedGroup(acc: nat, bits: nat, to: nat)
    requires 0 < bits < to
    ensures var g := Product(acc, Pow2(to - bits)) % Pow2(to);
            g < Pow2(to) && Bits(g, to) == Bits(acc, bits) + Low(to - bits) && (g == 0 <==> AllLow(Bits(acc, bits)))
  {
    hide Product;
    var x := Product(acc, Pow2(to - bits));
    var g := x % Pow2(to);
    BitsMask(x, to, to);
    BitsJoin(acc, 0, bits, to - bits);
    BitsOfZero(to - bits);
    BitsOfZero(to);
    assert x + 0 == x && bits + (to - bits) == to;
    if AllLow(Bits(acc, bits)) {
      assert Bits(acc, bits) + Low(to - bits) == Low(to);
      BitsInjective(g, 0, to);
    }
    if g == 0 {
      assert Bits(acc, bits) == Low(to)[..bits];
    }
  }

  lemma NoPadding(acc: nat, to: nat)
    ensures Product(acc, Pow2(to)) % Pow2(to) == 0
  {
    ModOf(acc, 0, Pow2(to));
  }

  /** Collects bits in an accumulator and puts out a group whenever it holds enough. */
  method ConvertBits(input: seq<nat>, from: nat, to: nat, pad: bool) returns (out: Option<seq<nat>>)
    requires 0 < from && 0 < to
    ensures out == Regroup(input, from, to, pad)
  {
    hide Bits, Stream, Pow2, Product, Carries, IsRegrouped, Regroup;
    RegroupIs(input, from, to, pad);
    var acc: nat, bits: nat := 0, 0;
    var groups: seq<nat> := [];
    CarriesNothing(from, to);
    assert input[..0] == [];
    for i := 0 to |input|
      invariant Carries(input[..i], from, groups, to, acc, bits) && bits < to
    {
      if input[i] >= Pow2(from) {
        NotFit(input, from, to, pad, i);
        RegroupedUnique(input, from, to, pad, None, Regroup(input, from, to, pad));
        return None;
      }
      CarriesIn(input[..i], from, groups, to, acc, bits, input[i], from + to - 1);
      assert input[..i + 1] == input[..i] + [input[i]];
      acc := (Product(acc, Pow2(from)) + input[i]) % Pow2(from + to - 1);
      bits := bits + from;
      while bits >= to
        invariant Carries(input[..i + 1], from, groups, to, acc, bits)
        decreases bits
      {
        CarriesOut(input[..i + 1], from, groups, to, acc, bits);
        bits := bits - to;
        groups := groups + [acc / Pow2(bits) % Pow2(to)];
      }
    }
    assert input[..|input|] == input;
    out := Finish(input, from, to, pad, groups, acc, bits);
    RegroupedUnique(input, from, to, pad, out, Regroup(input, from, to, pad));
  }

  lemma NotFit(input: seq<nat>, from: nat, to: nat, pad: bool, i: nat)
    requires 0 < from && 0 < to && i < |input| && Pow2(from) <= input[i]
    ensures IsRegrouped(input, from, to, pad, None)
  {
    hide Stream, Pow2;
  }

  method Finish(input: seq<nat>, from: nat, to: nat, pad: bool, groups: seq<nat>, acc: nat, bits: nat) returns (out: Option<seq<nat>>)
    requires 0 < from && 0 < to && Carries(input, from, groups, to, acc, bits) && bits < to
    ensures IsRegrouped(input, from, to, pad, out)
  {
    hide Bits, Stream, Pow2, Product;
    CarriesLeft(input, from, groups, to, acc, bits);
    var last := Product(acc, Pow2(to - bits)) % Pow2(to);
    if bits == 0 {
      NoPadding(acc, to);
    } else {
      PaddedGroup(acc, bits, to);
    }
    if pad {
      if bits > 0 {
        StreamSnoc(groups, last, to);
        return Some(groups + [last]);
      }
      assert Stream(groups, to) == Stream(input, from) + Low(0);
      return Some(groups);
    }
    if bits >= from || last != 0 {
      return None;
    }
    return Some(groups);
  }

  // ---------------------------------------------------------------------------
  // Round trips
  // ---------------------------------------------------------------------------

  /** Only one result fits the description. */
  lemma RegroupedUnique(input: seq<nat>, from: nat, to: nat, pad: bool, a: Option<seq<nat>>, b: Option<seq<nat>>)
    requires 0 < from && 0 < to && IsRegrouped(input, from, to, pad, a) && IsRegrouped(input, from, to, pad, b)
    ensures a == b
  {
    hide Stream, Pow2;
    if a.Some? && b.Some? {
      StreamInjective(a.value, b.value, to);
    }
  }

  /** Main result: regrouping bytes into fives with padding and back without gives the bytes back. */
  lemma EightFiveEight(input: seq<nat>)
    requires Fit(input, 8)
    ensures Regroup(input, 8, 5, true).Some? && Fit(Regroup(input, 8, 5, true).value, 5)
    ensures Regroup(Regroup(input, 8, 5, true).value, 5, 8, false) == Some(input)
  {
    hide Regroup, Stream, Pow2;
    RegroupIs(input, 8, 5, true);
    var fives := Regroup(input, 8, 5, true).value;
    RegroupIs(fives, 5, 8, false);
    BackAgain(input, fives, Regroup(fives, 5, 8, false));
  }

  lemma BackAgain(input: seq<nat>, fives: seq<nat>, back: Option<seq<nat>>)
    requires Fit(input, 8) && IsRegrouped(input, 8, 5, true, Some(fives)) && IsRegrouped(fives, 5, 8, false, back)
    ensures back == Some(input)
  {
    hide Stream, Pow2;
    var s, t := Stream(input, 8), Stream(fives, 5);
    var left := Left(|s|, 5);
    var z := if left == 0 then 0 else 5 - left;
    assert t == s + Low(z);
    ModOf(|input|, z, 8);
    assert Left(|t|, 8) == z;
    assert t[..|t| - z] == s;
    assert t[|t| - z..] == Low(z);
    if back.Some? {
      StreamInjective(back.value, input, 8);
    }
  }
}
