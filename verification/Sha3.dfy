/** SHA3-512 on bytes as sections 4 to 6 of FIPS 202 define it, and the shortcuts the miner takes for an
    80-byte header: a cached state after the first 72 bytes, and four hashes side by side. */
module Sha3 {
  import opened Keccak

  const RATE: nat := 72
  const ZERO: bv64 := 0

  // ---------------------------------------------------------------------------
  // Lanes
  // ---------------------------------------------------------------------------

  function Rotl64(v: bv64, n: nat): bv64 {
    if 0 < n < 64 then (v << n) | (v >> (64 - n)) else v
  }

  function Xor64(a: bv64, b: bv64): bv64 {
    a ^ b
  }

  function Sum64(a: bv64, b: bv64, c: bv64, d: bv64, e: bv64): bv64 {
    Xor64(Xor64(Xor64(Xor64(a, b), c), d), e)
  }

  function AndNot64(a: bv64, b: bv64): bv64 {
    !a & b
  }

  const SCALAR: Ops<bv64> := Ops(
    (a, b, c, d, e) => Sum64(a, b, c, d, e),
    (a, b) => Xor64(a, b),
    (a, n) => Rotl64(a, n),
    (a, b, c) => Xor64(a, AndNot64(b, c)),
    w => w)

  /** Four lanes in one vector register. */
  datatype Vec4 = Vec4(a: bv64, b: bv64, c: bv64, d: bv64) {
    function Lane(j: nat): bv64 {
      if j == 0 then a else if j == 1 then b else if j == 2 then c else d
    }
  }

  function Xor4(u: Vec4, v: Vec4): Vec4 {
    Vec4(Xor64(u.a, v.a), Xor64(u.b, v.b), Xor64(u.c, v.c), Xor64(u.d, v.d))
  }

  /** Complement of the first operand, and with the second. */
  function AndNot4(u: Vec4, v: Vec4): Vec4 {
    Vec4(AndNot64(u.a, v.a), AndNot64(u.b, v.b), AndNot64(u.c, v.c), AndNot64(u.d, v.d))
  }

  /** The vector unit only has rotations by these amounts; others leave the value alone. */
  predicate HasVectorRotation(n: nat) {
    n in [1, 2, 3, 6, 8, 10, 14, 15, 18, 20, 21, 25, 27, 28, 36, 39, 41, 43, 44, 45, 55, 56, 61, 62]
  }

  function Rotl4(v: Vec4, n: nat): Vec4 {
    if HasVectorRotation(n) then Vec4(Rotl64(v.a, n), Rotl64(v.b, n), Rotl64(v.c, n), Rotl64(v.d, n)) else v
  }

  function Broadcast(w: bv64): Vec4 {
    Vec4(w, w, w, w)
  }

  const VECTOR: Ops<Vec4> := Ops(
    (a, b, c, d, e) => Xor4(Xor4(a, b), Xor4(Xor4(c, d), e)),
    (a, b) => Xor4(a, b),
    (a, n) => Rotl4(a, n),
    (a, b, c) => Xor4(a, AndNot4(b, c)),
    w => Broadcast(w))

  // ---------------------------------------------------------------------------
  // Four permutations at once
  // ---------------------------------------------------------------------------

  function Project(s: seq<Vec4>, j: nat): (t: seq<bv64>)
    ensures |t| == |s|
  {
    seq(|s|, i requires 0 <= i < |s| => s[i].Lane(j))
  }

  lemma XorAssociative(a: bv64, b: bv64, c: bv64)
    ensures Xor64(Xor64(a, b), c) == Xor64(a, Xor64(b, c))
  {
  }

  /** The vector unit sums a column in another order. */
  lemma SumOrder(a: bv64, b: bv64, c: bv64, d: bv64, e: bv64)
    ensures Xor64(Xor64(a, b), Xor64(Xor64(c, d), e)) == Sum64(a, b, c, d, e)
  {
    hide Xor64;
    XorAssociative(Xor64(a, b), Xor64(c, d), e);
    XorAssociative(Xor64(a, b), c, d);
  }

  lemma Xor4Lane(a: Vec4, b: Vec4, j: nat)
    ensures Xor4(a, b).Lane(j) == Xor64(a.Lane(j), b.Lane(j))
    ensures AndNot4(a, b).Lane(j) == AndNot64(a.Lane(j), b.Lane(j))
  {
    hide Xor64, AndNot64;
  }

  lemma ScalarOps(a: bv64, b: bv64, c: bv64, d: bv64, e: bv64)
    ensures Sum5(SCALAR, a, b, c, d, e) == Sum64(a, b, c, d, e)
    ensures Xor(SCALAR, a, b) == Xor64(a, b)
    ensures Mix(SCALAR, a, b, c) == Xor64(a, AndNot64(b, c))
  {
    hide Xor64, AndNot64, Sum64;
  }

  lemma VectorOps(a: Vec4, b: Vec4, c: Vec4, d: Vec4, e: Vec4)
    ensures Sum5(VECTOR, a, b, c, d, e) == Xor4(Xor4(a, b), Xor4(Xor4(c, d), e))
    ensures Xor(VECTOR, a, b) == Xor4(a, b)
    ensures Mix(VECTOR, a, b, c) == Xor4(a, AndNot4(b, c))
  {
    hide Xor4, AndNot4;
  }

  lemma Sum5Lane(a: Vec4, b: Vec4, c: Vec4, d: Vec4, e: Vec4, j: nat)
    ensures Sum5(VECTOR, a, b, c, d, e).Lane(j) == Sum5(SCALAR, a.Lane(j), b.Lane(j), c.Lane(j), d.Lane(j), e.Lane(j))
  {
    hide *;
    VectorOps(a, b, c, d, e);
    ScalarOps(a.Lane(j), b.Lane(j), c.Lane(j), d.Lane(j), e.Lane(j));
    Xor4Lane(Xor4(a, b), Xor4(Xor4(c, d), e), j);
    Xor4Lane(a, b, j);
    Xor4Lane(Xor4(c, d), e, j);
    Xor4Lane(c, d, j);
    SumOrder(a.Lane(j), b.Lane(j), c.Lane(j), d.Lane(j), e.Lane(j));
  }

  lemma XorLane(a: Vec4, b: Vec4, j: nat)
    ensures Xor(VECTOR, a, b).Lane(j) == Xor(SCALAR, a.Lane(j), b.Lane(j))
  {
    hide *;
    VectorOps(a, b, a, a, a);
    ScalarOps(a.Lane(j), b.Lane(j), ZERO, ZERO, ZERO);
    Xor4Lane(a, b, j);
  }

  lemma MixLane(a: Vec4, b: Vec4, c: Vec4, j: nat)
    ensures Mix(VECTOR, a, b, c).Lane(j) == Mix(SCALAR, a.Lane(j), b.Lane(j), c.Lane(j))
  {
    hide *;
    VectorOps(a, b, c, a, a);
    ScalarOps(a.Lane(j), b.Lane(j), c.Lane(j), ZERO, ZERO);
    Xor4Lane(a, AndNot4(b, c), j);
    Xor4Lane(b, c, j);
  }

  lemma RotlLane(a: Vec4, n: nat, j: nat)
    requires n == 0 || HasVectorRotation(n)
    ensures Rotl(VECTOR, a, n).Lane(j) == Rotl(SCALAR, a.Lane(j), n)
  {
    hide HasVectorRotation;
  }

  /** Every rotation of the permutation is one the vector unit has. */
  lemma OffsetsSupported(i: nat)
    requires i < 25
    ensures RhoOffset(i) == 0 || HasVectorRotation(RhoOffset(i))
    ensures HasVectorRotation(1)
  {
  }

  lemma EffectLane(s: seq<Vec4>, x: nat, j: nat)
    requires |s| == 25 && x < 5
    ensures Effect(VECTOR, s, x).Lane(j) == Effect(SCALAR, Project(s, j), x)
  {
    hide Sum5, Xor, Rotl, HasVectorRotation, Vec4.Lane;
    var l, r := (x + 4) % 5, (x + 1) % 5;
    Sum5Lane(s[l], s[l + 5], s[l + 10], s[l + 15], s[l + 20], j);
    Sum5Lane(s[r], s[r + 5], s[r + 10], s[r + 15], s[r + 20], j);
    OffsetsSupported(0);
    RotlLane(Parity(VECTOR, s, r), 1, j);
    XorLane(Parity(VECTOR, s, l), Rotl(VECTOR, Parity(VECTOR, s, r), 1), j);
  }

  lemma ThetaLane(s: seq<Vec4>, j: nat)
    requires |s| == 25
    ensures Project(Theta(VECTOR, s), j) == Theta(SCALAR, Project(s, j))
  {
    hide Xor, Effect, Vec4.Lane;
    forall i | 0 <= i < 25
      ensures Project(Theta(VECTOR, s), j)[i] == Theta(SCALAR, Project(s, j))[i]
    {
      EffectLane(s, i % 5, j);
      XorLane(s[i], Effect(VECTOR, s, i % 5), j);
    }
  }

  lemma RhoLane(s: seq<Vec4>, j: nat)
    requires |s| == 25
    ensures Project(Rho(VECTOR, s), j) == Rho(SCALAR, Project(s, j))
  {
    hide Rotl, RhoOffset, HasVectorRotation, Vec4.Lane;
    forall i | 0 <= i < 25
      ensures Project(Rho(VECTOR, s), j)[i] == Rho(SCALAR, Project(s, j))[i]
    {
      OffsetsSupported(i);
      RotlLane(s[i], RhoOffset(i), j);
    }
  }

  lemma PiLane(s: seq<Vec4>, j: nat)
    requires |s| == 25
    ensures Project(Pi(s), j) == Pi(Project(s, j))
  {
    hide PiSource, Vec4.Lane;
  }

  lemma ChiLane(s: seq<Vec4>, j: nat)
    requires |s| == 25
    ensures Project(Chi(VECTOR, s), j) == Chi(SCALAR, Project(s, j))
  {
    hide Mix, Right, Vec4.Lane;
    forall i | 0 <= i < 25
      ensures Project(Chi(VECTOR, s), j)[i] == Chi(SCALAR, Project(s, j))[i]
    {
      MixLane(s[i], s[Right(i, 1)], s[Right(i, 2)], j);
    }
  }

  lemma IotaLane(s: seq<Vec4>, constant: bv64, j: nat)
    requires |s| == 25
    ensures Project(Iota(VECTOR, s, constant), j) == Iota(SCALAR, Project(s, j), constant)
  {
    hide Xor;
    XorLane(s[0], VECTOR.constant(constant), j);
    assert VECTOR.constant(constant).Lane(j) == SCALAR.constant(constant);
  }

  lemma RoundLane(s: seq<Vec4>, constant: bv64, j: nat)
    requires |s| == 25
    ensures Project(Round(VECTOR, s, constant), j) == Round(SCALAR, Project(s, j), constant)
  {
    hide Theta, Rho, Pi, Chi, Iota, Project;
    var t := Theta(VECTOR, s);
    ThetaLane(s, j);
    RhoLane(t, j);
    PiLane(Rho(VECTOR, t), j);
    ChiLane(Pi(Rho(VECTOR, t)), j);
    IotaLane(Chi(VECTOR, Pi(Rho(VECTOR, t))), constant, j);
  }

  lemma {:induction false} RoundsLane(s: seq<Vec4>, n: nat, j: nat)
    requires |s| == 25 && n <= 24
    ensures Project(Rounds(VECTOR, s, n), j) == Rounds(SCALAR, Project(s, j), n)
  {
    hide Round, Project;
    if n != 0 {
      RoundsLane(s, n - 1, j);
      RoundLane(Rounds(VECTOR, s, n - 1), ROUND_CONSTANTS[n - 1], j);
    }
  }

  /** Main result: permuting four states side by side permutes each of them. */
  lemma PermuteLane(s: seq<Vec4>, j: nat)
    requires |s| == 25
    ensures Project(Permute(VECTOR, s), j) == Permute(SCALAR, Project(s, j))
  {
    hide Rounds, Project;
    RoundsLane(s, 24, j);
  }
}
