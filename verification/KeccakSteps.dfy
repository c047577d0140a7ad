/** The step mappings of the permutation in coordinates, as section 3.2 of FIPS 202 defines them, and the order of bytes and
    padding bits of its sections 3.1, 5.1 and 6.1. */
module KeccakSteps {
  import opened Keccak
  import opened Sha3
  import opened HeaderHash

  // ---------------------------------------------------------------------------
  // Lanes
  // ---------------------------------------------------------------------------

  /** The lane in column x and row y. */
  function Lane(s: seq<bv64>, x: nat, y: nat): bv64
    requires |s| == 25 && x < 5 && y < 5
  {
    s[5 * y + x]
  }

  /** The sum of a column. */
  function Column(s: seq<bv64>, x: nat): bv64
    requires |s| == 25 && x < 5
  {
    Xor64(Xor64(Xor64(Xor64(Lane(s, x, 0), Lane(s, x, 1)), Lane(s, x, 2)), Lane(s, x, 3)), Lane(s, x, 4))
  }

  /** Main result: theta adds to a lane the columns on both sides, the right one rotated by one place; rho rotates it by its
      offset; pi fetches it from column x + 3y of row x; iota adds the constant to the lane at the origin only. */
  lemma StepsInCoordinates(s: seq<bv64>, x: nat, y: nat, constant: bv64)
    requires |s| == 25 && x < 5 && y < 5
    ensures Lane(Theta(SCALAR, s), x, y) == Xor64(Lane(s, x, y), Xor64(Column(s, (x + 4) % 5), Rotl64(Column(s, (x + 1) % 5), 1)))
    ensures Lane(Rho(SCALAR, s), x, y) == Rotl64(Lane(s, x, y), RhoOffset(x + 5 * y))
    ensures Lane(Pi(s), x, y) == Lane(s, (x + 3 * y) % 5, x)
    ensures Lane(Iota(SCALAR, s, constant), x, y) == if x == 0 && y == 0 then Xor64(Lane(s, x, y), constant) else Lane(s, x, y)
  {
    hide *;
    ThetaInCoordinates(s, x, y);
    RhoInCoordinates(s, x, y);
    PiInCoordinates(s, x, y);
    IotaInCoordinates(s, x, y, constant);
  }

  lemma ThetaInCoordinates(s: seq<bv64>, x: nat, y: nat)
    requires |s| == 25 && x < 5 && y < 5
    ensures Lane(Theta(SCALAR, s), x, y) == Xor64(Lane(s, x, y), Xor64(Column(s, (x + 4) % 5), Rotl64(Column(s, (x + 1) % 5), 1)))
  {
    hide Xor64, Rotl64, Effect;
    IndexParts(x, y);
    EffectIs(s, x);
  }

  lemma EffectIs(s: seq<bv64>, x: nat)
    requires |s| == 25 && x < 5
    ensures Effect(SCALAR, s, x) == Xor64(Column(s, (x + 4) % 5), Rotl64(Column(s, (x + 1) % 5), 1))
  {
    hide Xor64, Rotl64, Column, Parity;
    ColumnIs(s, (x + 4) % 5);
    ColumnIs(s, (x + 1) % 5);
  }

  lemma ColumnIs(s: seq<bv64>, x: nat)
    requires |s| == 25 && x < 5
    ensures Parity(SCALAR, s, x) == Column(s, x)
  {
    hide Xor64;
  }

  lemma RhoInCoordinates(s: seq<bv64>, x: nat, y: nat)
    requires |s| == 25 && x < 5 && y < 5
    ensures Lane(Rho(SCALAR, s), x, y) == Rotl64(Lane(s, x, y), RhoOffset(x + 5 * y))
  {
    hide Rotl64, RhoOffset;
  }

  lemma PiInCoordinates(s: seq<bv64>, x: nat, y: nat)
    requires |s| == 25 && x < 5 && y < 5
    ensures Lane(Pi(s), x, y) == Lane(s, (x + 3 * y) % 5, x)
  {
    IndexParts(x, y);
  }

  lemma IotaInCoordinates(s: seq<bv64>, x: nat, y: nat, constant: bv64)
    requires |s| == 25 && x < 5 && y < 5
    ensures Lane(Iota(SCALAR, s, constant), x, y) == if x == 0 && y == 0 then Xor64(Lane(s, x, y), constant) else Lane(s, x, y)
  {
    hide Xor64;
  }

  /** The bits of one lane that are not in another. */
  predicate Without(bits: bv64, lane: bv64, other: bv64) {
    bits & other == 0 && bits | other == lane | other
  }

  /** Main result: chi adds to a lane the bits of the lane two columns to the right that are not in the lane one column to the
      right. */
  lemma ChiInCoordinates(s: seq<bv64>, x: nat, y: nat)
    requires |s| == 25 && x < 5 && y < 5
    ensures var bits := AndNot64(Lane(s, (x + 1) % 5, y), Lane(s, (x + 2) % 5, y));
            && Lane(Chi(SCALAR, s), x, y) == Xor64(Lane(s, x, y), bits)
            && Without(bits, Lane(s, (x + 2) % 5, y), Lane(s, (x + 1) % 5, y))
  {
    hide *;
    ChiLaneIs(s, x, y);
    AndNotIs(Lane(s, (x + 1) % 5, y), Lane(s, (x + 2) % 5, y));
  }

  lemma AndNotIs(other: bv64, lane: bv64)
    ensures Without(AndNot64(other, lane), lane, other)
  {
  }

  lemma ChiLaneIs(s: seq<bv64>, x: nat, y: nat)
    requires |s| == 25 && x < 5 && y < 5
    ensures Lane(Chi(SCALAR, s), x, y) == Xor64(Lane(s, x, y), AndNot64(Lane(s, (x + 1) % 5, y), Lane(s, (x + 2) % 5, y)))
  {
    hide *;
    var i := 5 * y + x;
    ChiAt(s, i);
    RightIs(x, y);
    LaneIs(s, x, y);
    LaneIs(s, (x + 1) % 5, y);
    LaneIs(s, (x + 2) % 5, y);
    LaneIs(Chi(SCALAR, s), x, y);
    MixIs(s[i], s[Right(i, 1)], s[Right(i, 2)]);
  }

  lemma LaneIs(s: seq<bv64>, x: nat, y: nat)
    requires |s| == 25 && x < 5 && y < 5
    ensures Lane(s, x, y) == s[5 * y + x]
  {
  }

  lemma MixIs(a: bv64, b: bv64, c: bv64)
    ensures Mix(SCALAR, a, b, c) == Xor64(a, AndNot64(b, c))
  {
    hide *;
    ScalarOps(a, b, c, c, c);
  }

  lemma ChiAt(s: seq<bv64>, i: nat)
    requires |s| == 25 && i < 25
    ensures Chi(SCALAR, s)[i] == Mix(SCALAR, s[i], s[Right(i, 1)], s[Right(i, 2)])
  {
    hide Mix, Right;
  }

  lemma RightIs(x: nat, y: nat)
    requires x < 5 && y < 5
    ensures Right(5 * y + x, 1) == 5 * y + (x + 1) % 5 && Right(5 * y + x, 2) == 5 * y + (x + 2) % 5
  {
    hide Right;
    ModFive(x, y);
    RightOf(5 * y + x, x, y);
  }

  lemma RightOf(i: nat, x: nat, y: nat)
    requires i < 25 && i % 5 == x && i / 5 == y
    ensures Right(i, 1) == 5 * y + (x + 1) % 5 && Right(i, 2) == 5 * y + (x + 2) % 5
  {
  }

  /** Rotation moves bits up: where the lowest and the highest bit of a lane go for every offset in use. */
  lemma RotationDirection()
    ensures Rotl64(1, 1) == 0x2 && Rotl64(0x8000_0000_0000_0000, 1) == 0x1
    ensures Rotl64(1, 2) == 0x4 && Rotl64(0x8000_0000_0000_0000, 2) == 0x2
    ensures Rotl64(1, 3) == 0x8 && Rotl64(0x8000_0000_0000_0000, 3) == 0x4
    ensures Rotl64(1, 6) == 0x40 && Rotl64(0x8000_0000_0000_0000, 6) == 0x20
    ensures Rotl64(1, 8) == 0x100 && Rotl64(0x8000_0000_0000_0000, 8) == 0x80
    ensures Rotl64(1, 10) == 0x400 && Rotl64(0x8000_0000_0000_0000, 10) == 0x200
    ensures Rotl64(1, 14) == 0x4000 && Rotl64(0x8000_0000_0000_0000, 14) == 0x2000
    ensures Rotl64(1, 15) == 0x8000 && Rotl64(0x8000_0000_0000_0000, 15) == 0x4000
    ensures Rotl64(1, 18) == 0x40000 && Rotl64(0x8000_0000_0000_0000, 18) == 0x20000
    ensures Rotl64(1, 20) == 0x100000 && Rotl64(0x8000_0000_0000_0000, 20) == 0x80000
    ensures Rotl64(1, 21) == 0x200000 && Rotl64(0x8000_0000_0000_0000, 21) == 0x100000
    ensures Rotl64(1, 25) == 0x2000000 && Rotl64(0x8000_0000_0000_0000, 25) == 0x1000000
    ensures Rotl64(1, 27) == 0x8000000 && Rotl64(0x8000_0000_0000_0000, 27) == 0x4000000
    ensures Rotl64(1, 28) == 0x10000000 && Rotl64(0x8000_0000_0000_0000, 28) == 0x8000000
    ensures Rotl64(1, 36) == 0x1000000000 && Rotl64(0x8000_0000_0000_0000, 36) == 0x800000000
    ensures Rotl64(1, 39) == 0x8000000000 && Rotl64(0x8000_0000_0000_0000, 39) == 0x4000000000
    ensures Rotl64(1, 41) == 0x20000000000 && Rotl64(0x8000_0000_0000_0000, 41) == 0x10000000000
    ensures Rotl64(1, 43) == 0x80000000000 && Rotl64(0x8000_0000_0000_0000, 43) == 0x40000000000
    ensures Rotl64(1, 44) == 0x100000000000 && Rotl64(0x8000_0000_0000_0000, 44) == 0x80000000000
    ensures Rotl64(1, 45) == 0x200000000000 && Rotl64(0x8000_0000_0000_0000, 45) == 0x100000000000
    ensures Rotl64(1, 55) == 0x80000000000000 && Rotl64(0x8000_0000_0000_0000, 55) == 0x40000000000000
    ensures Rotl64(1, 56) == 0x100000000000000 && Rotl64(0x8000_0000_0000_0000, 56) == 0x80000000000000
    ensures Rotl64(1, 61) == 0x2000000000000000 && Rotl64(0x8000_0000_0000_0000, 61) == 0x1000000000000000
    ensures Rotl64(1, 62) == 0x4000000000000000 && Rotl64(0x8000_0000_0000_0000, 62) == 0x2000000000000000
  {
  }

  // ---------------------------------------------------------------------------
  // Bytes and padding
  // ---------------------------------------------------------------------------

  /** Byte k of a lane, counted from the lowest, is byte k of the string. */
  lemma LaneBytes(w: bv64)
    ensures Word64(WordBytes(w)) == w
    ensures WordBytes(w)[0] == (w & 0xFF) as bv8 && WordBytes(w)[1] == ((w >> 8) & 0xFF) as bv8
    ensures WordBytes(w)[2] == ((w >> 16) & 0xFF) as bv8 && WordBytes(w)[3] == ((w >> 24) & 0xFF) as bv8
    ensures WordBytes(w)[4] == ((w >> 32) & 0xFF) as bv8 && WordBytes(w)[5] == ((w >> 40) & 0xFF) as bv8
    ensures WordBytes(w)[6] == ((w >> 48) & 0xFF) as bv8 && WordBytes(w)[7] == (w >> 56) as bv8
  {
  }

  /** The bits of a byte, lowest first. */
  function BitsOf(b: bv8): (s: seq<bool>)
    ensures |s| == 8
  {
    [b & 1 != 0, b & 2 != 0, b & 4 != 0, b & 8 != 0, b & 16 != 0, b & 32 != 0, b & 64 != 0, b & 128 != 0]
  }

  function BitString(b: Bytes): (s: seq<bool>)
    ensures |s| == 8 * |b|
  {
    if b == [] then [] else BitString(b[..|b| - 1]) + BitsOf(b[|b| - 1])
  }

  function Falses(n: nat): (s: seq<bool>)
    ensures |s| == n && forall i :: 0 <= i < n ==> !s[i]
  {
    seq(n, i requires 0 <= i < n => false)
  }

  lemma {:induction false} ZeroBits(n: nat)
    ensures BitString(Zeros(n)) == Falses(8 * n)
  {
    if n == 0 {
      assert Zeros(0) == [];
    } else {
      ZeroBits(n - 1);
      assert Zeros(n)[..n - 1] == Zeros(n - 1);
    }
  }

  lemma BitStringSnoc(b: Bytes, last: bv8)
    ensures BitString(b + [last]) == BitString(b) + BitsOf(last)
  {
    assert (b + [last])[..|b|] == b;
  }

  lemma {:induction false} BitStringCons(first: bv8, b: Bytes)
    ensures BitString([first] + b) == BitsOf(first) + BitString(b)
    decreases |b|
  {
    hide BitsOf, BitString;
    BitStringNothing();
    if b == [] {
      assert [first] + b == [] + [first];
      BitStringSnoc([], first);
      assert [] + BitsOf(first) == BitsOf(first) + [];
    } else {
      var front, last := b[..|b| - 1], b[|b| - 1];
      BitStringCons(first, front);
      assert [first] + b == ([first] + front) + [last] && b == front + [last];
      BitStringSnoc([first] + front, last);
      BitStringSnoc(front, last);
      assert BitsOf(first) + BitString(front) + BitsOf(last) == BitsOf(first) + (BitString(front) + BitsOf(last));
    }
  }

  /** Main result: after a message of n bytes come the bits 01 of the hash functions, then a one, as few zeros as fill the last
      block of 576 bits, and a final one. */
  lemma PaddingBits(n: nat)
    ensures |BitString(Padding(n))| >= 4
    ensures var zeros := |BitString(Padding(n))| - 4;
            && BitString(Padding(n)) == [false, true, true] + Falses(zeros) + [true]
            && zeros < 576 && (8 * n + 4 + zeros) % 576 == 0
  {
    hide BitsOf, BitString, Padding;
    var room := RATE - n % RATE;
    PaddingIs(n);
    if room == 1 {
      OneByte();
    } else {
      ManyBytes(room - 2);
    }
  }

  lemma PaddingIs(n: nat)
    ensures Padding(n) == if n % RATE == RATE - 1 then [0x86] else [0x06] + Zeros(RATE - n % RATE - 2) + [0x80]
  {
  }

  lemma OneByte()
    ensures BitString([0x86]) == [false, true, true] + Falses(4) + [true]
  {
    hide BitsOf;
    PaddingBytes();
    BitStringNothing();
    BitStringSnoc([], 0x86);
    assert [] + [0x86 as bv8] == [0x86];
    assert [] + BitsOf(0x86) == BitsOf(0x86);
  }

  lemma ManyBytes(zeros: nat)
    ensures BitString([0x06] + Zeros(zeros) + [0x80]) == [false, true, true] + Falses(8 * zeros + 12) + [true]
  {
    hide BitsOf, BitString;
    PaddingBytes();
    ZeroBits(zeros);
    BitStringCons(0x06, Zeros(zeros));
    BitStringSnoc([0x06] + Zeros(zeros), 0x80);
    assert Falses(5) + Falses(8 * zeros) + Falses(7) == Falses(8 * zeros + 12);
  }

  lemma BitStringNothing()
    ensures BitString([]) == []
  {
  }

  lemma PaddingBytes()
    ensures BitsOf(0x06) == [false, true, true] + Falses(5)
    ensures BitsOf(0x80) == Falses(7) + [true]
    ensures BitsOf(0x86) == [false, true, true] + Falses(4) + [true]
  {
  }
}
