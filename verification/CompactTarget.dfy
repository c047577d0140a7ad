/** Compact encoding of proof-of-work targets: one exponent byte and a 23-bit mantissa. */
module CompactTarget {
  import opened Arith

  const SIGN: nat := 0x80_0000
  const EXPONENT_UNIT: nat := 0x100_0000

  type Bits = b: nat | b < 0x1_0000_0000

  function Exponent(bits: Bits): nat {
    bits / EXPONENT_UNIT
  }

  function Mantissa(bits: Bits): nat {
    bits % SIGN
  }

  predicate IsNegative(bits: Bits) {
    SIGN <= bits % EXPONENT_UNIT
  }

  predicate IsZero(bits: Bits) {
    Mantissa(bits) == 0
  }

  /** Joins a mantissa and an exponent; both lose what does not fit their field. */
  function Pack(exponent: nat, mantissa: nat): Bits {
    (exponent % 256) * EXPONENT_UNIT + mantissa % SIGN
  }

  function Expand(bits: Bits): nat {
    if Exponent(bits) <= 3
    then ShiftDown(Mantissa(bits), 3 - Exponent(bits))
    else ShiftUp(Mantissa(bits), Exponent(bits) - 3)
  }

  /** Number of bytes of the minimal big-endian form. */
  function NumBytes(t: nat): nat {
    if t == 0 then 0 else 1 + NumBytes(t / 256)
  }

  /** Minimal big-endian byte form. */
  function BytesBE(t: nat): (bs: seq<nat>)
    ensures |bs| == NumBytes(t)
    ensures forall i :: 0 <= i < |bs| ==> bs[i] < 256
  {
    if t == 0 then [] else BytesBE(t / 256) + [t % 256]
  }

  /** The leading three bytes of a target, left-aligned when it has fewer. */
  function LeadingMantissa(t: nat): nat {
    if NumBytes(t) <= 3 then ShiftUp(t, 3 - NumBytes(t)) else ShiftDown(t, NumBytes(t) - 3)
  }

  function FromTarget(t: nat): Bits {
    if t == 0 then 0
    else
      var m := LeadingMantissa(t);
      if m / SIGN % 2 == 1 then Pack(NumBytes(t) + 1, m / 256) else Pack(NumBytes(t), m)
  }

  predicate Overflows(bits: Bits, width: nat) {
    Mantissa(bits) != 0 &&
    (|| Exponent(bits) > width + 2
     || (Mantissa(bits) > 0xff && Exponent(bits) > width + 1)
     || (Mantissa(bits) > 0xffff && Exponent(bits) > width))
  }

  predicate IsCanonical(bits: Bits, width: nat) {
    if IsNegative(bits) || Overflows(bits, width) then false
    else if IsZero(bits) then bits == 0
    else FromTarget(Expand(bits)) == bits
  }

  // ---------------------------------------------------------------------------
  // Byte lengths
  // ---------------------------------------------------------------------------

  lemma {:induction false} NumBytesBounds(t: nat)
    requires 0 < t
    ensures 0 < NumBytes(t)
    ensures Pow256(NumBytes(t) - 1) <= t < Pow256(NumBytes(t))
  {
    if t < 256 {
      assert NumBytes(t / 256) == 0;
      Pow256Small();
    } else {
      NumBytesBounds(t / 256);
      assert t == 256 * (t / 256) + t % 256;
    }
  }

  lemma NumBytesUnique(t: nat, n: nat)
    requires 0 < n && Pow256(n - 1) <= t < Pow256(n)
    ensures NumBytes(t) == n
  {
    NumBytesBounds(t);
    if n < NumBytes(t) {
      Pow256Mono(n, NumBytes(t) - 1);
    } else if NumBytes(t) < n {
      Pow256Mono(NumBytes(t), n - 1);
    }
  }

  lemma NumBytesMono(a: nat, b: nat)
    requires a <= b
    ensures NumBytes(a) <= NumBytes(b)
  {
    if 0 < a {
      NumBytesBounds(a);
      NumBytesBounds(b);
      var n: nat := NumBytes(a) - 1;
      if NumBytes(b) <= n {
        Pow256Mono(NumBytes(b), n);
      }
    }
  }

  /** The byte k places from the right is read by shifting right by k bytes. */
  lemma {:induction false} ByteFromRight(t: nat, k: nat)
    requires k < NumBytes(t)
    ensures BytesBE(t)[NumBytes(t) - 1 - k] == ShiftDown(t, k) % 256
  {
    if k == 0 {
      assert ShiftDown(t, 0) == t;
    } else {
      ByteFromRight(t / 256, k - 1);
      ShiftSplit(t, k);
    }
  }

  lemma ShiftSplit(t: nat, k: nat)
    requires 0 < k
    ensures ShiftDown(t, k) == ShiftDown(t / 256, k - 1)
  {
    Pow256Step(k - 1);
    hide Pow256;
    DivDiv(t, 256, Pow256(k - 1));
  }

  // ---------------------------------------------------------------------------
  // The shape of an encoded target
  // ---------------------------------------------------------------------------

  /** Exponent and mantissa that `FromTarget` packs, and the unit they round to. */
  function Size(t: nat): nat {
    if LeadingMantissa(t) >= SIGN then NumBytes(t) + 1 else NumBytes(t)
  }

  function Digits(t: nat): nat {
    if LeadingMantissa(t) >= SIGN then LeadingMantissa(t) / 256 else LeadingMantissa(t)
  }

  function Unit(t: nat): (u: nat)
    ensures 0 < u
  {
    if Size(t) <= 3 then 1 else Pow256(Size(t) - 3)
  }

  /** The largest multiple of the unit at or below the target. */
  function RoundDown(t: nat): nat {
    Quotient(t, Unit(t)) * Unit(t)
  }

  lemma MantissaRange(t: nat)
    requires 0 < t
    ensures 0x1_0000 <= LeadingMantissa(t) < 0x100_0000
  {
    NumBytesBounds(t);
    Pow256Small();
    var n := NumBytes(t);
    if n <= 3 {
      Pow256Add(n - 1, 3 - n);
      Pow256Add(n, 3 - n);
      MulMono(Pow256(n - 1), t, Pow256(3 - n));
      MulStrictMono(t, Pow256(n), Pow256(3 - n));
    } else {
      Pow256Add(2, n - 3);
      Pow256Add(3, n - 3);
      DivAtLeast(t, Pow256(n - 3), 0x1_0000);
      DivAtMost(t, Pow256(n - 3), 0x100_0000 - 1);
    }
  }

  /** For every non-zero target the digits times the unit is the rounded target. */
  lemma EncodedShape(t: nat)
    requires 0 < t && NumBytes(t) < 255
    ensures 0x8000 <= Digits(t) < SIGN
    ensures 0 < Size(t) < 256
    ensures FromTarget(t) == Size(t) * EXPONENT_UNIT + Digits(t)
    ensures if Size(t) <= 3 then Digits(t) == ShiftUp(t, 3 - Size(t)) && RoundDown(t) == t
            else Digits(t) == Quotient(t, Unit(t)) && RoundDown(t) == Digits(t) * Unit(t)
    ensures RoundDown(t) <= t < RoundDown(t) + Unit(t)
  {
    hide Pow256, NumBytes, ShiftUp, ShiftDown, Quotient, RoundDown, LeadingMantissa, Unit;
    MantissaRange(t);
    DigitsOf(t);
    assert 0 < NumBytes(t) by { NumBytesBounds(t); }
    RoundDownBounds(t);
    PackedBits(LeadingMantissa(t), NumBytes(t));
  }

  lemma PackedBits(m: nat, n: nat)
    requires 0x1_0000 <= m < 0x100_0000 && n < 255
    ensures m / SIGN % 2 == 1 <==> m >= SIGN
    ensures m >= SIGN ==> Pack(n + 1, m / 256) == (n + 1) * EXPONENT_UNIT + m / 256
    ensures m < SIGN ==> Pack(n, m) == n * EXPONENT_UNIT + m
  {
  }

  lemma DigitsOf(t: nat)
    requires 0 < t
    ensures if Size(t) <= 3 then Digits(t) == ShiftUp(t, 3 - Size(t)) && RoundDown(t) == t
            else Digits(t) == Quotient(t, Unit(t)) && RoundDown(t) == Digits(t) * Unit(t)
  {
    var n := NumBytes(t);
    Pow256Small();
    assert n >= 3 ==> Pow256(n - 2) == 256 * Pow256(n - 3);
    assert n <= 2 ==> Pow256(3 - n) == 256 * Pow256(2 - n);
    hide Pow256, NumBytes;
    if LeadingMantissa(t) >= SIGN {
      if n <= 2 {
        DivOfMul(t * Pow256(2 - n), 256);
        assert LeadingMantissa(t) == t * (256 * Pow256(2 - n)) == (t * Pow256(2 - n)) * 256;
      } else if n == 3 {
        assert LeadingMantissa(t) == t * 1;
      } else {
        DivDiv(t, Pow256(n - 3), 256);
      }
    }
  }

  lemma ExpandPacked(size: nat, digits: nat)
    requires size < 256 && digits < SIGN
    ensures var b: Bits := size * EXPONENT_UNIT + digits;
            Exponent(b) == size && Mantissa(b) == digits && !IsNegative(b)
  {
  }

  /** Decoding an encoded target rounds it down to its unit. */
  lemma ExpandFromTarget(t: nat)
    requires NumBytes(t) < 255
    ensures Expand(FromTarget(t)) == RoundDown(t)
    ensures !IsNegative(FromTarget(t))
  {
    hide Pow256, NumBytes, ShiftUp, ShiftDown, Quotient, RoundDown, LeadingMantissa, Unit, Size, Digits, FromTarget,
         Exponent, Mantissa;
    if t == 0 {
      ExpandZero();
    } else {
      EncodedShape(t);
      ExpandPacked(Size(t), Digits(t));
      if Size(t) <= 3 {
        ShiftBack(t, 3 - Size(t));
      } else {
        UnitsUp(t);
      }
    }
  }

  lemma ExpandZero()
    ensures Expand(FromTarget(0)) == 0 && RoundDown(0) == 0 && !IsNegative(FromTarget(0))
  {
    assert Mantissa(0) == 0 && Exponent(0) == 0;
    RoundDownBounds(0);
  }

  lemma ShiftBack(t: nat, k: nat)
    ensures ShiftDown(ShiftUp(t, k), k) == t
  {
    DivOfMul(t, Pow256(k));
  }

  lemma UnitsUp(t: nat)
    requires 3 < Size(t)
    ensures ShiftUp(Digits(t), Size(t) - 3) == Digits(t) * Unit(t)
  {
    hide Pow256, Size, Digits;
  }

  lemma RoundDownBounds(t: nat)
    ensures RoundDown(t) <= t < RoundDown(t) + Unit(t)
  {
    hide Unit;
    assert t == (t / Unit(t)) * Unit(t) + t % Unit(t);
  }

  /** Rounding never increases a target and loses less than one part in 2^15. */
  lemma RoundingError(t: nat)
    requires 0 < t && NumBytes(t) < 255
    ensures RoundDown(t) <= t
    ensures (t - RoundDown(t)) * 0x8000 < t
    ensures 0 < RoundDown(t)
  {
    hide Pow256, NumBytes, Quotient, RoundDown, Digits, FromTarget, LeadingMantissa, Size, Unit, ShiftUp;
    EncodedShape(t);
    if Size(t) > 3 {
      MulMono(0x8000, Digits(t), Unit(t));
    }
  }

  /** Every target stays below 2^23 of its units. */
  lemma BelowTopUnit(t: nat)
    requires 0 < t && NumBytes(t) < 255
    ensures t < SIGN * Unit(t)
  {
    hide Pow256, NumBytes, Quotient, RoundDown, Digits, FromTarget, LeadingMantissa, Size, ShiftUp;
    EncodedShape(t);
    if Size(t) <= 3 {
      BelowShift(t, 3 - Size(t));
    } else {
      MulMono(Digits(t) + 1, SIGN, Unit(t));
    }
  }

  lemma BelowShift(t: nat, k: nat)
    ensures t <= ShiftUp(t, k)
  {
    hide Pow256;
    MulMono(1, Pow256(k), t);
  }

  lemma SizeMono(a: nat, b: nat)
    requires 0 < a <= b
    ensures Size(a) <= Size(b)
  {
    hide Pow256, NumBytes, Quotient;
    NumBytesMono(a, b);
    if NumBytes(a) == NumBytes(b) {
      if NumBytes(a) <= 3 {
        MulMono(a, b, Pow256(3 - NumBytes(a)));
      } else {
        assert Quotient(a, Pow256(NumBytes(a) - 3)) <= Quotient(b, Pow256(NumBytes(a) - 3)) by {
          QuotientMono(a, b, Pow256(NumBytes(a) - 3));
        }
      }
    }
  }

  lemma QuotientMono(a: nat, b: nat, d: nat)
    requires 0 < d && a <= b
    ensures Quotient(a, d) <= Quotient(b, d)
  {
    DivMono(a, b, d);
  }

  lemma UnitStep(a: nat, b: nat)
    requires 0 < a && 0 < b && Size(a) < Size(b) && 3 < Size(b)
    ensures 256 * Unit(a) <= Unit(b)
  {
    hide Size;
    Pow256Small();
    if Size(a) <= 3 {
      Pow256Mono(1, Size(b) - 3);
    } else {
      Pow256Mono(Size(a) - 2, Size(b) - 3);
      assert Pow256(Size(a) - 2) == 256 * Pow256(Size(a) - 3);
    }
  }

  /** Rounding keeps the order of targets. */
  lemma RoundDownMono(a: nat, b: nat)
    requires a <= b && NumBytes(b) < 255
    ensures RoundDown(a) <= RoundDown(b)
  {
    hide Pow256, NumBytes, Quotient, RoundDown, Digits, FromTarget, LeadingMantissa, Size, ShiftUp, Unit;
    if 0 < a {
      NumBytesMono(a, b);
      SizeMono(a, b);
      EncodedShape(a);
      EncodedShape(b);
      if Size(b) <= 3 {
      } else if Size(a) == Size(b) {
        SameUnit(a, b);
        QuotientMono(a, b, Unit(a));
        MulMono(Digits(a), Digits(b), Unit(a));
      } else {
        BelowTopUnit(a);
        UnitStep(a, b);
        MulMono(0x8000, Digits(b), Unit(b));
      }
    } else {
      assert RoundDown(0) == 0 by { RoundDownBounds(0); }
      assert 0 <= RoundDown(b);
    }
  }

  lemma SameUnit(a: nat, b: nat)
    requires Size(a) == Size(b)
    ensures Unit(a) == Unit(b)
  {
    hide Size, Pow256;
  }

  /** A rounded target has the same encoding. */
  lemma RoundDownStable(t: nat)
    requires NumBytes(t) < 255
    ensures FromTarget(RoundDown(t)) == FromTarget(t)
  {
    hide Pow256, NumBytes, RoundDown, LeadingMantissa, Quotient, ShiftUp, ShiftDown, Unit;
    if t == 0 {
      RoundDownBounds(0);
    } else {
      EncodedShape(t);
      if Size(t) > 3 {
        RoundingError(t);
        if LeadingMantissa(t) < SIGN {
          RoundedWithoutCarry(t);
        } else {
          RoundedWithCarry(t);
          assert LeadingMantissa(t) / 256 * 256 / 256 == LeadingMantissa(t) / 256;
          MantissaRange(t);
          PackedBits(LeadingMantissa(t), NumBytes(t));
          PackedBits(LeadingMantissa(t) / 256 * 256, NumBytes(t));
        }
      }
    }
  }

  /** The lowest n - 3 bytes are cleared; the leading three stay. */
  lemma RoundedWithoutCarry(t: nat)
    requires 0 < t && NumBytes(t) < 255 && LeadingMantissa(t) < SIGN && NumBytes(t) > 3
    ensures NumBytes(RoundDown(t)) == NumBytes(t)
    ensures LeadingMantissa(RoundDown(t)) == LeadingMantissa(t)
  {
    hide NumBytes, Pow256, LeadingMantissa, RoundDown, Quotient;
    var n, m, p := NumBytes(t), LeadingMantissa(t), Pow256(NumBytes(t) - 3);
    EncodedShape(t);
    MantissaRange(t);
    RoundedLength(t, m, n - 3);
    hide *;
    LeadingOfMultiple(RoundDown(t), m, n - 3);
  }

  /** The lowest n - 2 bytes are cleared and the sign bit still forces the larger exponent. */
  lemma RoundedWithCarry(t: nat)
    requires 0 < t && NumBytes(t) < 255 && SIGN <= LeadingMantissa(t) && NumBytes(t) > 2
    ensures NumBytes(RoundDown(t)) == NumBytes(t)
    ensures LeadingMantissa(RoundDown(t)) == LeadingMantissa(t) / 256 * 256
  {
    hide NumBytes, Pow256, LeadingMantissa, RoundDown, Quotient;
    var n, d, p := NumBytes(t), LeadingMantissa(t) / 256, Pow256(NumBytes(t) - 3);
    EncodedShape(t);
    MantissaRange(t);
    assert RoundDown(t) == d * Pow256(n - 2);
    hide *;
    Pow256Step(n - 3);
    assert d * (256 * p) == (d * 256) * p;
    RoundedLength(t, d * 256, n - 3);
    LeadingOfMultiple(RoundDown(t), d * 256, n - 3);
  }

  lemma Pow256Step(k: nat)
    ensures Pow256(k + 1) == 256 * Pow256(k)
  {
  }

  lemma RoundedLength(t: nat, m: nat, k: nat)
    requires 0 < t && NumBytes(t) == k + 3
    requires RoundDown(t) == m * Pow256(k) <= t && 0x1_0000 <= m
    ensures NumBytes(RoundDown(t)) == NumBytes(t)
  {
    hide *;
    NumBytesBounds(t);
    Pow256Add(2, k);
    Pow256Small();
    MulMono(0x1_0000, m, Pow256(k));
    NumBytesUnique(RoundDown(t), k + 3);
  }

  lemma LeadingOfMultiple(r: nat, d: nat, k: nat)
    requires NumBytes(r) == k + 3 && r == d * Pow256(k)
    ensures LeadingMantissa(r) == d
  {
    hide NumBytes;
    if k == 0 {
      Pow256Small();
    } else {
      hide Pow256;
      DivOfMul(d, Pow256(k));
    }
  }

  // ---------------------------------------------------------------------------
  // Main results
  // ---------------------------------------------------------------------------

  /** Encoding and decoding a target is an idempotent, order-preserving rounding down
      whose relative error stays below 2^-15. */
  lemma CompactRounding(s: nat, t: nat)
    requires s <= t && t < Pow256(64)
    ensures Expand(FromTarget(t)) <= t
    ensures 0 < t ==> (t - Expand(FromTarget(t))) * 0x8000 < t
    ensures Expand(FromTarget(s)) <= Expand(FromTarget(t))
    ensures FromTarget(Expand(FromTarget(t))) == FromTarget(t)
  {
    SmallTarget(t);
    SmallTarget(s);
    ExpandFromTarget(s);
    ExpandFromTarget(t);
    RoundDownMono(s, t);
    RoundDownStable(t);
    if 0 < t {
      RoundingError(t);
    }
  }

  lemma SmallTarget(t: nat)
    requires t < Pow256(64)
    ensures NumBytes(t) <= 64
  {
    if 0 < t {
      NumBytesBounds(t);
      if 64 < NumBytes(t) {
        Pow256Mono(64, NumBytes(t) - 1);
      }
    }
  }

  /** The overflow test of the code is exactly "the expansion needs more than 64 bytes". */
  lemma OverflowsExact(bits: Bits)
    ensures Overflows(bits, 64) <==> Pow256(64) <= Expand(bits)
  {
    hide Expand, Pow256, Mantissa, Exponent;
    ExpandCases(bits);
    var e, m := Exponent(bits), Mantissa(bits);
    Pow256Small();
    Pow256Mono(3, 64);
    if 3 < e <= 63 {
      Pow256Add(3, 61);
      Pow256Mono(e - 3, 61);
      ProductBelow(m, 0x100_0000, Pow256(e - 3), Pow256(61));
    } else if e >= 67 {
      Pow256Mono(64, e - 3);
      if m != 0 {
        MulMono(1, m, Pow256(e - 3));
      }
    } else if e > 63 {
      Pow256Add(67 - e, e - 3);
      CompareMultiples(m, Pow256(67 - e), Pow256(e - 3));
    }
  }

  lemma ExpandCases(bits: Bits)
    ensures Mantissa(bits) < SIGN && Exponent(bits) < 256
    ensures Exponent(bits) <= 3 ==> Expand(bits) <= Mantissa(bits)
    ensures Exponent(bits) > 3 ==> Expand(bits) == Mantissa(bits) * Pow256(Exponent(bits) - 3)
  {
    hide Pow256;
    if Exponent(bits) <= 3 {
      var p := Pow256(3 - Exponent(bits));
      MulMono(1, p, Mantissa(bits) + 1);
      DivAtMost(Mantissa(bits), p, Mantissa(bits));
    }
  }

  lemma ProductBelow(a: nat, b: nat, p: nat, q: nat)
    requires a < b && p <= q && 0 < q
    ensures a * p < b * q
  {
    MulMono(p, q, a);
    MulStrictMono(a, b, q);
  }

  lemma CompareMultiples(a: nat, b: nat, c: nat)
    requires 0 < c
    ensures b * c <= a * c <==> b <= a
  {
    if b <= a {
      MulMono(b, a, c);
    } else {
      MulStrictMono(a, b, c);
    }
  }

  lemma FromTargetFits(t: nat)
    requires t < Pow256(64)
    ensures IsCanonical(FromTarget(t), 64)
    ensures t != 0 ==> !IsZero(FromTarget(t)) && 0 < Expand(FromTarget(t))
  {
    SmallTarget(t);
    CompactRounding(t, t);
    OverflowsExact(FromTarget(t));
    ExpandFromTarget(t);
    if t != 0 {
      EncodedShape(t);
      ExpandPacked(Size(t), Digits(t));
      RoundingError(t);
    }
  }

  /** Canonical encodings are exactly the encodings of targets below 2^512. */
  lemma CanonicalIsImage(bits: Bits)
    ensures IsCanonical(bits, 64) <==> exists t: nat :: t < Pow256(64) && FromTarget(t) == bits
  {
    if IsCanonical(bits, 64) {
      OverflowsExact(bits);
      var t := if IsZero(bits) then 0 else Expand(bits);
      assert t < Pow256(64) && FromTarget(t) == bits;
    }
    forall t: nat | t < Pow256(64) && FromTarget(t) == bits
      ensures IsCanonical(bits, 64)
    {
      FromTargetFits(t);
    }
  }

  /** A size with a mantissa in its upper range encodes the target it stands for. */
  lemma NormalisedEncoding(size: nat, m: nat)
    requires 4 <= size <= 64 && 0x8000 <= m < SIGN
    ensures FromTarget(m * Pow256(size - 3)) == size * EXPONENT_UNIT + m
  {
    hide Pow256, NumBytes, LeadingMantissa, FromTarget;
    var p := Pow256(size - 3);
    if 0x1_0000 <= m {
      NormalisedLength(m * p, m, size - 3);
      FromLeading(m * p, m, size);
    } else {
      Pow256Step(size - 4);
      MulAssoc(m, 256, Pow256(size - 4));
      NormalisedLength(m * p, m * 256, size - 4);
      FromLeading(m * p, m * 256, size - 1);
    }
  }

  lemma FromLeading(t: nat, d: nat, n: nat)
    requires NumBytes(t) == n && LeadingMantissa(t) == d && 0x1_0000 <= d < 0x100_0000 && 0 < n < 255
    ensures FromTarget(t) == if d < SIGN then n * EXPONENT_UNIT + d else (n + 1) * EXPONENT_UNIT + d / 256
  {
    hide LeadingMantissa;
    PackedBits(d, n);
  }

  lemma NormalisedLength(t: nat, d: nat, k: nat)
    requires 0x1_0000 <= d < 0x100_0000 && t == d * Pow256(k)
    ensures NumBytes(t) == k + 3 && LeadingMantissa(t) == d
  {
    hide Pow256, NumBytes, LeadingMantissa;
    Pow256Small();
    Pow256Add(2, k);
    Pow256Add(3, k);
    MulMono(0x1_0000, d, Pow256(k));
    MulStrictMono(d, 0x100_0000, Pow256(k));
    NumBytesUnique(t, k + 3);
    LeadingOfMultiple(t, d, k);
  }

  /** A canonical encoding of a target is recovered from its expansion. */
  lemma CanonicalRoundTrip(bits: Bits)
    requires IsCanonical(bits, 64)
    ensures Expand(bits) < Pow256(64) && FromTarget(Expand(bits)) == bits
  {
    OverflowsExact(bits);
    if IsZero(bits) {
      assert Expand(bits) == 0;
    }
  }

  /** `from_target` as the code runs it: over the big-endian bytes, three at most. */
  method EncodeTarget(t: nat) returns (bits: Bits)
    ensures bits == FromTarget(t)
  {
    hide Pow256, NumBytes, BytesBE, ShiftUp, ShiftDown, Quotient;
    var bytes := BytesBE(t);
    var size := |bytes|;
    ZeroBytes(t);
    if size == 0 {
      return 0;
    }
    var mantissa: nat := 0;
    ShiftEnds(t);
    if size <= 3 {
      for i := 0 to size
        invariant mantissa == ShiftDown(t, size - i)
      {
        NextByte(t, i);
        mantissa := mantissa * 256 + bytes[i];
      }
      mantissa := ShiftUp(mantissa, 3 - size);
    } else {
      mantissa := bytes[0] * 0x1_0000 + bytes[1] * 0x100 + bytes[2];
      NextByte(t, 0);
      NextByte(t, 1);
      NextByte(t, 2);
    }
    var exponent := size;
    if mantissa / SIGN % 2 == 1 {
      mantissa := mantissa / 256;
      exponent := exponent + 1;
    }
    bits := Pack(exponent, mantissa);
  }

  lemma ZeroBytes(t: nat)
    ensures NumBytes(t) == 0 <==> t == 0
  {
  }

  /** Reading one more leading byte undoes one byte of the right shift. */
  lemma NextByte(t: nat, i: nat)
    requires i < NumBytes(t)
    ensures ShiftDown(t, NumBytes(t) - i) * 256 + BytesBE(t)[i] == ShiftDown(t, NumBytes(t) - i - 1)
  {
    hide *;
    ByteFromRight(t, NumBytes(t) - i - 1);
    ShiftStep(t, NumBytes(t) - i - 1);
  }

  lemma ShiftStep(t: nat, k: nat)
    ensures ShiftDown(t, k + 1) == ShiftDown(t, k) / 256
  {
    Pow256Step(k);
    hide Pow256;
    DivDiv(t, Pow256(k), 256);
  }

  lemma ShiftEnds(t: nat)
    ensures ShiftDown(t, NumBytes(t)) == 0
    ensures ShiftDown(t, 0) == t
  {
    hide Pow256, NumBytes;
    if 0 < t {
      NumBytesBounds(t);
      DivAtMost(t, Pow256(NumBytes(t)), 0);
    } else {
      NoBytes();
    }
    assert Pow256(0) == 1 by { NoBytes(); }
  }

  lemma NoBytes()
    ensures NumBytes(0) == 0 && Pow256(0) == 1
  {
  }
}
