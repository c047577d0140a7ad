/** Bech32 text as in BIP 173: the checksum is the remainder of a linear code, so the generated one verifies. */
module Bech32 {
  import opened Arith
  import opened Primitives
  import opened BitStrings

  // ---------------------------------------------------------------------------
  // The checksum
  // ---------------------------------------------------------------------------

  /** A group of five bits as a word. */
  function Word(v: nat): bv32
    requires v < 32
  {
    (v as bv8) as bv32
  }

  const ONE: bv32 := 1

  function Xor32(a: bv32, b: bv32): bv32 {
    a ^ b
  }

  function Tap(top: bv32, bit: bv32, tap: bv32): bv32 {
    if top & bit != 0 then tap else 0
  }

  /** The generator taps selected by the five bits that fall out. */
  function Taps(top: bv32): bv32 {
    Xor32(Xor32(Tap(top, 1, 0x3b6a57b2), Tap(top, 2, 0x26508e6d)),
          Xor32(Xor32(Tap(top, 4, 0x1ea119fa), Tap(top, 8, 0x3d4233dd)), Tap(top, 16, 0x2a1462b3)))
  }

  function Shifted(chk: bv32): bv32 {
    (chk & 0x1ffffff) << 5
  }

  function Top(chk: bv32): bv32 {
    chk >> 25
  }

  function Step(chk: bv32, v: bv32): bv32 {
    Xor32(Xor32(Shifted(chk), v), Taps(Top(chk)))
  }

  /** The state after the groups, from a starting state. */
  function Run(chk: bv32, values: seq<nat>): bv32
    requires Fit(values, 5)
  {
    if values == [] then chk
    else
      SmallGroups(values);
      Step(Run(chk, values[..|values| - 1]), Word(values[|values| - 1]))
  }

  lemma SmallGroups(values: seq<nat>)
    requires Fit(values, 5)
    ensures forall i :: 0 <= i < |values| ==> values[i] < 32
  {
    assert Pow2(5) == 32 by { FiveBits(); }
  }

  lemma FiveBits()
    ensures Pow2(5) == 32 && Pow2(8) == 256
  {
  }

  function Polymod(values: seq<nat>): bv32
    requires Fit(values, 5)
  {
    Run(ONE, values)
  }

  method ComputePolymod(values: seq<nat>) returns (chk: bv32)
    requires Fit(values, 5)
    ensures chk == Polymod(values)
  {
    hide Step, Word, Pow2;
    chk := ONE;
    SmallGroups(values);
    RunNothing(ONE);
    assert values[..0] == [];
    for i := 0 to |values|
      invariant chk == Run(ONE, values[..i])
    {
      RunSnoc(ONE, values[..i], values[i]);
      assert values[..i + 1] == values[..i] + [values[i]];
      chk := Step(chk, Word(values[i]));
    }
    assert values[..|values|] == values;
  }

  lemma RunNothing(chk: bv32)
    ensures Run(chk, []) == chk
  {
    hide Pow2;
  }

  lemma RunSnoc(chk: bv32, values: seq<nat>, v: nat)
    requires Fit(values, 5) && v < 32
    ensures Fit(values + [v], 5) && Run(chk, values + [v]) == Step(Run(chk, values), Word(v))
  {
    hide Step, Word, Pow2;
    FiveBits();
    assert (values + [v])[..|values|] == values;
  }

  lemma {:induction false} RunJoin(chk: bv32, a: seq<nat>, b: seq<nat>)
    requires Fit(a, 5) && Fit(b, 5)
    ensures Fit(a + b, 5) && Run(chk, a + b) == Run(Run(chk, a), b)
    decreases |b|
  {
    hide Step, Word, Pow2, Run;
    if b == [] {
      assert a + b == a;
      RunNothing(Run(chk, a));
    } else {
      var front, last := b[..|b| - 1], b[|b| - 1];
      SmallGroups(b);
      RunJoin(chk, a, front);
      RunSnoc(chk, a + front, last);
      RunSnoc(Run(chk, a), front, last);
      assert a + b == (a + front) + [last];
      assert b == front + [last];
    }
  }

  lemma Swap(a: bv32, b: bv32, c: bv32, d: bv32)
    ensures Xor32(Xor32(a, b), Xor32(c, d)) == Xor32(Xor32(a, c), Xor32(b, d))
  {
    hide Xor32;
    XorAssociative(a, b, Xor32(c, d));
    XorAssociative(b, c, d);
    XorCommutative(b, c);
    XorAssociative(c, b, d);
    XorAssociative(a, c, Xor32(b, d));
  }

  lemma XorAssociative(a: bv32, b: bv32, c: bv32)
    ensures Xor32(Xor32(a, b), c) == Xor32(a, Xor32(b, c))
  {
  }

  lemma XorCommutative(a: bv32, b: bv32)
    ensures Xor32(a, b) == Xor32(b, a)
  {
  }

  lemma ShiftLinear(a: bv32, b: bv32)
    ensures Shifted(Xor32(a, b)) == Xor32(Shifted(a), Shifted(b))
    ensures Top(Xor32(a, b)) == Xor32(Top(a), Top(b))
  {
  }

  predicate SingleBit(bit: bv32) {
    bit == 1 || bit == 2 || bit == 4 || bit == 8 || bit == 16
  }

  lemma BitOfXor(a: bv32, b: bv32, bit: bv32)
    requires SingleBit(bit)
    ensures ((a ^ b) & bit != 0) == ((a & bit != 0) != (b & bit != 0))
  {
    AndXor(a, b, bit);
    var x, y := a & bit, b & bit;
    assert x == 0 || x == bit;
    assert y == 0 || y == bit;
  }

  lemma AndXor(a: bv32, b: bv32, bit: bv32)
    ensures (a ^ b) & bit == (a & bit) ^ (b & bit)
  {
  }

  lemma XorCases(k: bv32)
    ensures Xor32(k, k) == 0 && Xor32(k, 0) == k && Xor32(0, k) == k && Xor32(0, 0) == 0
  {
  }

  lemma TapLinear(a: bv32, b: bv32, bit: bv32, tap: bv32)
    requires SingleBit(bit)
    ensures Tap(Xor32(a, b), bit, tap) == Xor32(Tap(a, bit, tap), Tap(b, bit, tap))
  {
    hide SingleBit;
    BitOfXor(a, b, bit);
    XorCases(tap);
  }

  lemma TapsLinear(a: bv32, b: bv32)
    ensures Taps(Xor32(a, b)) == Xor32(Taps(a), Taps(b))
  {
    hide Xor32, Tap;
    TapLinear(a, b, 1, 0x3b6a57b2);
    TapLinear(a, b, 2, 0x26508e6d);
    TapLinear(a, b, 4, 0x1ea119fa);
    TapLinear(a, b, 8, 0x3d4233dd);
    TapLinear(a, b, 16, 0x2a1462b3);
    var a1, a2, a3, a4, a5 := Tap(a, 1, 0x3b6a57b2), Tap(a, 2, 0x26508e6d), Tap(a, 4, 0x1ea119fa), Tap(a, 8, 0x3d4233dd), Tap(a, 16, 0x2a1462b3);
    var b1, b2, b3, b4, b5 := Tap(b, 1, 0x3b6a57b2), Tap(b, 2, 0x26508e6d), Tap(b, 4, 0x1ea119fa), Tap(b, 8, 0x3d4233dd), Tap(b, 16, 0x2a1462b3);
    Swap(a1, b1, a2, b2);
    Swap(a3, b3, a4, b4);
    Swap(Xor32(a3, a4), Xor32(b3, b4), a5, b5);
    Swap(Xor32(a1, a2), Xor32(b1, b2), Xor32(Xor32(a3, a4), a5), Xor32(Xor32(b3, b4), b5));
  }

  /** The code is linear. */
  lemma StepLinear(a: bv32, b: bv32, u: bv32, v: bv32)
    ensures Step(Xor32(a, b), Xor32(u, v)) == Xor32(Step(a, u), Step(b, v))
  {
    hide Xor32, Taps, Shifted, Top;
    ShiftLinear(a, b);
    TapsLinear(Top(a), Top(b));
    Swap(Shifted(a), Shifted(b), u, v);
    Swap(Xor32(Shifted(a), u), Xor32(Shifted(b), v), Taps(Top(a)), Taps(Top(b)));
  }

  function ZeroGroups(n: nat): (z: seq<nat>)
    ensures |z| == n && Fit(z, 5) && forall i :: 0 <= i < n ==> z[i] == 0
  {
    FiveBits();
    seq(n, i requires 0 <= i < n => 0)
  }

  lemma WordOfZero()
    ensures Word(0) == 0
  {
  }

  /** Running from a state is running zeros from it and the groups from nothing. */
  lemma {:induction false} RunLinear(chk: bv32, values: seq<nat>)
    requires Fit(values, 5)
    ensures Run(chk, values) == Xor32(Run(chk, ZeroGroups(|values|)), Run(0, values))
    decreases |values|
  {
    hide Xor32, Step, Word, Pow2, Run;
    var n := |values|;
    XorCases(chk);
    if n == 0 {
      RunNothing(chk);
      RunNothing(0);
      assert values == [] && ZeroGroups(0) == [];
    } else {
      var front, last := values[..n - 1], values[n - 1];
      SmallGroups(values);
      RunLinear(chk, front);
      RunSnoc(chk, front, last);
      RunSnoc(0, front, last);
      RunSnoc(chk, ZeroGroups(n - 1), 0);
      assert values == front + [last];
      assert ZeroGroups(n) == ZeroGroups(n - 1) + [0];
      WordOfZero();
      XorCases(Word(last));
      StepLinear(Run(chk, ZeroGroups(n - 1)), Run(0, front), 0, Word(last));
    }
  }

  const LIMIT: bv32 := 0x4000_0000

  lemma StepBound(chk: bv32, v: bv32)
    requires v < 32
    ensures Step(chk, v) < LIMIT
  {
    hide Tap;
    TapsBound(Top(chk));
    ShiftBound(chk, v);
    XorBound(Xor32(Shifted(chk), v), Taps(Top(chk)));
  }

  lemma ShiftBound(chk: bv32, v: bv32)
    requires v < 32
    ensures Xor32(Shifted(chk), v) < LIMIT
  {
  }

  lemma XorBound(a: bv32, b: bv32)
    requires a < LIMIT && b < LIMIT
    ensures Xor32(a, b) < LIMIT
  {
  }

  lemma TapsBound(top: bv32)
    ensures Taps(top) < LIMIT
  {
    hide Xor32;
    var t1, t2, t3, t4, t5 := Tap(top, 1, 0x3b6a57b2), Tap(top, 2, 0x26508e6d), Tap(top, 4, 0x1ea119fa), Tap(top, 8, 0x3d4233dd), Tap(top, 16, 0x2a1462b3);
    XorBound(t1, t2);
    XorBound(t3, t4);
    XorBound(Xor32(t3, t4), t5);
    XorBound(Xor32(t1, t2), Xor32(Xor32(t3, t4), t5));
  }

  lemma WordBound(v: nat)
    requires v < 32
    ensures Word(v) < 32
  {
  }

  lemma RunBound(values: seq<nat>)
    requires Fit(values, 5)
    ensures Polymod(values) < LIMIT
  {
    hide Step, Word, Pow2;
    if values != [] {
      SmallGroups(values);
      WordBound(values[|values| - 1]);
      StepBound(Run(ONE, values[..|values| - 1]), Word(values[|values| - 1]));
    }
  }

  // ---------------------------------------------------------------------------
  // The field behind the taps
  // ---------------------------------------------------------------------------

  /** Twice an element of the field of 32 elements, x^5 being x^3 + 1. */
  function Twice(a: bv32): bv32 {
    ((a << 1) & 31) ^ (if a & 16 != 0 then 9 else 0)
  }

  /** The product of two elements of the field. */
  function Times(a: bv32, b: bv32): bv32 {
    (if a & 1 != 0 then b else 0) ^ (if a & 2 != 0 then Twice(b) else 0) ^ (if a & 4 != 0 then Twice(Twice(b)) else 0)
    ^ (if a & 8 != 0 then Twice(Twice(Twice(b))) else 0) ^ (if a & 16 != 0 then Twice(Twice(Twice(Twice(b)))) else 0)
  }

  /** Six elements as one word, highest first. */
  function Pack(c5: bv32, c4: bv32, c3: bv32, c2: bv32, c1: bv32, c0: bv32): bv32 {
    (c5 << 25) | (c4 << 20) | (c3 << 15) | (c2 << 10) | (c1 << 5) | c0
  }

  /** A multiple of the generator, without its leading term. */
  function Multiple(a: bv32): bv32 {
    Pack(Times(a, 29), Times(a, 22), Times(a, 20), Times(a, 21), Times(a, 29), Times(a, 18))
  }

  /** Main result: the taps are the multiples of the generator x^6 + 29x^5 + 22x^4 + 20x^3 + 21x^2 + 29x + 18 (section
      "Checksum" of BIP 173), so each step multiplies by x, adds the group and takes the remainder. */
  lemma TapsAreMultiples(top: bv32)
    requires top < 32
    ensures Taps(top) == Multiple(top)
  {
    hide Taps, Multiple;
    Multiples0();
    Multiples8();
    Multiples16();
    Multiples24();
  }

  lemma Multiples0()
    ensures Taps(0) == Multiple(0)
    ensures Taps(1) == Multiple(1)
    ensures Taps(2) == Multiple(2)
    ensures Taps(3) == Multiple(3)
    ensures Taps(4) == Multiple(4)
    ensures Taps(5) == Multiple(5)
    ensures Taps(6) == Multiple(6)
    ensures Taps(7) == Multiple(7)
  {
  }

  lemma Multiples8()
    ensures Taps(8) == Multiple(8)
    ensures Taps(9) == Multiple(9)
    ensures Taps(10) == Multiple(10)
    ensures Taps(11) == Multiple(11)
    ensures Taps(12) == Multiple(12)
    ensures Taps(13) == Multiple(13)
    ensures Taps(14) == Multiple(14)
    ensures Taps(15) == Multiple(15)
  {
  }

  lemma Multiples16()
    ensures Taps(16) == Multiple(16)
    ensures Taps(17) == Multiple(17)
    ensures Taps(18) == Multiple(18)
    ensures Taps(19) == Multiple(19)
    ensures Taps(20) == Multiple(20)
    ensures Taps(21) == Multiple(21)
    ensures Taps(22) == Multiple(22)
    ensures Taps(23) == Multiple(23)
  {
  }

  lemma Multiples24()
    ensures Taps(24) == Multiple(24)
    ensures Taps(25) == Multiple(25)
    ensures Taps(26) == Multiple(26)
    ensures Taps(27) == Multiple(27)
    ensures Taps(28) == Multiple(28)
    ensures Taps(29) == Multiple(29)
    ensures Taps(30) == Multiple(30)
    ensures Taps(31) == Multiple(31)
  {
  }

  // ---------------------------------------------------------------------------
  // The generated checksum
  // ---------------------------------------------------------------------------

  function Tail(m: bv32): bv32 {
    m & 31
  }

  function Shift10(m: bv32): bv32 {
    m >> 10
  }

  function Shift15(m: bv32): bv32 {
    m >> 15
  }

  function Shift20(m: bv32): bv32 {
    m >> 20
  }

  function Shift25(m: bv32): bv32 {
    m >> 25
  }

  function Drop(m: bv32): bv32 {
    m >> 5
  }

  function Group(m: bv32): (v: nat)
    ensures v < 32
  {
    GroupSmall(Tail(m) as bv8);
    (Tail(m) as bv8) as nat
  }

  lemma GroupSmall(b: bv8)
    ensures b < 32 ==> (b as nat) < 32
  {
  }

  lemma GroupWord(m: bv32)
    ensures Word(Group(m)) == Tail(m)
  {
    ByteBack(Tail(m) as bv8);
  }

  lemma ByteBack(b: bv8)
    ensures ((b as nat) as bv8) == b
  {
  }

  /** While no bit falls out, a step appends five bits. */
  lemma Append(x: bv32)
    requires x < LIMIT
    ensures Step(Drop(x), Tail(x)) == x
  {
    hide Drop, Tail, Taps, Xor32, Shifted, Top;
    NothingFalls(x);
    XorCases(x);
    JoinBits(x);
  }

  lemma NothingFalls(x: bv32)
    requires x < LIMIT
    ensures Taps(Top(Drop(x))) == 0
  {
    assert Top(Drop(x)) == 0;
    hide Xor32, Top;
    XorCases(0);
  }

  lemma JoinBits(x: bv32)
    requires x < LIMIT
    ensures Xor32(Shifted(Drop(x)), Tail(x)) == x
  {
  }

  /** The number without its last 5 * (6 - k) bits. */
  function Part(m: bv32, k: nat): bv32
    requires k <= 6
    decreases 6 - k
  {
    if k == 6 then m else Drop(Part(m, k + 1))
  }

  lemma Drop10(m: bv32)
    ensures Drop(Drop(m)) == Shift10(m)
  {
  }

  lemma Drop15(m: bv32)
    ensures Drop(Shift10(m)) == Shift15(m)
  {
  }

  lemma Drop20(m: bv32)
    ensures Drop(Shift15(m)) == Shift20(m)
  {
  }

  lemma Drop25(m: bv32)
    ensures Drop(Shift20(m)) == Shift25(m)
  {
  }

  lemma DropAll(m: bv32)
    requires m < LIMIT
    ensures Drop(Shift25(m)) == 0
  {
  }

  lemma PartIs(m: bv32, k: nat)
    requires k < 6
    ensures Part(m, k) == Drop(Part(m, k + 1)) && Part(m, 6) == m
  {
  }

  lemma Parts(m: bv32)
    ensures Part(m, 6) == m && Part(m, 5) == Drop(m) && Part(m, 4) == Shift10(m) && Part(m, 3) == Shift15(m)
    ensures Part(m, 2) == Shift20(m) && Part(m, 1) == Shift25(m)
    ensures m < LIMIT ==> Part(m, 0) == 0
  {
    hide *;
    Drop10(m);
    Drop15(m);
    Drop20(m);
    Drop25(m);
    if m < LIMIT { DropAll(m); }
    PartIs(m, 5);
    PartIs(m, 4);
    PartIs(m, 3);
    PartIs(m, 2);
    PartIs(m, 1);
    PartIs(m, 0);
  }

  lemma {:induction false} PartBound(m: bv32, k: nat)
    requires k <= 6 && m < LIMIT
    ensures Part(m, k) < LIMIT
    decreases 6 - k
  {
    hide Drop;
    if k < 6 {
      PartBound(m, k + 1);
      DropSmaller(Part(m, k + 1));
    }
  }

  lemma DropSmaller(x: bv32)
    requires x < LIMIT
    ensures Drop(x) < LIMIT
  {
  }

  /** Six groups of five bits, highest first. */
  function Checks(m: bv32): (c: seq<nat>)
    ensures |c| == 6 && Fit(c, 5)
  {
    FiveBits();
    [Group(Shift25(m)), Group(Shift20(m)), Group(Shift15(m)), Group(Shift10(m)), Group(Drop(m)), Group(m)]
  }

  lemma ChecksAt(m: bv32, i: nat)
    requires i < 6
    ensures Checks(m)[i] == Group(Part(m, i + 1))
  {
    hide Group, Part, Shift10, Shift15, Shift20, Shift25, Drop;
    Parts(m);
    if i == 0 {} else if i == 1 {} else if i == 2 {} else if i == 3 {} else if i == 4 {} else {}
  }

  lemma FitPrefix(values: seq<nat>, k: nat)
    requires Fit(values, 5) && k <= |values|
    ensures Fit(values[..k], 5)
  {
  }

  lemma {:induction false} ChecksPrefix(m: bv32, k: nat)
    requires m < LIMIT && k <= 6
    ensures Run(0, Checks(m)[..k]) == Part(m, k)
    decreases k
  {
    hide *;
    var c := Checks(m);
    if k == 0 {
      RunNothing(0);
      Parts(m);
      assert c[..0] == [];
    } else {
      ChecksPrefix(m, k - 1);
      PartIs(m, k - 1);
      PartBound(m, k);
      ChecksAt(m, k - 1);
      FitPrefix(c, k - 1);
      RunSnoc(0, c[..k - 1], c[k - 1]);
      assert c[..k] == c[..k - 1] + [c[k - 1]];
      GroupWord(Part(m, k));
      Append(Part(m, k));
    }
  }

  /** The checks of a number, run from nothing, are the number. */
  lemma ChecksRun(m: bv32)
    requires m < LIMIT
    ensures Run(0, Checks(m)) == m
  {
    hide *;
    ChecksPrefix(m, 6);
    Parts(m);
    assert Checks(m)[..6] == Checks(m);
  }

  /** The checksum of groups: what makes the whole run end in one. */
  function Checksum(values: seq<nat>): (c: seq<nat>)
    requires Fit(values, 5)
    ensures |c| == 6 && Fit(c, 5)
  {
    Checks(Xor32(Polymod(values + ZeroGroups(6)), ONE))
  }

  predicate Verifies(values: seq<nat>)
    requires Fit(values, 5)
  {
    Polymod(values) == ONE
  }

  lemma XorBack(a: bv32)
    ensures Xor32(a, Xor32(a, ONE)) == ONE
  {
  }

  lemma XorOneBound(a: bv32)
    requires a < LIMIT
    ensures Xor32(a, ONE) < LIMIT
  {
  }

  /** Main result: the generated checksum always verifies. */
  lemma ChecksumVerifies(values: seq<nat>)
    requires Fit(values, 5)
    ensures Fit(values + Checksum(values), 5) && Verifies(values + Checksum(values))
  {
    hide Xor32, Pow2, Run, Checks;
    var after := Polymod(values + ZeroGroups(6));
    var m := Xor32(after, ONE);
    RunBound(values + ZeroGroups(6));
    XorOneBound(after);
    ChecksRun(m);
    RunJoin(ONE, values, Checks(m));
    RunJoin(ONE, values, ZeroGroups(6));
    RunLinear(Run(ONE, values), Checks(m));
    XorBack(after);
  }

  // ---------------------------------------------------------------------------
  // Text
  // ---------------------------------------------------------------------------

  /** The alphabet qpzry9x8gf2tvdw0s3jn54khce6mua7l. */
  function Letter(v: nat): char
    requires v < 32
  {
    match v
    case 0 => 'q' case 1 => 'p' case 2 => 'z' case 3 => 'r' case 4 => 'y' case 5 => '9' case 6 => 'x' case 7 => '8'
    case 8 => 'g' case 9 => 'f' case 10 => '2' case 11 => 't' case 12 => 'v' case 13 => 'd' case 14 => 'w' case 15 => '0'
    case 16 => 's' case 17 => '3' case 18 => 'j' case 19 => 'n' case 20 => '5' case 21 => '4' case 22 => 'k' case 23 => 'h'
    case 24 => 'c' case 25 => 'e' case 26 => '6' case 27 => 'm' case 28 => 'u' case 29 => 'a' case 30 => '7' case _ => 'l'
  }

  /** The alphabet in the order of BIP 173. */
  lemma Alphabet(v: nat)
    requires v < 32
    ensures Letter(v) == "qpzry9x8gf2tvdw0s3jn54khce6mua7l"[v]
  {
  }

  function GroupOf(c: char): (v: Option<nat>)
    ensures v.Some? ==> v.value < 32
  {
    match c
    case 'q' => Some(0) case 'p' => Some(1) case 'z' => Some(2) case 'r' => Some(3)
    case 'y' => Some(4) case '9' => Some(5) case 'x' => Some(6) case '8' => Some(7)
    case 'g' => Some(8) case 'f' => Some(9) case '2' => Some(10) case 't' => Some(11)
    case 'v' => Some(12) case 'd' => Some(13) case 'w' => Some(14) case '0' => Some(15)
    case 's' => Some(16) case '3' => Some(17) case 'j' => Some(18) case 'n' => Some(19)
    case '5' => Some(20) case '4' => Some(21) case 'k' => Some(22) case 'h' => Some(23)
    case 'c' => Some(24) case 'e' => Some(25) case '6' => Some(26) case 'm' => Some(27)
    case 'u' => Some(28) case 'a' => Some(29) case '7' => Some(30) case 'l' => Some(31)
    case _ => None
  }

  predicate IsUpper(c: char) {
    'A' <= c <= 'Z'
  }

  predicate IsLower(c: char) {
    'a' <= c <= 'z'
  }

  function ToLower(c: char): char {
    if IsUpper(c) then (c as nat + 32) as char else c
  }

  lemma LetterFacts(v: nat)
    requires v < 32
    ensures GroupOf(Letter(v)) == Some(v)
  {
  }

  lemma LetterShape(v: nat)
    requires v < 32
    ensures !IsUpper(Letter(v)) && Letter(v) != '1'
  {
  }

  predicate NoUpper(s: string) {
    forall i :: 0 <= i < |s| ==> !IsUpper(s[i])
  }

  predicate NoLower(s: string) {
    forall i :: 0 <= i < |s| ==> !IsLower(s[i])
  }

  function Lowered(s: string): (t: string)
    ensures |t| == |s| && forall i :: 0 <= i < |s| ==> t[i] == ToLower(s[i])
  {
    seq(|s|, i requires 0 <= i < |s| => ToLower(s[i]))
  }

  /** The high bits of the prefix characters, a zero, and their low bits. */
  function PrefixGroups(hrp: string): (g: seq<nat>)
    ensures Fit(g, 5)
  {
    FiveBits();
    seq(|hrp|, i requires 0 <= i < |hrp| => (ToLower(hrp[i]) as nat % 0x100) / 32) + [0]
    + seq(|hrp|, i requires 0 <= i < |hrp| => (ToLower(hrp[i]) as nat) % 32)
  }

  function Letters(groups: seq<nat>): (t: string)
    requires Fit(groups, 5)
    ensures |t| == |groups|
  {
    SmallGroups(groups);
    seq(|groups|, i requires 0 <= i < |groups| => Letter(groups[i]))
  }

  lemma FitJoin(a: seq<nat>, b: seq<nat>)
    requires Fit(a, 5) && Fit(b, 5)
    ensures Fit(a + b, 5)
  {
    hide Pow2;
  }

  function Encode(hrp: string, data: seq<nat>): string
    requires Fit(data, 5)
  {
    FitJoin(PrefixGroups(hrp), data);
    hrp + "1" + Letters(data) + Letters(Checksum(PrefixGroups(hrp) + data))
  }

  /** Position of the last separator. */
  function LastOne(s: string): (pos: Option<nat>)
    ensures pos.Some? ==> pos.value < |s| && s[pos.value] == '1'
  {
    if s == "" then None
    else if s[|s| - 1] == '1' then Some(|s| - 1)
    else LastOne(s[..|s| - 1])
  }

  predicate AllLetters(s: string) {
    forall i :: 0 <= i < |s| ==> GroupOf(s[i]).Some?
  }

  function GroupsOf(s: string): (g: seq<nat>)
    requires AllLetters(s)
    ensures |g| == |s| && Fit(g, 5) && forall i :: 0 <= i < |s| ==> g[i] == GroupOf(s[i]).value
  {
    FiveBits();
    seq(|s|, i requires 0 <= i < |s| => GroupOf(s[i]).value)
  }

  datatype Decoded = Decoded(hrp: string, data: seq<nat>)

  /** Mixed case, a missing prefix, a short or foreign data part and a wrong checksum are refused. */
  function Decode(value: string): (d: Option<Decoded>)
    ensures d.Some? ==> Fit(d.value.data, 5)
  {
    var lower := Lowered(value);
    var pos := LastOne(lower);
    if value == "" || !(NoUpper(value) || NoLower(value)) then None
    else if pos.None? || pos.value == 0 || |lower| < pos.value + 7 then None
    else DecodeParts(lower[..pos.value], lower[pos.value + 1..])
  }

  function DecodeParts(hrp: string, text: string): (d: Option<Decoded>)
    requires 6 <= |text|
    ensures d.Some? ==> Fit(d.value.data, 5)
    ensures d.Some? ==> d.value.hrp == hrp && |d.value.data| == |text| - 6
    ensures d.Some? ==> AllLetters(text)
  {
    if !AllLetters(text) then None
    else
      FitJoin(PrefixGroups(hrp), GroupsOf(text));
      if !Verifies(PrefixGroups(hrp) + GroupsOf(text)) then None
      else
        FitPrefix(GroupsOf(text), |text| - 6);
        Some(Decoded(hrp, GroupsOf(text)[..|text| - 6]))
  }

  lemma {:induction false} LastOneIs(s: string, pos: nat)
    requires pos < |s| && s[pos] == '1' && forall i :: pos < i < |s| ==> s[i] != '1'
    ensures LastOne(s) == Some(pos)
    decreases |s|
  {
    if s[|s| - 1] != '1' {
      LastOneIs(s[..|s| - 1], pos);
    }
  }

  lemma LettersShape(groups: seq<nat>)
    requires Fit(groups, 5)
    ensures AllLetters(Letters(groups)) && GroupsOf(Letters(groups)) == groups
    ensures NoUpper(Letters(groups)) && forall i :: 0 <= i < |groups| ==> Letters(groups)[i] != '1'
  {
    hide Letter, GroupOf, IsUpper;
    SmallGroups(groups);
    forall i | 0 <= i < |groups|
      ensures GroupOf(Letters(groups)[i]) == Some(groups[i]) && !IsUpper(Letters(groups)[i]) && Letters(groups)[i] != '1'
    {
      LetterFacts(groups[i]);
      LetterShape(groups[i]);
    }
  }

  /** Main result: what is encoded under a prefix without capitals is decoded again. */
  lemma DecodeEncode(hrp: string, data: seq<nat>)
    requires hrp != "" && NoUpper(hrp) && Fit(data, 5)
    ensures Decode(Encode(hrp, data)) == Some(Decoded(hrp, data))
  {
    hide Letter, GroupOf, Checksum, PrefixGroups, Polymod, Verifies, Pow2, Letters, LastOne, AllLetters;
    FitJoin(PrefixGroups(hrp), data);
    var values := PrefixGroups(hrp) + data;
    var checks := Checksum(values);
    var value, text := Encode(hrp, data), Letters(data) + Letters(checks);
    LettersShape(data);
    LettersShape(checks);
    assert value == hrp + "1" + text;
    AlreadyLower(hrp, text);
    LastOneIs(value, |hrp|);
    assert value[..|hrp|] == hrp && value[|hrp| + 1..] == text;
    LettersJoin(data, checks);
    ChecksumVerifies(values);
    assert values + checks == PrefixGroups(hrp) + (data + checks);
    assert (data + checks)[..|text| - 6] == data;
  }

  lemma AlreadyLower(hrp: string, text: string)
    requires NoUpper(hrp) && NoUpper(text)
    ensures NoUpper(hrp + "1" + text) && Lowered(hrp + "1" + text) == hrp + "1" + text
  {
  }

  lemma LettersJoin(a: seq<nat>, b: seq<nat>)
    requires Fit(a, 5) && Fit(b, 5)
    ensures AllLetters(Letters(a) + Letters(b)) && GroupsOf(Letters(a) + Letters(b)) == a + b
  {
    hide Letter, GroupOf, Pow2, Letters;
    LettersShape(a);
    LettersShape(b);
    var t := Letters(a) + Letters(b);
    forall i | 0 <= i < |t|
      ensures GroupOf(t[i]) == Some((a + b)[i])
    {
      if i < |a| {
        assert GroupsOf(Letters(a))[i] == a[i];
      } else {
        assert GroupsOf(Letters(b))[i - |a|] == b[i - |a|];
      }
    }
  }

  lemma Next(chk: bv32, values: seq<nat>, k: nat, next: bv32)
    requires Fit(values, 5) && k < |values| && values[k] < 32 && Run(ONE, values[..k]) == chk && Step(chk, Word(values[k])) == next
    ensures Run(ONE, values[..k + 1]) == next
  {
    hide Run, Step, Word, Pow2;
    FitPrefix(values, k);
    RunSnoc(ONE, values[..k], values[k]);
    assert values[..k + 1] == values[..k] + [values[k]];
  }

  lemma KnownSteps()
    ensures Step(0x1, Word(3)) == 0x23
    ensures Step(0x23, Word(0)) == 0x460
    ensures Step(0x460, Word(1)) == 0x8c01
    ensures Step(0x8c01, Word(0)) == 0x118020
    ensures Step(0x118020, Word(0)) == 0x2300400
    ensures Step(0x2300400, Word(0)) == 0x3d6ad7b2
    ensures Step(0x3d6ad7b2, Word(0)) == 0x2fd30b9
    ensures Step(0x2fd30b9, Word(0)) == 0x24cc4092
    ensures Step(0x24cc4092, Word(0)) == 0x15ccfe9e
  {
  }

  lemma KnownGroups()
    ensures Checks(Xor32(0x15ccfe9e, ONE)) == [10, 28, 25, 31, 20, 31]
  {
  }

  /** The first valid string listed in BIP 173 has the prefix "a" and no data; its checksum is 2uel5l. */
  lemma KnownChecksum()
    ensures PrefixGroups("a") == [3, 0, 1] && Checksum([3, 0, 1]) == [10, 28, 25, 31, 20, 31]
  {
    hide Step, Word, Pow2, Run, Checks;
    PrefixOfA();
    KnownSteps();
    FiveBits();
    RunNothing(ONE);
    var values: seq<nat> := [3, 0, 1] + ZeroGroups(6);
    assert values == [3, 0, 1, 0, 0, 0, 0, 0, 0];
    assert values[..0] == [] && values[..9] == values;
    Next(0x1, values, 0, 0x23);
    Next(0x23, values, 1, 0x460);
    Next(0x460, values, 2, 0x8c01);
    Next(0x8c01, values, 3, 0x118020);
    Next(0x118020, values, 4, 0x2300400);
    Next(0x2300400, values, 5, 0x3d6ad7b2);
    Next(0x3d6ad7b2, values, 6, 0x2fd30b9);
    Next(0x2fd30b9, values, 7, 0x24cc4092);
    Next(0x24cc4092, values, 8, 0x15ccfe9e);
    KnownGroups();
  }

  lemma PrefixOfA()
    ensures PrefixGroups("a") == [3, 0, 1]
  {
    assert "a"[0] as nat == 97;
  }
}
