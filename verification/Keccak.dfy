/** The Keccak-f[1600] permutation as the miner runs it in place, one state at a time or four side by side,
    against the step mappings of section 3.2 of FIPS 202. */
module Keccak {

  /** The lane operations the permutation is built from. `mix` is the step that combines a lane with its two
      right neighbours in a row. */
  datatype Ops<!T> = Ops(
    sum5: (T, T, T, T, T) -> T,
    xor: (T, T) -> T,
    rotl: (T, nat) -> T,
    mix: (T, T, T) -> T,
    constant: bv64 -> T)

  const ROUND_CONSTANTS: seq<bv64> := [
    0x0000000000000001, 0x0000000000008082, 0x800000000000808a, 0x8000000080008000,
    0x000000000000808b, 0x0000000080000001, 0x8000000080008081, 0x8000000000008009,
    0x000000000000008a, 0x0000000000000088, 0x0000000080008009, 0x000000008000000a,
    0x000000008000808b, 0x800000000000008b, 0x8000000000008089, 0x8000000000008003,
    0x8000000000008002, 0x8000000000000080, 0x000000000000800a, 0x800000008000000a,
    0x8000000080008081, 0x8000000000008080, 0x0000000080000001, 0x8000000080008008]

  /** Rotation of the lane at position i. */
  function RhoOffset(i: nat): nat
    requires i < 25
  {
    match i
    case 0 => 0 case 1 => 1 case 2 => 62 case 3 => 28 case 4 => 27
    case 5 => 36 case 6 => 44 case 7 => 6 case 8 => 55 case 9 => 20
    case 10 => 3 case 11 => 10 case 12 => 43 case 13 => 25 case 14 => 39
    case 15 => 41 case 16 => 45 case 17 => 15 case 18 => 21 case 19 => 8
    case 20 => 18 case 21 => 2 case 22 => 61 case 23 => 56 case _ => 14
  }

  // ---------------------------------------------------------------------------
  // The step mappings
  // ---------------------------------------------------------------------------

  /** Position of the lane in column x and row y. */
  function Index(x: nat, y: nat): (i: nat)
    requires x < 5 && y < 5
    ensures i < 25
  {
    x + 5 * y
  }

  lemma ModFive(x: nat, k: int)
    requires x < 5 && 0 <= x + 5 * k
    ensures (x + 5 * k) % 5 == x && (x + 5 * k) / 5 == k
  {
  }

  /** Position k columns to the right in the same row. */
  function Right(i: nat, k: nat): (j: nat)
    requires i < 25
    ensures j < 25
  {
    Index((i % 5 + k) % 5, i / 5)
  }

  function Sum5<T>(ops: Ops<T>, a: T, b: T, c: T, d: T, e: T): T {
    ops.sum5(a, b, c, d, e)
  }

  function Xor<T>(ops: Ops<T>, a: T, b: T): T {
    ops.xor(a, b)
  }

  function Rotl<T>(ops: Ops<T>, a: T, n: nat): T {
    ops.rotl(a, n)
  }

  function Mix<T>(ops: Ops<T>, a: T, b: T, c: T): T {
    ops.mix(a, b, c)
  }

  function Parity<T>(ops: Ops<T>, s: seq<T>, x: nat): T
    requires |s| == 25 && x < 5
  {
    Sum5(ops, s[x], s[x + 5], s[x + 10], s[x + 15], s[x + 20])
  }

  function Effect<T>(ops: Ops<T>, s: seq<T>, x: nat): T
    requires |s| == 25 && x < 5
  {
    Xor(ops, Parity(ops, s, (x + 4) % 5), Rotl(ops, Parity(ops, s, (x + 1) % 5), 1))
  }

  function Theta<T>(ops: Ops<T>, s: seq<T>): (t: seq<T>)
    requires |s| == 25
    ensures |t| == 25
  {
    seq(25, i requires 0 <= i < 25 => Xor(ops, s[i], Effect(ops, s, i % 5)))
  }

  function Rho<T>(ops: Ops<T>, s: seq<T>): (t: seq<T>)
    requires |s| == 25
    ensures |t| == 25
  {
    seq(25, i requires 0 <= i < 25 => Rotl(ops, s[i], RhoOffset(i)))
  }

  /** The lane that moves to position i: column x + 3y, row x, for the lane in column x and row y. */
  function PiSource(i: nat): (j: nat)
    requires i < 25
    ensures j < 25
  {
    Index((i % 5 + 3 * (i / 5)) % 5, i % 5)
  }

  function Pi<T>(s: seq<T>): (t: seq<T>)
    requires |s| == 25
    ensures |t| == 25
  {
    seq(25, i requires 0 <= i < 25 => s[PiSource(i)])
  }

  function Chi<T>(ops: Ops<T>, s: seq<T>): (t: seq<T>)
    requires |s| == 25
    ensures |t| == 25
  {
    seq(25, i requires 0 <= i < 25 => Mix(ops, s[i], s[Right(i, 1)], s[Right(i, 2)]))
  }

  function Iota<T>(ops: Ops<T>, s: seq<T>, constant: bv64): (t: seq<T>)
    requires |s| == 25
    ensures |t| == 25
  {
    s[0 := Xor(ops, s[0], ops.constant(constant))]
  }

  function Round<T>(ops: Ops<T>, s: seq<T>, constant: bv64): (t: seq<T>)
    requires |s| == 25
    ensures |t| == 25
  {
    Iota(ops, Chi(ops, Pi(Rho(ops, Theta(ops, s)))), constant)
  }

  function Rounds<T>(ops: Ops<T>, s: seq<T>, n: nat): (t: seq<T>)
    requires |s| == 25 && n <= 24
    ensures |t| == 25
  {
    if n == 0 then s else Round(ops, Rounds(ops, s, n - 1), ROUND_CONSTANTS[n - 1])
  }

  function Permute<T>(ops: Ops<T>, s: seq<T>): (t: seq<T>)
    requires |s| == 25
    ensures |t| == 25
  {
    Rounds(ops, s, 24)
  }

  // ---------------------------------------------------------------------------
  // The rotation table
  // ---------------------------------------------------------------------------

  /** The lane reached after t steps of the walk (x, y) -> (y, 2x + 3y) from (1, 0). */
  function Walk(t: nat): (p: (nat, nat))
    ensures p.0 < 5 && p.1 < 5
  {
    if t == 0 then (1, 0)
    else
      var (x, y) := Walk(t - 1);
      (y, (2 * x + 3 * y) % 5)
  }

  function Triangle(t: nat): nat {
    if t == 0 then 1 else Triangle(t - 1) + t + 1
  }

  lemma {:induction false} TriangleIs(t: nat)
    ensures Triangle(t) == (t + 1) * (t + 2) / 2
  {
    if t != 0 {
      TriangleIs(t - 1);
      assert (t + 1) * (t + 2) == t * (t + 1) + 2 * (t + 1);
    }
  }

  ghost predicate RotatedBy(t: nat) {
    RhoOffset(Index(Walk(t).0, Walk(t).1)) == Triangle(t) % 64
  }

  /** The table holds the triangular number (t + 1)(t + 2) / 2 at the lane of step t, and 0 at the origin
      (algorithm 2 of FIPS 202). */
  lemma RotationTable(t: nat)
    requires t < 24
    ensures RotatedBy(t) && Triangle(t) == (t + 1) * (t + 2) / 2 && RhoOffset(0) == 0
  {
    TriangleIs(t);
    hide RotatedBy;
    Rotations0();
    Rotations6();
    Rotations12();
    Rotations18();
  }

  /** One step of the walk with its triangular number and rotation. */
  lemma Step(t: nat, from: (nat, nat), to: (nat, nat), n: nat)
    requires 0 < t && Walk(t - 1) == from && Triangle(t - 1) == n
    requires from.0 < 5 && from.1 < 5 && to == (from.1, (2 * from.0 + 3 * from.1) % 5)
    requires RhoOffset(to.0 + 5 * to.1) == (n + t + 1) % 64
    ensures Walk(t) == to && Triangle(t) == n + t + 1 && RotatedBy(t)
  {
    hide RhoOffset;
  }

  lemma Rotations0()
    ensures RotatedBy(0) && RotatedBy(1) && RotatedBy(2) && RotatedBy(3) && RotatedBy(4) && RotatedBy(5)
    ensures Walk(5) == (3, 3) && Triangle(5) == 21
  {
    hide Walk, Triangle, RotatedBy;
    WalkStart();
    Step(1, (1, 0), (0, 2), 1);
    Step(2, (0, 2), (2, 1), 3);
    Step(3, (2, 1), (1, 2), 6);
    Step(4, (1, 2), (2, 3), 10);
    Step(5, (2, 3), (3, 3), 15);
  }

  lemma Rotations6()
    ensures RotatedBy(6) && RotatedBy(7) && RotatedBy(8) && RotatedBy(9) && RotatedBy(10) && RotatedBy(11)
    ensures Walk(11) == (4, 4) && Triangle(11) == 78
  {
    hide Walk, Triangle, RotatedBy;
    Rotations0();
    Step(6, (3, 3), (3, 0), 21);
    Step(7, (3, 0), (0, 1), 28);
    Step(8, (0, 1), (1, 3), 36);
    Step(9, (1, 3), (3, 1), 45);
    Step(10, (3, 1), (1, 4), 55);
    Step(11, (1, 4), (4, 4), 66);
  }

  lemma Rotations12()
    ensures RotatedBy(12) && RotatedBy(13) && RotatedBy(14) && RotatedBy(15) && RotatedBy(16) && RotatedBy(17)
    ensures Walk(17) == (2, 2) && Triangle(17) == 171
  {
    hide Walk, Triangle, RotatedBy;
    Rotations6();
    Step(12, (4, 4), (4, 0), 78);
    Step(13, (4, 0), (0, 3), 91);
    Step(14, (0, 3), (3, 4), 105);
    Step(15, (3, 4), (4, 3), 120);
    Step(16, (4, 3), (3, 2), 136);
    Step(17, (3, 2), (2, 2), 153);
  }

  lemma Rotations18()
    ensures RotatedBy(18) && RotatedBy(19) && RotatedBy(20) && RotatedBy(21) && RotatedBy(22) && RotatedBy(23)
  {
    hide Walk, Triangle, RotatedBy;
    Rotations12();
    Step(18, (2, 2), (2, 0), 171);
    Step(19, (2, 0), (0, 4), 190);
    Step(20, (0, 4), (4, 2), 210);
    Step(21, (4, 2), (2, 4), 231);
    Step(22, (2, 4), (4, 1), 253);
    Step(23, (4, 1), (1, 1), 276);
  }

  lemma WalkStart()
    ensures Walk(0) == (1, 0) && Triangle(0) == 1 && RotatedBy(0)
  {
  }

  // ---------------------------------------------------------------------------
  // The round constants
  // ---------------------------------------------------------------------------

  /** One step of the feedback register: it shifts by one place, and the bit that falls out is added at places 0, 4, 5 and 6. */
  function Clock(register: bv8): bv8 {
    (register << 1) ^ (if register & 0x80 != 0 then 0x71 else 0)
  }

  /** The register after t steps from 1, its places being bits (algorithm 5 of FIPS 202). */
  function Register(t: nat): bv8 {
    if t == 0 then 1 else Clock(Register(t - 1))
  }

  /** The bit the register puts out at step t; it starts again after 255 steps. */
  predicate Rc(t: nat) {
    Lowest(Register(t % 255))
  }

  predicate Lowest(register: bv8) {
    register & 1 != 0
  }

  /** Seven bits at places 0, 1, 3, 7, 15, 31 and 63, and no others. */
  function Spread(b0: bool, b1: bool, b2: bool, b3: bool, b4: bool, b5: bool, b6: bool): bv64 {
    Place(b0, 0x1) | Place(b1, 0x2) | Place(b2, 0x8) | Place(b3, 0x80) | Place(b4, 0x8000) | Place(b5, 0x8000_0000)
    | Place(b6, 0x8000_0000_0000_0000)
  }

  function Place(on: bool, mask: bv64): bv64 {
    if on then mask else 0
  }

  /** The constant of a round has the bits of seven steps (algorithm 6 of FIPS 202). */
  function ConstantOf(round: nat): bv64 {
    var t := 7 * round;
    Spread(Rc(t), Rc(t + 1), Rc(t + 2), Rc(t + 3), Rc(t + 4), Rc(t + 5), Rc(t + 6))
  }

  /** The register at the start of each round. */
  const REGISTERS: seq<bv8> := [
    0x01, 0x80, 0xd8, 0x1a, 0xdf, 0x09, 0x35, 0x4f,
    0xca, 0x70, 0x41, 0xec, 0xd5, 0xcd, 0x63, 0xab,
    0xaa, 0x2a, 0xf2, 0xe8, 0x37, 0x3e, 0x0b, 0x44]

  /** The constant and the next register, from the register at the start of the round. */
  lemma FromRegister(round: nat, register: bv8)
    requires round < 24 && Register(7 * round) == register
    ensures Register(7 * (round + 1)) == Later(register) && ConstantOf(round) == Put(register)
  {
    hide Clock, Spread, Lowest, Register, Rc;
    var t := 7 * round;
    RcIs(t);
    RcIs(t + 1);
    RcIs(t + 2);
    RcIs(t + 3);
    RcIs(t + 4);
    RcIs(t + 5);
    RcIs(t + 6);
    RegisterNext(t);
    RegisterNext(t + 1);
    RegisterNext(t + 2);
    RegisterNext(t + 3);
    RegisterNext(t + 4);
    RegisterNext(t + 5);
    RegisterNext(t + 6);
  }

  lemma RcIs(t: nat)
    requires t < 255
    ensures Rc(t) == Lowest(Register(t))
  {
    hide Lowest, Register;
  }

  lemma RegisterNext(t: nat)
    ensures Register(t + 1) == Clock(Register(t))
  {
    hide Clock;
  }

  /** The register seven steps on. */
  function Later(register: bv8): bv8 {
    Clock(Clock(Clock(Clock(Clock(Clock(Clock(register)))))))
  }

  /** What it puts out on the way, spread. */
  function Put(register: bv8): bv64 {
    var r1 := Clock(register); var r2 := Clock(r1); var r3 := Clock(r2);
    var r4 := Clock(r3); var r5 := Clock(r4); var r6 := Clock(r5);
    Spread(Lowest(register), Lowest(r1), Lowest(r2), Lowest(r3), Lowest(r4), Lowest(r5), Lowest(r6))
  }

  /** Main result: the table of round constants is the one of algorithm 6. */
  lemma {:induction false} RoundConstantTable(round: nat)
    requires round < 24
    ensures Register(7 * round) == REGISTERS[round] && ROUND_CONSTANTS[round] == ConstantOf(round)
  {
    hide ConstantOf, Register, Later, Put;
    if round == 0 {
      RegisterStart();
    } else {
      RoundConstantTable(round - 1);
      FromRegister(round - 1, REGISTERS[round - 1]);
      TableStep(round - 1);
    }
    FromRegister(round, REGISTERS[round]);
    TableConstant(round);
  }

  lemma RegisterStart()
    ensures Register(0) == 1
  {
  }

  lemma TableStep(round: nat)
    requires round < 23
    ensures Later(REGISTERS[round]) == REGISTERS[round + 1]
  {
    hide Later;
    AllEntries();
  }

  lemma TableConstant(round: nat)
    requires round < 24
    ensures ROUND_CONSTANTS[round] == Put(REGISTERS[round])
  {
    hide Put;
    AllEntries();
  }

  lemma AllEntries()
    ensures forall k :: 0 <= k < 24 ==> Put(REGISTERS[k]) == ROUND_CONSTANTS[k]
    ensures forall k :: 0 <= k < 23 ==> Later(REGISTERS[k]) == REGISTERS[k + 1]
  {
    hide Put, Later;
    Entries0();
    Entries4();
    Entries8();
    Entries12();
    Entries16();
    Entries20();
  }

  lemma Entries0()
    ensures Put(0x01) == 0x0000000000000001 && Later(0x01) == 0x80
    ensures Put(0x80) == 0x0000000000008082 && Later(0x80) == 0xd8
    ensures Put(0xd8) == 0x800000000000808a && Later(0xd8) == 0x1a
    ensures Put(0x1a) == 0x8000000080008000 && Later(0x1a) == 0xdf
  {
  }

  lemma Entries4()
    ensures Put(0xdf) == 0x000000000000808b && Later(0xdf) == 0x09
    ensures Put(0x09) == 0x0000000080000001 && Later(0x09) == 0x35
    ensures Put(0x35) == 0x8000000080008081 && Later(0x35) == 0x4f
    ensures Put(0x4f) == 0x8000000000008009 && Later(0x4f) == 0xca
  {
  }

  lemma Entries8()
    ensures Put(0xca) == 0x000000000000008a && Later(0xca) == 0x70
    ensures Put(0x70) == 0x0000000000000088 && Later(0x70) == 0x41
    ensures Put(0x41) == 0x0000000080008009 && Later(0x41) == 0xec
    ensures Put(0xec) == 0x000000008000000a && Later(0xec) == 0xd5
  {
  }

  lemma Entries12()
    ensures Put(0xd5) == 0x000000008000808b && Later(0xd5) == 0xcd
    ensures Put(0xcd) == 0x800000000000008b && Later(0xcd) == 0x63
    ensures Put(0x63) == 0x8000000000008089 && Later(0x63) == 0xab
    ensures Put(0xab) == 0x8000000000008003 && Later(0xab) == 0xaa
  {
  }

  lemma Entries16()
    ensures Put(0xaa) == 0x8000000000008002 && Later(0xaa) == 0x2a
    ensures Put(0x2a) == 0x8000000000000080 && Later(0x2a) == 0xf2
    ensures Put(0xf2) == 0x000000000000800a && Later(0xf2) == 0xe8
    ensures Put(0xe8) == 0x800000008000000a && Later(0xe8) == 0x37
  {
  }

  lemma Entries20()
    ensures Put(0x37) == 0x8000000080008081 && Later(0x37) == 0x3e
    ensures Put(0x3e) == 0x8000000000008080 && Later(0x3e) == 0x0b
    ensures Put(0x0b) == 0x0000000080000001 && Later(0x0b) == 0x44
    ensures Put(0x44) == 0x8000000080008008 && Later(0x44) == 0x8e
  {
  }

  // ---------------------------------------------------------------------------
  // The permutation in place
  // ---------------------------------------------------------------------------

  method Parities<T(0)>(ops: Ops<T>, state: array<T>) returns (c: array<T>)
    requires state.Length == 25
    ensures fresh(c) && c.Length == 5 && forall x :: 0 <= x < 5 ==> c[x] == Parity(ops, state[..], x)
  {
    hide Sum5;
    c := new T[5];
    for x := 0 to 5
      invariant forall k :: 0 <= k < x ==> c[k] == Parity(ops, state[..], k)
    {
      c[x] := Sum5(ops, state[x], state[x + 5], state[x + 10], state[x + 15], state[x + 20]);
    }
  }

  method Effects<T(0)>(ops: Ops<T>, state: array<T>) returns (d: array<T>)
    requires state.Length == 25
    ensures fresh(d) && d.Length == 5 && forall x :: 0 <= x < 5 ==> d[x] == Effect(ops, state[..], x)
  {
    hide Sum5, Xor, Rotl, Parity;
    var c := Parities(ops, state);
    d := new T[5];
    for x := 0 to 5
      invariant forall k :: 0 <= k < 5 ==> c[k] == Parity(ops, state[..], k)
      invariant forall k :: 0 <= k < x ==> d[k] == Effect(ops, state[..], k)
    {
      d[x] := Xor(ops, c[(x + 4) % 5], Rotl(ops, c[(x + 1) % 5], 1));
    }
  }

  method ThetaInPlace<T(0)>(ops: Ops<T>, state: array<T>)
    requires state.Length == 25
    modifies state
    ensures state[..] == Theta(ops, old(state[..]))
  {
    hide Xor, Effect;
    ghost var s := state[..];
    var d := Effects(ops, state);
    for i := 0 to 25
      invariant forall x :: 0 <= x < 5 ==> d[x] == Effect(ops, s, x)
      invariant forall j :: 0 <= j < i ==> state[j] == Xor(ops, s[j], Effect(ops, s, j % 5))
      invariant forall j :: i <= j < 25 ==> state[j] == s[j]
    {
      state[i] := Xor(ops, state[i], d[i % 5]);
    }
    assert state[..] == Theta(ops, s);
  }

  /** Where the lane at position i moves: to column y, row 2x + 3y. */
  function PiTarget(i: nat): (j: nat)
    requires i < 25
    ensures j < 25
  {
    Index(i / 5, (2 * (i % 5) + 3 * (i / 5)) % 5)
  }

  lemma IndexParts(x: nat, y: nat)
    requires x < 5 && y < 5
    ensures Index(x, y) % 5 == x && Index(x, y) / 5 == y
  {
    ModFive(x, y);
  }

  lemma PiInverse(i: nat)
    requires i < 25
    ensures PiTarget(PiSource(i)) == i && PiSource(PiTarget(i)) == i
  {
    hide PiTarget, PiSource, Index;
    var x, y := i % 5, i / 5;
    IndexIs(x, y);
    PiAt(x, y);
    PiRow(x, y);
    PiAt((x + 3 * y) % 5, x);
    PiAt(y, (2 * x + 3 * y) % 5);
  }

  lemma PiAt(x: nat, y: nat)
    requires x < 5 && y < 5
    ensures PiSource(Index(x, y)) == Index((x + 3 * y) % 5, x)
    ensures PiTarget(Index(x, y)) == Index(y, (2 * x + 3 * y) % 5)
  {
    hide Index;
    IndexParts(x, y);
  }

  lemma IndexIs(x: nat, y: nat)
    requires x < 5 && y < 5
    ensures Index(x, y) == x + 5 * y
  {
  }

  lemma PiRow(x: nat, y: nat)
    requires x < 5 && y < 5
    ensures (2 * ((x + 3 * y) % 5) + 3 * x) % 5 == y
    ensures (y + 3 * ((2 * x + 3 * y) % 5)) % 5 == x
  {
    var q, r := (x + 3 * y) / 5, (x + 3 * y) % 5;
    assert 2 * r + 3 * x == y + 5 * (x + y - 2 * q);
    ModFive(y, x + y - 2 * q);
    var q2, r2 := (2 * x + 3 * y) / 5, (2 * x + 3 * y) % 5;
    assert y + 3 * r2 == x + 5 * (x + 2 * y - 3 * q2);
    ModFive(x, x + 2 * y - 3 * q2);
  }

  /** Rotates every lane and moves it to its new position. */
  method RhoPi<T(0)>(ops: Ops<T>, state: array<T>) returns (b: array<T>)
    requires state.Length == 25
    ensures fresh(b) && b.Length == 25 && b[..] == Pi(Rho(ops, state[..]))
  {
    hide Rotl, PiTarget, PiSource;
    b := new T[25];
    for i := 0 to 25
      invariant forall j :: 0 <= j < i ==> b[PiTarget(j)] == Rotl(ops, state[j], RhoOffset(j))
    {
      TargetsDiffer(i);
      b[PiTarget(i)] := Rotl(ops, state[i], RhoOffset(i));
    }
    forall j | 0 <= j < 25
      ensures b[j] == Pi(Rho(ops, state[..]))[j]
    {
      PiInverse(j);
      assert b[PiTarget(PiSource(j))] == b[j];
    }
  }

  lemma TargetsDiffer(i: nat)
    requires i < 25
    ensures forall j :: 0 <= j < i ==> PiTarget(j) != PiTarget(i)
  {
    hide PiTarget, PiSource;
    forall j | 0 <= j < i
      ensures PiTarget(j) != PiTarget(i)
    {
      PiInverse(i);
      PiInverse(j);
    }
  }

  method ChiIota<T>(ops: Ops<T>, b: array<T>, state: array<T>, constant: bv64)
    requires state.Length == 25 && b.Length == 25 && b != state
    modifies state
    ensures state[..] == Iota(ops, Chi(ops, b[..]), constant)
  {
    hide Mix, Xor, Right;
    for i := 0 to 25
      invariant forall j :: 0 <= j < i ==>
                  state[j] == Mix(ops, b[j], b[Right(j, 1)], b[Right(j, 2)])
    {
      state[i] := Mix(ops, b[i], b[Right(i, 1)], b[Right(i, 2)]);
    }
    assert state[..] == Chi(ops, b[..]);
    state[0] := Xor(ops, state[0], ops.constant(constant));
    assert state[..] == Chi(ops, b[..])[0 := state[0]];
  }

  /** All 24 rounds in place. */
  method PermuteInPlace<T(0)>(ops: Ops<T>, state: array<T>)
    requires state.Length == 25
    modifies state
    ensures state[..] == Permute(ops, old(state[..]))
  {
    hide Theta, Rho, Pi, Chi, Iota;
    for round := 0 to 24
      invariant state[..] == Rounds(ops, old(state[..]), round)
    {
      ThetaInPlace(ops, state);
      var b := RhoPi(ops, state);
      ChiIota(ops, b, state, ROUND_CONSTANTS[round]);
    }
  }
}
