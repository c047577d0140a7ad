/** Hashing an 80-byte header: the sponge of FIPS 202 on the whole message, and the miner's shortcut that
    permutes the first 72 bytes once and then only the suffix with the nonce. */
module HeaderHash {
  import opened Primitives
  import opened Keccak
  import opened Sha3

  type Bytes = seq<bv8>

  const HEADER_BYTES: nat := 80
  const HASH_BYTES: nat := 64

  // ---------------------------------------------------------------------------
  // Bytes and words
  // ---------------------------------------------------------------------------

  /** Little-endian words. */
  function Word64(b: Bytes): bv64
    requires |b| == 8
  {
    (b[0] as bv64) | ((b[1] as bv64) << 8) | ((b[2] as bv64) << 16) | ((b[3] as bv64) << 24)
    | ((b[4] as bv64) << 32) | ((b[5] as bv64) << 40) | ((b[6] as bv64) << 48) | ((b[7] as bv64) << 56)
  }

  function Word32(b: Bytes): bv32
    requires |b| == 4
  {
    (b[0] as bv32) | ((b[1] as bv32) << 8) | ((b[2] as bv32) << 16) | ((b[3] as bv32) << 24)
  }

  function WordBytes(w: bv64): (b: Bytes)
    ensures |b| == 8
  {
    [(w & 0xFF) as bv8, ((w >> 8) & 0xFF) as bv8, ((w >> 16) & 0xFF) as bv8, ((w >> 24) & 0xFF) as bv8,
     ((w >> 32) & 0xFF) as bv8, ((w >> 40) & 0xFF) as bv8, ((w >> 48) & 0xFF) as bv8, ((w >> 56) & 0xFF) as bv8]
  }

  function ToBits(b: seq<Byte>): (t: Bytes)
    ensures |t| == |b| && forall i :: 0 <= i < |b| ==> t[i] == ByteBits(b[i])
  {
    seq(|b|, i requires 0 <= i < |b| => ByteBits(b[i]))
  }

  function ByteBits(b: Byte): bv8 {
    b as bv8
  }

  /** The four bytes of a nonce, lowest first. */
  function NonceBytes(nonce: Uint32): (b: Bytes)
    ensures |b| == 4
  {
    [ByteBits(nonce % 0x100), ByteBits(nonce / 0x100 % 0x100), ByteBits(nonce / 0x1_0000 % 0x100),
     ByteBits(nonce / 0x100_0000 % 0x100)]
  }

  function WithNonceBytes(header: Bytes, nonce: Uint32): (h: Bytes)
    requires |header| == HEADER_BYTES
    ensures |h| == HEADER_BYTES
  {
    header[..76] + NonceBytes(nonce)
  }

  /** Everything before the bits field. */
  function HeaderPrefix(header: Bytes): (p: Bytes)
    requires |header| == HEADER_BYTES
    ensures |p| == RATE
  {
    header[..RATE]
  }

  function HeaderBits(header: Bytes): bv32
    requires |header| == HEADER_BYTES
  {
    Word32(header[RATE..76])
  }

  /** A little-endian word with the bits field in its lower and the nonce in its upper half. */
  function SuffixWord(bits: bv32, nonce: bv32): bv64 {
    (bits as bv64) | ((nonce as bv64) << 32)
  }

  lemma SuffixWordIs(b: Bytes, n: Bytes)
    requires |b| == 4 && |n| == 4
    ensures Word64(b + n) == SuffixWord(Word32(b), Word32(n))
  {
  }

  // ---------------------------------------------------------------------------
  // The sponge
  // ---------------------------------------------------------------------------

  /** The domain bits 01, then pad10*1, for a message of n bytes (sections 5.1 and 6.1 of FIPS 202). */
  function Padding(n: nat): (p: Bytes)
    ensures (n + |p|) % RATE == 0 && 0 < |p|
  {
    var room := RATE - n % RATE;
    if room == 1 then [0x86] else [0x06] + Zeros(room - 2) + [0x80]
  }

  function Zeros(n: nat): (z: Bytes)
    ensures |z| == n && forall i :: 0 <= i < n ==> z[i] == 0
  {
    seq(n, i requires 0 <= i < n => 0 as bv8)
  }

  function BlockLane(block: Bytes, i: nat): bv64
    requires |block| == RATE && i < 9
  {
    Word64(block[8 * i..8 * i + 8])
  }

  function XorBlock(state: seq<bv64>, block: Bytes): (t: seq<bv64>)
    requires |state| == 25 && |block| == RATE
    ensures |t| == 25
  {
    seq(25, i requires 0 <= i < 25 => if i < 9 then Xor64(state[i], BlockLane(block, i)) else state[i])
  }

  function AbsorbBlock(state: seq<bv64>, block: Bytes): (t: seq<bv64>)
    requires |state| == 25 && |block| == RATE
    ensures |t| == 25
  {
    Permute(SCALAR, XorBlock(state, block))
  }

  /** Absorbs n blocks. */
  function Absorb(state: seq<bv64>, data: Bytes, n: nat): (t: seq<bv64>)
    requires |state| == 25 && |data| == RATE * n
    ensures |t| == 25
    decreases n
  {
    if n == 0 then state else Absorb(AbsorbBlock(state, data[..RATE]), data[RATE..], n - 1)
  }

  function ZeroState(): (s: seq<bv64>)
    ensures |s| == 25
  {
    seq(25, i requires 0 <= i < 25 => ZERO)
  }

  /** The first n lanes as bytes. */
  function Squeeze(state: seq<bv64>, n: nat): (hash: Bytes)
    requires |state| == 25 && n <= 25
    ensures |hash| == 8 * n
  {
    if n == 0 then [] else Squeeze(state, n - 1) + WordBytes(state[n - 1])
  }

  function Sha3_512(message: Bytes): (hash: Bytes)
    ensures |hash| == HASH_BYTES
  {
    var data := message + Padding(|message|);
    Squeeze(Absorb(ZeroState(), data, |data| / RATE), 8)
  }

  // ---------------------------------------------------------------------------
  // The shortcut
  // ---------------------------------------------------------------------------

  function PrefixLanes(prefix: Bytes): (s: seq<bv64>)
    requires |prefix| == RATE
    ensures |s| == 25
  {
    seq(25, i requires 0 <= i < 25 => if i < 9 then BlockLane(prefix, i) else ZERO)
  }

  function PrefixState(prefix: Bytes): (s: seq<bv64>)
    requires |prefix| == RATE
    ensures |s| == 25
  {
    Permute(SCALAR, PrefixLanes(prefix))
  }

  /** The suffix word, the domain bits and the last padding bit go into three lanes. */
  function SuffixLanes(prefix: seq<bv64>, word: bv64): (s: seq<bv64>)
    requires |prefix| == 25
    ensures |s| == 25
  {
    prefix[0 := Xor64(prefix[0], word)][1 := Xor64(prefix[1], 0x06)][8 := Xor64(prefix[8], 0x8000_0000_0000_0000)]
  }

  function FinishedHash(prefix: seq<bv64>, word: bv64): (hash: Bytes)
    requires |prefix| == 25
    ensures |hash| == HASH_BYTES
  {
    Squeeze(Permute(SCALAR, SuffixLanes(prefix, word)), 8)
  }

  lemma SuffixLaneAt(prefix: seq<bv64>, word: bv64, i: nat)
    requires |prefix| == 25 && i < 25
    ensures SuffixLanes(prefix, word)[i] ==
            if i == 0 then Xor64(prefix[0], word) else if i == 1 then Xor64(prefix[1], 0x06)
            else if i == 8 then Xor64(prefix[8], 0x8000_0000_0000_0000) else prefix[i]
  {
    hide Xor64;
  }

  lemma XorZero(w: bv64)
    ensures Xor64(ZERO, w) == w && Xor64(w, ZERO) == w
  {
  }

  lemma FirstBlock(prefix: Bytes)
    requires |prefix| == RATE
    ensures XorBlock(ZeroState(), prefix) == PrefixLanes(prefix)
  {
    hide Xor64, BlockLane;
    forall i | 0 <= i < 25
      ensures XorBlock(ZeroState(), prefix)[i] == PrefixLanes(prefix)[i]
    {
      if i < 9 { XorZero(BlockLane(prefix, i)); }
    }
  }

  /** The second block of an 80-byte message: eight message bytes and the padding. */
  lemma SecondBlock(tail: Bytes)
    requires |tail| == 8
    ensures |tail + Padding(80)| == RATE
    ensures BlockLane(tail + Padding(80), 0) == Word64(tail)
    ensures BlockLane(tail + Padding(80), 1) == 0x06
    ensures forall i :: 2 <= i < 8 ==> BlockLane(tail + Padding(80), i) == ZERO
    ensures BlockLane(tail + Padding(80), 8) == 0x8000_0000_0000_0000
  {
    hide Word64;
    var block := tail + Padding(80);
    assert block == tail + ([0x06] + Zeros(62) + [0x80]);
    assert block[0..8] == tail;
    assert block[8..16] == [0x06] + Zeros(7);
    assert block[64..72] == Zeros(7) + [0x80];
    WordOfPadding();
    forall i | 2 <= i < 8
      ensures BlockLane(block, i) == ZERO
    {
      assert block[8 * i..8 * i + 8] == Zeros(8);
    }
  }

  lemma WordOfPadding()
    ensures Word64([0x06] + Zeros(7)) == 0x06
    ensures Word64(Zeros(8)) == ZERO
    ensures Word64(Zeros(7) + [0x80]) == 0x8000_0000_0000_0000
  {
  }

  lemma SecondXor(state: seq<bv64>, tail: Bytes)
    requires |state| == 25 && |tail| == 8
    ensures |tail + Padding(80)| == RATE
    ensures XorBlock(state, tail + Padding(80)) == SuffixLanes(state, Word64(tail))
  {
    hide Xor64, BlockLane, Word64, Padding, SuffixLanes;
    SecondBlock(tail);
    var block := tail + Padding(80);
    forall i | 0 <= i < 25
      ensures XorBlock(state, block)[i] == SuffixLanes(state, Word64(tail))[i]
    {
      XorZero(state[i]);
      SuffixLaneAt(state, Word64(tail), i);
    }
  }

  /** Main result: finishing from the cached state of the first 72 bytes is hashing all 80 bytes. */
  lemma ShortcutIsSha3(header: Bytes)
    requires |header| == HEADER_BYTES
    ensures Sha3_512(header) == FinishedHash(PrefixState(header[..RATE]), Word64(header[RATE..]))
  {
    hide XorBlock, SuffixLanes, PrefixLanes, Permute, Word64, Padding, Squeeze;
    var data := header + Padding(80);
    PaddingLength();
    assert data[..RATE] == header[..RATE];
    assert data[RATE..] == header[RATE..] + Padding(80);
    var first := Permute(SCALAR, XorBlock(ZeroState(), data[..RATE]));
    FirstBlock(header[..RATE]);
    SecondXor(first, header[RATE..]);
    AbsorbTwo(ZeroState(), data);
  }

  lemma PaddingLength()
    ensures |Padding(80)| == 64
  {
  }

  lemma AbsorbTwo(state: seq<bv64>, data: Bytes)
    requires |state| == 25 && |data| == 2 * RATE
    ensures Absorb(state, data, 2) == Permute(SCALAR, XorBlock(Permute(SCALAR, XorBlock(state, data[..RATE])), data[RATE..]))
  {
    hide XorBlock, Permute;
    var rest := data[RATE..];
    assert rest[..RATE] == rest;
    var first := AbsorbBlock(state, data[..RATE]);
    assert Absorb(first, rest, 1) == Absorb(AbsorbBlock(first, rest), rest[RATE..], 0);
  }

  /** The hash of a header with a nonce, from the cached state. */
  lemma ShortcutWithNonce(header: Bytes, nonce: Uint32)
    requires |header| == HEADER_BYTES
    ensures Sha3_512(WithNonceBytes(header, nonce))
            == FinishedHash(PrefixState(HeaderPrefix(header)), SuffixWord(HeaderBits(header), Word32(NonceBytes(nonce))))
  {
    hide FinishedHash, PrefixState, Sha3_512, SuffixWord, Word32, Word64, NonceBytes;
    var full := WithNonceBytes(header, nonce);
    assert full[..RATE] == header[..RATE];
    assert full[RATE..] == header[RATE..76] + NonceBytes(nonce);
    ShortcutIsSha3(full);
    SuffixWordIs(header[RATE..76], NonceBytes(nonce));
  }

  // ---------------------------------------------------------------------------
  // The shortcut as the miner runs it
  // ---------------------------------------------------------------------------

  method PreparePrefixState(header: Bytes) returns (state: seq<bv64>)
    requires |header| == HEADER_BYTES
    ensures state == PrefixState(HeaderPrefix(header))
  {
    hide Permute, BlockLane, Word64;
    var lanes := new bv64[25];
    for i := 0 to 25
      invariant forall j :: 0 <= j < i ==> lanes[j] == ZERO
    {
      lanes[i] := ZERO;
    }
    for lane := 0 to 9
      invariant forall j :: 0 <= j < lane ==> lanes[j] == BlockLane(header[..RATE], j)
      invariant forall j :: lane <= j < 25 ==> lanes[j] == ZERO
    {
      LaneAt(header, lane);
      lanes[lane] := Word64(header[8 * lane..8 * lane + 8]);
    }
    assert lanes[..] == PrefixLanes(header[..RATE]);
    PermuteInPlace(SCALAR, lanes);
    state := lanes[..];
  }

  lemma LaneAt(header: Bytes, lane: nat)
    requires |header| == HEADER_BYTES && lane < 9
    ensures BlockLane(header[..RATE], lane) == Word64(header[8 * lane..8 * lane + 8])
  {
    hide Word64;
    assert header[..RATE][8 * lane..8 * lane + 8] == header[8 * lane..8 * lane + 8];
  }

  method FinalizeScalar(prefix: seq<bv64>, bits: bv32, nonce: Uint32) returns (hash: Bytes)
    requires |prefix| == 25
    ensures hash == FinishedHash(prefix, SuffixWord(bits, Word32(NonceBytes(nonce))))
  {
    hide Permute, Xor64, SuffixWord, WordBytes, Word32, NonceBytes;
    var state := new bv64[25](i requires 0 <= i < 25 => prefix[i]);
    assert state[..] == prefix;
    var word := SuffixWord(bits, Word32(NonceBytes(nonce)));
    state[0] := Xor64(state[0], word);
    state[1] := Xor64(state[1], 0x06);
    state[8] := Xor64(state[8], 0x8000_0000_0000_0000);
    assert state[..] == SuffixLanes(prefix, word);
    PermuteInPlace(SCALAR, state);
    hash := [];
    for lane := 0 to 8
      invariant hash == Squeeze(state[..], lane)
    {
      hash := hash + WordBytes(state[lane]);
    }
  }

  /** Four copies of the cached state, each with its own suffix word. */
  method MixBatch4(prefix: seq<bv64>, words: seq<bv64>) returns (state: array<Vec4>)
    requires |prefix| == 25 && |words| == 4
    ensures fresh(state) && state.Length == 25
    ensures forall j :: 0 <= j < 4 ==> Project(state[..], j) == SuffixLanes(prefix, words[j])
  {
    hide Xor4, Vec4.Lane, Project, SuffixLanes, Broadcast;
    state := new Vec4[25](i requires 0 <= i < 25 => Broadcast(prefix[i]));
    ghost var start := state[..];
    var suffix := Vec4(words[0], words[1], words[2], words[3]);
    state[0] := Xor4(state[0], suffix);
    state[1] := Xor4(state[1], Broadcast(0x06));
    state[8] := Xor4(state[8], Broadcast(0x8000_0000_0000_0000));
    forall j | 0 <= j < 4
      ensures Project(state[..], j) == SuffixLanes(prefix, words[j])
    {
      SuffixLane(prefix, words, suffix, state[..], j);
    }
  }

  method SqueezeBatch4(state: array<Vec4>) returns (hashes: seq<Bytes>)
    requires state.Length == 25
    ensures |hashes| == 4 && forall j :: 0 <= j < 4 ==> hashes[j] == Squeeze(Project(state[..], j), 8)
  {
    hide WordBytes, Vec4.Lane, Squeeze, Project;
    hashes := [[], [], [], []];
    for lane := 0 to 8
      invariant |hashes| == 4 && forall j :: 0 <= j < 4 ==> hashes[j] == SqueezeLane(state[..], j, lane)
    {
      var v := state[lane];
      hashes := [hashes[0] + WordBytes(v.Lane(0)), hashes[1] + WordBytes(v.Lane(1)),
                 hashes[2] + WordBytes(v.Lane(2)), hashes[3] + WordBytes(v.Lane(3))];
    }
    forall j | 0 <= j < 4
      ensures hashes[j] == Squeeze(Project(state[..], j), 8)
    {
      SqueezeLaneIs(state[..], j, 8);
    }
  }

  /** Four nonces side by side. */
  method FinalizeBatch4(prefix: seq<bv64>, bits: bv32, nonces: seq<Uint32>) returns (hashes: seq<Bytes>)
    requires |prefix| == 25 && |nonces| == 4
    ensures |hashes| == 4
    ensures forall j :: 0 <= j < 4 ==> hashes[j] == FinishedHash(prefix, SuffixWord(bits, Word32(NonceBytes(nonces[j]))))
  {
    hide Permute, SuffixWord, Word32, NonceBytes, Project, Squeeze, SuffixLanes;
    var words := [SuffixWord(bits, Word32(NonceBytes(nonces[0]))), SuffixWord(bits, Word32(NonceBytes(nonces[1]))),
                  SuffixWord(bits, Word32(NonceBytes(nonces[2]))), SuffixWord(bits, Word32(NonceBytes(nonces[3])))];
    var state := MixBatch4(prefix, words);
    ghost var mixed := state[..];
    PermuteInPlace(VECTOR, state);
    hashes := SqueezeBatch4(state);
    forall j | 0 <= j < 4
      ensures hashes[j] == FinishedHash(prefix, words[j])
    {
      PermuteLane(mixed, j);
    }
  }

  function SqueezeLane(state: seq<Vec4>, j: nat, n: nat): Bytes
    requires |state| == 25 && n <= 25
  {
    if n == 0 then [] else SqueezeLane(state, j, n - 1) + WordBytes(state[n - 1].Lane(j))
  }

  lemma {:induction false} SqueezeLaneIs(state: seq<Vec4>, j: nat, n: nat)
    requires |state| == 25 && n <= 25
    ensures SqueezeLane(state, j, n) == Squeeze(Project(state, j), n)
  {
    hide WordBytes, Vec4.Lane;
    if n != 0 {
      SqueezeLaneIs(state, j, n - 1);
    }
  }

  lemma BroadcastLane(w: bv64, j: nat)
    ensures Broadcast(w).Lane(j) == w
  {
  }

  lemma SuffixWordLane(words: seq<bv64>, suffix: Vec4, j: nat)
    requires |words| == 4 && j < 4 && suffix == Vec4(words[0], words[1], words[2], words[3])
    ensures suffix.Lane(j) == words[j]
  {
  }

  lemma SuffixLane(prefix: seq<bv64>, words: seq<bv64>, suffix: Vec4, mixed: seq<Vec4>, j: nat)
    requires |prefix| == 25 && |words| == 4 && |mixed| == 25 && j < 4
    requires suffix == Vec4(words[0], words[1], words[2], words[3])
    requires forall i :: 0 <= i < 25 && i != 0 && i != 1 && i != 8 ==> mixed[i] == Broadcast(prefix[i])
    requires mixed[0] == Xor4(Broadcast(prefix[0]), suffix)
    requires mixed[1] == Xor4(Broadcast(prefix[1]), Broadcast(0x06))
    requires mixed[8] == Xor4(Broadcast(prefix[8]), Broadcast(0x8000_0000_0000_0000))
    ensures Project(mixed, j) == SuffixLanes(prefix, words[j])
  {
    hide Xor64, Xor4, Broadcast, Vec4.Lane, SuffixLanes;
    SuffixWordLane(words, suffix, j);
    Xor4Lane(Broadcast(prefix[0]), suffix, j);
    Xor4Lane(Broadcast(prefix[1]), Broadcast(0x06), j);
    Xor4Lane(Broadcast(prefix[8]), Broadcast(0x8000_0000_0000_0000), j);
    BroadcastLane(0x06, j);
    BroadcastLane(0x8000_0000_0000_0000, j);
    forall i | 0 <= i < 25
      ensures Project(mixed, j)[i] == SuffixLanes(prefix, words[j])[i]
    {
      BroadcastLane(prefix[i], j);
      SuffixLaneAt(prefix, words[j], i);
    }
  }
}
