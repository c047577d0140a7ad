/** From a nonce the miner reports to a block the node accepts. */
module MinedBlock {
  import opened Arith
  import opened CompactTarget
  import opened Primitives
  import opened Retarget
  import opened PathValidation
  import opened ChainState
  import opened Keccak
  import opened Sha3
  import opened HeaderHash
  import opened PoolIndexes
  import opened Selection
  import opened Template
  import opened Utxo
  import Supply
  import Miner
  import MiningRound
  import Wire

  /** For every nonce the digest of the header is SHA3-512 of its 80 bytes on the wire, read as a number. Only these
      2^32 headers are spoken of, so the assumption goes together with link hashes that differ. */
  ghost predicate HashesNonces(c: Crypto, h: Header) {
    forall nonce: Uint32 :: c.digest(h.(nonce := nonce)) == Miner.BigEndian(Sha3_512(ToBits(Wire.WriteHeader(h.(nonce := nonce)))))
  }

  /** What the miner is given: the header's bytes and the target as 64 bytes. */
  function HeaderBytes(h: Header): (b: Bytes)
    requires Wire.HeaderOk(h)
    ensures |b| == HEADER_BYTES
  {
    HeaderLength(h);
    ToBits(Wire.WriteHeader(h))
  }

  function TargetBytes(bits: Bits): (b: Bytes)
    ensures |b| == HASH_BYTES
  {
    ToBits(Wire.BigEndian(Expand(bits), 64))
  }

  lemma HeaderLength(h: Header)
    ensures |Wire.WriteHeader(h)| == HEADER_BYTES
  {
    hide Wire.BigEndian, Wire.LittleEndian, Pow256;
  }

  ghost function Counted(b: Byte): (v: bv8)
    ensures v as nat == b
  {
    if b == 0 then 0 else Counted(b - 1) + 1
  }

  lemma BitsBack(v: bv8)
    ensures ByteBits(v as nat) == v
  {
  }

  lemma BitsOfByte(b: Byte)
    ensures ByteBits(b) as nat == b
  {
    BitsBack(Counted(b));
  }

  lemma {:induction false} NumberOfBytes(b: seq<Byte>)
    ensures Miner.BigEndian(ToBits(b)) == Wire.FromBig(b)
    decreases |b|
  {
    if b != [] {
      var front := b[..|b| - 1];
      NumberOfBytes(front);
      assert ToBits(b)[..|b| - 1] == ToBits(front);
      BitsOfByte(b[|b| - 1]);
    }
  }

  lemma NonceOnWire(n: Uint32)
    ensures ToBits(Wire.LittleEndian(n, 4)) == NonceBytes(n)
  {
    hide Wire.LittleEndian, ToBits, ByteBits;
    LittleNonce(n, n / 0x100, n / 0x1_0000, n / 0x100_0000);
    FourBits(n % 0x100, n / 0x100 % 0x100, n / 0x1_0000 % 0x100, n / 0x100_0000 % 0x100);
  }

  lemma FourBits(a: Byte, b: Byte, c: Byte, d: Byte)
    ensures ToBits([a, b, c, d]) == [ByteBits(a), ByteBits(b), ByteBits(c), ByteBits(d)]
  {
    hide ByteBits;
  }

  lemma LittleNonce(n: Uint32, n1: nat, n2: nat, n3: nat)
    requires n1 == n / 0x100 && n2 == n / 0x1_0000 && n3 == n / 0x100_0000
    ensures Wire.LittleEndian(n, 4) == [n % 0x100, n1 % 0x100, n2 % 0x100, n3 % 0x100]
  {
    hide Wire.LittleEndian;
    Quotients(n);
    Wire.LittleNext(n, 3);
    Wire.LittleNext(n1, 2);
    Wire.LittleNext(n2, 1);
    Wire.LittleNext(n3, 0);
  }

  lemma Quotients(n: Uint32)
    ensures n / 0x100 / 0x100 == n / 0x1_0000 && n / 0x1_0000 / 0x100 == n / 0x100_0000
  {
  }

  /** Exchanging the last four bytes is exchanging the nonce. */
  lemma NonceInPlace(h: Header, n: Uint32)
    requires Wire.HeaderOk(h)
    ensures WithNonceBytes(HeaderBytes(h), n) == HeaderBytes(h.(nonce := n))
  {
    hide Wire.BigEndian, Wire.LittleEndian, NonceBytes, Wire.WriteSigned;
    HeaderLength(h);
    HeaderLength(h.(nonce := n));
    NonceOnWire(n);
    var a, b := Wire.WriteHeader(h), Wire.WriteHeader(h.(nonce := n));
    HeaderParts(h);
    HeaderParts(h.(nonce := n));
    assert a[..76] == b[..76];
    assert b[76..] == Wire.LittleEndian(n, 4);
    assert b == a[..76] + Wire.LittleEndian(n, 4);
  }

  /** Everything before the nonce. */
  function Front(h: Header): seq<Byte> {
    Wire.WriteSigned(h.version, 4) + Wire.BigEndian(h.prev, 32) + Wire.BigEndian(h.merkleRoot, 32)
    + Wire.LittleEndian(h.timestamp, 4) + Wire.LittleEndian(h.bits, 4)
  }

  lemma HeaderParts(h: Header)
    ensures |Front(h)| == 76 && Wire.WriteHeader(h) == Front(h) + Wire.LittleEndian(h.nonce, 4)
    ensures Wire.WriteHeader(h)[..76] == Front(h) && Wire.WriteHeader(h)[76..] == Wire.LittleEndian(h.nonce, 4)
  {
    hide Wire.BigEndian, Wire.LittleEndian, Pow256;
  }

  /** Main result: the byte comparison of the miner succeeds for a nonce exactly when the node's proof-of-work
      check does. */
  lemma HitIsCheckPow(c: Crypto, p: Params, h: Header, nonce: Uint32)
    requires HashesNonces(c, h) && Wire.HeaderOk(h) && PowTarget(p, h.bits).Some?
    ensures MiningRound.HitWith(HeaderBytes(h), TargetBytes(h.bits), nonce) <==> CheckPow(c, p, h.(nonce := nonce))
  {
    hide Sha3_512, HeaderBytes, Wire.BigEndian, Expand, Overflows, IsNegative, IsZero, Pow256, WithNonceBytes, Miner.BigEndian;
    var t, mined := Expand(h.bits), h.(nonce := nonce);
    NonceInPlace(h, nonce);
    OverflowsExact(h.bits);
    NumberOfBytes(Wire.BigEndian(t, 64));
    Wire.BigBack(t, 64);
    HeaderBytesAre(mined);
    assert c.digest(mined) == Miner.BigEndian(Sha3_512(ToBits(Wire.WriteHeader(mined))));
  }

  lemma HeaderBytesAre(h: Header)
    requires Wire.HeaderOk(h)
    ensures HeaderBytes(h) == ToBits(Wire.WriteHeader(h))
  {
    hide Wire.WriteHeader;
  }

  /** Main result: a round on the template's header either finds a nonce with which the template is a valid extension
      of the active path, proof of work included, exactly if the parent's time and the fees fit, or has tried all
      its nonces in vain. */
  method MineTemplate(r: Rules, ghost s: State, ghost clock: nat, ghost picked: seq<TxEntry>,
                      blk: Block, ghost payout: Payout, ghost now: nat, seed: Uint32, threads: Uint32, limit: nat, vector: bool)
    returns (mined: Option<Block>)
    requires TablesOk(r, s) && UtxoOk(r, s, clock, false) && clock <= now && s.tip in s.index
    requires IsTemplate(r, Some(s.index[s.tip]), NextWork(r.p, ActiveHeaders(r, s), s.tipBits, TemplateTime(Some(s.index[s.tip]), now)),
                        s.best + 1, blk, payout, picked, now)
    requires ApplyAll(r.c, s.utxo, Transactions(picked), Wrap32(s.best + 1), |picked|).failed.None?
    requires now < 0x1_0000_0000 && blk.transactions != [] && FreshCoinbase(r.c, blk, s.utxo)
    requires HashesNonces(r.c, blk.header) && Wire.HeaderOk(blk.header)
    requires IsCanonical(blk.header.bits, 64) && PowTarget(r.p, blk.header.bits).Some?
    requires 0 < threads && 0 < limit
    ensures mined.Some? ==>
              (PathValid(r, ActiveBlocks(r, s) + [mined.value], now, false)
               <==> TimeFits(r.p, s.index[s.tip], now) && FeesFit(r.c, s.utxo, picked, s.best + 1))
    ensures mined.None? ==> forall i :: 0 <= i < Product(threads, limit) ==>
              !CheckPow(r.c, r.p, WithNonce(blk, MiningRound.NonceAfter(seed, i)).header)
  {
    hide *;
    var found, nonce, hash, iterations, nextSeed :=
      MiningRound.MineRound(HeaderBytes(blk.header), TargetBytes(blk.header.bits), seed, threads, limit, vector);
    if found {
      FoundPasses(r, blk, nonce);
      TemplateIsValid(r, s, clock, false, picked, blk, payout, now, nonce, false);
      return Some(WithNonce(blk, nonce));
    }
    NothingPasses(r, blk, seed, Product(threads, limit));
    return None;
  }

  lemma FoundPasses(r: Rules, blk: Block, nonce: Uint32)
    requires HashesNonces(r.c, blk.header) && Wire.HeaderOk(blk.header) && PowTarget(r.p, blk.header.bits).Some?
    requires MiningRound.HitWith(HeaderBytes(blk.header), TargetBytes(blk.header.bits), nonce)
    ensures CheckPow(r.c, r.p, WithNonce(blk, nonce).header)
  {
    hide MiningRound.HitWith, CheckPow, HeaderBytes, TargetBytes, HashesNonces, PowTarget;
    HitIsCheckPow(r.c, r.p, blk.header, nonce);
  }

  lemma NothingPasses(r: Rules, blk: Block, seed: Uint32, n: nat)
    requires HashesNonces(r.c, blk.header) && Wire.HeaderOk(blk.header) && PowTarget(r.p, blk.header.bits).Some?
    requires MiningRound.NoHits(HeaderBytes(blk.header), TargetBytes(blk.header.bits), seed, n)
    ensures forall i :: 0 <= i < n ==> !CheckPow(r.c, r.p, WithNonce(blk, MiningRound.NonceAfter(seed, i)).header)
  {
    hide MiningRound.HitWith, CheckPow, HeaderBytes, TargetBytes, HashesNonces, PowTarget;
    forall i | 0 <= i < n
      ensures !CheckPow(r.c, r.p, WithNonce(blk, MiningRound.NonceAfter(seed, i)).header)
    {
      HitIsCheckPow(r.c, r.p, blk.header, MiningRound.NonceAfter(seed, i));
    }
  }
}
