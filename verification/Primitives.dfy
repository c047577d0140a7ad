/** Transactions, headers, blocks, network parameters and the hash functions they are identified by. */
module Primitives {
  import opened Arith
  import opened CompactTarget

  datatype Option<+T> = None | Some(value: T)

  type Byte = x: nat | x < 0x100
  type Uint32 = x: nat | x < 0x1_0000_0000
  type Int64 = x: int | -0x8000_0000_0000_0000 <= x < 0x8000_0000_0000_0000

  /** The bytes of a literal. */
  function Ascii(s: string): seq<Byte> {
    seq<Byte>(|s|, i requires 0 <= i < |s| => s[i] as int % 0x100)
  }

  predicate IsSpace(c: char) {
    c == ' ' || 9 <= c as nat <= 13
  }

  predicate Distinct(s: seq<nat>) {
    forall i, j :: 0 <= i < j < |s| ==> s[i] != s[j]
  }

  /** Conversion to a 32-bit unsigned integer drops the high bits. */
  function Wrap32(x: int): Uint32 {
    x % 0x1_0000_0000
  }

  /** Two's-complement 64-bit result of a signed sum. */
  function Wrap64(x: int): Int64 {
    (x + 0x8000_0000_0000_0000) % 0x1_0000_0000_0000_0000 - 0x8000_0000_0000_0000
  }

  lemma Wrap64Identity(x: int)
    requires -0x8000_0000_0000_0000 <= x < 0x8000_0000_0000_0000
    ensures Wrap64(x) == x
  {
  }

  /** Wrapping at every step of a sum is wrapping once at the end. */
  lemma Wrap64Add(a: int, b: int)
    ensures Wrap64(Wrap64(a) + b) == Wrap64(a + b)
  {
    var m := 0x1_0000_0000_0000_0000;
    var h := 0x8000_0000_0000_0000;
    var k := (a + h) / m;
    assert Wrap64(a) == a - k * m;
    assert Wrap64(a) + b + h == (a + b + h) + (-k) * m;
    assert ((a + b + h) + (-k) * m) % m == (a + b + h) % m;
  }

  // ---------------------------------------------------------------------------
  // Transactions
  // ---------------------------------------------------------------------------

  const NULL_INDEX: Uint32 := 0xFFFF_FFFF

  datatype OutPoint = OutPoint(txHash: nat, index: Uint32)

  datatype TxIn = TxIn(prevout: OutPoint, scriptSig: seq<Byte>, sequence: Uint32)

  datatype TxOut = TxOut(value: Int64, script: seq<Byte>)

  datatype Transaction = Transaction(version: int, inputs: seq<TxIn>, outputs: seq<TxOut>, lockTime: Uint32) {
    predicate IsCoinbase() {
      |inputs| == 1 && inputs[0].prevout == OutPoint(0, NULL_INDEX)
    }

    function TotalOutputValue(): Int64 {
      Wrap64(OutputSum(outputs))
    }
  }

  function OutputSum(outputs: seq<TxOut>): int {
    if outputs == [] then 0
    else OutputSum(outputs[..|outputs| - 1]) + outputs[|outputs| - 1].value
  }

  // ---------------------------------------------------------------------------
  // Headers and blocks
  // ---------------------------------------------------------------------------

  /** `prev` is the link hash of the parent header; zero marks a block without parent. */
  datatype Header = Header(version: int, prev: nat, merkleRoot: nat, timestamp: Uint32, bits: Bits, nonce: Uint32)

  datatype Block = Block(header: Header, transactions: seq<Transaction>)

  /** The functions the node treats as black boxes: the 64-byte digest of a header, the transaction
      identifier, the hash of two merkle nodes, the script and signature check of one input against
      the script of the output it spends, and the serialized sizes. */
  datatype Crypto = Crypto(
    digest: Header -> nat,
    txid: Transaction -> nat,
    pairHash: (nat, nat) -> nat,
    authorized: (Transaction, nat, seq<Byte>) -> bool,
    txSize: Transaction -> nat,
    blockSize: Block -> nat)
  {
    /** The full 512-bit identifier of a block. */
    function Id(h: Header): nat {
      digest(h)
    }

    /** The 256-bit link hash is the leading half of the digest. */
    function Link(h: Header): nat {
      ShiftDown(digest(h), 32)
    }

    /** Distinct headers have distinct, non-zero link hashes. */
    ghost predicate Sound() {
      && (forall h :: Link(h) != 0)
      && (forall h, g :: Link(h) == Link(g) ==> h == g)
    }

    lemma IdInjective(h: Header, g: Header)
      requires Sound() && Id(h) == Id(g)
      ensures h == g
    {
      assert Link(h) == Link(g);
    }

    function TxIds(txs: seq<Transaction>): (ids: seq<nat>)
      ensures |ids| == |txs| && forall i :: 0 <= i < |txs| ==> ids[i] == txid(txs[i])
    {
      seq<nat>(|txs|, i requires 0 <= i < |txs| => txid(txs[i]))
    }

    function MerkleRoot(txs: seq<Transaction>): nat {
      if txs == [] then 0 else MerkleReduce(TxIds(txs))
    }

    /** Pairs up one level, duplicating the last hash of an odd level, until one hash is left. */
    function MerkleReduce(level: seq<nat>): nat
      requires level != []
      decreases |level|
    {
      if |level| == 1 then level[0] else MerkleReduce(MerkleLevel(level))
    }

    function MerkleLevel(level: seq<nat>): (next: seq<nat>)
      ensures |next| == (|level| + 1) / 2
    {
      if level == [] then []
      else if |level| == 1 then [pairHash(level[0], level[0])]
      else [pairHash(level[0], level[1])] + MerkleLevel(level[2..])
    }
  }

  // ---------------------------------------------------------------------------
  // Parameters
  // ---------------------------------------------------------------------------

  datatype Params = Params(
    powLimitBits: Bits,
    genesisTimestamp: Uint32,
    genesisNonce: Uint32,
    allowMinDifficulty: bool,
    fixedDifficulty: bool,
    useEma: bool,
    emaWindow: Uint32,
    emergencyDelay: Uint32,
    maxFutureSeconds: Uint32)

  const MAINNET := Params(0x3e00ffff, 1741478400, 14590424, false, false, true, 12, 1200, 120)
  const TESTNET := Params(0x3f00ffff, 1741478401, 78355, true, false, true, 6, 1200, 120)
  const REGTEST := Params(0x407fffff, 1741478402, 8, true, true, true, 4, 1200, 1200)

  const BLOCK_TIME_SECONDS: nat := 600
  const COINBASE_MATURITY: nat := 100
  const HALVING_INTERVAL_BLOCKS: nat := 200000
  const INITIAL_BLOCK_REWARD: nat := 2500
  const TOTAL_SUPPLY: nat := 1_000_000_000
  const SATOSHIS: nat := 100_000_000
  const MAX_TRANSACTIONS_PER_BLOCK: nat := 5000
  const MAX_BLOCK_SIZE_BYTES: nat := 1_000_000
  const MAX_REORG_DEPTH: nat := 2

  // ---------------------------------------------------------------------------
  // Work and reward
  // ---------------------------------------------------------------------------

  function PowLimit(p: Params): nat {
    Expand(p.powLimitBits)
  }

  /** The target a header claims, when it is a legal proof-of-work target. */
  function PowTarget(p: Params, bits: Bits): Option<nat> {
    if IsNegative(bits) || IsZero(bits) || Overflows(bits, 64) then None
    else if Expand(bits) == 0 || Expand(bits) > PowLimit(p) then None
    else Some(Expand(bits))
  }

  predicate CheckPow(c: Crypto, p: Params, h: Header) {
    PowTarget(p, h.bits).Some? && c.Id(h) <= PowTarget(p, h.bits).value
  }

  /** Expected number of hashes a block with these bits took; zero for illegal bits. */
  function BlockWork(p: Params, bits: Bits): nat {
    if IsNegative(bits) || IsZero(bits) || Overflows(bits, 64) || !IsCanonical(bits, 64) then 0
    else if Expand(bits) > PowLimit(p) || Expand(bits) == 0 then 0
    else Quotient(Pow256(64) - 1, Expand(bits) + 1)
  }

  /** A canonical legal target always counts for at least one unit of work. */
  lemma LegalTargetHasWork(p: Params, bits: Bits)
    requires IsCanonical(bits, 64) && PowTarget(p, bits).Some?
    requires Expand(bits) + 1 < Pow256(64)
    ensures 0 < BlockWork(p, bits)
  {
    hide Pow256, Expand;
    DivAtLeast(Pow256(64) - 1, Expand(bits) + 1, 1);
  }

  predicate IsNetwork(p: Params) {
    p == MAINNET || p == TESTNET || p == REGTEST
  }

  /** The limit of every network is a canonical legal target with room above it, as the results on work and
      retargeting ask. */
  lemma NetworkLimits(p: Params)
    requires IsNetwork(p)
    ensures IsCanonical(p.powLimitBits, 64) && PowTarget(p, p.powLimitBits) == Some(PowLimit(p))
    ensures 0 < PowLimit(p) && PowLimit(p) + 1 < Pow256(64)
  {
    hide Pow256, Expand, FromTarget;
    var bits := p.powLimitBits;
    LimitShape(p);
    Pow256Mono(Exponent(bits) - 3, 61);
    Pow256Mono(0, Exponent(bits) - 3);
    Pow256Small();
    Pow256Add(61, 3);
    MulMono(Pow256(Exponent(bits) - 3), Pow256(61), Mantissa(bits));
    MulMono(1, Pow256(Exponent(bits) - 3), Mantissa(bits));
    OverflowsExact(bits);
    NormalisedEncoding(Exponent(bits), Mantissa(bits));
  }

  lemma LimitShape(p: Params)
    requires IsNetwork(p)
    ensures var bits := p.powLimitBits;
            && 62 <= Exponent(bits) <= 64 && 0x8000 <= Mantissa(bits) < SIGN && bits == Exponent(bits) * EXPONENT_UNIT + Mantissa(bits) && !IsNegative(bits) && !IsZero(bits)
            && Expand(bits) == Mantissa(bits) * Pow256(Exponent(bits) - 3)
  {
    hide Pow256;
    ExpandCases(p.powLimitBits);
  }

  function Halvings(height: nat): nat {
    height / HALVING_INTERVAL_BLOCKS
  }

  function Pow2(n: nat): (p: nat)
    ensures 1 <= p
  {
    if n == 0 then 1 else 2 * Pow2(n - 1)
  }

  function BlockReward(height: nat): nat {
    if Halvings(height) >= 64 then 0
    else Quotient(INITIAL_BLOCK_REWARD * SATOSHIS, Pow2(Halvings(height)))
  }
}
