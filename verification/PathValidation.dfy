/** The rules a block must meet on top of a validated history, and their replay along a path. */
module PathValidation {
  import opened Arith
  import opened CompactTarget
  import opened Primitives
  import opened Retarget
  import opened Utxo

  datatype Reason =
    | MissingBlock
    | PrevLink
    | BadTimestamp
    | BitsEncoding
    | BadPow
    | BadMerkle
    | WrongBits
    | CoinbaseMissing
    | TxRejected(index: nat)
    | CoinbaseOverpay

  datatype Outcome = Accepted(utxo: UtxoMap) | Rejected(reason: Reason, utxo: UtxoMap)

  /** Network rules and hash functions under which blocks are judged. */
  datatype Rules = Rules(c: Crypto, p: Params)

  // ---------------------------------------------------------------------------
  // Single checks
  // ---------------------------------------------------------------------------

  predicate TooFarInFuture(p: Params, timestamp: Uint32, now: nat) {
    p.maxFutureSeconds != 0 && timestamp > now + p.maxFutureSeconds
  }

  predicate TimestampValid(p: Params, header: Header, parent: Option<Header>, now: nat) {
    !TooFarInFuture(p, header.timestamp, now) && (parent.Some? ==> parent.value.timestamp < header.timestamp)
  }

  function LastHeader(hist: seq<Header>): Option<Header> {
    if hist == [] then None else Some(hist[|hist| - 1])
  }

  /** Bits required of a block on top of a history; a first block sets its own. */
  function ExpectedBits(p: Params, hist: seq<Header>, header: Header): Bits {
    if hist == [] then header.bits else NextWork(p, hist, hist[|hist| - 1].bits, header.timestamp)
  }

  /** Everything about a block but its transactions, in the order the node checks it. */
  function HeaderFault(r: Rules, hist: seq<Header>, blk: Block, now: nat, skipPow: bool): Option<Reason> {
    var h := blk.header;
    if hist != [] && h.prev != r.c.Link(hist[|hist| - 1]) then Some(PrevLink)
    else if !TimestampValid(r.p, h, LastHeader(hist), now) then Some(BadTimestamp)
    else if hist != [] && !skipPow && !IsCanonical(h.bits, 64) then Some(BitsEncoding)
    else if hist != [] && !skipPow && !CheckPow(r.c, r.p, h) then Some(BadPow)
    else if r.c.MerkleRoot(blk.transactions) != h.merkleRoot then Some(BadMerkle)
    else if h.bits != ExpectedBits(r.p, hist, h) then Some(WrongBits)
    else if blk.transactions == [] || !blk.transactions[0].IsCoinbase() then Some(CoinbaseMissing)
    else None
  }

  /** Result of applying the first k transactions: the index that failed, if any, the unspent outputs
      reached and the fees collected so far. */
  datatype Applied = Applied(failed: Option<nat>, utxo: UtxoMap, fees: Int64)

  function ApplyAll(c: Crypto, utxo: UtxoMap, txs: seq<Transaction>, height: Uint32, k: nat): Applied
    requires k <= |txs|
  {
    if k == 0 then Applied(None, utxo, 0)
    else
      var before := ApplyAll(c, utxo, txs, height, k - 1);
      if before.failed.Some? then before else ApplyNext(c, before, txs[k - 1], height, k - 1)
  }

  function ApplyNext(c: Crypto, before: Applied, tx: Transaction, height: Uint32, i: nat): Applied {
    var result := Apply(c, before.utxo, tx, height);
    if !result.ok then Applied(Some(i), result.utxo, before.fees)
    else Applied(None, result.utxo, if tx.IsCoinbase() then before.fees else Wrap64(before.fees + result.fee))
  }

  /** The first transaction may not claim more than the reward plus the fees. */
  predicate Overpays(blk: Block, height: nat, fees: Int64)
    requires blk.transactions != []
  {
    blk.transactions[0].TotalOutputValue() > Wrap64(BlockReward(height) + fees)
  }

  function TransactionsOutcome(r: Rules, blk: Block, height: nat, utxo: UtxoMap): Outcome
    requires blk.transactions != []
  {
    var applied := ApplyAll(r.c, utxo, blk.transactions, Wrap32(height), |blk.transactions|);
    if applied.failed.Some? then Rejected(TxRejected(applied.failed.value), applied.utxo)
    else if Overpays(blk, height, applied.fees) then Rejected(CoinbaseOverpay, applied.utxo)
    else Accepted(applied.utxo)
  }

  /** One block on top of a history whose unspent outputs are `utxo`. */
  function CheckBlock(r: Rules, hist: seq<Header>, blk: Block, utxo: UtxoMap, now: nat, skipPow: bool): Outcome {
    var fault := HeaderFault(r, hist, blk, now, skipPow);
    if fault.Some? then Rejected(fault.value, utxo)
    else
      TransactionsPresent(r, hist, blk, now, skipPow);
      TransactionsOutcome(r, blk, |hist|, utxo)
  }

  lemma TransactionsPresent(r: Rules, hist: seq<Header>, blk: Block, now: nat, skipPow: bool)
    requires HeaderFault(r, hist, blk, now, skipPow).None?
    ensures blk.transactions != []
  {
  }

  // ---------------------------------------------------------------------------
  // Whole paths
  // ---------------------------------------------------------------------------

  function HeadersOf(blocks: seq<Block>): (hist: seq<Header>)
    ensures |hist| == |blocks|
    ensures forall i :: 0 <= i < |blocks| ==> hist[i] == blocks[i].header
  {
    seq(|blocks|, i requires 0 <= i < |blocks| => blocks[i].header)
  }

  /** Replays a path from its first block on the empty set of outputs. */
  function Replay(r: Rules, blocks: seq<Block>, now: nat, skipPow: bool): Outcome {
    if blocks == [] then Accepted(map[])
    else
      var front := blocks[..|blocks| - 1];
      match Replay(r, front, now, skipPow)
      case Rejected(reason, utxo) => Rejected(reason, utxo)
      case Accepted(utxo) => CheckBlock(r, HeadersOf(front), blocks[|blocks| - 1], utxo, now, skipPow)
  }

  predicate PathValid(r: Rules, blocks: seq<Block>, now: nat, skipPow: bool) {
    Replay(r, blocks, now, skipPow).Accepted?
  }

  lemma EmptyReplay(r: Rules, now: nat, skipPow: bool)
    ensures Replay(r, [], now, skipPow) == Accepted(map[])
  {
  }

  lemma ReplaySnoc(r: Rules, front: seq<Block>, blk: Block, now: nat, skipPow: bool)
    ensures PathValid(r, front, now, skipPow) ==>
              Replay(r, front + [blk], now, skipPow) ==
              CheckBlock(r, HeadersOf(front), blk, Replay(r, front, now, skipPow).utxo, now, skipPow)
    ensures !PathValid(r, front, now, skipPow) ==> !PathValid(r, front + [blk], now, skipPow)
  {
    hide CheckBlock;
    var all := front + [blk];
    assert all[..|all| - 1] == front;
  }

  /** A fault-free header stays fault-free at a later clock and when proof of work is not asked for. */
  lemma FaultRelax(r: Rules, hist: seq<Header>, blk: Block, now: nat, later: nat, skipPow: bool, skipLater: bool)
    requires now <= later && (skipPow ==> skipLater)
    requires HeaderFault(r, hist, blk, now, skipPow).None?
    ensures HeaderFault(r, hist, blk, later, skipLater).None?
  {
    hide ExpectedBits, IsCanonical, CheckPow;
  }

  /** A valid path stays valid, with the same outputs, as the clock advances. */
  lemma {:induction false} ReplayRelax(r: Rules, blocks: seq<Block>, now: nat, later: nat, skipPow: bool, skipLater: bool)
    requires now <= later && (skipPow ==> skipLater) && PathValid(r, blocks, now, skipPow)
    ensures Replay(r, blocks, later, skipLater) == Replay(r, blocks, now, skipPow)
  {
    hide HeaderFault, TransactionsOutcome;
    if blocks != [] {
      var front := blocks[..|blocks| - 1];
      ReplayRelax(r, front, now, later, skipPow, skipLater);
      FaultRelax(r, HeadersOf(front), blocks[|blocks| - 1], now, later, skipPow, skipLater);
    }
  }

  /** Every prefix of a valid path is valid. */
  lemma {:induction false} PrefixValid(r: Rules, blocks: seq<Block>, n: nat, now: nat, skipPow: bool)
    requires n <= |blocks| && PathValid(r, blocks, now, skipPow)
    ensures PathValid(r, blocks[..n], now, skipPow)
    decreases |blocks|
  {
    hide CheckBlock;
    if n == |blocks| {
      assert blocks[..n] == blocks;
    } else {
      var front := blocks[..|blocks| - 1];
      assert blocks[..n] == front[..n];
      PrefixValid(r, front, n, now, skipPow);
    }
  }

  /** What the acceptance of one block on the path says about its header. */
  lemma StepValid(r: Rules, blocks: seq<Block>, n: nat, now: nat, skipPow: bool)
    requires n < |blocks| && PathValid(r, blocks, now, skipPow)
    ensures PathValid(r, blocks[..n], now, skipPow)
    ensures CheckBlock(r, HeadersOf(blocks[..n]), blocks[n], Replay(r, blocks[..n], now, skipPow).utxo, now, skipPow)
            == Replay(r, blocks[..n + 1], now, skipPow)
    ensures HeaderFault(r, HeadersOf(blocks[..n]), blocks[n], now, skipPow).None?
    ensures PathValid(r, blocks[..n + 1], now, skipPow)
  {
    hide HeaderFault, TransactionsOutcome, Replay;
    PrefixValid(r, blocks, n, now, skipPow);
    PrefixValid(r, blocks, n + 1, now, skipPow);
    assert blocks[..n + 1] == blocks[..n] + [blocks[n]];
    ReplaySnoc(r, blocks[..n], blocks[n], now, skipPow);
  }

  /** The headers of a valid path are linked parent to child. */
  lemma ValidPathLinked(r: Rules, blocks: seq<Block>, now: nat, skipPow: bool, n: nat)
    requires 0 < n < |blocks| && PathValid(r, blocks, now, skipPow)
    ensures blocks[n].header.prev == r.c.Link(blocks[n - 1].header)
  {
    StepValid(r, blocks, n, now, skipPow);
    hide Replay, ExpectedBits, IsCanonical, CheckPow;
  }
}
