/** The replay of one block as the node runs it, on a mutable set of outputs. */
module PathReplay {
  import opened Arith
  import opened CompactTarget
  import opened Primitives
  import opened Retarget
  import opened Utxo
  import opened PathValidation

  /** Applies the transactions of a block in order and adds up the fees; stops at the first that fails. */
  method ApplyTransactions(c: Crypto, out: UTXOSet, txs: seq<Transaction>, height: Uint32) returns (failed: Option<nat>, fees: Int64)
    modifies out
    ensures Applied(failed, out.entries, fees) == ApplyAll(c, old(out.entries), txs, height, |txs|)
  {
    hide Apply, Wrap64;
    fees := 0;
    for i := 0 to |txs|
      invariant ApplyAll(c, old(out.entries), txs, height, i) == Applied(None, out.entries, fees)
    {
      ghost var before := out.entries;
      var ok, fee := out.ApplyTransaction(c, txs[i], height);
      if !ok {
        FailureStays(c, old(out.entries), txs, height, i + 1, |txs|);
        return Some(i), fees;
      }
      if !txs[i].IsCoinbase() {
        fees := Wrap64((fees as int) + (fee as int));
      }
    }
    failed := None;
  }

  lemma {:induction false} FailureStays(c: Crypto, utxo: UtxoMap, txs: seq<Transaction>, height: Uint32, k: nat, n: nat)
    requires k <= n <= |txs| && ApplyAll(c, utxo, txs, height, k).failed.Some?
    ensures ApplyAll(c, utxo, txs, height, n) == ApplyAll(c, utxo, txs, height, k)
    decreases n
  {
    hide Apply;
    if k < n {
      FailureStays(c, utxo, txs, height, k, n - 1);
    }
  }

  /** Bits required at a height, from the maps built so far. */
  method ExpectedBitsFor(p: Params, heightMap: map<nat, nat>, index: map<nat, Header>, height: nat, h: Header,
                         ghost hist: seq<Header>) returns (bits: Bits)
    requires height in heightMap && heightMap[height] in index && index[heightMap[height]] == h
    requires |hist| == height
    requires 0 < height ==> Covers(heightMap, index, height - 1) && hist == Headers(heightMap, index, height - 1)
    ensures bits == ExpectedBits(p, hist, h)
  {
    hide NextWork;
    if height == 0 {
      return index[heightMap[0]].bits;
    }
    var lastBits := index[heightMap[height - 1]].bits;
    bits := GetNextWorkRequired(p, heightMap, index, height - 1, lastBits, h.timestamp);
  }

  /** All checks on the block at a height, given the maps of the blocks below and the block itself. */
  method CheckNext(r: Rules, heightMap: map<nat, nat>, index: map<nat, Header>, height: nat, blk: Block, out: UTXOSet,
                   now: nat, skipPow: bool, ghost hist: seq<Header>) returns (reason: Option<Reason>)
    requires height in heightMap && heightMap[height] in index && index[heightMap[height]] == blk.header
    requires |hist| == height
    requires 0 < height ==> Covers(heightMap, index, height - 1) && hist == Headers(heightMap, index, height - 1)
    modifies out
    ensures reason.None? ==> CheckBlock(r, hist, blk, old(out.entries), now, skipPow) == Accepted(out.entries)
    ensures reason.Some? ==> CheckBlock(r, hist, blk, old(out.entries), now, skipPow) == Rejected(reason.value, out.entries)
  {
    hide NextWork, IsCanonical, CheckPow, ExpectedBits, BlockReward, ApplyAll;
    var parent := if height > 0 then Some(index[heightMap[height - 1]]) else None;
    if height > 0 && blk.header.prev != r.c.Link(parent.value) {
      return Some(PrevLink);
    }
    if !TimestampValid(r.p, blk.header, parent, now) {
      return Some(BadTimestamp);
    }
    if height > 0 && !skipPow {
      if !IsCanonical(blk.header.bits, 64) {
        return Some(BitsEncoding);
      }
      if !CheckPow(r.c, r.p, blk.header) {
        return Some(BadPow);
      }
    }
    if r.c.MerkleRoot(blk.transactions) != blk.header.merkleRoot {
      return Some(BadMerkle);
    }
    var bits := ExpectedBitsFor(r.p, heightMap, index, height, blk.header, hist);
    if blk.header.bits != bits {
      return Some(WrongBits);
    }
    if blk.transactions == [] || !blk.transactions[0].IsCoinbase() {
      return Some(CoinbaseMissing);
    }
    var failed, fees := ApplyTransactions(r.c, out, blk.transactions, Wrap32(height));
    if failed.Some? {
      return Some(TxRejected(failed.value));
    }
    var coinbaseOut := UTXOSet.SumOutputs(blk.transactions[0]);
    if coinbaseOut > Wrap64(BlockReward(height) + fees) {
      return Some(CoinbaseOverpay);
    }
    return None;
  }
}
