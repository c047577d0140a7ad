/** Conservation of value: validated transactions never create money, validated paths never hold
    more than the rewards of their blocks, and rewards never reach the declared total supply. */
module Supply {
  import opened Arith
  import opened Primitives
  import opened Utxo
  import opened PathValidation

  // ---------------------------------------------------------------------------
  // Value of a set of outputs
  // ---------------------------------------------------------------------------

  ghost function TotalValue(utxo: UtxoMap): int {
    if utxo == map[] then 0
    else
      var point :| point in utxo;
      utxo[point].output.value + TotalValue(utxo - {point})
  }

  /** The total does not depend on the order in which the outputs are counted. */
  lemma {:induction false} TotalRemove(utxo: UtxoMap, point: OutPoint)
    requires point in utxo
    ensures TotalValue(utxo) == utxo[point].output.value + TotalValue(utxo - {point})
    decreases |utxo|
  {
    var first :| first in utxo && TotalValue(utxo) == utxo[first].output.value + TotalValue(utxo - {first});
    if first != point {
      TotalRemove(utxo - {first}, point);
      TotalRemove(utxo - {point}, first);
      assert utxo - {first} - {point} == utxo - {point} - {first};
    }
  }

  lemma TotalInsert(utxo: UtxoMap, point: OutPoint, entry: Entry)
    ensures TotalValue(utxo[point := entry]) == TotalValue(utxo) - ValueOf(utxo, point) + entry.output.value
  {
    var after := utxo[point := entry];
    TotalRemove(after, point);
    if point in utxo {
      TotalRemove(utxo, point);
      assert after - {point} == utxo - {point};
    } else {
      assert after - {point} == utxo;
    }
  }

  ghost predicate NonNegative(utxo: UtxoMap) {
    forall point :: point in utxo ==> 0 <= utxo[point].output.value
  }

  lemma {:induction false} TotalNonNegative(utxo: UtxoMap)
    requires NonNegative(utxo)
    ensures 0 <= TotalValue(utxo)
    decreases |utxo|
  {
    if utxo != map[] {
      var point :| point in utxo;
      TotalRemove(utxo, point);
      TotalNonNegative(utxo - {point});
    }
  }

  // ---------------------------------------------------------------------------
  // One transaction
  // ---------------------------------------------------------------------------

  /** Non-negative outputs whose exact total leaves room for 64-bit sums. */
  predicate SaneOutputs(tx: Transaction) {
    && (forall i :: 0 <= i < |tx.outputs| ==> 0 <= tx.outputs[i].value)
    && OutputSum(tx.outputs) < 0x4000_0000_0000_0000
  }

  lemma {:induction false} OutputSumNonNegative(outputs: seq<TxOut>)
    requires forall i :: 0 <= i < |outputs| ==> 0 <= outputs[i].value
    ensures 0 <= OutputSum(outputs)
  {
    if outputs != [] {
      OutputSumNonNegative(outputs[..|outputs| - 1]);
    }
  }

  lemma {:induction false} AddOutputsTotal(c: Crypto, utxo: UtxoMap, tx: Transaction, height: Uint32, k: nat)
    requires k <= |tx.outputs| && NonNegative(utxo) && SaneOutputs(tx)
    ensures NonNegative(AddOutputs(c, utxo, tx, height, k))
    ensures TotalValue(AddOutputs(c, utxo, tx, height, k)) <= TotalValue(utxo) + OutputSum(tx.outputs[..k])
  {
    if k != 0 {
      AddOutputsTotal(c, utxo, tx, height, k - 1);
      var before := AddOutputs(c, utxo, tx, height, k - 1);
      TotalInsert(before, OutputPoint(c, tx, k - 1), Entry(tx.outputs[k - 1], height, tx.IsCoinbase()));
      assert tx.outputs[..k][..k - 1] == tx.outputs[..k - 1];
    }
  }

  /** Spending distinct present outputs removes exactly their value. */
  lemma {:induction false} EraseTotal(utxo: UtxoMap, inputs: seq<TxIn>, k: nat)
    requires k <= |inputs|
    requires forall i :: 0 <= i < k ==> inputs[i].prevout in utxo
    requires forall i, j :: 0 <= i < j < k ==> inputs[i].prevout != inputs[j].prevout
    ensures TotalValue(utxo - Prevouts(inputs[..k])) == TotalValue(utxo) - InputSum(utxo, inputs, k)
  {
    if k == 0 {
      assert Prevouts(inputs[..0]) == {};
      assert utxo - Prevouts(inputs[..0]) == utxo;
    } else {
      EraseTotal(utxo, inputs, k - 1);
      var point := inputs[k - 1].prevout;
      var before := utxo - Prevouts(inputs[..k - 1]);
      assert inputs[..k] == inputs[..k - 1] + [inputs[k - 1]];
      PrevoutsSnoc(inputs[..k - 1], inputs[k - 1]);
      assert point in before;
      TotalRemove(before, point);
      assert before - {point} == utxo - Prevouts(inputs[..k]);
    }
  }

  lemma AcceptedInputsPresent(c: Crypto, utxo: UtxoMap, tx: Transaction, height: Uint32)
    requires InputsOk(c, utxo, tx, height)
    ensures forall i :: 0 <= i < |tx.inputs| ==> tx.inputs[i].prevout in utxo
  {
    forall i | 0 <= i < |tx.inputs|
      ensures tx.inputs[i].prevout in utxo
    {
      assert InputOk(c, utxo, tx, height, i);
    }
  }

  lemma {:induction false} InputSumNonNegative(utxo: UtxoMap, inputs: seq<TxIn>, k: nat)
    requires k <= |inputs| && NonNegative(utxo)
    ensures 0 <= InputSum(utxo, inputs, k)
  {
    if k != 0 {
      InputSumNonNegative(utxo, inputs, k - 1);
    }
  }

  lemma SpentTotals(c: Crypto, utxo: UtxoMap, tx: Transaction, height: Uint32)
    requires NonNegative(utxo) && DistinctInputs(tx) && InputsOk(c, utxo, tx, height)
    ensures var spent := utxo - Prevouts(tx.inputs);
            && NonNegative(spent) && 0 <= TotalValue(spent)
            && 0 <= InputSum(utxo, tx.inputs, |tx.inputs|)
            && TotalValue(spent) == TotalValue(utxo) - InputSum(utxo, tx.inputs, |tx.inputs|)
  {
    var n := |tx.inputs|;
    AcceptedInputsPresent(c, utxo, tx, height);
    assert tx.inputs[..n] == tx.inputs;
    EraseTotal(utxo, tx.inputs, n);
    TotalNonNegative(utxo - Prevouts(tx.inputs));
    InputSumNonNegative(utxo, tx.inputs, n);
  }

  lemma OutputTotals(tx: Transaction)
    requires SaneOutputs(tx)
    ensures tx.TotalOutputValue() == OutputSum(tx.outputs)
    ensures 0 <= tx.TotalOutputValue() < 0x4000_0000_0000_0000
    ensures tx.outputs[..|tx.outputs|] == tx.outputs
  {
    OutputSumNonNegative(tx.outputs);
  }

  /** An applied spend pays its exact, non-negative fee out of the set and creates nothing. */
  lemma SpendConserves(c: Crypto, utxo: UtxoMap, tx: Transaction, height: Uint32)
    requires NonNegative(utxo) && TotalValue(utxo) < 0x7000_0000_0000_0000
    requires DistinctInputs(tx) && SaneOutputs(tx) && !tx.IsCoinbase()
    requires Apply(c, utxo, tx, height).ok
    ensures var result := Apply(c, utxo, tx, height);
            && NonNegative(result.utxo) && 0 <= result.fee
            && TotalValue(result.utxo) + result.fee <= TotalValue(utxo)
  {
    hide InputsOk, AddOutputs, InputSum, OutputSum, Prevouts, TotalValue, NonNegative, SaneOutputs, DistinctInputs;
    SpentTotals(c, utxo, tx, height);
    OutputTotals(tx);
    AddOutputsTotal(c, utxo - Prevouts(tx.inputs), tx, height, |tx.outputs|);
    Wrap64Identity(InputSum(utxo, tx.inputs, |tx.inputs|));
    hide Wrap64;
    Wrap64Identity(InputSum(utxo, tx.inputs, |tx.inputs|) - OutputSum(tx.outputs));
  }

  /** The coinbase adds at most its outputs. */
  lemma CoinbaseAdds(c: Crypto, utxo: UtxoMap, tx: Transaction, height: Uint32)
    requires NonNegative(utxo) && SaneOutputs(tx) && tx.IsCoinbase()
    ensures var result := Apply(c, utxo, tx, height);
            && result.ok && NonNegative(result.utxo) && result.fee == 0
            && 0 <= tx.TotalOutputValue() < 0x4000_0000_0000_0000
            && TotalValue(result.utxo) <= TotalValue(utxo) + tx.TotalOutputValue()
  {
    hide AddOutputs, OutputSum, TotalValue, NonNegative, SaneOutputs;
    OutputTotals(tx);
    AddOutputsTotal(c, utxo, tx, height, |tx.outputs|);
  }

  /** Listing one output twice as input mints money, so distinct inputs are needed: nothing in the
      application of a transaction checks for them. */
  lemma RepeatedInputMints(c: Crypto, point: OutPoint, tx: Transaction)
    requires point != OutPoint(0, NULL_INDEX)
    requires forall i, script :: c.authorized(tx, i, script)
    requires |tx.inputs| == 2 && tx.inputs[0].prevout == point && tx.inputs[1].prevout == point
    requires 65 <= |tx.inputs[0].scriptSig| && 65 <= |tx.inputs[1].scriptSig|
    requires |tx.outputs| == 1 && tx.outputs[0].value == 20
    ensures var utxo := map[point := Entry(TxOut(10, []), 0, false)];
            Apply(c, utxo, tx, 0).ok && TotalValue(utxo) == 10 && TotalValue(Apply(c, utxo, tx, 0).utxo) == 20
  {
    var utxo: UtxoMap := map[point := Entry(TxOut(10, []), 0, false)];
    TotalInsert(map[], point, Entry(TxOut(10, []), 0, false));
    assert InputSum(utxo, tx.inputs, 2) == InputSum(utxo, tx.inputs, 1) + 10 == 20;
    assert tx.outputs[..0] == [];
    assert OutputSum(tx.outputs) == 20;
    assert InputsOk(c, utxo, tx, 0);
    assert tx.inputs[0].prevout in Prevouts(tx.inputs);
    assert utxo - Prevouts(tx.inputs) == map[];
    var entry := Entry(tx.outputs[0], 0, false);
    assert AddOutputs(c, map[], tx, 0, 1) == AddOutputs(c, map[], tx, 0, 0)[OutputPoint(c, tx, 0) := entry];
    TotalInsert(map[], OutputPoint(c, tx, 0), entry);
  }

  // ---------------------------------------------------------------------------
  // One block
  // ---------------------------------------------------------------------------

  /** The side conditions that the validation of a path does not check itself: one coinbase, distinct
      inputs, sane outputs. */
  predicate SaneBlock(blk: Block) {
    && blk.transactions != []
    && (forall i :: 0 <= i < |blk.transactions| ==> SaneOutputs(blk.transactions[i]))
    && (forall i :: 0 < i < |blk.transactions| ==> !blk.transactions[i].IsCoinbase() && DistinctInputs(blk.transactions[i]))
  }

  /** After k > 0 transactions the value plus the fees is at most the old value plus the coinbase. */
  lemma {:induction false} TransactionsConserve(c: Crypto, utxo: UtxoMap, blk: Block, height: Uint32, k: nat)
    requires NonNegative(utxo) && 0 <= TotalValue(utxo) <= TOTAL_SUPPLY * SATOSHIS
    requires SaneBlock(blk) && blk.transactions[0].IsCoinbase()
    requires 0 < k <= |blk.transactions| && ApplyAll(c, utxo, blk.transactions, height, k).failed.None?
    ensures var applied := ApplyAll(c, utxo, blk.transactions, height, k);
            && NonNegative(applied.utxo) && 0 <= applied.fees && 0 <= TotalValue(applied.utxo)
            && TotalValue(applied.utxo) + applied.fees <= TotalValue(utxo) + blk.transactions[0].TotalOutputValue()
  {
    hide Apply, TotalValue, NonNegative, SaneOutputs, DistinctInputs;
    var coinbase := blk.transactions[0];
    if k == 1 {
      assert ApplyAll(c, utxo, blk.transactions, height, 0) == Applied(None, utxo, 0);
      CoinbaseAdds(c, utxo, coinbase, height);
    } else {
      TransactionsConserve(c, utxo, blk, height, k - 1);
      var before := ApplyAll(c, utxo, blk.transactions, height, k - 1);
      var tx := blk.transactions[k - 1];
      CoinbaseAdds(c, utxo, coinbase, height);
      SpendStep(c, before, tx, height, k - 1);
    }
    TotalNonNegative(ApplyAll(c, utxo, blk.transactions, height, k).utxo);
  }

  lemma SpendStep(c: Crypto, before: Applied, tx: Transaction, height: Uint32, i: nat)
    requires NonNegative(before.utxo) && 0 <= before.fees && 0 <= TotalValue(before.utxo)
    requires TotalValue(before.utxo) + before.fees < 0x7000_0000_0000_0000
    requires SaneOutputs(tx) && DistinctInputs(tx) && !tx.IsCoinbase()
    requires ApplyNext(c, before, tx, height, i).failed.None?
    ensures var after := ApplyNext(c, before, tx, height, i);
            && NonNegative(after.utxo) && before.fees <= after.fees
            && TotalValue(after.utxo) + after.fees <= TotalValue(before.utxo) + before.fees
  {
    hide Apply, TotalValue, NonNegative, SaneOutputs, DistinctInputs;
    SpendConserves(c, before.utxo, tx, height);
    TotalNonNegative(Apply(c, before.utxo, tx, height).utxo);
  }

  /** A validated block raises the total by at most its reward. */
  lemma BlockAddsAtMostReward(r: Rules, blk: Block, height: nat, utxo: UtxoMap)
    requires NonNegative(utxo) && TotalValue(utxo) <= TOTAL_SUPPLY * SATOSHIS
    requires SaneBlock(blk) && blk.transactions[0].IsCoinbase()
    requires TransactionsOutcome(r, blk, height, utxo).Accepted?
    ensures var after := TransactionsOutcome(r, blk, height, utxo).utxo;
            NonNegative(after) && TotalValue(after) <= TotalValue(utxo) + BlockReward(height)
  {
    hide TotalValue, NonNegative, ApplyAll, SaneOutputs, DistinctInputs, BlockReward;
    TotalNonNegative(utxo);
    var n := |blk.transactions|;
    TransactionsConserve(r.c, utxo, blk, Wrap32(height), n);
    CoinbaseAdds(r.c, utxo, blk.transactions[0], Wrap32(height));
    RewardSmall(height);
    var fees := ApplyAll(r.c, utxo, blk.transactions, Wrap32(height), n).fees;
    Wrap64Identity(BlockReward(height) + fees);
  }

  lemma RewardSmall(height: nat)
    ensures BlockReward(height) <= INITIAL_BLOCK_REWARD * SATOSHIS
  {
    var reward := INITIAL_BLOCK_REWARD * SATOSHIS;
    if Halvings(height) < 64 {
      var p := Pow2(Halvings(height));
      hide Pow2;
      MulMono(1, p, reward + 1);
      DivAtMost(reward, p, reward);
    }
  }

  // ---------------------------------------------------------------------------
  // Whole paths
  // ---------------------------------------------------------------------------

  /** Sum of the rewards of the first n heights. */
  function RewardSum(n: nat): nat {
    if n == 0 then 0 else RewardSum(n - 1) + BlockReward(n - 1)
  }

  function EpochReward(epoch: nat): nat {
    if epoch >= 64 then 0 else Quotient(INITIAL_BLOCK_REWARD * SATOSHIS, Pow2(epoch))
  }

  /** Each epoch pays at most half of what the one before paid. */
  lemma EpochHalves(epoch: nat)
    ensures EpochReward(epoch + 1) == EpochReward(epoch) / 2 || (epoch == 63 && EpochReward(epoch + 1) == 0)
  {
    if epoch < 63 {
      var p := Pow2(epoch);
      assert Pow2(epoch + 1) == 2 * p;
      hide Pow2;
      DivDiv(INITIAL_BLOCK_REWARD * SATOSHIS, p, 2);
    }
  }

  /** Sum of the epoch rewards before the given epoch. */
  function EpochSum(epoch: nat): nat {
    if epoch == 0 then 0 else EpochSum(epoch - 1) + EpochReward(epoch - 1)
  }

  /** The eleventh halving divides an odd number, so the geometric sum is never reached. */
  lemma {:induction false} EpochSumBound(epoch: nat)
    ensures EpochSum(epoch) + 2 * EpochReward(epoch) + (if 11 <= epoch then 1 else 0) <= 2 * INITIAL_BLOCK_REWARD * SATOSHIS
    ensures epoch <= 10 ==> EpochReward(epoch) * Pow2(epoch) == INITIAL_BLOCK_REWARD * SATOSHIS
  {
    hide Quotient, Pow2;
    if epoch == 0 {
      FirstEpoch();
    } else {
      EpochSumBound(epoch - 1);
      EpochHalves(epoch - 1);
      if epoch <= 11 {
        EarlyEpochs(epoch - 1);
      }
    }
  }

  lemma FirstEpoch()
    ensures EpochReward(0) == INITIAL_BLOCK_REWARD * SATOSHIS && Pow2(0) == 1
  {
  }

  lemma EarlyEpochs(epoch: nat)
    requires epoch <= 10
    ensures EpochReward(epoch) * Pow2(epoch) == INITIAL_BLOCK_REWARD * SATOSHIS
    ensures epoch < 10 ==> EpochReward(epoch + 1) * Pow2(epoch + 1) == INITIAL_BLOCK_REWARD * SATOSHIS
    ensures epoch == 10 ==> EpochReward(10) % 2 == 1
  {
    assert Pow2(10) == 1024;
  }

  /** The rewards of the first n blocks, counted by whole epochs. */
  lemma {:induction false} RewardSumByEpoch(n: nat)
    ensures RewardSum(n) == HALVING_INTERVAL_BLOCKS * EpochSum(Halvings(n)) + (n % HALVING_INTERVAL_BLOCKS) * EpochReward(Halvings(n))
  {
    hide Quotient, Pow2, EpochReward, BlockReward;
    if n != 0 {
      RewardSumByEpoch(n - 1);
      assert BlockReward(n - 1) == EpochReward(Halvings(n - 1)) by { RewardOfEpoch(n - 1); }
      var e, o := Halvings(n - 1), (n - 1) % HALVING_INTERVAL_BLOCKS;
      if o + 1 < HALVING_INTERVAL_BLOCKS {
        DivUnique(n, HALVING_INTERVAL_BLOCKS, e, o + 1);
        assert (o + 1) * EpochReward(e) == o * EpochReward(e) + EpochReward(e);
      } else {
        DivUnique(n, HALVING_INTERVAL_BLOCKS, e + 1, 0);
      }
    }
  }

  /** Main result: the reward of an epoch of 200000 blocks is 2500 coins halved once per epoch and rounded down, and nothing
      from the 64th halving on. */
  lemma RewardSchedule(height: nat, epoch: nat)
    requires 200_000 * epoch <= height < 200_000 * (epoch + 1)
    ensures if epoch < 64 then Product(BlockReward(height), Pow2(epoch)) <= 250_000_000_000 < Product(BlockReward(height) + 1, Pow2(epoch))
            else BlockReward(height) == 0
  {
    hide Pow2;
    DivUnique(height, HALVING_INTERVAL_BLOCKS, epoch, height - 200_000 * epoch);
    if epoch < 64 {
      DivMod(INITIAL_BLOCK_REWARD * SATOSHIS, Pow2(epoch));
      assert (BlockReward(height) + 1) * Pow2(epoch) == BlockReward(height) * Pow2(epoch) + Pow2(epoch);
    }
  }

  lemma RewardOfEpoch(height: nat)
    ensures BlockReward(height) == EpochReward(Halvings(height))
  {
  }

  /** Main result: however long the chain, the rewards stay below the declared total supply. */
  lemma RewardsBelowTotalSupply(n: nat)
    ensures RewardSum(n) < TOTAL_SUPPLY * SATOSHIS
  {
    var e, o := Halvings(n), n % HALVING_INTERVAL_BLOCKS;
    RewardSumByEpoch(n);
    EpochSumBound(e);
    assert e <= 10 ==> 0 < EpochReward(e) by {
      if e <= 10 && EpochReward(e) == 0 {
        assert false;
      }
    }
    hide EpochReward, EpochSum, Quotient;
    MulMono(o, HALVING_INTERVAL_BLOCKS, EpochReward(e));
  }

  /** Main result: the outputs of a validated path are worth at most the rewards of its blocks. */
  lemma {:induction false} SupplyBound(r: Rules, blocks: seq<Block>, now: nat, skipPow: bool)
    requires PathValid(r, blocks, now, skipPow)
    requires forall i :: 0 <= i < |blocks| ==> SaneBlock(blocks[i])
    ensures var utxo := Replay(r, blocks, now, skipPow).utxo;
            NonNegative(utxo) && TotalValue(utxo) <= RewardSum(|blocks|) < TOTAL_SUPPLY * SATOSHIS
  {
    hide TransactionsOutcome, CheckBlock, Replay, PathValid, SaneBlock, BlockReward;
    RewardsBelowTotalSupply(|blocks|);
    if blocks == [] {
      EmptyReplay(r, now, skipPow);
    } else {
      var front, last := blocks[..|blocks| - 1], blocks[|blocks| - 1];
      LastBlock(r, blocks, now, skipPow);
      SupplyBound(r, front, now, skipPow);
      var before := Replay(r, front, now, skipPow).utxo;
      AcceptedBlock(r, HeadersOf(front), last, before, now, skipPow);
      SaneHasTransactions(last);
      BlockAddsAtMostReward(r, last, |front|, before);
    }
  }

  lemma SaneHasTransactions(blk: Block)
    requires SaneBlock(blk)
    ensures blk.transactions != []
  {
  }

  /** A valid path without its last block is valid, and the last block passes its checks after it. */
  lemma LastBlock(r: Rules, blocks: seq<Block>, now: nat, skipPow: bool)
    requires PathValid(r, blocks, now, skipPow) && blocks != []
    ensures var front, last := blocks[..|blocks| - 1], blocks[|blocks| - 1];
            && PathValid(r, front, now, skipPow)
            && var outcome := CheckBlock(r, HeadersOf(front), last, Replay(r, front, now, skipPow).utxo, now, skipPow);
               outcome.Accepted? && Replay(r, blocks, now, skipPow) == outcome
  {
    hide CheckBlock;
  }

  lemma AcceptedBlock(r: Rules, hist: seq<Header>, blk: Block, utxo: UtxoMap, now: nat, skipPow: bool)
    requires CheckBlock(r, hist, blk, utxo, now, skipPow).Accepted?
    ensures blk.transactions != [] && blk.transactions[0].IsCoinbase()
    ensures CheckBlock(r, hist, blk, utxo, now, skipPow) == TransactionsOutcome(r, blk, |hist|, utxo)
  {
    hide TransactionsOutcome, ExpectedBits;
  }

  // ---------------------------------------------------------------------------
  // Maturity
  // ---------------------------------------------------------------------------

  /** Every output was created at or below the given height. */
  ghost predicate CreatedBy(utxo: UtxoMap, height: int) {
    forall point :: point in utxo ==> utxo[point].height <= height
  }

  lemma {:induction false} AddOutputsCreated(c: Crypto, utxo: UtxoMap, tx: Transaction, height: Uint32, k: nat)
    requires k <= |tx.outputs| && CreatedBy(utxo, height)
    ensures CreatedBy(AddOutputs(c, utxo, tx, height, k), height)
  {
    if k != 0 {
      AddOutputsCreated(c, utxo, tx, height, k - 1);
    }
  }

  lemma ApplyCreated(c: Crypto, utxo: UtxoMap, tx: Transaction, height: Uint32)
    requires CreatedBy(utxo, height)
    ensures CreatedBy(Apply(c, utxo, tx, height).utxo, height)
  {
    hide InputsOk, InputSum, OutputSum, AddOutputs;
    AddOutputsCreated(c, utxo, tx, height, |tx.outputs|);
    AddOutputsCreated(c, utxo - Prevouts(tx.inputs), tx, height, |tx.outputs|);
  }

  lemma {:induction false} ApplyAllCreated(c: Crypto, utxo: UtxoMap, txs: seq<Transaction>, height: Uint32, k: nat)
    requires k <= |txs| && CreatedBy(utxo, height)
    ensures CreatedBy(ApplyAll(c, utxo, txs, height, k).utxo, height)
  {
    hide Apply;
    if k != 0 {
      ApplyAllCreated(c, utxo, txs, height, k - 1);
      ApplyCreated(c, ApplyAll(c, utxo, txs, height, k - 1).utxo, txs[k - 1], height);
    }
  }

  /** The outputs of a replayed path were all created inside it. */
  lemma {:induction false} ReplayCreated(r: Rules, blocks: seq<Block>, now: nat, skipPow: bool)
    requires PathValid(r, blocks, now, skipPow) && |blocks| <= 0x1_0000_0000
    ensures CreatedBy(Replay(r, blocks, now, skipPow).utxo, |blocks| - 1)
  {
    if blocks != [] {
      var front, last := blocks[..|blocks| - 1], blocks[|blocks| - 1];
      assert PathValid(r, front, now, skipPow);
      assert CheckBlock(r, HeadersOf(front), last, Replay(r, front, now, skipPow).utxo, now, skipPow).Accepted?;
      hide CheckBlock, CreatedBy;
      ReplayCreated(r, front, now, skipPow);
      BlockCreated(r, front, last, Replay(r, front, now, skipPow).utxo, now, skipPow);
    }
  }

  lemma BlockCreated(r: Rules, front: seq<Block>, blk: Block, utxo: UtxoMap, now: nat, skipPow: bool)
    requires |front| < 0x1_0000_0000 && CreatedBy(utxo, |front| - 1)
    requires CheckBlock(r, HeadersOf(front), blk, utxo, now, skipPow).Accepted?
    ensures CreatedBy(CheckBlock(r, HeadersOf(front), blk, utxo, now, skipPow).utxo, |front|)
  {
    hide CheckBlock, ApplyAll;
    AcceptedBlock(r, HeadersOf(front), blk, utxo, now, skipPow);
    ApplyAllCreated(r.c, utxo, blk.transactions, |front|, |blk.transactions|);
  }

  /** Transactions that are all accepted were each applied to what the ones before left. */
  lemma {:induction false} EachApplied(c: Crypto, utxo: UtxoMap, txs: seq<Transaction>, height: Uint32, k: nat, n: nat)
    requires k < n <= |txs| && ApplyAll(c, utxo, txs, height, n).failed.None?
    ensures Apply(c, ApplyAll(c, utxo, txs, height, k).utxo, txs[k], height).ok
    decreases n
  {
    hide Apply;
    if k < n - 1 {
      EachApplied(c, utxo, txs, height, k, n - 1);
    }
  }

  lemma AppliedInputs(c: Crypto, utxo: UtxoMap, tx: Transaction, height: Uint32, i: nat)
    requires Apply(c, utxo, tx, height).ok && !tx.IsCoinbase() && i < |tx.inputs|
    ensures InputOk(c, utxo, tx, height, i)
  {
    hide InputOk, AddOutputs;
  }

  lemma AcceptedTransactions(r: Rules, blk: Block, height: nat, utxo: UtxoMap)
    requires blk.transactions != [] && TransactionsOutcome(r, blk, height, utxo).Accepted?
    ensures ApplyAll(r.c, utxo, blk.transactions, Wrap32(height), |blk.transactions|).failed.None?
  {
    hide ApplyAll;
  }

  /** Main result: on a validated path every coinbase output that a transaction of its last block spends, after
      any number of transactions of that block before it, was created at least 100 blocks earlier. */
  lemma SpentCoinbaseIsMature(r: Rules, front: seq<Block>, blk: Block, now: nat, skipPow: bool, k: nat, i: nat)
    requires PathValid(r, front + [blk], now, skipPow) && |front| < 0x1_0000_0000
    requires k < |blk.transactions| && !blk.transactions[k].IsCoinbase() && i < |blk.transactions[k].inputs|
    ensures PathValid(r, front, now, skipPow)
    ensures var utxo := ApplyAll(r.c, Replay(r, front, now, skipPow).utxo, blk.transactions, |front|, k).utxo;
            var point := blk.transactions[k].inputs[i].prevout;
            point in utxo && (utxo[point].coinbase ==> utxo[point].height + COINBASE_MATURITY <= |front|)
  {
    hide Replay, ApplyAll, CheckBlock, TransactionsOutcome;
    assert (front + [blk])[..|front|] == front;
    LastBlock(r, front + [blk], now, skipPow);
    var before := Replay(r, front, now, skipPow).utxo;
    AcceptedBlock(r, HeadersOf(front), blk, before, now, skipPow);
    AcceptedTransactions(r, blk, |front|, before);
    EachApplied(r.c, before, blk.transactions, |front|, k, |blk.transactions|);
    AppliedInputs(r.c, ApplyAll(r.c, before, blk.transactions, |front|, k).utxo, blk.transactions[k], |front|, i);
    ReplayCreated(r, front, now, skipPow);
    ApplyAllCreated(r.c, before, blk.transactions, |front|, k);
  }
}
