/** Exact accounting: where value comes from and where it goes when transactions and blocks are applied,
    whatever they are, and when that conserves value. */
module Conservation {
  import opened Arith
  import opened Primitives
  import opened Utxo
  import opened PathValidation
  import opened Supply

  // ---------------------------------------------------------------------------
  // One transaction
  // ---------------------------------------------------------------------------

  /** Input i names an output that an earlier input has named already. */
  predicate Repeats(inputs: seq<TxIn>, i: nat)
    requires i < |inputs|
  {
    exists j :: 0 <= j < i && inputs[j].prevout == inputs[i].prevout
  }

  /** Value counted again because some of the first k inputs are repeats. */
  function RepeatedValue(utxo: UtxoMap, inputs: seq<TxIn>, k: nat): int
    requires k <= |inputs|
  {
    if k == 0 then 0
    else RepeatedValue(utxo, inputs, k - 1) + if Repeats(inputs, k - 1) then ValueOf(utxo, inputs[k - 1].prevout) else 0
  }

  /** Value of the entries that the first k outputs replace. */
  function OverwrittenValue(c: Crypto, utxo: UtxoMap, tx: Transaction, height: Uint32, k: nat): int
    requires k <= |tx.outputs|
  {
    if k == 0 then 0
    else OverwrittenValue(c, utxo, tx, height, k - 1) + ValueOf(AddOutputs(c, utxo, tx, height, k - 1), OutputPoint(c, tx, k - 1))
  }

  /** Erasing the inputs takes out each named output once, though the sum counts it as often as it is named. */
  lemma {:induction false} EraseExact(utxo: UtxoMap, inputs: seq<TxIn>, k: nat)
    requires k <= |inputs| && forall i :: 0 <= i < k ==> inputs[i].prevout in utxo
    ensures TotalValue(utxo - Prevouts(inputs[..k])) == TotalValue(utxo) - InputSum(utxo, inputs, k) + RepeatedValue(utxo, inputs, k)
  {
    if k == 0 {
      assert utxo - Prevouts(inputs[..0]) == utxo;
    } else {
      EraseExact(utxo, inputs, k - 1);
      var point, before := inputs[k - 1].prevout, utxo - Prevouts(inputs[..k - 1]);
      assert inputs[..k] == inputs[..k - 1] + [inputs[k - 1]];
      PrevoutsSnoc(inputs[..k - 1], inputs[k - 1]);
      RepeatsIs(inputs, k - 1);
      if !Repeats(inputs, k - 1) {
        TotalRemove(before, point);
        assert before - {point} == utxo - Prevouts(inputs[..k]);
      } else {
        assert before == utxo - Prevouts(inputs[..k]);
      }
    }
  }

  lemma RepeatsIs(inputs: seq<TxIn>, i: nat)
    requires i < |inputs|
    ensures Repeats(inputs, i) <==> inputs[i].prevout in Prevouts(inputs[..i])
  {
    if Repeats(inputs, i) {
      var j :| 0 <= j < i && inputs[j].prevout == inputs[i].prevout;
      assert inputs[..i][j].prevout == inputs[i].prevout;
    }
  }

  /** Adding outputs brings in their value, less what they replace. */
  lemma {:induction false} AddOutputsExact(c: Crypto, utxo: UtxoMap, tx: Transaction, height: Uint32, k: nat)
    requires k <= |tx.outputs|
    ensures TotalValue(AddOutputs(c, utxo, tx, height, k))
            == TotalValue(utxo) + OutputSum(tx.outputs[..k]) - OverwrittenValue(c, utxo, tx, height, k)
  {
    if k != 0 {
      AddOutputsExact(c, utxo, tx, height, k - 1);
      var before := AddOutputs(c, utxo, tx, height, k - 1);
      TotalInsert(before, OutputPoint(c, tx, k - 1), Entry(tx.outputs[k - 1], height, tx.IsCoinbase()));
      assert tx.outputs[..k][..k - 1] == tx.outputs[..k - 1];
    }
  }

  /** What an accepted transaction does to the total: a coinbase brings in its outputs; a spend pays its fee out,
      counts repeated inputs again and loses what its 64-bit sums wrap around; both lose what they replace. */
  datatype Account = Account(minted: int, fee: int, repeated: int, overwritten: int, wrapped: int) {
    function Gain(): int {
      minted - fee + repeated - overwritten - wrapped
    }

    function Plus(more: Account): Account {
      Account(minted + more.minted, fee + more.fee, repeated + more.repeated, overwritten + more.overwritten, wrapped + more.wrapped)
    }
  }

  const NOTHING := Account(0, 0, 0, 0, 0)

  function AccountOf(c: Crypto, utxo: UtxoMap, tx: Transaction, height: Uint32): Account {
    if tx.IsCoinbase() then
      Account(OutputSum(tx.outputs), 0, 0, OverwrittenValue(c, utxo, tx, height, |tx.outputs|), 0)
    else
      var n, fee := |tx.inputs|, Apply(c, utxo, tx, height).fee;
      Account(0, fee, RepeatedValue(utxo, tx.inputs, n),
              OverwrittenValue(c, utxo - Prevouts(tx.inputs), tx, height, |tx.outputs|),
              InputSum(utxo, tx.inputs, n) - OutputSum(tx.outputs) - fee)
  }

  /** Main result: the total changes by exactly the account of the transaction, whatever its inputs and outputs. */
  lemma TransactionAccount(c: Crypto, utxo: UtxoMap, tx: Transaction, height: Uint32)
    requires Apply(c, utxo, tx, height).ok
    ensures TotalValue(Apply(c, utxo, tx, height).utxo) == TotalValue(utxo) + AccountOf(c, utxo, tx, height).Gain()
  {
    hide InputOk, AddOutputs, OverwrittenValue, RepeatedValue, InputSum, OutputSum, Prevouts, TotalValue, Wrap64;
    assert tx.outputs[..|tx.outputs|] == tx.outputs;
    if tx.IsCoinbase() {
      AddOutputsExact(c, utxo, tx, height, |tx.outputs|);
    } else {
      assert tx.inputs[..|tx.inputs|] == tx.inputs;
      AcceptedInputsPresent(c, utxo, tx, height);
      EraseExact(utxo, tx.inputs, |tx.inputs|);
      AddOutputsExact(c, utxo - Prevouts(tx.inputs), tx, height, |tx.outputs|);
    }
  }

  /** What wraps around is a multiple of 2^64. */
  lemma WrappedWhole(c: Crypto, utxo: UtxoMap, tx: Transaction, height: Uint32)
    requires Apply(c, utxo, tx, height).ok
    ensures AccountOf(c, utxo, tx, height).wrapped % 0x1_0000_0000_0000_0000 == 0
  {
    hide InputSum, OutputSum, InputsOk, AddOutputs, OverwrittenValue, RepeatedValue, Prevouts, Wrap64;
    if !tx.IsCoinbase() {
      WrapDifference(InputSum(utxo, tx.inputs, |tx.inputs|), OutputSum(tx.outputs));
    }
  }

  lemma WrapDifference(a: int, b: int)
    ensures (a - b - Wrap64(Wrap64(a) - Wrap64(b))) % 0x1_0000_0000_0000_0000 == 0
  {
    var i, j := WrapCount(a), WrapCount(b);
    var k := WrapCount(Wrap64(a) - Wrap64(b));
    assert a - b - Wrap64(Wrap64(a) - Wrap64(b)) == (i - j + k) * 0x1_0000_0000_0000_0000;
  }

  /** How often a sum has wrapped. */
  function WrapCount(x: int): (k: int)
    ensures x == Wrap64(x) + k * 0x1_0000_0000_0000_0000
  {
    (x + 0x8000_0000_0000_0000) / 0x1_0000_0000_0000_0000
  }

  // ---------------------------------------------------------------------------
  // When a spend conserves value
  // ---------------------------------------------------------------------------

  /** An output worth something is named twice. */
  predicate NamesValueTwice(utxo: UtxoMap, inputs: seq<TxIn>) {
    exists i, j :: 0 <= i < j < |inputs| && inputs[i].prevout == inputs[j].prevout && ValueOf(utxo, inputs[j].prevout) != 0
  }

  lemma {:induction false} RepeatedNonNegative(utxo: UtxoMap, inputs: seq<TxIn>, k: nat)
    requires k <= |inputs| && NonNegative(utxo)
    ensures 0 <= RepeatedValue(utxo, inputs, k)
    ensures 0 < RepeatedValue(utxo, inputs, k) <==> exists j :: 0 <= j < k && Repeats(inputs, j) && ValueOf(utxo, inputs[j].prevout) != 0
  {
    if k != 0 {
      RepeatedNonNegative(utxo, inputs, k - 1);
    }
  }

  lemma TwiceIsRepeat(utxo: UtxoMap, inputs: seq<TxIn>)
    ensures NamesValueTwice(utxo, inputs)
            <==> exists j :: 0 <= j < |inputs| && Repeats(inputs, j) && ValueOf(utxo, inputs[j].prevout) != 0
  {
    if j :| 0 <= j < |inputs| && Repeats(inputs, j) && ValueOf(utxo, inputs[j].prevout) != 0 {
      var i :| 0 <= i < j && inputs[i].prevout == inputs[j].prevout;
    }
    if i, j :| 0 <= i < j < |inputs| && inputs[i].prevout == inputs[j].prevout && ValueOf(utxo, inputs[j].prevout) != 0 {
      assert Repeats(inputs, j);
    }
  }

  /** None of the places the outputs go to is taken, and they differ from each other. */
  predicate FreshOutputs(c: Crypto, utxo: UtxoMap, tx: Transaction) {
    |tx.outputs| <= 0x1_0000_0000 && forall i :: 0 <= i < |tx.outputs| ==> OutputPoint(c, tx, i) !in utxo
  }

  lemma {:induction false} FreshReplacesNothing(c: Crypto, utxo: UtxoMap, tx: Transaction, height: Uint32, k: nat)
    requires k <= |tx.outputs| && FreshOutputs(c, utxo, tx)
    ensures OverwrittenValue(c, utxo, tx, height, k) == 0
    ensures forall i :: k <= i < |tx.outputs| ==> OutputPoint(c, tx, i) !in AddOutputs(c, utxo, tx, height, k)
  {
    if k != 0 {
      FreshReplacesNothing(c, utxo, tx, height, k - 1);
    }
  }

  lemma NothingWraps(c: Crypto, utxo: UtxoMap, tx: Transaction, height: Uint32)
    requires NonNegative(utxo) && SaneOutputs(tx) && !tx.IsCoinbase() && Apply(c, utxo, tx, height).ok
    requires InputSum(utxo, tx.inputs, |tx.inputs|) < 0x8000_0000_0000_0000
    ensures AccountOf(c, utxo, tx, height).wrapped == 0 && 0 <= Apply(c, utxo, tx, height).fee
  {
    hide InputsOk, AddOutputs, InputSum, OutputSum, Prevouts, NonNegative, SaneOutputs, OverwrittenValue, RepeatedValue;
    InputSumNonNegative(utxo, tx.inputs, |tx.inputs|);
    OutputTotals(tx);
    Wrap64Identity(InputSum(utxo, tx.inputs, |tx.inputs|));
    WrapOfDifference(InputSum(utxo, tx.inputs, |tx.inputs|), OutputSum(tx.outputs));
  }

  lemma WrapOfDifference(a: int, b: int)
    requires 0 <= a < 0x8000_0000_0000_0000 && 0 <= b < 0x8000_0000_0000_0000
    ensures Wrap64(a - b) == a - b
  {
    Wrap64Identity(a - b);
  }

  /** Main result: with sums in range and free output places, an accepted spend creates exactly the value it
      names again, so it conserves value if and only if it names no output of value twice. */
  lemma ConservesExactly(c: Crypto, utxo: UtxoMap, tx: Transaction, height: Uint32)
    requires NonNegative(utxo) && SaneOutputs(tx) && !tx.IsCoinbase() && Apply(c, utxo, tx, height).ok
    requires InputSum(utxo, tx.inputs, |tx.inputs|) < 0x8000_0000_0000_0000 && FreshOutputs(c, utxo, tx)
    ensures var result := Apply(c, utxo, tx, height);
            && TotalValue(result.utxo) + result.fee == TotalValue(utxo) + RepeatedValue(utxo, tx.inputs, |tx.inputs|)
            && TotalValue(utxo) <= TotalValue(result.utxo) + result.fee
            && (TotalValue(result.utxo) + result.fee == TotalValue(utxo) <==> !NamesValueTwice(utxo, tx.inputs))
  {
    hide InputsOk, AddOutputs, InputSum, OutputSum, Prevouts, TotalValue, NonNegative, SaneOutputs, FreshOutputs, Wrap64,
         OverwrittenValue, RepeatedValue, Repeats, NamesValueTwice, Apply;
    TransactionAccount(c, utxo, tx, height);
    NothingWraps(c, utxo, tx, height);
    FreshAfterErase(c, utxo, tx);
    FreshReplacesNothing(c, utxo - Prevouts(tx.inputs), tx, height, |tx.outputs|);
    RepeatedNonNegative(utxo, tx.inputs, |tx.inputs|);
    TwiceIsRepeat(utxo, tx.inputs);
  }

  lemma FreshAfterErase(c: Crypto, utxo: UtxoMap, tx: Transaction)
    requires FreshOutputs(c, utxo, tx)
    ensures FreshOutputs(c, utxo - Prevouts(tx.inputs), tx)
  {
  }

  // ---------------------------------------------------------------------------
  // One block
  // ---------------------------------------------------------------------------

  /** The accounts of the first k transactions together. */
  function BlockAccount(c: Crypto, utxo: UtxoMap, txs: seq<Transaction>, height: Uint32, k: nat): Account
    requires k <= |txs|
  {
    if k == 0 then NOTHING
    else BlockAccount(c, utxo, txs, height, k - 1).Plus(AccountOf(c, ApplyAll(c, utxo, txs, height, k - 1).utxo, txs[k - 1], height))
  }

  /** Outputs of the coinbases after the first transaction. */
  function LaterCoinbases(txs: seq<Transaction>, k: nat): int
    requires k <= |txs|
  {
    if k <= 1 then 0 else LaterCoinbases(txs, k - 1) + if txs[k - 1].IsCoinbase() then OutputSum(txs[k - 1].outputs) else 0
  }

  /** Main result: transactions that are all accepted change the total by exactly their accounts, and the fees
      collected are the sum of theirs in 64-bit arithmetic. */
  lemma {:induction false} TransactionsAccount(c: Crypto, utxo: UtxoMap, txs: seq<Transaction>, height: Uint32, k: nat)
    requires k <= |txs| && ApplyAll(c, utxo, txs, height, k).failed.None?
    ensures var applied, account := ApplyAll(c, utxo, txs, height, k), BlockAccount(c, utxo, txs, height, k);
            && TotalValue(applied.utxo) == TotalValue(utxo) + account.Gain()
            && applied.fees == Wrap64(account.fee)
  {
    hide Apply, AccountOf, TotalValue, Wrap64;
    if k == 0 {
      Wrap64Identity(0);
    } else {
      TransactionsAccount(c, utxo, txs, height, k - 1);
      var before := ApplyAll(c, utxo, txs, height, k - 1);
      TransactionAccount(c, before.utxo, txs[k - 1], height);
      FeeOf(c, before.utxo, txs[k - 1], height);
      Wrap64Add(BlockAccount(c, utxo, txs, height, k - 1).fee, AccountOf(c, before.utxo, txs[k - 1], height).fee);
    }
  }

  lemma {:induction false} WrappedTogether(c: Crypto, utxo: UtxoMap, txs: seq<Transaction>, height: Uint32, k: nat)
    requires k <= |txs| && ApplyAll(c, utxo, txs, height, k).failed.None?
    ensures BlockAccount(c, utxo, txs, height, k).wrapped % 0x1_0000_0000_0000_0000 == 0
  {
    hide Apply, AccountOf;
    if k != 0 {
      WrappedTogether(c, utxo, txs, height, k - 1);
      var before := ApplyAll(c, utxo, txs, height, k - 1);
      WrappedWhole(c, before.utxo, txs[k - 1], height);
      WholeSum(BlockAccount(c, utxo, txs, height, k - 1).wrapped, AccountOf(c, before.utxo, txs[k - 1], height).wrapped);
    }
  }

  lemma WholeSum(a: int, b: int)
    requires a % 0x1_0000_0000_0000_0000 == 0 && b % 0x1_0000_0000_0000_0000 == 0
    ensures (a + b) % 0x1_0000_0000_0000_0000 == 0
  {
  }

  lemma FeeOf(c: Crypto, utxo: UtxoMap, tx: Transaction, height: Uint32)
    ensures AccountOf(c, utxo, tx, height).fee == if tx.IsCoinbase() then 0 else Apply(c, utxo, tx, height).fee
    ensures AccountOf(c, utxo, tx, height).minted == if tx.IsCoinbase() then OutputSum(tx.outputs) else 0
  {
    hide Apply, OverwrittenValue, RepeatedValue, InputSum, OutputSum;
  }

  lemma {:induction false} MintedIs(c: Crypto, utxo: UtxoMap, txs: seq<Transaction>, height: Uint32, k: nat)
    requires 0 < k <= |txs| && txs[0].IsCoinbase()
    ensures BlockAccount(c, utxo, txs, height, k).minted == OutputSum(txs[0].outputs) + LaterCoinbases(txs, k)
  {
    hide AccountOf, OutputSum, ApplyAll;
    FeeOf(c, ApplyAll(c, utxo, txs, height, k - 1).utxo, txs[k - 1], height);
    if k != 1 {
      MintedIs(c, utxo, txs, height, k - 1);
    } else {
      assert BlockAccount(c, utxo, txs, height, 0) == NOTHING;
    }
  }

  /** Main result: an accepted block adds exactly its coinbase less the fees, plus the outputs of later
      coinbases, plus value named twice, less value replaced and whole multiples of 2^64 lost by wrapping. */
  lemma BlockAdds(r: Rules, blk: Block, height: nat, utxo: UtxoMap)
    requires blk.transactions != [] && blk.transactions[0].IsCoinbase() && TransactionsOutcome(r, blk, height, utxo).Accepted?
    ensures var a := BlockAccount(r.c, utxo, blk.transactions, Wrap32(height), |blk.transactions|);
            TotalValue(TransactionsOutcome(r, blk, height, utxo).utxo) - TotalValue(utxo)
            == OutputSum(blk.transactions[0].outputs) - a.fee + LaterCoinbases(blk.transactions, |blk.transactions|)
               + a.repeated - a.overwritten - a.wrapped
    ensures var a := BlockAccount(r.c, utxo, blk.transactions, Wrap32(height), |blk.transactions|);
            && Wrap64(OutputSum(blk.transactions[0].outputs)) <= Wrap64(BlockReward(height) + Wrap64(a.fee))
            && a.wrapped % 0x1_0000_0000_0000_0000 == 0
  {
    hide ApplyAll, BlockAccount, LaterCoinbases, OutputSum, TotalValue, Wrap64, BlockReward;
    TransactionsAccount(r.c, utxo, blk.transactions, Wrap32(height), |blk.transactions|);
    WrappedTogether(r.c, utxo, blk.transactions, Wrap32(height), |blk.transactions|);
    MintedIs(r.c, utxo, blk.transactions, Wrap32(height), |blk.transactions|);
  }

  /** What the first transaction leaves of reward and fees. */
  function Unclaimed(r: Rules, blk: Block, height: nat, utxo: UtxoMap): int
    requires blk.transactions != []
  {
    BlockReward(height) + BlockAccount(r.c, utxo, blk.transactions, Wrap32(height), |blk.transactions|).fee
    - OutputSum(blk.transactions[0].outputs)
  }

  /** Main result: an accepted block keeps to its reward if and only if later coinbases and value named twice are
      covered by what the coinbase leaves unclaimed, what is replaced and what wraps. */
  lemma KeepsToReward(r: Rules, blk: Block, height: nat, utxo: UtxoMap)
    requires blk.transactions != [] && blk.transactions[0].IsCoinbase() && TransactionsOutcome(r, blk, height, utxo).Accepted?
    ensures var a := BlockAccount(r.c, utxo, blk.transactions, Wrap32(height), |blk.transactions|);
            TotalValue(TransactionsOutcome(r, blk, height, utxo).utxo) <= TotalValue(utxo) + BlockReward(height)
            <==> LaterCoinbases(blk.transactions, |blk.transactions|) + a.repeated
                 <= Unclaimed(r, blk, height, utxo) + a.overwritten + a.wrapped
  {
    hide TransactionsOutcome, BlockAccount, LaterCoinbases, OutputSum, TotalValue, Wrap64, BlockReward;
    BlockAdds(r, blk, height, utxo);
  }

  // ---------------------------------------------------------------------------
  // Whole paths
  // ---------------------------------------------------------------------------

  /** What the blocks of a valid path add beyond their rewards. */
  ghost function PathExcess(r: Rules, blocks: seq<Block>, now: nat, skipPow: bool): int
    requires PathValid(r, blocks, now, skipPow)
  {
    if blocks == [] then 0
    else
      var front, last := blocks[..|blocks| - 1], blocks[|blocks| - 1];
      LastBlock(r, blocks, now, skipPow);
      var utxo := Replay(r, front, now, skipPow).utxo;
      AcceptedBlock(r, HeadersOf(front), last, utxo, now, skipPow);
      var a := BlockAccount(r.c, utxo, last.transactions, Wrap32(|front|), |last.transactions|);
      PathExcess(r, front, now, skipPow) + LaterCoinbases(last.transactions, |last.transactions|) + a.repeated
      - Unclaimed(r, last, |front|, utxo) - a.overwritten - a.wrapped
  }

  /** Main result: the outputs of a validated path are worth exactly the rewards and the excess of its blocks, so
      they stay within the rewards if and only if the excess is not positive. Whether a block contributes a positive
      excess is what `KeepsToReward` says in terms of the block and the outputs it is applied to. */
  lemma {:induction false} PathTotal(r: Rules, blocks: seq<Block>, now: nat, skipPow: bool)
    requires PathValid(r, blocks, now, skipPow)
    ensures TotalValue(Replay(r, blocks, now, skipPow).utxo) == RewardSum(|blocks|) + PathExcess(r, blocks, now, skipPow)
    ensures TotalValue(Replay(r, blocks, now, skipPow).utxo) <= RewardSum(|blocks|) <==> PathExcess(r, blocks, now, skipPow) <= 0
  {
    hide TransactionsOutcome, CheckBlock, Replay, PathValid, BlockAccount, LaterCoinbases, OutputSum, BlockReward, Wrap64;
    if blocks == [] {
      EmptyReplay(r, now, skipPow);
    } else {
      var front, last := blocks[..|blocks| - 1], blocks[|blocks| - 1];
      LastBlock(r, blocks, now, skipPow);
      PathTotal(r, front, now, skipPow);
      var before := Replay(r, front, now, skipPow).utxo;
      AcceptedBlock(r, HeadersOf(front), last, before, now, skipPow);
      BlockAdds(r, last, |front|, before);
    }
  }

  // ---------------------------------------------------------------------------
  // What validation lets through
  // ---------------------------------------------------------------------------

  /** A path of one block is judged by its transactions once its header passes. */
  lemma OneBlockPath(r: Rules, blk: Block, now: nat, skipPow: bool)
    requires HeaderFault(r, [], blk, now, skipPow).None?
    ensures blk.transactions != [] && Replay(r, [blk], now, skipPow) == TransactionsOutcome(r, blk, 0, map[])
  {
    hide TransactionsOutcome, HeaderFault;
    TransactionsPresent(r, [], blk, now, skipPow);
    assert [blk][..0] == [] && HeadersOf([]) == [];
    assert Replay(r, [], now, skipPow) == Accepted(map[]);
  }

  /** A second coinbase in a block is accepted, and its outputs come on top of the reward. */
  lemma SecondCoinbaseMints(r: Rules, blk: Block, now: nat, skipPow: bool, first: Transaction, second: Transaction)
    requires HeaderFault(r, [], blk, now, skipPow).None?
    requires blk.transactions == [first, second] && first.IsCoinbase() && second.IsCoinbase()
    requires first.outputs == [TxOut(BlockReward(0), [])] && second.outputs == [TxOut(1, [])]
    requires r.c.txid(first) != r.c.txid(second)
    ensures PathValid(r, [blk], now, skipPow)
    ensures TotalValue(Replay(r, [blk], now, skipPow).utxo) == RewardSum(1) + 1
  {
    hide HeaderFault, BlockReward;
    OneBlockPath(r, blk, now, skipPow);
    RewardSmall(0);
    var txs := blk.transactions;
    CoinbasePays(r.c, map[], first, BlockReward(0));
    var middle := Apply(r.c, map[], first, 0).utxo;
    CoinbasePays(r.c, middle, second, 1);
    AppliedTwo(r.c, map[], txs, 0);
    RewardOfOne();
    Wrap64Identity(BlockReward(0));
    assert Wrap64(BlockReward(0) + 0) == BlockReward(0);
  }

  lemma RewardOfOne()
    ensures RewardSum(1) == BlockReward(0)
  {
    hide BlockReward;
    assert RewardSum(0) == 0;
  }

  /** A coinbase with one output whose place is free adds its value. */
  lemma CoinbasePays(c: Crypto, utxo: UtxoMap, tx: Transaction, value: Int64)
    requires tx.IsCoinbase() && tx.outputs == [TxOut(value, [])] && OutputPoint(c, tx, 0) !in utxo
    ensures var result := Apply(c, utxo, tx, 0);
            && result.ok && TotalValue(result.utxo) == TotalValue(utxo) + value && tx.TotalOutputValue() == value
            && result.utxo.Keys == utxo.Keys + {OutputPoint(c, tx, 0)}
  {
    hide TotalValue;
    assert tx.outputs[..1] == tx.outputs && tx.outputs[..0] == [];
    AddOutputsExact(c, utxo, tx, 0, 1);
    assert AddOutputs(c, utxo, tx, 0, 0) == utxo;
    assert OutputSum([]) == 0 && OutputSum(tx.outputs) == value;
    assert OverwrittenValue(c, utxo, tx, 0, 0) == 0;
    Wrap64Identity(value);
  }

  lemma AppliedTwo(c: Crypto, utxo: UtxoMap, txs: seq<Transaction>, height: Uint32)
    requires |txs| == 2 && txs[0].IsCoinbase() && txs[1].IsCoinbase()
    ensures ApplyAll(c, utxo, txs, height, 2)
            == Applied(None, Apply(c, Apply(c, utxo, txs[0], height).utxo, txs[1], height).utxo, 0)
  {
    hide AddOutputs;
    assert ApplyAll(c, utxo, txs, height, 0) == Applied(None, utxo, 0);
    assert ApplyAll(c, utxo, txs, height, 1) == Applied(None, Apply(c, utxo, txs[0], height).utxo, 0);
  }

  lemma AppliedOne(c: Crypto, utxo: UtxoMap, txs: seq<Transaction>, height: Uint32)
    requires |txs| == 1 && txs[0].IsCoinbase()
    ensures ApplyAll(c, utxo, txs, height, 1) == Applied(None, AddOutputs(c, utxo, txs[0], height, |txs[0].outputs|), 0)
  {
    hide AddOutputs;
    assert ApplyAll(c, utxo, txs, height, 0) == Applied(None, utxo, 0);
  }

  /** A coinbase may pay one more than the reward to one output if another one is negative: the sum passes,
      and an output worth more than all rewards so far can be spent. */
  lemma NegativeOutputMints(r: Rules, blk: Block, now: nat, skipPow: bool, coinbase: Transaction)
    requires HeaderFault(r, [], blk, now, skipPow).None?
    requires blk.transactions == [coinbase] && coinbase.IsCoinbase()
    requires coinbase.outputs == [TxOut(BlockReward(0) + 1, []), TxOut(-1, [])]
    ensures var outcome := Replay(r, [blk], now, skipPow);
            && outcome.Accepted? && !NonNegative(outcome.utxo)
            && OutputPoint(r.c, coinbase, 0) in outcome.utxo
            && RewardSum(1) < outcome.utxo[OutputPoint(r.c, coinbase, 0)].output.value
  {
    hide HeaderFault, BlockReward;
    OneBlockPath(r, blk, now, skipPow);
    RewardSmall(0);
    RewardOfOne();
    var outs := coinbase.outputs;
    AppliedOne(r.c, map[], blk.transactions, 0);
    assert outs[..1] == [outs[0]] && outs[..0] == [] && outs[..1][..0] == [];
    assert OutputSum(outs[..1]) == BlockReward(0) + 1;
    assert OutputSum(outs) == BlockReward(0);
    Wrap64Identity(BlockReward(0));
    var one := AddOutputs(r.c, map[], coinbase, 0, 1);
    assert AddOutputs(r.c, map[], coinbase, 0, 0) == map[];
    var two := AddOutputs(r.c, map[], coinbase, 0, 2);
    assert two[OutputPoint(r.c, coinbase, 1)].output.value == -1;
  }

  /** Outputs whose sum wraps around to zero pass as well, and bring in 2^64. */
  lemma WrappedOutputsMint(r: Rules, blk: Block, now: nat, skipPow: bool, coinbase: Transaction)
    requires HeaderFault(r, [], blk, now, skipPow).None?
    requires blk.transactions == [coinbase] && coinbase.IsCoinbase() && |coinbase.outputs| == 4
    requires forall i :: 0 <= i < 4 ==> coinbase.outputs[i] == TxOut(0x4000_0000_0000_0000, [])
    ensures var outcome := Replay(r, [blk], now, skipPow);
            outcome.Accepted? && TotalValue(outcome.utxo) == 0x1_0000_0000_0000_0000 && RewardSum(1) < TotalValue(outcome.utxo)
  {
    hide HeaderFault, BlockReward, TotalValue;
    OneBlockPath(r, blk, now, skipPow);
    RewardSmall(0);
    RewardOfOne();
    FourOutputs(coinbase.outputs);
    AppliedOne(r.c, map[], blk.transactions, 0);
    assert coinbase.outputs[..4] == coinbase.outputs;
    AddOutputsExact(r.c, map[], coinbase, 0, 4);
    FreshReplacesNothing(r.c, map[], coinbase, 0, 4);
    EmptyTotal();
    Wrap64Identity(BlockReward(0));
  }

  lemma EmptyTotal()
    ensures TotalValue(map[]) == 0
  {
  }

  lemma FourOutputs(outs: seq<TxOut>)
    requires |outs| == 4 && forall i :: 0 <= i < 4 ==> outs[i] == TxOut(0x4000_0000_0000_0000, [])
    ensures OutputSum(outs) == 0x1_0000_0000_0000_0000 && Wrap64(OutputSum(outs)) == 0
  {
    assert outs[..3][..2] == outs[..2] && outs[..2][..1] == outs[..1] && outs[..1][..0] == [];
    assert OutputSum(outs[..1]) == 0x4000_0000_0000_0000;
    assert OutputSum(outs[..2]) == 0x8000_0000_0000_0000;
    assert OutputSum(outs[..3]) == 0xC000_0000_0000_0000;
  }
}
