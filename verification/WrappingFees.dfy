/** Transactions whose outputs add up to more than 63 bits: the pool takes them, at fees that wrap around. One of
    them may create value; two together may make the node refuse its own template. */
module WrappingFees {
  import opened Arith
  import opened CompactTarget
  import opened Primitives
  import opened Utxo
  import opened PathValidation
  import opened ChainState
  import opened Retarget
  import opened PoolIndexes
  import opened Admission
  import opened Selection
  import opened TipExtension
  import opened Template
  import Supply
  import Conservation
  import Mempool

  // ---------------------------------------------------------------------------
  // Spends of one output
  // ---------------------------------------------------------------------------

  /** A standard transaction that spends one unspent output, correctly signed, to addresses. */
  predicate Simple(q: Policy, utxo: UtxoMap, tx: Transaction) {
    && |tx.inputs| == 1 && 65 <= |tx.inputs[0].scriptSig| <= MAX_STANDARD_SCRIPTSIG_BYTES
    && tx.inputs[0].prevout in utxo && tx.inputs[0].prevout != OutPoint(0, NULL_INDEX)
    && !utxo[tx.inputs[0].prevout].coinbase && q.c.authorized(tx, 0, utxo[tx.inputs[0].prevout].output.script)
    && 0 < |tx.outputs| <= MAX_STANDARD_TX_OUTPUTS
    && (forall i :: 0 <= i < |tx.outputs| ==> PaysAddress(q, tx.outputs[i]))
    && q.c.txSize(tx) <= MAX_STANDARD_TX_SIZE_BYTES
  }

  predicate PaysAddress(q: Policy, out: TxOut) {
    DUST_LIMIT_SATS <= out.value && q.isAddress(out.script) && !(OP_RETURN <= out.script)
  }

  function Spent(utxo: UtxoMap, tx: Transaction): int
    requires |tx.inputs| == 1
  {
    ValueOf(utxo, tx.inputs[0].prevout)
  }

  /** What the 64-bit sums leave of the output that is spent. */
  function WrappedFee(utxo: UtxoMap, tx: Transaction): Int64
    requires |tx.inputs| == 1
  {
    Wrap64(Spent(utxo, tx) - tx.TotalOutputValue())
  }

  /** Neither the transaction nor another one that spends its input is known to the pool. */
  predicate NewTo(q: Policy, txs: map<nat, TxEntry>, orphans: map<nat, OrphanEntry>, spent: map<OutPoint, nat>, tx: Transaction)
    requires |tx.inputs| == 1
  {
    q.c.txid(tx) !in txs && q.c.txid(tx) !in orphans && tx.inputs[0].prevout !in spent
  }

  /** The pool judges such a transaction by its wrapped fee alone. */
  lemma SimpleAssessed(q: Policy, txs: map<nat, TxEntry>, orphans: map<nat, OrphanEntry>, spent: map<OutPoint, nat>,
                       utxo: UtxoMap, height: Uint32, tx: Transaction)
    requires Simple(q, utxo, tx) && NewTo(q, txs, orphans, spent, tx)
    ensures Assess(q, txs, orphans, spent, utxo, height, tx)
            == if WrappedFee(utxo, tx) < 0 then Assessment.Rejected(Invalid)
               else if WrappedFee(utxo, tx) < MinFee(q.c.txSize(tx)) then Assessment.Rejected(LowFee)
               else Fit(WrappedFee(utxo, tx))
  {
    hide Wrap64, OutputSum, MinFee;
    var source := SourceOf(txs, utxo, height, tx.inputs[0].prevout);
    assert source == Found(utxo[tx.inputs[0].prevout]);
    assert SourceSum(txs, utxo, height, tx.inputs, 1) == SourceSum(txs, utxo, height, tx.inputs, 0) + SourceValue(txs, utxo, height, tx.inputs[0].prevout);
    assert InputFault(txs, utxo, height, tx.inputs, 0).None?;
    SimpleStandard(q, utxo, tx);
    SimpleSpendable(q, txs, utxo, height, tx);
  }

  lemma SimpleStandard(q: Policy, utxo: UtxoMap, tx: Transaction)
    requires Simple(q, utxo, tx)
    ensures Basic(tx) && !tx.IsCoinbase() && Standard(q, tx, q.c.txSize(tx)) && DistinctInputs(tx)
  {
    forall i | 0 <= i < |tx.outputs|
      ensures 0 <= tx.outputs[i].value && OutputStandard(q, tx.outputs[i]) && !(OP_RETURN <= tx.outputs[i].script)
    {
      assert PaysAddress(q, tx.outputs[i]);
    }
  }

  lemma SimpleSpendable(q: Policy, txs: map<nat, TxEntry>, utxo: UtxoMap, height: Uint32, tx: Transaction)
    requires Simple(q, utxo, tx)
    ensures AllSpendable(q.c, txs, utxo, height, tx)
  {
  }

  // ---------------------------------------------------------------------------
  // Their application
  // ---------------------------------------------------------------------------

  predicate Creates(c: Crypto, tx: Transaction, point: OutPoint) {
    exists i :: 0 <= i < |tx.outputs| && point == OutputPoint(c, tx, i)
  }

  /** Such a transaction applies when it does not pay out more than it spends, in 64-bit arithmetic. Its input is
      gone, and other outputs stay when it does not replace them. */
  lemma SimpleApplies(q: Policy, utxo: UtxoMap, tx: Transaction, height: Uint32)
    requires Simple(q, utxo, tx) && tx.TotalOutputValue() <= Spent(utxo, tx) && Conservation.FreshOutputs(q.c, utxo, tx)
    ensures var result := Apply(q.c, utxo, tx, height);
            && result.ok && result.fee == WrappedFee(utxo, tx)
            && tx.inputs[0].prevout !in result.utxo
            && (forall point :: point in utxo && point != tx.inputs[0].prevout ==> point in result.utxo && result.utxo[point] == utxo[point])
            && (forall point :: point in result.utxo && point !in utxo ==> Creates(q.c, tx, point))
  {
    hide Wrap64, OutputSum;
    var point := tx.inputs[0].prevout;
    assert InputOk(q.c, utxo, tx, height, 0);
    assert InputSum(utxo, tx.inputs, 1) == InputSum(utxo, tx.inputs, 0) + ValueOf(utxo, point);
    Wrap64Identity(Spent(utxo, tx));
    assert Prevouts(tx.inputs) == {point};
    OutputsAdded(q.c, utxo, utxo - {point}, tx, height, |tx.outputs|);
  }

  lemma {:induction false} OutputsAdded(c: Crypto, utxo: UtxoMap, rest: UtxoMap, tx: Transaction, height: Uint32, k: nat)
    requires k <= |tx.outputs| && Conservation.FreshOutputs(c, utxo, tx)
    ensures forall point :: point in utxo ==> (point in AddOutputs(c, rest, tx, height, k) <==> point in rest)
    ensures forall point :: point in utxo && point in rest ==> AddOutputs(c, rest, tx, height, k)[point] == rest[point]
    ensures forall point :: point in AddOutputs(c, rest, tx, height, k) && point !in rest ==> Creates(c, tx, point)
  {
    if k != 0 {
      OutputsAdded(c, utxo, rest, tx, height, k - 1);
    }
  }

  // ---------------------------------------------------------------------------
  // One wrapping transaction: value from nowhere
  // ---------------------------------------------------------------------------

  predicate Amounts(tx: Transaction, values: seq<Int64>) {
    |tx.outputs| == |values| && forall i :: 0 <= i < |values| ==> tx.outputs[i].value == values[i]
  }

  const QUARTER: Int64 := 0x4000_0000_0000_0000
  const EIGHTH: Int64 := 0x2000_0000_0000_0000

  lemma SumOfFour(tx: Transaction)
    requires Amounts(tx, [QUARTER, QUARTER, QUARTER, QUARTER])
    ensures OutputSum(tx.outputs) == 0x1_0000_0000_0000_0000 && tx.TotalOutputValue() == 0
  {
    hide Wrap64;
    var outs := tx.outputs;
    assert outs[..3][..2] == outs[..2] && outs[..2][..1] == outs[..1] && outs[..1][..0] == [];
    assert OutputSum(outs[..1]) == QUARTER;
    assert OutputSum(outs[..2]) == 2 * QUARTER;
    assert OutputSum(outs[..3]) == 3 * QUARTER;
    assert OutputSum(outs) == 4 * QUARTER;
    WrapWhole();
  }

  lemma WrapWhole()
    ensures Wrap64(0x1_0000_0000_0000_0000) == 0
    ensures Wrap64(2 * QUARTER + EIGHTH) == EIGHTH - 2 * QUARTER
  {
  }

  lemma SumOfThree(tx: Transaction)
    requires Amounts(tx, [QUARTER, QUARTER, EIGHTH])
    ensures tx.TotalOutputValue() == EIGHTH - 2 * QUARTER
  {
    hide Wrap64;
    var outs := tx.outputs;
    assert outs[..2][..1] == outs[..1] && outs[..1][..0] == [];
    assert OutputSum(outs[..1]) == QUARTER;
    assert OutputSum(outs[..2]) == 2 * QUARTER;
    assert OutputSum(outs) == 2 * QUARTER + EIGHTH;
    WrapWhole();
  }

  /** Four outputs of 2^62, whose sum wraps around to zero. */
  predicate Mints(q: Policy, utxo: UtxoMap, tx: Transaction) {
    && Simple(q, utxo, tx) && Amounts(tx, [QUARTER, QUARTER, QUARTER, QUARTER])
    && 0 <= Spent(utxo, tx) && Conservation.FreshOutputs(q.c, utxo, tx)
  }

  /** Main result: the pool takes such a transaction at the fee of its whole input, and applying it brings in 2^64. */
  lemma WrappedSpendMints(q: Policy, txs: map<nat, TxEntry>, orphans: map<nat, OrphanEntry>, spent: map<OutPoint, nat>,
                          utxo: UtxoMap, height: Uint32, tx: Transaction)
    requires Mints(q, utxo, tx)
    ensures NewTo(q, txs, orphans, spent, tx) && 100_000 <= Spent(utxo, tx) ==>
              Assess(q, txs, orphans, spent, utxo, height, tx) == Fit(Spent(utxo, tx))
    ensures Apply(q.c, utxo, tx, height).ok && Apply(q.c, utxo, tx, height).fee == Spent(utxo, tx)
    ensures Supply.TotalValue(Apply(q.c, utxo, tx, height).utxo)
            == Supply.TotalValue(utxo) - Spent(utxo, tx) + 0x1_0000_0000_0000_0000
  {
    hide Apply, Assess, Wrap64, OutputSum, Supply.TotalValue, Conservation.FreshOutputs, Conservation.AccountOf, Amounts, Simple, NewTo;
    SimpleInput(q, utxo, tx);
    SumOfFour(tx);
    Wrap64Identity(Spent(utxo, tx));
    if NewTo(q, txs, orphans, spent, tx) {
      SimpleAssessed(q, txs, orphans, spent, utxo, height, tx);
    }
    SimpleApplies(q, utxo, tx, height);
    Conservation.TransactionAccount(q.c, utxo, tx, height);
    SimpleAccount(q, utxo, tx, height);
  }

  lemma SimpleInput(q: Policy, utxo: UtxoMap, tx: Transaction)
    requires Simple(q, utxo, tx)
    ensures |tx.inputs| == 1 && MinFee(q.c.txSize(tx)) <= 100_000
    ensures tx.inputs[0].prevout in utxo && Spent(utxo, tx) == utxo[tx.inputs[0].prevout].output.value
  {
  }

  lemma SimpleAccount(q: Policy, utxo: UtxoMap, tx: Transaction, height: Uint32)
    requires Simple(q, utxo, tx) && tx.TotalOutputValue() <= Spent(utxo, tx) && Conservation.FreshOutputs(q.c, utxo, tx)
    ensures Conservation.AccountOf(q.c, utxo, tx, height).Gain() == OutputSum(tx.outputs) - Spent(utxo, tx)
  {
    hide Wrap64, OutputSum, Apply;
    var point := tx.inputs[0].prevout;
    assert InputSum(utxo, tx.inputs, 1) == InputSum(utxo, tx.inputs, 0) + ValueOf(utxo, point);
    assert Conservation.RepeatedValue(utxo, tx.inputs, 1) == Conservation.RepeatedValue(utxo, tx.inputs, 0);
    Conservation.FreshAfterErase(q.c, utxo, tx);
    Conservation.FreshReplacesNothing(q.c, utxo - Prevouts(tx.inputs), tx, height, |tx.outputs|);
  }

  /** Main result: a template with such a transaction alone is valid like any other one, and brings in 2^64 beside
      its reward. */
  lemma {:induction false} MintingTemplate(q: Policy, r: Rules, s: State, clock: nat, powSkipped: bool, tx: Transaction, picked: seq<TxEntry>,
                                           blk: Block, payout: Payout, now: nat, nonce: Uint32, skipPow: bool)
    requires TablesOk(r, s) && UtxoOk(r, s, clock, powSkipped) && s.tip in s.index && now < 0x1_0000_0000
    requires IsTemplate(r, Some(s.index[s.tip]), NextWork(r.p, ActiveHeaders(r, s), s.tipBits, TemplateTime(Some(s.index[s.tip]), now)),
                        s.best + 1, blk, payout, picked, now)
    requires blk.transactions != [] && FreshCoinbase(r.c, blk, s.utxo) && r.c.txid(blk.transactions[0]) != r.c.txid(tx)
    requires q.c == r.c && Mints(q, s.utxo, tx) && Spent(s.utxo, tx) < QUARTER && Transactions(picked) == [tx]
    ensures PathValid(r, ActiveBlocks(r, s) + [WithNonce(blk, nonce)], now, skipPow)
            <==> && PathValid(r, ActiveBlocks(r, s), now, skipPow)
                 && TimeFits(r.p, s.index[s.tip], now)
                 && (skipPow || (IsCanonical(blk.header.bits, 64) && CheckPow(r.c, r.p, WithNonce(blk, nonce).header)))
    ensures Supply.TotalValue(TransactionsOutcome(r, WithNonce(blk, nonce), s.best + 1, s.utxo).utxo)
            == Supply.TotalValue(s.utxo) + BlockReward(s.best + 1) - Spent(s.utxo, tx) + 0x1_0000_0000_0000_0000
  {
    hide *;
    var height, tip := s.best + 1, s.index[s.tip];
    var bits := NextWork(r.p, ActiveHeaders(r, s), s.tipBits, TemplateTime(Some(tip), now));
    MintingFits(q, s.utxo, picked, tx, height);
    TemplateFirst(r, tip, bits, height, blk, payout, picked, now);
    TemplateCoinbase(blk, payout.script, height);
    MintedTotal(q, r, s.utxo, blk, tx, height);
    TemplateIsValid(r, s, clock, powSkipped, picked, blk, payout, now, nonce, skipPow);
    SameWithNonce(r, blk, nonce, height, s.utxo);
  }

  /** The coinbase of a template puts one output on a free place. */
  lemma CoinbaseLeaves(q: Policy, utxo: UtxoMap, coinbase: Transaction, tx: Transaction, height: Uint32)
    requires coinbase.IsCoinbase() && |coinbase.outputs| == 1 && OutputPoint(q.c, coinbase, 0) !in utxo
    requires q.c.txid(coinbase) != q.c.txid(tx) && Mints(q, utxo, tx)
    ensures var middle := Apply(q.c, utxo, coinbase, height).utxo;
            && Mints(q, middle, tx) && Spent(middle, tx) == Spent(utxo, tx)
            && Supply.TotalValue(middle) == Supply.TotalValue(utxo) + coinbase.outputs[0].value
            && coinbase.TotalOutputValue() == coinbase.outputs[0].value
            && Apply(q.c, utxo, coinbase, height).ok
  {
    hide Supply.TotalValue, Amounts, Wrap64;
    var point, entry := OutputPoint(q.c, coinbase, 0), Entry(coinbase.outputs[0], height, true);
    assert AddOutputs(q.c, utxo, coinbase, height, 1) == AddOutputs(q.c, utxo, coinbase, height, 0)[point := entry];
    Supply.TotalInsert(utxo, point, entry);
    assert coinbase.outputs[..0] == [];
    assert OutputSum(coinbase.outputs) == OutputSum(coinbase.outputs[..0]) + coinbase.outputs[0].value;
    Wrap64Identity(coinbase.outputs[0].value);
  }

  lemma MintedTotal(q: Policy, r: Rules, utxo: UtxoMap, blk: Block, tx: Transaction, height: nat)
    requires q.c == r.c && blk.transactions != [] && blk.transactions == [blk.transactions[0]] + [tx] && FreshCoinbase(r.c, blk, utxo)
    requires blk.transactions[0].IsCoinbase() && |blk.transactions[0].outputs| == 1 && blk.transactions[0].TotalOutputValue() == BlockReward(height)
    requires Mints(q, utxo, tx) && q.c.txid(blk.transactions[0]) != q.c.txid(tx)
    ensures Supply.TotalValue(TransactionsOutcome(r, blk, height, utxo).utxo)
            == Supply.TotalValue(utxo) + BlockReward(height) - Spent(utxo, tx) + 0x1_0000_0000_0000_0000
  {
    hide Apply, Supply.TotalValue, BlockReward, Mints, Wrap64, OutputSum;
    var coinbase, h := blk.transactions[0], Wrap32(height);
    var middle := Apply(q.c, utxo, coinbase, h).utxo;
    MintsInput(q, utxo, tx);
    CoinbaseLeaves(q, utxo, coinbase, tx, h);
    MintsInput(q, middle, tx);
    WrappedSpendMints(q, map[], map[], map[], middle, h, tx);
    CoinbaseFirst(r.c, utxo, blk.transactions, h);
    assert ApplyAll(r.c, utxo, blk.transactions, h, 2).utxo == Apply(q.c, middle, tx, h).utxo;
  }

  lemma MintingFits(q: Policy, utxo: UtxoMap, picked: seq<TxEntry>, tx: Transaction, height: nat)
    requires Mints(q, utxo, tx) && Spent(utxo, tx) < QUARTER && Transactions(picked) == [tx]
    ensures |picked| == 1 && ApplyAll(q.c, utxo, Transactions(picked), Wrap32(height), |picked|).failed.None?
    ensures FeesFit(q.c, utxo, picked, height)
  {
    hide Apply, ApplyAll, Mints, Supply.TotalValue, BlockReward, FeesFit;
    TransactionCount(picked);
    MintsInput(q, utxo, tx);
    WrappedSpendMints(q, map[], map[], map[], utxo, Wrap32(height), tx);
    ApplyOne(q.c, utxo, tx, Wrap32(height));
    FeesFitMeans(q.c, utxo, picked, height);
    Supply.RewardSmall(height);
  }

  lemma SameWithNonce(r: Rules, blk: Block, nonce: Uint32, height: nat, utxo: UtxoMap)
    requires blk.transactions != []
    ensures WithNonce(blk, nonce).transactions != []
    ensures TransactionsOutcome(r, WithNonce(blk, nonce), height, utxo) == TransactionsOutcome(r, blk, height, utxo)
  {
    hide TransactionsOutcome;
    SameTransactions(r, blk, WithNonce(blk, nonce), height, utxo);
  }

  lemma MintsInput(q: Policy, utxo: UtxoMap, tx: Transaction)
    requires Mints(q, utxo, tx)
    ensures |tx.inputs| == 1 && !tx.IsCoinbase() && 0 <= Spent(utxo, tx)
  {
    hide Amounts, Conservation.FreshOutputs;
  }

  lemma ApplyOne(c: Crypto, utxo: UtxoMap, tx: Transaction, height: Uint32)
    requires Apply(c, utxo, tx, height).ok && !tx.IsCoinbase()
    ensures ApplyAll(c, utxo, [tx], height, 1) == Applied(None, Apply(c, utxo, tx, height).utxo, Apply(c, utxo, tx, height).fee)
  {
    hide Apply;
    assert ApplyAll(c, utxo, [tx], height, 0) == Applied(None, utxo, 0);
    Wrap64Identity(Apply(c, utxo, tx, height).fee);
  }

  // ---------------------------------------------------------------------------
  // Two wrapping transactions: a template that fails
  // ---------------------------------------------------------------------------

  /** Three outputs whose sum of 2^63 + 2^61 wraps around to a negative number. */
  predicate Wraps(q: Policy, utxo: UtxoMap, tx: Transaction) {
    && Simple(q, utxo, tx) && Amounts(tx, [QUARTER, QUARTER, EIGHTH])
    && 0 <= Spent(utxo, tx) < EIGHTH && Conservation.FreshOutputs(q.c, utxo, tx)
  }

  predicate Pair(q: Policy, utxo: UtxoMap, a: Transaction, b: Transaction) {
    && Wraps(q, utxo, a) && Wraps(q, utxo, b)
    && a.inputs[0].prevout != b.inputs[0].prevout && q.c.txid(a) != q.c.txid(b)
  }

  /** The fee the pool sees in such a transaction. */
  lemma WrapsFit(q: Policy, txs: map<nat, TxEntry>, orphans: map<nat, OrphanEntry>, spent: map<OutPoint, nat>,
                 utxo: UtxoMap, height: Uint32, tx: Transaction)
    requires Wraps(q, utxo, tx) && NewTo(q, txs, orphans, spent, tx)
    ensures Assess(q, txs, orphans, spent, utxo, height, tx) == Fit(Spent(utxo, tx) + 2 * QUARTER - EIGHTH)
  {
    hide Assess, Wrap64, Conservation.FreshOutputs, Amounts, Simple, NewTo;
    SimpleInput(q, utxo, tx);
    SumOfThree(tx);
    Wrap64Identity(Spent(utxo, tx) + 2 * QUARTER - EIGHTH);
    SimpleAssessed(q, txs, orphans, spent, utxo, height, tx);
  }

  lemma WrapsApplies(q: Policy, utxo: UtxoMap, tx: Transaction, height: Uint32)
    requires Wraps(q, utxo, tx)
    ensures |tx.inputs| == 1
    ensures var result := Apply(q.c, utxo, tx, height);
            && result.ok && result.fee == Spent(utxo, tx) + 2 * QUARTER - EIGHTH
            && tx.inputs[0].prevout !in result.utxo
            && (forall point :: point in utxo && point != tx.inputs[0].prevout ==> point in result.utxo && result.utxo[point] == utxo[point])
            && (forall point :: point in result.utxo && point !in utxo ==> Creates(q.c, tx, point))
  {
    hide Apply, Wrap64, Conservation.FreshOutputs, Amounts, Simple;
    SimpleInput(q, utxo, tx);
    SumOfThree(tx);
    Wrap64Identity(Spent(utxo, tx) + 2 * QUARTER - EIGHTH);
    SimpleApplies(q, utxo, tx, height);
  }

  /** The second of a pair is as good after the first. */
  lemma WrapsAfter(q: Policy, utxo: UtxoMap, a: Transaction, b: Transaction, height: Uint32)
    requires Pair(q, utxo, a, b)
    ensures Wraps(q, Apply(q.c, utxo, a, height).utxo, b) && Spent(Apply(q.c, utxo, a, height).utxo, b) == Spent(utxo, b)
  {
    hide Apply, Amounts;
    WrapsApplies(q, utxo, a, height);
  }

  lemma ApplyTwo(c: Crypto, utxo: UtxoMap, a: Transaction, b: Transaction, height: Uint32)
    requires Apply(c, utxo, a, height).ok && Apply(c, Apply(c, utxo, a, height).utxo, b, height).ok
    requires !a.IsCoinbase() && !b.IsCoinbase()
    ensures ApplyAll(c, utxo, [a, b], height, 2)
            == Applied(None, Apply(c, Apply(c, utxo, a, height).utxo, b, height).utxo,
                       Wrap64(Apply(c, utxo, a, height).fee + Apply(c, Apply(c, utxo, a, height).utxo, b, height).fee))
  {
    hide Apply, Wrap64;
    assert ApplyAll(c, utxo, [a, b], height, 0) == Applied(None, utxo, 0);
    Wrap64Identity(Apply(c, utxo, a, height).fee);
    assert ApplyAll(c, utxo, [a, b], height, 1) == Applied(None, Apply(c, utxo, a, height).utxo, Apply(c, utxo, a, height).fee);
  }

  /** Two such fees add up to a negative number. */
  lemma PairFees(q: Policy, utxo: UtxoMap, a: Transaction, b: Transaction, height: Uint32)
    requires Pair(q, utxo, a, b)
    ensures ApplyAll(q.c, utxo, [a, b], height, 2).failed.None? && ApplyAll(q.c, utxo, [a, b], height, 2).fees < 0
  {
    hide Apply, ApplyAll, Amounts, Conservation.FreshOutputs, Simple;
    SimpleStandard(q, utxo, a);
    SimpleStandard(q, utxo, b);
    WrapsApplies(q, utxo, a, height);
    WrapsAfter(q, utxo, a, b, height);
    WrapsApplies(q, Apply(q.c, utxo, a, height).utxo, b, height);
    ApplyTwo(q.c, utxo, a, b, height);
  }

  lemma PairUnfit(q: Policy, utxo: UtxoMap, a: Transaction, b: Transaction, picked: seq<TxEntry>, height: nat)
    requires Pair(q, utxo, a, b) && Transactions(picked) == [a, b]
    ensures |picked| == 2 && ApplyAll(q.c, utxo, Transactions(picked), Wrap32(height), |picked|).failed.None?
    ensures !FeesFit(q.c, utxo, picked, height)
  {
    hide *;
    TransactionCount(picked);
    PairFees(q, utxo, a, b, Wrap32(height));
    FeesFitMeans(q.c, utxo, picked, height);
  }

  /** Main result: a template with such a pair never extends the active path, whatever its nonce, whenever it is judged
      and whether or not proof of work is skipped: the coinbase overpays. */
  lemma {:induction false} PairTemplateFails(q: Policy, r: Rules, s: State, clock: nat, powSkipped: bool, a: Transaction, b: Transaction,
                                             picked: seq<TxEntry>, blk: Block, bits: Bits, payout: Payout, built: nat, nonce: Uint32,
                                             now: nat, skipPow: bool)
    requires TablesOk(r, s) && UtxoOk(r, s, clock, powSkipped) && s.tip in s.index
    requires IsTemplate(r, Some(s.index[s.tip]), bits, s.best + 1, blk, payout, picked, built)
    requires blk.transactions != [] && FreshCoinbase(r.c, blk, s.utxo)
    requires q.c == r.c && Pair(q, s.utxo, a, b) && Transactions(picked) == [a, b]
    ensures !PathValid(r, ActiveBlocks(r, s) + [WithNonce(blk, nonce)], now, skipPow)
    ensures var outcome := TransactionsOutcome(r, blk, s.best + 1, s.utxo);
            outcome.Rejected? && outcome.reason == CoinbaseOverpay
  {
    hide *;
    PairUnfit(q, s.utxo, a, b, picked, s.best + 1);
    UnfitTemplateFails(r, s, clock, powSkipped, picked, blk, bits, payout, built, nonce, now, skipPow);
  }

  lemma TransactionCount(picked: seq<TxEntry>)
    ensures |Transactions(picked)| == |picked|
  {
  }

  // ---------------------------------------------------------------------------
  // An instance
  // ---------------------------------------------------------------------------

  function Spending(source: nat, values: seq<Int64>): Transaction {
    Transaction(1, [TxIn(OutPoint(source, 0), seq(65, _ => 0), 0)], seq(|values|, i requires 0 <= i < |values| => TxOut(values[i], [])), 0)
  }

  /** Two outputs of 10,000,000 that nobody guards. */
  function TwoCoins(): UtxoMap {
    var coin := Entry(TxOut(10_000_000, []), 0, false);
    map[OutPoint(1, 0) := coin, OutPoint(2, 0) := coin]
  }

  /** Identifiers follow the spent output, every script is an address, and every signature is good. */
  function LaxPolicy(): Policy {
    Policy(Crypto(_ => 0, (tx: Transaction) => if tx.inputs == [] then 0 else tx.inputs[0].prevout.txHash + 10,
                  (_, _) => 0, (_, _, _) => true, _ => 300, _ => 0),
           _ => true)
  }

  /** There are such transactions. */
  lemma InstanceWraps()
    ensures Pair(LaxPolicy(), TwoCoins(), Spending(1, [QUARTER, QUARTER, EIGHTH]), Spending(2, [QUARTER, QUARTER, EIGHTH]))
    ensures Mints(LaxPolicy(), TwoCoins(), Spending(1, [QUARTER, QUARTER, QUARTER, QUARTER]))
  {
    assert OP_RETURN != [];
    assert Amounts(Spending(1, [QUARTER, QUARTER, EIGHTH]), [QUARTER, QUARTER, EIGHTH]);
    assert Amounts(Spending(2, [QUARTER, QUARTER, EIGHTH]), [QUARTER, QUARTER, EIGHTH]);
  }

  // ---------------------------------------------------------------------------
  // Such a pair in the pool
  // ---------------------------------------------------------------------------

  ghost predicate SubEntries(less: map<nat, TxEntry>, more: map<nat, TxEntry>) {
    forall id :: id in less ==> id in more && less[id] == more[id]
  }

  lemma {:induction false} SubEntriesSmaller(less: map<nat, TxEntry>, more: map<nat, TxEntry>)
    requires SubEntries(less, more)
    ensures SizeSum(less) <= SizeSum(more) && |less| <= |more|
    decreases |less|
  {
    if less != map[] {
      var id :| id in less;
      SubEntriesSmaller(less - {id}, more - {id});
      SizeSumWithout(less, id);
      SizeSumWithout(more, id);
    }
  }

  /** Nothing is evicted from a pool within the limits. */
  lemma NothingTrimmed(txs: map<nat, TxEntry>, kept: map<nat, TxEntry>)
    requires Trimmed(txs, kept) && Within(txs)
    ensures kept == txs
  {
    hide SizeSum;
    if kept != txs {
      var last :| last in txs && last !in kept && OverWith(txs, kept, last);
      SubEntriesSmaller(kept[last := txs[last]], txs);
    }
  }

  /** A transaction that fits is pooled when there is room. */
  lemma FitIsPooled(q: Policy, s: Mempool.PoolState, utxo: UtxoMap, height: Uint32, tx: Transaction, now: nat,
                    status: AcceptStatus, t: Mempool.PoolState, fee: Int64)
    requires Mempool.Offered(q, s, utxo, height, tx, now, status, t) && q.c.txid(tx) !in s.txs
    requires Assess(q, s.txs, s.orphans, s.spent, utxo, height, tx) == Fit(fee)
    requires SizeSum(s.txs) + q.c.txSize(tx) <= MAX_MEMPOOL_SIZE_BYTES && |s.txs| < MAX_MEMPOOL_TRANSACTIONS
    ensures var e := Mempool.NewEntry(q.c, tx, fee, now);
            && status == Pooled && t == s.(txs := s.txs[q.c.txid(tx) := e], spent := t.spent) && SpentOk(t.txs, t.spent)
            && SizeSum(t.txs) == SizeSum(s.txs) + q.c.txSize(tx) && |t.txs| == |s.txs| + 1
  {
    hide Assess, SizeSum, Trimmed, FeeRate, SpentOk;
    var e := Mempool.NewEntry(q.c, tx, fee, now);
    SizeSumWith(s.txs, q.c.txid(tx), e);
    NothingTrimmed(s.txs[q.c.txid(tx) := e], t.txs);
  }

  /** What offering the pair leaves: both entries, at the wrapped fees. */
  function WithPair(q: Policy, txs: map<nat, TxEntry>, utxo: UtxoMap, a: Transaction, b: Transaction, now: nat, later: nat): map<nat, TxEntry>
    requires |a.inputs| == 1 && |b.inputs| == 1
    requires 0 <= Spent(utxo, a) < EIGHTH && 0 <= Spent(utxo, b) < EIGHTH
  {
    txs[q.c.txid(a) := Mempool.NewEntry(q.c, a, Spent(utxo, a) + 2 * QUARTER - EIGHTH, now)]
       [q.c.txid(b) := Mempool.NewEntry(q.c, b, Spent(utxo, b) + 2 * QUARTER - EIGHTH, later)]
  }

  /** Main result: a pool with room takes both. */
  lemma PairIsPooled(q: Policy, s: Mempool.PoolState, t: Mempool.PoolState, u: Mempool.PoolState, utxo: UtxoMap, height: Uint32,
                     a: Transaction, b: Transaction, now: nat, later: nat, first: AcceptStatus, second: AcceptStatus)
    requires Pair(q, utxo, a, b) && SpentOk(s.txs, s.spent)
    requires NewTo(q, s.txs, s.orphans, s.spent, a) && NewTo(q, s.txs, s.orphans, s.spent, b)
    requires SizeSum(s.txs) + 200_000 <= MAX_MEMPOOL_SIZE_BYTES && |s.txs| + 2 <= MAX_MEMPOOL_TRANSACTIONS
    requires Mempool.Offered(q, s, utxo, height, a, now, first, t) && Mempool.Offered(q, t, utxo, height, b, later, second, u)
    ensures first == Pooled && second == Pooled && u.txs == WithPair(q, s.txs, utxo, a, b, now, later)
  {
    hide Assess, SizeSum, Amounts, Conservation.FreshOutputs, Mempool.Offered, SpentOk, NewTo, FeeRate;
    WrapsFit(q, s.txs, s.orphans, s.spent, utxo, height, a);
    NewIsNot(q, s, a);
    NewIsNot(q, s, b);
    FitIsPooled(q, s, utxo, height, a, now, first, t, Spent(utxo, a) + 2 * QUARTER - EIGHTH);
    StillNew(q, s, t, a, b, t.txs[q.c.txid(a)]);
    WrapsFit(q, t.txs, t.orphans, t.spent, utxo, height, b);
    NewIsNot(q, t, b);
    FitIsPooled(q, t, utxo, height, b, later, second, u, Spent(utxo, b) + 2 * QUARTER - EIGHTH);
  }

  lemma NewIsNot(q: Policy, s: Mempool.PoolState, tx: Transaction)
    requires |tx.inputs| == 1 && NewTo(q, s.txs, s.orphans, s.spent, tx)
    ensures q.c.txid(tx) !in s.txs
  {
  }

  lemma StillNew(q: Policy, s: Mempool.PoolState, t: Mempool.PoolState, a: Transaction, b: Transaction, e: TxEntry)
    requires |a.inputs| == 1 && |b.inputs| == 1 && a.inputs[0].prevout != b.inputs[0].prevout && q.c.txid(a) != q.c.txid(b)
    requires NewTo(q, s.txs, s.orphans, s.spent, b) && SpentOk(s.txs, s.spent) && SpentOk(t.txs, t.spent)
    requires e.tx == a && t.txs == s.txs[q.c.txid(a) := e] && t.orphans == s.orphans
    ensures NewTo(q, t.txs, t.orphans, t.spent, b)
  {
    var point := b.inputs[0].prevout;
    if point in t.spent {
      var id := t.spent[point];
      assert Spends(t.txs, id, point);
      assert id != q.c.txid(a);
      assert Spends(s.txs, id, point);
    }
  }

  // ---------------------------------------------------------------------------
  // From the pool to the failing template
  // ---------------------------------------------------------------------------

  ghost predicate OfPair(picked: seq<TxEntry>, a: Transaction, b: Transaction) {
    forall i :: 0 <= i < |picked| ==> picked[i].tx == a || picked[i].tx == b
  }

  lemma PairTurned(q: Policy, utxo: UtxoMap, a: Transaction, b: Transaction)
    requires Pair(q, utxo, a, b)
    ensures Pair(q, utxo, b, a)
  {
  }

  lemma GoneFails(c: Crypto, utxo: UtxoMap, tx: Transaction, height: Uint32)
    requires !tx.IsCoinbase() && |tx.inputs| == 1 && tx.inputs[0].prevout !in utxo
    ensures !Apply(c, utxo, tx, height).ok
  {
    assert !InputOk(c, utxo, tx, height, 0);
  }

  lemma FreshNotCreated(c: Crypto, utxo: UtxoMap, tx: Transaction, point: OutPoint)
    requires Conservation.FreshOutputs(c, utxo, tx) && point in utxo
    ensures !Creates(c, tx, point)
  {
    hide OutputPoint;
  }

  /** After both have been applied neither applies again. */
  lemma PairGone(q: Policy, utxo: UtxoMap, a: Transaction, b: Transaction, height: Uint32)
    requires Pair(q, utxo, a, b)
    ensures var one := Apply(q.c, utxo, a, height).utxo;
            && !Apply(q.c, one, a, height).ok
            && !Apply(q.c, Apply(q.c, one, b, height).utxo, a, height).ok && !Apply(q.c, Apply(q.c, one, b, height).utxo, b, height).ok
  {
    hide Apply, Amounts, Simple;
    var one := Apply(q.c, utxo, a, height).utxo;
    var two := Apply(q.c, one, b, height).utxo;
    SimpleStandard(q, utxo, a);
    SimpleStandard(q, utxo, b);
    SimpleInput(q, utxo, a);
    WrapsApplies(q, utxo, a, height);
    WrapsAfter(q, utxo, a, b, height);
    WrapsApplies(q, one, b, height);
    FreshNotCreated(q.c, utxo, b, a.inputs[0].prevout);
    GoneFails(q.c, one, a, height);
    GoneFails(q.c, two, a, height);
    GoneFails(q.c, two, b, height);
  }

  /** Transactions of the pair that apply one after the other: none, one of them, or both. */
  lemma PairRuns(q: Policy, utxo: UtxoMap, a: Transaction, b: Transaction, height: Uint32, picked: seq<TxEntry>)
    requires Pair(q, utxo, a, b) && OfPair(picked, a, b)
    requires ApplyAll(q.c, utxo, Transactions(picked), height, |picked|).failed.None?
    ensures |picked| <= 2 && (|picked| == 2 ==> picked[0].tx != picked[1].tx)
  {
    if picked != [] && picked[0].tx == b && a != b {
      PairTurned(q, utxo, a, b);
      RunsFrom(q, utxo, b, a, height, picked);
    } else if picked != [] {
      RunsFrom(q, utxo, a, b, height, picked);
    }
  }

  lemma RunsFrom(q: Policy, utxo: UtxoMap, a: Transaction, b: Transaction, height: Uint32, picked: seq<TxEntry>)
    requires Pair(q, utxo, a, b) && OfPair(picked, a, b) && picked != [] && picked[0].tx == a
    requires ApplyAll(q.c, utxo, Transactions(picked), height, |picked|).failed.None?
    ensures |picked| <= 2 && (|picked| == 2 ==> picked[1].tx == b)
    ensures a != b
  {
    hide Apply, Simple, Amounts, Conservation.FreshOutputs;
    var txs := Transactions(picked);
    SimpleStandard(q, utxo, a);
    SimpleStandard(q, utxo, b);
    PairGone(q, utxo, a, b, height);
    assert forall i :: 0 <= i < |txs| ==> txs[i] == a || txs[i] == b;
    assert ApplyAll(q.c, utxo, txs, height, 0) == Applied(None, utxo, 0);
    if 1 < |picked| {
      Supply.EachApplied(q.c, utxo, txs, height, 0, |picked|);
      assert ApplyAll(q.c, utxo, txs, height, 1).utxo == Apply(q.c, utxo, a, height).utxo;
      Supply.EachApplied(q.c, utxo, txs, height, 1, |picked|);
      assert txs[1] == b;
      if 2 < |picked| {
        assert ApplyAll(q.c, utxo, txs, height, 2).utxo == Apply(q.c, Apply(q.c, utxo, a, height).utxo, b, height).utxo;
        Supply.EachApplied(q.c, utxo, txs, height, 2, |picked|);
      }
    }
  }

  /** The values of the outputs: those that are there, and those the pair creates. */
  function PairValue(c: Crypto, utxo: UtxoMap, a: Transaction, b: Transaction, point: OutPoint): int {
    if point in utxo then utxo[point].output.value
    else if point.txHash == c.txid(a) && point.index < |a.outputs| then a.outputs[point.index].value
    else if point.txHash == c.txid(b) && point.index < |b.outputs| then b.outputs[point.index].value
    else 0
  }

  function PairPricing(c: Crypto, utxo: UtxoMap, a: Transaction, b: Transaction): Pricing {
    Pricing(point => PairValue(c, utxo, a, b, point), true)
  }

  lemma PairPriced(q: Policy, utxo: UtxoMap, a: Transaction, b: Transaction)
    requires Pair(q, utxo, a, b)
    ensures var value := PairPricing(q.c, utxo, a, b).value;
            Valued(value, utxo) && TxPriced(q.c, value, a) && TxPriced(q.c, value, b) && PairPricing(q.c, utxo, a, b).holds
  {
    WrapsPriced(q, utxo, a, PairPricing(q.c, utxo, a, b).value);
    WrapsPriced(q, utxo, b, PairPricing(q.c, utxo, a, b).value);
  }

  lemma WrapsPriced(q: Policy, utxo: UtxoMap, tx: Transaction, value: OutPoint -> int)
    requires Wraps(q, utxo, tx) && Valued(value, utxo)
    requires forall i :: 0 <= i < |tx.outputs| ==> value(OutputPoint(q.c, tx, i)) == tx.outputs[i].value
    ensures TxPriced(q.c, value, tx)
  {
    hide Wrap64, OutputPoint;
    SumOfThree(tx);
    assert ValueSum(value, tx.inputs, 1) == ValueSum(value, tx.inputs, 0) + value(tx.inputs[0].prevout);
    Wrap64Identity(Spent(utxo, tx));
  }

  lemma PairEntries(q: Policy, utxo: UtxoMap, a: Transaction, b: Transaction, t1: nat, t2: nat)
    requires Pair(q, utxo, a, b)
    ensures var txs := WithPair(q, map[], utxo, a, b, t1, t2);
            && q.c.txid(a) in txs && q.c.txid(b) in txs && txs[q.c.txid(a)].tx == a && txs[q.c.txid(b)].tx == b
            && forall id :: id in txs ==> (txs[id].tx == a || txs[id].tx == b) && txs[id].size <= 100_000
  {
    hide FeeRate, Amounts, Conservation.FreshOutputs;
  }

  lemma PairFromPool(txs: map<nat, TxEntry>, picked: seq<TxEntry>, a: Transaction, b: Transaction)
    requires FromPool(txs, picked) && forall id :: id in txs ==> (txs[id].tx == a || txs[id].tx == b) && txs[id].size <= 100_000
    ensures OfPair(picked, a, b) && forall i :: 0 <= i < |picked| ==> picked[i].size <= 100_000
  {
    forall i | 0 <= i < |picked|
      ensures (picked[i].tx == a || picked[i].tx == b) && picked[i].size <= 100_000
    {
      assert InPool(txs, picked[i]);
    }
  }

  /** What was not chosen, though it fits, does not apply to the real outcome. */
  lemma LeftOut(q: Policy, utxo: UtxoMap, txs: map<nat, TxEntry>, id: nat, height: Uint32, picked: seq<TxEntry>, working: UtxoMap,
                budget: nat, reserved: nat, pricing: Pricing)
    requires Chosen(q.c, utxo, height, reserved, budget, picked, working, reserved + Sizes(picked), pricing) && pricing.holds
    requires Exhausted(q.c, txs, picked, working, height, budget, reserved)
    requires id in txs && txs[id] !in picked && reserved + Sizes(picked) + txs[id].size <= budget
    ensures !Apply(q.c, ApplyAll(q.c, utxo, Transactions(picked), height, |picked|).utxo, txs[id].tx, height).ok
  {
    hide Apply, ApplyAll, Sizes, Valued;
  }

  lemma OneSize(picked: seq<TxEntry>)
    requires |picked| == 1
    ensures Sizes(picked) == picked[0].size && Transactions(picked) == [picked[0].tx]
  {
    assert picked == [] + [picked[0]];
    SizesSnoc([], picked[0]);
  }

  /** After one of them the other one applies. */
  lemma OtherApplies(q: Policy, utxo: UtxoMap, a: Transaction, b: Transaction, height: Uint32)
    requires Pair(q, utxo, a, b)
    ensures Apply(q.c, utxo, a, height).ok && !a.IsCoinbase()
    ensures ApplyAll(q.c, utxo, [a], height, 1).utxo == Apply(q.c, utxo, a, height).utxo
    ensures Apply(q.c, ApplyAll(q.c, utxo, [a], height, 1).utxo, b, height).ok
  {
    hide Apply, Amounts, Simple, Conservation.FreshOutputs;
    SimpleStandard(q, utxo, a);
    WrapsApplies(q, utxo, a, height);
    assert ApplyAll(q.c, utxo, [a], height, 0) == Applied(None, utxo, 0);
    WrapsAfter(q, utxo, a, b, height);
    WrapsApplies(q, Apply(q.c, utxo, a, height).utxo, b, height);
  }

  /** From a pool of exactly this pair, whatever its order by fee rate, both are chosen when the coinbase leaves room. */
  lemma PairChosen(q: Policy, utxo: UtxoMap, a: Transaction, b: Transaction, txs: map<nat, TxEntry>, height: Uint32,
                   picked: seq<TxEntry>, working: UtxoMap, budget: nat, reserved: nat, pricing: Pricing)
    requires Pair(q, utxo, a, b) && reserved + 200_000 <= budget && pricing.holds && FromPool(txs, picked)
    requires q.c.txid(a) in txs && q.c.txid(b) in txs && txs[q.c.txid(a)].tx == a && txs[q.c.txid(b)].tx == b
    requires forall id :: id in txs ==> (txs[id].tx == a || txs[id].tx == b) && txs[id].size <= 100_000
    requires Chosen(q.c, utxo, height, reserved, budget, picked, working, reserved + Sizes(picked), pricing)
    requires Exhausted(q.c, txs, picked, working, height, budget, reserved)
    ensures Transactions(picked) == [a, b] || Transactions(picked) == [b, a]
  {
    hide Apply, ApplyAll, Sizes, Chosen, Exhausted, FromPool, Wraps;
    PairFromPool(txs, picked, a, b);
    ChosenRuns(q.c, utxo, height, reserved, budget, picked, working, pricing);
    PairRuns(q, utxo, a, b, height, picked);
    if |picked| == 0 {
      NoneSoFar(q.c, utxo, picked, height);
      OtherApplies(q, utxo, a, b, height);
      LeftOut(q, utxo, txs, q.c.txid(a), height, picked, working, budget, reserved, pricing);
    } else if |picked| == 1 {
      OneSize(picked);
      PairTurned(q, utxo, a, b);
      OtherApplies(q, utxo, a, b, height);
      OtherApplies(q, utxo, b, a, height);
      LeftOut(q, utxo, txs, if picked[0].tx == a then q.c.txid(b) else q.c.txid(a), height, picked, working, budget, reserved, pricing);
    }
  }

  lemma ChosenRuns(c: Crypto, utxo: UtxoMap, height: Uint32, reserved: nat, budget: nat, picked: seq<TxEntry>, working: UtxoMap, pricing: Pricing)
    requires Chosen(c, utxo, height, reserved, budget, picked, working, reserved + Sizes(picked), pricing)
    ensures ApplyAll(c, utxo, Transactions(picked), height, |picked|).failed.None?
  {
    hide ApplyAll, Sizes;
  }

  lemma NoneSoFar(c: Crypto, utxo: UtxoMap, picked: seq<TxEntry>, height: Uint32)
    ensures ApplyAll(c, utxo, Transactions(picked), height, 0).utxo == utxo
    ensures picked == [] ==> Sizes(picked) == 0
  {
  }

  /** The pool holds exactly the pair. */
  ghost predicate HoldsPair(q: Policy, txs: map<nat, TxEntry>, utxo: UtxoMap, a: Transaction, b: Transaction, t1: nat, t2: nat) {
    Pair(q, utxo, a, b) && txs == WithPair(q, map[], utxo, a, b, t1, t2)
  }

  ghost predicate LeavesRoom(c: Crypto, blk: Block, utxo: UtxoMap) {
    blk.transactions != [] && FreshCoinbase(c, blk, utxo) && c.txSize(blk.transactions[0]) + 200_000 <= MAX_BLOCK_SIZE_BYTES
  }

  /** No nonce makes the block a valid extension of the active path, at no time, with proof of work or without. */
  ghost predicate NeverExtends(r: Rules, s: State, blk: Block)
    requires TablesOk(r, s)
  {
    forall nonce: Uint32, now, skipPow :: !PathValid(r, ActiveBlocks(r, s) + [WithNonce(blk, nonce)], now, skipPow)
  }

  /** Main result: on a pool of exactly such a pair the node builds a block that no nonce makes a valid extension of
      its active path, whatever is on file, unless the coinbase outpoint is taken or the coinbase fills the block. */
  method TemplateOfPair(node: Node, pool: Pool, payout: Payout, now: nat, ghost a: Transaction, ghost b: Transaction, ghost t1: nat, ghost t2: nat)
    returns (blk: Block)
    requires node.Valid() && pool.Valid() && pool.policy.c == node.rules.c
    requires HoldsPair(pool.policy, pool.txs, node.utxo.entries, a, b, t1, t2)
    ensures TablesOk(node.rules, node.View())
    ensures LeavesRoom(node.rules.c, blk, node.utxo.entries) ==> NeverExtends(node.rules, node.View(), blk)
  {
    hide *;
    ghost var s, q, utxo := node.View(), pool.policy, node.utxo.entries;
    ghost var pricing := PairPricing(q.c, utxo, a, b);
    node.IsValid();
    node.ViewFields();
    PairHeld(q, pool.txs, utxo, a, b, t1, t2);
    PairPriced(q, utxo, a, b);
    PricedEntries(q.c, pool.txs, pricing, a, b);
    ghost var picked, working;
    blk, picked, working := BuildTemplate(node, pool, payout, now, pricing);
    if LeavesRoom(node.rules.c, blk, utxo) {
      RoomMeans(node.rules.c, blk, utxo);
      PairChosen(q, utxo, a, b, pool.txs, Wrap32(s.best + 1), picked, working, MAX_BLOCK_SIZE_BYTES, node.rules.c.txSize(blk.transactions[0]), pricing);
      PairNeverExtends(q, node.rules, s, node.clock, node.powSkipped, node.TipParent(), a, b, picked, blk,
                       NextWork(node.rules.p, ActiveHeaders(node.rules, s), s.tipBits, TemplateTime(node.TipParent(), now)), payout, now);
    }
  }

  lemma PairHeld(q: Policy, txs: map<nat, TxEntry>, utxo: UtxoMap, a: Transaction, b: Transaction, t1: nat, t2: nat)
    requires HoldsPair(q, txs, utxo, a, b, t1, t2)
    ensures Pair(q, utxo, a, b)
    ensures q.c.txid(a) in txs && q.c.txid(b) in txs && txs[q.c.txid(a)].tx == a && txs[q.c.txid(b)].tx == b
    ensures forall id :: id in txs ==> (txs[id].tx == a || txs[id].tx == b) && txs[id].size <= 100_000
  {
    hide Pair, FeeRate;
    PairEntries(q, utxo, a, b, t1, t2);
  }

  lemma RoomMeans(c: Crypto, blk: Block, utxo: UtxoMap)
    requires LeavesRoom(c, blk, utxo)
    ensures blk.transactions != [] && FreshCoinbase(c, blk, utxo) && c.txSize(blk.transactions[0]) + 200_000 <= MAX_BLOCK_SIZE_BYTES
  {
    hide FreshCoinbase;
  }

  lemma PricedEntries(c: Crypto, txs: map<nat, TxEntry>, pricing: Pricing, a: Transaction, b: Transaction)
    requires forall id :: id in txs ==> txs[id].tx == a || txs[id].tx == b
    requires TxPriced(c, pricing.value, a) && TxPriced(c, pricing.value, b)
    ensures forall id :: id in txs ==> EntryPriced(c, pricing, txs[id])
  {
    hide TxPriced;
  }

  lemma {:induction false} PairNeverExtends(q: Policy, r: Rules, s: State, clock: nat, powSkipped: bool, parent: Option<Header>, a: Transaction,
                                            b: Transaction, picked: seq<TxEntry>, blk: Block, bits: Bits, payout: Payout, built: nat)
    requires r.c.Sound() && TablesOk(r, s) && UtxoOk(r, s, clock, powSkipped)
    requires IsTemplate(r, parent, bits, s.best + 1, blk, payout, picked, built)
    requires blk.transactions != [] && FreshCoinbase(r.c, blk, s.utxo)
    requires q.c == r.c && Pair(q, s.utxo, a, b) && (Transactions(picked) == [a, b] || Transactions(picked) == [b, a])
    ensures NeverExtends(r, s, blk)
  {
    hide TablesOk, UtxoOk, IsTemplate, ActiveHeaders, ActiveBlocks, FreshCoinbase, Pair, Transactions, PathValid, WithNonce, TransactionsOutcome;
    ActiveHeadersAre(r, s);
    PairTurned(q, s.utxo, a, b);
    forall nonce: Uint32, now, skipPow
      ensures !PathValid(r, ActiveBlocks(r, s) + [WithNonce(blk, nonce)], now, skipPow)
    {
      if parent != Some(s.index[s.tip]) {
        UnfiledTemplateFails(r, s, clock, powSkipped, parent, picked, blk, bits, s.best + 1, payout, built, nonce, now, skipPow);
      } else if Transactions(picked) == [a, b] {
        PairTemplateFails(q, r, s, clock, powSkipped, a, b, picked, blk, bits, payout, built, nonce, now, skipPow);
      } else {
        PairTemplateFails(q, r, s, clock, powSkipped, b, a, picked, blk, bits, payout, built, nonce, now, skipPow);
      }
    }
  }
}
