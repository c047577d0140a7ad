/** The block a miner works on: built on the active tip from pooled transactions. */
module Template {
  import opened Arith
  import opened CompactTarget
  import opened Primitives
  import opened Retarget
  import opened Utxo
  import opened PathValidation
  import opened ChainState
  import opened ChainSteps
  import opened ForkChoice
  import opened TipExtension
  import opened PoolIndexes
  import opened Selection
  import Supply
  import Blockchain
  import Mempool

  type Node = Blockchain.Blockchain
  type Pool = Mempool.Mempool

  /** What a miner puts into its coinbase: an input script made from height, time and parent, and the script
      that receives the reward. */
  datatype Payout = Payout(inputScript: (nat, Uint32, nat) -> seq<Byte>, script: seq<Byte>)

  // ---------------------------------------------------------------------------
  // Pooled transactions in fee order
  // ---------------------------------------------------------------------------

  /** The entries of the pool, each once, dearest first. */
  ghost predicate InFeeOrder(txs: map<nat, TxEntry>, ids: seq<nat>, entries: seq<TxEntry>) {
    && |ids| == |entries| && Distinct(ids)
    && (forall i :: 0 <= i < |ids| ==> ids[i] in txs && entries[i] == txs[ids[i]])
    && (forall id :: id in txs ==> id in ids)
    && forall i, j :: 0 <= i < j < |ids| ==> Less(KeyOf(ids[j], entries[j]), KeyOf(ids[i], entries[i]))
  }

  /** Every entry once, from the highest to the lowest fee rate: who comes first pays more per byte. */
  method OrderedEntries(pool: Pool) returns (entries: seq<TxEntry>, ghost ids: seq<nat>)
    requires pool.Valid()
    ensures InFeeOrder(pool.txs, ids, entries)
    ensures |entries| == |pool.txs| && forall id :: id in pool.txs ==> pool.txs[id] in entries
    ensures forall i, j :: 0 <= i < j < |entries| ==> entries[j].feeRate <= entries[i].feeRate && Outpays(entries[i], entries[j])
  {
    hide *;
    entries, ids := WalkBackwards(pool);
    OrderIsPool(pool.txs, ids, entries);
    OrderIsComplete(pool.txs, ids, entries);
    pool.HasEntries();
    OrderOutpays(pool.policy.c, pool.txs, ids, entries);
  }

  /** Walks the ordered index from its end. */
  method WalkBackwards(pool: Pool) returns (entries: seq<TxEntry>, ghost ids: seq<nat>)
    requires pool.Valid()
    ensures InFeeOrder(pool.txs, ids, entries)
  {
    hide Within, OrphansOk, EntriesOk, SpentOk, Less, IsGreatest, SizeSum;
    Mempool.IndexedParts(pool.policy.c, pool.txs, pool.sortedByFeeRate, pool.spentOutpoints, pool.totalBytes);
    hide Indexed;
    var rest := pool.sortedByFeeRate;
    entries, ids := [], [];
    while rest != {}
      invariant rest <= pool.sortedByFeeRate
      invariant |ids| == |entries|
      invariant forall i :: 0 <= i < |ids| ==> ids[i] in pool.txs && entries[i] == pool.txs[ids[i]]
      invariant forall k :: k in pool.sortedByFeeRate && k !in rest ==> k.id in ids
      invariant forall i :: 0 <= i < |ids| ==> KeyOf(ids[i], entries[i]) !in rest
      invariant forall i, k :: 0 <= i < |ids| && k in rest ==> Less(k, KeyOf(ids[i], entries[i]))
      invariant forall i, j :: 0 <= i < j < |ids| ==> Less(KeyOf(ids[j], entries[j]), KeyOf(ids[i], entries[i]))
      decreases rest
    {
      ghost var dearest := GreatestExists(rest);
      var greatest :| IsGreatest(greatest, rest);
      GreatestMeans(greatest, rest);
      entries := entries + [pool.txs[greatest.id]];
      ids := ids + [greatest.id];
      rest := rest - {greatest};
    }
    OrderDistinct(ids, entries);
    forall id | id in pool.txs
      ensures id in ids
    {
      assert KeyOf(id, pool.txs[id]) in pool.sortedByFeeRate;
    }
  }

  lemma OrderIsComplete(txs: map<nat, TxEntry>, ids: seq<nat>, entries: seq<TxEntry>)
    requires InFeeOrder(txs, ids, entries)
    ensures |entries| == |txs|
    ensures forall i, j :: 0 <= i < j < |entries| ==> entries[j].feeRate <= entries[i].feeRate
  {
    DistinctCount(ids, txs.Keys);
    forall i, j | 0 <= i < j < |entries|
      ensures entries[j].feeRate <= entries[i].feeRate
    {
      assert Less(KeyOf(ids[j], entries[j]), KeyOf(ids[i], entries[i]));
    }
  }

  /** Whoever comes first pays more per byte. */
  lemma OrderOutpays(c: Crypto, txs: map<nat, TxEntry>, ids: seq<nat>, entries: seq<TxEntry>)
    requires EntriesOk(c, txs) && InFeeOrder(txs, ids, entries)
    ensures forall i, j :: 0 <= i < j < |entries| ==> Outpays(entries[i], entries[j])
  {
    hide FeeRate, Less, Outpays, DistinctInputs, MinFee;
    forall i, j | 0 <= i < j < |entries|
      ensures Outpays(entries[i], entries[j])
    {
      assert EntryOk(c, ids[i], entries[i]);
      assert EntryOk(c, ids[j], entries[j]);
      LessOutpays(entries[j], entries[i], ids[j], ids[i]);
    }
  }

  lemma {:induction false} DistinctCount(ids: seq<nat>, keys: set<nat>)
    requires Distinct(ids) && forall id :: id in ids <==> id in keys
    ensures |ids| == |keys|
    decreases |ids|
  {
    if ids != [] {
      var last := ids[|ids| - 1];
      var front := ids[..|ids| - 1];
      assert ids == front + [last];
      DistinctCount(front, keys - {last});
    } else {
      assert forall k :: k in keys ==> k in ids;
      assert keys == {};
    }
  }

  lemma GreatestMeans(k: FeeKey, sorted: set<FeeKey>)
    requires IsGreatest(k, sorted)
    ensures k in sorted && forall other :: other in sorted && other != k ==> Less(other, k)
  {
  }

  lemma OrderDistinct(ids: seq<nat>, entries: seq<TxEntry>)
    requires |ids| == |entries|
    requires forall i, j :: 0 <= i < j < |ids| ==> Less(KeyOf(ids[j], entries[j]), KeyOf(ids[i], entries[i]))
    requires forall i, j :: 0 <= i < j < |ids| && ids[i] == ids[j] ==> entries[i] == entries[j]
    ensures Distinct(ids)
  {
    forall i, j | 0 <= i < j < |ids|
      ensures ids[i] != ids[j]
    {
      assert Less(KeyOf(ids[j], entries[j]), KeyOf(ids[i], entries[i]));
    }
  }

  // ---------------------------------------------------------------------------
  // The template
  // ---------------------------------------------------------------------------

  function Coinbase(height: nat, inputScript: seq<Byte>, script: seq<Byte>): Transaction {
    Supply.RewardSmall(height);
    Transaction(1, [TxIn(OutPoint(0, NULL_INDEX), inputScript, 0xFFFF_FFFF)], [TxOut(BlockReward(height), script)], 0)
  }

  /** The current time, but at least one second after the parent, if there is one, in 32-bit arithmetic. */
  function TemplateTime(parent: Option<Header>, now: nat): Uint32 {
    var earliest := if parent.Some? then Wrap32(parent.value.timestamp + 1) else Wrap32(now);
    if Wrap32(now) < earliest then earliest else Wrap32(now)
  }

  /** Main result: the template's time passes the timestamp rules exactly when the parent is not at the end
      of the 32-bit range and one second after it is not too far in the future. */
  lemma TemplateTimeValid(p: Params, parent: Header, header: Header, now: nat)
    requires now < 0x1_0000_0000 && header.timestamp == TemplateTime(Some(parent), now)
    ensures TimestampValid(p, header, Some(parent), now) <==>
              parent.timestamp < 0xFFFF_FFFF && (p.maxFutureSeconds == 0 || parent.timestamp + 1 <= now + p.maxFutureSeconds)
  {
  }

  /** What the node builds on the parent it finds on file, or on none. */
  ghost predicate IsTemplate(r: Rules, parent: Option<Header>, bits: Bits, height: nat, blk: Block, payout: Payout, picked: seq<TxEntry>,
                             now: nat)
  {
    var time, link := TemplateTime(parent, now), ParentLink(r.c, parent);
    var coinbase := Coinbase(height, payout.inputScript(height, time, link), payout.script);
    && blk.transactions == [coinbase] + Transactions(picked)
    && blk.header == Header(1, link, r.c.MerkleRoot(blk.transactions), time, bits, 0)
  }

  /** The coinbase of the template creates an outpoint nothing unspent has yet. */
  ghost predicate FreshCoinbase(c: Crypto, blk: Block, utxo: UtxoMap)
    requires blk.transactions != []
  {
    OutputPoint(c, blk.transactions[0], 0) !in utxo
  }

  lemma CoinbaseKeeps(c: Crypto, utxo: UtxoMap, coinbase: Transaction, height: Uint32)
    requires coinbase.IsCoinbase() && |coinbase.outputs| == 1 && OutputPoint(c, coinbase, 0) !in utxo
    ensures SubMap(utxo, Apply(c, utxo, coinbase, height).utxo)
  {
    assert AddOutputs(c, utxo, coinbase, height, 1) ==
           AddOutputs(c, utxo, coinbase, height, 0)[OutputPoint(c, coinbase, 0) := Entry(coinbase.outputs[0], height, true)];
  }

  /** Sums of pooled outputs that leave room for 64-bit arithmetic. */
  ghost predicate SmallSums(txs: map<nat, TxEntry>) {
    forall id :: id in txs ==> OutputSum(txs[id].tx.outputs) < 0x4000_0000_0000_0000
  }

  ghost predicate FromPool(txs: map<nat, TxEntry>, picked: seq<TxEntry>) {
    forall i :: 0 <= i < |picked| ==> InPool(txs, picked[i])
  }

  ghost predicate InPool(txs: map<nat, TxEntry>, e: TxEntry) {
    exists id :: id in txs && txs[id] == e
  }

  lemma PooledIsSane(c: Crypto, txs: map<nat, TxEntry>, e: TxEntry)
    requires EntriesOk(c, txs) && SmallSums(txs) && InPool(txs, e)
    ensures Supply.SaneOutputs(e.tx) && !e.tx.IsCoinbase() && DistinctInputs(e.tx)
  {
    hide FeeRate, MinFee;
    var id :| id in txs && txs[id] == e;
    assert EntryOk(c, id, txs[id]);
  }

  lemma TemplateSane(c: Crypto, txs: map<nat, TxEntry>, picked: seq<TxEntry>, blk: Block, height: nat, inputScript: seq<Byte>, script: seq<Byte>)
    requires EntriesOk(c, txs) && SmallSums(txs) && FromPool(txs, picked)
    requires blk.transactions == [Coinbase(height, inputScript, script)] + Transactions(picked)
    ensures Supply.SaneBlock(blk) && blk.transactions[0].IsCoinbase()
    ensures blk.transactions[0].TotalOutputValue() == BlockReward(height)
  {
    hide BlockReward, EntriesOk, SmallSums, InPool, DistinctInputs;
    Supply.RewardSmall(height);
    var coinbase := blk.transactions[0];
    assert coinbase.outputs[..0] == [];
    assert OutputSum(coinbase.outputs) == OutputSum(coinbase.outputs[..0]) + coinbase.outputs[0].value;
    forall i | 0 < i < |blk.transactions|
      ensures Supply.SaneOutputs(blk.transactions[i]) && !blk.transactions[i].IsCoinbase() && DistinctInputs(blk.transactions[i])
    {
      PooledIsSane(c, txs, picked[i - 1]);
      assert blk.transactions[i] == picked[i - 1].tx;
    }
  }

  /** The transactions of a template apply and the coinbase does not overpay. */
  lemma {:induction false} TemplateTransactions(r: Rules, blk: Block, height: nat, utxo: UtxoMap, txs: seq<Transaction>)
    requires blk.transactions != [] && blk.transactions == [blk.transactions[0]] + txs && |blk.transactions[0].outputs| == 1
    requires ApplyAll(r.c, utxo, txs, Wrap32(height), |txs|).failed.None?
    requires FreshCoinbase(r.c, blk, utxo) && Supply.NonNegative(utxo) && Supply.TotalValue(utxo) <= TOTAL_SUPPLY * SATOSHIS
    requires Supply.SaneBlock(blk) && blk.transactions[0].IsCoinbase()
    requires blk.transactions[0].TotalOutputValue() == BlockReward(height)
    ensures TransactionsOutcome(r, blk, height, utxo).Accepted?
  {
    hide ApplyAll, Supply.SaneBlock, Supply.NonNegative, Supply.TotalValue, BlockReward, Apply, SubMap, OutputPoint, OutputSum;
    CoinbaseKeeps(r.c, utxo, blk.transactions[0], Wrap32(height));
    AfterCoinbase(r.c, utxo, blk.transactions[0], txs, Wrap32(height), |txs|);
    Supply.TotalNonNegative(utxo);
    Supply.TransactionsConserve(r.c, utxo, blk, Wrap32(height), |blk.transactions|);
    Supply.RewardSmall(height);
    Wrap64Identity(BlockReward(height) + ApplyAll(r.c, utxo, blk.transactions, Wrap32(height), |blk.transactions|).fees);
  }

  // ---------------------------------------------------------------------------
  // Building
  // ---------------------------------------------------------------------------

  /** Nothing in the pool that still fits would also apply. */
  ghost predicate Exhausted(c: Crypto, txs: map<nat, TxEntry>, picked: seq<TxEntry>, working: UtxoMap, height: Uint32, budget: nat, reserved: nat) {
    forall id :: id in txs ==>
      || txs[id] in picked
      || budget < reserved + Sizes(picked) + txs[id].size
      || !Apply(c, working, txs[id].tx, height).ok
  }

  /** Going round the pool from the dearest entry down, each pick is the first one after the pick before that is left, fits
      and applies. */
  ghost predicate DearestFirst(c: Crypto, txs: map<nat, TxEntry>, utxo: UtxoMap, height: Uint32, reserved: nat, budget: nat,
                               picked: seq<TxEntry>)
  {
    exists ids, entries, at :: PickedInTurn(c, txs, utxo, height, reserved, budget, picked, ids, entries, at)
  }

  ghost predicate PickedInTurn(c: Crypto, txs: map<nat, TxEntry>, utxo: UtxoMap, height: Uint32, reserved: nat, budget: nat,
                               picked: seq<TxEntry>, ids: seq<nat>, entries: seq<TxEntry>, at: seq<nat>)
  {
    InFeeOrder(txs, ids, entries) && InTurn(c, utxo, height, reserved, budget, entries, picked, at)
  }

  lemma DearestIs(c: Crypto, txs: map<nat, TxEntry>, utxo: UtxoMap, height: Uint32, reserved: nat, budget: nat,
                  picked: seq<TxEntry>, ids: seq<nat>, entries: seq<TxEntry>, at: seq<nat>)
    requires InFeeOrder(txs, ids, entries) && InTurn(c, utxo, height, reserved, budget, entries, picked, at)
    ensures DearestFirst(c, txs, utxo, height, reserved, budget, picked)
  {
    hide InFeeOrder, InTurn;
    assert PickedInTurn(c, txs, utxo, height, reserved, budget, picked, ids, entries, at);
  }

  method GetMineableTransactions(pool: Pool, utxo: UTXOSet, height: Uint32, budget: nat, reserved: nat, ghost pricing: Pricing)
    returns (picked: seq<TxEntry>, ghost working: UtxoMap)
    requires pool.Valid()
    requires pricing.holds ==> Valued(pricing.value, utxo.entries)
    requires forall id :: id in pool.txs ==> EntryPriced(pool.policy.c, pricing, pool.txs[id])
    ensures Chosen(pool.policy.c, utxo.entries, height, reserved, budget, picked, working, reserved + Sizes(picked), pricing)
    ensures FromPool(pool.txs, picked) && Exhausted(pool.policy.c, pool.txs, picked, working, height, budget, reserved)
    ensures pricing.holds ==> DearestFirst(pool.policy.c, pool.txs, utxo.entries, height, reserved, budget, picked)
  {
    hide Chosen, Apply, Sizes, EntryPriced, Indexed, OrphansOk, Within, InFeeOrder, Valued, InTurn, DearestFirst, Outpays;
    var entries;
    ghost var ids;
    entries, ids := OrderedEntries(pool);
    OrderIsPool(pool.txs, ids, entries);
    forall i | 0 <= i < |entries|
      ensures EntryPriced(pool.policy.c, pricing, entries[i])
    {
      assert entries[i] == pool.txs[ids[i]];
    }
    ghost var at;
    picked, working, at := SelectMineable(pool.policy.c, entries, utxo, height, budget, reserved, pricing);
    if pricing.holds {
      DearestIs(pool.policy.c, pool.txs, utxo.entries, height, reserved, budget, picked, ids, entries, at);
    }
    PickedFromPool(pool.txs, ids, entries, picked);
    forall id | id in pool.txs
      ensures pool.txs[id] in entries
    {
    }
  }

  lemma OrderIsPool(txs: map<nat, TxEntry>, ids: seq<nat>, entries: seq<TxEntry>)
    requires InFeeOrder(txs, ids, entries)
    ensures |ids| == |entries| && forall i :: 0 <= i < |ids| ==> ids[i] in txs && entries[i] == txs[ids[i]]
    ensures forall id :: id in txs ==> txs[id] in entries
  {
    forall id | id in txs
      ensures txs[id] in entries
    {
      var i :| 0 <= i < |ids| && ids[i] == id;
      assert entries[i] == txs[id];
    }
  }

  lemma PickedFromPool(txs: map<nat, TxEntry>, ids: seq<nat>, entries: seq<TxEntry>, picked: seq<TxEntry>)
    requires InFeeOrder(txs, ids, entries) && multiset(picked) <= multiset(entries)
    ensures FromPool(txs, picked)
  {
    forall i | 0 <= i < |picked|
      ensures InPool(txs, picked[i])
    {
      assert picked[i] in multiset(picked);
      assert picked[i] in multiset(entries);
      var k :| 0 <= k < |entries| && entries[k] == picked[i];
      assert ids[k] in txs && txs[ids[k]] == picked[i];
    }
  }

  /** Builds the block the miner starts from: parent and time from the tip's file, bits from the active path, the
      reward to the payout script, then what the pool offers. */
  method BuildTemplate(node: Node, pool: Pool, payout: Payout, now: nat, ghost pricing: Pricing)
    returns (blk: Block, ghost picked: seq<TxEntry>, ghost working: UtxoMap)
    requires node.Valid() && pool.Valid() && pool.policy.c == node.rules.c
    requires pricing.holds ==> Valued(pricing.value, node.utxo.entries)
    requires forall id :: id in pool.txs ==> EntryPriced(pool.policy.c, pricing, pool.txs[id])
    ensures TablesOk(node.rules, node.View())
    ensures IsTemplate(node.rules, node.TipParent(),
                       NextWork(node.rules.p, ActiveHeaders(node.rules, node.View()), node.tipBits, TemplateTime(node.TipParent(), now)),
                       node.bestHeight + 1, blk, payout, picked, now)
    ensures node.synced ==> node.TipFiled()
    ensures blk.transactions != [] && FromPool(pool.txs, picked)
    ensures var height, size := Wrap32(node.bestHeight + 1), node.rules.c.txSize(blk.transactions[0]);
            && Chosen(node.rules.c, node.utxo.entries, height, size, MAX_BLOCK_SIZE_BYTES, picked, working, size + Sizes(picked), pricing)
            && Exhausted(node.rules.c, pool.txs, picked, working, height, MAX_BLOCK_SIZE_BYTES, size)
            && (pricing.holds ==> DearestFirst(node.rules.c, pool.txs, node.utxo.entries, height, size, MAX_BLOCK_SIZE_BYTES, picked))
  {
    hide DearestFirst, Blockchain.Blockchain.Valid, Mempool.Mempool.Valid, TablesOk, ActiveHeaders, NextWork, Chosen, Exhausted, FromPool, EntryPriced,
         Valued, Sizes, FilesMatch, UtxoOk, RunOk, BlockReward, Crypto.MerkleRoot, Crypto.Link;
    node.IsValid();
    if node.synced {
      node.TipIsFiled();
    }
    var height := node.bestHeight + 1;
    var prev := node.FindByHeight(node.bestHeight);
    var prevLink := if prev.Some? then node.rules.c.Link(prev.value.header) else 0;
    var time := TemplateTime(if prev.Some? then Some(prev.value.header) else None, now);
    var bits := node.NextBits(time);
    var coinbase := Coinbase(height, payout.inputScript(height, time, prevLink), payout.script);
    var chosen;
    chosen, working := GetMineableTransactions(pool, node.utxo, Wrap32(height), MAX_BLOCK_SIZE_BYTES, node.rules.c.txSize(coinbase), pricing);
    picked := chosen;
    var txs := [coinbase] + Transactions(chosen);
    blk := Block(Header(1, prevLink, node.rules.c.MerkleRoot(txs), time, bits, 0), txs);
  }

  /** The template with the nonce the miner found. */
  function WithNonce(blk: Block, nonce: Uint32): Block {
    Block(blk.header.(nonce := nonce), blk.transactions)
  }

  lemma TemplateHeader(r: Rules, tip: Header, bits: Bits, height: nat, blk: Block, payout: Payout, picked: seq<TxEntry>, now: nat,
                       nonce: Uint32, skipPow: bool)
    requires IsTemplate(r, Some(tip), bits, height, blk, payout, picked, now) && now < 0x1_0000_0000
    ensures HeaderPasses(r, tip, WithNonce(blk, nonce), bits, now, skipPow)
            <==> TimeFits(r.p, tip, now) && (skipPow || (IsCanonical(bits, 64) && CheckPow(r.c, r.p, WithNonce(blk, nonce).header)))
  {
    hide IsCanonical, CheckPow, BlockReward, Crypto.MerkleRoot, Crypto.Link, TimestampValid;
    TemplateTimeValid(r.p, tip, WithNonce(blk, nonce).header, now);
  }

  lemma TemplateFirst(r: Rules, tip: Header, bits: Bits, height: nat, blk: Block, payout: Payout, picked: seq<TxEntry>, now: nat)
    requires IsTemplate(r, Some(tip), bits, height, blk, payout, picked, now)
    ensures blk.header.timestamp == TemplateTime(Some(tip), now)
    ensures blk.transactions != [] && |blk.transactions[0].outputs| == 1
    ensures blk.transactions == [blk.transactions[0]] + Transactions(picked)
    ensures exists inputScript :: blk.transactions[0] == Coinbase(height, inputScript, payout.script)
  {
    hide BlockReward, Crypto.MerkleRoot, Crypto.Link;
    var time := TemplateTime(Some(tip), now);
    assert blk.transactions[0] == Coinbase(height, payout.inputScript(height, time, r.c.Link(tip)), payout.script);
  }

  /** The parent's time can still be exceeded, and one second after it is not too far in the future. */
  predicate TimeFits(p: Params, parent: Header, now: nat) {
    parent.timestamp < 0xFFFF_FFFF && (p.maxFutureSeconds == 0 || parent.timestamp + 1 <= now + p.maxFutureSeconds)
  }

  /** Reward and fees together, in 64-bit arithmetic, are not less than the reward that the coinbase claims. */
  predicate FeesFit(c: Crypto, utxo: UtxoMap, picked: seq<TxEntry>, height: nat) {
    var fees := ApplyAll(c, utxo, Transactions(picked), Wrap32(height), |picked|).fees;
    BlockReward(height) <= Wrap64(BlockReward(height) + fees)
  }

  /** The fees fit if and only if their 64-bit sum is not negative and leaves room for the reward. */
  lemma FeesFitMeans(c: Crypto, utxo: UtxoMap, picked: seq<TxEntry>, height: nat)
    ensures FeesFit(c, utxo, picked, height)
            <==> 0 <= ApplyAll(c, utxo, Transactions(picked), Wrap32(height), |picked|).fees < 0x8000_0000_0000_0000 - BlockReward(height)
  {
    hide ApplyAll, BlockReward;
    Supply.RewardSmall(height);
  }

  /** The transactions of a template apply in any case; the coinbase overpays exactly when the fees do not fit. */
  lemma {:induction false} TemplateOutcome(r: Rules, blk: Block, height: nat, utxo: UtxoMap, picked: seq<TxEntry>)
    requires blk.transactions != [] && blk.transactions == [blk.transactions[0]] + Transactions(picked)
    requires blk.transactions[0].IsCoinbase() && |blk.transactions[0].outputs| == 1
    requires blk.transactions[0].TotalOutputValue() == BlockReward(height)
    requires ApplyAll(r.c, utxo, Transactions(picked), Wrap32(height), |picked|).failed.None? && FreshCoinbase(r.c, blk, utxo)
    ensures TransactionsOutcome(r, blk, height, utxo).Accepted? <==> FeesFit(r.c, utxo, picked, height)
    ensures TransactionsOutcome(r, blk, height, utxo).Rejected? ==> TransactionsOutcome(r, blk, height, utxo).reason == CoinbaseOverpay
  {
    hide ApplyAll, BlockReward, Apply, SubMap, OutputPoint, OutputSum, Wrap64;
    CoinbaseKeeps(r.c, utxo, blk.transactions[0], Wrap32(height));
    AfterCoinbase(r.c, utxo, blk.transactions[0], Transactions(picked), Wrap32(height), |picked|);
  }

  /** Main result: the template on the tip, with whatever nonce, extends the active path to a valid path if and only
      if the path itself still replays, the parent's time fits, proof of work passes or is skipped, and the fees
      fit. Nothing is asked of the pooled amounts; only the coinbase outpoint has to be free. */
  lemma {:induction false} TemplateIsValid(r: Rules, s: State, clock: nat, powSkipped: bool, picked: seq<TxEntry>, blk: Block, payout: Payout, now: nat,
                        nonce: Uint32, skipPow: bool)
    requires TablesOk(r, s) && UtxoOk(r, s, clock, powSkipped) && s.tip in s.index && now < 0x1_0000_0000
    requires IsTemplate(r, Some(s.index[s.tip]), NextWork(r.p, ActiveHeaders(r, s), s.tipBits, TemplateTime(Some(s.index[s.tip]), now)),
                        s.best + 1, blk, payout, picked, now)
    requires ApplyAll(r.c, s.utxo, Transactions(picked), Wrap32(s.best + 1), |picked|).failed.None?
    requires blk.transactions != [] && FreshCoinbase(r.c, blk, s.utxo)
    ensures clock <= now && (powSkipped ==> skipPow) ==> PathValid(r, ActiveBlocks(r, s), now, skipPow)
    ensures PathValid(r, ActiveBlocks(r, s) + [WithNonce(blk, nonce)], now, skipPow)
            <==> && PathValid(r, ActiveBlocks(r, s), now, skipPow)
                 && TimeFits(r.p, s.index[s.tip], now)
                 && (skipPow || (IsCanonical(blk.header.bits, 64) && CheckPow(r.c, r.p, WithNonce(blk, nonce).header)))
                 && FeesFit(r.c, s.utxo, picked, s.best + 1)
  {
    hide TablesOk, UtxoOk, ActiveHeaders, ActiveBlocks, NextWork, IsTemplate, ApplyAll, FreshCoinbase, PathValid, IsCanonical, CheckPow,
         CheckBlock, HeaderPasses, TransactionsOutcome, TemplateTime, Coinbase, FeesFit, TimeFits;
    var tip, hist, mined := s.index[s.tip], ActiveHeaders(r, s), WithNonce(blk, nonce);
    var bits := NextWork(r.p, hist, s.tipBits, TemplateTime(Some(tip), now));
    ActiveHeadersAre(r, s);
    TemplateFirst(r, tip, bits, s.best + 1, blk, payout, picked, now);
    TemplateBits(r, tip, bits, s.best + 1, blk, payout, picked, now);
    TemplateHeader(r, tip, bits, s.best + 1, blk, payout, picked, now, nonce, skipPow);
    TemplateCoinbase(blk, payout.script, s.best + 1);
    TemplateOutcome(r, blk, s.best + 1, s.utxo, picked);
    SameTransactions(r, blk, mined, s.best + 1, s.utxo);
    CheckSplit(r, hist, mined, bits, s.utxo, now, skipPow);
    ExtensionIsCheck(r, s, clock, powSkipped, mined, now, skipPow);
  }

  /** Fees that do not fit are never forgiven: at no later or earlier time, and without proof of work neither, does
      the template extend the active path. */
  lemma {:induction false} UnfitTemplateFails(r: Rules, s: State, clock: nat, powSkipped: bool, picked: seq<TxEntry>, blk: Block, bits: Bits,
                                              payout: Payout, built: nat, nonce: Uint32, now: nat, skipPow: bool)
    requires TablesOk(r, s) && UtxoOk(r, s, clock, powSkipped) && s.tip in s.index
    requires IsTemplate(r, Some(s.index[s.tip]), bits, s.best + 1, blk, payout, picked, built)
    requires ApplyAll(r.c, s.utxo, Transactions(picked), Wrap32(s.best + 1), |picked|).failed.None?
    requires blk.transactions != [] && FreshCoinbase(r.c, blk, s.utxo) && !FeesFit(r.c, s.utxo, picked, s.best + 1)
    ensures !PathValid(r, ActiveBlocks(r, s) + [WithNonce(blk, nonce)], now, skipPow)
    ensures TransactionsOutcome(r, blk, s.best + 1, s.utxo).Rejected?
            && TransactionsOutcome(r, blk, s.best + 1, s.utxo).reason == CoinbaseOverpay
  {
    hide TablesOk, UtxoOk, ActiveHeaders, ActiveBlocks, IsTemplate, ApplyAll, FreshCoinbase, PathValid, CheckBlock, TransactionsOutcome,
         TemplateTime, Coinbase, FeesFit;
    var hist, mined := ActiveHeaders(r, s), WithNonce(blk, nonce);
    ActiveHeadersAre(r, s);
    TemplateFirst(r, s.index[s.tip], bits, s.best + 1, blk, payout, picked, built);
    TemplateCoinbase(blk, payout.script, s.best + 1);
    TemplateOutcome(r, blk, s.best + 1, s.utxo, picked);
    SameTransactions(r, blk, mined, s.best + 1, s.utxo);
    CheckSplit(r, hist, mined, NextWork(r.p, hist, hist[|hist| - 1].bits, mined.header.timestamp), s.utxo, now, skipPow);
    ExtensionIsCheck(r, s, clock, powSkipped, mined, now, skipPow);
  }

  lemma TemplateCoinbase(blk: Block, script: seq<Byte>, height: nat)
    requires blk.transactions != [] && exists inputScript :: blk.transactions[0] == Coinbase(height, inputScript, script)
    ensures blk.transactions[0].IsCoinbase() && |blk.transactions[0].outputs| == 1
    ensures blk.transactions[0].TotalOutputValue() == BlockReward(height)
  {
    hide BlockReward;
    Supply.RewardSmall(height);
    var coinbase := blk.transactions[0];
    assert coinbase.outputs[..0] == [];
    assert OutputSum(coinbase.outputs) == OutputSum(coinbase.outputs[..0]) + coinbase.outputs[0].value;
  }

  /** The fees fit whenever the pooled sums are small and the node's outputs are worth no more than the supply; so with
      these the template is valid, time and proof of work apart. */
  lemma {:induction false} SmallSumsFit(r: Rules, s: State, txs: map<nat, TxEntry>, picked: seq<TxEntry>, blk: Block, payout: Payout, bits: Bits, now: nat)
    requires s.tip in s.index && IsTemplate(r, Some(s.index[s.tip]), bits, s.best + 1, blk, payout, picked, now)
    requires EntriesOk(r.c, txs) && SmallSums(txs) && FromPool(txs, picked)
    requires ApplyAll(r.c, s.utxo, Transactions(picked), Wrap32(s.best + 1), |picked|).failed.None?
    requires blk.transactions != [] && FreshCoinbase(r.c, blk, s.utxo)
    requires Supply.NonNegative(s.utxo) && Supply.TotalValue(s.utxo) <= TOTAL_SUPPLY * SATOSHIS
    ensures FeesFit(r.c, s.utxo, picked, s.best + 1)
  {
    hide IsTemplate, EntriesOk, SmallSums, ApplyAll, FreshCoinbase, Supply.NonNegative, Supply.TotalValue, TransactionsOutcome, TemplateTime,
         FromPool, Coinbase, Supply.SaneBlock, FeesFit;
    TemplateFirst(r, s.index[s.tip], bits, s.best + 1, blk, payout, picked, now);
    TemplateCoinbase(blk, payout.script, s.best + 1);
    var inputScript :| blk.transactions[0] == Coinbase(s.best + 1, inputScript, payout.script);
    TemplateSane(r.c, txs, picked, blk, s.best + 1, inputScript, payout.script);
    TemplateTransactions(r, blk, s.best + 1, s.utxo, Transactions(picked));
    TemplateOutcome(r, blk, s.best + 1, s.utxo, picked);
  }

  /** Main result: a template on any other parent than the tip, or on none, is at no time a valid extension. So with
      the conditions of `TemplateIsValid` the tip's file decides whether the template is one. */
  lemma UnfiledTemplateFails(r: Rules, s: State, clock: nat, powSkipped: bool, parent: Option<Header>, picked: seq<TxEntry>,
                             blk: Block, bits: Bits, height: nat, payout: Payout, built: nat, nonce: Uint32, now: nat, skipPow: bool)
    requires r.c.Sound() && TablesOk(r, s) && UtxoOk(r, s, clock, powSkipped) && s.tip in s.index
    requires IsTemplate(r, parent, bits, height, blk, payout, picked, built) && parent != Some(s.index[s.tip])
    ensures !PathValid(r, ActiveBlocks(r, s) + [WithNonce(blk, nonce)], now, skipPow)
  {
    hide TablesOk, UtxoOk, ActiveHeaders, ActiveBlocks, NextWork, PathValid, CheckBlock, Diagnose, Coinbase, Crypto.MerkleRoot;
    ActiveHeadersAre(r, s);
    ExtensionIsCheck(r, s, clock, powSkipped, WithNonce(blk, nonce), now, skipPow);
    OtherParentFails(r, ActiveHeaders(r, s), parent, WithNonce(blk, nonce), s.utxo, now, skipPow);
  }

  lemma OtherParentFails(r: Rules, hist: seq<Header>, parent: Option<Header>, blk: Block, utxo: UtxoMap, now: nat, skipPow: bool)
    requires r.c.Sound() && hist != [] && parent != Some(hist[|hist| - 1]) && blk.header.prev == ParentLink(r.c, parent)
    ensures !CheckBlock(r, hist, blk, utxo, now, skipPow).Accepted?
  {
    hide IsCanonical, CheckPow, TransactionsOutcome, TimestampValid, ExpectedBits, Crypto.MerkleRoot;
    assert r.c.Link(hist[|hist| - 1]) != 0;
  }

  lemma TemplateBits(r: Rules, tip: Header, bits: Bits, height: nat, blk: Block, payout: Payout, picked: seq<TxEntry>, now: nat)
    requires IsTemplate(r, Some(tip), bits, height, blk, payout, picked, now)
    ensures blk.header.bits == bits
  {
    hide BlockReward, Crypto.MerkleRoot, Crypto.Link;
  }

  lemma SameTransactions(r: Rules, a: Block, b: Block, height: nat, utxo: UtxoMap)
    requires a.transactions == b.transactions && a.transactions != []
    ensures TransactionsOutcome(r, a, height, utxo) == TransactionsOutcome(r, b, height, utxo)
  {
    hide ApplyAll, BlockReward;
  }
}
