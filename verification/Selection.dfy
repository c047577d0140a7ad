/** Choosing pooled transactions for a block: repeated passes in fee order over what does not apply yet. */
module Selection {
  import opened Arith
  import opened Primitives
  import opened Utxo
  import opened PathValidation
  import opened PoolIndexes

  // ---------------------------------------------------------------------------
  // Sets of outputs with less in them
  // ---------------------------------------------------------------------------

  ghost predicate SubMap(a: UtxoMap, b: UtxoMap) {
    forall point :: point in a ==> point in b && a[point] == b[point]
  }

  lemma {:induction false} InputSumMono(a: UtxoMap, b: UtxoMap, inputs: seq<TxIn>, k: nat)
    requires k <= |inputs| && SubMap(a, b) && forall i :: 0 <= i < |inputs| ==> inputs[i].prevout in a
    ensures InputSum(a, inputs, k) == InputSum(b, inputs, k)
  {
    if k != 0 {
      InputSumMono(a, b, inputs, k - 1);
    }
  }

  lemma {:induction false} AddOutputsMono(c: Crypto, a: UtxoMap, b: UtxoMap, tx: Transaction, height: Uint32, k: nat)
    requires k <= |tx.outputs| && SubMap(a, b)
    ensures SubMap(AddOutputs(c, a, tx, height, k), AddOutputs(c, b, tx, height, k))
  {
    if k != 0 {
      AddOutputsMono(c, a, b, tx, height, k - 1);
    }
  }

  lemma InputsMono(c: Crypto, a: UtxoMap, b: UtxoMap, tx: Transaction, height: Uint32)
    requires SubMap(a, b) && InputsOk(c, a, tx, height)
    ensures InputsOk(c, b, tx, height) && forall i :: 0 <= i < |tx.inputs| ==> tx.inputs[i].prevout in a
  {
    forall i | 0 <= i < |tx.inputs|
      ensures InputOk(c, b, tx, height, i) && tx.inputs[i].prevout in a
    {
      assert InputOk(c, a, tx, height, i);
    }
  }

  lemma EraseMono(a: UtxoMap, b: UtxoMap, gone: set<OutPoint>)
    requires SubMap(a, b)
    ensures SubMap(a - gone, b - gone)
  {
  }

  /** What applies to a set of outputs applies, for the same fee, to every larger one. */
  lemma ApplyMono(c: Crypto, a: UtxoMap, b: UtxoMap, tx: Transaction, height: Uint32)
    requires SubMap(a, b) && Apply(c, a, tx, height).ok
    ensures Apply(c, b, tx, height).ok && Apply(c, b, tx, height).fee == Apply(c, a, tx, height).fee
    ensures SubMap(Apply(c, a, tx, height).utxo, Apply(c, b, tx, height).utxo)
  {
    hide SubMap, InputsOk, InputSum, AddOutputs, Prevouts, Wrap64;
    var n := |tx.outputs|;
    if tx.IsCoinbase() {
      AddOutputsMono(c, a, b, tx, height, n);
    } else {
      InputsMono(c, a, b, tx, height);
      InputSumMono(a, b, tx.inputs, |tx.inputs|);
      EraseMono(a, b, Prevouts(tx.inputs));
      AddOutputsMono(c, a - Prevouts(tx.inputs), b - Prevouts(tx.inputs), tx, height, n);
    }
  }

  /** A transaction that fails can only take outputs away, and keeps failing afterwards. */
  lemma FailureShrinks(c: Crypto, utxo: UtxoMap, tx: Transaction, height: Uint32)
    requires !Apply(c, utxo, tx, height).ok
    ensures SubMap(Apply(c, utxo, tx, height).utxo, utxo)
    ensures !Apply(c, Apply(c, utxo, tx, height).utxo, tx, height).ok
  {
    hide InputsOk, InputSum, AddOutputs, Prevouts, Wrap64;
    var after := Apply(c, utxo, tx, height).utxo;
    if Apply(c, after, tx, height).ok {
      ApplyMono(c, after, utxo, tx, height);
    }
  }

  // ---------------------------------------------------------------------------
  // Runs of transactions
  // ---------------------------------------------------------------------------

  lemma {:induction false} ApplyAllPrefix(c: Crypto, utxo: UtxoMap, txs: seq<Transaction>, more: seq<Transaction>, height: Uint32, k: nat)
    requires k <= |txs|
    ensures ApplyAll(c, utxo, txs + more, height, k) == ApplyAll(c, utxo, txs, height, k)
  {
    hide ApplyNext;
    if k != 0 {
      ApplyAllPrefix(c, utxo, txs, more, height, k - 1);
      assert (txs + more)[k - 1] == txs[k - 1];
    }
  }

  lemma ApplyAllSnoc(c: Crypto, utxo: UtxoMap, txs: seq<Transaction>, tx: Transaction, height: Uint32)
    requires ApplyAll(c, utxo, txs, height, |txs|).failed.None?
    ensures ApplyAll(c, utxo, txs + [tx], height, |txs| + 1)
            == ApplyNext(c, ApplyAll(c, utxo, txs, height, |txs|), tx, height, |txs|)
  {
    hide ApplyNext;
    ApplyAllPrefix(c, utxo, txs, [tx], height, |txs|);
    assert (txs + [tx])[|txs|] == tx;
  }

  /** A run that succeeds also succeeds, for the same fees, after a coinbase that only adds new outputs. */
  lemma {:induction false} AfterCoinbase(c: Crypto, utxo: UtxoMap, coinbase: Transaction, txs: seq<Transaction>, height: Uint32, k: nat)
    requires coinbase.IsCoinbase() && k <= |txs| && SubMap(utxo, Apply(c, utxo, coinbase, height).utxo)
    requires ApplyAll(c, utxo, txs, height, k).failed.None?
    ensures ApplyAll(c, utxo, [coinbase] + txs, height, k + 1).failed.None?
    ensures ApplyAll(c, utxo, [coinbase] + txs, height, k + 1).fees == ApplyAll(c, utxo, txs, height, k).fees
    ensures SubMap(ApplyAll(c, utxo, txs, height, k).utxo, ApplyAll(c, utxo, [coinbase] + txs, height, k + 1).utxo)
  {
    hide SubMap, Apply;
    var all := [coinbase] + txs;
    if k == 0 {
      CoinbaseFirst(c, utxo, all, height);
    } else {
      AfterCoinbase(c, utxo, coinbase, txs, height, k - 1);
      assert all[k] == txs[k - 1];
      ApplyMono(c, ApplyAll(c, utxo, txs, height, k - 1).utxo, ApplyAll(c, utxo, all, height, k).utxo, txs[k - 1], height);
    }
  }

  lemma CoinbaseFirst(c: Crypto, utxo: UtxoMap, all: seq<Transaction>, height: Uint32)
    requires all != [] && all[0].IsCoinbase()
    ensures ApplyAll(c, utxo, all, height, 1) == Applied(None, Apply(c, utxo, all[0], height).utxo, 0)
  {
    hide AddOutputs;
    assert ApplyAll(c, utxo, all, height, 0) == Applied(None, utxo, 0);
  }

  // ---------------------------------------------------------------------------
  // Fees under a fixed pricing of outputs
  // ---------------------------------------------------------------------------

  /** The outputs have the values the pricing gives them, and the transaction pays out no more than it spends. */
  ghost predicate TxPriced(c: Crypto, value: OutPoint -> int, tx: Transaction) {
    && (forall j :: 0 <= j < |tx.outputs| ==> value(OutputPoint(c, tx, j)) == tx.outputs[j].value)
    && Wrap64(ValueSum(value, tx.inputs, |tx.inputs|)) >= tx.TotalOutputValue()
  }

  ghost function ValueSum(value: OutPoint -> int, inputs: seq<TxIn>, k: nat): int
    requires k <= |inputs|
  {
    if k == 0 then 0 else ValueSum(value, inputs, k - 1) + value(inputs[k - 1].prevout)
  }

  ghost predicate Valued(value: OutPoint -> int, utxo: UtxoMap) {
    forall point :: point in utxo ==> utxo[point].output.value == value(point)
  }

  lemma {:induction false} ValuedSum(value: OutPoint -> int, utxo: UtxoMap, inputs: seq<TxIn>, k: nat)
    requires k <= |inputs| && Valued(value, utxo) && forall i :: 0 <= i < |inputs| ==> inputs[i].prevout in utxo
    ensures InputSum(utxo, inputs, k) == ValueSum(value, inputs, k)
  {
    if k != 0 {
      ValuedSum(value, utxo, inputs, k - 1);
    }
  }

  /** A priced transaction that fails leaves the outputs alone. */
  lemma PricedFailure(c: Crypto, value: OutPoint -> int, utxo: UtxoMap, tx: Transaction, height: Uint32)
    requires TxPriced(c, value, tx) && Valued(value, utxo) && !Apply(c, utxo, tx, height).ok
    ensures Apply(c, utxo, tx, height).utxo == utxo
  {
    hide Wrap64, InputSum, ValueSum, AddOutputs, Valued;
    if !tx.IsCoinbase() && InputsOk(c, utxo, tx, height) {
      InputsMono(c, utxo, utxo, tx, height) by { SubMapSelf(utxo); }
      ValuedSum(value, utxo, tx.inputs, |tx.inputs|);
    }
  }

  lemma SubMapSelf(utxo: UtxoMap)
    ensures SubMap(utxo, utxo)
  {
  }

  lemma {:induction false} ValuedOutputs(c: Crypto, value: OutPoint -> int, utxo: UtxoMap, tx: Transaction, height: Uint32, k: nat)
    requires k <= |tx.outputs| && Valued(value, utxo) && TxPriced(c, value, tx)
    ensures Valued(value, AddOutputs(c, utxo, tx, height, k))
  {
    hide Wrap64, ValueSum, OutputPoint;
    if k != 0 {
      ValuedOutputs(c, value, utxo, tx, height, k - 1);
    }
  }

  lemma ValuedAfter(c: Crypto, value: OutPoint -> int, utxo: UtxoMap, tx: Transaction, height: Uint32)
    requires Valued(value, utxo) && TxPriced(c, value, tx)
    ensures Valued(value, Apply(c, utxo, tx, height).utxo)
  {
    hide Wrap64, InputSum, AddOutputs, Valued, TxPriced, InputsOk, Prevouts;
    var spent := utxo - Prevouts(tx.inputs);
    assert Valued(value, spent) by { ValuedLess(value, utxo, Prevouts(tx.inputs)); }
    ValuedOutputs(c, value, utxo, tx, height, |tx.outputs|);
    ValuedOutputs(c, value, spent, tx, height, |tx.outputs|);
  }

  lemma ValuedLess(value: OutPoint -> int, utxo: UtxoMap, gone: set<OutPoint>)
    requires Valued(value, utxo)
    ensures Valued(value, utxo - gone)
  {
  }

  /** A pricing of outputs, and whether the starting outputs and all offered transactions keep to it. */
  datatype Pricing = Pricing(value: OutPoint -> int, holds: bool)

  // ---------------------------------------------------------------------------
  // The selection
  // ---------------------------------------------------------------------------

  function Sizes(entries: seq<TxEntry>): nat {
    if entries == [] then 0 else Sizes(entries[..|entries| - 1]) + entries[|entries| - 1].size
  }

  lemma SizesSnoc(entries: seq<TxEntry>, e: TxEntry)
    ensures Sizes(entries + [e]) == Sizes(entries) + e.size
  {
    assert (entries + [e])[..|entries|] == entries;
  }

  function Transactions(entries: seq<TxEntry>): (txs: seq<Transaction>)
    ensures |txs| == |entries|
    ensures forall i :: 0 <= i < |entries| ==> txs[i] == entries[i].tx
  {
    seq(|entries|, i requires 0 <= i < |entries| => entries[i].tx)
  }

  lemma TransactionsSnoc(entries: seq<TxEntry>, e: TxEntry)
    ensures Transactions(entries + [e]) == Transactions(entries) + [e.tx]
  {
  }

  /** Where a selection stands: its transactions apply in order to the starting outputs, the working set
      holds nothing that the real outcome lacks, and is the real outcome when the pricing holds; the bytes
      are counted and within the budget. */
  ghost predicate Chosen(c: Crypto, utxo: UtxoMap, height: Uint32, reserved: nat, budget: nat,
                         picked: seq<TxEntry>, working: UtxoMap, total: nat, pricing: Pricing)
  {
    && ApplyAll(c, utxo, Transactions(picked), height, |picked|).failed.None?
    && SubMap(working, ApplyAll(c, utxo, Transactions(picked), height, |picked|).utxo)
    && (pricing.holds ==>
          Valued(pricing.value, working) && working == ApplyAll(c, utxo, Transactions(picked), height, |picked|).utxo)
    && total == reserved + Sizes(picked)
    && (picked == [] || total <= budget)
  }

  ghost predicate EntryPriced(c: Crypto, pricing: Pricing, e: TxEntry) {
    pricing.holds ==> TxPriced(c, pricing.value, e.tx)
  }

  lemma ChosenStart(c: Crypto, utxo: UtxoMap, height: Uint32, reserved: nat, budget: nat, pricing: Pricing)
    requires pricing.holds ==> Valued(pricing.value, utxo)
    ensures Chosen(c, utxo, height, reserved, budget, [], utxo, reserved, pricing)
  {
  }

  lemma ChosenGrows(c: Crypto, utxo: UtxoMap, height: Uint32, reserved: nat, budget: nat,
                    picked: seq<TxEntry>, working: UtxoMap, total: nat, pricing: Pricing, e: TxEntry)
    requires Chosen(c, utxo, height, reserved, budget, picked, working, total, pricing) && EntryPriced(c, pricing, e)
    requires total + e.size <= budget && Apply(c, working, e.tx, height).ok
    ensures Chosen(c, utxo, height, reserved, budget, picked + [e], Apply(c, working, e.tx, height).utxo, total + e.size, pricing)
  {
    hide SubMap, Apply, ApplyAll, Sizes, Valued, TxPriced;
    var txs := Transactions(picked);
    TransactionsSnoc(picked, e);
    SizesSnoc(picked, e);
    ApplyAllSnoc(c, utxo, txs, e.tx, height);
    ApplyMono(c, working, ApplyAll(c, utxo, txs, height, |txs|).utxo, e.tx, height);
    if pricing.holds { ValuedAfter(c, pricing.value, working, e.tx, height); }
  }

  lemma ChosenFails(c: Crypto, utxo: UtxoMap, height: Uint32, reserved: nat, budget: nat,
                    picked: seq<TxEntry>, working: UtxoMap, total: nat, pricing: Pricing, e: TxEntry)
    requires Chosen(c, utxo, height, reserved, budget, picked, working, total, pricing) && EntryPriced(c, pricing, e)
    requires !Apply(c, working, e.tx, height).ok
    ensures Chosen(c, utxo, height, reserved, budget, picked, Apply(c, working, e.tx, height).utxo, total, pricing)
  {
    hide Apply, ApplyAll, Sizes, Valued, TxPriced;
    FailureShrinks(c, working, e.tx, height);
    if pricing.holds { PricedFailure(c, pricing.value, working, e.tx, height); }
  }

  ghost predicate AllFail(c: Crypto, working: UtxoMap, height: Uint32, entries: seq<TxEntry>) {
    forall i :: 0 <= i < |entries| ==> !Apply(c, working, entries[i].tx, height).ok
  }

  lemma AllFailSnoc(c: Crypto, working: UtxoMap, height: Uint32, entries: seq<TxEntry>, e: TxEntry)
    requires AllFail(c, working, height, entries) && !Apply(c, working, e.tx, height).ok
    ensures AllFail(c, Apply(c, working, e.tx, height).utxo, height, entries + [e])
  {
    hide Apply, SubMap;
    var after := Apply(c, working, e.tx, height).utxo;
    FailureShrinks(c, working, e.tx, height);
    forall i | 0 <= i < |entries| + 1
      ensures !Apply(c, after, (entries + [e])[i].tx, height).ok
    {
      if i < |entries| && Apply(c, after, entries[i].tx, height).ok {
        ApplyMono(c, after, working, entries[i].tx, height);
      }
    }
  }

  // ---------------------------------------------------------------------------
  // Whose turn it is
  // ---------------------------------------------------------------------------

  /** The entry is passed over before pick k: it does not fit any more, or does not apply to what was picked so far. */
  ghost predicate PassedOver(c: Crypto, utxo: UtxoMap, height: Uint32, reserved: nat, budget: nat, picked: seq<TxEntry>, k: nat, e: TxEntry)
    requires k <= |picked|
  {
    || budget < reserved + Sizes(picked[..k]) + e.size
    || !Apply(c, ApplyAll(c, utxo, Transactions(picked), height, k).utxo, e.tx, height).ok
  }

  /** Going round from p, position w comes before position q. */
  predicate Between(p: int, w: int, q: int) {
    if p < q then p < w < q else p < w || w < q
  }

  function PickedAt(at: seq<nat>, k: nat): int
    requires k <= |at|
  {
    if k == 0 then -1 else at[k - 1]
  }

  ghost predicate TurnOf(c: Crypto, utxo: UtxoMap, height: Uint32, reserved: nat, budget: nat,
                         entries: seq<TxEntry>, picked: seq<TxEntry>, at: seq<nat>, k: nat, w: nat)
    requires k < |at| == |picked| && w < |entries|
  {
    Between(PickedAt(at, k), w, at[k]) ==> w in at[..k] || PassedOver(c, utxo, height, reserved, budget, picked, k, entries[w])
  }

  /** The picks in order, with their positions among the entries: going round from the pick before, each is the first entry
      that is not picked yet, still fits, and applies to what was picked so far. */
  ghost predicate InTurn(c: Crypto, utxo: UtxoMap, height: Uint32, reserved: nat, budget: nat,
                         entries: seq<TxEntry>, picked: seq<TxEntry>, at: seq<nat>)
  {
    && |at| == |picked| && Distinct(at) && (forall k :: 0 <= k < |at| ==> at[k] < |entries| && entries[at[k]] == picked[k])
    && forall k, w :: 0 <= k < |at| && 0 <= w < |entries| ==> TurnOf(c, utxo, height, reserved, budget, entries, picked, at, k, w)
  }

  /** Positions that were looked at since the last pick. */
  predicate Looked(at: seq<nat>, wrapped: bool, cursor: nat, w: nat) {
    if wrapped then PickedAt(at, |at|) < w || w < cursor else PickedAt(at, |at|) < w < cursor
  }

  /** What was looked at since the last pick is picked or passed over. */
  ghost predicate Turns(c: Crypto, utxo: UtxoMap, height: Uint32, reserved: nat, budget: nat,
                        entries: seq<TxEntry>, picked: seq<TxEntry>, at: seq<nat>, wrapped: bool, cursor: nat)
  {
    && InTurn(c, utxo, height, reserved, budget, entries, picked, at)
    && (!wrapped ==> PickedAt(at, |at|) < cursor)
    && forall w :: 0 <= w < |entries| && Looked(at, wrapped, cursor, w) ==>
         w in at || PassedOver(c, utxo, height, reserved, budget, picked, |picked|, entries[w])
  }

  /** The cursor moves over entries that are picked or do not fit. */
  lemma TurnsMove(c: Crypto, utxo: UtxoMap, height: Uint32, reserved: nat, budget: nat,
                  entries: seq<TxEntry>, picked: seq<TxEntry>, at: seq<nat>, wrapped: bool, cursor: nat, to: nat)
    requires Turns(c, utxo, height, reserved, budget, entries, picked, at, wrapped, cursor) && cursor <= to <= |entries|
    requires forall w :: cursor <= w < to ==>
               w in at || PassedOver(c, utxo, height, reserved, budget, picked, |picked|, entries[w])
    ensures Turns(c, utxo, height, reserved, budget, entries, picked, at, wrapped, to)
  {
    hide PassedOver, InTurn;
  }

  /** Earlier turns are not affected by another pick. */
  lemma PassedOverBefore(c: Crypto, utxo: UtxoMap, height: Uint32, reserved: nat, budget: nat,
                         picked: seq<TxEntry>, more: TxEntry, k: nat, e: TxEntry)
    requires k <= |picked|
    ensures PassedOver(c, utxo, height, reserved, budget, picked + [more], k, e)
            <==> PassedOver(c, utxo, height, reserved, budget, picked, k, e)
  {
    hide Apply, ApplyAll, Sizes;
    assert (picked + [more])[..k] == picked[..k];
    TransactionsSnoc(picked, more);
    ApplyAllPrefix(c, utxo, Transactions(picked), [more.tx], height, k);
  }

  lemma TurnsPick(c: Crypto, utxo: UtxoMap, height: Uint32, reserved: nat, budget: nat,
                  entries: seq<TxEntry>, picked: seq<TxEntry>, at: seq<nat>, wrapped: bool, q: nat)
    requires Turns(c, utxo, height, reserved, budget, entries, picked, at, wrapped, q) && q < |entries| && q !in at
    ensures Turns(c, utxo, height, reserved, budget, entries, picked + [entries[q]], at + [q], false, q + 1)
  {
    hide PassedOver;
    var more, at' := picked + [entries[q]], at + [q];
    forall k, w | 0 <= k < |at'| && 0 <= w < |entries|
      ensures TurnOf(c, utxo, height, reserved, budget, entries, more, at', k, w)
    {
      PassedOverBefore(c, utxo, height, reserved, budget, picked, entries[q], k, entries[w]);
      if k < |at| {
        assert at'[..k] == at[..k] && PickedAt(at', k) == PickedAt(at, k);
        assert TurnOf(c, utxo, height, reserved, budget, entries, picked, at, k, w);
      } else {
        assert at'[..k] == at;
      }
    }
  }

  lemma TurnsWrap(c: Crypto, utxo: UtxoMap, height: Uint32, reserved: nat, budget: nat,
                  entries: seq<TxEntry>, picked: seq<TxEntry>, at: seq<nat>)
    requires Turns(c, utxo, height, reserved, budget, entries, picked, at, false, |entries|)
    ensures Turns(c, utxo, height, reserved, budget, entries, picked, at, true, 0)
  {
    hide PassedOver, InTurn;
  }

  lemma TurnsStart(c: Crypto, utxo: UtxoMap, height: Uint32, reserved: nat, budget: nat, entries: seq<TxEntry>)
    ensures Turns(c, utxo, height, reserved, budget, entries, [], [], false, 0)
  {
  }

  /** The listed entries stand at these rising positions, none of which is picked. */
  ghost predicate Placed(entries: seq<TxEntry>, list: seq<TxEntry>, where: seq<nat>, at: seq<nat>) {
    && |where| == |list| && (forall i :: 0 <= i < |where| ==> where[i] < |entries| && entries[where[i]] == list[i] && where[i] !in at)
    && forall i, j :: 0 <= i < j < |where| ==> where[i] < where[j]
  }

  /** How a pass stands: what was put back comes before the cursor, what is still to come from there on, and everything
      else is picked or does not fit any more. */
  ghost predicate Standing(c: Crypto, utxo: UtxoMap, height: Uint32, reserved: nat, budget: nat, entries: seq<TxEntry>,
                           picked: seq<TxEntry>, at: seq<nat>, wrapped: bool, cursor: nat,
                           rest: seq<TxEntry>, back: seq<nat>, todo: seq<TxEntry>, ahead: seq<nat>)
  {
    && Turns(c, utxo, height, reserved, budget, entries, picked, at, wrapped, cursor)
    && Placed(entries, rest, back, at) && (forall i :: 0 <= i < |back| ==> back[i] < cursor)
    && Placed(entries, todo, ahead, at) && (forall i :: 0 <= i < |ahead| ==> cursor <= ahead[i])
    && cursor <= |entries|
    && forall w :: 0 <= w < |entries| ==>
         w in at || w in back || w in ahead || budget < reserved + Sizes(picked) + entries[w].size
  }

  /** The cursor comes to the next pending entry. */
  lemma StandNext(c: Crypto, utxo: UtxoMap, height: Uint32, reserved: nat, budget: nat, entries: seq<TxEntry>,
                  picked: seq<TxEntry>, at: seq<nat>, wrapped: bool, cursor: nat,
                  rest: seq<TxEntry>, back: seq<nat>, todo: seq<TxEntry>, ahead: seq<nat>)
    requires Standing(c, utxo, height, reserved, budget, entries, picked, at, wrapped, cursor, rest, back, todo, ahead)
    ensures var to := if todo == [] then |entries| else ahead[0];
            && cursor <= to <= |entries|
            && Turns(c, utxo, height, reserved, budget, entries, picked, at, wrapped, to)
  {
    hide Turns, Apply, ApplyAll, Sizes;
    var to := if todo == [] then |entries| else ahead[0];
    assert picked[..|picked|] == picked;
    forall w | cursor <= w < to
      ensures w in at || PassedOver(c, utxo, height, reserved, budget, picked, |picked|, entries[w])
    {
      assert w !in back;
      assert w !in ahead;
    }
    TurnsMove(c, utxo, height, reserved, budget, entries, picked, at, wrapped, cursor, to);
  }

  lemma FirstAhead(entries: seq<TxEntry>, todo: seq<TxEntry>, ahead: seq<nat>, at: seq<nat>)
    requires Placed(entries, todo, ahead, at) && todo != []
    ensures ahead[0] < |entries| && entries[ahead[0]] == todo[0] && ahead[0] !in at
    ensures Placed(entries, todo[1..], ahead[1..], at + [ahead[0]]) && Placed(entries, todo[1..], ahead[1..], at)
    ensures forall i :: 0 <= i < |ahead[1..]| ==> ahead[0] + 1 <= ahead[1..][i]
  {
  }

  /** An entry that does not fit is dropped; one that does not apply is put back. */
  lemma StandPast(c: Crypto, utxo: UtxoMap, height: Uint32, reserved: nat, budget: nat, entries: seq<TxEntry>,
                  picked: seq<TxEntry>, at: seq<nat>, wrapped: bool, cursor: nat,
                  rest: seq<TxEntry>, back: seq<nat>, todo: seq<TxEntry>, ahead: seq<nat>, drop: bool)
    requires Standing(c, utxo, height, reserved, budget, entries, picked, at, wrapped, cursor, rest, back, todo, ahead) && todo != []
    requires if drop then budget < reserved + Sizes(picked) + todo[0].size
             else !Apply(c, ApplyAll(c, utxo, Transactions(picked), height, |picked|).utxo, todo[0].tx, height).ok
    ensures Standing(c, utxo, height, reserved, budget, entries, picked, at, wrapped, ahead[0] + 1,
                     if drop then rest else rest + [todo[0]], if drop then back else back + [ahead[0]], todo[1..], ahead[1..])
  {
    hide Turns, Apply, ApplyAll, Sizes;
    var q := ahead[0];
    StandNext(c, utxo, height, reserved, budget, entries, picked, at, wrapped, cursor, rest, back, todo, ahead);
    FirstAhead(entries, todo, ahead, at);
    assert picked[..|picked|] == picked;
    assert PassedOver(c, utxo, height, reserved, budget, picked, |picked|, entries[q]);
    TurnsMove(c, utxo, height, reserved, budget, entries, picked, at, wrapped, q, q + 1);
    assert ahead == [q] + ahead[1..];
  }

  /** An entry that applies is picked. */
  lemma StandPick(c: Crypto, utxo: UtxoMap, height: Uint32, reserved: nat, budget: nat, entries: seq<TxEntry>,
                  picked: seq<TxEntry>, at: seq<nat>, wrapped: bool, cursor: nat,
                  rest: seq<TxEntry>, back: seq<nat>, todo: seq<TxEntry>, ahead: seq<nat>)
    requires Standing(c, utxo, height, reserved, budget, entries, picked, at, wrapped, cursor, rest, back, todo, ahead) && todo != []
    ensures Standing(c, utxo, height, reserved, budget, entries, picked + [todo[0]], at + [ahead[0]], false, ahead[0] + 1,
                     rest, back, todo[1..], ahead[1..])
  {
    hide Turns, Apply, ApplyAll, Sizes;
    var q := ahead[0];
    StandNext(c, utxo, height, reserved, budget, entries, picked, at, wrapped, cursor, rest, back, todo, ahead);
    FirstAhead(entries, todo, ahead, at);
    TurnsPick(c, utxo, height, reserved, budget, entries, picked, at, wrapped, q);
    SizesSnoc(picked, todo[0]);
    assert ahead == [q] + ahead[1..];
  }

  /** At the end of a pass what was put back is up again. */
  lemma StandAgain(c: Crypto, utxo: UtxoMap, height: Uint32, reserved: nat, budget: nat, entries: seq<TxEntry>,
                   picked: seq<TxEntry>, at: seq<nat>, cursor: nat, rest: seq<TxEntry>, back: seq<nat>)
    requires Standing(c, utxo, height, reserved, budget, entries, picked, at, false, cursor, rest, back, [], [])
    ensures Standing(c, utxo, height, reserved, budget, entries, picked, at, true, 0, [], [], rest, back)
  {
    hide Turns, Apply, ApplyAll, Sizes;
    StandNext(c, utxo, height, reserved, budget, entries, picked, at, false, cursor, rest, back, [], []);
    TurnsWrap(c, utxo, height, reserved, budget, entries, picked, at);
  }

  lemma StandStart(c: Crypto, utxo: UtxoMap, height: Uint32, reserved: nat, budget: nat, entries: seq<TxEntry>) returns (ahead: seq<nat>)
    ensures Standing(c, utxo, height, reserved, budget, entries, [], [], false, 0, [], [], entries, ahead)
  {
    hide Turns, Sizes;
    TurnsStart(c, utxo, height, reserved, budget, entries);
    ahead := seq(|entries|, i requires 0 <= i < |entries| => i);
    forall w | 0 <= w < |entries|
      ensures w in ahead
    {
      assert ahead[w] == w;
    }
  }

  lemma StandInTurn(c: Crypto, utxo: UtxoMap, height: Uint32, reserved: nat, budget: nat, entries: seq<TxEntry>,
                    picked: seq<TxEntry>, at: seq<nat>, wrapped: bool, cursor: nat,
                    rest: seq<TxEntry>, back: seq<nat>, todo: seq<TxEntry>, ahead: seq<nat>)
    requires Standing(c, utxo, height, reserved, budget, entries, picked, at, wrapped, cursor, rest, back, todo, ahead)
    ensures InTurn(c, utxo, height, reserved, budget, entries, picked, at)
  {
    hide PassedOver, Sizes, InTurn;
  }

  /** Nothing is chosen or kept pending more often than it was offered. */
  ghost predicate Drawn(picked: seq<TxEntry>, rest: seq<TxEntry>, earlier: seq<TxEntry>, offered: seq<TxEntry>) {
    && multiset(picked) + multiset(rest) <= multiset(earlier) + multiset(offered)
    && forall e :: e in rest ==> e in offered
  }

  lemma DrawnSnoc(picked: seq<TxEntry>, rest: seq<TxEntry>, earlier: seq<TxEntry>, offered: seq<TxEntry>, e: TxEntry)
    requires Drawn(picked, rest, earlier, offered)
    ensures Drawn(picked, rest, earlier, offered + [e])
    ensures Drawn(picked + [e], rest, earlier, offered + [e])
    ensures Drawn(picked, rest + [e], earlier, offered + [e])
  {
  }

  /** The entry was left pending, chosen, or does not fit. */
  ghost predicate Accounted(e: TxEntry, rest: seq<TxEntry>, picked: seq<TxEntry>, total: nat, budget: nat) {
    e in rest || e in picked || budget < total + e.size
  }

  /** Where the round stands between passes: the picks' positions and those of what is pending. */
  datatype Round = Round(entries: seq<TxEntry>, at: seq<nat>, wrapped: bool, ahead: seq<nat>)

  ghost predicate RoundOk(c: Crypto, utxo: UtxoMap, height: Uint32, reserved: nat, budget: nat, picked: seq<TxEntry>, pending: seq<TxEntry>,
                          round: Round)
  {
    Standing(c, utxo, height, reserved, budget, round.entries, picked, round.at, round.wrapped, 0, [], [], pending, round.ahead)
  }

  /** One step of a pass, as the turns see it. */
  lemma StandStep(c: Crypto, utxo: UtxoMap, height: Uint32, reserved: nat, budget: nat, entries: seq<TxEntry>,
                  picked: seq<TxEntry>, working: UtxoMap, total: nat, pricing: Pricing, at: seq<nat>, wrapped: bool, cursor: nat,
                  rest: seq<TxEntry>, back: seq<nat>, todo: seq<TxEntry>, ahead: seq<nat>)
    requires Chosen(c, utxo, height, reserved, budget, picked, working, total, pricing) && pricing.holds && todo != []
    requires Standing(c, utxo, height, reserved, budget, entries, picked, at, wrapped, cursor, rest, back, todo, ahead)
    ensures |ahead| == |todo|
    ensures budget < total + todo[0].size ==>
              Standing(c, utxo, height, reserved, budget, entries, picked, at, wrapped, ahead[0] + 1, rest, back, todo[1..], ahead[1..])
    ensures !Apply(c, working, todo[0].tx, height).ok ==>
              Standing(c, utxo, height, reserved, budget, entries, picked, at, wrapped, ahead[0] + 1, rest + [todo[0]], back + [ahead[0]],
                       todo[1..], ahead[1..])
    ensures Standing(c, utxo, height, reserved, budget, entries, picked + [todo[0]], at + [ahead[0]], false, ahead[0] + 1, rest, back,
                     todo[1..], ahead[1..])
  {
    hide Standing, Apply, ApplyAll, Sizes, SubMap, Valued;
    StandPick(c, utxo, height, reserved, budget, entries, picked, at, wrapped, cursor, rest, back, todo, ahead);
    if budget < total + todo[0].size {
      StandPast(c, utxo, height, reserved, budget, entries, picked, at, wrapped, cursor, rest, back, todo, ahead, true);
    }
    if !Apply(c, working, todo[0].tx, height).ok {
      StandPast(c, utxo, height, reserved, budget, entries, picked, at, wrapped, cursor, rest, back, todo, ahead, false);
    }
    AheadCounts(c, utxo, height, reserved, budget, entries, picked, at, wrapped, cursor, rest, back, todo, ahead);
  }

  lemma AheadCounts(c: Crypto, utxo: UtxoMap, height: Uint32, reserved: nat, budget: nat, entries: seq<TxEntry>,
                    picked: seq<TxEntry>, at: seq<nat>, wrapped: bool, cursor: nat,
                    rest: seq<TxEntry>, back: seq<nat>, todo: seq<TxEntry>, ahead: seq<nat>)
    requires Standing(c, utxo, height, reserved, budget, entries, picked, at, wrapped, cursor, rest, back, todo, ahead)
    ensures |ahead| == |todo|
  {
    hide Turns, Sizes;
  }

  /** One pass over the pending entries: what does not fit is dropped, what applies is chosen, the rest
      stays pending. Without progress everything that stays fails on the working set. */
  method Pass(c: Crypto, pending: seq<TxEntry>, working: UTXOSet, height: Uint32, budget: nat, before: nat,
              earlier: seq<TxEntry>, ghost utxo: UtxoMap, ghost reserved: nat, ghost pricing: Pricing, ghost round: Round)
    returns (picked: seq<TxEntry>, rest: seq<TxEntry>, total: nat, progress: bool, ghost next: Round)
    requires Chosen(c, utxo, height, reserved, budget, earlier, working.entries, before, pricing)
    requires forall i :: 0 <= i < |pending| ==> EntryPriced(c, pricing, pending[i])
    requires pricing.holds ==> RoundOk(c, utxo, height, reserved, budget, earlier, pending, round)
    modifies working
    ensures Chosen(c, utxo, height, reserved, budget, picked, working.entries, total, pricing) && before <= total
    ensures earlier <= picked && Drawn(picked, rest, earlier, pending)
    ensures forall i :: 0 <= i < |pending| ==> Accounted(pending[i], rest, picked, total, budget)
    ensures !progress ==> AllFail(c, working.entries, height, rest)
    ensures progress ==> |rest| < |pending|
    ensures next.entries == round.entries
    ensures pricing.holds ==>
              if progress then RoundOk(c, utxo, height, reserved, budget, picked, rest, next)
              else InTurn(c, utxo, height, reserved, budget, next.entries, picked, next.at)
  {
    hide Chosen, Apply, AllFail, Drawn, EntryPriced, Standing, InTurn;
    picked, rest, total, progress := earlier, [], before, false;
    ghost var at, wrapped, cursor: nat, back, ahead := round.at, round.wrapped, 0, [], round.ahead;
    assert pending[0..] == pending;
    NothingFails(c, working.entries, height);
    NothingDrawn(earlier);
    assert pending[..0] == [];
    for k := 0 to |pending|
      invariant Chosen(c, utxo, height, reserved, budget, picked, working.entries, total, pricing) && before <= total
      invariant earlier <= picked && Drawn(picked, rest, earlier, pending[..k])
      invariant forall i :: 0 <= i < k ==> Accounted(pending[i], rest, picked, total, budget)
      invariant !progress ==> AllFail(c, working.entries, height, rest)
      invariant |rest| <= k && (progress ==> |rest| < k && !wrapped)
      invariant pricing.holds ==>
                  Standing(c, utxo, height, reserved, budget, round.entries, picked, at, wrapped, cursor, rest, back, pending[k..], ahead)
    {
      var e := pending[k];
      assert pending[k..][0] == e && pending[k..][1..] == pending[k + 1..];
      if pricing.holds {
        StandStep(c, utxo, height, reserved, budget, round.entries, picked, working.entries, total, pricing, at, wrapped, cursor, rest, back,
                  pending[k..], ahead);
      }
      assert pending[..k + 1] == pending[..k] + [e];
      DrawnSnoc(picked, rest, earlier, pending[..k], e);
      if total + e.size <= budget {
        ghost var set0 := working.entries;
        var ok, _ := working.ApplyTransaction(c, e.tx, height);
        if ok {
          ChosenGrows(c, utxo, height, reserved, budget, picked, set0, total, pricing, e);
          picked, total, progress := picked + [e], total + e.size, true;
          at, wrapped := if pricing.holds then at + [ahead[0]] else at, false;
        } else {
          ChosenFails(c, utxo, height, reserved, budget, picked, set0, total, pricing, e);
          if !progress { AllFailSnoc(c, set0, height, rest, e); }
          rest := rest + [e];
          back := if pricing.holds then back + [ahead[0]] else back;
        }
      }
      if pricing.holds {
        cursor, ahead := ahead[0] + 1, ahead[1..];
      }
    }
    assert pending[..|pending|] == pending;
    assert pending[|pending|..] == [];
    next := Round(round.entries, at, true, back);
    if pricing.holds {
      AheadCounts(c, utxo, height, reserved, budget, round.entries, picked, at, wrapped, cursor, rest, back, [], ahead);
      assert ahead == [];
      StandInTurn(c, utxo, height, reserved, budget, round.entries, picked, at, wrapped, cursor, rest, back, [], []);
      if progress {
        StandAgain(c, utxo, height, reserved, budget, round.entries, picked, at, cursor, rest, back);
      }
    }
  }

  lemma NothingFails(c: Crypto, working: UtxoMap, height: Uint32)
    ensures AllFail(c, working, height, [])
  {
  }

  lemma NothingDrawn(earlier: seq<TxEntry>)
    ensures Drawn(earlier, [], earlier, [])
  {
  }

  /** Main result: the chosen transactions apply in order to the given outputs and stay in the byte budget,
      each entry is chosen at most once, and every other entry either does not fit any more or fails on the
      final working set. An entry that claims more than it spends may cost others their inputs in the
      working set, but never makes the chosen transactions wrong; when no entry does so under a fixed
      pricing of outputs, the working set is the outcome of the chosen transactions, and the choice is determined: going
      round the entries from the one chosen last, the next is always the first that is left, fits and applies. */
  method SelectMineable(c: Crypto, entries: seq<TxEntry>, utxo: UTXOSet, height: Uint32, budget: nat, reserved: nat, ghost pricing: Pricing)
    returns (picked: seq<TxEntry>, ghost working: UtxoMap, ghost at: seq<nat>)
    requires pricing.holds ==> Valued(pricing.value, utxo.entries)
    requires forall i :: 0 <= i < |entries| ==> EntryPriced(c, pricing, entries[i])
    ensures pricing.holds ==> InTurn(c, utxo.entries, height, reserved, budget, entries, picked, at)
    ensures Chosen(c, utxo.entries, height, reserved, budget, picked, working, reserved + Sizes(picked), pricing)
    ensures multiset(picked) <= multiset(entries)
    ensures forall i :: 0 <= i < |entries| ==>
              || entries[i] in picked
              || budget < reserved + Sizes(picked) + entries[i].size
              || !Apply(c, working, entries[i].tx, height).ok
  {
    hide Chosen, Apply, AllFail, Drawn, EntryPriced, Sizes, RoundOk, InTurn;
    var snapshot := utxo.Snapshot();
    var pending, total: nat := entries, reserved;
    picked := [];
    ChosenStart(c, utxo.entries, height, reserved, budget, pricing);
    NothingLeft(entries);
    ghost var ahead := StandStart(c, utxo.entries, height, reserved, budget, entries);
    ghost var round := Round(entries, [], false, ahead);
    RoundStarts(c, utxo.entries, height, reserved, budget, round);
    while pending != []
      invariant fresh(snapshot)
      invariant Chosen(c, utxo.entries, height, reserved, budget, picked, snapshot.entries, total, pricing)
      invariant Drawn(picked, pending, [], entries)
      invariant forall i :: 0 <= i < |entries| ==> Accounted(entries[i], pending, picked, total, budget)
      invariant round.entries == entries && (pricing.holds ==> RoundOk(c, utxo.entries, height, reserved, budget, picked, pending, round))
      decreases |pending|
    {
      ghost var earlier, offered := picked, pending;
      OfferedPriced(c, pricing, picked, pending, entries);
      var rest, progress;
      picked, rest, total, progress, round := Pass(c, pending, snapshot, height, budget, total, picked, utxo.entries, reserved, pricing, round);
      DrawnAgain(picked, rest, earlier, offered, entries);
      if !progress {
        ChosenTotal(c, utxo.entries, height, reserved, budget, picked, snapshot.entries, total, pricing);
        RestFails(c, snapshot.entries, height, rest);
        DrawnEnds(picked, rest, entries);
        return picked, snapshot.entries, round.at;
      }
      pending := rest;
    }
    ChosenTotal(c, utxo.entries, height, reserved, budget, picked, snapshot.entries, total, pricing);
    DrawnEnds(picked, pending, entries);
    working, at := snapshot.entries, round.at;
    if pricing.holds {
      RoundInTurn(c, utxo.entries, height, reserved, budget, picked, pending, round);
    }
  }

  lemma RoundStarts(c: Crypto, utxo: UtxoMap, height: Uint32, reserved: nat, budget: nat, round: Round)
    requires round.at == [] && !round.wrapped
    requires Standing(c, utxo, height, reserved, budget, round.entries, [], [], false, 0, [], [], round.entries, round.ahead)
    ensures RoundOk(c, utxo, height, reserved, budget, [], round.entries, round)
  {
    hide Standing;
  }

  lemma RoundInTurn(c: Crypto, utxo: UtxoMap, height: Uint32, reserved: nat, budget: nat, picked: seq<TxEntry>, pending: seq<TxEntry>,
                    round: Round)
    requires RoundOk(c, utxo, height, reserved, budget, picked, pending, round)
    ensures InTurn(c, utxo, height, reserved, budget, round.entries, picked, round.at)
  {
    hide Standing, InTurn;
    StandInTurn(c, utxo, height, reserved, budget, round.entries, picked, round.at, round.wrapped, 0, [], [], pending, round.ahead);
  }

  lemma NothingLeft(entries: seq<TxEntry>)
    ensures Drawn([], entries, [], entries)
  {
  }

  lemma OfferedPriced(c: Crypto, pricing: Pricing, picked: seq<TxEntry>, pending: seq<TxEntry>, entries: seq<TxEntry>)
    requires Drawn(picked, pending, [], entries) && forall i :: 0 <= i < |entries| ==> EntryPriced(c, pricing, entries[i])
    ensures forall i :: 0 <= i < |pending| ==> EntryPriced(c, pricing, pending[i])
  {
    hide EntryPriced;
    forall i | 0 <= i < |pending|
      ensures EntryPriced(c, pricing, pending[i])
    {
      assert pending[i] in entries;
    }
  }

  lemma DrawnAgain(picked: seq<TxEntry>, rest: seq<TxEntry>, earlier: seq<TxEntry>, offered: seq<TxEntry>, entries: seq<TxEntry>)
    requires Drawn(earlier, offered, [], entries) && Drawn(picked, rest, earlier, offered)
    ensures Drawn(picked, rest, [], entries)
  {
  }

  lemma DrawnEnds(picked: seq<TxEntry>, rest: seq<TxEntry>, entries: seq<TxEntry>)
    requires Drawn(picked, rest, [], entries)
    ensures multiset(picked) <= multiset(entries)
  {
    var none: seq<TxEntry> := [];
    assert multiset(none) == multiset{};
    assert multiset(picked) <= multiset(picked) + multiset(rest);
  }

  lemma ChosenTotal(c: Crypto, utxo: UtxoMap, height: Uint32, reserved: nat, budget: nat,
                    picked: seq<TxEntry>, working: UtxoMap, total: nat, pricing: Pricing)
    requires Chosen(c, utxo, height, reserved, budget, picked, working, total, pricing)
    ensures total == reserved + Sizes(picked)
  {
    hide ApplyAll;
  }

  lemma RestFails(c: Crypto, working: UtxoMap, height: Uint32, rest: seq<TxEntry>)
    requires AllFail(c, working, height, rest)
    ensures forall e :: e in rest ==> !Apply(c, working, e.tx, height).ok
  {
    hide Apply;
  }
}
