/** The decision about a transaction offered to the memory pool. */
module Admission {
  import opened Arith
  import opened Primitives
  import opened Utxo
  import opened PoolIndexes

  const MAX_STANDARD_TX_SIZE_BYTES: nat := 100_000
  const MAX_STANDARD_TX_INPUTS: nat := 128
  const MAX_STANDARD_TX_OUTPUTS: nat := 128
  const MAX_STANDARD_SCRIPTSIG_BYTES: nat := 1650
  const MAX_OP_RETURN_BYTES: nat := 256
  const DUST_LIMIT_SATS: nat := 546
  const OP_RETURN: seq<Byte> := Ascii("OP_RETURN:")

  datatype AcceptStatus = Pooled | Duplicate | Conflict | MissingInputs | Invalid | NonStandard | LowFee | PoolFull

  /** Hash functions, and which output scripts are addresses. */
  datatype Policy = Policy(c: Crypto, isAddress: seq<Byte> -> bool)

  // ---------------------------------------------------------------------------
  // Specification
  // ---------------------------------------------------------------------------

  predicate Basic(tx: Transaction) {
    && tx.outputs != []
    && (tx.IsCoinbase() || tx.inputs != [])
    && forall i :: 0 <= i < |tx.outputs| ==> 0 <= tx.outputs[i].value
  }

  predicate InputStandard(txIn: TxIn) {
    0 < |txIn.scriptSig| <= MAX_STANDARD_SCRIPTSIG_BYTES
  }

  predicate OutputStandard(q: Policy, out: TxOut) {
    if OP_RETURN <= out.script then out.value == 0 && |out.script| <= MAX_OP_RETURN_BYTES
    else q.isAddress(out.script) && DUST_LIMIT_SATS <= out.value
  }

  /** Small enough, plausible inputs, and outputs that pay addresses at least the dust limit, with at most
      one data output. */
  predicate Standard(q: Policy, tx: Transaction, size: nat) {
    && size <= MAX_STANDARD_TX_SIZE_BYTES
    && |tx.inputs| <= MAX_STANDARD_TX_INPUTS && |tx.outputs| <= MAX_STANDARD_TX_OUTPUTS
    && (forall i :: 0 <= i < |tx.inputs| ==> InputStandard(tx.inputs[i]))
    && (forall i :: 0 <= i < |tx.outputs| ==> OutputStandard(q, tx.outputs[i]))
    && forall i, j :: 0 <= i < j < |tx.outputs| ==> !(OP_RETURN <= tx.outputs[i].script && OP_RETURN <= tx.outputs[j].script)
  }

  /** Where an input comes from: the unspent outputs first, then the outputs of a pooled transaction. */
  datatype Source = Found(entry: Entry) | BadIndex | Unknown

  function SourceOf(txs: map<nat, TxEntry>, utxo: UtxoMap, height: Uint32, point: OutPoint): Source {
    if point in utxo then Found(utxo[point])
    else if point.txHash !in txs then Unknown
    else
      var parent := txs[point.txHash].tx;
      if |parent.outputs| <= point.index then BadIndex
      else Found(Entry(parent.outputs[point.index], height, parent.IsCoinbase()))
  }

  predicate Repeated(inputs: seq<TxIn>, i: nat)
    requires i < |inputs|
  {
    exists j :: 0 <= j < i && inputs[j].prevout == inputs[i].prevout
  }

  /** What is wrong with input i on its own. */
  function InputFault(txs: map<nat, TxEntry>, utxo: UtxoMap, height: Uint32, inputs: seq<TxIn>, i: nat): Option<AcceptStatus>
    requires i < |inputs|
  {
    if Repeated(inputs, i) then Some(Conflict)
    else if SourceOf(txs, utxo, height, inputs[i].prevout).BadIndex? then Some(Invalid)
    else None
  }

  /** The fault of the first faulty input from i on. */
  function FirstFault(txs: map<nat, TxEntry>, utxo: UtxoMap, height: Uint32, inputs: seq<TxIn>, i: nat): (fault: Option<AcceptStatus>)
    requires i <= |inputs|
    ensures fault.None? <==> forall j :: i <= j < |inputs| ==> InputFault(txs, utxo, height, inputs, j).None?
    ensures fault.Some? ==> fault.value == Conflict || fault.value == Invalid
    decreases |inputs| - i
  {
    if i == |inputs| then None
    else if InputFault(txs, utxo, height, inputs, i).Some? then InputFault(txs, utxo, height, inputs, i)
    else FirstFault(txs, utxo, height, inputs, i + 1)
  }

  function SourceValue(txs: map<nat, TxEntry>, utxo: UtxoMap, height: Uint32, point: OutPoint): int {
    var source := SourceOf(txs, utxo, height, point);
    if source.Found? then source.entry.output.value else 0
  }

  function SourceSum(txs: map<nat, TxEntry>, utxo: UtxoMap, height: Uint32, inputs: seq<TxIn>, k: nat): int
    requires k <= |inputs|
  {
    if k == 0 then 0 else SourceSum(txs, utxo, height, inputs, k - 1) + SourceValue(txs, utxo, height, inputs[k - 1].prevout)
  }

  /** The transactions, neither confirmed nor pooled, that the first k inputs refer to. */
  function Missing(txs: map<nat, TxEntry>, utxo: UtxoMap, height: Uint32, inputs: seq<TxIn>, k: nat): set<nat>
    requires k <= |inputs|
  {
    set i | 0 <= i < k && SourceOf(txs, utxo, height, inputs[i].prevout).Unknown? :: inputs[i].prevout.txHash
  }

  /** An input is signed for the output it spends, and a coinbase output is mature in the next block. */
  predicate Spendable(c: Crypto, txs: map<nat, TxEntry>, utxo: UtxoMap, height: Uint32, tx: Transaction, i: nat)
    requires i < |tx.inputs|
  {
    var source := SourceOf(txs, utxo, height, tx.inputs[i].prevout);
    && source.Found?
    && 65 <= |tx.inputs[i].scriptSig|
    && c.authorized(tx, i, source.entry.output.script)
    && !(source.entry.coinbase && height + 1 < source.entry.height + COINBASE_MATURITY)
  }

  predicate AllSpendable(c: Crypto, txs: map<nat, TxEntry>, utxo: UtxoMap, height: Uint32, tx: Transaction) {
    forall i :: 0 <= i < |tx.inputs| ==> Spendable(c, txs, utxo, height, tx, i)
  }

  datatype Assessment = Rejected(status: AcceptStatus) | Waiting(missing: set<nat>) | Fit(fee: Int64)

  predicate Conflicts(spent: map<OutPoint, nat>, inputs: seq<TxIn>) {
    exists i :: 0 <= i < |inputs| && inputs[i].prevout in spent
  }

  /** The decision before the inputs are looked up. */
  function Screen(q: Policy, txs: map<nat, TxEntry>, orphans: map<nat, OrphanEntry>, spent: map<OutPoint, nat>,
                  tx: Transaction): Option<AcceptStatus>
  {
    var id, size := q.c.txid(tx), q.c.txSize(tx);
    if !Basic(tx) || tx.IsCoinbase() then Some(Invalid)
    else if id in txs || id in orphans then Some(Duplicate)
    else if !Standard(q, tx, size) then Some(NonStandard)
    else if Conflicts(spent, tx.inputs) then Some(Conflict)
    else None
  }

  /** The decision once all inputs are found. */
  function Price(q: Policy, txs: map<nat, TxEntry>, utxo: UtxoMap, height: Uint32, tx: Transaction): Assessment {
    var fee := Wrap64(SourceSum(txs, utxo, height, tx.inputs, |tx.inputs|) - tx.TotalOutputValue());
    if fee < 0 then Rejected(Invalid)
    else if fee < MinFee(q.c.txSize(tx)) then Rejected(LowFee)
    else if !AllSpendable(q.c, txs, utxo, height, tx) then Rejected(Invalid)
    else Fit(fee)
  }

  function Assess(q: Policy, txs: map<nat, TxEntry>, orphans: map<nat, OrphanEntry>, spent: map<OutPoint, nat>,
                  utxo: UtxoMap, height: Uint32, tx: Transaction): Assessment
  {
    var screen, fault := Screen(q, txs, orphans, spent, tx), FirstFault(txs, utxo, height, tx.inputs, 0);
    var missing := Missing(txs, utxo, height, tx.inputs, |tx.inputs|);
    if screen.Some? then Rejected(screen.value)
    else if fault.Some? then Rejected(fault.value)
    else if missing != {} then Waiting(missing)
    else Price(q, txs, utxo, height, tx)
  }

  /** Main result: what a transaction found fit is: new, with distinct inputs that no pooled transaction
      spends and that all exist, correctly signed, paying at least the relay fee. */
  lemma FitMeans(q: Policy, txs: map<nat, TxEntry>, orphans: map<nat, OrphanEntry>, spent: map<OutPoint, nat>,
                 utxo: UtxoMap, height: Uint32, tx: Transaction)
    requires Assess(q, txs, orphans, spent, utxo, height, tx).Fit?
    ensures Basic(tx) && !tx.IsCoinbase() && Standard(q, tx, q.c.txSize(tx))
    ensures q.c.txid(tx) !in txs && q.c.txid(tx) !in orphans
    ensures DistinctInputs(tx)
    ensures forall point :: point in Prevouts(tx.inputs) ==> point !in spent
    ensures AllSpendable(q.c, txs, utxo, height, tx)
    ensures MinFee(q.c.txSize(tx)) <= Assess(q, txs, orphans, spent, utxo, height, tx).fee
  {
    hide Wrap64, SourceOf, SourceSum, Standard, AllSpendable, Basic, MinFee, Missing;
    forall i, j | 0 <= i < j < |tx.inputs|
      ensures tx.inputs[i].prevout != tx.inputs[j].prevout
    {
      assert InputFault(txs, utxo, height, tx.inputs, j).None?;
    }
  }

  /** The pool's rules for an unspent output are the chain's in the next block. */
  lemma SpendableInNextBlock(c: Crypto, txs: map<nat, TxEntry>, utxo: UtxoMap, height: Uint32, tx: Transaction, i: nat)
    requires i < |tx.inputs| && tx.inputs[i].prevout in utxo && utxo[tx.inputs[i].prevout].height <= height < 0xFFFF_FFFF
    ensures Spendable(c, txs, utxo, height, tx, i) <==> InputOk(c, utxo, tx, height + 1, i)
  {
  }

  lemma {:induction false} SourcesUnspent(txs: map<nat, TxEntry>, utxo: UtxoMap, height: Uint32, inputs: seq<TxIn>, k: nat)
    requires k <= |inputs| && forall i :: 0 <= i < |inputs| ==> inputs[i].prevout in utxo
    ensures SourceSum(txs, utxo, height, inputs, k) == InputSum(utxo, inputs, k)
  {
    if k != 0 {
      SourcesUnspent(txs, utxo, height, inputs, k - 1);
    }
  }

  /** Main result: a transaction found fit that spends unspent outputs only applies in the next block, for the fee the pool
      assessed, exactly if it does not pay out more than it spends; which it never does while its inputs sum to less
      than 2^63. */
  lemma FitApplies(q: Policy, txs: map<nat, TxEntry>, orphans: map<nat, OrphanEntry>, spent: map<OutPoint, nat>,
                   utxo: UtxoMap, height: Uint32, tx: Transaction)
    requires Assess(q, txs, orphans, spent, utxo, height, tx).Fit? && height < 0xFFFF_FFFF
    requires forall i :: 0 <= i < |tx.inputs| ==> tx.inputs[i].prevout in utxo && utxo[tx.inputs[i].prevout].height <= height
    ensures var result, sum := Apply(q.c, utxo, tx, height + 1), InputSum(utxo, tx.inputs, |tx.inputs|);
            && (result.ok <==> tx.TotalOutputValue() <= Wrap64(sum))
            && result.fee == Assess(q, txs, orphans, spent, utxo, height, tx).fee
            && (0 <= sum < 0x8000_0000_0000_0000 ==> result.ok)
  {
    hide Wrap64, Spendable, InputOk, Basic, Standard, MinFee, Missing, FirstFault, SourceSum, InputSum, AddOutputs, Conflicts, Screen;
    FitMeans(q, txs, orphans, spent, utxo, height, tx);
    FitFee(q, txs, orphans, spent, utxo, height, tx);
    SourcesUnspent(txs, utxo, height, tx.inputs, |tx.inputs|);
    var next: Uint32 := height + 1;
    forall i | 0 <= i < |tx.inputs|
      ensures InputOk(q.c, utxo, tx, next, i)
    {
      assert Spendable(q.c, txs, utxo, height, tx, i);
      SpendableInNextBlock(q.c, txs, utxo, height, tx, i);
    }
    var sum := InputSum(utxo, tx.inputs, |tx.inputs|);
    Wrap64Add(sum, -(tx.TotalOutputValue() as int));
    NotNegative(sum, tx.TotalOutputValue());
  }

  lemma FitFee(q: Policy, txs: map<nat, TxEntry>, orphans: map<nat, OrphanEntry>, spent: map<OutPoint, nat>,
               utxo: UtxoMap, height: Uint32, tx: Transaction)
    requires Assess(q, txs, orphans, spent, utxo, height, tx).Fit?
    ensures var fee := Assess(q, txs, orphans, spent, utxo, height, tx).fee;
            0 <= fee && fee == Wrap64(SourceSum(txs, utxo, height, tx.inputs, |tx.inputs|) - tx.TotalOutputValue())
  {
    hide Wrap64, AllSpendable, MinFee, Missing, FirstFault, SourceSum, Screen;
  }

  lemma NotNegative(sum: int, paid: Int64)
    ensures 0 <= sum < 0x8000_0000_0000_0000 && 0 <= Wrap64(sum - paid) ==> paid <= Wrap64(sum)
  {
  }

  /** A transaction that waits does so for transactions that are not pooled. */
  lemma WaitingMeans(q: Policy, txs: map<nat, TxEntry>, orphans: map<nat, OrphanEntry>, spent: map<OutPoint, nat>,
                     utxo: UtxoMap, height: Uint32, tx: Transaction)
    requires Assess(q, txs, orphans, spent, utxo, height, tx).Waiting?
    ensures q.c.txid(tx) !in txs && q.c.txid(tx) !in orphans
    ensures var missing := Assess(q, txs, orphans, spent, utxo, height, tx).missing;
            missing != {} && missing !! txs.Keys
  {
    hide Wrap64, SourceSum, Standard, AllSpendable, Basic, MinFee, FirstFault;
  }

  // ---------------------------------------------------------------------------
  // The checks as the node runs them
  // ---------------------------------------------------------------------------

  method CheckBasic(tx: Transaction) returns (ok: bool)
    ensures ok == Basic(tx)
  {
    if tx.outputs == [] {
      return false;
    }
    if !tx.IsCoinbase() && tx.inputs == [] {
      return false;
    }
    for i := 0 to |tx.outputs|
      invariant forall j :: 0 <= j < i ==> 0 <= tx.outputs[j].value
    {
      if tx.outputs[i].value < 0 {
        return false;
      }
    }
    return true;
  }

  method CheckStandard(q: Policy, tx: Transaction, size: nat) returns (ok: bool)
    ensures ok == Standard(q, tx, size)
  {
    if size > MAX_STANDARD_TX_SIZE_BYTES || |tx.inputs| > MAX_STANDARD_TX_INPUTS || |tx.outputs| > MAX_STANDARD_TX_OUTPUTS {
      return false;
    }
    var sawOpReturn := false;
    for i := 0 to |tx.inputs|
      invariant forall j :: 0 <= j < i ==> InputStandard(tx.inputs[j])
    {
      if tx.inputs[i].scriptSig == [] || |tx.inputs[i].scriptSig| > MAX_STANDARD_SCRIPTSIG_BYTES {
        return false;
      }
    }
    for i := 0 to |tx.outputs|
      invariant forall j :: 0 <= j < i ==> OutputStandard(q, tx.outputs[j])
      invariant sawOpReturn <==> exists j :: 0 <= j < i && OP_RETURN <= tx.outputs[j].script
      invariant forall j, k :: 0 <= j < k < i ==> !(OP_RETURN <= tx.outputs[j].script && OP_RETURN <= tx.outputs[k].script)
    {
      var out := tx.outputs[i];
      if OP_RETURN <= out.script {
        if sawOpReturn || out.value != 0 || |out.script| > MAX_OP_RETURN_BYTES {
          return false;
        }
        sawOpReturn := true;
      } else if !q.isAddress(out.script) || out.value < DUST_LIMIT_SATS {
        return false;
      }
    }
    return true;
  }

  method CheckDoubleSpend(spent: map<OutPoint, nat>, inputs: seq<TxIn>) returns (conflicts: bool)
    ensures conflicts == Conflicts(spent, inputs)
  {
    for i := 0 to |inputs|
      invariant forall j :: 0 <= j < i ==> inputs[j].prevout !in spent
    {
      if inputs[i].prevout in spent {
        return true;
      }
    }
    return false;
  }

  /** Looks up every input: the first repeated input or bad index ends the search; missing parents are
      listed once each. */
  method ResolveInputs(txs: map<nat, TxEntry>, utxo: UtxoMap, height: Uint32, inputs: seq<TxIn>)
    returns (fault: Option<AcceptStatus>, missing: seq<nat>, sum: Int64)
    ensures fault == FirstFault(txs, utxo, height, inputs, 0)
    ensures fault.None? ==> Distinct(missing) && (set h | h in missing) == Missing(txs, utxo, height, inputs, |inputs|)
    ensures fault.None? ==> sum == Wrap64(SourceSum(txs, utxo, height, inputs, |inputs|))
  {
    hide SourceOf, Wrap64, Missing, Distinct, Repeated, FirstFault;
    var seen: set<OutPoint> := {};
    missing, sum := [], 0;
    StartResolving(txs, utxo, height, inputs);
    for i := 0 to |inputs|
      invariant forall point :: point in seen <==> exists j :: 0 <= j < i && inputs[j].prevout == point
      invariant FirstFault(txs, utxo, height, inputs, 0) == FirstFault(txs, utxo, height, inputs, i)
      invariant Distinct(missing) && (set h | h in missing) == Missing(txs, utxo, height, inputs, i)
      invariant sum == Wrap64(SourceSum(txs, utxo, height, inputs, i))
    {
      var point := inputs[i].prevout;
      SeenRepeated(inputs, i, seen);
      FaultStep(txs, utxo, height, inputs, i);
      MissingStep(txs, utxo, height, inputs, i);
      if point in seen {
        return Some(Conflict), missing, sum;
      }
      seen := seen + {point};
      var source := SourceOf(txs, utxo, height, point);
      if source.BadIndex? {
        return Some(Invalid), missing, sum;
      }
      Wrap64Add(SourceSum(txs, utxo, height, inputs, i), SourceValue(txs, utxo, height, point));
      if source.Found? {
        sum := Wrap64(sum + source.entry.output.value);
      } else if point.txHash !in missing {
        DistinctSnoc(missing, point.txHash);
        missing := missing + [point.txHash];
      } else {
        MissingAgain(missing, point.txHash);
      }
    }
    FaultEnd(txs, utxo, height, inputs);
    fault := None;
  }

  lemma StartResolving(txs: map<nat, TxEntry>, utxo: UtxoMap, height: Uint32, inputs: seq<TxIn>)
    ensures Distinct([]) && Missing(txs, utxo, height, inputs, 0) == {}
    ensures Wrap64(SourceSum(txs, utxo, height, inputs, 0)) == 0
  {
  }

  lemma SeenRepeated(inputs: seq<TxIn>, i: nat, seen: set<OutPoint>)
    requires i < |inputs|
    requires forall point :: point in seen <==> exists j :: 0 <= j < i && inputs[j].prevout == point
    ensures inputs[i].prevout in seen <==> Repeated(inputs, i)
  {
  }

  lemma FaultStep(txs: map<nat, TxEntry>, utxo: UtxoMap, height: Uint32, inputs: seq<TxIn>, i: nat)
    requires i < |inputs|
    ensures InputFault(txs, utxo, height, inputs, i).Some? ==>
              FirstFault(txs, utxo, height, inputs, i) == InputFault(txs, utxo, height, inputs, i)
    ensures InputFault(txs, utxo, height, inputs, i).None? ==>
              FirstFault(txs, utxo, height, inputs, i) == FirstFault(txs, utxo, height, inputs, i + 1)
  {
    hide InputFault;
  }

  lemma FaultEnd(txs: map<nat, TxEntry>, utxo: UtxoMap, height: Uint32, inputs: seq<TxIn>)
    ensures FirstFault(txs, utxo, height, inputs, |inputs|) == None
  {
  }

  lemma MissingStep(txs: map<nat, TxEntry>, utxo: UtxoMap, height: Uint32, inputs: seq<TxIn>, i: nat)
    requires i < |inputs|
    ensures Missing(txs, utxo, height, inputs, i + 1) ==
            Missing(txs, utxo, height, inputs, i)
            + if SourceOf(txs, utxo, height, inputs[i].prevout).Unknown? then {inputs[i].prevout.txHash} else {}
  {
    hide SourceOf;
  }

  lemma DistinctSnoc(s: seq<nat>, x: nat)
    requires Distinct(s) && x !in s
    ensures Distinct(s + [x]) && (set h | h in s + [x]) == (set h | h in s) + {x}
  {
  }

  lemma MissingAgain(s: seq<nat>, x: nat)
    requires x in s
    ensures (set h | h in s) == (set h | h in s) + {x}
  {
  }

  method CheckSpends(c: Crypto, txs: map<nat, TxEntry>, utxo: UtxoMap, height: Uint32, tx: Transaction) returns (ok: bool)
    requires forall i :: 0 <= i < |tx.inputs| ==> SourceOf(txs, utxo, height, tx.inputs[i].prevout).Found?
    ensures ok == AllSpendable(c, txs, utxo, height, tx)
  {
    hide SourceOf;
    for i := 0 to |tx.inputs|
      invariant forall j :: 0 <= j < i ==> Spendable(c, txs, utxo, height, tx, j)
    {
      var entry := SourceOf(txs, utxo, height, tx.inputs[i].prevout).entry;
      assert AllSpendable(c, txs, utxo, height, tx) ==> Spendable(c, txs, utxo, height, tx, i);
      if |tx.inputs[i].scriptSig| < 65 {
        return false;
      }
      if !c.authorized(tx, i, entry.output.script) {
        return false;
      }
      if entry.coinbase && height + 1 < entry.height + COINBASE_MATURITY {
        return false;
      }
    }
    return true;
  }

  lemma NothingMissing(txs: map<nat, TxEntry>, utxo: UtxoMap, height: Uint32, inputs: seq<TxIn>)
    requires FirstFault(txs, utxo, height, inputs, 0).None? && Missing(txs, utxo, height, inputs, |inputs|) == {}
    ensures forall i :: 0 <= i < |inputs| ==> SourceOf(txs, utxo, height, inputs[i].prevout).Found?
  {
    hide SourceOf, Repeated, FirstFault, Missing;
    forall i | 0 <= i < |inputs|
      ensures SourceOf(txs, utxo, height, inputs[i].prevout).Found?
    {
      assert InputFault(txs, utxo, height, inputs, i).None?;
      if SourceOf(txs, utxo, height, inputs[i].prevout).Unknown? {
        MissingListed(txs, utxo, height, inputs, i);
      }
    }
  }

  lemma MissingListed(txs: map<nat, TxEntry>, utxo: UtxoMap, height: Uint32, inputs: seq<TxIn>, i: nat)
    requires i < |inputs| && SourceOf(txs, utxo, height, inputs[i].prevout).Unknown?
    ensures inputs[i].prevout.txHash in Missing(txs, utxo, height, inputs, |inputs|)
  {
    hide SourceOf;
  }

  method ScreenTransaction(q: Policy, txs: map<nat, TxEntry>, orphans: map<nat, OrphanEntry>, spent: map<OutPoint, nat>,
                           tx: Transaction) returns (status: Option<AcceptStatus>)
    ensures status == Screen(q, txs, orphans, spent, tx)
  {
    hide Basic, Standard, Conflicts;
    var basic := CheckBasic(tx);
    if !basic {
      return Some(Invalid);
    }
    if tx.IsCoinbase() {
      return Some(Invalid);
    }
    var id := q.c.txid(tx);
    if id in txs || id in orphans {
      return Some(Duplicate);
    }
    var standard := CheckStandard(q, tx, q.c.txSize(tx));
    if !standard {
      return Some(NonStandard);
    }
    var conflicts := CheckDoubleSpend(spent, tx.inputs);
    if conflicts {
      return Some(Conflict);
    }
    return None;
  }

  /** The whole decision, in the order the node checks. */
  method AssessTransaction(q: Policy, txs: map<nat, TxEntry>, orphans: map<nat, OrphanEntry>, spent: map<OutPoint, nat>,
                           utxo: UtxoMap, height: Uint32, tx: Transaction) returns (a: Assessment)
    ensures a == Assess(q, txs, orphans, spent, utxo, height, tx)
  {
    hide Screen, FirstFault, Missing, SourceOf, SourceSum, AllSpendable, Wrap64, MinFee;
    var screen := ScreenTransaction(q, txs, orphans, spent, tx);
    if screen.Some? {
      return Rejected(screen.value);
    }
    var fault, missing, inputSum := ResolveInputs(txs, utxo, height, tx.inputs);
    if fault.Some? {
      return Rejected(fault.value);
    }
    if missing != [] {
      var parents := set h | h in missing;
      assert missing[0] in parents;
      assert parents == Missing(txs, utxo, height, tx.inputs, |tx.inputs|);
      return Waiting(parents);
    }
    NothingMissing(txs, utxo, height, tx.inputs);
    var outputSum := UTXOSet.SumOutputs(tx);
    var fee := Wrap64((inputSum as int) - (outputSum as int));
    Wrap64Add(SourceSum(txs, utxo, height, tx.inputs, |tx.inputs|), -(outputSum as int));
    if fee < 0 {
      return Rejected(Invalid);
    }
    if fee < MinFee(q.c.txSize(tx)) {
      return Rejected(LowFee);
    }
    var spendable := CheckSpends(q.c, txs, utxo, height, tx);
    if !spendable {
      return Rejected(Invalid);
    }
    return Fit(fee);
  }
}
