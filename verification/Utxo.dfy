/** The set of unspent outputs and the application of one transaction to it. */
module Utxo {
  import opened Arith
  import opened Primitives

  datatype Entry = Entry(output: TxOut, height: Uint32, coinbase: bool)

  type UtxoMap = map<OutPoint, Entry>

  // ---------------------------------------------------------------------------
  // Specification
  // ---------------------------------------------------------------------------

  /** Blocks since an output was created, in 32-bit arithmetic. */
  function Age(height: Uint32, created: Uint32): Uint32 {
    Wrap32(height - created)
  }

  /** The checks on input i: it is unspent, its script is long enough and authorizes the spend,
      and a coinbase output is mature. */
  predicate InputOk(c: Crypto, utxo: UtxoMap, tx: Transaction, height: Uint32, i: nat)
    requires i < |tx.inputs|
  {
    var txIn := tx.inputs[i];
    && txIn.prevout in utxo
    && 65 <= |txIn.scriptSig|
    && c.authorized(tx, i, utxo[txIn.prevout].output.script)
    && (utxo[txIn.prevout].coinbase ==> COINBASE_MATURITY <= Age(height, utxo[txIn.prevout].height))
  }

  predicate InputsOk(c: Crypto, utxo: UtxoMap, tx: Transaction, height: Uint32) {
    forall i :: 0 <= i < |tx.inputs| ==> InputOk(c, utxo, tx, height, i)
  }

  function ValueOf(utxo: UtxoMap, point: OutPoint): int {
    if point in utxo then utxo[point].output.value else 0
  }

  /** Value of the outputs the first k inputs refer to, each counted as often as it is listed. */
  function InputSum(utxo: UtxoMap, inputs: seq<TxIn>, k: nat): int
    requires k <= |inputs|
  {
    if k == 0 then 0 else InputSum(utxo, inputs, k - 1) + ValueOf(utxo, inputs[k - 1].prevout)
  }

  function Prevouts(inputs: seq<TxIn>): set<OutPoint> {
    set i | 0 <= i < |inputs| :: inputs[i].prevout
  }

  predicate DistinctInputs(tx: Transaction) {
    forall i, j :: 0 <= i < j < |tx.inputs| ==> tx.inputs[i].prevout != tx.inputs[j].prevout
  }

  function OutputPoint(c: Crypto, tx: Transaction, i: nat): OutPoint {
    OutPoint(c.txid(tx), Wrap32(i))
  }

  /** The first k outputs of the transaction, added in order. */
  function AddOutputs(c: Crypto, utxo: UtxoMap, tx: Transaction, height: Uint32, k: nat): UtxoMap
    requires k <= |tx.outputs|
  {
    if k == 0 then utxo
    else AddOutputs(c, utxo, tx, height, k - 1)[OutputPoint(c, tx, k - 1) := Entry(tx.outputs[k - 1], height, tx.IsCoinbase())]
  }

  datatype ApplyResult = ApplyResult(ok: bool, utxo: UtxoMap, fee: Int64)

  /** A transaction with a missing, unauthorized or immature input changes nothing; one that pays out
      more than it takes in loses its inputs; every other one is applied. */
  function Apply(c: Crypto, utxo: UtxoMap, tx: Transaction, height: Uint32): ApplyResult {
    if tx.IsCoinbase() then
      ApplyResult(true, AddOutputs(c, utxo, tx, height, |tx.outputs|), 0)
    else if !InputsOk(c, utxo, tx, height) then
      ApplyResult(false, utxo, 0)
    else
      var inSum, outSum := Wrap64(InputSum(utxo, tx.inputs, |tx.inputs|)), tx.TotalOutputValue();
      var spent := utxo - Prevouts(tx.inputs);
      if inSum < outSum then ApplyResult(false, spent, Wrap64(inSum - outSum))
      else ApplyResult(true, AddOutputs(c, spent, tx, height, |tx.outputs|), Wrap64(inSum - outSum))
  }

  // ---------------------------------------------------------------------------
  // The mutable set
  // ---------------------------------------------------------------------------

  class UTXOSet {
    var entries: UtxoMap

    constructor ()
      ensures entries == map[]
    {
      entries := map[];
    }

    /** Sums the outputs of a transaction in 64-bit arithmetic. */
    static method SumOutputs(tx: Transaction) returns (sum: Int64)
      ensures sum == tx.TotalOutputValue()
    {
      sum := 0;
      for i := 0 to |tx.outputs|
        invariant sum == Wrap64(OutputSum(tx.outputs[..i]))
      {
        assert tx.outputs[..i + 1][..i] == tx.outputs[..i];
        Wrap64Add(OutputSum(tx.outputs[..i]), tx.outputs[i].value);
        sum := Wrap64(sum + tx.outputs[i].value);
      }
      assert tx.outputs[..|tx.outputs|] == tx.outputs;
    }

    /** Checks the inputs in order and adds up what they spend. */
    method CheckInputs(c: Crypto, tx: Transaction, height: Uint32) returns (ok: bool, sum: Int64)
      ensures ok == InputsOk(c, entries, tx, height)
      ensures ok ==> sum == Wrap64(InputSum(entries, tx.inputs, |tx.inputs|))
    {
      hide Wrap64;
      sum := 0;
      assert Wrap64(0) == 0 by { Wrap64Identity(0); }
      for i := 0 to |tx.inputs|
        invariant forall j :: 0 <= j < i ==> InputOk(c, entries, tx, height, j)
        invariant sum == Wrap64(InputSum(entries, tx.inputs, i))
      {
        if !InputOk(c, entries, tx, height, i) {
          return false, 0;
        }
        Wrap64Add(InputSum(entries, tx.inputs, i), ValueOf(entries, tx.inputs[i].prevout));
        sum := Wrap64(sum + entries[tx.inputs[i].prevout].output.value);
      }
      ok := true;
    }

    method EraseInputs(inputs: seq<TxIn>)
      modifies this
      ensures entries == old(entries) - Prevouts(inputs)
    {
      for i := 0 to |inputs|
        invariant entries == old(entries) - Prevouts(inputs[..i])
      {
        assert Prevouts(inputs[..i + 1]) == Prevouts(inputs[..i]) + {inputs[i].prevout} by {
          assert inputs[..i + 1] == inputs[..i] + [inputs[i]];
          PrevoutsSnoc(inputs[..i], inputs[i]);
        }
        entries := entries - {inputs[i].prevout};
      }
      assert inputs[..|inputs|] == inputs;
    }

    method InsertOutputs(c: Crypto, tx: Transaction, height: Uint32)
      modifies this
      ensures entries == AddOutputs(c, old(entries), tx, height, |tx.outputs|)
    {
      for i := 0 to |tx.outputs|
        invariant entries == AddOutputs(c, old(entries), tx, height, i)
      {
        entries := entries[OutputPoint(c, tx, i) := Entry(tx.outputs[i], height, tx.IsCoinbase())];
      }
    }

    method ApplyTransaction(c: Crypto, tx: Transaction, height: Uint32) returns (ok: bool, fee: Int64)
      modifies this
      ensures ApplyResult(ok, entries, fee) == Apply(c, old(entries), tx, height)
    {
      hide InputOk, InputsOk, InputSum, AddOutputs, Prevouts, Wrap64;
      fee := 0;
      var outSum := SumOutputs(tx);
      if !tx.IsCoinbase() {
        var inputsOk, inSum := CheckInputs(c, tx, height);
        if !inputsOk {
          return false, 0;
        }
        EraseInputs(tx.inputs);
        fee := Wrap64((inSum as int) - (outSum as int));
        if inSum < outSum {
          return false, fee;
        }
      }
      InsertOutputs(c, tx, height);
      ok := true;
    }

    method Clear()
      modifies this
      ensures entries == map[]
    {
      entries := map[];
    }

    /** Exchanges the contents of two sets. */
    method SwapIn(other: UTXOSet)
      modifies this, other
      ensures entries == old(other.entries) && other.entries == old(entries)
    {
      if other == this {
        return;
      }
      entries, other.entries := other.entries, entries;
    }

    method Snapshot() returns (copy: UTXOSet)
      ensures fresh(copy) && copy.entries == entries
    {
      copy := new UTXOSet();
      copy.entries := entries;
    }
  }

  lemma PrevoutsSnoc(inputs: seq<TxIn>, txIn: TxIn)
    ensures Prevouts(inputs + [txIn]) == Prevouts(inputs) + {txIn.prevout}
  {
    var all := inputs + [txIn];
    assert forall i :: 0 <= i < |inputs| ==> all[i] == inputs[i];
    assert all[|inputs|] == txIn;
  }
}
