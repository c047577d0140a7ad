/** Which outputs are unspent on a path, told from its transactions alone: those that were made and neither made again
    nor spent later. So what the set records about an output is what the path says about it. */
module Provenance {
  import opened Arith
  import opened Primitives
  import opened Utxo
  import opened PathValidation
  import opened Supply

  // ---------------------------------------------------------------------------
  // A path as one list of transactions
  // ---------------------------------------------------------------------------

  datatype Line = Line(height: Uint32, tx: Transaction)

  function BlockLines(blk: Block, height: nat): (lines: seq<Line>)
    ensures |lines| == |blk.transactions|
    ensures forall j :: 0 <= j < |lines| ==> lines[j] == Line(Wrap32(height), blk.transactions[j])
  {
    seq(|blk.transactions|, j requires 0 <= j < |blk.transactions| => Line(Wrap32(height), blk.transactions[j]))
  }

  /** All transactions of the blocks in order, with the heights of their blocks. */
  function Lines(blocks: seq<Block>): seq<Line> {
    if blocks == [] then [] else Lines(blocks[..|blocks| - 1]) + BlockLines(blocks[|blocks| - 1], |blocks| - 1)
  }

  /** Every line is a transaction of one of the blocks. */
  lemma {:induction false} LineOf(blocks: seq<Block>, n: nat) returns (h: nat, j: nat)
    requires n < |Lines(blocks)|
    ensures h < |blocks| && j < |blocks[h].transactions| && Lines(blocks)[n] == Line(Wrap32(h), blocks[h].transactions[j])
    decreases |blocks|
  {
    var front := Lines(blocks[..|blocks| - 1]);
    if n < |front| {
      h, j := LineOf(blocks[..|blocks| - 1], n);
    } else {
      h, j := |blocks| - 1, n - |front|;
    }
  }

  // ---------------------------------------------------------------------------
  // Made and not undone
  // ---------------------------------------------------------------------------

  predicate Writes(c: Crypto, tx: Transaction, point: OutPoint) {
    exists i :: 0 <= i < |tx.outputs| && OutputPoint(c, tx, i) == point
  }

  /** Output i is the last one of the transaction at this point. */
  predicate LastAt(c: Crypto, tx: Transaction, i: nat, point: OutPoint) {
    i < |tx.outputs| && OutputPoint(c, tx, i) == point && forall j :: i < j < |tx.outputs| ==> OutputPoint(c, tx, j) != point
  }

  predicate SpendsPoint(tx: Transaction, point: OutPoint) {
    !tx.IsCoinbase() && exists i :: 0 <= i < |tx.inputs| && tx.inputs[i].prevout == point
  }

  /** Line n makes the output at this point, and no later line makes one there or spends it. */
  predicate Made(c: Crypto, lines: seq<Line>, n: nat, i: nat, point: OutPoint) {
    && n < |lines| && LastAt(c, lines[n].tx, i, point)
    && forall m :: n < m < |lines| ==> !Writes(c, lines[m].tx, point) && !SpendsPoint(lines[m].tx, point)
  }

  ghost predicate Remains(c: Crypto, lines: seq<Line>, point: OutPoint) {
    exists n: nat, i: nat :: Made(c, lines, n, i, point)
  }

  function EntryMade(line: Line, i: nat): Entry
    requires i < |line.tx.outputs|
  {
    Entry(line.tx.outputs[i], line.height, line.tx.IsCoinbase())
  }

  ghost predicate RecordsAt(c: Crypto, lines: seq<Line>, utxo: UtxoMap, point: OutPoint) {
    && (point in utxo <==> Remains(c, lines, point))
    && forall n: nat, i: nat :: Made(c, lines, n, i, point) && point in utxo ==> utxo[point] == EntryMade(lines[n], i)
  }

  /** The set holds exactly what remains, with output, height and coinbase mark of the line that made it. */
  ghost predicate Records(c: Crypto, lines: seq<Line>, utxo: UtxoMap) {
    forall point :: RecordsAt(c, lines, utxo, point)
  }

  // ---------------------------------------------------------------------------
  // One more transaction
  // ---------------------------------------------------------------------------

  /** Outputs that go elsewhere leave the point alone. */
  lemma {:induction false} OutputsElsewhere(c: Crypto, base: UtxoMap, tx: Transaction, height: Uint32, k: nat, point: OutPoint)
    requires k <= |tx.outputs| && forall i :: 0 <= i < k ==> OutputPoint(c, tx, i) != point
    ensures var after := AddOutputs(c, base, tx, height, k);
            (point in after <==> point in base) && (point in base ==> after[point] == base[point])
  {
    hide OutputPoint;
    if k != 0 {
      OutputsElsewhere(c, base, tx, height, k - 1, point);
    }
  }

  /** The last output at the point is the one that is recorded. */
  lemma {:induction false} OutputsLast(c: Crypto, base: UtxoMap, tx: Transaction, height: Uint32, k: nat, point: OutPoint, i: nat)
    requires i < k <= |tx.outputs| && OutputPoint(c, tx, i) == point && forall j :: i < j < k ==> OutputPoint(c, tx, j) != point
    ensures var after := AddOutputs(c, base, tx, height, k);
            point in after && after[point] == Entry(tx.outputs[i], height, tx.IsCoinbase())
    decreases k
  {
    hide OutputPoint;
    if i < k - 1 {
      OutputsLast(c, base, tx, height, k - 1, point, i);
    }
  }

  lemma {:induction false} LastExists(c: Crypto, tx: Transaction, point: OutPoint, k: nat) returns (i: nat)
    requires k <= |tx.outputs| && exists j :: 0 <= j < k && OutputPoint(c, tx, j) == point
    ensures i < k && OutputPoint(c, tx, i) == point && forall j :: i < j < k ==> OutputPoint(c, tx, j) != point
    decreases k
  {
    hide OutputPoint;
    if OutputPoint(c, tx, k - 1) == point {
      i := k - 1;
    } else {
      i := LastExists(c, tx, point, k - 1);
    }
  }

  lemma MadeBefore(c: Crypto, lines: seq<Line>, line: Line, n: nat, i: nat, point: OutPoint)
    requires n < |lines|
    ensures Made(c, lines + [line], n, i, point)
            <==> Made(c, lines, n, i, point) && !Writes(c, line.tx, point) && !SpendsPoint(line.tx, point)
  {
    hide LastAt, Writes, SpendsPoint;
    var more := lines + [line];
    assert more[|lines|] == line;
    assert forall m :: 0 <= m < |lines| ==> more[m] == lines[m];
  }

  lemma MadeLast(c: Crypto, lines: seq<Line>, line: Line, i: nat, point: OutPoint)
    ensures Made(c, lines + [line], |lines|, i, point) <==> LastAt(c, line.tx, i, point)
  {
    hide LastAt, Writes, SpendsPoint;
  }

  /** The inputs of a transaction are out of the set before its outputs go in. */
  lemma AppliedAt(c: Crypto, utxo: UtxoMap, tx: Transaction, height: Uint32, point: OutPoint)
    requires Apply(c, utxo, tx, height).ok
    ensures var after := Apply(c, utxo, tx, height).utxo;
            if Writes(c, tx, point)
            then point in after && forall i: nat :: LastAt(c, tx, i, point) ==> after[point] == EntryMade(Line(height, tx), i)
            else (point in after <==> point in utxo && !SpendsPoint(tx, point)) && (point in after ==> after[point] == utxo[point])
  {
    hide InputsOk, InputSum, AddOutputs, OutputPoint, Wrap64;
    var base := if tx.IsCoinbase() then utxo else utxo - Prevouts(tx.inputs);
    if Writes(c, tx, point) {
      var last := WritesLast(c, tx, point);
      OutputsLast(c, base, tx, height, |tx.outputs|, point, last);
      forall i: nat | LastAt(c, tx, i, point)
        ensures i == last
      {
      }
    } else {
      OutputsElsewhere(c, base, tx, height, |tx.outputs|, point);
    }
  }

  lemma RecordsStep(c: Crypto, lines: seq<Line>, utxo: UtxoMap, tx: Transaction, height: Uint32)
    requires Records(c, lines, utxo) && Apply(c, utxo, tx, height).ok
    ensures Records(c, lines + [Line(height, tx)], Apply(c, utxo, tx, height).utxo)
  {
    hide Apply, OutputPoint, Made, Remains, Writes, SpendsPoint, LastAt, EntryMade;
    forall point
      ensures RecordsAt(c, lines + [Line(height, tx)], Apply(c, utxo, tx, height).utxo, point)
    {
      assert RecordsAt(c, lines, utxo, point);
      RecordsStepAt(c, lines, utxo, tx, height, point);
    }
  }

  lemma RecordsStepAt(c: Crypto, lines: seq<Line>, utxo: UtxoMap, tx: Transaction, height: Uint32, point: OutPoint)
    requires RecordsAt(c, lines, utxo, point) && Apply(c, utxo, tx, height).ok
    ensures RecordsAt(c, lines + [Line(height, tx)], Apply(c, utxo, tx, height).utxo, point)
  {
    hide Apply, OutputPoint, Made, SpendsPoint, LastAt, Writes;
    var line, more, after := Line(height, tx), lines + [Line(height, tx)], Apply(c, utxo, tx, height).utxo;
    AppliedAt(c, utxo, tx, height, point);
    forall n: nat, i: nat | Made(c, more, n, i, point)
      ensures n < |more| && i < |more[n].tx.outputs| && point in after && after[point] == EntryMade(more[n], i)
    {
      MadeInside(c, more, n, i, point);
      if n < |lines| {
        MadeBefore(c, lines, line, n, i, point);
        assert Remains(c, lines, point);
      } else {
        MadeLast(c, lines, line, i, point);
        LastWrites(c, tx, i, point);
      }
    }
    if point in after {
      if Writes(c, tx, point) {
        var i := WritesLast(c, tx, point);
        MadeLast(c, lines, line, i, point);
      } else {
        var n: nat, i: nat :| Made(c, lines, n, i, point);
        MadeInside(c, lines, n, i, point);
        MadeBefore(c, lines, line, n, i, point);
      }
      assert Remains(c, more, point);
    }
  }

  lemma MadeInside(c: Crypto, lines: seq<Line>, n: nat, i: nat, point: OutPoint)
    requires Made(c, lines, n, i, point)
    ensures n < |lines| && i < |lines[n].tx.outputs|
  {
  }

  lemma LastWrites(c: Crypto, tx: Transaction, i: nat, point: OutPoint)
    requires LastAt(c, tx, i, point)
    ensures Writes(c, tx, point) && i < |tx.outputs|
  {
  }

  lemma WritesLast(c: Crypto, tx: Transaction, point: OutPoint) returns (i: nat)
    requires Writes(c, tx, point)
    ensures LastAt(c, tx, i, point)
  {
    i := LastExists(c, tx, point, |tx.outputs|);
  }

  // ---------------------------------------------------------------------------
  // Blocks and paths
  // ---------------------------------------------------------------------------

  lemma {:induction false} RecordsBlock(c: Crypto, lines: seq<Line>, utxo: UtxoMap, blk: Block, height: nat, k: nat)
    requires k <= |blk.transactions| && Records(c, lines, utxo)
    requires ApplyAll(c, utxo, blk.transactions, Wrap32(height), k).failed.None?
    ensures Records(c, lines + BlockLines(blk, height)[..k], ApplyAll(c, utxo, blk.transactions, Wrap32(height), k).utxo)
  {
    hide Apply, Records, Wrap32;
    var all := BlockLines(blk, height);
    if k == 0 {
      assert lines + all[..0] == lines;
    } else {
      RecordsBlock(c, lines, utxo, blk, height, k - 1);
      RecordsStep(c, lines + all[..k - 1], ApplyAll(c, utxo, blk.transactions, Wrap32(height), k - 1).utxo, blk.transactions[k - 1], Wrap32(height));
      assert lines + all[..k] == lines + all[..k - 1] + [Line(Wrap32(height), blk.transactions[k - 1])];
    }
  }

  /** Main result: the outputs of a valid path are exactly those that some transaction of it made and no later one made
      again or spent, each recorded with the output itself, the height of the block and whether a coinbase made it. */
  lemma {:induction false} ReplayRecords(r: Rules, blocks: seq<Block>, now: nat, skipPow: bool)
    requires PathValid(r, blocks, now, skipPow)
    ensures Records(r.c, Lines(blocks), Replay(r, blocks, now, skipPow).utxo)
  {
    hide TransactionsOutcome, CheckBlock, Replay, PathValid, Records, ApplyAll, BlockLines;
    if blocks == [] {
      EmptyReplay(r, now, skipPow);
      NothingRecorded(r.c);
    } else {
      var front, last := blocks[..|blocks| - 1], blocks[|blocks| - 1];
      LastBlock(r, blocks, now, skipPow);
      ReplayRecords(r, front, now, skipPow);
      var before := Replay(r, front, now, skipPow).utxo;
      AcceptedBlock(r, HeadersOf(front), last, before, now, skipPow);
      AcceptedTransactions(r, last, |front|, before);
      RecordsBlock(r.c, Lines(front), before, last, |front|, |last.transactions|);
      AcceptedOutcome(r, last, |front|, before);
      assert BlockLines(last, |front|)[..|last.transactions|] == BlockLines(last, |front|);
    }
  }

  lemma AcceptedOutcome(r: Rules, blk: Block, height: nat, utxo: UtxoMap)
    requires blk.transactions != [] && TransactionsOutcome(r, blk, height, utxo).Accepted?
    ensures TransactionsOutcome(r, blk, height, utxo).utxo == ApplyAll(r.c, utxo, blk.transactions, Wrap32(height), |blk.transactions|).utxo
  {
    hide ApplyAll;
  }

  lemma NothingRecorded(c: Crypto)
    ensures Records(c, [], map[])
  {
  }

  /** The output line n made can be spent in a block at this height: by signature, and a coinbase only after 100 blocks. */
  predicate MaySpend(c: Crypto, line: Line, o: nat, tx: Transaction, i: nat, height: nat)
    requires o < |line.tx.outputs| && i < |tx.inputs|
  {
    && 65 <= |tx.inputs[i].scriptSig| && c.authorized(tx, i, line.tx.outputs[o].script)
    && (line.tx.IsCoinbase() ==> line.height + 100 <= height)
  }

  /** Main result: every input of every transaction of the last block spends an output that an earlier transaction of
      the path made and that is still there, with a good signature, and never one of a coinbase of the last 99 blocks. */
  lemma InputsComeFromPath(r: Rules, front: seq<Block>, blk: Block, now: nat, skipPow: bool, k: nat, i: nat)
    requires PathValid(r, front + [blk], now, skipPow) && |front| < 0x1_0000_0000
    requires k < |blk.transactions| && !blk.transactions[k].IsCoinbase() && i < |blk.transactions[k].inputs|
    ensures var lines, point := Lines(front) + BlockLines(blk, |front|)[..k], blk.transactions[k].inputs[i].prevout;
            && Remains(r.c, lines, point)
            && forall n: nat, o: nat :: Made(r.c, lines, n, o, point) ==> MaySpend(r.c, lines[n], o, blk.transactions[k], i, |front|)
  {
    hide Replay, ApplyAll, CheckBlock, TransactionsOutcome, PathValid, Made, Remains, BlockLines, Lines;
    assert (front + [blk])[..|front|] == front;
    LastBlock(r, front + [blk], now, skipPow);
    var before := Replay(r, front, now, skipPow).utxo;
    AcceptedBlock(r, HeadersOf(front), blk, before, now, skipPow);
    AcceptedTransactions(r, blk, |front|, before);
    PrefixApplied(r.c, before, blk.transactions, |front|, k, |blk.transactions|);
    EachApplied(r.c, before, blk.transactions, |front|, k, |blk.transactions|);
    ReplayRecords(r, front, now, skipPow);
    RecordsBlock(r.c, Lines(front), before, blk, |front|, k);
    SpentCoinbaseIsMature(r, front, blk, now, skipPow, k, i);
    var utxo, lines, point := ApplyAll(r.c, before, blk.transactions, |front|, k).utxo, Lines(front) + BlockLines(blk, |front|)[..k],
                              blk.transactions[k].inputs[i].prevout;
    AppliedInputs(r.c, utxo, blk.transactions[k], |front|, i);
    assert RecordsAt(r.c, lines, utxo, point);
    forall n: nat, o: nat | Made(r.c, lines, n, o, point)
      ensures n < |lines| && o < |lines[n].tx.outputs| && MaySpend(r.c, lines[n], o, blk.transactions[k], i, |front|)
    {
      MadeInside(r.c, lines, n, o, point);
    }
  }

  lemma {:induction false} PrefixApplied(c: Crypto, utxo: UtxoMap, txs: seq<Transaction>, height: Uint32, k: nat, n: nat)
    requires k <= n <= |txs| && ApplyAll(c, utxo, txs, height, n).failed.None?
    ensures ApplyAll(c, utxo, txs, height, k).failed.None?
    decreases n
  {
    hide Apply;
    if k < n {
      PrefixApplied(c, utxo, txs, height, k, n - 1);
    }
  }
}
