/** Why checking one block against the unspent outputs of the tip is the same as replaying the whole path. */
module TipExtension {
  import opened Arith
  import opened CompactTarget
  import opened Primitives
  import opened Retarget
  import opened Utxo
  import opened PathValidation
  import opened PathReplay
  import opened ChainState
  import opened ChainSteps
  import opened ForkChoice
  import Supply

  datatype Diagnosis =
    | StalePrevLink
    | Fault(reason: Reason)
    | TxCount
    | Size
    | ValidTipExtension

  lemma ActiveHeadersAre(r: Rules, s: State)
    requires TablesOk(r, s)
    ensures HeadersOf(ActiveBlocks(r, s)) == ActiveHeaders(r, s)
    ensures Covers(s.heightMap, s.index, s.best) && Headers(s.heightMap, s.index, s.best) == ActiveHeaders(r, s)
    ensures s.best in s.heightMap && s.heightMap[s.best] == s.tip && s.tip in s.index && s.tip in s.pool
    ensures s.tipBits == s.index[s.tip].bits && s.pool[s.tip].header == s.index[s.tip]
    ensures |ActiveHeaders(r, s)| == s.best + 1 && ActiveHeaders(r, s)[s.best] == s.index[s.tip]
  {
    hide IndexOk, WorkOk, HeightIndexOk, ChildrenOk, CheckpointOk;
    PathInPool(r, s, ActivePath(s), s.tip);
    var hs := ActiveHeaders(r, s);
    forall h: nat | h <= s.best
      ensures h in s.heightMap && s.heightMap[h] in s.index
    {
      assert s.heightMap[h] == ActivePath(s)[h];
    }
    assert HeadersOf(ActiveBlocks(r, s)) == hs;
    assert Headers(s.heightMap, s.index, s.best) == hs;
  }

  /** The active path plus one block is valid exactly when the path is and the block passes on top of the tip. The
      path itself stays valid as time passes, unless proof of work is asked for more strictly than before. */
  lemma ExtensionIsCheck(r: Rules, s: State, clock: nat, powSkipped: bool, blk: Block, now: nat, skipPow: bool)
    requires TablesOk(r, s) && UtxoOk(r, s, clock, powSkipped)
    ensures clock <= now && (powSkipped ==> skipPow) ==> PathValid(r, ActiveBlocks(r, s), now, skipPow)
    ensures PathValid(r, ActiveBlocks(r, s) + [blk], now, skipPow)
            <==> PathValid(r, ActiveBlocks(r, s), now, skipPow)
                 && CheckBlock(r, ActiveHeaders(r, s), blk, s.utxo, now, skipPow).Accepted?
  {
    hide TablesOk, Replay, CheckBlock, ActiveHeaders, ActiveBlocks;
    var blocks := ActiveBlocks(r, s);
    if clock <= now && (powSkipped ==> skipPow) {
      ReplayRelax(r, blocks, clock, now, powSkipped, skipPow);
    }
    if PathValid(r, blocks, now, skipPow) {
      var late := if clock < now then now else clock;
      ReplayRelax(r, blocks, clock, late, powSkipped, true);
      ReplayRelax(r, blocks, now, late, skipPow, true);
    }
    ActiveHeadersAre(r, s);
    ReplaySnoc(r, blocks, blk, now, skipPow);
  }

  /** The checks on a tip candidate, in the order the node runs them before touching transactions. */
  predicate HeaderPasses(r: Rules, tip: Header, blk: Block, bits: Bits, now: nat, skipPow: bool) {
    && blk.header.prev == r.c.Link(tip)
    && (skipPow || (IsCanonical(blk.header.bits, 64) && CheckPow(r.c, r.p, blk.header)))
    && r.c.MerkleRoot(blk.transactions) == blk.header.merkleRoot
    && TimestampValid(r.p, blk.header, Some(tip), now)
    && blk.header.bits == bits
    && blk.transactions != [] && blk.transactions[0].IsCoinbase()
  }

  lemma HeaderPassesMeaning(r: Rules, hist: seq<Header>, blk: Block, bits: Bits, now: nat, skipPow: bool)
    requires hist != [] && bits == NextWork(r.p, hist, hist[|hist| - 1].bits, blk.header.timestamp)
    ensures HeaderFault(r, hist, blk, now, skipPow).None? <==> HeaderPasses(r, hist[|hist| - 1], blk, bits, now, skipPow)
  {
    hide NextWork, IsCanonical, CheckPow;
  }

  /** Acceptance on top of the tip, split into header, transactions and reward. */
  lemma CheckSplit(r: Rules, hist: seq<Header>, blk: Block, bits: Bits, utxo: UtxoMap, now: nat, skipPow: bool)
    requires hist != [] && bits == NextWork(r.p, hist, hist[|hist| - 1].bits, blk.header.timestamp)
    ensures CheckBlock(r, hist, blk, utxo, now, skipPow).Accepted? <==>
              && HeaderPasses(r, hist[|hist| - 1], blk, bits, now, skipPow)
              && TransactionsOutcome(r, blk, |hist|, utxo).Accepted?
  {
    hide NextWork, TransactionsOutcome, HeaderPasses, HeaderFault;
    HeaderPassesMeaning(r, hist, blk, bits, now, skipPow);
    if HeaderPasses(r, hist[|hist| - 1], blk, bits, now, skipPow) {
      TransactionsPresent(r, hist, blk, now, skipPow);
    }
  }

  /** The check a diagnosis names, on top of the tip and its unspent outputs, does fail; or nothing fails. */
  predicate Holds(r: Rules, tip: Header, blk: Block, bits: Bits, height: nat, utxo: UtxoMap, now: nat, skipPow: bool, d: Diagnosis) {
    match d
    case StalePrevLink => blk.header.prev != r.c.Link(tip)
    case TxCount => MAX_TRANSACTIONS_PER_BLOCK < |blk.transactions|
    case Size => MAX_BLOCK_SIZE_BYTES < r.c.blockSize(blk)
    case Fault(reason) => FaultHolds(r, tip, blk, bits, height, utxo, now, skipPow, reason)
    case ValidTipExtension =>
      HeaderPasses(r, tip, blk, bits, now, skipPow) && StatelessOk(r, blk, skipPow)
      && TransactionsOutcome(r, blk, height, utxo).Accepted?
  }

  predicate FaultHolds(r: Rules, tip: Header, blk: Block, bits: Bits, height: nat, utxo: UtxoMap, now: nat, skipPow: bool, reason: Reason) {
    match reason
    case BitsEncoding => !skipPow && !IsCanonical(blk.header.bits, 64)
    case BadPow => !skipPow && !CheckPow(r.c, r.p, blk.header)
    case BadMerkle => r.c.MerkleRoot(blk.transactions) != blk.header.merkleRoot
    case BadTimestamp => !TimestampValid(r.p, blk.header, Some(tip), now)
    case WrongBits => blk.header.bits != bits
    case CoinbaseMissing => blk.transactions == [] || !blk.transactions[0].IsCoinbase()
    case TxRejected(_) | CoinbaseOverpay =>
      blk.transactions != [] && TransactionsOutcome(r, blk, height, utxo).Rejected?
      && TransactionsOutcome(r, blk, height, utxo).reason == reason
    case MissingBlock | PrevLink => false
  }

  /** The answer about everything but the transactions' effect, in the order of the checks. Without a parent the
      expected link is zero, and a block that has it skips the checks on proof of work. */
  function HeaderDiagnosis(r: Rules, parent: Option<Header>, blk: Block, bits: Bits, now: nat, skipPow: bool): Option<Diagnosis> {
    var h := blk.header;
    if h.prev != ParentLink(r.c, parent) then Some(StalePrevLink)
    else if !skipPow && h.prev != 0 && !IsCanonical(h.bits, 64) then Some(Fault(BitsEncoding))
    else if !skipPow && h.prev != 0 && !CheckPow(r.c, r.p, h) then Some(Fault(BadPow))
    else if r.c.MerkleRoot(blk.transactions) != h.merkleRoot then Some(Fault(BadMerkle))
    else if |blk.transactions| > MAX_TRANSACTIONS_PER_BLOCK then Some(TxCount)
    else if r.c.blockSize(blk) > MAX_BLOCK_SIZE_BYTES then Some(Size)
    else if !TimestampValid(r.p, h, parent, now) then Some(Fault(BadTimestamp))
    else if h.bits != bits then Some(Fault(WrongBits))
    else if blk.transactions == [] || !blk.transactions[0].IsCoinbase() then Some(Fault(CoinbaseMissing))
    else None
  }

  function ParentLink(c: Crypto, parent: Option<Header>): nat {
    if parent.Some? then c.Link(parent.value) else 0
  }

  /** The whole answer. */
  function Diagnose(r: Rules, parent: Option<Header>, blk: Block, bits: Bits, height: nat, utxo: UtxoMap, now: nat, skipPow: bool): Diagnosis {
    var fault := HeaderDiagnosis(r, parent, blk, bits, now, skipPow);
    if fault.Some? then fault.value
    else match TransactionsOutcome(r, blk, height, utxo)
      case Rejected(reason, _) => Fault(reason)
      case Accepted(_) => ValidTipExtension
  }

  method DiagnoseHeader(r: Rules, parent: Option<Header>, blk: Block, bits: Bits, now: nat, skipPow: bool)
    returns (d: Option<Diagnosis>)
    ensures d == HeaderDiagnosis(r, parent, blk, bits, now, skipPow)
  {
    hide IsCanonical, CheckPow, TimestampValid;
    var expectedLink := if parent.Some? then r.c.Link(parent.value) else 0;
    if blk.header.prev != expectedLink {
      return Some(StalePrevLink);
    }
    if !skipPow && blk.header.prev != 0 {
      if !IsCanonical(blk.header.bits, 64) {
        return Some(Fault(BitsEncoding));
      }
      if !CheckPow(r.c, r.p, blk.header) {
        return Some(Fault(BadPow));
      }
    }
    if r.c.MerkleRoot(blk.transactions) != blk.header.merkleRoot {
      return Some(Fault(BadMerkle));
    }
    if |blk.transactions| > MAX_TRANSACTIONS_PER_BLOCK {
      return Some(TxCount);
    }
    if r.c.blockSize(blk) > MAX_BLOCK_SIZE_BYTES {
      return Some(Size);
    }
    if !TimestampValid(r.p, blk.header, parent, now) {
      return Some(Fault(BadTimestamp));
    }
    if blk.header.bits != bits {
      return Some(Fault(WrongBits));
    }
    if blk.transactions == [] || !blk.transactions[0].IsCoinbase() {
      return Some(Fault(CoinbaseMissing));
    }
    return None;
  }

  /** On top of the tip's header every check named does fail, and nothing is named exactly when all pass. */
  lemma DiagnoseHolds(r: Rules, tip: Header, blk: Block, bits: Bits, height: nat, utxo: UtxoMap, now: nat, skipPow: bool)
    requires r.c.Sound()
    ensures Holds(r, tip, blk, bits, height, utxo, now, skipPow, Diagnose(r, Some(tip), blk, bits, height, utxo, now, skipPow))
  {
    hide HeaderDiagnosis, HeaderPasses, TransactionsOutcome, StatelessOk, TimestampValid, IsCanonical, CheckPow;
    HeaderDiagnosisHolds(r, tip, blk, bits, height, utxo, now, skipPow);
    if HeaderDiagnosis(r, Some(tip), blk, bits, now, skipPow).None? {
      OutcomeReason(r, blk, height, utxo);
    }
  }

  lemma OutcomeReason(r: Rules, blk: Block, height: nat, utxo: UtxoMap)
    requires blk.transactions != []
    ensures match TransactionsOutcome(r, blk, height, utxo)
            case Accepted(_) => true
            case Rejected(reason, _) => reason.TxRejected? || reason.CoinbaseOverpay?
  {
    hide ApplyAll, Wrap64, BlockReward;
  }

  lemma TipHasLink(c: Crypto, tip: Header)
    requires c.Sound()
    ensures c.Link(tip) != 0
  {
  }

  lemma HeaderDiagnosisHolds(r: Rules, tip: Header, blk: Block, bits: Bits, height: nat, utxo: UtxoMap, now: nat, skipPow: bool)
    requires r.c.Sound()
    ensures var fault := HeaderDiagnosis(r, Some(tip), blk, bits, now, skipPow);
            if fault.Some? then !fault.value.ValidTipExtension? && Holds(r, tip, blk, bits, height, utxo, now, skipPow, fault.value)
            else blk.transactions != [] && HeaderPasses(r, tip, blk, bits, now, skipPow) && StatelessOk(r, blk, skipPow)
  {
    hide IsCanonical, CheckPow, TransactionsOutcome, TimestampValid, Crypto.MerkleRoot, Crypto.Link, Crypto.Sound;
    TipHasLink(r.c, tip);
  }

  /** The transactions of the candidate on a copy of the unspent outputs, then the reward. */
  method DiagnoseTransactions(r: Rules, working: UTXOSet, blk: Block, height: nat) returns (d: Diagnosis)
    requires blk.transactions != []
    modifies working
    ensures match TransactionsOutcome(r, blk, height, old(working.entries))
            case Rejected(reason, _) => d == Fault(reason)
            case Accepted(_) => d == ValidTipExtension
  {
    hide ApplyAll, BlockReward, Wrap64;
    var failed, fees := ApplyTransactions(r.c, working, blk.transactions, Wrap32(height));
    if failed.Some? {
      return Fault(TxRejected(failed.value));
    }
    var coinbaseOut := UTXOSet.SumOutputs(blk.transactions[0]);
    if coinbaseOut > Wrap64(BlockReward(height) + fees) {
      return Fault(CoinbaseOverpay);
    }
    return ValidTipExtension;
  }

  /** Nothing fails exactly when the block passes all checks on top of the tip. */
  lemma NothingFails(r: Rules, hist: seq<Header>, blk: Block, bits: Bits, utxo: UtxoMap, now: nat, skipPow: bool, d: Diagnosis)
    requires hist != [] && bits == NextWork(r.p, hist, hist[|hist| - 1].bits, blk.header.timestamp)
    requires Holds(r, hist[|hist| - 1], blk, bits, |hist|, utxo, now, skipPow, d)
    ensures d.ValidTipExtension? <==> StatelessOk(r, blk, skipPow) && CheckBlock(r, hist, blk, utxo, now, skipPow).Accepted?
  {
    hide NextWork, TransactionsOutcome, CheckBlock, IsCanonical, CheckPow;
    CheckSplit(r, hist, blk, bits, utxo, now, skipPow);
  }

  // ---------------------------------------------------------------------------
  // The tip's file
  // ---------------------------------------------------------------------------

  /** Main result: when the parent on file is not the tip, or there is none, the answer is never right about a
      valid extension: it is called stale, and whatever is called valid does not extend the active path. */
  lemma WrongParentMisjudges(r: Rules, hist: seq<Header>, parent: Option<Header>, blk: Block, bits: Bits, utxo: UtxoMap, now: nat, skipPow: bool)
    requires r.c.Sound() && hist != [] && parent != Some(hist[|hist| - 1])
    ensures var d := Diagnose(r, parent, blk, bits, |hist|, utxo, now, skipPow);
            && (blk.header.prev == r.c.Link(hist[|hist| - 1]) ==> d == StalePrevLink)
            && (CheckBlock(r, hist, blk, utxo, now, skipPow).Accepted? ==> d == StalePrevLink)
            && (d.ValidTipExtension? ==> !CheckBlock(r, hist, blk, utxo, now, skipPow).Accepted?)
  {
    hide IsCanonical, CheckPow, TransactionsOutcome, TimestampValid, ExpectedBits;
    var tip := hist[|hist| - 1];
    assert r.c.Link(tip) != 0;
  }

  /** A block without parent and with nothing in it but a coinbase that pays nobody. */
  function Orphaned(r: Rules, timestamp: Uint32, bits: Bits, coinbase: Transaction): Block {
    Block(Header(1, 0, r.c.MerkleRoot([coinbase]), timestamp, bits, 0), [coinbase])
  }

  /** The failing input: with no file for the tip, a block that names no parent is called a valid extension,
      without any proof of work, though no block without parent extends a chain. */
  lemma MissingParentAccepts(r: Rules, hist: seq<Header>, timestamp: Uint32, bits: Bits, coinbase: Transaction, utxo: UtxoMap,
                             now: nat, skipPow: bool)
    requires r.c.Sound() && hist != [] && coinbase.IsCoinbase() && coinbase.outputs == []
    requires !TooFarInFuture(r.p, timestamp, now) && r.c.blockSize(Orphaned(r, timestamp, bits, coinbase)) <= MAX_BLOCK_SIZE_BYTES
    ensures var blk := Orphaned(r, timestamp, bits, coinbase);
            && Diagnose(r, None, blk, bits, |hist|, utxo, now, skipPow) == ValidTipExtension
            && !CheckBlock(r, hist, blk, utxo, now, skipPow).Accepted?
  {
    hide IsCanonical, CheckPow, BlockReward, Crypto.MerkleRoot, ExpectedBits;
    var blk := Orphaned(r, timestamp, bits, coinbase);
    var txs := blk.transactions;
    assert r.c.Link(hist[|hist| - 1]) != 0;
    assert ApplyAll(r.c, utxo, txs, Wrap32(|hist|), 0) == Applied(None, utxo, 0);
    assert ApplyAll(r.c, utxo, txs, Wrap32(|hist|), 1) == Applied(None, utxo, 0);
    Supply.RewardSmall(|hist|);
    Wrap64Identity(0);
    Wrap64Identity(BlockReward(|hist|));
  }
}
