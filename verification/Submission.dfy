/** Handing the mined template to the node it was built on. */
module Submission {
  import opened Arith
  import opened CompactTarget
  import opened Primitives
  import opened Retarget
  import opened Utxo
  import opened PathValidation
  import opened ChainState
  import opened ChainSteps
  import opened Effects
  import opened TipExtension
  import opened TipSwitch
  import opened PoolIndexes
  import opened Selection
  import opened Template
  import Supply
  import Blockchain
  import Mempool
  import Miner
  import MiningRound
  import MinedBlock
  import Wire

  /** The template of a node in the given state, built at a time that fits the parent. */
  ghost predicate TemplateOf(r: Rules, s: State, picked: seq<TxEntry>, blk: Block, payout: Payout, now: nat)
    requires TablesOk(r, s)
  {
    && s.tip in s.index
    && IsTemplate(r, Some(s.index[s.tip]), NextWork(r.p, ActiveHeaders(r, s), s.tipBits, TemplateTime(Some(s.index[s.tip]), now)),
                  s.best + 1, blk, payout, picked, now)
    && ApplyAll(r.c, s.utxo, Transactions(picked), Wrap32(s.best + 1), |picked|).failed.None?
    && now < 0x1_0000_0000 && TimeFits(r.p, s.index[s.tip], now)
    && blk.transactions != [] && FreshCoinbase(r.c, blk, s.utxo)
  }

  /** The block is within the limits that templates do not enforce. */
  predicate WithinLimits(r: Rules, blk: Block) {
    |blk.transactions| <= MAX_TRANSACTIONS_PER_BLOCK && r.c.blockSize(blk) <= MAX_BLOCK_SIZE_BYTES
  }

  lemma TemplateStateless(r: Rules, s: State, picked: seq<TxEntry>, blk: Block, payout: Payout, now: nat,
                          nonce: Uint32, skipPow: bool)
    requires TablesOk(r, s) && TemplateOf(r, s, picked, blk, payout, now) && WithinLimits(r, WithNonce(blk, nonce))
    requires IsCanonical(blk.header.bits, 64) && CheckPow(r.c, r.p, WithNonce(blk, nonce).header)
    ensures StatelessOk(r, WithNonce(blk, nonce), skipPow)
    ensures WithNonce(blk, nonce).header.prev == r.c.Link(s.index[s.tip]) && WithNonce(blk, nonce).header.bits == blk.header.bits
  {
    hide TablesOk, ActiveHeaders, NextWork, ApplyAll, FreshCoinbase, FeesFit, TimeFits,
         IsCanonical, CheckPow, Crypto.MerkleRoot, Crypto.Link, Coinbase;
  }

  /** Whenever the block is judged, its fees decide. */
  lemma TemplateExtends(r: Rules, s: State, clock: nat, powSkipped: bool, picked: seq<TxEntry>, blk: Block,
                        payout: Payout, now: nat, nonce: Uint32, x: Context)
    requires TablesOk(r, s) && UtxoOk(r, s, clock, powSkipped) && clock <= now <= x.now && (powSkipped ==> x.skipPow)
    requires TemplateOf(r, s, picked, blk, payout, now)
    requires IsCanonical(blk.header.bits, 64) && CheckPow(r.c, r.p, WithNonce(blk, nonce).header)
    ensures PathValid(r, ActiveBlocks(r, s) + [WithNonce(blk, nonce)], x.now, x.skipPow) <==> FeesFit(r.c, s.utxo, picked, s.best + 1)
  {
    hide TablesOk, UtxoOk, ActiveHeaders, ActiveBlocks, NextWork, IsTemplate, ApplyAll, FreshCoinbase, FeesFit, TimeFits,
         IsCanonical, CheckPow, Replay;
    if FeesFit(r.c, s.utxo, picked, s.best + 1) {
      TemplateIsValid(r, s, clock, powSkipped, picked, blk, payout, now, nonce, x.skipPow);
      ReplayRelax(r, ActiveBlocks(r, s) + [WithNonce(blk, nonce)], now, x.now, x.skipPow, x.skipPow);
    } else {
      UnfitTemplateFails(r, s, clock, powSkipped, picked, blk,
                         NextWork(r.p, ActiveHeaders(r, s), s.tipBits, TemplateTime(Some(s.index[s.tip]), now)), payout, now, nonce,
                         x.now, x.skipPow);
    }
  }

  lemma TemplateHasWork(r: Rules, blk: Block, nonce: Uint32)
    requires IsCanonical(blk.header.bits, 64) && CheckPow(r.c, r.p, WithNonce(blk, nonce).header) && PowLimit(r.p) + 1 < Pow256(64)
    ensures 0 < BlockWork(r.p, blk.header.bits)
  {
    hide Pow256, Expand, IsCanonical, BlockWork, Overflows, IsNegative, IsZero;
    LegalTargetHasWork(r.p, blk.header.bits);
  }

  /** What becomes of a mined template, from the tables before, right after its own decision, and after the call. If
      its fees fit it becomes the tip, on top of everything that was active, and stays the tip of the call if no
      block waits for it. Otherwise the active chain stays and the block is not kept. */
  ghost predicate Settled(r: Rules, s: State, first: State, t: State, mined: Block, fits: bool, verdict: Verdict) {
    if fits then
      && verdict == Switch && first.tip == r.c.Id(mined.header) && first.best == s.best + 1
      && (forall h: nat :: h <= s.best ==> h in first.heightMap && h in s.heightMap && first.heightMap[h] == s.heightMap[h])
      && (r.c.Link(mined.header) !in s.children ==> t.tip == r.c.Id(mined.header) && t.best == s.best + 1)
    else
      (verdict == Refused || verdict == Invalid) && SameChain(s, t) && r.c.Id(mined.header) !in t.index
  }

  lemma Settles(r: Rules, s: State, states: seq<State>, t: State, mined: Block, x: Context, verdict: Verdict, fits: bool)
    requires r.c.Sound() && TablesOk(r, s) && NewOnTip(r, s, mined) && StatelessOk(r, mined, x.skipPow)
    requires PathValid(r, ActiveBlocks(r, s) + [mined], x.now, x.skipPow) <==> fits
    requires Redecisions(r, x, states, t) && Decided(r, s, states[0], mined, x, verdict, true)
    requires r.c.Link(mined.header) !in states[0].children || (verdict != Side && verdict != Switch) ==> |states| == 1
    ensures Settled(r, s, states[0], t, mined, fits, verdict)
  {
    hide TablesOk, NewOnTip, StatelessOk, PathValid, Redecisions, Decided, ActiveBlocks, Crypto.Sound, Crypto.Id, Crypto.Link;
    LastOfTrail(r, x, states, t);
    if fits {
      ExtensionSwitches(r, s, states[0], mined, x, verdict, true);
    } else {
      ExtensionRefused(r, s, states[0], mined, x, verdict, true);
    }
  }

  /** Main result: a template whose nonce meets the target, handed to the node it was built on, becomes the tip if and
      only if its fees fit, when it is new and within the limits. */
  method SubmitMined(node: Node, blk: Block, nonce: Uint32, x: Context, ghost picked: seq<TxEntry>,
                     ghost payout: Payout, ghost now: nat)
    returns (ok: bool, verdict: Verdict, ghost states: seq<State>)
    requires node.Valid() && node.store.reliable && node.clock <= now <= x.now && (node.powSkipped ==> x.skipPow)
    requires TablesOk(node.rules, node.View()) && TemplateOf(node.rules, node.View(), picked, blk, payout, now)
    requires WithinLimits(node.rules, WithNonce(blk, nonce)) && node.rules.c.Id(WithNonce(blk, nonce).header) !in node.index
    requires IsCanonical(blk.header.bits, 64) && CheckPow(node.rules.c, node.rules.p, WithNonce(blk, nonce).header)
    requires PowLimit(node.rules.p) + 1 < Pow256(64)
    modifies node, node.utxo, node.store
    ensures node.Valid()
    ensures ok <==> old(FeesFit(node.rules.c, node.utxo.entries, picked, node.bestHeight + 1))
    ensures Redecisions(node.rules, x, states, node.View())
    ensures Settled(node.rules, old(node.View()), states[0], node.View(), WithNonce(blk, nonce),
                    old(FeesFit(node.rules.c, node.utxo.entries, picked, node.bestHeight + 1)), verdict)
  {
    hide *;
    ghost var s := node.View();
    node.IsValid();
    node.ViewFields();
    var mined := WithNonce(blk, nonce);
    Prepared(node.rules, s, node.clock, node.powSkipped, picked, blk, payout, now, nonce, x);
    Blockchain.NoGoal(node.rules, s, x);
    var stored;
    ok, verdict, stored, states := node.AcceptBlock(mined, x);
    LastOfTrail(node.rules, x, states, node.View());
    ghost var fits := FeesFit(node.rules.c, s.utxo, picked, s.best + 1);
    Settles(node.rules, s, states, node.View(), mined, x, verdict, fits);
    SettledVerdict(node.rules, s, states[0], node.View(), mined, fits, verdict);
  }

  lemma SettledVerdict(r: Rules, s: State, first: State, t: State, mined: Block, fits: bool, verdict: Verdict)
    requires Settled(r, s, first, t, mined, fits, verdict)
    ensures if fits then verdict == Switch else verdict == Refused || verdict == Invalid
  {
    hide SameChain;
  }

  lemma LastOfTrail(r: Rules, x: Context, states: seq<State>, t: State)
    requires Redecisions(r, x, states, t)
    ensures states != [] && (|states| == 1 ==> states[0] == t)
  {
    hide Redecided;
  }

  lemma Prepared(r: Rules, s: State, clock: nat, powSkipped: bool, picked: seq<TxEntry>, blk: Block, payout: Payout,
                 now: nat, nonce: Uint32, x: Context)
    requires TablesOk(r, s) && UtxoOk(r, s, clock, powSkipped) && clock <= now <= x.now && (powSkipped ==> x.skipPow)
    requires TemplateOf(r, s, picked, blk, payout, now) && WithinLimits(r, WithNonce(blk, nonce))
    requires r.c.Id(WithNonce(blk, nonce).header) !in s.index && PowLimit(r.p) + 1 < Pow256(64)
    requires IsCanonical(blk.header.bits, 64) && CheckPow(r.c, r.p, WithNonce(blk, nonce).header)
    ensures NewOnTip(r, s, WithNonce(blk, nonce)) && StatelessOk(r, WithNonce(blk, nonce), x.skipPow)
    ensures PathValid(r, ActiveBlocks(r, s) + [WithNonce(blk, nonce)], x.now, x.skipPow) <==> FeesFit(r.c, s.utxo, picked, s.best + 1)
  {
    hide TablesOk, UtxoOk, ActiveHeaders, ActiveBlocks, NextWork, IsTemplate, ApplyAll, FreshCoinbase, FeesFit, TimeFits,
         IsCanonical, CheckPow, Replay, StatelessOk, BlockWork, WithinLimits, PathValid, Crypto.Id, Crypto.Link;
    TemplateStateless(r, s, picked, blk, payout, now, nonce, x.skipPow);
    TemplateExtends(r, s, clock, powSkipped, picked, blk, payout, now, nonce, x);
    TemplateHasWork(r, blk, nonce);
  }

  // ---------------------------------------------------------------------------
  // From the pool to the tip
  // ---------------------------------------------------------------------------

  /** What the whole round asks for beyond a consistent node and pool: reliable writes, the tip on file, a clock that
      fits the parent, a free coinbase outpoint, legal bits, SHA3-512 as the digest of the template's
      headers, and that none of them is over the limits or known already. */
  ghost predicate Favourable(r: Rules, s: State, reliable: bool, filed: bool, clock: nat, powSkipped: bool,
                             blk: Block, now: nat, x: Context)
  {
    && reliable && filed && clock <= now <= x.now && (powSkipped ==> x.skipPow)
    && s.tip in s.index && now < 0x1_0000_0000 && TimeFits(r.p, s.index[s.tip], now)
    && blk.transactions != [] && FreshCoinbase(r.c, blk, s.utxo)
    && IsCanonical(blk.header.bits, 64) && PowTarget(r.p, blk.header.bits).Some? && PowLimit(r.p) + 1 < Pow256(64)
    && MinedBlock.HashesNonces(r.c, blk.header)
    && forall nonce: Uint32 :: WithinLimits(r, WithNonce(blk, nonce)) && r.c.Id(WithNonce(blk, nonce).header) !in s.index
  }

  lemma TemplateStands(r: Rules, s: State, reliable: bool, clock: nat, powSkipped: bool, picked: seq<TxEntry>,
                       working: UtxoMap, blk: Block, payout: Payout, now: nat, x: Context, pricing: Pricing, size: nat)
    requires TablesOk(r, s) && Favourable(r, s, reliable, true, clock, powSkipped, blk, now, x)
    requires IsTemplate(r, Some(s.index[s.tip]), NextWork(r.p, ActiveHeaders(r, s), s.tipBits, TemplateTime(Some(s.index[s.tip]), now)),
                        s.best + 1, blk, payout, picked, now)
    requires Chosen(r.c, s.utxo, Wrap32(s.best + 1), size, MAX_BLOCK_SIZE_BYTES, picked, working, size + Sizes(picked), pricing)
    ensures TemplateOf(r, s, picked, blk, payout, now)
  {
    hide TablesOk, ActiveHeaders, NextWork, IsTemplate, ApplyAll, FreshCoinbase, FeesFit, TimeFits,
         IsCanonical, MinedBlock.HashesNonces, WithinLimits, Pow256;
    ChosenApply(r.c, s.utxo, Wrap32(s.best + 1), size, picked, working, pricing);
  }

  lemma ChosenApply(c: Crypto, utxo: UtxoMap, height: Uint32, size: nat, picked: seq<TxEntry>, working: UtxoMap, pricing: Pricing)
    requires Chosen(c, utxo, height, size, MAX_BLOCK_SIZE_BYTES, picked, working, size + Sizes(picked), pricing)
    ensures ApplyAll(c, utxo, Transactions(picked), height, |picked|).failed.None?
  {
    hide ApplyAll, Sizes;
  }

  /** The nonces of a round on the template, as the node's own check sees them. */
  ghost predicate NoneChecks(r: Rules, blk: Block, seed: Uint32, n: nat) {
    forall i :: 0 <= i < n ==> !CheckPow(r.c, r.p, WithNonce(blk, MiningRound.NonceAfter(seed, i)).header)
  }

  /** The block carries the picked transactions after its coinbase. */
  ghost predicate Carries(blk: Block, picked: seq<TxEntry>) {
    blk.transactions != [] && blk.transactions[1..] == Transactions(picked)
  }

  /** A find passes the node's check and is settled by its fees; without one no nonce of the round passes. */
  ghost predicate RoundOutcome(r: Rules, s: State, states: seq<State>, t: State, blk: Block, picked: seq<TxEntry>, found: bool, nonce: Uint32,
                               verdict: Verdict, seed: Uint32, n: nat)
  {
    if found then
      && CheckPow(r.c, r.p, WithNonce(blk, nonce).header) && states != []
      && Settled(r, s, states[0], t, WithNonce(blk, nonce), FeesFit(r.c, s.utxo, picked, s.best + 1), verdict)
    else NoneChecks(r, blk, seed, n)
  }

  lemma FindSettled(r: Rules, s: State, states: seq<State>, t: State, blk: Block, picked: seq<TxEntry>, nonce: Uint32, verdict: Verdict,
                    seed: Uint32, n: nat)
    requires CheckPow(r.c, r.p, WithNonce(blk, nonce).header) && states != []
    requires Settled(r, s, states[0], t, WithNonce(blk, nonce), FeesFit(r.c, s.utxo, picked, s.best + 1), verdict)
    ensures RoundOutcome(r, s, states, t, blk, picked, true, nonce, verdict, seed, n)
  {
    hide CheckPow, Settled, FeesFit;
  }

  lemma NothingFound(r: Rules, s: State, states: seq<State>, t: State, blk: Block, picked: seq<TxEntry>, nonce: Uint32, verdict: Verdict,
                     seed: Uint32, n: nat)
    requires NoneChecks(r, blk, seed, n)
    ensures RoundOutcome(r, s, states, t, blk, picked, false, nonce, verdict, seed, n)
  {
    hide NoneChecks;
  }

  /** Main result: one round of mining from end to end. The node builds a template from its pool, the workers search
      it, and what they find is handed back to the node. Under favourable circumstances a find passes the node's check
      and becomes the tip if and only if its fees fit, and without a find no nonce of the round passes the check. */
  method MineBlock(node: Node, pool: Mempool.Mempool, payout: Payout, now: nat, seed: Uint32, threads: Uint32, limit: nat, vector: bool,
                   x: Context, ghost pricing: Pricing)
    returns (blk: Block, found: bool, nonce: Uint32, verdict: Verdict, ghost picked: seq<TxEntry>, ghost states: seq<State>)
    requires node.Valid() && pool.Valid() && pool.policy.c == node.rules.c && node.clock <= x.now && 0 < threads && 0 < limit
    requires pricing.holds ==> Valued(pricing.value, node.utxo.entries)
    requires forall id :: id in pool.txs ==> EntryPriced(pool.policy.c, pricing, pool.txs[id])
    requires ParentLink(node.rules.c, node.TipParent()) < Pow256(32) && forall txs :: node.rules.c.MerkleRoot(txs) < Pow256(32)
    modifies node, node.utxo, node.store
    ensures node.Valid()
    ensures Carries(blk, picked)
    ensures if found then Redecisions(node.rules, x, states, node.View()) else node.View() == old(node.View())
    ensures old(Favourable(node.rules, node.View(), node.store.reliable, node.TipFiled(), node.clock, node.powSkipped, blk, now, x)) ==>
              RoundOutcome(node.rules, old(node.View()), states, node.View(), blk, picked, found, nonce, verdict, seed, Product(threads, limit))
  {
    hide *;
    ghost var working;
    ghost var s := node.View();
    node.IsValid();
    node.ViewFields();
    node.TipParentIs();
    blk, picked, working := BuildTemplate(node, pool, payout, now, pricing);
    TemplateList(node.rules, node.TipParent(), blk, s.best + 1, picked, payout, now,
                 NextWork(node.rules.p, ActiveHeaders(node.rules, s), node.tipBits, TemplateTime(node.TipParent(), now)));
    TemplateOnWire(node.rules, node.TipParent(), blk, s.best + 1, picked, payout, now,
                   NextWork(node.rules.p, ActiveHeaders(node.rules, s), node.tipBits, TemplateTime(node.TipParent(), now)));
    var hash, iterations, nextSeed;
    found, nonce, hash, iterations, nextSeed :=
      MiningRound.MineRound(MinedBlock.HeaderBytes(blk.header), MinedBlock.TargetBytes(blk.header.bits), seed, threads, limit, vector);
    ghost var favourable := Favourable(node.rules, s, node.store.reliable, node.TipFiled(), node.clock, node.powSkipped, blk, now, x);
    if favourable {
      FavourableParts(node.rules, s, node.store.reliable, node.TipFiled(), node.clock, node.powSkipped, blk, now, x);
      TemplateStands(node.rules, s, node.store.reliable, node.clock, node.powSkipped, picked, working, blk, payout, now, x, pricing,
                     node.rules.c.txSize(blk.transactions[0]));
      if found {
        MinedBlock.FoundPasses(node.rules, blk, nonce);
        NonceInside(node.rules, s, node.store.reliable, node.TipFiled(), node.clock, node.powSkipped, blk, now, x, nonce);
        Prepared(node.rules, s, node.clock, node.powSkipped, picked, blk, payout, now, nonce, x);
      } else {
        MinedBlock.NothingPasses(node.rules, blk, seed, Product(threads, limit));
        NoneChecksIs(node.rules, blk, seed, Product(threads, limit));
      }
    }
    verdict, states := Refused, [s];
    if found {
      Blockchain.NoGoal(node.rules, s, x);
      var ok, stored;
      ok, verdict, stored, states := node.AcceptBlock(WithNonce(blk, nonce), x);
      LastOfTrail(node.rules, x, states, node.View());
      if favourable {
        Settles(node.rules, s, states, node.View(), WithNonce(blk, nonce), x, verdict, FeesFit(node.rules.c, s.utxo, picked, s.best + 1));
        FindSettled(node.rules, s, states, node.View(), blk, picked, nonce, verdict, seed, Product(threads, limit));
      }
    } else if favourable {
      NothingFound(node.rules, s, states, node.View(), blk, picked, nonce, verdict, seed, Product(threads, limit));
    }
  }

  lemma NoneChecksIs(r: Rules, blk: Block, seed: Uint32, n: nat)
    ensures NoneChecks(r, blk, seed, n)
            <==> forall i :: 0 <= i < n ==> !CheckPow(r.c, r.p, WithNonce(blk, MiningRound.NonceAfter(seed, i)).header)
  {
    hide CheckPow;
  }

  lemma TemplateList(r: Rules, parent: Option<Header>, blk: Block, height: nat, picked: seq<TxEntry>, payout: Payout, now: nat, bits: Bits)
    requires IsTemplate(r, parent, bits, height, blk, payout, picked, now)
    ensures Carries(blk, picked)
  {
    hide Crypto.MerkleRoot, Crypto.Link, Coinbase, Transactions;
  }

  lemma TemplateOnWire(r: Rules, parent: Option<Header>, blk: Block, height: nat, picked: seq<TxEntry>, payout: Payout, now: nat, bits: Bits)
    requires IsTemplate(r, parent, bits, height, blk, payout, picked, now)
    requires ParentLink(r.c, parent) < Pow256(32) && forall txs :: r.c.MerkleRoot(txs) < Pow256(32)
    ensures Wire.HeaderOk(blk.header)
  {
    hide Pow256, Crypto.MerkleRoot, Crypto.Link, Coinbase;
  }

  lemma FavourableParts(r: Rules, s: State, reliable: bool, filed: bool, clock: nat, powSkipped: bool, blk: Block,
                        now: nat, x: Context)
    requires Favourable(r, s, reliable, filed, clock, powSkipped, blk, now, x)
    ensures reliable && filed && clock <= now <= x.now && (powSkipped ==> x.skipPow) && s.tip in s.index && blk.transactions != []
    ensures IsCanonical(blk.header.bits, 64) && PowTarget(r.p, blk.header.bits).Some? && PowLimit(r.p) + 1 < Pow256(64)
    ensures MinedBlock.HashesNonces(r.c, blk.header)
  {
    hide FreshCoinbase, FeesFit, TimeFits, IsCanonical, MinedBlock.HashesNonces, WithinLimits, Pow256, PowTarget;
  }

  lemma NonceInside(r: Rules, s: State, reliable: bool, filed: bool, clock: nat, powSkipped: bool, blk: Block,
                    now: nat, x: Context, nonce: Uint32)
    requires Favourable(r, s, reliable, filed, clock, powSkipped, blk, now, x)
    ensures WithinLimits(r, WithNonce(blk, nonce)) && r.c.Id(WithNonce(blk, nonce).header) !in s.index
  {
    hide FreshCoinbase, FeesFit, TimeFits, IsCanonical, MinedBlock.HashesNonces, WithinLimits, Pow256, PowTarget;
  }
}
