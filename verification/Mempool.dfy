/** The memory pool: pooled transactions with their indexes, and orphans that wait for their parents. */
module Mempool {
  import opened Arith
  import opened Primitives
  import opened Utxo
  import opened PoolIndexes
  import opened Admission

  class Mempool {
    const policy: Policy

    var txs: map<nat, TxEntry>
    var sortedByFeeRate: set<FeeKey>
    var spentOutpoints: map<OutPoint, nat>
    var orphans: map<nat, OrphanEntry>
    var orphansByParent: set<Wait>
    var orphanOrder: seq<nat>
    var totalBytes: nat

    /** The pool indexes agree with the entries. */
    ghost predicate Consistent()
      reads this
    {
      Indexed(policy.c, txs, sortedByFeeRate, spentOutpoints, totalBytes)
    }

    ghost predicate OrphansConsistent(due: set<Wait>)
      reads this
    {
      OrphansOk(policy.c, txs, orphans, orphansByParent, orphanOrder, due)
    }

    /** Holds between public calls with nothing due; while orphans are being tried again, `due` lists the
        waits whose parent is already pooled. */
    ghost predicate Valid(due: set<Wait> := {})
      reads this
    {
      Consistent() && Within(txs) && OrphansConsistent(due)
    }

    /** What the pool holds, apart from the indexes that follow from it. */
    function Pool(): PoolState
      reads this
    {
      PoolState(txs, spentOutpoints, orphans, orphanOrder, orphansByParent)
    }

    constructor (policy: Policy)
      ensures this.policy == policy && Valid() && txs == map[] && orphans == map[]
    {
      this.policy := policy;
      txs, sortedByFeeRate, spentOutpoints, totalBytes := map[], {}, map[], 0;
      orphans, orphansByParent, orphanOrder := map[], {}, [];
    }

    method Clear()
      modifies this
      ensures Valid() && txs == map[] && orphans == map[]
    {
      txs, sortedByFeeRate, spentOutpoints, totalBytes := map[], {}, map[], 0;
      orphans, orphansByParent, orphanOrder := map[], {}, [];
    }

    // -------------------------------------------------------------------------
    // Pooled transactions
    // -------------------------------------------------------------------------

    /** Frees the outpoints that the transaction spends. */
    method FreeOutpoints(id: nat)
      requires id in txs && SpentOk(txs, spentOutpoints)
      modifies `spentOutpoints
      ensures spentOutpoints == old(spentOutpoints) - Prevouts(txs[id].tx.inputs)
    {
      hide SpentOk, Prevouts;
      var inputs := txs[id].tx.inputs;
      assert inputs[..0] == [];
      NoPrevouts();
      for i := 0 to |inputs|
        invariant spentOutpoints == old(spentOutpoints) - Prevouts(inputs[..i])
      {
        OwnInput(txs, old(spentOutpoints), id, i);
        assert inputs[..i + 1] == inputs[..i] + [inputs[i]];
        PrevoutsSnoc(inputs[..i], inputs[i]);
        if inputs[i].prevout in spentOutpoints && spentOutpoints[inputs[i].prevout] == id {
          spentOutpoints := spentOutpoints - {inputs[i].prevout};
        }
      }
      assert inputs[..|inputs|] == inputs;
    }

    method Remove(id: nat)
      requires Consistent()
      modifies `txs, `sortedByFeeRate, `spentOutpoints, `totalBytes
      ensures Consistent() && txs == old(txs) - {id}
      ensures sortedByFeeRate == if id in old(txs) then old(sortedByFeeRate) - {KeyOf(id, old(txs)[id])} else old(sortedByFeeRate)
    {
      hide SortedOk, SpentOk, EntriesOk, SizeSum;
      if id !in txs {
        return;
      }
      IndexedWithout(policy.c, txs, sortedByFeeRate, spentOutpoints, totalBytes, id);
      FreeOutpoints(id);
      sortedByFeeRate := sortedByFeeRate - {KeyOf(id, txs[id])};
      totalBytes := totalBytes - txs[id].size;
      txs := txs - {id};
    }

    /** Removing a transaction, for instance because a block confirmed it. */
    method RemoveTransaction(id: nat)
      requires Valid()
      modifies this
      ensures Valid() && txs == old(txs) - {id} && orphans == old(orphans)
    {
      hide Indexed, OrphansOk, SizeSum;
      ghost var before := txs;
      assert Within(before);
      Remove(id);
      WithinShrinks(before, id);
      OrphansShrink(policy.c, before, txs, orphans, orphansByParent, orphanOrder, {});
    }

    /** Records the inputs of a new transaction as spent. */
    method TakeOutpoints(inputs: seq<TxIn>, id: nat)
      modifies `spentOutpoints
      ensures forall point :: point in spentOutpoints <==> point in old(spentOutpoints) || point in Prevouts(inputs)
      ensures forall point :: point in spentOutpoints ==>
                spentOutpoints[point] == if point in Prevouts(inputs) then id else old(spentOutpoints)[point]
    {
      hide Prevouts;
      assert inputs[..0] == [];
      NoPrevouts();
      for i := 0 to |inputs|
        invariant forall point :: point in spentOutpoints <==> point in old(spentOutpoints) || point in Prevouts(inputs[..i])
        invariant forall point :: point in spentOutpoints ==>
                    spentOutpoints[point] == if point in Prevouts(inputs[..i]) then id else old(spentOutpoints)[point]
      {
        assert inputs[..i + 1] == inputs[..i] + [inputs[i]];
        PrevoutsSnoc(inputs[..i], inputs[i]);
        spentOutpoints := spentOutpoints[inputs[i].prevout := id];
      }
      assert inputs[..|inputs|] == inputs;
    }

    method Insert(id: nat, e: TxEntry)
      requires Consistent() && id !in txs && EntryOk(policy.c, id, e)
      requires forall point :: point in Prevouts(e.tx.inputs) ==> point !in spentOutpoints
      modifies `txs, `sortedByFeeRate, `spentOutpoints, `totalBytes
      ensures Consistent() && txs == old(txs)[id := e]
    {
      hide SortedOk, SpentOk, EntriesOk, SizeSum, EntryOk, Prevouts;
      ghost var spent := spentOutpoints;
      TakeOutpoints(e.tx.inputs, id);
      SpentWith(txs, spent, id, e, spentOutpoints);
      IndexedWith(policy.c, txs, sortedByFeeRate, spent, totalBytes, id, e, spentOutpoints);
      txs := txs[id := e];
      sortedByFeeRate := sortedByFeeRate + {KeyOf(id, e)};
      totalBytes := totalBytes + e.size;
    }

    /** Evicts the cheapest transaction. */
    method EvictCheapest(ghost before: map<nat, TxEntry>) returns (ghost last: nat)
      requires Consistent() && KeepsDearest(before, txs) && sortedByFeeRate != {} && !Within(txs)
      modifies `txs, `sortedByFeeRate, `spentOutpoints, `totalBytes
      ensures Consistent() && KeepsDearest(before, txs) && |txs| < |old(txs)|
      ensures last in before && last !in txs && OverWith(before, txs, last)
    {
      hide Indexed, KeepsDearest, OverWith, Less, Within, SortedOk, SpentOk, EntriesOk, IsLeast;
      ghost var kept := txs;
      IndexedParts(policy.c, txs, sortedByFeeRate, spentOutpoints, totalBytes);
      ghost var cheapest := LeastExists(sortedByFeeRate);
      var least :| IsLeast(least, sortedByFeeRate);
      EvictKeepsDearest(before, txs, sortedByFeeRate, least);
      Remove(least.id);
      EvictionStep(before, kept, txs, least.id);
      last := least.id;
    }

    /** Evicts the cheapest transactions until both limits hold. */
    method TrimToLimits()
      requires Consistent()
      modifies `txs, `sortedByFeeRate, `spentOutpoints, `totalBytes
      ensures Consistent() && Trimmed(old(txs), txs)
      ensures forall a, b :: a in old(txs) && a !in txs && b in txs ==> Outpays(txs[b], old(txs)[a])
    {
      hide Indexed, KeepsDearest, OverWith, Trimmed, Within, SortedOk, SpentOk, EntriesOk, Outpays;
      ghost var before := txs;
      ghost var last: nat := 0;
      NothingEvicted(before);
      IndexedParts(policy.c, txs, sortedByFeeRate, spentOutpoints, totalBytes);
      WithinIs(txs);
      while sortedByFeeRate != {} && (totalBytes > MAX_MEMPOOL_SIZE_BYTES || |txs| > MAX_MEMPOOL_TRANSACTIONS)
        invariant Consistent() && KeepsDearest(before, txs) && SortedOk(txs, sortedByFeeRate)
        invariant Within(txs) <==> totalBytes <= MAX_MEMPOOL_SIZE_BYTES && |txs| <= MAX_MEMPOOL_TRANSACTIONS
        invariant txs == before || (last in before && last !in txs && OverWith(before, txs, last))
        decreases |txs|
      {
        last := EvictCheapest(before);
        IndexedParts(policy.c, txs, sortedByFeeRate, spentOutpoints, totalBytes);
        WithinIs(txs);
      }
      if sortedByFeeRate == {} {
        EmptyWithin(policy.c, txs, sortedByFeeRate);
      }
      TrimEnds(before, txs, last);
      KeptOutpay(policy.c, before, txs);
    }

    // -------------------------------------------------------------------------
    // Orphans
    // -------------------------------------------------------------------------

    method RemoveOrphan(id: nat, ghost due: set<Wait>)
      requires OrphansConsistent(due)
      modifies `orphans, `orphansByParent, `orphanOrder
      ensures OrphansConsistent(due) && Pool() == WithoutOrphan(old(Pool()), id)
      ensures id in old(orphans) ==>
                OrphansConsistent(WaitsOfOthers(due, id)) && |orphanOrder| < |old(orphanOrder)| && |orphans| < |old(orphans)|
    {
      hide OrphansOk, Erase;
      NoOrphan(policy.c, Pool(), due, id);
      if id !in orphans {
        return;
      }
      OrphansWithout(policy.c, txs, orphans, orphansByParent, orphanOrder, due, id);
      orphans := orphans - {id};
      orphanOrder := Erase(orphanOrder, id);
      orphansByParent := WaitsOfOthers(orphansByParent, id);
    }

    /** Keeps a transaction with missing parents; when the orphanage is full the oldest orphan goes. */
    method AddOrphan(tx: Transaction, missing: set<nat>, now: nat, ghost due: set<Wait>)
      requires OrphansConsistent(due) && missing != {} && missing !! txs.Keys
      requires policy.c.txid(tx) !in txs && policy.c.txid(tx) !in orphans
      modifies `orphans, `orphansByParent, `orphanOrder
      ensures OrphansConsistent(due) && |orphans| <= |old(orphans)| + 1
      ensures Pool() == WithOrphan(old(Pool()), policy.c.txid(tx), OrphanEntry(tx, now), missing)
    {
      hide OrphansOk, NewWaits, Erase, WaitsOfOthers;
      var id := policy.c.txid(tx);
      ghost var s := Pool();
      OrderBounded(policy.c, s, due);
      while |orphanOrder| >= MAX_MEMPOOL_ORPHANS
        invariant OrphansConsistent(due) && id !in orphans && |orphans| <= |old(orphans)|
        invariant Pool() == s || Pool() == WithRoom(s)
        invariant |orphanOrder| <= MAX_MEMPOOL_ORPHANS && (Pool() == s || |orphanOrder| < MAX_MEMPOOL_ORPHANS <= |s.order|)
        decreases |orphanOrder|
      {
        var evict := orphanOrder[0];
        OrderListsOrphans(policy.c, txs, orphans, orphansByParent, orphanOrder, due);
        RemoveOrphan(evict, due);
      }
      OrphansWith(policy.c, txs, orphans, orphansByParent, orphanOrder, due, id, OrphanEntry(tx, now), missing);
      orphans := orphans[id := OrphanEntry(tx, now)];
      orphanOrder := orphanOrder + [id];
      orphansByParent := orphansByParent + NewWaits(missing, id);
    }

    // -------------------------------------------------------------------------
    // Admission
    // -------------------------------------------------------------------------

    /** Pools a transaction found fit, then trims. */
    method Admit(tx: Transaction, fee: Int64, utxo: UtxoMap, height: Uint32, now: nat, ghost due: set<Wait>)
      requires Valid(due) && Assess(policy, txs, orphans, spentOutpoints, utxo, height, tx) == Fit(fee)
      modifies `txs, `sortedByFeeRate, `spentOutpoints, `totalBytes
      ensures Consistent() && Within(txs)
      ensures Trimmed(old(txs)[policy.c.txid(tx) := NewEntry(policy.c, tx, fee, now)], txs)
      ensures OrphansConsistent(if policy.c.txid(tx) in txs then due + WaitsFor(orphansByParent, policy.c.txid(tx)) else due)
    {
      hide Indexed, OrphansOk, Within, Trimmed, Assess, EntryOk;
      var id := policy.c.txid(tx);
      ghost var before := txs;
      FitMeans(policy, txs, orphans, spentOutpoints, utxo, height, tx);
      FitIsEntry(policy, txs, orphans, spentOutpoints, utxo, height, tx, fee, now);
      Insert(id, NewEntry(policy.c, tx, fee, now));
      ghost var grown := txs;
      OrphansGrow(policy.c, before, orphans, orphansByParent, orphanOrder, due, id, NewEntry(policy.c, tx, fee, now));
      TrimToLimits();
      TrimmedParts(grown, txs);
      OrphansShrink(policy.c, grown, txs, orphans, orphansByParent, orphanOrder, due + WaitsFor(orphansByParent, id));
      if id !in txs {
        NoLongerDue(before, grown, txs, id);
        OrphansShrink(policy.c, before, txs, orphans, orphansByParent, orphanOrder, due);
      }
    }

    /** Offers a transaction to the pool and, if it is pooled, tries again the orphans that waited for it.
        The first state of the trail is the one right after the offer. */
    method Offer(tx: Transaction, utxo: UTXOSet, height: Uint32, now: nat, ghost due: set<Wait>)
      returns (status: AcceptStatus, ghost trail: seq<PoolState>)
      requires Valid(due)
      modifies this
      ensures Valid(due)
      ensures |orphans| <= |old(orphans)| + if status.MissingInputs? then 1 else 0
      ensures Cascade(policy, utxo.entries, height, now, trail, Pool()) && (!status.Pooled? ==> |trail| == 1)
      ensures Offered(policy, old(Pool()), utxo.entries, height, tx, now, status, trail[0])
      decreases |orphans|, 2
    {
      hide Indexed, OrphansOk, Within, Trimmed, Assess, SizeSum, SpentOk, CascadeStep, WithOrphan, SortedOk, EntriesOk;
      ghost var s := Pool();
      var id := policy.c.txid(tx);
      var a := AssessTransaction(policy, txs, orphans, spentOutpoints, utxo.entries, height, tx);
      match a
      case Rejected(reason) =>
        status := reason;
        trail := [Pool()];
        ReasonsAreRefusals(policy, s, utxo.entries, height, tx);
      case Waiting(missing) =>
        WaitingMeans(policy, txs, orphans, spentOutpoints, utxo.entries, height, tx);
        AddOrphan(tx, missing, now, due);
        status := MissingInputs;
        trail := [Pool()];
      case Fit(fee) =>
        Admit(tx, fee, utxo.entries, height, now, due);
        SpentIsDerived();
        ghost var after := Pool();
        if id !in txs {
          status := PoolFull;
          trail := [Pool()];
        } else {
          status := Pooled;
          trail := ProcessOrphansForParent(id, utxo, height, now, due);
        }
    }

    lemma HasEntries()
      requires Valid()
      ensures EntriesOk(policy.c, txs)
    {
      hide EntriesOk, SortedOk, SpentOk, SizeSum, OrphansOk;
    }

    lemma SpentIsDerived()
      requires Consistent()
      ensures SpentOk(txs, spentOutpoints)
    {
      hide SpentOk, SortedOk, EntriesOk, SizeSum;
    }

    /** Takes the orphans that wait for a parent out of the orphanage and offers them again. Orphans only
        become fewer from one nested offer to the next, so the recursion ends. */
    method ProcessOrphansForParent(parent: nat, utxo: UTXOSet, height: Uint32, now: nat, ghost due: set<Wait>)
      returns (ghost trail: seq<PoolState>)
      requires Consistent() && Within(txs) && OrphansConsistent(due + WaitsFor(orphansByParent, parent))
      modifies this
      ensures Valid(due) && |orphans| <= |old(orphans)|
      ensures Cascade(policy, utxo.entries, height, now, trail, Pool()) && trail[0] == old(Pool())
      decreases |orphans|, 1
    {
      hide Indexed, OrphansOk, Within, CascadeStep, Assess;
      var ready := ListOrphans(orphansByParent, parent);
      trail := [Pool()];
      CascadeNone(policy, utxo.entries, height, now, Pool());
      AllDue(orphansByParent, parent, ready, due);
      MoreDue(policy.c, txs, orphans, orphansByParent, orphanOrder, due + WaitsFor(orphansByParent, parent), due + StillDue(parent, ready, 0));
      for i := 0 to |ready|
        invariant Valid(due + StillDue(parent, ready, i)) && |orphans| <= |old(orphans)|
        invariant Cascade(policy, utxo.entries, height, now, trail, Pool()) && trail != [] && trail[0] == old(Pool())
      {
        NextDue(parent, ready, due, i);
        ghost var more := Reconsider(ready[i], utxo, height, now, due + StillDue(parent, ready, i), due + StillDue(parent, ready, i + 1));
        CascadeJoin(policy, utxo.entries, height, now, trail, more, Pool());
        trail := trail + more[1..];
      }
      NoneDue(parent, ready, due);
    }

    /** Takes one orphan out and offers it again. */
    method Reconsider(id: nat, utxo: UTXOSet, height: Uint32, now: nat, ghost due: set<Wait>, ghost later: set<Wait>)
      returns (ghost trail: seq<PoolState>)
      requires Valid(due) && WaitsOfOthers(due, id) <= later
      modifies this
      ensures Valid(later) && |orphans| <= |old(orphans)|
      ensures Cascade(policy, utxo.entries, height, now, trail, Pool()) && trail[0] == old(Pool())
      decreases |orphans|, 0
    {
      hide Indexed, OrphansOk, Within, Cascade, Offered, Assess, WaitsOfOthers, WithoutOrphan;
      ghost var s := Pool();
      CascadeNone(policy, utxo.entries, height, now, s);
      if id !in orphans {
        NotDue(policy.c, txs, orphans, orphansByParent, orphanOrder, due, later, id);
        return [s];
      }
      var tx := orphans[id].tx;
      OrphanNamed(policy.c, txs, orphans, orphansByParent, orphanOrder, due, id);
      OrderBounded(policy.c, s, due);
      RemoveOrphan(id, due);
      MoreDue(policy.c, txs, orphans, orphansByParent, orphanOrder, WaitsOfOthers(due, id), later);
      var status, more := Offer(tx, utxo, height, now, later);
      CascadeStarts(policy, utxo.entries, height, now, s, id, status, more, Pool());
      trail := [s] + more;
    }

    /** Main result: whatever is offered, the indexes stay exact, the limits hold, no orphan waits for a pooled
        parent, the answer is the one the pool dictates, and all that happens afterwards are orphans offered
        again one by one. */
    method AddTransaction(tx: Transaction, utxo: UTXOSet, height: Uint32, now: nat)
      returns (status: AcceptStatus, ghost trail: seq<PoolState>)
      requires Valid()
      modifies this
      ensures Valid()
      ensures Cascade(policy, utxo.entries, height, now, trail, Pool()) && (!status.Pooled? ==> |trail| == 1)
      ensures Offered(policy, old(Pool()), utxo.entries, height, tx, now, status, trail[0])
    {
      hide Indexed, OrphansOk, Within, Cascade, Offered;
      status, trail := Offer(tx, utxo, height, now, {});
    }

    /** Drops everything that arrived more than the expiry time ago. */
    method ExpireOldTransactions(now: nat)
      requires Valid()
      modifies this
      ensures Valid()
      ensures forall id :: id in txs <==> id in old(txs) && now - old(txs)[id].time <= MEMPOOL_TX_EXPIRY_SECONDS
      ensures forall id :: id in txs ==> txs[id] == old(txs)[id]
      ensures forall id :: id in orphans <==> id in old(orphans) && now - old(orphans)[id].time <= MEMPOOL_TX_EXPIRY_SECONDS
      ensures forall id :: id in orphans ==> orphans[id] == old(orphans)[id]
    {
      hide Indexed, OrphansOk, Within;
      ghost var pool, waiting := txs, orphans;
      var expired := set id | id in txs && now - txs[id].time > MEMPOOL_TX_EXPIRY_SECONDS;
      while expired != {}
        invariant Valid() && expired <= pool.Keys && orphans == waiting
        invariant forall id :: id in expired ==> now - pool[id].time > MEMPOOL_TX_EXPIRY_SECONDS
        invariant forall id :: id in txs <==> id in pool && (now - pool[id].time <= MEMPOOL_TX_EXPIRY_SECONDS || id in expired)
        invariant forall id :: id in txs ==> txs[id] == pool[id]
        decreases expired
      {
        var id :| id in expired;
        RemoveTransaction(id);
        expired := expired - {id};
      }
      ghost var young := txs;
      var stale := set id | id in orphans && now - orphans[id].time > MEMPOOL_TX_EXPIRY_SECONDS;
      while stale != {}
        invariant Valid() && stale <= waiting.Keys && txs == young
        invariant forall id :: id in stale ==> now - waiting[id].time > MEMPOOL_TX_EXPIRY_SECONDS
        invariant forall id :: id in orphans <==> id in waiting && (now - waiting[id].time <= MEMPOOL_TX_EXPIRY_SECONDS || id in stale)
        invariant forall id :: id in orphans ==> orphans[id] == waiting[id]
        decreases stale
      {
        var id :| id in stale;
        RemoveOrphan(id, {});
        stale := stale - {id};
      }
    }
  }

  function NewEntry(c: Crypto, tx: Transaction, fee: Int64, now: nat): TxEntry {
    TxEntry(tx, c.txSize(tx), fee, FeeRate(fee, c.txSize(tx)), now)
  }

  // ---------------------------------------------------------------------------
  // What an offer leads to
  // ---------------------------------------------------------------------------

  /** Pooled transactions with their spent outpoints, orphans in order of arrival, and what they wait for. */
  datatype PoolState = PoolState(
    txs: map<nat, TxEntry>,
    spent: map<OutPoint, nat>,
    orphans: map<nat, OrphanEntry>,
    order: seq<nat>,
    waits: set<Wait>)

  function WithoutOrphan(s: PoolState, id: nat): PoolState {
    s.(orphans := s.orphans - {id}, order := Erase(s.order, id), waits := WaitsOfOthers(s.waits, id))
  }

  /** The oldest orphan makes room when the orphanage is full. */
  function WithRoom(s: PoolState): PoolState {
    if MAX_MEMPOOL_ORPHANS <= |s.order| then WithoutOrphan(s, s.order[0]) else s
  }

  function WithOrphan(s: PoolState, id: nat, e: OrphanEntry, missing: set<nat>): PoolState {
    var r := WithRoom(s);
    r.(orphans := r.orphans[id := e], order := r.order + [id], waits := r.waits + NewWaits(missing, id))
  }

  /** What an offer does before orphans are tried again. A refused transaction changes nothing; one with
      missing parents becomes the latest orphan; a fit one is pooled and the cheapest transactions make room. */
  ghost predicate Offered(q: Policy, s: PoolState, utxo: UtxoMap, height: Uint32, tx: Transaction, now: nat,
                          status: AcceptStatus, t: PoolState)
  {
    var id := q.c.txid(tx);
    match Assess(q, s.txs, s.orphans, s.spent, utxo, height, tx)
    case Rejected(reason) => status == reason && !status.Pooled? && !status.MissingInputs? && t == s
    case Waiting(missing) => status == MissingInputs && t == WithOrphan(s, id, OrphanEntry(tx, now), missing)
    case Fit(fee) =>
      && Trimmed(s.txs[id := NewEntry(q.c, tx, fee, now)], t.txs) && SpentOk(t.txs, t.spent)
      && t == s.(txs := t.txs, spent := t.spent)
      && status == if id in t.txs then Pooled else PoolFull
  }

  /** One orphan is taken out and offered again. */
  ghost predicate Retried(q: Policy, utxo: UtxoMap, height: Uint32, now: nat, s: PoolState, id: nat, status: AcceptStatus, t: PoolState) {
    && id in s.orphans && id in s.order && |s.order| <= MAX_MEMPOOL_ORPHANS && q.c.txid(s.orphans[id].tx) == id
    && Offered(q, WithoutOrphan(s, id), utxo, height, s.orphans[id].tx, now, status, t)
  }

  ghost predicate CascadeStep(q: Policy, utxo: UtxoMap, height: Uint32, now: nat, s: PoolState, t: PoolState) {
    exists id, status :: Retried(q, utxo, height, now, s, id, status, t)
  }

  /** A trail of states that ends in `t`, each the one before with one orphan offered again. */
  ghost predicate Cascade(q: Policy, utxo: UtxoMap, height: Uint32, now: nat, trail: seq<PoolState>, t: PoolState) {
    && trail != [] && trail[|trail| - 1] == t
    && forall i :: 0 < i < |trail| ==> CascadeStep(q, utxo, height, now, trail[i - 1], trail[i])
  }

  lemma CascadeNone(q: Policy, utxo: UtxoMap, height: Uint32, now: nat, s: PoolState)
    ensures Cascade(q, utxo, height, now, [s], s)
  {
  }

  lemma CascadeJoin(q: Policy, utxo: UtxoMap, height: Uint32, now: nat, a: seq<PoolState>, b: seq<PoolState>, t: PoolState)
    requires a != [] && b != [] && Cascade(q, utxo, height, now, a, b[0]) && Cascade(q, utxo, height, now, b, t)
    ensures Cascade(q, utxo, height, now, a + b[1..], t) && (a + b[1..])[0] == a[0]
  {
    hide CascadeStep;
    var all := a + b[1..];
    forall i | 0 < i < |all|
      ensures CascadeStep(q, utxo, height, now, all[i - 1], all[i])
    {
      if |a| <= i {
        assert all[i] == b[i - |a| + 1] && all[i - 1] == b[i - |a|];
      }
    }
  }

  lemma CascadeStarts(q: Policy, utxo: UtxoMap, height: Uint32, now: nat, s: PoolState, id: nat, status: AcceptStatus,
                      more: seq<PoolState>, t: PoolState)
    requires Cascade(q, utxo, height, now, more, t) && Retried(q, utxo, height, now, s, id, status, more[0])
    ensures Cascade(q, utxo, height, now, [s] + more, t)
  {
    hide Retried;
    assert CascadeStep(q, utxo, height, now, s, more[0]);
    assert ([s] + more)[0] == s && ([s] + more)[1..] == more;
  }

  // ---------------------------------------------------------------------------
  // What becomes of orphans
  // ---------------------------------------------------------------------------

  /** Nothing appears out of nowhere: what is pooled was pooled or was an orphan, and what is an orphan was one. */
  ghost predicate Promoted(s: PoolState, t: PoolState) {
    && (forall id :: id in t.txs ==>
          (id in s.txs && t.txs[id] == s.txs[id]) || (id in s.orphans && t.txs[id].tx == s.orphans[id].tx))
    && (forall id :: id in t.orphans ==> id in s.orphans && t.orphans[id].tx == s.orphans[id].tx)
  }

  lemma RetryPromotes(q: Policy, utxo: UtxoMap, height: Uint32, now: nat, s: PoolState, id: nat, status: AcceptStatus, t: PoolState)
    requires Retried(q, utxo, height, now, s, id, status, t)
    ensures Promoted(s, t)
    ensures forall k :: k in s.orphans && k != id ==> k in t.orphans
  {
    hide Assess, Trimmed, FeeRate, Promoted, WithOrphan, WithoutOrphan;
    var r, tx := WithoutOrphan(s, id), s.orphans[id].tx;
    match Assess(q, r.txs, r.orphans, r.spent, utxo, height, tx)
    case Rejected(_) => TakenOut(s, id);
    case Waiting(missing) => ParkedAgain(s, id, OrphanEntry(tx, now), missing);
    case Fit(fee) => PooledNow(s, id, NewEntry(q.c, tx, fee, now), t);
  }

  lemma TakenOut(s: PoolState, id: nat)
    ensures Promoted(s, WithoutOrphan(s, id))
    ensures forall k :: k in s.orphans && k != id ==> k in WithoutOrphan(s, id).orphans
    ensures WithoutOrphan(s, id).txs == s.txs
  {
    hide Erase, WaitsOfOthers;
  }

  lemma ParkedAgain(s: PoolState, id: nat, e: OrphanEntry, missing: set<nat>)
    requires id in s.orphans && e.tx == s.orphans[id].tx && id in s.order && |s.order| <= MAX_MEMPOOL_ORPHANS
    ensures var t := WithOrphan(WithoutOrphan(s, id), id, e, missing);
            Promoted(s, t) && forall k :: k in s.orphans && k != id ==> k in t.orphans
  {
    hide Erase, WaitsOfOthers, NewWaits;
    EraseMeaning(s.order, id);
  }

  lemma PooledNow(s: PoolState, id: nat, e: TxEntry, t: PoolState)
    requires id in s.orphans && e.tx == s.orphans[id].tx && Trimmed(WithoutOrphan(s, id).txs[id := e], t.txs)
    requires t == WithoutOrphan(s, id).(txs := t.txs, spent := t.spent)
    ensures Promoted(s, t) && forall k :: k in s.orphans && k != id ==> k in t.orphans
  {
    hide Trimmed, Erase, WaitsOfOthers;
    TrimmedParts(WithoutOrphan(s, id).txs[id := e], t.txs);
  }

  /** Main result: trying orphans again brings nothing new into the pool. */
  lemma {:induction false} CascadePromotes(q: Policy, utxo: UtxoMap, height: Uint32, now: nat, trail: seq<PoolState>, t: PoolState)
    requires Cascade(q, utxo, height, now, trail, t)
    ensures Promoted(trail[0], t)
    decreases |trail|
  {
    hide Retried;
    if 1 < |trail| {
      var front := trail[..|trail| - 1];
      var before := front[|front| - 1];
      CascadePromotes(q, utxo, height, now, front, before);
      assert CascadeStep(q, utxo, height, now, before, t);
      var id, status :| Retried(q, utxo, height, now, before, id, status, t);
      RetryPromotes(q, utxo, height, now, before, id, status, t);
    }
  }

  /** Main result: no orphan is lost. One that is gone after a cascade was offered to the pool as it then was,
      and was pooled or turned down for a reason. */
  lemma {:induction false} OrphanFate(q: Policy, utxo: UtxoMap, height: Uint32, now: nat, trail: seq<PoolState>, t: PoolState, id: nat)
    requires Cascade(q, utxo, height, now, trail, t) && id in trail[0].orphans && id !in t.orphans
    ensures exists i, status: AcceptStatus :: 0 < i < |trail| && !status.MissingInputs?
                                && Retried(q, utxo, height, now, trail[i - 1], id, status, trail[i])
    decreases |trail|
  {
    hide Retried;
    if 1 < |trail| {
      var front := trail[..|trail| - 1];
      var before := front[|front| - 1];
      if id in before.orphans {
        assert CascadeStep(q, utxo, height, now, before, t);
        var k, status :| Retried(q, utxo, height, now, before, k, status, t);
        RetryPromotes(q, utxo, height, now, before, k, status, t);
        RetryAgain(q, utxo, height, now, before, k, status, t);
      } else {
        OrphanFate(q, utxo, height, now, front, before, id);
        var i, status: AcceptStatus :| 0 < i < |front| && !status.MissingInputs? && Retried(q, utxo, height, now, front[i - 1], id, status, front[i]);
        assert Retried(q, utxo, height, now, trail[i - 1], id, status, trail[i]);
      }
    }
  }

  lemma RetryAgain(q: Policy, utxo: UtxoMap, height: Uint32, now: nat, s: PoolState, id: nat, status: AcceptStatus, t: PoolState)
    requires Retried(q, utxo, height, now, s, id, status, t)
    ensures status.MissingInputs? ==> id in t.orphans
  {
    hide Assess, Trimmed, FeeRate, Erase, NewWaits, WaitsOfOthers;
  }

  lemma ReasonsAreRefusals(q: Policy, s: PoolState, utxo: UtxoMap, height: Uint32, tx: Transaction)
    ensures var a := Assess(q, s.txs, s.orphans, s.spent, utxo, height, tx);
            a.Rejected? ==> !a.status.Pooled? && !a.status.MissingInputs?
  {
  }

  lemma OrderBounded(c: Crypto, s: PoolState, due: set<Wait>)
    requires OrphansOk(c, s.txs, s.orphans, s.waits, s.order, due)
    ensures |s.order| <= MAX_MEMPOOL_ORPHANS && forall id :: id in s.orphans <==> id in s.order
  {
  }

  /** Removing what is not there changes nothing. */
  lemma NoOrphan(c: Crypto, s: PoolState, due: set<Wait>, id: nat)
    requires OrphansOk(c, s.txs, s.orphans, s.waits, s.order, due)
    ensures id !in s.orphans ==> WithoutOrphan(s, id) == s
  {
    if id !in s.orphans {
      EraseNothing(s.order, id);
      assert WaitsOfOthers(s.waits, id) == s.waits;
    }
  }

  lemma {:induction false} EraseNothing(order: seq<nat>, id: nat)
    requires id !in order
    ensures Erase(order, id) == order
  {
    if order != [] {
      EraseNothing(order[1..], id);
    }
  }

  method ListOrphans(waits: set<Wait>, parent: nat) returns (ready: seq<nat>)
    ensures forall w :: w in waits && w.parent == parent ==> w.orphan in ready
  {
    var rest := waits;
    ready := [];
    while rest != {}
      invariant rest <= waits
      invariant forall w :: w in waits && w !in rest && w.parent == parent ==> w.orphan in ready
      decreases rest
    {
      var w :| w in rest;
      if w.parent == parent {
        ready := ready + [w.orphan];
      }
      rest := rest - {w};
    }
  }

  /** The waits for the parent whose orphans have not been tried again yet. */
  ghost function StillDue(parent: nat, ready: seq<nat>, i: nat): set<Wait>
    requires i <= |ready|
  {
    set k | i <= k < |ready| :: Wait(parent, ready[k])
  }

  lemma FitIsEntry(q: Policy, txs: map<nat, TxEntry>, orphans: map<nat, OrphanEntry>, spent: map<OutPoint, nat>,
                   utxo: UtxoMap, height: Uint32, tx: Transaction, fee: Int64, now: nat)
    requires Assess(q, txs, orphans, spent, utxo, height, tx) == Fit(fee)
    ensures EntryOk(q.c, q.c.txid(tx), NewEntry(q.c, tx, fee, now))
  {
    hide Assess, Standard, AllSpendable, FeeRate, DistinctInputs;
    FitMeans(q, txs, orphans, spent, utxo, height, tx);
  }

  lemma TrimmedParts(txs: map<nat, TxEntry>, kept: map<nat, TxEntry>)
    requires Trimmed(txs, kept)
    ensures kept.Keys <= txs.Keys && Within(kept)
    ensures forall id :: id in kept ==> id in txs && kept[id] == txs[id]
  {
    hide Within, OverWith;
    assert forall id :: id in kept ==> id in kept.Keys;
  }

  lemma NoLongerDue(before: map<nat, TxEntry>, grown: map<nat, TxEntry>, kept: map<nat, TxEntry>, id: nat)
    requires grown.Keys == before.Keys + {id} && kept.Keys <= grown.Keys && id !in kept
    ensures kept.Keys <= before.Keys
  {
  }

  lemma AllDue(waits: set<Wait>, parent: nat, ready: seq<nat>, due: set<Wait>)
    requires forall w :: w in waits && w.parent == parent ==> w.orphan in ready
    ensures due + WaitsFor(waits, parent) <= due + StillDue(parent, ready, 0)
  {
    forall w | w in WaitsFor(waits, parent)
      ensures w in StillDue(parent, ready, 0)
    {
      var k :| 0 <= k < |ready| && ready[k] == w.orphan;
      assert w == Wait(parent, ready[k]);
    }
  }

  lemma NextDue(parent: nat, ready: seq<nat>, due: set<Wait>, i: nat)
    requires i < |ready|
    ensures WaitsOfOthers(due + StillDue(parent, ready, i), ready[i]) <= due + StillDue(parent, ready, i + 1)
  {
  }

  lemma NoneDue(parent: nat, ready: seq<nat>, due: set<Wait>)
    ensures due + StillDue(parent, ready, |ready|) == due
  {
  }

  lemma NotDue(c: Crypto, txs: map<nat, TxEntry>, orphans: map<nat, OrphanEntry>, waits: set<Wait>,
               order: seq<nat>, due: set<Wait>, later: set<Wait>, id: nat)
    requires OrphansOk(c, txs, orphans, waits, order, due) && id !in orphans && WaitsOfOthers(due, id) <= later
    ensures OrphansOk(c, txs, orphans, waits, order, later)
  {
    assert forall w :: w in due && w.orphan != id ==> w in WaitsOfOthers(due, id);
  }

  lemma MoreDue(c: Crypto, txs: map<nat, TxEntry>, orphans: map<nat, OrphanEntry>, waits: set<Wait>,
                order: seq<nat>, due: set<Wait>, later: set<Wait>)
    requires OrphansOk(c, txs, orphans, waits, order, due) && due <= later
    ensures OrphansOk(c, txs, orphans, waits, order, later)
  {
  }

  lemma OrphanNamed(c: Crypto, txs: map<nat, TxEntry>, orphans: map<nat, OrphanEntry>, waits: set<Wait>,
                    order: seq<nat>, due: set<Wait>, id: nat)
    requires OrphansOk(c, txs, orphans, waits, order, due) && id in orphans
    ensures c.txid(orphans[id].tx) == id && id !in txs
  {
  }

  lemma OwnInput(txs: map<nat, TxEntry>, spent: map<OutPoint, nat>, id: nat, i: nat)
    requires id in txs && SpentOk(txs, spent) && i < |txs[id].tx.inputs|
    ensures txs[id].tx.inputs[i].prevout in spent && spent[txs[id].tx.inputs[i].prevout] == id
  {
    assert Spends(txs, id, txs[id].tx.inputs[i].prevout);
  }

  lemma NoPrevouts()
    ensures Prevouts([]) == {}
  {
  }

  lemma WithinShrinks(txs: map<nat, TxEntry>, id: nat)
    requires Within(txs)
    ensures Within(txs - {id})
  {
    hide SizeSum;
    if id in txs {
      SizeSumWithout(txs, id);
      assert (txs - {id}).Keys == txs.Keys - {id};
    } else {
      assert txs - {id} == txs;
    }
  }

  lemma WithinIs(txs: map<nat, TxEntry>)
    ensures Within(txs) <==> SizeSum(txs) <= MAX_MEMPOOL_SIZE_BYTES && |txs| <= MAX_MEMPOOL_TRANSACTIONS
  {
  }

  lemma NothingEvicted(txs: map<nat, TxEntry>)
    ensures KeepsDearest(txs, txs)
  {
  }

  lemma TrimEnds(txs: map<nat, TxEntry>, kept: map<nat, TxEntry>, last: nat)
    requires KeepsDearest(txs, kept) && Within(kept)
    requires kept == txs || (last in txs && last !in kept && OverWith(txs, kept, last))
    ensures Trimmed(txs, kept)
  {
    hide KeepsDearest, Within, OverWith;
  }

  lemma IndexedParts(c: Crypto, txs: map<nat, TxEntry>, sorted: set<FeeKey>, spent: map<OutPoint, nat>, bytes: nat)
    requires Indexed(c, txs, sorted, spent, bytes)
    ensures SortedOk(txs, sorted) && SpentOk(txs, spent) && bytes == SizeSum(txs) && EntriesOk(c, txs)
  {
  }

  lemma EvictionStep(txs: map<nat, TxEntry>, kept: map<nat, TxEntry>, less: map<nat, TxEntry>, id: nat)
    requires KeepsDearest(txs, kept) && id in kept && less == kept - {id} && !Within(kept)
    ensures id in txs && id !in less && |less| < |kept|
    ensures OverWith(txs, less, id)
  {
    assert less[id := txs[id]] == kept;
    assert less.Keys == kept.Keys - {id};
  }

  lemma OrderListsOrphans(c: Crypto, txs: map<nat, TxEntry>, orphans: map<nat, OrphanEntry>, waits: set<Wait>,
                          order: seq<nat>, due: set<Wait>)
    requires OrphansOk(c, txs, orphans, waits, order, due)
    ensures forall id :: id in order ==> id in orphans
  {
  }
}
