/** Entries of the memory pool, the indexes derived from them, and how they change together. */
module PoolIndexes {
  import opened Arith
  import opened Primitives
  import opened Utxo

  const MAX_MEMPOOL_SIZE_BYTES: nat := 300_000_000
  const MAX_MEMPOOL_TRANSACTIONS: nat := 50_000
  const MAX_MEMPOOL_ORPHANS: nat := 256
  const MIN_RELAY_FEE_SATS_PER_KB: nat := 1000
  const MEMPOOL_TX_EXPIRY_SECONDS: nat := 7200

  datatype TxEntry = TxEntry(tx: Transaction, size: nat, fee: Int64, feeRate: int, time: nat)

  datatype OrphanEntry = OrphanEntry(tx: Transaction, time: nat)

  /** Fee rate, fee and identifier: the order of the pool. */
  datatype FeeKey = FeeKey(rate: int, fee: int, id: nat)

  predicate Less(a: FeeKey, b: FeeKey) {
    a.rate < b.rate || (a.rate == b.rate && (a.fee < b.fee || (a.fee == b.fee && a.id < b.id)))
  }

  function KeyOf(id: nat, e: TxEntry): FeeKey {
    FeeKey(e.feeRate, e.fee, id)
  }

  /** Truncating division, as in the source language. */
  function TruncDiv(a: int, b: nat): int
    requires 0 < b
  {
    if 0 <= a then a / b else -((-a) / b)
  }

  function FeeRate(fee: Int64, size: nat): int {
    if size == 0 then fee else TruncDiv(Wrap64(fee * 1000), size)
  }

  /** The relay fee of a transaction: 1000 per started kilobyte. */
  function MinFee(size: nat): nat {
    (size + 999) / 1000 * MIN_RELAY_FEE_SATS_PER_KB
  }

  /** One satoshi per byte, counted in started thousands. */
  lemma RelayFee(size: nat)
    ensures size <= MinFee(size) < size + 1000 && MinFee(size) % 1000 == 0
  {
  }

  // ---------------------------------------------------------------------------
  // What the indexes say
  // ---------------------------------------------------------------------------

  ghost predicate EntryOk(c: Crypto, id: nat, e: TxEntry) {
    && c.txid(e.tx) == id && e.size == c.txSize(e.tx) && e.feeRate == FeeRate(e.fee, e.size)
    && !e.tx.IsCoinbase() && DistinctInputs(e.tx) && MinFee(e.size) <= e.fee
    && (forall i :: 0 <= i < |e.tx.outputs| ==> 0 <= e.tx.outputs[i].value)
  }

  ghost predicate EntriesOk(c: Crypto, txs: map<nat, TxEntry>) {
    forall id :: id in txs ==> EntryOk(c, id, txs[id])
  }

  /** The ordered set holds exactly the keys of the entries. */
  ghost predicate SortedOk(txs: map<nat, TxEntry>, sorted: set<FeeKey>) {
    && (forall id :: id in txs ==> KeyOf(id, txs[id]) in sorted)
    && (forall k :: k in sorted ==> k.id in txs && k == KeyOf(k.id, txs[k.id]))
  }

  ghost predicate Spends(txs: map<nat, TxEntry>, id: nat, point: OutPoint) {
    id in txs && point in Prevouts(txs[id].tx.inputs)
  }

  /** The spender map is exactly the inputs of the entries, so no two entries share an input. */
  ghost predicate SpentOk(txs: map<nat, TxEntry>, spent: map<OutPoint, nat>) {
    forall point, id :: (point in spent && spent[point] == id) <==> Spends(txs, id, point)
  }

  ghost function SizeSum(txs: map<nat, TxEntry>): nat {
    if txs == map[] then 0
    else
      var id :| id in txs;
      txs[id].size + SizeSum(txs - {id})
  }

  ghost predicate Within(txs: map<nat, TxEntry>) {
    SizeSum(txs) <= MAX_MEMPOOL_SIZE_BYTES && |txs| <= MAX_MEMPOOL_TRANSACTIONS
  }

  /** All indexes agree with the entries. */
  ghost predicate Indexed(c: Crypto, txs: map<nat, TxEntry>, sorted: set<FeeKey>, spent: map<OutPoint, nat>, bytes: nat) {
    EntriesOk(c, txs) && SortedOk(txs, sorted) && SpentOk(txs, spent) && bytes == SizeSum(txs)
  }

  /** Main consequence: an outpoint has at most one spender in the pool. */
  lemma NoDoubleSpend(txs: map<nat, TxEntry>, spent: map<OutPoint, nat>, a: nat, b: nat, point: OutPoint)
    requires SpentOk(txs, spent) && Spends(txs, a, point) && Spends(txs, b, point)
    ensures a == b && point in spent
  {
    assert point in spent && spent[point] == a;
    assert spent[point] == b;
  }

  // ---------------------------------------------------------------------------
  // Sums
  // ---------------------------------------------------------------------------

  lemma {:induction false} SizeSumWithout(txs: map<nat, TxEntry>, id: nat)
    requires id in txs
    ensures SizeSum(txs) == txs[id].size + SizeSum(txs - {id})
    decreases |txs|
  {
    var pick :| pick in txs && SizeSum(txs) == txs[pick].size + SizeSum(txs - {pick});
    if pick != id {
      SizeSumWithout(txs - {pick}, id);
      SizeSumWithout(txs - {id}, pick);
      assert txs - {pick} - {id} == txs - {id} - {pick};
    }
  }

  lemma SizeSumWith(txs: map<nat, TxEntry>, id: nat, e: TxEntry)
    requires id !in txs
    ensures SizeSum(txs[id := e]) == SizeSum(txs) + e.size && |txs[id := e]| == |txs| + 1
  {
    var more := txs[id := e];
    assert more - {id} == txs;
    SizeSumWithout(more, id);
    assert more.Keys == txs.Keys + {id};
  }

  // ---------------------------------------------------------------------------
  // Adding and removing one entry
  // ---------------------------------------------------------------------------

  lemma SortedWith(txs: map<nat, TxEntry>, sorted: set<FeeKey>, id: nat, e: TxEntry)
    requires SortedOk(txs, sorted) && id !in txs
    ensures SortedOk(txs[id := e], sorted + {KeyOf(id, e)})
  {
  }

  lemma SortedWithout(txs: map<nat, TxEntry>, sorted: set<FeeKey>, id: nat)
    requires SortedOk(txs, sorted) && id in txs
    ensures SortedOk(txs - {id}, sorted - {KeyOf(id, txs[id])})
  {
  }

  lemma SpentWith(txs: map<nat, TxEntry>, spent: map<OutPoint, nat>, id: nat, e: TxEntry, spent': map<OutPoint, nat>)
    requires SpentOk(txs, spent) && id !in txs
    requires forall point :: point in Prevouts(e.tx.inputs) ==> point !in spent
    requires forall point :: point in spent' <==> point in spent || point in Prevouts(e.tx.inputs)
    requires forall point :: point in spent' ==>
               spent'[point] == if point in Prevouts(e.tx.inputs) then id else spent[point]
    ensures SpentOk(txs[id := e], spent')
  {
    hide Prevouts;
    var more := txs[id := e];
    forall point, k
      ensures (point in spent' && spent'[point] == k) <==> Spends(more, k, point)
    {
      if k != id {
        assert Spends(more, k, point) <==> Spends(txs, k, point);
      } else {
        assert !Spends(txs, id, point);
      }
    }
  }

  lemma SpentWithout(txs: map<nat, TxEntry>, spent: map<OutPoint, nat>, id: nat)
    requires SpentOk(txs, spent) && id in txs
    ensures SpentOk(txs - {id}, spent - Prevouts(txs[id].tx.inputs))
  {
    hide Prevouts;
    var less, spent' := txs - {id}, spent - Prevouts(txs[id].tx.inputs);
    forall point, k
      ensures (point in spent' && spent'[point] == k) <==> Spends(less, k, point)
    {
      assert Spends(txs, id, point) ==> point in spent && spent[point] == id;
      assert (point in spent && spent[point] == k) <==> Spends(txs, k, point);
    }
  }

  lemma IndexedWith(c: Crypto, txs: map<nat, TxEntry>, sorted: set<FeeKey>, spent: map<OutPoint, nat>, bytes: nat,
                    id: nat, e: TxEntry, spent': map<OutPoint, nat>)
    requires Indexed(c, txs, sorted, spent, bytes) && id !in txs && EntryOk(c, id, e)
    requires SpentOk(txs[id := e], spent')
    ensures Indexed(c, txs[id := e], sorted + {KeyOf(id, e)}, spent', bytes + e.size)
  {
    hide SpentOk, SortedOk, EntryOk, SizeSum;
    SortedWith(txs, sorted, id, e);
    SizeSumWith(txs, id, e);
  }

  lemma IndexedWithout(c: Crypto, txs: map<nat, TxEntry>, sorted: set<FeeKey>, spent: map<OutPoint, nat>, bytes: nat, id: nat)
    requires Indexed(c, txs, sorted, spent, bytes) && id in txs
    ensures txs[id].size <= bytes
    ensures Indexed(c, txs - {id}, sorted - {KeyOf(id, txs[id])}, spent - Prevouts(txs[id].tx.inputs), bytes - txs[id].size)
  {
    hide SpentOk, SortedOk, EntryOk, SizeSum;
    SortedWithout(txs, sorted, id);
    SpentWithout(txs, spent, id);
    SizeSumWithout(txs, id);
  }

  // ---------------------------------------------------------------------------
  // The cheapest entry
  // ---------------------------------------------------------------------------

  predicate IsLeast(k: FeeKey, sorted: set<FeeKey>) {
    k in sorted && forall other :: other in sorted && other != k ==> Less(k, other)
  }

  lemma {:induction false} LeastExists(sorted: set<FeeKey>) returns (least: FeeKey)
    requires sorted != {}
    ensures IsLeast(least, sorted)
    decreases |sorted|
  {
    var k :| k in sorted;
    var rest := sorted - {k};
    least := k;
    if rest != {} {
      var other := LeastExists(rest);
      least := if Less(k, other) then k else other;
    }
    forall x | x in sorted && x != least
      ensures Less(least, x)
    {
      assert x != k ==> x in rest;
    }
  }

  predicate IsGreatest(k: FeeKey, sorted: set<FeeKey>) {
    k in sorted && forall other :: other in sorted && other != k ==> Less(other, k)
  }

  lemma {:induction false} GreatestExists(sorted: set<FeeKey>) returns (greatest: FeeKey)
    requires sorted != {}
    ensures IsGreatest(greatest, sorted)
    decreases |sorted|
  {
    var k :| k in sorted;
    var rest := sorted - {k};
    greatest := k;
    if rest != {} {
      var other := GreatestExists(rest);
      greatest := if Less(k, other) then other else k;
    }
    forall x | x in sorted && x != greatest
      ensures Less(x, greatest)
    {
      assert x != k ==> x in rest;
    }
  }

  // ---------------------------------------------------------------------------
  // Trimming
  // ---------------------------------------------------------------------------

  /** Every entry of `txs` that is not kept is cheaper than every kept one. */
  ghost predicate KeepsDearest(txs: map<nat, TxEntry>, kept: map<nat, TxEntry>) {
    && kept.Keys <= txs.Keys && (forall id :: id in kept ==> kept[id] == txs[id])
    && forall a, b :: a in txs && a !in kept && b in kept ==> Less(KeyOf(a, txs[a]), KeyOf(b, txs[b]))
  }

  /** Trimming evicts the cheapest entries, as few as the limits allow: with the dearest evicted entry
      back, the pool would be over a limit. */
  ghost predicate Trimmed(txs: map<nat, TxEntry>, kept: map<nat, TxEntry>) {
    && KeepsDearest(txs, kept) && Within(kept)
    && (kept != txs ==> exists last :: last in txs && last !in kept && OverWith(txs, kept, last))
  }

  ghost predicate OverWith(txs: map<nat, TxEntry>, kept: map<nat, TxEntry>, last: nat)
    requires last in txs
  {
    !Within(kept[last := txs[last]]) && KeepsDearest(txs, kept[last := txs[last]])
  }

  lemma EvictKeepsDearest(txs: map<nat, TxEntry>, kept: map<nat, TxEntry>, sorted: set<FeeKey>, k: FeeKey)
    requires KeepsDearest(txs, kept) && SortedOk(kept, sorted) && IsLeast(k, sorted)
    ensures k.id in kept && KeepsDearest(txs, kept - {k.id}) && (kept - {k.id})[k.id := txs[k.id]] == kept
    ensures k == KeyOf(k.id, kept[k.id])
  {
    var less := kept - {k.id};
    forall a, b | a in txs && a !in less && b in less
      ensures Less(KeyOf(a, txs[a]), KeyOf(b, txs[b]))
    {
      assert KeyOf(b, kept[b]) in sorted;
    }
  }

  lemma EmptyWithin(c: Crypto, txs: map<nat, TxEntry>, sorted: set<FeeKey>)
    requires SortedOk(txs, sorted) && sorted == {}
    ensures txs == map[] && SizeSum(txs) == 0 && Within(txs)
  {
    hide SortedOk;
    if txs != map[] {
      var id :| id in txs;
      KeyListed(txs, sorted, id);
    }
  }

  lemma KeyListed(txs: map<nat, TxEntry>, sorted: set<FeeKey>, id: nat)
    requires SortedOk(txs, sorted) && id in txs
    ensures KeyOf(id, txs[id]) in sorted
  {
  }

  // ---------------------------------------------------------------------------
  // What the order means in fees and sizes
  // ---------------------------------------------------------------------------

  /** A fee whose product with 1000 stays in 64 bits, and a size that is not zero. */
  predicate Ratable(e: TxEntry) {
    0 < e.size && 0 <= 1000 * e.fee < 0x8000_0000_0000_0000
  }

  /** Main result: the rate is the fee per thousand bytes, rounded down. */
  lemma RateIsFeePerKilobyte(fee: Int64, size: nat)
    requires 0 < size && 0 <= 1000 * fee < 0x8000_0000_0000_0000
    ensures 0 <= FeeRate(fee, size) && Product(FeeRate(fee, size), size) <= 1000 * fee < Product(FeeRate(fee, size), size) + size
  {
    hide Wrap64;
    Wrap64Identity(fee * 1000);
    DivMod(1000 * fee, size);
  }

  /** Entry a pays at least as much per byte as entry b, up to the rounding of the rates, and if both have the same size
      at least as much in all. */
  predicate Outpays(a: TxEntry, b: TxEntry) {
    Ratable(a) && Ratable(b) ==>
      && 1000 * b.fee * a.size < 1000 * a.fee * b.size + a.size * b.size
      && (a.size == b.size ==> b.fee <= a.fee)
  }

  /** Main result: an entry that comes later in the order of the keys outpays one that comes earlier. */
  lemma LessOutpays(a: TxEntry, b: TxEntry, ida: nat, idb: nat)
    requires a.feeRate == FeeRate(a.fee, a.size) && b.feeRate == FeeRate(b.fee, b.size) && Less(KeyOf(ida, a), KeyOf(idb, b))
    ensures Outpays(b, a)
  {
    hide FeeRate;
    if Ratable(a) && Ratable(b) {
      RateIsFeePerKilobyte(a.fee, a.size);
      RateIsFeePerKilobyte(b.fee, b.size);
      RatesCompare(a.fee, a.size, a.feeRate, b.fee, b.size, b.feeRate);
      if a.size == b.size && b.fee < a.fee {
        SameSizeRates(b.fee, a.fee, a.size);
      }
    }
  }

  lemma RatesCompare(fa: nat, sa: nat, ra: nat, fb: nat, sb: nat, rb: nat)
    requires 0 < sa && 0 < sb && ra <= rb && 1000 * fa < Product(ra, sa) + sa && Product(rb, sb) <= 1000 * fb
    ensures 1000 * fa * sb < 1000 * fb * sa + sb * sa
  {
    MulMono(ra, rb, sa);
    MulStrictMono(1000 * fa, Product(rb, sa) + sa, sb);
    assert (Product(rb, sa) + sa) * sb == Product(rb, sb) * sa + sb * sa;
    MulMono(Product(rb, sb), 1000 * fb, sa);
  }

  lemma SameSizeRates(low: Int64, high: Int64, size: nat)
    requires 0 < size && 0 <= low <= high && 1000 * high < 0x8000_0000_0000_0000
    ensures FeeRate(low, size) <= FeeRate(high, size)
  {
    hide Wrap64;
    Wrap64Identity(low * 1000);
    Wrap64Identity(high * 1000);
    DivMono(1000 * low, 1000 * high, size);
  }

  /** Every entry that was evicted is outpaid by every one that was kept. */
  lemma KeptOutpay(c: Crypto, txs: map<nat, TxEntry>, kept: map<nat, TxEntry>)
    requires EntriesOk(c, txs) && KeepsDearest(txs, kept)
    ensures forall a, b :: a in txs && a !in kept && b in kept ==> Outpays(kept[b], txs[a])
  {
    hide FeeRate, Less, Outpays, DistinctInputs, MinFee;
    forall a, b | a in txs && a !in kept && b in kept
      ensures Outpays(kept[b], txs[a])
    {
      assert EntryOk(c, a, txs[a]);
      assert EntryOk(c, b, txs[b]);
      LessOutpays(txs[a], txs[b], a, b);
    }
  }

  // ---------------------------------------------------------------------------
  // Orphans
  // ---------------------------------------------------------------------------

  /** A transaction waits for a parent. */
  datatype Wait = Wait(parent: nat, orphan: nat)

  /** Orphans are listed once each in order of arrival, are not pooled, and wait for parents that are not
      pooled either, except for the waits in `due`, whose orphans are about to be tried again. */
  ghost predicate OrphansOk(c: Crypto, txs: map<nat, TxEntry>, orphans: map<nat, OrphanEntry>, waits: set<Wait>,
                            order: seq<nat>, due: set<Wait>)
  {
    && (forall id :: id in orphans ==> c.txid(orphans[id].tx) == id && id !in txs)
    && (forall id :: id in orphans <==> id in order)
    && Distinct(order) && |order| <= MAX_MEMPOOL_ORPHANS
    && (forall w :: w in waits ==> w.orphan in orphans)
    && (forall w :: w in waits && w.parent in txs ==> w in due)
    && (forall id :: id in orphans ==> exists w :: w in waits && w.orphan == id)
  }

  function Erase(s: seq<nat>, id: nat): seq<nat> {
    if s == [] then []
    else (if s[0] == id then [] else [s[0]]) + Erase(s[1..], id)
  }

  lemma {:induction false} EraseMeaning(s: seq<nat>, id: nat)
    ensures forall x :: x in Erase(s, id) <==> x in s && x != id
    ensures Distinct(s) ==> Distinct(Erase(s, id))
    ensures |Erase(s, id)| <= |s|
    ensures id in s ==> |Erase(s, id)| < |s|
  {
    if s != [] {
      EraseMeaning(s[1..], id);
      assert Distinct(s) ==> Distinct(s[1..]);
      assert Distinct(s) ==> s[0] !in s[1..];
    }
  }

  function WaitsOfOthers(waits: set<Wait>, id: nat): set<Wait> {
    set w | w in waits && w.orphan != id
  }

  lemma OrphansWithout(c: Crypto, txs: map<nat, TxEntry>, orphans: map<nat, OrphanEntry>, waits: set<Wait>,
                       order: seq<nat>, due: set<Wait>, id: nat)
    requires OrphansOk(c, txs, orphans, waits, order, due) && id in orphans
    ensures OrphansOk(c, txs, orphans - {id}, WaitsOfOthers(waits, id), Erase(order, id), due)
    ensures |Erase(order, id)| < |order| && |orphans - {id}| == |orphans| - 1
    ensures OrphansOk(c, txs, orphans - {id}, WaitsOfOthers(waits, id), Erase(order, id),
                      WaitsOfOthers(due, id))
  {
    EraseMeaning(order, id);
    var less := WaitsOfOthers(waits, id);
    forall x | x in orphans - {id}
      ensures exists w :: w in less && w.orphan == x
    {
      var w :| w in waits && w.orphan == x;
      assert w in less;
    }
    assert (orphans - {id}).Keys == orphans.Keys - {id};
  }

  function NewWaits(missing: set<nat>, id: nat): set<Wait> {
    set p | p in missing :: Wait(p, id)
  }

  lemma OrphansWith(c: Crypto, txs: map<nat, TxEntry>, orphans: map<nat, OrphanEntry>, waits: set<Wait>,
                    order: seq<nat>, due: set<Wait>, id: nat, e: OrphanEntry, missing: set<nat>)
    requires OrphansOk(c, txs, orphans, waits, order, due) && |order| < MAX_MEMPOOL_ORPHANS
    requires id !in orphans && id !in txs && c.txid(e.tx) == id && missing != {} && missing !! txs.Keys
    ensures OrphansOk(c, txs, orphans[id := e], waits + NewWaits(missing, id), order + [id], due)
    ensures waits !! NewWaits(missing, id)
    ensures |orphans[id := e]| == |orphans| + 1
  {
    hide Distinct, NewWaits;
    WaitsWith(orphans.Keys, waits, id, missing);
    OrderWith(order, id);
    NewWaitsAre(missing, id);
    assert orphans[id := e].Keys == orphans.Keys + {id};
  }

  lemma OrderWith(order: seq<nat>, id: nat)
    requires Distinct(order) && id !in order
    ensures Distinct(order + [id])
    ensures forall x :: x in order + [id] <==> x in order || x == id
  {
  }

  lemma NewWaitsAre(missing: set<nat>, id: nat)
    ensures forall w :: w in NewWaits(missing, id) <==> w.parent in missing && w.orphan == id
  {
    forall w: Wait | w.parent in missing && w.orphan == id
      ensures w in NewWaits(missing, id)
    {
      assert w == Wait(w.parent, id);
    }
  }

  lemma WaitsWith(ids: set<nat>, waits: set<Wait>, id: nat, missing: set<nat>)
    requires missing != {}
    requires forall x :: x in ids ==> exists w :: w in waits && w.orphan == x
    ensures forall x :: x in ids + {id} ==> exists w :: w in waits + NewWaits(missing, id) && w.orphan == x
  {
    var more := waits + NewWaits(missing, id);
    var p :| p in missing;
    assert Wait(p, id) in more;
    forall x | x in ids + {id}
      ensures exists w :: w in more && w.orphan == x
    {
      if x != id {
        var w :| w in waits && w.orphan == x;
        assert w in more;
      }
    }
  }

  /** A pool that only shrinks does not disturb the orphans. */
  lemma OrphansShrink(c: Crypto, txs: map<nat, TxEntry>, less: map<nat, TxEntry>, orphans: map<nat, OrphanEntry>, waits: set<Wait>,
                      order: seq<nat>, due: set<Wait>)
    requires OrphansOk(c, txs, orphans, waits, order, due) && less.Keys <= txs.Keys
    ensures OrphansOk(c, less, orphans, waits, order, due)
  {
    assert forall id :: id in less ==> id in less.Keys;
  }

  function WaitsFor(waits: set<Wait>, parent: nat): set<Wait> {
    set w | w in waits && w.parent == parent
  }

  /** A new pooled transaction makes the orphans that wait for it due. */
  lemma OrphansGrow(c: Crypto, txs: map<nat, TxEntry>, orphans: map<nat, OrphanEntry>, waits: set<Wait>,
                    order: seq<nat>, due: set<Wait>, id: nat, e: TxEntry)
    requires OrphansOk(c, txs, orphans, waits, order, due) && id !in orphans
    ensures OrphansOk(c, txs[id := e], orphans, waits, order, due + WaitsFor(waits, id))
  {
  }
}
