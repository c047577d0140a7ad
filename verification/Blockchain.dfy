/** The node's chain: mutable tables, a block store whose writes may fail, and fork-aware acceptance. */
module Blockchain {
  import opened Arith
  import opened CompactTarget
  import opened Primitives
  import opened Retarget
  import opened Utxo
  import opened PathValidation
  import opened PathReplay
  import opened ChainState
  import opened ChainSteps
  import opened ForkChoice
  import opened Paths
  import opened Removal
  import opened Genesis
  import opened Effects
  import opened Delivery
  import opened TipExtension

  /** Block files by height and by identifier. A write that fails leaves an arbitrary file under its key
      and no other key is touched; a reliable store never fails. */
  class BlockStore {
    const reliable: bool
    var byHeight: map<nat, Block>
    var byHash: map<nat, Block>

    constructor (reliable: bool)
      ensures this.reliable == reliable && byHeight == map[] && byHash == map[]
    {
      this.reliable := reliable;
      byHeight, byHash := map[], map[];
    }

    method Store(height: nat, blk: Block) returns (ok: bool)
      modifies this`byHeight
      ensures ok ==> byHeight == old(byHeight)[height := blk]
      ensures !ok ==> byHeight - {height} == old(byHeight) - {height}
      ensures reliable ==> ok
    {
      var before := byHeight;
      var fails: bool := *;
      if reliable || !fails {
        byHeight := byHeight[height := blk];
        assert byHeight - {height} == before - {height};
        return true;
      }
      var torn: Option<Block> := *;
      byHeight := if torn.Some? then byHeight[height := torn.value] else byHeight - {height};
      assert byHeight - {height} == before - {height};
      return false;
    }

    method StoreByHash(id: nat, blk: Block) returns (ok: bool)
      modifies this`byHash
      ensures ok ==> byHash == old(byHash)[id := blk]
      ensures reliable ==> ok
    {
      var fails: bool := *;
      if reliable || !fails {
        byHash := byHash[id := blk];
        return true;
      }
      var torn: Option<Block> := *;
      byHash := if torn.Some? then byHash[id := torn.value] else byHash - {id};
      return false;
    }

    method RemoveByHash(id: nat)
      modifies this`byHash
      ensures byHash == old(byHash) - {id}
    {
      byHash := byHash - {id};
    }

    /** Removes the files of consecutive heights above the given one. */
    method PruneHeightFilesAfter(height: nat)
      modifies this`byHeight
      ensures forall h: nat :: h <= height ==>
                (h in byHeight <==> h in old(byHeight)) && (h in byHeight ==> byHeight[h] == old(byHeight)[h])
    {
      var cursor := height + 1;
      while cursor in byHeight
        invariant height < cursor
        invariant forall h: nat :: h <= height ==>
                    (h in byHeight <==> h in old(byHeight)) && (h in byHeight ==> byHeight[h] == old(byHeight)[h])
        decreases byHeight.Keys
      {
        ghost var before := byHeight.Keys;
        byHeight := byHeight - {cursor};
        assert cursor in before && cursor !in byHeight.Keys;
        cursor := cursor + 1;
      }
    }
  }

  class Blockchain {
    const rules: Rules
    const store: BlockStore
    const utxo: UTXOSet

    var bestHeight: nat
    var tipHash: nat
    var tipBits: Bits
    var heightMap: map<nat, nat>
    var index: map<nat, Header>
    var linkIndex: map<nat, nat>
    var heightIndex: map<nat, nat>
    var chainWork: map<nat, nat>
    var children: map<nat, seq<nat>>
    var blockPool: map<nat, Block>
    var blockHeight: map<nat, nat>
    var checkpoint: Option<Checkpoint>
    var pinned: bool

    /** The clock of the latest validation, whether it skipped proof of work, whether every height file of
        the active path is known to be written, the first active chain and all switches since. */
    ghost var clock: nat
    ghost var powSkipped: bool
    ghost var synced: bool
    ghost var origin: seq<Header>
    ghost var switches: seq<SwitchRecord>

    function View(): State
      reads this, utxo
    {
      State(bestHeight, tipHash, tipBits, heightMap, index, linkIndex, heightIndex, chainWork, children,
            blockPool, blockHeight, checkpoint, pinned, utxo.entries)
    }

    /** The height files of the active path hold its blocks. */
    ghost predicate FilesOk()
      reads this, utxo, store
    {
      FilesMatch(store.byHeight, View())
    }

    ghost predicate Valid()
      reads this, utxo, store
    {
      && rules.c.Sound()
      && TablesOk(rules, View())
      && UtxoOk(rules, View(), clock, powSkipped)
      && RunOk(rules.p, origin, switches, ActiveHeaders(rules, View()))
      && (synced ==> FilesOk())
    }

    /** A node with an empty data directory: it knows the first block and nothing else. */
    constructor (rules: Rules, store: BlockStore, now: nat)
      requires rules.c.Sound() && !TooFarInFuture(rules.p, rules.p.genesisTimestamp, now)
      requires store.byHeight == map[] && store.byHash == map[]
      modifies store
      ensures Valid() && this.rules == rules && this.store == store && fresh(utxo)
      ensures View() == GenesisState(rules)
      ensures clock == now && !powSkipped && switches == [] && (store.reliable ==> synced)
    {
      hide Valid, TablesOk, UtxoOk, RunOk, Apply, BlockWork, GenesisBlock, GenesisCoinbase, ActiveHeaders, TooFarInFuture;
      var g := GenesisBlock(rules);
      assert g.transactions == [GenesisCoinbase()] by { GenesisShape(rules); }
      var id := rules.c.Id(g.header);
      this.rules := rules;
      this.store := store;
      utxo := new UTXOSet();
      bestHeight, tipHash, tipBits := 0, id, g.header.bits;
      heightMap, index := map[0 := id], map[id := g.header];
      linkIndex, heightIndex := map[rules.c.Link(g.header) := id], map[id := 0];
      chainWork, blockHeight := map[id := BlockWork(rules.p, g.header.bits)], map[id := 0];
      children, blockPool := map[], map[id := g];
      checkpoint, pinned := Some(Checkpoint(0, id)), false;
      clock, powSkipped, origin, switches := now, false, [g.header], [];
      new;
      InstallFirstBlock(g, id);
      StartsValid(now);
    }

    /** Writes the first block and adds its outputs. */
    method InstallFirstBlock(g: Block, id: nat)
      requires g == GenesisBlock(rules) && id == rules.c.Id(g.header) && g.transactions == [GenesisCoinbase()]
      requires View() == GenesisState(rules).(utxo := map[])
      modifies store, utxo, `synced
      ensures View() == GenesisState(rules)
      ensures synced ==> 0 in store.byHeight && store.byHeight[0] == g
      ensures store.reliable ==> synced
    {
      hide GenesisBlock, GenesisCoinbase, Apply, BlockWork, Crypto.Id, Crypto.Link;
      synced := store.Store(0, g);
      var _ := store.StoreByHash(id, g);
      var _, _ := utxo.ApplyTransaction(rules.c, g.transactions[0], 0);
    }

    lemma StartsValid(now: nat)
      requires rules.c.Sound() && !TooFarInFuture(rules.p, rules.p.genesisTimestamp, now)
      requires View() == GenesisState(rules) && clock == now && !powSkipped && switches == []
      requires origin == [GenesisBlock(rules).header]
      requires synced ==> 0 in store.byHeight && store.byHeight[0] == GenesisBlock(rules)
      ensures Valid()
    {
      hide TablesOk, UtxoOk, RunOk, GenesisState, GenesisBlock, ActiveHeaders;
      GenesisConsistent(rules, now);
      assert heightMap == View().heightMap && blockPool == View().pool && bestHeight == View().best;
      assert bestHeight == 0 by { GenesisHeight(rules); }
    }

    // -------------------------------------------------------------------------
    // Lookups
    // -------------------------------------------------------------------------

    /** The identifier a block or link hash refers to. */
    function CanonicalBlockIdFor(hash: nat): Option<nat>
      reads this
    {
      if hash in index then Some(hash) else if hash in linkIndex then Some(linkIndex[hash]) else None
    }

    function FindByHeight(height: nat): Option<Block>
      reads store
    {
      if height in store.byHeight then Some(store.byHeight[height]) else None
    }

    /** Looks in the pool, then in the height files, then in the files by identifier. */
    function GetBlockByHash(hash: nat): Option<Block>
      reads this, store
    {
      var canonical := CanonicalBlockIdFor(hash);
      if canonical.None? then None
      else if canonical.value in blockPool then Some(blockPool[canonical.value])
      else if canonical.value in heightIndex then FindByHeight(heightIndex[canonical.value])
      else if canonical.value in store.byHash then Some(store.byHash[canonical.value])
      else None
    }

    // -------------------------------------------------------------------------
    // Validation of a path
    // -------------------------------------------------------------------------

    /** Replays a path of identifiers on an empty set of outputs and reports how many blocks validate. The
        blocks found are returned for the specification. When a transaction fails or the coinbase overpays,
        `out` holds part of the failing block; otherwise it is the replay of the valid prefix. */
    method ValidatedPrefixLength(path: seq<nat>, out: UTXOSet, now: nat, skipPow: bool)
      returns (n: nat, bits: Bits, reason: Option<Reason>, ghost blocks: seq<Block>)
      requires out != utxo
      modifies out
      ensures n <= |path| && |blocks| == n
      ensures forall i :: 0 <= i < n ==> GetBlockByHash(path[i]) == Some(blocks[i])
      ensures PathValid(rules, blocks, now, skipPow)
      ensures bits == if n == 0 then tipBits else blocks[n - 1].header.bits
      ensures reason.None? <==> n == |path|
      ensures n == |path| ==> Replay(rules, blocks, now, skipPow) == Accepted(out.entries)
      ensures n < |path| ==>
                match GetBlockByHash(path[n])
                case None => reason == Some(MissingBlock) && out.entries == Replay(rules, blocks, now, skipPow).utxo
                case Some(blk) =>
                  reason.Some? &&
                  CheckBlock(rules, HeadersOf(blocks), blk, Replay(rules, blocks, now, skipPow).utxo, now, skipPow)
                  == Rejected(reason.value, out.entries)
    {
      hide CheckBlock, GetBlockByHash, MapsMatch, Replay;
      var hmap: map<nat, nat>, idx: map<nat, Header> := map[], map[];
      out.Clear();
      n, bits, reason, blocks := 0, tipBits, None, [];
      EmptyReplay(rules, now, skipPow);
      MapsStart(hmap, idx, path);
      while n < |path|
        invariant n <= |path| && |blocks| == n && reason.None?
        invariant forall i :: 0 <= i < n ==> GetBlockByHash(path[i]) == Some(blocks[i])
        invariant MapsMatch(hmap, idx, path, blocks)
        invariant Replay(rules, blocks, now, skipPow) == Accepted(out.entries)
        invariant bits == if n == 0 then tipBits else blocks[n - 1].header.bits
      {
        var found := GetBlockByHash(path[n]);
        if found.None? {
          return n, bits, Some(MissingBlock), blocks;
        }
        var blk := found.value;
        MapsGrow(hmap, idx, path, blocks, blk);
        hmap, idx := hmap[n := path[n]], idx[path[n] := blk.header];
        ReplaySnoc(rules, blocks, blk, now, skipPow);
        var fault := CheckNext(rules, hmap, idx, n, blk, out, now, skipPow, HeadersOf(blocks));
        if fault.Some? {
          return n, bits, fault, blocks;
        }
        bits := blk.header.bits;
        blocks := blocks + [blk];
        n := n + 1;
      }
    }

    // -------------------------------------------------------------------------
    // Checkpoints
    // -------------------------------------------------------------------------

    /** Rolls the checkpoint along with the tip unless it is pinned. */
    method RefreshLocalCheckpoint()
      requires forall h: nat :: h in heightMap <==> h <= bestHeight
      modifies `checkpoint
      ensures checkpoint == Refreshed(pinned, old(checkpoint), PathOfMap(heightMap, bestHeight))
      ensures View() == old(View()).(checkpoint := checkpoint)
    {
      if pinned {
        return;
      }
      var height := if bestHeight > MAX_REORG_DEPTH then bestHeight - MAX_REORG_DEPTH else 0;
      var next := Checkpoint(height, heightMap[height]);
      if checkpoint == Some(next) {
        return;
      }
      checkpoint := Some(next);
    }

    method CandidateMatchesLocalCheckpoint(path: seq<nat>) returns (matches: bool)
      ensures matches == Matches(View(), path)
    {
      if checkpoint.None? {
        return true;
      }
      if |path| <= checkpoint.value.height {
        return false;
      }
      return path[checkpoint.value.height] == checkpoint.value.id;
    }

    /** Number of active blocks a switch to the candidate path rolls back. */
    method ReorgDepthFromCandidate(path: seq<nat>) returns (depth: nat)
      requires forall h: nat :: h in heightMap <==> h <= bestHeight
      ensures depth == ReorgDepth(PathOfMap(heightMap, bestHeight), path)
    {
      hide CommonPrefix;
      ghost var active := PathOfMap(heightMap, bestHeight);
      var activeSize := bestHeight + 1;
      var limit := if activeSize < |path| then activeSize else |path|;
      var shared := 0;
      while shared < limit
        invariant shared <= limit
        invariant active[..shared] == path[..shared]
      {
        if heightMap[shared] != path[shared] {
          break;
        }
        shared := shared + 1;
      }
      SharedIsCommon(active, path, shared);
      return activeSize - shared;
    }

    // -------------------------------------------------------------------------
    // Switching the active path
    // -------------------------------------------------------------------------

    /** Computes the tables of the new active path; every block is found in the pool. */
    method PrepareActivation(path: seq<nat>, ghost tip: nat)
      returns (ok: bool, resolved: seq<Block>, nextHeights: map<nat, nat>, nextWork: map<nat, nat>)
      requires TablesOk(rules, View()) && PathTo(index, linkIndex, path, tip)
      ensures ok && |resolved| == |path|
      ensures forall i :: 0 <= i < |path| ==> path[i] in blockPool && resolved[i] == blockPool[path[i]]
      ensures nextHeights == PositionMap(path, |path|)
      ensures nextWork == WorkMap(rules.p, path, HeadersAt(index, path), |path|)
    {
      hide TablesOk, PathTo, Distinct, BlockWork, WorkMap, PositionMap, GetBlockByHash;
      PathInPool(rules, View(), path, tip);
      ghost var hs := HeadersAt(index, path);
      PathDistinct(index, linkIndex, path, tip);
      resolved, nextHeights, nextWork := [], map[], map[];
      MapsEmpty(rules.p, path, hs);
      for i := 0 to |path|
        invariant |resolved| == i && forall j :: 0 <= j < i ==> resolved[j] == blockPool[path[j]]
        invariant nextHeights == PositionMap(path, i) && nextWork == WorkMap(rules.p, path, hs, i)
      {
        PooledIsFound(path[i]);
        var found := GetBlockByHash(path[i]);
        if found.None? {
          return false, resolved, nextHeights, nextWork;
        }
        MapsNext(rules.p, path, hs, i);
        var work := BlockWork(rules.p, found.value.header.bits);
        resolved := resolved + [found.value];
        nextHeights := nextHeights[path[i] := i];
        nextWork := nextWork[path[i] := if i == 0 then work else nextWork[path[i - 1]] + work];
      }
      ok := true;
    }

    /** Writes the blocks of the new path to the store, lowest first. */
    method WriteBlocks(path: seq<nat>, resolved: seq<Block>) returns (ok: bool)
      requires |resolved| == |path|
      modifies store
      ensures ok ==> forall h: nat :: h < |path| ==> h in store.byHeight && store.byHeight[h] == resolved[h]
      ensures store.reliable ==> ok
    {
      for i := 0 to |path|
        invariant forall h: nat :: h < i ==> h in store.byHeight && store.byHeight[h] == resolved[h]
      {
        var stored := store.Store(i, resolved[i]);
        if !stored {
          return false;
        }
        stored := store.StoreByHash(path[i], resolved[i]);
        if !stored {
          return false;
        }
      }
      ok := true;
    }

    /** Makes `path` the active path once all its blocks are written. A write failure leaves every table,
        and the unspent outputs, as they were. */
    method ActivatePath(path: seq<nat>, newUtxo: UTXOSet, newTipBits: Bits, ghost tip: nat) returns (ok: bool)
      requires TablesOk(rules, View()) && PathTo(index, linkIndex, path, tip) && newUtxo != utxo
      modifies `heightMap, `heightIndex, `blockHeight, `chainWork, `bestHeight, `tipHash, `tipBits, `checkpoint, `synced,
               utxo, newUtxo, store
      ensures ok ==> View() == Activate(rules.p, old(View()), path, HeadersAt(index, path), newTipBits, old(newUtxo.entries))
      ensures !ok ==> View() == old(View()) && !synced
      ensures ok ==> synced && FilesOk()
      ensures store.reliable ==> ok
    {
      hide *;
      ghost var s := View();
      ViewFields();
      PathInPool(rules, s, path, tip);
      var found, resolved, nextHeights, nextWork := PrepareActivation(path, tip);
      ok := WriteBlocks(path, resolved);
      if !ok {
        synced := false;
        ViewFields();
        return false;
      }
      ghost var hs := HeadersAt(index, path);
      InstallPath(path, nextHeights, nextWork, newTipBits, hs);
      ghost var t := View();
      ViewFields();
      ActivatedShape(rules.p, s, path, hs, newTipBits, t);
      store.PruneHeightFilesAfter(bestHeight);
      utxo.SwapIn(newUtxo);
      synced := true;
      ViewFields();
      Swapped(rules.p, s, path, hs, newTipBits, t, View());
      FilesWritten(s, View(), path, resolved, store.byHeight);
      FilesOkIs();
    }

    lemma FilesOkIs()
      ensures FilesOk() == FilesMatch(store.byHeight, View())
    {
    }

    /** Replaces the tables of the active path and rolls the checkpoint. */
    method InstallPath(path: seq<nat>, nextHeights: map<nat, nat>, nextWork: map<nat, nat>, newTipBits: Bits, ghost hs: seq<Header>)
      requires path != [] && |hs| == |path|
      requires nextHeights == PositionMap(path, |path|) && nextWork == WorkMap(rules.p, path, hs, |path|)
      modifies `heightMap, `heightIndex, `blockHeight, `chainWork, `bestHeight, `tipHash, `tipBits, `checkpoint
      ensures View() == Activate(rules.p, old(View()), path, hs, newTipBits, utxo.entries)
    {
      hide *;
      ghost var s := View();
      ReplaceTables(path, nextHeights, nextWork, newTipBits, hs);
      ViewFields();
      ghost var t := View();
      RefreshLocalCheckpoint();
      ViewFields();
      Installed(rules.p, s, t, path, hs, checkpoint, newTipBits);
    }

    method ReplaceTables(path: seq<nat>, nextHeights: map<nat, nat>, nextWork: map<nat, nat>, newTipBits: Bits, ghost hs: seq<Header>)
      requires path != [] && |hs| == |path|
      requires nextHeights == PositionMap(path, |path|) && nextWork == WorkMap(rules.p, path, hs, |path|)
      modifies `heightMap, `heightIndex, `blockHeight, `chainWork, `bestHeight, `tipHash, `tipBits
      ensures View() == Activate(rules.p, old(View()), path, hs, newTipBits, utxo.entries).(checkpoint := checkpoint)
      ensures (forall h: nat :: h in heightMap <==> h <= bestHeight) && PathOfMap(heightMap, bestHeight) == path
      ensures checkpoint == old(View()).checkpoint
    {
      hide *;
      ghost var s := View();
      ViewFields();
      HeightMapMeaning(path);
      heightMap := HeightMapOf(path);
      heightIndex, blockHeight, chainWork := nextHeights, nextHeights, nextWork;
      bestHeight, tipHash, tipBits := |path| - 1, path[|path| - 1], newTipBits;
      ViewFields();
      Replaced(rules.p, s, View(), path, hs);
    }

    lemma PooledIsFound(id: nat)
      requires id in index && id in blockPool
      ensures GetBlockByHash(id) == Some(blockPool[id])
    {
    }

    // -------------------------------------------------------------------------
    // Forgetting invalid blocks
    // -------------------------------------------------------------------------

    /** Erases one block from all tables unless it is listed with a height. */
    method ForgetBlock(hash: nat) returns (mutated: bool)
      requires IndexOk(rules.c, index, linkIndex)
      modifies `index, `linkIndex, `blockPool, `chainWork, `blockHeight, store`byHash
      ensures View() == Without(old(View()), if hash in heightIndex then {} else {hash})
      ensures !mutated ==> View() == old(View())
    {
      hide *;
      ghost var s := View();
      ViewFields();
      WithoutNothing(s);
      if hash in heightIndex {
        return false;
      }
      mutated := hash in index || hash in blockPool || hash in chainWork || hash in blockHeight;
      EraseBlock(hash, mutated);
      store.RemoveByHash(hash);
    }

    method EraseBlock(hash: nat, mutated: bool)
      requires IndexOk(rules.c, index, linkIndex)
      requires mutated <==> hash in index || hash in blockPool || hash in chainWork || hash in blockHeight
      modifies `index, `linkIndex, `blockPool, `chainWork, `blockHeight
      ensures View() == Without(old(View()), {hash}) && (!mutated ==> View() == old(View()))
    {
      hide *;
      ghost var s := View();
      ViewFields();
      EraseHeader(hash);
      EraseEntries(hash);
      ForgottenIs(rules.c, s, View(), hash, mutated);
    }

    method EraseHeader(hash: nat)
      modifies `index, `linkIndex
      ensures View() == old(View()).(index := index, links := linkIndex) && index == old(index) - {hash}
      ensures linkIndex == if hash in old(index) then old(linkIndex) - {rules.c.Link(old(index[hash]))} else old(linkIndex)
    {
      if hash in index {
        linkIndex := linkIndex - {rules.c.Link(index[hash])};
        index := index - {hash};
      }
    }

    method EraseEntries(hash: nat)
      modifies `blockPool, `chainWork, `blockHeight
      ensures var s := old(View()); View() == s.(pool := s.pool - {hash}, work := s.work - {hash}, heights := s.heights - {hash})
    {
      blockPool, chainWork, blockHeight := blockPool - {hash}, chainWork - {hash}, blockHeight - {hash};
    }

    /** Erases the listed blocks that have no listed height. */
    method ForgetBlocks(list: seq<nat>) returns (mutated: bool, ghost doomed: set<nat>)
      requires IndexOk(rules.c, index, linkIndex)
      modifies `index, `linkIndex, `blockPool, `chainWork, `blockHeight, store`byHash
      ensures View() == Without(old(View()), doomed) && doomed !! heightIndex.Keys
      ensures forall id :: id in doomed <==> id in list && id !in heightIndex
      ensures !mutated ==> View() == old(View())
    {
      hide Without, IndexOk;
      mutated, doomed := false, {};
      WithoutNothing(View());
      for i := 0 to |list|
        invariant View() == Without(old(View()), doomed) && doomed !! heightIndex.Keys
        invariant IndexOk(rules.c, index, linkIndex)
        invariant forall id :: id in doomed <==> id in list[..i] && id !in heightIndex
        invariant !mutated ==> View() == old(View())
      {
        ghost var one: set<nat> := if list[i] in heightIndex then {} else {list[i]};
        ghost var before := View();
        var forgot := ForgetBlock(list[i]);
        WithoutTwice(old(View()), doomed, one);
        WithoutIndexOk(rules.c, before, one);
        doomed := doomed + one;
        mutated := mutated || forgot;
      }
    }

    /** Recomputes children, heights and work of everything the header table knows. */
    method RebuildKnownBlockState()
      requires forall h: nat :: h in heightMap <==> h <= bestHeight
      requires PathTo(index, linkIndex, PathOfMap(heightMap, bestHeight), tipHash)
      modifies `chainWork, `blockHeight, `heightIndex, `children
      ensures ChildrenOk(index, children)
      ensures forall id :: id in index && index[id].prev != 0 ==> index[id].prev in children && id in children[index[id].prev]
      ensures WorkOk(rules.p, index, linkIndex, chainWork, blockHeight)
      ensures HeightIndexOk(heightIndex, chainWork, blockHeight) && AllListed(index, chainWork, heightIndex)
      ensures forall h :: 0 <= h <= bestHeight ==>
                PathOfMap(heightMap, bestHeight)[h] in chainWork && PathOfMap(heightMap, bestHeight)[h] in heightIndex
      ensures forall id :: id in index ==> (id in chainWork <==> Connected(index, linkIndex, id))
      ensures forall id, q :: id in index && PathTo(index, linkIndex, q, id) ==>
                DescribedByPath(rules.p, index, linkIndex, Found(chainWork, blockHeight, heightIndex), id, q)
    {
      hide PathTo, WorkOk, HeightIndexOk, ChildrenOk, Connected, DescribedByPath, AllListed;
      var path := PathOfMap(heightMap, bestHeight);
      var newChildren, found := Rebuild(rules.p, index, linkIndex, path, tipHash);
      children, chainWork, blockHeight, heightIndex := newChildren, found.work, found.heights, found.heightIndex;
    }

    /** Forgets a block that failed validation together with the blocks parked below it, then rebuilds the
        state of everything left. The active path is not affected. */
    method PurgeCachedSubtree(root: nat)
      requires TablesOk(rules, View()) && root !in heightIndex && root in index
      modifies `index, `linkIndex, `blockPool, `chainWork, `blockHeight, `heightIndex, `children, store`byHash
      ensures TablesOk(rules, View()) && root !in index && SameChain(old(View()), View())
      ensures index.Keys <= old(index.Keys) && blockPool.Keys <= old(blockPool.Keys)
      ensures Purged(rules.c, old(View()), View(), root)
    {
      hide *;
      ViewFields();
      ghost var before := View();
      TablesParts(rules, before);
      var list := CollectSubtree(rules.c, index, children, root);
      var mutated, doomed := ForgetBlocks(list);
      if !mutated {
        WithoutEntries(before, doomed);
        return;
      }
      RebuildRemaining(before, root, doomed);
    }

    method RebuildRemaining(ghost before: State, ghost root: nat, ghost doomed: set<nat>)
      requires TablesOk(rules, before) && doomed !! before.heightIndex.Keys && View() == Without(before, doomed) && root in doomed
      requires forall id :: id in doomed <==> Descends(rules.c, before.index, before.children, root, id) && id !in before.heightIndex
      modifies `chainWork, `blockHeight, `heightIndex, `children
      ensures TablesOk(rules, View()) && SameChain(before, View())
      ensures root !in index && index.Keys <= before.index.Keys && blockPool.Keys <= before.pool.Keys
      ensures Purged(rules.c, before, View(), root)
    {
      hide *;
      ViewFields();
      ghost var between := View();
      TablesParts(rules, before);
      WithoutEntries(before, doomed);
      WithoutActive(rules, before, doomed);
      RebuildKnownBlockState();
      ViewFields();
      PurgeResult(rules, before, root, doomed, between, View());
    }

    // -------------------------------------------------------------------------
    // Acceptance
    // -------------------------------------------------------------------------

    /** Builds the path of a cached block with a connected parent and replays it. The path always exists. */
    method ValidateCandidate(id: nat, x: Context) returns (valid: bool, path: seq<nat>, newUtxo: UTXOSet, bits: Bits)
      requires TablesOk(rules, View()) && id in index && ParentConnected(View(), index[id])
      ensures path == CandidatePath(rules, View(), id)
      ensures valid <==> PathValid(rules, CandidateBlocks(rules, View(), id), x.now, x.skipPow)
      ensures fresh(newUtxo)
      ensures valid ==> Replay(rules, CandidateBlocks(rules, View(), id), x.now, x.skipPow) == Accepted(newUtxo.entries)
      ensures valid ==> bits == index[id].bits
    {
      hide *;
      ViewFields();
      ghost var s := View();
      ghost var expected := CandidateBlocks(rules, s, id);
      CandidateMeaning(rules, s, id);
      var ok;
      ok, path := BuildPathToGenesis(index, linkIndex, id);
      assert ok;
      PathToUnique(index, linkIndex, path, CandidatePath(rules, s, id), id);
      newUtxo := new UTXOSet();
      forall i | 0 <= i < |path|
        ensures GetBlockByHash(path[i]) == Some(expected[i])
      {
        PooledIsFound(path[i]);
      }
      var n, tipBits', reason, blocks := ValidatedPrefixLength(path, newUtxo, x.now, x.skipPow);
      assert blocks == expected[..n];
      if n == |path| {
        assert expected[..n] == expected;
        return true, path, newUtxo, tipBits';
      }
      StoppedIsInvalid(rules, expected, n, x.now, x.skipPow);
      return false, path, newUtxo, tipBits';
    }

    lemma ViewFields()
      ensures View().index == index && View().links == linkIndex && View().work == chainWork && View().tip == tipHash
      ensures View().heightMap == heightMap && View().best == bestHeight && View().pool == blockPool
      ensures View().heightIndex == heightIndex && View().heights == blockHeight && View().children == children
      ensures View().checkpoint == checkpoint && View().pinned == pinned && View().tipBits == tipBits && View().utxo == utxo.entries
    {
    }

    lemma IsValid()
      requires Valid()
      ensures rules.c.Sound() && TablesOk(rules, View()) && UtxoOk(rules, View(), clock, powSkipped)
      ensures RunOk(rules.p, origin, switches, ActiveHeaders(rules, View()))
      ensures synced ==> FilesOk()
    {
      hide TablesOk, UtxoOk, RunOk;
    }

    lemma HasTables()
      requires Valid()
      ensures rules.c.Sound() && TablesOk(rules, View())
    {
      hide TablesOk, UtxoOk, RunOk;
    }

    lemma BecomesValid()
      requires rules.c.Sound() && TablesOk(rules, View()) && UtxoOk(rules, View(), clock, powSkipped)
      requires RunOk(rules.p, origin, switches, ActiveHeaders(rules, View()))
      requires synced ==> FilesOk()
      ensures Valid()
    {
      hide TablesOk, UtxoOk, RunOk;
    }

    /** A step that leaves the active path alone keeps the invariant. */
    lemma StaysValid(before: State)
      requires rules.c.Sound() && TablesOk(rules, before) && UtxoOk(rules, before, clock, powSkipped)
      requires RunOk(rules.p, origin, switches, ActiveHeaders(rules, before))
      requires synced ==> FilesMatch(store.byHeight, before)
      requires TablesOk(rules, View()) && SameChain(before, View())
      ensures Valid() && ActivePath(View()) == ActivePath(before)
    {
      hide TablesOk, UtxoOk, RunOk, SameChain, ActivePath, ActiveHeaders, ActiveBlocks;
      SameChainKeeps(rules, before, View(), clock, powSkipped, store.byHeight);
      BecomesValid();
    }

    /** The checkpoint and the reorg limit, in this order, on a candidate with more work than the tip. */
    method GuardSwitch(id: nat, path: seq<nat>, x: Context) returns (verdict: Verdict)
      requires TablesOk(rules, View())
      ensures verdict == GuardVerdict(View(), path, x)
    {
      hide *;
      ViewFields();
      GuardIs(rules, View(), path, x);
      var matches := CandidateMatchesLocalCheckpoint(path);
      if !matches {
        return Mismatch;
      }
      var depth := ReorgDepthFromCandidate(path);
      if depth > x.maxReorg && !x.allowDeepReorg {
        return TooDeep;
      }
      return Switch;
    }

    /** Switches to a validated candidate with more work than the tip that both guards let through. */
    method PerformSwitch(id: nat, path: seq<nat>, newUtxo: UTXOSet, bits: Bits, x: Context) returns (stored: bool)
      requires Valid() && clock == x.now && newUtxo != utxo
      requires id in index && ParentConnected(View(), index[id]) && path == CandidatePath(rules, View(), id)
      requires Replay(rules, CandidateBlocks(rules, View(), id), x.now, x.skipPow) == Accepted(newUtxo.entries)
      requires bits == index[id].bits && Matches(View(), path)
      requires tipHash in chainWork && chainWork[tipHash] < CandidateWork(rules, View(), id)
      modifies this, utxo, newUtxo, store
      ensures Valid() && clock == old(clock) && origin == old(origin)
      ensures store.reliable ==> stored
      ensures !stored ==> View() == old(View()) && switches == old(switches) && powSkipped == old(powSkipped)
      ensures stored ==> SwitchedTo(rules, old(View()), View(), path, bits)
      ensures stored ==> powSkipped == x.skipPow && synced && |switches| == |old(switches)| + 1 && old(switches) <= switches
    {
      hide *;
      ghost var s := View();
      ViewFields();
      IsValid();
      CandidateMeaning(rules, s, id);
      stored := ActivatePath(path, newUtxo, bits, id);
      ViewFields();
      FilesOkIs();
      if stored {
        SwitchConsistent(rules, s, id, path, bits, old(newUtxo.entries), x, switches, origin);
        powSkipped := x.skipPow;
        switches := switches + [RecordOf(rules, s, path)];
      }
      ViewFields();
      FilesOkIs();
      BecomesValid();
    }

    /** Applies the two guards to a validated candidate with more work than the tip, then switches. */
    method TrySwitch(id: nat, path: seq<nat>, newUtxo: UTXOSet, bits: Bits, x: Context) returns (verdict: Verdict, stored: bool)
      requires Valid() && clock == x.now && newUtxo != utxo
      requires id in index && ParentConnected(View(), index[id]) && path == CandidatePath(rules, View(), id)
      requires Replay(rules, CandidateBlocks(rules, View(), id), x.now, x.skipPow) == Accepted(newUtxo.entries)
      requires bits == index[id].bits
      requires tipHash in chainWork && chainWork[tipHash] < CandidateWork(rules, View(), id)
      modifies this, utxo, newUtxo, store
      ensures Valid() && clock == old(clock) && origin == old(origin)
      ensures old(TablesOk(rules, View())) && verdict == GuardVerdict(old(View()), path, x)
      ensures store.reliable ==> stored
      ensures !(verdict.Switch? && stored) ==>
                View() == old(View()) && switches == old(switches) && powSkipped == old(powSkipped)
      ensures verdict.Switch? && stored ==> SwitchedTo(rules, old(View()), View(), path, bits)
      ensures verdict.Switch? && stored ==> powSkipped == x.skipPow && synced && |switches| == |old(switches)| + 1 && old(switches) <= switches
      ensures !verdict.Switch? ==> synced == old(synced)
    {
      hide *;
      HasTables();
      verdict := GuardSwitch(id, path, x);
      stored := true;
      if verdict.Switch? {
        GuardMatches(rules, View(), path, x);
        stored := PerformSwitch(id, path, newUtxo, bits, x);
      }
    }

    method DropInvalid(id: nat)
      requires Valid() && id in index && id !in heightIndex
      modifies `index, `linkIndex, `blockPool, `chainWork, `blockHeight, `heightIndex, `children, store`byHash
      ensures Valid() && old(TablesOk(rules, View())) && Effect(rules, old(View()), View(), id, Invalid, true)
    {
      hide Valid, TablesOk, UtxoOk, RunOk, FilesMatch, ActiveHeaders, ActivePath, SameChain, Effect, Purged;
      ghost var s := View();
      IsValid();
      PurgeCachedSubtree(id);
      StaysValid(s);
      EffectInvalid(rules, s, View(), id);
    }

    method RecordSideBlock(id: nat, height: nat, work: nat)
      requires Valid() && id in index && id !in chainWork && ParentConnected(View(), index[id])
      requires height == CandidateHeight(View(), id) && work == CandidateWork(rules, View(), id)
      modifies `chainWork, `blockHeight
      ensures Valid() && old(TablesOk(rules, View())) && Effect(rules, old(View()), View(), id, Side, true)
    {
      hide Valid, TablesOk, UtxoOk, RunOk, FilesMatch, ActiveHeaders, ActivePath, SameChain, CandidateWork, ParentConnected,
           Effect;
      ghost var s := View();
      IsValid();
      blockHeight, chainWork := blockHeight[id := height], chainWork[id := work];
      RecordSideTables(rules, s, id);
      SameChainSide(s, id, height, work);
      StaysValid(s);
      EffectSide(rules, s, View(), id);
    }

    /** Height and work of a block with a connected parent, and whether it has more work than the tip. */
    method WeighLinked(id: nat) returns (height: nat, work: nat, beatsTip: bool)
      requires TablesOk(rules, View()) && id in index && id !in chainWork && ParentConnected(View(), index[id])
      ensures height == CandidateHeight(View(), id) && work == CandidateWork(rules, View(), id)
      ensures tipHash in chainWork && beatsTip == (work > chainWork[tipHash]) && id !in heightIndex
      ensures View().tip in View().work && beatsTip == (CandidateWork(rules, View(), id) > View().work[View().tip])
    {
      hide TablesOk, CandidateWork, BlockWork, ParentConnected, CandidateHeight;
      LinkedFacts(rules, View(), id);
      var h := index[id];
      height, work := 0, BlockWork(rules.p, h.bits);
      if h.prev != 0 {
        var parent := linkIndex[h.prev];
        height, work := blockHeight[parent] + 1, chainWork[parent] + work;
      }
      beatsTip := tipHash !in chainWork || work > chainWork[tipHash];
    }

    /** The part of the decision for a block whose parent has height and work. */
    method ConnectLinked(id: nat, x: Context) returns (verdict: Verdict, stored: bool)
      requires Valid() && clock == x.now && id in index && id !in chainWork && ParentConnected(View(), index[id])
      modifies this, utxo, store
      ensures Valid() && clock == old(clock) && origin == old(origin) && old(switches) <= switches
      ensures old(TablesOk(rules, View())) && verdict == old(Judge(rules, View(), id, x))
      ensures verdict.Invalid? || verdict.Side? || verdict.Mismatch? || verdict.TooDeep? || verdict.Switch?
      ensures store.reliable ==> stored
      ensures Effect(rules, old(View()), View(), id, verdict, stored)
      ensures verdict.Switch? && stored ==> powSkipped == x.skipPow && synced && |switches| == |old(switches)| + 1
      ensures !(verdict.Switch? && stored) ==> switches == old(switches) && powSkipped == old(powSkipped)
      ensures !verdict.Switch? ==> synced == old(synced)
    {
      hide *;
      HasTables();
      ViewFields();
      ghost var s := View();
      var height, work, beatsTip := WeighLinked(id);
      var valid, path, newUtxo, bits := ValidateCandidate(id, x);
      JudgeLinked(rules, s, id, x);
      if !valid {
        DropInvalid(id);
        return Invalid, true;
      }
      if beatsTip {
        verdict, stored := TrySwitch(id, path, newUtxo, bits, x);
        EffectGuarded(rules, s, View(), id, x, verdict, stored);
        return;
      }
      RecordSideBlock(id, height, work);
      return Side, true;
    }

    method PutInChildren(link: nat, id: nat)
      modifies `children
      ensures View() == Park(old(View()), link, id)
    {
      children := children[link := (if link in children then children[link] else []) + [id]];
    }

    method ParkBlock(id: nat)
      requires Valid() && id in index && !ParentConnected(View(), index[id])
      modifies `children
      ensures Valid() && View() == Park(old(View()), index[id].prev, id)
    {
      hide *;
      ghost var s := View();
      ViewFields();
      FilesOkIs();
      IsValid();
      var prev := index[id].prev;
      PutInChildren(prev, id);
      ParkTables(rules, s, prev, id);
      SameChainPark(s, prev, id);
      StaysValid(s);
    }

    /** Decides about a cached block: it is known, waits for its parent, is invalid, joins as a side block,
        is held back by a guard, or becomes the tip. The verdict is the one the tables dictate, and the
        tables change as the verdict says. */
    method Connect(id: nat, x: Context) returns (verdict: Verdict, stored: bool)
      requires Valid() && clock == x.now && id in index
      modifies this, utxo, store
      ensures Valid() && clock == old(clock) && origin == old(origin) && old(switches) <= switches
      ensures old(TablesOk(rules, View())) && verdict == old(Judge(rules, View(), id, x)) && !verdict.Refused?
      ensures store.reliable ==> stored
      ensures Effect(rules, old(View()), View(), id, verdict, stored)
      ensures verdict.Switch? && stored ==> powSkipped == x.skipPow && synced && |switches| == |old(switches)| + 1
      ensures !(verdict.Switch? && stored) ==> switches == old(switches) && powSkipped == old(powSkipped)
      ensures !verdict.Switch? ==> synced == old(synced)
    {
      hide Valid, TablesOk, UtxoOk, RunOk, FilesMatch, PathTo, CandidatePath, CandidateBlocks, CandidateWork, PathValid,
           ActiveHeaders, ActivePath, ReorgDepth, Matches, SwitchedTo, BlockWork, SameChain, Park;
      HasTables();
      stored := true;
      if id in chainWork {
        return Known, true;
      }
      var prev := index[id].prev;
      if prev != 0 && (prev !in linkIndex || linkIndex[prev] !in chainWork) {
        ParkBlock(id);
        return Parked, true;
      }
      verdict, stored := ConnectLinked(id, x);
    }

    /** Time passes; a valid active path stays valid. */
    method AdvanceClock(now: nat)
      requires Valid() && clock <= now
      modifies `clock
      ensures Valid() && clock == now
    {
      hide Valid, TablesOk, RunOk, FilesMatch, ActiveHeaders, Replay;
      IsValid();
      ReplayRelax(rules, ActiveBlocks(rules, View()), clock, now, powSkipped, powSkipped);
      clock := now;
      BecomesValid();
    }

    method PutInCache(blk: Block)
      modifies `index, `blockPool, `linkIndex, store`byHash
      ensures View() == Cache(rules.c, old(View()), blk)
    {
      hide Crypto.Id, Crypto.Link;
      var id := rules.c.Id(blk.header);
      if id !in index {
        index := index[id := blk.header];
      }
      if id !in blockPool {
        blockPool := blockPool[id := blk];
      }
      var _ := store.StoreByHash(id, blk);
      linkIndex := linkIndex[rules.c.Link(blk.header) := id];
    }

    /** Stores a block that passed the first checks, unless its identifier is already taken. */
    method CacheBlock(blk: Block)
      requires Valid()
      modifies `index, `blockPool, `linkIndex, store`byHash
      ensures Valid() && View() == Cache(rules.c, old(View()), blk)
      ensures rules.c.Id(blk.header) in index && index[rules.c.Id(blk.header)] == blk.header
      ensures index.Keys == old(index.Keys) + {rules.c.Id(blk.header)}
    {
      hide Valid, TablesOk, UtxoOk, RunOk, FilesMatch, ActiveHeaders, ActivePath, SameChain, Cache, Crypto.Id, Crypto.Link;
      ghost var s := View();
      IsValid();
      PutInCache(blk);
      CacheTables(rules, s, blk);
      CacheFacts(rules, s, blk);
      StaysValid(s);
    }

    /** First checks, then storing, then the decision: one block without the orphans that wait for it. */
    method Consider(blk: Block, x: Context) returns (verdict: Verdict, stored: bool)
      requires Valid() && clock <= x.now
      modifies this, utxo, store
      ensures Valid() && clock == x.now && origin == old(origin)
      ensures old(TablesOk(rules, View()))
      ensures verdict.Refused? <==> !Admissible(rules, old(View()), blk, x)
      ensures verdict.Refused? ==> View() == old(View())
      ensures !verdict.Refused? ==> Considered(rules, old(View()), View(), blk, x, verdict, stored)
      ensures store.reliable ==> stored
      ensures verdict.Switch? && stored ==> |switches| == |old(switches)| + 1
      ensures Progress(old(View()), old(switches), View(), switches)
      ensures index.Keys <= old(index.Keys) + {rules.c.Id(blk.header)}
    {
      hide Valid, TablesOk, UtxoOk, RunOk, FilesMatch, ActiveHeaders, ActivePath, SameChain, Cache, Judge, Effect, Progress;
      AdvanceClock(x.now);
      IsValid();
      ghost var s := View();
      ProgressNothing(s, switches);
      var parent: Option<Header> := None;
      if blk.header.prev != 0 && blk.header.prev in linkIndex && linkIndex[blk.header.prev] in index {
        parent := Some(index[linkIndex[blk.header.prev]]);
      }
      if !StatelessOk(rules, blk, x.skipPow) || !TimestampValid(rules.p, blk.header, parent, x.now) {
        return Refused, true;
      }
      CacheBlock(blk);
      ghost var t := View();
      IsValid();
      CacheProgress(rules.c, s, blk, switches);
      verdict, stored := Connect(rules.c.Id(blk.header), x);
      EffectProgress(rules, t, View(), rules.c.Id(blk.header), x, verdict, stored, old(switches), switches);
      ProgressTransitive(s, old(switches), t, old(switches), View(), switches);
      EffectIndex(rules, t, View(), rules.c.Id(blk.header), verdict, stored);
    }

    /** Accepts a block and then, recursively, the parked blocks that name it as their parent. `trail` is the
        header chain down to the parent when the call comes from the parent; trails grow with every nested
        call and run through known headers only, so the recursion ends. */
    method AcceptAt(blk: Block, x: Context, ghost universe: set<nat>, ghost trail: seq<Header>, ghost goal: seq<Block>, ghost j: nat)
      returns (ok: bool, verdict: Verdict, stored: bool, ghost states: seq<State>)
      requires Valid() && clock <= x.now
      requires index.Keys + {rules.c.Id(blk.header)} <= universe && |trail| <= |universe|
      requires trail != [] ==> Linked(rules.c, trail) && blk.header.prev == rules.c.Link(trail[|trail| - 1])
      requires Underway(rules, View(), goal, j, x) && (goal != [] ==> blk == goal[j] && store.reliable)
      modifies this, utxo, store
      ensures Valid() && clock == x.now && origin == old(origin) && index.Keys <= universe
      ensures Answered(rules, old(View()), blk, x, verdict)
      ensures ok <==> verdict.Known? || verdict.Parked? || verdict.Side? || (verdict.Switch? && stored)
      ensures verdict.Switch? && stored ==> |old(switches)| < |switches|
      ensures store.reliable ==> stored
      ensures Redecisions(rules, x, states, View()) && Decided(rules, old(View()), states[0], blk, x, verdict, stored)
      ensures !verdict.Side? && !(verdict.Switch? && stored) ==> |states| == 1
      ensures rules.c.Link(blk.header) !in states[0].children ==> |states| == 1
      ensures verdict.Side? || (verdict.Switch? && stored) ==> TurnsTaken(rules, x, states, rules.c.Link(blk.header))
      ensures Progress(old(View()), old(switches), View(), switches)
      ensures Underway(rules, View(), goal, j, x) && Delivered(rules, old(View()), View(), goal, j)
      decreases |universe| - |trail|, 2
    {
      hide Valid, TablesOk, Progress, Considered, Admissible, Underway, Delivered, AtKids, Saturated, Linked, Answered,
           UtxoOk, RunOk, FilesMatch, ActiveHeaders, Judge, Effect, Cache, TrailOf, Redecisions, TurnsTaken;
      HasTables();
      ghost var s := View();
      verdict, stored := Consider(blk, x);
      HasTables();
      ghost var t, before := View(), switches;
      NoRedecision(rules, x, t);
      AnsweredBy(rules, s, t, blk, x, verdict, stored);
      DeliveryVerdict(rules, s, t, goal, j, x, blk, verdict, stored);
      EmptyGoal(rules, s, t, goal, j);
      if verdict.Refused? || verdict.Invalid? || verdict.Mismatch? || verdict.TooDeep? || (verdict.Switch? && !stored) {
        return false, verdict, stored, [t];
      }
      if verdict.Known? || verdict.Parked? {
        return true, verdict, stored, [t];
      }
      ConsideredHasWork(rules, s, t, blk, x, verdict, stored);
      states := TryKids(blk, x, universe, trail, goal, j, s);
      ProgressTransitive(s, old(switches), t, before, View(), switches);
      ProgressAdds(t, before, View(), switches);
      return true, verdict, stored, states;
    }

    /** Tries the blocks parked under a block that has just been connected. */
    method TryKids(blk: Block, x: Context, ghost universe: set<nat>, ghost trail: seq<Header>, ghost goal: seq<Block>, ghost j: nat,
                   ghost s: State)
      returns (ghost states: seq<State>)
      requires Valid() && clock == x.now && index.Keys <= universe && |trail| <= |universe|
      requires trail != [] ==> Linked(rules.c, trail) && blk.header.prev == rules.c.Link(trail[|trail| - 1])
      requires rules.c.Id(blk.header) in chainWork && rules.c.Id(blk.header) in index && index[rules.c.Id(blk.header)] == blk.header
      requires Underway(rules, View(), goal, j, x)
      requires goal != [] ==> j < |goal| && blk == goal[j] && store.reliable && bestHeight == j && j == s.best + 1
                              && blockPool.Keys == s.pool.Keys + {IdOf(rules, goal[j])}
      modifies this, utxo, store
      ensures Valid() && clock == x.now && origin == old(origin) && index.Keys <= universe
      ensures Progress(old(View()), old(switches), View(), switches)
      ensures Redecisions(rules, x, states, View()) && states[0] == old(View()) && TurnsTaken(rules, x, states, rules.c.Link(blk.header))
      ensures rules.c.Link(blk.header) !in old(View()).children ==> |states| == 1
      ensures Underway(rules, View(), goal, j, x) && Delivered(rules, s, View(), goal, j)
      decreases |universe| - |trail|, 1
    {
      hide Valid, TablesOk, Progress, Underway, Delivered, AtKids, Saturated, Linked, TrailOf, UtxoOk, RunOk, FilesMatch, ActiveHeaders,
           Redecisions, TurnTaken, TurnsTaken;
      HasTables();
      ghost var t := View();
      states := [t];
      NoRedecision(rules, x, t);
      ProgressNothing(t, switches);
      ghost var longer := TrailOf(rules, t, rules.c.Id(blk.header));
      TrailGrows(rules, t, blk.header, trail, universe);
      DeliveryReachesKids(rules, t, goal, j, x, blk.header);
      var selfLink := rules.c.Link(blk.header);
      if selfLink in children {
        ChildrenPooled(rules, t, selfLink);
        states := AcceptKids(children[selfLink], HeadersAt(index, children[selfLink]), x, universe, longer, goal, j);
        KidsAtStart(rules, View(), goal, j, x, blk.header, t.children[selfLink]);
        TrailNotEmpty(rules, x, states, View());
        TurnsComplete(rules, x, states, selfLink, t.children[selfLink]);
      } else {
        TurnsComplete(rules, x, states, selfLink, []);
      }
      DeliveryEnds(rules, s, t, View(), goal, j);
    }

    method AcceptKid(kid: nat, ghost head: Header, x: Context, ghost universe: set<nat>, ghost trail: seq<Header>,
                     ghost goal: seq<Block>, ghost j: nat, ghost kids: seq<nat>)
      returns (ghost states: seq<State>)
      requires Valid() && clock == x.now && index.Keys <= universe && 0 < |trail| <= |universe| && Linked(rules.c, trail)
      requires rules.c.Id(head) == kid && head.prev == rules.c.Link(trail[|trail| - 1]) && kid in blockPool
      requires AtKids(rules, View(), goal, j, x, trail[|trail| - 1], kids) && (goal != [] ==> store.reliable)
      modifies this, utxo, store
      ensures Valid() && clock == x.now && origin == old(origin) && index.Keys <= universe
      ensures Progress(old(View()), old(switches), View(), switches)
      ensures Redecisions(rules, x, states, View()) && states[0] == old(View()) && TurnTaken(rules, x, states, kid)
      ensures AtKids(rules, View(), goal, j, x, trail[|trail| - 1], kids)
      ensures goal != [] ==> Saturated(rules, View(), goal) && blockPool.Keys == old(blockPool.Keys) && old(bestHeight) <= bestHeight
      decreases |universe| - |trail|, 3
    {
      hide Valid, TablesOk, Progress, Underway, Delivered, AtKids, Saturated, Linked, Answered, Redecisions, Decided, TurnTaken;
      HasTables();
      ghost var s, parent := View(), trail[|trail| - 1];
      PooledHeader(rules, s, kid, head);
      KidUnderway(rules, s, goal, j, x, parent, kids, kid);
      KidIndex(rules, s, goal, j, x, kid);
      var _, verdict, stored, more := AcceptAt(blockPool[kid], x, universe, trail, goal, j + 1);
      KidDelivered(rules, s, View(), goal, j, x, parent, kids, kid);
      TrailNotEmpty(rules, x, more, View());
      RedecisionsStart(rules, x, s, kid, verdict, stored, more, View());
      states := [s] + more;
    }

    /** Hands in the parked children of a connected block one by one; blocks that are no longer in the pool
        are skipped. */
    method AcceptKids(kids: seq<nat>, ghost heads: seq<Header>, x: Context, ghost universe: set<nat>, ghost trail: seq<Header>,
                      ghost goal: seq<Block>, ghost j: nat)
      returns (ghost states: seq<State>)
      requires Valid() && clock == x.now && index.Keys <= universe && 0 < |trail| <= |universe| && Linked(rules.c, trail)
      requires |heads| == |kids|
      requires forall i :: 0 <= i < |kids| ==> rules.c.Id(heads[i]) == kids[i] && heads[i].prev == rules.c.Link(trail[|trail| - 1])
      requires AtKids(rules, View(), goal, j, x, trail[|trail| - 1], kids) && (goal != [] ==> store.reliable)
      modifies this, utxo, store
      ensures Valid() && clock == x.now && origin == old(origin) && index.Keys <= universe
      ensures Progress(old(View()), old(switches), View(), switches)
      ensures Redecisions(rules, x, states, View()) && states[0] == old(View())
      ensures forall k :: 0 <= k < |kids| ==> TurnTaken(rules, x, states, kids[k])
      ensures AtKids(rules, View(), goal, j, x, trail[|trail| - 1], kids)
      ensures goal != [] ==> Saturated(rules, View(), goal) && blockPool.Keys == old(blockPool.Keys) && old(bestHeight) <= bestHeight
      decreases |universe| - |trail|, 4
    {
      hide Valid, TablesOk, Progress, Underway, Delivered, AtKids, Saturated, Linked, Answered, Redecisions, Decided, TurnTaken;
      ghost var parent := trail[|trail| - 1];
      states := [View()];
      NoRedecision(rules, x, View());
      ProgressNothing(View(), switches);
      KidsAtStart(rules, View(), goal, j, x, parent, kids);
      for i := 0 to |kids|
        invariant Valid() && clock == x.now && origin == old(origin) && index.Keys <= universe
        invariant Progress(old(View()), old(switches), View(), switches)
        invariant Redecisions(rules, x, states, View()) && states != [] && states[0] == old(View())
        invariant forall k :: 0 <= k < i ==> TurnTaken(rules, x, states, kids[k])
        invariant AtKids(rules, View(), goal, j, x, parent, kids)
        invariant goal != [] ==> (i == 0 && kids != []) || Saturated(rules, View(), goal)
        invariant goal != [] ==> blockPool.Keys == old(blockPool.Keys) && old(bestHeight) <= bestHeight
      {
        HasTables();
        KidsAtStart(rules, View(), goal, j, x, parent, kids);
        if kids[i] in blockPool {
          ghost var before, beforeSwitches := View(), switches;
          ghost var more := AcceptKid(kids[i], heads[i], x, universe, trail, goal, j, kids);
          TrailNotEmpty(rules, x, more, View());
          TurnsJoinAll(rules, x, states, more, kids, i);
          RedecisionsJoin(rules, x, states, more, View());
          states := states + more[1..];
          ProgressTransitive(old(View()), old(switches), before, beforeSwitches, View(), switches);
        } else {
          TurnGone(rules, x, states, View(), kids[i]);
        }
      }
    }

    // -------------------------------------------------------------------------
    // Public operations
    // -------------------------------------------------------------------------

    /** Fork-aware acceptance of a block. The verdict is a function of the tables before the call, `states`
        starts with the tables after the decision about the block and goes on with one decision about a
        waiting block at a time, the active chain changes only by legal switches, and a pinned checkpoint
        stays in place. When block j of a valid chain `goal` is handed in, it is not lost, and it moves the
        tip if it was the missing one. */
    method AcceptBlock(blk: Block, x: Context, ghost goal: seq<Block> := [], ghost j: nat := 0)
      returns (ok: bool, verdict: Verdict, stored: bool, ghost states: seq<State>)
      requires Valid() && clock <= x.now
      requires Underway(rules, View(), goal, j, x) && (goal != [] ==> blk == goal[j] && store.reliable)
      modifies this, utxo, store
      ensures Valid() && clock == x.now && origin == old(origin)
      ensures Answered(rules, old(View()), blk, x, verdict)
      ensures ok <==> verdict.Known? || verdict.Parked? || verdict.Side? || (verdict.Switch? && stored)
      ensures verdict.Switch? && stored ==> |old(switches)| < |switches|
      ensures store.reliable ==> stored
      ensures Redecisions(rules, x, states, View()) && Decided(rules, old(View()), states[0], blk, x, verdict, stored)
      ensures !verdict.Side? && !(verdict.Switch? && stored) ==> |states| == 1
      ensures rules.c.Link(blk.header) !in states[0].children ==> |states| == 1
      ensures verdict.Side? || (verdict.Switch? && stored) ==> TurnsTaken(rules, x, states, rules.c.Link(blk.header))
      ensures Progress(old(View()), old(switches), View(), switches)
      ensures Underway(rules, View(), goal, j, x) && Delivered(rules, old(View()), View(), goal, j)
    {
      hide Valid, TablesOk, Progress, Answered, Linked, Underway, Delivered, Redecisions, Decided, TurnsTaken;
      ok, verdict, stored, states := AcceptAt(blk, x, index.Keys + {rules.c.Id(blk.header)}, [], goal, j);
    }

    /** Accepts a block only if it links to the active tip. */
    method ConnectBlock(blk: Block, x: Context) returns (ok: bool, verdict: Verdict, stored: bool, ghost states: seq<State>)
      requires Valid() && clock <= x.now
      modifies this, utxo, store
      ensures Valid() && clock <= x.now && origin == old(origin)
      ensures Progress(old(View()), old(switches), View(), switches)
      ensures ok <==> verdict.Known? || verdict.Parked? || verdict.Side? || (verdict.Switch? && stored)
      ensures old(tipHash in index)
      ensures if blk.header.prev == rules.c.Link(old(index[tipHash])) then
                && Answered(rules, old(View()), blk, x, verdict)
                && Redecisions(rules, x, states, View()) && Decided(rules, old(View()), states[0], blk, x, verdict, stored)
              else verdict.Refused? && View() == old(View())
    {
      hide Valid, TablesOk, Progress, Answered, Redecisions, Decided;
      states := [View()];
      HasTables();
      TipFacts(rules, View());
      ProgressNothing(View(), switches);
      var activeTip := tipHash;
      if bestHeight in heightMap {
        activeTip := heightMap[bestHeight];
      }
      // The tip never differs from the top of the active path, so nothing has to be corrected here.
      assert activeTip == tipHash && tipBits == index[activeTip].bits;
      if activeTip !in index {
        return false, Refused, true, states;
      }
      if blk.header.prev != rules.c.Link(index[activeTip]) {
        return false, Refused, true, states;
      }
      NoGoal(rules, View(), x);
      ok, verdict, stored, states := AcceptBlock(blk, x);
    }

    /** Fixes the checkpoint at the current tip. */
    method PinCheckpointToTip()
      requires Valid()
      modifies `checkpoint, `pinned
      ensures Valid() && pinned && checkpoint == Some(Checkpoint(bestHeight, tipHash))
    {
      hide Valid, TablesOk, UtxoOk, RunOk, FilesMatch, ActiveHeaders, ActiveBlocks;
      IsValid();
      ghost var s := View();
      checkpoint := Some(Checkpoint(bestHeight, tipHash));
      pinned := true;
      PinnedTables(rules, s, View());
      PinnedData(rules, s, View(), clock, powSkipped, store.byHeight);
      BecomesValid();
    }

    /** Lets the checkpoint roll again. */
    method ClearCheckpointPin()
      requires Valid()
      modifies `checkpoint, `pinned
      ensures Valid() && !pinned
      ensures RollingHeight(bestHeight) in heightMap
      ensures checkpoint == Some(Checkpoint(RollingHeight(bestHeight), heightMap[RollingHeight(bestHeight)]))
    {
      hide Valid, TablesOk, UtxoOk, RunOk, FilesMatch, ActiveHeaders, ActiveBlocks;
      IsValid();
      TablesParts(rules, View());
      ghost var s := View();
      pinned := false;
      RefreshLocalCheckpoint();
      PinnedTables(rules, s, View());
      PinnedData(rules, s, View(), clock, powSkipped, store.byHeight);
      BecomesValid();
    }

    /** Bits the next block must carry, from the tables of the active path. */
    method NextBits(timestamp: Uint32) returns (bits: Bits)
      requires Valid()
      ensures TablesOk(rules, View())
      ensures bits == NextWork(rules.p, ActiveHeaders(rules, View()), tipBits, timestamp)
    {
      hide Valid, TablesOk, NextWork, ActiveHeaders, Covers;
      HasTables();
      ActiveHeadersAre(rules, View());
      bits := GetNextWorkRequired(rules.p, heightMap, index, bestHeight, tipBits, timestamp);
    }

    /** The header in the tip's height file, if there is one. */
    function TipParent(): Option<Header>
      reads this, store
    {
      var file := FindByHeight(bestHeight);
      if file.Some? then Some(file.value.header) else None
    }

    /** The tip's height file holds the tip's header. */
    predicate TipFiled()
      reads this, store
    {
      tipHash in index && TipParent() == Some(index[tipHash])
    }

    /** Judges a candidate for the tip from the tip's file, bits and outputs alone. Main result: while the tip's
        file holds the tip, the answer is "valid" exactly when the stateless checks pass and replaying the whole
        active path plus the candidate succeeds, and any other answer names a check that does fail; as soon as
        the file is missing or holds another block, every block on the tip is called stale and whatever is
        called valid is not a valid extension. The file holds the tip on every node whose last switch wrote all
        its blocks. The active path itself replays unless proof of work is asked for
        more strictly than before. */
    method DiagnoseTipCandidate(blk: Block, now: nat, skipPow: bool) returns (d: Diagnosis)
      requires Valid()
      ensures TablesOk(rules, View()) && tipHash in index
      ensures d == Diagnose(rules, TipParent(), blk, NextWork(rules.p, ActiveHeaders(rules, View()), tipBits, blk.header.timestamp),
                            bestHeight + 1, utxo.entries, now, skipPow)
      ensures clock <= now && (powSkipped ==> skipPow) ==> PathValid(rules, ActiveBlocks(rules, View()), now, skipPow)
      ensures synced ==> TipFiled()
      ensures TipJudged(rules, View(), TipParent(), blk, now, skipPow, d)
    {
      hide *;
      d := AnswerTipCandidate(blk, now, skipPow);
      IsValid();
      ViewFields();
      TipParentIs();
      ActiveHeadersAre(rules, View());
      TipAnswer(rules, View(), clock, powSkipped, TipParent(), blk, now, skipPow);
      if synced {
        TipIsFiled();
      }
    }

    /** The answer itself, check by check. */
    method AnswerTipCandidate(blk: Block, now: nat, skipPow: bool) returns (d: Diagnosis)
      requires Valid()
      ensures TablesOk(rules, View())
      ensures d == Diagnose(rules, TipParent(), blk, NextWork(rules.p, ActiveHeaders(rules, View()), tipBits, blk.header.timestamp),
                            bestHeight + 1, utxo.entries, now, skipPow)
    {
      hide *;
      var prev := FindByHeight(bestHeight);
      var parent := if prev.Some? then Some(prev.value.header) else None;
      TipParentIs();
      var bits := NextBits(blk.header.timestamp);
      var fault := DiagnoseHeader(rules, parent, blk, bits, now, skipPow);
      DiagnoseUnfolds(rules, parent, blk, bits, bestHeight + 1, utxo.entries, now, skipPow);
      if fault.Some? {
        return fault.value;
      }
      var working := utxo.Snapshot();
      d := DiagnoseTransactions(rules, working, blk, bestHeight + 1);
    }

    lemma TipParentIs()
      ensures TipParent() == (if FindByHeight(bestHeight).Some? then Some(FindByHeight(bestHeight).value.header) else None)
      ensures TipFiled() <==> tipHash in index && TipParent() == Some(index[tipHash])
    {
    }

    /** The height file of the tip holds the tip's header. */
    lemma TipIsFiled()
      requires TablesOk(rules, View()) && FilesOk()
      ensures TipFiled() && FindByHeight(bestHeight).Some? && FindByHeight(bestHeight).value.header == index[tipHash]
    {
      hide TablesOk;
      ActiveHeadersAre(rules, View());
    }
  }

  /** What the answer about a tip candidate promises. With the tip on file it is "valid" exactly when the stateless
      checks pass and the whole path plus the candidate replays, as far as the path itself does, and otherwise names
      a check that fails. With anything else on file every block on the tip is stale, as is every valid extension,
      and what is called valid is none. */
  ghost predicate TipJudged(r: Rules, s: State, parent: Option<Header>, blk: Block, now: nat, skipPow: bool, d: Diagnosis)
    requires TablesOk(r, s) && s.tip in s.index
  {
    var extended := PathValid(r, ActiveBlocks(r, s) + [blk], now, skipPow);
    if parent == Some(s.index[s.tip]) then
      && Holds(r, s.index[s.tip], blk, NextWork(r.p, ActiveHeaders(r, s), s.tipBits, blk.header.timestamp), s.best + 1, s.utxo, now, skipPow, d)
      && (d.ValidTipExtension? && PathValid(r, ActiveBlocks(r, s), now, skipPow) <==> StatelessOk(r, blk, skipPow) && extended)
    else
      && (blk.header.prev == r.c.Link(s.index[s.tip]) ==> d == StalePrevLink)
      && (extended ==> d == StalePrevLink)
      && (d.ValidTipExtension? ==> !extended)
  }

  /** What the answer about a tip candidate means, depending on the parent on file. */
  lemma TipAnswer(r: Rules, s: State, clock: nat, powSkipped: bool, parent: Option<Header>, blk: Block, now: nat, skipPow: bool)
    requires r.c.Sound() && TablesOk(r, s) && UtxoOk(r, s, clock, powSkipped) && s.tip in s.index
    ensures clock <= now && (powSkipped ==> skipPow) ==> PathValid(r, ActiveBlocks(r, s), now, skipPow)
    ensures var bits := NextWork(r.p, ActiveHeaders(r, s), s.tipBits, blk.header.timestamp);
            TipJudged(r, s, parent, blk, now, skipPow, Diagnose(r, parent, blk, bits, s.best + 1, s.utxo, now, skipPow))
  {
    hide TablesOk, UtxoOk, ActiveHeaders, ActiveBlocks, PathValid, CheckBlock, NextWork, Diagnose, Holds, StatelessOk, Crypto.Link, Crypto.Sound;
    ActiveHeadersAre(r, s);
    ExtensionIsCheck(r, s, clock, powSkipped, blk, now, skipPow);
    var hist := ActiveHeaders(r, s);
    var bits := NextWork(r.p, hist, s.tipBits, blk.header.timestamp);
    if parent == Some(s.index[s.tip]) {
      DiagnoseHolds(r, s.index[s.tip], blk, bits, s.best + 1, s.utxo, now, skipPow);
      NothingFails(r, hist, blk, bits, s.utxo, now, skipPow, Diagnose(r, parent, blk, bits, s.best + 1, s.utxo, now, skipPow));
    } else {
      WrongParentMisjudges(r, hist, parent, blk, bits, s.utxo, now, skipPow);
    }
  }

  /** With no file for the tip, a block without parent is called valid on any node, whatever its work. */
  lemma NoTipFileAccepts(r: Rules, s: State, clock: nat, powSkipped: bool, timestamp: Uint32, coinbase: Transaction, now: nat, skipPow: bool)
    requires r.c.Sound() && TablesOk(r, s) && UtxoOk(r, s, clock, powSkipped) && s.tip in s.index
    requires coinbase.IsCoinbase() && coinbase.outputs == [] && !TooFarInFuture(r.p, timestamp, now)
    requires var bits := NextWork(r.p, ActiveHeaders(r, s), s.tipBits, timestamp);
             r.c.blockSize(Orphaned(r, timestamp, bits, coinbase)) <= MAX_BLOCK_SIZE_BYTES
    ensures var bits := NextWork(r.p, ActiveHeaders(r, s), s.tipBits, timestamp);
            var blk := Orphaned(r, timestamp, bits, coinbase);
            && Diagnose(r, None, blk, bits, s.best + 1, s.utxo, now, skipPow) == ValidTipExtension
            && !PathValid(r, ActiveBlocks(r, s) + [blk], now, skipPow)
  {
    hide TablesOk, UtxoOk, ActiveHeaders, ActiveBlocks, PathValid, CheckBlock, Diagnose, TooFarInFuture, NextWork, Crypto.MerkleRoot, Crypto.Sound;
    var bits := NextWork(r.p, ActiveHeaders(r, s), s.tipBits, timestamp);
    ActiveHeadersAre(r, s);
    MissingParentAccepts(r, ActiveHeaders(r, s), timestamp, bits, coinbase, s.utxo, now, skipPow);
    TipAnswer(r, s, clock, powSkipped, None, Orphaned(r, timestamp, bits, coinbase), now, skipPow);
  }

  lemma DiagnoseUnfolds(r: Rules, parent: Option<Header>, blk: Block, bits: Bits, height: nat, utxo: UtxoMap, now: nat, skipPow: bool)
    ensures var fault, d := HeaderDiagnosis(r, parent, blk, bits, now, skipPow), Diagnose(r, parent, blk, bits, height, utxo, now, skipPow);
            if fault.Some? then d == fault.value
            else blk.transactions != []
                 && match TransactionsOutcome(r, blk, height, utxo)
                    case Rejected(reason, _) => d == Fault(reason)
                    case Accepted(_) => d == ValidTipExtension
  {
    hide IsCanonical, CheckPow, TransactionsOutcome, TimestampValid;
  }

  function GuardVerdict(s: State, path: seq<nat>, x: Context): Verdict
    requires forall h: nat :: h in s.heightMap <==> h <= s.best
  {
    if !Matches(s, path) then Mismatch
    else if ReorgDepth(ActivePath(s), path) > x.maxReorg && !x.allowDeepReorg then TooDeep
    else Switch
  }

  /** The verdict on a block whose parent has height and work. */
  lemma JudgeLinked(r: Rules, s: State, id: nat, x: Context)
    requires TablesOk(r, s) && id in s.index && id !in s.work && ParentConnected(s, s.index[id])
    ensures forall h: nat :: h in s.heightMap <==> h <= s.best
    ensures Judge(r, s, id, x)
            == if !PathValid(r, CandidateBlocks(r, s, id), x.now, x.skipPow) then Invalid
               else if s.tip in s.work && CandidateWork(r, s, id) <= s.work[s.tip] then Side
               else GuardVerdict(s, CandidatePath(r, s, id), x)
  {
    hide TablesOk, ParentConnected, PathValid, CandidateBlocks, CandidateWork, CandidatePath, Matches, ReorgDepth, ActivePath;
    ActivePathIs(r, s);
  }

  /** Main result: a new valid candidate with a connected parent has more work than the tip exactly when it becomes
      the tip or is held back by the checkpoint or the reorg limit; so the tip falls behind what the node has
      judged only by these two guards. */
  lemma VerdictWeighs(r: Rules, s: State, id: nat, x: Context)
    requires TablesOk(r, s) && id in s.index && id !in s.work && ParentConnected(s, s.index[id])
    requires PathValid(r, CandidateBlocks(r, s, id), x.now, x.skipPow)
    ensures s.tip in s.work
    ensures var verdict := Judge(r, s, id, x);
            && (s.work[s.tip] < CandidateWork(r, s, id) <==> verdict.Switch? || verdict.Mismatch? || verdict.TooDeep?)
            && (CandidateWork(r, s, id) <= s.work[s.tip] <==> verdict.Side?)
  {
    hide TablesOk, ParentConnected, PathValid, CandidateBlocks, CandidateWork, CandidatePath, Judge, Matches, ReorgDepth, ActivePath;
    LinkedFacts(r, s, id);
    JudgeLinked(r, s, id, x);
  }

  lemma EffectInvalid(r: Rules, s: State, t: State, id: nat)
    requires TablesOk(r, s) && id in s.index && Purged(r.c, s, t, id)
    requires SameChain(s, t) && id !in t.index && t.index.Keys <= s.index.Keys && t.pool.Keys <= s.pool.Keys
    ensures Effect(r, s, t, id, Invalid, true)
  {
    hide TablesOk, SameChain, Purged;
  }

  lemma EffectSide(r: Rules, s: State, t: State, id: nat)
    requires TablesOk(r, s) && id in s.index && ParentConnected(s, s.index[id])
    requires t == RecordSide(s, id, CandidateHeight(s, id), CandidateWork(r, s, id))
    ensures Effect(r, s, t, id, Side, true)
  {
    hide TablesOk, ParentConnected, CandidateHeight, CandidateWork;
  }

  lemma EffectGuarded(r: Rules, s: State, t: State, id: nat, x: Context, verdict: Verdict, stored: bool)
    requires TablesOk(r, s) && id in s.index && ParentConnected(s, s.index[id])
    requires forall h: nat :: h in s.heightMap <==> h <= s.best
    requires verdict == GuardVerdict(s, CandidatePath(r, s, id), x)
    requires !(verdict.Switch? && stored) ==> t == s
    requires verdict.Switch? && stored ==> SwitchedTo(r, s, t, CandidatePath(r, s, id), s.index[id].bits)
    ensures Effect(r, s, t, id, verdict, stored) && (verdict.Mismatch? || verdict.TooDeep? || verdict.Switch?)
  {
    hide TablesOk, ParentConnected, CandidatePath, Matches, ReorgDepth, ActivePath, SwitchedTo;
  }

  lemma GuardIs(r: Rules, s: State, path: seq<nat>, x: Context)
    requires TablesOk(r, s)
    ensures forall h: nat :: h in s.heightMap <==> h <= s.best
    ensures GuardVerdict(s, path, x)
            == if !Matches(s, path) then Mismatch
               else if ReorgDepth(PathOfMap(s.heightMap, s.best), path) > x.maxReorg && !x.allowDeepReorg then TooDeep
               else Switch
  {
    hide TablesOk, Matches, ReorgDepth;
    ActivePathIs(r, s);
  }

  lemma GuardMatches(r: Rules, s: State, path: seq<nat>, x: Context)
    requires TablesOk(r, s) && GuardVerdict(s, path, x).Switch?
    ensures Matches(s, path)
  {
    hide TablesOk, Matches, ReorgDepth;
    ActivePathIs(r, s);
  }

  lemma ActivatedShape(p: Params, s: State, path: seq<nat>, hs: seq<Header>, bits: Bits, t: State)
    requires path != [] && |path| == |hs| && t == Activate(p, s, path, hs, bits, t.utxo)
    ensures t.heightMap == HeightMapOf(path) && t.best == |path| - 1 && t.pool == s.pool
  {
    hide PositionMap, WorkMap, HeightMapOf, Refreshed;
  }

  lemma Swapped(p: Params, s: State, path: seq<nat>, hs: seq<Header>, bits: Bits, t: State, u: State)
    requires path != [] && |path| == |hs| && t == Activate(p, s, path, hs, bits, t.utxo) && u == t.(utxo := u.utxo)
    ensures u == Activate(p, s, path, hs, bits, u.utxo)
  {
    hide PositionMap, WorkMap, HeightMapOf, Refreshed;
  }

  /** The files written for a path are the files of the state it is active in. */
  lemma FilesWritten(s: State, t: State, path: seq<nat>, resolved: seq<Block>, files: map<nat, Block>)
    requires path != [] && |path| == |resolved| && t.heightMap == HeightMapOf(path) && t.best == |path| - 1 && t.pool == s.pool
    requires forall i :: 0 <= i < |path| ==> path[i] in s.pool && resolved[i] == s.pool[path[i]]
    requires forall h: nat :: h < |path| ==> h in files && files[h] == resolved[h]
    ensures FilesMatch(files, t)
  {
  }

  lemma ForgottenIs(c: Crypto, s: State, t: State, hash: nat, mutated: bool)
    requires IndexOk(c, s.index, s.links)
    requires t == s.(index := t.index, links := t.links, pool := s.pool - {hash}, work := s.work - {hash}, heights := s.heights - {hash})
    requires t.index == s.index - {hash}
    requires t.links == if hash in s.index then s.links - {c.Link(s.index[hash])} else s.links
    requires mutated <==> hash in s.index || hash in s.pool || hash in s.work || hash in s.heights
    ensures t == Without(s, {hash}) && (!mutated ==> t == s)
  {
    LinksWithout(c, s, hash);
    hide IndexOk;
  }

  lemma Replaced(p: Params, s: State, t: State, path: seq<nat>, hs: seq<Header>)
    requires path != [] && |hs| == |path|
    requires t.index == s.index && t.links == s.links && t.children == s.children && t.pool == s.pool && t.pinned == s.pinned
    requires t.heightMap == HeightMapOf(path) && t.best == |path| - 1 && t.tip == path[|path| - 1]
    requires t.heightIndex == t.heights == PositionMap(path, |path|) && t.work == WorkMap(p, path, hs, |path|)
    ensures t == Activate(p, s, path, hs, t.tipBits, t.utxo).(checkpoint := t.checkpoint)
  {
    hide PositionMap, WorkMap, HeightMapOf, Refreshed;
  }

  lemma Installed(p: Params, s: State, t: State, path: seq<nat>, hs: seq<Header>, checkpoint: Option<Checkpoint>, bits: Bits)
    requires path != [] && |hs| == |path|
    requires t == Activate(p, s, path, hs, bits, t.utxo).(checkpoint := s.checkpoint)
    requires checkpoint == Refreshed(t.pinned, t.checkpoint, path)
    ensures t.(checkpoint := checkpoint) == Activate(p, s, path, hs, bits, t.utxo)
  {
    hide PositionMap, WorkMap, HeightMapOf, Refreshed;
  }

  lemma NoGoal(r: Rules, s: State, x: Context)
    ensures Underway(r, s, [], 0, x)
  {
  }

  lemma TipFacts(r: Rules, s: State)
    requires TablesOk(r, s)
    ensures s.best in s.heightMap && s.heightMap[s.best] == s.tip && s.tip in s.index && s.tipBits == s.index[s.tip].bits
  {
    assert ActivePath(s)[s.best] == s.tip;
  }

  /** Only the checkpoint and its pin changed. */
  ghost predicate OnlyPinned(s: State, t: State) {
    t == s.(checkpoint := t.checkpoint, pinned := t.pinned)
  }

  lemma PinnedTables(r: Rules, s: State, t: State)
    requires TablesOk(r, s) && OnlyPinned(s, t)
    requires || (t.checkpoint == Some(Checkpoint(s.best, s.tip)) && t.pinned)
             || (!t.pinned && s.best in s.heightMap && RollingHeight(s.best) in s.heightMap
                 && t.checkpoint == Some(Checkpoint(RollingHeight(s.best), s.heightMap[RollingHeight(s.best)])))
    ensures TablesOk(r, t)
  {
    hide IndexOk, PoolOk, WorkOk, PathTo, HeightIndexOk, ChildrenOk;
    TipFacts(r, s);
    assert ActivePath(t) == ActivePath(s);
  }

  lemma PinnedData(r: Rules, s: State, t: State, clock: nat, powSkipped: bool, files: map<nat, Block>)
    requires TablesOk(r, s) && TablesOk(r, t) && OnlyPinned(s, t)
    ensures ActiveBlocks(r, t) == ActiveBlocks(r, s) && ActiveHeaders(r, t) == ActiveHeaders(r, s)
    ensures UtxoOk(r, s, clock, powSkipped) ==> UtxoOk(r, t, clock, powSkipped)
    ensures FilesMatch(files, s) ==> FilesMatch(files, t)
  {
    hide IndexOk, PoolOk, WorkOk, PathTo, HeightIndexOk, ChildrenOk, CheckpointOk, Replay;
    ActiveInPool(r, s);
    assert ActivePath(t) == ActivePath(s);
  }

  /** The pooled block under an identifier has the header of that identifier. */
  lemma PooledHeader(r: Rules, s: State, id: nat, h: Header)
    requires r.c.Sound() && TablesOk(r, s) && id in s.pool && r.c.Id(h) == id
    ensures s.pool[id].header == h && id in s.index && s.index[id] == h
  {
    assert r.c.Id(s.index[id]) == id;
    r.c.IdInjective(s.index[id], h);
  }

  lemma CacheFacts(r: Rules, s: State, blk: Block)
    requires r.c.Sound() && TablesOk(r, s)
    ensures var t, id := Cache(r.c, s, blk), r.c.Id(blk.header);
            SameChain(s, t) && id in t.index && t.index[id] == blk.header && t.index.Keys == s.index.Keys + {id}
  {
    hide WorkOk, PathTo, HeightIndexOk, ChildrenOk, ActiveOk, CheckpointOk, IndexOk;
    CacheEntries(r.c, s, blk);
  }

  lemma ProgressNothing(s: State, sw: seq<SwitchRecord>)
    ensures Progress(s, sw, s, sw)
  {
  }

  lemma CacheProgress(c: Crypto, s: State, blk: Block, sw: seq<SwitchRecord>)
    ensures Progress(s, sw, Cache(c, s, blk), sw)
  {
  }

  /** No verdict adds a header; side blocks and switches give the block work. */
  lemma EffectIndex(r: Rules, s: State, t: State, id: nat, verdict: Verdict, stored: bool)
    requires TablesOk(r, s) && id in s.index && Effect(r, s, t, id, verdict, stored)
    ensures t.index.Keys <= s.index.Keys
    ensures verdict.Side? || verdict.Known? || verdict.Parked? ==> t.index == s.index
    ensures verdict.Side? ==> id in t.work
  {
    hide TablesOk, CandidateWork, CandidatePath, PositionMap, WorkMap, HeightMapOf, Purged;
  }

  lemma SameChainPark(s: State, link: nat, id: nat)
    ensures SameChain(s, Park(s, link, id))
  {
  }

  lemma SameChainSide(s: State, id: nat, height: nat, work: nat)
    ensures SameChain(s, RecordSide(s, id, height, work))
  {
  }

  /** Height and work of a linked block as the node computes them from the parent's entries. */
  lemma LinkedFacts(r: Rules, s: State, id: nat)
    requires TablesOk(r, s) && id in s.index && id !in s.work && ParentConnected(s, s.index[id])
    ensures id !in s.heightIndex && s.tip in s.work
    ensures var h := s.index[id];
            if h.prev == 0 then
              CandidateHeight(s, id) == 0 && CandidateWork(r, s, id) == BlockWork(r.p, h.bits)
            else
              && h.prev in s.links && s.links[h.prev] in s.work && s.links[h.prev] in s.heights
              && CandidateHeight(s, id) == s.heights[s.links[h.prev]] + 1
              && CandidateWork(r, s, id) == s.work[s.links[h.prev]] + BlockWork(r.p, h.bits)
  {
    hide BlockWork, IndexOk, PoolOk, ChildrenOk, WorkSum, PathTo, PathOf, CandidatePath, ActiveOk, CheckpointOk, ActiveHeaders, Linked;
    CandidatePathOk(r, s, id);
    ActiveMeaning(r, s);
  }

  lemma ActivePathIs(r: Rules, s: State)
    requires TablesOk(r, s)
    ensures forall h: nat :: h in s.heightMap <==> h <= s.best
    ensures ActivePath(s) == PathOfMap(s.heightMap, s.best)
  {
  }

  ghost function RecordOf(r: Rules, s: State, path: seq<nat>): SwitchRecord
    requires TablesOk(r, s) && forall i :: 0 <= i < |path| ==> path[i] in s.index
  {
    SwitchRecord(ActiveHeaders(r, s), HeadersAt(s.index, path), s.pinned, s.checkpoint.value.height)
  }

  /** The tables of a switched node are consistent, its outputs are those of the new path, and the switch
      extends the record of the run. */
  lemma SwitchConsistent(r: Rules, s: State, id: nat, path: seq<nat>, bits: Bits, utxo: UtxoMap, x: Context,
                         switches: seq<SwitchRecord>, origin: seq<Header>)
    requires TablesOk(r, s) && id in s.index && ParentConnected(s, s.index[id]) && path == CandidatePath(r, s, id)
    requires Matches(s, path) && bits == s.index[id].bits
    requires Replay(r, CandidateBlocks(r, s, id), x.now, x.skipPow) == Accepted(utxo)
    requires s.tip in s.work && s.work[s.tip] < CandidateWork(r, s, id)
    requires RunOk(r.p, origin, switches, ActiveHeaders(r, s))
    ensures path != [] && forall i :: 0 <= i < |path| ==> path[i] in s.index
    ensures var t := Activate(r.p, s, path, HeadersAt(s.index, path), bits, utxo);
            && SwitchedTo(r, s, t, path, bits)
            && TablesOk(r, t) && UtxoOk(r, t, x.now, x.skipPow)
            && RunOk(r.p, origin, switches + [RecordOf(r, s, path)], ActiveHeaders(r, t))
            && ActivePath(t) == path
  {
    hide TablesOk, RunOk, SwitchOk, PathTo, Replay, CandidatePath, ActivePath, ActiveHeaders, WorkSum, Matches, ParentConnected;
    CandidateMeaning(r, s, id);
    var t := Activate(r.p, s, path, HeadersAt(s.index, path), bits, utxo);
    ActivateTables(r, s, path, id, bits, utxo);
    SwitchIsOk(r, s, path, id);
    RunExtends(r.p, origin, switches, ActiveHeaders(r, s), RecordOf(r, s, path));
    SwitchedBlocks(r, s, t, path);
  }

  lemma SwitchedBlocks(r: Rules, s: State, t: State, path: seq<nat>)
    requires TablesOk(r, t) && ActivePath(t) == path && t.pool == s.pool
    requires forall i :: 0 <= i < |path| ==> path[i] in s.pool
    ensures ActiveBlocks(r, t) == BlocksAt(s.pool, path)
  {
  }

  /** A replay that stops early stopped at a block that makes the whole path invalid. */
  lemma StoppedIsInvalid(r: Rules, blocks: seq<Block>, n: nat, now: nat, skipPow: bool)
    requires n < |blocks| && PathValid(r, blocks[..n], now, skipPow)
    requires CheckBlock(r, HeadersOf(blocks[..n]), blocks[n], Replay(r, blocks[..n], now, skipPow).utxo, now, skipPow).Rejected?
    ensures !PathValid(r, blocks, now, skipPow)
  {
    hide CheckBlock, Replay;
    if PathValid(r, blocks, now, skipPow) {
      StepValid(r, blocks, n, now, skipPow);
    }
  }

  lemma PurgeResult(r: Rules, s: State, root: nat, doomed: set<nat>, t: State, u: State)
    requires TablesOk(r, s) && doomed !! s.heightIndex.Keys && t == Without(s, doomed) && root in doomed
    requires forall id :: id in doomed <==> Descends(r.c, s.index, s.children, root, id) && id !in s.heightIndex
    requires forall id :: id in u.index ==> (id in u.work <==> Connected(u.index, u.links, id))
    requires forall id :: id in u.index && u.index[id].prev != 0 ==>
               u.index[id].prev in u.children && id in u.children[u.index[id].prev]
    requires AllListed(u.index, u.work, u.heightIndex)
    requires u == t.(children := u.children, work := u.work, heights := u.heights, heightIndex := u.heightIndex)
    requires ChildrenOk(u.index, u.children) && WorkOk(r.p, u.index, u.links, u.work, u.heights)
    requires HeightIndexOk(u.heightIndex, u.work, u.heights)
    requires forall h: nat :: h in u.heightMap <==> h <= u.best
    requires forall h :: 0 <= h <= u.best ==>
               PathOfMap(u.heightMap, u.best)[h] in u.work && PathOfMap(u.heightMap, u.best)[h] in u.heightIndex
    ensures TablesOk(r, u) && SameChain(s, u) && Purged(r.c, s, u, root)
    ensures root !in u.index && u.index.Keys <= s.index.Keys && u.pool.Keys <= s.pool.Keys
  {
    hide TablesOk, Without, PathTo, WorkOk, HeightIndexOk, ChildrenOk, IndexOk, SameChain, Purged, Descends, Connected, AllListed;
    WithoutEntries(s, doomed);
    WithoutActive(r, s, doomed);
    WithoutIndex(s, doomed);
    PurgedIs(r.c, s, u, root, doomed);
    RebuiltTables(r, s, doomed, u);
    SameChainRebuilt(s, t, u);
  }

  lemma SameChainRebuilt(s: State, t: State, u: State)
    requires SameChain(s, t)
    requires u == t.(children := u.children, work := u.work, heights := u.heights, heightIndex := u.heightIndex)
    ensures SameChain(s, u)
  {
  }

  lemma MapsEmpty(p: Params, path: seq<nat>, hs: seq<Header>)
    requires |path| == |hs|
    ensures PositionMap(path, 0) == map[] && WorkMap(p, path, hs, 0) == map[]
  {
  }

  lemma TablesParts(r: Rules, s: State)
    requires TablesOk(r, s)
    ensures IndexOk(r.c, s.index, s.links) && PoolOk(s.index, s.pool)
    ensures forall h: nat :: h in s.heightMap <==> h <= s.best
  {
  }

  lemma WithoutNothing(s: State)
    ensures Without(s, {}) == s
  {
    assert (map l | l in s.links && s.links[l] !in {} :: s.links[l]) == s.links;
  }

  lemma WithoutTwice(s: State, a: set<nat>, b: set<nat>)
    ensures Without(Without(s, a), b) == Without(s, a + b)
  {
    var t, u := Without(Without(s, a), b), Without(s, a + b);
    assert t.links == u.links;
    assert t.index == u.index && t.pool == u.pool && t.work == u.work && t.heights == u.heights;
  }

  /** Erasing the link of a block erases exactly the links that lead to it. */
  lemma LinksWithout(c: Crypto, s: State, hash: nat)
    requires IndexOk(c, s.index, s.links)
    ensures hash in s.index ==> Without(s, {hash}).links == s.links - {c.Link(s.index[hash])}
    ensures hash !in s.index ==> Without(s, {hash}).links == s.links && Without(s, {hash}).index == s.index
  {
  }

  lemma WithoutEntries(s: State, doomed: set<nat>)
    ensures var t := Without(s, doomed);
            && SameChain(s, t) && t.heightIndex == s.heightIndex && t.children == s.children
            && t.index.Keys == s.index.Keys - doomed && t.pool.Keys == s.pool.Keys - doomed
            && t.best == s.best && t.tip == s.tip && t.heightMap == s.heightMap
  {
  }

  lemma WithoutIndex(s: State, doomed: set<nat>)
    ensures Without(s, doomed).index == s.index - doomed
  {
  }

  lemma WithoutActive(r: Rules, s: State, doomed: set<nat>)
    requires TablesOk(r, s) && doomed !! s.heightIndex.Keys
    ensures PathTo(Without(s, doomed).index, Without(s, doomed).links, ActivePath(s), s.tip)
    ensures ActivePath(s) == PathOfMap(s.heightMap, s.best)
  {
    ActiveAvoids(s, doomed);
    ActiveIsPath(s);
    WithoutPath(s, doomed, ActivePath(s), s.tip);
  }

  lemma SharedIsCommon(a: seq<nat>, b: seq<nat>, n: nat)
    requires n <= |a| && n <= |b| && a[..n] == b[..n]
    requires n < |a| && n < |b| ==> a[n] != b[n]
    ensures CommonPrefix(a, b) == n
  {
    hide CommonPrefix;
    CommonPrefixMeaning(a, b, n);
    if n < |a| && n < |b| {
      CommonPrefixMeaning(a, b, n + 1);
      assert a[..n + 1][n] != b[..n + 1][n];
    }
  }

  /** The maps of a replay assign to each height below |blocks| the header of its block. */
  ghost predicate MapsMatch(hmap: map<nat, nat>, idx: map<nat, Header>, path: seq<nat>, blocks: seq<Block>) {
    && |blocks| <= |path|
    && forall i :: 0 <= i < |blocks| ==>
         i in hmap && hmap[i] == path[i] && path[i] in idx && idx[path[i]] == blocks[i].header
  }

  lemma MapsStart(hmap: map<nat, nat>, idx: map<nat, Header>, path: seq<nat>)
    ensures MapsMatch(hmap, idx, path, [])
  {
  }

  lemma MapsGrow(hmap: map<nat, nat>, idx: map<nat, Header>, path: seq<nat>, blocks: seq<Block>, blk: Block)
    requires MapsMatch(hmap, idx, path, blocks) && |blocks| < |path|
    requires forall i :: 0 <= i < |blocks| && path[i] == path[|blocks|] ==> blocks[i] == blk
    ensures var n := |blocks|;
            var hmap', idx' := hmap[n := path[n]], idx[path[n] := blk.header];
            && MapsMatch(hmap', idx', path, blocks + [blk])
            && n in hmap' && hmap'[n] in idx' && idx'[hmap'[n]] == blk.header
            && (0 < n ==> Covers(hmap', idx', n - 1) && HeadersOf(blocks) == Headers(hmap', idx', n - 1))
  {
  }
}
