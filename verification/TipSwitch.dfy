/** A new block on the tip that makes the active path a longer valid path becomes the tip. */
module TipSwitch {
  import opened Arith
  import opened CompactTarget
  import opened Primitives
  import opened Utxo
  import opened PathValidation
  import opened ChainState
  import opened ChainSteps
  import opened ForkChoice
  import opened Paths
  import opened Removal
  import opened Effects
  import opened TipExtension
  import opened Delivery

  /** An unknown block that names the tip and carries work. */
  predicate NewOnTip(r: Rules, s: State, blk: Block) {
    && s.tip in s.index && r.c.Id(blk.header) !in s.index && blk.header.prev == r.c.Link(s.index[s.tip])
    && 0 < BlockWork(r.p, blk.header.bits)
  }

  /** The tables once the block is cached: its path is the active path and itself. */
  lemma CachedOnTip(r: Rules, s: State, blk: Block)
    requires r.c.Sound() && TablesOk(r, s) && NewOnTip(r, s, blk)
    ensures var t, id := Cache(r.c, s, blk), r.c.Id(blk.header);
            && TablesOk(r, t) && id in t.index && t.index[id] == blk.header && id !in t.work
            && t.index.Keys == s.index.Keys + {id}
            && ParentConnected(t, t.index[id]) && ActivePath(t) == ActivePath(s)
            && CandidatePath(r, t, id) == ActivePath(s) + [id]
            && t.tip in t.work && CandidateWork(r, t, id) == t.work[t.tip] + BlockWork(r.p, blk.header.bits)
  {
    hide PathTo, BlockWork, WorkSum, CandidateWork, WorkOk, ActiveHeaders, IndexOk, PoolOk, ChildrenOk, HeightIndexOk, CheckpointOk, PathOf,
         ActiveOk, Crypto.Id, Crypto.Link, Crypto.Sound;
    var t, id := Cache(r.c, s, blk), r.c.Id(blk.header);
    CacheTables(r, s, blk);
    CacheEntries(r.c, s, blk);
    ActivePathLength(r, s);
    ActivePathLength(r, t);
    assert ActivePath(t) == ActivePath(s);
    ActiveMeaning(r, t);
    TipLink(r, s);
    WorkIsIndexed(r, s);
    LinkedWork(r, t, id);
  }

  /** The link of the tip leads to the tip and is not zero. */
  lemma TipLink(r: Rules, s: State)
    requires r.c.Sound() && TablesOk(r, s) && s.tip in s.index
    ensures var link := r.c.Link(s.index[s.tip]); link != 0 && link in s.links && s.links[link] == s.tip
  {
    hide PathTo, WorkOk, PoolOk, ChildrenOk, HeightIndexOk, CheckpointOk, ActiveOk, Crypto.Link;
  }

  lemma WorkIsIndexed(r: Rules, s: State)
    requires TablesOk(r, s)
    ensures forall id :: id in s.work ==> id in s.index
  {
    hide PathTo, IndexOk, PoolOk, ChildrenOk, HeightIndexOk, CheckpointOk, ActiveOk, BlockWork;
    assert forall id :: id in s.work ==> WorkAt(r.p, s.index, s.links, s.work, s.heights, id);
  }

  lemma CachedBlocks(r: Rules, s: State, blk: Block)
    requires r.c.Sound() && TablesOk(r, s) && NewOnTip(r, s, blk)
    ensures var t, id := Cache(r.c, s, blk), r.c.Id(blk.header);
            && TablesOk(r, t) && id in t.index && ParentConnected(t, t.index[id])
            && CandidateBlocks(r, t, id) == ActiveBlocks(r, s) + [blk]
  {
    hide PathTo, BlockWork, WorkSum, CandidateWork, WorkOk, ActiveHeaders, IndexOk, ChildrenOk, HeightIndexOk, CheckpointOk, PathOf, ActiveOk,
         CandidatePath, Crypto.Id, Crypto.Link, Crypto.Sound;
    var t, id := Cache(r.c, s, blk), r.c.Id(blk.header);
    CachedOnTip(r, s, blk);
    CandidateMeaning(r, t, id);
    CacheEntriesOf(r, s, blk);
    ActiveInPool(r, s);
    ActivePathLength(r, s);
    var blocks, active := CandidateBlocks(r, t, id), ActiveBlocks(r, s);
    forall i | 0 <= i < |active|
      ensures blocks[i] == active[i]
    {
      assert CandidatePath(r, t, id)[i] == ActivePath(s)[i];
    }
    assert blocks == active + [blk];
  }

  lemma CacheEntriesOf(r: Rules, s: State, blk: Block)
    requires r.c.Sound() && TablesOk(r, s) && r.c.Id(blk.header) !in s.index
    ensures var t := Cache(r.c, s, blk);
            && (forall i :: i in s.pool ==> i in t.pool && t.pool[i] == s.pool[i])
            && r.c.Id(blk.header) in t.pool && t.pool[r.c.Id(blk.header)] == blk
  {
    hide IndexOk, WorkOk, PathTo, ChildrenOk, HeightIndexOk, CheckpointOk, ActiveOk, Crypto.Id, Crypto.Link;
    CacheEntries(r.c, s, blk);
  }

  /** The verdict is to switch, whatever the checkpoint and the reorg limit: nothing is rolled back. */
  lemma JudgedSwitch(r: Rules, s: State, blk: Block, x: Context)
    requires r.c.Sound() && TablesOk(r, s) && NewOnTip(r, s, blk)
    requires PathValid(r, ActiveBlocks(r, s) + [blk], x.now, x.skipPow)
    ensures var t, id := Cache(r.c, s, blk), r.c.Id(blk.header);
            TablesOk(r, t) && id in t.index && Judge(r, t, id, x) == Switch
  {
    hide TablesOk, BlockWork, CandidatePath, CandidateBlocks, CandidateWork, PathValid, CommonPrefix, ParentConnected, ActiveBlocks, ActivePath, Cache,
         Matches, Crypto.Id, Crypto.Link, Crypto.Sound;
    var t, id := Cache(r.c, s, blk), r.c.Id(blk.header);
    CachedOnTip(r, s, blk);
    CachedBlocks(r, s, blk);
    ActivePathLength(r, t);
    ExtensionMatches(r, t, id);
    var active := ActivePath(t);
    assert (active + [id])[..|active|] == active[..|active|];
    CommonPrefixMeaning(active, active + [id], |active|);
  }

  /** A path that extends the active path matches the checkpoint. */
  lemma ExtensionMatches(r: Rules, s: State, id: nat)
    requires TablesOk(r, s)
    ensures Matches(s, ActivePath(s) + [id])
  {
    hide IndexOk, PoolOk, WorkOk, ChildrenOk, HeightIndexOk, PathTo;
  }

  /** Main result: an unknown block on the tip that does not make the active path a longer valid one is refused or
      found invalid. The active chain stays and the block is not kept. */
  lemma ExtensionRefused(r: Rules, s: State, t: State, blk: Block, x: Context, verdict: Verdict, stored: bool)
    requires r.c.Sound() && TablesOk(r, s) && NewOnTip(r, s, blk)
    requires !PathValid(r, ActiveBlocks(r, s) + [blk], x.now, x.skipPow) && Decided(r, s, t, blk, x, verdict, stored)
    ensures verdict == Refused || verdict == Invalid
    ensures SameChain(s, t) && r.c.Id(blk.header) !in t.index
  {
    hide TablesOk, BlockWork, StatelessOk, PathValid, CandidatePath, CandidateBlocks, CandidateWork, ParentConnected, ActivePath, TimestampValid,
         ParentHeader, Purged, Crypto.Id, Crypto.Link, Crypto.Sound, Park, RecordSide, CandidateHeight, CommonPrefix, Matches;
    CachedOnTip(r, s, blk);
    CachedBlocks(r, s, blk);
  }

  lemma ExtensionInTime(r: Rules, s: State, blk: Block, x: Context)
    requires r.c.Sound() && TablesOk(r, s) && NewOnTip(r, s, blk)
    requires PathValid(r, ActiveBlocks(r, s) + [blk], x.now, x.skipPow)
    ensures TimestampValid(r.p, blk.header, ParentHeader(s, blk.header), x.now)
  {
    hide TablesOk, BlockWork, Replay, CheckBlock, ActiveBlocks, ActiveHeaders, TimestampValid, ExpectedBits, IsCanonical, CheckPow,
         Crypto.MerkleRoot, Crypto.Id, Crypto.Link, Crypto.Sound;
    var blocks := ActiveBlocks(r, s);
    ActiveHeadersAre(r, s);
    TipLink(r, s);
    var all := blocks + [blk];
    assert all[..|blocks|] == blocks && all[|blocks|] == blk;
    StepValid(r, all, |blocks|, x.now, x.skipPow);
    FaultTime(r, ActiveHeaders(r, s), blk, x.now, x.skipPow);
  }

  lemma FaultTime(r: Rules, hist: seq<Header>, blk: Block, now: nat, skipPow: bool)
    requires hist != [] && HeaderFault(r, hist, blk, now, skipPow).None?
    ensures TimestampValid(r.p, blk.header, Some(hist[|hist| - 1]), now)
  {
    hide TimestampValid, ExpectedBits, IsCanonical, CheckPow, Crypto.MerkleRoot, Crypto.Link;
  }

  /** Main result: such a block is admitted, the verdict is to switch, and once its blocks are stored the block is
      the tip, one higher than before, on top of everything that was active. */
  lemma ExtensionSwitches(r: Rules, s: State, t: State, blk: Block, x: Context, verdict: Verdict, stored: bool)
    requires r.c.Sound() && TablesOk(r, s) && NewOnTip(r, s, blk) && StatelessOk(r, blk, x.skipPow)
    requires PathValid(r, ActiveBlocks(r, s) + [blk], x.now, x.skipPow) && Decided(r, s, t, blk, x, verdict, stored)
    ensures verdict == Switch
    ensures stored ==> t.tip == r.c.Id(blk.header) && t.best == s.best + 1 && t.children == s.children
    ensures stored ==> forall h: nat :: h in t.heightMap <==> h <= s.best + 1
    ensures stored ==> forall h: nat :: h <= s.best ==> h in s.heightMap && t.heightMap[h] == s.heightMap[h]
  {
    hide TablesOk, NewOnTip, StatelessOk, PathValid, Judge, CandidatePath, CandidateWork, ParentConnected, ActivePath, TimestampValid, ParentHeader,
         SwitchedTo, Cache, Purged, Crypto.Id, Crypto.Sound, Park, RecordSide, CandidateHeight;
    ExtensionInTime(r, s, blk, x);
    JudgedSwitch(r, s, blk, x);
    CachedOnTip(r, s, blk);
    if stored {
      MovedTip(r, s, t, blk);
    }
  }

  lemma MovedTip(r: Rules, s: State, t: State, blk: Block)
    requires r.c.Sound() && TablesOk(r, s)
    requires SwitchedTo(r, Cache(r.c, s, blk), t, ActivePath(s) + [r.c.Id(blk.header)], blk.header.bits)
    ensures t.tip == r.c.Id(blk.header) && t.best == s.best + 1 && t.children == s.children
    ensures forall h: nat :: h in t.heightMap <==> h <= s.best + 1
    ensures forall h: nat :: h <= s.best ==> h in s.heightMap && t.heightMap[h] == s.heightMap[h]
  {
    hide TablesOk, PositionMap, WorkMap, Refreshed, Crypto.Id, Crypto.Link;
    ActivePathLength(r, s);
    HeightMapMeaning(ActivePath(s) + [r.c.Id(blk.header)]);
  }
}
