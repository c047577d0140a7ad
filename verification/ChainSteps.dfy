/** What each step of block acceptance does to the tables, how the node decides between the steps,
    and why every step keeps the tables consistent. */
module ChainSteps {
  import opened Arith
  import opened CompactTarget
  import opened Primitives
  import opened Utxo
  import opened PathValidation
  import opened ChainState

  /** Circumstances of one call: whether proof of work is skipped, the wall clock, and the reorg policy
      read from the environment. */
  datatype Context = Context(skipPow: bool, now: nat, maxReorg: nat, allowDeepReorg: bool)

  datatype Verdict =
    | Refused            // fails a check that needs no chain, or has a bad timestamp
    | Known              // already has work
    | Parked             // parent not connected yet
    | Invalid            // its path does not validate
    | Side               // valid, but not more work than the tip
    | Mismatch           // contradicts the checkpoint
    | TooDeep            // rolls back more than the policy allows
    | Switch             // becomes the tip

  // ---------------------------------------------------------------------------
  // Checks before anything is stored
  // ---------------------------------------------------------------------------

  predicate StatelessOk(r: Rules, blk: Block, skipPow: bool) {
    && (skipPow || blk.header.prev == 0 || (IsCanonical(blk.header.bits, 64) && CheckPow(r.c, r.p, blk.header)))
    && r.c.MerkleRoot(blk.transactions) == blk.header.merkleRoot
    && |blk.transactions| <= MAX_TRANSACTIONS_PER_BLOCK
    && r.c.blockSize(blk) <= MAX_BLOCK_SIZE_BYTES
  }

  function ParentHeader(s: State, h: Header): Option<Header> {
    if h.prev != 0 && h.prev in s.links && s.links[h.prev] in s.index then Some(s.index[s.links[h.prev]]) else None
  }

  predicate Admissible(r: Rules, s: State, blk: Block, x: Context) {
    StatelessOk(r, blk, x.skipPow) && TimestampValid(r.p, blk.header, ParentHeader(s, blk.header), x.now)
  }

  // ---------------------------------------------------------------------------
  // Steps
  // ---------------------------------------------------------------------------

  function Cache(c: Crypto, s: State, blk: Block): State {
    var id := c.Id(blk.header);
    s.(index := if id in s.index then s.index else s.index[id := blk.header],
       pool := if id in s.pool then s.pool else s.pool[id := blk],
       links := s.links[c.Link(blk.header) := id])
  }

  function Park(s: State, link: nat, id: nat): State {
    s.(children := s.children[link := (if link in s.children then s.children[link] else []) + [id]])
  }

  function RecordSide(s: State, id: nat, height: nat, work: nat): State {
    s.(heights := s.heights[id := height], work := s.work[id := work])
  }

  /** Positions of the first n identifiers of a path. */
  function PositionMap(path: seq<nat>, n: nat): map<nat, nat>
    requires n <= |path|
  {
    if n == 0 then map[] else PositionMap(path, n - 1)[path[n - 1] := n - 1]
  }

  /** Accumulated work of the first n blocks of a path. */
  function WorkMap(p: Params, path: seq<nat>, hs: seq<Header>, n: nat): map<nat, nat>
    requires n <= |path| == |hs|
  {
    if n == 0 then map[] else WorkMap(p, path, hs, n - 1)[path[n - 1] := WorkSum(p, hs[..n])]
  }

  function HeightMapOf(path: seq<nat>): map<nat, nat> {
    map h: nat | h < |path| :: path[h]
  }

  /** The checkpoint after the active path changed: rolled along unless pinned. */
  function Refreshed(pinned: bool, checkpoint: Option<Checkpoint>, path: seq<nat>): Option<Checkpoint>
    requires path != []
  {
    if pinned then checkpoint
    else Some(Checkpoint(RollingHeight(|path| - 1), path[RollingHeight(|path| - 1)]))
  }

  /** Makes `path` the active path: heights and work of all other blocks are forgotten. */
  function Activate(p: Params, s: State, path: seq<nat>, hs: seq<Header>, tipBits: Bits, utxo: UtxoMap): State
    requires path != [] && |path| == |hs|
  {
    s.(best := |path| - 1,
       tip := path[|path| - 1],
       tipBits := tipBits,
       heightMap := HeightMapOf(path),
       heightIndex := PositionMap(path, |path|),
       heights := PositionMap(path, |path|),
       work := WorkMap(p, path, hs, |path|),
       checkpoint := Refreshed(s.pinned, s.checkpoint, path),
       utxo := utxo)
  }

  // ---------------------------------------------------------------------------
  // The decision
  // ---------------------------------------------------------------------------

  predicate Matches(s: State, path: seq<nat>) {
    s.checkpoint.None? || (s.checkpoint.value.height < |path| && path[s.checkpoint.value.height] == s.checkpoint.value.id)
  }

  function CommonPrefix(a: seq<nat>, b: seq<nat>): nat {
    if a == [] || b == [] || a[0] != b[0] then 0 else 1 + CommonPrefix(a[1..], b[1..])
  }

  /** How many blocks of the active path a switch to the candidate would roll back. */
  function ReorgDepth(active: seq<nat>, candidate: seq<nat>): int {
    |active| - CommonPrefix(active, candidate)
  }

  predicate ParentConnected(s: State, h: Header) {
    h.prev == 0 || (h.prev in s.links && s.links[h.prev] in s.work)
  }

  /** The path of a cached block whose parent has work. */
  ghost function CandidatePath(r: Rules, s: State, id: nat): seq<nat>
    requires TablesOk(r, s) && id in s.index && ParentConnected(s, s.index[id])
  {
    if s.index[id].prev == 0 then [id]
    else PathOf(r.p, s.index, s.links, s.work, s.heights, s.links[s.index[id].prev]) + [id]
  }

  lemma CandidatePathOk(r: Rules, s: State, id: nat)
    requires TablesOk(r, s) && id in s.index && ParentConnected(s, s.index[id])
    ensures var path := CandidatePath(r, s, id);
            && PathTo(s.index, s.links, path, id)
            && (forall i :: 0 <= i < |path| ==> path[i] in s.pool)
            && (s.index[id].prev != 0 ==>
                  var parent := s.links[s.index[id].prev];
                  && |path| == s.heights[parent] + 2
                  && path[..|path| - 1] == PathOf(r.p, s.index, s.links, s.work, s.heights, parent)
                  && WorkSum(r.p, HeadersAt(s.index, path)) == s.work[parent] + BlockWork(r.p, s.index[id].bits))
            && (s.index[id].prev == 0 ==>
                  |path| == 1 && WorkSum(r.p, HeadersAt(s.index, path)) == BlockWork(r.p, s.index[id].bits))
  {
    hide BlockWork, ActiveOk, CheckpointOk, ChildrenOk, HeightIndexOk, IndexOk;
    var h := s.index[id];
    assert s.pool.Keys == s.index.Keys;
    hide PoolOk;
    if h.prev == 0 {
      RootPath(r.p, s.index, s.links, id);
    } else {
      var parent := s.links[h.prev];
      WorkMeaning(r.p, s.index, s.links, s.work, s.heights, parent);
      ExtendPath(r.p, s.index, s.links, PathOf(r.p, s.index, s.links, s.work, s.heights, parent), parent, id);
      hide PathOf, WorkOk, WorkSum;
    }
  }

  lemma RootPath(p: Params, index: map<nat, Header>, links: map<nat, nat>, id: nat)
    requires id in index && index[id].prev == 0
    ensures PathTo(index, links, [id], id) && WorkSum(p, HeadersAt(index, [id])) == BlockWork(p, index[id].bits)
  {
    hide BlockWork;
    assert HeadersAt(index, [id]) == [] + [index[id]];
    WorkSumSnoc(p, [], index[id]);
  }

  lemma ExtendPath(p: Params, index: map<nat, Header>, links: map<nat, nat>, front: seq<nat>, parent: nat, id: nat)
    requires PathTo(index, links, front, parent) && StepsTo(index, links, parent, id)
    ensures PathTo(index, links, front + [id], id)
    ensures WorkSum(p, HeadersAt(index, front + [id])) == WorkSum(p, HeadersAt(index, front)) + BlockWork(p, index[id].bits)
  {
    hide BlockWork;
    PathToSnoc(index, links, front, parent, id);
    assert HeadersAt(index, front + [id]) == HeadersAt(index, front) + [index[id]];
    WorkSumSnoc(p, HeadersAt(index, front), index[id]);
  }

  ghost function CandidateBlocks(r: Rules, s: State, id: nat): seq<Block>
    requires TablesOk(r, s) && id in s.index && ParentConnected(s, s.index[id])
  {
    CandidatePathOk(r, s, id);
    BlocksAt(s.pool, CandidatePath(r, s, id))
  }

  ghost function CandidateWork(r: Rules, s: State, id: nat): nat
    requires TablesOk(r, s) && id in s.index && ParentConnected(s, s.index[id])
  {
    CandidatePathOk(r, s, id);
    WorkSum(r.p, HeadersAt(s.index, CandidatePath(r, s, id)))
  }

  /** The verdict on a block that passed the first checks and was cached. */
  ghost function Judge(r: Rules, s: State, id: nat, x: Context): Verdict
    requires TablesOk(r, s) && id in s.index
  {
    if id in s.work then Known
    else if !ParentConnected(s, s.index[id]) then Parked
    else if !PathValid(r, CandidateBlocks(r, s, id), x.now, x.skipPow) then Invalid
    else if s.tip in s.work && CandidateWork(r, s, id) <= s.work[s.tip] then Side
    else if !Matches(s, CandidatePath(r, s, id)) then Mismatch
    else if ReorgDepth(ActivePath(s), CandidatePath(r, s, id)) > x.maxReorg && !x.allowDeepReorg then TooDeep
    else Switch
  }

  // ---------------------------------------------------------------------------
  // Every step keeps the tables consistent
  // ---------------------------------------------------------------------------

  lemma CachedIndexOk(c: Crypto, index: map<nat, Header>, links: map<nat, nat>, h: Header)
    requires c.Sound() && IndexOk(c, index, links)
    ensures var id := c.Id(h);
            var index' := if id in index then index else index[id := h];
            && IndexOk(c, index', links[c.Link(h) := id])
            && index'[id] == h && (id in index ==> index[id] == h)
            && (forall l :: l in links ==> links[c.Link(h) := id][l] == links[l])
  {
    var id := c.Id(h);
    if id in index {
      c.IdInjective(index[id], h);
    }
    if c.Link(h) in links {
      assert c.Link(index[links[c.Link(h)]]) == c.Link(h);
    }
  }

  /** Adding a header leaves every existing path in place. */
  lemma PathToGrows(index: map<nat, Header>, links: map<nat, nat>, index': map<nat, Header>, links': map<nat, nat>,
                    path: seq<nat>, tip: nat)
    requires PathTo(index, links, path, tip)
    requires forall id :: id in index ==> id in index' && index'[id] == index[id]
    requires forall l :: l in links ==> l in links' && links'[l] == links[l]
    ensures PathTo(index', links', path, tip)
  {
    forall i | 0 < i < |path|
      ensures StepsTo(index', links', path[i - 1], path[i])
    {
      assert StepsTo(index, links, path[i - 1], path[i]);
    }
  }

  lemma WorkOkGrows(p: Params, index: map<nat, Header>, links: map<nat, nat>, index': map<nat, Header>,
                    links': map<nat, nat>, work: map<nat, nat>, heights: map<nat, nat>)
    requires WorkOk(p, index, links, work, heights)
    requires forall id :: id in index ==> id in index' && index'[id] == index[id]
    requires forall l :: l in links ==> l in links' && links'[l] == links[l]
    ensures WorkOk(p, index', links', work, heights)
  {
    hide BlockWork;
    forall id | id in work
      ensures WorkAt(p, index', links', work, heights, id)
    {
      assert WorkAt(p, index, links, work, heights, id);
    }
  }

  lemma CachedPoolOk(index: map<nat, Header>, pool: map<nat, Block>, id: nat, blk: Block)
    requires PoolOk(index, pool) && (id in index ==> index[id] == blk.header)
    ensures var index' := if id in index then index else index[id := blk.header];
            var pool' := if id in pool then pool else pool[id := blk];
            PoolOk(index', pool') && id in pool' && index'.Keys == index.Keys + {id}
  {
  }

  /** Caching changes no table but the three it extends, and keeps every entry of those. */
  lemma CacheEntries(c: Crypto, s: State, blk: Block)
    requires c.Sound() && IndexOk(c, s.index, s.links) && PoolOk(s.index, s.pool)
    ensures var t, id := Cache(c, s, blk), c.Id(blk.header);
            && IndexOk(c, t.index, t.links) && PoolOk(t.index, t.pool)
            && id in t.index && t.index[id] == blk.header && id in t.pool
            && t.index.Keys == s.index.Keys + {id}
            && (forall i :: i in s.index ==> i in t.index && t.index[i] == s.index[i])
            && (forall i :: i in s.pool ==> i in t.pool && t.pool[i] == s.pool[i])
            && (forall l :: l in s.links ==> l in t.links && t.links[l] == s.links[l])
            && (id !in s.pool ==> t.pool[id] == blk)
            && t == s.(index := t.index, pool := t.pool, links := t.links)
  {
    hide IndexOk, PoolOk;
    CachedIndexOk(c, s.index, s.links, blk.header);
    CachedPoolOk(s.index, s.pool, c.Id(blk.header), blk);
  }

  lemma ActiveOkGrows(s: State, t: State)
    requires ActiveOk(s)
    requires forall i :: i in s.index ==> i in t.index && t.index[i] == s.index[i]
    requires forall l :: l in s.links ==> l in t.links && t.links[l] == s.links[l]
    requires t == s.(index := t.index, pool := t.pool, links := t.links)
    ensures ActiveOk(t)
  {
    PathToGrows(s.index, s.links, t.index, t.links, ActivePath(s), s.tip);
    hide PathTo;
  }

  lemma CacheTables(r: Rules, s: State, blk: Block)
    requires r.c.Sound() && TablesOk(r, s)
    ensures TablesOk(r, Cache(r.c, s, blk))
  {
    hide Cache, IndexOk, PoolOk, WorkOk, PathTo, HeightIndexOk;
    CacheEntries(r.c, s, blk);
    var t := Cache(r.c, s, blk);
    WorkOkGrows(r.p, s.index, s.links, t.index, t.links, s.work, s.heights);
    ActiveOkGrows(s, t);
    hide ActiveOk;
  }

  /** The active path only depends on the tables it runs through. */
  lemma ActiveOkSame(s: State, t: State)
    requires ActiveOk(s)
    requires t.best == s.best && t.tip == s.tip && t.tipBits == s.tipBits && t.heightMap == s.heightMap
    requires t.index == s.index && t.links == s.links && t.heightIndex == s.heightIndex
    requires s.work.Keys <= t.work.Keys
    ensures ActiveOk(t) && ActivePath(t) == ActivePath(s)
  {
    hide PathTo;
    assert ActivePath(t) == ActivePath(s);
  }

  lemma ParkTables(r: Rules, s: State, link: nat, id: nat)
    requires TablesOk(r, s) && id in s.index && s.index[id].prev == link
    ensures TablesOk(r, Park(s, link, id))
  {
    hide ActiveOk, IndexOk, PoolOk, WorkOk, HeightIndexOk;
    ActiveOkSame(s, Park(s, link, id));
    ChildrenOkSnoc(s.index, s.children, link, id);
    hide ChildrenOk;
  }

  lemma ChildrenOkSnoc(index: map<nat, Header>, children: map<nat, seq<nat>>, link: nat, id: nat)
    requires ChildrenOk(index, children) && id in index && index[id].prev == link
    ensures ChildrenOk(index, children[link := (if link in children then children[link] else []) + [id]])
  {
  }

  lemma WorkOkExtends(p: Params, index: map<nat, Header>, links: map<nat, nat>, work: map<nat, nat>, heights: map<nat, nat>,
                      id: nat, height: nat, total: nat)
    requires WorkOk(p, index, links, work, heights) && id in index && id !in work
    requires if index[id].prev == 0 then height == 0 && total == BlockWork(p, index[id].bits)
             else index[id].prev in links && links[index[id].prev] in work
                  && height == heights[links[index[id].prev]] + 1
                  && total == work[links[index[id].prev]] + BlockWork(p, index[id].bits)
    ensures WorkOk(p, index, links, work[id := total], heights[id := height])
  {
    hide BlockWork;
    var work', heights' := work[id := total], heights[id := height];
    forall k | k in work'
      ensures WorkAt(p, index, links, work', heights', k)
    {
      if k != id {
        assert WorkAt(p, index, links, work, heights, k);
      }
    }
  }

  /** Height of a block one above its parent. */
  function CandidateHeight(s: State, id: nat): nat
    requires id in s.index
  {
    var h := s.index[id];
    if h.prev != 0 && h.prev in s.links && s.links[h.prev] in s.heights then s.heights[s.links[h.prev]] + 1 else 0
  }

  lemma RecordSideTables(r: Rules, s: State, id: nat)
    requires TablesOk(r, s) && id in s.index && id !in s.work && ParentConnected(s, s.index[id])
    ensures TablesOk(r, RecordSide(s, id, CandidateHeight(s, id), CandidateWork(r, s, id)))
  {
    hide BlockWork, IndexOk, PoolOk, ChildrenOk, ActiveOk, WorkSum, PathTo, PathOf, CandidatePath, WorkOk, HeightIndexOk;
    CandidatePathOk(r, s, id);
    var height, total := CandidateHeight(s, id), CandidateWork(r, s, id);
    WorkHasHeights(r.p, s.index, s.links, s.work, s.heights);
    WorkOkExtends(r.p, s.index, s.links, s.work, s.heights, id, height, total);
    HeightIndexExtends(s.heightIndex, s.work, s.heights, id, height, total);
    ActiveOkSame(s, RecordSide(s, id, height, total));
  }

  lemma WorkHasHeights(p: Params, index: map<nat, Header>, links: map<nat, nat>, work: map<nat, nat>, heights: map<nat, nat>)
    requires WorkOk(p, index, links, work, heights)
    ensures heights.Keys == work.Keys
  {
  }

  lemma HeightIndexExtends(heightIndex: map<nat, nat>, work: map<nat, nat>, heights: map<nat, nat>, id: nat, height: nat, total: nat)
    requires HeightIndexOk(heightIndex, work, heights) && id !in work
    ensures HeightIndexOk(heightIndex, work[id := total], heights[id := height])
  {
  }

  /** The height files of the active path hold its blocks. */
  ghost predicate FilesMatch(files: map<nat, Block>, s: State) {
    forall h: nat :: h <= s.best ==>
      h in s.heightMap && s.heightMap[h] in s.pool && h in files && files[h] == s.pool[s.heightMap[h]]
  }

  /** The tables agree on the active path and on every block both of them know. */
  ghost predicate SameChain(s: State, t: State) {
    && t.best == s.best && t.tip == s.tip && t.tipBits == s.tipBits && t.heightMap == s.heightMap && t.utxo == s.utxo
    && t.checkpoint == s.checkpoint && t.pinned == s.pinned
    && (forall id :: id in s.index && id in t.index ==> t.index[id] == s.index[id])
    && (forall id :: id in s.pool && id in t.pool ==> t.pool[id] == s.pool[id])
  }

  /** A step that leaves the active path alone leaves its blocks, headers, outputs and files alone. */
  lemma SameChainKeeps(r: Rules, s: State, t: State, clock: nat, powSkipped: bool, files: map<nat, Block>)
    requires TablesOk(r, s) && TablesOk(r, t) && SameChain(s, t)
    ensures ActivePath(t) == ActivePath(s)
    ensures ActiveBlocks(r, t) == ActiveBlocks(r, s) && ActiveHeaders(r, t) == ActiveHeaders(r, s)
    ensures UtxoOk(r, s, clock, powSkipped) ==> UtxoOk(r, t, clock, powSkipped)
    ensures FilesMatch(files, s) ==> FilesMatch(files, t)
  {
    hide IndexOk, WorkOk, HeightIndexOk, ChildrenOk, PoolOk, CheckpointOk, Replay;
    ActiveInPool(r, s);
    ActiveInPool(r, t);
    assert ActivePath(t) == ActivePath(s);
    assert forall i :: 0 <= i < |ActivePath(s)| ==> ActivePath(s)[i] in s.index;
    assert forall i :: 0 <= i < |ActivePath(t)| ==> ActivePath(t)[i] in t.index;
    assert ActiveBlocks(r, t) == ActiveBlocks(r, s);
    forall h: nat | h <= t.best
      ensures t.heightMap[h] in t.pool
    {
      assert ActivePath(t)[h] == t.heightMap[h];
    }
  }
}
