/** The tables the node keeps about known blocks, and the facts that tie them together. */
module ChainState {
  import opened Arith
  import opened CompactTarget
  import opened Primitives
  import opened Utxo
  import opened PathValidation

  datatype Checkpoint = Checkpoint(height: nat, id: nat)

  /** Snapshot of the node's in-memory tables. Blocks are named by their identifier; `links` maps the
      link hash of a header to the identifier of its block. */
  datatype State = State(
    best: nat,
    tip: nat,
    tipBits: Bits,
    heightMap: map<nat, nat>,
    index: map<nat, Header>,
    links: map<nat, nat>,
    heightIndex: map<nat, nat>,
    work: map<nat, nat>,
    children: map<nat, seq<nat>>,
    pool: map<nat, Block>,
    heights: map<nat, nat>,
    checkpoint: Option<Checkpoint>,
    pinned: bool,
    utxo: UtxoMap)

  // ---------------------------------------------------------------------------
  // Header chains
  // ---------------------------------------------------------------------------

  /** Headers linked parent to child from one without parent. */
  ghost predicate Linked(c: Crypto, hs: seq<Header>) {
    && hs != []
    && hs[0].prev == 0
    && forall i :: 0 < i < |hs| ==> hs[i].prev == c.Link(hs[i - 1])
  }

  function WorkSum(p: Params, hs: seq<Header>): nat {
    if hs == [] then 0 else WorkSum(p, hs[..|hs| - 1]) + BlockWork(p, hs[|hs| - 1].bits)
  }

  lemma WorkSumSnoc(p: Params, hs: seq<Header>, h: Header)
    ensures WorkSum(p, hs + [h]) == WorkSum(p, hs) + BlockWork(p, h.bits)
  {
    assert (hs + [h])[..|hs|] == hs;
  }

  lemma HasParent(c: Crypto, hs: seq<Header>, i: nat)
    requires c.Sound() && Linked(c, hs) && 0 < i < |hs|
    ensures hs[i].prev == c.Link(hs[i - 1]) && hs[i].prev != 0
  {
  }

  /** Two linked chains that share a header share its height and everything below it. */
  lemma {:induction false} LinkedAgree(c: Crypto, a: seq<Header>, b: seq<Header>, i: nat, j: nat)
    requires c.Sound() && Linked(c, a) && Linked(c, b)
    requires i < |a| && j < |b| && a[i] == b[j]
    ensures i == j && a[..i + 1] == b[..i + 1]
    decreases i
  {
    if i == 0 {
      if 0 < j { HasParent(c, b, j); }
    } else {
      assert a[i].prev == c.Link(a[i - 1]);
      assert 0 < j;
      assert b[j].prev == c.Link(b[j - 1]);
      LinkedAgree(c, a, b, i - 1, j - 1);
      assert a[..i + 1] == a[..i] + [a[i]];
      assert b[..i + 1] == b[..i] + [b[i]];
    }
  }

  // ---------------------------------------------------------------------------
  // Paths of identifiers
  // ---------------------------------------------------------------------------

  /** `path` leads from a block without parent to `tip` along the parent links of the tables. */
  ghost predicate PathTo(index: map<nat, Header>, links: map<nat, nat>, path: seq<nat>, tip: nat) {
    && path != []
    && path[|path| - 1] == tip
    && (forall i :: 0 <= i < |path| ==> path[i] in index)
    && index[path[0]].prev == 0
    && forall i :: 0 < i < |path| ==> StepsTo(index, links, path[i - 1], path[i])
  }

  ghost predicate StepsTo(index: map<nat, Header>, links: map<nat, nat>, parent: nat, child: nat) {
    child in index && index[child].prev != 0 && index[child].prev in links && links[index[child].prev] == parent
  }

  function HeadersAt(index: map<nat, Header>, path: seq<nat>): (hs: seq<Header>)
    requires forall i :: 0 <= i < |path| ==> path[i] in index
    ensures |hs| == |path|
    ensures forall i :: 0 <= i < |path| ==> hs[i] == index[path[i]]
  {
    seq(|path|, i requires 0 <= i < |path| => index[path[i]])
  }

  function BlocksAt(pool: map<nat, Block>, path: seq<nat>): (bs: seq<Block>)
    requires forall i :: 0 <= i < |path| ==> path[i] in pool
    ensures |bs| == |path|
    ensures forall i :: 0 <= i < |path| ==> bs[i] == pool[path[i]]
  {
    seq(|path|, i requires 0 <= i < |path| => pool[path[i]])
  }

  lemma PathToPrefix(index: map<nat, Header>, links: map<nat, nat>, path: seq<nat>, tip: nat, n: nat)
    requires PathTo(index, links, path, tip) && 0 < n <= |path|
    ensures PathTo(index, links, path[..n], path[n - 1])
  {
  }

  lemma PathToSnoc(index: map<nat, Header>, links: map<nat, nat>, path: seq<nat>, tip: nat, child: nat)
    requires PathTo(index, links, path, tip) && StepsTo(index, links, tip, child)
    ensures PathTo(index, links, path + [child], child)
  {
  }

  lemma LastStep(index: map<nat, Header>, links: map<nat, nat>, path: seq<nat>, tip: nat)
    requires PathTo(index, links, path, tip) && 1 < |path|
    ensures tip in index && index[tip].prev != 0
  {
    assert StepsTo(index, links, path[|path| - 2], path[|path| - 1]);
  }

  /** The parent links leave only one path to a block. */
  lemma {:induction false} PathToUnique(index: map<nat, Header>, links: map<nat, nat>, a: seq<nat>, b: seq<nat>, tip: nat)
    requires PathTo(index, links, a, tip) && PathTo(index, links, b, tip)
    ensures a == b
    decreases |a|
  {
    if |a| == 1 {
      if 1 < |b| { LastStep(index, links, b, tip); }
    } else {
      assert StepsTo(index, links, a[|a| - 2], a[|a| - 1]);
      assert |b| > 1;
      assert StepsTo(index, links, b[|b| - 2], b[|b| - 1]);
      PathToPrefix(index, links, a, tip, |a| - 1);
      PathToPrefix(index, links, b, tip, |b| - 1);
      PathToUnique(index, links, a[..|a| - 1], b[..|b| - 1], a[|a| - 2]);
      assert a == a[..|a| - 1] + [tip];
      assert b == b[..|b| - 1] + [tip];
    }
  }

  /** A path never visits a block twice. */
  lemma PathToDistinct(index: map<nat, Header>, links: map<nat, nat>, path: seq<nat>, tip: nat, i: nat, j: nat)
    requires PathTo(index, links, path, tip) && i < j < |path|
    ensures path[i] != path[j]
  {
    if path[i] == path[j] {
      PathToPrefix(index, links, path, tip, i + 1);
      PathToPrefix(index, links, path, tip, j + 1);
      PathToUnique(index, links, path[..i + 1], path[..j + 1], path[i]);
    }
  }

  /** Two paths that meet at the same position are the same up to it. */
  lemma PathsAgree(index: map<nat, Header>, links: map<nat, nat>, a: seq<nat>, b: seq<nat>, i: nat)
    requires a != [] && b != [] && PathTo(index, links, a, a[|a| - 1]) && PathTo(index, links, b, b[|b| - 1])
    requires i < |a| && i < |b| && a[i] == b[i]
    ensures a[..i + 1] == b[..i + 1]
  {
    PathToPrefix(index, links, a, a[|a| - 1], i + 1);
    PathToPrefix(index, links, b, b[|b| - 1], i + 1);
    PathToUnique(index, links, a[..i + 1], b[..i + 1], a[i]);
  }

  lemma {:induction false} DistinctBounded(path: seq<nat>, ids: set<nat>)
    requires forall i :: 0 <= i < |path| ==> path[i] in ids
    requires forall i, j :: 0 <= i < j < |path| ==> path[i] != path[j]
    ensures |path| <= |ids|
  {
    if path != [] {
      var last := path[|path| - 1];
      DistinctBounded(path[..|path| - 1], ids - {last});
    }
  }

  /** A path is never longer than the table it runs through. */
  lemma PathToLength(index: map<nat, Header>, links: map<nat, nat>, path: seq<nat>, tip: nat)
    requires PathTo(index, links, path, tip)
    ensures |path| <= |index.Keys|
  {
    forall i, j | 0 <= i < j < |path|
      ensures path[i] != path[j]
    {
      PathToDistinct(index, links, path, tip, i, j);
    }
    DistinctBounded(path, index.Keys);
  }

  // ---------------------------------------------------------------------------
  // Invariants
  // ---------------------------------------------------------------------------

  /** The header table and the link table are inverse to each other. */
  ghost predicate IndexOk(c: Crypto, index: map<nat, Header>, links: map<nat, nat>) {
    && (forall id :: id in index ==>
          c.Id(index[id]) == id && c.Link(index[id]) in links && links[c.Link(index[id])] == id)
    && (forall l :: l in links ==> links[l] in index && c.Link(index[links[l]]) == l)
  }

  ghost predicate PoolOk(index: map<nat, Header>, pool: map<nat, Block>) {
    && pool.Keys == index.Keys
    && forall id :: id in pool ==> pool[id].header == index[id]
  }

  ghost predicate ChildrenOk(index: map<nat, Header>, children: map<nat, seq<nat>>) {
    forall l, i :: l in children && 0 <= i < |children[l]| ==> children[l][i] in index && index[children[l][i]].prev == l
  }

  /** Height and accumulated work of one block follow from its parent's. */
  ghost predicate WorkAt(p: Params, index: map<nat, Header>, links: map<nat, nat>,
                         work: map<nat, nat>, heights: map<nat, nat>, id: nat)
  {
    && id in index && id in work && id in heights
    && if index[id].prev == 0 then
         heights[id] == 0 && work[id] == BlockWork(p, index[id].bits)
       else
         && index[id].prev in links
         && var parent := links[index[id].prev];
            && parent in work && parent in heights
            && heights[id] == heights[parent] + 1
            && work[id] == work[parent] + BlockWork(p, index[id].bits)
  }

  ghost predicate WorkOk(p: Params, index: map<nat, Header>, links: map<nat, nat>,
                         work: map<nat, nat>, heights: map<nat, nat>)
  {
    && heights.Keys == work.Keys
    && forall id :: id in work ==> WorkAt(p, index, links, work, heights, id)
  }

  ghost predicate HeightIndexOk(heightIndex: map<nat, nat>, work: map<nat, nat>, heights: map<nat, nat>) {
    heightIndex.Keys <= work.Keys && forall id :: id in heightIndex ==> id in heights && heightIndex[id] == heights[id]
  }

  /** The active path as a sequence, lowest block first. */
  function PathOfMap(heightMap: map<nat, nat>, best: nat): (path: seq<nat>)
    requires forall h: nat :: h <= best ==> h in heightMap
    ensures |path| == best + 1
    ensures forall h :: 0 <= h <= best ==> path[h] == heightMap[h]
  {
    seq(best + 1, h requires 0 <= h <= best => heightMap[h])
  }

  ghost predicate ActiveOk(s: State) {
    && (forall h: nat :: h in s.heightMap <==> h <= s.best)
    && PathTo(s.index, s.links, ActivePath(s), s.tip)
    && s.tip in s.index && s.tipBits == s.index[s.tip].bits
    && forall h: nat :: h <= s.best ==> s.heightMap[h] in s.work && s.heightMap[h] in s.heightIndex
  }

  function ActivePath(s: State): seq<nat>
    requires forall h: nat :: h in s.heightMap <==> h <= s.best
  {
    PathOfMap(s.heightMap, s.best)
  }

  /** The height the automatic checkpoint guards. */
  function RollingHeight(best: nat): nat {
    if best > MAX_REORG_DEPTH then best - MAX_REORG_DEPTH else 0
  }

  /** A checkpoint is always set, lies on the active path, and rolls along unless pinned. */
  ghost predicate CheckpointOk(s: State) {
    && s.checkpoint.Some?
    && s.checkpoint.value.height <= s.best
    && s.checkpoint.value.height in s.heightMap
    && s.heightMap[s.checkpoint.value.height] == s.checkpoint.value.id
    && (!s.pinned ==> s.checkpoint.value.height == RollingHeight(s.best))
  }

  ghost predicate TablesOk(r: Rules, s: State) {
    && IndexOk(r.c, s.index, s.links)
    && PoolOk(s.index, s.pool)
    && ChildrenOk(s.index, s.children)
    && WorkOk(r.p, s.index, s.links, s.work, s.heights)
    && HeightIndexOk(s.heightIndex, s.work, s.heights)
    && ActiveOk(s)
    && CheckpointOk(s)
  }

  lemma ActiveInPool(r: Rules, s: State)
    requires TablesOk(r, s)
    ensures forall i :: 0 <= i < |ActivePath(s)| ==> ActivePath(s)[i] in s.pool
  {
  }

  ghost function ActiveBlocks(r: Rules, s: State): seq<Block>
    requires TablesOk(r, s)
  {
    ActiveInPool(r, s);
    BlocksAt(s.pool, ActivePath(s))
  }

  ghost function ActiveHeaders(r: Rules, s: State): (hs: seq<Header>)
    requires TablesOk(r, s)
    ensures |hs| == s.best + 1
  {
    HeadersAt(s.index, ActivePath(s))
  }

  /** The unspent outputs are those of replaying the active path, which was valid by the given clock. */
  ghost predicate UtxoOk(r: Rules, s: State, clock: nat, powSkipped: bool)
    requires TablesOk(r, s)
  {
    Replay(r, ActiveBlocks(r, s), clock, powSkipped) == Accepted(s.utxo)
  }

  // ---------------------------------------------------------------------------
  // Consequences
  // ---------------------------------------------------------------------------

  /** The path of a block that has work, read off its recorded height. */
  ghost function PathOf(p: Params, index: map<nat, Header>, links: map<nat, nat>,
                        work: map<nat, nat>, heights: map<nat, nat>, id: nat): (path: seq<nat>)
    requires WorkOk(p, index, links, work, heights) && id in work
    decreases heights[id]
  {
    assert WorkAt(p, index, links, work, heights, id);
    if index[id].prev == 0 then [id]
    else PathOf(p, index, links, work, heights, links[index[id].prev]) + [id]
  }

  /** A recorded height is the length of the block's path and its work the sum along it. */
  lemma {:induction false} WorkMeaning(p: Params, index: map<nat, Header>, links: map<nat, nat>,
                                       work: map<nat, nat>, heights: map<nat, nat>, id: nat)
    requires WorkOk(p, index, links, work, heights) && id in work
    ensures var path := PathOf(p, index, links, work, heights, id);
            && PathTo(index, links, path, id)
            && |path| == heights[id] + 1
            && work[id] == WorkSum(p, HeadersAt(index, path))
            && forall i :: 0 <= i < |path| ==> path[i] in work && heights[path[i]] == i
    decreases heights[id]
  {
    hide BlockWork, PathTo, WorkSum;
    assert WorkAt(p, index, links, work, heights, id);
    if index[id].prev != 0 {
      var parent := links[index[id].prev];
      WorkMeaning(p, index, links, work, heights, parent);
      var front := PathOf(p, index, links, work, heights, parent);
      PathToSnoc(index, links, front, parent, id);
      PathIndexed(index, links, front, parent);
      assert HeadersAt(index, front + [id]) == HeadersAt(index, front) + [index[id]];
      WorkSumSnoc(p, HeadersAt(index, front), index[id]);
    } else {
      PathOfRoot(index, links, id);
      NoWork(p);
      assert HeadersAt(index, [id]) == [] + [index[id]];
      WorkSumSnoc(p, [], index[id]);
    }
  }

  lemma PathIndexed(index: map<nat, Header>, links: map<nat, nat>, path: seq<nat>, tip: nat)
    requires PathTo(index, links, path, tip)
    ensures forall i :: 0 <= i < |path| ==> path[i] in index
  {
  }

  lemma PathOfRoot(index: map<nat, Header>, links: map<nat, nat>, id: nat)
    requires id in index && index[id].prev == 0
    ensures PathTo(index, links, [id], id)
  {
  }

  lemma NoWork(p: Params)
    ensures WorkSum(p, []) == 0
  {
  }

  lemma PathHeadersLinked(c: Crypto, index: map<nat, Header>, links: map<nat, nat>, path: seq<nat>, tip: nat)
    requires IndexOk(c, index, links) && PathTo(index, links, path, tip)
    ensures Linked(c, HeadersAt(index, path))
  {
    var hs := HeadersAt(index, path);
    forall i | 0 < i < |hs|
      ensures hs[i].prev == c.Link(hs[i - 1])
    {
      assert StepsTo(index, links, path[i - 1], path[i]);
    }
  }

  /** The active path is the path of the tip: heights and work describe it. */
  lemma ActiveMeaning(r: Rules, s: State)
    requires TablesOk(r, s)
    ensures Linked(r.c, ActiveHeaders(r, s))
    ensures s.tip in s.work && s.work[s.tip] == WorkSum(r.p, ActiveHeaders(r, s))
    ensures forall h: nat :: h <= s.best ==> s.heightMap[h] in s.heights && s.heights[s.heightMap[h]] == h
    ensures ActivePath(s) == PathOf(r.p, s.index, s.links, s.work, s.heights, s.tip)
  {
    hide PathTo, BlockWork, WorkSum, WorkOk, IndexOk, PoolOk, ChildrenOk, HeightIndexOk, CheckpointOk, PathOf, Linked;
    TipHasWork(r, s);
    PathHeadersLinked(r.c, s.index, s.links, ActivePath(s), s.tip);
    WorkMeaning(r.p, s.index, s.links, s.work, s.heights, s.tip);
    PathToUnique(s.index, s.links, ActivePath(s), PathOf(r.p, s.index, s.links, s.work, s.heights, s.tip), s.tip);
    forall h: nat | h <= s.best
      ensures s.heightMap[h] in s.heights && s.heights[s.heightMap[h]] == h
    {
      assert ActivePath(s)[h] == s.heightMap[h];
    }
  }

  lemma TipHasWork(r: Rules, s: State)
    requires TablesOk(r, s)
    ensures s.tip in s.work && s.heightMap[s.best] == s.tip
    ensures forall h: nat :: h <= s.best ==> s.heightMap[h] in s.heights
  {
    hide BlockWork, IndexOk, PoolOk, ChildrenOk, HeightIndexOk, CheckpointOk;
    assert s.heightMap[s.best] == ActivePath(s)[s.best] == s.tip;
  }
}
