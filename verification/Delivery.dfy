/** Blocks of one valid linear chain, delivered in any order: what the tables look like in between and
    what the node decides about each of them. */
module Delivery {
  import opened Arith
  import opened CompactTarget
  import opened Primitives
  import opened Utxo
  import opened PathValidation
  import opened ChainState
  import opened ChainSteps
  import opened ForkChoice
  import opened Effects

  function IdOf(r: Rules, blk: Block): nat {
    r.c.Id(blk.header)
  }

  /** A chain from a first block whose blocks all validate and all carry work. */
  ghost predicate GoalOk(r: Rules, goal: seq<Block>, now: nat, skipPow: bool) {
    && goal != []
    && goal[0].header.prev == 0
    && PathValid(r, goal, now, skipPow)
    && (forall j :: 0 <= j < |goal| ==> StatelessOk(r, goal[j], skipPow))
    && (forall j :: 0 < j < |goal| ==> 0 < BlockWork(r.p, goal[j].header.bits))
  }

  /** When proof of work is checked, validity alone gives every later block work. */
  lemma CheckedChainHasWork(r: Rules, goal: seq<Block>, now: nat)
    requires goal != [] && goal[0].header.prev == 0 && PathValid(r, goal, now, false)
    requires PowLimit(r.p) + 1 < Pow256(64)
    requires forall j :: 0 <= j < |goal| ==> StatelessOk(r, goal[j], false)
    ensures GoalOk(r, goal, now, false)
  {
    hide Pow256, Replay, Expand, IsCanonical, BlockWork;
    forall j | 0 < j < |goal|
      ensures 0 < BlockWork(r.p, goal[j].header.bits)
    {
      CheckedBlockHasWork(r, goal, j, now);
    }
  }

  lemma CheckedBlockHasWork(r: Rules, goal: seq<Block>, j: nat, now: nat)
    requires 0 < j < |goal| && PathValid(r, goal, now, false) && PowLimit(r.p) + 1 < Pow256(64)
    ensures 0 < BlockWork(r.p, goal[j].header.bits)
  {
    hide Pow256, Replay, Expand, IsCanonical, BlockWork, ExpectedBits, IsNegative, IsZero, Overflows;
    StepValid(r, goal, j, now, false);
    assert IsCanonical(goal[j].header.bits, 64) && CheckPow(r.c, r.p, goal[j].header);
    LegalTargetHasWork(r.p, goal[j].header.bits);
  }

  /** Block j of the chain waits in the pool and is listed under its parent's link. */
  ghost predicate Waiting(r: Rules, s: State, goal: seq<Block>, j: nat)
    requires 0 < j < |goal|
  {
    && r.c.Link(goal[j - 1].header) in s.children
    && IdOf(r, goal[j]) in s.children[r.c.Link(goal[j - 1].header)]
  }

  ghost predicate AllOnGoal(pool: map<nat, Block>, goal: seq<Block>) {
    forall id :: id in pool ==> pool[id] in goal
  }

  ghost predicate OnlyActiveHasWork(s: State) {
    forall id :: id in s.work ==> id in s.heights && s.heights[id] <= s.best
                                  && s.heights[id] in s.heightMap && s.heightMap[s.heights[id]] == id
  }

  ghost predicate ActiveIsPrefix(r: Rules, s: State, goal: seq<Block>) {
    && s.best < |goal|
    && forall h: nat :: h <= s.best ==> h in s.heightMap && s.heightMap[h] == IdOf(r, goal[h])
  }

  /** The active path is a prefix of the chain, nothing but the chain is known, and every known block
      above the tip, except possibly `skip`, waits under its parent. */
  ghost predicate Partial(r: Rules, s: State, goal: seq<Block>, skip: nat) {
    && TablesOk(r, s)
    && ActiveIsPrefix(r, s, goal)
    && AllOnGoal(s.pool, goal)
    && OnlyActiveHasWork(s)
    && forall j: nat :: s.best < j < |goal| && j != skip && IdOf(r, goal[j]) in s.pool ==> Waiting(r, s, goal, j)
  }

  /** The block right above the tip has not been delivered yet. */
  ghost predicate Saturated(r: Rules, s: State, goal: seq<Block>) {
    s.best + 1 < |goal| ==> IdOf(r, goal[s.best + 1]) !in s.pool
  }

  // ---------------------------------------------------------------------------
  // Positions on the chain
  // ---------------------------------------------------------------------------

  lemma GoalLinked(r: Rules, goal: seq<Block>, now: nat, skipPow: bool)
    requires GoalOk(r, goal, now, skipPow)
    ensures Linked(r.c, HeadersOf(goal))
  {
    hide PathValid;
    forall i | 0 < i < |goal|
      ensures goal[i].header.prev == r.c.Link(goal[i - 1].header)
    {
      ValidPathLinked(r, goal, now, skipPow, i);
    }
  }

  /** An identifier names at most one position of the chain. */
  lemma PositionUnique(r: Rules, goal: seq<Block>, i: nat, j: nat)
    requires r.c.Sound() && Linked(r.c, HeadersOf(goal)) && i < |goal| && j < |goal|
    requires IdOf(r, goal[i]) == IdOf(r, goal[j])
    ensures i == j
  {
    r.c.IdInjective(goal[i].header, goal[j].header);
    LinkedAgree(r.c, HeadersOf(goal), HeadersOf(goal), i, j);
  }

  /** A pooled identifier of the chain holds that block of the chain. */
  lemma PooledBlock(r: Rules, s: State, goal: seq<Block>, j: nat)
    requires r.c.Sound() && Linked(r.c, HeadersOf(goal)) && j < |goal|
    requires IndexOk(r.c, s.index, s.links) && PoolOk(s.index, s.pool) && AllOnGoal(s.pool, goal)
    requires IdOf(r, goal[j]) in s.pool
    ensures s.pool[IdOf(r, goal[j])] == goal[j]
  {
    var id := IdOf(r, goal[j]);
    assert s.pool[id] in goal;
    var m: nat :| m < |goal| && goal[m] == s.pool[id];
    assert r.c.Id(s.index[id]) == id;
    PositionUnique(r, goal, j, m);
  }

  /** The header a link of the chain leads to. */
  lemma LinkLeadsTo(r: Rules, s: State, goal: seq<Block>, j: nat)
    requires r.c.Sound() && IndexOk(r.c, s.index, s.links) && j < |goal|
    requires r.c.Link(goal[j].header) in s.links
    ensures s.links[r.c.Link(goal[j].header)] == IdOf(r, goal[j])
    ensures IdOf(r, goal[j]) in s.index && s.index[IdOf(r, goal[j])] == goal[j].header
  {
    var id := s.links[r.c.Link(goal[j].header)];
    assert r.c.Link(s.index[id]) == r.c.Link(goal[j].header);
  }

  // ---------------------------------------------------------------------------
  // Decisions
  // ---------------------------------------------------------------------------

  /** A block of the chain always passes the first checks. */
  lemma GoalAdmissible(r: Rules, s: State, goal: seq<Block>, j: nat, x: Context)
    requires r.c.Sound() && GoalOk(r, goal, x.now, x.skipPow) && j < |goal|
    requires IndexOk(r.c, s.index, s.links)
    ensures Admissible(r, s, goal[j], x)
  {
    hide PathValid, StatelessOk, IndexOk, BlockWork, ExpectedBits, IsCanonical, CheckPow;
    StepValid(r, goal, j, x.now, x.skipPow);
    if 0 < j {
      ValidPathLinked(r, goal, x.now, x.skipPow, j);
      assert HeadersOf(goal[..j])[j - 1] == goal[j - 1].header;
      if r.c.Link(goal[j - 1].header) in s.links {
        LinkLeadsTo(r, s, goal, j - 1);
      }
    }
  }

  /** A block at or below the tip is already known. */
  lemma JudgeKnown(r: Rules, s: State, goal: seq<Block>, j: nat, x: Context)
    requires Partial(r, s, goal, j) && j <= s.best && IdOf(r, goal[j]) in s.index
    ensures Judge(r, s, IdOf(r, goal[j]), x) == Known
  {
    hide PathTo, IndexOk, PoolOk, WorkOk, ChildrenOk, HeightIndexOk, CheckpointOk;
    assert s.heightMap[j] == IdOf(r, goal[j]);
  }

  /** A block with work sits at or below the tip. */
  lemma WorkBelowTip(r: Rules, s: State, goal: seq<Block>, j: nat)
    requires r.c.Sound() && Linked(r.c, HeadersOf(goal)) && j < |goal|
    requires ActiveIsPrefix(r, s, goal) && OnlyActiveHasWork(s) && IdOf(r, goal[j]) in s.work
    ensures j <= s.best
  {
    var h := s.heights[IdOf(r, goal[j])];
    assert s.heightMap[h] == IdOf(r, goal[h]);
    PositionUnique(r, goal, h, j);
  }

  /** A block further above the tip waits for its parent. */
  lemma JudgeParked(r: Rules, s: State, goal: seq<Block>, j: nat, x: Context)
    requires r.c.Sound() && Linked(r.c, HeadersOf(goal)) && Partial(r, s, goal, j)
    requires s.best + 1 < j < |goal| && IdOf(r, goal[j]) in s.index && s.index[IdOf(r, goal[j])] == goal[j].header
    ensures Judge(r, s, IdOf(r, goal[j]), x) == Parked
  {
    hide PathTo, PoolOk, WorkOk, ChildrenOk, HeightIndexOk, CheckpointOk, ActiveOk, CandidateBlocks, CandidateWork, CandidatePath, Replay;
    var link := r.c.Link(goal[j - 1].header);
    assert HeadersOf(goal)[j].prev == r.c.Link(HeadersOf(goal)[j - 1]);
    assert IdOf(r, goal[j]) !in s.work by {
      if IdOf(r, goal[j]) in s.work { WorkBelowTip(r, s, goal, j); }
    }
    assert link != 0;
    if link in s.links {
      LinkLeadsTo(r, s, goal, j - 1);
      if s.links[link] in s.work {
        WorkBelowTip(r, s, goal, j - 1);
      }
    }
  }

  /** The candidate path of the block right above the tip is the active path plus the block. */
  lemma NextCandidate(r: Rules, s: State, goal: seq<Block>, j: nat)
    requires r.c.Sound() && Linked(r.c, HeadersOf(goal)) && Partial(r, s, goal, j) && j == s.best + 1 < |goal|
    requires IdOf(r, goal[j]) in s.index && s.index[IdOf(r, goal[j])] == goal[j].header
    ensures ParentConnected(s, goal[j].header)
    ensures CandidatePath(r, s, IdOf(r, goal[j])) == ActivePath(s) + [IdOf(r, goal[j])]
    ensures s.tip in s.work && CandidateWork(r, s, IdOf(r, goal[j])) == s.work[s.tip] + BlockWork(r.p, goal[j].header.bits)
  {
    hide PathTo, PoolOk, ChildrenOk, HeightIndexOk, CheckpointOk, BlockWork, WorkSum, CandidateWork, WorkOk, ActiveHeaders;
    var id, link := IdOf(r, goal[j]), r.c.Link(goal[s.best].header);
    assert HeadersOf(goal)[j].prev == r.c.Link(HeadersOf(goal)[j - 1]);
    assert ActivePath(s)[s.best] == s.heightMap[s.best] == IdOf(r, goal[s.best]);
    ActiveMeaning(r, s);
    PathInPool(r, s, ActivePath(s), s.tip);
    assert r.c.Id(s.index[s.tip]) == s.tip;
    r.c.IdInjective(s.index[s.tip], goal[s.best].header);
    assert link in s.links && s.links[link] == s.tip;
    assert goal[j].header.prev != 0;
    LinkedWork(r, s, id);
  }

  lemma LinkedWork(r: Rules, s: State, id: nat)
    requires TablesOk(r, s) && id in s.index && s.index[id].prev != 0 && ParentConnected(s, s.index[id])
    ensures s.links[s.index[id].prev] in s.work
    ensures CandidateWork(r, s, id) == s.work[s.links[s.index[id].prev]] + BlockWork(r.p, s.index[id].bits)
  {
    hide BlockWork, WorkSum, IndexOk, PoolOk, WorkOk, ChildrenOk, HeightIndexOk, CheckpointOk, ActiveOk, PathTo, CandidatePath, PathOf;
    CandidatePathOk(r, s, id);
  }

  /** Its blocks are the chain up to it. */
  lemma NextBlocks(r: Rules, s: State, goal: seq<Block>, j: nat)
    requires r.c.Sound() && Linked(r.c, HeadersOf(goal)) && Partial(r, s, goal, j) && j == s.best + 1 < |goal|
    requires IdOf(r, goal[j]) in s.index && s.index[IdOf(r, goal[j])] == goal[j].header
    ensures ParentConnected(s, goal[j].header)
    ensures CandidateBlocks(r, s, IdOf(r, goal[j])) == goal[..j + 1]
  {
    hide PathTo, PoolOk, ChildrenOk, HeightIndexOk, CheckpointOk, BlockWork, WorkSum, CandidateWork, CandidatePath, WorkOk, ActiveOk, IndexOk;
    var id := IdOf(r, goal[j]);
    NextCandidate(r, s, goal, j);
    CandidateMeaning(r, s, id);
    var path, blocks := CandidatePath(r, s, id), CandidateBlocks(r, s, id);
    ActivePathLength(r, s);
    forall i | 0 <= i < |path|
      ensures blocks[i] == goal[i]
    {
      assert path[i] == IdOf(r, goal[i]);
      PooledBlock(r, s, goal, i);
    }
  }

  lemma ActivePathLength(r: Rules, s: State)
    requires TablesOk(r, s)
    ensures forall h: nat :: h in s.heightMap <==> h <= s.best
    ensures |ActivePath(s)| == s.best + 1
    ensures forall h :: 0 <= h <= s.best ==> h in s.heightMap && ActivePath(s)[h] == s.heightMap[h]
  {
  }

  /** The block right above the tip becomes the tip. */
  lemma JudgeSwitch(r: Rules, s: State, goal: seq<Block>, j: nat, x: Context)
    requires r.c.Sound() && GoalOk(r, goal, x.now, x.skipPow) && Partial(r, s, goal, j) && j == s.best + 1 < |goal|
    requires IdOf(r, goal[j]) in s.index && s.index[IdOf(r, goal[j])] == goal[j].header
    ensures Judge(r, s, IdOf(r, goal[j]), x) == Switch
  {
    hide PathTo, PoolOk, ChildrenOk, HeightIndexOk, BlockWork, WorkSum, CandidateWork, CandidatePath, CandidateBlocks, WorkOk,
         ActiveOk, IndexOk, Replay, StatelessOk, CommonPrefix;
    var id := IdOf(r, goal[j]);
    GoalLinked(r, goal, x.now, x.skipPow);
    NextCandidate(r, s, goal, j);
    NextBlocks(r, s, goal, j);
    PrefixValid(r, goal, j + 1, x.now, x.skipPow);
    assert id !in s.work by {
      if id in s.work { WorkBelowTip(r, s, goal, j); }
    }
    ActivePathLength(r, s);
    var active := ActivePath(s);
    assert (active + [id])[..|active|] == active[..|active|];
    CommonPrefixMeaning(active, active + [id], |active|);
  }

  // ---------------------------------------------------------------------------
  // What the steps do to a partial chain
  // ---------------------------------------------------------------------------

  lemma TablesIndexPool(r: Rules, s: State)
    requires TablesOk(r, s)
    ensures IndexOk(r.c, s.index, s.links) && PoolOk(s.index, s.pool) && ChildrenOk(s.index, s.children)
  {
  }

  lemma CachedPartial(r: Rules, s: State, goal: seq<Block>, j: nat)
    requires r.c.Sound() && Linked(r.c, HeadersOf(goal)) && Partial(r, s, goal, 0) && j < |goal|
    ensures Partial(r, Cache(r.c, s, goal[j]), goal, j)
  {
    hide TablesOk, Linked, ActiveIsPrefix, OnlyActiveHasWork, AllOnGoal;
    CacheTables(r, s, goal[j]);
    CachedOnGoal(r.c, s, goal, j);
    var t, id := Cache(r.c, s, goal[j]), IdOf(r, goal[j]);
    SamePrefix(r, s, t, goal);
    forall i: nat | t.best < i < |goal| && i != j && IdOf(r, goal[i]) in t.pool
      ensures Waiting(r, t, goal, i)
    {
      if IdOf(r, goal[i]) == id {
        PositionUnique(r, goal, i, j);
      }
      assert Waiting(r, s, goal, i);
    }
  }

  lemma CachedOnGoal(c: Crypto, s: State, goal: seq<Block>, j: nat)
    requires AllOnGoal(s.pool, goal) && j < |goal|
    ensures AllOnGoal(Cache(c, s, goal[j]).pool, goal)
  {
  }

  lemma SamePrefix(r: Rules, s: State, t: State, goal: seq<Block>)
    requires t == s.(index := t.index, pool := t.pool, links := t.links)
    ensures ActiveIsPrefix(r, s, goal) ==> ActiveIsPrefix(r, t, goal)
    ensures OnlyActiveHasWork(s) ==> OnlyActiveHasWork(t)
  {
  }

  /** A known block needs no waiting place. */
  lemma KnownPartial(r: Rules, s: State, goal: seq<Block>, j: nat)
    requires Partial(r, s, goal, j) && j <= s.best
    ensures Partial(r, s, goal, 0)
  {
    hide TablesOk;
  }

  lemma ParkedPartial(r: Rules, s: State, goal: seq<Block>, j: nat)
    requires Linked(r.c, HeadersOf(goal)) && Partial(r, s, goal, j) && s.best < j < |goal|
    requires IdOf(r, goal[j]) in s.index && s.index[IdOf(r, goal[j])] == goal[j].header
    ensures Partial(r, Park(s, goal[j].header.prev, IdOf(r, goal[j])), goal, 0)
  {
    hide TablesOk;
    assert HeadersOf(goal)[j].prev == r.c.Link(HeadersOf(goal)[j - 1]);
    ParkTables(r, s, goal[j].header.prev, IdOf(r, goal[j]));
    var t := Park(s, goal[j].header.prev, IdOf(r, goal[j]));
    forall i: nat | t.best < i < |goal| && i != 0 && IdOf(r, goal[i]) in t.pool
      ensures Waiting(r, t, goal, i)
    {
      assert i != j ==> Waiting(r, s, goal, i);
    }
  }

  /** Heights and work of a switched table cover exactly its active path. */
  lemma SwitchedWork(r: Rules, s: State, t: State, path: seq<nat>, tip: nat, bits: Bits)
    requires PathTo(s.index, s.links, path, tip) && SwitchedTo(r, s, t, path, bits)
    ensures OnlyActiveHasWork(t)
    ensures t.best == |path| - 1 && forall h: nat :: h < |path| ==> h in t.heightMap && t.heightMap[h] == path[h]
  {
    hide PathTo, PositionMap, WorkMap, Distinct, HeightMapOf, PathOfMap;
    PathDistinct(s.index, s.links, path, tip);
    PositionMapMeaning(path, |path|);
    SameKeys(r.p, path, HeadersAt(s.index, path), |path|);
    HeightMapMeaning(path);
  }

  lemma SwitchedPartial(r: Rules, s: State, t: State, goal: seq<Block>, j: nat)
    requires r.c.Sound() && Linked(r.c, HeadersOf(goal)) && Partial(r, s, goal, j) && j == s.best + 1 < |goal|
    requires IdOf(r, goal[j]) in s.index && s.index[IdOf(r, goal[j])] == goal[j].header
    requires TablesOk(r, t) && ParentConnected(s, goal[j].header)
    requires SwitchedTo(r, s, t, CandidatePath(r, s, IdOf(r, goal[j])), goal[j].header.bits)
    ensures Partial(r, t, goal, 0) && t.best == j && t.children == s.children && t.pool == s.pool && t.index == s.index
  {
    hide TablesOk, CandidatePath, PathTo, Linked, OnlyActiveHasWork, ActivePath, SwitchedTo, ActiveIsPrefix, AllOnGoal, Waiting, ParentConnected,
         IdOf;
    var id := IdOf(r, goal[j]);
    var path := CandidatePath(r, s, id);
    NextCandidate(r, s, goal, j);
    CandidateMeaning(r, s, id);
    SwitchedWork(r, s, t, path, id, goal[j].header.bits);
    SwitchedRest(r, s, t, path, goal[j].header.bits);
    SwitchedPrefix(r, s, t, goal, j, path);
    forall i: nat | t.best < i < |goal| && i != 0 && IdOf(r, goal[i]) in t.pool
      ensures Waiting(r, t, goal, i)
    {
      assert Waiting(r, s, goal, i);
      SameWaiting(r, s, t, goal, i);
    }
  }

  lemma SwitchedRest(r: Rules, s: State, t: State, path: seq<nat>, bits: Bits)
    requires SwitchedTo(r, s, t, path, bits)
    ensures t.children == s.children && t.pool == s.pool && t.index == s.index
  {
    hide PositionMap, WorkMap, HeightMapOf, Refreshed;
  }

  lemma SameWaiting(r: Rules, s: State, t: State, goal: seq<Block>, i: nat)
    requires 0 < i < |goal| && t.children == s.children && Waiting(r, s, goal, i)
    ensures Waiting(r, t, goal, i)
  {
  }

  lemma SwitchedPrefix(r: Rules, s: State, t: State, goal: seq<Block>, j: nat, path: seq<nat>)
    requires TablesOk(r, s) && ActiveIsPrefix(r, s, goal) && j == s.best + 1 < |goal|
    requires path == ActivePath(s) + [IdOf(r, goal[j])] && t.best == |path| - 1
    requires forall h: nat :: h < |path| ==> h in t.heightMap && t.heightMap[h] == path[h]
    ensures ActiveIsPrefix(r, t, goal) && t.best == j
  {
    hide TablesOk, ActivePath, IdOf;
    ActivePathLength(r, s);
    forall h: nat | h <= t.best
      ensures h in t.heightMap && t.heightMap[h] == IdOf(r, goal[h])
    {
      assert t.heightMap[h] == path[h];
    }
  }

  // ---------------------------------------------------------------------------
  // Waiting blocks
  // ---------------------------------------------------------------------------

  /** A pooled block that names block j as its parent is block j + 1. */
  lemma KidIsNext(r: Rules, s: State, goal: seq<Block>, j: nat, kid: nat)
    requires r.c.Sound() && Linked(r.c, HeadersOf(goal)) && AllOnGoal(s.pool, goal) && j < |goal|
    requires kid in s.pool && s.pool[kid].header.prev == r.c.Link(goal[j].header)
    ensures j + 1 < |goal| && s.pool[kid] == goal[j + 1]
  {
    assert s.pool[kid] in goal;
    assert HeadersOf(goal)[0].prev == 0;
    assert r.c.Link(goal[j].header) != 0;
    var m: nat :| m < |goal| && goal[m] == s.pool[kid];
    assert m > 0;
    assert HeadersOf(goal)[m].prev == r.c.Link(HeadersOf(goal)[m - 1]);
    assert r.c.Link(goal[m - 1].header) == r.c.Link(goal[j].header);
    assert goal[m - 1].header == goal[j].header;
    LinkedAgree(r.c, HeadersOf(goal), HeadersOf(goal), m - 1, j);
  }

  /** When nothing is listed under the tip's link, the block above the tip is not in the pool. */
  lemma NothingWaits(r: Rules, s: State, goal: seq<Block>)
    requires Partial(r, s, goal, 0) && s.best < |goal|
    requires r.c.Link(goal[s.best].header) in s.children ==> s.children[r.c.Link(goal[s.best].header)] == []
    ensures Saturated(r, s, goal)
  {
    hide Partial, IdOf;
    if s.best + 1 < |goal| && IdOf(r, goal[s.best + 1]) in s.pool {
      WaitsUnderParent(r, s, goal, s.best + 1);
    }
  }

  lemma WaitsUnderParent(r: Rules, s: State, goal: seq<Block>, j: nat)
    requires Partial(r, s, goal, 0) && s.best < j < |goal| && IdOf(r, goal[j]) in s.pool
    ensures r.c.Link(goal[j - 1].header) in s.children && s.children[r.c.Link(goal[j - 1].header)] != []
  {
    hide TablesOk, IdOf;
    assert Waiting(r, s, goal, j);
  }

  /** Once every block of the chain is in the pool and nothing is left out above the tip, the active path
      is the whole chain. */
  lemma SaturatedIsComplete(r: Rules, s: State, goal: seq<Block>)
    requires Partial(r, s, goal, 0) && Saturated(r, s, goal)
    requires forall j :: 0 <= j < |goal| ==> IdOf(r, goal[j]) in s.pool
    ensures s.best == |goal| - 1
    ensures forall h: nat :: h < |goal| ==> h in s.heightMap && s.heightMap[h] == IdOf(r, goal[h])
  {
    hide TablesOk;
  }

  /** Delivering block j to a partial chain: below the tip nothing happens, right above it the tip moves
      to it, further above it is parked; either way the chain stays partial. */
  lemma DeliveryStep(r: Rules, s: State, t: State, goal: seq<Block>, j: nat, x: Context, verdict: Verdict, stored: bool)
    requires r.c.Sound() && GoalOk(r, goal, x.now, x.skipPow) && Partial(r, s, goal, 0) && j < |goal|
    requires var t0, id := Cache(r.c, s, goal[j]), IdOf(r, goal[j]);
             && TablesOk(r, t0) && id in t0.index && t0.index[id] == goal[j].header
             && verdict == Judge(r, t0, id, x) && Effect(r, t0, t, id, verdict, stored)
    requires TablesOk(r, t) && stored
    ensures Partial(r, t, goal, 0)
    ensures t.pool.Keys == s.pool.Keys + {IdOf(r, goal[j])}
    ensures t.best == if j == s.best + 1 then j else s.best
    ensures verdict == if j <= s.best then Known else if j == s.best + 1 then Switch else Parked
  {
    hide TablesOk, Judge, GoalOk, Linked, Partial, CandidatePath, CandidateWork, SwitchedTo, Park;
    var t0, id := Cache(r.c, s, goal[j]), IdOf(r, goal[j]);
    GoalLinked(r, goal, x.now, x.skipPow);
    CachedPartial(r, s, goal, j);
    CachedPool(r, s, goal[j]);
    if j <= s.best {
      JudgeKnown(r, t0, goal, j, x);
      KnownPartial(r, t0, goal, j);
    } else if j == s.best + 1 {
      JudgeSwitch(r, t0, goal, j, x);
      SwitchedPartial(r, t0, t, goal, j);
    } else {
      JudgeParked(r, t0, goal, j, x);
      ParkedPartial(r, t0, goal, j);
      ParkKeepsPool(t0, goal[j].header.prev, id);
    }
  }

  lemma CachedPool(r: Rules, s: State, blk: Block)
    ensures Cache(r.c, s, blk).pool.Keys == s.pool.Keys + {IdOf(r, blk)} && Cache(r.c, s, blk).best == s.best
  {
  }

  lemma ParkKeepsPool(s: State, link: nat, id: nat)
    ensures Park(s, link, id).pool == s.pool && Park(s, link, id).best == s.best
  {
  }

  // ---------------------------------------------------------------------------
  // A call during the delivery
  // ---------------------------------------------------------------------------

  /** Block j of the chain `goal` is being delivered; an empty goal means that nothing is claimed. */
  ghost predicate Underway(r: Rules, s: State, goal: seq<Block>, j: nat, x: Context) {
    goal != [] ==> j < |goal| && GoalOk(r, goal, x.now, x.skipPow) && Partial(r, s, goal, 0)
  }

  /** What delivering block j achieves: the block is known, and if it was the missing one the tip moves on
      past every block that waited behind it. */
  ghost predicate Delivered(r: Rules, s: State, t: State, goal: seq<Block>, j: nat) {
    goal != [] ==>
      && j < |goal|
      && t.pool.Keys == s.pool.Keys + {IdOf(r, goal[j])}
      && if j == s.best + 1 then j <= t.best && Saturated(r, t, goal) else t.best == s.best
  }

  /** The tip has reached block j, and the blocks listed as its children are about to be tried. */
  ghost predicate AtKids(r: Rules, s: State, goal: seq<Block>, j: nat, x: Context, parent: Header, kids: seq<nat>) {
    && Underway(r, s, goal, j, x)
    && (goal != [] ==>
          && goal[j].header == parent && j <= s.best
          && (forall i :: 0 <= i < |kids| ==> kids[i] in s.pool)
          && (s.best == j || Saturated(r, s, goal))
          && (kids == [] ==> Saturated(r, s, goal)))
  }

  /** The verdict on block j and the state right after it. */
  lemma DeliveryVerdict(r: Rules, s: State, t: State, goal: seq<Block>, j: nat, x: Context, blk: Block, verdict: Verdict, stored: bool)
    requires r.c.Sound() && Underway(r, s, goal, j, x) && (goal != [] ==> blk == goal[j] && stored)
    requires TablesOk(r, t) && TablesOk(r, s)
    requires verdict.Refused? <==> !Admissible(r, s, blk, x)
    requires !verdict.Refused? ==> Considered(r, s, t, blk, x, verdict, stored)
    ensures Underway(r, t, goal, j, x) && (goal != [] ==> j < |goal|)
    ensures goal != [] ==> verdict.Known? || verdict.Parked? || verdict.Switch?
    ensures verdict.Known? || verdict.Parked? ==> Delivered(r, s, t, goal, j)
    ensures goal != [] && verdict.Switch? ==> j == s.best + 1 && t.best == j && t.pool.Keys == s.pool.Keys + {IdOf(r, goal[j])}
  {
    hide TablesOk, GoalOk, Partial, Judge, Effect, Admissible;
    if goal != [] {
      assert IndexOk(r.c, s.index, s.links) by { TablesIndexPool(r, s); }
      GoalAdmissible(r, s, goal, j, x);
      DeliveryStep(r, s, t, goal, j, x, verdict, stored);
    }
  }

  /** After the switch to block j its children are tried, or nothing waits. */
  lemma DeliveryReachesKids(r: Rules, t: State, goal: seq<Block>, j: nat, x: Context, parent: Header)
    requires Underway(r, t, goal, j, x) && TablesOk(r, t)
    requires goal != [] ==> j < |goal| && t.best == j && goal[j].header == parent
    ensures var link := r.c.Link(parent);
            if link in t.children then AtKids(r, t, goal, j, x, parent, t.children[link])
            else goal != [] ==> Saturated(r, t, goal)
  {
    hide TablesOk, GoalOk, Partial, Saturated;
    var link := r.c.Link(parent);
    ChildrenPooled(r, t, link);
    if goal != [] && (link !in t.children || t.children[link] == []) {
      NothingWaits(r, t, goal);
    }
  }

  lemma ChildrenPooled(r: Rules, s: State, link: nat)
    requires TablesOk(r, s)
    ensures link in s.children ==> forall i :: 0 <= i < |s.children[link]| ==>
              var kid := s.children[link][i];
              kid in s.pool && kid in s.index && s.index[kid].prev == link && r.c.Id(s.index[kid]) == kid
  {
    hide WorkOk, ActiveOk, CheckpointOk, HeightIndexOk;
  }

  /** A listed child that is in the pool is block j + 1. */
  lemma KidUnderway(r: Rules, s: State, goal: seq<Block>, j: nat, x: Context, parent: Header, kids: seq<nat>, kid: nat)
    requires r.c.Sound() && AtKids(r, s, goal, j, x, parent, kids)
    requires kid in s.pool && s.pool[kid].header.prev == r.c.Link(parent)
    ensures Underway(r, s, goal, j + 1, x) && (goal != [] ==> j + 1 < |goal| && s.pool[kid] == goal[j + 1])
  {
    hide TablesOk, GoalOk, Saturated, Linked;
    if goal != [] {
      GoalLinked(r, goal, x.now, x.skipPow);
      KidIsNext(r, s, goal, j, kid);
    }
  }

  /** After one child has been tried the tip is past everything that waited. */
  lemma KidDelivered(r: Rules, s: State, t: State, goal: seq<Block>, j: nat, x: Context, parent: Header, kids: seq<nat>, kid: nat)
    requires AtKids(r, s, goal, j, x, parent, kids) && (goal != [] ==> kid in s.pool)
    requires goal != [] ==> j + 1 < |goal| && IdOf(r, goal[j + 1]) == kid
    requires Underway(r, t, goal, j + 1, x) && Delivered(r, s, t, goal, j + 1)
    ensures AtKids(r, t, goal, j, x, parent, kids)
    ensures goal != [] ==> Saturated(r, t, goal) && t.pool.Keys == s.pool.Keys && s.best <= t.best
  {
    hide TablesOk, GoalOk, Partial;
    if goal != [] {
      assert t.pool.Keys == s.pool.Keys;
    }
  }

  lemma EmptyGoal(r: Rules, s: State, t: State, goal: seq<Block>, j: nat)
    ensures goal == [] ==> Delivered(r, s, t, goal, j)
  {
  }

  /** The tip moved to block j and nothing that waited behind it is left. */
  lemma DeliveryEnds(r: Rules, s: State, t: State, u: State, goal: seq<Block>, j: nat)
    requires goal != [] ==> j < |goal| && j == s.best + 1 && t.best == j && t.pool.Keys == s.pool.Keys + {IdOf(r, goal[j])}
    requires goal != [] ==> Saturated(r, u, goal) && t.best <= u.best && u.pool.Keys == t.pool.Keys
    ensures Delivered(r, s, u, goal, j)
  {
  }

  lemma KidsAtStart(r: Rules, s: State, goal: seq<Block>, j: nat, x: Context, parent: Header, kids: seq<nat>)
    requires AtKids(r, s, goal, j, x, parent, kids)
    ensures Underway(r, s, goal, j, x)
    ensures goal != [] ==> (forall i :: 0 <= i < |kids| ==> kids[i] in s.pool) && (kids == [] ==> Saturated(r, s, goal))
  {
  }

  lemma KidIndex(r: Rules, s: State, goal: seq<Block>, j: nat, x: Context, kid: nat)
    requires Underway(r, s, goal, j + 1, x) && kid in s.pool && (goal != [] ==> j + 1 < |goal| && s.pool[kid] == goal[j + 1])
    requires r.c.Id(s.pool[kid].header) == kid
    ensures goal != [] ==> j + 1 < |goal| && IdOf(r, goal[j + 1]) == kid
  {
  }
}
