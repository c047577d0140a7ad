/** What each verdict means for the tables, and what a whole call of block acceptance may change. */
module Effects {
  import opened Arith
  import opened CompactTarget
  import opened Primitives
  import opened Utxo
  import opened PathValidation
  import opened ChainState
  import opened ChainSteps
  import opened ForkChoice
  import opened Paths
  import opened Removal

  /** Everything known about the blocks of a candidate path. */
  lemma CandidateMeaning(r: Rules, s: State, id: nat)
    requires TablesOk(r, s) && id in s.index && ParentConnected(s, s.index[id])
    ensures var path, blocks := CandidatePath(r, s, id), CandidateBlocks(r, s, id);
            && PathTo(s.index, s.links, path, id)
            && path != [] && path[|path| - 1] == id && |blocks| == |path|
            && (forall i :: 0 <= i < |path| ==> path[i] in s.index && path[i] in s.pool && blocks[i] == s.pool[path[i]])
            && blocks[|path| - 1].header.bits == s.index[id].bits
  {
    hide WorkSum, BlockWork, CandidatePath, WorkOk, IndexOk, ChildrenOk, HeightIndexOk, ActiveOk, CheckpointOk;
    CandidatePathOk(r, s, id);
  }

  /** The tables after a switch. */
  ghost predicate SwitchedTo(r: Rules, s: State, t: State, path: seq<nat>, bits: Bits) {
    && path != []
    && (forall i :: 0 <= i < |path| ==> path[i] in s.index)
    && t == Activate(r.p, s, path, HeadersAt(s.index, path), bits, t.utxo)
  }

  /** What a verdict means for the tables. */
  ghost predicate Effect(r: Rules, s: State, t: State, id: nat, verdict: Verdict, stored: bool)
    requires TablesOk(r, s) && id in s.index
  {
    match verdict
    case Refused | Known | Mismatch | TooDeep => t == s
    case Parked => t == Park(s, s.index[id].prev, id)
    case Invalid =>
      && SameChain(s, t) && id !in t.index && t.index.Keys <= s.index.Keys && t.pool.Keys <= s.pool.Keys
      && Purged(r.c, s, t, id)
    case Side =>
      ParentConnected(s, s.index[id]) && t == RecordSide(s, id, CandidateHeight(s, id), CandidateWork(r, s, id))
    case Switch =>
      && ParentConnected(s, s.index[id])
      && if stored then SwitchedTo(r, s, t, CandidatePath(r, s, id), s.index[id].bits) else t == s
  }

  /** The verdict on a block that passed the first checks, and its effect, as functions of the tables
      before the call. */
  ghost predicate Considered(r: Rules, s: State, t: State, blk: Block, x: Context, verdict: Verdict, stored: bool) {
    var t0, id := Cache(r.c, s, blk), r.c.Id(blk.header);
    && TablesOk(r, t0) && id in t0.index && t0.index[id] == blk.header
    && verdict == Judge(r, t0, id, x) && Effect(r, t0, t, id, verdict, stored)
  }

  // ---------------------------------------------------------------------------
  // Calls
  // ---------------------------------------------------------------------------

  ghost predicate SameActive(s: State, t: State) {
    t.best == s.best && t.tip == s.tip && t.tipBits == s.tipBits && t.heightMap == s.heightMap && t.utxo == s.utxo
    && t.checkpoint == s.checkpoint
  }

  /** The blocks up to the checkpoint are still active. */
  ghost predicate KeepsGuarded(s: State, t: State) {
    s.checkpoint.Some? ==>
      forall h: nat :: h <= s.checkpoint.value.height && h in s.heightMap ==> h in t.heightMap && t.heightMap[h] == s.heightMap[h]
  }

  /** What a call may do to the active chain: switches are only added, the chain changes only by
      switching, and a pinned checkpoint stays with everything below it. */
  ghost predicate Progress(s: State, sw: seq<SwitchRecord>, t: State, sw': seq<SwitchRecord>) {
    && sw <= sw'
    && t.pinned == s.pinned
    && (sw' == sw ==> SameActive(s, t))
    && (s.pinned ==> t.checkpoint == s.checkpoint && KeepsGuarded(s, t))
  }

  lemma ProgressTransitive(s: State, sw: seq<SwitchRecord>, t: State, sw': seq<SwitchRecord>, u: State, sw'': seq<SwitchRecord>)
    requires Progress(s, sw, t, sw') && Progress(t, sw', u, sw'')
    ensures Progress(s, sw, u, sw'')
  {
  }

  lemma ProgressAdds(s: State, sw: seq<SwitchRecord>, t: State, sw': seq<SwitchRecord>)
    requires Progress(s, sw, t, sw')
    ensures sw <= sw'
  {
  }

  lemma SwitchKeepsGuarded(r: Rules, s: State, t: State, id: nat)
    requires TablesOk(r, s) && id in s.index && ParentConnected(s, s.index[id])
    requires SwitchedTo(r, s, t, CandidatePath(r, s, id), s.index[id].bits) && Matches(s, CandidatePath(r, s, id))
    ensures KeepsGuarded(s, t)
  {
    hide PathTo, WorkSum, BlockWork, CandidatePath, WorkMap, PositionMap, IndexOk, WorkOk, PoolOk, ChildrenOk, HeightIndexOk;
    var path := CandidatePath(r, s, id);
    CandidateMeaning(r, s, id);
    MatchKeepsPrefix(r, s, path, id);
    var k := s.checkpoint.value.height + 1;
    forall h: nat | h < k && h in s.heightMap
      ensures h in t.heightMap && t.heightMap[h] == s.heightMap[h]
    {
      assert path[h] == path[..k][h] == ActivePath(s)[..k][h];
    }
  }

  lemma MatchingVerdict(r: Rules, s: State, id: nat, x: Context)
    requires TablesOk(r, s) && id in s.index && Judge(r, s, id, x) == Switch
    ensures ParentConnected(s, s.index[id]) && Matches(s, CandidatePath(r, s, id))
  {
    hide CandidatePath, CandidateBlocks, CandidateWork, Replay, TablesOk, ReorgDepth, Matches;
  }

  /** Every verdict is a legal change of the active chain. */
  lemma EffectProgress(r: Rules, s: State, t: State, id: nat, x: Context, verdict: Verdict, stored: bool,
                       sw: seq<SwitchRecord>, sw': seq<SwitchRecord>)
    requires TablesOk(r, s) && id in s.index && verdict == Judge(r, s, id, x) && Effect(r, s, t, id, verdict, stored)
    requires sw <= sw' && (verdict.Switch? && stored ==> |sw'| == |sw| + 1)
    ensures Progress(s, sw, t, sw')
  {
    hide TablesOk, CandidatePath, CandidateWork, Judge, KeepsGuarded, PositionMap, WorkMap, HeightMapOf, Purged;
    SameMeansGuarded(s, t);
    if verdict.Switch? && stored {
      MatchingVerdict(r, s, id, x);
      SwitchKeepsGuarded(r, s, t, id);
    }
  }

  lemma SameMeansGuarded(s: State, t: State)
    ensures t.heightMap == s.heightMap ==> KeepsGuarded(s, t)
  {
  }

  /** The verdict as a function of the tables before the call. */
  ghost predicate Answered(r: Rules, s: State, blk: Block, x: Context, verdict: Verdict) {
    && TablesOk(r, s)
    && if !Admissible(r, s, blk, x) then verdict == Refused
       else
         var t0, id := Cache(r.c, s, blk), r.c.Id(blk.header);
         TablesOk(r, t0) && id in t0.index && t0.index[id] == blk.header && verdict == Judge(r, t0, id, x)
  }

  lemma AnsweredBy(r: Rules, s: State, t: State, blk: Block, x: Context, verdict: Verdict, stored: bool)
    requires TablesOk(r, s)
    requires verdict.Refused? <==> !Admissible(r, s, blk, x)
    requires !verdict.Refused? ==> Considered(r, s, t, blk, x, verdict, stored)
    ensures Answered(r, s, blk, x, verdict)
  {
    hide TablesOk, Judge, Effect, Admissible, Cache;
  }

  // ---------------------------------------------------------------------------
  // Whole calls
  // ---------------------------------------------------------------------------

  /** The decision about one block and all it does to the tables, children apart. */
  ghost predicate Decided(r: Rules, s: State, t: State, blk: Block, x: Context, verdict: Verdict, stored: bool) {
    if !Admissible(r, s, blk, x) then verdict == Refused && t == s else Considered(r, s, t, blk, x, verdict, stored)
  }

  /** A block that is already in the pool is decided about again. */
  ghost predicate Redecided(r: Rules, x: Context, s: State, t: State) {
    exists id :: RedecidedFor(r, x, s, t, id)
  }

  ghost predicate RedecidedFor(r: Rules, x: Context, s: State, t: State, id: nat) {
    exists verdict, stored :: DecidedAgain(r, x, s, t, id, verdict, stored)
  }

  ghost predicate DecidedAgain(r: Rules, x: Context, s: State, t: State, id: nat, verdict: Verdict, stored: bool) {
    id in s.pool && Decided(r, s, t, s.pool[id], x, verdict, stored)
  }

  /** A trail of tables that ends in `t`, each the one before after one more decision about a pooled block. */
  ghost predicate Redecisions(r: Rules, x: Context, trail: seq<State>, t: State) {
    && trail != [] && trail[|trail| - 1] == t
    && forall i :: 0 < i < |trail| ==> Redecided(r, x, trail[i - 1], trail[i])
  }

  lemma NoRedecision(r: Rules, x: Context, s: State)
    ensures Redecisions(r, x, [s], s)
  {
  }

  lemma RedecisionsJoin(r: Rules, x: Context, a: seq<State>, b: seq<State>, t: State)
    requires a != [] && b != [] && Redecisions(r, x, a, b[0]) && Redecisions(r, x, b, t)
    ensures Redecisions(r, x, a + b[1..], t) && (a + b[1..])[0] == a[0]
  {
    hide Redecided;
    var all := a + b[1..];
    forall i | 0 < i < |all|
      ensures Redecided(r, x, all[i - 1], all[i])
    {
      if |a| <= i {
        assert all[i] == b[i - |a| + 1] && all[i - 1] == b[i - |a|];
      }
    }
  }

  /** Somewhere on the trail the block is decided about again, or it is found to have left the pool. */
  ghost predicate TurnTaken(r: Rules, x: Context, trail: seq<State>, id: nat) {
    exists i :: 0 <= i < |trail| && TurnAt(r, x, trail, id, i)
  }

  ghost predicate TurnAt(r: Rules, x: Context, trail: seq<State>, id: nat, i: nat)
    requires i < |trail|
  {
    id !in trail[i].pool || (i + 1 < |trail| && RedecidedFor(r, x, trail[i], trail[i + 1], id))
  }

  /** Every block that waits under the link when the trail starts gets its turn on it. */
  ghost predicate TurnsTaken(r: Rules, x: Context, trail: seq<State>, link: nat) {
    trail != [] && (link in trail[0].children ==> forall id :: id in trail[0].children[link] ==> TurnTaken(r, x, trail, id))
  }

  lemma TurnsJoin(r: Rules, x: Context, a: seq<State>, b: seq<State>, id: nat)
    requires a != [] && b != [] && a[|a| - 1] == b[0]
    ensures TurnTaken(r, x, a, id) || TurnTaken(r, x, b, id) ==> TurnTaken(r, x, a + b[1..], id)
  {
    hide RedecidedFor;
    var all := a + b[1..];
    assert forall i :: 0 <= i < |b| ==> all[|a| - 1 + i] == b[i];
    if i :| 0 <= i < |a| && TurnAt(r, x, a, id, i) {
      assert all[i] == a[i] && (i + 1 < |a| ==> all[i + 1] == a[i + 1]);
      assert TurnAt(r, x, all, id, i);
    } else if i :| 0 <= i < |b| && TurnAt(r, x, b, id, i) {
      assert TurnAt(r, x, all, id, |a| - 1 + i);
    }
  }

  lemma TurnsJoinAll(r: Rules, x: Context, a: seq<State>, b: seq<State>, ids: seq<nat>, n: nat)
    requires b != [] && Redecisions(r, x, a, b[0]) && n < |ids|
    requires forall k :: 0 <= k < n ==> TurnTaken(r, x, a, ids[k])
    requires TurnTaken(r, x, b, ids[n])
    ensures forall k :: 0 <= k <= n ==> TurnTaken(r, x, a + b[1..], ids[k])
  {
    hide TurnTaken, Redecided;
    forall k | 0 <= k <= n
      ensures TurnTaken(r, x, a + b[1..], ids[k])
    {
      TurnsJoin(r, x, a, b, ids[k]);
    }
  }

  lemma TurnsComplete(r: Rules, x: Context, trail: seq<State>, link: nat, ids: seq<nat>)
    requires trail != [] && (link in trail[0].children ==> trail[0].children[link] == ids)
    requires forall k :: 0 <= k < |ids| ==> TurnTaken(r, x, trail, ids[k])
    ensures TurnsTaken(r, x, trail, link)
  {
    hide TurnTaken;
  }

  lemma TurnGone(r: Rules, x: Context, trail: seq<State>, t: State, id: nat)
    requires Redecisions(r, x, trail, t) && id !in t.pool
    ensures TurnTaken(r, x, trail, id)
  {
    hide Redecided;
    assert TurnAt(r, x, trail, id, |trail| - 1);
  }

  lemma RedecisionsStart(r: Rules, x: Context, s: State, id: nat, verdict: Verdict, stored: bool, more: seq<State>, t: State)
    requires id in s.pool && Redecisions(r, x, more, t) && Decided(r, s, more[0], s.pool[id], x, verdict, stored)
    ensures Redecisions(r, x, [s] + more, t) && TurnTaken(r, x, [s] + more, id)
  {
    hide Decided;
    assert DecidedAgain(r, x, s, more[0], id, verdict, stored);
    assert RedecidedFor(r, x, s, more[0], id);
    assert Redecided(r, x, s, more[0]);
    assert ([s] + more)[0] == s && ([s] + more)[1..] == more;
    assert TurnAt(r, x, [s] + more, id, 0);
  }

  lemma TrailNotEmpty(r: Rules, x: Context, trail: seq<State>, t: State)
    requires Redecisions(r, x, trail, t)
    ensures trail != []
  {
    hide Redecided;
  }

  // ---------------------------------------------------------------------------
  // Trails
  // ---------------------------------------------------------------------------

  /** The header chain from the first block down to a block with work. */
  ghost function TrailOf(r: Rules, s: State, id: nat): (hs: seq<Header>)
    requires TablesOk(r, s) && id in s.work
    ensures Linked(r.c, hs) && |hs| <= |s.index.Keys|
    ensures id in s.index && hs[|hs| - 1] == s.index[id]
  {
    WorkMeaning(r.p, s.index, s.links, s.work, s.heights, id);
    var path := PathOf(r.p, s.index, s.links, s.work, s.heights, id);
    PathHeadersLinked(r.c, s.index, s.links, path, id);
    PathToLength(s.index, s.links, path, id);
    HeadersAt(s.index, path)
  }

  lemma {:induction false} SubsetSize(a: set<nat>, b: set<nat>)
    requires a <= b
    ensures |a| <= |b|
  {
    if a != {} {
      var x :| x in a;
      SubsetSize(a - {x}, b - {x});
    }
  }

  /** The trail of a block is one header longer than the trail of its parent. */
  lemma TrailGrows(r: Rules, s: State, h: Header, trail: seq<Header>, universe: set<nat>)
    requires r.c.Sound() && TablesOk(r, s) && s.index.Keys <= universe
    requires r.c.Id(h) in s.work && r.c.Id(h) in s.index && s.index[r.c.Id(h)] == h
    requires trail != [] ==> Linked(r.c, trail) && h.prev == r.c.Link(trail[|trail| - 1])
    ensures |trail| < |TrailOf(r, s, r.c.Id(h))| <= |universe|
  {
    hide TablesOk, TrailOf;
    var longer := TrailOf(r, s, r.c.Id(h));
    SubsetSize(s.index.Keys, universe);
    if trail != [] {
      var both := trail + [h];
      assert Linked(r.c, both);
      LinkedAgree(r.c, both, longer, |both| - 1, |longer| - 1);
    }
  }

  /** A block that joined as a side block or became the tip has work. */
  lemma ConsideredHasWork(r: Rules, s: State, t: State, blk: Block, x: Context, verdict: Verdict, stored: bool)
    requires Considered(r, s, t, blk, x, verdict, stored) && TablesOk(r, t)
    requires verdict.Side? || (verdict.Switch? && stored)
    ensures r.c.Id(blk.header) in t.work && r.c.Id(blk.header) in t.index && t.index[r.c.Id(blk.header)] == blk.header
  {
    hide TablesOk, Judge, Cache, CandidateWork, CandidatePath, WorkMap, PositionMap, PathTo, HeightMapOf, Purged;
    var t0, id := Cache(r.c, s, blk), r.c.Id(blk.header);
    if verdict.Switch? {
      var path := CandidatePath(r, t0, id);
      CandidateMeaning(r, t0, id);
      PathDistinct(t0.index, t0.links, path, id);
      WorkMapMeaning(r.p, path, HeadersAt(t0.index, path), |path|);
    }
  }
}
