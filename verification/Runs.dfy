/** Whole runs of a node: any sequence of operations, and the blocks of one chain in any order. */
module Runs {
  import opened Arith
  import opened CompactTarget
  import opened Primitives
  import opened PathValidation
  import opened Utxo
  import opened ChainState
  import opened ChainSteps
  import opened ForkChoice
  import opened Genesis
  import opened Effects
  import opened Delivery
  import Supply
  import Blockchain

  type Node = Blockchain.Blockchain

  // ---------------------------------------------------------------------------
  // Arbitrary runs
  // ---------------------------------------------------------------------------

  datatype Op =
    | Submit(blk: Block, x: Context)
    | SubmitToTip(blk: Block, x: Context)
    | PinCheckpoint
    | ClearPin

  /** The clock never runs backwards. */
  predicate TimesOk(ops: seq<Op>, clock: nat) {
    ops == [] ||
      match ops[0]
      case Submit(_, x) => clock <= x.now && TimesOk(ops[1..], x.now)
      case SubmitToTip(_, x) => clock <= x.now && TimesOk(ops[1..], x.now)
      case PinCheckpoint => TimesOk(ops[1..], clock)
      case ClearPin => TimesOk(ops[1..], clock)
  }

  lemma {:induction false} TimesLater(ops: seq<Op>, clock: nat, later: nat)
    requires TimesOk(ops, later) && clock <= later
    ensures TimesOk(ops, clock)
    decreases |ops|
  {
    if ops != [] {
      if ops[0].PinCheckpoint? || ops[0].ClearPin? {
        TimesLater(ops[1..], clock, later);
      }
    }
  }

  /** The pin is still set, guards at least as many blocks, and everything guarded before is active. */
  ghost predicate Final(s: State, t: State) {
    && t.pinned && s.checkpoint.Some? && t.checkpoint.Some?
    && s.checkpoint.value.height <= t.checkpoint.value.height
    && KeepsGuarded(s, t)
  }

  lemma FinalTransitive(r: Rules, s: State, t: State, u: State)
    requires Final(s, t) && Final(t, u)
    ensures Final(s, u)
  {
  }

  lemma FinalStart(r: Rules, s: State)
    requires TablesOk(r, s) && s.pinned
    ensures Final(s, s)
  {
    hide IndexOk, PoolOk, WorkOk, PathTo, HeightIndexOk, ChildrenOk;
  }

  lemma ProgressIsFinal(r: Rules, s: State, sw: seq<SwitchRecord>, t: State, sw': seq<SwitchRecord>)
    requires TablesOk(r, s) && s.pinned && Progress(s, sw, t, sw')
    ensures Final(s, t)
  {
    hide IndexOk, PoolOk, WorkOk, PathTo, HeightIndexOk, ChildrenOk, KeepsGuarded;
  }

  lemma PinIsFinal(r: Rules, s: State, t: State)
    requires TablesOk(r, s) && t.heightMap == s.heightMap && t.pinned && t.checkpoint == Some(Checkpoint(s.best, s.tip))
    ensures Final(s, t)
  {
    hide IndexOk, PoolOk, WorkOk, PathTo, HeightIndexOk, ChildrenOk;
  }

  /** One operation of a run. */
  method Step(node: Node, op: Op)
    requires node.Valid() && (op.Submit? || op.SubmitToTip? ==> node.clock <= op.x.now)
    modifies node, node.utxo, node.store
    ensures node.Valid() && node.origin == old(node.origin) && old(node.switches) <= node.switches
    ensures node.clock <= if op.Submit? || op.SubmitToTip? then op.x.now else old(node.clock)
    ensures node.switches == old(node.switches) ==> SameActivePath(old(node.View()), node.View())
    ensures old(node.pinned) && !op.ClearPin? ==> Final(old(node.View()), node.View())
    ensures op.PinCheckpoint? ==> node.pinned
  {
    hide ChainState.TablesOk, Blockchain.Blockchain.Valid, Effects.KeepsGuarded, Final, Effects.Answered;
    ghost var s := node.View();
    ghost var before := node.switches;
    node.HasTables();
    match op
    case Submit(blk, x) =>
      Blockchain.NoGoal(node.rules, node.View(), x);
      var _, _, _, _ := node.AcceptBlock(blk, x);
      if s.pinned { ProgressIsFinal(node.rules, s, before, node.View(), node.switches); }
    case SubmitToTip(blk, x) =>
      var _, _, _, _ := node.ConnectBlock(blk, x);
      if s.pinned { ProgressIsFinal(node.rules, s, before, node.View(), node.switches); }
    case PinCheckpoint =>
      node.PinCheckpointToTip();
      PinIsFinal(node.rules, s, node.View());
    case ClearPin =>
      node.ClearCheckpointPin();
  }

  predicate SameActivePath(s: State, t: State) {
    t.best == s.best && t.tip == s.tip && t.tipBits == s.tipBits && t.heightMap == s.heightMap && t.utxo == s.utxo
  }

  /** Main result: whatever is submitted, pinned and cleared, with whatever store failures, the node stays
      consistent, changes its chain only by legal switches, and while a pin is set never gives up a block
      at or below the checkpoint. */
  method Run(node: Node, ops: seq<Op>)
    requires node.Valid() && TimesOk(ops, node.clock)
    modifies node, node.utxo, node.store
    ensures node.Valid() && node.origin == old(node.origin) && old(node.switches) <= node.switches
    ensures node.switches == old(node.switches) ==> SameActivePath(old(node.View()), node.View())
    ensures old(node.pinned) && (forall i :: 0 <= i < |ops| ==> !ops[i].ClearPin?) ==> Final(old(node.View()), node.View())
  {
    hide ChainState.TablesOk, Blockchain.Blockchain.Valid, Effects.KeepsGuarded, Final;
    ghost var first, firstSwitches := node.View(), node.switches;
    node.HasTables();
    if first.pinned { FinalStart(node.rules, first); }
    for i := 0 to |ops|
      invariant node.Valid() && node.origin == old(node.origin) && firstSwitches <= node.switches
      invariant TimesOk(ops[i..], node.clock)
      invariant node.switches == firstSwitches ==> SameActivePath(first, node.View())
      invariant first.pinned && (forall j :: 0 <= j < i ==> !ops[j].ClearPin?) ==> node.pinned && Final(first, node.View())
    {
      ghost var s, clock := node.View(), node.clock;
      assert ops[i..][0] == ops[i] && ops[i..][1..] == ops[i + 1..];
      Step(node, ops[i]);
      TimesLater(ops[i + 1..], node.clock, if ops[i].Submit? || ops[i].SubmitToTip? then ops[i].x.now else clock);
      if first.pinned && forall j :: 0 <= j < i + 1 ==> !ops[j].ClearPin? {
        FinalTransitive(node.rules, first, s, node.View());
        FinalPinned(first, node.View());
      }
    }
    assert forall i :: 0 <= i < |ops| ==> ops[i] == ops[i];
  }

  lemma FinalPinned(s: State, t: State)
    requires Final(s, t)
    ensures t.pinned
  {
  }

  /** Main result: at any time the unspent outputs of a node are worth at most the rewards of its active chain,
      as long as the active blocks have no repeated inputs, negative outputs or second coinbases. */
  lemma NodeSupply(r: Rules, s: State, clock: nat, powSkipped: bool)
    requires TablesOk(r, s) && UtxoOk(r, s, clock, powSkipped)
    requires forall i :: 0 <= i < |ActiveBlocks(r, s)| ==> Supply.SaneBlock(ActiveBlocks(r, s)[i])
    ensures Supply.NonNegative(s.utxo) && Supply.TotalValue(s.utxo) <= Supply.RewardSum(s.best + 1) < TOTAL_SUPPLY * SATOSHIS
  {
    hide TablesOk, Replay, Supply.SaneBlock, Supply.NonNegative, Supply.TotalValue;
    ActivePathLength(r, s);
    Supply.SupplyBound(r, ActiveBlocks(r, s), clock, powSkipped);
  }

  // ---------------------------------------------------------------------------
  // One chain in any order
  // ---------------------------------------------------------------------------

  /** The calls that deliver the chain: positions, repeats allowed, and the circumstances of each call. */
  predicate ScheduleOk(goal: seq<Block>, order: seq<nat>, contexts: seq<Context>, now: nat, skipPow: bool) {
    && |contexts| == |order|
    && (forall i :: 0 <= i < |order| ==> order[i] < |goal|)
    && (forall i :: 0 <= i < |contexts| ==> contexts[i].skipPow == skipPow && now <= contexts[i].now)
    && (forall i, j :: 0 <= i < j < |contexts| ==> contexts[i].now <= contexts[j].now)
  }

  lemma GoalLater(r: Rules, goal: seq<Block>, now: nat, later: nat, skipPow: bool)
    requires GoalOk(r, goal, now, skipPow) && now <= later
    ensures GoalOk(r, goal, later, skipPow)
  {
    hide Replay, StatelessOk, BlockWork;
    ReplayRelax(r, goal, now, later, skipPow, skipPow);
  }

  /** A delivered block stays known and never leaves a gap right above the tip. */
  lemma DeliveredMeans(r: Rules, s: State, t: State, goal: seq<Block>, j: nat, x: Context)
    requires r.c.Sound() && GoalOk(r, goal, x.now, x.skipPow)
    requires Delivered(r, s, t, goal, j) && Saturated(r, s, goal)
    ensures j < |goal| && t.pool.Keys == s.pool.Keys + {IdOf(r, goal[j])} && Saturated(r, t, goal)
  {
    hide IdOf, GoalOk, Linked;
    GoalLinked(r, goal, x.now, x.skipPow);
    GoalNotEmpty(r, goal, x.now, x.skipPow);
    if j != s.best + 1 && s.best + 1 < |goal| && IdOf(r, goal[s.best + 1]) == IdOf(r, goal[j]) {
      PositionUnique(r, goal, s.best + 1, j);
    }
  }

  lemma GoalNotEmpty(r: Rules, goal: seq<Block>, now: nat, skipPow: bool)
    requires GoalOk(r, goal, now, skipPow)
    ensures goal != []
  {
  }

  lemma StartUnderway(r: Rules, s: State, goal: seq<Block>, j: nat, now: nat, x: Context)
    requires GoalOk(r, goal, now, x.skipPow) && now <= x.now && Partial(r, s, goal, 0) && j < |goal|
    ensures Underway(r, s, goal, j, x) && GoalOk(r, goal, x.now, x.skipPow)
  {
    hide GoalOk, Partial;
    GoalLater(r, goal, now, x.now, x.skipPow);
  }

  lemma UnderwayPartial(r: Rules, s: State, goal: seq<Block>, j: nat, x: Context)
    requires Underway(r, s, goal, j, x) && goal != []
    ensures Partial(r, s, goal, 0)
  {
    hide GoalOk, Partial;
  }

  ghost predicate Arrived(r: Rules, pool: map<nat, Block>, goal: seq<Block>, order: seq<nat>, n: nat)
    requires n <= |order|
  {
    forall i :: 0 <= i < n && order[i] < |goal| ==> IdOf(r, goal[order[i]]) in pool
  }

  /** Hands in one block of the chain; the gap right above the tip stays open until its block arrives. */
  method DeliverOne(node: Node, goal: seq<Block>, j: nat, x: Context, ghost now: nat)
    requires node.Valid() && node.store.reliable && node.clock <= x.now && now <= x.now && j < |goal|
    requires GoalOk(node.rules, goal, now, x.skipPow)
    requires Partial(node.rules, node.View(), goal, 0) && Saturated(node.rules, node.View(), goal)
    modifies node, node.utxo, node.store
    ensures node.Valid() && node.clock == x.now
    ensures Partial(node.rules, node.View(), goal, 0) && Saturated(node.rules, node.View(), goal)
    ensures node.blockPool.Keys == old(node.blockPool.Keys) + {IdOf(node.rules, goal[j])}
  {
    hide ChainState.TablesOk, Blockchain.Blockchain.Valid, Partial, Saturated, GoalOk, Underway, Delivered, Progress, Answered;
    node.HasTables();
    ghost var s := node.View();
    StartUnderway(node.rules, s, goal, j, now, x);
    GoalNotEmpty(node.rules, goal, now, x.skipPow);
    var _, _, _, _ := node.AcceptBlock(goal[j], x, goal, j);
    UnderwayPartial(node.rules, node.View(), goal, j, x);
    DeliveredMeans(node.rules, s, node.View(), goal, j, x);
  }

  /** A node that holds part of a valid chain and nothing else receives the missing blocks in any order,
      with any repeats: in the end the whole chain is active and the unspent outputs are its replay. */
  method DeliverAll(node: Node, goal: seq<Block>, order: seq<nat>, contexts: seq<Context>, ghost now: nat, skipPow: bool)
    requires node.Valid() && node.store.reliable && node.clock <= now
    requires GoalOk(node.rules, goal, now, skipPow) && ScheduleOk(goal, order, contexts, now, skipPow)
    requires Partial(node.rules, node.View(), goal, 0) && Saturated(node.rules, node.View(), goal)
    requires forall j :: 0 <= j < |goal| ==> IdOf(node.rules, goal[j]) in node.blockPool || j in order
    modifies node, node.utxo, node.store
    ensures node.Valid() && node.bestHeight == |goal| - 1
    ensures TablesOk(node.rules, node.View()) && ActiveBlocks(node.rules, node.View()) == goal
    ensures Replay(node.rules, goal, now, skipPow) == Accepted(node.utxo.entries)
  {
    hide ChainState.TablesOk, Blockchain.Blockchain.Valid, Partial, Saturated, GoalOk, Arrived, Replay, ActiveBlocks, UtxoOk;
    ghost var had := node.blockPool;
    ghost var clock := node.clock;
    assert Arrived(node.rules, node.blockPool, goal, order, 0) by { ArrivedNone(node.rules, had, goal, order); }
    for i := 0 to |order|
      invariant node.Valid() && (if i == 0 then node.clock == clock else node.clock == contexts[i - 1].now)
      invariant Partial(node.rules, node.View(), goal, 0) && Saturated(node.rules, node.View(), goal)
      invariant had.Keys <= node.blockPool.Keys && Arrived(node.rules, node.blockPool, goal, order, i)
    {
      ghost var before := node.blockPool;
      DeliverOne(node, goal, order[i], contexts[i], now);
      ArrivedNext(node.rules, before, node.blockPool, goal, order, i);
    }
    EverythingArrived(node.rules, had, node.blockPool, goal, order);
    SaturatedIsComplete(node.rules, node.View(), goal);
    node.IsValid();
    CompleteBlocks(node.rules, node.View(), goal, now, skipPow);
    CompleteOutputs(node.rules, node.View(), goal, node.clock, node.powSkipped, now, skipPow);
  }

  lemma ArrivedNone(r: Rules, pool: map<nat, Block>, goal: seq<Block>, order: seq<nat>)
    ensures Arrived(r, pool, goal, order, 0)
  {
  }

  lemma ArrivedNext(r: Rules, before: map<nat, Block>, pool: map<nat, Block>, goal: seq<Block>, order: seq<nat>, i: nat)
    requires i < |order| && order[i] < |goal| && Arrived(r, before, goal, order, i)
    requires pool.Keys == before.Keys + {IdOf(r, goal[order[i]])}
    ensures Arrived(r, pool, goal, order, i + 1)
  {
    hide IdOf;
    assert forall id :: id in before.Keys ==> id in pool.Keys;
  }

  lemma EverythingArrived(r: Rules, had: map<nat, Block>, pool: map<nat, Block>, goal: seq<Block>, order: seq<nat>)
    requires forall j :: 0 <= j < |goal| ==> IdOf(r, goal[j]) in had || j in order
    requires had.Keys <= pool.Keys && Arrived(r, pool, goal, order, |order|)
    ensures forall j :: 0 <= j < |goal| ==> IdOf(r, goal[j]) in pool
  {
    hide IdOf;
    forall j | 0 <= j < |goal|
      ensures IdOf(r, goal[j]) in pool
    {
      if IdOf(r, goal[j]) in had {
        assert IdOf(r, goal[j]) in had.Keys;
      } else {
        var i: nat :| i < |order| && order[i] == j;
      }
    }
  }

  lemma CompleteBlocks(r: Rules, s: State, goal: seq<Block>, now: nat, skipPow: bool)
    requires r.c.Sound() && TablesOk(r, s) && Partial(r, s, goal, 0) && GoalOk(r, goal, now, skipPow)
    requires s.best == |goal| - 1
    ensures ActiveBlocks(r, s) == goal
  {
    hide GoalOk, WorkOk, ChildrenOk, HeightIndexOk, CheckpointOk, OnlyActiveHasWork, Linked, IdOf;
    GoalLinked(r, goal, now, skipPow);
    ActivePathLength(r, s);
    PathInPool(r, s, ActivePath(s), s.tip);
    forall i | 0 <= i < |goal|
      ensures ActiveBlocks(r, s)[i] == goal[i]
    {
      assert ActivePath(s)[i] == s.heightMap[i] == IdOf(r, goal[i]);
      PooledBlock(r, s, goal, i);
    }
  }

  lemma CompleteOutputs(r: Rules, s: State, goal: seq<Block>, clock: nat, powSkipped: bool, now: nat, skipPow: bool)
    requires TablesOk(r, s) && UtxoOk(r, s, clock, powSkipped) && ActiveBlocks(r, s) == goal
    requires GoalOk(r, goal, now, skipPow)
    ensures Replay(r, goal, now, skipPow) == Accepted(s.utxo)
  {
    hide TablesOk, Replay, ActiveBlocks, StatelessOk, BlockWork;
    var later := Max(clock, now);
    ReplayRelax(r, goal, clock, later, powSkipped, true);
    ReplayRelax(r, goal, now, later, skipPow, true);
  }

  /** A new node holds the first block of the chain and nothing else. */
  lemma FreshIsPartial(r: Rules, goal: seq<Block>, now: nat, skipPow: bool)
    requires r.c.Sound() && GoalOk(r, goal, now, skipPow) && goal[0] == GenesisBlock(r)
    ensures Partial(r, GenesisState(r), goal, 0) && Saturated(r, GenesisState(r), goal)
    ensures IdOf(r, goal[0]) in GenesisState(r).pool
  {
    hide GoalOk, TablesOk, GenesisBlock, BlockWork, Apply, Linked;
    GenesisTables(r);
    GoalNotEmpty(r, goal, now, skipPow);
    GoalLinked(r, goal, now, skipPow);
    var s := GenesisState(r);
    assert s.pool == map[IdOf(r, goal[0]) := goal[0]];
    forall j: nat | 0 < j < |goal|
      ensures IdOf(r, goal[j]) !in s.pool
    {
      if IdOf(r, goal[j]) == IdOf(r, goal[0]) {
        PositionUnique(r, goal, 0, j);
      }
    }
  }

  /** The first block of a valid chain is not from the future. */
  lemma GenesisInTime(r: Rules, goal: seq<Block>, now: nat, skipPow: bool)
    requires GoalOk(r, goal, now, skipPow) && goal[0] == GenesisBlock(r)
    ensures !TooFarInFuture(r.p, r.p.genesisTimestamp, now)
  {
    hide Replay, StatelessOk, BlockWork, CheckBlock, CheckPow, IsCanonical, ExpectedBits;
    StepValid(r, goal, 0, now, skipPow);
  }

  method DeliverToNew(rules: Rules, goal: seq<Block>, order: seq<nat>, contexts: seq<Context>, now: nat, skipPow: bool)
    returns (node: Node)
    requires rules.c.Sound() && GoalOk(rules, goal, now, skipPow) && goal[0] == GenesisBlock(rules)
    requires ScheduleOk(goal, order, contexts, now, skipPow)
    requires forall j :: 0 < j < |goal| ==> j in order
    ensures node.Valid() && node.rules == rules && fresh(node) && fresh(node.utxo) && fresh(node.store)
    ensures TablesOk(rules, node.View()) && ActiveBlocks(rules, node.View()) == goal
    ensures Replay(rules, goal, now, skipPow) == Accepted(node.utxo.entries)
  {
    hide ChainState.TablesOk, Blockchain.Blockchain.Valid, Partial, Saturated, GoalOk, Replay, ActiveBlocks, GenesisState, GenesisBlock;
    GenesisInTime(rules, goal, now, skipPow);
    FreshIsPartial(rules, goal, now, skipPow);
    var store := new Blockchain.BlockStore(true);
    node := new Blockchain.Blockchain(rules, store, now);
    assert node.blockPool == node.View().pool;
    DeliverAll(node, goal, order, contexts, now, skipPow);
  }

  /** Main result: two new nodes that receive the blocks of one valid chain in any two orders, with any
      repeats, end with the same active chain, which is the whole chain, and the same unspent outputs. */
  method DeliverInAnyOrder(rules: Rules, goal: seq<Block>, a: seq<nat>, b: seq<nat>, contextsA: seq<Context>, contextsB: seq<Context>,
                           now: nat, skipPow: bool)
    returns (left: Node, right: Node)
    requires rules.c.Sound() && GoalOk(rules, goal, now, skipPow) && goal[0] == GenesisBlock(rules)
    requires ScheduleOk(goal, a, contextsA, now, skipPow) && ScheduleOk(goal, b, contextsB, now, skipPow)
    requires forall j :: 0 < j < |goal| ==> j in a && j in b
    ensures left.Valid() && right.Valid() && left.rules == right.rules == rules
    ensures TablesOk(rules, left.View()) && ActiveBlocks(rules, left.View()) == goal
    ensures TablesOk(rules, right.View()) && ActiveBlocks(rules, right.View()) == goal
    ensures left.utxo.entries == right.utxo.entries
  {
    left := DeliverToNew(rules, goal, a, contextsA, now, skipPow);
    right := DeliverToNew(rules, goal, b, contextsB, now, skipPow);
  }
}
