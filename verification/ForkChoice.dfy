/** Switching the tip: the tables after a switch, what the checkpoint and the reorg limit guarantee,
    and the record of all switches of a run. */
module ForkChoice {
  import opened Arith
  import opened CompactTarget
  import opened Primitives
  import opened Utxo
  import opened PathValidation
  import opened ChainState
  import opened ChainSteps

  // ---------------------------------------------------------------------------
  // Tables after a switch
  // ---------------------------------------------------------------------------

  lemma PathDistinct(index: map<nat, Header>, links: map<nat, nat>, path: seq<nat>, tip: nat)
    requires PathTo(index, links, path, tip)
    ensures Distinct(path)
  {
    forall i, j | 0 <= i < j < |path|
      ensures path[i] != path[j]
    {
      PathToDistinct(index, links, path, tip, i, j);
    }
  }

  lemma {:induction false} PositionMapMeaning(path: seq<nat>, n: nat)
    requires n <= |path| && Distinct(path)
    ensures var m := PositionMap(path, n);
            && (forall i :: 0 <= i < n ==> path[i] in m && m[path[i]] == i)
            && (forall id :: id in m ==> m[id] < n && path[m[id]] == id)
  {
    if n != 0 {
      PositionMapMeaning(path, n - 1);
    }
  }

  lemma {:induction false} WorkMapMeaning(p: Params, path: seq<nat>, hs: seq<Header>, n: nat)
    requires n <= |path| == |hs| && Distinct(path)
    ensures var m := WorkMap(p, path, hs, n);
            && m.Keys == PositionMap(path, n).Keys
            && (forall i :: 0 <= i < n ==> path[i] in m && m[path[i]] == WorkSum(p, hs[..i + 1]))
  {
    hide WorkSum;
    if n != 0 {
      WorkMapMeaning(p, path, hs, n - 1);
    }
  }

  /** Extending the maps by one block, as the node does it. */
  lemma MapsNext(p: Params, path: seq<nat>, hs: seq<Header>, i: nat)
    requires i < |path| == |hs| && Distinct(path)
    ensures PositionMap(path, i + 1) == PositionMap(path, i)[path[i] := i]
    ensures 0 < i ==> path[i - 1] in WorkMap(p, path, hs, i)
    ensures var work := BlockWork(p, hs[i].bits);
            WorkMap(p, path, hs, i + 1)
            == WorkMap(p, path, hs, i)[path[i] := if i == 0 then work else WorkMap(p, path, hs, i)[path[i - 1]] + work]
  {
    hide BlockWork, WorkSum;
    WorkMapMeaning(p, path, hs, i);
    WorkSumStep(p, hs, i);
  }

  lemma ActivatedWork(p: Params, index: map<nat, Header>, links: map<nat, nat>, path: seq<nat>, tip: nat)
    requires PathTo(index, links, path, tip)
    ensures var hs := HeadersAt(index, path);
            WorkOk(p, index, links, WorkMap(p, path, hs, |path|), PositionMap(path, |path|))
  {
    var hs := HeadersAt(index, path);
    PathDistinct(index, links, path, tip);
    PositionMapMeaning(path, |path|);
    WorkMapMeaning(p, path, hs, |path|);
    var work, heights := WorkMap(p, path, hs, |path|), PositionMap(path, |path|);
    hide WorkMap, PositionMap, Distinct, BlockWork, WorkSum;
    forall id | id in work
      ensures WorkAt(p, index, links, work, heights, id)
    {
      var i := heights[id];
      assert path[i] == id;
      WorkSumStep(p, hs, i);
      if i != 0 {
        assert StepsTo(index, links, path[i - 1], path[i]);
      }
    }
  }

  lemma WorkSumStep(p: Params, hs: seq<Header>, i: nat)
    requires i < |hs|
    ensures WorkSum(p, hs[..i + 1]) == WorkSum(p, hs[..i]) + BlockWork(p, hs[i].bits)
    ensures WorkSum(p, hs[..0]) == 0
  {
    assert hs[..i + 1] == hs[..i] + [hs[i]];
    WorkSumSnoc(p, hs[..i], hs[i]);
  }

  lemma HeightMapMeaning(path: seq<nat>)
    requires path != []
    ensures forall h: nat :: h in HeightMapOf(path) <==> h <= |path| - 1
    ensures PathOfMap(HeightMapOf(path), |path| - 1) == path
    ensures forall h: nat :: h < |path| ==> HeightMapOf(path)[h] == path[h]
  {
  }

  lemma PositionsKnown(p: Params, path: seq<nat>, hs: seq<Header>, h: nat)
    requires Distinct(path) && h < |path| == |hs|
    ensures HeightMapOf(path)[h] in WorkMap(p, path, hs, |path|) && HeightMapOf(path)[h] in PositionMap(path, |path|)
  {
    PositionMapMeaning(path, |path|);
    WorkMapMeaning(p, path, hs, |path|);
    hide WorkMap, PositionMap;
  }

  lemma ActivatedActive(p: Params, s: State, path: seq<nat>, tip: nat, tipBits: Bits, utxo: UtxoMap)
    requires PathTo(s.index, s.links, path, tip) && tipBits == s.index[tip].bits
    ensures var t := Activate(p, s, path, HeadersAt(s.index, path), tipBits, utxo);
            ActiveOk(t) && ActivePath(t) == path && t.tip == tip
  {
    var hs := HeadersAt(s.index, path);
    var t := Activate(p, s, path, hs, tipBits, utxo);
    assert path[|path| - 1] == tip && tip in s.index;
    hide PathTo, WorkMap, PositionMap, Distinct, HeightMapOf, PathOfMap, Refreshed;
    PathDistinct(s.index, s.links, path, tip);
    HeightMapMeaning(path);
    forall h: nat | h <= t.best
      ensures t.heightMap[h] in t.work && t.heightMap[h] in t.heightIndex
    {
      PositionsKnown(p, path, hs, h);
    }
  }

  lemma ActivatedCheckpoint(p: Params, s: State, path: seq<nat>, hs: seq<Header>, tipBits: Bits, utxo: UtxoMap)
    requires path != [] && |hs| == |path| && s.checkpoint.Some? && Matches(s, path)
    ensures CheckpointOk(Activate(p, s, path, hs, tipBits, utxo))
  {
    hide WorkMap, PositionMap;
  }

  lemma ActivateTables(r: Rules, s: State, path: seq<nat>, tip: nat, tipBits: Bits, utxo: UtxoMap)
    requires TablesOk(r, s) && PathTo(s.index, s.links, path, tip)
    requires tipBits == s.index[tip].bits && Matches(s, path)
    ensures var t := Activate(r.p, s, path, HeadersAt(s.index, path), tipBits, utxo);
            && TablesOk(r, t) && ActivePath(t) == path
            && ActiveHeaders(r, t) == HeadersAt(s.index, path)
  {
    var hs := HeadersAt(s.index, path);
    ActivatedActive(r.p, s, path, tip, tipBits, utxo);
    ActivatedCheckpoint(r.p, s, path, hs, tipBits, utxo);
    ActivatedWork(r.p, s.index, s.links, path, tip);
    ActivatedHeightIndex(r.p, path, hs);
    hide ActiveOk, CheckpointOk, WorkOk, IndexOk, PoolOk, ChildrenOk, PathTo, WorkMap, PositionMap, HeightIndexOk;
  }

  lemma ActivatedHeightIndex(p: Params, path: seq<nat>, hs: seq<Header>)
    requires |hs| == |path|
    ensures HeightIndexOk(PositionMap(path, |path|), WorkMap(p, path, hs, |path|), PositionMap(path, |path|))
  {
    SameKeys(p, path, hs, |path|);
    hide WorkMap, PositionMap;
  }

  lemma {:induction false} SameKeys(p: Params, path: seq<nat>, hs: seq<Header>, n: nat)
    requires n <= |path| == |hs|
    ensures WorkMap(p, path, hs, n).Keys == PositionMap(path, n).Keys
  {
    hide WorkSum;
    if n != 0 {
      SameKeys(p, path, hs, n - 1);
    }
  }

  /** A path through consistent tables is not empty and all its blocks are in the pool. */
  lemma PathInPool(r: Rules, s: State, path: seq<nat>, tip: nat)
    requires TablesOk(r, s) && PathTo(s.index, s.links, path, tip)
    ensures path != [] && path[|path| - 1] == tip && tip in s.index
    ensures forall i :: 0 <= i < |path| ==>
              path[i] in s.index && path[i] in s.pool && s.pool[path[i]].header == s.index[path[i]]
  {
  }

  // ---------------------------------------------------------------------------
  // Finality
  // ---------------------------------------------------------------------------

  lemma {:induction false} CommonPrefixMeaning(a: seq<nat>, b: seq<nat>, n: nat)
    requires n <= |a| && n <= |b|
    ensures n <= CommonPrefix(a, b) <==> a[..n] == b[..n]
    ensures CommonPrefix(a, b) <= |a| && CommonPrefix(a, b) <= |b|
    decreases |a|
  {
    if a != [] && b != [] {
      if 0 < n {
        CommonPrefixMeaning(a[1..], b[1..], n - 1);
        assert a[1..][..n - 1] == a[..n][1..];
        assert b[1..][..n - 1] == b[..n][1..];
        assert a[..n] == [a[0]] + a[..n][1..];
        assert b[..n] == [b[0]] + b[..n][1..];
      } else {
        CommonPrefixMeaning(a[1..], b[1..], 0);
      }
    }
  }

  /** A candidate that matches the checkpoint shares the active path up to the checkpoint. */
  lemma MatchKeepsPrefix(r: Rules, s: State, path: seq<nat>, tip: nat)
    requires TablesOk(r, s) && PathTo(s.index, s.links, path, tip) && Matches(s, path)
    ensures var k := s.checkpoint.value.height + 1;
            k <= |path| && k <= |ActivePath(s)| && path[..k] == ActivePath(s)[..k]
  {
    var h := s.checkpoint.value.height;
    assert ActivePath(s)[h] == s.heightMap[h];
    PathsAgree(s.index, s.links, path, ActivePath(s), h);
    hide PathTo, WorkOk, IndexOk, PoolOk, ChildrenOk, HeightIndexOk;
  }

  /** Main result: without a pin, a candidate that matches the checkpoint rolls back at most two blocks,
      whatever the reorg policy of the environment says. */
  lemma MatchBoundsReorg(r: Rules, s: State, path: seq<nat>, tip: nat)
    requires TablesOk(r, s) && PathTo(s.index, s.links, path, tip) && Matches(s, path) && !s.pinned
    ensures ReorgDepth(ActivePath(s), path) <= MAX_REORG_DEPTH
  {
    MatchKeepsPrefix(r, s, path, tip);
    CommonPrefixMeaning(ActivePath(s), path, s.checkpoint.value.height + 1);
    hide PathTo, WorkOk, IndexOk, PoolOk, ChildrenOk, HeightIndexOk, CommonPrefix, Matches;
  }

  /** Main result: without a pin and from height two on, matching the checkpoint and rolling back at most
      two blocks are the same condition. Below height two every candidate passes the depth limit, and
      matching means starting from the same first block. */
  lemma GuardsEquivalent(r: Rules, s: State, path: seq<nat>, tip: nat)
    requires TablesOk(r, s) && PathTo(s.index, s.links, path, tip) && !s.pinned
    ensures MAX_REORG_DEPTH <= s.best ==> (Matches(s, path) <==> ReorgDepth(ActivePath(s), path) <= MAX_REORG_DEPTH)
    ensures s.best < MAX_REORG_DEPTH ==>
              ReorgDepth(ActivePath(s), path) <= MAX_REORG_DEPTH && (Matches(s, path) <==> path[0] == ActivePath(s)[0])
  {
    var active, h := ActivePath(s), s.checkpoint.value.height;
    assert active[h] == s.checkpoint.value.id;
    if Matches(s, path) {
      MatchBoundsReorg(r, s, path, tip);
    }
    if MAX_REORG_DEPTH <= s.best && ReorgDepth(active, path) <= MAX_REORG_DEPTH {
      CommonPrefixMeaning(active, path, 0);
      CommonPrefixMeaning(active, path, h + 1);
      assert path[h] == path[..h + 1][h] == active[..h + 1][h];
    }
    CommonPrefixMeaning(active, path, 0);
    hide PathTo, WorkOk, IndexOk, PoolOk, ChildrenOk, HeightIndexOk, CommonPrefix;
  }

  // ---------------------------------------------------------------------------
  // The record of switches
  // ---------------------------------------------------------------------------

  /** One change of the active chain; `guard` is the height of the checkpoint in force. */
  datatype SwitchRecord = SwitchRecord(from: seq<Header>, to: seq<Header>, pinned: bool, guard: nat)

  /** A switch gains work and keeps everything up to the checkpoint, which is two blocks below the old
      tip unless pinned. */
  ghost predicate SwitchOk(p: Params, w: SwitchRecord) {
    && w.from != [] && w.to != []
    && WorkSum(p, w.from) < WorkSum(p, w.to)
    && w.guard < |w.from| && w.guard < |w.to|
    && w.to[..w.guard + 1] == w.from[..w.guard + 1]
    && (!w.pinned ==> w.guard == RollingHeight(|w.from| - 1))
  }

  /** The switches of a run, each starting where the one before ended. */
  ghost predicate RunOk(p: Params, origin: seq<Header>, switches: seq<SwitchRecord>, current: seq<Header>) {
    && (forall i :: 0 <= i < |switches| ==> SwitchOk(p, switches[i]))
    && (forall i :: 0 < i < |switches| ==> switches[i].from == switches[i - 1].to)
    && (if switches == [] then current == origin
        else switches[0].from == origin && switches[|switches| - 1].to == current)
    && origin != []
  }

  /** A candidate with more work that matches the checkpoint makes a legal switch. */
  lemma SwitchIsOk(r: Rules, s: State, path: seq<nat>, tip: nat)
    requires TablesOk(r, s) && PathTo(s.index, s.links, path, tip) && Matches(s, path)
    requires s.tip in s.work && s.work[s.tip] < WorkSum(r.p, HeadersAt(s.index, path))
    ensures SwitchOk(r.p, SwitchRecord(ActiveHeaders(r, s), HeadersAt(s.index, path), s.pinned, s.checkpoint.value.height))
  {
    hide WorkSum, PathTo, WorkOk, IndexOk, PoolOk, ChildrenOk, HeightIndexOk;
    ActiveMeaning(r, s);
    MatchKeepsPrefix(r, s, path, tip);
    PathInPool(r, s, path, tip);
    PathInPool(r, s, ActivePath(s), s.tip);
    var k := s.checkpoint.value.height + 1;
    SameIdsSameHeaders(s.index, ActivePath(s), path, k);
  }

  lemma SameIdsSameHeaders(index: map<nat, Header>, a: seq<nat>, b: seq<nat>, k: nat)
    requires k <= |a| && k <= |b| && a[..k] == b[..k]
    requires forall i :: 0 <= i < |a| ==> a[i] in index
    requires forall i :: 0 <= i < |b| ==> b[i] in index
    ensures HeadersAt(index, a)[..k] == HeadersAt(index, b)[..k]
  {
    forall i | 0 <= i < k
      ensures HeadersAt(index, a)[i] == HeadersAt(index, b)[i]
    {
      assert a[i] == a[..k][i] == b[..k][i];
    }
  }

  lemma RunExtends(p: Params, origin: seq<Header>, switches: seq<SwitchRecord>, current: seq<Header>, w: SwitchRecord)
    requires RunOk(p, origin, switches, current) && SwitchOk(p, w) && w.from == current
    ensures RunOk(p, origin, switches + [w], w.to)
  {
    hide SwitchOk;
  }

  /** Main result: over a whole run the work of the tip never falls, grows with every switch, and the
      first block never changes. */
  lemma {:induction false} RunWorkGrows(p: Params, origin: seq<Header>, switches: seq<SwitchRecord>, current: seq<Header>, i: nat)
    requires RunOk(p, origin, switches, current) && i < |switches|
    ensures WorkSum(p, switches[i].from) < WorkSum(p, current)
    ensures current != [] && current[0] == switches[i].from[0]
    decreases |switches| - i
  {
    hide WorkSum;
    var w := switches[i];
    assert w.to[..w.guard + 1][0] == w.from[..w.guard + 1][0];
    if i + 1 < |switches| {
      assert switches[i + 1].from == switches[i].to;
      RunWorkGrows(p, origin, switches, current, i + 1);
    }
  }

  /** Main result: a chain that was given up never becomes active again. */
  lemma NoChainReturns(p: Params, origin: seq<Header>, switches: seq<SwitchRecord>, current: seq<Header>, i: nat, j: nat)
    requires RunOk(p, origin, switches, current) && i <= j < |switches|
    ensures switches[i].from != switches[j].to
  {
    hide WorkSum;
    var upTo := switches[..j + 1];
    assert RunOk(p, origin, upTo, switches[j].to) by {
      hide SwitchOk;
      assert upTo[|upTo| - 1] == switches[j];
    }
    RunWorkGrows(p, origin, upTo, switches[j].to, i);
  }
}
