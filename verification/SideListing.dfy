/** A node whose height table lists a side branch, as a rebuild leaves it, may start its answer to a locator on
    the wrong branch: the smallest example, and when the answer connects all the same. */
module SideListing {
  import opened Arith
  import opened CompactTarget
  import opened Primitives
  import opened Utxo
  import opened PathValidation
  import opened ChainState
  import opened ChainSteps
  import opened ForkChoice
  import opened Paths
  import opened Blockchain
  import opened HeaderSync

  /** A first block, two blocks on top of it, and another one beside them. */
  datatype Fork = Fork(root: Block, low: Block, high: Block, side: Block) {
    ghost predicate Ok(c: Crypto) {
      && c.Sound() && IdsAreNotLinks(c)
      && root.header.prev == 0 && low.header.prev == c.Link(root.header) && high.header.prev == c.Link(low.header)
      && side.header.prev == c.Link(root.header) && low.header != side.header
    }

    /** Both branches validate. */
    predicate Validates(r: Rules, clock: nat, skipPow: bool) {
      PathValid(r, [root, low, high], clock, skipPow) && PathValid(r, [root, side], clock, skipPow)
    }
  }

  function IdOf(c: Crypto, blk: Block): nat {
    c.Id(blk.header)
  }

  function LinkOf(c: Crypto, blk: Block): nat {
    c.Link(blk.header)
  }

  function WorkOf(r: Rules, blk: Block): nat {
    BlockWork(r.p, blk.header.bits)
  }

  lemma AllDiffer(c: Crypto, f: Fork)
    requires f.Ok(c)
    ensures LinkOf(c, f.root) != 0 && LinkOf(c, f.low) != 0
    ensures IdOf(c, f.root) != IdOf(c, f.low) && IdOf(c, f.root) != IdOf(c, f.high) && IdOf(c, f.root) != IdOf(c, f.side)
    ensures IdOf(c, f.low) != IdOf(c, f.high) && IdOf(c, f.low) != IdOf(c, f.side) && IdOf(c, f.high) != IdOf(c, f.side)
    ensures LinkOf(c, f.root) != LinkOf(c, f.low) && LinkOf(c, f.root) != LinkOf(c, f.high) && LinkOf(c, f.root) != LinkOf(c, f.side)
    ensures LinkOf(c, f.low) != LinkOf(c, f.high) && LinkOf(c, f.low) != LinkOf(c, f.side) && LinkOf(c, f.high) != LinkOf(c, f.side)
  {
    assert LinkOf(c, f.root) != 0 && LinkOf(c, f.low) != 0;
    assert f.root.header != f.low.header && f.root.header != f.high.header && f.root.header != f.side.header;
    assert f.low.header != f.high.header && f.high.header != f.side.header;
    IdsDiffer(c, f.root, f.low);
    IdsDiffer(c, f.root, f.high);
    IdsDiffer(c, f.root, f.side);
    IdsDiffer(c, f.low, f.high);
    IdsDiffer(c, f.low, f.side);
    IdsDiffer(c, f.high, f.side);
  }

  lemma IdsDiffer(c: Crypto, a: Block, b: Block)
    requires c.Sound() && a.header != b.header
    ensures IdOf(c, a) != IdOf(c, b) && LinkOf(c, a) != LinkOf(c, b)
  {
    if IdOf(c, a) == IdOf(c, b) {
      c.IdInjective(a.header, b.header);
    }
  }

  // ---------------------------------------------------------------------------
  // The responder
  // ---------------------------------------------------------------------------

  function AllHeaders(c: Crypto, f: Fork): map<nat, Header> {
    map[IdOf(c, f.root) := f.root.header, IdOf(c, f.low) := f.low.header, IdOf(c, f.high) := f.high.header, IdOf(c, f.side) := f.side.header]
  }

  function AllLinks(c: Crypto, f: Fork): map<nat, nat> {
    map[LinkOf(c, f.root) := IdOf(c, f.root), LinkOf(c, f.low) := IdOf(c, f.low),
        LinkOf(c, f.high) := IdOf(c, f.high), LinkOf(c, f.side) := IdOf(c, f.side)]
  }

  function AllBlocks(c: Crypto, f: Fork): map<nat, Block> {
    map[IdOf(c, f.root) := f.root, IdOf(c, f.low) := f.low, IdOf(c, f.high) := f.high, IdOf(c, f.side) := f.side]
  }

  function AllHeights(c: Crypto, f: Fork): map<nat, nat> {
    map[IdOf(c, f.root) := 0, IdOf(c, f.low) := 1, IdOf(c, f.high) := 2, IdOf(c, f.side) := 1]
  }

  function AllWork(r: Rules, f: Fork): map<nat, nat> {
    var first := WorkOf(r, f.root);
    map[IdOf(r.c, f.root) := first, IdOf(r.c, f.low) := first + WorkOf(r, f.low),
        IdOf(r.c, f.high) := first + WorkOf(r, f.low) + WorkOf(r, f.high), IdOf(r.c, f.side) := first + WorkOf(r, f.side)]
  }

  function AllChildren(c: Crypto, f: Fork): map<nat, seq<nat>> {
    map[LinkOf(c, f.root) := [IdOf(c, f.low), IdOf(c, f.side)], LinkOf(c, f.low) := [IdOf(c, f.high)]]
  }

  /** The long branch is active and the side block is listed at height one. */
  function Responder(r: Rules, f: Fork, clock: nat, skipPow: bool): State {
    var c := r.c;
    State(2, IdOf(c, f.high), f.high.header.bits, map[0 := IdOf(c, f.root), 1 := IdOf(c, f.low), 2 := IdOf(c, f.high)],
          AllHeaders(c, f), AllLinks(c, f), AllHeights(c, f), AllWork(r, f), AllChildren(c, f), AllBlocks(c, f), AllHeights(c, f),
          Some(Checkpoint(0, IdOf(c, f.root))), false, Replay(r, [f.root, f.low, f.high], clock, skipPow).utxo)
  }

  lemma ResponderLinks(c: Crypto, f: Fork)
    requires f.Ok(c)
    ensures IndexOk(c, AllHeaders(c, f), AllLinks(c, f))
  {
    hide Crypto.Id, Crypto.Link, IdsAreNotLinks, Crypto.Sound;
    AllDiffer(c, f);
  }

  lemma ResponderPool(c: Crypto, f: Fork)
    requires f.Ok(c)
    ensures PoolOk(AllHeaders(c, f), AllBlocks(c, f)) && ChildrenOk(AllHeaders(c, f), AllChildren(c, f))
  {
    hide Crypto.Id, Crypto.Link, IdsAreNotLinks, Crypto.Sound;
    AllDiffer(c, f);
  }

  lemma ResponderWork(r: Rules, f: Fork)
    requires f.Ok(r.c)
    ensures WorkOk(r.p, AllHeaders(r.c, f), AllLinks(r.c, f), AllWork(r, f), AllHeights(r.c, f))
    ensures HeightIndexOk(AllHeights(r.c, f), AllWork(r, f), AllHeights(r.c, f))
    ensures AllListed(AllHeaders(r.c, f), AllWork(r, f), AllHeights(r.c, f))
  {
    hide BlockWork, Crypto.Id, Crypto.Link, IdsAreNotLinks, Crypto.Sound;
    AllDiffer(r.c, f);
    var index, links, work, heights := AllHeaders(r.c, f), AllLinks(r.c, f), AllWork(r, f), AllHeights(r.c, f);
    assert WorkAt(r.p, index, links, work, heights, IdOf(r.c, f.root));
    assert WorkAt(r.p, index, links, work, heights, IdOf(r.c, f.low));
    assert WorkAt(r.p, index, links, work, heights, IdOf(r.c, f.high));
    assert WorkAt(r.p, index, links, work, heights, IdOf(r.c, f.side));
  }

  lemma ResponderPath(c: Crypto, f: Fork)
    requires f.Ok(c)
    ensures PathTo(AllHeaders(c, f), AllLinks(c, f), [IdOf(c, f.root), IdOf(c, f.low), IdOf(c, f.high)], IdOf(c, f.high))
  {
    hide Crypto.Id, Crypto.Link, IdsAreNotLinks, Crypto.Sound;
    AllDiffer(c, f);
    assert StepsTo(AllHeaders(c, f), AllLinks(c, f), IdOf(c, f.root), IdOf(c, f.low));
    assert StepsTo(AllHeaders(c, f), AllLinks(c, f), IdOf(c, f.low), IdOf(c, f.high));
  }

  lemma ResponderEntry(r: Rules, f: Fork, blk: Block)
    requires f.Ok(r.c) && (blk == f.root || blk == f.low || blk == f.high)
    ensures IdOf(r.c, blk) in AllHeaders(r.c, f) && AllHeaders(r.c, f)[IdOf(r.c, blk)] == blk.header
    ensures IdOf(r.c, blk) in AllBlocks(r.c, f) && AllBlocks(r.c, f)[IdOf(r.c, blk)] == blk
    ensures IdOf(r.c, blk) in AllWork(r, f) && IdOf(r.c, blk) in AllHeights(r.c, f)
  {
    hide BlockWork, Crypto.Id, Crypto.Link, IdsAreNotLinks, Crypto.Sound;
    AllDiffer(r.c, f);
  }

  lemma ResponderActive(r: Rules, f: Fork, clock: nat, skipPow: bool)
    requires f.Ok(r.c)
    ensures var s := Responder(r, f, clock, skipPow);
            ActiveOk(s) && CheckpointOk(s) && ActivePath(s) == [IdOf(r.c, f.root), IdOf(r.c, f.low), IdOf(r.c, f.high)]
  {
    hide IdOf, LinkOf, AllHeaders, AllLinks, AllBlocks, AllHeights, AllWork, AllChildren, Fork.Ok, Replay, PathTo;
    ResponderPath(r.c, f);
    ResponderEntry(r, f, f.root);
    ResponderEntry(r, f, f.low);
    ResponderEntry(r, f, f.high);
    var s := Responder(r, f, clock, skipPow);
    assert PathOfMap(s.heightMap, 2) == [IdOf(r.c, f.root), IdOf(r.c, f.low), IdOf(r.c, f.high)];
  }

  lemma ResponderShape(r: Rules, f: Fork, clock: nat, skipPow: bool)
    ensures var s := Responder(r, f, clock, skipPow);
            && s.index == AllHeaders(r.c, f) && s.links == AllLinks(r.c, f) && s.heightIndex == AllHeights(r.c, f)
            && s.work == AllWork(r, f) && s.children == AllChildren(r.c, f) && s.pool == AllBlocks(r.c, f)
            && s.heights == AllHeights(r.c, f) && s.best == 2
            && s.utxo == Replay(r, [f.root, f.low, f.high], clock, skipPow).utxo
  {
    hide IdOf, AllHeaders, AllLinks, AllBlocks, AllHeights, AllWork, AllChildren, Replay;
  }

  lemma ResponderTables(r: Rules, f: Fork, clock: nat, skipPow: bool)
    requires f.Ok(r.c)
    ensures var s := Responder(r, f, clock, skipPow);
            && TablesOk(r, s) && AllListed(s.index, s.work, s.heightIndex)
            && ActiveHeaders(r, s) == [f.root.header, f.low.header, f.high.header]
            && ActiveBlocks(r, s) == [f.root, f.low, f.high]
  {
    hide IdOf, Responder, AllHeaders, AllLinks, AllBlocks, AllHeights, AllWork, AllChildren, Fork.Ok, Replay, IndexOk, PoolOk, ChildrenOk,
         WorkOk, HeightIndexOk, ActiveOk, CheckpointOk, AllListed, ActivePath;
    ResponderShape(r, f, clock, skipPow);
    ResponderLinks(r.c, f);
    ResponderPool(r.c, f);
    ResponderWork(r, f);
    ResponderActive(r, f, clock, skipPow);
    ResponderEntry(r, f, f.root);
    ResponderEntry(r, f, f.low);
    ResponderEntry(r, f, f.high);
    var s := Responder(r, f, clock, skipPow);
    ActiveInPool(r, s);
    assert ActiveBlocks(r, s) == [f.root, f.low, f.high];
  }

  lemma ResponderListsSide(r: Rules, f: Fork, clock: nat, skipPow: bool)
    requires f.Ok(r.c)
    ensures var s := Responder(r, f, clock, skipPow);
            !OnlyActiveListed(s) && HeightByHash(s, IdOf(r.c, f.side)) == Some(1)
  {
    hide BlockWork, Crypto.Id, Crypto.Link, IdsAreNotLinks, Crypto.Sound, Replay;
    AllDiffer(r.c, f);
    var s := Responder(r, f, clock, skipPow);
    assert s.heightIndex[IdOf(r.c, f.side)] == 1 && s.heightMap[1] != IdOf(r.c, f.side);
  }

  // ---------------------------------------------------------------------------
  // The asker
  // ---------------------------------------------------------------------------

  /** The side branch is active and nothing else is known. */
  function OnSide(r: Rules, f: Fork, clock: nat, skipPow: bool): State {
    var a, e := IdOf(r.c, f.root), IdOf(r.c, f.side);
    var heights := map[a := 0, e := 1];
    State(1, e, f.side.header.bits, map[0 := a, 1 := e],
          map[a := f.root.header, e := f.side.header], map[LinkOf(r.c, f.root) := a, LinkOf(r.c, f.side) := e],
          heights, map[a := WorkOf(r, f.root), e := WorkOf(r, f.root) + WorkOf(r, f.side)], map[],
          map[a := f.root, e := f.side], heights, Some(Checkpoint(0, a)), false, Replay(r, [f.root, f.side], clock, skipPow).utxo)
  }

  /** The same, or with the low block of the other branch in the pool, as one held back by a guard is. */
  function Asker(r: Rules, f: Fork, knowsLow: bool, clock: nat, skipPow: bool): State {
    if knowsLow then Cache(r.c, OnSide(r, f, clock, skipPow), f.low) else OnSide(r, f, clock, skipPow)
  }

  lemma OnSideTables(r: Rules, f: Fork, clock: nat, skipPow: bool)
    requires f.Ok(r.c)
    ensures var s := OnSide(r, f, clock, skipPow);
            TablesOk(r, s) && ActiveBlocks(r, s) == [f.root, f.side] && IdOf(r.c, f.low) !in s.index
  {
    hide BlockWork, Crypto.Id, Crypto.Link, IdsAreNotLinks, Crypto.Sound, Replay;
    AllDiffer(r.c, f);
    var s := OnSide(r, f, clock, skipPow);
    assert PathOfMap(s.heightMap, 1) == [IdOf(r.c, f.root), IdOf(r.c, f.side)];
    assert StepsTo(s.index, s.links, IdOf(r.c, f.root), IdOf(r.c, f.side));
    assert WorkAt(r.p, s.index, s.links, s.work, s.heights, IdOf(r.c, f.root));
    assert WorkAt(r.p, s.index, s.links, s.work, s.heights, IdOf(r.c, f.side));
  }

  lemma AskerTables(r: Rules, f: Fork, knowsLow: bool, clock: nat, skipPow: bool)
    requires f.Ok(r.c) && f.Validates(r, clock, skipPow)
    ensures var s := Asker(r, f, knowsLow, clock, skipPow);
            && TablesOk(r, s) && UtxoOk(r, s, clock, skipPow)
            && (IdOf(r.c, f.low) in s.index && s.index[IdOf(r.c, f.low)] == f.low.header <==> knowsLow)
            && IndexOk(r.c, s.index, s.links)
  {
    hide TablesOk, OnSide, Replay, Cache, Crypto.Id, Crypto.Link, IdsAreNotLinks, Crypto.Sound, ActiveBlocks, SameChain, IndexOk;
    var s := OnSide(r, f, clock, skipPow);
    OnSideTables(r, f, clock, skipPow);
    OnSideOutputs(r, f, clock, skipPow);
    TablesParts(r, s);
    if knowsLow {
      CacheTables(r, s, f.low);
      CacheFacts(r, s, f.low);
      SameChainKeeps(r, s, Cache(r.c, s, f.low), clock, skipPow, map[]);
      TablesParts(r, Cache(r.c, s, f.low));
    }
  }

  lemma OnSideOutputs(r: Rules, f: Fork, clock: nat, skipPow: bool)
    ensures OnSide(r, f, clock, skipPow).utxo == Replay(r, [f.root, f.side], clock, skipPow).utxo
  {
    hide Replay;
  }

  lemma AskerLocator(r: Rules, f: Fork, knowsLow: bool, clock: nat, skipPow: bool)
    requires f.Ok(r.c)
    ensures IsLocator(Asker(r, f, knowsLow, clock, skipPow), LOCATOR_ENTRIES, [IdOf(r.c, f.side), IdOf(r.c, f.root)])
  {
    hide BlockWork, Crypto.Id, Crypto.Link, IdsAreNotLinks, Crypto.Sound, Pow2, Replay;
    assert LocatorHeight(1, 0) == 1 && LocatorHeight(1, 1) == 0;
  }

  // ---------------------------------------------------------------------------
  // The exchange
  // ---------------------------------------------------------------------------

  /** Everything a node's invariant asks of its tables, outputs and record, on a node that has not switched yet. */
  ghost predicate IsNodeState(r: Rules, s: State, clock: nat, skipPow: bool) {
    && r.c.Sound() && TablesOk(r, s) && UtxoOk(r, s, clock, skipPow)
    && RunOk(r.p, ActiveHeaders(r, s), [], ActiveHeaders(r, s))
  }

  /** The failing instance: in two states nodes can be in, the locator's first entry is listed at height one though it
      is not active there, so the answer starts at height two, and it is held against the responder unless the
      asker happens to know the active header at height one. */
  lemma SideEntryMisleads(r: Rules, f: Fork, knowsLow: bool, clock: nat, skipPow: bool)
    requires f.Ok(r.c) && f.Validates(r, clock, skipPow)
    ensures var other, asker := Responder(r, f, clock, skipPow), Asker(r, f, knowsLow, clock, skipPow);
            && IsNodeState(r, other, clock, skipPow) && IsNodeState(r, asker, clock, skipPow)
            && AllListed(other.index, other.work, other.heightIndex) && !OnlyActiveListed(other)
    ensures var other, asker := Responder(r, f, clock, skipPow), Asker(r, f, knowsLow, clock, skipPow);
            var locator := [IdOf(r.c, f.side), IdOf(r.c, f.root)];
            && IsLocator(asker, LOCATOR_ENTRIES, locator) && StartHeight(other, locator) == 2
            && TablesOk(r, other) && Segment(r, other, 2, MAX_HEADERS_PER_MESSAGE) == [f.high.header]
            && (BatchOk(r.c, asker, [f.high.header]) <==> knowsLow)
  {
    hide TablesOk, Replay, Responder, Asker, AllListed, OnlyActiveListed, HeightByHash, IsLocator, ActiveHeaders, ActiveBlocks, IndexOk,
         Canonical, Crypto.Id, Crypto.Link, IdsAreNotLinks, Crypto.Sound;
    var other, asker := Responder(r, f, clock, skipPow), Asker(r, f, knowsLow, clock, skipPow);
    AllDiffer(r.c, f);
    ResponderTables(r, f, clock, skipPow);
    ResponderShape(r, f, clock, skipPow);
    ResponderListsSide(r, f, clock, skipPow);
    AskerTables(r, f, knowsLow, clock, skipPow);
    AskerLocator(r, f, knowsLow, clock, skipPow);
    assert Segment(r, other, 2, MAX_HEADERS_PER_MESSAGE) == [f.root.header, f.low.header, f.high.header][2..3];
    ResolvesIfKnown(r.c, asker, f.low.header);
  }

  /** The locator of the asker has its two active blocks. */
  lemma OnlyLocator(r: Rules, f: Fork, knowsLow: bool, clock: nat, skipPow: bool, locator: seq<nat>)
    requires IsLocator(Asker(r, f, knowsLow, clock, skipPow), LOCATOR_ENTRIES, locator)
    ensures locator == [IdOf(r.c, f.side), IdOf(r.c, f.root)]
  {
    hide IdOf, LinkOf, Replay, Pow2;
    var s := Asker(r, f, knowsLow, clock, skipPow);
    assert LocatorHeight(1, 0) == 1 && LocatorHeight(1, 1) == 0;
    assert s.best == 1 && s.heightMap[0] == IdOf(r.c, f.root) && s.heightMap[1] == IdOf(r.c, f.side);
    LocatorStops(s, LOCATOR_ENTRIES, locator, 1);
  }

  lemma LocatorStops(s: State, max: nat, locator: seq<nat>, i: nat)
    requires IsLocator(s, max, locator) && LocatorHeight(s.best, i) == 0
    ensures |locator| <= i + 1
  {
    hide LocatorHeight;
  }

  /** Two nodes in these states, the responder with all its files, do come to that outcome. */
  method SideSync(asker: Node, other: Node, ghost f: Fork, ghost knowsLow: bool, ghost clock: nat, ghost skipPow: bool)
    returns (offence: Option<Offence>)
    requires asker.Valid() && other.Valid() && other.synced && asker.rules == other.rules
    requires f.Ok(asker.rules.c) && f.Validates(asker.rules, clock, skipPow)
    requires other.View() == Responder(asker.rules, f, clock, skipPow)
    requires asker.View() == Asker(asker.rules, f, knowsLow, clock, skipPow)
    ensures offence.None? <==> knowsLow
  {
    hide *;
    var locator, headers, height;
    locator, headers, offence, height := HonestSync(asker, other);
    OnlyLocator(asker.rules, f, knowsLow, clock, skipPow, locator);
    SideEntryMisleads(asker.rules, f, knowsLow, clock, skipPow);
  }
}
