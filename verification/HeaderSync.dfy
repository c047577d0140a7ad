/** Header synchronisation between two nodes: the locator a node sends, the headers the other node answers
    with, and the checks the first node runs on the answer. */
module HeaderSync {
  import opened Arith
  import opened CompactTarget
  import opened Primitives
  import Utxo
  import opened PathValidation
  import opened ChainState
  import opened ChainSteps
  import opened ForkChoice
  import opened Paths
  import opened TipExtension
  import Blockchain

  type Node = Blockchain.Blockchain

  const LOCATOR_ENTRIES: nat := 32
  const MAX_LOCATOR_ENTRIES: nat := 64
  const MAX_HEADERS_PER_MESSAGE: nat := 2000

  datatype Offence = OversizedLocator | TooManyHeaders | Unconnected | Discontinuity

  // ---------------------------------------------------------------------------
  // The locator
  // ---------------------------------------------------------------------------

  /** How far below the tip entry i of a locator lies: one block at a time for the first eleven entries,
      then twice as far with each entry. */
  function Back(i: nat): nat {
    if i <= 10 then i else 8 + Pow2(i - 9)
  }

  function LocatorHeight(best: nat, i: nat): nat {
    if Back(i) <= best then best - Back(i) else 0
  }

  lemma BackGrows(i: nat)
    ensures Back(i) < Back(i + 1)
    ensures Back(i + 1) == Back(i) + if i < 10 then 1 else Pow2(i - 9)
  {
    assert Pow2(1) == 2;
  }

  lemma {:induction false} BackMono(i: nat, j: nat)
    requires i < j
    ensures Back(i) < Back(j)
    decreases j
  {
    hide Back;
    BackGrows(j - 1);
    if i < j - 1 {
      BackMono(i, j - 1);
    }
  }

  /** The entries run strictly downwards until the first block is reached. */
  lemma LocatorDescends(best: nat, i: nat, j: nat)
    requires i < j && 0 < LocatorHeight(best, i)
    ensures LocatorHeight(best, j) < LocatorHeight(best, i)
  {
    hide Back;
    BackMono(i, j);
  }

  /** Main result: a locator of 32 entries reaches the first block exactly for tips up to height 2^22 + 8. */
  lemma LocatorReachesFirstBlock(best: nat)
    ensures LocatorHeight(best, LOCATOR_ENTRIES - 1) == 0 <==> best <= 0x40_0000 + 8
  {
    hide Pow2;
    Pow2Of22();
  }

  lemma Pow2Of22()
    ensures Pow2(22) == 0x40_0000
  {
    assert Pow2(4) == 16;
    assert Pow2(8) == 256;
    assert Pow2(12) == 0x1000;
    assert Pow2(16) == 0x1_0000;
    assert Pow2(20) == 0x10_0000;
  }

  /** What a locator of at most `max` entries is: identifiers of the active path from the tip down, ending
      at the first block or at the limit. */
  ghost predicate IsLocator(s: State, max: nat, out: seq<nat>) {
    && |out| <= max
    && (max == 0 ==> out == [])
    && (0 < max ==> out != [])
    && (forall i :: 0 <= i < |out| ==> LocatorHeight(s.best, i) in s.heightMap && out[i] == s.heightMap[LocatorHeight(s.best, i)])
    && (forall i :: 0 <= i < |out| - 1 ==> 0 < LocatorHeight(s.best, i))
    && (0 < |out| < max ==> LocatorHeight(s.best, |out| - 1) == 0)
  }

  method BlockLocator(node: Node, maxEntries: nat) returns (out: seq<nat>)
    requires node.Valid()
    ensures IsLocator(node.View(), maxEntries, out)
  {
    hide Blockchain.Blockchain.Valid, TablesOk, Back, Pow2;
    node.HasTables();
    HeightsCovered(node.rules, node.View());
    out := [];
    if node.heightMap == map[] || maxEntries == 0 {
      return;
    }
    var height, step, entries := node.bestHeight, 1, 0;
    BackStart(node.bestHeight);
    while true
      invariant entries == |out| < maxEntries
      invariant height == LocatorHeight(node.bestHeight, entries) && height <= node.bestHeight
      invariant step == if entries <= 10 then 1 else Pow2(entries - 10)
      invariant forall i :: 0 <= i < |out| ==>
                  0 < LocatorHeight(node.bestHeight, i) <= node.bestHeight
                  && LocatorHeight(node.bestHeight, i) in node.heightMap
                  && out[i] == node.heightMap[LocatorHeight(node.bestHeight, i)]
      decreases maxEntries - entries
    {
      out := out + [node.heightMap[height]];
      entries := entries + 1;
      if height == 0 || entries >= maxEntries {
        break;
      }
      StepGrows(entries);
      if entries > 10 {
        step := step * 2;
      }
      BackGrows(entries - 1);
      height := if height > step then height - step else 0;
    }
  }

  lemma HeightsCovered(r: Rules, s: State)
    requires TablesOk(r, s)
    ensures forall h: nat :: h in s.heightMap <==> h <= s.best
    ensures s.heightMap != map[]
  {
    assert 0 in s.heightMap;
  }

  lemma BackStart(best: nat)
    ensures LocatorHeight(best, 0) == best
  {
  }

  lemma StepGrows(entries: nat)
    ensures Pow2(0) == 1
    ensures 10 < entries ==> Pow2(entries - 10) == 2 * Pow2(entries - 11)
  {
  }

  // ---------------------------------------------------------------------------
  // The answer
  // ---------------------------------------------------------------------------

  function Canonical(s: State, hash: nat): Option<nat> {
    if hash in s.index then Some(hash) else if hash in s.links then Some(s.links[hash]) else None
  }

  function HeightByHash(s: State, hash: nat): Option<nat> {
    var canonical := Canonical(s, hash);
    if canonical.None? || canonical.value !in s.heightIndex then None else Some(s.heightIndex[canonical.value])
  }

  /** Where the answer to a locator starts: right after the first entry with a known height. */
  function StartHeight(s: State, locator: seq<nat>): nat {
    if locator == [] then 0
    else if HeightByHash(s, locator[0]).Some? then HeightByHash(s, locator[0]).value + 1
    else StartHeight(s, locator[1..])
  }

  /** At most `max` headers of the active path from a height on. */
  ghost function Segment(r: Rules, s: State, start: nat, max: nat): seq<Header>
    requires TablesOk(r, s)
  {
    if start <= s.best then ActiveHeaders(r, s)[start..Min(start + max, s.best + 1)] else []
  }

  /** The headers in consecutive height files from a height on: at most `max`, none above the tip, and none after
      the first missing file. */
  function FiledHeaders(files: map<nat, Block>, start: nat, best: nat, max: nat): seq<Header>
    decreases max
  {
    if max == 0 || best < start || start !in files then []
    else [files[start].header] + FiledHeaders(files, start + 1, best, max - 1)
  }

  method HeadersAfterLocator(node: Node, locator: seq<nat>, maxHeaders: nat) returns (headers: seq<Header>)
    requires node.Valid()
    ensures headers == FiledHeaders(node.store.byHeight, StartHeight(node.View(), locator), node.bestHeight, maxHeaders)
  {
    hide *;
    node.HasTables();
    node.ViewFields();
    HeightsCovered(node.rules, node.View());
    NoneFiled(node.store.byHeight, StartHeight(node.View(), locator), node.bestHeight);
    if node.heightMap == map[] || maxHeaders == 0 {
      return [];
    }
    var start := FindStart(node, locator);
    headers := ReadHeaders(node, start, maxHeaders);
  }

  lemma NoneFiled(files: map<nat, Block>, start: nat, best: nat)
    ensures FiledHeaders(files, start, best, 0) == []
  {
  }

  method ReadHeaders(node: Node, start: nat, maxHeaders: nat) returns (headers: seq<Header>)
    ensures headers == FiledHeaders(node.store.byHeight, start, node.bestHeight, maxHeaders)
  {
    headers := [];
    var h := start;
    while h <= node.bestHeight && |headers| < maxHeaders
      invariant start <= h && |headers| == h - start <= maxHeaders
      invariant headers + FiledHeaders(node.store.byHeight, h, node.bestHeight, maxHeaders - |headers|)
                == FiledHeaders(node.store.byHeight, start, node.bestHeight, maxHeaders)
      decreases maxHeaders - |headers|
    {
      var found := node.FindByHeight(h);
      if found.None? {
        break;
      }
      headers := headers + [found.value.header];
      h := h + 1;
    }
  }

  /** The files that exist from a height on hold headers of the active path. */
  ghost predicate FiledHonestly(r: Rules, s: State, files: map<nat, Block>, start: nat)
    requires TablesOk(r, s)
  {
    forall h: nat :: start <= h <= s.best && h in files ==> files[h].header == ActiveHeaders(r, s)[h]
  }

  /** What honest files give is the beginning of the piece of the active path, up to the first missing file. */
  lemma FiledIsSegment(r: Rules, s: State, files: map<nat, Block>, start: nat, max: nat)
    requires TablesOk(r, s) && FiledHonestly(r, s, files, start)
    ensures var filed, segment := FiledHeaders(files, start, s.best, max), Segment(r, s, start, max);
            && filed <= segment && (|filed| < |segment| ==> start + |filed| !in files)
            && ((forall h: nat :: start <= h <= s.best ==> h in files) ==> filed == segment)
  {
    hide TablesOk, ActiveHeaders, FiledHeaders;
    FiledIsPrefix(files, ActiveHeaders(r, s), start, max);
  }

  function Piece(hs: seq<Header>, start: nat, max: nat): seq<Header> {
    if start < |hs| then hs[start..Min(start + max, |hs|)] else []
  }

  lemma PieceNext(hs: seq<Header>, start: nat, max: nat)
    ensures max != 0 && start < |hs| ==> Piece(hs, start, max) == [hs[start]] + Piece(hs, start + 1, max - 1)
    ensures max == 0 || |hs| <= start ==> Piece(hs, start, max) == []
  {
  }

  lemma {:induction false} FiledIsPrefix(files: map<nat, Block>, hs: seq<Header>, start: nat, max: nat)
    requires hs != [] && forall h: nat :: start <= h < |hs| && h in files ==> files[h].header == hs[h]
    ensures var filed, piece := FiledHeaders(files, start, |hs| - 1, max), Piece(hs, start, max);
            filed <= piece && (|filed| < |piece| ==> start + |filed| !in files && start + |filed| < |hs|)
    decreases max
  {
    hide Piece;
    PieceNext(hs, start, max);
    if max != 0 && start < |hs| && start in files {
      FiledIsPrefix(files, hs, start + 1, max - 1);
    }
  }

  /** A node that has written all files answers with the whole piece. */
  lemma FilesAreHonest(node: Node, start: nat)
    requires TablesOk(node.rules, node.View()) && node.FilesOk()
    ensures FiledHonestly(node.rules, node.View(), node.store.byHeight, start)
    ensures FiledHeaders(node.store.byHeight, start, node.bestHeight, MAX_HEADERS_PER_MESSAGE)
            == Segment(node.rules, node.View(), start, MAX_HEADERS_PER_MESSAGE)
  {
    hide TablesOk, ActiveHeaders, FilesMatch, FiledHeaders, Segment;
    FilesHoldHeaders(node.rules, node.View(), node.store.byHeight);
    FiledIsSegment(node.rules, node.View(), node.store.byHeight, start, MAX_HEADERS_PER_MESSAGE);
  }

  method FindStart(node: Node, locator: seq<nat>) returns (start: nat)
    ensures start == StartHeight(node.View(), locator)
  {
    hide HeightByHash;
    for i := 0 to |locator|
      invariant StartHeight(node.View(), locator) == StartHeight(node.View(), locator[i..])
    {
      assert locator[i..][1..] == locator[i + 1..];
      var height := HeightByHash(node.View(), locator[i]);
      if height.Some? {
        return height.value + 1;
      }
    }
    return 0;
  }

  lemma FilesHoldHeaders(r: Rules, s: State, files: map<nat, Block>)
    requires TablesOk(r, s) && FilesMatch(files, s)
    ensures forall h: nat :: h <= s.best ==> h in files && files[h].header == ActiveHeaders(r, s)[h]
  {
    hide IndexOk, WorkOk, HeightIndexOk, ChildrenOk, CheckpointOk, PathTo;
    forall h: nat | h <= s.best
      ensures h in files && files[h].header == ActiveHeaders(r, s)[h]
    {
      assert ActivePath(s)[h] == s.heightMap[h];
    }
  }

  /** The reply to a request for headers. */
  method AnswerGetHeaders(node: Node, locator: seq<nat>) returns (offence: Option<Offence>, headers: seq<Header>)
    requires node.Valid()
    ensures offence.Some? <==> MAX_LOCATOR_ENTRIES < |locator|
    ensures offence.None? ==>
              headers == FiledHeaders(node.store.byHeight, StartHeight(node.View(), locator), node.bestHeight, MAX_HEADERS_PER_MESSAGE)
  {
    hide *;
    if |locator| > MAX_LOCATOR_ENTRIES {
      return Some(OversizedLocator), [];
    }
    headers := HeadersAfterLocator(node, locator, MAX_HEADERS_PER_MESSAGE);
    offence := None;
  }

  // ---------------------------------------------------------------------------
  // Receiving headers
  // ---------------------------------------------------------------------------

  /** The checks on a batch: size, connection of the first header and continuity of the rest. */
  predicate BatchOk(c: Crypto, s: State, headers: seq<Header>) {
    && |headers| <= MAX_HEADERS_PER_MESSAGE
    && (headers != [] && headers[0].prev != 0 ==> Canonical(s, headers[0].prev).Some?)
    && forall i :: 0 < i < |headers| ==> headers[i].prev == c.Link(headers[i - 1])
  }

  /** Height the receiver infers for the first header of a batch. */
  function InferredBase(s: State, first: Header): nat {
    if first.prev != 0 && HeightByHash(s, first.prev).Some? then HeightByHash(s, first.prev).value + 1 else 0
  }

  /** Identifiers of the headers whose blocks the node cannot find. */
  function Missing(node: Node, headers: seq<Header>): seq<nat>
    reads node, node.store
  {
    if headers == [] then []
    else
      var rest, id := Missing(node, headers[..|headers| - 1]), node.rules.c.Id(headers[|headers| - 1]);
      if node.GetBlockByHash(id).None? then rest + [id] else rest
  }

  /** The check on the first header of a batch and the height it suggests. */
  method ReceiveFirst(node: Node, header: Header) returns (connects: bool, height: Uint32)
    ensures connects <==> header.prev == 0 || Canonical(node.View(), header.prev).Some?
    ensures connects ==> height == Wrap32(InferredBase(node.View(), header))
  {
    if header.prev != 0 && Canonical(node.View(), header.prev).None? {
      return false, 0;
    }
    height := 0;
    if header.prev != 0 {
      var parentHeight := HeightByHash(node.View(), header.prev);
      if parentHeight.Some? {
        height := Wrap32(parentHeight.value + 1);
      }
    }
    connects := true;
  }

  /** Whether header i may follow the headers before it in a batch. */
  predicate Follows(c: Crypto, s: State, headers: seq<Header>, i: nat)
    requires i < |headers|
  {
    if i == 0 then headers[0].prev == 0 || Canonical(s, headers[0].prev).Some?
    else headers[i].prev == c.Link(headers[i - 1])
  }

  lemma BatchFollows(c: Crypto, s: State, headers: seq<Header>)
    ensures BatchOk(c, s, headers) <==>
              |headers| <= MAX_HEADERS_PER_MESSAGE && forall i :: 0 <= i < |headers| ==> Follows(c, s, headers, i)
  {
    hide Canonical, Crypto.Link;
    if BatchOk(c, s, headers) {
      forall i | 0 <= i < |headers|
        ensures Follows(c, s, headers, i)
      {
      }
    }
    if forall i :: 0 <= i < |headers| ==> Follows(c, s, headers, i) {
      assert headers != [] ==> Follows(c, s, headers, 0);
      forall i | 0 < i < |headers|
        ensures headers[i].prev == c.Link(headers[i - 1])
      {
        assert Follows(c, s, headers, i);
      }
    }
  }

  lemma MissingNext(node: Node, headers: seq<Header>, i: nat)
    requires i < |headers|
    ensures Missing(node, headers[..i + 1]) ==
            if node.GetBlockByHash(node.rules.c.Id(headers[i])).None? then Missing(node, headers[..i]) + [node.rules.c.Id(headers[i])]
            else Missing(node, headers[..i])
  {
    hide Blockchain.Blockchain.GetBlockByHash;
    assert headers[..i + 1][..i] == headers[..i];
  }

  lemma WrapNext(x: int)
    ensures Wrap32(Wrap32(x) + 1) == Wrap32(x + 1)
  {
  }

  method ReceiveHeaders(node: Node, headers: seq<Header>)
    returns (offence: Option<Offence>, remoteHeight: Uint32, wanted: seq<nat>)
    ensures offence.None? <==> BatchOk(node.rules.c, node.View(), headers)
    ensures offence.None? ==> wanted == Missing(node, headers)
    ensures offence.None? && headers != [] ==> remoteHeight == Wrap32(InferredBase(node.View(), headers[0]) + |headers| - 1)
  {
    hide BatchOk, Missing, Wrap32, InferredBase, Canonical, HeightByHash, Blockchain.Blockchain.View, Blockchain.Blockchain.GetBlockByHash,
         Crypto.Link, Crypto.Id;
    remoteHeight, wanted := 0, [];
    BatchFollows(node.rules.c, node.View(), headers);
    if |headers| > MAX_HEADERS_PER_MESSAGE {
      return Some(TooManyHeaders), remoteHeight, wanted;
    }
    var previousLink := 0;
    MissingNone(node);
    assert headers[..0] == [];
    for i := 0 to |headers|
      invariant 0 < i ==> previousLink == node.rules.c.Link(headers[i - 1])
      invariant 0 < i ==> remoteHeight == Wrap32(InferredBase(node.View(), headers[0]) + i - 1)
      invariant wanted == Missing(node, headers[..i])
      invariant forall k :: 0 <= k < i ==> Follows(node.rules.c, node.View(), headers, k)
    {
      var header := headers[i];
      if i == 0 {
        var connects;
        connects, remoteHeight := ReceiveFirst(node, header);
        if !connects {
          assert !Follows(node.rules.c, node.View(), headers, i);
          return Some(Unconnected), remoteHeight, wanted;
        }
      } else if header.prev != previousLink {
        assert !Follows(node.rules.c, node.View(), headers, i);
        return Some(Discontinuity), remoteHeight, wanted;
      } else {
        WrapNext(InferredBase(node.View(), headers[0]) + i - 1);
        remoteHeight := Wrap32(remoteHeight + 1);
      }
      previousLink := node.rules.c.Link(header);
      MissingNext(node, headers, i);
      if node.GetBlockByHash(node.rules.c.Id(header)).None? {
        wanted := wanted + [node.rules.c.Id(header)];
      }
    }
    assert headers[..|headers|] == headers;
    return None, remoteHeight, wanted;
  }

  lemma MissingNone(node: Node)
    ensures Missing(node, []) == []
  {
  }

  // ---------------------------------------------------------------------------
  // An honest exchange
  // ---------------------------------------------------------------------------

  /** No identifier is the link hash of a header. */
  ghost predicate IdsAreNotLinks(c: Crypto) {
    forall h, g :: c.Id(h) != c.Link(g)
  }

  /** Every listed height is that of a block of the active path; rebuilding after an invalid block was
      purged also lists side branches. */
  ghost predicate OnlyActiveListed(s: State) {
    forall id :: id in s.heightIndex ==> s.heightIndex[id] in s.heightMap && s.heightMap[s.heightIndex[id]] == id
  }

  /** A switch leaves only the active path listed. */
  lemma SwitchListsActive(r: Rules, s: State, path: seq<nat>, hs: seq<Header>, bits: Bits, utxo: Utxo.UtxoMap)
    requires path != [] && |hs| == |path|
    ensures OnlyActiveListed(Activate(r.p, s, path, hs, bits, utxo))
  {
    hide PositionMap, WorkMap, Refreshed;
    PositionsListed(path, |path|);
  }

  /** Only the active path is listed exactly when no block beside it is. After a rebuild every block with work and a
      parent is listed, so one such block beside the active path is enough to break it. */
  lemma RebuildListsSides(r: Rules, s: State)
    requires TablesOk(r, s)
    ensures OnlyActiveListed(s) <==> forall id :: id in s.heightIndex ==> id in ActivePath(s)
    ensures AllListed(s.index, s.work, s.heightIndex) && OnlyActiveListed(s) ==>
              forall id :: id in s.work && id in s.index && s.index[id].prev != 0 ==> id in ActivePath(s)
  {
    hide IndexOk, PoolOk, WorkOk, ChildrenOk, CheckpointOk, PathTo, BlockWork, WorkSum, PathOf;
    ActiveMeaning(r, s);
    if OnlyActiveListed(s) {
      forall id | id in s.heightIndex
        ensures id in ActivePath(s)
      {
        assert ActivePath(s)[s.heightIndex[id]] == id;
      }
    }
    if forall id :: id in s.heightIndex ==> id in ActivePath(s) {
      forall id | id in s.heightIndex
        ensures s.heightIndex[id] in s.heightMap && s.heightMap[s.heightIndex[id]] == id
      {
        var h :| 0 <= h < |ActivePath(s)| && ActivePath(s)[h] == id;
        assert s.heightMap[h] == id;
      }
    }
  }

  lemma {:induction false} PositionsListed(path: seq<nat>, n: nat)
    requires n <= |path|
    ensures forall id :: id in PositionMap(path, n) ==> PositionMap(path, n)[id] < n && path[PositionMap(path, n)[id]] == id
  {
    if n != 0 {
      PositionsListed(path, n - 1);
    }
  }

  /** An identifier of one node that the other node can resolve is an identifier there too. */
  lemma EntryKnown(c: Crypto, index: map<nat, Header>, links: map<nat, nat>, index2: map<nat, Header>, links2: map<nat, nat>, entry: nat)
    requires c.Sound() && IdsAreNotLinks(c) && IndexOk(c, index, links) && IndexOk(c, index2, links2)
    requires entry in index && (entry in index2 || entry in links2)
    ensures entry in index2 && c.Id(index2[entry]) == c.Id(index[entry])
  {
    hide IndexOk, IdsAreNotLinks, Crypto.Sound, Crypto.Id, Crypto.Link;
    IdOfEntry(c, index, links, entry);
    if entry in index2 {
      IdOfEntry(c, index2, links2, entry);
    } else {
      LinkOfEntry(c, index2, links2, entry);
      IdIsNotLink(c, index[entry], index2[links2[entry]]);
    }
  }

  lemma IdOfEntry(c: Crypto, index: map<nat, Header>, links: map<nat, nat>, id: nat)
    requires IndexOk(c, index, links) && id in index
    ensures c.Id(index[id]) == id
  {
  }

  lemma LinkOfEntry(c: Crypto, index: map<nat, Header>, links: map<nat, nat>, link: nat)
    requires IndexOk(c, index, links) && link in links
    ensures links[link] in index && c.Link(index[links[link]]) == link
  {
  }

  lemma IdIsNotLink(c: Crypto, h: Header, g: Header)
    requires IdsAreNotLinks(c)
    ensures c.Id(h) != c.Link(g)
  {
  }

  /** A locator entry with a known height is a block of the other node's active path with the same header. */
  lemma KnownEntry(c: Crypto, asker: State, other: State, r: Rules, entry: nat)
    requires r.c == c && c.Sound() && IdsAreNotLinks(c) && TablesOk(r, asker) && TablesOk(r, other) && OnlyActiveListed(other)
    requires entry in asker.index && HeightByHash(other, entry).Some?
    ensures var h := HeightByHash(other, entry).value;
            && h <= other.best && entry in other.index && other.index[entry] == asker.index[entry]
            && ActiveHeaders(r, other)[h] == other.index[entry]
  {
    hide PoolOk, WorkOk, HeightIndexOk, ChildrenOk, CheckpointOk, PathTo;
    EntryKnown(c, asker.index, asker.links, other.index, other.links, entry);
    c.IdInjective(other.index[entry], asker.index[entry]);
    var h := HeightByHash(other, entry).value;
    assert ActivePath(other)[h] == entry;
  }

  /** Where the answer starts: at the first block, or right after a block both nodes have active. */
  lemma {:induction false} StartShared(r: Rules, asker: State, other: State, locator: seq<nat>)
    requires r.c.Sound() && IdsAreNotLinks(r.c) && TablesOk(r, asker) && TablesOk(r, other) && OnlyActiveListed(other)
    requires AllActive(r, asker, locator)
    ensures var start := StartHeight(other, locator);
            start != 0 ==> start <= other.best + 1 && SharedAt(r, asker, other, start - 1)
  {
    hide TablesOk, HeightByHash, ActivePath, ActiveHeaders, SharedAt;
    if locator != [] {
      if HeightByHash(other, locator[0]).Some? {
        EntryActive(r, asker, locator[0]);
        KnownEntry(r.c, asker, other, r, locator[0]);
        EntryShared(r, asker, other, locator[0], HeightByHash(other, locator[0]).value);
      } else {
        StartShared(r, asker, other, locator[1..]);
      }
    }
  }

  /** The block at a height of the other node's active path is active at the same height here. */
  ghost predicate SharedAt(r: Rules, asker: State, other: State, h: nat)
    requires TablesOk(r, asker) && TablesOk(r, other)
  {
    h <= asker.best && h <= other.best && ActiveHeaders(r, asker)[..h + 1] == ActiveHeaders(r, other)[..h + 1]
  }

  ghost predicate AllActive(r: Rules, s: State, locator: seq<nat>)
    requires TablesOk(r, s)
  {
    forall i :: 0 <= i < |locator| ==> locator[i] in ActivePath(s)
  }

  lemma EntryActive(r: Rules, s: State, entry: nat)
    requires TablesOk(r, s) && entry in ActivePath(s)
    ensures entry in s.index && s.index[entry] in ActiveHeaders(r, s)
  {
    hide IndexOk, PoolOk, WorkOk, HeightIndexOk, ChildrenOk, CheckpointOk;
    var i: nat :| i < |ActivePath(s)| && ActivePath(s)[i] == entry;
    assert ActiveHeaders(r, s)[i] == s.index[entry];
  }

  lemma EntryShared(r: Rules, asker: State, other: State, entry: nat, h: nat)
    requires r.c.Sound() && TablesOk(r, asker) && TablesOk(r, other)
    requires entry in asker.index && asker.index[entry] in ActiveHeaders(r, asker)
    requires h <= other.best && ActiveHeaders(r, other)[h] == asker.index[entry]
    ensures SharedAt(r, asker, other, h)
  {
    hide TablesOk, ActiveHeaders;
    ActiveMeaning(r, asker);
    ActiveMeaning(r, other);
    var a, b := ActiveHeaders(r, asker), ActiveHeaders(r, other);
    var i: nat :| i < |a| && a[i] == asker.index[entry];
    LinkedAgree(r.c, a, b, i, h);
  }

  /** The batch passes all checks of the asker, which infers the true height of its first header. */
  ghost predicate BatchServed(c: Crypto, asker: State, start: nat, headers: seq<Header>) {
    BatchOk(c, asker, headers) && (headers != [] ==> InferredBase(asker, headers[0]) == start)
  }

  lemma ServedBatch(c: Crypto, asker: State, start: nat, headers: seq<Header>)
    requires BatchServed(c, asker, start, headers)
    ensures BatchOk(c, asker, headers) && (headers != [] ==> InferredBase(asker, headers[0]) == start)
  {
    hide BatchOk, InferredBase;
  }

  /** A batch off the other node's active path connects: it is empty, starts at the first block, or the asker
      can resolve the link of the active header just below its start. */
  ghost predicate Connects(r: Rules, asker: State, other: State, start: nat, headers: seq<Header>)
    requires TablesOk(r, other)
  {
    headers == [] || start == 0 || (start <= other.best && Canonical(asker, r.c.Link(ActiveHeaders(r, other)[start - 1])).Some?)
  }

  /** Main result: a batch off the other node's active path passes all checks exactly when it connects. */
  lemma PassesIfConnects(r: Rules, asker: State, other: State, start: nat, headers: seq<Header>)
    requires r.c.Sound() && TablesOk(r, other) && headers <= Segment(r, other, start, MAX_HEADERS_PER_MESSAGE)
    ensures BatchOk(r.c, asker, headers) <==> Connects(r, asker, other, start, headers)
  {
    hide TablesOk, ActiveHeaders, Segment, Canonical, Crypto.Sound, Crypto.Link;
    ActiveMeaning(r, other);
    SegmentShape(r, other, start, MAX_HEADERS_PER_MESSAGE);
    var segment := Segment(r, other, start, MAX_HEADERS_PER_MESSAGE);
    PrefixShape(r.c, segment, headers);
    if headers != [] && start != 0 {
      HasParent(r.c, ActiveHeaders(r, other), start);
    }
    FirstHasNone(r.c, ActiveHeaders(r, other));
  }

  lemma FirstHasNone(c: Crypto, hs: seq<Header>)
    requires Linked(c, hs)
    ensures hs[0].prev == 0
  {
  }

  lemma PrefixShape(c: Crypto, segment: seq<Header>, headers: seq<Header>)
    requires headers <= segment
    requires forall i :: 0 < i < |segment| ==> segment[i].prev == c.Link(segment[i - 1])
    ensures headers != [] ==> segment != [] && headers[0] == segment[0]
    ensures forall i :: 0 < i < |headers| ==> headers[i].prev == c.Link(headers[i - 1])
  {
    hide Crypto.Link;
    forall i | 0 < i < |headers|
      ensures headers[i].prev == c.Link(headers[i - 1])
    {
      assert headers[i] == segment[i] && headers[i - 1] == segment[i - 1];
    }
  }

  /** A link resolves exactly when its header is known. */
  lemma ResolvesIfKnown(c: Crypto, s: State, h: Header)
    requires c.Sound() && IdsAreNotLinks(c) && IndexOk(c, s.index, s.links)
    ensures Canonical(s, c.Link(h)).Some? <==> c.Id(h) in s.index && s.index[c.Id(h)] == h
  {
    hide IdsAreNotLinks, Crypto.Id, Crypto.Link;
    var link := c.Link(h);
    if link in s.index {
      IdOfEntry(c, s.index, s.links, link);
      IdIsNotLink(c, s.index[link], h);
    }
    if link in s.links {
      LinkOfEntry(c, s.index, s.links, link);
      IdOfEntry(c, s.index, s.links, s.links[link]);
    }
  }

  /** A batch off the other node's active path right after a shared block passes all checks, and the height
      inferred for its first header is the true one. */
  lemma SharedBatch(r: Rules, asker: State, other: State, start: nat, headers: seq<Header>)
    requires r.c.Sound() && IdsAreNotLinks(r.c) && TablesOk(r, asker) && TablesOk(r, other)
    requires headers <= Segment(r, other, start, MAX_HEADERS_PER_MESSAGE)
    requires start != 0 ==> SharedAt(r, asker, other, start - 1)
    ensures BatchServed(r.c, asker, start, headers)
  {
    hide TablesOk, ActiveHeaders, Segment, SharedAt, BatchOk, InferredBase, IdsAreNotLinks, Linked;
    ActiveMeaning(r, other);
    SegmentShape(r, other, start, MAX_HEADERS_PER_MESSAGE);
    PrefixShape(r.c, Segment(r, other, start, MAX_HEADERS_PER_MESSAGE), headers);
    if headers == [] {
      EmptyBatch(r.c, asker);
    } else {
      FirstFollows(r, asker, other, start);
      BatchFrom(r.c, asker, headers);
    }
  }

  lemma SegmentShape(r: Rules, s: State, start: nat, max: nat)
    requires TablesOk(r, s) && Linked(r.c, ActiveHeaders(r, s))
    ensures var headers := Segment(r, s, start, max);
            && |headers| <= max
            && (headers != [] ==> start <= s.best && headers[0] == ActiveHeaders(r, s)[start])
            && forall i :: 0 < i < |headers| ==> headers[i].prev == r.c.Link(headers[i - 1])
  {
    hide TablesOk, ActiveHeaders, Linked, Crypto.Link;
    if start <= s.best {
      SegmentLinked(r.c, ActiveHeaders(r, s), start, Min(start + max, s.best + 1));
    }
  }

  lemma EmptyBatch(c: Crypto, s: State)
    ensures BatchOk(c, s, [])
  {
  }

  lemma BatchFrom(c: Crypto, s: State, headers: seq<Header>)
    requires headers != [] && |headers| <= MAX_HEADERS_PER_MESSAGE
    requires headers[0].prev == 0 || Canonical(s, headers[0].prev).Some?
    requires forall i :: 0 < i < |headers| ==> headers[i].prev == c.Link(headers[i - 1])
    ensures BatchOk(c, s, headers)
  {
    hide Canonical, Crypto.Link;
  }

  lemma FirstFollows(r: Rules, asker: State, other: State, start: nat)
    requires r.c.Sound() && IdsAreNotLinks(r.c) && TablesOk(r, asker) && TablesOk(r, other) && start <= other.best
    requires start != 0 ==> SharedAt(r, asker, other, start - 1)
    ensures var first := ActiveHeaders(r, other)[start];
            && (first.prev == 0 || Canonical(asker, first.prev).Some?)
            && InferredBase(asker, first) == start
  {
    hide TablesOk, ActiveHeaders, Canonical, HeightByHash, SharedAt, IdsAreNotLinks, Crypto.Sound, Crypto.Link;
    ActiveMeaning(r, other);
    if start != 0 {
      SharedParent(r, asker, other, start - 1);
      ActiveParentKnown(r, asker, start - 1);
      assert ActiveHeaders(r, other)[start].prev == r.c.Link(ActiveHeaders(r, other)[start - 1]);
    }
  }

  lemma SharedParent(r: Rules, asker: State, other: State, h: nat)
    requires TablesOk(r, asker) && TablesOk(r, other) && SharedAt(r, asker, other, h)
    ensures h <= asker.best && h <= other.best && ActiveHeaders(r, asker)[h] == ActiveHeaders(r, other)[h]
  {
    hide TablesOk, ActiveHeaders;
    assert ActiveHeaders(r, asker)[..h + 1][h] == ActiveHeaders(r, other)[..h + 1][h];
  }

  lemma SegmentLinked(c: Crypto, hs: seq<Header>, start: nat, n: nat)
    requires Linked(c, hs) && start <= n <= |hs|
    ensures forall i :: 0 < i < n - start ==> hs[start..n][i].prev == c.Link(hs[start..n][i - 1])
  {
    forall i | 0 < i < n - start
      ensures hs[start..n][i].prev == c.Link(hs[start..n][i - 1])
    {
      assert hs[start + i].prev == c.Link(hs[start + i - 1]);
    }
  }

  lemma LinkResolves(c: Crypto, index: map<nat, Header>, links: map<nat, nat>, id: nat)
    requires c.Sound() && IdsAreNotLinks(c) && IndexOk(c, index, links) && id in index
    ensures var link := c.Link(index[id]); link != 0 && link !in index && link in links && links[link] == id
  {
    forall k | k in index
      ensures k != c.Link(index[id])
    {
      assert c.Id(index[k]) == k;
    }
  }

  /** The link of an active header resolves to its block and its height. */
  lemma ActiveParentKnown(r: Rules, s: State, h: nat)
    requires r.c.Sound() && IdsAreNotLinks(r.c) && TablesOk(r, s) && h <= s.best
    ensures var link := r.c.Link(ActiveHeaders(r, s)[h]);
            link != 0 && Canonical(s, link).Some? && HeightByHash(s, link) == Some(h)
  {
    hide IndexOk, PoolOk, ChildrenOk, CheckpointOk, PathTo, PathOf, WorkSum, BlockWork, WorkOk, IdsAreNotLinks, Crypto.Sound, Crypto.Link;
    ActiveMeaning(r, s);
    var id := s.heightMap[h];
    ActivePathAt(r, s, h);
    LinkResolves(r.c, s.index, s.links, id);
  }

  lemma ActivePathAt(r: Rules, s: State, h: nat)
    requires TablesOk(r, s) && h <= s.best
    ensures h in s.heightMap && s.heightMap[h] in s.index && s.heightMap[h] in s.heightIndex
    ensures ActiveHeaders(r, s)[h] == s.index[s.heightMap[h]]
  {
    hide IndexOk, PoolOk, ChildrenOk, CheckpointOk, WorkOk;
    assert ActivePath(s)[h] == s.heightMap[h];
  }

  lemma LocatorActive(r: Rules, s: State, max: nat, locator: seq<nat>)
    requires TablesOk(r, s) && IsLocator(s, max, locator)
    ensures AllActive(r, s, locator)
  {
    hide IndexOk, PoolOk, WorkOk, HeightIndexOk, ChildrenOk, CheckpointOk, PathTo, LocatorHeight;
    forall i | 0 <= i < |locator|
      ensures locator[i] in ActivePath(s)
    {
      assert ActivePath(s)[LocatorHeight(s.best, i)] == locator[i];
    }
  }

  /** Main result: what happens when one node asks another for headers. The answer is never held against the
      locator, and it is held against the batch exactly when the batch does not pass the checks. If the files
      read are honest, that is exactly when the batch does not connect. If moreover only the active path is
      listed, it never happens: the headers continue a chain both have active, and the height inferred from
      them is the true height of the last one. With all files written the batch is the whole piece of the path. */
  method HonestSync(asker: Node, other: Node) returns (locator: seq<nat>, headers: seq<Header>, offence: Option<Offence>, remoteHeight: Uint32)
    requires asker.Valid() && other.Valid() && asker.rules == other.rules
    ensures TablesOk(asker.rules, asker.View()) && TablesOk(asker.rules, other.View())
    ensures IsLocator(asker.View(), LOCATOR_ENTRIES, locator)
    ensures headers == FiledHeaders(other.store.byHeight, StartHeight(other.View(), locator), other.bestHeight, MAX_HEADERS_PER_MESSAGE)
    ensures offence.None? <==> BatchOk(asker.rules.c, asker.View(), headers)
    ensures var start := StartHeight(other.View(), locator);
            FiledHonestly(asker.rules, other.View(), other.store.byHeight, start) ==>
              && headers <= Segment(asker.rules, other.View(), start, MAX_HEADERS_PER_MESSAGE)
              && (offence.None? <==> Connects(asker.rules, asker.View(), other.View(), start, headers))
    ensures var start := StartHeight(other.View(), locator);
            FiledHonestly(asker.rules, other.View(), other.store.byHeight, start)
            && IdsAreNotLinks(asker.rules.c) && OnlyActiveListed(other.View()) ==>
              && offence.None?
              && (start != 0 ==> SharedAt(asker.rules, asker.View(), other.View(), start - 1))
              && (headers != [] ==> remoteHeight == Wrap32(start + |headers| - 1))
    ensures var start := StartHeight(other.View(), locator);
            other.synced ==>
              && FiledHonestly(asker.rules, other.View(), other.store.byHeight, start)
              && headers == Segment(asker.rules, other.View(), start, MAX_HEADERS_PER_MESSAGE)
  {
    hide *;
    asker.HasTables();
    other.IsValid();
    other.ViewFields();
    var r := asker.rules;
    locator := BlockLocator(asker, LOCATOR_ENTRIES);
    LocatorLength(asker.View(), locator);
    offence, headers := AnswerGetHeaders(other, locator);
    var wanted;
    offence, remoteHeight, wanted := ReceiveHeaders(asker, headers);
    HonestAnswer(r, asker.View(), other.View(), other.store.byHeight, locator, headers);
    if other.synced {
      FilesAreHonest(other, StartHeight(other.View(), locator));
    }
  }

  /** What honest files mean for the answer to a locator. */
  lemma HonestAnswer(r: Rules, asker: State, other: State, files: map<nat, Block>, locator: seq<nat>, headers: seq<Header>)
    requires r.c.Sound() && TablesOk(r, asker) && TablesOk(r, other) && IsLocator(asker, LOCATOR_ENTRIES, locator)
    requires headers == FiledHeaders(files, StartHeight(other, locator), other.best, MAX_HEADERS_PER_MESSAGE)
    ensures var start := StartHeight(other, locator);
            FiledHonestly(r, other, files, start) ==>
              && headers <= Segment(r, other, start, MAX_HEADERS_PER_MESSAGE)
              && (BatchOk(r.c, asker, headers) <==> Connects(r, asker, other, start, headers))
    ensures var start := StartHeight(other, locator);
            FiledHonestly(r, other, files, start) && IdsAreNotLinks(r.c) && OnlyActiveListed(other) ==>
              && BatchOk(r.c, asker, headers) && (start != 0 ==> SharedAt(r, asker, other, start - 1))
              && (headers != [] ==> InferredBase(asker, headers[0]) == start)
  {
    hide *;
    var start := StartHeight(other, locator);
    LocatorActive(r, asker, LOCATOR_ENTRIES, locator);
    if FiledHonestly(r, other, files, start) {
      FiledIsSegment(r, other, files, start, MAX_HEADERS_PER_MESSAGE);
      PassesIfConnects(r, asker, other, start, headers);
      if IdsAreNotLinks(r.c) && OnlyActiveListed(other) {
        StartShared(r, asker, other, locator);
        SharedBatch(r, asker, other, start, headers);
        ServedBatch(r.c, asker, start, headers);
      }
    }
  }

  lemma LocatorLength(s: State, locator: seq<nat>)
    requires IsLocator(s, LOCATOR_ENTRIES, locator)
    ensures |locator| <= MAX_LOCATOR_ENTRIES
  {
  }
}
