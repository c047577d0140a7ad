/** Walking the tables: the path from a block to the first block, the subtree below a block, and the
    fixpoint that recomputes height and work of every connected block. */
module Paths {
  import opened Arith
  import opened CompactTarget
  import opened Primitives
  import opened PathValidation
  import opened ChainState
  import opened ChainSteps
  import opened ForkChoice

  // ---------------------------------------------------------------------------
  // Path to the first block
  // ---------------------------------------------------------------------------

  ghost predicate EndsWith(q: seq<nat>, t: seq<nat>) {
    |t| <= |q| && q[|q| - |t|..] == t
  }

  /** A stretch of parent links that ends at `tip`. */
  ghost predicate Stretch(index: map<nat, Header>, links: map<nat, nat>, t: seq<nat>, tip: nat) {
    && t != [] && t[|t| - 1] == tip
    && forall i :: 0 < i < |t| ==> StepsTo(index, links, t[i - 1], t[i])
  }

  lemma StretchGrows(index: map<nat, Header>, links: map<nat, nat>, t: seq<nat>, tip: nat, parent: nat)
    requires Stretch(index, links, t, tip) && StepsTo(index, links, parent, t[0])
    ensures Stretch(index, links, [parent] + t, tip)
  {
    var u := [parent] + t;
    forall i | 0 < i < |u|
      ensures StepsTo(index, links, u[i - 1], u[i])
    {
      if i > 1 {
        assert StepsTo(index, links, t[i - 2], t[i - 1]);
      }
    }
  }

  /** Every path to the tip that ends with a stretch also ends with the stretch one step longer. */
  lemma EndsWithGrows(index: map<nat, Header>, links: map<nat, nat>, q: seq<nat>, t: seq<nat>, tip: nat)
    requires PathTo(index, links, q, tip) && t != [] && EndsWith(q, t)
    requires t[0] in index && index[t[0]].prev != 0
    ensures index[t[0]].prev in links && EndsWith(q, [links[index[t[0]].prev]] + t)
  {
    var k := |q| - |t|;
    assert q[k] == t[0];
    assert k > 0;
    assert StepsTo(index, links, q[k - 1], q[k]);
    assert q[k - 1..] == [q[k - 1]] + q[k..];
  }

  lemma StretchToPath(index: map<nat, Header>, links: map<nat, nat>, t: seq<nat>, tip: nat)
    requires Stretch(index, links, t, tip) && t[0] in index && index[t[0]].prev == 0
    ensures PathTo(index, links, t, tip)
  {
    forall i | 0 <= i < |t|
      ensures t[i] in index
    {
      if 0 < i {
        assert StepsTo(index, links, t[i - 1], t[i]);
      }
    }
  }

  lemma NoRepeatOnPath(index: map<nat, Header>, links: map<nat, nat>, q: seq<nat>, t: seq<nat>, tip: nat, i: nat)
    requires PathTo(index, links, q, tip) && EndsWith(q, t) && 0 < i < |t|
    ensures t[0] != t[i]
  {
    var k := |q| - |t|;
    assert q[k] == t[0] && q[k + i] == t[i];
    PathToDistinct(index, links, q, tip, k, k + i);
  }

  /** Follows parent links from `tip`; succeeds exactly when a path to a first block exists. */
  method BuildPathToGenesis(index: map<nat, Header>, links: map<nat, nat>, tip: nat) returns (ok: bool, path: seq<nat>)
    ensures ok ==> PathTo(index, links, path, tip)
    ensures !ok ==> forall q :: !PathTo(index, links, q, tip)
  {
    hide PathTo, Stretch, EndsWith, StepsTo;
    var seen: set<nat> := {};
    var cursor := tip;
    path := [tip];
    StretchStart(index, links, tip);
    while true
      invariant path != [] && path[0] == cursor && Stretch(index, links, path, tip)
      invariant forall q :: PathTo(index, links, q, tip) ==> EndsWith(q, path)
      invariant forall id :: id in seen ==> id in path[1..]
      invariant seen <= index.Keys
      decreases index.Keys - seen
    {
      if cursor in seen {
        var i :| 0 <= i < |path[1..]| && path[1..][i] == cursor;
        forall q
          ensures !PathTo(index, links, q, tip)
        {
          if PathTo(index, links, q, tip) {
            NoRepeatOnPath(index, links, q, path, tip, i + 1);
          }
        }
        return false, path;
      }
      if cursor !in index {
        forall q
          ensures !PathTo(index, links, q, tip)
        {
          if PathTo(index, links, q, tip) {
            OnPathInIndex(index, links, q, path, tip);
          }
        }
        return false, path;
      }
      seen := seen + {cursor};
      var prev := index[cursor].prev;
      if prev == 0 {
        StretchToPath(index, links, path, tip);
        return true, path;
      }
      if prev !in links {
        forall q
          ensures !PathTo(index, links, q, tip)
        {
          if PathTo(index, links, q, tip) {
            EndsWithGrows(index, links, q, path, tip);
          }
        }
        return false, path;
      }
      forall q | PathTo(index, links, q, tip)
        ensures EndsWith(q, [links[prev]] + path)
      {
        EndsWithGrows(index, links, q, path, tip);
      }
      StepsIntro(index, links, cursor);
      StretchGrows(index, links, path, tip, links[prev]);
      assert ([links[prev]] + path)[1..] == path;
      cursor := links[prev];
      path := [cursor] + path;
    }
  }

  lemma StepsIntro(index: map<nat, Header>, links: map<nat, nat>, child: nat)
    requires child in index && index[child].prev != 0 && index[child].prev in links
    ensures StepsTo(index, links, links[index[child].prev], child)
  {
  }

  lemma StretchStart(index: map<nat, Header>, links: map<nat, nat>, tip: nat)
    ensures Stretch(index, links, [tip], tip)
    ensures forall q :: PathTo(index, links, q, tip) ==> EndsWith(q, [tip])
  {
    forall q | PathTo(index, links, q, tip)
      ensures EndsWith(q, [tip])
    {
      assert q[|q| - 1..] == [tip];
    }
  }

  lemma OnPathInIndex(index: map<nat, Header>, links: map<nat, nat>, q: seq<nat>, t: seq<nat>, tip: nat)
    requires PathTo(index, links, q, tip) && EndsWith(q, t) && t != []
    ensures t[0] in index
  {
    assert q[|q| - |t|] == t[0];
  }

  // ---------------------------------------------------------------------------
  // The rebuild fixpoint
  // ---------------------------------------------------------------------------

  /** Nothing more can be learnt about this block: it is done or its parent is missing or not done. */
  ghost predicate Settled(index: map<nat, Header>, links: map<nat, nat>, work: map<nat, nat>, id: nat)
    requires id in index
  {
    id in work || (index[id].prev != 0 && (index[id].prev in links ==> links[index[id].prev] !in work))
  }

  /** The heights of blocks with work follow from their parents'. */
  ghost predicate FixpointOk(p: Params, index: map<nat, Header>, links: map<nat, nat>,
                             work: map<nat, nat>, heights: map<nat, nat>)
  {
    forall id :: id in work ==> WorkAt(p, index, links, work, heights, id)
  }

  /** A settled table has every block that is connected to a first block. */
  lemma {:induction false} SettledIsComplete(p: Params, index: map<nat, Header>, links: map<nat, nat>, work: map<nat, nat>,
                                             path: seq<nat>, tip: nat)
    requires forall id :: id in index ==> Settled(index, links, work, id)
    requires PathTo(index, links, path, tip)
    ensures tip in work
    decreases |path|
  {
    assert Settled(index, links, work, tip);
    if |path| > 1 {
      assert StepsTo(index, links, path[|path| - 2], tip);
      PathToPrefix(index, links, path, tip, |path| - 1);
      SettledIsComplete(p, index, links, work, path[..|path| - 1], path[|path| - 2]);
    }
  }

  lemma FixpointAdd(p: Params, index: map<nat, Header>, links: map<nat, nat>, work: map<nat, nat>, heights: map<nat, nat>,
                    id: nat, height: nat, total: nat)
    requires FixpointOk(p, index, links, work, heights) && id in index && id !in work
    requires if index[id].prev == 0 then height == 0 && total == BlockWork(p, index[id].bits)
             else index[id].prev in links && links[index[id].prev] in work && links[index[id].prev] in heights
                  && height == heights[links[index[id].prev]] + 1
                  && total == work[links[index[id].prev]] + BlockWork(p, index[id].bits)
    ensures FixpointOk(p, index, links, work[id := total], heights[id := height])
  {
    hide BlockWork;
    var work', heights' := work[id := total], heights[id := height];
    forall k | k in work'
      ensures WorkAt(p, index, links, work', heights', k)
    {
      if k != id {
        assert WorkAt(p, index, links, work, heights, k);
      }
    }
  }

  /** Lists, for every parent link, the blocks that name it, in some order. */
  method CollectChildren(index: map<nat, Header>) returns (children: map<nat, seq<nat>>)
    ensures ChildrenOk(index, children)
    ensures forall id :: id in index && index[id].prev != 0 ==> index[id].prev in children && id in children[index[id].prev]
  {
    children := map[];
    var pending := index.Keys;
    while pending != {}
      invariant pending <= index.Keys && ChildrenOk(index, children)
      invariant forall id :: id in index && id !in pending && index[id].prev != 0 ==>
                  index[id].prev in children && id in children[index[id].prev]
      decreases |pending|
    {
      var id :| id in pending;
      pending := pending - {id};
      var prev := index[id].prev;
      if prev != 0 {
        ChildrenOkSnoc(index, children, prev, id);
        children := children[prev := (if prev in children then children[prev] else []) + [id]];
      }
    }
  }

  /** What the rebuild has found out so far. */
  datatype Found = Found(work: map<nat, nat>, heights: map<nat, nat>, heightIndex: map<nat, nat>)

  predicate Learnable(index: map<nat, Header>, links: map<nat, nat>, f: Found, id: nat)
    requires id in index
  {
    && id !in f.work
    && (index[id].prev == 0
        || (index[id].prev in links && links[index[id].prev] in f.work && links[index[id].prev] in f.heights))
  }

  function Learn(p: Params, index: map<nat, Header>, links: map<nat, nat>, f: Found, id: nat): Found
    requires id in index && Learnable(index, links, f, id)
  {
    var h := index[id];
    if h.prev == 0 then
      Found(f.work[id := BlockWork(p, h.bits)], f.heights[id := 0], f.heightIndex)
    else
      var parent := links[h.prev];
      var height := f.heights[parent] + 1;
      Found(f.work[id := f.work[parent] + BlockWork(p, h.bits)], f.heights[id := height], f.heightIndex[id := height])
  }

  /** Everything found is right, and nothing found before is lost or changed. */
  ghost predicate FoundOk(p: Params, index: map<nat, Header>, links: map<nat, nat>, start: Found, f: Found) {
    && FixpointOk(p, index, links, f.work, f.heights)
    && start.work.Keys <= f.work.Keys <= index.Keys
    && f.heights.Keys == start.heights.Keys + f.work.Keys
    && start.heightIndex.Keys <= f.heightIndex.Keys <= start.heightIndex.Keys + f.work.Keys
    && (forall id :: id in f.heightIndex ==> HeightIndexAt(start, f, id))
    && AllListed(index, f.work, f.heightIndex)
  }

  /** Every block with work and a parent has a listed height, active or not. */
  ghost predicate AllListed(index: map<nat, Header>, work: map<nat, nat>, heightIndex: map<nat, nat>) {
    forall id :: id in work && id in index && index[id].prev != 0 ==> id in heightIndex
  }

  /** A listed height was preset or equals the recorded height. */
  ghost predicate HeightIndexAt(start: Found, f: Found, id: nat)
    requires id in f.heightIndex
  {
    || (id in start.heightIndex && f.heightIndex[id] == start.heightIndex[id])
    || (id in f.work && id in f.heights && f.heightIndex[id] == f.heights[id])
  }

  lemma LearnHeightIndex(p: Params, index: map<nat, Header>, links: map<nat, nat>, start: Found, f: Found, id: nat)
    requires id in index && Learnable(index, links, f, id)
    requires forall k :: k in f.heightIndex ==> HeightIndexAt(start, f, k)
    ensures var g := Learn(p, index, links, f, id);
            forall k :: k in g.heightIndex ==> HeightIndexAt(start, g, k)
  {
    hide BlockWork;
    var g := Learn(p, index, links, f, id);
    forall k | k in g.heightIndex
      ensures HeightIndexAt(start, g, k)
    {
      if k != id {
        assert HeightIndexAt(start, f, k);
      }
    }
  }

  lemma LearnKeeps(p: Params, index: map<nat, Header>, links: map<nat, nat>, start: Found, f: Found, id: nat)
    requires FoundOk(p, index, links, start, f) && id in index && Learnable(index, links, f, id)
    ensures FoundOk(p, index, links, start, Learn(p, index, links, f, id))
    ensures f.work.Keys < Learn(p, index, links, f, id).work.Keys
  {
    hide Learn, FixpointOk, HeightIndexAt, Learnable, AllListed;
    LearnHeightIndex(p, index, links, start, f, id);
    LearnKeys(p, index, links, f, id);
    LearnFixpoint(p, index, links, f, id);
  }

  lemma LearnKeys(p: Params, index: map<nat, Header>, links: map<nat, nat>, f: Found, id: nat)
    requires id in index && Learnable(index, links, f, id)
    ensures var g := Learn(p, index, links, f, id);
            && id !in f.work
            && g.work.Keys == f.work.Keys + {id} && g.heights.Keys == f.heights.Keys + {id}
            && f.heightIndex.Keys <= g.heightIndex.Keys <= f.heightIndex.Keys + {id}
            && (AllListed(index, f.work, f.heightIndex) ==> AllListed(index, g.work, g.heightIndex))
  {
    hide BlockWork;
  }

  lemma LearnFixpoint(p: Params, index: map<nat, Header>, links: map<nat, nat>, f: Found, id: nat)
    requires FixpointOk(p, index, links, f.work, f.heights) && id in index && Learnable(index, links, f, id)
    ensures var g := Learn(p, index, links, f, id);
            FixpointOk(p, index, links, g.work, g.heights)
  {
    hide BlockWork, FixpointOk;
    var g := Learn(p, index, links, f, id);
    FixpointAdd(p, index, links, f.work, f.heights, id, g.heights[id], g.work[id]);
  }

  /** One pass over all headers in some order. Without progress nothing changed and all are settled. */
  method RebuildPass(p: Params, index: map<nat, Header>, links: map<nat, nat>, ghost start: Found, f0: Found)
    returns (progressed: bool, f: Found)
    requires FoundOk(p, index, links, start, f0)
    ensures FoundOk(p, index, links, start, f)
    ensures progressed ==> f0.work.Keys < f.work.Keys
    ensures !progressed ==> f == f0 && forall id :: id in index ==> Settled(index, links, f.work, id)
  {
    hide FoundOk, Learn;
    progressed, f := false, f0;
    var pending := index.Keys;
    while pending != {}
      invariant pending <= index.Keys && FoundOk(p, index, links, start, f)
      invariant progressed ==> f0.work.Keys < f.work.Keys
      invariant !progressed ==> f == f0 && forall id :: id in index && id !in pending ==> Settled(index, links, f.work, id)
      decreases |pending|
    {
      var id :| id in pending;
      pending := pending - {id};
      NotLearnable(p, index, links, start, f, id);
      if Learnable(index, links, f, id) {
        LearnKeeps(p, index, links, start, f, id);
        f := Learn(p, index, links, f, id);
        progressed := true;
      }
    }
  }

  lemma NotLearnable(p: Params, index: map<nat, Header>, links: map<nat, nat>, start: Found, f: Found, id: nat)
    requires FoundOk(p, index, links, start, f) && id in index
    ensures Learnable(index, links, f, id) || Settled(index, links, f.work, id)
  {
    hide FixpointOk;
  }

  /** Heights of the active path, set before the fixpoint starts. */
  method PresetActive(path: seq<nat>) returns (positions: map<nat, nat>)
    ensures positions == PositionMap(path, |path|)
  {
    positions := map[];
    for h := 0 to |path|
      invariant positions == PositionMap(path, h)
    {
      positions := positions[path[h] := h];
    }
  }

  /** Repeats passes until one makes no progress. */
  method RebuildFixpoint(p: Params, index: map<nat, Header>, links: map<nat, nat>, preset: map<nat, nat>) returns (f: Found)
    ensures FoundOk(p, index, links, Found(map[], preset, preset), f)
    ensures forall id :: id in index ==> Settled(index, links, f.work, id)
  {
    ghost var start := Found(map[], preset, preset);
    f := Found(map[], preset, preset);
    var progressed := true;
    while progressed
      invariant FoundOk(p, index, links, start, f)
      invariant !progressed ==> forall id :: id in index ==> Settled(index, links, f.work, id)
      decreases index.Keys - f.work.Keys, progressed
    {
      hide FoundOk, Settled;
      ghost var before := f;
      WorkWithinIndex(p, index, links, start, f);
      progressed, f := RebuildPass(p, index, links, start, f);
      WorkWithinIndex(p, index, links, start, f);
    }
  }

  lemma WorkWithinIndex(p: Params, index: map<nat, Header>, links: map<nat, nat>, start: Found, f: Found)
    requires FoundOk(p, index, links, start, f)
    ensures f.work.Keys <= index.Keys
  {
  }

  /** A block that some path of the tables leads to. */
  ghost predicate Connected(index: map<nat, Header>, links: map<nat, nat>, id: nat) {
    exists path :: PathTo(index, links, path, id)
  }

  /** Every position of the preset path is found, with the preset height. */
  lemma PresetFound(p: Params, index: map<nat, Header>, links: map<nat, nat>, path: seq<nat>, tip: nat, f: Found, i: nat)
    requires PathTo(index, links, path, tip) && i < |path|
    requires forall id :: id in index ==> Settled(index, links, f.work, id)
    ensures path[i] in f.work
    ensures WorkOk(p, index, links, f.work, f.heights) ==> path[i] in f.heights && f.heights[path[i]] == i
  {
    PathToPrefix(index, links, path, tip, i + 1);
    SettledIsComplete(p, index, links, f.work, path[..i + 1], path[i]);
    if WorkOk(p, index, links, f.work, f.heights) {
      WorkMeaning(p, index, links, f.work, f.heights, path[i]);
      PathToUnique(index, links, path[..i + 1], PathOf(p, index, links, f.work, f.heights, path[i]), path[i]);
    }
  }

  lemma FoundWork(p: Params, index: map<nat, Header>, links: map<nat, nat>, path: seq<nat>, tip: nat, f: Found)
    requires PathTo(index, links, path, tip)
    requires FoundOk(p, index, links, Found(map[], PositionMap(path, |path|), PositionMap(path, |path|)), f)
    requires forall id :: id in index ==> Settled(index, links, f.work, id)
    ensures WorkOk(p, index, links, f.work, f.heights)
  {
    var preset := PositionMap(path, |path|);
    PathDistinct(index, links, path, tip);
    PositionMapMeaning(path, |path|);
    hide PositionMap, Settled, PathTo, Distinct, WorkAt, HeightIndexAt, AllListed;
    forall id | id in preset
      ensures id in f.work
    {
      PresetFound(p, index, links, path, tip, f, preset[id]);
    }
    assert preset.Keys <= f.work.Keys;
  }

  lemma FoundHeightIndex(p: Params, index: map<nat, Header>, links: map<nat, nat>, path: seq<nat>, tip: nat, f: Found)
    requires PathTo(index, links, path, tip)
    requires FoundOk(p, index, links, Found(map[], PositionMap(path, |path|), PositionMap(path, |path|)), f)
    requires forall id :: id in index ==> Settled(index, links, f.work, id)
    requires WorkOk(p, index, links, f.work, f.heights)
    ensures HeightIndexOk(f.heightIndex, f.work, f.heights) && AllListed(index, f.work, f.heightIndex)
    ensures forall i :: 0 <= i < |path| ==> path[i] in f.work && path[i] in f.heightIndex
  {
    var preset := PositionMap(path, |path|);
    var start := Found(map[], preset, preset);
    assert forall id :: id in f.heightIndex ==> HeightIndexAt(start, f, id);
    assert preset.Keys <= f.heightIndex.Keys <= preset.Keys + f.work.Keys;
    PathDistinct(index, links, path, tip);
    PositionMapMeaning(path, |path|);
    hide PositionMap, Settled, PathTo, Distinct, WorkOk, FoundOk;
    forall id | id in preset
      ensures id in f.work && id in f.heights && f.heights[id] == preset[id]
    {
      PresetFound(p, index, links, path, tip, f, preset[id]);
    }
    forall i | 0 <= i < |path|
      ensures path[i] in f.work && path[i] in f.heightIndex
    {
      PresetFound(p, index, links, path, tip, f, i);
      assert path[i] in preset;
    }
    assert forall id :: id in f.heightIndex ==> id in f.work && id in f.heights && f.heightIndex[id] == f.heights[id] by {
      WorkOkKeys(p, index, links, f.work, f.heights);
      forall id | id in f.heightIndex
        ensures id in f.work && id in f.heights && f.heightIndex[id] == f.heights[id]
      {
        assert HeightIndexAt(start, f, id);
      }
    }
  }

  lemma WorkOkKeys(p: Params, index: map<nat, Header>, links: map<nat, nat>, work: map<nat, nat>, heights: map<nat, nat>)
    requires WorkOk(p, index, links, work, heights)
    ensures work.Keys == heights.Keys
  {
  }

  /** The recorded height and work are the length of the path to the block and the sum along it. */
  ghost predicate DescribedByPath(p: Params, index: map<nat, Header>, links: map<nat, nat>, f: Found, id: nat, path: seq<nat>)
    requires PathTo(index, links, path, id)
  {
    id in f.work && id in f.heights && f.heights[id] == |path| - 1 && f.work[id] == WorkSum(p, HeadersAt(index, path))
  }

  /** Exactly the connected blocks have work, and it is the sum along their path. */
  lemma FoundIsExact(p: Params, index: map<nat, Header>, links: map<nat, nat>, f: Found, id: nat)
    requires WorkOk(p, index, links, f.work, f.heights) && id in index
    requires forall k :: k in index ==> Settled(index, links, f.work, k)
    ensures id in f.work <==> Connected(index, links, id)
    ensures forall path :: PathTo(index, links, path, id) ==> DescribedByPath(p, index, links, f, id, path)
  {
    hide PathTo, Settled, WorkOk, WorkSum, BlockWork;
    WorkOkKeys(p, index, links, f.work, f.heights);
    if id in f.work {
      WorkMeaning(p, index, links, f.work, f.heights, id);
    }
    forall path | PathTo(index, links, path, id)
      ensures DescribedByPath(p, index, links, f, id, path)
    {
      SettledIsComplete(p, index, links, f.work, path, id);
      WorkMeaning(p, index, links, f.work, f.heights, id);
      PathToUnique(index, links, path, PathOf(p, index, links, f.work, f.heights, id), id);
    }
  }

  /** Recomputes children, work and heights from the header and link tables alone. Main result: whatever
      order the tables are walked in, the fixpoint terminates and gives work and height to exactly the
      blocks a path leads to, equal to the sum and the length of that path. */
  method Rebuild(p: Params, index: map<nat, Header>, links: map<nat, nat>, path: seq<nat>, ghost tip: nat)
    returns (children: map<nat, seq<nat>>, f: Found)
    requires PathTo(index, links, path, tip)
    ensures ChildrenOk(index, children)
    ensures forall id :: id in index && index[id].prev != 0 ==> index[id].prev in children && id in children[index[id].prev]
    ensures WorkOk(p, index, links, f.work, f.heights) && HeightIndexOk(f.heightIndex, f.work, f.heights)
    ensures AllListed(index, f.work, f.heightIndex)
    ensures forall i :: 0 <= i < |path| ==> path[i] in f.work && path[i] in f.heightIndex
    ensures forall id :: id in index ==> (id in f.work <==> Connected(index, links, id))
    ensures forall id, q :: id in index && PathTo(index, links, q, id) ==> DescribedByPath(p, index, links, f, id, q)
  {
    hide DescribedByPath, PathTo, Settled, WorkOk, HeightIndexOk, FoundOk, PositionMap, WorkSum, ChildrenOk, Connected, AllListed;
    children := CollectChildren(index);
    var positions := PresetActive(path);
    f := RebuildFixpoint(p, index, links, positions);
    FoundWork(p, index, links, path, tip, f);
    FoundHeightIndex(p, index, links, path, tip, f);
    forall id | id in index
      ensures id in f.work <==> Connected(index, links, id)
      ensures forall q :: PathTo(index, links, q, id) ==> DescribedByPath(p, index, links, f, id, q)
    {
      FoundIsExact(p, index, links, f, id);
    }
  }
}
