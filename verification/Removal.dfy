/** Forgetting an invalid block and the parked blocks below it. */
module Removal {
  import opened Arith
  import opened CompactTarget
  import opened Primitives
  import opened Utxo
  import opened PathValidation
  import opened ChainState
  import opened ChainSteps
  import opened ForkChoice
  import opened Paths

  // ---------------------------------------------------------------------------
  // Descendants
  // ---------------------------------------------------------------------------

  /** The children table lists `child` under `parent`. */
  ghost predicate Lists(c: Crypto, index: map<nat, Header>, children: map<nat, seq<nat>>, parent: nat, child: nat) {
    parent in index && c.Link(index[parent]) in children && child in children[c.Link(index[parent])]
  }

  /** `trace` leads from `root` down to `id` along the children table. */
  ghost predicate Descent(c: Crypto, index: map<nat, Header>, children: map<nat, seq<nat>>, trace: seq<nat>, root: nat, id: nat) {
    && trace != [] && trace[0] == root && trace[|trace| - 1] == id
    && forall i :: 0 < i < |trace| ==> Lists(c, index, children, trace[i - 1], trace[i])
  }

  ghost predicate Descends(c: Crypto, index: map<nat, Header>, children: map<nat, seq<nat>>, root: nat, id: nat) {
    exists trace :: Descent(c, index, children, trace, root, id)
  }

  lemma RootDescends(c: Crypto, index: map<nat, Header>, children: map<nat, seq<nat>>, root: nat)
    ensures Descends(c, index, children, root, root)
  {
    assert Descent(c, index, children, [root], root, root);
  }

  lemma KidDescends(c: Crypto, index: map<nat, Header>, children: map<nat, seq<nat>>, root: nat, id: nat, kid: nat)
    requires Descends(c, index, children, root, id) && Lists(c, index, children, id, kid)
    ensures Descends(c, index, children, root, kid)
  {
    hide Lists;
    var trace :| Descent(c, index, children, trace, root, id);
    assert Descent(c, index, children, trace + [kid], root, kid);
  }

  /** A set that holds the root and all children of its members holds every descendant. */
  lemma {:induction false} ClosedHoldsDescent(c: Crypto, index: map<nat, Header>, children: map<nat, seq<nat>>, root: nat,
                                              closed: set<nat>, trace: seq<nat>, id: nat)
    requires root in closed && Descent(c, index, children, trace, root, id)
    requires forall a, b :: a in closed && Lists(c, index, children, a, b) ==> b in closed
    ensures id in closed
    decreases |trace|
  {
    hide Lists;
    if 1 < |trace| {
      var front := trace[..|trace| - 1];
      ClosedHoldsDescent(c, index, children, root, closed, front, front[|front| - 1]);
      assert Lists(c, index, children, trace[|trace| - 2], id);
    }
  }

  lemma ClosedHoldsDescendants(c: Crypto, index: map<nat, Header>, children: map<nat, seq<nat>>, root: nat, closed: set<nat>)
    requires root in closed
    requires forall a, b :: a in closed && Lists(c, index, children, a, b) ==> b in closed
    ensures forall id :: Descends(c, index, children, root, id) ==> id in closed
  {
    hide Lists, Descent;
    forall id | Descends(c, index, children, root, id)
      ensures id in closed
    {
      var trace :| Descent(c, index, children, trace, root, id);
      ClosedHoldsDescent(c, index, children, root, closed, trace, id);
    }
  }

  /** What `current` lists, as the node looks it up. */
  function KidsOf(c: Crypto, index: map<nat, Header>, children: map<nat, seq<nat>>, current: nat): (kids: seq<nat>)
    ensures forall kid :: kid in kids <==> Lists(c, index, children, current, kid)
  {
    if current in index && c.Link(index[current]) in children then children[c.Link(index[current])] else []
  }

  lemma KidsDescend(c: Crypto, index: map<nat, Header>, children: map<nat, seq<nat>>, root: nat, current: nat)
    requires Descends(c, index, children, root, current)
    ensures forall kid :: kid in KidsOf(c, index, children, current) ==> Descends(c, index, children, root, kid)
  {
    hide Lists, Descends, KidsOf;
    forall kid | kid in KidsOf(c, index, children, current)
      ensures Descends(c, index, children, root, kid)
    {
      KidDescends(c, index, children, root, current, kid);
    }
  }

  /** The root and everything the children table lists below it, and nothing else. */
  method CollectSubtree(c: Crypto, index: map<nat, Header>, children: map<nat, seq<nat>>, root: nat) returns (list: seq<nat>)
    ensures root in list
    ensures forall id :: id in list <==> Descends(c, index, children, root, id)
  {
    hide Descends, Lists, KidsOf;
    ghost var universe := {root} + set l, k | l in children && k in children[l] :: k;
    var stack := [root];
    var seen: set<nat> := {};
    list := [];
    RootDescends(c, index, children, root);
    while stack != []
      invariant forall k :: k in stack ==> k in universe && Descends(c, index, children, root, k)
      invariant seen <= universe
      invariant root in seen || root in stack
      invariant forall k :: k in list <==> k in seen
      invariant forall k :: k in seen ==> Descends(c, index, children, root, k)
      invariant forall a, b :: a in seen && Lists(c, index, children, a, b) ==> b in seen || b in stack
      decreases universe - seen, |stack|
    {
      var current := stack[|stack| - 1];
      ghost var before := stack;
      stack := stack[..|stack| - 1];
      assert forall k :: k in before <==> k in stack || k == current;
      if current in seen {
        continue;
      }
      seen := seen + {current};
      KidsDescend(c, index, children, root, current);
      KidsInUniverse(c, index, children, current);
      stack := stack + KidsOf(c, index, children, current);
      list := list + [current];
    }
    ClosedHoldsDescendants(c, index, children, root, seen);
  }

  lemma KidsInUniverse(c: Crypto, index: map<nat, Header>, children: map<nat, seq<nat>>, current: nat)
    ensures forall k :: k in KidsOf(c, index, children, current) ==> exists l :: l in children && k in children[l]
  {
    hide Lists;
  }

  /** Exactly the unlisted blocks from `root` down are gone; what is left is rebuilt: work for exactly the
      blocks a path leads to, all of those that have a parent listed with their height, and every block under
      its parent link. */
  ghost predicate Purged(c: Crypto, s: State, t: State, root: nat) {
    && (forall id :: id in t.index <==> id in s.index && (id in s.heightIndex || !Descends(c, s.index, s.children, root, id)))
    && (forall id :: id in t.index ==> t.index[id] == s.index[id])
    && (forall id :: id in t.index ==> (id in t.work <==> Connected(t.index, t.links, id)))
    && (forall id :: id in t.index && t.index[id].prev != 0 ==>
          t.index[id].prev in t.children && id in t.children[t.index[id].prev])
    && AllListed(t.index, t.work, t.heightIndex)
  }

  lemma PurgedIs(c: Crypto, s: State, t: State, root: nat, doomed: set<nat>)
    requires t.index == s.index - doomed
    requires forall id :: id in doomed <==> id !in s.heightIndex && Descends(c, s.index, s.children, root, id)
    requires forall id :: id in t.index ==> (id in t.work <==> Connected(t.index, t.links, id))
    requires forall id :: id in t.index && t.index[id].prev != 0 ==>
               t.index[id].prev in t.children && id in t.children[t.index[id].prev]
    requires AllListed(t.index, t.work, t.heightIndex)
    ensures Purged(c, s, t, root)
  {
    hide Descends, Connected, AllListed;
  }

  /** The tables without the given blocks. */
  function Without(s: State, doomed: set<nat>): State {
    s.(index := s.index - doomed,
       pool := s.pool - doomed,
       work := s.work - doomed,
       heights := s.heights - doomed,
       links := map l | l in s.links && s.links[l] !in doomed :: s.links[l])
  }

  lemma WithoutIndexOk(c: Crypto, s: State, doomed: set<nat>)
    requires IndexOk(c, s.index, s.links)
    ensures IndexOk(c, Without(s, doomed).index, Without(s, doomed).links)
  {
  }

  /** A path that avoids the removed blocks survives. */
  lemma WithoutPath(s: State, doomed: set<nat>, path: seq<nat>, tip: nat)
    requires PathTo(s.index, s.links, path, tip)
    requires forall i :: 0 <= i < |path| ==> path[i] !in doomed
    ensures PathTo(Without(s, doomed).index, Without(s, doomed).links, path, tip)
  {
    var t := Without(s, doomed);
    forall i | 0 < i < |path|
      ensures StepsTo(t.index, t.links, path[i - 1], path[i])
    {
      assert StepsTo(s.index, s.links, path[i - 1], path[i]);
    }
  }

  /** Removing blocks off the active path and rebuilding the rest leaves consistent tables. */
  lemma RebuiltTables(r: Rules, s: State, doomed: set<nat>, t: State)
    requires TablesOk(r, s) && doomed !! s.heightIndex.Keys
    requires t == Without(s, doomed).(children := t.children, work := t.work, heights := t.heights, heightIndex := t.heightIndex)
    requires ChildrenOk(t.index, t.children) && WorkOk(r.p, t.index, t.links, t.work, t.heights)
    requires HeightIndexOk(t.heightIndex, t.work, t.heights)
    requires forall i :: 0 <= i < |ActivePath(s)| ==> ActivePath(s)[i] in t.work && ActivePath(s)[i] in t.heightIndex
    ensures TablesOk(r, t) && ActivePath(t) == ActivePath(s)
  {
    hide IndexOk, PoolOk, WorkOk, PathTo, HeightIndexOk, ChildrenOk;
    WithoutIndexOk(r.c, s, doomed);
    WithoutPoolOk(s, doomed);
    ActiveAvoids(s, doomed);
    ActiveIsPath(s);
    WithoutPath(s, doomed, ActivePath(s), s.tip);
    RebuiltActive(s, t);
    hide ActiveOk;
  }

  lemma ActiveIsPath(s: State)
    requires ActiveOk(s)
    ensures PathTo(s.index, s.links, ActivePath(s), s.tip)
  {
  }

  lemma WithoutPoolOk(s: State, doomed: set<nat>)
    requires PoolOk(s.index, s.pool)
    ensures PoolOk(Without(s, doomed).index, Without(s, doomed).pool)
  {
  }

  lemma ActiveAvoids(s: State, doomed: set<nat>)
    requires ActiveOk(s) && doomed !! s.heightIndex.Keys
    ensures forall i :: 0 <= i < |ActivePath(s)| ==> ActivePath(s)[i] !in doomed
    ensures s.tip !in doomed
  {
    assert ActivePath(s)[s.best] == s.tip;
    hide PathTo;
    forall i | 0 <= i < |ActivePath(s)|
      ensures ActivePath(s)[i] !in doomed
    {
      assert s.heightMap[i] in s.heightIndex;
    }
  }

  lemma RebuiltActive(s: State, t: State)
    requires ActiveOk(s)
    requires t.best == s.best && t.tip == s.tip && t.tipBits == s.tipBits && t.heightMap == s.heightMap
    requires PathTo(t.index, t.links, ActivePath(s), s.tip)
    requires s.tip in t.index && t.index[s.tip] == s.index[s.tip]
    requires forall i :: 0 <= i < |ActivePath(s)| ==> ActivePath(s)[i] in t.work && ActivePath(s)[i] in t.heightIndex
    ensures ActiveOk(t) && ActivePath(t) == ActivePath(s)
  {
    hide PathTo;
    assert ActivePath(t) == ActivePath(s);
    forall h: nat | h <= t.best
      ensures t.heightMap[h] in t.work && t.heightMap[h] in t.heightIndex
    {
      assert ActivePath(s)[h] == t.heightMap[h];
    }
  }
}
