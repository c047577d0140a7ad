/** What a block's work says: the hashes its target takes on average. So harder blocks weigh more, and of two valid
    children of one parent the harder one wins. */
module Work {
  import opened Arith
  import opened CompactTarget
  import opened Primitives
  import opened PathValidation
  import opened ChainState
  import opened ChainSteps
  import opened ForkChoice
  import opened Effects
  import opened Delivery

  /** Canonical bits with a legal target. */
  predicate Counts(p: Params, bits: Bits) {
    IsCanonical(bits, 64) && PowTarget(p, bits).Some?
  }

  /** Main result: work times the number of digests that meet the target is the largest such multiple below 2^512, the
      number of all digests. Bits without a legal target count for nothing. */
  lemma WorkIsHashes(p: Params, bits: Bits)
    ensures Counts(p, bits) ==>
              Product(BlockWork(p, bits), Expand(bits) + 1) < Pow256(64) <= Product(BlockWork(p, bits) + 1, Expand(bits) + 1)
    ensures !Counts(p, bits) ==> BlockWork(p, bits) == 0
  {
    hide Pow256, Expand, Overflows, IsNegative, IsZero, PowLimit;
    hide Product;
    if Counts(p, bits) {
      QuotientBounds(Pow256(64) - 1, Expand(bits) + 1);
    }
  }

  lemma QuotientBounds(n: nat, d: nat)
    requires 0 < d
    ensures Product(Quotient(n, d), d) <= n < Product(Quotient(n, d) + 1, d)
  {
    DivMod(n, d);
    MulNext(n / d, d);
  }

  lemma MulNext(q: nat, d: nat)
    ensures Product(q + 1, d) == Product(q, d) + d
  {
  }

  /** Only one number fits between these bounds. */
  lemma MultipleUnique(v: nat, w: nat, d: nat, n: nat)
    requires Product(v, d) < n <= Product(w + 1, d)
    ensures v <= w
  {
    if w + 1 <= v {
      MulMono(w + 1, v, d);
    }
  }

  /** Main result: a smaller target never has less work, and half the target has at least twice the work. */
  lemma SmallerTargetMoreWork(p: Params, a: Bits, b: Bits)
    requires Counts(p, a) && Counts(p, b)
    ensures Expand(a) <= Expand(b) ==> BlockWork(p, b) <= BlockWork(p, a)
    ensures 2 * (Expand(a) + 1) <= Expand(b) + 1 ==> 2 * BlockWork(p, b) <= BlockWork(p, a)
  {
    hide Pow256, Expand, BlockWork, Counts;
    WorkIsHashes(p, a);
    WorkIsHashes(p, b);
    var wa, wb, ta, tb := BlockWork(p, a), BlockWork(p, b), Expand(a) + 1, Expand(b) + 1;
    if ta <= tb {
      MulMono(ta, tb, wb);
      MultipleUnique(wb, wa, ta, Pow256(64));
    }
    if 2 * ta <= tb {
      MulMono(2 * ta, tb, wb);
      assert 2 * wb * ta == 2 * ta * wb;
      MultipleUnique(2 * wb, wa, ta, Pow256(64));
    }
  }

  // ---------------------------------------------------------------------------
  // Two children of one parent
  // ---------------------------------------------------------------------------

  /** A new block whose parent is the tip's. */
  ghost predicate Sibling(s: State, id: nat) {
    id in s.index && id !in s.work && s.tip in s.index && s.index[id].prev == s.index[s.tip].prev && s.index[id].prev != 0
  }

  /** Its path is the active path with the last block exchanged, and so is its work. */
  lemma SiblingFacts(r: Rules, s: State, id: nat)
    requires TablesOk(r, s) && Sibling(s, id)
    ensures ParentConnected(s, s.index[id]) && 0 < s.best && |ActivePath(s)| == s.best + 1
    ensures CandidatePath(r, s, id) == ActivePath(s)[..s.best] + [id] && ActivePath(s)[s.best] != id
    ensures s.tip in s.work
            && CandidateWork(r, s, id) + BlockWork(r.p, s.index[s.tip].bits) == s.work[s.tip] + BlockWork(r.p, s.index[id].bits)
  {
    hide BlockWork, WorkSum, IndexOk, PoolOk, ChildrenOk, CheckpointOk, HeightIndexOk, CandidateWork, CandidatePath, PathTo, ActiveHeaders;
    TipIsLinked(r, s);
    ActivePathLength(r, s);
    LinkedWork(r, s, id);
    SiblingPath(r, s, id);
  }

  lemma TipIsLinked(r: Rules, s: State)
    requires TablesOk(r, s) && s.tip in s.index && s.index[s.tip].prev != 0
    ensures s.tip in s.work && WorkAt(r.p, s.index, s.links, s.work, s.heights, s.tip)
    ensures 0 < s.best && s.index[s.tip].prev in s.links && s.links[s.index[s.tip].prev] in s.work
  {
    hide BlockWork, WorkSum, IndexOk, PoolOk, ChildrenOk, CheckpointOk, HeightIndexOk, ActiveHeaders;
    ActiveMeaning(r, s);
    var path := ActivePath(s);
    assert path[s.best] == s.tip;
  }

  lemma SiblingPath(r: Rules, s: State, id: nat)
    requires TablesOk(r, s) && Sibling(s, id) && ParentConnected(s, s.index[id]) && |ActivePath(s)| == s.best + 1
    ensures CandidatePath(r, s, id) == ActivePath(s)[..s.best] + [id] && ActivePath(s)[s.best] == s.tip
  {
    hide BlockWork, WorkSum, IndexOk, PoolOk, ChildrenOk, CheckpointOk, HeightIndexOk, ActiveHeaders, PathTo;
    ActiveMeaning(r, s);
    var path := ActivePath(s);
    assert path == PathOf(r.p, s.index, s.links, s.work, s.heights, s.links[s.index[s.tip].prev]) + [s.tip];
    assert path[..s.best] + [path[s.best]] == path;
  }

  /** What the decision on a valid sibling depends on. */
  lemma SiblingJudged(r: Rules, s: State, id: nat, x: Context)
    requires TablesOk(r, s) && Sibling(s, id)
    ensures ParentConnected(s, s.index[id]) && s.checkpoint.Some?
    ensures PathValid(r, CandidateBlocks(r, s, id), x.now, x.skipPow) ==>
              Judge(r, s, id, x)
              == if BlockWork(r.p, s.index[id].bits) <= BlockWork(r.p, s.index[s.tip].bits) then Side
                 else if s.checkpoint.value.height == s.best then Mismatch
                 else if x.maxReorg == 0 && !x.allowDeepReorg then TooDeep
                 else Switch
  {
    hide TablesOk, BlockWork, CandidatePath, CandidateBlocks, CandidateWork, PathValid, CommonPrefix, ParentConnected;
    SiblingFacts(r, s, id);
    CheckpointIs(r, s);
    var active, path := ActivePath(s), CandidatePath(r, s, id);
    assert path[..s.best] == active[..s.best];
    CommonPrefixMeaning(active, path, s.best);
    CommonPrefixMeaning(active, path, s.best + 1);
    assert active[..s.best + 1][s.best] != path[..s.best + 1][s.best];
  }

  lemma CheckpointIs(r: Rules, s: State)
    requires TablesOk(r, s)
    ensures (forall h: nat :: h in s.heightMap <==> h <= s.best) && s.checkpoint.Some? && s.checkpoint.value.height <= s.best
    ensures |ActivePath(s)| == s.best + 1 && ActivePath(s)[s.checkpoint.value.height] == s.checkpoint.value.id
    ensures !s.pinned && 0 < s.best ==> s.checkpoint.value.height < s.best
  {
    hide IndexOk, PoolOk, WorkOk, ChildrenOk, HeightIndexOk, PathTo;
  }

  /** Main result: of two valid children of one parent, the one with at most half the target takes the place of the
      other as the tip, unless the checkpoint is at the tip or the policy allows no reorganisation. */
  lemma HarderSiblingWins(r: Rules, s: State, id: nat, x: Context)
    requires TablesOk(r, s) && Sibling(s, id) && Counts(r.p, s.index[id].bits) && Counts(r.p, s.index[s.tip].bits)
    requires 2 * (Expand(s.index[id].bits) + 1) <= Expand(s.index[s.tip].bits) + 1 && PowLimit(r.p) + 1 < Pow256(64)
    ensures ParentConnected(s, s.index[id]) && s.checkpoint.Some?
    ensures PathValid(r, CandidateBlocks(r, s, id), x.now, x.skipPow) ==>
              Judge(r, s, id, x)
              == if s.checkpoint.value.height == s.best then Mismatch
                 else if x.maxReorg == 0 && !x.allowDeepReorg then TooDeep
                 else Switch
  {
    hide TablesOk, BlockWork, CandidateBlocks, Judge, PathValid, ParentConnected, Expand, Pow256, IsCanonical, IsNegative, IsZero, Overflows;
    SiblingJudged(r, s, id, x);
    SmallerTargetMoreWork(r.p, s.index[id].bits, s.index[s.tip].bits);
    LegalTargetHasWork(r.p, s.index[s.tip].bits);
  }

  /** Main result: one with the same or an easier target stays on the side. */
  lemma EasierSiblingStays(r: Rules, s: State, id: nat, x: Context)
    requires TablesOk(r, s) && Sibling(s, id) && Counts(r.p, s.index[id].bits) && Counts(r.p, s.index[s.tip].bits)
    requires Expand(s.index[s.tip].bits) <= Expand(s.index[id].bits)
    ensures ParentConnected(s, s.index[id])
    ensures PathValid(r, CandidateBlocks(r, s, id), x.now, x.skipPow) ==> Judge(r, s, id, x) == Side
  {
    hide TablesOk, BlockWork, CandidateBlocks, Judge, PathValid, ParentConnected, Counts, Expand;
    SiblingJudged(r, s, id, x);
    SmallerTargetMoreWork(r.p, s.index[s.tip].bits, s.index[id].bits);
  }
}
