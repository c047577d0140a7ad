/** The merkle root as the node computes it, and what a root says about the transactions below it. */
module Merkle {
  import Arith
  import opened Primitives

  /** Reduces the hashes level by level; the last hash of an odd level is paired with itself. */
  method ComputeMerkleRoot(c: Crypto, txs: seq<Transaction>) returns (root: nat)
    ensures root == c.MerkleRoot(txs)
  {
    if txs == [] {
      return 0;
    }
    var hashes: seq<nat> := [];
    for i := 0 to |txs|
      invariant |hashes| == i && forall k :: 0 <= k < i ==> hashes[k] == c.txid(txs[k])
    {
      hashes := hashes + [c.txid(txs[i])];
    }
    assert hashes == c.TxIds(txs);
    while |hashes| > 1
      invariant hashes != [] && c.MerkleReduce(hashes) == c.MerkleRoot(txs)
      decreases |hashes|
    {
      hashes := ReduceLevel(c, hashes);
    }
    return hashes[0];
  }

  method ReduceLevel(c: Crypto, hashes: seq<nat>) returns (next: seq<nat>)
    requires 1 < |hashes|
    ensures next == c.MerkleLevel(hashes) && next != [] && |next| < |hashes|
  {
    var level := hashes;
    if |level| % 2 == 1 {
      LevelRepeatsLast(c, hashes);
      level := level + [level[|level| - 1]];
    }
    next := PairUp(c, level);
  }

  method PairUp(c: Crypto, level: seq<nat>) returns (next: seq<nat>)
    requires |level| % 2 == 0
    ensures next == c.MerkleLevel(level)
  {
    hide Crypto.MerkleLevel;
    next := [];
    var i := 0;
    assert level[0..] == level;
    while i < |level|
      invariant 0 <= i <= |level| && i % 2 == 0
      invariant next + c.MerkleLevel(level[i..]) == c.MerkleLevel(level)
      decreases |level| - i
    {
      LevelNext(c, level[i..]);
      assert level[i..][2..] == level[i + 2..];
      next := next + [c.pairHash(level[i], level[i + 1])];
      i := i + 2;
    }
    LevelNothing(c);
  }

  lemma LevelNext(c: Crypto, level: seq<nat>)
    requires 2 <= |level|
    ensures c.MerkleLevel(level) == [c.pairHash(level[0], level[1])] + c.MerkleLevel(level[2..])
  {
  }

  lemma LevelNothing(c: Crypto)
    ensures c.MerkleLevel([]) == []
  {
  }

  /** Different pairs have different hashes. */
  ghost predicate PairsInjective(c: Crypto) {
    forall a, b, x, y :: c.pairHash(a, b) == c.pairHash(x, y) ==> a == x && b == y
  }

  lemma {:induction false} LevelBinds(c: Crypto, a: seq<nat>, b: seq<nat>)
    requires PairsInjective(c) && |a| == |b| && c.MerkleLevel(a) == c.MerkleLevel(b)
    ensures a == b
    decreases |a|
  {
    if 2 <= |a| {
      assert c.MerkleLevel(a)[1..] == c.MerkleLevel(a[2..]);
      assert c.MerkleLevel(b)[1..] == c.MerkleLevel(b[2..]);
      assert c.MerkleLevel(a)[0] == c.MerkleLevel(b)[0];
      LevelBinds(c, a[2..], b[2..]);
      assert a == [a[0], a[1]] + a[2..];
      assert b == [b[0], b[1]] + b[2..];
    } else if |a| == 1 {
      assert c.MerkleLevel(a)[0] == c.MerkleLevel(b)[0];
    }
  }

  /** Main result: among lists of the same length the root determines the list. */
  lemma {:induction false} RootBinds(c: Crypto, a: seq<nat>, b: seq<nat>)
    requires PairsInjective(c) && a != [] && |a| == |b| && c.MerkleReduce(a) == c.MerkleReduce(b)
    ensures a == b
    decreases |a|
  {
    if 1 < |a| {
      RootBinds(c, c.MerkleLevel(a), c.MerkleLevel(b));
      LevelBinds(c, a, b);
    }
  }

  lemma {:induction false} LevelRepeatsLast(c: Crypto, a: seq<nat>)
    requires |a| % 2 == 1
    ensures c.MerkleLevel(a + [a[|a| - 1]]) == c.MerkleLevel(a)
    decreases |a|
  {
    var more := a + [a[|a| - 1]];
    if |a| == 1 {
      assert more[2..] == [];
    } else {
      LevelRepeatsLast(c, a[2..]);
      assert more[2..] == a[2..] + [a[2..][|a[2..]| - 1]];
    }
  }

  /** Lists of different lengths can share a root: repeating the last hash of an odd list of three or more
      changes nothing. */
  lemma RepeatedLastSameRoot(c: Crypto, a: seq<nat>)
    requires 3 <= |a| && |a| % 2 == 1
    ensures c.MerkleReduce(a + [a[|a| - 1]]) == c.MerkleReduce(a)
  {
    LevelRepeatsLast(c, a);
  }

  // ---------------------------------------------------------------------------
  // Which lists share a root
  // ---------------------------------------------------------------------------

  /** Fills up a list of `blocks` blocks of `size` entries by repeating the last block whenever the number of
      blocks is odd and above one, then takes blocks of twice the size. */
  function Padded(a: seq<nat>, size: nat, blocks: nat): (p: seq<nat>)
    requires 0 < size && 0 < blocks && |a| == Arith.Product(size, blocks)
    ensures |a| <= |p| && p[..|a|] == a
    decreases blocks
  {
    if blocks == 1 then a
    else
      LastBlockFits(size, blocks);
      if blocks % 2 == 1 then Padded(a + a[|a| - size..], 2 * size, (blocks + 1) / 2) else Padded(a, 2 * size, blocks / 2)
  }

  lemma LastBlockFits(size: nat, blocks: nat)
    requires 0 < size && 0 < blocks
    ensures size <= Arith.Product(size, blocks)
    ensures blocks % 2 == 1 ==> Arith.Product(size, blocks) + size == Arith.Product(2 * size, (blocks + 1) / 2)
    ensures blocks % 2 == 0 ==> Arith.Product(size, blocks) == Arith.Product(2 * size, blocks / 2)
    ensures Arith.Product(1, blocks) == blocks && Arith.Product(size, 1) == size
  {
    if blocks % 2 == 1 {
      var h := (blocks + 1) / 2;
      assert blocks == 2 * h - 1;
      assert size * (2 * h - 1) + size == (2 * size) * h;
    } else {
      var h := blocks / 2;
      assert blocks == 2 * h;
      assert size * (2 * h) == (2 * size) * h;
    }
    Arith.MulMono(1, blocks, size);
  }

  /** The leaves that a list stands for: the list filled up to the next power of two. */
  function Leaves(a: seq<nat>): (p: seq<nat>)
    requires a != []
    ensures |a| <= |p| && p[..|a|] == a
  {
    LastBlockFits(1, |a|);
    Padded(a, 1, |a|)
  }

  /** Lengths that halve down to one. */
  predicate Perfect(n: nat) {
    n == 1 || (0 < n && n % 2 == 0 && Perfect(n / 2))
  }

  /** The number of entries becomes the block size times a perfect number. */
  lemma {:induction false} PaddedPerfect(a: seq<nat>, size: nat, blocks: nat) returns (m: nat)
    requires 0 < size && 0 < blocks && |a| == Arith.Product(size, blocks)
    ensures Perfect(m) && |Padded(a, size, blocks)| == Arith.Product(size, m)
    ensures blocks != 1 ==> 1 < m
    decreases blocks
  {
    hide Arith.Product;
    LastBlockFits(size, blocks);
    if blocks == 1 {
      m := 1;
    } else {
      var half;
      if blocks % 2 == 1 {
        half := PaddedPerfect(a + a[|a| - size..], 2 * size, (blocks + 1) / 2);
      } else {
        half := PaddedPerfect(a, 2 * size, blocks / 2);
      }
      m := 2 * half;
      PerfectPositive(half);
      LastBlockFits(size, m);
    }
  }

  lemma PerfectPositive(n: nat)
    requires Perfect(n)
    ensures 0 < n
  {
  }

  lemma LeavesPerfect(a: seq<nat>)
    requires a != []
    ensures Perfect(|Leaves(a)|)
  {
    hide Arith.Product, Padded;
    LastBlockFits(1, |a|);
    var m := PaddedPerfect(a, 1, |a|);
    PerfectPositive(m);
    LastBlockFits(1, m);
  }

  // ---------------------------------------------------------------------------
  // Filling up keeps the root
  // ---------------------------------------------------------------------------

  /** Pairing up an even list followed by another is pairing up both. */
  lemma {:induction false} LevelJoins(c: Crypto, a: seq<nat>, b: seq<nat>)
    requires |a| % 2 == 0
    ensures c.MerkleLevel(a + b) == c.MerkleLevel(a) + c.MerkleLevel(b)
    decreases |a|
  {
    hide Crypto.MerkleLevel;
    if a == [] {
      LevelNothing(c);
      assert a + b == b;
    } else {
      LevelJoins(c, a[2..], b);
      LevelNext(c, a);
      LevelNext(c, a + b);
      assert (a + b)[2..] == a[2..] + b;
    }
  }

  /** Filling up a list of even blocks and pairing up is pairing up and filling up. */
  lemma {:induction false} LevelOfPadded(c: Crypto, a: seq<nat>, size: nat, blocks: nat)
    requires 0 < size && 0 < blocks && |a| == Arith.Product(2 * size, blocks)
    ensures |c.MerkleLevel(a)| == Arith.Product(size, blocks)
    ensures c.MerkleLevel(Padded(a, 2 * size, blocks)) == Padded(c.MerkleLevel(a), size, blocks)
    decreases blocks
  {
    hide Arith.Product, Crypto.MerkleLevel;
    HalfSize(size, blocks);
    if blocks != 1 {
      LastBlockFits(size, blocks);
      LastBlockFits(2 * size, blocks);
      if blocks % 2 == 1 {
        var front, last := a[..|a| - 2 * size], a[|a| - 2 * size..];
        assert a == front + last;
        LevelJoins(c, front, last);
        LevelJoins(c, a, last);
        assert c.MerkleLevel(a)[|c.MerkleLevel(a)| - size..] == c.MerkleLevel(last);
        LevelOfPadded(c, a + last, 2 * size, (blocks + 1) / 2);
      } else {
        LevelOfPadded(c, a, 2 * size, blocks / 2);
      }
    }
  }

  lemma HalfSize(size: nat, blocks: nat)
    ensures Arith.Product(2 * size, blocks) == 2 * Arith.Product(size, blocks)
  {
    assert (2 * size) * blocks == 2 * (size * blocks);
  }

  /** A list and its leaves have the same root. */
  lemma {:induction false} LeavesKeepRoot(c: Crypto, a: seq<nat>)
    requires a != []
    ensures c.MerkleReduce(Leaves(a)) == c.MerkleReduce(a)
    decreases |a|
  {
    hide Arith.Product, Crypto.MerkleLevel;
    LastBlockFits(1, |a|);
    if 1 < |a| {
      var even := if |a| % 2 == 1 then a + a[|a| - 1..] else a;
      var blocks := |even| / 2;
      if |a| % 2 == 1 {
        LevelRepeatsLast(c, a);
        assert a[|a| - 1..] == [a[|a| - 1]];
      }
      assert Leaves(a) == Padded(even, 2, blocks);
      LevelOfPadded(c, even, 1, blocks);
      LastBlockFits(1, blocks);
      assert c.MerkleLevel(Leaves(a)) == Leaves(c.MerkleLevel(even));
      LeavesKeepRoot(c, c.MerkleLevel(even));
    }
  }

  // ---------------------------------------------------------------------------
  // Leaves are determined by the root
  // ---------------------------------------------------------------------------

  lemma HalfPerfect(n: nat)
    requires 1 < n && Perfect(n)
    ensures n % 2 == 0 && Perfect(n / 2) && (n == 2 || (n / 2) % 2 == 0)
  {
  }

  /** The root of a perfect list of two or more is the hash of the roots of its halves. */
  lemma {:induction false} RootOfHalves(c: Crypto, a: seq<nat>)
    requires 1 < |a| && Perfect(|a|)
    ensures |a| % 2 == 0 && Perfect(|a| / 2)
    ensures c.MerkleReduce(a) == c.pairHash(c.MerkleReduce(a[..|a| / 2]), c.MerkleReduce(a[|a| / 2..]))
    ensures IsPair(c, c.MerkleReduce(a))
    decreases |a|
  {
    hide Crypto.MerkleLevel, Perfect;
    HalfPerfect(|a|);
    var h := |a| / 2;
    var left, right := a[..h], a[h..];
    if |a| == 2 {
      LevelNext(c, a);
      LevelNothing(c);
      assert c.MerkleLevel(a) == [c.pairHash(a[0], a[1])] + c.MerkleLevel(a[2..]);
      assert a[2..] == [];
    } else {
      assert a == left + right;
      LevelJoins(c, left, right);
      var next := c.MerkleLevel(a);
      RootOfHalves(c, next);
      assert next[..h / 2] == c.MerkleLevel(left) && next[h / 2..] == c.MerkleLevel(right);
    }
  }

  /** No entry is the hash of a pair, as the hashes of transactions and of pairs are told apart. */
  ghost predicate NoPairs(c: Crypto, a: seq<nat>) {
    forall i :: 0 <= i < |a| ==> !IsPair(c, a[i])
  }

  ghost predicate IsPair(c: Crypto, h: nat) {
    exists x, y :: c.pairHash(x, y) == h
  }

  /** Among perfect lists without pair hashes the root determines length and entries. */
  lemma {:induction false} PerfectBinds(c: Crypto, a: seq<nat>, b: seq<nat>)
    requires PairsInjective(c) && NoPairs(c, a) && NoPairs(c, b)
    requires Perfect(|a|) && Perfect(|b|) && c.MerkleReduce(a) == c.MerkleReduce(b)
    ensures a == b
    decreases |a|
  {
    hide Crypto.MerkleLevel, Perfect;
    PerfectPositive(|a|);
    PerfectPositive(|b|);
    if 1 < |a| { RootOfHalves(c, a); }
    if 1 < |b| { RootOfHalves(c, b); }
    if 1 < |a| && 1 < |b| {
      var g, h := |a| / 2, |b| / 2;
      PerfectBinds(c, a[..g], b[..h]);
      PerfectBinds(c, a[g..], b[h..]);
      assert a == a[..g] + a[g..] && b == b[..h] + b[h..];
    }
  }

  lemma {:induction false} PaddedNoPairs(c: Crypto, a: seq<nat>, size: nat, blocks: nat)
    requires 0 < size && 0 < blocks && |a| == Arith.Product(size, blocks) && NoPairs(c, a)
    ensures NoPairs(c, Padded(a, size, blocks))
    decreases blocks
  {
    hide Arith.Product, IsPair;
    if blocks != 1 {
      LastBlockFits(size, blocks);
      if blocks % 2 == 1 {
        PaddedNoPairs(c, a + a[|a| - size..], 2 * size, (blocks + 1) / 2);
      } else {
        PaddedNoPairs(c, a, 2 * size, blocks / 2);
      }
    }
  }

  /** Main result: two lists have the same root if and only if they stand for the same leaves. */
  lemma SameRootSameLeaves(c: Crypto, a: seq<nat>, b: seq<nat>)
    requires PairsInjective(c) && NoPairs(c, a) && NoPairs(c, b) && a != [] && b != []
    ensures c.MerkleReduce(a) == c.MerkleReduce(b) <==> Leaves(a) == Leaves(b)
  {
    hide Crypto.MerkleLevel, Crypto.MerkleReduce, Padded, NoPairs, Perfect, PairsInjective;
    LeavesKeepRoot(c, a);
    LeavesKeepRoot(c, b);
    LeavesPerfect(a);
    LeavesPerfect(b);
    LastBlockFits(1, |a|);
    LastBlockFits(1, |b|);
    PaddedNoPairs(c, a, 1, |a|);
    PaddedNoPairs(c, b, 1, |b|);
    if c.MerkleReduce(a) == c.MerkleReduce(b) {
      PerfectBinds(c, Leaves(a), Leaves(b));
    }
  }

  /** Main result: two non-empty lists of transactions share a merkle root if and only if their identifiers,
      filled up, are the same. */
  lemma SameBlockRoot(c: Crypto, x: seq<Transaction>, y: seq<Transaction>)
    requires PairsInjective(c) && x != [] && y != [] && forall tx :: !IsPair(c, c.txid(tx))
    ensures c.MerkleRoot(x) == c.MerkleRoot(y) <==> Leaves(c.TxIds(x)) == Leaves(c.TxIds(y))
  {
    hide Crypto.MerkleLevel, Crypto.MerkleReduce, Leaves, PairsInjective, IsPair;
    IdsAreNoPairs(c, x);
    IdsAreNoPairs(c, y);
    SameRootSameLeaves(c, c.TxIds(x), c.TxIds(y));
  }

  lemma IdsAreNoPairs(c: Crypto, x: seq<Transaction>)
    requires forall tx :: !IsPair(c, c.txid(tx))
    ensures NoPairs(c, c.TxIds(x))
  {
    hide IsPair;
    forall i | 0 <= i < |c.TxIds(x)|
      ensures !IsPair(c, c.TxIds(x)[i])
    {
      assert c.TxIds(x)[i] == c.txid(x[i]);
    }
  }
}
