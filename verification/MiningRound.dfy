/** One round of mining: the nonces after a seed are dealt out to workers that search side by side. */
module MiningRound {
  import opened Arith
  import opened Primitives
  import opened Sha3
  import opened HeaderHash
  import opened Miner
  import Radix

  const NONCES: nat := 0x1_0000_0000
  const CHUNK_PER_WORKER: nat := 250000

  /** Nonce k of a worker. */
  function WorkerNonce(seed: Uint32, threads: Uint32, worker: nat, k: nat): Uint32 {
    NonceAt(Wrap32(seed + worker), threads, k)
  }

  /** Place of a worker's nonce among the nonces after the seed. */
  function Place(threads: nat, worker: nat, k: nat): nat {
    worker + Product(k, threads)
  }

  lemma WorkerNonceIs(seed: Uint32, threads: Uint32, worker: nat, k: nat)
    ensures WorkerNonce(seed, threads, worker, k) == Wrap32(seed + Place(threads, worker, k))
  {
    WrapSum(seed + worker, k * threads);
  }

  lemma PlaceBounds(threads: nat, limit: nat, worker: nat, k: nat)
    requires worker < threads && k < limit
    ensures Place(threads, worker, k) < Product(threads, limit)
  {
    assert (k + 1) * threads <= limit * threads by { MulMono(k + 1, limit, threads); }
    assert (k + 1) * threads == k * threads + threads;
    assert limit * threads == threads * limit;
  }

  lemma PlaceUnique(threads: nat, a: nat, i: nat, b: nat, j: nat)
    requires a < threads && b < threads && Place(threads, a, i) == Place(threads, b, j)
    ensures a == b && i == j
  {
    hide Place;
    if i < j {
      PlaceOrder(threads, a, i, b, j);
    } else if j < i {
      PlaceOrder(threads, b, j, a, i);
    } else {
      PlaceInRow(threads, a, b, i);
    }
  }

  lemma PlaceOrder(threads: nat, a: nat, i: nat, b: nat, j: nat)
    requires a < threads && i < j
    ensures Place(threads, a, i) < Place(threads, b, j)
  {
    MulMono(i + 1, j, threads);
    assert (i + 1) * threads == i * threads + threads;
  }

  lemma PlaceInRow(threads: nat, a: nat, b: nat, i: nat)
    ensures Place(threads, a, i) == Place(threads, b, i) ==> a == b
  {
  }

  lemma PlaceSplit(threads: nat, limit: nat, i: nat)
    requires 0 < threads && i < Product(threads, limit)
    ensures i % threads < threads && i / threads < limit && Place(threads, i % threads, i / threads) == i
  {
    DivMod(i, threads);
    assert Product(threads, limit) == Product(limit, threads);
    Radix.QuotientBelow(i, threads, limit);
  }

  lemma WrapInjective(seed: Uint32, i: nat, j: nat)
    requires i < NONCES && j < NONCES && Wrap32(seed + i) == Wrap32(seed + j)
    ensures i == j
  {
  }

  /** The workers of a round try different nonces. */
  ghost predicate Disjoint(seed: Uint32, threads: Uint32, limit: nat) {
    forall a, i, b, j :: 0 <= a < threads && 0 <= i < limit && 0 <= b < threads && 0 <= j < limit && (a != b || i != j) ==>
      WorkerNonce(seed, threads, a, i) != WorkerNonce(seed, threads, b, j)
  }

  /** Main result: no nonce is tried twice in a round exactly when the round asks for at most 2^32 of them. */
  lemma RoundDisjoint(seed: Uint32, threads: Uint32, limit: nat)
    requires 0 < threads
    ensures Disjoint(seed, threads, limit) <==> Product(threads, limit) <= NONCES
  {
    hide Place, WorkerNonce, Product, Wrap32;
    if Product(threads, limit) <= NONCES {
      forall a, i, b, j | 0 <= a < threads && 0 <= i < limit && 0 <= b < threads && 0 <= j < limit && (a != b || i != j)
        ensures WorkerNonce(seed, threads, a, i) != WorkerNonce(seed, threads, b, j)
      {
        PlacesDiffer(seed, threads, limit, a, i, b, j);
      }
    } else {
      NonceRepeats(seed, threads, limit);
    }
  }

  lemma PlacesDiffer(seed: Uint32, threads: Uint32, limit: nat, a: nat, i: nat, b: nat, j: nat)
    requires Product(threads, limit) <= NONCES
    requires a < threads && i < limit && b < threads && j < limit && (a != b || i != j)
    ensures WorkerNonce(seed, threads, a, i) != WorkerNonce(seed, threads, b, j)
  {
    hide Place, WorkerNonce, Product, Wrap32;
    WorkerNonceIs(seed, threads, a, i);
    WorkerNonceIs(seed, threads, b, j);
    PlaceBounds(threads, limit, a, i);
    PlaceBounds(threads, limit, b, j);
    if WorkerNonce(seed, threads, a, i) == WorkerNonce(seed, threads, b, j) {
      WrapInjective(seed, Place(threads, a, i), Place(threads, b, j));
      PlaceUnique(threads, a, i, b, j);
    }
  }

  lemma NonceRepeats(seed: Uint32, threads: Uint32, limit: nat)
    requires 0 < threads && NONCES < Product(threads, limit)
    ensures !Disjoint(seed, threads, limit)
  {
    hide Place, WorkerNonce, Product;
    PlaceSplit(threads, limit, 0);
    PlaceSplit(threads, limit, NONCES);
    var a, i, b, j := 0 % threads, 0 / threads, NONCES % threads, NONCES / threads;
    WorkerNonceIs(seed, threads, a, i);
    WorkerNonceIs(seed, threads, b, j);
    assert Wrap32(seed + NONCES) == Wrap32(seed + 0);
    assert (a, i) != (b, j);
    assert WorkerNonce(seed, threads, a, i) == WorkerNonce(seed, threads, b, j);
  }

  /** The limit of one worker when at most `remaining` more nonces are wanted. */
  function WorkerLimit(remaining: nat, threads: nat): (limit: nat)
    requires 0 < threads
    ensures 0 < limit <= CHUNK_PER_WORKER
    ensures limit == CHUNK_PER_WORKER || limit == 1 || remaining <= Product(threads, limit)
  {
    var share := (remaining + threads - 1) / threads;
    ShareCovers(remaining, threads);
    Max(1, Min(CHUNK_PER_WORKER, share))
  }

  lemma ShareCovers(remaining: nat, threads: nat)
    requires 0 < threads
    ensures remaining <= Product(threads, (remaining + threads - 1) / threads)
  {
    var x := remaining + threads - 1;
    assert x == x / threads * threads + x % threads;
    assert threads * (x / threads) == x / threads * threads;
  }

  /** The i-th nonce after the seed. */
  function NonceAfter(seed: Uint32, i: nat): Uint32 {
    Wrap32(seed + i)
  }

  ghost predicate NoHits(header: Bytes, target: Bytes, seed: Uint32, n: nat)
    requires |header| == HEADER_BYTES
  {
    forall i :: 0 <= i < n ==> !HitWith(header, target, NonceAfter(seed, i))
  }

  predicate HitWith(header: Bytes, target: Bytes, nonce: Uint32)
    requires |header| == HEADER_BYTES
  {
    Meets(Sha3_512(WithNonceBytes(header, nonce)), target)
  }

  function WorkerJob(header: Bytes, target: Bytes, seed: Uint32, threads: Uint32, worker: nat): Job {
    Job(header, target, Wrap32(seed + worker), threads)
  }

  /** Nothing was found by the first `workers` workers. */
  ghost predicate Searched(header: Bytes, target: Bytes, seed: Uint32, threads: Uint32, limit: nat, workers: nat)
    requires |header| == HEADER_BYTES
  {
    forall a, k :: 0 <= a < workers && 0 <= k < limit ==> !HitWith(header, target, WorkerNonce(seed, threads, a, k))
  }

  lemma WorkerFindsNothing(header: Bytes, target: Bytes, seed: Uint32, threads: Uint32, limit: nat, worker: nat, r: Result)
    requires |header| == HEADER_BYTES && |target| == HASH_BYTES && Searched(header, target, seed, threads, limit, worker)
    requires IsScan(WorkerJob(header, target, seed, threads, worker), limit, r)
    ensures !r.found ==> Searched(header, target, seed, threads, limit, worker + 1) && r.iterations == limit
    ensures r.found ==> HitWith(header, target, r.nonce) && r.hash == Sha3_512(WithNonceBytes(header, r.nonce))
  {
    hide Meets, Sha3_512, WithNonceBytes, NonceAt;
    var job := WorkerJob(header, target, seed, threads, worker);
    if !r.found {
      forall a, k | 0 <= a < worker + 1 && 0 <= k < limit
        ensures !HitWith(header, target, WorkerNonce(seed, threads, a, k))
      {
        if a == worker {
          assert !job.HitAt(k);
        }
      }
    }
  }

  /** Nonces of all workers together are the nonces right after the seed. */
  lemma SearchedCovers(header: Bytes, target: Bytes, seed: Uint32, threads: Uint32, limit: nat)
    requires |header| == HEADER_BYTES && 0 < threads && Searched(header, target, seed, threads, limit, threads)
    ensures NoHits(header, target, seed, Product(threads, limit))
  {
    hide HitWith, WorkerNonce, Product, Place;
    forall i | 0 <= i < Product(threads, limit)
      ensures !HitWith(header, target, NonceAfter(seed, i))
    {
      PlaceSplit(threads, limit, i);
      WorkerNonceIs(seed, threads, i % threads, i / threads);
    }
  }

  /** Main result: a round finds a nonce that meets the target, or none of the threads * limit nonces after the
      seed does; the next round starts where this one ends. */
  method MineRound(header: Bytes, target: Bytes, seed: Uint32, threads: Uint32, limit: nat, vector: bool)
    returns (found: bool, nonce: Uint32, hash: Bytes, iterations: nat, nextSeed: Uint32)
    requires |header| == HEADER_BYTES && |target| == HASH_BYTES && 0 < threads && 0 < limit
    ensures found ==> HitWith(header, target, nonce) && hash == Sha3_512(WithNonceBytes(header, nonce))
    ensures !found ==> NoHits(header, target, seed, Product(threads, limit)) && iterations == Product(threads, limit)
    ensures nextSeed == Wrap32(seed + Product(threads, limit))
  {
    hide HitWith, IsScan, Searched, NoHits, Sha3_512, WithNonceBytes, Wrap32;
    found, nonce, hash, iterations := false, 0, [], 0;
    NobodySearched(header, target, seed, threads, limit);
    for worker := 0 to threads
      invariant found ==> HitWith(header, target, nonce) && hash == Sha3_512(WithNonceBytes(header, nonce))
      invariant !found ==> Searched(header, target, seed, threads, limit, worker) && iterations == worker * limit
    {
      var job := WorkerJob(header, target, seed, threads, worker);
      var r := RunWorkerJob(job, limit, vector);
      if !found {
        WorkerFindsNothing(header, target, seed, threads, limit, worker, r);
        assert (worker + 1) * limit == worker * limit + limit;
      } else {
        FoundAlready(job, limit, r);
      }
      iterations := iterations + r.iterations;
      if r.found && !found {
        found, nonce, hash := true, r.nonce, r.hash;
      }
    }
    if !found {
      SearchedCovers(header, target, seed, threads, limit);
    }
    SeedStep(seed, Product(threads, limit));
    nextSeed := Wrap32(seed + Wrap32(threads * limit));
  }

  lemma FoundAlready(job: Job, limit: nat, r: Result)
    requires job.WellFormed() && IsScan(job, limit, r)
    ensures 0 < r.iterations
  {
    hide Job.HitAt, Job.HashAt, NonceAt;
  }

  lemma NobodySearched(header: Bytes, target: Bytes, seed: Uint32, threads: Uint32, limit: nat)
    requires |header| == HEADER_BYTES
    ensures Searched(header, target, seed, threads, limit, 0)
  {
  }

  lemma SeedStep(seed: Uint32, n: nat)
    ensures Wrap32(seed + Wrap32(n)) == Wrap32(seed + n)
  {
    WrapSum(n, seed);
  }
}
