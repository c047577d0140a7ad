/** The nonce search: the plain scan, the chunked four-lane search that refines it, and how the miner shares
    nonces out between workers. */
module Miner {
  import opened Arith
  import opened Primitives
  import opened Sha3
  import opened HeaderHash
  import opened Hasher

  const CHUNK_ITERATIONS: nat := 4096

  // ---------------------------------------------------------------------------
  // Comparing a hash with the target
  // ---------------------------------------------------------------------------

  /** A byte string as a number, highest byte first. */
  function BigEndian(b: Bytes): nat {
    if b == [] then 0 else BigEndian(b[..|b| - 1]) * 0x100 + b[|b| - 1] as nat
  }

  predicate Meets(hash: Bytes, target: Bytes) {
    BigEndian(hash) <= BigEndian(target)
  }

  lemma ByteOrder(a: bv8, b: bv8)
    ensures a < b <==> (a as nat) < (b as nat)
    ensures (a as nat) < 0x100 && (b as nat) < 0x100
  {
  }

  lemma BigEndianNext(b: Bytes, k: nat)
    requires k < |b|
    ensures BigEndian(b[..k + 1]) == BigEndian(b[..k]) * 0x100 + b[k] as nat
  {
    assert b[..k + 1][..k] == b[..k];
  }

  lemma {:induction false} OrderKept(a: Bytes, b: Bytes, k: nat, n: nat)
    requires |a| == |b| && k <= n <= |a| && BigEndian(a[..k]) < BigEndian(b[..k])
    ensures BigEndian(a[..n]) < BigEndian(b[..n])
    decreases n
  {
    hide BigEndian;
    if k < n {
      OrderKept(a, b, k, n - 1);
      BigEndianNext(a, n - 1);
      BigEndianNext(b, n - 1);
      ByteOrder(a[n - 1], b[n - 1]);
      DigitStep(BigEndian(a[..n - 1]), BigEndian(b[..n - 1]), a[n - 1] as nat, b[n - 1] as nat);
    }
  }

  lemma DigitStep(p: nat, q: nat, x: nat, y: nat)
    requires p < q && x < 0x100
    ensures p * 0x100 + x < q * 0x100 + y
  {
  }

  /** The first differing byte decides the order of two numbers of the same length. */
  lemma FirstDifferenceDecides(a: Bytes, b: Bytes, i: nat)
    requires |a| == |b| && i < |a| && a[..i] == b[..i] && a[i] != b[i]
    ensures BigEndian(a) <= BigEndian(b) <==> a[i] < b[i]
  {
    BigEndianNext(a, i);
    BigEndianNext(b, i);
    ByteOrder(a[i], b[i]);
    ByteOrder(b[i], a[i]);
    assert a[..|a|] == a && b[..|b|] == b;
    if a[i] < b[i] {
      OrderKept(a, b, i + 1, |a|);
    } else {
      OrderKept(b, a, i + 1, |a|);
    }
  }

  /** Byte-wise comparison. */
  method HashMeetsTargetScalar(hash: Bytes, target: Bytes) returns (ok: bool)
    requires |hash| == HASH_BYTES && |target| == HASH_BYTES
    ensures ok == Meets(hash, target)
  {
    for i := 0 to HASH_BYTES
      invariant hash[..i] == target[..i]
    {
      if hash[i] != target[i] {
        FirstDifferenceDecides(hash, target, i);
        return hash[i] < target[i];
      }
    }
    assert hash[..HASH_BYTES] == hash && target[..HASH_BYTES] == target;
    return true;
  }

  /** Comparison in two vectors of 32 bytes: the lowest differing lane of the first vector with a difference decides. */
  method HashMeetsTargetVector(hash: Bytes, target: Bytes) returns (ok: bool)
    requires |hash| == HASH_BYTES && |target| == HASH_BYTES
    ensures ok == Meets(hash, target)
  {
    for half := 0 to 2
      invariant hash[..32 * half] == target[..32 * half]
    {
      var offset := 32 * half;
      if hash[offset..offset + 32] != target[offset..offset + 32] {
        var lane := 0;
        SomeLaneDiffers(hash, target, offset);
        while lane < 32 && hash[offset + lane] == target[offset + lane]
          invariant lane <= 32 && hash[..offset + lane] == target[..offset + lane]
          invariant exists k :: lane <= k < 32 && DifferAt(hash, target, offset, k)
        {
          lane := lane + 1;
        }
        FirstDifferenceDecides(hash, target, offset + lane);
        return hash[offset + lane] < target[offset + lane];
      }
      SameHalves(hash, target, offset);
    }
    assert hash[..HASH_BYTES] == hash && target[..HASH_BYTES] == target;
    return true;
  }

  predicate DifferAt(a: Bytes, b: Bytes, offset: nat, k: nat)
    requires offset + k < |a| && offset + k < |b|
  {
    a[offset + k] != b[offset + k]
  }

  lemma SomeLaneDiffers(a: Bytes, b: Bytes, offset: nat)
    requires offset + 32 <= |a| == |b| && a[offset..offset + 32] != b[offset..offset + 32]
    ensures exists k :: 0 <= k < 32 && DifferAt(a, b, offset, k)
  {
    var x, y := a[offset..offset + 32], b[offset..offset + 32];
    var k: nat :| k < 32 && x[k] != y[k];
    assert DifferAt(a, b, offset, k);
  }

  lemma SameHalves(a: Bytes, b: Bytes, offset: nat)
    requires offset + 32 <= |a| == |b| && a[..offset] == b[..offset] && a[offset..offset + 32] == b[offset..offset + 32]
    ensures a[..offset + 32] == b[..offset + 32]
  {
    assert a[..offset + 32] == a[..offset] + a[offset..offset + 32];
    assert b[..offset + 32] == b[..offset] + b[offset..offset + 32];
  }

  method HashMeetsTarget(hash: Bytes, target: Bytes, vector: bool) returns (ok: bool)
    requires |hash| == HASH_BYTES && |target| == HASH_BYTES
    ensures ok == Meets(hash, target)
  {
    if vector {
      ok := HashMeetsTargetVector(hash, target);
    } else {
      ok := HashMeetsTargetScalar(hash, target);
    }
  }

  // ---------------------------------------------------------------------------
  // The plain scan
  // ---------------------------------------------------------------------------

  /** The k-th nonce of a scan, in 32-bit arithmetic. */
  function NonceAt(start: Uint32, step: Uint32, k: nat): Uint32 {
    Wrap32(start + k * step)
  }

  lemma NonceNext(start: Uint32, step: Uint32, k: nat)
    ensures Wrap32(NonceAt(start, step, k) + step) == NonceAt(start, step, k + 1)
    ensures NonceAt(start, step, 0) == start
  {
    var x := start + k * step;
    assert start + (k + 1) * step == x + step;
    WrapSum(x, step);
  }

  lemma WrapSum(x: int, y: int)
    ensures Wrap32(Wrap32(x) + y) == Wrap32(x + y)
  {
    var m := 0x1_0000_0000;
    var q := x / m;
    assert x == q * m + x % m;
    assert x + y == (x % m + y) + q * m;
  }

  /** A scan that starts in the middle of another continues it. */
  lemma NonceShift(start: Uint32, step: Uint32, n: nat, k: nat)
    ensures NonceAt(NonceAt(start, step, n), step, k) == NonceAt(start, step, n + k)
  {
    assert start + (n + k) * step == start + n * step + k * step;
    WrapSum(start + n * step, k * step);
  }

  /** One search: a header, a target, and the nonces to try. */
  datatype Job = Job(header: Bytes, target: Bytes, start: Uint32, step: Uint32) {
    predicate WellFormed() {
      |header| == HEADER_BYTES && |target| == HASH_BYTES
    }

    function HashAt(k: nat): (hash: Bytes)
      requires WellFormed()
      ensures |hash| == HASH_BYTES
    {
      Sha3_512(WithNonceBytes(header, NonceAt(start, step, k)))
    }

    predicate HitAt(k: nat)
      requires WellFormed()
    {
      Meets(HashAt(k), target)
    }

    /** The same search from its n-th nonce on. */
    function From(n: nat): Job {
      Job(header, target, NonceAt(start, step, n), step)
    }
  }

  datatype Result = Result(found: bool, nonce: Uint32, next: Uint32, iterations: nat, hash: Bytes)

  /** What trying the nonces one by one yields: the search stops at the first hit or at the limit, and
      reports the last nonce tried. */
  predicate IsScan(job: Job, limit: nat, r: Result)
    requires job.WellFormed()
  {
    && 0 < r.iterations <= limit
    && (forall k :: 0 <= k < r.iterations - 1 ==> !job.HitAt(k))
    && r.found == job.HitAt(r.iterations - 1)
    && (!r.found ==> r.iterations == limit)
    && r.hash == job.HashAt(r.iterations - 1)
    && r.nonce == (if r.found then NonceAt(job.start, job.step, r.iterations - 1) else 0)
    && r.next == NonceAt(job.start, job.step, r.iterations)
  }

  /** Main result: the outcome of a scan is unique, so two searches that both yield it agree in everything. */
  lemma ScanUnique(job: Job, limit: nat, a: Result, b: Result)
    requires job.WellFormed() && IsScan(job, limit, a) && IsScan(job, limit, b)
    ensures a == b
  {
    hide IsScan, Job.HitAt, Job.HashAt, NonceAt;
    ScanEnding(job, limit, a);
    ScanEnding(job, limit, b);
    if a.iterations < b.iterations {
      MissBefore(job, limit, b, a.iterations - 1);
    } else if b.iterations < a.iterations {
      MissBefore(job, limit, a, b.iterations - 1);
    } else {
      ScanSame(job, limit, a, b);
    }
  }

  lemma ScanEnding(job: Job, limit: nat, r: Result)
    requires job.WellFormed() && IsScan(job, limit, r)
    ensures 0 < r.iterations <= limit && r.found == job.HitAt(r.iterations - 1) && (!r.found ==> r.iterations == limit)
  {
    hide Job.HitAt, Job.HashAt, NonceAt;
  }

  lemma MissBefore(job: Job, limit: nat, r: Result, k: nat)
    requires job.WellFormed() && IsScan(job, limit, r) && k < r.iterations - 1
    ensures !job.HitAt(k)
  {
    hide Job.HitAt, Job.HashAt, NonceAt;
  }

  lemma ScanSame(job: Job, limit: nat, a: Result, b: Result)
    requires job.WellFormed() && IsScan(job, limit, a) && IsScan(job, limit, b) && a.iterations == b.iterations
    ensures a == b
  {
    hide Job.HitAt, Job.HashAt, NonceAt;
  }

  /** A search in progress: the nonces tried so far are no hits, and the last one is reported. */
  ghost predicate Scanning(job: Job, r: Result)
    requires job.WellFormed()
  {
    && !r.found && r.nonce == 0
    && (forall k :: 0 <= k < r.iterations ==> !job.HitAt(k))
    && (0 < r.iterations ==> r.hash == job.HashAt(r.iterations - 1) && r.next == NonceAt(job.start, job.step, r.iterations))
  }

  /** The result after one more nonce. */
  function Tried(r: Result, hash: Bytes, nonce: Uint32, step: Uint32): Result {
    r.(hash := hash, iterations := r.iterations + 1, next := Wrap32(nonce + step))
  }

  lemma ScanStarts(job: Job)
    requires job.WellFormed()
    ensures Scanning(job, Result(false, 0, 0, 0, [])) && NonceAt(job.start, job.step, 0) == job.start
  {
    NonceNext(job.start, job.step, 0);
  }

  lemma ScanStep(job: Job, limit: nat, r: Result, nonce: Uint32, hash: Bytes)
    requires job.WellFormed() && Scanning(job, r) && r.iterations < limit
    requires nonce == NonceAt(job.start, job.step, r.iterations) && hash == job.HashAt(r.iterations)
    ensures Wrap32(nonce + job.step) == NonceAt(job.start, job.step, r.iterations + 1)
    ensures |hash| == HASH_BYTES
    ensures Meets(hash, job.target) ==> IsScan(job, limit, Tried(r, hash, nonce, job.step).(found := true, nonce := nonce))
    ensures !Meets(hash, job.target) ==> Scanning(job, Tried(r, hash, nonce, job.step))
  {
    hide Meets, NonceAt, Job.HashAt, Wrap32;
    NonceNext(job.start, job.step, r.iterations);
  }

  lemma ScanEnds(job: Job, limit: nat, r: Result)
    requires job.WellFormed() && Scanning(job, r) && 0 < limit == r.iterations
    ensures IsScan(job, limit, r)
  {
    hide Job.HitAt, Job.HashAt, NonceAt;
  }

  lemma HashOf(job: Job, k: nat, nonce: Uint32)
    requires job.WellFormed() && nonce == NonceAt(job.start, job.step, k)
    ensures Sha3_512(WithNonceBytes(job.header, nonce)) == job.HashAt(k)
  {
    hide Sha3_512, WithNonceBytes, NonceAt;
  }

  // ---------------------------------------------------------------------------
  // Searching without limit
  // ---------------------------------------------------------------------------

  /** A limit of zero asks to search until something is found. It ends when there is something: `enough` is then a
      number of misses after which a nonce hits. */
  ghost predicate Ends(job: Job, limit: nat, enough: nat)
    requires job.WellFormed()
  {
    limit != 0 || job.HitAt(enough)
  }

  /** The number of nonces that settle a search. */
  ghost function Settled(limit: nat, enough: nat): nat {
    if limit == 0 then enough + 1 else limit
  }

  /** Nonces repeat after 2^32 of them. */
  lemma NoncePeriod(start: Uint32, step: Uint32, k: nat)
    ensures NonceAt(start, step, k % 0x1_0000_0000) == NonceAt(start, step, k)
  {
    var m := 0x1_0000_0000;
    var q, r := k / m, k % m;
    assert start + k * step == start + r * step + (q * step) * m by {
      assert k == q * m + r;
      assert (q * m + r) * step == (q * step) * m + r * step;
    }
    WrapWhole(start + r * step, q * step);
  }

  lemma WrapWhole(x: int, k: int)
    ensures Wrap32(x + k * 0x1_0000_0000) == Wrap32(x)
  {
  }

  /** Main result: a search without limit ends if and only if one of the first 2^32 nonces is a hit. */
  lemma UnlimitedEnds(job: Job)
    requires job.WellFormed()
    ensures (exists k: nat :: job.HitAt(k)) <==> exists k: nat :: k < 0x1_0000_0000 && job.HitAt(k)
  {
    hide Meets, Sha3_512, NonceAt, WithNonceBytes;
    if k: nat :| job.HitAt(k) {
      NoncePeriod(job.start, job.step, k);
      assert job.HitAt(k % 0x1_0000_0000);
    }
  }

  /** While nothing was found the hit is still ahead. */
  lemma StillAhead(job: Job, r: Result, limit: nat, enough: nat)
    requires job.WellFormed() && Scanning(job, r) && Ends(job, limit, enough)
    ensures limit == 0 ==> r.iterations <= enough
  {
    hide Job.HitAt, NonceAt;
  }

  /** A hit within some limit is the outcome for every limit it keeps to, and for one that reaches a hit. */
  lemma ScanFits(job: Job, tried: nat, r: Result, limit: nat, enough: nat)
    requires job.WellFormed() && IsScan(job, tried, r) && r.found && Ends(job, limit, enough) && (limit != 0 ==> r.iterations <= limit)
    ensures IsScan(job, Settled(limit, enough), r)
  {
    hide Job.HitAt, Job.HashAt, NonceAt;
  }

  /** Main result: without limit, what a search yields is the first hit. */
  lemma UnlimitedFinds(job: Job, enough: nat, r: Result)
    requires job.WellFormed() && job.HitAt(enough) && IsScan(job, Settled(0, enough), r)
    ensures r.found && job.HitAt(r.iterations - 1) && forall k :: 0 <= k < r.iterations - 1 ==> !job.HitAt(k)
  {
    hide Job.HitAt, Job.HashAt, NonceAt;
  }

  // ---------------------------------------------------------------------------
  // The portable search
  // ---------------------------------------------------------------------------

  /** Hashes one nonce at a time: copies the hasher that has taken the first 76 bytes and adds the nonce. */
  method SearchScalar(header: Bytes, target: Bytes, prefixHasher: Sha3Hasher, start: Uint32, step: Uint32, limit: nat,
                      ghost enough: nat) returns (r: Result)
    requires |header| == HEADER_BYTES && |target| == HASH_BYTES
    requires prefixHasher.Valid() && !prefixHasher.finalized && prefixHasher.message == header[..76]
    requires Ends(Job(header, target, start, step), limit, enough)
    ensures IsScan(Job(header, target, start, step), Settled(limit, enough), r)
  {
    hide Scanning, IsScan, Meets, Sha3_512, NonceAt, NonceBytes, Wrap32, Job.HashAt, Ends, Holds, Job.HitAt;
    ghost var job := Job(header, target, start, step);
    r := Result(false, 0, 0, 0, []);
    var nonce := start;
    ScanStarts(job);
    while limit == 0 || r.iterations < limit
      invariant (limit != 0 ==> r.iterations <= limit) && Scanning(job, r) && nonce == NonceAt(start, step, r.iterations)
      decreases Settled(limit, enough) - r.iterations
    {
      StillAhead(job, r, limit, enough);
      var hash := HashFromPrefix(header, prefixHasher, nonce);
      HashOf(job, r.iterations, nonce);
      ScanStep(job, Settled(limit, enough), r, nonce, hash);
      r := Tried(r, hash, nonce, step);
      var hit := HashMeetsTargetScalar(hash, target);
      if hit {
        r := r.(found := true, nonce := nonce);
        return;
      }
      StillAhead(job, r, limit, enough);
      nonce := Wrap32(nonce + step);
    }
    ScanEnds(job, limit, r);
  }

  /** The hash of the header with a nonce, from a copy of the hasher of its first 76 bytes. */
  method HashFromPrefix(header: Bytes, prefixHasher: Sha3Hasher, nonce: Uint32) returns (hash: Bytes)
    requires |header| == HEADER_BYTES && prefixHasher.Valid() && !prefixHasher.finalized && prefixHasher.message == header[..76]
    ensures hash == Sha3_512(WithNonceBytes(header, nonce))
  {
    hide Sha3_512, NonceBytes, Holds;
    var full := WithNonceBytes(header, nonce);
    var nonceHasher := new Sha3Hasher();
    nonceHasher.CopyStateFrom(prefixHasher);
    var ok := nonceHasher.Update(full[76..]);
    ok, hash := nonceHasher.Finalize();
    assert header[..76] + full[76..] == full;
  }

  /** The worker where no cached state is available. */
  method RunPortableJob(job: Job, limit: nat, ghost enough: nat) returns (r: Result)
    requires job.WellFormed() && Ends(job, limit, enough)
    ensures IsScan(job, Settled(limit, enough), r)
  {
    hide IsScan, Ends, Holds, Job.HitAt;
    var prefixHasher := new Sha3Hasher();
    var ok := prefixHasher.Update(job.header[..76]);
    r := SearchScalar(job.header, job.target, prefixHasher, job.start, job.step, limit, enough);
  }

  // ---------------------------------------------------------------------------
  // The fast search
  // ---------------------------------------------------------------------------

  /** The cached state and the bits field belong to the header of the job. */
  ghost predicate Cached(job: Job, prefix: seq<bv64>, bits: bv32)
    requires job.WellFormed()
  {
    prefix == PrefixState(HeaderPrefix(job.header)) && bits == HeaderBits(job.header)
  }

  lemma CachedHash(job: Job, prefix: seq<bv64>, bits: bv32, k: nat, nonce: Uint32)
    requires job.WellFormed() && Cached(job, prefix, bits) && nonce == NonceAt(job.start, job.step, k)
    ensures |prefix| == 25
    ensures FinishedHash(prefix, SuffixWord(bits, Word32(NonceBytes(nonce)))) == job.HashAt(k)
  {
    hide Sha3_512, WithNonceBytes, NonceAt, FinishedHash, PrefixState, SuffixWord, Word32, NonceBytes, HeaderPrefix, HeaderBits;
    ShortcutWithNonce(job.header, nonce);
  }

  lemma CachedLength(job: Job, prefix: seq<bv64>, bits: bv32)
    requires job.WellFormed() && Cached(job, prefix, bits)
    ensures |prefix| == 25
  {
    hide PrefixState, Word32;
  }

  lemma BatchNonces(job: Job, k: nat, nonce: Uint32)
    requires nonce == NonceAt(job.start, job.step, k)
    ensures Wrap32(nonce + job.step) == NonceAt(job.start, job.step, k + 1)
    ensures Wrap32(nonce + Wrap32(job.step * 2)) == NonceAt(job.start, job.step, k + 2)
    ensures Wrap32(nonce + Wrap32(job.step * 3)) == NonceAt(job.start, job.step, k + 3)
  {
    hide NonceAt;
    NonceNext(job.start, job.step, k);
    NonceNext(job.start, job.step, k + 1);
    NonceNext(job.start, job.step, k + 2);
    WrapSum(job.step * 2, nonce);
    WrapSum(job.step * 3, nonce);
    WrapSum(nonce + job.step, job.step);
    WrapSum(nonce + 2 * job.step, job.step);
  }

  /** Hashes four nonces side by side and looks at the first `remaining` of them in order. */
  method TryBatch(prefix: seq<bv64>, bits: bv32, target: Bytes, step: Uint32, before: Result, start: Uint32, remaining: nat,
                  ghost job: Job, ghost limit: nat) returns (r: Result, nonce: Uint32)
    requires job.WellFormed() && Cached(job, prefix, bits) && target == job.target && step == job.step
    requires Scanning(job, before) && 0 < remaining <= 4 && before.iterations + remaining <= limit
    requires start == NonceAt(job.start, job.step, before.iterations)
    ensures r.found ==> IsScan(job, limit, r)
    ensures !r.found ==> Scanning(job, r) && r.iterations == before.iterations + remaining
                         && nonce == NonceAt(job.start, job.step, r.iterations)
  {
    hide Scanning, IsScan, Meets, NonceAt, Wrap32, Cached, FinishedHash, SuffixWord, Word32, NonceBytes, Job.HashAt;
    r := before;
    ghost var first := before.iterations;
    CachedLength(job, prefix, bits);
    BatchNonces(job, first, start);
    var nonces := [start, Wrap32(start + step), Wrap32(start + Wrap32(step * 2)), Wrap32(start + Wrap32(step * 3))];
    var hashes := FinalizeBatch4(prefix, bits, nonces);
    ScanningFound(job, r);
    for i := 0 to remaining
      invariant Scanning(job, r) && !r.found && r.iterations == first + i
    {
      assert nonces[i] == NonceAt(job.start, job.step, first + i);
      CachedHash(job, prefix, bits, first + i, nonces[i]);
      ScanStep(job, limit, r, nonces[i], hashes[i]);
      r := Tried(r, hashes[i], nonces[i], step);
      var hit := HashMeetsTarget(hashes[i], target, true);
      if hit {
        r := r.(found := true, nonce := nonces[i]);
        return r, start;
      }
    }
    nonce := Wrap32(nonces[remaining - 1] + step);
    assert nonces[remaining - 1] == NonceAt(job.start, job.step, first + (remaining - 1));
    NonceNext(job.start, job.step, first + (remaining - 1));
  }

  lemma ScanningFound(job: Job, r: Result)
    requires job.WellFormed() && Scanning(job, r)
    ensures !r.found
  {
  }

  /** Searches from the cached state, four nonces at a time when vectors are available. */
  method SearchFast(prefix: seq<bv64>, bits: bv32, target: Bytes, start: Uint32, step: Uint32, limit: nat, vector: bool,
                    ghost job: Job, ghost enough: nat) returns (r: Result)
    requires job.WellFormed() && Cached(job, prefix, bits) && target == job.target && step == job.step && start == job.start
    requires Ends(job, limit, enough)
    ensures IsScan(job, Settled(limit, enough), r)
  {
    hide Scanning, IsScan, Meets, NonceAt, Wrap32, Cached, FinishedHash, SuffixWord, Word32, NonceBytes, Job.HashAt, Ends, Job.HitAt;
    r := Result(false, 0, 0, 0, []);
    var nonce := start;
    ScanStarts(job);
    CachedLength(job, prefix, bits);
    while limit == 0 || r.iterations < limit
      invariant (limit != 0 ==> r.iterations <= limit) && Scanning(job, r) && nonce == NonceAt(job.start, job.step, r.iterations)
      decreases Settled(limit, enough) - r.iterations
    {
      StillAhead(job, r, limit, enough);
      if vector {
        var remaining := if limit == 0 then 4 else Min(4, limit - r.iterations);
        ghost var tried := r.iterations + remaining;
        r, nonce := TryBatch(prefix, bits, target, step, r, nonce, remaining, job, tried);
        if r.found {
          ScanPositive(job, tried, r);
          ScanFits(job, tried, r, limit, enough);
          return;
        }
      } else {
        var hash := FinalizeScalar(prefix, bits, nonce);
        CachedHash(job, prefix, bits, r.iterations, nonce);
        ScanStep(job, Settled(limit, enough), r, nonce, hash);
        r := Tried(r, hash, nonce, step);
        var hit := HashMeetsTarget(hash, target, false);
        if hit {
          r := r.(found := true, nonce := nonce);
          return;
        }
        nonce := Wrap32(nonce + step);
      }
      StillAhead(job, r, limit, enough);
    }
    ScanEnds(job, limit, r);
  }

  // ---------------------------------------------------------------------------
  // The worker
  // ---------------------------------------------------------------------------

  /** Joining a scan that found nothing with the scan that continues it. */
  lemma ScansJoin(job: Job, before: Result, limit: nat, rest: Result, chunk: nat)
    requires job.WellFormed() && Scanning(job, before) && before.iterations + chunk <= limit
    requires job.From(before.iterations).WellFormed() && IsScan(job.From(before.iterations), chunk, rest)
    ensures var joined := Result(rest.found, rest.nonce, rest.next, before.iterations + rest.iterations, rest.hash);
            && (rest.found ==> IsScan(job, limit, joined))
            && (!rest.found ==> Scanning(job, joined) && rest.iterations == chunk)
  {
    hide Meets, Sha3_512, NonceAt, WithNonceBytes;
    var n := before.iterations;
    NonceShift(job.start, job.step, n, rest.iterations);
    NonceShift(job.start, job.step, n, rest.iterations - 1);
    forall k | 0 <= k < rest.iterations
      ensures job.From(n).HashAt(k) == job.HashAt(n + k) && job.From(n).HitAt(k) == job.HitAt(n + k)
    {
      NonceShift(job.start, job.step, n, k);
    }
    forall k | 0 <= k < n + rest.iterations - 1
      ensures !job.HitAt(k)
    {
      if n <= k {
        assert !job.From(n).HitAt(k - n);
      }
    }
  }

  /** Main result: the worker, which searches in chunks from the cached state, vectors or not, reports exactly
      what hashing the whole header for one nonce after the other would, with and without limit. */
  method RunWorkerJob(job: Job, limit: nat, vector: bool, ghost enough: nat := 0) returns (r: Result)
    requires job.WellFormed() && Ends(job, limit, enough)
    ensures IsScan(job, Settled(limit, enough), r)
  {
    hide Scanning, IsScan, NonceAt, PrefixState, Word32, Job.HashAt, Ends, Job.HitAt;
    r := Result(false, 0, 0, 0, []);
    var prefix := PreparePrefixState(job.header);
    var bits := HeaderBits(job.header);
    var nonce := job.start;
    ScanStarts(job);
    while limit == 0 || r.iterations < limit
      invariant (limit != 0 ==> r.iterations <= limit) && Scanning(job, r) && nonce == NonceAt(job.start, job.step, r.iterations)
      decreases Settled(limit, enough) - r.iterations
    {
      StillAhead(job, r, limit, enough);
      var remaining := if limit == 0 then CHUNK_ITERATIONS else Min(CHUNK_ITERATIONS, limit - r.iterations);
      ghost var rest := job.From(r.iterations);
      ghost var tried := r.iterations + remaining;
      LimitEnds(rest, remaining);
      var chunk := SearchFast(prefix, bits, job.target, nonce, job.step, remaining, vector, rest, 0);
      ScanPositive(rest, remaining, chunk);
      if chunk.iterations == 0 {
        break;
      }
      ScansJoin(job, r, tried, chunk, remaining);
      r := Result(chunk.found, chunk.nonce, chunk.next, r.iterations + chunk.iterations, chunk.hash);
      nonce := chunk.next;
      if chunk.found {
        ScanPositive(job, tried, r);
        ScanFits(job, tried, r, limit, enough);
        return;
      }
      ScanningNext(job, r);
      StillAhead(job, r, limit, enough);
    }
    ScanEnds(job, limit, r);
  }

  lemma LimitEnds(job: Job, limit: nat)
    requires job.WellFormed() && 0 < limit
    ensures Ends(job, limit, 0)
  {
  }

  lemma ScanPositive(job: Job, limit: nat, r: Result)
    requires job.WellFormed() && IsScan(job, limit, r)
    ensures 0 < r.iterations <= limit
  {
    hide Job.HitAt, Job.HashAt, NonceAt;
  }

  lemma ScanningNext(job: Job, r: Result)
    requires job.WellFormed() && Scanning(job, r) && 0 < r.iterations
    ensures r.next == NonceAt(job.start, job.step, r.iterations)
  {
    hide Job.HitAt, Job.HashAt, NonceAt;
  }
}
