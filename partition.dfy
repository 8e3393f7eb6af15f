/**
 * Static partition of the particle indices among the ranks
 * (mpi-sph.c:461-477) and the one-time scatter that gives each rank its
 * shard (mpi-sph.c:482), modelled as slicing the global array.
 */
module Partition {

  /** Particles assigned to rank i: n / nproc, and the last rank also gets the remainder. */
  function LocalCount(n: int, nproc: int, i: int): int
    requires nproc >= 1
  {
    n / nproc + (if i == nproc - 1 then n % nproc else 0)
  }

  /** Index of rank i's first particle in the global array. */
  function LocalOffset(n: int, nproc: int, i: int): int
    requires nproc >= 1
  {
    i * (n / nproc)
  }

  /**
   * Fills the count and offset of every rank, and computes separately the
   * size of this rank's shard. The particle count is the one the root
   * seeded and broadcast, so it is not negative.
   */
  method ComputePartition(nParticles: int, nproc: int, rank: int)
    returns (nLocal: int, localCount: array<int>, localOffset: array<int>)
    requires 0 <= nParticles && 1 <= nproc && 0 <= rank < nproc
    ensures fresh(localCount) && fresh(localOffset)
    ensures localCount.Length == nproc && localOffset.Length == nproc
    ensures forall i :: 0 <= i < nproc ==>
      localCount[i] == LocalCount(nParticles, nproc, i) && localOffset[i] == LocalOffset(nParticles, nproc, i)
    ensures nLocal == localCount[rank]
  {
    nLocal := nParticles / nproc;
    if rank == nproc - 1 {
      nLocal := nLocal + nParticles % nproc;
    }
    localCount := new int[nproc];
    localOffset := new int[nproc];
    for i := 0 to nproc
      invariant forall k :: 0 <= k < i ==>
        localCount[k] == LocalCount(nParticles, nproc, k) && localOffset[k] == LocalOffset(nParticles, nproc, k)
    {
      localCount[i] := nParticles / nproc;
      if i == nproc - 1 {
        localCount[i] := localCount[i] + nParticles % nproc;
      }
      localOffset[i] := i * (nParticles / nproc);
    }
  }

  /** Sum of the counts of ranks 0 .. k-1. */
  function CountsBefore(n: int, nproc: int, k: int): int
    requires nproc >= 1 && 0 <= k <= nproc
  {
    if k == 0 then 0 else CountsBefore(n, nproc, k - 1) + LocalCount(n, nproc, k - 1)
  }

  /** Every offset is the sum of the counts before it. */
  lemma {:induction false} OffsetIsCountsBefore(n: int, nproc: int, k: int)
    requires nproc >= 1 && 0 <= k < nproc
    ensures CountsBefore(n, nproc, k) == LocalOffset(n, nproc, k)
  {
    if k > 0 {
      OffsetIsCountsBefore(n, nproc, k - 1);
      assert LocalOffset(n, nproc, k) == LocalOffset(n, nproc, k - 1) + n / nproc;
    }
  }

  /** The counts of all ranks add up to the particle count. */
  lemma CountsSumToN(n: int, nproc: int)
    requires nproc >= 1
    ensures CountsBefore(n, nproc, nproc) == n
  {
    OffsetIsCountsBefore(n, nproc, nproc - 1);
    LastShardEndsAtN(n, nproc);
  }

  /** The last rank's shard ends exactly at n. */
  lemma LastShardEndsAtN(n: int, nproc: int)
    requires nproc >= 1
    ensures LocalOffset(n, nproc, nproc - 1) + LocalCount(n, nproc, nproc - 1) == n
  {
    var q := n / nproc;
    assert (nproc - 1) * q + q == nproc * q;
  }

  /**
   * Shards are contiguous: each starts where the previous ends, the first
   * at 0 and the last ends at n. No count is negative.
   */
  lemma ShardsContiguous(n: int, nproc: int)
    requires 0 <= n && nproc >= 1
    ensures LocalOffset(n, nproc, 0) == 0
    ensures forall i :: 0 <= i < nproc - 1 ==>
      LocalOffset(n, nproc, i + 1) == LocalOffset(n, nproc, i) + LocalCount(n, nproc, i)
    ensures LocalOffset(n, nproc, nproc - 1) + LocalCount(n, nproc, nproc - 1) == n
    ensures forall i :: 0 <= i < nproc ==> LocalCount(n, nproc, i) >= 0
  {
    forall i | 0 <= i < nproc - 1
      ensures LocalOffset(n, nproc, i + 1) == LocalOffset(n, nproc, i) + LocalCount(n, nproc, i)
    {
      MulSucc(i, n / nproc);
    }
    LastShardEndsAtN(n, nproc);
    QuotientNonNegative(n, nproc);
  }

  /**
   * Every rank but the last gets n / nproc particles and the last also the
   * remainder n % nproc; with more ranks than particles, every rank but the
   * last gets none and the last gets them all.
   */
  lemma LastAbsorbsRemainder(n: int, nproc: int)
    requires 0 <= n && nproc >= 1
    ensures forall i :: 0 <= i < nproc - 1 ==> LocalCount(n, nproc, i) == n / nproc
    ensures LocalCount(n, nproc, nproc - 1) == n / nproc + n % nproc
    ensures n < nproc ==>
      (forall i :: 0 <= i < nproc - 1 ==> LocalCount(n, nproc, i) == 0) && LocalCount(n, nproc, nproc - 1) == n
  {
  }

  /** Offsets grow strictly from rank to rank exactly when there are at least as many particles as ranks. */
  lemma OffsetsIncreasing(n: int, nproc: int)
    requires 0 <= n && nproc >= 2
    ensures (forall i :: 0 <= i < nproc - 1 ==> LocalOffset(n, nproc, i) < LocalOffset(n, nproc, i + 1))
            <==> n >= nproc
  {
    var q := n / nproc;
    QuotientPositive(n, nproc);
    forall i | 0 <= i < nproc - 1
      ensures LocalOffset(n, nproc, i + 1) == LocalOffset(n, nproc, i) + q
    {
      MulSucc(i, q);
    }
    assert LocalOffset(n, nproc, 0) + q == LocalOffset(n, nproc, 1);
  }

  lemma QuotientPositive(n: int, nproc: int)
    requires 0 <= n && nproc >= 1
    ensures 0 <= n / nproc
    ensures n / nproc > 0 <==> n >= nproc
  {
  }

  // ------------------------------------------------------------ ownership

  /** Whether global index k falls in rank r's shard. */
  predicate InShard(n: int, nproc: int, r: int, k: int)
    requires nproc >= 1
  {
    LocalOffset(n, nproc, r) <= k < LocalOffset(n, nproc, r) + LocalCount(n, nproc, r)
  }

  /** The rank that owns global index k. */
  function Owner(n: int, nproc: int, k: int): int
    requires nproc >= 1
  {
    var q := n / nproc;
    if q == 0 || k / q >= nproc - 1 then nproc - 1 else k / q
  }

  lemma MulSucc(i: int, q: int)
    ensures (i + 1) * q == i * q + q
  {
  }

  lemma QuotientNonNegative(n: int, nproc: int)
    requires 0 <= n && nproc >= 1
    ensures 0 <= n / nproc && 0 <= n % nproc < nproc
  {
  }

  lemma MulMonotone(a: int, b: int, q: int)
    requires a <= b && 0 <= q
    ensures a * q <= b * q
  {
  }

  lemma DivisionRange(k: int, q: int, r: int)
    requires q > 0 && 0 <= k
    ensures r * q <= k < r * q + q <==> k / q == r
  {
    var d, m := k / q, k % q;
    assert k == d * q + m && 0 <= m < q;
    if r < d {
      MulMonotone(r + 1, d, q);
    } else if d < r {
      MulMonotone(d + 1, r, q);
    }
  }

  /** For a positive q, a * q <= k exactly when a <= k / q. */
  lemma DivisionLowerBound(k: int, q: int, a: int)
    requires q > 0 && 0 <= k
    ensures a * q <= k <==> a <= k / q
  {
    var d := k / q;
    assert k == d * q + k % q && 0 <= k % q < q;
    if a <= d {
      MulMonotone(a, d, q);
    } else {
      MulMonotone(d + 1, a, q);
    }
  }

  /** Owner of an index when some rank gets no particle per share: always the last rank. */
  lemma OwnerWithoutShares(n: int, nproc: int, k: int, r: int)
    requires 0 <= n && nproc >= 1 && 0 <= k < n && 0 <= r < nproc && n / nproc == 0
    ensures InShard(n, nproc, r, k) <==> r == nproc - 1
  {
    assert LocalOffset(n, nproc, r) == 0;
    assert n % nproc == n;
  }

  /** A rank before the last owns the indices whose quotient by the share is its number. */
  lemma OwnerBeforeLast(n: int, nproc: int, k: int, r: int)
    requires 0 <= n && nproc >= 1 && 0 <= k < n && 0 <= r < nproc - 1 && n / nproc > 0
    ensures InShard(n, nproc, r, k) <==> r == k / (n / nproc)
  {
    DivisionRange(k, n / nproc, r);
  }

  /** The last rank owns every index from its offset up to n. */
  lemma OwnerLast(n: int, nproc: int, k: int)
    requires 0 <= n && nproc >= 1 && 0 <= k < n && n / nproc > 0
    ensures InShard(n, nproc, nproc - 1, k) <==> nproc - 1 <= k / (n / nproc)
  {
    LastShardEndsAtN(n, nproc);
    DivisionLowerBound(k, n / nproc, nproc - 1);
  }

  /**
   * The shards partition [0, n): every index belongs to the shard of its
   * owner and to no other.
   */
  lemma ExactlyOneOwner(n: int, nproc: int, k: int, r: int)
    requires 0 <= n && nproc >= 1 && 0 <= k < n && 0 <= r < nproc
    ensures 0 <= Owner(n, nproc, k) < nproc
    ensures InShard(n, nproc, r, k) <==> r == Owner(n, nproc, k)
  {
    QuotientPositive(n, nproc);
    if n / nproc == 0 {
      OwnerWithoutShares(n, nproc, k, r);
    } else {
      assert 0 <= k / (n / nproc);
      if r < nproc - 1 {
        OwnerBeforeLast(n, nproc, k, r);
      } else {
        OwnerLast(n, nproc, k);
      }
    }
  }

  // -------------------------------------------------------------- scatter

  lemma ShardBounds(n: int, nproc: int, r: int)
    requires 0 <= n && nproc >= 1 && 0 <= r < nproc
    ensures 0 <= LocalOffset(n, nproc, r) <= LocalOffset(n, nproc, r) + LocalCount(n, nproc, r) <= n
  {
    ShardsContiguous(n, nproc);
    OffsetIsCountsBefore(n, nproc, r);
    CountsPrefixBounded(n, nproc, r + 1);
  }

  lemma {:induction false} CountsPrefixBounded(n: int, nproc: int, k: int)
    requires 0 <= n && nproc >= 1 && 0 <= k <= nproc
    ensures 0 <= CountsBefore(n, nproc, k) <= n
    ensures forall j :: 0 <= j <= k ==> CountsBefore(n, nproc, j) <= CountsBefore(n, nproc, k)
    decreases nproc - k
  {
    if k == nproc {
      CountsSumToN(n, nproc);
      CountsMonotone(n, nproc, k);
    } else {
      CountsPrefixBounded(n, nproc, k + 1);
      CountsMonotone(n, nproc, k);
    }
  }

  lemma {:induction false} CountsMonotone(n: int, nproc: int, k: int)
    requires 0 <= n && nproc >= 1 && 0 <= k <= nproc
    ensures 0 <= CountsBefore(n, nproc, k)
    ensures forall j :: 0 <= j <= k ==> CountsBefore(n, nproc, j) <= CountsBefore(n, nproc, k)
  {
    ShardsContiguous(n, nproc);
    if k > 0 {
      CountsMonotone(n, nproc, k - 1);
    }
  }

  /** Rank r's shard: the slice of the global array that the scatter sends it. */
  function Shard<T>(s: seq<T>, n: int, nproc: int, r: int): seq<T>
    requires 0 <= n <= |s| && nproc >= 1 && 0 <= r < nproc
  {
    ShardBounds(n, nproc, r);
    s[LocalOffset(n, nproc, r)..LocalOffset(n, nproc, r) + LocalCount(n, nproc, r)]
  }

  /** The shards of ranks 0 .. k-1 laid end to end. */
  function Gathered<T>(s: seq<T>, n: int, nproc: int, k: int): seq<T>
    requires 0 <= n <= |s| && nproc >= 1 && 0 <= k <= nproc
  {
    if k == 0 then [] else Gathered(s, n, nproc, k - 1) + Shard(s, n, nproc, k - 1)
  }

  /** The shards laid end to end in rank order are exactly the n seeded particles. */
  lemma ScatterCoversAll<T>(s: seq<T>, n: int, nproc: int)
    requires 0 <= n <= |s| && nproc >= 1
    ensures Gathered(s, n, nproc, nproc) == s[..n]
  {
    GatheredPrefix(s, n, nproc, nproc - 1);
    ShardBounds(n, nproc, nproc - 1);
    LastShardEndsAtN(n, nproc);
    OffsetIsCountsBefore(n, nproc, nproc - 1);
    var o := LocalOffset(n, nproc, nproc - 1);
    assert s[..o] + s[o..n] == s[..n];
  }

  lemma {:induction false} GatheredPrefix<T>(s: seq<T>, n: int, nproc: int, k: int)
    requires 0 <= n <= |s| && nproc >= 1 && 0 <= k < nproc
    ensures 0 <= LocalOffset(n, nproc, k) <= n
    ensures Gathered(s, n, nproc, k) == s[..LocalOffset(n, nproc, k)]
  {
    ShardBounds(n, nproc, k);
    if k > 0 {
      GatheredPrefix(s, n, nproc, k - 1);
      ShardsContiguous(n, nproc);
      ShardBounds(n, nproc, k - 1);
      var o, e := LocalOffset(n, nproc, k - 1), LocalOffset(n, nproc, k);
      assert s[..o] + s[o..e] == s[..e];
    }
  }

  /** Element j of rank r's shard is global particle offset + j, and the shard holds count particles. */
  lemma ShardElement<T>(s: seq<T>, n: int, nproc: int, r: int, j: int)
    requires 0 <= n <= |s| && nproc >= 1 && 0 <= r < nproc && 0 <= j < LocalCount(n, nproc, r)
    ensures 0 <= LocalOffset(n, nproc, r) && LocalOffset(n, nproc, r) + LocalCount(n, nproc, r) <= n
    ensures |Shard(s, n, nproc, r)| == LocalCount(n, nproc, r)
    ensures Shard(s, n, nproc, r)[j] == s[LocalOffset(n, nproc, r) + j]
  {
    ShardBounds(n, nproc, r);
  }
}
