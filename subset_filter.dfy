/**
 * The bounded, sticky server subset filter. Each pass starts from the previous
 * subset, prunes members that left the pool or look unhealthy, force-evicts the
 * least healthy of the rest to keep churn going, and refills to the target size
 * with randomly chosen servers from the zone-filtered pool.
 */
module SubsetFilter {
  import opened Servers

  /** The four dynamic properties the filter reads on every pass. */
  datatype SubsetConfig = SubsetConfig(
    size: int,
    forceEliminatePercent: real,
    eliminationFailureThreshold: int,
    eliminationConnectionThreshold: int)

  /** The defaults of the four configuration keys. */
  const DefaultConfig := SubsetConfig(20, 0.1, 0, 0)

  /** `Max` and `Min` on integers. */
  function Max(a: int, b: int): int { if a < b then b else a }
  function Min(a: int, b: int): int { if a < b then a else b }

  // ---------------------------------------------------------------------------
  // Health and the health ordering
  // ---------------------------------------------------------------------------

  /** A server whose connection count or failure count exceeds its threshold. */
  predicate Unhealthy(cfg: SubsetConfig, lbStats: LoadBalancerStats, server: Server)
  {
    var stats := SingleServerStat(lbStats, server);
    stats.activeRequestsCount > cfg.eliminationConnectionThreshold
    || stats.failureCount > cfg.eliminationFailureThreshold
  }

  /** `a` is in worse health than `b`: more failures, or as many failures and more active requests. */
  predicate WorseHealth(lbStats: LoadBalancerStats, a: Server, b: Server)
  {
    var sa, sb := SingleServerStat(lbStats, a), SingleServerStat(lbStats, b);
    sa.failureCount > sb.failureCount
    || (sa.failureCount == sb.failureCount && sa.activeRequestsCount > sb.activeRequestsCount)
  }

  /**
   * `compare`: negative when `a` must sort before `b` (it is in worse health),
   * positive when after, zero when both keys tie. Failure counts are unbounded
   * here, so the narrowing of their difference to 32 bits does not arise.
   */
  function Compare(lbStats: LoadBalancerStats, a: Server, b: Server): (r: int)
    ensures r < 0 <==> WorseHealth(lbStats, a, b)
    ensures r > 0 <==> WorseHealth(lbStats, b, a)
  {
    var stats1, stats2 := SingleServerStat(lbStats, a), SingleServerStat(lbStats, b);
    var failuresDiff := stats2.failureCount - stats1.failureCount;
    if failuresDiff != 0 then failuresDiff
    else stats2.activeRequestsCount - stats1.activeRequestsCount
  }

  /** `compare(a, b)` and `compare(b, a)` have opposite signs, and `compare` orders transitively. */
  lemma CompareIsAntisymmetricAndTransitive(lbStats: LoadBalancerStats, a: Server, b: Server, c: Server)
    ensures Compare(lbStats, a, b) == -Compare(lbStats, b, a)
    ensures Compare(lbStats, a, b) <= 0 && Compare(lbStats, b, c) <= 0 ==> Compare(lbStats, a, c) <= 0
  {
  }

  /** A list in `compare` order: worst health first. */
  ghost predicate SortedByHealth(lbStats: LoadBalancerStats, s: seq<Server>)
  {
    forall i, j :: 0 <= i < j < |s| ==> Compare(lbStats, s[i], s[j]) <= 0
  }

  /** Inserts `x` into a list in `compare` order, before the first server not worse than it. */
  function InsertByHealth(lbStats: LoadBalancerStats, x: Server, s: seq<Server>): (r: seq<Server>)
    ensures multiset(r) == multiset(s) + multiset{x}
  {
    if |s| == 0 then [x]
    else if Compare(lbStats, x, s[0]) <= 0 then [x] + s
    else
      assert s == [s[0]] + s[1..];
      [s[0]] + InsertByHealth(lbStats, x, s[1..])
  }

  /** Every server of the list sorts after `y` or ties with it. */
  ghost predicate AllAfter(lbStats: LoadBalancerStats, y: Server, s: seq<Server>)
  {
    forall k :: 0 <= k < |s| ==> Compare(lbStats, y, s[k]) <= 0
  }

  /** A list that starts with `y` is sorted when its tail is sorted and comes after `y`. */
  lemma SortedCons(lbStats: LoadBalancerStats, y: Server, s: seq<Server>)
    requires SortedByHealth(lbStats, s) && AllAfter(lbStats, y, s)
    ensures SortedByHealth(lbStats, [y] + s)
  {
    var t := [y] + s;
    forall i, j | 0 <= i < j < |t|
      ensures Compare(lbStats, t[i], t[j]) <= 0
    {
      if i > 0 {
        assert t[i] == s[i - 1] && t[j] == s[j - 1];
      } else {
        assert t[j] == s[j - 1];
      }
    }
  }

  /** Membership in a list, read off its multiset. */
  lemma AllAfterByMultiset(lbStats: LoadBalancerStats, y: Server, r: seq<Server>, s: seq<Server>, x: Server)
    requires multiset(r) == multiset(s) + multiset{x}
    requires AllAfter(lbStats, y, s) && Compare(lbStats, y, x) <= 0
    ensures AllAfter(lbStats, y, r)
  {
    forall k | 0 <= k < |r|
      ensures Compare(lbStats, y, r[k]) <= 0
    {
      assert r[k] in multiset(r);
      if r[k] != x {
        assert r[k] in multiset(s);
        var m :| 0 <= m < |s| && s[m] == r[k];
      }
    }
  }

  /** Inserting into a sorted list keeps it sorted. */
  lemma {:induction false} InsertKeepsSorted(lbStats: LoadBalancerStats, x: Server, s: seq<Server>)
    requires SortedByHealth(lbStats, s)
    ensures SortedByHealth(lbStats, InsertByHealth(lbStats, x, s))
  {
    if |s| == 0 {
    } else if Compare(lbStats, x, s[0]) <= 0 {
      forall k | 0 <= k < |s|
        ensures Compare(lbStats, x, s[k]) <= 0
      {
        if k > 0 {
          CompareIsAntisymmetricAndTransitive(lbStats, x, s[0], s[k]);
        }
      }
      SortedCons(lbStats, x, s);
    } else {
      var tail := s[1..];
      assert SortedByHealth(lbStats, tail) by {
        forall i, j | 0 <= i < j < |tail|
          ensures Compare(lbStats, tail[i], tail[j]) <= 0
        {
          assert tail[i] == s[i + 1] && tail[j] == s[j + 1];
        }
      }
      InsertKeepsSorted(lbStats, x, tail);
      var rest := InsertByHealth(lbStats, x, tail);
      assert AllAfter(lbStats, s[0], tail) by {
        forall k | 0 <= k < |tail|
          ensures Compare(lbStats, s[0], tail[k]) <= 0
        {
          assert tail[k] == s[k + 1];
        }
      }
      CompareIsAntisymmetricAndTransitive(lbStats, x, s[0], x);
      AllAfterByMultiset(lbStats, s[0], rest, tail, x);
      SortedCons(lbStats, s[0], rest);
    }
  }

  /** `Collections.sort(list, this)`: the list rearranged into `compare` order. */
  function SortByHealth(lbStats: LoadBalancerStats, s: seq<Server>): (r: seq<Server>)
    ensures multiset(r) == multiset(s)
    ensures SortedByHealth(lbStats, r)
  {
    if |s| == 0 then []
    else
      assert s == [s[0]] + s[1..];
      var sortedTail := SortByHealth(lbStats, s[1..]);
      InsertKeepsSorted(lbStats, s[0], sortedTail);
      InsertByHealth(lbStats, s[0], sortedTail)
  }

  // ---------------------------------------------------------------------------
  // The steps of one pass
  // ---------------------------------------------------------------------------

  /** Previous members still in the pool and healthy: what pruning keeps. */
  ghost function Survivors(cfg: SubsetConfig, lbStats: LoadBalancerStats, previous: set<Server>, pool: set<Server>): set<Server>
  {
    set s | s in previous && s in pool && !Unhealthy(cfg, lbStats, s)
  }

  /** Previous members still in the pool but unhealthy: what pruning also takes out of the candidates. */
  ghost function UnhealthyMembers(cfg: SubsetConfig, lbStats: LoadBalancerStats, previous: set<Server>, pool: set<Server>): set<Server>
  {
    set s | s in previous && s in pool && Unhealthy(cfg, lbStats, s)
  }

  /**
   * The pruning loop over the previous subset: a member that left the pool is
   * removed from the new subset; one that is unhealthy is removed from the new
   * subset and from the candidates.
   */
  method Prune(cfg: SubsetConfig, lbStats: LoadBalancerStats, currentSubset: set<Server>, pool: set<Server>)
    returns (newSubSet: set<Server>, candidates: set<Server>)
    ensures newSubSet == Survivors(cfg, lbStats, currentSubset, pool)
    ensures candidates == pool - UnhealthyMembers(cfg, lbStats, currentSubset, pool)
  {
    newSubSet, candidates := currentSubset, pool;
    var remaining := currentSubset;
    ghost var done: set<Server> := {};
    assert Survivors(cfg, lbStats, done, pool) == {} && UnhealthyMembers(cfg, lbStats, done, pool) == {};
    while remaining != {}
      invariant PruneInvariant(cfg, lbStats, pool, currentSubset, remaining, done, newSubSet, candidates)
      decreases |remaining|
    {
      var server :| server in remaining;
      ghost var before := (newSubSet, candidates);
      if server !in candidates {
        newSubSet := newSubSet - {server};
      } else if Unhealthy(cfg, lbStats, server) {
        newSubSet := newSubSet - {server};
        candidates := candidates - {server};
      }
      PruneStepKeepsInvariant(cfg, lbStats, pool, currentSubset, remaining, done, before.0, before.1, server, newSubSet, candidates);
      remaining := remaining - {server};
      done := done + {server};
    }
  }

  /** The pruning loop's invariant: `done` is the part of the previous subset already visited. */
  ghost predicate PruneInvariant(
    cfg: SubsetConfig, lbStats: LoadBalancerStats, pool: set<Server>, currentSubset: set<Server>,
    remaining: set<Server>, done: set<Server>, newSubSet: set<Server>, candidates: set<Server>)
  {
    && remaining !! done && remaining + done == currentSubset
    && newSubSet == remaining + Survivors(cfg, lbStats, done, pool)
    && candidates == pool - UnhealthyMembers(cfg, lbStats, done, pool)
  }

  /** One iteration of the pruning loop keeps its invariant. */
  lemma PruneStepKeepsInvariant(
    cfg: SubsetConfig, lbStats: LoadBalancerStats, pool: set<Server>, currentSubset: set<Server>,
    remaining: set<Server>, done: set<Server>, newSubSet: set<Server>, candidates: set<Server>,
    server: Server, newSubSet': set<Server>, candidates': set<Server>)
    requires PruneInvariant(cfg, lbStats, pool, currentSubset, remaining, done, newSubSet, candidates)
    requires server in remaining
    requires newSubSet' == if server !in candidates || Unhealthy(cfg, lbStats, server) then newSubSet - {server} else newSubSet
    requires candidates' == if server in candidates && Unhealthy(cfg, lbStats, server) then candidates - {server} else candidates
    ensures PruneInvariant(cfg, lbStats, pool, currentSubset, remaining - {server}, done + {server}, newSubSet', candidates')
  {
    PruneStep(cfg, lbStats, done, server, pool);
    var survivors, unhealthy := Survivors(cfg, lbStats, done, pool), UnhealthyMembers(cfg, lbStats, done, pool);
    assert server in candidates <==> server in pool;
    if server !in pool {
      assert newSubSet' == (remaining - {server}) + survivors;
    } else if Unhealthy(cfg, lbStats, server) {
      assert newSubSet' == (remaining - {server}) + survivors;
      assert candidates' == pool - (unhealthy + {server});
    } else {
      assert newSubSet' == (remaining - {server}) + (survivors + {server});
    }
  }

  /** How visiting one more member of the previous subset extends the two pruning sets. */
  lemma PruneStep(cfg: SubsetConfig, lbStats: LoadBalancerStats, done: set<Server>, server: Server, pool: set<Server>)
    requires server !in done
    ensures server !in Survivors(cfg, lbStats, done, pool) && server !in UnhealthyMembers(cfg, lbStats, done, pool)
    ensures Survivors(cfg, lbStats, done + {server}, pool) ==
      Survivors(cfg, lbStats, done, pool) + (if server in pool && !Unhealthy(cfg, lbStats, server) then {server} else {})
    ensures UnhealthyMembers(cfg, lbStats, done + {server}, pool) ==
      UnhealthyMembers(cfg, lbStats, done, pool) + (if server in pool && Unhealthy(cfg, lbStats, server) then {server} else {})
  {
  }

  /** The `(int)` cast of a float: truncation toward zero. */
  function TruncateToInt(x: real): (r: int)
    ensures 0.0 <= x ==> r as real <= x < r as real + 1.0
    ensures x < 0.0 ==> r as real - 1.0 < x <= r as real
  {
    if x >= 0.0 then x.Floor else -((-x).Floor)
  }

  /** `minElimination`: the target times the elimination percentage, cast to `int`. */
  function MinElimination(targetedListSize: int, eliminationPercent: real): int
  {
    TruncateToInt(targetedListSize as real * eliminationPercent)
  }

  /**
   * The number of members to force-evict after pruning: the surplus over the
   * target when there is one, otherwise the part of the minimum elimination
   * (target times the percentage, truncated) that pruning has not yet done,
   * never more than the subset holds.
   */
  function ForceEliminationCount(targetedListSize: int, eliminationPercent: real, previousSize: int, newSize: nat): (r: nat)
    ensures r <= newSize
    ensures targetedListSize < newSize ==> r == newSize - Max(targetedListSize, 0)
    ensures newSize <= targetedListSize ==>
      r == Min(Max(MinElimination(targetedListSize, eliminationPercent) - (previousSize - newSize), 0), newSize)
  {
    var numEliminated := previousSize - newSize;
    var minElimination := MinElimination(targetedListSize, eliminationPercent);
    var numToForceEliminate :=
      if targetedListSize < newSize then newSize - targetedListSize
      else if minElimination > numEliminated then minElimination - numEliminated
      else 0;
    if numToForceEliminate > newSize then newSize else numToForceEliminate
  }

  /** With the default 20 and 10% and nothing pruned, exactly two members are force-evicted. */
  lemma DefaultQuotaIsTwo(newSize: nat)
    requires 2 <= newSize <= 20
    ensures ForceEliminationCount(DefaultConfig.size, DefaultConfig.forceEliminatePercent, newSize, newSize) == 2
  {
    assert DefaultConfig.size as real * DefaultConfig.forceEliminatePercent == 2.0;
  }

  /** After forced eviction the subset is never above the target, and empty when the target is negative. */
  lemma ForcedEvictionReachesTarget(targetedListSize: int, eliminationPercent: real, previousSize: int, newSize: nat)
    ensures 0 <= targetedListSize ==>
      newSize - ForceEliminationCount(targetedListSize, eliminationPercent, previousSize, newSize) <= targetedListSize
    ensures 0 <= targetedListSize < newSize ==>
      newSize - ForceEliminationCount(targetedListSize, eliminationPercent, previousSize, newSize) == targetedListSize
    ensures targetedListSize < 0 ==>
      ForceEliminationCount(targetedListSize, eliminationPercent, previousSize, newSize) == newSize
  {
  }

  /**
   * The forced eviction: sort the subset worst health first and take the first
   * `numToForceEliminate` servers.
   */
  method ForceEliminate(lbStats: LoadBalancerStats, newSubSet: set<Server>, numToForceEliminate: nat)
    returns (forceEliminated: set<Server>)
    requires numToForceEliminate <= |newSubSet|
    ensures forceEliminated <= newSubSet
    ensures |forceEliminated| == numToForceEliminate
    ensures forall e, o :: e in forceEliminated && o in newSubSet - forceEliminated ==> Compare(lbStats, e, o) <= 0
  {
    var list := ListOf(newSubSet);
    var sortedSubSet := SortByHealth(lbStats, list);
    PermutationKeepsDistinct(list, sortedSubSet);
    var prefix := sortedSubSet[..numToForceEliminate];
    forceEliminated := Elements(prefix);
    assert Distinct(prefix);
    DistinctIffCardinality(prefix);
    forall e, o | e in forceEliminated && o in newSubSet - forceEliminated
      ensures Compare(lbStats, e, o) <= 0
    {
      var i :| 0 <= i < numToForceEliminate && prefix[i] == e;
      var j :| 0 <= j < |sortedSubSet| && sortedSubSet[j] == o;
    }
  }

  /** `nextInt(bound)`: the `raw` draw reduced to a value below `bound`. */
  function NextInt(raw: nat, bound: nat): (r: nat)
    requires 0 < bound
    ensures r < bound
  {
    raw % bound
  }

  /** The list after the first `k` swaps of the partial shuffle, swap `i` exchanging `i` with `NextInt(rnd(i), |s|)`. */
  function PartialShuffle<T>(s: seq<T>, k: nat, rnd: nat -> nat): (r: seq<T>)
    requires k <= |s|
    ensures |r| == |s|
    decreases k
  {
    if k == 0 then s
    else
      var t := PartialShuffle(s, k - 1, rnd);
      var i, index := k - 1, NextInt(rnd(k - 1), |s|);
      t[index := t[i]][i := t[index]]
  }

  /** Exchanging two entries rearranges a list. */
  lemma SwapIsPermutation<T>(t: seq<T>, i: nat, index: nat)
    requires i < |t| && index < |t|
    ensures multiset(t[index := t[i]][i := t[index]]) == multiset(t)
  {
    if i != index {
      var u := t[index := t[i]];
      assert multiset(u) == multiset(t) - multiset{t[index]} + multiset{t[i]};
      assert u[i] == t[i];
      assert multiset(u[i := t[index]]) == multiset(u) - multiset{t[i]} + multiset{t[index]};
    }
  }

  /** The partial shuffle rearranges the list. */
  lemma {:induction false} PartialShuffleIsPermutation<T>(s: seq<T>, k: nat, rnd: nat -> nat)
    requires k <= |s|
    ensures multiset(PartialShuffle(s, k, rnd)) == multiset(s)
  {
    if k > 0 {
      var t := PartialShuffle(s, k - 1, rnd);
      var index := NextInt(rnd(k - 1), |s|);
      assert 0 <= index < |s|;
      var u := t[index := t[k - 1]][k - 1 := t[index]];
      assert PartialShuffle(s, k, rnd) == u;
      PartialShuffleIsPermutation(s, k - 1, rnd);
      SwapIsPermutation(t, k - 1, index);
    }
  }

  /**
   * `randomChoose`: the whole list when `toChoose` is negative or not below the
   * size; otherwise the list is partially shuffled in place and its first
   * `toChoose` entries are returned. `NextInt(rnd(i), size)` is the `i`-th
   * draw of `nextInt(size)`.
   */
  method RandomChoose<T>(servers: array<T>, toChoose: int, rnd: nat -> nat) returns (chosen: seq<T>)
    modifies servers
    ensures toChoose >= servers.Length || toChoose < 0 ==> servers[..] == old(servers[..]) && chosen == servers[..]
    ensures 0 <= toChoose < servers.Length ==>
      servers[..] == PartialShuffle(old(servers[..]), toChoose, rnd) && chosen == servers[..toChoose]
  {
    var size := servers.Length;
    if toChoose >= size || toChoose < 0 {
      return servers[..];
    }
    ghost var original := servers[..];
    for i := 0 to toChoose
      invariant servers[..] == PartialShuffle(original, i, rnd)
    {
      PartialShuffleIsPermutation(original, i, rnd);
      var index := NextInt(rnd(i), size);
      var tmp := servers[index];
      servers[index] := servers[i];
      servers[i] := tmp;
    }
    chosen := servers[..toChoose];
  }

  /** Length, distinctness and provenance of what `randomChoose` returns. */
  lemma RandomChooseChoosesDistinctInputs<T>(s: seq<T>, toChoose: nat, rnd: nat -> nat)
    requires toChoose < |s|
    requires Distinct(s)
    ensures |PartialShuffle(s, toChoose, rnd)[..toChoose]| == toChoose
    ensures Distinct(PartialShuffle(s, toChoose, rnd)[..toChoose])
    ensures Elements(PartialShuffle(s, toChoose, rnd)[..toChoose]) <= Elements(s)
  {
    var t := PartialShuffle(s, toChoose, rnd);
    PartialShuffleIsPermutation(s, toChoose, rnd);
    PermutationKeepsDistinct(s, t);
    assert forall x :: x in t[..toChoose] ==> x in t;
  }

  /**
   * The refill of a subset below target: the healthy candidates not in the
   * subset, or the whole pool minus the subset when the healthy ones are too
   * few, are listed, and `randomChoose` picks the servers to add.
   */
  method Replenish(newSubSet: set<Server>, candidates: set<Server>, pool: set<Server>, targetedListSize: int, rnd: nat -> nat)
    returns (chosen: set<Server>, fallback: bool)
    requires |newSubSet| < targetedListSize
    ensures chosen !! newSubSet
    ensures fallback <==> targetedListSize - |newSubSet| > |candidates - newSubSet|
    ensures !fallback ==> chosen <= candidates - newSubSet && |chosen| == targetedListSize - |newSubSet|
    ensures fallback ==> chosen <= pool - newSubSet && |chosen| == Min(targetedListSize - |newSubSet|, |pool - newSubSet|)
  {
    var numToChoose := targetedListSize - |newSubSet|;
    var choosable := candidates - newSubSet;
    fallback := numToChoose > |choosable|;
    if fallback {
      choosable := pool - newSubSet;
    }
    var list := ListOf(choosable);
    var servers := new Server[|list|](i requires 0 <= i < |list| => list[i]);
    assert servers[..] == list;
    var picked := RandomChoose(servers, numToChoose, rnd);
    chosen := Elements(picked);
    if numToChoose < |list| {
      RandomChooseChoosesDistinctInputs(list, numToChoose, rnd);
      DistinctIffCardinality(picked);
    }
  }

  // ---------------------------------------------------------------------------
  // A whole pass
  // ---------------------------------------------------------------------------

  /**
   * What one pass may produce from the previous subset `previous` and the
   * zone-filtered pool `pool`, given the force-evicted servers `forced` and
   * whether the refill fell back to the whole pool.
   */
  ghost predicate IsPassOutcome(
    cfg: SubsetConfig, lbStats: LoadBalancerStats, previous: set<Server>, pool: set<Server>,
    next: set<Server>, forced: set<Server>, fallback: bool)
  {
    var survivors := Survivors(cfg, lbStats, previous, pool);
    // every server of the result is in the pool; members that left the pool are gone
    && next <= pool
    // the forced evictions are the quota's worth of the worst-health survivors
    && forced <= survivors
    && |forced| == ForceEliminationCount(cfg.size, cfg.forceEliminatePercent, |previous|, |survivors|)
    && (forall e, o :: e in forced && o in survivors - forced ==> Compare(lbStats, e, o) <= 0)
    // sticky: healthy survivors that were not force-evicted stay
    && survivors - forced <= next
    // the refill falls back to the whole pool exactly when the servers outside
    // the previous subset are too few to make up the shortfall
    && (fallback <==> |survivors - forced| < cfg.size && cfg.size - |survivors - forced| > |pool - previous|)
    // unhealthy and force-evicted members come back only through the fallback
    && (!fallback ==> next !! (UnhealthyMembers(cfg, lbStats, previous, pool) + forced))
    // the size is the target, or the whole pool when it is smaller
    && (0 <= cfg.size ==> |next| == Min(cfg.size, |pool|))
    && (cfg.size < 0 ==> next == {})
  }

  /** Cardinality facts about nested sets that the size arithmetic uses. */
  lemma SubsetCardinality<T>(a: set<T>, b: set<T>)
    requires a <= b
    ensures |a| <= |b| && |b - a| == |b| - |a|
  {
    assert b == a + (b - a);
  }

  /** The size a pass ends with: the target, or the whole pool when that is smaller. */
  lemma RefillSize(
    targetedListSize: int, subset: set<Server>, candidates: set<Server>, pool: set<Server>,
    chosen: set<Server>, fallback: bool)
    requires subset <= pool && candidates <= pool
    requires 0 <= targetedListSize ==> |subset| <= targetedListSize
    requires targetedListSize < 0 ==> subset == {}
    requires |subset| >= targetedListSize ==> chosen == {}
    requires |subset| < targetedListSize ==>
      && chosen !! subset
      && (fallback <==> targetedListSize - |subset| > |candidates - subset|)
      && (!fallback ==> chosen <= candidates - subset && |chosen| == targetedListSize - |subset|)
      && (fallback ==> chosen <= pool - subset && |chosen| == Min(targetedListSize - |subset|, |pool - subset|))
    ensures 0 <= targetedListSize ==> |subset + chosen| == Min(targetedListSize, |pool|)
    ensures targetedListSize < 0 ==> subset + chosen == {}
  {
    SubsetCardinality(subset, pool);
    if |subset| < targetedListSize {
      SubsetCardinality(candidates - subset, pool - subset);
      assert |subset + chosen| == |subset| + |chosen|;
    } else {
      assert subset + chosen == subset;
    }
  }

  /**
   * After pruning and forced eviction, the candidates outside the subset are
   * exactly the pool servers that were not in the previous subset.
   */
  lemma CandidatesOutsideSubset(
    cfg: SubsetConfig, lbStats: LoadBalancerStats, previous: set<Server>, pool: set<Server>, forced: set<Server>)
    requires forced <= Survivors(cfg, lbStats, previous, pool)
    ensures (pool - UnhealthyMembers(cfg, lbStats, previous, pool) - forced) - (Survivors(cfg, lbStats, previous, pool) - forced)
      == pool - previous
  {
    var survivors, unhealthy := Survivors(cfg, lbStats, previous, pool), UnhealthyMembers(cfg, lbStats, previous, pool);
    assert survivors + unhealthy == previous * pool;
  }

  /** The outcome of a pass assembled from what its steps guarantee. */
  lemma PassOutcomeHolds(
    cfg: SubsetConfig, lbStats: LoadBalancerStats, previous: set<Server>, pool: set<Server>,
    forced: set<Server>, chosen: set<Server>, fallback: bool)
    requires forced <= Survivors(cfg, lbStats, previous, pool)
    requires |forced| == ForceEliminationCount(cfg.size, cfg.forceEliminatePercent, |previous|, |Survivors(cfg, lbStats, previous, pool)|)
    requires forall e, o :: e in forced && o in Survivors(cfg, lbStats, previous, pool) - forced ==> Compare(lbStats, e, o) <= 0
    requires chosen <= pool
    requires fallback <==> (|Survivors(cfg, lbStats, previous, pool) - forced| < cfg.size
      && cfg.size - |Survivors(cfg, lbStats, previous, pool) - forced| > |pool - previous|)
    requires !fallback ==> chosen !! (UnhealthyMembers(cfg, lbStats, previous, pool) + forced)
    requires 0 <= cfg.size ==> |(Survivors(cfg, lbStats, previous, pool) - forced) + chosen| == Min(cfg.size, |pool|)
    requires cfg.size < 0 ==> (Survivors(cfg, lbStats, previous, pool) - forced) + chosen == {}
    ensures IsPassOutcome(cfg, lbStats, previous, pool, (Survivors(cfg, lbStats, previous, pool) - forced) + chosen, forced, fallback)
  {
    var survivors := Survivors(cfg, lbStats, previous, pool);
    assert survivors !! UnhealthyMembers(cfg, lbStats, previous, pool);
  }

  /**
   * A pass that finds enough servers outside the previous subset for the
   * refill does not fall back, so every unhealthy and every force-evicted
   * member is gone from the result.
   */
  lemma NoFallbackDropsEvicted(
    cfg: SubsetConfig, lbStats: LoadBalancerStats, previous: set<Server>, pool: set<Server>,
    next: set<Server>, forced: set<Server>, fallback: bool)
    requires IsPassOutcome(cfg, lbStats, previous, pool, next, forced, fallback)
    requires cfg.size - |Survivors(cfg, lbStats, previous, pool) - forced| <= |pool - previous|
    ensures !fallback
    ensures UnhealthyMembers(cfg, lbStats, previous, pool) !! next
    ensures forced <= previous - next
  {
    assert forced <= previous;
  }

  /**
   * When the whole previous subset is healthy and still in the pool, and the
   * truncated `size * percent` is at least one, a pass evicts that many
   * members for good as long as the pool has enough servers outside the
   * previous subset to replace them.
   */
  lemma HealthyPassChurns(
    cfg: SubsetConfig, lbStats: LoadBalancerStats, previous: set<Server>, pool: set<Server>,
    next: set<Server>, forced: set<Server>, fallback: bool)
    requires IsPassOutcome(cfg, lbStats, previous, pool, next, forced, fallback)
    requires previous <= pool && |previous| <= cfg.size
    requires forall s :: s in previous ==> !Unhealthy(cfg, lbStats, s)
    requires 1 <= MinElimination(cfg.size, cfg.forceEliminatePercent) <= |previous|
    requires cfg.size - |previous| + MinElimination(cfg.size, cfg.forceEliminatePercent) <= |pool - previous|
    ensures |previous - next| >= MinElimination(cfg.size, cfg.forceEliminatePercent)
    ensures next != previous
  {
    var m := MinElimination(cfg.size, cfg.forceEliminatePercent);
    var survivors := Survivors(cfg, lbStats, previous, pool);
    assert survivors == previous;
    assert |forced| == ForceEliminationCount(cfg.size, cfg.forceEliminatePercent, |previous|, |previous|) == m;
    assert forced <= survivors;
    SubsetCardinality(forced, survivors);
    assert |survivors - forced| == |previous| - m;
    NoFallbackDropsEvicted(cfg, lbStats, previous, pool, next, forced, fallback);
    SubsetCardinality(forced, previous - next);
  }

  /**
   * A concrete pass that meets the conditions of `HealthyPassChurns`: target
   * one, elimination percentage one, a healthy member `a` and one other
   * server `b`; `a` is force-evicted and `b` takes its place.
   */
  lemma HealthyPassChurnsExample(a: Server, b: Server)
    requires a != b
    ensures var cfg := SubsetConfig(1, 1.0, 0, 0);
      && IsPassOutcome(cfg, map[], {a}, {a, b}, {b}, {a}, false)
      && MinElimination(cfg.size, cfg.forceEliminatePercent) == 1
      && |{a} - {b}| >= MinElimination(cfg.size, cfg.forceEliminatePercent)
  {
    var cfg := SubsetConfig(1, 1.0, 0, 0);
    assert !Unhealthy(cfg, map[], a) && !Unhealthy(cfg, map[], b);
    assert Survivors(cfg, map[], {a}, {a, b}) == {a};
    assert UnhealthyMembers(cfg, map[], {a}, {a, b}) == {};
    assert {a, b} - {a} == {b};
    assert MinElimination(1, 1.0) == 1;
  }

  /** With the defaults, a full healthy subset and two fresh servers in the pool, two members are replaced. */
  lemma DefaultPassChurns(
    lbStats: LoadBalancerStats, previous: set<Server>, pool: set<Server>,
    next: set<Server>, forced: set<Server>, fallback: bool)
    requires IsPassOutcome(DefaultConfig, lbStats, previous, pool, next, forced, fallback)
    requires previous <= pool && |previous| == 20 && |pool - previous| >= 2
    requires forall s :: s in previous ==> !Unhealthy(DefaultConfig, lbStats, s)
    ensures |previous - next| >= 2
  {
    assert DefaultConfig.size as real * DefaultConfig.forceEliminatePercent == 2.0;
    HealthyPassChurns(DefaultConfig, lbStats, previous, pool, next, forced, fallback);
  }

  /**
   * The first half of a pass: prune the previous subset, compute the quota
   * and force-evict it from the survivors and from the candidates.
   */
  method PruneAndEvict(cfg: SubsetConfig, lbStats: LoadBalancerStats, currentSubset: set<Server>, pool: set<Server>)
    returns (subset: set<Server>, candidates: set<Server>, forced: set<Server>)
    ensures forced <= Survivors(cfg, lbStats, currentSubset, pool)
    ensures |forced| == ForceEliminationCount(cfg.size, cfg.forceEliminatePercent, |currentSubset|, |Survivors(cfg, lbStats, currentSubset, pool)|)
    ensures forall e, o :: e in forced && o in Survivors(cfg, lbStats, currentSubset, pool) - forced ==> Compare(lbStats, e, o) <= 0
    ensures subset == Survivors(cfg, lbStats, currentSubset, pool) - forced
    ensures candidates == pool - UnhealthyMembers(cfg, lbStats, currentSubset, pool) - forced
    ensures candidates - subset == pool - currentSubset
    ensures 0 <= cfg.size ==> |subset| <= cfg.size
    ensures cfg.size < 0 ==> subset == {}
  {
    ghost var survivors := Survivors(cfg, lbStats, currentSubset, pool);
    subset, candidates := Prune(cfg, lbStats, currentSubset, pool);
    var targetedListSize := cfg.size;
    var numToForceEliminate := ForceEliminationCount(targetedListSize, cfg.forceEliminatePercent, |currentSubset|, |subset|);
    ForcedEvictionReachesTarget(targetedListSize, cfg.forceEliminatePercent, |currentSubset|, |subset|);
    forced := {};
    if numToForceEliminate > 0 {
      forced := ForceEliminate(lbStats, subset, numToForceEliminate);
      subset := subset - forced;
      candidates := candidates - forced;
    }
    SubsetCardinality(forced, survivors);
    CandidatesOutsideSubset(cfg, lbStats, currentSubset, pool, forced);
  }

  /** One pass of `getFilteredListOfServers` on the previous subset and the zone-filtered list. */
  method FilterPass(cfg: SubsetConfig, lbStats: LoadBalancerStats, currentSubset: set<Server>, zoneAffinityFiltered: seq<Server>, rnd: nat -> nat)
    returns (newSubSet: set<Server>, forced: set<Server>, fallback: bool)
    ensures IsPassOutcome(cfg, lbStats, currentSubset, Elements(zoneAffinityFiltered), newSubSet, forced, fallback)
  {
    var pool := Elements(zoneAffinityFiltered);
    var subset, candidates;
    subset, candidates, forced := PruneAndEvict(cfg, lbStats, currentSubset, pool);
    var targetedListSize := cfg.size;
    var chosen: set<Server> := {};
    fallback := false;
    if |subset| < targetedListSize {
      chosen, fallback := Replenish(subset, candidates, pool, targetedListSize, rnd);
    }
    RefillSize(targetedListSize, subset, candidates, pool, chosen, fallback);
    PassOutcomeHolds(cfg, lbStats, currentSubset, pool, forced, chosen, fallback);
    newSubSet := subset + chosen;
  }

  /** The filter, holding the subset returned by its previous pass. */
  class ServerListSubsetFilter {
    var currentSubset: set<Server>

    constructor ()
      ensures currentSubset == {}
    {
      currentSubset := {};
    }

    /**
     * `getFilteredListOfServers`: narrows the zone-affinity filter's output to
     * a bounded sticky subset, stores it as the current subset and returns it
     * as a duplicate-free list.
     */
    method GetFilteredListOfServers(
      servers: seq<Server>, zoneAffinityFilter: seq<Server> -> seq<Server>,
      cfg: SubsetConfig, lbStats: LoadBalancerStats, rnd: nat -> nat)
      returns (result: seq<Server>)
      modifies this
      ensures Distinct(result) && Elements(result) == currentSubset
      ensures exists forced, fallback :: IsPassOutcome(
        cfg, lbStats, old(currentSubset), Elements(zoneAffinityFilter(servers)), currentSubset, forced, fallback)
    {
      var zoneAffinityFiltered := zoneAffinityFilter(servers);
      ghost var previous := currentSubset;
      var newSubSet, forced, fallback := FilterPass(cfg, lbStats, currentSubset, zoneAffinityFiltered, rnd);
      currentSubset := newSubSet;
      result := ListOf(newSubSet);
      assert IsPassOutcome(cfg, lbStats, previous, Elements(zoneAffinityFiltered), currentSubset, forced, fallback);
    }
  }
}
