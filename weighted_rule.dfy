/**
 * The response-time weighted selection rule. A recomputation job turns the
 * servers' average response times into a cumulative weight table; each
 * selection draws a point below the table's total and picks the first server
 * whose cumulative weight reaches it, falling back to round robin while the
 * total is negligible.
 */
module WeightedRule {
  import opened Servers

  /** What the rule reads from its load balancer. `isAbstractLoadBalancer` says whether it can supply statistics at all. */
  datatype LoadBalancer = LoadBalancer(
    allServers: seq<Server>,
    isAbstractLoadBalancer: bool,
    stats: Option<LoadBalancerStats>)

  /** Below this total weight the table is treated as empty. */
  const MinTotalWeight: real := 0.001

  // ---------------------------------------------------------------------------
  // The weight table
  // ---------------------------------------------------------------------------

  /** The sum of a list of reals. */
  function Sum(xs: seq<real>): real
  {
    if |xs| == 0 then 0.0 else Sum(xs[..|xs| - 1]) + xs[|xs| - 1]
  }

  /** The average response time of each server, in list order. */
  function ResponseTimes(servers: seq<Server>, lbStats: LoadBalancerStats): (avgs: seq<real>)
    ensures |avgs| == |servers|
  {
    seq(|servers|, i requires 0 <= i < |servers| => SingleServerStat(lbStats, servers[i]).responseTimeAvg)
  }

  /** Each server's own weight: the total response time less its own average. */
  function Contributions(totalResponseTime: real, avgs: seq<real>): (cs: seq<real>)
    ensures |cs| == |avgs|
  {
    seq(|avgs|, i requires 0 <= i < |avgs| => totalResponseTime - avgs[i])
  }

  /** Entry `i` is the sum of the first `i + 1` weights. */
  function PrefixSums(cs: seq<real>): (w: seq<real>)
    ensures |w| == |cs|
  {
    seq(|cs|, i requires 0 <= i < |cs| => Sum(cs[..i + 1]))
  }

  /** The table the recomputation job publishes for the given averages. */
  function WeightTable(avgs: seq<real>): (w: seq<real>)
    ensures |w| == |avgs|
  {
    PrefixSums(Contributions(Sum(avgs), avgs))
  }

  /** The sum of the first `m` contributions, in closed form. */
  lemma {:induction false} ContributionPrefixSum(t: real, avgs: seq<real>, m: nat)
    requires m <= |avgs|
    ensures Sum(Contributions(t, avgs)[..m]) == m as real * t - Sum(avgs[..m])
  {
    if m > 0 {
      var cs := Contributions(t, avgs);
      ContributionPrefixSum(t, avgs, m - 1);
      assert cs[..m][..m - 1] == cs[..m - 1];
      assert avgs[..m][..m - 1] == avgs[..m - 1];
    }
  }

  /** Entry `i` of the table is the sum of the first `i + 1` contributions. */
  lemma WeightTableIsPrefixSum(avgs: seq<real>, i: nat)
    requires i < |avgs|
    ensures WeightTable(avgs)[i] == Sum(Contributions(Sum(avgs), avgs)[..i + 1])
  {
    var cs := Contributions(Sum(avgs), avgs);
    assert WeightTable(avgs) == PrefixSums(cs);
    assert PrefixSums(cs)[i] == Sum(cs[..i + 1]);
  }

  /** Entry `m - 1` of the table is `m` times the total response time less the first `m` averages. */
  lemma WeightTableEntry(avgs: seq<real>, m: nat, totalResponseTime: real)
    requires 0 < m <= |avgs| && totalResponseTime == Sum(avgs)
    ensures WeightTable(avgs)[m - 1] == m as real * totalResponseTime - Sum(avgs[..m])
  {
    WeightTableIsPrefixSum(avgs, m - 1);
    ContributionPrefixSum(totalResponseTime, avgs, m);
  }

  /** The last entry, the total weight, is `n - 1` times the total response time. */
  lemma WeightTableLast(avgs: seq<real>, totalResponseTime: real)
    requires |avgs| > 0 && totalResponseTime == Sum(avgs)
    ensures WeightTable(avgs)[|avgs| - 1] == |avgs| as real * totalResponseTime - totalResponseTime
  {
    WeightTableEntry(avgs, |avgs|, totalResponseTime);
    assert avgs[..|avgs|] == avgs;
  }

  /** With non-negative averages no average exceeds their sum. */
  lemma {:induction false} ElementAtMostSum(avgs: seq<real>, i: nat)
    requires forall k :: 0 <= k < |avgs| ==> 0.0 <= avgs[k]
    requires i < |avgs|
    ensures 0.0 <= Sum(avgs) && avgs[i] <= Sum(avgs)
  {
    var init := avgs[..|avgs| - 1];
    if i < |avgs| - 1 {
      ElementAtMostSum(init, i);
    } else if |init| > 0 {
      ElementAtMostSum(init, 0);
    }
  }

  /** Prefix sums of non-negative weights grow with the prefix. */
  lemma {:induction false} PrefixSumMonotone(cs: seq<real>, a: nat, b: nat)
    requires forall k :: 0 <= k < |cs| ==> 0.0 <= cs[k]
    requires a <= b <= |cs|
    ensures Sum(cs[..a]) <= Sum(cs[..b])
  {
    if a < b {
      PrefixSumMonotone(cs, a, b - 1);
      assert cs[..b][..b - 1] == cs[..b - 1];
    }
  }

  /** With non-negative averages every weight is non-negative and the table is non-decreasing. */
  lemma WeightTableNonDecreasing(avgs: seq<real>, i: nat, j: nat)
    requires forall k :: 0 <= k < |avgs| ==> 0.0 <= avgs[k]
    requires i <= j < |avgs|
    ensures 0.0 <= Contributions(Sum(avgs), avgs)[i]
    ensures WeightTable(avgs)[i] <= WeightTable(avgs)[j]
  {
    var cs := Contributions(Sum(avgs), avgs);
    forall k | 0 <= k < |cs|
      ensures 0.0 <= cs[k]
    {
      ElementAtMostSum(avgs, k);
    }
    PrefixSumMonotone(cs, i + 1, j + 1);
  }

  /** Averages 10, 30 and 40 give the table 70, 120, 160. */
  lemma WeightTableExample()
    ensures WeightTable([10.0, 30.0, 40.0]) == [70.0, 120.0, 160.0]
  {
    var avgs := [10.0, 30.0, 40.0];
    assert avgs[..1] == [10.0] && avgs[..2] == [10.0, 30.0] && avgs[..3] == avgs;
    assert [10.0][..0] == [] && [10.0, 30.0][..1] == [10.0] && avgs[..2] == [10.0, 30.0];
    assert Sum([10.0]) == 10.0;
    assert Sum([10.0, 30.0]) == 40.0;
    assert Sum(avgs) == 80.0;
    WeightTableEntry(avgs, 1, 80.0);
    WeightTableEntry(avgs, 2, 80.0);
    WeightTableEntry(avgs, 3, 80.0);
  }

  /**
   * Equal averages `a` over `n` servers give total weight `n * n * a - n * a`,
   * so it vanishes only for a single server or zero averages.
   */
  lemma EqualAveragesTotalWeight(avgs: seq<real>, a: real)
    requires |avgs| > 0
    requires forall k :: 0 <= k < |avgs| ==> avgs[k] == a
    ensures var n := |avgs| as real;
      WeightTable(avgs)[|avgs| - 1] == n * (n * a) - n * a
    ensures WeightTable(avgs)[|avgs| - 1] == 0.0 <==> |avgs| == 1 || a == 0.0
  {
    var n := |avgs| as real;
    SumOfConstant(avgs, a);
    WeightTableLast(avgs, n * a);
    var w := n * (n * a) - n * a;
    assert w == (n - 1.0) * (n * a);
    if |avgs| > 1 && a != 0.0 {
      assert n - 1.0 != 0.0 && n * a != 0.0;
      assert w != 0.0;
    }
  }

  /** A list of `n` copies of `a` sums to `n * a`. */
  lemma {:induction false} SumOfConstant(avgs: seq<real>, a: real)
    requires forall k :: 0 <= k < |avgs| ==> avgs[k] == a
    ensures Sum(avgs) == |avgs| as real * a
  {
    if |avgs| > 0 {
      SumOfConstant(avgs[..|avgs| - 1], a);
    }
  }

  /** The first loop of `maintainWeights`: the sum of the servers' average response times. */
  method TotalResponseTime(servers: seq<Server>, lbStats: LoadBalancerStats) returns (totalResponseTime: real)
    ensures totalResponseTime == Sum(ResponseTimes(servers, lbStats))
  {
    ghost var avgs := ResponseTimes(servers, lbStats);
    totalResponseTime := 0.0;
    for i := 0 to |servers|
      invariant totalResponseTime == Sum(avgs[..i])
    {
      var ss := SingleServerStat(lbStats, servers[i]);
      assert avgs[..i + 1][..i] == avgs[..i];
      totalResponseTime := totalResponseTime + ss.responseTimeAvg;
    }
    assert avgs[..|servers|] == avgs;
  }

  /** The second loop of `maintainWeights`: the running sum of `total - average`, one entry per server. */
  method AccumulateWeights(servers: seq<Server>, lbStats: LoadBalancerStats, totalResponseTime: real)
    returns (finalWeights: seq<real>)
    ensures finalWeights == PrefixSums(Contributions(totalResponseTime, ResponseTimes(servers, lbStats)))
  {
    ghost var cs := Contributions(totalResponseTime, ResponseTimes(servers, lbStats));
    var weightSoFar := 0.0;
    finalWeights := [];
    for i := 0 to |servers|
      invariant weightSoFar == Sum(cs[..i])
      invariant |finalWeights| == i
      invariant forall k :: 0 <= k < i ==> finalWeights[k] == Sum(cs[..k + 1])
    {
      var ss := SingleServerStat(lbStats, servers[i]);
      var weight := totalResponseTime - ss.responseTimeAvg;
      assert cs[..i + 1][..i] == cs[..i];
      weightSoFar := weightSoFar + weight;
      finalWeights := finalWeights + [weightSoFar];
    }
  }

  // ---------------------------------------------------------------------------
  // Selection
  // ---------------------------------------------------------------------------

  /** The total weight: the last entry of the table, or zero for an empty one. */
  function MaxTotalWeight(weights: seq<real>): (total: real)
    ensures (forall i, j :: 0 <= i <= j < |weights| ==> weights[i] <= weights[j]) ==>
      forall i :: 0 <= i < |weights| ==> weights[i] <= total
  {
    if |weights| == 0 then 0.0 else weights[|weights| - 1]
  }

  /**
   * The total weight of a published table: zero for no servers, otherwise
   * `n - 1` times the total response time; with non-negative averages it
   * bounds every entry.
   */
  lemma MaxTotalWeightOfTable(avgs: seq<real>, totalResponseTime: real)
    requires totalResponseTime == Sum(avgs)
    ensures |avgs| == 0 ==> MaxTotalWeight(WeightTable(avgs)) == 0.0
    ensures |avgs| > 0 ==> MaxTotalWeight(WeightTable(avgs)) == |avgs| as real * totalResponseTime - totalResponseTime
    ensures (forall k :: 0 <= k < |avgs| ==> 0.0 <= avgs[k]) ==>
      forall i :: 0 <= i < |avgs| ==> WeightTable(avgs)[i] <= MaxTotalWeight(WeightTable(avgs))
  {
    if |avgs| > 0 {
      WeightTableLast(avgs, totalResponseTime);
      if forall k :: 0 <= k < |avgs| ==> 0.0 <= avgs[k] {
        forall i | 0 <= i < |avgs|
          ensures WeightTable(avgs)[i] <= MaxTotalWeight(WeightTable(avgs))
        {
          WeightTableNonDecreasing(avgs, i, |avgs| - 1);
        }
      }
    }
  }

  /** The index the scan settles on, looking from `n`: the first weight reaching `randomWeight`, or 0. */
  function ScanFrom(weights: seq<real>, randomWeight: real, n: nat): (i: nat)
    requires n <= |weights|
    ensures i == 0 || n <= i < |weights|
    decreases |weights| - n
  {
    if n == |weights| then 0
    else if weights[n] >= randomWeight then n
    else ScanFrom(weights, randomWeight, n + 1)
  }

  /** The index the selection scan picks for `randomWeight`. */
  function FirstIndexAtLeast(weights: seq<real>, randomWeight: real): nat
  {
    ScanFrom(weights, randomWeight, 0)
  }

  lemma {:induction false} ScanFromIsFirst(weights: seq<real>, randomWeight: real, n: nat)
    requires n <= |weights|
    requires forall j :: 0 <= j < n ==> weights[j] < randomWeight
    decreases |weights| - n
    ensures (exists k :: 0 <= k < |weights| && weights[k] >= randomWeight) ==>
      var i := ScanFrom(weights, randomWeight, n);
      i < |weights| && weights[i] >= randomWeight && forall j :: 0 <= j < i ==> weights[j] < randomWeight
    ensures (forall k :: 0 <= k < |weights| ==> weights[k] < randomWeight) ==> ScanFrom(weights, randomWeight, n) == 0
  {
    if n < |weights| && weights[n] < randomWeight {
      ScanFromIsFirst(weights, randomWeight, n + 1);
    }
  }

  /** The scan picks the first index whose weight reaches `randomWeight`, and 0 when none does. */
  lemma FirstIndexAtLeastIsFirst(weights: seq<real>, randomWeight: real)
    ensures (exists k :: 0 <= k < |weights| && weights[k] >= randomWeight) ==>
      var i := FirstIndexAtLeast(weights, randomWeight);
      i < |weights| && weights[i] >= randomWeight && forall j :: 0 <= j < i ==> weights[j] < randomWeight
    ensures (forall k :: 0 <= k < |weights| ==> weights[k] < randomWeight) ==> FirstIndexAtLeast(weights, randomWeight) == 0
  {
    ScanFromIsFirst(weights, randomWeight, 0);
  }

  /** The scan over the table in `choose`. */
  method SelectServerIndex(weights: seq<real>, randomWeight: real) returns (serverIndex: nat)
    ensures serverIndex == FirstIndexAtLeast(weights, randomWeight)
  {
    serverIndex := 0;
    var n := 0;
    while n < |weights|
      invariant n <= |weights|
      invariant ScanFrom(weights, randomWeight, n) == FirstIndexAtLeast(weights, randomWeight)
    {
      if weights[n] >= randomWeight {
        serverIndex := n;
        break;
      } else {
        n := n + 1;
      }
    }
  }

  /**
   * What one attempt of `choose` yields: a candidate (possibly none, when
   * round robin returns none), or the index fault `allList.get` raises when
   * a table longer than the current server list is scanned past its end.
   */
  datatype Attempt = Candidate(pick: Option<Server>) | IndexFault

  /**
   * One attempt of `choose` on a non-empty list: round robin's pick when the
   * total weight is negligible, otherwise the server at the scanned index for
   * the draw `u` scaled to the total.
   */
  function AttemptPick(weights: seq<real>, allList: seq<Server>, u: real, roundRobinPick: Option<Server>): (a: Attempt)
    ensures a == IndexFault ==> MinTotalWeight <= MaxTotalWeight(weights) && |allList| < |weights|
    ensures MaxTotalWeight(weights) >= MinTotalWeight && a.Candidate? ==> a.pick.Some? && a.pick.value in allList
  {
    var maxTotalWeight := MaxTotalWeight(weights);
    if maxTotalWeight < MinTotalWeight then Candidate(roundRobinPick)
    else
      var serverIndex := FirstIndexAtLeast(weights, ScaledDraw(u, maxTotalWeight));
      if serverIndex < |allList| then Candidate(Some(allList[serverIndex])) else IndexFault
  }

  /** A table no longer than the server list never faults: the scan stays inside the table or settles on 0. */
  lemma NoFaultWhenTableFits(weights: seq<real>, allList: seq<Server>, u: real, roundRobinPick: Option<Server>)
    requires 0 < |allList| && |weights| <= |allList|
    ensures AttemptPick(weights, allList, u, roundRobinPick).Candidate?
  {
  }

  /** The point `choose` aims at: the draw `u` scaled to the total weight. */
  function ScaledDraw(u: real, maxTotalWeight: real): real
  {
    u * maxTotalWeight
  }

  /** A draw in `[0, 1)` scaled to a positive total lies in `[0, total)`. */
  lemma ScaledDrawInRange(u: real, total: real)
    requires 0.0 <= u < 1.0 && 0.0 < total
    ensures 0.0 <= ScaledDraw(u, total) < total
  {
    assert (1.0 - u) * total > 0.0;
  }

  /**
   * A point not above the last entry falls in the interval
   * `(weights[i - 1], weights[i]]` of the index the scan picks.
   */
  lemma ScanHitsInterval(weights: seq<real>, randomWeight: real)
    requires 0 < |weights| && randomWeight <= weights[|weights| - 1]
    ensures var i := FirstIndexAtLeast(weights, randomWeight);
      && i < |weights|
      && randomWeight <= weights[i]
      && (i == 0 || weights[i - 1] < randomWeight)
  {
    FirstIndexAtLeastIsFirst(weights, randomWeight);
  }

  /**
   * For a draw in `[0, 1)` and a total weight that is not negligible, the pick
   * is the server whose interval `(weights[i - 1], weights[i]]` holds the
   * scaled draw; such an index always exists because the last entry is the total.
   */
  lemma WeightedPickHitsInterval(weights: seq<real>, allList: seq<Server>, u: real, roundRobinPick: Option<Server>)
    requires |weights| <= |allList|
    requires 0.0 <= u < 1.0
    requires MaxTotalWeight(weights) >= MinTotalWeight
    ensures var i := FirstIndexAtLeast(weights, ScaledDraw(u, MaxTotalWeight(weights)));
      && i < |weights|
      && AttemptPick(weights, allList, u, roundRobinPick) == Candidate(Some(allList[i]))
      && ScaledDraw(u, MaxTotalWeight(weights)) <= weights[i]
      && (i == 0 || weights[i - 1] < ScaledDraw(u, MaxTotalWeight(weights)))
  {
    ScaledDrawInRange(u, MaxTotalWeight(weights));
    ScanHitsInterval(weights, ScaledDraw(u, MaxTotalWeight(weights)));
  }

  /** An attempt ends the loop of `choose` with a server when it yields an alive candidate. */
  predicate Accepted(a: Attempt, isAlive: Server -> bool)
  {
    a.Candidate? && a.pick.Some? && isAlive(a.pick.value)
  }

  /** An attempt after which the loop goes round again: no candidate, or one that is not alive. */
  predicate Retried(a: Attempt, isAlive: Server -> bool)
  {
    a.Candidate? && !Accepted(a, isAlive)
  }

  /** How `choose` ends: with an alive server, with no server, or with the index fault. */
  datatype Outcome = Chosen(server: Server) | NoServer | Fault

  /** The rule: the published weight table and the single-flight guard of its recomputation. */
  class ResponseTimeWeightedRule {
    var accumulatedWeights: seq<real>
    var serverWeightAssignmentInProgress: bool

    /** The rule before it has a balancer: an empty table and a free guard. */
    constructor ()
      ensures accumulatedWeights == [] && !serverWeightAssignmentInProgress
    {
      accumulatedWeights := [];
      serverWeightAssignmentInProgress := false;
    }

    /**
     * `setLoadBalancer`: hands the rule its balancer and, through
     * `initialize`, runs the initial recomputation, with the outcome of
     * `maintainWeights`.
     */
    method SetLoadBalancer(lb: Option<LoadBalancer>)
      modifies this
      ensures lb.None? || old(serverWeightAssignmentInProgress) ==>
        accumulatedWeights == old(accumulatedWeights)
        && serverWeightAssignmentInProgress == old(serverWeightAssignmentInProgress)
      ensures lb.Some? && !old(serverWeightAssignmentInProgress) ==>
        && !serverWeightAssignmentInProgress
        && accumulatedWeights ==
           if lb.value.isAbstractLoadBalancer && lb.value.stats.Some?
           then WeightTable(ResponseTimes(lb.value.allServers, lb.value.stats.value))
           else old(accumulatedWeights)
    {
      MaintainWeights(lb);
    }

    /** `setWeights`: publishes a new table. */
    method SetWeights(weights: seq<real>)
      modifies this`accumulatedWeights
      ensures accumulatedWeights == weights
    {
      accumulatedWeights := weights;
    }

    /**
     * `maintainWeights`: does nothing without a balancer or while another
     * recomputation holds the guard; otherwise takes the guard, recomputes
     * and publishes the table when the balancer supplies statistics, leaves
     * the old table when it does not (the failed cast or the missing
     * statistics), and releases the guard on every path.
     */
    method MaintainWeights(lb: Option<LoadBalancer>)
      modifies this
      ensures lb.None? || old(serverWeightAssignmentInProgress) ==>
        accumulatedWeights == old(accumulatedWeights)
        && serverWeightAssignmentInProgress == old(serverWeightAssignmentInProgress)
      ensures lb.Some? && !old(serverWeightAssignmentInProgress) ==>
        && !serverWeightAssignmentInProgress
        && accumulatedWeights ==
           if lb.value.isAbstractLoadBalancer && lb.value.stats.Some?
           then WeightTable(ResponseTimes(lb.value.allServers, lb.value.stats.value))
           else old(accumulatedWeights)
    {
      if lb.None? {
        return;
      }
      if serverWeightAssignmentInProgress {
        return;
      }
      serverWeightAssignmentInProgress := true;
      var nlb := lb.value;
      if nlb.isAbstractLoadBalancer && nlb.stats.Some? {
        var stats := nlb.stats.value;
        var totalResponseTime := TotalResponseTime(nlb.allServers, stats);
        var finalWeights := AccumulateWeights(nlb.allServers, stats, totalResponseTime);
        SetWeights(finalWeights);
      }
      serverWeightAssignmentInProgress := false;
    }

    /**
     * `choose`: no server without a balancer or with an empty list; otherwise
     * attempt `k` uses the draw `draws[k]` (and round robin's `k`-th pick),
     * retries on no candidate or a dead one, returns the first alive
     * candidate and propagates the index fault. Running out of draws stands
     * for the thread being interrupted, which ends the loop with no server.
     */
    method Choose(lb: Option<LoadBalancer>, draws: seq<real>, isAlive: Server -> bool, roundRobin: nat -> Option<Server>)
      returns (outcome: Outcome)
      ensures lb.None? || |lb.value.allServers| == 0 ==> outcome == NoServer
      ensures outcome.Chosen? ==> isAlive(outcome.server)
      ensures outcome == Fault ==> lb.Some? && |accumulatedWeights| > |lb.value.allServers|
      ensures outcome.Chosen? && MaxTotalWeight(accumulatedWeights) < MinTotalWeight ==>
        exists k :: 0 <= k < |draws| && roundRobin(k) == Some(outcome.server)
      ensures outcome.Chosen? && MaxTotalWeight(accumulatedWeights) >= MinTotalWeight ==>
        outcome.server in lb.value.allServers
      ensures !outcome.NoServer? ==> exists k :: (0 <= k < |draws|
        && AttemptPick(accumulatedWeights, lb.value.allServers, draws[k], roundRobin(k))
           == (if outcome.Chosen? then Candidate(Some(outcome.server)) else IndexFault)
        && forall j :: 0 <= j < k ==>
             Retried(AttemptPick(accumulatedWeights, lb.value.allServers, draws[j], roundRobin(j)), isAlive))
      ensures outcome == NoServer && lb.Some? && |lb.value.allServers| > 0 ==> forall k :: 0 <= k < |draws| ==>
        Retried(AttemptPick(accumulatedWeights, lb.value.allServers, draws[k], roundRobin(k)), isAlive)
    {
      if lb.None? {
        return NoServer;
      }
      var attempt := 0;
      while attempt < |draws|
        invariant attempt <= |draws|
        invariant |lb.value.allServers| > 0 ==> forall j :: 0 <= j < attempt ==>
          Retried(AttemptPick(accumulatedWeights, lb.value.allServers, draws[j], roundRobin(j)), isAlive)
      {
        var currentWeights := accumulatedWeights;
        var allList := lb.value.allServers;
        var serverCount := |allList|;
        if serverCount == 0 {
          return NoServer;
        }
        var pick: Option<Server>;
        var maxTotalWeight := MaxTotalWeight(currentWeights);
        if maxTotalWeight < MinTotalWeight {
          pick := roundRobin(attempt);
        } else {
          var randomWeight := ScaledDraw(draws[attempt], maxTotalWeight);
          var serverIndex := SelectServerIndex(currentWeights, randomWeight);
          if serverIndex >= serverCount {
            return Fault;
          }
          pick := Some(allList[serverIndex]);
        }
        assert Candidate(pick) == AttemptPick(accumulatedWeights, allList, draws[attempt], roundRobin(attempt));
        if pick.Some? && isAlive(pick.value) {
          return Chosen(pick.value);
        }
        attempt := attempt + 1;
      }
      return NoServer;
    }
  }
}
