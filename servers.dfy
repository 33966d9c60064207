/**
 * Entities shared by the subset filter and the weighted rule: servers, the
 * statistics the load balancer keeps for them, and facts about duplicate-free
 * lists that both components rely on.
 */
module Servers {

  datatype Option<+T> = None | Some(value: T)

  /** A backend instance; two servers are the same when host and port agree. */
  datatype Server = Server(host: string, port: int)

  /** The three live metrics this core reads for a server. */
  datatype ServerStats = ServerStats(activeRequestsCount: int, failureCount: int, responseTimeAvg: real)

  /** Snapshot of the load balancer's statistics, keyed by server. */
  type LoadBalancerStats = map<Server, ServerStats>

  /** Statistics of a server the balancer has not seen yet: all counters zero. */
  const ZeroStats := ServerStats(0, 0, 0.0)

  /** `getSingleServerStat`: the recorded statistics, or fresh zero ones. */
  function SingleServerStat(lbStats: LoadBalancerStats, server: Server): ServerStats
  {
    if server in lbStats then lbStats[server] else ZeroStats
  }

  /** The set of elements of a list. */
  function Elements<T>(s: seq<T>): set<T>
  {
    set x | x in s
  }

  /** No element occurs twice. */
  predicate Distinct<T(==)>(s: seq<T>)
  {
    forall i, j :: 0 <= i < j < |s| ==> s[i] != s[j]
  }

  /** A list has no duplicates exactly when it has as many elements as its set. */
  lemma {:induction false} DistinctIffCardinality<T>(s: seq<T>)
    ensures Distinct(s) <==> |Elements(s)| == |s|
    ensures |Elements(s)| <= |s|
  {
    if |s| > 0 {
      var init, last := s[..|s| - 1], s[|s| - 1];
      DistinctIffCardinality(init);
      assert s == init + [last];
      assert Elements(s) == Elements(init) + {last};
      if last in Elements(init) {
        assert Elements(s) == Elements(init);
        var k :| 0 <= k < |init| && init[k] == last;
        assert s[k] == s[|s| - 1];
      } else {
        assert |Elements(s)| == |Elements(init)| + 1;
        if Distinct(init) {
          assert Distinct(s);
        }
      }
    }
  }

  /** Rearranging a duplicate-free list keeps it duplicate-free and keeps its elements. */
  lemma PermutationKeepsDistinct<T>(a: seq<T>, b: seq<T>)
    requires multiset(a) == multiset(b)
    requires Distinct(a)
    ensures Distinct(b) && Elements(b) == Elements(a)
  {
    assert |a| == |multiset(a)| == |multiset(b)| == |b|;
    forall x
      ensures x in Elements(a) <==> x in Elements(b)
    {
      assert x in a <==> x in multiset(a);
      assert x in b <==> x in multiset(b);
    }
    assert Elements(b) == Elements(a);
    DistinctIffCardinality(a);
    DistinctIffCardinality(b);
  }

  /** `Lists.newArrayList(set)`: the members of a set in some order, each once. */
  method ListOf<T>(s: set<T>) returns (r: seq<T>)
    ensures Distinct(r) && Elements(r) == s && |r| == |s|
  {
    r := [];
    var rest := s;
    while rest != {}
      invariant rest <= s
      invariant Elements(r) == s - rest
      invariant Distinct(r)
      invariant |r| + |rest| == |s|
      decreases |rest|
    {
      var x :| x in rest;
      assert Elements(r + [x]) == Elements(r) + {x};
      r := r + [x];
      rest := rest - {x};
    }
  }
}
