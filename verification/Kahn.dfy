/** Kahn's topological order over integer-indexed adjacency lists, with in-degree
    counters decremented in place.
 */
module Kahn {
  import opened Strings
  import opened TarjanInvariant

  /** Every list entry is a node index. */
  ghost predicate InRange(adj: seq<seq<nat>>) {
    forall u, w | 0 <= u < |adj| && w in adj[u] :: w < |adj|
  }

  /** Number of entries for w in the lists of the first k nodes, leaving out done ones. */
  ghost function InCount(adj: seq<seq<nat>>, done: set<nat>, w: nat, k: nat): nat
    requires k <= |adj|
  {
    if k == 0 then 0
    else InCount(adj, done, w, k - 1) + if k - 1 in done then 0 else multiset(adj[k - 1])[w]
  }

  lemma {:induction false} InCountZero(adj: seq<seq<nat>>, done: set<nat>, w: nat, k: nat)
    requires k <= |adj|
    ensures InCount(adj, done, w, k) == 0 <==> forall u: nat | u < k && u !in done :: w !in adj[u]
  {
    if k > 0 {
      InCountZero(adj, done, w, k - 1);
      assert w in adj[k - 1] <==> multiset(adj[k - 1])[w] > 0;
    }
  }

  lemma {:induction false} InCountDone(adj: seq<seq<nat>>, done: set<nat>, v: nat, w: nat, k: nat)
    requires k <= |adj| && v < |adj| && v !in done
    ensures InCount(adj, done, w, k) == InCount(adj, done + {v}, w, k) + if v < k then multiset(adj[v])[w] else 0
  {
    if k > 0 {
      InCountDone(adj, done, v, w, k - 1);
    }
  }

  lemma {:induction false} InCountAppend(adj: seq<seq<nat>>, u: nat, v: nat, w: nat, k: nat)
    requires k <= |adj| && u < |adj|
    ensures InCount(adj[u := adj[u] + [v]], {}, w, k) == InCount(adj, {}, w, k) + if u < k && w == v then 1 else 0
  {
    if k > 0 {
      InCountAppend(adj, u, v, w, k - 1);
    }
  }

  /** What holds between two rounds: topo has been emitted, queue is waiting. */
  ghost predicate State(adj: seq<seq<nat>>, deg: seq<int>, topo: seq<nat>, queue: seq<nat>) {
    && |deg| == |adj|
    && Distinct(topo + queue) && (forall w | w in topo + queue :: w < |adj|)
    && (forall w: nat | w < |adj| :: deg[w] == InCount(adj, Elems(topo), w, |adj|))
    && (forall w: nat | w < |adj| :: deg[w] == 0 <==> w in topo + queue)
    && Ordered(adj, topo)
  }

  /** Every predecessor of an emitted node was emitted before it. */
  ghost predicate Ordered(adj: seq<seq<nat>>, topo: seq<nat>) {
    forall j, u: nat | 0 <= j < |topo| && u < |adj| && topo[j] in adj[u] :: u in topo[..j]
  }

  /** What holds inside a round for the just emitted node v, after j of its entries. */
  ghost predicate Relaxing(adj: seq<seq<nat>>, deg: seq<int>, topo: seq<nat>, queue: seq<nat>, v: nat, j: nat)
    requires v < |adj| && j <= |adj[v]|
  {
    && |deg| == |adj|
    && Distinct(topo + queue) && (forall w | w in topo + queue :: w < |adj|)
    && (forall w: nat | w < |adj| :: deg[w] == InCount(adj, Elems(topo), w, |adj|) + multiset(adj[v][j..])[w])
    && (forall w: nat | w < |adj| :: deg[w] == 0 <==> w in topo + queue)
    && Ordered(adj, topo)
  }

  lemma Emit(adj: seq<seq<nat>>, deg: seq<int>, topo: seq<nat>, queue: seq<nat>)
    requires State(adj, deg, topo, queue) && queue != []
    ensures queue[0] < |adj| && Relaxing(adj, deg, topo + [queue[0]], queue[1..], queue[0], 0)
  {
    var v := queue[0];
    assert topo + queue == topo + [v] + queue[1..];
    assert (topo + queue)[|topo|] == v;
    assert v in topo + queue;
    assert v !in topo by { forall i | 0 <= i < |topo| ensures topo[i] != v { assert (topo + queue)[i] == topo[i]; } }
    assert Elems(topo + [v]) == Elems(topo) + {v};
    assert adj[v][0..] == adj[v];
    forall w: nat | w < |adj| ensures deg[w] == InCount(adj, Elems(topo + [v]), w, |adj|) + multiset(adj[v][0..])[w] {
      InCountDone(adj, Elems(topo), v, w, |adj|);
    }
    InCountZero(adj, Elems(topo), v, |adj|);
    var topo' := topo + [v];
    forall j, u: nat | 0 <= j < |topo'| && u < |adj| && topo'[j] in adj[u] ensures u in topo'[..j] {
      if j < |topo| {
        assert topo'[j] == topo[j] && topo'[..j] == topo[..j];
      } else {
        assert topo'[..j] == topo;
      }
    }
  }

  lemma Relax(adj: seq<seq<nat>>, deg: seq<int>, topo: seq<nat>, queue: seq<nat>, v: nat, j: nat)
    requires v < |adj| && j < |adj[v]| && adj[v][j] < |adj|
    requires Relaxing(adj, deg, topo, queue, v, j)
    ensures var w := adj[v][j];
            var deg' := deg[w := deg[w] - 1];
            Relaxing(adj, deg', topo, if deg'[w] == 0 then queue + [w] else queue, v, j + 1)
  {
    var w := adj[v][j];
    assert adj[v][j..] == [w] + adj[v][j + 1..];
    assert multiset(adj[v][j..])[w] >= 1;
    assert w !in topo + queue;
    assert (topo + queue) + [w] == topo + (queue + [w]);
    var all := topo + queue;
    assert Distinct(all + [w]) by {
      forall a, b | 0 <= a < b < |all + [w]| ensures (all + [w])[a] != (all + [w])[b] {
        assert (all + [w])[a] == all[a] && all[a] in all;
      }
    }
    forall x ensures x in all + [w] <==> x in all || x == w { }
  }

  lemma Relaxed(adj: seq<seq<nat>>, deg: seq<int>, topo: seq<nat>, queue: seq<nat>, v: nat)
    requires v < |adj| && Relaxing(adj, deg, topo, queue, v, |adj[v]|)
    ensures State(adj, deg, topo, queue)
  {
    assert adj[v][|adj[v]|..] == [];
  }

  lemma PigeonHole(s: seq<nat>, n: nat)
    requires Distinct(s) && forall x | x in s :: x < n
    ensures |s| <= n
    ensures |s| == n ==> forall x: nat | x < n :: x in s
  {
    var all := UpTo(n);
    SizeOf(s);
    assert Elems(s) <= all;
    assert all == Elems(s) + (all - Elems(s));
    assert |all| == |Elems(s)| + |all - Elems(s)|;
    if |s| == n {
      forall x: nat | x < n ensures x in s {
        assert x in all;
        assert all - Elems(s) == {};
      }
    }
  }

  lemma {:induction false} SizeOf(s: seq<nat>)
    requires Distinct(s)
    ensures |Elems(s)| == |s|
  {
    if s != [] {
      var init, last := s[..|s| - 1], s[|s| - 1];
      SizeOf(init);
      SplitLast(s);
      assert Elems(s) == Elems(init) + {last};
      assert last !in init;
    }
  }

  ghost function UpTo(n: nat): (s: set<nat>)
    ensures |s| == n && forall x: nat :: x in s <==> x < n
  {
    if n == 0 then {} else UpTo(n - 1) + {n - 1}
  }

  /** Some predecessor of w was not emitted either. */
  ghost predicate PredLeft(adj: seq<seq<nat>>, topo: seq<nat>, w: nat) {
    exists u: nat :: u < |adj| && u !in topo && w in adj[u]
  }

  method TopologicalOrder(adj: seq<seq<nat>>, inDegree: array<int>) returns (topo: seq<nat>)
    requires InRange(adj) && inDegree.Length == |adj|
    requires forall w: nat | w < |adj| :: inDegree[w] == InCount(adj, {}, w, |adj|)
    modifies inDegree
    ensures Distinct(topo) && (forall w | w in topo :: w < |adj|) && |topo| <= |adj|
    ensures Ordered(adj, topo)
    ensures forall w: nat {:trigger PredLeft(adj, topo, w)} | w < |adj| && w !in topo :: PredLeft(adj, topo, w)
  {
    topo := [];
    var queue: seq<nat> := [];
    for v := 0 to |adj|
      invariant forall i | 0 <= i < |queue| :: queue[i] < v
      invariant Distinct(queue)
      invariant forall w: nat | w < v :: inDegree[w] == 0 <==> w in queue
    {
      if inDegree[v] == 0 {
        queue := queue + [v];
      }
    }
    assert [] + queue == queue && Elems(topo) == {};
    while |queue| > 0
      invariant State(adj, inDegree[..], topo, queue)
      decreases |adj| - |topo|
    {
      Emit(adj, inDegree[..], topo, queue);
      var v := queue[0];
      queue := queue[1..];
      topo := topo + [v];
      PigeonHole(topo + queue, |adj|);
      for j := 0 to |adj[v]|
        invariant Relaxing(adj, inDegree[..], topo, queue, v, j)
      {
        var w := adj[v][j];
        assert w in adj[v];
        Relax(adj, inDegree[..], topo, queue, v, j);
        inDegree[w] := inDegree[w] - 1;
        if inDegree[w] == 0 {
          queue := queue + [w];
        }
      }
      Relaxed(adj, inDegree[..], topo, queue, v);
    }
    assert topo + queue == topo;
    PigeonHole(topo, |adj|);
    forall w: nat | w < |adj| && w !in topo ensures PredLeft(adj, topo, w) {
      InCountZero(adj, Elems(topo), w, |adj|);
    }
  }
}
