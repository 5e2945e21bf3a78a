/** Walks and reachability in finite directed graphs, the mathematics that the
    build-graph stages are proved against.
 */
module Graph {

  /** A finite directed graph is the set of its edges. */
  type Edges<T(==,!new)> = set<(T, T)>

  ghost predicate Walk<T(!new)>(g: Edges<T>, p: seq<T>) {
    |p| > 0 && forall i | 0 <= i < |p| - 1 :: (p[i], p[i + 1]) in g
  }

  ghost predicate WalkBetween<T(!new)>(g: Edges<T>, p: seq<T>, u: T, v: T) {
    Walk(g, p) && p[0] == u && p[|p| - 1] == v
  }

  /** v can be reached from u by a walk of any length, zero included. */
  ghost predicate Reaches<T(!new)>(g: Edges<T>, u: T, v: T) {
    exists p :: WalkBetween(g, p, u, v)
  }

  /** v can be reached from u by a walk of at least one edge. */
  ghost predicate ReachesPlus<T(!new)>(g: Edges<T>, u: T, v: T) {
    exists w :: (u, w) in g && Reaches(g, w, v)
  }

  ghost predicate Mutual<T(!new)>(g: Edges<T>, u: T, v: T) {
    Reaches(g, u, v) && Reaches(g, v, u)
  }

  ghost predicate Acyclic<T(!new)>(g: Edges<T>) {
    forall v :: !ReachesPlus(g, v, v)
  }

  ghost predicate Closed<T(!new)>(g: Edges<T>, s: set<T>) {
    forall u, v | (u, v) in g && u in s :: v in s
  }

  lemma Refl<T(!new)>(g: Edges<T>, u: T)
    ensures Reaches(g, u, u)
  {
    assert WalkBetween(g, [u], u, u);
  }

  lemma Trans<T(!new)>(g: Edges<T>, u: T, v: T, w: T)
    requires Reaches(g, u, v) && Reaches(g, v, w)
    ensures Reaches(g, u, w)
  {
    var p :| WalkBetween(g, p, u, v);
    var q :| WalkBetween(g, q, v, w);
    var r := p + q[1..];
    forall i | 0 <= i < |r| - 1 ensures (r[i], r[i + 1]) in g {
      if i < |p| - 1 {
      } else {
        assert r[i] == q[i - |p| + 1];
        assert r[i + 1] == q[i - |p| + 2];
      }
    }
    assert WalkBetween(g, r, u, w);
  }

  lemma Step<T(!new)>(g: Edges<T>, u: T, v: T)
    requires (u, v) in g
    ensures Reaches(g, u, v)
  {
    assert WalkBetween(g, [u, v], u, v);
  }

  lemma WalkTail<T(!new)>(g: Edges<T>, p: seq<T>)
    requires Walk(g, p) && |p| > 1
    ensures Walk(g, p[1..]) && (p[0], p[1]) in g
  {
    var t := p[1..];
    forall i | 0 <= i < |t| - 1 ensures (t[i], t[i + 1]) in g {
      assert (p[i + 1], p[i + 2]) in g;
    }
  }

  /** An edge and then a walk. */
  lemma Prepend<T(!new)>(g: Edges<T>, u: T, v: T, w: T)
    requires (u, v) in g && Reaches(g, v, w)
    ensures Reaches(g, u, w) && ReachesPlus(g, u, w)
  {
    Step(g, u, v);
    Trans(g, u, v, w);
  }

  /** A walk and then an edge. */
  lemma Append<T(!new)>(g: Edges<T>, u: T, v: T, w: T)
    requires Reaches(g, u, v) && (v, w) in g
    ensures Reaches(g, u, w) && ReachesPlus(g, u, w)
  {
    Step(g, v, w);
    Trans(g, u, v, w);
    ReachesCases(g, u, v);
    if u == v {
      Refl(g, w);
    } else {
      var x :| (u, x) in g && Reaches(g, x, v);
      Trans(g, x, v, w);
    }
  }

  lemma PlusReaches<T(!new)>(g: Edges<T>, u: T, v: T)
    requires ReachesPlus(g, u, v)
    ensures Reaches(g, u, v)
  {
    var w :| (u, w) in g && Reaches(g, w, v);
    Prepend(g, u, w, v);
  }

  lemma ReachesThenPlus<T(!new)>(g: Edges<T>, u: T, v: T, w: T)
    requires Reaches(g, u, v) && ReachesPlus(g, v, w)
    ensures ReachesPlus(g, u, w)
  {
    var x :| (v, x) in g && Reaches(g, x, w);
    Append(g, u, v, x);
    var y :| (u, y) in g && Reaches(g, y, x);
    Trans(g, y, x, w);
  }

  lemma PlusThenReaches<T(!new)>(g: Edges<T>, u: T, v: T, w: T)
    requires ReachesPlus(g, u, v) && Reaches(g, v, w)
    ensures ReachesPlus(g, u, w)
  {
    var x :| (u, x) in g && Reaches(g, x, v);
    Trans(g, x, v, w);
  }

  lemma ReachesCases<T(!new)>(g: Edges<T>, u: T, v: T)
    ensures Reaches(g, u, v) <==> u == v || ReachesPlus(g, u, v)
  {
    if Reaches(g, u, v) && u != v {
      var p :| WalkBetween(g, p, u, v);
      assert WalkBetween(g, p[1..], p[1], v);
      assert (u, p[1]) in g;
    }
    if u == v { Refl(g, u); }
    if ReachesPlus(g, u, v) { PlusReaches(g, u, v); }
  }

  lemma {:induction false} ClosedWalk<T(!new)>(g: Edges<T>, s: set<T>, p: seq<T>)
    requires Closed(g, s) && Walk(g, p) && p[0] in s
    ensures forall x | x in p :: x in s
    decreases |p|
  {
    if |p| > 1 {
      assert (p[0], p[1]) in g;
      ClosedWalk(g, s, p[1..]);
      assert p == [p[0]] + p[1..];
    }
  }

  /** A set closed under the edges keeps every walk that starts in it. */
  lemma ClosedReaches<T(!new)>(g: Edges<T>, s: set<T>, u: T, v: T)
    requires Closed(g, s) && u in s && Reaches(g, u, v)
    ensures v in s
  {
    var p :| WalkBetween(g, p, u, v);
    ClosedWalk(g, s, p);
  }

  lemma Monotone<T(!new)>(g: Edges<T>, h: Edges<T>, u: T, v: T)
    requires g <= h && Reaches(g, u, v)
    ensures Reaches(h, u, v)
  {
    var p :| WalkBetween(g, p, u, v);
    assert WalkBetween(h, p, u, v);
  }

  /** If every edge of g is a walk of h, every walk of g is one of h. */
  lemma {:induction false} Simulates<T(!new)>(g: Edges<T>, h: Edges<T>, p: seq<T>)
    requires forall u, v | (u, v) in g :: Reaches(h, u, v)
    requires Walk(g, p)
    ensures Reaches(h, p[0], p[|p| - 1])
    decreases |p|
  {
    if |p| == 1 {
      Refl(h, p[0]);
    } else {
      Simulates(g, h, p[1..]);
      assert (p[0], p[1]) in g;
      Trans(h, p[0], p[1], p[|p| - 1]);
    }
  }

  /** A transitive and irreflexive relation that contains every edge forbids cycles. */
  lemma {:induction false} RelatedWalk<T(!new)>(g: Edges<T>, before: (T, T) -> bool, p: seq<T>)
    requires forall u, v | (u, v) in g :: before(u, v)
    requires forall x, y, z | before(x, y) && before(y, z) :: before(x, z)
    requires Walk(g, p) && |p| > 1
    ensures before(p[0], p[|p| - 1])
    decreases |p|
  {
    assert (p[0], p[1]) in g;
    if |p| > 2 {
      RelatedWalk(g, before, p[1..]);
    }
  }

  lemma RankedAcyclic<T(!new)>(g: Edges<T>, before: (T, T) -> bool)
    requires forall u, v | (u, v) in g :: before(u, v)
    requires forall x, y, z | before(x, y) && before(y, z) :: before(x, z)
    requires forall x :: !before(x, x)
    ensures Acyclic(g)
  {
    forall v ensures !ReachesPlus(g, v, v) {
      if ReachesPlus(g, v, v) {
        var w :| (v, w) in g && Reaches(g, w, v);
        var p :| WalkBetween(g, p, w, v);
        assert Walk(g, [v] + p);
        RelatedWalk(g, before, [v] + p);
      }
    }
  }

  /** In a finite set whose every member has a predecessor in the set there is a cycle. */
  lemma {:induction false} NoSourceMeansCycle<T(!new)>(g: Edges<T>, s: set<T>)
    requires s != {}
    requires forall v | v in s :: HasPredIn(g, s, v)
    ensures exists v :: v in s && ReachesPlus(g, v, v)
    decreases |s|
  {
    var x :| x in s;
    var above := set y | y in s && ReachesPlus(g, y, x);
    if x !in above {
      assert HasPredIn(g, s, x);
      var u :| u in s && (u, x) in g;
      Refl(g, x);
      assert u in above;
      forall v | v in above ensures HasPredIn(g, above, v) {
        assert HasPredIn(g, s, v);
        var w :| w in s && (w, v) in g;
        PlusReaches(g, v, x);
        Prepend(g, w, v, x);
      }
      SubsetSmaller(above, s);
      NoSourceMeansCycle(g, above);
    }
  }

  ghost predicate HasPredIn<T(!new)>(g: Edges<T>, s: set<T>, v: T) {
    exists u :: u in s && (u, v) in g
  }

  lemma SubsetSmaller<T>(a: set<T>, b: set<T>)
    requires a < b
    ensures |a| < |b|
  {
    assert b == a + (b - a);
    assert |b| == |a| + |b - a|;
  }
}
