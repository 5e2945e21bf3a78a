/** The transitive reduction of an acyclic graph: an edge is redundant when another walk
    with the same ends exists. Dropping the redundant edges keeps reachability, leaves
    nothing more to drop, and is contained in every graph with the same reachability.
 */
module Reduction {
  import opened Graph

  /** There is an alternative walk from u to v that starts with another edge. */
  ghost predicate Redundant<T(!new)>(g: Edges<T>, u: T, v: T) {
    exists w :: w != v && (u, w) in g && ReachesPlus(g, w, v)
  }

  ghost function Reduced<T(!new)>(g: Edges<T>): (h: Edges<T>)
    ensures h <= g
  {
    set e | e in g && !Redundant(g, e.0, e.1)
  }

  ghost function Ends<T(!new)>(g: Edges<T>): set<T> {
    (set e | e in g :: e.0) + (set e | e in g :: e.1)
  }

  ghost predicate StrictlyBetween<T(!new)>(g: Edges<T>, u: T, x: T, v: T) {
    ReachesPlus(g, u, x) && ReachesPlus(g, x, v)
  }

  ghost function Between<T(!new)>(g: Edges<T>, u: T, v: T): set<T> {
    set x | x in Ends(g) && StrictlyBetween(g, u, x, v)
  }

  lemma BetweenEnds<T(!new)>(g: Edges<T>, u: T, x: T, v: T)
    requires StrictlyBetween(g, u, x, v)
    ensures x in Between(g, u, v)
  {
    var w :| (x, w) in g && Reaches(g, w, v);
    assert (x, w).0 in Ends(g);
  }

  lemma BetweenShrinks<T(!new)>(g: Edges<T>, u: T, x: T, v: T)
    requires Acyclic(g) && StrictlyBetween(g, u, x, v)
    ensures |Between(g, u, x)| < |Between(g, u, v)| && |Between(g, x, v)| < |Between(g, u, v)|
  {
    hide ReachesPlus, Ends, Reaches;
    BetweenEnds(g, u, x, v);
    forall y | StrictlyBetween(g, u, y, x) ensures StrictlyBetween(g, u, y, v) {
      PlusTrans(g, y, x, v);
    }
    forall y | StrictlyBetween(g, x, y, v) ensures StrictlyBetween(g, u, y, v) {
      PlusTrans(g, u, x, y);
    }
    SubsetSmaller(Between(g, u, x), Between(g, u, v));
    SubsetSmaller(Between(g, x, v), Between(g, u, v));
  }

  lemma PlusTrans<T(!new)>(g: Edges<T>, u: T, v: T, w: T)
    requires ReachesPlus(g, u, v) && ReachesPlus(g, v, w)
    ensures ReachesPlus(g, u, w)
  {
    PlusReaches(g, v, w);
    PlusThenReaches(g, u, v, w);
  }

  /** A pair with nothing strictly between is an edge that is not redundant. */
  lemma AdjacentIsReducedEdge<T(!new)>(g: Edges<T>, u: T, v: T)
    requires Acyclic(g) && ReachesPlus(g, u, v) && Between(g, u, v) == {}
    ensures (u, v) in Reduced(g)
  {
    var x :| (u, x) in g && Reaches(g, x, v);
    Refl(g, x);
    ReachesCases(g, x, v);
    if x != v {
      assert StrictlyBetween(g, u, x, v);
      BetweenEnds(g, u, x, v);
    }
    if Redundant(g, u, v) {
      var w :| w != v && (u, w) in g && ReachesPlus(g, w, v);
      Refl(g, w);
      assert StrictlyBetween(g, u, w, v);
      BetweenEnds(g, u, w, v);
    }
  }

  lemma {:induction false} ReducedReachesPlus<T(!new)>(g: Edges<T>, u: T, v: T)
    requires Acyclic(g) && ReachesPlus(g, u, v)
    ensures Reaches(Reduced(g), u, v)
    decreases |Between(g, u, v)|
  {
    if Between(g, u, v) == {} {
      AdjacentIsReducedEdge(g, u, v);
      Step(Reduced(g), u, v);
    } else {
      var x :| x in Between(g, u, v);
      BetweenShrinks(g, u, x, v);
      ReducedReachesPlus(g, u, x);
      ReducedReachesPlus(g, x, v);
      Trans(Reduced(g), u, x, v);
    }
  }

  /** The reduction keeps reachability exactly. */
  lemma ReducedSameReach<T(!new)>(g: Edges<T>, u: T, v: T)
    requires Acyclic(g)
    ensures Reaches(Reduced(g), u, v) <==> Reaches(g, u, v)
  {
    if Reaches(Reduced(g), u, v) {
      Monotone(Reduced(g), g, u, v);
    }
    if Reaches(g, u, v) {
      ReachesCases(g, u, v);
      if u == v { Refl(Reduced(g), u); } else { ReducedReachesPlus(g, u, v); }
    }
  }

  /** No edge of the reduction can be dropped. */
  lemma ReducedIrredundant<T(!new)>(g: Edges<T>, u: T, v: T)
    requires Acyclic(g) && (u, v) in Reduced(g)
    ensures !Reaches(Reduced(g) - {(u, v)}, u, v)
  {
    var h := Reduced(g) - {(u, v)};
    Refl(g, v);
    assert ReachesPlus(g, u, v);
    if Reaches(h, u, v) {
      ReachesCases(h, u, v);
      assert u != v;
      var w :| (u, w) in h && Reaches(h, w, v);
      Monotone(h, g, w, v);
      ReachesCases(g, w, v);
      assert Redundant(g, u, v);
    }
  }

  /** Every graph with the same reachability contains the reduction, which is therefore
      the unique smallest one. */
  lemma ReducedLeast<T(!new)>(g: Edges<T>, h: Edges<T>)
    requires Acyclic(g)
    requires forall u, v :: Reaches(h, u, v) <==> Reaches(g, u, v)
    ensures Reduced(g) <= h
  {
    forall e | e in Reduced(g) ensures e in h {
      ReducedEdgeNeeded(g, h, e.0, e.1);
    }
  }

  lemma ReducedEdgeNeeded<T(!new)>(g: Edges<T>, h: Edges<T>, u: T, v: T)
    requires Acyclic(g) && (u, v) in Reduced(g)
    requires forall x, y :: Reaches(h, x, y) <==> Reaches(g, x, y)
    ensures (u, v) in h
  {
    hide Reaches;
    if (u, v) !in h {
      Step(g, u, v);
      Refl(g, v);
      assert ReachesPlus(g, u, v);
      assert Reaches(h, u, v);
      var d := set x | x in {u} + Ends(h) && (x == u || (ReachesPlus(g, u, x) && !Reaches(g, x, v)));
      forall x, y | (x, y) in h && x in d ensures y in d {
        assert (x, y).1 in Ends(h);
        Step(h, x, y);
        if x == u {
          Shortcut(g, u, v, y);
        } else {
          PlusThenReaches(g, u, x, y);
          if Reaches(g, y, v) { Trans(g, x, y, v); }
        }
      }
      ClosedReaches(h, d, u, v);
    }
  }

  /** From u one cannot enter an irredundant edge's target by way of a third node. */
  lemma Shortcut<T(!new)>(g: Edges<T>, u: T, v: T, y: T)
    requires Acyclic(g) && (u, v) in Reduced(g) && Reaches(g, u, y) && y != v
    ensures y == u || (ReachesPlus(g, u, y) && !Reaches(g, y, v))
  {
    hide Reaches;
    ReachesCases(g, u, y);
    if y != u && Reaches(g, y, v) {
      var w :| (u, w) in g && Reaches(g, w, y);
      ReachesCases(g, y, v);
      ReachesThenPlus(g, w, y, v);
    }
  }
}
