/** Which build of a package its dependents wait for, said with the dependency relation,
    its components and distances only.
 */
module Dependents {
  import opened Strings
  import opened Graph
  import opened Dependencies
  import opened TarjanInvariant
  import opened BfsOrder
  import opened BuildGraph
  import opened BuildGraphTheorems
  import opened BfsDistance
  import opened Reduction

  /** Only builds of direct dependencies are waited for. */
  lemma WaitsForDependencies(g: Edges<string>, entry: string, m: Node, n: Node)
    requires (m, n) in BuildEdges(g, entry)
    ensures (m.pkg, n.pkg) in g && Reaches(g, entry, m.pkg)
    ensures (m.second ==> Cyclic(g, m.pkg)) && (n.second ==> Cyclic(g, n.pkg))
  {
    hide Reaches;
    EdgeIsBuildEdge(g, entry, m, n);
  }

  /** The first build of a dependent in another component waits for the last build of the
      package, and no other pair of their builds is ordered directly. */
  lemma CrossingEdges(g: Edges<string>, entry: string, m: Node, n: Node)
    requires m in BuildNodes(g, entry) && n in BuildNodes(g, entry)
    requires (m.pkg, n.pkg) in g && !Mutual(g, m.pkg, n.pkg)
    ensures (m, n) in BuildEdges(g, entry) <==> (m.second <==> Cyclic(g, m.pkg)) && !n.second
  {
    if (m, n) in BuildEdges(g, entry) {
      EdgeIsBuildEdge(g, entry, m, n);
    }
    if (m.second <==> Cyclic(g, m.pkg)) && !n.second {
      EdgeNodes(g, entry, m, n);
    }
  }

  /** Inside a component the farther of two packages waits, pass by pass, for the nearer;
      the second build of the nearer one waits for the first build of the farther. */
  lemma InnerEdges(g: Edges<string>, entry: string, m: Node, n: Node, a: nat, b: nat)
    requires m in BuildNodes(g, entry) && n in BuildNodes(g, entry)
    requires (m.pkg, n.pkg) in g && Mutual(g, m.pkg, n.pkg)
    requires Distance(g, entry, m.pkg, a) && Distance(g, entry, n.pkg, b) && a != b
    ensures (m, n) in BuildEdges(g, entry) <==> if a < b then m.second == n.second else !m.second && n.second
  {
    hide Distance, Reaches, Pos;
    assert Together(g, entry, m.pkg, n.pkg) && Together(g, entry, n.pkg, m.pkg) by {
      Trans(g, entry, m.pkg, n.pkg);
    }
    var r := ReachableFrom(g, entry);
    assert m.pkg != n.pkg by {
      if m.pkg == n.pkg { SameDistance(g, entry, m.pkg, a, b); }
    }
    if a < b {
      NearerFirst(g, entry, m.pkg, n.pkg, a, b);
    } else {
      NearerFirst(g, entry, n.pkg, m.pkg, b, a);
    }
    if BuildEdge(g, r, entry, m, n) {
      EdgeNodes(g, entry, m, n);
    }
    if (m, n) in BuildEdges(g, entry) {
      EdgeIsBuildEdge(g, entry, m, n);
    }
  }

  lemma SameDistance(g: Edges<string>, entry: string, v: string, a: nat, b: nat)
    requires Distance(g, entry, v, a) && Distance(g, entry, v, b)
    ensures a == b
  {
    hide InSteps;
  }

  /** The second build of a package waits for a build of each predecessor in its component. */
  lemma SecondWaitsForAll(g: Edges<string>, entry: string, u: string, v: string)
    requires Reaches(g, entry, u) && (u, v) in g && Mutual(g, u, v)
    ensures exists second :: (Node(u, second), Node(v, true)) in BuildEdges(g, entry)
  {
    hide Pos, BuildEdges;
    var r := ReachableFrom(g, entry);
    Append(g, entry, u, v);
    var m := Node(u, u != v && Pos(g, r, entry, u) < Pos(g, r, entry, v));
    EdgeNodes(g, entry, m, Node(v, true));
    assert (Node(u, m.second), Node(v, true)) in BuildEdges(g, entry);
  }

  /** In the reduced graph too, a dependent in another component starts only after the last
      build of the package. */
  lemma DependentsWait(g: Edges<string>, entry: string, u: string, v: string)
    requires Reaches(g, entry, u) && (u, v) in g && !Mutual(g, u, v)
    ensures (Node(u, Cyclic(g, u)), Node(v, false)) in BuildEdges(g, entry)
    ensures Reaches(Reduced(BuildEdges(g, entry)), Node(u, Cyclic(g, u)), Node(v, false))
  {
    hide BuildEdges, Acyclic, Reaches, Pos;
    Append(g, entry, u, v);
    var e, m, n := BuildEdges(g, entry), Node(u, Cyclic(g, u)), Node(v, false);
    CrossingEdges(g, entry, m, n);
    BuildGraphAcyclic(g, entry);
    Step(e, m, n);
    ReducedSameReach(e, m, n);
  }
}
