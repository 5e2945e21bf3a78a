/** The strings that stand for builds in the returned graph, and when they do so faithfully. */
module BuildNames {
  import opened Strings
  import opened Graph
  import opened Dependencies
  import opened BfsOrder
  import opened BuildGraph
  import opened BuildGraphTheorems
  import opened Reduction
  import Dependents

  /** The string that stands for a build. */
  function NodeID(n: Node): string {
    if n.second then n.pkg + "#2" else n.pkg
  }

  ghost function NamesOf(nodes: set<Node>): (names: set<string>) {
    set n | n in nodes :: NodeID(n)
  }

  /** The edges as the code stores them: by name, an edge from a name to itself skipped. */
  ghost function Named(e: Edges<Node>): (g: Edges<string>) {
    set x | x in e && NodeID(x.0) != NodeID(x.1) :: (NodeID(x.0), NodeID(x.1))
  }

  /** No reachable package is named like the second build of one on a cycle. */
  ghost predicate NamesDistinct(g: Edges<string>, entry: string) {
    forall u | u in ReachableFrom(g, entry) && Cyclic(g, u) :: u + "#2" !in ReachableFrom(g, entry)
  }

  ghost predicate NamesApart(s: set<Node>) {
    forall m, n | m in s && n in s && NodeID(m) == NodeID(n) :: m == n
  }

  /** Names tell the builds apart exactly under that condition. */
  lemma NodeNamesDistinct(g: Edges<string>, entry: string)
    ensures NamesApart(BuildNodes(g, entry)) <==> NamesDistinct(g, entry)
  {
    var r := ReachableFrom(g, entry);
    forall u | u in r && Cyclic(g, u) && u + "#2" in r
      ensures !NamesApart(BuildNodes(g, entry))
    {
      var m, n := Node(u, true), Node(u + "#2", false);
      assert m in BuildNodes(g, entry) && n in BuildNodes(g, entry) && NodeID(m) == NodeID(n);
    }
    if NamesDistinct(g, entry) {
      forall m, n | m in BuildNodes(g, entry) && n in BuildNodes(g, entry) && NodeID(m) == NodeID(n) ensures m == n {
        SameName(g, entry, m, n);
      }
    }
  }

  lemma SameName(g: Edges<string>, entry: string, m: Node, n: Node)
    requires NamesDistinct(g, entry)
    requires m in BuildNodes(g, entry) && n in BuildNodes(g, entry) && NodeID(m) == NodeID(n)
    ensures m == n
  {
    if m.second && n.second {
      assert m.pkg == NodeID(m)[..|NodeID(m)| - 2];
      assert n.pkg == NodeID(n)[..|NodeID(n)| - 2];
    }
  }

  // ---------------------------------------------------------------------
  // Renaming a graph whose names are apart
  // ---------------------------------------------------------------------

  /** e joins nodes of s, no node with itself, and the names of s are apart. */
  ghost predicate Renamable(s: set<Node>, e: Edges<Node>) {
    && NamesApart(s)
    && forall a, b | (a, b) in e :: a in s && b in s && a != b
  }

  lemma NamedEdge(s: set<Node>, e: Edges<Node>, a: Node, b: Node)
    requires Renamable(s, e) && a in s && b in s
    ensures (NodeID(a), NodeID(b)) in Named(e) <==> (a, b) in e
  {
    if (a, b) in e {
      assert (a, b).0 == a && (a, b).1 == b;
    }
    if (NodeID(a), NodeID(b)) in Named(e) {
      var x :| x in e && NodeID(x.0) == NodeID(a) && NodeID(x.1) == NodeID(b);
      assert (x.0, x.1) == x;
    }
  }

  lemma NamedReachesOn(s: set<Node>, e: Edges<Node>, a: Node, b: Node)
    requires Renamable(s, e) && a in s && Reaches(e, a, b)
    ensures Reaches(Named(e), NodeID(a), NodeID(b))
  {
    var p :| WalkBetween(e, p, a, b);
    var q := seq(|p|, i requires 0 <= i < |p| => NodeID(p[i]));
    forall i | 0 <= i < |q| - 1 ensures (q[i], q[i + 1]) in Named(e) {
      assert (p[i], p[i + 1]) in e;
      NamedEdge(s, e, p[i], p[i + 1]);
    }
    assert WalkBetween(Named(e), q, NodeID(a), NodeID(b));
  }

  lemma {:induction false} NamedWalkBack(s: set<Node>, e: Edges<Node>, q: seq<string>, a: Node) returns (b: Node)
    requires Renamable(s, e) && a in s && Walk(Named(e), q) && q[0] == NodeID(a)
    ensures b in s && NodeID(b) == q[|q| - 1] && Reaches(e, a, b)
    decreases |q|
  {
    if |q| == 1 {
      b := a;
      Refl(e, a);
    } else {
      assert (q[0], q[1]) in Named(e);
      var x :| x in e && NodeID(x.0) == q[0] && NodeID(x.1) == q[1];
      assert (x.0, x.1) == x && x.0 == a;
      WalkTail(Named(e), q);
      b := NamedWalkBack(s, e, q[1..], x.1);
      Prepend(e, a, x.1, b);
    }
  }

  /** Names reach each other as the builds do. */
  lemma NamedReaches(s: set<Node>, e: Edges<Node>, a: Node, b: Node)
    requires Renamable(s, e) && a in s && b in s
    ensures Reaches(Named(e), NodeID(a), NodeID(b)) <==> Reaches(e, a, b)
  {
    if Reaches(e, a, b) {
      NamedReachesOn(s, e, a, b);
    }
    if Reaches(Named(e), NodeID(a), NodeID(b)) {
      var q :| WalkBetween(Named(e), q, NodeID(a), NodeID(b));
      var c := NamedWalkBack(s, e, q, a);
    }
  }

  /** An edge of names comes from one edge of builds. */
  lemma NamedSource(s: set<Node>, e: Edges<Node>, u: string, v: string) returns (a: Node, b: Node)
    requires Renamable(s, e) && (u, v) in Named(e)
    ensures (a, b) in e && a in s && b in s && NodeID(a) == u && NodeID(b) == v
  {
    var x :| x in e && NodeID(x.0) == u && NodeID(x.1) == v;
    assert (x.0, x.1) == x;
    a, b := x.0, x.1;
  }

  lemma NamedPlus(s: set<Node>, e: Edges<Node>, a: Node, b: Node)
    requires Renamable(s, e) && a in s && b in s
    ensures ReachesPlus(Named(e), NodeID(a), NodeID(b)) <==> ReachesPlus(e, a, b)
  {
    hide Reaches, Named, NodeID;
    if w :| (a, w) in e && Reaches(e, w, b) {
      NamedEdge(s, e, a, w);
      NamedReaches(s, e, w, b);
    }
    if v :| (NodeID(a), v) in Named(e) && Reaches(Named(e), v, NodeID(b)) {
      var x, y := NamedSource(s, e, NodeID(a), v);
      NamedReaches(s, e, y, b);
    }
  }

  lemma NamedAcyclic(s: set<Node>, e: Edges<Node>)
    requires Renamable(s, e) && Acyclic(e)
    ensures Acyclic(Named(e))
  {
    hide Reaches, Named, NodeID;
    forall u ensures !ReachesPlus(Named(e), u, u) {
      if ReachesPlus(Named(e), u, u) {
        var v :| (u, v) in Named(e) && Reaches(Named(e), v, u);
        var a, b := NamedSource(s, e, u, v);
        NamedPlus(s, e, a, a);
      }
    }
  }

  lemma NamedRedundant(s: set<Node>, e: Edges<Node>, a: Node, b: Node)
    requires Renamable(s, e) && a in s && b in s
    ensures Redundant(Named(e), NodeID(a), NodeID(b)) <==> Redundant(e, a, b)
  {
    hide Reaches, ReachesPlus, Named, NodeID;
    if w :| w != b && (a, w) in e && ReachesPlus(e, w, b) {
      NamedEdge(s, e, a, w);
      NamedPlus(s, e, w, b);
      assert NodeID(w) != NodeID(b);
    }
    if v :| v != NodeID(b) && (NodeID(a), v) in Named(e) && ReachesPlus(Named(e), v, NodeID(b)) {
      var x, y := NamedSource(s, e, NodeID(a), v);
      NamedPlus(s, e, y, b);
    }
  }

  /** Reducing the names is naming the reduction. */
  lemma NamedReduced(s: set<Node>, e: Edges<Node>)
    requires Renamable(s, e)
    ensures Reduced(Named(e)) == Named(Reduced(e))
  {
    assert Named(Reduced(e)) <= Named(e);
    forall u, v ensures (u, v) in Reduced(Named(e)) <==> (u, v) in Named(Reduced(e)) {
      hide Redundant, Reaches, NodeID;
      if (u, v) in Named(e) {
        var a, b := NamedSource(s, e, u, v);
        NamedRedundant(s, e, a, b);
        NamedEdge(s, e, a, b);
        NamedEdge(s, Reduced(e), a, b);
      }
    }
    SamePairs(Reduced(Named(e)), Named(Reduced(e)));
  }

  lemma SamePairs(g: Edges<string>, h: Edges<string>)
    requires forall u, v :: (u, v) in g <==> (u, v) in h
    ensures g == h
  {
    forall x ensures x in g <==> x in h {
      assert (x.0, x.1) == x;
    }
  }

  // ---------------------------------------------------------------------
  // The build graph by name
  // ---------------------------------------------------------------------

  lemma BuildRenamable(g: Edges<string>, entry: string)
    requires NamesDistinct(g, entry)
    ensures Renamable(BuildNodes(g, entry), BuildEdges(g, entry))
  {
    NodeNamesDistinct(g, entry);
    BuildGraphAcyclic(g, entry);
    hide NamesApart, NamesDistinct, BuildEdges, BuildNodes, Reaches;
    forall a, b | (a, b) in BuildEdges(g, entry) ensures a in BuildNodes(g, entry) && b in BuildNodes(g, entry) && a != b {
      EdgeIsBuildEdge(g, entry, a, b);
      Refl(BuildEdges(g, entry), b);
      assert a == b ==> ReachesPlus(BuildEdges(g, entry), a, a);
    }
  }

  /** With distinct names the returned graph is acyclic, orders builds as the build graph
      does, and is the build graph's transitive reduction by name. */
  lemma NamedBuildGraph(g: Edges<string>, entry: string)
    requires NamesDistinct(g, entry)
    ensures Acyclic(Named(BuildEdges(g, entry)))
    ensures forall a, b | a in BuildNodes(g, entry) && b in BuildNodes(g, entry) ::
              Reaches(Named(BuildEdges(g, entry)), NodeID(a), NodeID(b)) <==> Reaches(BuildEdges(g, entry), a, b)
    ensures Reduced(Named(BuildEdges(g, entry))) == Named(Reduced(BuildEdges(g, entry)))
  {
    BuildRenamable(g, entry);
    BuildGraphAcyclic(g, entry);
    hide BuildEdges, BuildNodes, Renamable, NamesDistinct, Acyclic, Reaches, Named, Reduced;
    var s, e := BuildNodes(g, entry), BuildEdges(g, entry);
    NamedAcyclic(s, e);
    NamedReduced(s, e);
    forall a, b | a in s && b in s ensures Reaches(Named(e), NodeID(a), NodeID(b)) <==> Reaches(e, a, b) {
      NamedReaches(s, e, a, b);
    }
  }

  // ---------------------------------------------------------------------
  // Dependents by name
  // ---------------------------------------------------------------------

  /** The name of a package's last build. */
  ghost function LastBuild(g: Edges<string>, u: string): string {
    if Cyclic(g, u) then u + "#2" else u
  }

  /** Each dependent in another component comes after the last build of the package. */
  ghost predicate DependentsWait(g: Edges<string>, entry: string, e: Edges<string>) {
    forall u, v | Reaches(g, entry, u) && (u, v) in g && !Mutual(g, u, v) :: Reaches(e, LastBuild(g, u), v)
  }

  /** So it is in the returned graph whenever that has edges, whatever packages are called. */
  lemma NamedDependentsWait(g: Edges<string>, entry: string)
    requires Acyclic(Named(BuildEdges(g, entry)))
    ensures DependentsWait(g, entry, Reduced(Named(BuildEdges(g, entry))))
  {
    hide BuildEdges, Acyclic, Reaches, Reduced, Named;
    var e := BuildEdges(g, entry);
    forall u, v | Reaches(g, entry, u) && (u, v) in g && !Mutual(g, u, v)
      ensures Reaches(Reduced(Named(e)), LastBuild(g, u), v)
    {
      var m, n := Node(u, Cyclic(g, u)), Node(v, false);
      Dependents.DependentsWait(g, entry, u, v);
      NamedStep(e, m, n);
      ReducedSameReach(Named(e), NodeID(m), NodeID(n));
    }
  }

  lemma NamedStep(e: Edges<Node>, m: Node, n: Node)
    requires (m, n) in e
    ensures Reaches(Named(e), NodeID(m), NodeID(n))
  {
    assert (m, n).0 == m && (m, n).1 == n;
    if NodeID(m) == NodeID(n) {
      Refl(Named(e), NodeID(m));
    } else {
      assert (NodeID(m), NodeID(n)) in Named(e);
      Step(Named(e), NodeID(m), NodeID(n));
    }
  }

  // ---------------------------------------------------------------------
  // A package named like a second build
  // ---------------------------------------------------------------------

  /** a and b form a cycle, and b also points at a package named like a's second build. */
  const COLLIDING: Deps := map["a" := ["b"], "b" := ["a", "a#2"]]

  lemma CollidingEdges()
    ensures EdgesOf(COLLIDING) == {("a", "b"), ("b", "a"), ("b", "a#2")}
  {
    var g := EdgesOf(COLLIDING);
    forall u, v ensures (u, v) in g <==> (u, v) in {("a", "b"), ("b", "a"), ("b", "a#2")} {
      assert (u, v) in g <==> v in Successors(COLLIDING, u);
    }
    SamePairs(g, {("a", "b"), ("b", "a"), ("b", "a#2")});
  }

  lemma CollidingFacts()
    ensures var g := EdgesOf(COLLIDING);
      && {"a", "b", "a#2"} <= ReachableFrom(g, "a")
      && Mutual(g, "a", "b") && Mutual(g, "b", "a") && !Mutual(g, "b", "a#2") && Cyclic(g, "b")
  {
    hide EdgesOf, Reaches;
    var g := EdgesOf(COLLIDING);
    CollidingEdges();
    Refl(g, "a");
    Step(g, "a", "b");
    Step(g, "b", "a");
    Append(g, "a", "b", "a#2");
    EdgeInClassCyclic(g, "a", "b");
    if Reaches(g, "a#2", "b") {
      ClosedReaches(g, {"a#2"}, "a#2", "b");
    }
  }

  /** The name a#2 stands for two builds, one before and one after b's second build: the
      graph of names has a cycle, so its reduction is nil and every constraint is lost. */
  lemma CollidingNamesCycle()
    ensures var g := EdgesOf(COLLIDING);
      !NamesDistinct(g, "a") && !Acyclic(Named(BuildEdges(g, "a")))
  {
    var g := EdgesOf(COLLIDING);
    var r := ReachableFrom(g, "a");
    CollidingEdges();
    CollidingFacts();
    EntryFirst(g, "a");
    hide EdgesOf, Reaches, Pos, BuildEdges;
    if Pos(g, r, "a", "b") == 0 {
      PosInjective(g, "a", "a", "b");
    }
    EdgeInClassCyclic(g, "a", "b");
    assert "a" + "#2" == "a#2" && "b" + "#2" == "b#2";
    var a2, b2, other := Node("a", true), Node("b", true), Node("a#2", false);
    EdgeNodes(g, "a", a2, b2);
    EdgeNodes(g, "a", b2, other);
    var e := BuildEdges(g, "a");
    CycleByName(e, a2, b2, other);
  }

  lemma CycleByName(e: Edges<Node>, a: Node, b: Node, c: Node)
    requires (a, b) in e && (b, c) in e && NodeID(a) == NodeID(c) != NodeID(b)
    ensures !Acyclic(Named(e))
  {
    var n := Named(e);
    assert (a, b).0 == a && (a, b).1 == b && (b, c).0 == b && (b, c).1 == c;
    assert (NodeID(a), NodeID(b)) in n && (NodeID(b), NodeID(a)) in n;
    Step(n, NodeID(b), NodeID(a));
    assert ReachesPlus(n, NodeID(a), NodeID(a));
  }
}
