/** The compiler from a dependency map to a build graph, stage by stage, and its proof
    against the relation of module BuildGraph.
 */
module BuildDag {
  import opened Strings
  import opened Graph
  import opened Dependencies
  import opened TarjanInvariant
  import opened Tarjan
  import opened BfsOrder
  import opened BuildGraph
  import opened BuildGraphTheorems
  import opened BuildNames
  import opened Reduction
  import opened Options
  import ReduceEdges

  // ---------------------------------------------------------------------
  // Components
  // ---------------------------------------------------------------------

  /** compID numbers the classes of the reachable packages, each listed in sccs. */
  ghost predicate Classes(g: Edges<string>, r: set<string>, sccs: seq<seq<string>>, compID: map<string, nat>) {
    && compID.Keys == r
    && (forall u | u in r :: compID[u] < |sccs| && Elems(sccs[compID[u]]) == Class(g, r, u))
    && (forall u, v | u in r && v in r :: compID[u] == compID[v] <==> Mutual(g, u, v))
    && (forall c, x | 0 <= c < |sccs| && x in sccs[c] :: x in r && compID[x] == c)
    && (forall c | 0 <= c < |sccs| :: sccs[c] != [] && Distinct(sccs[c]))
  }

  lemma CondensationClasses(deps: Deps, r: set<string>, sccs: seq<seq<string>>, compID: map<string, nat>)
    requires Closed(EdgesOf(deps), r)
    requires Condensation(EdgesWithin(deps, r), r, sccs, compID)
    ensures Classes(EdgesOf(deps), r, sccs, compID)
  {
    var g := EdgesOf(deps);
    forall u, v | u in r && v in r ensures compID[u] == compID[v] <==> Mutual(g, u, v) {
      WithinReaches(deps, r, u, v);
      WithinReaches(deps, r, v, u);
    }
    forall u | u in r ensures Elems(sccs[compID[u]]) == Class(g, r, u) {
      forall v ensures v in Elems(sccs[compID[u]]) <==> v in Class(g, r, u) { }
    }
  }

  lemma CyclicComponent(g: Edges<string>, r: set<string>, comp: seq<string>, u: string)
    requires Closed(g, r) && u in comp && u in r && Distinct(comp) && Elems(comp) == Class(g, r, u)
    ensures Cyclic(g, u) <==> |comp| > 1 || (comp[0], comp[0]) in g
  {
    hide Reaches;
    if |comp| > 1 {
      var v := if comp[0] == u then comp[1] else comp[0];
      assert v != u && v in Elems(comp);
      ReachesCases(g, u, v);
      PlusThenReaches(g, u, v, u);
    } else {
      assert comp[0] == u;
      if (u, u) in g { Refl(g, u); }
      if Cyclic(g, u) {
        var w :| (u, w) in g && Reaches(g, w, u);
        Step(g, u, w);
        assert w in Elems(comp);
      }
    }
  }

  method NeedsSecondPass(comp: seq<string>, deps: Deps) returns (cyclic: bool)
    requires comp != []
    ensures cyclic <==> |comp| > 1 || (comp[0], comp[0]) in EdgesOf(deps)
  {
    if |comp| > 1 {
      return true;
    }
    var n := comp[0];
    var list := Successors(deps, n);
    for i := 0 to |list|
      invariant n !in list[..i]
    {
      if list[i] == n {
        assert n in list;
        return true;
      }
    }
    assert list[..|list|] == list;
    return false;
  }

  /** What the later stages use: components, which of them are cyclic, and positions. */
  ghost predicate Layout(g: Edges<string>, entry: string, compID: map<string, nat>, isCyclic: seq<bool>, order: map<string, nat>) {
    var r := ReachableFrom(g, entry);
    && compID.Keys == r
    && (forall u, v | u in r && v in r :: compID[u] == compID[v] <==> Mutual(g, u, v))
    && LaidOut(g, entry, compID, isCyclic, order, |isCyclic|)
    && (forall u | u in r :: compID[u] < |isCyclic|)
  }

  /** The same for the packages of the first n components. */
  ghost predicate LaidOut(g: Edges<string>, entry: string, compID: map<string, nat>, isCyclic: seq<bool>, order: map<string, nat>, n: nat) {
    n <= |isCyclic| && forall u | u in ReachableFrom(g, entry) && u in compID && compID[u] < n ::
      && (isCyclic[compID[u]] <==> Cyclic(g, u))
      && u in order && order[u] == Pos(g, ReachableFrom(g, entry), entry, u)
  }

  /** The positions of one component's order. */
  method Positions(bfs: seq<string>, before: map<string, nat>) returns (order: map<string, nat>)
    requires Distinct(bfs)
    ensures forall k | 0 <= k < |bfs| :: bfs[k] in order && order[bfs[k]] == k
    ensures forall x | x in before && x !in bfs :: x in order && order[x] == before[x]
  {
    order := before;
    for i := 0 to |bfs|
      invariant forall k | 0 <= k < i :: bfs[k] in order && order[bfs[k]] == k
      invariant forall x | x in before && x !in bfs :: x in order && order[x] == before[x]
    {
      order := order[bfs[i] := i];
    }
  }

  lemma LaidOutNext(g: Edges<string>, entry: string, sccs: seq<seq<string>>, compID: map<string, nat>,
                    isCyclic: seq<bool>, order: map<string, nat>, c: nat,
                    cyclic: bool, bfs: seq<string>, order': map<string, nat>)
    requires Classes(g, ReachableFrom(g, entry), sccs, compID) && |isCyclic| == |sccs| && c < |sccs|
    requires LaidOut(g, entry, compID, isCyclic, order, c)
    requires cyclic <==> |sccs[c]| > 1 || (sccs[c][0], sccs[c][0]) in g
    requires bfs == ComponentOrder(g, ReachableFrom(g, entry), Elems(sccs[c]), entry)
    requires forall k | 0 <= k < |bfs| :: bfs[k] in order' && order'[bfs[k]] == k
    requires forall x | x in order && x !in bfs :: x in order' && order'[x] == order[x]
    ensures LaidOut(g, entry, compID, isCyclic[c := cyclic], order', c + 1)
  {
    hide Reaches, Pos, ComponentOrder;
    var r := ReachableFrom(g, entry);
    forall u | u in r && compID[u] < c + 1
      ensures (isCyclic[c := cyclic][compID[u]] <==> Cyclic(g, u)) && u in order' && order'[u] == Pos(g, r, entry, u)
    {
      OrderHasClass(g, entry, sccs, compID, c, bfs, u);
      if compID[u] == c {
        CyclicComponent(g, r, sccs[c], u);
      }
    }
  }

  lemma OrderHasClass(g: Edges<string>, entry: string, sccs: seq<seq<string>>, compID: map<string, nat>, c: nat, bfs: seq<string>, u: string)
    requires Classes(g, ReachableFrom(g, entry), sccs, compID) && c < |sccs| && u in ReachableFrom(g, entry)
    requires bfs == ComponentOrder(g, ReachableFrom(g, entry), Elems(sccs[c]), entry)
    ensures u in bfs <==> compID[u] == c
    ensures compID[u] == c ==> u in sccs[c] && Elems(sccs[c]) == Class(g, ReachableFrom(g, entry), u)
                               && Pos(g, ReachableFrom(g, entry), entry, u) < |bfs| && bfs[Pos(g, ReachableFrom(g, entry), entry, u)] == u
  {
    hide Reaches, ComponentOrder, Run, Fresh, Parented, Ready, Pos;
    var r := ReachableFrom(g, entry);
    var x := sccs[c][0];
    assert x in sccs[c];
    assert Elems(sccs[c]) == Class(g, r, x);
    OrderComplete(g, entry, x);
    assert u in bfs <==> u in Elems(bfs);
    if compID[u] == c {
      assert u in Elems(sccs[c]) by { ClassIsClass(g, r, u); }
      SameClass(g, r, u, x);
      PosInOrder(g, entry, u);
    }
  }

  /** Per-component metadata: cyclicity and breadth-first positions. */
  method LayOut(deps: Deps, reachable: set<string>, sccs: seq<seq<string>>, compID: map<string, nat>, entry: string)
    returns (isCyclic: array<bool>, order: map<string, nat>)
    requires reachable == ReachableFrom(EdgesOf(deps), entry)
    requires Classes(EdgesOf(deps), reachable, sccs, compID)
    ensures fresh(isCyclic) && Layout(EdgesOf(deps), entry, compID, isCyclic[..], order)
  {
    hide LaidOut, Pos, ComponentOrder, Cyclic, EdgesOf, Class;
    ghost var g := EdgesOf(deps);
    isCyclic := new bool[|sccs|](_ => false);
    order := map[];
    LaidOutNone(g, entry, compID, isCyclic[..], order);
    for cid := 0 to |sccs|
      invariant LaidOut(g, entry, compID, isCyclic[..], order, cid)
    {
      var comp := sccs[cid];
      ghost var cyclicBefore, orderBefore := isCyclic[..], order;
      ComponentFacts(g, reachable, sccs, compID, entry, cid);
      var cyclic := NeedsSecondPass(comp, deps);
      if cyclic {
        isCyclic[cid] := true;
      } else {
        isCyclic[cid] := false;
      }
      var bfs := ComputeBfsOrder(comp, cid, deps, reachable, compID, entry);
      order := Positions(bfs, order);
      LaidOutNext(g, entry, sccs, compID, cyclicBefore, orderBefore, cid, cyclic, bfs, order);
      assert isCyclic[..] == cyclicBefore[cid := cyclic];
    }
  }

  lemma LaidOutNone(g: Edges<string>, entry: string, compID: map<string, nat>, isCyclic: seq<bool>, order: map<string, nat>)
    ensures LaidOut(g, entry, compID, isCyclic, order, 0)
  {
  }

  lemma ComponentFacts(g: Edges<string>, r: set<string>, sccs: seq<seq<string>>, compID: map<string, nat>, entry: string, c: nat)
    requires r == ReachableFrom(g, entry) && Classes(g, r, sccs, compID) && c < |sccs|
    ensures sccs[c] != [] && Elems(sccs[c]) <= r
    ensures forall x | x in r :: compID[x] == c <==> x in sccs[c]
    ensures Distinct(ComponentOrder(g, r, Elems(sccs[c]), entry))
  {
    hide Reaches;
    var x := sccs[c][0];
    assert x in sccs[c] && Elems(sccs[c]) == Class(g, r, x);
    OrderDistinct(g, entry, x);
    forall y | y in r ensures compID[y] == c <==> y in sccs[c] {
      if compID[y] == c {
        assert y in Elems(sccs[c]);
      }
    }
  }

  // ---------------------------------------------------------------------
  // Nodes and edges, without duplicates
  // ---------------------------------------------------------------------

  method AddNode(nodes: seq<string>, n: string) returns (nodes': seq<string>)
    requires Distinct(nodes)
    ensures Distinct(nodes') && Elems(nodes') == Elems(nodes) + {n}
  {
    nodes' := if n in nodes then nodes else nodes + [n];
  }

  method AddEdge(edges: seq<(string, string)>, from: Node, to: Node) returns (edges': seq<(string, string)>)
    requires Distinct(edges)
    ensures Distinct(edges') && Elems(edges') == Elems(edges) + Named({(from, to)})
  {
    NamedOne(from, to);
    hide Named;
    var e := (NodeID(from), NodeID(to));
    edges' := if e.0 == e.1 || e in edges then edges else edges + [e];
  }

  lemma NamedOne(from: Node, to: Node)
    ensures Named({(from, to)}) == if NodeID(from) == NodeID(to) then {} else {(NodeID(from), NodeID(to))}
  {
    var x := (from, to);
    assert x in {(from, to)} && x.0 == from && x.1 == to;
  }

  lemma NamedUnion(d: Edges<Node>, e: Edges<Node>)
    ensures Named(d + e) == Named(d) + Named(e) && Named({}) == {}
  {
  }

  lemma NamesUnion(s: set<Node>, n: Node)
    ensures NamesOf(s + {n}) == NamesOf(s) + {NodeID(n)} && NamesOf({}) == {}
  {
    assert n in s + {n};
  }

  method CreateNodes(reachable: set<string>, compID: map<string, nat>, isCyclic: seq<bool>, ghost g: Edges<string>, ghost entry: string, ghost order: map<string, nat>)
    returns (nodes: seq<string>)
    requires reachable == ReachableFrom(g, entry) && Layout(g, entry, compID, isCyclic, order)
    ensures Distinct(nodes) && Elems(nodes) == NamesOf(BuildNodes(g, entry))
  {
    hide Cyclic, Pos, BuildNodes, NamesOf;
    nodes := [];
    ghost var built: set<Node> := {};
    var todo := reachable;
    NamesUnion({}, Node(entry, false));
    while todo != {}
      invariant todo <= reachable
      invariant Distinct(nodes) && Elems(nodes) == NamesOf(built)
      invariant forall n :: n in built <==> n.pkg in reachable - todo && (n.second ==> Cyclic(g, n.pkg))
    {
      var pkg :| pkg in todo;
      ghost var before := built;
      nodes := AddNode(nodes, NodeID(Node(pkg, false)));
      NamesUnion(built, Node(pkg, false));
      built := built + {Node(pkg, false)};
      if isCyclic[compID[pkg]] {
        nodes := AddNode(nodes, NodeID(Node(pkg, true)));
        NamesUnion(built, Node(pkg, true));
        built := built + {Node(pkg, true)};
      }
      todo := todo - {pkg};
      forall n ensures n in built <==> n.pkg in reachable - todo && (n.second ==> Cyclic(g, n.pkg)) {
        assert n.pkg == pkg ==> n == Node(pkg, false) || n == Node(pkg, true);
      }
    }
    assert built == BuildNodes(g, entry);
  }

  /** The edges that one dependency u -> v contributes. */
  function StepEdges(u: string, v: string, cu: nat, cv: nat, cyclic: bool, pu: nat, pv: nat): set<(Node, Node)> {
    if cu == cv then
      if u == v && cyclic then {(Node(u, false), Node(u, true))}
      else if !cyclic then if u == v then {} else {(Node(u, false), Node(v, false))}
      else if pu < pv then {(Node(u, false), Node(v, false)), (Node(u, true), Node(v, true))}
      else if pu > pv then {(Node(u, false), Node(v, true))}
      else {}
    else {(Node(u, cyclic), Node(v, false))}
  }

  method AddDependency(edges: seq<(string, string)>, u: string, v: string, compID: map<string, nat>, isCyclic: seq<bool>, order: map<string, nat>)
    returns (edges': seq<(string, string)>)
    requires u in compID && v in compID && u in order && v in order && compID[u] < |isCyclic| && Distinct(edges)
    ensures Distinct(edges')
    ensures Elems(edges') == Elems(edges) + Named(StepEdges(u, v, compID[u], compID[v], isCyclic[compID[u]], order[u], order[v]))
  {
    hide Named, Elems, Distinct;
    NamedUnion({}, {});
    edges' := edges;
    var cu, cv := compID[u], compID[v];
    if cu == cv {
      if u == v && isCyclic[cu] {
        edges' := AddEdge(edges', Node(u, false), Node(u, true));
      } else if !isCyclic[cu] {
        NamedOne(Node(u, false), Node(v, false));
        edges' := AddEdge(edges', Node(u, false), Node(v, false));
      } else if order[u] < order[v] {
        assert u != v;
        NamedUnion({(Node(u, false), Node(v, false))}, {(Node(u, true), Node(v, true))});
        assert {(Node(u, false), Node(v, false)), (Node(u, true), Node(v, true))}
          == {(Node(u, false), Node(v, false))} + {(Node(u, true), Node(v, true))};
        edges' := AddEdge(edges', Node(u, false), Node(v, false));
        edges' := AddEdge(edges', Node(u, true), Node(v, true));
      } else if order[u] > order[v] {
        edges' := AddEdge(edges', Node(u, false), Node(v, true));
      }
    } else {
      edges' := AddEdge(edges', Node(u, isCyclic[cu]), Node(v, false));
    }
  }

  /** They are exactly the build edges between builds of u and of v; the branch for an
      acyclic component contributes nothing. */
  lemma StepEdgesMean(g: Edges<string>, entry: string, compID: map<string, nat>, isCyclic: seq<bool>, order: map<string, nat>, u: string, v: string, a: Node, b: Node)
    requires Layout(g, entry, compID, isCyclic, order)
    requires u in ReachableFrom(g, entry) && v in ReachableFrom(g, entry) && (u, v) in g
    ensures u in order && v in order
    ensures (a, b) in StepEdges(u, v, compID[u], compID[v], isCyclic[compID[u]], order[u], order[v])
            <==> a.pkg == u && b.pkg == v && BuildEdge(g, ReachableFrom(g, entry), entry, a, b)
  {
    hide Pos, Reaches, Cyclic;
    var r := ReachableFrom(g, entry);
    if compID[u] == compID[v] {
      EdgeInClassCyclic(g, u, v);
      if order[u] == order[v] {
        PosInjective(g, entry, u, v);
      }
    }
  }

  /** The build edges added for the packages done and for the list of u. */
  ghost predicate EdgesUpTo(g: Edges<string>, entry: string, pairs: Edges<Node>, done: set<string>, u: string, list: seq<string>) {
    forall a, b :: (a, b) in pairs <==>
      BuildEdge(g, ReachableFrom(g, entry), entry, a, b) && (a.pkg in done || (a.pkg == u && b.pkg in list))
  }

  lemma EdgesNext(deps: Deps, entry: string, compID: map<string, nat>, isCyclic: seq<bool>, order: map<string, nat>,
                  pairs: Edges<Node>, done: set<string>, u: string, list: seq<string>, v: string)
    requires Layout(EdgesOf(deps), entry, compID, isCyclic, order)
    requires u in ReachableFrom(EdgesOf(deps), entry) && v in ReachableFrom(EdgesOf(deps), entry) && v in Successors(deps, u)
    requires EdgesUpTo(EdgesOf(deps), entry, pairs, done, u, list)
    requires u in order && v in order
    ensures EdgesUpTo(EdgesOf(deps), entry, pairs + StepEdges(u, v, compID[u], compID[v], isCyclic[compID[u]], order[u], order[v]),
                      done, u, list + [v])
  {
    hide StepEdges, Layout, BuildEdge;
    var g := EdgesOf(deps);
    var r := ReachableFrom(g, entry);
    LayoutFacts(g, entry, compID, isCyclic, order, u);
    LayoutFacts(g, entry, compID, isCyclic, order, v);
    var more := StepEdges(u, v, compID[u], compID[v], isCyclic[compID[u]], order[u], order[v]);
    forall a, b ensures (a, b) in pairs + more <==>
      BuildEdge(g, r, entry, a, b) && (a.pkg in done || (a.pkg == u && b.pkg in list + [v]))
    {
      StepEdgesMean(g, entry, compID, isCyclic, order, u, v, a, b);
    }
  }

  /** The dependencies of one package; pairs are the builds behind the named edges. */
  method AddDependencies(edges: seq<(string, string)>, u: string, deps: Deps, reachable: set<string>, compID: map<string, nat>,
                         isCyclic: seq<bool>, order: map<string, nat>, ghost entry: string, ghost done: set<string>, ghost pairs: Edges<Node>)
    returns (edges': seq<(string, string)>, ghost pairs': Edges<Node>)
    requires reachable == ReachableFrom(EdgesOf(deps), entry) && Layout(EdgesOf(deps), entry, compID, isCyclic, order)
    requires u in reachable && EdgesUpTo(EdgesOf(deps), entry, pairs, done, "", [])
    requires Distinct(edges) && Elems(edges) == Named(pairs)
    ensures EdgesUpTo(EdgesOf(deps), entry, pairs', done + {u}, "", [])
    ensures Distinct(edges') && Elems(edges') == Named(pairs')
  {
    hide EdgesUpTo, StepEdges, Layout, EdgesOf, Named, Distinct, Elems;
    ghost var g := EdgesOf(deps);
    var list := Successors(deps, u);
    edges', pairs' := edges, pairs;
    StartPackage(g, entry, pairs, done, u);
    LayoutFacts(g, entry, compID, isCyclic, order, u);
    assert list[..0] == [];
    for i := 0 to |list|
      invariant EdgesUpTo(g, entry, pairs', done, u, list[..i])
      invariant Distinct(edges') && Elems(edges') == Named(pairs')
    {
      var v := list[i];
      ghost var seen := list[..i];
      assert list[..i + 1] == seen + [v];
      if v in reachable {
        LayoutFacts(g, entry, compID, isCyclic, order, v);
        edges' := AddDependency(edges', u, v, compID, isCyclic, order);
        EdgesNext(deps, entry, compID, isCyclic, order, pairs', done, u, seen, v);
        ghost var more := StepEdges(u, v, compID[u], compID[v], isCyclic[compID[u]], order[u], order[v]);
        NamedUnion(pairs', more);
        pairs' := pairs' + more;
      } else {
        SkipOutside(g, entry, pairs', done, u, seen, v);
      }
    }
    assert list[..|list|] == list;
    FinishPackage(deps, entry, pairs', done, u);
  }

  lemma SkipOutside(g: Edges<string>, entry: string, pairs: Edges<Node>, done: set<string>, u: string, list: seq<string>, v: string)
    requires EdgesUpTo(g, entry, pairs, done, u, list) && v !in ReachableFrom(g, entry)
    ensures EdgesUpTo(g, entry, pairs, done, u, list + [v])
  {
  }

  method CreateEdges(deps: Deps, reachable: set<string>, compID: map<string, nat>, isCyclic: seq<bool>, order: map<string, nat>, ghost entry: string)
    returns (edges: seq<(string, string)>)
    requires reachable == ReachableFrom(EdgesOf(deps), entry) && Layout(EdgesOf(deps), entry, compID, isCyclic, order)
    ensures Distinct(edges) && Elems(edges) == Named(BuildEdges(EdgesOf(deps), entry))
  {
    hide EdgesUpTo, BuildEdges, Layout, EdgesOf, Named;
    edges := [];
    ghost var pairs: Edges<Node> := {};
    var todo := reachable;
    NoEdgesYet(EdgesOf(deps), entry);
    NamedUnion({}, {});
    assert reachable - todo == {};
    while todo != {}
      invariant todo <= reachable
      invariant EdgesUpTo(EdgesOf(deps), entry, pairs, reachable - todo, "", [])
      invariant Distinct(edges) && Elems(edges) == Named(pairs)
    {
      var u :| u in todo;
      edges, pairs := AddDependencies(edges, u, deps, reachable, compID, isCyclic, order, entry, reachable - todo, pairs);
      assert reachable - (todo - {u}) == reachable - todo + {u};
      todo := todo - {u};
    }
    assert reachable - {} == reachable;
    AllEdges(EdgesOf(deps), entry, pairs);
  }

  lemma NoEdgesYet(g: Edges<string>, entry: string)
    ensures EdgesUpTo(g, entry, {}, {}, "", [])
  {
  }

  lemma StartPackage(g: Edges<string>, entry: string, pairs: Edges<Node>, done: set<string>, u: string)
    requires EdgesUpTo(g, entry, pairs, done, "", [])
    ensures EdgesUpTo(g, entry, pairs, done, u, [])
  {
  }

  lemma FinishPackage(deps: Deps, entry: string, pairs: Edges<Node>, done: set<string>, u: string)
    requires EdgesUpTo(EdgesOf(deps), entry, pairs, done, u, Successors(deps, u))
    ensures EdgesUpTo(EdgesOf(deps), entry, pairs, done + {u}, "", [])
  {
  }

  lemma LayoutFacts(g: Edges<string>, entry: string, compID: map<string, nat>, isCyclic: seq<bool>, order: map<string, nat>, u: string)
    requires Layout(g, entry, compID, isCyclic, order) && u in ReachableFrom(g, entry)
    ensures u in compID && u in order && compID[u] < |isCyclic|
  {
  }

  lemma AllEdges(g: Edges<string>, entry: string, pairs: Edges<Node>)
    requires EdgesUpTo(g, entry, pairs, ReachableFrom(g, entry), "", [])
    ensures pairs == BuildEdges(g, entry)
  {
    hide BuildEdge;
    forall e ensures e in pairs <==> e in BuildEdges(g, entry) {
      var (a, b) := e;
      assert (a, b) in pairs <==> BuildEdge(g, ReachableFrom(g, entry), entry, a, b) && a.pkg in ReachableFrom(g, entry);
      if BuildEdge(g, ReachableFrom(g, entry), entry, a, b) {
        EdgeNodes(g, entry, a, b);
        EdgeSource(g, entry, a, b);
      }
      if (a, b) in BuildEdges(g, entry) {
        EdgeIsBuildEdge(g, entry, a, b);
      }
    }
  }

  lemma EdgeSource(g: Edges<string>, entry: string, a: Node, b: Node)
    requires BuildEdge(g, ReachableFrom(g, entry), entry, a, b)
    ensures a.pkg in ReachableFrom(g, entry)
  {
  }

  // ---------------------------------------------------------------------
  // The compiler
  // ---------------------------------------------------------------------

  /** The unreduced build graph, by name. Its node set and edge set depend only on the entry
      and on the adjacency relation of the map. */
  method BuildUnreduced(deps: Deps, entry: string) returns (nodes: seq<string>, edges: seq<(string, string)>)
    ensures Distinct(nodes) && Elems(nodes) == NamesOf(BuildNodes(EdgesOf(deps), entry))
    ensures Distinct(edges) && Elems(edges) == Named(BuildEdges(EdgesOf(deps), entry))
  {
    hide Layout, Classes, Condensation, BuildNodes, BuildEdges, Named, NamesOf;
    var reachable := CollectReachable(deps, entry);
    var sccs, compID, _ := ComputeSCCs(deps, reachable);
    CondensationClasses(deps, reachable, sccs, compID);
    var isCyclic, order := LayOut(deps, reachable, sccs, compID, entry);
    nodes := CreateNodes(reachable, compID, isCyclic[..], EdgesOf(deps), entry, order);
    edges := CreateEdges(deps, reachable, compID, isCyclic[..], order, entry);
  }

  /** The build graph: the names of all builds, and the transitive reduction of their
      constraints, nil when names make a cycle. With distinct names they never do, and the
      result is the reduced build graph by name. */
  method BuildDAG(deps: Deps, entry: string) returns (nodes: seq<string>, edges: Option<seq<(string, string)>>)
    ensures Distinct(nodes) && Elems(nodes) == NamesOf(BuildNodes(EdgesOf(deps), entry))
    ensures edges.None? <==> !Acyclic(Named(BuildEdges(EdgesOf(deps), entry)))
    ensures edges.Some? ==> Distinct(edges.value) && Elems(edges.value) == Reduced(Named(BuildEdges(EdgesOf(deps), entry)))
    ensures edges.Some? ==> DependentsWait(EdgesOf(deps), entry, Elems(edges.value))
    ensures NamesDistinct(EdgesOf(deps), entry) ==>
      edges.Some? && Elems(edges.value) == Named(Reduced(BuildEdges(EdgesOf(deps), entry)))
  {
    hide BuildNodes, BuildEdges, Acyclic, Reduced, Named, NamesOf, NamesDistinct, DependentsWait;
    var all;
    nodes, all := BuildUnreduced(deps, entry);
    if NamesDistinct(EdgesOf(deps), entry) {
      NamedBuildGraph(EdgesOf(deps), entry);
    }
    edges := ReduceEdges.Reduce(all);
    if edges.Some? {
      NamedDependentsWait(EdgesOf(deps), entry);
    }
  }

  /** After reduction too, a build precedes another exactly as before it, the entry's first
      build waits for nothing, and every build comes after it. */
  lemma ReducedBuildGraph(g: Edges<string>, entry: string)
    ensures forall m, n :: Reaches(Reduced(BuildEdges(g, entry)), m, n) <==> Reaches(BuildEdges(g, entry), m, n)
    ensures forall a :: (a, Node(entry, false)) !in Reduced(BuildEdges(g, entry))
    ensures forall n | n in BuildNodes(g, entry) :: Reaches(Reduced(BuildEdges(g, entry)), Node(entry, false), n)
  {
    hide BuildEdges, BuildNodes, Reaches;
    BuildGraphAcyclic(g, entry);
    forall m, n ensures Reaches(Reduced(BuildEdges(g, entry)), m, n) <==> Reaches(BuildEdges(g, entry), m, n) {
      ReducedSameReach(BuildEdges(g, entry), m, n);
    }
    forall a ensures (a, Node(entry, false)) !in Reduced(BuildEdges(g, entry)) {
      EntryIsSource(g, entry, a);
    }
    EntryReachesAll(g, entry);
  }

  /** Nodes and edges depend on the adjacency relation alone: list order, repetitions and
      empty entries of the map do not matter. */
  lemma OnlyTheRelationMatters(a: Deps, b: Deps, entry: string)
    requires forall u :: Elems(Successors(a, u)) == Elems(Successors(b, u))
    ensures BuildNodes(EdgesOf(a), entry) == BuildNodes(EdgesOf(b), entry)
    ensures BuildEdges(EdgesOf(a), entry) == BuildEdges(EdgesOf(b), entry)
  {
    forall u, v ensures (u, v) in EdgesOf(a) <==> (u, v) in EdgesOf(b) {
      assert v in Elems(Successors(a, u)) <==> v in Elems(Successors(b, u));
    }
    assert EdgesOf(a) == EdgesOf(b);
  }
}
