/** The build graph of an entry package, as a relation, and what it guarantees.

    Packages on a cycle are built twice. Inside a component the breadth-first position
    decides which build of a package waits for which build of another.
 */
module BuildGraph {
  import opened Strings
  import opened Graph
  import opened Dependencies
  import opened TarjanInvariant
  import opened BfsOrder

  /** One build of a package: the first, or the second that packages on a cycle get. */
  datatype Node = Node(pkg: string, second: bool)

  /** The package lies on a cycle, a self-loop included. */
  ghost predicate Cyclic(g: Edges<string>, u: string) {
    ReachesPlus(g, u, u)
  }

  /** The reachable packages that u reaches and that reach u. */
  ghost function Class(g: Edges<string>, r: set<string>, u: string): set<string> {
    set v | v in r && Mutual(g, u, v)
  }

  /** Breadth-first position of u in its component. */
  ghost function Pos(g: Edges<string>, r: set<string>, entry: string, u: string): nat {
    IndexOf(ComponentOrder(g, r, Class(g, r, u), entry), u)
  }

  /** Build a must finish before build b may start. */
  ghost predicate BuildEdge(g: Edges<string>, r: set<string>, entry: string, a: Node, b: Node) {
    && (a.pkg, b.pkg) in g && a.pkg in r && b.pkg in r
    && if !Mutual(g, a.pkg, b.pkg) then a.second == Cyclic(g, a.pkg) && !b.second
       else if a.pkg == b.pkg then !a.second && b.second
       else if Pos(g, r, entry, a.pkg) < Pos(g, r, entry, b.pkg) then a.second == b.second
       else !a.second && b.second
  }

  ghost function BuildNodes(g: Edges<string>, entry: string): (nodes: set<Node>)
    ensures forall n :: n in nodes <==> n.pkg in ReachableFrom(g, entry) && (n.second ==> Cyclic(g, n.pkg))
  {
    var r := ReachableFrom(g, entry);
    (set u | u in r :: Node(u, false)) + (set u | u in r && Cyclic(g, u) :: Node(u, true))
  }

  ghost function BuildEdges(g: Edges<string>, entry: string): Edges<Node> {
    set a, b | a in BuildNodes(g, entry) && b in BuildNodes(g, entry)
               && BuildEdge(g, ReachableFrom(g, entry), entry, a, b) :: (a, b)
  }

  // ---------------------------------------------------------------------
  // Cycles and components
  // ---------------------------------------------------------------------

  /** A package on a dependency edge inside its own component lies on a cycle. */
  lemma EdgeInClassCyclic(g: Edges<string>, u: string, v: string)
    requires (u, v) in g && Mutual(g, u, v)
    ensures Cyclic(g, u) && Cyclic(g, v)
  {
    Append(g, v, u, v);
  }

  lemma MutualSteps(g: Edges<string>, u: string, v: string, w: string)
    requires Mutual(g, u, v) && Mutual(g, v, w)
    ensures Mutual(g, u, w) && Mutual(g, w, u)
  {
    Trans(g, u, v, w);
    Trans(g, w, v, u);
  }

  lemma ClassIsClass(g: Edges<string>, r: set<string>, u: string)
    requires u in r
    ensures u in Class(g, r, u)
    ensures forall x, y | x in Class(g, r, u) && y in r :: y in Class(g, r, u) <==> Mutual(g, x, y)
  {
    Refl(g, u);
    forall x, y | x in Class(g, r, u) && y in r ensures y in Class(g, r, u) <==> Mutual(g, x, y) {
      if Mutual(g, u, y) { MutualSteps(g, x, u, y); }
      if Mutual(g, x, y) { MutualSteps(g, u, x, y); }
    }
  }

  lemma SameClass(g: Edges<string>, r: set<string>, u: string, v: string)
    requires Mutual(g, u, v)
    ensures Class(g, r, u) == Class(g, r, v)
  {
    forall x | x in r ensures Mutual(g, u, x) <==> Mutual(g, v, x) {
      if Mutual(g, u, x) { MutualSteps(g, v, u, x); }
      if Mutual(g, v, x) { MutualSteps(g, u, v, x); }
    }
  }

  lemma EdgeNodes(g: Edges<string>, entry: string, a: Node, b: Node)
    requires BuildEdge(g, ReachableFrom(g, entry), entry, a, b)
    ensures a in BuildNodes(g, entry) && b in BuildNodes(g, entry)
    ensures (a, b) in BuildEdges(g, entry)
  {
    if Mutual(g, a.pkg, b.pkg) {
      EdgeInClassCyclic(g, a.pkg, b.pkg);
    }
  }

  // ---------------------------------------------------------------------
  // The order inside a component that the entry reaches
  // ---------------------------------------------------------------------

  /** A component without the entry is entered from outside: the fallback to plain byte
      order is never taken. */
  lemma GatewayExists(g: Edges<string>, entry: string, u: string)
    requires u in ReachableFrom(g, entry)
    requires entry !in Class(g, ReachableFrom(g, entry), u)
    ensures Gateways(g, ReachableFrom(g, entry), Class(g, ReachableFrom(g, entry), u)) != {}
  {
    var r := ReachableFrom(g, entry);
    var c := Class(g, r, u);
    ClassIsClass(g, r, u);
    var p :| WalkBetween(g, p, entry, u);
    var v := CrossingInto(g, r, c, p);
  }

  lemma {:induction false} CrossingInto(g: Edges<string>, r: set<string>, c: set<string>, p: seq<string>) returns (v: string)
    requires Walk(g, p) && Closed(g, r) && p[0] in r && p[0] !in c && p[|p| - 1] in c
    ensures v in Gateways(g, r, c)
    decreases |p|
  {
    assert (p[0], p[1]) in g;
    if p[1] in c {
      v := p[1];
      assert Entered(g, r, c, v);
    } else {
      v := CrossingInto(g, r, c, p[1..]);
    }
  }

  /** The starts of the breadth-first visit of u's component. */
  ghost function StartsOf(g: Edges<string>, r: set<string>, entry: string, u: string): seq<string> {
    var c := Class(g, r, u);
    if entry in c then [entry] else Enumerate(Gateways(g, r, c))
  }

  /** The component's order is the breadth-first visit, complete and without fallback. */
  lemma OrderComplete(g: Edges<string>, entry: string, u: string)
    requires u in ReachableFrom(g, entry)
    ensures var r := ReachableFrom(g, entry);
            var c, starts := Class(g, r, u), StartsOf(g, r, entry, u);
            && starts != [] && (forall x | x in starts :: x in c)
            && Ready(c, [], Fresh(starts, {}))
            && ComponentOrder(g, r, c, entry) == Run(g, c, [], Fresh(starts, {}))
            && Elems(ComponentOrder(g, r, c, entry)) == c
            && Parented(g, starts, ComponentOrder(g, r, c, entry), [])
  {
    hide Run, Fresh, Order, Parented, Ready, Reaches;
    var r := ReachableFrom(g, entry);
    var c, starts := Class(g, r, u), StartsOf(g, r, entry, u);
    ClassIsClass(g, r, u);
    EnumerateElems(Gateways(g, r, c));
    if entry !in c {
      GatewayExists(g, entry, u);
    }
    NothingMissed(g, r, c, starts);
  }

  lemma PosInOrder(g: Edges<string>, entry: string, u: string)
    requires u in ReachableFrom(g, entry)
    ensures var r := ReachableFrom(g, entry);
            var order := ComponentOrder(g, r, Class(g, r, u), entry);
            Pos(g, r, entry, u) < |order| && order[Pos(g, r, entry, u)] == u
  {
    hide ComponentOrder, Run, Fresh, Parented, Ready;
    var r := ReachableFrom(g, entry);
    ClassIsClass(g, r, u);
    OrderComplete(g, entry, u);
    assert u in Elems(ComponentOrder(g, r, Class(g, r, u), entry));
  }

  lemma PosOfIndex(g: Edges<string>, entry: string, u: string, i: nat)
    requires u in ReachableFrom(g, entry)
    requires i < |ComponentOrder(g, ReachableFrom(g, entry), Class(g, ReachableFrom(g, entry), u), entry)|
    ensures var r := ReachableFrom(g, entry);
            var x := ComponentOrder(g, r, Class(g, r, u), entry)[i];
            x in Class(g, r, u) && Pos(g, r, entry, x) == i
  {
    hide Run, Fresh, Parented, Order, Gateways, Reaches;
    var r := ReachableFrom(g, entry);
    var c := Class(g, r, u);
    var order := ComponentOrder(g, r, c, entry);
    OrderComplete(g, entry, u);
    assert order[i] in Elems(order);
    ClassIsClass(g, r, u);
    SameClass(g, r, u, order[i]);
    PosInOrder(g, entry, order[i]);
    OrderDistinct(g, entry, u);
  }

  lemma OrderDistinct(g: Edges<string>, entry: string, u: string)
    requires u in ReachableFrom(g, entry)
    ensures Distinct(ComponentOrder(g, ReachableFrom(g, entry), Class(g, ReachableFrom(g, entry), u), entry))
  {
    var r := ReachableFrom(g, entry);
    var c, starts := Class(g, r, u), StartsOf(g, r, entry, u);
    OrderComplete(g, entry, u);
    RunDistinct(g, c, [], Fresh(starts, {}));
  }

  lemma {:induction false} RunDistinct(g: Edges<string>, allowed: set<string>, done: seq<string>, pending: seq<string>)
    requires Ready(allowed, done, pending)
    ensures Distinct(Run(g, allowed, done, pending)) && done <= Run(g, allowed, done, pending)
    decreases |allowed - Elems(done)|
  {
    if pending != [] {
      ReadyStep(g, allowed, done, pending);
      RunDistinct(g, allowed, done + [pending[0]], pending[1..] + Enumerate(NewNeighbours(g, allowed, done, pending)));
    }
  }

  /** Different members of a component have different positions. */
  lemma PosInjective(g: Edges<string>, entry: string, u: string, v: string)
    requires u in ReachableFrom(g, entry) && v in ReachableFrom(g, entry) && Mutual(g, u, v)
    requires Pos(g, ReachableFrom(g, entry), entry, u) == Pos(g, ReachableFrom(g, entry), entry, v)
    ensures u == v
  {
    SameClass(g, ReachableFrom(g, entry), u, v);
    PosInOrder(g, entry, u);
    PosInOrder(g, entry, v);
  }

  lemma EntryFirst(g: Edges<string>, entry: string)
    ensures Pos(g, ReachableFrom(g, entry), entry, entry) == 0
  {
    var r := ReachableFrom(g, entry);
    var c := Class(g, r, entry);
    ClassIsClass(g, r, entry);
    OrderComplete(g, entry, entry);
    var pending := Fresh([entry], {});
    assert pending == [entry];
    ReadyStep(g, c, [], pending);
    RunDistinct(g, c, [] + [entry], pending[1..] + Enumerate(NewNeighbours(g, c, [], pending)));
    var order := ComponentOrder(g, r, c, entry);
    assert [] + [entry] == [entry] && [entry] <= order;
    assert order[0] == entry;
    PosOfIndex(g, entry, entry, 0);
  }
}
