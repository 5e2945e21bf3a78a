/** What the build graph guarantees: it has no cycle, the entry's first build is its only
    source and reaches every build, and inside a component a first build precedes a second
    build exactly along walks with one step that does not advance the breadth-first order.
 */
module BuildGraphTheorems {
  import opened Strings
  import opened Graph
  import opened Dependencies
  import opened TarjanInvariant
  import opened BfsOrder
  import opened BuildGraph

  lemma EdgeIsBuildEdge(g: Edges<string>, entry: string, a: Node, b: Node)
    requires (a, b) in BuildEdges(g, entry)
    ensures BuildEdge(g, ReachableFrom(g, entry), entry, a, b)
    ensures a in BuildNodes(g, entry) && b in BuildNodes(g, entry)
  {
  }

  // ---------------------------------------------------------------------
  // No cycle
  // ---------------------------------------------------------------------

  /** The rank order: an earlier component, or else the first pass before the second, or
      else a smaller breadth-first position. */
  ghost predicate Before(g: Edges<string>, r: set<string>, entry: string, a: Node, b: Node) {
    && Reaches(g, a.pkg, b.pkg)
    && (Reaches(g, b.pkg, a.pkg) ==>
          || (!a.second && b.second)
          || (a.second == b.second && Pos(g, r, entry, a.pkg) < Pos(g, r, entry, b.pkg)))
  }

  lemma BeforeTransitive(g: Edges<string>, r: set<string>, entry: string, a: Node, b: Node, c: Node)
    requires Before(g, r, entry, a, b) && Before(g, r, entry, b, c)
    ensures Before(g, r, entry, a, c)
  {
    hide Reaches, Pos;
    Trans(g, a.pkg, b.pkg, c.pkg);
    if Reaches(g, c.pkg, a.pkg) {
      Trans(g, c.pkg, a.pkg, b.pkg);
      Trans(g, b.pkg, c.pkg, a.pkg);
    }
  }

  lemma EdgeBefore(g: Edges<string>, entry: string, a: Node, b: Node)
    requires (a, b) in BuildEdges(g, entry)
    ensures Before(g, ReachableFrom(g, entry), entry, a, b)
  {
    EdgeIsBuildEdge(g, entry, a, b);
    Step(g, a.pkg, b.pkg);
  }

  /** The build graph of any dependency relation, cyclic or not, is acyclic. */
  lemma BuildGraphAcyclic(g: Edges<string>, entry: string)
    ensures Acyclic(BuildEdges(g, entry))
  {
    var r := ReachableFrom(g, entry);
    var before := (a: Node, b: Node) => Before(g, r, entry, a, b);
    hide Before, BuildEdges;
    forall a, b | (a, b) in BuildEdges(g, entry) ensures before(a, b) {
      EdgeBefore(g, entry, a, b);
    }
    forall a, b, c | before(a, b) && before(b, c) ensures before(a, c) {
      BeforeTransitive(g, r, entry, a, b, c);
    }
    forall a ensures !before(a, a) {
      NotBeforeItself(g, r, entry, a);
    }
    RankedAcyclic(BuildEdges(g, entry), before);
  }

  lemma NotBeforeItself(g: Edges<string>, r: set<string>, entry: string, a: Node)
    ensures !Before(g, r, entry, a, a)
  {
    Refl(g, a.pkg);
  }

  // ---------------------------------------------------------------------
  // One source, from which everything is reached
  // ---------------------------------------------------------------------

  /** Every build but the entry's first has a build that must precede it directly. */
  lemma HasPredecessor(g: Edges<string>, entry: string, n: Node)
    requires n in BuildNodes(g, entry) && n != Node(entry, false)
    ensures HasPredIn(BuildEdges(g, entry), BuildNodes(g, entry), n)
  {
    var a := if n.second then SecondPred(g, entry, n.pkg) else FirstPred(g, entry, n.pkg);
    EdgeNodes(g, entry, a, n);
  }

  ghost function SecondPred(g: Edges<string>, entry: string, v: string): (a: Node)
    requires v in ReachableFrom(g, entry) && Cyclic(g, v)
    ensures BuildEdge(g, ReachableFrom(g, entry), entry, a, Node(v, true))
  {
    var r := ReachableFrom(g, entry);
    LastEdge(g, v, v);
    var u :| Reaches(g, v, u) && (u, v) in g;
    Step(g, u, v);
    Trans(g, entry, v, u);
    Node(u, u != v && Pos(g, r, entry, u) < Pos(g, r, entry, v))
  }

  lemma LastEdge(g: Edges<string>, u: string, v: string)
    requires ReachesPlus(g, u, v)
    ensures exists x :: Reaches(g, u, x) && (x, v) in g
  {
    var w :| (u, w) in g && Reaches(g, w, v);
    var p :| WalkBetween(g, p, w, v);
    if |p| == 1 {
      Refl(g, u);
    } else {
      var x := p[|p| - 2];
      assert (p[|p| - 2], p[|p| - 1]) in g;
      assert WalkBetween(g, p[..|p| - 1], w, x);
      Prepend(g, u, w, x);
    }
  }

  ghost function FirstPred(g: Edges<string>, entry: string, v: string): (a: Node)
    requires v in ReachableFrom(g, entry) && v != entry
    ensures BuildEdge(g, ReachableFrom(g, entry), entry, a, Node(v, false))
  {
    FirstPredExists(g, entry, v);
    var a :| BuildEdge(g, ReachableFrom(g, entry), entry, a, Node(v, false));
    a
  }

  lemma FirstPredExists(g: Edges<string>, entry: string, v: string)
    requires v in ReachableFrom(g, entry) && v != entry
    ensures exists a :: BuildEdge(g, ReachableFrom(g, entry), entry, a, Node(v, false))
  {
    hide Run, Fresh, Order, ComponentOrder, Ready, Reaches, IndexOf;
    var r := ReachableFrom(g, entry);
    var c, starts := Class(g, r, v), StartsOf(g, r, entry, v);
    var order := ComponentOrder(g, r, c, entry);
    OrderComplete(g, entry, v);
    PosInOrder(g, entry, v);
    var i := Pos(g, r, entry, v);
    assert HasParentBefore(g, starts, order, i);
    if v in starts {
      EnumerateElems(Gateways(g, r, c));
      assert Entered(g, r, c, v);
      var o :| o in r && o !in c && (o, v) in g;
      Refl(g, v);
      assert !Mutual(g, o, v);
      assert BuildEdge(g, r, entry, Node(o, Cyclic(g, o)), Node(v, false));
    } else {
      var j :| 0 <= j < i && (order[j], order[i]) in g;
      PosOfIndex(g, entry, v, j);
      assert Mutual(g, order[j], v);
      assert BuildEdge(g, r, entry, Node(order[j], false), Node(v, false));
    }
  }

  /** The entry's first build waits for nothing. */
  lemma EntryIsSource(g: Edges<string>, entry: string, a: Node)
    ensures (a, Node(entry, false)) !in BuildEdges(g, entry)
  {
    if (a, Node(entry, false)) in BuildEdges(g, entry) {
      EdgeIsBuildEdge(g, entry, a, Node(entry, false));
      assert Mutual(g, a.pkg, entry) by { Step(g, a.pkg, entry); }
      EntryFirst(g, entry);
    }
  }

  /** Every build, first or second, comes after the entry's first build. */
  lemma EntryReachesAll(g: Edges<string>, entry: string)
    ensures Node(entry, false) in BuildNodes(g, entry)
    ensures forall n | n in BuildNodes(g, entry) :: Reaches(BuildEdges(g, entry), Node(entry, false), n)
  {
    hide Reaches, BuildEdges;
    var e, nodes, source := BuildEdges(g, entry), BuildNodes(g, entry), Node(entry, false);
    var missed := set n | n in nodes && !Reaches(e, source, n);
    if missed != {} {
      forall n | n in missed ensures HasPredIn(e, missed, n) {
        Refl(e, source);
        HasPredecessor(g, entry, n);
        var a :| a in nodes && (a, n) in e;
        if Reaches(e, source, a) {
          Append(e, source, a, n);
        }
      }
      NoSourceMeansCycle(e, missed);
      BuildGraphAcyclic(g, entry);
    }
    forall n | n in nodes ensures Reaches(e, source, n) {
      assert n !in missed;
    }
  }

  // ---------------------------------------------------------------------
  // What the two passes of a component mean
  // ---------------------------------------------------------------------

  /** p is a walk from u to v inside u's component, step k of which is the only one that
      does not advance the breadth-first position. */
  ghost predicate OneReturn(g: Edges<string>, entry: string, p: seq<string>, k: nat, u: string, v: string) {
    var r := ReachableFrom(g, entry);
    && WalkBetween(g, p, u, v)
    && (forall x | x in p :: x in Class(g, r, u))
    && k < |p| - 1
    && forall i | 0 <= i < |p| - 1 :: i == k <==> Pos(g, r, entry, p[i]) >= Pos(g, r, entry, p[i + 1])
  }

  /** The builds along such a walk: the second pass starts after step k. */
  ghost function Lift(p: seq<string>, k: nat): (q: seq<Node>)
    ensures |q| == |p|
  {
    seq(|p|, i requires 0 <= i < |p| => Node(p[i], i > k))
  }

  lemma LiftWalks(g: Edges<string>, entry: string, p: seq<string>, k: nat, u: string, v: string)
    requires u in ReachableFrom(g, entry) && OneReturn(g, entry, p, k, u, v)
    ensures Reaches(BuildEdges(g, entry), Node(u, false), Node(v, true))
  {
    hide Pos, BuildEdges;
    var r, e, q := ReachableFrom(g, entry), BuildEdges(g, entry), Lift(p, k);
    forall i | 0 <= i < |q| - 1 ensures (q[i], q[i + 1]) in e {
      assert p[i] in p && p[i + 1] in p;
      MutualSteps(g, p[i], u, p[i + 1]);
      assert (p[i], p[i + 1]) in g;
      assert BuildEdge(g, r, entry, q[i], q[i + 1]);
      EdgeNodes(g, entry, q[i], q[i + 1]);
    }
    assert WalkBetween(e, q, Node(u, false), Node(v, true));
  }

  /** Walks of the build graph project to walks of the dependency relation. */
  lemma {:induction false} Projects(g: Edges<string>, entry: string, q: seq<Node>)
    requires Walk(BuildEdges(g, entry), q)
    ensures Reaches(g, q[0].pkg, q[|q| - 1].pkg)
    decreases |q|
  {
    if |q| == 1 {
      Refl(g, q[0].pkg);
    } else {
      assert (q[0], q[1]) in BuildEdges(g, entry);
      EdgeIsBuildEdge(g, entry, q[0], q[1]);
      Projects(g, entry, q[1..]);
      Prepend(g, q[0].pkg, q[1].pkg, q[|q| - 1].pkg);
    }
  }

  /** A walk that begins and ends in one component stays in it. */
  lemma StaysInside(g: Edges<string>, entry: string, q: seq<Node>, i: nat)
    requires Walk(BuildEdges(g, entry), q) && i < |q|
    requires Mutual(g, q[0].pkg, q[|q| - 1].pkg)
    ensures Mutual(g, q[0].pkg, q[i].pkg)
  {
    assert Walk(BuildEdges(g, entry), q[..i + 1]);
    Projects(g, entry, q[..i + 1]);
    Projects(g, entry, q[i..]);
    Trans(g, q[i].pkg, q[|q| - 1].pkg, q[0].pkg);
  }

  /** Inside a component an edge keeps the pass and advances, or goes from the first pass
      to the second without advancing. */
  lemma InsideEdge(g: Edges<string>, entry: string, a: Node, b: Node)
    requires (a, b) in BuildEdges(g, entry) && Mutual(g, a.pkg, b.pkg)
    ensures var r := ReachableFrom(g, entry);
            if Pos(g, r, entry, a.pkg) < Pos(g, r, entry, b.pkg) then a.second == b.second
            else !a.second && b.second
  {
    EdgeIsBuildEdge(g, entry, a, b);
  }

  /** A walk of the build graph all of whose packages are in u's component. */
  ghost predicate InsideWalk(g: Edges<string>, entry: string, u: string, q: seq<Node>) {
    Walk(BuildEdges(g, entry), q) && forall n | n in q :: Mutual(g, u, n.pkg)
  }

  lemma InsideTail(g: Edges<string>, entry: string, u: string, q: seq<Node>)
    requires InsideWalk(g, entry, u, q) && |q| > 1
    ensures InsideWalk(g, entry, u, q[1..])
    ensures q[0].second ==> q[1].second
  {
    hide Mutual, BuildEdges, Walk;
    WalkTail(BuildEdges(g, entry), q);
    assert q[0] in q && q[1] in q;
    assert q == [q[0]] + q[1..];
    InsideFlags(g, entry, u, q[0], q[1]);
  }

  lemma InsideFlags(g: Edges<string>, entry: string, u: string, a: Node, b: Node)
    requires (a, b) in BuildEdges(g, entry) && Mutual(g, u, a.pkg) && Mutual(g, u, b.pkg)
    ensures a.second ==> b.second
  {
    hide BuildEdges;
    MutualSymmetric(g, u, a.pkg);
    MutualSteps(g, a.pkg, u, b.pkg);
    InsideEdge(g, entry, a, b);
  }

  lemma MutualSymmetric(g: Edges<string>, u: string, v: string)
    requires Mutual(g, u, v)
    ensures Mutual(g, v, u)
  {
  }

  /** Along a walk inside a component the pass changes once, from first to second. */
  lemma {:induction false} PassChanges(g: Edges<string>, entry: string, q: seq<Node>, u: string) returns (k: nat)
    requires InsideWalk(g, entry, u, q) && |q| > 0 && !q[0].second && q[|q| - 1].second
    ensures k < |q| - 1 && forall i | 0 <= i < |q| :: q[i].second <==> i > k
    decreases |q|
  {
    hide InsideWalk;
    InsideTail(g, entry, u, q);
    var q' := q[1..];
    if q'[0].second {
      k := 0;
      SecondStays(g, entry, q', u);
      PassShifts(q, -1);
    } else {
      var k' := PassChanges(g, entry, q', u);
      k := k' + 1;
      PassShifts(q, k');
    }
  }

  lemma PassShifts(q: seq<Node>, k: int)
    requires |q| > 0 && !q[0].second && -1 <= k
    requires var q' := q[1..]; forall i | 0 <= i < |q'| :: q'[i].second <==> i > k
    ensures forall i | 0 <= i < |q| :: q[i].second <==> i > k + 1
  {
    forall i | 1 <= i < |q| ensures q[i].second <==> i > k + 1 {
      assert q[i] == q[1..][i - 1];
    }
  }

  lemma {:induction false} SecondStays(g: Edges<string>, entry: string, q: seq<Node>, u: string)
    requires InsideWalk(g, entry, u, q) && |q| > 0 && q[0].second
    ensures forall i | 0 <= i < |q| :: q[i].second
    decreases |q|
  {
    hide InsideWalk;
    if |q| > 1 {
      InsideTail(g, entry, u, q);
      var q' := q[1..];
      SecondStays(g, entry, q', u);
      assert forall i | 1 <= i < |q| :: q[i] == q'[i - 1];
    }
  }

  /** Step i of the projected walk p of q, whose pass changes at k. */
  ghost predicate ProjectedStep(g: Edges<string>, entry: string, q: seq<Node>, k: nat, i: nat)
    requires i + 1 < |q|
  {
    var r := ReachableFrom(g, entry);
    && (q[i].pkg, q[i + 1].pkg) in g && q[i].pkg in r && q[i + 1].pkg in r
    && (i == k <==> Pos(g, r, entry, q[i].pkg) >= Pos(g, r, entry, q[i + 1].pkg))
  }

  lemma ProjectStep(g: Edges<string>, entry: string, q: seq<Node>, u: string, k: nat, i: nat)
    requires Walk(BuildEdges(g, entry), q) && i + 1 < |q|
    requires forall n | n in q :: Mutual(g, u, n.pkg)
    requires forall j | 0 <= j < |q| :: q[j].second <==> j > k
    ensures ProjectedStep(g, entry, q, k, i)
  {
    assert (q[i], q[i + 1]) in BuildEdges(g, entry);
    EdgeIsBuildEdge(g, entry, q[i], q[i + 1]);
    MutualSteps(g, q[i].pkg, u, q[i + 1].pkg);
    InsideEdge(g, entry, q[i], q[i + 1]);
  }

  lemma WalkReturnsOnce(g: Edges<string>, entry: string, q: seq<Node>, u: string, v: string)
    requires u in ReachableFrom(g, entry) && v in ReachableFrom(g, entry) && Mutual(g, u, v)
    requires WalkBetween(BuildEdges(g, entry), q, Node(u, false), Node(v, true))
    ensures exists p, k :: OneReturn(g, entry, p, k, u, v)
  {
    hide BuildEdges, Reaches;
    var r := ReachableFrom(g, entry);
    forall n | n in q ensures Mutual(g, u, n.pkg) {
      var i :| 0 <= i < |q| && q[i] == n;
      StaysInside(g, entry, q, i);
    }
    var k := PassChanges(g, entry, q, u);
    forall i: nat | i + 1 < |q| ensures ProjectedStep(g, entry, q, k, i) {
      ProjectStep(g, entry, q, u, k, i);
    }
    ProjectedReturns(g, entry, q, k, u, v);
  }

  lemma ProjectedReturns(g: Edges<string>, entry: string, q: seq<Node>, k: nat, u: string, v: string)
    requires k + 1 < |q| && q[0].pkg == u && q[|q| - 1].pkg == v && u in ReachableFrom(g, entry)
    requires forall n | n in q :: Mutual(g, u, n.pkg)
    requires forall i: nat {:trigger ProjectedStep(g, entry, q, k, i)} | i + 1 < |q| :: ProjectedStep(g, entry, q, k, i)
    ensures exists p, k :: OneReturn(g, entry, p, k, u, v)
  {
    hide Pos, Reaches;
    var r := ReachableFrom(g, entry);
    var p := seq(|q|, i requires 0 <= i < |q| => q[i].pkg);
    forall i | 0 <= i < |p| - 1
      ensures (p[i], p[i + 1]) in g
      ensures i == k <==> Pos(g, r, entry, p[i]) >= Pos(g, r, entry, p[i + 1])
    {
      assert ProjectedStep(g, entry, q, k, i);
    }
    forall x | x in p ensures x in Class(g, r, u) {
      var i :| 0 <= i < |p| && p[i] == x;
      assert q[i] in q && q[i].pkg == x;
      Trans(g, entry, u, x);
    }
    assert OneReturn(g, entry, p, k, u, v);
  }

  /** The first build of u precedes the second build of v, in the same component, exactly
      when some dependency walk from u to v inside the component returns once. */
  lemma TwoPassMeaning(g: Edges<string>, entry: string, u: string, v: string)
    requires u in ReachableFrom(g, entry) && v in ReachableFrom(g, entry) && Mutual(g, u, v)
    ensures Reaches(BuildEdges(g, entry), Node(u, false), Node(v, true))
            <==> exists p, k :: OneReturn(g, entry, p, k, u, v)
  {
    hide BuildEdges, OneReturn;
    var e := BuildEdges(g, entry);
    if Reaches(e, Node(u, false), Node(v, true)) {
      var q :| WalkBetween(e, q, Node(u, false), Node(v, true));
      WalkReturnsOnce(g, entry, q, u, v);
    }
    if p, k :| OneReturn(g, entry, p, k, u, v) {
      LiftWalks(g, entry, p, k, u, v);
    }
  }

  // ---------------------------------------------------------------------
  // The promise of the header comment that the code does not keep
  // ---------------------------------------------------------------------

  /** A direct edge from a package's first build to its second exists only for self-loops. */
  lemma DirectSecondPass(g: Edges<string>, entry: string, u: string)
    requires u in ReachableFrom(g, entry)
    ensures (Node(u, false), Node(u, true)) in BuildEdges(g, entry) <==> (u, u) in g
  {
    Refl(g, u);
    if (u, u) in g {
      EdgeNodes(g, entry, Node(u, false), Node(u, true));
    }
  }

  /** A component of three packages in which one package's second build does not wait for
      its first: a points at b and c, b at a, and c at b. */
  const THREE: Deps := map["a" := ["b", "c"], "b" := ["a"], "c" := ["b"]]

  lemma ThreeEdges()
    ensures EdgesOf(THREE) == {("a", "b"), ("a", "c"), ("b", "a"), ("c", "b")}
  {
    var g := EdgesOf(THREE);
    forall u, v ensures (u, v) in g <==> (u, v) in {("a", "b"), ("a", "c"), ("b", "a"), ("c", "b")} {
      assert (u, v) in g <==> v in Successors(THREE, u);
    }
    forall e ensures e in g <==> e in {("a", "b"), ("a", "c"), ("b", "a"), ("c", "b")} {
      assert (e.0, e.1) == e;
    }
  }

  lemma ThreeClass()
    ensures var g := EdgesOf(THREE);
            && ReachableFrom(g, "a") == {"a", "b", "c"}
            && Class(g, ReachableFrom(g, "a"), "a") == {"a", "b", "c"}
            && Class(g, ReachableFrom(g, "a"), "b") == {"a", "b", "c"}
            && Mutual(g, "c", "b") && Mutual(g, "b", "a") && Mutual(g, "a", "c") && Mutual(g, "b", "c")
  {
    hide EdgesOf, Reaches;
    var g := EdgesOf(THREE);
    ThreeEdges();
    Refl(g, "a");
    Step(g, "a", "b");
    Step(g, "a", "c");
    Step(g, "b", "a");
    Step(g, "c", "b");
    Trans(g, "c", "b", "a");
    Trans(g, "b", "a", "c");
    assert Closed(g, {"a", "b", "c"});
    forall v | v in ReachableFrom(g, "a") ensures v in {"a", "b", "c"} {
      ClosedReaches(g, {"a", "b", "c"}, "a", v);
    }
    SameClass(g, ReachableFrom(g, "a"), "a", "b");
  }

  lemma ThreeNeighbours(g: Edges<string>, c: set<string>)
    requires g == {("a", "b"), ("a", "c"), ("b", "a"), ("c", "b")} && c == {"a", "b", "c"}
    ensures Ready(c, [], ["a"]) && NewNeighbours(g, c, [], ["a"]) == {"b", "c"}
  {
    forall v ensures v in NewNeighbours(g, c, [], ["a"]) <==> v in {"b", "c"} {
      assert ("a", v) in g <==> v in {"b", "c"};
    }
  }

  lemma RunFirst(g: Edges<string>, c: set<string>, done: seq<string>, pending: seq<string>)
    requires Ready(c, done, pending) && pending != []
    ensures var rest := pending[1..] + Enumerate(NewNeighbours(g, c, done, pending));
      Ready(c, done + [pending[0]], rest) && Run(g, c, done, pending) == Run(g, c, done + [pending[0]], rest)
  {
    hide Enumerate, NewNeighbours, Ready;
    ReadyStep(g, c, done, pending);
  }

  lemma ThreeRun(g: Edges<string>, c: set<string>)
    requires Ready(c, [], ["a"]) && NewNeighbours(g, c, [], ["a"]) == {"b", "c"}
    ensures ["a", "b"] <= Run(g, c, [], ["a"])
  {
    BeforeC();
    IncreasingUnique(["b", "c"], Enumerate({"b", "c"}));
    hide *;
    RunFirst(g, c, [], ["a"]);
    assert [] + ["a"] == ["a"] && ["a"][1..] + ["b", "c"] == ["b", "c"];
    ThreeRunNext(g, c);
  }

  lemma BeforeC()
    ensures Increasing(["b", "c"]) && Elems(["b", "c"]) == {"b", "c"}
  {
    assert Less("b", "c");
  }

  lemma ThreeRunNext(g: Edges<string>, c: set<string>)
    requires Ready(c, ["a"], ["b", "c"])
    ensures ["a", "b"] <= Run(g, c, ["a"], ["b", "c"])
  {
    hide *;
    RunFirst(g, c, ["a"], ["b", "c"]);
    var rest := ["b", "c"][1..] + Enumerate(NewNeighbours(g, c, ["a"], ["b", "c"]));
    assert ["a"] + ["b"] == ["a", "b"];
    RunDistinct(g, c, ["a", "b"], rest);
  }

  lemma ThreeOrder()
    ensures var g := EdgesOf(THREE);
            var r := ReachableFrom(g, "a");
            Pos(g, r, "a", "a") == 0 && Pos(g, r, "a", "b") == 1 && Pos(g, r, "a", "c") > 1
  {
    hide Run, Fresh, Enumerate, Pos, EdgesOf, Reaches, ComponentOrder, Order, Parented;
    var g := EdgesOf(THREE);
    var r := ReachableFrom(g, "a");
    ThreeEdges();
    ThreeClass();
    var c := Class(g, r, "a");
    OrderComplete(g, "a", "a");
    FreshOne("a");
    ThreeNeighbours(g, c);
    ThreeRun(g, c);
    var order := ComponentOrder(g, r, c, "a");
    assert order[0] == ["a", "b"][0] && order[1] == ["a", "b"][1];
    PosOfIndex(g, "a", "a", 0);
    PosOfIndex(g, "a", "a", 1);
    ThreeLast(g);
  }

  lemma FreshOne(x: string)
    ensures Fresh([x], {}) == [x]
  {
  }

  lemma ThreeLast(g: Edges<string>)
    requires {"a", "b", "c"} <= ReachableFrom(g, "a") && Mutual(g, "a", "c") && Mutual(g, "b", "c")
    requires Pos(g, ReachableFrom(g, "a"), "a", "a") == 0 && Pos(g, ReachableFrom(g, "a"), "a", "b") == 1
    ensures Pos(g, ReachableFrom(g, "a"), "a", "c") > 1
  {
    hide Pos, Reaches;
    if Pos(g, ReachableFrom(g, "a"), "a", "c") == 0 {
      PosInjective(g, "a", "a", "c");
    } else if Pos(g, ReachableFrom(g, "a"), "a", "c") == 1 {
      PosInjective(g, "a", "b", "c");
    }
  }

  /** In that component c is built twice and nothing orders its two builds. */
  lemma SecondBuildMayComeFirst()
    ensures var g := EdgesOf(THREE);
            var n1, n2 := Node("c", false), Node("c", true);
            && n1 in BuildNodes(g, "a") && n2 in BuildNodes(g, "a")
            && !Reaches(BuildEdges(g, "a"), n1, n2)
  {
    hide Pos, Reaches, EdgesOf, BuildEdges;
    var g := EdgesOf(THREE);
    var e := BuildEdges(g, "a");
    var d := {Node("c", false), Node("b", true)};
    ThreeEdges();
    ThreeClass();
    EdgeInClassCyclic(g, "c", "b");
    forall x, y | (x, y) in e && x in d ensures y in d {
      ThreeStep(x, y);
    }
    if Reaches(e, Node("c", false), Node("c", true)) {
      ClosedReaches(e, d, Node("c", false), Node("c", true));
    }
  }

  lemma ThreeStep(x: Node, y: Node)
    requires (x, y) in BuildEdges(EdgesOf(THREE), "a")
    requires x == Node("c", false) || x == Node("b", true)
    ensures y == Node("b", true)
  {
    hide Pos, Reaches, EdgesOf;
    var g := EdgesOf(THREE);
    ThreeEdges();
    ThreeClass();
    ThreeOrder();
    EdgeIsBuildEdge(g, "a", x, y);
    assert (x.pkg, y.pkg) in g;
  }
}
