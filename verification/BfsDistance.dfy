/** The positions inside a component, said with walks: nearer packages come first, and ties
    are broken by the position of the earliest predecessor, then by name.
 */
module BfsDistance {
  import opened Strings
  import opened Graph
  import opened Dependencies
  import opened TarjanInvariant
  import opened BfsOrder
  import opened BuildGraph

  // ---------------------------------------------------------------------
  // Distance by walks
  // ---------------------------------------------------------------------

  /** u and v are reachable and in one component. */
  ghost predicate Together(g: Edges<string>, entry: string, u: string, v: string) {
    Reaches(g, entry, u) && Mutual(g, u, v)
  }

  /** The visit of u's component starts at x: at the entry, or else wherever a reachable
      package of another component points into it. */
  ghost predicate Source(g: Edges<string>, entry: string, u: string, x: string) {
    && Together(g, entry, u, x)
    && if Mutual(g, u, entry) then x == entry
       else exists o :: Reaches(g, entry, o) && !Mutual(g, u, o) && (o, x) in g
  }

  /** p is a walk of n edges inside u's component from a start of its visit to v. */
  ghost predicate InnerWalk(g: Edges<string>, entry: string, u: string, p: seq<string>, n: nat, v: string) {
    && |p| == n + 1 && Walk(g, p) && (forall x | x in p :: Together(g, entry, u, x))
    && Source(g, entry, u, p[0]) && p[n] == v
  }

  ghost predicate InSteps(g: Edges<string>, entry: string, u: string, n: nat, v: string) {
    exists p :: InnerWalk(g, entry, u, p, n, v)
  }

  /** A shortest such walk to v has n edges. */
  ghost predicate Distance(g: Edges<string>, entry: string, v: string, n: nat) {
    InSteps(g, entry, v, n, v) && forall m: nat | m < n :: !InSteps(g, entry, v, m, v)
  }

  // ---------------------------------------------------------------------
  // The shape of a breadth-first visit
  // ---------------------------------------------------------------------

  /** f[k] is the first of f with an edge to x. */
  ghost predicate FirstAt(g: Edges<string>, f: seq<string>, k: nat, x: string) {
    k < |f| && (f[k], x) in g && forall i | 0 <= i < k :: (f[i], x) !in g
  }

  /** f[j] was found by one of the first n. */
  ghost predicate FoundBy(g: Edges<string>, f: seq<string>, n: nat, j: nat)
    requires j < |f|
  {
    exists k: nat :: k < n && k < j && FirstAt(g, f, k, f[j])
  }

  /** After the first s, names come in the order of those that found them, then by name. */
  ghost predicate InTurn(g: Edges<string>, f: seq<string>, s: nat) {
    forall i, j, k: nat, l: nat | s <= i < j < |f| && FirstAt(g, f, k, f[i]) && FirstAt(g, f, l, f[j]) ::
      k < l || (k == l && Less(f[i], f[j]))
  }

  /** f starts with the starts; the first n of f have been visited. */
  ghost predicate Breadth(g: Edges<string>, starts: seq<string>, f: seq<string>, n: nat) {
    && starts <= f && n <= |f|
    && (forall j {:trigger FoundBy(g, f, n, j)} | |starts| <= j < |f| :: FoundBy(g, f, n, j))
    && InTurn(g, f, |starts|)
  }

  lemma FirstUnique(g: Edges<string>, f: seq<string>, k: nat, l: nat, x: string)
    requires FirstAt(g, f, k, x) && FirstAt(g, f, l, x)
    ensures k == l
  {
  }

  lemma FirstExtends(g: Edges<string>, f: seq<string>, b: seq<string>, k: nat, x: string)
    ensures k < |f| ==> (FirstAt(g, f + b, k, x) <==> FirstAt(g, f, k, x))
  {
    if k < |f| {
      assert forall i | 0 <= i <= k :: (f + b)[i] == f[i];
    }
  }

  /** Visiting f[n] appends names that it points at and nothing before it does. */
  lemma BreadthStep(g: Edges<string>, starts: seq<string>, f: seq<string>, n: nat, added: seq<string>)
    requires Breadth(g, starts, f, n) && n < |f| && Increasing(added)
    requires forall x | x in added :: FirstAt(g, f, n, x)
    ensures Breadth(g, starts, f + added, n + 1)
  {
    hide FirstAt;
    var h := f + added;
    forall j {:trigger FoundBy(g, h, n + 1, j)} | |starts| <= j < |h| ensures FoundBy(g, h, n + 1, j) {
      if j < |f| {
        assert FoundBy(g, f, n, j);
        var k: nat :| k < n && k < j && FirstAt(g, f, k, f[j]);
        FirstExtends(g, f, added, k, f[j]);
      } else {
        assert h[j] in added;
        FirstExtends(g, f, added, n, h[j]);
      }
    }
    forall i, j, k: nat, l: nat | |starts| <= i < j < |h| && FirstAt(g, h, k, h[i]) && FirstAt(g, h, l, h[j])
      ensures k < l || (k == l && Less(h[i], h[j]))
    {
      StepInTurn(g, starts, f, n, added, i, j, k, l);
    }
  }

  lemma StepInTurn(g: Edges<string>, starts: seq<string>, f: seq<string>, n: nat, added: seq<string>, i: nat, j: nat, k: nat, l: nat)
    requires Breadth(g, starts, f, n) && n < |f| && Increasing(added)
    requires forall x | x in added :: FirstAt(g, f, n, x)
    requires var h := f + added; |starts| <= i < j < |h| && FirstAt(g, h, k, h[i]) && FirstAt(g, h, l, h[j])
    ensures k < l || (k == l && Less((f + added)[i], (f + added)[j]))
  {
    hide FirstAt;
    var h := f + added;
    FinderOf(g, starts, f, n, added, i, k);
    FinderOf(g, starts, f, n, added, j, l);
    if j < |f| {
      FirstExtends(g, f, added, k, f[i]);
      FirstExtends(g, f, added, l, f[j]);
    } else if i >= |f| {
      assert h[i] == added[i - |f|] && h[j] == added[j - |f|];
    }
  }

  lemma FinderOf(g: Edges<string>, starts: seq<string>, f: seq<string>, n: nat, added: seq<string>, j: nat, k: nat)
    requires Breadth(g, starts, f, n) && n < |f|
    requires forall x | x in added :: FirstAt(g, f, n, x)
    requires |starts| <= j < |f + added| && FirstAt(g, f + added, k, (f + added)[j])
    ensures if j < |f| then k < n else k == n
  {
    hide FirstAt;
    var h := f + added;
    if j < |f| {
      assert FoundBy(g, f, n, j);
      var m: nat :| m < n && m < j && FirstAt(g, f, m, f[j]);
      FirstExtends(g, f, added, m, f[j]);
      FirstUnique(g, h, k, m, h[j]);
    } else {
      assert h[j] in added;
      FirstExtends(g, f, added, n, h[j]);
      FirstUnique(g, h, k, n, h[j]);
    }
  }

  /** The nodes that a visit adds are found by the one visited. */
  lemma NewFound(g: Edges<string>, allowed: set<string>, done: seq<string>, pending: seq<string>, x: string)
    requires pending != [] && Scanned(g, allowed, done, pending) && x in NewNeighbours(g, allowed, done, pending)
    ensures FirstAt(g, done + pending, |done|, x)
  {
    var f := done + pending;
    assert f[|done|] == pending[0];
    forall i | 0 <= i < |done| ensures (f[i], x) !in g {
      assert f[i] == done[i] && done[i] in done;
    }
  }

  lemma {:induction false} RunBreadth(g: Edges<string>, allowed: set<string>, starts: seq<string>, done: seq<string>, pending: seq<string>)
    requires Ready(allowed, done, pending) && Scanned(g, allowed, done, pending)
    requires Breadth(g, starts, done + pending, |done|)
    ensures Breadth(g, starts, Run(g, allowed, done, pending), |Run(g, allowed, done, pending)|)
    decreases |allowed - Elems(done)|
  {
    hide Breadth, Ready, Scanned, NewNeighbours, Enumerate, FirstAt;
    if pending == [] {
      assert done + pending == done;
    } else {
      var s := NewNeighbours(g, allowed, done, pending);
      var added := Enumerate(s);
      EnumerateElems(s);
      ReadyStep(g, allowed, done, pending);
      ScannedStep(g, allowed, done, pending);
      forall x | x in added ensures FirstAt(g, done + pending, |done|, x) {
        NewFound(g, allowed, done, pending, x);
      }
      BreadthStep(g, starts, done + pending, |done|, added);
      assert done + pending + added == (done + [pending[0]]) + (pending[1..] + added);
      RunBreadth(g, allowed, starts, done + [pending[0]], pending[1..] + added);
    }
  }

  // ---------------------------------------------------------------------
  // From the shape to the distance
  // ---------------------------------------------------------------------

  /** p is a walk of n edges inside c from one of the starts to v. */
  ghost predicate WalkFrom(g: Edges<string>, c: set<string>, starts: seq<string>, p: seq<string>, n: nat, v: string) {
    |p| == n + 1 && Walk(g, p) && (forall x | x in p :: x in c) && p[0] in starts && p[n] == v
  }

  ghost predicate StepsFrom(g: Edges<string>, c: set<string>, starts: seq<string>, n: nat, v: string) {
    exists p :: WalkFrom(g, c, starts, p, n, v)
  }

  lemma OneMore(g: Edges<string>, c: set<string>, starts: seq<string>, n: nat, u: string, v: string)
    requires StepsFrom(g, c, starts, n, u) && (u, v) in g && v in c
    ensures StepsFrom(g, c, starts, n + 1, v)
  {
    var p :| WalkFrom(g, c, starts, p, n, u);
    var q := p + [v];
    assert forall i | 0 <= i < |q| - 1 :: (q[i], q[i + 1]) in g by {
      forall i | 0 <= i < |q| - 1 ensures (q[i], q[i + 1]) in g {
        assert i < n ==> (p[i], p[i + 1]) in g;
      }
    }
    assert WalkFrom(g, c, starts, q, n + 1, v);
  }

  lemma OneLess(g: Edges<string>, c: set<string>, starts: seq<string>, n: nat, v: string) returns (u: string)
    requires StepsFrom(g, c, starts, n, v) && v !in starts
    ensures n > 0 && StepsFrom(g, c, starts, n - 1, u) && (u, v) in g && u in c
  {
    var p :| WalkFrom(g, c, starts, p, n, v);
    assert n > 0;
    u := p[n - 1];
    assert (p[n - 1], p[n]) in g;
    assert WalkFrom(g, c, starts, p[..n], n - 1, u);
  }

  /** f is a complete breadth-first visit of c. */
  ghost predicate Visit(g: Edges<string>, c: set<string>, starts: seq<string>, f: seq<string>) {
    Breadth(g, starts, f, |f|) && Distinct(f) && forall x :: x in f <==> x in c
  }

  lemma StartsFirst(g: Edges<string>, c: set<string>, starts: seq<string>, f: seq<string>, j: nat)
    requires Visit(g, c, starts, f) && j < |f|
    ensures f[j] in starts <==> j < |starts|
  {
    assert forall i | 0 <= i < |starts| :: starts[i] == f[i];
  }

  lemma StartsAreNear(g: Edges<string>, c: set<string>, starts: seq<string>, f: seq<string>, j: nat)
    requires Visit(g, c, starts, f) && j < |starts|
    ensures j < |f| && StepsFrom(g, c, starts, 0, f[j])
  {
    assert f[j] == starts[j] && f[j] in f;
    assert WalkFrom(g, c, starts, [f[j]], 0, f[j]);
  }

  lemma Finder(g: Edges<string>, c: set<string>, starts: seq<string>, f: seq<string>, j: nat) returns (k: nat)
    requires Visit(g, c, starts, f) && |starts| <= j < |f|
    ensures k < j && FirstAt(g, f, k, f[j])
  {
    assert FoundBy(g, f, |f|, j);
    k :| k < |f| && k < j && FirstAt(g, f, k, f[j]);
  }

  /** Whatever comes before a node is at most as far from the starts. */
  lemma {:induction false} EarlierIsNearer(g: Edges<string>, c: set<string>, starts: seq<string>, f: seq<string>, i: nat, j: nat, n: nat) returns (m: nat)
    requires Visit(g, c, starts, f) && i <= j < |f| && StepsFrom(g, c, starts, n, f[j])
    ensures m <= n && StepsFrom(g, c, starts, m, f[i])
    decreases n
  {
    hide Breadth, FirstAt, StepsFrom;
    if i == j {
      m := n;
    } else if i < |starts| {
      StartsAreNear(g, c, starts, f, i);
      m := 0;
    } else {
      StartsFirst(g, c, starts, f, j);
      var w := OneLess(g, c, starts, n, f[j]);
      var k := Finder(g, c, starts, f, i);
      var l := Finder(g, c, starts, f, j);
      var b: nat :| b < |f| && f[b] == w;
      FoundInTurn(g, c, starts, f, i, j, k, l);
      FirstBefore(g, f, l, b, f[j]);
      var m' := EarlierIsNearer(g, c, starts, f, k, b, n - 1);
      FirstHasEdge(g, f, k, f[i]);
      assert f[i] in f;
      OneMore(g, c, starts, m', f[k], f[i]);
      m := m' + 1;
    }
  }

  lemma FoundInTurn(g: Edges<string>, c: set<string>, starts: seq<string>, f: seq<string>, i: nat, j: nat, k: nat, l: nat)
    requires Visit(g, c, starts, f) && |starts| <= i < j < |f| && FirstAt(g, f, k, f[i]) && FirstAt(g, f, l, f[j])
    ensures k < l || (k == l && Less(f[i], f[j]))
  {
    hide FirstAt;
  }

  lemma FirstBefore(g: Edges<string>, f: seq<string>, l: nat, b: nat, x: string)
    requires FirstAt(g, f, l, x) && b < |f| && (f[b], x) in g
    ensures l <= b
  {
  }

  lemma FirstHasEdge(g: Edges<string>, f: seq<string>, k: nat, x: string)
    requires FirstAt(g, f, k, x)
    ensures k < |f| && (f[k], x) in g
  {
  }

  lemma {:induction false} SomeSteps(g: Edges<string>, c: set<string>, starts: seq<string>, f: seq<string>, j: nat) returns (n: nat)
    requires Visit(g, c, starts, f) && j < |f|
    ensures StepsFrom(g, c, starts, n, f[j])
  {
    hide Breadth, FirstAt, StepsFrom;
    if j < |starts| {
      StartsAreNear(g, c, starts, f, j);
      n := 0;
    } else {
      var k := Finder(g, c, starts, f, j);
      var m := SomeSteps(g, c, starts, f, k);
      FirstHasEdge(g, f, k, f[j]);
      assert f[j] in f;
      OneMore(g, c, starts, m, f[k], f[j]);
      n := m + 1;
    }
  }

  lemma {:induction false} Shortest(g: Edges<string>, entry: string, v: string, n: nat) returns (m: nat)
    requires InSteps(g, entry, v, n, v)
    ensures m <= n && Distance(g, entry, v, m)
  {
    hide InSteps;
    if k: nat :| k < n && InSteps(g, entry, v, k, v) {
      m := Shortest(g, entry, v, k);
    } else {
      m := n;
    }
  }

  // ---------------------------------------------------------------------
  // Positions
  // ---------------------------------------------------------------------

  ghost function Starts(g: Edges<string>, entry: string, u: string): seq<string> {
    Fresh(StartsOf(g, ReachableFrom(g, entry), entry, u), {})
  }

  lemma SourceIff(g: Edges<string>, entry: string, u: string, x: string)
    requires u in ReachableFrom(g, entry)
    ensures Source(g, entry, u, x) <==> x in Starts(g, entry, u)
  {
    hide Reaches;
    var r := ReachableFrom(g, entry);
    var c := Class(g, r, u);
    Refl(g, entry);
    EnumerateElems(Gateways(g, r, c));
    TogetherIff(g, entry, u, x);
    if !Mutual(g, u, entry) && x in c {
      if o :| Reaches(g, entry, o) && !Mutual(g, u, o) && (o, x) in g {
        assert Entered(g, r, c, x);
      }
      if Entered(g, r, c, x) {
        var o :| o in r && o !in c && (o, x) in g;
      }
    }
  }

  lemma TogetherIff(g: Edges<string>, entry: string, u: string, x: string)
    requires u in ReachableFrom(g, entry)
    ensures Together(g, entry, u, x) <==> x in Class(g, ReachableFrom(g, entry), u)
  {
    if Mutual(g, u, x) {
      Trans(g, entry, u, x);
    }
  }

  lemma StepsIff(g: Edges<string>, entry: string, u: string, n: nat, v: string)
    requires u in ReachableFrom(g, entry)
    ensures InSteps(g, entry, u, n, v) <==> StepsFrom(g, Class(g, ReachableFrom(g, entry), u), Starts(g, entry, u), n, v)
  {
    hide Starts, Source, Together, Class;
    var c, starts := Class(g, ReachableFrom(g, entry), u), Starts(g, entry, u);
    forall p: seq<string>
      ensures InnerWalk(g, entry, u, p, n, v) <==> WalkFrom(g, c, starts, p, n, v)
    {
      forall x
        ensures Together(g, entry, u, x) <==> x in c
        ensures Source(g, entry, u, x) <==> x in starts
      {
        TogetherIff(g, entry, u, x);
        SourceIff(g, entry, u, x);
      }
    }
  }

  lemma OrderVisits(g: Edges<string>, entry: string, u: string)
    requires u in ReachableFrom(g, entry)
    ensures var r := ReachableFrom(g, entry);
      Visit(g, Class(g, r, u), Starts(g, entry, u), ComponentOrder(g, r, Class(g, r, u), entry))
  {
    hide Breadth, Order, Ready, Fresh, Parented, Reaches, ComponentOrder, Run, StartsOf, Class;
    var r := ReachableFrom(g, entry);
    var c, starts := Class(g, r, u), Starts(g, entry, u);
    OrderComplete(g, entry, u);
    OrderDistinct(g, entry, u);
    BreadthAtFirst(g, starts);
    assert [] + starts == starts;
    RunBreadth(g, c, starts, [], starts);
    var f := ComponentOrder(g, r, c, entry);
    assert forall x :: x in f <==> x in Elems(f);
  }

  lemma BreadthAtFirst(g: Edges<string>, starts: seq<string>)
    ensures Breadth(g, starts, starts, 0)
  {
  }

  /** What the theorems need of two members of one component. */
  lemma PairFacts(g: Edges<string>, entry: string, u: string, v: string) returns (c: set<string>, starts: seq<string>, f: seq<string>)
    requires Together(g, entry, u, v)
    ensures Visit(g, c, starts, f)
    ensures var r := ReachableFrom(g, entry);
      && Pos(g, r, entry, u) < |f| && f[Pos(g, r, entry, u)] == u
      && Pos(g, r, entry, v) < |f| && f[Pos(g, r, entry, v)] == v
    ensures forall n: nat :: InSteps(g, entry, u, n, u) <==> StepsFrom(g, c, starts, n, u)
    ensures forall n: nat :: InSteps(g, entry, v, n, v) <==> StepsFrom(g, c, starts, n, v)
    ensures starts == Starts(g, entry, u) == Starts(g, entry, v)
    ensures forall x :: x in c <==> Together(g, entry, u, x)
    ensures f == ComponentOrder(g, ReachableFrom(g, entry), c, entry)
  {
    hide Visit, InSteps, StepsFrom, ComponentOrder, Class, Pos, Reaches;
    var r := ReachableFrom(g, entry);
    assert Reaches(g, entry, v) by { Trans(g, entry, u, v); }
    SameClass(g, r, u, v);
    OrderVisits(g, entry, u);
    PosInOrder(g, entry, u);
    PosInOrder(g, entry, v);
    forall n: nat
      ensures InSteps(g, entry, u, n, u) <==> StepsFrom(g, Class(g, r, u), Starts(g, entry, u), n, u)
      ensures InSteps(g, entry, v, n, v) <==> StepsFrom(g, Class(g, r, v), Starts(g, entry, v), n, v)
    {
      StepsIff(g, entry, u, n, u);
      StepsIff(g, entry, v, n, v);
    }
    forall x
      ensures x in Class(g, r, u) <==> Together(g, entry, u, x)
    {
      TogetherIff(g, entry, u, x);
    }
    c, starts, f := Class(g, r, u), Starts(g, entry, u), ComponentOrder(g, r, Class(g, r, u), entry);
  }

  /** Every reachable package has a distance. */
  lemma HasDistance(g: Edges<string>, entry: string, v: string) returns (n: nat)
    requires Reaches(g, entry, v)
    ensures Distance(g, entry, v, n)
  {
    hide InSteps, StepsFrom, Pos, ComponentOrder;
    Refl(g, v);
    var c, starts, f := PairFacts(g, entry, v, v);
    var m := SomeSteps(g, c, starts, f, Pos(g, ReachableFrom(g, entry), entry, v));
    n := Shortest(g, entry, v, m);
  }

  /** Inside a component nearer packages come first. */
  lemma NearerFirst(g: Edges<string>, entry: string, u: string, v: string, m: nat, n: nat)
    requires Together(g, entry, u, v) && Distance(g, entry, u, m) && Distance(g, entry, v, n) && m < n
    ensures Pos(g, ReachableFrom(g, entry), entry, u) < Pos(g, ReachableFrom(g, entry), entry, v)
  {
    hide InSteps, StepsFrom, Pos, ComponentOrder, Visit;
    var c, starts, f := PairFacts(g, entry, u, v);
    var r := ReachableFrom(g, entry);
    if Pos(g, r, entry, v) <= Pos(g, r, entry, u) {
      var k := EarlierIsNearer(g, c, starts, f, Pos(g, r, entry, v), Pos(g, r, entry, u), m);
    }
  }

  /** The starts come first, in byte order. */
  lemma SourcesFirst(g: Edges<string>, entry: string, u: string, v: string)
    requires Together(g, entry, u, v) && Source(g, entry, u, u)
    ensures var r := ReachableFrom(g, entry);
      Pos(g, r, entry, u) < Pos(g, r, entry, v) <==> !Source(g, entry, v, v) || Less(u, v)
  {
    hide InSteps, StepsFrom, Pos, ComponentOrder, Visit, Source, Starts;
    var c, starts, f := PairFacts(g, entry, u, v);
    var r := ReachableFrom(g, entry);
    var i, j := Pos(g, r, entry, u), Pos(g, r, entry, v);
    BothReached(g, entry, u, v);
    SourceIff(g, entry, u, u);
    SourceIff(g, entry, v, v);
    StartsFirst(g, c, starts, f, i);
    StartsFirst(g, c, starts, f, j);
    StartsIncrease(g, entry, u);
    StartsPrefix(g, c, starts, f);
    if j < |starts| {
      assert starts[i] == u && starts[j] == v;
      LessIrreflexive(u);
      if j < i && Less(u, v) {
        LessTransitive(u, v, u);
      }
    }
  }

  lemma StartsPrefix(g: Edges<string>, c: set<string>, starts: seq<string>, f: seq<string>)
    requires Visit(g, c, starts, f)
    ensures starts <= f
  {
  }

  lemma StartsIncrease(g: Edges<string>, entry: string, u: string)
    ensures Increasing(Starts(g, entry, u))
  {
    var starts := StartsOf(g, ReachableFrom(g, entry), entry, u);
    forall i, j | 0 <= i <= j < |starts| ensures AtMost(starts[i], starts[j]) {
    }
    FreshIncreasing(starts, {});
  }

  /** w is the first predecessor of v in the component. */
  ghost predicate FoundFrom(g: Edges<string>, entry: string, v: string, w: string) {
    && Together(g, entry, v, w) && (w, v) in g
    && forall x | Together(g, entry, v, x) && (x, v) in g ::
         Pos(g, ReachableFrom(g, entry), entry, w) <= Pos(g, ReachableFrom(g, entry), entry, x)
  }

  ghost function OrderOf(g: Edges<string>, entry: string, v: string): seq<string> {
    ComponentOrder(g, ReachableFrom(g, entry), Class(g, ReachableFrom(g, entry), v), entry)
  }

  lemma BothReached(g: Edges<string>, entry: string, u: string, v: string)
    requires Together(g, entry, u, v)
    ensures Reaches(g, entry, u) && Mutual(g, u, v) && Reaches(g, entry, v)
  {
    Trans(g, entry, u, v);
  }

  lemma ClassOrder(g: Edges<string>, entry: string, u: string, c: set<string>)
    requires Reaches(g, entry, u) && forall x :: x in c <==> Together(g, entry, u, x)
    ensures ComponentOrder(g, ReachableFrom(g, entry), c, entry) == OrderOf(g, entry, u)
  {
    hide ComponentOrder, Reaches;
    forall x
      ensures x in c <==> x in Class(g, ReachableFrom(g, entry), u)
    {
      TogetherIff(g, entry, u, x);
    }
    assert c == Class(g, ReachableFrom(g, entry), u);
  }

  lemma FoundIsFirst(g: Edges<string>, entry: string, v: string, w: string)
    requires Reaches(g, entry, v) && FoundFrom(g, entry, v, w)
    ensures var f, k := OrderOf(g, entry, v), Pos(g, ReachableFrom(g, entry), entry, w);
      FirstAt(g, f, k, v) && f[k] == w
  {
    hide ComponentOrder, Pos, Reaches;
    var r, f := ReachableFrom(g, entry), OrderOf(g, entry, v);
    BothReached(g, entry, v, w);
    SameClass(g, r, v, w);
    PosInOrder(g, entry, w);
    var k := Pos(g, r, entry, w);
    forall i: nat | i < k
      ensures (f[i], v) !in g
    {
      PosOfIndex(g, entry, v, i);
      TogetherIff(g, entry, v, f[i]);
    }
  }

  /** Every member but the starts has a first predecessor, which comes before it. */
  lemma FoundEarlier(g: Edges<string>, entry: string, v: string) returns (w: string)
    requires Reaches(g, entry, v) && !Source(g, entry, v, v)
    ensures FoundFrom(g, entry, v, w)
    ensures Pos(g, ReachableFrom(g, entry), entry, w) < Pos(g, ReachableFrom(g, entry), entry, v)
  {
    hide InSteps, StepsFrom, Pos, ComponentOrder, Visit, Source, Starts, FirstAt, Reaches;
    var r, f := ReachableFrom(g, entry), OrderOf(g, entry, v);
    Refl(g, v);
    OrderVisits(g, entry, v);
    PosInOrder(g, entry, v);
    SourceIff(g, entry, v, v);
    StartsFirst(g, Class(g, r, v), Starts(g, entry, v), f, Pos(g, r, entry, v));
    var k := Finder(g, Class(g, r, v), Starts(g, entry, v), f, Pos(g, r, entry, v));
    w := f[k];
    FirstHasEdge(g, f, k, v);
    PosOfIndex(g, entry, v, k);
    TogetherIff(g, entry, v, w);
    forall x | Together(g, entry, v, x) && (x, v) in g
      ensures k <= Pos(g, r, entry, x)
    {
      BothReached(g, entry, v, x);
      SameClass(g, r, v, x);
      PosInOrder(g, entry, x);
      FirstBefore(g, f, k, Pos(g, r, entry, x), v);
    }
  }

  /** Every other member comes in the order of those first predecessors, and those with the
      same one in byte order. Together with SourcesFirst this determines all positions. */
  lemma InOrderFound(g: Edges<string>, entry: string, u: string, v: string, a: string, b: string)
    requires Together(g, entry, u, v) && !Source(g, entry, u, u) && !Source(g, entry, v, v)
    requires FoundFrom(g, entry, u, a) && FoundFrom(g, entry, v, b)
    ensures var r := ReachableFrom(g, entry);
      Pos(g, r, entry, u) < Pos(g, r, entry, v) <==>
        Pos(g, r, entry, a) < Pos(g, r, entry, b) || (a == b && Less(u, v))
  {
    hide InSteps, StepsFrom, Pos, ComponentOrder, Visit, Source, Starts, FoundFrom, Together, FirstAt;
    var r := ReachableFrom(g, entry);
    var c, starts, f := PairFacts(g, entry, u, v);
    var i, j, k, l := Pos(g, r, entry, u), Pos(g, r, entry, v), Pos(g, r, entry, a), Pos(g, r, entry, b);
    BothReached(g, entry, u, v);
    SourceIff(g, entry, u, u);
    SourceIff(g, entry, v, v);
    StartsFirst(g, c, starts, f, i);
    StartsFirst(g, c, starts, f, j);
    FoundIsFirst(g, entry, u, a);
    FoundIsFirst(g, entry, v, b);
    SameClass(g, r, u, v);
    ClassOrder(g, entry, u, c);
    LessIrreflexive(u);
    if i < j {
      FoundInTurn(g, c, starts, f, i, j, k, l);
    } else if i == j {
      FirstUnique(g, f, k, l, u);
    } else if j < i {
      FoundInTurn(g, c, starts, f, j, i, l, k);
      if Less(u, v) && Less(v, u) {
        LessTransitive(u, v, u);
      }
    }
  }
}
