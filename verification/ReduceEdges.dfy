/** The transitive reduction as it is computed: integer indices, Kahn's order, one row of
    descendant bits per node filled from the leaves up, and a filter over the edge list.
 */
module ReduceEdges {
  import opened Strings
  import opened Graph
  import opened TarjanInvariant
  import opened Reduction
  import opened Kahn
  import opened Options
  import BitRows

  // ---------------------------------------------------------------------
  // 1. Node indices
  // ---------------------------------------------------------------------

  /** index and names are inverse to each other. */
  ghost predicate Indexing<T(!new)>(index: map<T, nat>, names: seq<T>) {
    && (forall x | x in index :: index[x] < |names| && names[index[x]] == x)
    && (forall i | 0 <= i < |names| :: names[i] in index && index[names[i]] == i)
  }

  method IndexOne<T(==,!new)>(index: map<T, nat>, names: seq<T>, x: T) returns (index': map<T, nat>, names': seq<T>)
    requires Indexing(index, names)
    ensures Indexing(index', names') && index'.Keys == index.Keys + {x}
  {
    if x in index {
      return index, names;
    }
    index', names' := index[x := |names|], names + [x];
  }

  method IndexNodes<T(==,!new)>(edges: seq<(T, T)>) returns (index: map<T, nat>, names: seq<T>)
    ensures Indexing(index, names)
    ensures forall e | e in edges :: e.0 in index && e.1 in index
  {
    index, names := map[], [];
    for i := 0 to |edges|
      invariant Indexing(index, names)
      invariant forall k | 0 <= k < i :: edges[k].0 in index && edges[k].1 in index
    {
      index, names := IndexOne(index, names, edges[i].0);
      index, names := IndexOne(index, names, edges[i].1);
    }
  }

  // ---------------------------------------------------------------------
  // 2. Adjacency lists and in-degrees
  // ---------------------------------------------------------------------

  /** adj lists exactly the edges of g, by index. */
  ghost predicate Lists<T(!new)>(adj: seq<seq<nat>>, names: seq<T>, g: Edges<T>) {
    && |adj| == |names|
    && forall u: nat, v: nat | u < |names| && v < |names| :: v in adj[u] <==> (names[u], names[v]) in g
  }

  lemma ListOne<T(!new)>(adj: seq<seq<nat>>, names: seq<T>, g: Edges<T>, u: nat, v: nat)
    requires Lists(adj, names, g) && u < |names| && v < |names| && Distinct(names)
    ensures Lists(adj[u := adj[u] + [v]], names, g + {(names[u], names[v])})
  {
  }

  method BuildAdjacency<T(==,!new)>(edges: seq<(T, T)>, index: map<T, nat>, names: seq<T>)
    returns (adj: seq<seq<nat>>, inDegree: array<int>)
    requires Indexing(index, names)
    requires forall e | e in edges :: e.0 in index && e.1 in index
    ensures fresh(inDegree) && inDegree.Length == |names|
    ensures Lists(adj, names, Elems(edges)) && InRange(adj)
    ensures forall w: nat | w < |adj| :: inDegree[w] == InCount(adj, {}, w, |adj|)
  {
    hide InCount, Lists, InRange;
    adj := seq(|names|, _ => []);
    inDegree := new int[|names|](_ => 0);
    NamesDistinct(index, names);
    ListNone<T>(adj, names);
    ElemsNone(edges);
    for i := 0 to |edges|
      invariant |adj| == |names| && Lists(adj, names, Elems(edges[..i])) && InRange(adj)
      invariant forall w: nat | w < |adj| :: inDegree[w] == InCount(adj, {}, w, |adj|)
    {
      var u, v := index[edges[i].0], index[edges[i].1];
      ElemsNext(edges, i);
      ListOne(adj, names, Elems(edges[..i]), u, v);
      RangeOne(adj, u, v);
      forall w: nat | w < |adj| ensures InCount(adj[u := adj[u] + [v]], {}, w, |adj|) == inDegree[w] + if w == v then 1 else 0 {
        InCountAppend(adj, u, v, w, |adj|);
      }
      adj := adj[u := adj[u] + [v]];
      inDegree[v] := inDegree[v] + 1;
    }
    assert edges[..|edges|] == edges;
  }

  lemma ElemsNone<T(!new)>(edges: seq<T>)
    ensures Elems(edges[..0]) == {}
  {
  }

  lemma NamesDistinct<T(!new)>(index: map<T, nat>, names: seq<T>)
    requires Indexing(index, names)
    ensures Distinct(names)
  {
  }

  lemma ListNone<T(!new)>(adj: seq<seq<nat>>, names: seq<T>)
    requires |adj| == |names| && forall u | 0 <= u < |adj| :: adj[u] == []
    ensures Lists(adj, names, {}) && InRange(adj)
    ensures forall w: nat | w < |adj| :: InCount(adj, {}, w, |adj|) == 0
  {
    forall w: nat | w < |adj| ensures InCount(adj, {}, w, |adj|) == 0 {
      InCountZero(adj, {}, w, |adj|);
    }
  }

  lemma RangeOne(adj: seq<seq<nat>>, u: nat, v: nat)
    requires InRange(adj) && u < |adj| && v < |adj|
    ensures InRange(adj[u := adj[u] + [v]])
  {
  }

  lemma ElemsNext<T(!new)>(s: seq<T>, i: nat)
    requires i < |s|
    ensures Elems(s[..i + 1]) == Elems(s[..i]) + {s[i]}
  {
    assert s[..i + 1] == s[..i] + [s[i]];
  }

  // ---------------------------------------------------------------------
  // 3. The topological order and the cycle test
  // ---------------------------------------------------------------------

  /** A complete order proves that there is no cycle. */
  lemma OrderedAcyclic<T(!new)>(adj: seq<seq<nat>>, index: map<T, nat>, names: seq<T>, g: Edges<T>, topo: seq<nat>)
    requires Indexing(index, names) && Lists(adj, names, g)
    requires forall u, v | (u, v) in g :: u in index && v in index
    requires Distinct(topo) && Ordered(adj, topo) && forall x: nat | x < |names| :: x in topo
    ensures Acyclic(g)
  {
    var rank := (x: T) => if x in index then IndexOf(topo, index[x]) else 0;
    var before := (x: T, y: T) => rank(x) < rank(y);
    forall u, v | (u, v) in g ensures before(u, v) {
      assert names[index[u]] == u && names[index[v]] == v;
      assert index[v] in adj[index[u]];
      var j := IndexOf(topo, index[v]);
      assert index[u] in topo[..j];
      var i :| 0 <= i < j && topo[i] == index[u];
    }
    RankedAcyclic(g, before);
  }

  /** The names of the nodes that the order leaves out. */
  ghost function Leftover<T(!new)>(names: seq<T>, topo: seq<nat>): set<T> {
    set w: nat | w < |names| && w !in topo :: names[w]
  }

  lemma LeftoverPred<T(!new)>(adj: seq<seq<nat>>, names: seq<T>, g: Edges<T>, topo: seq<nat>, w: nat)
    requires |adj| == |names| && Lists(adj, names, g) && w < |names|
    requires PredLeft(adj, topo, w)
    ensures HasPredIn(g, Leftover(names, topo), names[w])
  {
    var u: nat :| u < |adj| && u !in topo && w in adj[u];
    assert names[u] in Leftover(names, topo) && (names[u], names[w]) in g;
  }

  /** An incomplete order leaves nodes that each have a predecessor left: a cycle. */
  lemma LeftoverCycle<T(!new)>(adj: seq<seq<nat>>, names: seq<T>, g: Edges<T>, topo: seq<nat>)
    requires |adj| == |names| && Lists(adj, names, g)
    requires forall w: nat {:trigger PredLeft(adj, topo, w)} | w < |adj| && w !in topo :: PredLeft(adj, topo, w)
    requires exists x: nat :: x < |names| && x !in topo
    ensures !Acyclic(g)
  {
    hide Lists, HasPredIn, ReachesPlus;
    var x: nat :| x < |names| && x !in topo;
    assert names[x] in Leftover(names, topo);
    forall v | v in Leftover(names, topo) ensures HasPredIn(g, Leftover(names, topo), v) {
      var w: nat :| w < |names| && w !in topo && names[w] == v;
      LeftoverPred(adj, names, g, topo, w);
    }
    NoSourceMeansCycle(g, Leftover(names, topo));
  }

  // ---------------------------------------------------------------------
  // 4. Descendant bits
  // ---------------------------------------------------------------------

  ghost predicate Below<T(!new)>(g: Edges<T>, names: seq<T>, u: nat, x: nat) {
    u < |names| && x < |names| && ReachesPlus(g, names[u], names[x])
  }

  ghost function Descendants<T(!new)>(g: Edges<T>, names: seq<T>, u: nat): set<nat> {
    set x: nat | x < |names| && Below(g, names, u, x)
  }

  /** The listed nodes and their descendants. */
  ghost function FromChildren<T(!new)>(g: Edges<T>, names: seq<T>, children: seq<nat>): set<nat> {
    if children == [] then {}
    else
      var last := children[|children| - 1];
      FromChildren(g, names, children[..|children| - 1]) + Descendants(g, names, last) + {last}
  }

  lemma {:induction false} FromChildrenMember<T(!new)>(g: Edges<T>, names: seq<T>, children: seq<nat>, x: nat)
    ensures x in FromChildren(g, names, children) <==> exists c :: c in children && (x == c || Below(g, names, c, x))
  {
    if children != [] {
      var init, last := children[..|children| - 1], children[|children| - 1];
      FromChildrenMember(g, names, init, x);
      SplitLast(children);
      assert forall c :: c in children <==> c in init || c == last;
      assert x in FromChildren(g, names, children) <==>
             x in FromChildren(g, names, init) || Below(g, names, last, x) || x == last;
    }
  }

  lemma AllChildren<T(!new)>(g: Edges<T>, index: map<T, nat>, names: seq<T>, adj: seq<seq<nat>>, u: nat)
    requires Indexing(index, names) && |adj| == |names| && Lists(adj, names, g) && InRange(adj) && u < |adj|
    requires forall x, y | (x, y) in g :: x in index && y in index
    ensures FromChildren(g, names, adj[u]) == Descendants(g, names, u)
  {
    hide FromChildren, Indexing, Lists, Below;
    forall x: nat ensures x in FromChildren(g, names, adj[u]) <==> x in Descendants(g, names, u) {
      FromChildrenMember(g, names, adj[u], x);
      ChildOrBelow(g, index, names, adj, u, x);
    }
  }

  lemma ChildOrBelow<T(!new)>(g: Edges<T>, index: map<T, nat>, names: seq<T>, adj: seq<seq<nat>>, u: nat, x: nat)
    requires Indexing(index, names) && |adj| == |names| && Lists(adj, names, g) && InRange(adj) && u < |adj|
    requires forall a, b | (a, b) in g :: a in index && b in index
    ensures x in Descendants(g, names, u) <==> exists c :: c in adj[u] && (x == c || Below(g, names, c, x))
  {
    hide Reaches;
    if Below(g, names, u, x) {
      var w :| (names[u], w) in g && Reaches(g, w, names[x]);
      assert names[index[w]] == w && index[w] in adj[u];
      ReachesCases(g, w, names[x]);
      if w == names[x] { assert x == index[w]; }
    }
    if c :| c in adj[u] && (x == c || Below(g, names, c, x)) {
      assert c < |names| && (names[u], names[c]) in g;
      ReachesCases(g, names[c], names[x]);
    }
  }

  /** The rows of the last nodes of topo, from position i on, hold their descendants; the
      other rows are empty. */
  ghost predicate Filled<T(!new)>(rows: array2<bv64>, g: Edges<T>, names: seq<T>, topo: seq<nat>, i: nat)
    reads rows
  {
    && rows.Length0 == |names| && rows.Length1 == BitRows.Words(|names|)
    && forall k | 0 <= k < |topo| ::
         topo[k] < |names| &&
         BitRows.Row(rows, topo[k], |names|) == if k >= i then Descendants(g, names, topo[k]) else {}
  }

  /** A complete topological order of the listed graph. */
  ghost predicate Complete<T(!new)>(adj: seq<seq<nat>>, index: map<T, nat>, names: seq<T>, g: Edges<T>, topo: seq<nat>) {
    && Indexing(index, names) && |adj| == |names| && Lists(adj, names, g) && InRange(adj)
    && (forall x, y | (x, y) in g :: x in index && y in index)
    && Distinct(topo) && Ordered(adj, topo) && |topo| == |names|
    && (forall x | x in topo :: x < |names|)
    && (forall x: nat | x < |names| :: x in topo)
  }

  /** A child of topo[i] comes later in the order. */
  lemma ChildLater<T(!new)>(adj: seq<seq<nat>>, index: map<T, nat>, names: seq<T>, g: Edges<T>, topo: seq<nat>, i: nat, j: nat) returns (k: nat)
    requires Complete(adj, index, names, g, topo) && i < |topo| && topo[i] < |names| && j < |adj[topo[i]]|
    ensures i < k < |topo| && topo[k] == adj[topo[i]][j] && topo[k] < |adj| && topo[k] != topo[i]
  {
    hide Indexing, Lists;
    var v := adj[topo[i]][j];
    assert v in adj[topo[i]] && v < |names|;
    assert v in topo;
    k :| 0 <= k < |topo| && topo[k] == v;
    assert topo[i] in topo[..k];
    var m :| 0 <= m < k && topo[m] == topo[i];
  }

  /** One node in reverse topological order: its children's rows are complete. */
  method FillRow<T(!new)>(reach: array2<bv64>, adj: seq<seq<nat>>, topo: seq<nat>, i: nat,
                          ghost g: Edges<T>, ghost index: map<T, nat>, ghost names: seq<T>)
    requires Complete(adj, index, names, g, topo) && i < |topo|
    requires Filled(reach, g, names, topo, i + 1)
    modifies reach
    ensures Filled(reach, g, names, topo, i)
  {
    hide Indexing, Lists, Ordered, InRange, Descendants, BitRows.Row, FromChildren;
    ghost var n := |names|;
    var u := topo[i];
    assert u in topo;
    var children := adj[u];
    FromNone(g, names);
    assert children[..0] == [];
    for j := 0 to |children|
      invariant forall t: nat | t < |adj| && t != u :: BitRows.Row(reach, t, |adj|) == old(BitRows.Row(reach, t, |adj|))
      invariant BitRows.Row(reach, u, |adj|) == FromChildren(g, names, children[..j])
    {
      var v := children[j];
      ghost var k := ChildLater(adj, index, names, g, topo, i, j);
      FromNext(g, names, children, j);
      BitRows.AddDescendants(reach, u, v, |adj|);
    }
    assert children[..|children|] == children;
    AllChildren(g, index, names, adj, u);
  }

  lemma FromNone<T(!new)>(g: Edges<T>, names: seq<T>)
    ensures FromChildren(g, names, []) == {}
  {
  }

  lemma FromNext<T(!new)>(g: Edges<T>, names: seq<T>, children: seq<nat>, j: nat)
    requires j < |children|
    ensures FromChildren(g, names, children[..j + 1])
            == FromChildren(g, names, children[..j]) + Descendants(g, names, children[j]) + {children[j]}
  {
    assert children[..j + 1][..j] == children[..j];
  }

  method DescendantBits<T(!new)>(adj: seq<seq<nat>>, topo: seq<nat>, ghost g: Edges<T>, ghost index: map<T, nat>, ghost names: seq<T>)
    returns (reach: array2<bv64>)
    requires Complete(adj, index, names, g, topo)
    ensures fresh(reach) && Filled(reach, g, names, topo, 0)
  {
    hide Indexing, Lists, Ordered, InRange, Descendants, BitRows.Row;
    reach := BitRows.EmptyRows(|adj|);
    var i := |topo|;
    forall k | 0 <= k < |topo| ensures topo[k] < |names| { assert topo[k] in topo; }
    while i > 0
      invariant 0 <= i <= |topo|
      invariant Filled(reach, g, names, topo, i)
    {
      i := i - 1;
      FillRow(reach, adj, topo, i, g, index, names);
    }
  }

  // ---------------------------------------------------------------------
  // 5. The filter, and the whole
  // ---------------------------------------------------------------------

  /** The edges of a list that are not redundant in g, in order. */
  ghost function Kept<T(!new)>(edges: seq<(T, T)>, g: Edges<T>): seq<(T, T)> {
    if edges == [] then []
    else
      var rest := Kept(edges[..|edges| - 1], g);
      var e := edges[|edges| - 1];
      if Redundant(g, e.0, e.1) then rest else rest + [e]
  }

  lemma {:induction false} KeptElems<T(!new)>(edges: seq<(T, T)>, g: Edges<T>)
    ensures forall e :: e in Kept(edges, g) <==> e in edges && !Redundant(g, e.0, e.1)
    ensures Distinct(edges) ==> Distinct(Kept(edges, g))
  {
    if edges != [] {
      KeptElems(edges[..|edges| - 1], g);
      SplitLast(edges);
      var rest, e := Kept(edges[..|edges| - 1], g), edges[|edges| - 1];
      if Distinct(edges) {
        assert e !in edges[..|edges| - 1];
        assert e !in rest;
      }
    }
  }

  /** Is there another way from e's source to its target, by some first child w? */
  method IsRedundant<T(!new)>(reach: array2<bv64>, adj: seq<seq<nat>>, u: nat, v: nat,
                              ghost g: Edges<T>, ghost index: map<T, nat>, ghost names: seq<T>, ghost topo: seq<nat>)
    returns (isRedundant: bool)
    requires Complete(adj, index, names, g, topo) && Filled(reach, g, names, topo, 0)
    requires u < |adj| && v < |adj|
    ensures isRedundant <==> Redundant(g, names[u], names[v])
  {
    hide Indexing, Lists, Ordered, Descendants, Redundant;
    RedundantByChild(g, index, names, adj, u, v);
    isRedundant := false;
    var j := 0;
    while j < |adj[u]|
      invariant 0 <= j <= |adj[u]|
      invariant !isRedundant
      invariant forall k | 0 <= k < j :: !(adj[u][k] != v && v in Descendants(g, names, adj[u][k]))
    {
      var w := adj[u][j];
      assert w in adj[u];
      if w != v {
        RowIs(reach, g, names, topo, w);
        var b := BitRows.Test(reach, w, v, |adj|);
        if b {
          isRedundant := true;
          break;
        }
      }
      j := j + 1;
    }
  }

  lemma RowIs<T(!new)>(rows: array2<bv64>, g: Edges<T>, names: seq<T>, topo: seq<nat>, w: nat)
    requires Filled(rows, g, names, topo, 0) && w in topo
    ensures w < |names| && BitRows.Row(rows, w, |names|) == Descendants(g, names, w)
  {
    var k :| 0 <= k < |topo| && topo[k] == w;
  }

  lemma RedundantByChild<T(!new)>(g: Edges<T>, index: map<T, nat>, names: seq<T>, adj: seq<seq<nat>>, u: nat, v: nat)
    requires Indexing(index, names) && |adj| == |names| && Lists(adj, names, g) && InRange(adj)
    requires forall x, y | (x, y) in g :: x in index && y in index
    requires u < |adj| && v < |adj|
    ensures Redundant(g, names[u], names[v]) <==>
            exists k :: 0 <= k < |adj[u]| && adj[u][k] != v && v in Descendants(g, names, adj[u][k])
  {
    hide ReachesPlus;
    if Redundant(g, names[u], names[v]) {
      var w :| w != names[v] && (names[u], w) in g && ReachesPlus(g, w, names[v]);
      assert names[index[w]] == w && index[w] in adj[u];
      var k :| 0 <= k < |adj[u]| && adj[u][k] == index[w];
      assert Below(g, names, index[w], v);
    }
    if k :| 0 <= k < |adj[u]| && adj[u][k] != v && v in Descendants(g, names, adj[u][k]) {
      assert adj[u][k] in adj[u] && Below(g, names, adj[u][k], v);
      var w := names[adj[u][k]];
      assert index[w] == adj[u][k] && index[names[v]] == v;
      assert w != names[v] && (names[u], w) in g && ReachesPlus(g, w, names[v]);
    }
  }

  /** The transitive reduction of an edge list, or None, for nil, when it has a cycle. */
  method Reduce<T(==,!new)>(edges: seq<(T, T)>) returns (r: Option<seq<(T, T)>>)
    ensures r.None? <==> !Acyclic(Elems(edges))
    ensures r.Some? ==> r.value == Kept(edges, Elems(edges))
    ensures r.Some? ==> Elems(r.value) == Reduced(Elems(edges))
    ensures r.Some? && Distinct(edges) ==> Distinct(r.value)
  {
    hide Indexing, Lists, InRange, Ordered, Redundant, InCount, Filled, Acyclic;
    ghost var g := Elems(edges);
    var index, names := IndexNodes(edges);
    var adj, inDegree := BuildAdjacency(edges, index, names);
    SameLength(adj, names, g);
    var topo := TopologicalOrder(adj, inDegree);
    PigeonHole(topo, |names|);
    if |topo| != |names| {
      Incomplete(topo, |names|);
      LeftoverCycle(adj, names, g, topo);
      return None;
    }
    OrderedAcyclic(adj, index, names, g, topo);
    var reach := DescendantBits(adj, topo, g, index, names);
    var reducedEdges: seq<(T, T)> := [];
    for i := 0 to |edges|
      invariant Filled(reach, g, names, topo, 0)
      invariant reducedEdges == Kept(edges[..i], g)
    {
      var e := edges[i];
      assert e in edges;
      NameAtIndex(index, names, e.0);
      NameAtIndex(index, names, e.1);
      var redundant := IsRedundant(reach, adj, index[e.0], index[e.1], g, index, names, topo);
      assert edges[..i + 1][..i] == edges[..i];
      if !redundant {
        reducedEdges := reducedEdges + [e];
      }
    }
    assert edges[..|edges|] == edges;
    KeptReduced(edges);
    return Some(reducedEdges);
  }

  lemma KeptReduced<T(!new)>(edges: seq<(T, T)>)
    ensures Elems(Kept(edges, Elems(edges))) == Reduced(Elems(edges))
    ensures Distinct(edges) ==> Distinct(Kept(edges, Elems(edges)))
  {
    hide Redundant;
    KeptElems(edges, Elems(edges));
  }

  lemma SameLength<T(!new)>(adj: seq<seq<nat>>, names: seq<T>, g: Edges<T>)
    requires Lists(adj, names, g)
    ensures |adj| == |names|
  {
  }

  lemma NameAtIndex<T(!new)>(index: map<T, nat>, names: seq<T>, x: T)
    requires Indexing(index, names) && x in index
    ensures index[x] < |names| && names[index[x]] == x
  {
  }

  lemma Incomplete(topo: seq<nat>, n: nat)
    requires Distinct(topo) && |topo| < n
    ensures exists x: nat :: x < n && x !in topo
  {
    SizeOf(topo);
    var missing := UpTo(n) - Elems(topo);
    assert UpTo(n) == (UpTo(n) * Elems(topo)) + missing;
    assert UpTo(n) * Elems(topo) <= Elems(topo);
    if missing == {} {
      SmallerOrEqual(UpTo(n), Elems(topo));
    }
    var x :| x in missing;
  }

  lemma SmallerOrEqual(a: set<nat>, b: set<nat>)
    requires a <= b
    ensures |a| <= |b|
  {
    if a != b { SubsetSmaller(a, b); }
  }
}
