/** The breadth-first position of a package inside its component.

    The order is first described as a function of the adjacency relation alone, with
    sets of new neighbours enumerated in byte order. The loops of the implementation,
    whose queue holds names that were already visited or queued, compute that function.
 */
module BfsOrder {
  import opened Strings
  import opened Graph
  import opened Dependencies
  import opened TarjanInvariant

  // ---------------------------------------------------------------------
  // The order as a function of the relation
  // ---------------------------------------------------------------------

  ghost predicate Ready(allowed: set<string>, done: seq<string>, pending: seq<string>) {
    && Distinct(done) && Distinct(pending)
    && (forall x | x in done :: x in allowed)
    && (forall x | x in pending :: x in allowed && x !in done)
  }

  /** The neighbours that visiting the first pending node adds. */
  ghost function NewNeighbours(g: Edges<string>, allowed: set<string>, done: seq<string>, pending: seq<string>): set<string>
    requires pending != []
  {
    set v | v in allowed && (pending[0], v) in g && v !in done && v !in pending
  }

  lemma ReadyStep(g: Edges<string>, allowed: set<string>, done: seq<string>, pending: seq<string>)
    requires Ready(allowed, done, pending) && pending != []
    ensures var added := Enumerate(NewNeighbours(g, allowed, done, pending));
            Ready(allowed, done + [pending[0]], pending[1..] + added)
    ensures |allowed - Elems(done + [pending[0]])| < |allowed - Elems(done)|
  {
    var s := NewNeighbours(g, allowed, done, pending);
    var cur, rest := pending[0], pending[1..];
    assert pending == [cur] + rest;
    assert forall x | x in s :: x in allowed && x !in done && x !in pending;
    EnumerateElems(s);
    OneFewer(allowed, done, cur);
    hide NewNeighbours, Enumerate, Elems, Ready;
    Visited(allowed, done, cur, rest, Enumerate(s));
  }

  lemma Visited(allowed: set<string>, done: seq<string>, cur: string, rest: seq<string>, added: seq<string>)
    requires Ready(allowed, done, [cur] + rest) && Distinct(added)
    requires forall x | x in added :: x in allowed && x !in done && x !in [cur] + rest
    ensures Ready(allowed, done + [cur], rest + added)
  {
    var pending := [cur] + rest;
    assert forall i | 0 <= i < |rest| :: rest[i] == pending[i + 1] && pending[0] != pending[i + 1];
    assert Distinct(rest) && cur !in rest;
    DistinctAppend(rest, added);
    DistinctAppend(done, [cur]);
    hide Distinct;
  }

  lemma OneFewer(allowed: set<string>, done: seq<string>, cur: string)
    requires cur in allowed && cur !in done
    ensures |allowed - Elems(done + [cur])| < |allowed - Elems(done)|
  {
    var before, after := allowed - Elems(done), allowed - Elems(done + [cur]);
    assert cur in before && cur !in after;
    assert after <= before;
    SubsetSmaller(after, before);
  }

  lemma IncreasingDistinct(s: seq<string>)
    requires Increasing(s)
    ensures Distinct(s)
  {
    forall i, j | 0 <= i < j < |s| ensures s[i] != s[j] {
      LessIrreflexive(s[i]);
    }
  }

  lemma DistinctAppend(a: seq<string>, b: seq<string>)
    requires Distinct(a) && Distinct(b) && forall x | x in b :: x !in a
    ensures Distinct(a + b)
  {
    var c := a + b;
    forall i, j | 0 <= i < j < |c| ensures c[i] != c[j] {
      if i < |a| <= j {
        assert c[j] == b[j - |a|] && c[j] in b;
        assert c[i] in a;
      }
    }
  }

  /** Visit pending nodes in turn, queueing the new neighbours of each in byte order. */
  ghost function Run(g: Edges<string>, allowed: set<string>, done: seq<string>, pending: seq<string>): seq<string>
    requires Ready(allowed, done, pending)
    decreases |allowed - Elems(done)|
  {
    if pending == [] then done
    else
      ReadyStep(g, allowed, done, pending);
      Run(g, allowed, done + [pending[0]], pending[1..] + Enumerate(NewNeighbours(g, allowed, done, pending)))
  }

  /** Names of q in order of first occurrence, leaving out those in seen. */
  ghost function Fresh(q: seq<string>, seen: set<string>): (r: seq<string>)
    ensures Distinct(r)
    ensures forall x :: x in r <==> x in q && x !in seen
  {
    if q == [] then []
    else
      assert q == [q[0]] + q[1..];
      if q[0] in seen then Fresh(q[1..], seen)
      else
        var rest := Fresh(q[1..], seen + {q[0]});
        DistinctAppend([q[0]], rest);
        [q[0]] + rest
  }

  lemma FreshReady(allowed: set<string>, starts: seq<string>)
    requires forall x | x in starts :: x in allowed
    ensures Ready(allowed, [], Fresh(starts, {}))
  {
  }

  /** Breadth-first from the starts, then any node missed, in byte order. */
  ghost function Order(g: Edges<string>, allowed: set<string>, starts: seq<string>): seq<string>
    requires forall x | x in starts :: x in allowed
  {
    FreshReady(allowed, starts);
    var visited := Run(g, allowed, [], Fresh(starts, {}));
    visited + Enumerate(allowed - Elems(visited))
  }

  /** v has a predecessor among the reachable packages outside its component. */
  ghost predicate Entered(g: Edges<string>, reach: set<string>, comp: set<string>, v: string) {
    exists o :: o in reach && o !in comp && (o, v) in g
  }

  ghost function Gateways(g: Edges<string>, reach: set<string>, comp: set<string>): set<string> {
    set v | v in comp && Entered(g, reach, comp, v)
  }

  lemma EnumerateElems(s: set<string>)
    ensures Distinct(Enumerate(s)) && forall x :: x in Enumerate(s) <==> x in s
  {
    IncreasingDistinct(Enumerate(s));
    assert forall x :: x in Enumerate(s) <==> x in Elems(Enumerate(s));
  }

  ghost function ComponentOrder(g: Edges<string>, reach: set<string>, comp: set<string>, entry: string): seq<string>
  {
    EnumerateElems(Gateways(g, reach, comp));
    if entry in comp then Order(g, comp, [entry])
    else if Gateways(g, reach, comp) != {} then Order(g, comp, Enumerate(Gateways(g, reach, comp)))
    else Enumerate(comp)
  }

  // ---------------------------------------------------------------------
  // What the order guarantees
  // ---------------------------------------------------------------------

  /** Every allowed successor of a visited node is visited or pending. */
  ghost predicate Scanned(g: Edges<string>, allowed: set<string>, done: seq<string>, pending: seq<string>) {
    forall u, v | (u, v) in g && u in done && v in allowed :: v in done || v in pending
  }

  ghost predicate HasParentBefore(g: Edges<string>, starts: seq<string>, done: seq<string>, i: nat)
    requires i < |done|
  {
    done[i] in starts || exists j :: 0 <= j < i && (done[j], done[i]) in g
  }

  ghost predicate HasParent(g: Edges<string>, starts: seq<string>, done: seq<string>, x: string) {
    x in starts || exists u :: u in done && (u, x) in g
  }

  /** Every node but a start comes after one of its predecessors. */
  ghost predicate Parented(g: Edges<string>, starts: seq<string>, done: seq<string>, pending: seq<string>) {
    && (forall i {:trigger HasParentBefore(g, starts, done, i)} | 0 <= i < |done| :: HasParentBefore(g, starts, done, i))
    && (forall x {:trigger HasParent(g, starts, done, x)} | x in pending :: HasParent(g, starts, done, x))
  }

  lemma ParentedStep(g: Edges<string>, allowed: set<string>, starts: seq<string>, done: seq<string>, pending: seq<string>)
    requires Parented(g, starts, done, pending) && pending != []
    ensures Parented(g, starts, done + [pending[0]], pending[1..] + Enumerate(NewNeighbours(g, allowed, done, pending)))
  {
    var cur := pending[0];
    var done' := done + [cur];
    var s := NewNeighbours(g, allowed, done, pending);
    EnumerateElems(s);
    forall i | 0 <= i < |done'| ensures HasParentBefore(g, starts, done', i) {
      if i < |done| {
        assert HasParentBefore(g, starts, done, i);
        if done[i] !in starts {
          var j :| 0 <= j < i && (done[j], done[i]) in g;
          assert (done'[j], done'[i]) in g;
        }
      } else {
        assert HasParent(g, starts, done, cur);
        if cur !in starts {
          var u :| u in done && (u, cur) in g;
          var j :| 0 <= j < |done| && done[j] == u;
          assert (done'[j], done'[i]) in g;
        }
      }
    }
    forall x | x in pending[1..] + Enumerate(s) ensures HasParent(g, starts, done', x) {
      if x in pending[1..] {
        assert x in pending;
        assert HasParent(g, starts, done, x);
        if x !in starts {
          var u :| u in done && (u, x) in g;
          assert u in done';
        }
      } else {
        assert x in s;
        assert cur in done';
      }
    }
  }

  lemma ScannedStep(g: Edges<string>, allowed: set<string>, done: seq<string>, pending: seq<string>)
    requires Scanned(g, allowed, done, pending) && pending != []
    ensures Scanned(g, allowed, done + [pending[0]], pending[1..] + Enumerate(NewNeighbours(g, allowed, done, pending)))
  {
    EnumerateElems(NewNeighbours(g, allowed, done, pending));
    assert pending == [pending[0]] + pending[1..];
  }

  lemma {:induction false} RunKeeps(g: Edges<string>, allowed: set<string>, starts: seq<string>, done: seq<string>, pending: seq<string>)
    requires Ready(allowed, done, pending)
    requires Scanned(g, allowed, done, pending) && Parented(g, starts, done, pending)
    ensures var r := Run(g, allowed, done, pending);
            && Ready(allowed, r, []) && Scanned(g, allowed, r, []) && Parented(g, starts, r, [])
            && done <= r && forall x | x in pending :: x in r
    decreases |allowed - Elems(done)|
  {
    if pending != [] {
      ReadyStep(g, allowed, done, pending);
      ScannedStep(g, allowed, done, pending);
      ParentedStep(g, allowed, starts, done, pending);
      var done', pending' := done + [pending[0]], pending[1..] + Enumerate(NewNeighbours(g, allowed, done, pending));
      RunKeeps(g, allowed, starts, done', pending');
      var r := Run(g, allowed, done, pending);
      assert r == Run(g, allowed, done', pending');
      assert done'[|done|] == pending[0] && r[|done|] == pending[0];
      assert done <= done';
      assert forall x | x in pending :: x == pending[0] || x in pending[1..];
    }
  }

  /** Nothing is missed when everything allowed is a class of mutually reachable nodes
      and there is a start: the order is the breadth-first visit alone. */
  lemma NothingMissed(g: Edges<string>, reach: set<string>, allowed: set<string>, starts: seq<string>)
    requires starts != [] && forall x | x in starts :: x in allowed
    requires Closed(g, reach) && allowed <= reach
    requires forall u, v | u in allowed && v in reach :: v in allowed <==> Mutual(g, u, v)
    ensures Ready(allowed, [], Fresh(starts, {}))
    ensures Order(g, allowed, starts) == Run(g, allowed, [], Fresh(starts, {}))
    ensures Elems(Order(g, allowed, starts)) == allowed
    ensures Parented(g, starts, Order(g, allowed, starts), [])
  {
    FreshReady(allowed, starts);
    var pending := Fresh(starts, {});
    forall x | x in pending ensures HasParent(g, starts, [], x) { }
    RunKeeps(g, allowed, starts, [], pending);
    var r := Run(g, allowed, [], pending);
    VisitAll(g, reach, allowed, r, starts[0]);
    assert allowed - Elems(r) == {};
    assert r + [] == r;
  }

  /** A node between two members of a class belongs to the class. */
  lemma BackInside(g: Edges<string>, reach: set<string>, allowed: set<string>, s: string, u: string, v: string)
    requires forall x, y | x in allowed && y in reach :: y in allowed <==> Mutual(g, x, y)
    requires s in allowed && v in allowed && u in reach && v in reach
    requires Reaches(g, s, u) && (u, v) in g
    ensures u in allowed
  {
    assert Mutual(g, s, v);
    Prepend(g, u, v, s);
  }

  lemma VisitAll(g: Edges<string>, reach: set<string>, allowed: set<string>, r: seq<string>, s: string)
    requires s in r && Ready(allowed, r, []) && Scanned(g, allowed, r, [])
    requires Closed(g, reach) && allowed <= reach
    requires forall u, v | u in allowed && v in reach :: v in allowed <==> Mutual(g, u, v)
    ensures Elems(r) == allowed
  {
    hide Reaches;
    var outside := set x | x in reach && x !in allowed && Reaches(g, s, x);
    var d := Elems(r) + outside;
    forall u, v | (u, v) in g && u in d ensures v in d {
      Refl(g, u);
      assert Reaches(g, s, u) by {
        if u in r { assert Mutual(g, s, u); }
      }
      Append(g, s, u, v);
      if v in allowed {
        BackInside(g, reach, allowed, s, u, v);
      }
    }
    forall x | x in allowed ensures x in r {
      assert Mutual(g, s, x);
      ClosedReaches(g, d, s, x);
    }
  }

  // ---------------------------------------------------------------------
  // The queue of the implementation
  // ---------------------------------------------------------------------

  lemma {:induction false} FreshAppend(a: seq<string>, b: seq<string>, seen: set<string>)
    ensures Fresh(a + b, seen) == Fresh(a, seen) + Fresh(b, seen + Elems(a))
  {
    if a == [] {
      assert a + b == b && seen + Elems(a) == seen;
    } else {
      var c := a + b;
      assert c[0] == a[0] && c[1..] == a[1..] + b;
      assert Elems(a) == {a[0]} + Elems(a[1..]) by { assert a == [a[0]] + a[1..]; }
      if a[0] in seen {
        FreshAppend(a[1..], b, seen);
        assert seen + Elems(a) == seen + Elems(a[1..]);
      } else {
        FreshAppend(a[1..], b, seen + {a[0]});
        assert seen + Elems(a) == seen + {a[0]} + Elems(a[1..]);
      }
    }
  }

  lemma {:induction false} FreshIncreasing(q: seq<string>, seen: set<string>)
    requires Sorted(q)
    ensures Increasing(Fresh(q, seen))
  {
    if q != [] {
      if q[0] in seen {
        FreshIncreasing(q[1..], seen);
      } else {
        var rest := Fresh(q[1..], seen + {q[0]});
        FreshIncreasing(q[1..], seen + {q[0]});
        forall j | 0 <= j < |rest| ensures Less(q[0], rest[j]) {
          assert rest[j] in rest;
          var k :| 0 <= k < |q[1..]| && q[1..][k] == rest[j];
          assert AtMost(q[0], q[k + 1]);
        }
      }
    }
  }

  /** Appending the sorted unvisited neighbours to a queue that may repeat names adds
      the enumeration of the new ones. */
  lemma QueueStep(g: Edges<string>, allowed: set<string>, done: seq<string>, queue: seq<string>, found: seq<string>)
    requires queue != [] && queue[0] !in done
    requires Sorted(found)
    requires forall v :: v in found <==> v in allowed && (queue[0], v) in g && v !in done + [queue[0]]
    ensures var pending := Fresh(queue, Elems(done));
            && pending != [] && pending[0] == queue[0]
            && Fresh(queue[1..] + found, Elems(done + [queue[0]]))
               == pending[1..] + Enumerate(NewNeighbours(g, allowed, done, pending))
  {
    var cur, rest := queue[0], queue[1..];
    var seen := Elems(done + [cur]);
    assert seen == Elems(done) + {cur};
    var pending := Fresh(queue, Elems(done));
    assert pending == [cur] + Fresh(rest, seen);
    FreshAppend(rest, found, seen);
    var tail := Fresh(found, seen + Elems(rest));
    FreshIncreasing(found, seen + Elems(rest));
    var s := NewNeighbours(g, allowed, done, pending);
    forall x ensures x in Elems(tail) <==> x in s {
      assert x in pending <==> x == cur || (x in rest && x !in seen);
    }
    IncreasingUnique(tail, Enumerate(s));
  }

  lemma FreshSkip(queue: seq<string>, seen: set<string>)
    requires queue != [] && queue[0] in seen
    ensures Fresh(queue[1..], seen) == Fresh(queue, seen)
  {
  }

  lemma RunStep(g: Edges<string>, allowed: set<string>, done: seq<string>, queue: seq<string>, found: seq<string>)
    requires queue != [] && queue[0] !in done
    requires Sorted(found)
    requires forall v :: v in found <==> v in allowed && (queue[0], v) in g && v !in done + [queue[0]]
    requires Ready(allowed, done, Fresh(queue, Elems(done)))
    ensures var done' := done + [queue[0]];
            var pending' := Fresh(queue[1..] + found, Elems(done'));
            && Ready(allowed, done', pending')
            && Run(g, allowed, done', pending') == Run(g, allowed, done, Fresh(queue, Elems(done)))
    ensures Elems(done + [queue[0]]) == Elems(done) + {queue[0]}
    ensures |allowed - (Elems(done) + {queue[0]})| < |allowed - Elems(done)|
  {
    hide NewNeighbours, Fresh;
    QueueStep(g, allowed, done, queue, found);
    ReadyStep(g, allowed, done, Fresh(queue, Elems(done)));
    assert Elems(done + [queue[0]]) == Elems(done) + {queue[0]};
  }

  /** The successors of cur that are allowed and not yet visited, sorted. */
  method Unvisited(deps: Deps, cur: string, allowed: set<string>, visited: set<string>) returns (neighbors: seq<string>)
    ensures Sorted(neighbors)
    ensures forall v :: v in neighbors <==> v in allowed && (cur, v) in EdgesOf(deps) && v !in visited
  {
    neighbors := [];
    var list := Successors(deps, cur);
    for i := 0 to |list|
      invariant forall v :: v in neighbors <==> v in allowed && v in list[..i] && v !in visited
    {
      assert list[..i + 1] == list[..i] + [list[i]];
      if list[i] in allowed && list[i] !in visited {
        neighbors := neighbors + [list[i]];
      }
    }
    assert list[..|list|] == list;
    SortSorted(neighbors);
    ghost var unsorted := neighbors;
    neighbors := Sort(neighbors);
    assert forall v :: v in neighbors <==> v in Elems(neighbors);
    assert forall v :: v in unsorted <==> v in Elems(unsorted);
  }

  method BfsFrom(starts: seq<string>, allowed: set<string>, deps: Deps) returns (order: seq<string>)
    requires forall x | x in starts :: x in allowed
    ensures order == Order(EdgesOf(deps), allowed, starts)
  {
    hide Run, NewNeighbours, Fresh, Order, EdgesOf;
    ghost var g := EdgesOf(deps);
    FreshReady(allowed, starts);
    var visited: set<string> := {};
    var queue := starts;
    order := [];
    assert Elems(order) == {};
    while |queue| > 0
      invariant visited == Elems(order)
      invariant forall x | x in queue :: x in allowed
      invariant Ready(allowed, order, Fresh(queue, visited))
      invariant Run(g, allowed, order, Fresh(queue, visited)) == Run(g, allowed, [], Fresh(starts, {}))
      decreases |allowed - visited|, |queue|
    {
      var cur := queue[0];
      if cur in visited {
        FreshSkip(queue, visited);
        queue := queue[1..];
        continue;
      }
      var neighbors := Unvisited(deps, cur, allowed, visited + {cur});
      RunStep(g, allowed, order, queue, neighbors);
      queue := queue[1..] + neighbors;
      visited := visited + {cur};
      order := order + [cur];
    }
    RunDone(g, allowed, order, visited);
    if |visited| < |allowed| {
      var missed := Missed(allowed, visited);
      order := order + missed;
    } else {
      SameSize(visited, allowed);
    }
    OrderIs(g, allowed, starts);
  }

  lemma RunDone(g: Edges<string>, allowed: set<string>, done: seq<string>, seen: set<string>)
    requires Ready(allowed, done, Fresh([], seen))
    ensures Run(g, allowed, done, Fresh([], seen)) == done
    ensures Elems(done) <= allowed
  {
  }

  lemma OrderIs(g: Edges<string>, allowed: set<string>, starts: seq<string>)
    requires forall x | x in starts :: x in allowed
    ensures Ready(allowed, [], Fresh(starts, {}))
    ensures var visited := Run(g, allowed, [], Fresh(starts, {}));
            Order(g, allowed, starts) == visited + Enumerate(allowed - Elems(visited))
  {
    FreshReady(allowed, starts);
  }

  lemma SameSize(a: set<string>, b: set<string>)
    requires a <= b && |a| >= |b|
    ensures b - a == {} && Enumerate(b - a) == []
  {
    if a != b { SubsetSmaller(a, b); }
  }

  /** missed holds the names among the first i keys that were not visited. */
  ghost predicate MissedUpTo(keys: seq<string>, visited: set<string>, missed: seq<string>, i: nat)
    requires i <= |keys|
  {
    Increasing(missed) && forall x :: x in missed <==> x in keys[..i] && x !in visited
  }

  lemma MissedStep(keys: seq<string>, visited: set<string>, missed: seq<string>, i: nat)
    requires i < |keys| && Increasing(keys) && MissedUpTo(keys, visited, missed, i)
    ensures MissedUpTo(keys, visited, if keys[i] in visited then missed else missed + [keys[i]], i + 1)
  {
    var n := keys[i];
    assert keys[..i + 1] == keys[..i] + [n];
    forall k | 0 <= k < |missed| ensures Less(missed[k], n) {
      assert missed[k] in missed;
      var j :| 0 <= j < i && keys[..i][j] == missed[k];
      assert keys[j] == missed[k];
    }
  }

  /** The keys of allowed in sorted order, leaving out the visited ones. */
  method Missed(allowed: set<string>, visited: set<string>) returns (missed: seq<string>)
    ensures missed == Enumerate(allowed - visited)
  {
    var keys := SortedKeys(allowed);
    missed := [];
    for i := 0 to |keys|
      invariant MissedUpTo(keys, visited, missed, i)
    {
      MissedStep(keys, visited, missed, i);
      if keys[i] !in visited {
        missed := missed + [keys[i]];
      }
    }
    MissedAll(keys, allowed, visited, missed);
  }

  lemma MissedAll(keys: seq<string>, allowed: set<string>, visited: set<string>, missed: seq<string>)
    requires Elems(keys) == allowed && MissedUpTo(keys, visited, missed, |keys|)
    ensures missed == Enumerate(allowed - visited)
  {
    assert keys[..|keys|] == keys;
    forall x ensures x in Elems(missed) <==> x in allowed - visited {
      assert x in keys <==> x in Elems(keys);
    }
    IncreasingUnique(missed, Enumerate(allowed - visited));
  }

  /** The members of a component with an incoming edge from another one. */
  method CollectGateways(deps: Deps, reachable: set<string>, compSet: set<string>, compID: map<string, nat>, cid: nat) returns (gateways: set<string>)
    requires compID.Keys == reachable && compSet <= reachable
    requires forall x | x in reachable :: compID[x] == cid <==> x in compSet
    ensures gateways == Gateways(EdgesOf(deps), reachable, compSet)
  {
    ghost var g := EdgesOf(deps);
    gateways := {};
    var todo := reachable;
    while todo != {}
      invariant todo <= reachable
      invariant forall v :: v in gateways <==> v in compSet && Entered(g, reachable - todo, compSet, v)
    {
      var outside :| outside in todo;
      ghost var before := reachable - todo;
      var list := if compID[outside] == cid then [] else Successors(deps, outside);
      ghost var old' := gateways;
      for i := 0 to |list|
        invariant gateways == old' + set v | v in list[..i] && v in compSet
      {
        assert list[..i + 1] == list[..i] + [list[i]];
        if list[i] in compSet {
          gateways := gateways + {list[i]};
        }
      }
      assert list[..|list|] == list;
      todo := todo - {outside};
      EnteredStep(deps, reachable - todo, before, compSet, outside);
    }
    assert reachable - {} == reachable;
  }

  lemma EnteredStep(deps: Deps, after: set<string>, before: set<string>, comp: set<string>, o: string)
    requires after == before + {o}
    ensures forall v :: Entered(EdgesOf(deps), after, comp, v) <==>
              Entered(EdgesOf(deps), before, comp, v) || (o !in comp && v in Successors(deps, o))
  {
    var g := EdgesOf(deps);
    forall v ensures Entered(g, after, comp, v) <==> Entered(g, before, comp, v) || (o !in comp && v in Successors(deps, o)) {
      if Entered(g, before, comp, v) {
        var u :| u in before && u !in comp && (u, v) in g;
        assert u in after;
      }
      if o !in comp && v in Successors(deps, o) {
        assert o in after && (o, v) in g;
      }
    }
  }

  method ComputeBfsOrder(comp: seq<string>, cid: nat, deps: Deps, reachable: set<string>, compID: map<string, nat>, entry: string)
    returns (order: seq<string>)
    requires compID.Keys == reachable && Elems(comp) <= reachable
    requires forall x | x in reachable :: compID[x] == cid <==> x in comp
    ensures order == ComponentOrder(EdgesOf(deps), reachable, Elems(comp), entry)
  {
    var compSet := set n | n in comp;
    assert compSet == Elems(comp);
    if entry in compSet {
      order := BfsFrom([entry], compSet, deps);
      return;
    }
    var gatewaySet := CollectGateways(deps, reachable, compSet, compID, cid);
    if |gatewaySet| > 0 {
      var gateways := SortedKeys(gatewaySet);
      EnumerateElems(gatewaySet);
      order := BfsFrom(gateways, compSet, deps);
    } else {
      order := SortedKeys(compSet);
    }
  }
}
