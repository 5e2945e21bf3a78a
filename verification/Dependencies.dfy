/** The package dependency map and the set of packages reachable from the entry. */
module Dependencies {
  import opened Strings
  import opened Graph

  /** Package name to the names it points at, in list order and with repetitions. */
  type Deps = map<string, seq<string>>

  /** Looking up a package with no list yields no names, as a Go map does. */
  function Successors(deps: Deps, n: string): seq<string> {
    if n in deps then deps[n] else []
  }

  /** The adjacency relation of the map: list order and repetitions are forgotten. */
  ghost function EdgesOf(deps: Deps): (g: Edges<string>)
    ensures forall u, v :: (u, v) in g <==> v in Successors(deps, u)
  {
    set u, v | u in deps && v in deps[u] :: (u, v)
  }

  /** The part of the relation between packages of a given set. */
  ghost function EdgesWithin(deps: Deps, reach: set<string>): (g: Edges<string>)
    ensures forall u, v :: (u, v) in g <==> u in reach && v in reach && v in Successors(deps, u)
    ensures Closed(g, reach)
  {
    set u, v | u in deps && v in deps[u] && u in reach && v in reach :: (u, v)
  }

  /** In a closed set the restriction loses no walk. */
  lemma {:induction false} WithinWalk(deps: Deps, reach: set<string>, p: seq<string>)
    requires Closed(EdgesOf(deps), reach)
    requires Walk(EdgesOf(deps), p) && p[0] in reach
    ensures Walk(EdgesWithin(deps, reach), p)
  {
    ClosedWalk(EdgesOf(deps), reach, p);
    forall i | 0 <= i < |p| - 1 ensures (p[i], p[i + 1]) in EdgesWithin(deps, reach) {
      assert (p[i], p[i + 1]) in EdgesOf(deps);
      assert p[i] in p && p[i + 1] in p;
    }
  }

  lemma WithinReaches(deps: Deps, reach: set<string>, u: string, v: string)
    requires Closed(EdgesOf(deps), reach) && u in reach
    ensures Reaches(EdgesWithin(deps, reach), u, v) <==> Reaches(EdgesOf(deps), u, v)
  {
    if Reaches(EdgesOf(deps), u, v) {
      var p :| WalkBetween(EdgesOf(deps), p, u, v);
      WithinWalk(deps, reach, p);
      assert WalkBetween(EdgesWithin(deps, reach), p, u, v);
    }
    if Reaches(EdgesWithin(deps, reach), u, v) {
      assert EdgesWithin(deps, reach) <= EdgesOf(deps) by {
        forall e | e in EdgesWithin(deps, reach) ensures e in EdgesOf(deps) {
          assert (e.0, e.1) in EdgesWithin(deps, reach);
        }
      }
      Monotone(EdgesWithin(deps, reach), EdgesOf(deps), u, v);
    }
  }

  /** A finite set that no walk from the entry leaves. */
  ghost function Universe(g: Edges<string>, entry: string): (s: set<string>)
    ensures entry in s && Closed(g, s)
  {
    {entry} + set e | e in g :: e.1
  }

  /** The packages that the entry reaches. */
  ghost function ReachableFrom(g: Edges<string>, entry: string): (r: set<string>)
    ensures forall v :: v in r <==> Reaches(g, entry, v)
    ensures entry in r && Closed(g, r)
  {
    var r := set v | v in Universe(g, entry) && Reaches(g, entry, v);
    assert forall v :: Reaches(g, entry, v) ==> v in r by {
      forall v | Reaches(g, entry, v) ensures v in r {
        ClosedReaches(g, Universe(g, entry), entry, v);
      }
    }
    Refl(g, entry);
    assert Closed(g, r) by {
      forall u, v | (u, v) in g && u in r ensures v in r {
        Append(g, entry, u, v);
      }
    }
    r
  }

  /** Everything a visited package points at is visited or still on the stack. */
  ghost predicate Covered(deps: Deps, reachable: set<string>, stack: seq<string>) {
    forall u, v | u in reachable && v in Successors(deps, u) :: v in reachable || v in stack
  }

  lemma CoveredPop(deps: Deps, reachable: set<string>, rest: seq<string>, n: string)
    requires Covered(deps, reachable, rest + [n])
    ensures n in reachable ==> Covered(deps, reachable, rest)
    ensures Covered(deps, reachable + {n}, rest + Successors(deps, n))
  {
    forall u, v | u in reachable + {n} && v in Successors(deps, u)
      ensures v in reachable + {n} || v in rest + Successors(deps, n)
    {
      if u in reachable { assert v in reachable || v in rest + [n]; }
    }
    if n in reachable {
      forall u, v | u in reachable && v in Successors(deps, u) ensures v in reachable || v in rest {
        assert v in reachable || v in rest + [n];
      }
    }
  }

  lemma CoveredClosed(deps: Deps, reachable: set<string>)
    requires Covered(deps, reachable, [])
    ensures Closed(EdgesOf(deps), reachable)
  {
    forall u, v | (u, v) in EdgesOf(deps) && u in reachable ensures v in reachable {
      assert v in Successors(deps, u);
    }
  }

  /** The depth-first worklist: an explicit stack, popped from its end. */
  method CollectReachable(deps: Deps, start: string) returns (reachable: set<string>)
    ensures reachable == ReachableFrom(EdgesOf(deps), start)
  {
    ghost var all := ReachableFrom(EdgesOf(deps), start);
    reachable := {};
    var stack := [start];
    while |stack| > 0
      invariant reachable <= all
      invariant forall x | x in stack :: x in all
      invariant start in reachable || start in stack
      invariant Covered(deps, reachable, stack)
      decreases |all - reachable|, |stack|
    {
      var n := stack[|stack| - 1];
      SplitLast(stack);
      stack := stack[..|stack| - 1];
      CoveredPop(deps, reachable, stack, n);
      if n in reachable {
        continue;
      }
      SubsetSmaller(all - (reachable + {n}), all - reachable);
      reachable := reachable + {n};
      assert forall v | v in Successors(deps, n) :: (n, v) in EdgesOf(deps);
      stack := stack + Successors(deps, n);
    }
    CoveredClosed(deps, reachable);
    forall v | v in all ensures v in reachable {
      ClosedReaches(EdgesOf(deps), reachable, start, v);
    }
  }
}
