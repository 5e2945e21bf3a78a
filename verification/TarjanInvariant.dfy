/** What Tarjan's algorithm keeps between any two of its steps, and why each of its
    three kinds of step (open a node, close a node that stays on the stack, close a
    node and pop its component) keeps it.

    A node is gray while its call is running. A visited node that is not gray is black.
    Nodes on the stack are compared by discovery number.
 */
module TarjanInvariant {
  import opened Strings
  import opened Graph

  /** The part of the algorithm's state that the argument is about. */
  datatype Env = Env(index: nat, stack: seq<string>, idx: map<string, nat>, sccs: seq<seq<string>>)

  /** All the members of a list of components. */
  ghost function Members(sccs: seq<seq<string>>): (m: set<string>)
  {
    if sccs == [] then {}
    else Members(sccs[..|sccs| - 1]) + Elems(sccs[|sccs| - 1])
  }

  lemma {:induction false} MembersOf(sccs: seq<seq<string>>, i: nat, x: string)
    requires i < |sccs| && x in sccs[i]
    ensures x in Members(sccs)
  {
    if i < |sccs| - 1 {
      MembersOf(sccs[..|sccs| - 1], i, x);
    }
  }

  lemma {:induction false} MemberIndex(sccs: seq<seq<string>>, x: string) returns (i: nat)
    requires x in Members(sccs)
    ensures i < |sccs| && x in sccs[i]
  {
    if x in sccs[|sccs| - 1] {
      i := |sccs| - 1;
    } else {
      i := MemberIndex(sccs[..|sccs| - 1], x);
    }
  }

  /** A duplicate-free listing of one class of mutually reachable nodes. */
  ghost predicate IsComponent(g: Edges<string>, c: seq<string>) {
    c != [] && Distinct(c) && forall x, y | x in c :: y in c <==> Mutual(g, x, y)
  }

  /** Components are classes, pairwise disjoint, and no edge leads from one to a later one. */
  ghost predicate Components(g: Edges<string>, sccs: seq<seq<string>>) {
    && (forall i | 0 <= i < |sccs| :: IsComponent(g, sccs[i]))
    && (forall i, j, x | 0 <= i < j < |sccs| && x in sccs[i] :: x !in sccs[j])
    && (forall i | 0 <= i <= |sccs| :: Closed(g, Members(sccs[..i])))
  }

  ghost predicate Numbered(e: Env, reach: set<string>) {
    && e.idx.Keys <= reach
    && (forall x | x in e.idx :: 1 <= e.idx[x] <= e.index)
    && (forall x | x in e.stack :: x in e.idx)
  }

  /** The stack lists its nodes in the order of discovery. */
  ghost predicate Stacked(e: Env)
    requires forall x | x in e.stack :: x in e.idx
  {
    forall i, j | 0 <= i < j < |e.stack| :: e.idx[e.stack[i]] < e.idx[e.stack[j]]
  }

  ghost predicate Placed(e: Env) {
    && (forall x :: x in e.idx <==> x in e.stack || x in Members(e.sccs))
    && (forall x | x in e.stack :: x !in Members(e.sccs))
  }

  ghost predicate NoBlackToWhite(g: Edges<string>, e: Env, gray: set<string>) {
    forall x, y | (x, y) in g && x in e.idx && x !in gray :: y in e.idx
  }

  ghost predicate StackReach(g: Edges<string>, e: Env)
    requires forall x | x in e.stack :: x in e.idx
  {
    forall x, y {:trigger Reaches(g, x, y)} | x in e.stack && y in e.stack && e.idx[x] <= e.idx[y] ::
      Reaches(g, x, y)
  }

  /** y reaches a gray node discovered no later than y. */
  ghost predicate HasGrayBelow(g: Edges<string>, e: Env, gray: set<string>, y: string)
    requires y in e.idx && forall x | x in gray :: x in e.idx
  {
    exists x :: x in gray && e.idx[x] <= e.idx[y] && Reaches(g, y, x)
  }

  ghost predicate ToGray(g: Edges<string>, e: Env, gray: set<string>)
    requires forall x | x in e.stack :: x in e.idx
    requires forall x | x in gray :: x in e.idx
  {
    forall y {:trigger HasGrayBelow(g, e, gray, y)} | y in e.stack :: HasGrayBelow(g, e, gray, y)
  }

  /** The invariant of the stack; that of the finished components is Components. */
  ghost predicate Inv(g: Edges<string>, reach: set<string>, e: Env, gray: set<string>) {
    && Numbered(e, reach)
    && Stacked(e)
    && Placed(e)
    && (forall x | x in gray :: x in e.stack)
    && NoBlackToWhite(g, e, gray)
    && StackReach(g, e)
    && ToGray(g, e, gray)
  }

  /** Later states keep the stacked nodes, the numbers and the components, and number
      new nodes above the old ones. */
  ghost predicate Extends(e: Env, f: Env) {
    && e.index <= f.index
    && (forall x | x in e.idx :: x in f.idx && f.idx[x] == e.idx[x])
    && (forall x | x in f.idx && x !in e.idx :: f.idx[x] > e.index)
    && (forall x | x in e.stack :: x in f.stack)
    && Members(e.sccs) <= Members(f.sccs)
  }

  lemma ExtendsTrans(e: Env, f: Env, h: Env)
    requires Extends(e, f) && Extends(f, h)
    ensures Extends(e, h)
  {
  }

  /** No edge between stacked nodes leads from a number of k or more to one below k
      that is also below low. */
  ghost predicate LowBounds(g: Edges<string>, e: Env, k: nat, low: nat)
    requires forall x | x in e.stack :: x in e.idx
  {
    forall x, y | (x, y) in g && x in e.stack && y in e.stack && e.idx[y] < k <= e.idx[x] :: low <= e.idx[y]
  }

  // ---------------------------------------------------------------------
  // Opening a node
  // ---------------------------------------------------------------------

  function Push(e: Env, v: string): Env {
    Env(e.index + 1, e.stack + [v], e.idx[v := e.index + 1], e.sccs)
  }

  lemma PushStacked(reach: set<string>, e: Env, v: string)
    requires Numbered(e, reach) && Placed(e) && Stacked(e) && v in reach && v !in e.idx
    ensures forall x :: x in Push(e, v).stack <==> x in e.stack || x == v
    ensures Numbered(Push(e, v), reach) && Placed(Push(e, v)) && Stacked(Push(e, v))
  {
    var f := Push(e, v);
    assert forall x :: x in f.stack <==> x in e.stack || x == v;
    forall i, j | 0 <= i < j < |f.stack| ensures f.idx[f.stack[i]] < f.idx[f.stack[j]] {
      assert f.stack[i] == e.stack[i] && e.stack[i] in e.stack;
      if j < |e.stack| { assert f.stack[j] == e.stack[j] && e.stack[j] in e.stack; }
    }
  }

  lemma PushReach(g: Edges<string>, e: Env, gray: set<string>, v: string)
    requires v !in e.idx && forall x | x in e.stack :: x in e.idx && e.idx[x] <= e.index
    requires forall x | x in gray :: x in e.stack && Reaches(g, x, v)
    requires StackReach(g, e) && ToGray(g, e, gray)
    requires forall x :: x in Push(e, v).stack <==> x in e.stack || x == v
    ensures StackReach(g, Push(e, v)) && ToGray(g, Push(e, v), gray + {v})
  {
    var f := Push(e, v);
    Refl(g, v);
    forall x | x in e.stack ensures Reaches(g, x, v) && HasGrayBelow(g, f, gray + {v}, x) {
      assert HasGrayBelow(g, e, gray, x);
      var z :| z in gray && e.idx[z] <= e.idx[x] && Reaches(g, x, z);
      Trans(g, x, z, v);
      assert z in gray + {v};
    }
    assert v in gray + {v};
  }

  lemma PushInv(g: Edges<string>, reach: set<string>, e: Env, gray: set<string>, v: string)
    requires Inv(g, reach, e, gray) && v in reach && v !in e.idx
    requires forall x | x in gray :: Reaches(g, x, v)
    ensures Inv(g, reach, Push(e, v), gray + {v})
    ensures Extends(e, Push(e, v))
    ensures LowBounds(g, Push(e, v), e.index + 2, e.index + 1)
  {
    PushStacked(reach, e, v);
    PushReach(g, e, gray, v);
  }

  // ---------------------------------------------------------------------
  // Closing a node that stays on the stack
  // ---------------------------------------------------------------------

  lemma StayInv(g: Edges<string>, reach: set<string>, e: Env, gray: set<string>, v: string, u: string)
    requires Inv(g, reach, e, gray + {v}) && v !in gray
    requires forall y | (v, y) in g :: y in e.idx
    requires u in e.stack && e.idx[u] < e.idx[v] && Reaches(g, v, u)
    ensures Inv(g, reach, e, gray)
  {
    forall x, y | (x, y) in g && x in e.idx && x !in gray ensures y in e.idx {
      if x != v { assert x !in gray + {v}; }
    }
    forall x | x in gray ensures x in e.stack {
      assert x in gray + {v};
    }
    forall y | y in e.stack ensures HasGrayBelow(g, e, gray, y) {
      StayGray(g, e, gray, v, u, y);
    }
  }

  lemma StayGray(g: Edges<string>, e: Env, gray: set<string>, v: string, u: string, y: string)
    requires forall x | x in e.stack :: x in e.idx
    requires v !in gray && forall x | x in gray + {v} :: x in e.idx
    requires ToGray(g, e, gray + {v})
    requires u in e.stack && e.idx[u] < e.idx[v] && Reaches(g, v, u)
    requires y in e.stack
    ensures HasGrayBelow(g, e, gray, y)
  {
    assert HasGrayBelow(g, e, gray + {v}, y);
    var x :| x in gray + {v} && e.idx[x] <= e.idx[y] && Reaches(g, y, x);
    if x == v {
      assert HasGrayBelow(g, e, gray + {v}, u);
      var z :| z in gray + {v} && e.idx[z] <= e.idx[u] && Reaches(g, u, z);
      Trans(g, v, u, z);
      Trans(g, y, v, z);
    }
  }

  // ---------------------------------------------------------------------
  // Closing a node and popping its component
  // ---------------------------------------------------------------------

  function Pop(e: Env, n: nat): Env
    requires n < |e.stack|
  {
    Env(e.index, e.stack[..n], e.idx, e.sccs + [e.stack[n..]])
  }

  /** The popped nodes are those numbered from the root of the component on. */
  lemma SplitByNumber(e: Env, n: nat)
    requires n < |e.stack|
    requires forall x | x in e.stack :: x in e.idx
    requires Stacked(e)
    ensures forall x :: x in e.stack[..n] <==> x in e.stack && e.idx[x] < e.idx[e.stack[n]]
    ensures forall x :: x in e.stack[n..] <==> x in e.stack && e.idx[e.stack[n]] <= e.idx[x]
  {
    forall x ensures x in e.stack[..n] <==> x in e.stack && e.idx[x] < e.idx[e.stack[n]]
             ensures x in e.stack[n..] <==> x in e.stack && e.idx[e.stack[n]] <= e.idx[x]
    {
      SplitOne(e, n, x);
    }
  }

  lemma SplitOne(e: Env, n: nat, x: string)
    requires n < |e.stack|
    requires forall y | y in e.stack :: y in e.idx
    requires Stacked(e)
    ensures x in e.stack[..n] <==> x in e.stack && e.idx[x] < e.idx[e.stack[n]]
    ensures x in e.stack[n..] <==> x in e.stack && e.idx[e.stack[n]] <= e.idx[x]
  {
    var low, high := e.stack[..n], e.stack[n..];
    assert e.stack == low + high;
    if x in low {
      var i :| 0 <= i < n && low[i] == x;
      assert e.stack[i] == x;
    }
    if x in high {
      var i :| 0 <= i < |high| && high[i] == x;
      assert e.stack[n + i] == x;
    }
  }

  lemma MembersAppend(sccs: seq<seq<string>>, c: seq<string>)
    ensures Members(sccs + [c]) == Members(sccs) + Elems(c)
  {
    var all := sccs + [c];
    assert all[..|all| - 1] == sccs;
  }

  /** The popped part of the stack together with the old components is closed. */
  lemma PoppedClosed(g: Edges<string>, e: Env, gray: set<string>, n: nat)
    requires n < |e.stack| && forall x | x in e.stack :: x in e.idx
    requires Stacked(e) && Placed(e) && NoBlackToWhite(g, e, gray + {e.stack[n]})
    requires Closed(g, Members(e.sccs))
    requires forall x | x in gray :: x in e.idx && e.idx[x] < e.idx[e.stack[n]]
    requires forall y | (e.stack[n], y) in g :: y in e.idx
    requires LowBounds(g, e, e.idx[e.stack[n]], e.idx[e.stack[n]])
    ensures Closed(g, Members(e.sccs) + Elems(e.stack[n..]))
  {
    SplitByNumber(e, n);
    var d := Members(e.sccs) + Elems(e.stack[n..]);
    forall x, y | (x, y) in g && x in d ensures y in d {
      if x !in Members(e.sccs) {
        assert x !in gray;
        assert y in e.idx;
      }
    }
  }

  /** What is on the stack from a root upward reaches the root and is reached by it. */
  lemma PoppedMutual(g: Edges<string>, e: Env, gray: set<string>, n: nat, x: string)
    requires n < |e.stack| && forall x | x in e.stack :: x in e.idx
    requires Stacked(e) && Placed(e) && StackReach(g, e)
    requires forall x | x in gray :: x in e.idx && x in e.stack && e.idx[x] < e.idx[e.stack[n]]
    requires ToGray(g, e, gray + {e.stack[n]})
    requires Closed(g, Members(e.sccs) + Elems(e.stack[n..]))
    requires x in e.stack[n..]
    ensures Mutual(g, e.stack[n], x)
  {
    hide Reaches;
    var c, v := e.stack[n..], e.stack[n];
    SplitByNumber(e, n);
    assert HasGrayBelow(g, e, gray + {v}, x);
    var z :| z in gray + {v} && e.idx[z] <= e.idx[x] && Reaches(g, x, z);
    ClosedReaches(g, Members(e.sccs) + Elems(c), x, z);
    assert z == v;
  }

  lemma PoppedDistinct(e: Env, n: nat)
    requires n < |e.stack| && (forall x | x in e.stack :: x in e.idx) && Stacked(e)
    ensures Distinct(e.stack[n..])
  {
    var c := e.stack[n..];
    forall i, j | 0 <= i < j < |c| ensures c[i] != c[j] {
      assert c[i] == e.stack[n + i] && c[j] == e.stack[n + j];
    }
  }

  /** Nothing else is mutually reachable with it. */
  lemma PoppedWhole(g: Edges<string>, e: Env, n: nat, x: string, y: string)
    requires n < |e.stack| && (forall x | x in e.stack :: x in e.idx) && Placed(e)
    requires Closed(g, Members(e.sccs)) && Closed(g, Members(e.sccs) + Elems(e.stack[n..]))
    requires x in e.stack[n..] && Mutual(g, x, y)
    ensures y in e.stack[n..]
  {
    var c := e.stack[n..];
    ClosedReaches(g, Members(e.sccs) + Elems(c), x, y);
    assert x in e.stack;
    if y in Members(e.sccs) {
      ClosedReaches(g, Members(e.sccs), y, x);
    }
  }

  lemma PoppedIsComponent(g: Edges<string>, e: Env, gray: set<string>, n: nat)
    requires n < |e.stack| && forall x | x in e.stack :: x in e.idx
    requires Stacked(e) && Placed(e) && StackReach(g, e)
    requires forall x | x in gray :: x in e.idx && x in e.stack && e.idx[x] < e.idx[e.stack[n]]
    requires ToGray(g, e, gray + {e.stack[n]})
    requires Closed(g, Members(e.sccs))
    requires Closed(g, Members(e.sccs) + Elems(e.stack[n..]))
    ensures IsComponent(g, e.stack[n..])
  {
    hide Reaches, Stacked, Placed, StackReach, ToGray, Closed, Elems, Distinct;
    var c, v := e.stack[n..], e.stack[n];
    PoppedDistinct(e, n);
    forall x, y | x in c ensures y in c <==> Mutual(g, x, y) {
      PoppedMutual(g, e, gray, n, x);
      if y in c {
        PoppedMutual(g, e, gray, n, y);
        Trans(g, x, v, y);
        Trans(g, y, v, x);
      }
      if Mutual(g, x, y) {
        PoppedWhole(g, e, n, x, y);
      }
    }
    assert c[0] == v;
  }

  lemma PopComponents(g: Edges<string>, sccs: seq<seq<string>>, c: seq<string>)
    requires Components(g, sccs) && IsComponent(g, c)
    requires forall x | x in c :: x !in Members(sccs)
    requires Closed(g, Members(sccs) + Elems(c))
    ensures Components(g, sccs + [c])
  {
    var all := sccs + [c];
    forall i, j, x | 0 <= i < j < |all| && x in all[i] ensures x !in all[j] {
      if j == |sccs| {
        MembersOf(sccs, i, x);
      }
    }
    forall i | 0 <= i <= |all| ensures Closed(g, Members(all[..i])) {
      if i <= |sccs| {
        assert all[..i] == sccs[..i];
      } else {
        assert all[..i] == all;
        MembersAppend(sccs, c);
      }
    }
  }

  lemma PopPlaced(e: Env, n: nat)
    requires n < |e.stack| && Placed(e)
    requires forall x | x in e.stack :: x in e.idx
    requires Stacked(e)
    ensures Placed(Pop(e, n)) && Stacked(Pop(e, n))
  {
    MembersAppend(e.sccs, e.stack[n..]);
    SplitByNumber(e, n);
    var low := e.stack[..n];
    forall i, j | 0 <= i < j < n ensures e.idx[low[i]] < e.idx[low[j]] {
      assert low[i] == e.stack[i] && low[j] == e.stack[j];
    }
  }

  lemma PopToGray(g: Edges<string>, e: Env, gray: set<string>, n: nat)
    requires n < |e.stack| && forall x | x in e.stack :: x in e.idx
    requires Stacked(e) && StackReach(g, e)
    requires forall x | x in gray :: x in e.idx
    requires ToGray(g, e, gray + {e.stack[n]})
    ensures StackReach(g, Pop(e, n)) && ToGray(g, Pop(e, n), gray)
  {
    SplitByNumber(e, n);
    var f := Pop(e, n);
    forall y | y in f.stack ensures HasGrayBelow(g, f, gray, y) {
      assert HasGrayBelow(g, e, gray + {e.stack[n]}, y);
      var x :| x in gray + {e.stack[n]} && e.idx[x] <= e.idx[y] && Reaches(g, y, x);
      assert x in gray;
    }
  }

  lemma PopInv(g: Edges<string>, reach: set<string>, e: Env, gray: set<string>, n: nat)
    requires n < |e.stack|
    requires Inv(g, reach, e, gray + {e.stack[n]})
    requires forall x | x in gray :: x in e.idx && e.idx[x] < e.idx[e.stack[n]]
    requires forall y | (e.stack[n], y) in g :: y in e.idx
    ensures Inv(g, reach, Pop(e, n), gray)
  {
    PopPlaced(e, n);
    PopToGray(g, e, gray, n);
    SplitByNumber(e, n);
  }

  lemma PopSccs(g: Edges<string>, reach: set<string>, e: Env, gray: set<string>, n: nat)
    requires n < |e.stack|
    requires Inv(g, reach, e, gray + {e.stack[n]}) && Components(g, e.sccs)
    requires forall x | x in gray :: x in e.idx && e.idx[x] < e.idx[e.stack[n]]
    requires forall y | (e.stack[n], y) in g :: y in e.idx
    requires LowBounds(g, e, e.idx[e.stack[n]], e.idx[e.stack[n]])
    ensures Components(g, Pop(e, n).sccs)
  {
    assert Closed(g, Members(e.sccs)) by { assert e.sccs[..|e.sccs|] == e.sccs; }
    PoppedClosed(g, e, gray, n);
    PoppedIsComponent(g, e, gray, n);
    SplitByNumber(e, n);
    PopComponents(g, e.sccs, e.stack[n..]);
  }
}
