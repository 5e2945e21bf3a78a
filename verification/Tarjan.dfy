/** Tarjan's strongly connected components, with the mutable state and the recursion
    of the original, and the component numbering built from it.
 */
module Tarjan {
  import opened Strings
  import opened Graph
  import opened Dependencies
  import opened TarjanInvariant

  // ---------------------------------------------------------------------
  // sort.Slice by discovery index
  // ---------------------------------------------------------------------

  function InsertByIndex(x: string, s: seq<string>, idx: map<string, nat>): (r: seq<string>)
    requires x in idx && forall y | y in s :: y in idx
    ensures |r| == |s| + 1 && forall y :: y in r <==> y in s || y == x
  {
    if s == [] then [x]
    else if idx[x] <= idx[s[0]] then [x] + s
    else
      assert s == [s[0]] + s[1..];
      [s[0]] + InsertByIndex(x, s[1..], idx)
  }

  function SortByIndex(s: seq<string>, idx: map<string, nat>): (r: seq<string>)
    requires forall y | y in s :: y in idx
    ensures |r| == |s| && forall y :: y in r <==> y in s
  {
    if s == [] then []
    else
      var init := s[..|s| - 1];
      assert s == init + [s[|s| - 1]] by { SplitLast(s); }
      InsertByIndex(s[|s| - 1], SortByIndex(init, idx), idx)
  }

  ghost function Reverse<T(!new)>(s: seq<T>): (r: seq<T>)
    ensures |r| == |s|
    ensures forall x :: x in r <==> x in s
  {
    if s == [] then [] else Reverse(s[1..]) + [s[0]]
  }

  lemma InitOfAppend(s: seq<string>, x: string)
    ensures (s + [x])[..|s|] == s
  {
  }

  lemma SortAppend(s: seq<string>, x: string, idx: map<string, nat>)
    requires x in idx && forall y | y in s :: y in idx
    ensures SortByIndex(s + [x], idx) == InsertByIndex(x, SortByIndex(s, idx), idx)
  {
    hide InsertByIndex;
    InitOfAppend(s, x);
  }

  lemma InsertLeast(x: string, s: seq<string>, idx: map<string, nat>)
    requires x in idx && (forall y | y in s :: y in idx) && (s != [] ==> idx[x] <= idx[s[0]])
    ensures InsertByIndex(x, s, idx) == [x] + s
  {
  }

  /** Popping reverses the top of the stack; sorting by index restores its order. */
  lemma {:induction false} SortUndoesPops(t: seq<string>, idx: map<string, nat>)
    requires forall y | y in t :: y in idx
    requires forall i, j | 0 <= i < j < |t| :: idx[t[i]] < idx[t[j]]
    ensures SortByIndex(Reverse(t), idx) == t
  {
    hide SortByIndex, InsertByIndex;
    if t == [] {
      assert SortByIndex([], idx) == [];
    } else {
      var rest := t[1..];
      assert t == [t[0]] + rest;
      SortUndoesPops(rest, idx);
      SortAppend(Reverse(rest), t[0], idx);
      InsertLeast(t[0], rest, idx);
    }
  }

  // ---------------------------------------------------------------------
  // Facts about low links used by strongConnect
  // ---------------------------------------------------------------------

  ghost predicate AllReach(g: Edges<string>, s: set<string>, v: string) {
    forall x | x in s :: Reaches(g, x, v)
  }

  /** low is the number of a stacked node that v reaches. */
  ghost predicate LowWitness(g: Edges<string>, e: Env, v: string, low: nat)
    requires forall x | x in e.stack :: x in e.idx
  {
    exists y :: y in e.stack && e.idx[y] == low && Reaches(g, v, y)
  }

  /** The first n successors of v are visited, and low is at most the number of each
      of them that is on the stack. */
  ghost predicate Seen(deps: Deps, reach: set<string>, e: Env, v: string, n: nat, low: nat)
    requires n <= |Successors(deps, v)|
  {
    forall k | 0 <= k < n ::
      var w := Successors(deps, v)[k];
      w in reach ==> w in e.idx && (w in e.stack ==> low <= e.idx[w])
  }

  /** The state in the middle of the call for v that began in state e0, once the first
      i successors of v have been scanned. */
  ghost predicate Scanning(deps: Deps, reach: set<string>, e0: Env, e: Env, gray: set<string>, v: string, i: nat, low: nat)
  {
    var g := EdgesWithin(deps, reach);
    && i <= |Successors(deps, v)|
    && Numbered(e0, reach) && v !in e0.idx
    && (forall x | x in gray :: x in e0.stack)
    && Inv(g, reach, e, gray + {v}) && Components(g, e.sccs)
    && Extends(Push(e0, v), e) && Push(e0, v).stack <= e.stack
    && v in e.stack && v in e.idx && e.idx[v] == e0.index + 1
    && low <= e.idx[v]
    && LowBounds(g, e, e0.index + 2, low)
    && LowWitness(g, e, v, low)
    && Seen(deps, reach, e, v, i, low)
  }

  /** What a finished call for w, begun in state e, says about the state f it leaves. */
  ghost predicate Connected(g: Edges<string>, reach: set<string>, e: Env, f: Env, gray: set<string>, w: string, low: nat) {
    && Inv(g, reach, f, gray) && Components(g, f.sccs)
    && Extends(e, f) && e.stack <= f.stack
    && w in f.idx && f.idx[w] == e.index + 1 && low <= f.idx[w]
    && LowBounds(g, f, e.index + 1, low)
    && (w in f.stack ==> LowWitness(g, f, w, low))
    && (w !in f.stack ==> f.stack == e.stack && low == f.idx[w])
  }

  lemma ConnectedInv(g: Edges<string>, reach: set<string>, e: Env, f: Env, gray: set<string>, w: string, low: nat)
    requires Connected(g, reach, e, f, gray, w, low)
    ensures Inv(g, reach, f, gray) && Components(g, f.sccs)
    ensures forall x | x in e.idx :: x in f.idx
    ensures w in f.idx
  {
  }

  lemma ScanStart(deps: Deps, reach: set<string>, e0: Env, gray: set<string>, v: string)
    requires Inv(EdgesWithin(deps, reach), reach, e0, gray) && v in reach && v !in e0.idx
    requires Components(EdgesWithin(deps, reach), e0.sccs)
    requires AllReach(EdgesWithin(deps, reach), gray, v)
    ensures Scanning(deps, reach, e0, Push(e0, v), gray, v, 0, e0.index + 1)
  {
    var g, e := EdgesWithin(deps, reach), Push(e0, v);
    PushStacked(reach, e0, v);
    PushInv(g, reach, e0, gray, v);
    Refl(g, v);
    assert v in e.stack && e.idx[v] == e0.index + 1 && Reaches(g, v, v);
  }

  lemma SeenKept(deps: Deps, reach: set<string>, e: Env, f: Env, v: string, i: nat, low: nat, low': nat)
    requires i < |Successors(deps, v)| && Seen(deps, reach, e, v, i, low)
    requires Extends(e, f) && low' <= low
    requires forall x | x in e.idx && x in f.stack :: x in e.stack
    requires var w := Successors(deps, v)[i];
             w in reach ==> w in f.idx && (w in f.stack ==> low' <= f.idx[w])
    ensures Seen(deps, reach, f, v, i + 1, low')
  {
  }

  /** A node visited before the call and still stacked after it was stacked before it. */
  lemma OldStackOnly(e: Env, f: Env)
    requires Placed(e) && Placed(f) && Extends(e, f)
    ensures forall x | x in e.idx && x in f.stack :: x in e.stack
  {
  }

  /** The bound for the nodes above v, after one more child subtree was added above. */
  lemma LowBoundsGrow(g: Edges<string>, e: Env, f: Env, k: nat, low: nat, lowChild: nat)
    requires forall x | x in e.stack :: x in e.idx
    requires forall x | x in f.stack :: x in f.idx
    requires Extends(e, f) && k <= e.index + 1
    requires forall x | x in e.idx && x in f.stack :: x in e.stack
    requires LowBounds(g, e, k, low) && LowBounds(g, f, e.index + 1, lowChild)
    ensures LowBounds(g, f, k, if lowChild < low then lowChild else low)
  {
    forall x, y | (x, y) in g && x in f.stack && y in f.stack && f.idx[y] < k <= f.idx[x]
      ensures f.idx[y] >= if lowChild < low then lowChild else low
    {
      assert y in e.idx;
      if x in e.idx {
        assert (x, y) in g && x in e.stack && y in e.stack;
      } else {
        assert f.idx[x] > e.index;
      }
    }
  }

  lemma InvFacts(g: Edges<string>, reach: set<string>, e: Env, gray: set<string>)
    requires Inv(g, reach, e, gray)
    ensures Placed(e) && (forall x | x in e.stack :: x in e.idx) && Stacked(e)
  {
  }

  lemma NumberedReach(g: Edges<string>, reach: set<string>, e: Env, gray: set<string>, v: string)
    requires Inv(g, reach, e, gray) && v in e.idx
    ensures v in reach
  {
  }

  /** The low link after a tree edge to w: it still bounds and still has a witness. */
  lemma TreeLow(deps: Deps, reach: set<string>, e: Env, f: Env, v: string, w: string, i: nat, k: nat, low: nat, lowChild: nat)
    requires var g := EdgesWithin(deps, reach);
             && (v, w) in g
             && (forall x | x in e.stack :: x in e.idx) && (forall x | x in f.stack :: x in f.idx)
             && Placed(e) && Placed(f) && Extends(e, f) && k <= e.index + 1
             && v in e.idx && low <= e.idx[v] && e.idx[v] <= e.index
             && LowBounds(g, e, k, low) && LowBounds(g, f, e.index + 1, lowChild)
             && LowWitness(g, e, v, low)
             && w in f.idx && f.idx[w] == e.index + 1 && lowChild <= f.idx[w]
             && (w in f.stack ==> LowWitness(g, f, w, lowChild))
             && (w !in f.stack ==> lowChild == f.idx[w])
    requires i < |Successors(deps, v)| && Successors(deps, v)[i] == w && Seen(deps, reach, e, v, i, low)
    ensures var low' := if lowChild < low then lowChild else low;
            && LowBounds(EdgesWithin(deps, reach), f, k, low')
            && LowWitness(EdgesWithin(deps, reach), f, v, low')
            && Seen(deps, reach, f, v, i + 1, low')
  {
    hide Reaches;
    var g := EdgesWithin(deps, reach);
    var low' := if lowChild < low then lowChild else low;
    OldStackOnly(e, f);
    LowBoundsGrow(g, e, f, k, low, lowChild);
    SeenKept(deps, reach, e, f, v, i, low, low');
    if lowChild < low {
      var y :| y in f.stack && f.idx[y] == lowChild && Reaches(g, w, y);
      Prepend(g, v, w, y);
    } else {
      var y :| y in e.stack && e.idx[y] == low && Reaches(g, v, y);
      assert y in f.stack && f.idx[y] == low;
    }
  }

  lemma PrefixTrans(a: seq<string>, b: seq<string>, c: seq<string>)
    requires a <= b && b <= c
    ensures a <= c
  {
  }

  lemma ConnectedLow(g: Edges<string>, reach: set<string>, e: Env, f: Env, gray: set<string>, w: string, low: nat)
    requires Connected(g, reach, e, f, gray, w, low)
    ensures Inv(g, reach, f, gray) && Components(g, f.sccs) && Extends(e, f) && e.stack <= f.stack
    ensures w in f.idx && f.idx[w] == e.index + 1 && low <= f.idx[w] && LowBounds(g, f, e.index + 1, low)
    ensures (w in f.stack ==> LowWitness(g, f, w, low)) && (w !in f.stack ==> low == f.idx[w])
  {
    hide Inv, Components, Extends, LowBounds, LowWitness;
  }

  /** The low link of v after a tree edge. */
  lemma ScanTreeLow(deps: Deps, reach: set<string>, e0: Env, e: Env, f: Env, gray: set<string>, v: string, w: string, i: nat, low: nat, lowChild: nat, low': nat)
    requires Scanning(deps, reach, e0, e, gray, v, i, low)
    requires i < |Successors(deps, v)| && w == Successors(deps, v)[i] && w in reach
    requires Connected(EdgesWithin(deps, reach), reach, e, f, gray + {v}, w, lowChild)
    requires low' == if lowChild < low then lowChild else low
    ensures LowBounds(EdgesWithin(deps, reach), f, e0.index + 2, low') && LowWitness(EdgesWithin(deps, reach), f, v, low')
    ensures Seen(deps, reach, f, v, i + 1, low')
    ensures v in f.idx && f.idx[v] == e0.index + 1 && v in f.stack && low' <= f.idx[v]
  {
    var g := EdgesWithin(deps, reach);
    ConnectedLow(g, reach, e, f, gray + {v}, w, lowChild);
    hide Inv, Components, Reaches, Placed, LowBounds, LowWitness, Seen, Stacked, Extends, Numbered, Push, Successors, Connected;
    InvFacts(g, reach, e, gray + {v});
    InvFacts(g, reach, f, gray + {v});
    NumberedReach(g, reach, e, gray + {v}, v);
    ExtendsNode(e0, e, f, v);
    assert (v, w) in g;
    TreeLow(deps, reach, e, f, v, w, i, e0.index + 2, low, lowChild);
  }

  /** After a tree edge: the child's call has returned with its low link. */
  lemma ScanTree(deps: Deps, reach: set<string>, e0: Env, e: Env, f: Env, gray: set<string>, v: string, w: string, i: nat, low: nat, lowChild: nat, low': nat)
    requires Scanning(deps, reach, e0, e, gray, v, i, low)
    requires i < |Successors(deps, v)| && w == Successors(deps, v)[i] && w in reach
    requires Connected(EdgesWithin(deps, reach), reach, e, f, gray + {v}, w, lowChild)
    requires low' == if lowChild < low then lowChild else low
    ensures Scanning(deps, reach, e0, f, gray, v, i + 1, low')
  {
    hide Inv, Components, Reaches, Placed, LowBounds, LowWitness, Seen, Stacked, Extends, Numbered, Push, Successors, Connected;
    ConnectedLow(EdgesWithin(deps, reach), reach, e, f, gray + {v}, w, lowChild);
    ScanTreeLow(deps, reach, e0, e, f, gray, v, w, i, low, lowChild, low');
    ExtendsTrans(Push(e0, v), e, f);
    PrefixTrans(Push(e0, v).stack, e.stack, f.stack);
  }

  lemma ExtendsNode(e0: Env, e: Env, f: Env, v: string)
    requires Extends(Push(e0, v), e) && Extends(e, f) && v in e.idx && v in e.stack
    ensures e0.index + 1 <= e.index && v in f.idx && f.idx[v] == e.idx[v] && v in f.stack
  {
  }

  /** After any other edge to a visited node, low being lowered to its number or kept. */
  lemma ScanVisited(deps: Deps, reach: set<string>, e0: Env, e: Env, gray: set<string>, v: string, i: nat, low: nat, low': nat)
    requires Scanning(deps, reach, e0, e, gray, v, i, low) && i < |Successors(deps, v)|
    requires Successors(deps, v)[i] in reach && Successors(deps, v)[i] in e.idx
    requires var w := Successors(deps, v)[i];
             low' == if w in e.stack && e.idx[w] < low then e.idx[w] else low
    ensures Scanning(deps, reach, e0, e, gray, v, i + 1, low')
  {
    var g, w := EdgesWithin(deps, reach), Successors(deps, v)[i];
    assert (v, w) in g;
    if low' < low {
      Step(g, v, w);
      assert w in e.stack && e.idx[w] == low' && Reaches(g, v, w);
    }
    SeenKept(deps, reach, e, e, v, i, low, low');
  }

  lemma ScanOutside(deps: Deps, reach: set<string>, e0: Env, e: Env, gray: set<string>, v: string, i: nat, low: nat)
    requires Scanning(deps, reach, e0, e, gray, v, i, low) && i < |Successors(deps, v)|
    requires Successors(deps, v)[i] !in reach
    ensures Scanning(deps, reach, e0, e, gray, v, i + 1, low)
  {
    SeenKept(deps, reach, e, e, v, i, low, low);
  }

  /** Every gray node reaches the child that is about to be opened. */
  lemma ChildReady(deps: Deps, reach: set<string>, e0: Env, e: Env, gray: set<string>, v: string, i: nat, low: nat)
    requires Scanning(deps, reach, e0, e, gray, v, i, low) && i < |Successors(deps, v)|
    requires Successors(deps, v)[i] in reach
    ensures AllReach(EdgesWithin(deps, reach), gray + {v}, Successors(deps, v)[i])
    ensures Inv(EdgesWithin(deps, reach), reach, e, gray + {v}) && Components(EdgesWithin(deps, reach), e.sccs)
  {
    var g, w := EdgesWithin(deps, reach), Successors(deps, v)[i];
    assert (v, w) in g;
    forall x | x in gray + {v} ensures Reaches(g, x, w) {
      assert x in e.stack && e.idx[x] <= e.idx[v];
      assert Reaches(g, x, v);
      Append(g, x, v, w);
    }
  }

  lemma MoreVisited(reach: set<string>, before: set<string>, after: set<string>, v: string)
    requires v in reach && v in after && v !in before && before <= after
    ensures |reach - after| < |reach - before|
  {
    assert v in reach - before && v !in reach - after;
    SubsetSmaller(reach - after, reach - before);
  }

  /** All successors scanned: edges of v included, nothing below escapes low. */
  lemma ScanEdges(deps: Deps, reach: set<string>, e0: Env, e: Env, gray: set<string>, v: string, low: nat)
    requires Scanning(deps, reach, e0, e, gray, v, |Successors(deps, v)|, low)
    ensures forall y | (v, y) in EdgesWithin(deps, reach) :: y in e.idx
    ensures LowBounds(EdgesWithin(deps, reach), e, e0.index + 1, low)
  {
    var g := EdgesWithin(deps, reach);
    forall y | (v, y) in g ensures y in e.idx && (y in e.stack ==> low <= e.idx[y]) {
      var k :| 0 <= k < |Successors(deps, v)| && Successors(deps, v)[k] == y;
    }
    forall x, y | (x, y) in g && x in e.stack && y in e.stack && e.idx[y] < e0.index + 1 <= e.idx[x]
      ensures low <= e.idx[y]
    {
      if x != v {
        assert x !in e0.idx;
        assert e.idx[x] >= e0.index + 2;
      }
    }
  }

  lemma PopExtends(g: Edges<string>, reach: set<string>, e0: Env, e: Env, v: string, low: nat)
    requires Numbered(e0, reach) && v !in e0.idx
    requires Extends(Push(e0, v), e) && Push(e0, v).stack <= e.stack
    requires (forall x | x in e.stack :: x in e.idx) && Stacked(e)
    requires v in e.idx && e.idx[v] == e0.index + 1 && low == e.idx[v]
    ensures |e0.stack| < |e.stack| && e.stack[|e0.stack|] == v
    ensures var f := Pop(e, |e0.stack|);
            && f.stack == e0.stack && v !in f.stack && Extends(e0, f)
            && (forall x | x in f.stack :: x in f.idx) && LowBounds(g, f, e0.index + 1, low)
  {
    var n := |e0.stack|;
    assert Push(e0, v).stack[n] == v;
    assert e.stack[..n] == e0.stack;
    SplitByNumber(e, n);
    MembersAppend(e.sccs, e.stack[n..]);
    assert forall x | x in e0.idx :: x in Push(e0, v).idx;
  }

  /** v is found to be the root of its component, which is popped. */
  lemma ScanPops(deps: Deps, reach: set<string>, e0: Env, e: Env, gray: set<string>, v: string, low: nat)
    requires Scanning(deps, reach, e0, e, gray, v, |Successors(deps, v)|, low) && v in e.idx && low == e.idx[v]
    ensures |e0.stack| < |e.stack| && e.stack[|e0.stack|] == v
    ensures (forall x | x in e.stack :: x in e.idx) && Stacked(e)
    ensures Connected(EdgesWithin(deps, reach), reach, e0, Pop(e, |e0.stack|), gray, v, low)
  {
    hide Inv, Components, Reaches, LowBounds, LowWitness, Seen, Stacked;
    var g, n := EdgesWithin(deps, reach), |e0.stack|;
    InvFacts(g, reach, e, gray + {v});
    PopExtends(g, reach, e0, e, v, low);
    ScanEdges(deps, reach, e0, e, gray, v, low);
    assert forall x | x in gray :: x in e0.idx && x in Push(e0, v).idx;
    PopInv(g, reach, e, gray, n);
    PopSccs(g, reach, e, gray, n);
  }

  lemma ScanStays(deps: Deps, reach: set<string>, e0: Env, e: Env, gray: set<string>, v: string, low: nat)
    requires Scanning(deps, reach, e0, e, gray, v, |Successors(deps, v)|, low) && v in e.idx && low != e.idx[v]
    ensures Connected(EdgesWithin(deps, reach), reach, e0, e, gray, v, low)
  {
    var g := EdgesWithin(deps, reach);
    ScanEdges(deps, reach, e0, e, gray, v, low);
    var u :| u in e.stack && e.idx[u] == low && Reaches(g, v, u);
    StayInv(g, reach, e, gray, v, u);
    assert e0.stack <= Push(e0, v).stack;
  }

  // ---------------------------------------------------------------------
  // The same with the two bookkeeping maps of the implementation
  // ---------------------------------------------------------------------

  /** gray lists the nodes whose calls are running. */
  ghost predicate Consistent(deps: Deps, reach: set<string>, e: Env, low: map<string, nat>, onStack: set<string>, gray: set<string>) {
    && Inv(EdgesWithin(deps, reach), reach, e, gray)
    && Components(EdgesWithin(deps, reach), e.sccs)
    && onStack == Elems(e.stack)
    && low.Keys == e.idx.Keys
  }

  ghost predicate LowKept(e0: Env, low0: map<string, nat>, low: map<string, nat>) {
    forall x | x in e0.idx :: x in low0 && x in low && low[x] == low0[x]
  }

  /** The loop of a call for v that began with state e0 and low links low0. */
  ghost predicate InLoop(deps: Deps, reach: set<string>, e0: Env, low0: map<string, nat>,
                         e: Env, low: map<string, nat>, onStack: set<string>, gray: set<string>, v: string, i: nat) {
    && v in low
    && Scanning(deps, reach, e0, e, gray, v, i, low[v])
    && onStack == Elems(e.stack)
    && low.Keys == e.idx.Keys
    && LowKept(e0, low0, low)
  }

  ghost predicate Returned(deps: Deps, reach: set<string>, e0: Env, low0: map<string, nat>,
                           e: Env, low: map<string, nat>, onStack: set<string>, gray: set<string>, v: string) {
    && v in low
    && Consistent(deps, reach, e, low, onStack, gray)
    && Connected(EdgesWithin(deps, reach), reach, e0, e, gray, v, low[v])
    && LowKept(e0, low0, low)
  }

  lemma LoopStart(deps: Deps, reach: set<string>, e0: Env, low0: map<string, nat>, onStack0: set<string>, gray: set<string>, v: string)
    requires Consistent(deps, reach, e0, low0, onStack0, gray)
    requires v in reach && v !in e0.idx && AllReach(EdgesWithin(deps, reach), gray, v)
    ensures InLoop(deps, reach, e0, low0, Push(e0, v), low0[v := e0.index + 1], onStack0 + {v}, gray, v, 0)
  {
    ScanStart(deps, reach, e0, gray, v);
    assert Elems(Push(e0, v).stack) == Elems(e0.stack) + {v};
  }

  lemma LoopFacts(deps: Deps, reach: set<string>, e0: Env, low0: map<string, nat>,
                  e: Env, low: map<string, nat>, onStack: set<string>, gray: set<string>, v: string, i: nat)
    requires InLoop(deps, reach, e0, low0, e, low, onStack, gray, v, i)
    ensures v in low && v in e.idx
    ensures |reach - e.idx.Keys| < |reach - e0.idx.Keys|
  {
    NumberedReach(EdgesWithin(deps, reach), reach, e, gray + {v}, v);
    ScanningFacts(deps, reach, e0, e, gray, v, i, low[v]);
    MoreVisited(reach, e0.idx.Keys, e.idx.Keys, v);
  }

  lemma LoopChild(deps: Deps, reach: set<string>, e0: Env, low0: map<string, nat>,
                  e: Env, low: map<string, nat>, onStack: set<string>, gray: set<string>, v: string, i: nat)
    requires InLoop(deps, reach, e0, low0, e, low, onStack, gray, v, i) && i < |Successors(deps, v)|
    requires Successors(deps, v)[i] in reach
    ensures Consistent(deps, reach, e, low, onStack, gray + {v})
    ensures AllReach(EdgesWithin(deps, reach), gray + {v}, Successors(deps, v)[i])
  {
    hide Connected, AllReach;
    ChildReady(deps, reach, e0, e, gray, v, i, low[v]);
  }

  lemma LoopTree(deps: Deps, reach: set<string>, e0: Env, low0: map<string, nat>,
                 e: Env, low: map<string, nat>, onStack: set<string>, gray: set<string>, v: string, i: nat,
                 f: Env, low': map<string, nat>, onStack': set<string>)
    requires InLoop(deps, reach, e0, low0, e, low, onStack, gray, v, i) && i < |Successors(deps, v)|
    requires Successors(deps, v)[i] in reach
    requires Returned(deps, reach, e, low, f, low', onStack', gray + {v}, Successors(deps, v)[i])
    ensures v in low'
    ensures InLoop(deps, reach, e0, low0, f,
                   if low'[Successors(deps, v)[i]] < low'[v] then low'[v := low'[Successors(deps, v)[i]]] else low',
                   onStack', gray, v, i + 1)
  {
    hide Scanning, Connected, Inv, Components;
    var w := Successors(deps, v)[i];
    ScanningFacts(deps, reach, e0, e, gray, v, i, low[v]);
    assert low'[v] == low[v];
    ScanTree(deps, reach, e0, e, f, gray, v, w, i, low[v], low'[w], if low'[w] < low[v] then low'[w] else low[v]);
  }

  lemma ScanningFacts(deps: Deps, reach: set<string>, e0: Env, e: Env, gray: set<string>, v: string, i: nat, low: nat)
    requires Scanning(deps, reach, e0, e, gray, v, i, low)
    ensures v in e.idx && v !in e0.idx
    ensures forall x | x in e0.idx :: x in e.idx
  {
    assert forall x | x in e0.idx :: x in Push(e0, v).idx;
  }

  lemma ReturnedFacts(deps: Deps, reach: set<string>, e0: Env, low0: map<string, nat>,
                      e: Env, low: map<string, nat>, onStack: set<string>, gray: set<string>, v: string)
    requires Returned(deps, reach, e0, low0, e, low, onStack, gray, v)
    ensures v in low && v in e.idx && Consistent(deps, reach, e, low, onStack, gray)
    ensures forall x | x in e0.idx :: x in e.idx
  {
    hide Inv, Components;
  }

  lemma LoopVisited(deps: Deps, reach: set<string>, e0: Env, low0: map<string, nat>,
                    e: Env, low: map<string, nat>, onStack: set<string>, gray: set<string>, v: string, i: nat)
    requires InLoop(deps, reach, e0, low0, e, low, onStack, gray, v, i) && i < |Successors(deps, v)|
    requires Successors(deps, v)[i] in reach && Successors(deps, v)[i] in e.idx
    ensures InLoop(deps, reach, e0, low0, e,
                   if Successors(deps, v)[i] in onStack && e.idx[Successors(deps, v)[i]] < low[v]
                   then low[v := e.idx[Successors(deps, v)[i]]] else low,
                   onStack, gray, v, i + 1)
  {
    hide Scanning;
    var w := Successors(deps, v)[i];
    ScanningFacts(deps, reach, e0, e, gray, v, i, low[v]);
    ScanVisited(deps, reach, e0, e, gray, v, i, low[v],
      if w in e.stack && e.idx[w] < low[v] then e.idx[w] else low[v]);
  }

  lemma LoopOutside(deps: Deps, reach: set<string>, e0: Env, low0: map<string, nat>,
                    e: Env, low: map<string, nat>, onStack: set<string>, gray: set<string>, v: string, i: nat)
    requires InLoop(deps, reach, e0, low0, e, low, onStack, gray, v, i) && i < |Successors(deps, v)|
    requires Successors(deps, v)[i] !in reach
    ensures InLoop(deps, reach, e0, low0, e, low, onStack, gray, v, i + 1)
  {
    hide Scanning;
    ScanOutside(deps, reach, e0, e, gray, v, i, low[v]);
  }

  lemma LoopPops(deps: Deps, reach: set<string>, e0: Env, low0: map<string, nat>,
                 e: Env, low: map<string, nat>, onStack: set<string>, gray: set<string>, v: string)
    requires InLoop(deps, reach, e0, low0, e, low, onStack, gray, v, |Successors(deps, v)|)
    requires v in e.idx && low[v] == e.idx[v]
    ensures |e0.stack| < |e.stack| && e.stack[|e0.stack|] == v
    ensures (forall x | x in e.stack :: x in e.idx) && Stacked(e)
    ensures onStack == Elems(e.stack)
    ensures var f := Pop(e, |e0.stack|);
            Returned(deps, reach, e0, low0, f, low, Elems(f.stack), gray, v)
  {
    hide Scanning, Connected, Inv, Components;
    ScanPops(deps, reach, e0, e, gray, v, low[v]);
    ConnectedInv(EdgesWithin(deps, reach), reach, e0, Pop(e, |e0.stack|), gray, v, low[v]);
  }

  lemma LoopStays(deps: Deps, reach: set<string>, e0: Env, low0: map<string, nat>,
                  e: Env, low: map<string, nat>, onStack: set<string>, gray: set<string>, v: string)
    requires InLoop(deps, reach, e0, low0, e, low, onStack, gray, v, |Successors(deps, v)|)
    requires v in e.idx && low[v] != e.idx[v]
    ensures Returned(deps, reach, e0, low0, e, low, onStack, gray, v)
  {
    hide Scanning, Connected, Inv, Components;
    ScanStays(deps, reach, e0, e, gray, v, low[v]);
    ConnectedInv(EdgesWithin(deps, reach), reach, e0, e, gray, v, low[v]);
  }

  class TarjanData {
    var index: nat
    var stack: seq<string>
    var idx: map<string, nat>   // discovery index
    var low: map<string, nat>   // low link
    var onStack: set<string>    // the names mapped to true
    var sccs: seq<seq<string>>
    const deps: Deps
    const reachable: set<string>

    ghost function Now(): Env
      reads this
    {
      Env(index, stack, idx, sccs)
    }

    ghost predicate Valid(gray: set<string>)
      reads this
    {
      Consistent(deps, reachable, Now(), low, onStack, gray)
    }

    constructor (deps: Deps, reachable: set<string>)
      ensures Valid({})
      ensures this.deps == deps && this.reachable == reachable
      ensures idx == map[] && sccs == [] && stack == []
    {
      this.deps, this.reachable := deps, reachable;
      index, stack, idx, low, onStack, sccs := 0, [], map[], map[], {}, [];
    }

    /** Pops the stack down to and including v, which is at position n. */
    method PopDownTo(v: string, ghost n: nat) returns (comp: seq<string>)
      requires n < |stack| && stack[n] == v
      requires forall x | x in stack :: x in idx
      requires Stacked(Now())
      requires onStack == Elems(stack)
      modifies this`stack, this`onStack
      ensures stack == old(stack)[..n] && comp == Reverse(old(stack)[n..])
      ensures onStack == Elems(stack)
    {
      hide Reverse, Elems;
      ghost var s := stack;
      comp := [];
      var done := false;
      assert Popping(s, n, stack, comp, onStack) by { PoppingStart(s, n); }
      while !done
        invariant Popping(s, n, stack, comp, onStack)
        invariant done <==> |stack| == n
        decreases |stack|
      {
        var w := stack[|stack| - 1];
        PopOne(s, idx, n, stack, comp, onStack);
        stack := stack[..|stack| - 1];
        onStack := onStack - {w};
        comp := comp + [w];
        done := w == v;
      }
    }

    /** Pops the component of the root v and records it in order of discovery. */
    method PopComponent(v: string, ghost n: nat)
      requires n < |stack| && stack[n] == v
      requires forall x | x in stack :: x in idx
      requires Stacked(Now())
      requires onStack == Elems(stack)
      modifies this`stack, this`onStack, this`sccs
      ensures stack == old(stack)[..n] && sccs == old(sccs) + [old(stack)[n..]]
      ensures onStack == Elems(stack)
    {
      TailIncreasing(stack, idx, n);
      var comp := PopDownTo(v, n);
      comp := SortByIndex(comp, idx);
      sccs := sccs + [comp];
    }

    /** One successor of v, number i in its list: the body of strongConnect's loop. */
    method ScanSuccessor(v: string, i: nat, ghost e0: Env, ghost low0: map<string, nat>, ghost gray: set<string>)
      requires i < |Successors(deps, v)|
      requires InLoop(deps, reachable, e0, low0, Now(), low, onStack, gray, v, i)
      modifies this
      ensures InLoop(deps, reachable, e0, low0, Now(), low, onStack, gray, v, i + 1)
      decreases |reachable - idx.Keys|, 1
    {
      hide InLoop, Returned, Consistent, AllReach, Stacked, EdgesWithin, Elems;
      ghost var e, lowBefore, onStackBefore := Now(), low, onStack;
      LoopFacts(deps, reachable, e0, low0, e, low, onStack, gray, v, i);
      var w := Successors(deps, v)[i];
      if w in reachable {
        if w !in idx {
          LoopChild(deps, reachable, e0, low0, e, low, onStack, gray, v, i);
          StrongConnect(w, gray + {v});
          ReturnedFacts(deps, reachable, e, lowBefore, Now(), low, onStack, gray + {v}, w);
          LoopTree(deps, reachable, e0, low0, e, lowBefore, onStackBefore, gray, v, i, Now(), low, onStack);
          if low[w] < low[v] {
            low := low[v := low[w]];
          }
        } else {
          LoopVisited(deps, reachable, e0, low0, e, low, onStack, gray, v, i);
          if w in onStack && idx[w] < low[v] {
            low := low[v := idx[w]];
          }
        }
      } else {
        LoopOutside(deps, reachable, e0, low0, e, low, onStack, gray, v, i);
      }
    }

    /** Numbers v and pushes it: the opening lines of strongConnect. */
    method Open(v: string, ghost gray: set<string>)
      requires Valid(gray)
      requires v in reachable && v !in idx
      requires AllReach(EdgesWithin(deps, reachable), gray, v)
      modifies this
      ensures InLoop(deps, reachable, old(Now()), old(low), Now(), low, onStack, gray, v, 0)
    {
      hide InLoop, Consistent, AllReach, EdgesWithin;
      LoopStart(deps, reachable, Now(), low, onStack, gray, v);
      index := index + 1;
      idx, low := idx[v := index], low[v := index];
      stack := stack + [v];
      onStack := onStack + {v};
    }

    /** The root test and the pop: the closing lines of strongConnect. */
    method Close(v: string, ghost e0: Env, ghost low0: map<string, nat>, ghost gray: set<string>)
      requires InLoop(deps, reachable, e0, low0, Now(), low, onStack, gray, v, |Successors(deps, v)|)
      modifies this
      ensures Returned(deps, reachable, e0, low0, Now(), low, onStack, gray, v)
    {
      hide InLoop, Returned, Stacked, EdgesWithin, Elems;
      LoopFacts(deps, reachable, e0, low0, Now(), low, onStack, gray, v, |Successors(deps, v)|);
      if low[v] == idx[v] {
        LoopPops(deps, reachable, e0, low0, Now(), low, onStack, gray, v);
        ghost var e := Now();
        PopComponent(v, |e0.stack|);
        assert Now() == Pop(e, |e0.stack|);
      } else {
        LoopStays(deps, reachable, e0, low0, Now(), low, onStack, gray, v);
      }
    }

    method StrongConnect(v: string, ghost gray: set<string>)
      requires Valid(gray)
      requires v in reachable && v !in idx
      requires AllReach(EdgesWithin(deps, reachable), gray, v)
      modifies this
      ensures Returned(deps, reachable, old(Now()), old(low), Now(), low, onStack, gray, v)
      decreases |reachable - idx.Keys|, 0
    {
      hide InLoop, Returned, Consistent, AllReach, EdgesWithin;
      ghost var e0, low0 := Now(), low;
      Open(v, gray);
      var i := 0;
      while i < |Successors(deps, v)|
        invariant 0 <= i <= |Successors(deps, v)|
        invariant InLoop(deps, reachable, e0, low0, Now(), low, onStack, gray, v, i)
      {
        LoopFacts(deps, reachable, e0, low0, Now(), low, onStack, gray, v, i);
        ScanSuccessor(v, i, e0, low0, gray);
        i := i + 1;
      }
      Close(v, e0, low0, gray);
    }
  }

  /** Part of the stack s has been popped into comp, down to some position from n up. */
  ghost predicate Popping(s: seq<string>, n: nat, stack: seq<string>, comp: seq<string>, onStack: set<string>) {
    && n <= |stack| <= |s| && stack == s[..|stack|]
    && comp == Reverse(s[|stack|..])
    && onStack == Elems(stack)
  }

  lemma PoppingStart(s: seq<string>, n: nat)
    requires n <= |s|
    ensures Popping(s, n, s, [], Elems(s))
  {
  }

  lemma PopOne(s: seq<string>, idx: map<string, nat>, n: nat, stack: seq<string>, comp: seq<string>, onStack: set<string>)
    requires Popping(s, n, stack, comp, onStack) && n < |stack|
    requires forall x | x in s :: x in idx
    requires forall i, j | 0 <= i < j < |s| :: idx[s[i]] < idx[s[j]]
    ensures var m := |stack| - 1;
            && Popping(s, n, stack[..m], comp + [stack[m]], onStack - {stack[m]})
            && (stack[m] == s[n] <==> m == n)
  {
    var m := |stack| - 1;
    assert stack == stack[..m] + [stack[m]];
    assert stack[..m] == s[..m];
    assert s[m..][1..] == s[|stack|..];
    assert forall i | 0 <= i < m :: idx[s[i]] < idx[s[m]] && stack[i] != s[m];
  }

  lemma TailIncreasing(s: seq<string>, idx: map<string, nat>, n: nat)
    requires n <= |s|
    requires forall x | x in s :: x in idx
    requires forall i, j | 0 <= i < j < |s| :: idx[s[i]] < idx[s[j]]
    ensures forall x | x in Reverse(s[n..]) :: x in idx
    ensures SortByIndex(Reverse(s[n..]), idx) == s[n..]
  {
    var t := s[n..];
    assert forall i | 0 <= i < |t| :: t[i] == s[n + i];
    SortUndoesPops(t, idx);
  }

  // ---------------------------------------------------------------------
  // The whole algorithm
  // ---------------------------------------------------------------------

  /** Once no call is running nothing is left on the stack. */
  lemma Drained(g: Edges<string>, reach: set<string>, e: Env)
    requires Inv(g, reach, e, {})
    ensures e.stack == [] && e.idx.Keys == Members(e.sccs)
  {
    if e.stack != [] {
      SomeGray(g, e, {});
    }
  }

  lemma SomeGray(g: Edges<string>, e: Env, gray: set<string>)
    requires e.stack != [] && forall x | x in e.stack :: x in e.idx
    requires (forall x | x in gray :: x in e.idx) && ToGray(g, e, gray)
    ensures gray != {}
  {
    assert HasGrayBelow(g, e, gray, e.stack[0]);
  }

  /** compID numbers the members of the first i components, and j of the next one. */
  ghost predicate NumbersUpTo(sccs: seq<seq<string>>, compID: map<string, nat>, i: nat, j: nat)
    requires i <= |sccs| && (i < |sccs| ==> j <= |sccs[i]|)
  {
    && (forall x | x in compID :: compID[x] < |sccs| && x in sccs[compID[x]])
    && (forall k, x | 0 <= k < i && x in sccs[k] :: x in compID && compID[x] == k)
    && (i < |sccs| ==> forall k | 0 <= k < j :: sccs[i][k] in compID && compID[sccs[i][k]] == i)
  }

  /** compID maps every node to the position of its component. */
  ghost predicate Numbers(sccs: seq<seq<string>>, compID: map<string, nat>) {
    && (forall x | x in compID :: compID[x] < |sccs| && x in sccs[compID[x]])
    && (forall i, x | 0 <= i < |sccs| && x in sccs[i] :: x in compID && compID[x] == i)
  }

  lemma NumberOne(sccs: seq<seq<string>>, before: map<string, nat>, i: nat, j: nat)
    requires i < |sccs| && j < |sccs[i]| && NumbersUpTo(sccs, before, i, j)
    requires forall a, b, x | 0 <= a < b < |sccs| && x in sccs[a] :: x !in sccs[b]
    ensures NumbersUpTo(sccs, before[sccs[i][j] := i], i, j + 1)
  {
    var y := sccs[i][j];
    assert y in sccs[i];
  }

  method NumberComponents(sccs: seq<seq<string>>) returns (compID: map<string, nat>)
    requires forall i, j, x | 0 <= i < j < |sccs| && x in sccs[i] :: x !in sccs[j]
    ensures Numbers(sccs, compID)
  {
    compID := map[];
    for i := 0 to |sccs|
      invariant NumbersUpTo(sccs, compID, i, 0)
    {
      for j := 0 to |sccs[i]|
        invariant NumbersUpTo(sccs, compID, i, j)
      {
        NumberOne(sccs, compID, i, j);
        compID := compID[sccs[i][j] := i];
      }
      NumberNext(sccs, compID, i);
    }
  }

  lemma NumberNext(sccs: seq<seq<string>>, compID: map<string, nat>, i: nat)
    requires i < |sccs| && NumbersUpTo(sccs, compID, i, |sccs[i]|)
    ensures NumbersUpTo(sccs, compID, i + 1, 0)
  {
  }

  /** What the components and their numbering mean: every listed node has a number, two
      nodes share one exactly when each reaches the other, and no edge leads to a larger
      number, which is to say that components come out in reverse topological order. */
  ghost predicate Condensation(g: Edges<string>, reach: set<string>, sccs: seq<seq<string>>, compID: map<string, nat>) {
    && compID.Keys == reach
    && Numbers(sccs, compID)
    && (forall i | 0 <= i < |sccs| :: sccs[i] != [] && Distinct(sccs[i]))
    && (forall u, v | u in reach && v in reach :: compID[u] == compID[v] <==> Mutual(g, u, v))
    && (forall u, v | (u, v) in g && u in reach && v in reach :: compID[v] <= compID[u])
  }

  lemma CondensationHolds(g: Edges<string>, reach: set<string>, sccs: seq<seq<string>>, compID: map<string, nat>)
    requires Components(g, sccs) && Members(sccs) == reach && Numbers(sccs, compID)
    ensures Condensation(g, reach, sccs, compID)
  {
    forall x ensures x in compID <==> x in reach {
      if x in reach {
        var i := MemberIndex(sccs, x);
      }
      if x in compID {
        MembersOf(sccs, compID[x], x);
      }
    }
    forall u, v | u in reach && v in reach ensures compID[u] == compID[v] <==> Mutual(g, u, v) {
      assert IsComponent(g, sccs[compID[u]]);
      assert u in sccs[compID[u]] && v in sccs[compID[v]];
    }
    forall u, v | (u, v) in g && u in reach && v in reach ensures compID[v] <= compID[u] {
      var prefix := sccs[..compID[u] + 1];
      assert Closed(g, Members(prefix));
      assert prefix[compID[u]] == sccs[compID[u]];
      MembersOf(prefix, compID[u], u);
      var i := MemberIndex(prefix, v);
      assert v in sccs[i];
    }
  }

  method ComputeSCCs(deps: Deps, reachable: set<string>) returns (sccs: seq<seq<string>>, compID: map<string, nat>, idx: map<string, nat>)
    ensures Condensation(EdgesWithin(deps, reachable), reachable, sccs, compID)
  {
    hide Consistent, Returned, AllReach, EdgesWithin, Condensation;
    NoGrayReach(EdgesWithin(deps, reachable));
    var td := new TarjanData(deps, reachable);
    var names := SortedKeys(reachable);
    for i := 0 to |names|
      invariant td.Valid({}) && td.deps == deps && td.reachable == reachable
      invariant forall k | 0 <= k < i :: names[k] in td.idx
    {
      assert names[i] in Elems(names);
      if names[i] !in td.idx {
        ghost var e, low0 := td.Now(), td.low;
        td.StrongConnect(names[i], {});
        ReturnedFacts(deps, reachable, e, low0, td.Now(), td.low, td.onStack, {}, names[i]);
      }
    }
    Finished(deps, reachable, td.Now(), td.low, td.onStack, names);
    sccs, idx := td.sccs, td.idx;
    compID := NumberComponents(sccs);
    CondensationHolds(EdgesWithin(deps, reachable), reachable, sccs, compID);
  }

  lemma NoGrayReach(g: Edges<string>)
    ensures forall v :: AllReach(g, {}, v)
  {
  }

  lemma Finished(deps: Deps, reach: set<string>, e: Env, low: map<string, nat>, onStack: set<string>, names: seq<string>)
    requires Consistent(deps, reach, e, low, onStack, {}) && Elems(names) == reach
    requires forall k | 0 <= k < |names| :: names[k] in e.idx
    ensures Components(EdgesWithin(deps, reach), e.sccs) && Members(e.sccs) == reach
    ensures forall i, j, x | 0 <= i < j < |e.sccs| && x in e.sccs[i] :: x !in e.sccs[j]
  {
    hide EdgesWithin;
    Drained(EdgesWithin(deps, reach), reach, e);
    AllVisited(EdgesWithin(deps, reach), reach, e, names);
    ComponentsDisjoint(EdgesWithin(deps, reach), e.sccs);
  }

  lemma ComponentsDisjoint(g: Edges<string>, sccs: seq<seq<string>>)
    requires Components(g, sccs)
    ensures forall i, j, x | 0 <= i < j < |sccs| && x in sccs[i] :: x !in sccs[j]
  {
  }

  lemma AllVisited(g: Edges<string>, reach: set<string>, e: Env, names: seq<string>)
    requires Inv(g, reach, e, {}) && Elems(names) == reach
    requires forall k | 0 <= k < |names| :: names[k] in e.idx
    ensures e.idx.Keys == reach
  {
    forall x | x in reach ensures x in e.idx {
      assert x in Elems(names);
    }
  }
}
