/** Byte order on strings and the sorting that Go's sort.Strings performs.

    Strings are sequences of characters compared first difference first, a proper
    prefix being smaller. This is Go's string comparison and PostgreSQL's
    COLLATE "C".
 */
module Strings {

  predicate Less(a: string, b: string) {
    if b == [] then false
    else if a == [] then true
    else a[0] < b[0] || (a[0] == b[0] && Less(a[1..], b[1..]))
  }

  predicate AtMost(a: string, b: string) {
    a == b || Less(a, b)
  }

  lemma {:induction false} LessIrreflexive(a: string)
    ensures !Less(a, a)
  {
    if a != [] {
      LessIrreflexive(a[1..]);
    }
  }

  lemma {:induction false} LessTransitive(a: string, b: string, c: string)
    requires Less(a, b) && Less(b, c)
    ensures Less(a, c)
  {
    if a != [] && a[0] == b[0] == c[0] {
      LessTransitive(a[1..], b[1..], c[1..]);
    }
  }

  lemma {:induction false} LessTotal(a: string, b: string)
    ensures Less(a, b) || a == b || Less(b, a)
  {
    if a != [] && b != [] && a[0] == b[0] {
      LessTotal(a[1..], b[1..]);
      assert a == [a[0]] + a[1..] && b == [b[0]] + b[1..];
    }
  }

  /** Nondecreasing in byte order. */
  ghost predicate Sorted(s: seq<string>) {
    forall i, j | 0 <= i < j < |s| :: AtMost(s[i], s[j])
  }

  /** Strictly increasing in byte order. */
  ghost predicate Increasing(s: seq<string>) {
    forall i, j | 0 <= i < j < |s| :: Less(s[i], s[j])
  }

  ghost function Elems<T>(s: seq<T>): (e: set<T>)
  {
    set x | x in s
  }

  ghost predicate Distinct<T>(s: seq<T>) {
    forall i, j | 0 <= i < j < |s| :: s[i] != s[j]
  }

  /** A position of x in s, when it has one. */
  ghost function IndexOf<T>(s: seq<T>, x: T): (i: nat)
    ensures x in s ==> i < |s| && s[i] == x
  {
    if x in s then var i :| 0 <= i < |s| && s[i] == x; i else 0
  }

  lemma SplitLast<T>(s: seq<T>)
    requires s != []
    ensures s == s[..|s| - 1] + [s[|s| - 1]]
  {
  }

  // ---------------------------------------------------------------------
  // sort.Strings: a sorted permutation of its argument
  // ---------------------------------------------------------------------

  function Insert(x: string, s: seq<string>): (r: seq<string>)
    ensures multiset(r) == multiset(s) + multiset{x}
  {
    if s == [] then [x]
    else if AtMost(x, s[0]) then [x] + s
    else
      var r := [s[0]] + Insert(x, s[1..]);
      assert s == [s[0]] + s[1..];
      r
  }

  lemma {:induction false} InsertSorted(x: string, s: seq<string>)
    requires Sorted(s)
    ensures Sorted(Insert(x, s))
  {
    if s == [] {
    } else if AtMost(x, s[0]) {
      forall j | 0 <= j < |s| ensures AtMost(x, s[j]) {
        if x != s[0] && j > 0 && s[0] != s[j] { LessTransitive(x, s[0], s[j]); }
      }
    } else {
      LessTotal(x, s[0]);
      InsertSorted(x, s[1..]);
      var t := Insert(x, s[1..]);
      forall j | 0 <= j < |t| ensures AtMost(s[0], t[j]) {
        assert t[j] in multiset(t);
        assert t[j] == x || t[j] in s[1..];
      }
    }
  }

  function Sort(s: seq<string>): (r: seq<string>)
    ensures multiset(r) == multiset(s)
  {
    if s == [] then []
    else
      assert s == [s[0]] + s[1..];
      Insert(s[0], Sort(s[1..]))
  }

  lemma {:induction false} SortSorted(s: seq<string>)
    ensures Sorted(Sort(s))
    ensures Elems(Sort(s)) == Elems(s)
  {
    if s != [] {
      SortSorted(s[1..]);
      InsertSorted(s[0], Sort(s[1..]));
    }
    forall x ensures x in Sort(s) <==> x in s {
      assert x in Sort(s) <==> x in multiset(Sort(s));
      assert x in s <==> x in multiset(s);
    }
  }

  // ---------------------------------------------------------------------
  // The increasing enumeration of a set: what sorting map keys yields
  // ---------------------------------------------------------------------

  lemma {:induction false} HasLeast(s: set<string>) returns (m: string)
    requires s != {}
    ensures m in s && forall x | x in s :: AtMost(m, x)
    decreases |s|
  {
    var a :| a in s;
    if s == {a} {
      m := a;
    } else {
      var b := HasLeast(s - {a});
      LessTotal(a, b);
      m := if Less(a, b) then a else b;
      forall x | x in s ensures AtMost(m, x) {
        if x != a && x != b && m == a { assert x in s - {a}; LessTransitive(a, b, x); }
      }
    }
  }

  ghost function Enumerate(s: set<string>): (r: seq<string>)
    ensures Increasing(r)
    ensures Elems(r) == s && |r| == |s|
    decreases |s|
  {
    if s == {} then []
    else
      assert exists m :: m in s && forall x | x in s :: AtMost(m, x) by { var m := HasLeast(s); }
      var m :| m in s && forall x | x in s :: AtMost(m, x);
      var rest := Enumerate(s - {m});
      PrependLeast(m, rest, s);
      [m] + rest
  }

  lemma PrependLeast(m: string, rest: seq<string>, s: set<string>)
    requires m in s && forall x | x in s :: AtMost(m, x)
    requires Increasing(rest) && Elems(rest) == s - {m}
    ensures Increasing([m] + rest) && Elems([m] + rest) == s
  {
    var r := [m] + rest;
    forall j | 0 <= j < |rest| ensures Less(m, rest[j]) {
      assert rest[j] in Elems(rest);
    }
    forall i, j | 0 <= i < j < |r| ensures Less(r[i], r[j]) {
      if i > 0 { assert Less(rest[i - 1], rest[j - 1]); }
    }
    forall x ensures x in Elems(r) <==> x in s {
      assert x in r <==> x == m || x in rest;
      assert x in Elems(rest) <==> x in s - {m};
    }
  }

  /** An increasing sequence is determined by its elements. */
  lemma {:induction false} IncreasingUnique(s: seq<string>, t: seq<string>)
    requires Increasing(s) && Increasing(t)
    requires Elems(s) == Elems(t)
    ensures s == t
  {
    assert |t| > 0 ==> t[0] in Elems(t);
    if s != [] {
      assert s[0] in Elems(t);
      assert t[0] in Elems(s);
      var i :| 0 <= i < |t| && t[i] == s[0];
      var j :| 0 <= j < |s| && s[j] == t[0];
      if i > 0 && j > 0 {
        LessTransitive(s[0], t[0], s[0]);
        LessIrreflexive(s[0]);
      }
      assert s[0] == t[0];
      assert Elems(s[1..]) == Elems(s) - {s[0]} by { TailElems(s); }
      assert Elems(t[1..]) == Elems(t) - {t[0]} by { TailElems(t); }
      IncreasingUnique(s[1..], t[1..]);
      assert s == [s[0]] + s[1..] && t == [t[0]] + t[1..];
    }
  }

  lemma TailElems(s: seq<string>)
    requires Increasing(s) && s != []
    ensures Elems(s[1..]) == Elems(s) - {s[0]}
  {
    LessIrreflexive(s[0]);
    forall x ensures x in Elems(s[1..]) <==> x in Elems(s) - {s[0]} {
      assert s == [s[0]] + s[1..];
    }
  }

  /** The keys of a map, ranged over in any order and then sorted. */
  method SortedKeys(keys: set<string>) returns (r: seq<string>)
    ensures r == Enumerate(keys)
  {
    var todo := keys;
    var s: seq<string> := [];
    while todo != {}
      invariant todo <= keys
      invariant Elems(s) == keys - todo
      invariant forall i, j | 0 <= i < j < |s| :: s[i] != s[j]
    {
      var k :| k in todo;
      assert k !in Elems(s);
      assert Elems(s + [k]) == Elems(s) + {k};
      s := s + [k];
      todo := todo - {k};
    }
    r := Sort(s);
    SortSorted(s);
    SortIncreasing(s);
    IncreasingUnique(r, Enumerate(keys));
  }

  lemma {:induction false} InsertIncreasing(x: string, s: seq<string>)
    requires Increasing(s) && x !in s
    ensures Increasing(Insert(x, s))
  {
    if s == [] {
    } else if AtMost(x, s[0]) {
      forall j | 0 <= j < |s| ensures Less(x, s[j]) {
        if j > 0 { LessTransitive(x, s[0], s[j]); }
      }
    } else {
      LessTotal(x, s[0]);
      InsertIncreasing(x, s[1..]);
      var t := Insert(x, s[1..]);
      forall j | 0 <= j < |t| ensures Less(s[0], t[j]) {
        assert t[j] in multiset(t);
        assert t[j] == x || t[j] in s[1..];
      }
    }
  }

  lemma {:induction false} SortIncreasing(s: seq<string>)
    requires forall i, j | 0 <= i < j < |s| :: s[i] != s[j]
    ensures Increasing(Sort(s))
  {
    if s != [] {
      SortIncreasing(s[1..]);
      SortSorted(s[1..]);
      assert s[0] !in Elems(s[1..]);
      assert s[0] !in Sort(s[1..]);
      InsertIncreasing(s[0], Sort(s[1..]));
    }
  }
}
