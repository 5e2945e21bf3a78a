/** Cutting, splitting and joining of strings. */
module Text {

  /** The part before the first c and, when there is one, the part after it. */
  function Cut(s: string, c: char): (r: (string, string, bool))
    ensures c !in r.0
    ensures s == if r.2 then r.0 + [c] + r.1 else r.0
    ensures !r.2 ==> r.1 == ""
  {
    if s == [] then ("", "", false)
    else if s[0] == c then ("", s[1..], true)
    else
      var rest := Cut(s[1..], c);
      ([s[0]] + rest.0, rest.1, rest.2)
  }

  lemma {:induction false} CutUnique(a: string, b: string, c: char)
    requires c !in a
    ensures Cut(a + [c] + b, c) == (a, b, true)
    ensures Cut(a, c) == (a, "", false)
  {
    var s := a + [c] + b;
    if a != [] {
      assert s[1..] == a[1..] + [c] + b;
      CutUnique(a[1..], b, c);
      assert a == [a[0]] + a[1..];
    }
  }

  /** The pieces between the separators; one piece when there is none. */
  function Split(s: string, c: char): (parts: seq<string>)
    ensures |parts| > 0
    ensures forall p | p in parts :: c !in p
    decreases |s|
  {
    var (head, tail, found) := Cut(s, c);
    if found then [head] + Split(tail, c) else [head]
  }

  function Join(parts: seq<string>, c: char): string {
    if parts == [] then ""
    else if |parts| == 1 then parts[0]
    else parts[0] + [c] + Join(parts[1..], c)
  }

  lemma {:induction false} JoinSplit(s: string, c: char)
    ensures Join(Split(s, c), c) == s
    decreases |s|
  {
    var (head, tail, found) := Cut(s, c);
    if found {
      JoinSplit(tail, c);
      assert ([head] + Split(tail, c))[1..] == Split(tail, c);
    }
  }

  lemma {:induction false} SplitJoin(parts: seq<string>, c: char)
    requires |parts| > 0 && forall p | p in parts :: c !in p
    ensures Split(Join(parts, c), c) == parts
  {
    if |parts| == 1 {
      CutUnique(parts[0], "", c);
    } else {
      CutUnique(parts[0], Join(parts[1..], c), c);
      SplitJoin(parts[1..], c);
    }
  }

  lemma {:induction false} JoinSnoc(parts: seq<string>, last: string, c: char)
    requires parts != []
    ensures Join(parts + [last], c) == Join(parts, c) + [c] + last
  {
    var all := parts + [last];
    assert all[1..] == parts[1..] + [last];
    if |parts| > 1 {
      JoinSnoc(parts[1..], last, c);
    }
  }

  /** A separator joins two texts at a place where it splits. */
  lemma {:induction false} SplitConcat(a: string, b: string, c: char)
    ensures Split(a + [c] + b, c) == Split(a, c) + Split(b, c)
    decreases |a|
  {
    var (head, tail, found) := Cut(a, c);
    if found {
      assert a + [c] + b == head + [c] + (tail + [c] + b);
      CutUnique(head, tail + [c] + b, c);
      SplitConcat(tail, b, c);
      assert [head] + (Split(tail, c) + Split(b, c)) == ([head] + Split(tail, c)) + Split(b, c);
    } else {
      CutUnique(a, b, c);
    }
  }

  function Repeat(c: char, n: nat): (s: string)
    ensures |s| == n && forall x | x in s :: x == c
  {
    if n == 0 then "" else [c] + Repeat(c, n - 1)
  }

  // ---------------------------------------------------------------------
  // Longer separators
  // ---------------------------------------------------------------------

  predicate Contains(s: string, sep: string) {
    exists i {:trigger s[i..]} | 0 <= i <= |s| :: sep <= s[i..]
  }

  /** Cuts at the leftmost occurrence of sep. */
  function CutOn(s: string, sep: string): (r: (string, string, bool))
    ensures s == if r.2 then r.0 + sep + r.1 else r.0
    ensures !r.2 ==> r.1 == ""
  {
    if sep <= s then ("", s[|sep|..], true)
    else if s == [] then ("", "", false)
    else
      var rest := CutOn(s[1..], sep);
      ([s[0]] + rest.0, rest.1, rest.2)
  }

  lemma ContainsStep(s: string, sep: string)
    requires s != [] && !(sep <= s)
    ensures Contains(s, sep) <==> Contains(s[1..], sep)
  {
    if Contains(s, sep) {
      var i :| 0 <= i <= |s| && sep <= s[i..];
      assert i != 0;
      assert s[1..][i - 1..] == s[i..];
    }
    if Contains(s[1..], sep) {
      var i :| 0 <= i <= |s[1..]| && sep <= s[1..][i..];
      assert s[1..][i..] == s[i + 1..];
    }
  }

  /** A cut is found exactly when sep occurs, and the part before it has no occurrence. */
  lemma {:induction false} CutOnFinds(s: string, sep: string)
    ensures CutOn(s, sep).2 <==> Contains(s, sep)
    ensures sep != [] ==> !Contains(CutOn(s, sep).0, sep)
  {
    if sep <= s {
      assert s[0..] == s;
      assert sep <= s[0..];
    } else if s != [] {
      CutOnFinds(s[1..], sep);
      ContainsStep(s, sep);
      var before := CutOn(s, sep).0;
      assert before[1..] == CutOn(s[1..], sep).0;
      assert before <= s;
      if sep != [] {
        ContainsStep(before, sep);
      }
    }
  }

  lemma ContainsConcat(a: string, sep: string, b: string)
    ensures Contains(a + sep + b, sep)
  {
    var s := a + sep + b;
    assert s[|a|..] == sep + b;
    assert sep <= s[|a|..];
  }

  function SplitOn(s: string, sep: string): (parts: seq<string>)
    requires sep != ""
    ensures |parts| > 0
    decreases |s|
  {
    var (head, tail, found) := CutOn(s, sep);
    if found then [head] + SplitOn(tail, sep) else [head]
  }

  // ---------------------------------------------------------------------
  // White space
  // ---------------------------------------------------------------------

  /** The characters with Unicode's White_Space property. */
  predicate IsSpace(c: char) {
    || '\t' <= c <= '\r' || c == ' ' || c == '\U{0085}' || c == '\U{00A0}' || c == '\U{1680}'
    || '\U{2000}' <= c <= '\U{200A}' || c in {'\U{2028}', '\U{2029}', '\U{202F}', '\U{205F}', '\U{3000}'}
  }

  function TrimLeft(s: string): (r: string)
    ensures r != [] ==> !IsSpace(r[0])
    ensures forall c | c in r :: c in s
  {
    if s != [] && IsSpace(s[0]) then TrimLeft(s[1..]) else s
  }

  function TrimRight(s: string): (r: string)
    ensures r <= s
    ensures r != [] ==> !IsSpace(r[|r| - 1])
  {
    if s != [] && IsSpace(s[|s| - 1]) then TrimRight(s[..|s| - 1]) else s
  }

  function TrimSpace(s: string): string {
    TrimRight(TrimLeft(s))
  }

  /** No white space at either end. */
  predicate Trimmed(s: string) {
    s != [] ==> !IsSpace(s[0]) && !IsSpace(s[|s| - 1])
  }

  lemma TrimmedSpace(s: string)
    ensures Trimmed(TrimSpace(s)) && forall c | c in TrimSpace(s) :: c in s
    ensures Trimmed(s) ==> TrimSpace(s) == s
  {
    var l, r := TrimLeft(s), TrimSpace(s);
    forall c | c in r
      ensures c in s
    {
      var i :| 0 <= i < |r| && r[i] == c;
      assert l[i] == c;
    }
  }
}
