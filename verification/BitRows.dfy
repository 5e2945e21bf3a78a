/** Sets of small numbers as rows of 64-bit words: the descendant sets of the transitive
    reduction.
 */
module BitRows {

  /** The low six bits of v: its place inside a word. */
  function Offset(v: nat): bv6 {
    (v % 64) as bv6
  }

  predicate Bit(x: bv64, k: bv6) {
    (x >> k) & 1 == 1
  }

  function Or(x: bv64, y: bv64): bv64 {
    x | y
  }

  function SetBit(x: bv64, k: bv6): bv64 {
    x | (1 << k)
  }

  lemma OffsetValue(k: nat)
    requires k < 64
    ensures (k as bv6) as nat == k
  {
  }

  lemma OffsetInjective(j: nat, k: nat)
    ensures Offset(j) == Offset(k) <==> j % 64 == k % 64
  {
    OffsetValue(j % 64);
    OffsetValue(k % 64);
  }

  lemma BitOr(x: bv64, y: bv64, k: bv6)
    ensures Bit(Or(x, y), k) <==> Bit(x, k) || Bit(y, k)
  {
  }

  lemma BitSet(x: bv64, j: bv6, k: bv6)
    ensures Bit(SetBit(x, j), k) <==> Bit(x, k) || j == k
  {
  }

  /** Number of words for n bits. */
  function Words(n: nat): nat {
    (n + 63) / 64
  }

  lemma WordIndex(x: nat, n: nat)
    requires x < n
    ensures x / 64 < Words(n)
  {
  }

  predicate Has(row: seq<bv64>, x: nat)
    requires x / 64 < |row|
  {
    Bit(row[x / 64], Offset(x))
  }

  /** The numbers below n that the words of a row stand for. */
  ghost function Members(row: seq<bv64>, n: nat): set<nat>
    requires Words(n) <= |row|
  {
    set x: nat | x < n && Has(row, x)
  }

  /** a with the words of b or-ed in and the bit of v set. */
  ghost predicate Joined(a: seq<bv64>, b: seq<bv64>, c: seq<bv64>, v: nat) {
    && |a| == |b| == |c| && v / 64 < |a|
    && forall k | 0 <= k < |a| ::
         c[k] == if k == v / 64 then SetBit(Or(a[k], b[k]), Offset(v)) else Or(a[k], b[k])
  }

  lemma IsJoined(a: seq<bv64>, b: seq<bv64>, c: seq<bv64>, v: nat)
    requires |a| == |b| == |c| && v / 64 < |a|
    requires forall k | 0 <= k < |a| ::
         c[k] == if k == v / 64 then SetBit(Or(a[k], b[k]), Offset(v)) else Or(a[k], b[k])
    ensures Joined(a, b, c, v)
  {
  }

  /** A number is found by its word and its place in the word. */
  lemma SamePlace(x: nat, v: nat)
    ensures x == v <==> x / 64 == v / 64 && Offset(v) == Offset(x)
  {
    hide Offset;
    OffsetInjective(v, x);
    assert x == 64 * (x / 64) + x % 64 && v == 64 * (v / 64) + v % 64;
  }

  lemma JoinedWord(a: bv64, b: bv64, at: bv6, k: bv6)
    ensures Bit(Or(a, b), k) <==> Bit(a, k) || Bit(b, k)
    ensures Bit(SetBit(Or(a, b), at), k) <==> Bit(a, k) || Bit(b, k) || at == k
  {
    hide Bit, Or, SetBit;
    BitOr(a, b, k);
    BitSet(Or(a, b), at, k);
  }

  lemma JoinedBit(a: seq<bv64>, b: seq<bv64>, c: seq<bv64>, v: nat, x: nat)
    requires Joined(a, b, c, v) && x / 64 < |a|
    ensures Has(c, x) <==> Has(a, x) || Has(b, x) || x == v
  {
    hide Bit, Offset, Or, SetBit;
    var k := x / 64;
    SamePlace(x, v);
    JoinedWord(a[k], b[k], Offset(v), Offset(x));
  }

  lemma JoinedMembers(a: seq<bv64>, b: seq<bv64>, c: seq<bv64>, v: nat, n: nat)
    requires Joined(a, b, c, v) && |a| == Words(n) && v < n
    ensures Members(c, n) == Members(a, n) + Members(b, n) + {v}
  {
    hide Bit, Offset, Or, SetBit;
    assert |b| == |a| && |c| == |a|;
    forall x: nat | x < n ensures x in Members(c, n) <==> x in Members(a, n) + Members(b, n) + {v} {
      WordIndex(x, n);
      JoinedBit(a, b, c, v, x);
    }
  }

  /** Row u of the matrix. */
  ghost function RowOf(rows: array2<bv64>, u: nat): (r: seq<bv64>)
    requires u < rows.Length0
    reads rows
    ensures |r| == rows.Length1
  {
    seq(rows.Length1, k requires 0 <= k < rows.Length1 reads rows => rows[u, k])
  }

  ghost function Row(rows: array2<bv64>, u: nat, n: nat): set<nat>
    requires u < rows.Length0 && Words(n) <= rows.Length1
    reads rows
  {
    Members(RowOf(rows, u), n)
  }

  /** Adds v and everything in row v to row u. */
  method AddDescendants(rows: array2<bv64>, u: nat, v: nat, n: nat)
    requires rows.Length0 == n && rows.Length1 == Words(n)
    requires u < n && v < n && u != v
    modifies rows
    ensures Row(rows, u, n) == old(Row(rows, u, n)) + old(Row(rows, v, n)) + {v}
    ensures forall t: nat | t < n && t != u :: Row(rows, t, n) == old(Row(rows, t, n))
  {
    hide Members, Offset, Joined, Or, SetBit;
    for w := 0 to rows.Length1
      invariant forall t, k | 0 <= t < n && 0 <= k < rows.Length1 && (t != u || k >= w) :: rows[t, k] == old(rows[t, k])
      invariant forall k | 0 <= k < w :: rows[u, k] == Or(old(rows[u, k]), old(rows[v, k]))
    {
      rows[u, w] := Or(rows[u, w], rows[v, w]);
    }
    WordIndex(v, n);
    rows[u, v / 64] := SetBit(rows[u, v / 64], Offset(v));
    IsJoined(old(RowOf(rows, u)), old(RowOf(rows, v)), RowOf(rows, u), v);
    JoinedMembers(old(RowOf(rows, u)), old(RowOf(rows, v)), RowOf(rows, u), v, n);
    forall t: nat | t < n && t != u ensures Row(rows, t, n) == old(Row(rows, t, n)) {
      assert RowOf(rows, t) == old(RowOf(rows, t));
    }
  }

  method EmptyRows(n: nat) returns (rows: array2<bv64>)
    ensures fresh(rows) && rows.Length0 == n && rows.Length1 == Words(n)
    ensures forall t: nat | t < n :: Row(rows, t, n) == {}
  {
    rows := new bv64[n, Words(n)]((i, j) => 0);
    assert forall k :: !Bit(0, k);
  }

  /** Tests the bit of v in row w. */
  method Test(rows: array2<bv64>, w: nat, v: nat, n: nat) returns (b: bool)
    requires rows.Length0 == n && rows.Length1 == Words(n) && w < n && v < n
    ensures b <==> v in Row(rows, w, n)
  {
    WordIndex(v, n);
    b := (rows[w, v / 64] >> Offset(v)) & 1 == 1;
    assert b == Has(RowOf(rows, w), v);
  }
}
