/** The sort key of a version text, and why its byte order is version precedence. */
module VersionKey {
  import opened Options
  import opened Strings
  import opened Text
  import opened SemVer

  // ---------------------------------------------------------------------
  // Numbers as text
  // ---------------------------------------------------------------------

  function TrimZeros(s: string): string {
    if s != [] && s[0] == '0' then TrimZeros(s[1..]) else s
  }

  function DigitChar(d: nat): (c: char)
    requires d < 10
    ensures IsDigit(c) && Digit(c) == d
  {
    '0' + d as char
  }

  /** Decimal notation without leading zeros. */
  function Decimal(n: nat): (s: string)
    ensures IsNumeric(s)
  {
    if n < 10 then [DigitChar(n)] else Decimal(n / 10) + [DigitChar(n % 10)]
  }

  function PadLeft(s: string, width: nat): (r: string)
    ensures |r| == if |s| < width then width else |s|
  {
    if |s| < width then Repeat('0', width - |s|) + s else s
  }

  function Pow10(n: nat): (p: nat)
    ensures p > 0
  {
    if n == 0 then 1 else 10 * Pow10(n - 1)
  }

  predicate Digits(s: string) {
    forall c | c in s :: IsDigit(c)
  }

  const CORE_WIDTH: nat := 20
  const LENGTH_WIDTH: nat := 10

  // ---------------------------------------------------------------------
  // Keys
  // ---------------------------------------------------------------------

  /** A core number without leading zeros; an absent one is 0. */
  function Significant(part: string): string {
    if TrimZeros(part) == "" then "0" else TrimZeros(part)
  }

  function CoreKey(part: string): string {
    PadLeft(Significant(part), CORE_WIDTH)
  }

  /** The key of one prerelease identifier. */
  function Piece(id: string): string {
    if IsNumeric(id) then "0" + PadLeft(Decimal(|id|), LENGTH_WIDTH) + id + "!" else "1" + id + "!"
  }

  function PreKey(ids: seq<string>): string {
    if ids == [] then "" else Piece(ids[0]) + PreKey(ids[1..])
  }

  predicate LeadingZero(id: string) {
    IsNumeric(id) && |id| > 1 && id[0] == '0'
  }

  /** At most 20 significant digits in each core number, and no leading zero in a numeric
      prerelease identifier. */
  predicate Rankable(t: VersionText) {
    && (forall i | 0 <= i < 3 :: |Significant(CorePart(t, i))| <= CORE_WIDTH)
    && (forall id | id in t.pre :: !LeadingZero(id))
  }

  function KeyOf(t: VersionText): string {
    CoreKey(CorePart(t, 0)) + "." + CoreKey(CorePart(t, 1)) + "." + CoreKey(CorePart(t, 2)) + "/" + if t.pre == [] then "~" else PreKey(t.pre)
  }

  predicate Supported(raw: string) {
    Parse(raw).Some? && Rankable(Parse(raw).value)
  }

  /** What a supported text denotes, and its key. */
  function Denotes(raw: string): Version
    requires Supported(raw)
  {
    Meaning(Parse(raw).value)
  }

  function RawKey(raw: string): string
    requires Supported(raw)
  {
    KeyOf(Parse(raw).value)
  }

  // ---------------------------------------------------------------------
  // Byte order of concatenations
  // ---------------------------------------------------------------------

  lemma {:induction false} LessSameLength(a: string, b: string, x: string, y: string)
    requires |a| == |b|
    ensures Less(a + x, b + y) <==> Less(a, b) || (a == b && Less(x, y))
    ensures a + x == b + y <==> a == b && x == y
  {
    if a != [] {
      assert (a + x)[1..] == a[1..] + x && (b + y)[1..] == b[1..] + y;
      LessSameLength(a[1..], b[1..], x, y);
      assert a == [a[0]] + a[1..] && b == [b[0]] + b[1..];
      assert a + x == b + y <==> a[0] == b[0] && a[1..] + x == b[1..] + y by {
        assert a + x == [a[0]] + (a[1..] + x) && b + y == [b[0]] + (b[1..] + y);
      }
    } else {
      assert a + x == x && b + y == y;
    }
  }

  /** A terminator below every character of the words makes them compare first. */
  lemma {:induction false} LessTerminated(a: string, b: string, stop: char, x: string, y: string)
    requires (forall c | c in a :: stop < c) && (forall c | c in b :: stop < c)
    ensures Less(a + ([stop] + x), b + ([stop] + y)) <==> Less(a, b) || (a == b && Less(x, y))
    ensures a + ([stop] + x) == b + ([stop] + y) <==> a == b && x == y
  {
    var s, t := a + ([stop] + x), b + ([stop] + y);
    if a == [] {
      assert s[0] == stop && s[1..] == x;
      if b == [] {
        assert t[0] == stop && t[1..] == y;
      } else {
        assert t[0] == b[0] && b[0] in b;
      }
    } else if b == [] {
      assert s[0] == a[0] && a[0] in a && t[0] == stop;
    } else {
      assert s[1..] == a[1..] + ([stop] + x) && t[1..] == b[1..] + ([stop] + y);
      assert (forall c | c in a[1..] :: c in a) && (forall c | c in b[1..] :: c in b);
      LessTerminated(a[1..], b[1..], stop, x, y);
      assert a == [a[0]] + a[1..] && b == [b[0]] + b[1..];
      assert s == [a[0]] + s[1..] && t == [b[0]] + t[1..];
    }
  }

  // ---------------------------------------------------------------------
  // Byte order of numbers
  // ---------------------------------------------------------------------

  /** For equally long digit strings byte order is numeric order. */
  lemma {:induction false} LessIsNumeric(a: string, b: string)
    requires |a| == |b| && Digits(a) && Digits(b)
    ensures Less(a, b) <==> Val(a) < Val(b)
    ensures a == b <==> Val(a) == Val(b)
  {
    if a != [] {
      var n := |a| - 1;
      var x, y := [a[n]], [b[n]];
      assert a == a[..n] + x && b == b[..n] + y;
      LessIsNumeric(a[..n], b[..n]);
      LessSameLength(a[..n], b[..n], x, y);
      assert IsDigit(a[n]) && IsDigit(b[n]);
      assert Less(x, y) <==> a[n] < b[n] by { assert x[1..] == y[1..] == []; }
    }
  }

  lemma {:induction false} ValDecimal(n: nat)
    ensures Val(Decimal(n)) == n
    ensures n > 0 ==> Decimal(n)[0] != '0'
  {
    if n >= 10 {
      ValDecimal(n / 10);
      assert Decimal(n)[..|Decimal(n)| - 1] == Decimal(n / 10);
    } else {
      assert Decimal(n)[..0] == [];
      assert DigitChar(0) == '0';
      assert Digit('0') == 0;
    }
  }

  lemma {:induction false} ValBound(s: string)
    ensures Val(s) < Pow10(|s|)
  {
    if s != [] {
      ValBound(s[..|s| - 1]);
    }
  }

  lemma {:induction false} ValAtLeast(s: string)
    requires s != [] && Digits(s) && s[0] != '0'
    ensures Pow10(|s| - 1) <= Val(s)
  {
    assert IsDigit(s[0]);
    if |s| == 1 {
      assert s[..0] == [];
      assert Digit(s[0]) > 0;
    } else {
      ValAtLeast(s[..|s| - 1]);
    }
  }

  lemma {:induction false} Pow10Grows(m: nat, n: nat)
    requires m <= n
    ensures Pow10(m) <= Pow10(n)
  {
    if m < n {
      Pow10Grows(m, n - 1);
    }
  }

  /** Without leading zeros a longer number is larger. */
  lemma LongerIsLarger(a: string, b: string)
    requires |a| < |b| && Digits(b) && b[0] != '0'
    ensures Val(a) < Val(b)
  {
    ValBound(a);
    ValAtLeast(b);
    Pow10Grows(|a|, |b| - 1);
  }

  lemma {:induction false} ValTrim(s: string)
    ensures Val(TrimZeros(s)) == Val(s)
    ensures Digits(s) ==> Digits(TrimZeros(s))
    ensures TrimZeros(s) != [] ==> TrimZeros(s)[0] != '0'
  {
    if s != [] && s[0] == '0' {
      ValTrim(s[1..]);
      ValLeadingZero(s[1..]);
      assert s == ['0'] + s[1..];
    }
  }

  lemma {:induction false} ValLeadingZero(s: string)
    ensures Val(['0'] + s) == Val(s)
  {
    var z := ['0'] + s;
    if s == [] {
      assert z[..0] == [];
    } else {
      assert z[..|z| - 1] == ['0'] + s[..|s| - 1];
      ValLeadingZero(s[..|s| - 1]);
    }
  }

  lemma {:induction false} ValPadded(n: nat, s: string)
    ensures Val(Repeat('0', n) + s) == Val(s)
  {
    if n == 0 {
      assert Repeat('0', 0) + s == s;
    } else {
      assert Repeat('0', n) + s == ['0'] + (Repeat('0', n - 1) + s);
      ValLeadingZero(Repeat('0', n - 1) + s);
      ValPadded(n - 1, s);
    }
  }

  lemma ValPadLeft(s: string, width: nat)
    requires Digits(s)
    ensures Val(PadLeft(s, width)) == Val(s) && Digits(PadLeft(s, width))
  {
    if |s| < width {
      ValPadded(width - |s|, s);
    }
  }

  // ---------------------------------------------------------------------
  // Core numbers
  // ---------------------------------------------------------------------

  lemma SignificantVal(part: string)
    requires Digits(part)
    ensures Val(Significant(part)) == Val(part) && Digits(Significant(part))
  {
    ValTrim(part);
    assert "0"[..0] == [];
  }

  lemma WidthIff(part: string, width: nat)
    requires Digits(part) && width > 0
    ensures |Significant(part)| <= width <==> Val(part) < Pow10(width)
  {
    SignificantVal(part);
    ValTrim(part);
    var s := Significant(part);
    ValBound(s);
    if |s| <= width {
      Pow10Grows(|s|, width);
    } else {
      ValAtLeast(s);
      Pow10Grows(width, |s| - 1);
    }
  }

  /** A core number is supported exactly when it is below 10 to the 20th. */
  lemma CoreSupportedIff(part: string)
    requires Digits(part)
    ensures |Significant(part)| <= CORE_WIDTH <==> Val(part) < Pow10(CORE_WIDTH)
  {
    hide Pow10, Significant, Val;
    WidthIff(part, CORE_WIDTH);
  }

  lemma CoreOrder(a: string, b: string, x: string, y: string)
    requires Digits(a) && Digits(b) && |Significant(a)| <= CORE_WIDTH && |Significant(b)| <= CORE_WIDTH
    ensures Less(CoreKey(a) + x, CoreKey(b) + y) <==> Val(a) < Val(b) || (Val(a) == Val(b) && Less(x, y))
    ensures CoreKey(a) + x == CoreKey(b) + y <==> Val(a) == Val(b) && x == y
  {
    SignificantVal(a);
    SignificantVal(b);
    ValPadLeft(Significant(a), CORE_WIDTH);
    ValPadLeft(Significant(b), CORE_WIDTH);
    LessIsNumeric(CoreKey(a), CoreKey(b));
    LessSameLength(CoreKey(a), CoreKey(b), x, y);
  }

  // ---------------------------------------------------------------------
  // Prerelease identifiers
  // ---------------------------------------------------------------------

  /** Rankable identifiers whose length fits the ten digits that record it. */
  predicate Recordable(id: string) {
    IsIdent(id) && !LeadingZero(id) && (IsNumeric(id) ==> |id| < Pow10(LENGTH_WIDTH))
  }

  lemma {:induction false} DecimalFits(n: nat, width: nat)
    requires n < Pow10(width) && width > 0
    ensures |Decimal(n)| <= width
  {
    if n >= 10 {
      DecimalFits(n / 10, width - 1);
    }
  }

  lemma LengthOrder(m: nat, n: nat, x: string, y: string)
    requires m < Pow10(LENGTH_WIDTH) && n < Pow10(LENGTH_WIDTH)
    ensures var a, b := PadLeft(Decimal(m), LENGTH_WIDTH), PadLeft(Decimal(n), LENGTH_WIDTH);
      && (Less(a + x, b + y) <==> m < n || (m == n && Less(x, y)))
      && (a + x == b + y <==> m == n && x == y)
  {
    var a, b := PadLeft(Decimal(m), LENGTH_WIDTH), PadLeft(Decimal(n), LENGTH_WIDTH);
    DecimalFits(m, LENGTH_WIDTH);
    DecimalFits(n, LENGTH_WIDTH);
    ValPadLeft(Decimal(m), LENGTH_WIDTH);
    ValPadLeft(Decimal(n), LENGTH_WIDTH);
    ValDecimal(m);
    ValDecimal(n);
    LessIsNumeric(a, b);
    LessSameLength(a, b, x, y);
  }

  lemma NumericPiece(a: string, s: string)
    requires IsNumeric(a)
    ensures Piece(a) + s == "0" + (PadLeft(Decimal(|a|), LENGTH_WIDTH) + (a + ("!" + s)))
  {
    hide PadLeft, Decimal, IsNumeric;
    Assoc("0", PadLeft(Decimal(|a|), LENGTH_WIDTH), a, "!", s);
  }

  lemma Assoc(a: string, b: string, c: string, d: string, e: string)
    ensures a + b + c + d + e == a + (b + (c + (d + e)))
  {
    var x := c + (d + e);
    assert a + b + c + d + e == (a + b) + x;
    assert (a + b) + x == a + (b + x);
  }

  lemma LengthThenDigits(a: string, b: string)
    requires Recordable(a) && Recordable(b) && IsNumeric(a) && IsNumeric(b)
    ensures Val(a) < Val(b) <==> |a| < |b| || (|a| == |b| && Less(a, b))
    ensures a == b <==> Val(a) == Val(b)
  {
    if |a| == |b| {
      LessIsNumeric(a, b);
    } else if |a| < |b| {
      NoLeadingZero(b);
      LongerIsLarger(a, b);
    } else {
      NoLeadingZero(a);
      LongerIsLarger(b, a);
    }
  }

  lemma NumericPieces(a: string, b: string, s: string, t: string)
    requires Recordable(a) && Recordable(b) && IsNumeric(a) && IsNumeric(b)
    ensures Less(Piece(a) + s, Piece(b) + t) <==> Val(a) < Val(b) || (a == b && Less(s, t))
    ensures Piece(a) + s == Piece(b) + t <==> a == b && s == t
    ensures a == b <==> Val(a) == Val(b)
  {
    assert |a| < Pow10(LENGTH_WIDTH) && |b| < Pow10(LENGTH_WIDTH);
    LengthThenDigits(a, b);
    NumericPiece(a, s);
    NumericPiece(b, t);
    hide *;
    var la, lb := PadLeft(Decimal(|a|), LENGTH_WIDTH), PadLeft(Decimal(|b|), LENGTH_WIDTH);
    var ra, rb := a + ("!" + s), b + ("!" + t);
    BothPrefixed("0", la + ra, lb + rb, Piece(a) + s, Piece(b) + t);
    LengthOrder(|a|, |b|, ra, rb);
    if |a| == |b| {
      LessSameLength(a, b, "!" + s, "!" + t);
      Prefixed("!", s, t);
    }
  }

  lemma BothPrefixed(p: string, x: string, y: string, s: string, t: string)
    requires s == p + x && t == p + y
    ensures Less(s, t) <==> Less(x, y)
    ensures s == t <==> x == y
  {
    hide Less;
    Prefixed(p, x, y);
  }

  lemma NoLeadingZero(id: string)
    requires Recordable(id) && IsNumeric(id) && |id| > 1
    ensures id[0] != '0'
  {
  }

  lemma TextPieces(a: string, b: string, s: string, t: string)
    requires IsIdent(a) && IsIdent(b) && !IsNumeric(a) && !IsNumeric(b)
    ensures Less(Piece(a) + s, Piece(b) + t) <==> Less(a, b) || (a == b && Less(s, t))
    ensures Piece(a) + s == Piece(b) + t <==> a == b && s == t
  {
    assert Piece(a) + s == "1" + (a + (['!'] + s));
    assert Piece(b) + t == "1" + (b + (['!'] + t));
    LessSameLength("1", "1", a + (['!'] + s), b + (['!'] + t));
    assert !Less("1", "1");
    LessTerminated(a, b, '!', s, t);
  }

  /** A piece decides the order of what it starts, as its identifier does. */
  lemma PieceOrder(a: string, b: string, s: string, t: string)
    requires Recordable(a) && Recordable(b)
    ensures Less(Piece(a) + s, Piece(b) + t) <==> IdentLess(MeaningOfIdent(a), MeaningOfIdent(b)) || (a == b && Less(s, t))
    ensures Piece(a) + s == Piece(b) + t <==> a == b && s == t
    ensures MeaningOfIdent(a) == MeaningOfIdent(b) <==> a == b
  {
    if IsNumeric(a) && IsNumeric(b) {
      NumericPieces(a, b, s, t);
    } else if !IsNumeric(a) && !IsNumeric(b) {
      TextPieces(a, b, s, t);
    } else {
      var p, q := Piece(a) + s, Piece(b) + t;
      assert p[0] == (if IsNumeric(a) then '0' else '1') && q[0] == (if IsNumeric(b) then '0' else '1');
    }
  }

  lemma {:induction false} FieldsOrder(p: seq<string>, q: seq<string>)
    requires (forall id | id in p :: Recordable(id)) && (forall id | id in q :: Recordable(id))
    ensures Less(PreKey(p), PreKey(q)) <==> FieldsLess(MeaningOfIdents(p), MeaningOfIdents(q))
    ensures PreKey(p) == PreKey(q) <==> MeaningOfIdents(p) == MeaningOfIdents(q)
  {
    if p == [] || q == [] {
      assert p != [] ==> |PreKey(p)| > 0;
      assert q != [] ==> |PreKey(q)| > 0;
    } else {
      hide Recordable, Piece, MeaningOfIdent, IdentLess;
      var x, y := MeaningOfIdents(p), MeaningOfIdents(q);
      FieldsOrder(p[1..], q[1..]);
      PieceOrder(p[0], q[0], PreKey(p[1..]), PreKey(q[1..]));
      assert x[1..] == MeaningOfIdents(p[1..]) && y[1..] == MeaningOfIdents(q[1..]);
      assert x == [x[0]] + x[1..] && y == [y[0]] + y[1..];
    }
  }

  function Tail(pre: seq<string>): string {
    if pre == [] then "~" else PreKey(pre)
  }

  lemma TailOrder(p: seq<string>, q: seq<string>)
    requires (forall id | id in p :: Recordable(id)) && (forall id | id in q :: Recordable(id))
    ensures Less(Tail(p), Tail(q)) <==> PreLess(MeaningOfIdents(p), MeaningOfIdents(q))
    ensures Tail(p) == Tail(q) <==> MeaningOfIdents(p) == MeaningOfIdents(q)
  {
    FieldsOrder(p, q);
    assert p != [] ==> PreKey(p)[0] in {'0', '1'};
    assert q != [] ==> PreKey(q)[0] in {'0', '1'};
  }

  // ---------------------------------------------------------------------
  // Versions
  // ---------------------------------------------------------------------

  /** A supported text whose numeric prerelease identifiers are shorter than the limit. */
  predicate NumbersShorterThan(limit: nat, raw: string) {
    Supported(raw) && forall id | id in Parse(raw).value.pre && IsNumeric(id) :: |id| < limit
  }

  /** The length of every numeric prerelease identifier fits the ten digits that record it. */
  predicate Ordinary(raw: string) {
    NumbersShorterThan(Pow10(LENGTH_WIDTH), raw)
  }

  lemma CoreDigits(t: VersionText, i: nat)
    requires WellFormed(t)
    ensures Digits(CorePart(t, i))
  {
    if i < |t.core| {
      assert t.core[i] in t.core;
    }
  }

  lemma KeyOrder(t: VersionText, u: VersionText)
    requires WellFormed(t) && WellFormed(u) && Rankable(t) && Rankable(u)
    requires (forall id | id in t.pre :: Recordable(id)) && (forall id | id in u.pre :: Recordable(id))
    ensures Less(KeyOf(t), KeyOf(u)) <==> Precedes(Meaning(t), Meaning(u))
    ensures KeyOf(t) == KeyOf(u) <==> Meaning(t) == Meaning(u)
  {
    var t0, t1, t2 := CorePart(t, 0), CorePart(t, 1), CorePart(t, 2);
    var u0, u1, u2 := CorePart(u, 0), CorePart(u, 1), CorePart(u, 2);
    CoreDigits(t, 0);
    CoreDigits(t, 1);
    CoreDigits(t, 2);
    CoreDigits(u, 0);
    CoreDigits(u, 1);
    CoreDigits(u, 2);
    assert |Significant(t0)| <= CORE_WIDTH && |Significant(t1)| <= CORE_WIDTH && |Significant(t2)| <= CORE_WIDTH;
    assert |Significant(u0)| <= CORE_WIDTH && |Significant(u1)| <= CORE_WIDTH && |Significant(u2)| <= CORE_WIDTH;
    hide WellFormed, Rankable, Recordable, CoreKey, Significant, CorePart, Digits, PreLess, MeaningOfIdents;
    KeyParts(t);
    KeyParts(u);
    var x3, y3 := Tail(t.pre), Tail(u.pre);
    TailOrder(t.pre, u.pre);
    hide Tail;
    var x2, y2 := CoreKey(t2) + ("/" + x3), CoreKey(u2) + ("/" + y3);
    Prefixed("/", x3, y3);
    CoreOrder(t2, u2, "/" + x3, "/" + y3);
    var x1, y1 := CoreKey(t1) + ("." + x2), CoreKey(u1) + ("." + y2);
    Prefixed(".", x2, y2);
    CoreOrder(t1, u1, "." + x2, "." + y2);
    Prefixed(".", x1, y1);
    CoreOrder(t0, u0, "." + x1, "." + y1);
  }

  lemma KeyParts(t: VersionText)
    ensures KeyOf(t) == CoreKey(CorePart(t, 0)) + ("." + (CoreKey(CorePart(t, 1)) + ("." + (CoreKey(CorePart(t, 2)) + ("/" + Tail(t.pre))))))
  {
    hide CoreKey, CorePart;
    var a, b, c, d := CoreKey(CorePart(t, 0)), CoreKey(CorePart(t, 1)), CoreKey(CorePart(t, 2)), Tail(t.pre);
    assert KeyOf(t) == a + "." + b + "." + c + "/" + d;
    Regroup(a, b, c, d);
  }

  lemma Regroup(a: string, b: string, c: string, d: string)
    ensures a + "." + b + "." + c + "/" + d == a + ("." + (b + ("." + (c + ("/" + d)))))
  {
    assert c + "/" + d == c + ("/" + d);
    var e := c + ("/" + d);
    assert a + "." + b + "." + c + "/" + d == (a + "." + b) + ("." + e);
    var f := b + ("." + e);
    assert (a + "." + b) + ("." + e) == a + ("." + f);
  }

  lemma Prefixed(p: string, x: string, y: string)
    ensures Less(p + x, p + y) <==> Less(x, y)
    ensures p + x == p + y <==> x == y
  {
    LessSameLength(p, p, x, y);
    LessIrreflexive(p);
  }

  /** Byte order of keys is version precedence, and equal keys are equal precedence. */
  lemma KeysOrderVersions(a: string, b: string)
    requires Ordinary(a) && Ordinary(b)
    ensures Less(RawKey(a), RawKey(b)) <==> Precedes(Denotes(a), Denotes(b))
    ensures RawKey(a) == RawKey(b) <==> Denotes(a) == Denotes(b)
  {
    RenderParse(a);
    RenderParse(b);
    OrdinaryIdents(a);
    OrdinaryIdents(b);
    KeyOrder(Parse(a).value, Parse(b).value);
  }

  lemma OrdinaryIdents(a: string)
    requires Ordinary(a)
    ensures forall id | id in Parse(a).value.pre :: Recordable(id)
  {
    RenderParse(a);
    hide Parse, Pow10, IsIdent;
    assert IdentsOf(Parse(a).value);
  }

  predicate IdentsOf(t: VersionText) {
    forall id | id in t.pre :: IsIdent(id)
  }

  // ---------------------------------------------------------------------
  // What a text denotes
  // ---------------------------------------------------------------------

  /** A text is supported iff its core numbers are below 10 to the 20th and no numeric
      prerelease identifier has a leading zero. */
  lemma SupportedIff(t: VersionText)
    requires WellFormed(t)
    ensures Supported(Render(t)) <==>
      (forall p | p in t.core :: Val(p) < Pow10(CORE_WIDTH)) && (forall id | id in t.pre :: !LeadingZero(id))
  {
    assert Parse(Render(t)) == Some(t) by { ParseRender(t); }
    hide Parse, Render, Val, Pow10, LeadingZero, WellFormed, Significant, CorePart;
    CoreFits(t);
  }

  lemma CoreFits(t: VersionText)
    requires WellFormed(t)
    ensures (forall i | 0 <= i < 3 :: |Significant(CorePart(t, i))| <= CORE_WIDTH) <==> forall p | p in t.core :: Val(p) < Pow10(CORE_WIDTH)
  {
    forall i: nat | i < |t.core|
      ensures |Significant(CorePart(t, i))| <= CORE_WIDTH <==> Val(t.core[i]) < Pow10(CORE_WIDTH)
    {
      NumericDigits(t, i);
      CoreSupportedIff(t.core[i]);
    }
    NoDigits();
    hide Significant, Val, Pow10, WellFormed, IsNumeric;
    assert 1 <= |t.core| <= 3 by { CoreSize(t); }
    assert forall i: nat | |t.core| <= i < 3 :: CorePart(t, i) == "";
    forall p | p in t.core && (forall i | 0 <= i < 3 :: |Significant(CorePart(t, i))| <= CORE_WIDTH)
      ensures Val(p) < Pow10(CORE_WIDTH)
    {
      var i: nat :| i < |t.core| && t.core[i] == p;
    }
    forall i: nat | i < 3 && forall p | p in t.core :: Val(p) < Pow10(CORE_WIDTH)
      ensures |Significant(CorePart(t, i))| <= CORE_WIDTH
    {
      if i < |t.core| {
        assert t.core[i] in t.core;
      }
    }
  }

  lemma CoreSize(t: VersionText)
    requires WellFormed(t)
    ensures 1 <= |t.core| <= 3
  {
  }

  lemma NumericDigits(t: VersionText, i: nat)
    requires WellFormed(t) && i < |t.core|
    ensures Digits(t.core[i])
  {
    assert t.core[i] in t.core;
  }

  lemma NoDigits()
    ensures |Significant("")| == 1 && Val("") == 0
  {
  }

  /** The core lists major, minor and patch in this order, and a missing number is 0; the
      prerelease identifiers follow one by one. */
  lemma DenotesText(t: VersionText)
    requires WellFormed(t) && Supported(Render(t))
    ensures var v := Denotes(Render(t));
      && v.major == Val(t.core[0])
      && v.minor == (if |t.core| >= 2 then Val(t.core[1]) else 0)
      && v.patch == (if |t.core| == 3 then Val(t.core[2]) else 0)
      && |v.pre| == |t.pre|
      && forall i | 0 <= i < |t.pre| :: v.pre[i] == if forall c | c in t.pre[i] :: '0' <= c <= '9' then Num(Val(t.pre[i])) else Alnum(t.pre[i])
  {
    ParseRender(t);
    NoDigits();
    hide Parse, Render, Supported, Val, IsNumeric;
    var pre := MeaningOfIdents(t.pre);
    IdentsInOrder(t.pre);
    forall i | 0 <= i < |t.pre|
      ensures pre[i] == if forall c | c in t.pre[i] :: '0' <= c <= '9' then Num(Val(t.pre[i])) else Alnum(t.pre[i])
    {
      IdentNumeric(t, i);
    }
  }

  lemma IdentNumeric(t: VersionText, i: nat)
    requires WellFormed(t) && i < |t.pre|
    ensures IsNumeric(t.pre[i]) <==> forall c | c in t.pre[i] :: '0' <= c <= '9'
  {
    assert t.pre[i] in t.pre;
    assert IsIdent(t.pre[i]);
    assert forall c | c in t.pre[i] :: IsDigit(c) <==> '0' <= c <= '9';
  }

  lemma {:induction false} IdentsInOrder(ids: seq<string>)
    ensures |MeaningOfIdents(ids)| == |ids|
    ensures forall i | 0 <= i < |ids| :: MeaningOfIdents(ids)[i] == MeaningOfIdent(ids[i])
  {
    hide MeaningOfIdent;
    if ids != [] {
      IdentsInOrder(ids[1..]);
    }
  }

  /** The key holds the three numbers of a version, each in twenty digits, and tells whether
      there are prerelease identifiers. */
  predicate Holds(key: string, v: Version) {
    && |key| > 63 && key[20] == '.' && key[41] == '.' && key[62] == '/'
    && Digits(key[..20]) && Val(key[..20]) == v.major
    && Digits(key[21..41]) && Val(key[21..41]) == v.minor
    && Digits(key[42..62]) && Val(key[42..62]) == v.patch
    && (v.pre == [] <==> key[63..] == "~")
  }

  lemma RawKeyHolds(raw: string)
    requires Supported(raw)
    ensures Holds(RawKey(raw), Denotes(raw))
  {
    RenderParse(raw);
    KeyHolds(Parse(raw).value);
  }

  lemma KeyHolds(t: VersionText)
    requires WellFormed(t) && Rankable(t)
    ensures Holds(KeyOf(t), Meaning(t))
  {
    var a, b, c, d := CoreKey(CorePart(t, 0)), CoreKey(CorePart(t, 1)), CoreKey(CorePart(t, 2)), Tail(t.pre);
    CoreKeyHolds(t, 0);
    CoreKeyHolds(t, 1);
    CoreKeyHolds(t, 2);
    TailHolds(t.pre);
    hide CoreKey, CorePart, Tail, Rankable, WellFormed, Val, Digits, MeaningOfIdents, PreKey;
    FourParts(a, b, c, d);
    assert KeyOf(t) == a + "." + b + "." + c + "/" + d;
  }

  lemma FourParts(a: string, b: string, c: string, d: string)
    requires |a| == |b| == |c| == 20 && d != ""
    ensures var k := a + "." + b + "." + c + "/" + d;
      && |k| > 63 && k[20] == '.' && k[41] == '.' && k[62] == '/'
      && k[..20] == a && k[21..41] == b && k[42..62] == c && k[63..] == d
  {
  }

  lemma CoreKeyHolds(t: VersionText, i: nat)
    requires WellFormed(t) && Rankable(t) && i < 3
    ensures var k := CoreKey(CorePart(t, i)); |k| == 20 && Digits(k) && Val(k) == Val(CorePart(t, i))
  {
    CoreDigits(t, i);
    SignificantVal(CorePart(t, i));
    ValPadLeft(Significant(CorePart(t, i)), CORE_WIDTH);
  }

  lemma TailHolds(pre: seq<string>)
    ensures Tail(pre) != "" && (MeaningOfIdents(pre) == [] <==> Tail(pre) == "~")
  {
    assert pre != [] ==> PreKey(pre)[0] in {'0', '1'};
  }

  /** The same for spelled-out texts: a, a.b and a.b.c with or without a leading v,
      prerelease identifiers and build metadata. */
  lemma DenotesSpelled(v: bool, a: string, b: string, c: string, ids: seq<string>, meta: seq<string>)
    requires IsNumeric(a) && IsNumeric(b) && IsNumeric(c)
    requires (forall id | id in ids :: IsIdent(id)) && (forall id | id in meta :: IsIdent(id))
    ensures var lead, tail := if v then "v" else "", (if ids == [] then "" else "-" + Join(ids, '.')) + (if meta == [] then "" else "+" + Join(meta, '.'));
      && Parse(lead + a + tail) == Some(VersionText(v, [a], ids, meta))
      && Parse(lead + a + "." + b + tail) == Some(VersionText(v, [a, b], ids, meta))
      && Parse(lead + a + "." + b + "." + c + tail) == Some(VersionText(v, [a, b, c], ids, meta))
  {
    hide Parse, IsNumeric, IsIdent, Join;
    JoinThree(a, b, c);
    Spelled(v, [a], ids, meta);
    Spelled(v, [a, b], ids, meta);
    Spelled(v, [a, b, c], ids, meta);
    var lead, tail := if v then "v" else "", (if ids == [] then "" else "-" + Join(ids, '.')) + (if meta == [] then "" else "+" + Join(meta, '.'));
    assert lead + (a + "." + b) + tail == lead + a + "." + b + tail by { Flatten(lead, a, b, c); }
    assert lead + (a + "." + b + "." + c) + tail == lead + a + "." + b + "." + c + tail by { Flatten(lead, a, b, c); }
  }

  lemma Flatten(lead: string, a: string, b: string, c: string)
    ensures lead + (a + "." + b) == lead + a + "." + b
    ensures lead + (a + "." + b + "." + c) == lead + a + "." + b + "." + c
  {
  }

  lemma JoinThree(a: string, b: string, c: string)
    ensures Join([a], '.') == a
    ensures Join([a, b], '.') == a + "." + b
    ensures Join([a, b, c], '.') == a + "." + b + "." + c
  {
    assert [a, b][1..] == [b];
    var three, two := [a, b, c], [b, c];
    assert three[1..] == two && two[1..] == [c];
    assert Join(three, '.') == a + ['.'] + Join(two, '.') && Join(two, '.') == b + ['.'] + Join([c], '.');
    assert a + ['.'] + (b + ['.'] + c) == a + "." + b + "." + c;
  }

  lemma Spelled(v: bool, core: seq<string>, ids: seq<string>, meta: seq<string>)
    requires 1 <= |core| <= 3 && (forall p | p in core :: IsNumeric(p))
    requires (forall id | id in ids :: IsIdent(id)) && (forall id | id in meta :: IsIdent(id))
    ensures var tail := (if ids == [] then "" else "-" + Join(ids, '.')) + (if meta == [] then "" else "+" + Join(meta, '.'));
      Parse((if v then "v" else "") + Join(core, '.') + tail) == Some(VersionText(v, core, ids, meta))
  {
    var t := VersionText(v, core, ids, meta);
    ParseRender(t);
    hide Parse, Join, WellFormed, IsNumeric, IsIdent;
    Rendered(t);
  }

  lemma Rendered(t: VersionText)
    ensures Render(t) == (if t.v then "v" else "") + Join(t.core, '.')
      + ((if t.pre == [] then "" else "-" + Join(t.pre, '.')) + (if t.build == [] then "" else "+" + Join(t.build, '.')))
  {
    hide Join;
    var x, y, z := RenderCore(t), Listed('-', t.pre), Listed('+', t.build);
    assert (x + y) + z == x + (y + z);
  }

  // ---------------------------------------------------------------------
  // Beyond ten billion characters
  // ---------------------------------------------------------------------

  /** d followed by k zeros. */
  function Scaled(d: nat, k: nat): nat {
    if k == 0 then d else 10 * Scaled(d, k - 1)
  }

  lemma {:induction false} LeadingDigit(n: nat, d: nat, k: nat)
    requires 1 <= d < 10 && Scaled(d, k) <= n < Scaled(d + 1, k)
    ensures |Decimal(n)| == k + 1 && Decimal(n)[0] == DigitChar(d)
  {
    if k > 0 {
      ScaledPositive(d, k - 1);
      LeadingDigit(n / 10, d, k - 1);
    }
  }

  lemma {:induction false} ScaledPositive(d: nat, k: nat)
    requires d > 0
    ensures Scaled(d, k) > 0
  {
    if k > 0 {
      ScaledPositive(d, k - 1);
    }
  }

  lemma Billions(d: nat)
    ensures Scaled(d, 9) == 1_000_000_000 * d && Scaled(d, 10) == 10_000_000_000 * d
  {
    assert Scaled(d, 1) == 10 * d && Scaled(d, 2) == 100 * d && Scaled(d, 3) == 1000 * d;
    assert Scaled(d, 4) == 10_000 * d && Scaled(d, 5) == 100_000 * d && Scaled(d, 6) == 1_000_000 * d;
    assert Scaled(d, 7) == 10_000_000 * d && Scaled(d, 8) == 100_000_000 * d;
  }

  /** The limit is real: a numeric identifier of eleven-digit length that starts with 1 is
      keyed below shorter numbers, although it is larger than them. */
  lemma LongIdentifierMisordered(a: string, b: string)
    requires IsNumeric(a) && IsNumeric(b) && !LeadingZero(a) && !LeadingZero(b)
    requires 10_000_000_000 <= |a| < 20_000_000_000 && 2_000_000_000 <= |b| < 10_000_000_000
    ensures var t, u := VersionText(false, ["0"], [a], []), VersionText(false, ["0"], [b], []);
      && Supported(Render(t)) && Supported(Render(u))
      && Less(RawKey(Render(t)), RawKey(Render(u))) && Precedes(Denotes(Render(u)), Denotes(Render(t)))
  {
    ZeroVersion(a);
    ZeroVersion(b);
    LongerIsLarger(b, a);
    LongPieces(a, b);
    hide *;
    Prefixed(ZeroCore(), Piece(a), Piece(b));
    assert Precedes(Version(0, 0, 0, [Num(Val(b))]), Version(0, 0, 0, [Num(Val(a))])) by { NumbersPrecede(Val(b), Val(a)); }
  }

  /** Byte order of keys is precedence for all versions within the limit. */
  ghost predicate OrderedWithin(limit: nat) {
    forall a, b | NumbersShorterThan(limit, a) && NumbersShorterThan(limit, b) :: Less(RawKey(a), RawKey(b)) <==> Precedes(Denotes(a), Denotes(b))
  }

  /** The exact limit: keys order all supported versions with numeric identifiers shorter
      than it if and only if it is at most ten billion. Texts may be of any length. */
  lemma OrderedIffTenBillion(limit: nat)
    ensures OrderedWithin(limit) <==> limit <= 10_000_000_000
  {
    assert Pow10(LENGTH_WIDTH) == 10_000_000_000 by { TenBillion(); }
    hide Pow10, Less, RawKey, Denotes, Precedes;
    if limit <= 10_000_000_000 {
      forall a, b | NumbersShorterThan(limit, a) && NumbersShorterThan(limit, b)
        ensures Less(RawKey(a), RawKey(b)) <==> Precedes(Denotes(a), Denotes(b))
      {
        KeysOrderVersions(a, b);
      }
    } else {
      var a, b := Repeat('1', 10_000_000_000), Repeat('1', 2_000_000_000);
      OnesNumeric(10_000_000_000);
      OnesNumeric(2_000_000_000);
      LongIdentifierMisordered(a, b);
      WithinLimit(a, limit);
      WithinLimit(b, limit);
      var t, u := Render(VersionText(false, ["0"], [a], [])), Render(VersionText(false, ["0"], [b], []));
      PrecedenceAsymmetric(Denotes(u), Denotes(t), Val(b), Val(a));
      assert !(Less(RawKey(t), RawKey(u)) <==> Precedes(Denotes(t), Denotes(u)));
    }
  }

  lemma TenBillion()
    ensures Pow10(LENGTH_WIDTH) == 10_000_000_000
  {
    assert Pow10(2) == 100;
    assert Pow10(4) == 10_000;
    assert Pow10(6) == 1_000_000;
    assert Pow10(8) == 100_000_000;
  }

  lemma OnesNumeric(n: nat)
    requires n > 0
    ensures IsNumeric(Repeat('1', n)) && !LeadingZero(Repeat('1', n))
  {
    assert Repeat('1', n)[0] in Repeat('1', n);
  }

  lemma WithinLimit(a: string, limit: nat)
    requires IsNumeric(a) && !LeadingZero(a) && |a| < limit
    ensures NumbersShorterThan(limit, Render(VersionText(false, ["0"], [a], [])))
    ensures Denotes(Render(VersionText(false, ["0"], [a], []))) == Version(0, 0, 0, [Num(Val(a))])
  {
    ZeroVersion(a);
    hide Render, Parse, Supported, IsNumeric, RawKey, Denotes, Val;
  }

  lemma OneField(m: nat, n: nat)
    ensures FieldsLess([Num(m)], [Num(n)]) <==> m < n
  {
    assert [Num(m)][1..] == [] && [Num(n)][1..] == [];
    assert !FieldsLess([], []);
  }

  lemma PrecedenceAsymmetric(v: Version, w: Version, m: nat, n: nat)
    requires v == Version(0, 0, 0, [Num(m)]) && w == Version(0, 0, 0, [Num(n)]) && Precedes(v, w)
    ensures !Precedes(w, v)
  {
    assert FieldsLess([Num(m)], [Num(n)]) <==> m < n by { OneField(m, n); }
    assert FieldsLess([Num(n)], [Num(m)]) <==> n < m by { OneField(n, m); }
  }

  function ZeroCore(): string {
    CoreKey("0") + "." + CoreKey("") + "." + CoreKey("") + "/"
  }

  lemma NumbersPrecede(m: nat, n: nat)
    requires m < n
    ensures Precedes(Version(0, 0, 0, [Num(m)]), Version(0, 0, 0, [Num(n)]))
  {
  }

  /** The version 0 with one numeric prerelease identifier. */
  lemma ZeroVersion(a: string)
    requires IsNumeric(a) && !LeadingZero(a)
    ensures var raw := Render(VersionText(false, ["0"], [a], []));
      && Parse(raw) == Some(VersionText(false, ["0"], [a], []))
      && Supported(raw) && RawKey(raw) == ZeroCore() + Piece(a) && Denotes(raw) == Version(0, 0, 0, [Num(Val(a))])
  {
    var t := VersionText(false, ["0"], [a], []);
    assert WellFormed(t);
    ParseRender(t);
    ZeroCoreRankable(a);
    OneIdentifier(a);
    assert Val("") == 0 && Val("0") == 0 by { assert "0"[..0] == ""; }
    hide Parse, Render, Val, PreKey, Piece, MeaningOfIdents, IsNumeric, Rankable, CoreKey, WellFormed;
  }

  lemma ZeroCoreRankable(a: string)
    requires !LeadingZero(a)
    ensures Rankable(VersionText(false, ["0"], [a], []))
  {
    hide LeadingZero;
    assert TrimZeros("") == "" && TrimZeros("0") == "";
  }

  lemma OneIdentifier(a: string)
    requires IsNumeric(a)
    ensures PreKey([a]) == Piece(a) && MeaningOfIdents([a]) == [Num(Val(a))]
  {
    hide Piece, Val;
    assert [a][1..] == [];
    assert PreKey([]) == "";
    assert Piece(a) + "" == Piece(a);
  }

  lemma LongPieces(a: string, b: string)
    requires IsNumeric(a) && IsNumeric(b)
    requires 10_000_000_000 <= |a| < 20_000_000_000 && 2_000_000_000 <= |b| < 10_000_000_000
    ensures Less(Piece(a), Piece(b))
  {
    var d := |b| / 1_000_000_000;
    Billions(1);
    Billions(2);
    Billions(d);
    Billions(d + 1);
    LeadingDigit(|a|, 1, 10);
    LeadingDigit(|b|, d, 9);
    var la, lb := PadLeft(Decimal(|a|), LENGTH_WIDTH), PadLeft(Decimal(|b|), LENGTH_WIDTH);
    NumericPiece(a, "");
    NumericPiece(b, "");
    assert Piece(a) + "" == Piece(a) && Piece(b) + "" == Piece(b);
    assert DigitChar(1) < DigitChar(d);
    assert Less(la + (a + "!"), lb + (b + "!"));
    Prefixed("0", la + (a + ("!" + "")), lb + (b + ("!" + "")));
    assert "!" + "" == "!";
  }

  // ---------------------------------------------------------------------
  // The highest key of a list
  // ---------------------------------------------------------------------

  /** Pads the three core numbers; stops at the first that is too long. */
  method CoreOf(parts: seq<string>) returns (core: seq<string>)
    requires |parts| == 3
    ensures |core| == 3 <==> forall i | 0 <= i < 3 :: |Significant(parts[i])| <= CORE_WIDTH
    ensures |core| == 3 ==> forall i | 0 <= i < 3 :: core[i] == CoreKey(parts[i])
  {
    core := [];
    for i := 0 to 3
      invariant |core| == i
      invariant forall j | 0 <= j < i :: |Significant(parts[j])| <= CORE_WIDTH && core[j] == CoreKey(parts[j])
    {
      var part := TrimZeros(parts[i]);
      if part == "" {
        part := "0";
      }
      if |part| > CORE_WIDTH {
        core := [];
        break;
      }
      core := core + [Repeat('0', CORE_WIDTH - |part|) + part];
    }
  }

  /** Appends the pieces of the identifiers; refuses a leading zero. */
  method AppendPre(start: string, ids: seq<string>) returns (key: string, valid: bool)
    ensures valid <==> forall id | id in ids :: !LeadingZero(id)
    ensures valid ==> key == start + PreKey(ids)
  {
    key, valid := start, true;
    hide PreKey, Piece;
    assert ids[0..] == ids;
    for i := 0 to |ids|
      invariant valid
      invariant forall j | 0 <= j < i :: !LeadingZero(ids[j])
      invariant key + PreKey(ids[i..]) == start + PreKey(ids)
    {
      var id := ids[i];
      if IsNumeric(id) {
        if |id| > 1 && id[0] == '0' {
          valid := false;
          assert LeadingZero(ids[i]);
          break;
        }
      }
      AppendPiece(key, ids[i..]);
      key := key + Piece(id);
      assert ids[i..][1..] == ids[i + 1..];
    }
    if valid {
      assert ids[|ids|..] == [];
      NoPiece(key);
    }
  }

  lemma NoPiece(key: string)
    ensures key + PreKey([]) == key
  {
  }

  lemma AppendPiece(key: string, ids: seq<string>)
    requires ids != []
    ensures key + PreKey(ids) == key + Piece(ids[0]) + PreKey(ids[1..])
  {
  }

  /** The key of one text, when it is supported. */
  method KeyFor(raw: string) returns (key: Option<string>)
    ensures key == if Supported(raw) then Some(RawKey(raw)) else None
    ensures key.Some? ==> Holds(key.value, Denotes(raw))
  {
    hide Holds, Denotes;
    assert Supported(raw) ==> Holds(RawKey(raw), Denotes(raw)) by {
      hide *;
      if Supported(raw) {
        RawKeyHolds(raw);
      }
    }
    hide Parse, CoreKey, Significant, PreKey, LeadingZero, CorePart;
    var m := Parse(raw);
    if m == None {
      return None;
    }
    var t := m.value;
    var core := CoreOf([CorePart(t, 0), CorePart(t, 1), CorePart(t, 2)]);
    if |core| != 3 {
      return None;
    }
    var text := core[0] + "." + core[1] + "." + core[2] + "/";
    if t.pre == [] {
      return Some(text + "~");
    }
    var valid;
    text, valid := AppendPre(text, t.pre);
    return if valid then Some(text) else None;
  }

  /** This supported text precedes no supported text of the list: it is a highest one. */
  predicate Highest(versions: seq<string>, raw: string) {
    && raw in versions && Supported(raw)
    && forall other | other in versions && Supported(other) :: !Precedes(Denotes(raw), Denotes(other))
  }

  /** The key of a highest supported version, or the empty key when none is supported. */
  method HighestKey(versions: seq<string>) returns (best: string)
    ensures best == "" <==> forall raw | raw in versions :: !Supported(raw)
    ensures forall raw | raw in versions && Supported(raw) :: AtMost(RawKey(raw), best)
    ensures best != "" ==> exists raw :: raw in versions && Supported(raw) && RawKey(raw) == best
    ensures best != "" && (forall raw | raw in versions && Supported(raw) :: Ordinary(raw)) ==>
      exists raw :: Highest(versions, raw) && RawKey(raw) == best
  {
    hide Supported, RawKey, Less, Highest, Ordinary, Holds, Denotes;
    best := "";
    ghost var source := "";
    for i := 0 to |versions|
      invariant best == "" <==> forall j | 0 <= j < i :: !Supported(versions[j])
      invariant forall j | 0 <= j < i && Supported(versions[j]) :: AtMost(RawKey(versions[j]), best)
      invariant best != "" ==> source in versions && Supported(source) && RawKey(source) == best
    {
      var key := KeyFor(versions[i]);
      if key.Some? {
        AboveEmpty(versions[i]);
        LessTotal(best, key.value);
        if Less(best, key.value) {
          Raised(versions[..i], best, key.value);
          best := key.value;
          source := versions[i];
        }
      }
    }
    if best != "" && forall raw | raw in versions && Supported(raw) :: Ordinary(raw) {
      KeyMaximum(versions, source, best);
    }
  }

  lemma AboveEmpty(raw: string)
    requires Supported(raw)
    ensures RawKey(raw) != "" && Less("", RawKey(raw))
  {
  }

  /** A greater bound still bounds what the smaller one bounded. */
  lemma Raised(versions: seq<string>, best: string, key: string)
    requires Less(best, key)
    ensures forall raw | raw in versions && Supported(raw) && AtMost(RawKey(raw), best) :: AtMost(RawKey(raw), key)
  {
    hide Supported, RawKey, Less;
    forall raw | raw in versions && Supported(raw) && AtMost(RawKey(raw), best)
      ensures AtMost(RawKey(raw), key)
    {
      if RawKey(raw) != best {
        LessTransitive(RawKey(raw), best, key);
      }
    }
  }

  lemma KeyMaximum(versions: seq<string>, source: string, best: string)
    requires source in versions && Supported(source) && RawKey(source) == best
    requires forall raw | raw in versions && Supported(raw) :: AtMost(RawKey(raw), best)
    requires forall raw | raw in versions && Supported(raw) :: Ordinary(raw)
    ensures Highest(versions, source)
  {
    hide Supported, RawKey, Less, Ordinary, Denotes, Precedes;
    forall other | other in versions && Supported(other)
      ensures !Precedes(Denotes(source), Denotes(other))
    {
      KeysOrderVersions(source, other);
      LessIrreflexive(best);
      if Less(best, RawKey(other)) && Less(RawKey(other), best) {
        LessTransitive(best, RawKey(other), best);
      }
    }
  }
}
