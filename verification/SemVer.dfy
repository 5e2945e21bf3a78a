/** Version texts, as the version pattern accepts them, and the precedence of section 11 of
    Semantic Versioning 2.0.0.
 */
module SemVer {
  import opened Options
  import opened Strings
  import opened Text

  // ---------------------------------------------------------------------
  // Grammar
  // ---------------------------------------------------------------------

  predicate IsDigit(c: char) {
    '0' <= c <= '9'
  }

  predicate IsIdentChar(c: char) {
    IsDigit(c) || 'A' <= c <= 'Z' || 'a' <= c <= 'z' || c == '-'
  }

  predicate IsNumeric(s: string) {
    s != "" && forall c | c in s :: IsDigit(c)
  }

  predicate IsIdent(s: string) {
    s != "" && forall c | c in s :: IsIdentChar(c)
  }

  /** One to three core numbers, and possibly empty lists of prerelease and build
      identifiers. */
  datatype VersionText = VersionText(v: bool, core: seq<string>, pre: seq<string>, build: seq<string>)

  predicate WellFormed(t: VersionText) {
    && 1 <= |t.core| <= 3
    && (forall p | p in t.core :: IsNumeric(p))
    && (forall p | p in t.pre :: IsIdent(p))
    && (forall p | p in t.build :: IsIdent(p))
  }

  function Render(t: VersionText): string {
    RenderBody(t) + Listed('+', t.build)
  }

  function RenderBody(t: VersionText): string {
    RenderCore(t) + Listed('-', t.pre)
  }

  function Listed(lead: char, ids: seq<string>): string {
    if ids == [] then "" else [lead] + Join(ids, '.')
  }

  function RenderCore(t: VersionText): string {
    (if t.v then "v" else "") + Join(t.core, '.')
  }

  // ---------------------------------------------------------------------
  // Parsing
  // ---------------------------------------------------------------------

  function ParseIdents(s: string, present: bool): Option<seq<string>> {
    if !present then Some([])
    else if forall p | p in Split(s, '.') :: IsIdent(p) then Some(Split(s, '.')) else None
  }

  function ParseCore(s: string): Option<(bool, seq<string>)> {
    var v := s != "" && s[0] == 'v';
    var core := Split(if v then s[1..] else s, '.');
    if |core| <= 3 && forall p | p in core :: IsNumeric(p) then Some((v, core)) else None
  }

  /** The text before the lead character, and the identifiers listed after it. */
  function TakeList(s: string, lead: char): (string, Option<seq<string>>) {
    var (head, tail, found) := Cut(s, lead);
    (head, ParseIdents(tail, found))
  }

  function Parse(raw: string): Option<VersionText> {
    var (body, build) := TakeList(raw, '+');
    var (coreText, pre) := TakeList(body, '-');
    var core := ParseCore(coreText);
    if core.Some? && pre.Some? && build.Some?
    then Some(VersionText(core.value.0, core.value.1, pre.value, build.value)) else None
  }

  lemma {:induction false} JoinFree(parts: seq<string>, sep: char, c: char)
    requires c != sep && forall p | p in parts :: c !in p
    ensures c !in Join(parts, sep)
  {
    if |parts| > 1 {
      JoinFree(parts[1..], sep, c);
    }
  }

  lemma TakeBack(head: string, lead: char, ids: seq<string>)
    requires lead !in head && forall p | p in ids :: IsIdent(p)
    ensures TakeList(head + Listed(lead, ids), lead) == (head, Some(ids))
  {
    if ids == [] {
      CutUnique(head, "", lead);
      assert head + Listed(lead, ids) == head;
    } else {
      Regroup(head, lead, ids);
      CutUnique(head, Join(ids, '.'), lead);
      IdentsBack(ids);
      hide *;
      assert TakeList(head + Listed(lead, ids), lead) == (head, Some(ids)) by { Taken(head + Listed(lead, ids), head, Join(ids, '.'), lead); }
    }
  }

  lemma Regroup(head: string, lead: char, ids: seq<string>)
    requires ids != []
    ensures head + Listed(lead, ids) == head + [lead] + Join(ids, '.')
  {
    hide Join;
  }

  lemma Taken(s: string, head: string, tail: string, lead: char)
    requires Cut(s, lead) == (head, tail, true)
    ensures TakeList(s, lead) == (head, ParseIdents(tail, true))
  {
  }

  lemma IdentsBack(ids: seq<string>)
    requires ids != [] && forall p | p in ids :: IsIdent(p)
    ensures ParseIdents(Join(ids, '.'), true) == Some(ids)
  {
    SplitJoin(ids, '.');
  }

  lemma TakeForth(s: string, lead: char)
    requires TakeList(s, lead).1.Some?
    ensures s == TakeList(s, lead).0 + Listed(lead, TakeList(s, lead).1.value)
    ensures forall p | p in TakeList(s, lead).1.value :: IsIdent(p)
  {
    var (head, tail, found) := Cut(s, lead);
    if found {
      JoinSplit(tail, '.');
      hide Cut, Split, Join, IsIdent;
      assert head + [lead] + tail == head + ([lead] + tail);
    }
  }

  lemma CoreBack(t: VersionText)
    requires WellFormed(t)
    ensures ParseCore(RenderCore(t)) == Some((t.v, t.core))
    ensures '+' !in RenderCore(t) && '-' !in RenderCore(t)
  {
    assert forall p | p in t.core :: '.' !in p && '+' !in p && '-' !in p;
    SplitJoin(t.core, '.');
    JoinFree(t.core, '.', '+');
    JoinFree(t.core, '.', '-');
    var joined, s := Join(t.core, '.'), RenderCore(t);
    assert t.core[0] in t.core;
    assert t.core[0][0] in t.core[0];
    assert joined[0] == t.core[0][0];
    if t.v {
      assert s[1..] == joined;
    } else {
      assert s == joined;
    }
  }

  /** Rendering is undone by parsing. */
  lemma ParseRender(t: VersionText)
    requires WellFormed(t)
    ensures Parse(Render(t)) == Some(t)
  {
    CoreBack(t);
    ListsOk(t);
    hide WellFormed, RenderCore, ParseCore, TakeList, Listed, IsIdent;
    TakeBack(RenderCore(t), '-', t.pre);
    TakeBack(RenderBody(t), '+', t.build);
  }

  lemma ListsOk(t: VersionText)
    requires WellFormed(t)
    ensures (forall p | p in t.pre :: IsIdent(p)) && (forall p | p in t.build :: IsIdent(p))
    ensures '+' !in Listed('-', t.pre)
  {
    forall p | p in t.pre
      ensures '+' !in p
    {
      assert IsIdent(p);
    }
    JoinFree(t.pre, '.', '+');
  }

  lemma CoreForth(s: string)
    requires ParseCore(s).Some?
    ensures var (v, core) := ParseCore(s).value;
      1 <= |core| <= 3 && (forall p | p in core :: IsNumeric(p)) && s == (if v then "v" else "") + Join(core, '.')
  {
    var v := s != "" && s[0] == 'v';
    JoinSplit(if v then s[1..] else s, '.');
    assert v ==> s == "v" + s[1..];
    assert "" + s == s;
  }

  lemma RenderParse(raw: string)
    requires Parse(raw).Some?
    ensures WellFormed(Parse(raw).value) && Render(Parse(raw).value) == raw
  {
    hide TakeList, ParseCore, Listed, Join, IsIdent, IsNumeric;
    var (body, build) := TakeList(raw, '+');
    TakeForth(raw, '+');
    TakeForth(body, '-');
    CoreForth(TakeList(body, '-').0);
  }

  /** The parser accepts exactly the texts of the grammar, and reads each in the only
      possible way. */
  lemma ParseIff(raw: string, t: VersionText)
    ensures Parse(raw) == Some(t) <==> WellFormed(t) && Render(t) == raw
  {
    hide Parse, WellFormed, Render;
    if Parse(raw) == Some(t) {
      RenderParse(raw);
    }
    if WellFormed(t) {
      ParseRender(t);
    }
  }

  // ---------------------------------------------------------------------
  // Meaning
  // ---------------------------------------------------------------------

  function Digit(c: char): nat {
    if IsDigit(c) then c as nat - '0' as nat else 0
  }

  /** The number that a digit string denotes. */
  function Val(s: string): nat {
    if s == [] then 0 else 10 * Val(s[..|s| - 1]) + Digit(s[|s| - 1])
  }

  datatype Identifier = Num(n: nat) | Alnum(s: string)

  /** A version without its build metadata. */
  datatype Version = Version(major: nat, minor: nat, patch: nat, pre: seq<Identifier>)

  function MeaningOfIdent(s: string): Identifier {
    if IsNumeric(s) then Num(Val(s)) else Alnum(s)
  }

  function MeaningOfIdents(ids: seq<string>): seq<Identifier> {
    if ids == [] then [] else [MeaningOfIdent(ids[0])] + MeaningOfIdents(ids[1..])
  }

  /** The i-th core text; a missing one is empty and denotes 0. */
  function CorePart(t: VersionText, i: nat): string {
    if i < |t.core| then t.core[i] else ""
  }

  function Meaning(t: VersionText): Version {
    Version(Val(CorePart(t, 0)), Val(CorePart(t, 1)), Val(CorePart(t, 2)), MeaningOfIdents(t.pre))
  }

  // ---------------------------------------------------------------------
  // Precedence
  // ---------------------------------------------------------------------

  /** Numbers compare numerically, texts in byte order, and a number is below a text. */
  predicate IdentLess(a: Identifier, b: Identifier) {
    match (a, b)
    case (Num(m), Num(n)) => m < n
    case (Num(_), Alnum(_)) => true
    case (Alnum(_), Num(_)) => false
    case (Alnum(s), Alnum(t)) => Less(s, t)
  }

  /** Field by field; a longer list is above its own prefix. */
  predicate FieldsLess(p: seq<Identifier>, q: seq<Identifier>) {
    if q == [] then false
    else if p == [] then true
    else IdentLess(p[0], q[0]) || (p[0] == q[0] && FieldsLess(p[1..], q[1..]))
  }

  /** A prerelease is below its release. */
  predicate PreLess(p: seq<Identifier>, q: seq<Identifier>) {
    if p == [] then false
    else if q == [] then true
    else FieldsLess(p, q)
  }

  predicate Precedes(a: Version, b: Version) {
    if a.major != b.major then a.major < b.major
    else if a.minor != b.minor then a.minor < b.minor
    else if a.patch != b.patch then a.patch < b.patch
    else PreLess(a.pre, b.pre)
  }

  /** The version 1.0.0 with these prerelease identifiers. */
  function OneZeroZero(pre: seq<Identifier>): Version {
    Version(1, 0, 0, pre)
  }

  lemma FirstDecides(a: Identifier, p: seq<Identifier>, b: Identifier, q: seq<Identifier>)
    ensures IdentLess(a, b) ==> FieldsLess([a] + p, [b] + q)
    ensures a == b ==> (FieldsLess([a] + p, [b] + q) <==> IdentLess(a, b) || FieldsLess(p, q))
  {
    assert ([a] + p)[1..] == p && ([b] + q)[1..] == q;
  }

  /** The chains that section 11 of the standard gives as examples. */
  lemma StandardExamples()
    ensures Precedes(Version(1, 0, 0, []), Version(2, 0, 0, [])) && Precedes(Version(2, 0, 0, []), Version(2, 1, 0, []))
    ensures Precedes(Version(2, 1, 0, []), Version(2, 1, 1, []))
    ensures Precedes(OneZeroZero([Alnum("alpha")]), OneZeroZero([Alnum("alpha"), Num(1)]))
    ensures Precedes(OneZeroZero([Alnum("alpha"), Num(1)]), OneZeroZero([Alnum("alpha"), Alnum("beta")]))
    ensures Precedes(OneZeroZero([Alnum("alpha"), Alnum("beta")]), OneZeroZero([Alnum("beta")]))
    ensures Precedes(OneZeroZero([Alnum("beta")]), OneZeroZero([Alnum("beta"), Num(2)]))
    ensures Precedes(OneZeroZero([Alnum("beta"), Num(2)]), OneZeroZero([Alnum("beta"), Num(11)]))
    ensures Precedes(OneZeroZero([Alnum("beta"), Num(11)]), OneZeroZero([Alnum("rc"), Num(1)]))
    ensures Precedes(OneZeroZero([Alnum("rc"), Num(1)]), OneZeroZero([]))
  {
    assert Less("alpha", "beta") && Less("beta", "rc");
    hide Less;
    var none: seq<Identifier> := [];
    assert [Alnum("alpha")] == [Alnum("alpha")] + none && [Alnum("alpha"), Num(1)] == [Alnum("alpha")] + [Num(1)];
    assert [Alnum("alpha"), Alnum("beta")] == [Alnum("alpha")] + [Alnum("beta")] && [Alnum("beta")] == [Alnum("beta")] + none;
    assert [Alnum("beta"), Num(2)] == [Alnum("beta")] + [Num(2)] && [Alnum("beta"), Num(11)] == [Alnum("beta")] + [Num(11)];
    assert [Alnum("rc"), Num(1)] == [Alnum("rc")] + [Num(1)];
    FirstDecides(Alnum("alpha"), [], Alnum("alpha"), [Num(1)]);
    FirstDecides(Alnum("alpha"), [Num(1)], Alnum("alpha"), [Alnum("beta")]);
    FirstDecides(Alnum("alpha"), [Alnum("beta")], Alnum("beta"), []);
    FirstDecides(Alnum("beta"), [], Alnum("beta"), [Num(2)]);
    FirstDecides(Alnum("beta"), [Num(2)], Alnum("beta"), [Num(11)]);
    FirstDecides(Alnum("beta"), [Num(11)], Alnum("rc"), [Num(1)]);
  }
}
