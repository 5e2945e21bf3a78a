/** Which revisions an index lists before and after an edit, said with the fields of its
    entries only.
 */
module ApkRevisions {
  import opened Options
  import opened Strings
  import opened Text
  import opened ApkIndex
  import opened ApkEdits

  // ---------------------------------------------------------------------
  // Entries and their text
  // ---------------------------------------------------------------------

  /** Checksum, name and version are there. */
  predicate HasIdentity(e: Entry) {
    Get(e, "C") != "" && Get(e, "P") != "" && Get(e, "V") != ""
  }

  /** The entries with an identity, in order. */
  function Identified(index: seq<Entry>): seq<Entry> {
    if index == [] then []
    else (if HasIdentity(index[0]) then [index[0]] else []) + Identified(index[1..])
  }

  /** f is what writing e and reading it back gives: each field trimmed under its own letter,
      the release in the version, and defaults for size and address. */
  predicate ReadBack(f: Entry, e: Entry) {
    && Get(f, "C") == TrimSpace(Get(e, "C")) && Get(f, "P") == TrimSpace(Get(e, "P"))
    && Get(f, "V") == TrimSpace(if Contains(Get(e, "V"), "-r") || Get(e, "r") == "" then Get(e, "V") else Get(e, "V") + "-r" + Get(e, "r"))
    && Get(f, "A") == TrimSpace(Get(e, "A")) && Get(f, "S") == TrimSpace(Get(e, "S"))
    && Get(f, "I") == (if Get(e, "I") == "" then "0" else TrimSpace(Get(e, "I")))
    && Get(f, "T") == TrimSpace(Get(e, "T"))
    && Get(f, "U") == (if Get(e, "U") == "" then "https://securebuild.com" else TrimSpace(Get(e, "U")))
    && Get(f, "L") == TrimSpace(Get(e, "L")) && Get(f, "o") == TrimSpace(Get(e, "o"))
    && Get(f, "m") == TrimSpace(Get(e, "m")) && Get(f, "t") == "1700000000"
    && Get(f, "c") == TrimSpace(Get(e, "c")) && Get(f, "D") == TrimSpace(Get(e, "D")) && Get(f, "p") == TrimSpace(Get(e, "p"))
    && Get(f, "r") == ""
  }

  lemma NormalisedReads(e: Entry)
    ensures ReadBack(Normalised(e), e)
  {
    SlotTable(e);
    OptionalSlotTable(e);
    KeyTable();
    DefaultsTrimmed();
    hide Slot, TrimSpace, Contains, Normalised, Get;
    AllMembers();
    GetNormalised(e, "C");
    GetNormalised(e, "P");
    GetNormalised(e, "V");
    GetNormalised(e, "A");
    GetNormalised(e, "S");
    GetNormalised(e, "I");
    GetNormalised(e, "T");
    GetNormalised(e, "U");
    GetNormalised(e, "L");
    GetNormalised(e, "o");
    GetNormalised(e, "m");
    GetNormalised(e, "t");
    GetNormalised(e, "c");
    GetNormalised(e, "D");
    GetNormalised(e, "p");
    GetNormalised(e, "r");
  }

  lemma AllMembers()
    ensures "C" in KEYS && "P" in KEYS && "V" in KEYS && "A" in KEYS && "S" in KEYS && "I" in KEYS && "T" in KEYS && "U" in KEYS
    ensures "L" in KEYS && "o" in KEYS && "m" in KEYS && "t" in KEYS && "c" in KEYS && "D" in KEYS && "p" in KEYS
    ensures "r" !in KEYS
  {
    KeyTable();
    NoReleaseField();
    hide KeyAt;
    forall i: nat, k | KeyAt(i, k)
      ensures k in KEYS
    {
      KeyAtIn(i, k);
    }
  }

  lemma KeyAtIn(i: nat, key: string)
    requires KeyAt(i, key)
    ensures key in KEYS
  {
  }

  lemma NoReleaseField()
    ensures "r" !in KEYS
  {
  }

  lemma {:induction false} IdentifiedSnoc(index: seq<Entry>, e: Entry)
    ensures Identified(index + [e]) == Identified(index) + if HasIdentity(e) then [e] else []
  {
    hide HasIdentity;
    if index == [] {
      assert Identified([e]) == if HasIdentity(e) then [e] else [] by { assert [e][1..] == []; }
      assert index + [e] == [e];
    } else {
      assert (index + [e])[1..] == index[1..] + [e];
      IdentifiedSnoc(index[1..], e);
    }
  }

  /** The entries that a text has after writing it anew. */
  ghost predicate ReadsBack(after: seq<Entry>, index: seq<Entry>) {
    |after| == |index| && forall i | 0 <= i < |index| :: ReadBack(after[i], index[i])
  }

  lemma {:induction false} KeptReadsBack(index: seq<Entry>)
    ensures ReadsBack(NormalisedKept(index), Identified(index))
  {
    hide Normalised, ReadBack;
    if index != [] {
      var n := |index| - 1;
      KeptReadsBack(index[..n]);
      IdentifiedSnoc(index[..n], index[n]);
      assert index[..n] + [index[n]] == index;
      NormalisedReads(index[n]);
    }
  }

  /** Writing what was read and reading it again gives the identified entries, in order, each
      field under its own letter. */
  lemma RewriteReads(content: string)
    ensures ReadsBack(ReadIndex(IndexText(ReadIndex(content))), Identified(ReadIndex(content)))
  {
    hide ReadsBack;
    RewriteSettles(content);
    KeptReadsBack(ReadIndex(content));
  }

  // ---------------------------------------------------------------------
  // Adding
  // ---------------------------------------------------------------------

  /** f lists the package under the fields of an index. */
  predicate PublishedAs(f: Entry, meta: Info) {
    && Get(f, "P") == Get(meta, "pkgname") && Get(f, "V") == Get(meta, "pkgver") + "-r" + Get(meta, "pkgrel")
    && Get(f, "C") == TrimSpace(Get(meta, "alpine_checksum")) && Get(f, "A") == TrimSpace(Get(meta, "arch"))
    && Get(f, "S") == TrimSpace(Get(meta, "size"))
    && Get(f, "I") == (if Get(meta, "installed_size") == "" then "0" else TrimSpace(Get(meta, "installed_size")))
    && Get(f, "T") == TrimSpace(Get(meta, "pkgdesc"))
    && Get(f, "U") == (if Get(meta, "url") == "" then "https://securebuild.com" else TrimSpace(Get(meta, "url")))
    && Get(f, "L") == TrimSpace(Get(meta, "license")) && Get(f, "m") == TrimSpace(Get(meta, "maintainer"))
    && Get(f, "o") == TrimSpace(Get(meta, "origin")) && Get(f, "D") == TrimSpace(Get(meta, "depend"))
    && Get(f, "p") == TrimSpace(Get(meta, "provides")) && Get(f, "c") == TrimSpace(Get(meta, "sha1"))
  }

  lemma EntryPublished(meta: Info)
    requires Publishable(meta)
    ensures PublishedAs(Normalised(IndexMeta(meta)), meta)
  {
    var e := IndexMeta(meta);
    NormalisedReads(e);
    AddedEntry(meta);
    MetaFields(meta);
    hide IndexMeta, Normalised, TrimSpace, Contains, Publishable;
  }

  lemma MetaFields(meta: Info)
    ensures var e := IndexMeta(meta);
      && Get(e, "P") == Get(meta, "pkgname") && Get(e, "V") == Get(meta, "pkgver") && Get(e, "r") == Get(meta, "pkgrel")
      && Get(e, "T") == Get(meta, "pkgdesc") && Get(e, "U") == Get(meta, "url") && Get(e, "S") == Get(meta, "size")
      && Get(e, "I") == Get(meta, "installed_size") && Get(e, "A") == Get(meta, "arch") && Get(e, "L") == Get(meta, "license")
      && Get(e, "m") == Get(meta, "maintainer") && Get(e, "o") == Get(meta, "origin") && Get(e, "D") == Get(meta, "depend")
      && Get(e, "p") == Get(meta, "provides") && Get(e, "c") == Get(meta, "sha1") && Get(e, "C") == Get(meta, "alpine_checksum")
  {
    LetterTable();
    LetterTableEnd();
    hide IndexMeta, Get, LetterAt;
    forall i, long, letter | LetterAt(i, long, letter)
      ensures Get(IndexMeta(meta), letter) == Get(meta, long)
    {
      LetterField(meta, i, long, letter);
    }
  }

  lemma LetterField(meta: Info, i: nat, long: string, letter: string)
    requires LetterAt(i, long, letter)
    ensures Get(IndexMeta(meta), letter) == Get(meta, long)
  {
    hide LongName;
    assert LETTERS[i] in LETTERS;
    IndexMetaGet(meta, letter);
  }

  /** Adding a revision with a checksum, a name and a version lists it. If an entry was this
      revision, the text stays; otherwise the index keeps its identified entries and gains
      exactly one, with the package's fields. */
  lemma AddPublishes(content: string, meta: Info)
    requires Publishable(meta) && Get(meta, "alpine_checksum") != "" && Get(meta, "pkgname") != "" && Get(meta, "pkgver") != ""
    ensures var name, version, release := Get(meta, "pkgname"), Get(meta, "pkgver"), Get(meta, "pkgrel");
      var before, after := ReadIndex(content), ReadIndex(Added(content, meta));
      && (exists e | e in after :: HasRevision(e, name, version, release))
      && if exists e | e in before :: HasRevision(e, name, version, release) then Added(content, meta) == content
         else |after| > 0 && ReadsBack(after[..|after| - 1], Identified(before)) && PublishedAs(after[|after| - 1], meta)
  {
    var name, version, release := Get(meta, "pkgname"), Get(meta, "pkgver"), Get(meta, "pkgrel");
    var before, after, e := ReadIndex(content), ReadIndex(Added(content, meta)), IndexMeta(meta);
    assert !Contains(version, RELEASE);
    MetaFields(meta);
    hide ReadIndex, HasRevision, Normalised, ReadsBack, PublishedAs, IndexMeta, Contains, Publishable, EntryText;
    ListsIff(before, name, version, release);
    if !Lists(before, name, NewVersion(meta)) {
      ReadAdded(content, meta);
      EntryPublished(meta);
      KeptReadsBack(before);
      PublishedIsRevision(Normalised(e), meta);
      assert after == NormalisedKept(before) + [Normalised(e)];
      assert after[..|after| - 1] == NormalisedKept(before) && Normalised(e) in after;
    }
  }

  lemma PublishedIsRevision(f: Entry, meta: Info)
    requires PublishedAs(f, meta)
    ensures HasRevision(f, Get(meta, "pkgname"), Get(meta, "pkgver"), Get(meta, "pkgrel"))
  {
    ContainsConcat(Get(meta, "pkgver"), "-r", Get(meta, "pkgrel"));
    hide Contains, TrimSpace;
  }

  /** Every revision with an identity that was listed is still listed. */
  lemma AddKeeps(content: string, meta: Info, e: Entry, name: string, version: string, release: string)
    requires Publishable(meta) && e in ReadIndex(content) && HasIdentity(e) && HasRevision(e, name, version, release) && !Contains(version, "-r")
    ensures exists f | f in ReadIndex(Added(content, meta)) :: HasRevision(f, name, version, release)
  {
    var before := ReadIndex(content);
    ReadIndexClean(content);
    hide ReadIndex, HasRevision, Normalised, IndexMeta, Contains, Publishable, EntryText, Clean;
    if !Lists(before, Get(meta, "pkgname"), NewVersion(meta)) {
      ReadAdded(content, meta);
      assert Clean(e);
      FullVersionKept(e);
      HasRevisionIff(e, name, version, release);
      HasRevisionIff(Normalised(e), name, version, release);
      KeptIn(before, e);
    }
  }

  lemma {:induction false} KeptIn(index: seq<Entry>, e: Entry)
    requires e in index && Kept(e)
    ensures Normalised(e) in NormalisedKept(index)
  {
    hide Normalised, Kept;
    var n := |index| - 1;
    if index[n] != e {
      assert e in index[..n];
      KeptIn(index[..n], e);
    }
  }

  // ---------------------------------------------------------------------
  // Withdrawing
  // ---------------------------------------------------------------------

  /** Withdrawing drops the first entry with that name and joined version, and no other. */
  lemma RemovesFirst(content: string, name: string, version: string, release: string, i: nat)
    requires var index := ReadIndex(content);
      && i <= |index|
      && (forall j | 0 <= j < i :: Get(index[j], "P") != name || Get(index[j], "V") != version + "-" + release)
      && (i < |index| ==> Get(index[i], "P") == name && Get(index[i], "V") == version + "-" + release)
    ensures var index := ReadIndex(content);
      && Removed(content, name, version, release) == IndexText(if i < |index| then index[..i] + index[i + 1..] else index)
      && ReadsBack(ReadIndex(Removed(content, name, version, release)), Identified(if i < |index| then index[..i] + index[i + 1..] else index))
  {
    var index := ReadIndex(content);
    ReadIndexClean(content);
    hide ReadIndex, Clean, ReadsBack, WithoutFirst, NewlineFree;
    WithoutFirstAt(index, i, name, version + "-" + release);
    var rest := if i < |index| then index[..i] + index[i + 1..] else index;
    forall e | e in rest
      ensures NewlineFree(e)
    {
      assert e in index;
      CleanNewlineFree(e);
    }
    RoundTrip(rest);
    KeptReadsBack(rest);
  }

  // ---------------------------------------------------------------------
  // The text of an entry
  // ---------------------------------------------------------------------

  function Shown(letter: string, value: string): string {
    letter + ":" + value + "\n"
  }

  function ShownIf(letter: string, value: string): string {
    if value == "" then "" else letter + ":" + TrimSpace(value) + "\n"
  }

  /** An identified entry is written as these lines, in this order, and an empty line. */
  lemma EntrySpelled(e: Entry)
    requires HasIdentity(e)
    ensures var v := if Contains(Get(e, "V"), "-r") || Get(e, "r") == "" then Get(e, "V") else Get(e, "V") + "-r" + Get(e, "r");
      EntryText(e) ==
        Shown("C", TrimSpace(Get(e, "C"))) + Shown("P", TrimSpace(Get(e, "P"))) + Shown("V", TrimSpace(v))
        + Shown("A", TrimSpace(Get(e, "A"))) + Shown("S", TrimSpace(Get(e, "S")))
        + Shown("I", if Get(e, "I") == "" then "0" else TrimSpace(Get(e, "I"))) + Shown("T", TrimSpace(Get(e, "T")))
        + Shown("U", if Get(e, "U") == "" then "https://securebuild.com" else TrimSpace(Get(e, "U")))
        + Shown("L", TrimSpace(Get(e, "L"))) + Shown("o", TrimSpace(Get(e, "o")))
        + ShownIf("m", TrimSpace(Get(e, "m"))) + Shown("t", "1700000000")
        + ShownIf("c", Get(e, "c")) + ShownIf("D", Get(e, "D")) + ShownIf("p", Get(e, "p")) + "\n"
  {
    LineTable(e);
    OptionalLineTable(e);
    KeyTable();
    NoField(e);
    hide KeyAt, Upto, Line, Shown, ShownIf, Lines, Contains, TrimSpace, Get;
    var text := NextLine(e, 0, "C", "");
    text := NextLine(e, 1, "P", text);
    text := NextLine(e, 2, "V", text);
    text := NextLine(e, 3, "A", text);
    text := NextLine(e, 4, "S", text);
    text := NextLine(e, 5, "I", text);
    text := NextLine(e, 6, "T", text);
    text := NextLine(e, 7, "U", text);
    text := NextLine(e, 8, "L", text);
    text := NextLine(e, 9, "o", text);
    text := NextLine(e, 10, "m", text);
    text := NextLine(e, 11, "t", text);
    text := NextLine(e, 12, "c", text);
    text := NextLine(e, 13, "D", text);
    text := NextLine(e, 14, "p", text);
    AllFields(e, text);
    assert "" + Line(e, "C") == Line(e, "C");
  }

  lemma LineTable(e: Entry)
    ensures Line(e, "C") == Shown("C", TrimSpace(Get(e, "C"))) && Line(e, "P") == Shown("P", TrimSpace(Get(e, "P")))
    ensures Line(e, "V") == Shown("V", TrimSpace(if Contains(Get(e, "V"), "-r") || Get(e, "r") == "" then Get(e, "V") else Get(e, "V") + "-r" + Get(e, "r")))
    ensures Line(e, "A") == Shown("A", TrimSpace(Get(e, "A"))) && Line(e, "S") == Shown("S", TrimSpace(Get(e, "S")))
    ensures Line(e, "I") == Shown("I", if Get(e, "I") == "" then "0" else TrimSpace(Get(e, "I")))
    ensures Line(e, "T") == Shown("T", TrimSpace(Get(e, "T")))
    ensures Line(e, "U") == Shown("U", if Get(e, "U") == "" then "https://securebuild.com" else TrimSpace(Get(e, "U")))
    ensures Line(e, "L") == Shown("L", TrimSpace(Get(e, "L"))) && Line(e, "o") == Shown("o", TrimSpace(Get(e, "o")))
  {
    SlotTable(e);
    hide Slot, TrimSpace, Contains, Get;
  }

  lemma OptionalLineTable(e: Entry)
    ensures Line(e, "m") == ShownIf("m", TrimSpace(Get(e, "m"))) && Line(e, "t") == Shown("t", "1700000000")
    ensures Line(e, "c") == ShownIf("c", Get(e, "c")) && Line(e, "D") == ShownIf("D", Get(e, "D")) && Line(e, "p") == ShownIf("p", Get(e, "p"))
  {
    OptionalSlotTable(e);
    TrimTwice(Get(e, "m"));
    hide Slot, TrimSpace, Get;
  }

  lemma NextLine(e: Entry, i: nat, key: string, text: string) returns (text': string)
    requires Upto(e, i, text) && KeyAt(i, key)
    ensures Upto(e, i + 1, text') && text' == text + Line(e, key)
  {
    hide Slot;
    assert KEYS[..i + 1][..i] == KEYS[..i];
    text' := text + Line(e, key);
  }

  // ---------------------------------------------------------------------
  // The fields of what is read
  // ---------------------------------------------------------------------

  /** What the lines of a block give for a letter, in order: the text after the first colon. */
  function FieldValues(lines: seq<string>, letter: string): seq<string> {
    if lines == [] then []
    else
      var line := lines[0];
      (if ':' in line && TrimSpace(Cut(line, ':').0) == letter then [TrimSpace(Cut(line, ':').1)] else []) + FieldValues(lines[1..], letter)
  }

  lemma {:induction false} FieldSnoc(lines: seq<string>, line: string, letter: string)
    ensures FieldValues(lines + [line], letter)
      == FieldValues(lines, letter) + if ':' in line && TrimSpace(Cut(line, ':').0) == letter then [TrimSpace(Cut(line, ':').1)] else []
  {
    hide TrimSpace, Cut;
    if lines == [] {
      assert [line][1..] == [] && [] + [line] == [line];
    } else {
      assert (lines + [line])[1..] == lines[1..] + [line];
      FieldSnoc(lines[1..], line, letter);
    }
  }

  /** A field is read iff some line gives it, and the last such line decides. */
  lemma {:induction false} LastLineDecides(lines: seq<string>, letter: string)
    ensures var e, values := ReadLines(map[], lines), FieldValues(lines, letter);
      && (letter in e <==> values != [])
      && (values != [] ==> e[letter] == values[|values| - 1])
  {
    hide TrimSpace, Cut;
    if lines != [] {
      var n := |lines| - 1;
      LastLineDecides(lines[..n], letter);
      FieldSnoc(lines[..n], lines[n], letter);
      assert lines[..n] + [lines[n]] == lines;
    }
  }

  /** What a metadata file gives for a key: all values in order, with spaces between. */
  function Value(content: string, key: string): string {
    Join(Given(Split(content, '\n'), key), ' ')
  }

  lemma ValueRead(content: string, key: string)
    ensures Get(InfoLines(Split(content, '\n')), key) == Value(content, key)
  {
    hide Split, InfoLines, Given;
    InfoCollects(Split(content, '\n'), key);
  }

  /** A metadata file is accepted iff it gives a name, an architecture, a version and, if
      that has a release marker, something before and after the first one. */
  lemma AcceptedIff(content: string)
    ensures var given := Value(content, "pkgver");
      PackageInfo(content).Some? <==>
        && Value(content, "pkgname") != "" && Value(content, "arch") != "" && given != ""
        && forall v, r | given == v + "-r" + r && !Contains(v, "-r") :: v != "" && r != ""
  {
    var raw, given := InfoLines(Split(content, '\n')), Value(content, "pkgver");
    ValueRead(content, "pkgname");
    ValueRead(content, "arch");
    ValueRead(content, "pkgver");
    hide Split, InfoLines, Value, Contains;
    CutOnFinds(given, RELEASE);
    var (version, release, found) := CutOn(given, RELEASE);
    forall v, r | given == v + "-r" + r && !Contains(v, "-r")
      ensures found && v == version && r == release
    {
      ContainsConcat(v, RELEASE, r);
      MarkerUnique(v, r, version, release);
    }
    assert found ==> given == version + "-r" + release && !Contains(version, "-r");
  }

  /** What is accepted has version and release from around the first marker, or release 0, and
      every other field as given. */
  lemma AcceptedFields(content: string, key: string)
    requires PackageInfo(content).Some? && key != "pkgver" && key != "pkgrel"
    ensures var meta, given := PackageInfo(content).value, Value(content, "pkgver");
      && Get(meta, key) == Value(content, key)
      && if Contains(given, "-r") then given == Get(meta, "pkgver") + "-r" + Get(meta, "pkgrel") && !Contains(Get(meta, "pkgver"), "-r")
         else Get(meta, "pkgver") == given && Get(meta, "pkgrel") == "0"
  {
    var raw, given := InfoLines(Split(content, '\n')), Value(content, "pkgver");
    ValueRead(content, key);
    ValueRead(content, "pkgver");
    hide Split, InfoLines, Value, Contains;
    CutOnFinds(given, RELEASE);
  }
}
