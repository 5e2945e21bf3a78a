/** Adding a package revision to an index file and withdrawing it by its file name. */
module ApkEdits {
  import opened Options
  import opened Strings
  import opened Text
  import opened ApkIndex

  /** The verbose fields of a package's own metadata. */
  type Info = map<string, string>

  // ---------------------------------------------------------------------
  // Package metadata
  // ---------------------------------------------------------------------

  /** A repeated key collects its values, separated by spaces. */
  function InfoLine(meta: Info, line: string): Info {
    if '=' !in line then meta
    else
      var (left, right, _) := Cut(line, '=');
      var key, value := TrimSpace(left), TrimSpace(right);
      meta[key := if key in meta then meta[key] + " " + value else value]
  }

  function InfoLines(lines: seq<string>): Info {
    if lines == [] then map[] else InfoLine(InfoLines(lines[..|lines| - 1]), lines[|lines| - 1])
  }

  /** The part after the first -r is the release; without one the release is 0. */
  function SplitVersion(meta: Info): Info {
    if "pkgver" !in meta then meta
    else if Contains(meta["pkgver"], RELEASE) then
      var (version, release, _) := CutOn(meta["pkgver"], RELEASE);
      meta["pkgver" := version]["pkgrel" := release]
    else meta["pkgrel" := "0"]
  }

  predicate Complete(meta: Info) {
    Get(meta, "pkgname") != "" && Get(meta, "pkgver") != "" && Get(meta, "pkgrel") != "" && Get(meta, "arch") != ""
  }

  function PackageInfo(content: string): Option<Info> {
    var meta := SplitVersion(InfoLines(Split(content, '\n')));
    if Complete(meta) then Some(meta) else None
  }

  method ParsePKGINFO(content: string) returns (r: Option<Info>)
    ensures r == PackageInfo(content)
  {
    hide Split, Contains;
    var lines := Split(content, '\n');
    var meta: Info := map[];
    for i := 0 to |lines|
      invariant meta == InfoLines(lines[..i])
    {
      assert lines[..i + 1][..i] == lines[..i];
      meta := AddInfoLine(meta, lines[i]);
    }
    assert lines[..|lines|] == lines;
    if "pkgver" in meta {
      var version := meta["pkgver"];
      var parts := CutOn(version, RELEASE);
      CutOnFinds(version, RELEASE);
      if parts.2 {
        meta := meta["pkgver" := parts.0];
        meta := meta["pkgrel" := parts.1];
      } else {
        meta := meta["pkgrel" := "0"];
      }
    }
    if Get(meta, "pkgname") == "" || Get(meta, "pkgver") == "" || Get(meta, "pkgrel") == "" || Get(meta, "arch") == "" {
      return None;
    }
    return Some(meta);
  }

  method AddInfoLine(meta: Info, line: string) returns (meta': Info)
    ensures meta' == InfoLine(meta, line)
  {
    if |line| == 0 || '=' !in line {
      return meta;
    }
    var parts := Cut(line, '=');
    var key, value := TrimSpace(parts.0), TrimSpace(parts.1);
    if key in meta {
      meta' := meta[key := meta[key] + " " + value];
    } else {
      meta' := meta[key := value];
    }
  }

  /** The values given for a key, in order. */
  function Given(lines: seq<string>, key: string): seq<string> {
    if lines == [] then []
    else
      var line := lines[|lines| - 1];
      Given(lines[..|lines| - 1], key)
      + if '=' in line && TrimSpace(Cut(line, '=').0) == key then [TrimSpace(Cut(line, '=').1)] else []
  }

  /** A key is present exactly when it is given, with all its values in order. */
  lemma {:induction false} InfoCollects(lines: seq<string>, key: string)
    ensures key in InfoLines(lines) <==> Given(lines, key) != []
    ensures key in InfoLines(lines) ==> InfoLines(lines)[key] == Join(Given(lines, key), ' ')
  {
    hide TrimSpace, Cut;
    if lines != [] {
      var before, line := lines[..|lines| - 1], lines[|lines| - 1];
      InfoCollects(before, key);
      if '=' in line && TrimSpace(Cut(line, '=').0) == key {
        var value := TrimSpace(Cut(line, '=').1);
        if Given(before, key) != [] {
          JoinSnoc(Given(before, key), value, ' ');
        } else {
          assert Given(lines, key) == [value];
        }
      } else {
        assert Given(lines, key) == Given(before, key);
      }
    }
  }

  /** The version that a revision has in an index. */
  function NewVersion(meta: Info): string {
    Get(meta, "pkgver") + RELEASE + Get(meta, "pkgrel")
  }

  /** Parsed metadata carries a version without a release marker and a release, which
      together are the version as given, or that version at release 0. */
  lemma PackageVersion(content: string)
    requires PackageInfo(content).Some?
    ensures var meta, given := PackageInfo(content).value, Get(InfoLines(Split(content, '\n')), "pkgver");
      && !Contains(Get(meta, "pkgver"), RELEASE) && Get(meta, "pkgver") != "" && Get(meta, "pkgrel") != ""
      && NewVersion(meta) == if Contains(given, RELEASE) then given else given + "-r0"
  {
    hide Contains, Split, InfoLines;
    var raw := InfoLines(Split(content, '\n'));
    var given := Get(raw, "pkgver");
    CutOnFinds(given, RELEASE);
  }

  // ---------------------------------------------------------------------
  // Index entries from metadata
  // ---------------------------------------------------------------------

  const LETTERS: seq<string> := ["P", "V", "r", "T", "U", "S", "I", "A", "L", "m", "o", "D", "p", "c", "C"]

  /** The verbose name of an index field. */
  function LongName(letter: string): string {
    if letter == "P" then "pkgname" else if letter == "V" then "pkgver" else if letter == "r" then "pkgrel"
    else if letter == "T" then "pkgdesc" else if letter == "U" then "url" else if letter == "S" then "size"
    else if letter == "I" then "installed_size" else if letter == "A" then "arch" else if letter == "L" then "license"
    else if letter == "m" then "maintainer" else if letter == "o" then "origin" else if letter == "D" then "depend"
    else if letter == "p" then "provides" else if letter == "c" then "sha1" else "alpine_checksum"
  }

  function Copied(meta: Info, letters: seq<string>): Entry {
    map k | k in letters && LongName(k) in meta :: meta[LongName(k)]
  }

  function IndexMeta(meta: Info): Entry {
    Copied(meta, LETTERS)
  }

  lemma CopiedNext(meta: Info, i: nat)
    requires i < |LETTERS|
    ensures var k, before := LETTERS[i], Copied(meta, LETTERS[..i]);
      Copied(meta, LETTERS[..i + 1]) == if LongName(k) in meta then before[k := meta[LongName(k)]] else before
  {
    hide LongName;
    assert LETTERS[..i + 1] == LETTERS[..i] + [LETTERS[i]];
  }

  predicate LetterAt(i: nat, long: string, letter: string) {
    i < |LETTERS| && LETTERS[i] == letter && LongName(letter) == long
  }

  lemma LetterTable()
    ensures LetterAt(0, "pkgname", "P") && LetterAt(1, "pkgver", "V") && LetterAt(2, "pkgrel", "r") && LetterAt(3, "pkgdesc", "T")
    ensures LetterAt(4, "url", "U") && LetterAt(5, "size", "S") && LetterAt(6, "installed_size", "I") && LetterAt(7, "arch", "A")
  {
  }

  lemma LetterTableEnd()
    ensures LetterAt(8, "license", "L") && LetterAt(9, "maintainer", "m") && LetterAt(10, "origin", "o") && LetterAt(11, "depend", "D")
    ensures LetterAt(12, "provides", "p") && LetterAt(13, "sha1", "c") && LetterAt(14, "alpine_checksum", "C")
  {
  }

  /** The first i fields are copied. */
  ghost predicate CopiedUpto(meta: Info, i: nat, e: Entry) {
    i <= |LETTERS| && e == Copied(meta, LETTERS[..i])
  }

  method CopyField(e: Entry, meta: Info, long: string, letter: string, ghost i: nat) returns (e': Entry)
    requires CopiedUpto(meta, i, e) && LetterAt(i, long, letter)
    ensures CopiedUpto(meta, i + 1, e')
  {
    CopiedNext(meta, i);
    hide Copied, LongName;
    e' := e;
    if long in meta {
      e' := e[letter := meta[long]];
    }
  }

  method ToIndexMeta(meta: Info) returns (e: Entry)
    ensures e == IndexMeta(meta)
  {
    LetterTable();
    LetterTableEnd();
    NoneCopied(meta);
    hide LetterAt, CopiedUpto, IndexMeta;
    e := CopyField(map[], meta, "pkgname", "P", 0);
    e := CopyField(e, meta, "pkgver", "V", 1);
    e := CopyField(e, meta, "pkgrel", "r", 2);
    e := CopyField(e, meta, "pkgdesc", "T", 3);
    e := CopyField(e, meta, "url", "U", 4);
    e := CopyField(e, meta, "size", "S", 5);
    e := CopyField(e, meta, "installed_size", "I", 6);
    e := CopyField(e, meta, "arch", "A", 7);
    e := CopyField(e, meta, "license", "L", 8);
    e := CopyField(e, meta, "maintainer", "m", 9);
    e := CopyField(e, meta, "origin", "o", 10);
    e := CopyField(e, meta, "depend", "D", 11);
    e := CopyField(e, meta, "provides", "p", 12);
    e := CopyField(e, meta, "sha1", "c", 13);
    e := CopyField(e, meta, "alpine_checksum", "C", 14);
    AllCopied(meta, e);
  }

  lemma NoneCopied(meta: Info)
    ensures CopiedUpto(meta, 0, map[])
  {
  }

  lemma AllCopied(meta: Info, e: Entry)
    requires CopiedUpto(meta, 15, e)
    ensures e == IndexMeta(meta)
  {
    assert LETTERS[..15] == LETTERS;
  }

  lemma IndexMetaGet(meta: Info, letter: string)
    requires letter in LETTERS
    ensures Get(IndexMeta(meta), letter) == Get(meta, LongName(letter))
  {
    hide LongName;
  }

  /** The fields that decide which revision an entry is. */
  lemma IndexMetaFields(meta: Info)
    ensures var e := IndexMeta(meta);
      && Get(e, "P") == Get(meta, "pkgname") && Get(e, "V") == Get(meta, "pkgver")
      && Get(e, "r") == Get(meta, "pkgrel") && Get(e, "C") == Get(meta, "alpine_checksum")
  {
    assert LETTERS[0] == "P" && LETTERS[1] == "V" && LETTERS[2] == "r" && LETTERS[14] == "C";
    assert LongName("P") == "pkgname" && LongName("V") == "pkgver" && LongName("r") == "pkgrel" && LongName("C") == "alpine_checksum";
    IndexMetaGet(meta, "P");
    IndexMetaGet(meta, "V");
    IndexMetaGet(meta, "r");
    IndexMetaGet(meta, "C");
  }

  // ---------------------------------------------------------------------
  // Adding
  // ---------------------------------------------------------------------

  /** The version of a listed entry, with its release. */
  function FullVersion(e: Entry): string {
    if Contains(Get(e, "V"), RELEASE) then Get(e, "V")
    else if Get(e, "r") != "" then Get(e, "V") + RELEASE + Get(e, "r")
    else Get(e, "V") + RELEASE + "0"
  }

  predicate Lists(index: seq<Entry>, name: string, version: string) {
    exists i | 0 <= i < |index| :: Get(index[i], "P") == name && FullVersion(index[i]) == version
  }

  /** The entry is this revision: its V has the release, or else r has it, where a missing r
      stands for release 0. */
  predicate HasRevision(e: Entry, name: string, version: string, release: string) {
    && Get(e, "P") == name
    && if Contains(Get(e, "V"), "-r") then Get(e, "V") == version + "-r" + release
       else Get(e, "V") == version && (if Get(e, "r") == "" then "0" else Get(e, "r")) == release
  }

  /** A text splits at its first release marker in one way only. */
  lemma MarkerUnique(a: string, b: string, c: string, d: string)
    requires !Contains(a, RELEASE) && !Contains(c, RELEASE) && a + RELEASE + b == c + RELEASE + d
    ensures a == c && b == d
  {
    if |a| < |c| {
      MarkerEarlier(a, b, c, d);
    } else if |c| < |a| {
      MarkerEarlier(c, d, a, b);
    } else {
      var s := a + RELEASE + b;
      assert a == s[..|a|] == c && b == s[|a| + 2..] == d;
    }
  }

  lemma MarkerEarlier(a: string, b: string, c: string, d: string)
    requires |a| < |c| && a + RELEASE + b == c + RELEASE + d
    ensures Contains(c, RELEASE)
  {
    var s := c + RELEASE + d;
    assert s[|a|] == '-' && s[|a| + 1] == 'r';
    assert s[|c|] == '-';
    assert RELEASE <= c[|a|..] by {
      assert c[|a|] == s[|a|] && c[|a| + 1] == s[|a| + 1];
    }
  }

  lemma HasRevisionIff(e: Entry, name: string, version: string, release: string)
    requires !Contains(version, RELEASE)
    ensures HasRevision(e, name, version, release) <==> Get(e, "P") == name && FullVersion(e) == version + RELEASE + release
  {
    hide Contains;
    var v := Get(e, "V");
    if !Contains(v, RELEASE) {
      var rel := if Get(e, "r") == "" then "0" else Get(e, "r");
      assert FullVersion(e) == v + RELEASE + rel;
      if v + RELEASE + rel == version + RELEASE + release {
        MarkerUnique(v, rel, version, release);
      }
    }
  }

  lemma ListsIff(index: seq<Entry>, name: string, version: string, release: string)
    requires !Contains(version, RELEASE)
    ensures Lists(index, name, version + RELEASE + release) <==> exists e | e in index :: HasRevision(e, name, version, release)
  {
    hide Contains, HasRevision, FullVersion, Get;
    forall e
      ensures HasRevision(e, name, version, release) <==> Get(e, "P") == name && FullVersion(e) == version + RELEASE + release
    {
      HasRevisionIff(e, name, version, release);
    }
    if e :| e in index && HasRevision(e, name, version, release) {
      var i: nat :| i < |index| && index[i] == e;
      assert Get(index[i], "P") == name;
    }
  }

  /** The text after adding; a revision that is listed leaves it alone. */
  function Added(content: string, meta: Info): string {
    var index := ReadIndex(content);
    if Lists(index, Get(meta, "pkgname"), NewVersion(meta)) then content else IndexText(index + [IndexMeta(meta)])
  }

  method AddAPKToIndex(content: string, meta: Info) returns (content': string)
    ensures content' == Added(content, meta)
  {
    hide ReadIndex, IndexText, IndexMeta, FullVersion;
    var entry := ToIndexMeta(meta);
    var packages := ParseIndex(content);
    var name := Get(meta, "pkgname");
    var newVersion := Get(meta, "pkgver") + RELEASE + Get(meta, "pkgrel");
    var filtered: seq<Entry> := [];
    var exists' := false;
    for i := 0 to |packages|
      invariant filtered == packages[..i]
      invariant exists' <==> exists j | 0 <= j < i :: Get(packages[j], "P") == name && FullVersion(packages[j]) == newVersion
    {
      var pkg := packages[i];
      if Get(pkg, "P") == name {
        var version := VersionOf(pkg);
        if version == newVersion {
          exists' := true;
        }
      }
      filtered := filtered + [pkg];
    }
    if exists' {
      return content;
    }
    assert packages[..|packages|] == packages;
    content' := WriteIndex(filtered + [entry]);
  }

  method VersionOf(pkg: Entry) returns (version: string)
    ensures version == FullVersion(pkg)
  {
    version := Get(pkg, "V");
    CutOnFinds(version, RELEASE);
    if !CutOn(version, RELEASE).2 {
      if "r" in pkg && pkg["r"] != "" {
        version := version + RELEASE + pkg["r"];
      } else {
        version := version + RELEASE + "0";
      }
    }
  }

  /** Metadata as parsing produces it, with a trimmed name and version and no newline. */
  predicate Publishable(meta: Info) {
    && NewlineFree(meta)
    && !Contains(Get(meta, "pkgver"), RELEASE) && Get(meta, "pkgrel") != ""
    && Trimmed(Get(meta, "pkgname")) && Trimmed(NewVersion(meta))
  }

  lemma InfoLineNewlineFree(meta: Info, line: string)
    requires NewlineFree(meta) && '\n' !in line
    ensures NewlineFree(InfoLine(meta, line))
  {
    var value := Cut(line, '=').1;
    TrimmedSpace(value);
    hide TrimSpace;
  }

  lemma {:induction false} InfoLinesNewlineFree(lines: seq<string>)
    requires forall l | l in lines :: '\n' !in l
    ensures NewlineFree(InfoLines(lines))
  {
    hide InfoLine, NewlineFree;
    if lines == [] {
      assert NewlineFree(map[]) by { NoFields(); }
    } else {
      InfoLinesNewlineFree(lines[..|lines| - 1]);
      InfoLineNewlineFree(InfoLines(lines[..|lines| - 1]), lines[|lines| - 1]);
    }
  }

  lemma NoFields()
    ensures NewlineFree(map[])
  {
  }

  lemma SplitVersionNewlineFree(meta: Info)
    requires NewlineFree(meta)
    ensures NewlineFree(SplitVersion(meta))
  {
    hide Contains;
  }

  /** A value given once is trimmed. */
  lemma {:induction false} GivenTrimmed(lines: seq<string>, key: string)
    ensures forall v | v in Given(lines, key) :: Trimmed(v)
  {
    hide Trimmed, TrimSpace, Cut;
    if lines != [] {
      GivenTrimmed(lines[..|lines| - 1], key);
      TrimmedSpace(Cut(lines[|lines| - 1], '=').1);
    }
  }

  lemma GivenOnce(lines: seq<string>, key: string)
    requires |Given(lines, key)| == 1
    ensures Trimmed(Get(InfoLines(lines), key))
  {
    InfoCollects(lines, key);
    GivenTrimmed(lines, key);
    hide Given, InfoLines, Trimmed;
    assert Given(lines, key)[0] in Given(lines, key);
  }

  /** Whatever a package's metadata file holds, it is publishable once parsed, provided name
      and version are given once. */
  lemma ParsedIsPublishable(content: string)
    requires PackageInfo(content).Some?
    requires |Given(Split(content, '\n'), "pkgname")| == 1 && |Given(Split(content, '\n'), "pkgver")| == 1
    ensures Publishable(PackageInfo(content).value)
  {
    var lines := Split(content, '\n');
    InfoLinesNewlineFree(lines);
    GivenOnce(lines, "pkgname");
    GivenOnce(lines, "pkgver");
    PackageVersion(content);
    var raw := InfoLines(lines);
    SplitVersionNewlineFree(raw);
    hide Split, InfoLines, Given, Contains, NewlineFree;
    var given := Get(raw, "pkgver");
    assert Get(SplitVersion(raw), "pkgname") == Get(raw, "pkgname");
    assert given != "";
    hide SplitVersion;
    assert (given + "-r0")[0] == given[0];
  }

  lemma AddedEntry(meta: Info)
    requires Publishable(meta)
    ensures var e := IndexMeta(meta);
      && NewlineFree(e)
      && Get(Normalised(e), "P") == Get(meta, "pkgname") && Get(Normalised(e), "V") == NewVersion(meta)
      && FullVersion(Normalised(e)) == NewVersion(meta)
  {
    var e := IndexMeta(meta);
    IndexMetaFields(meta);
    SlotTable(e);
    Members();
    GetNormalised(e, "P");
    GetNormalised(e, "V");
    TrimmedSpace(Get(meta, "pkgname"));
    TrimmedSpace(NewVersion(meta));
    ContainsConcat(Get(meta, "pkgver"), RELEASE, Get(meta, "pkgrel"));
    assert NewlineFree(e) by { CopiedNewlineFree(meta); }
    hide IndexMeta, Normalised, Slot, TrimSpace, Contains;
  }

  lemma CopiedNewlineFree(meta: Info)
    requires NewlineFree(meta)
    ensures NewlineFree(IndexMeta(meta))
  {
  }

  /** Normalisation keeps name and full version of an entry that was read. */
  lemma FullVersionKept(e: Entry)
    requires Clean(e)
    ensures Get(Normalised(e), "P") == Get(e, "P") && FullVersion(Normalised(e)) == FullVersion(e)
    ensures Contains(Get(Normalised(e), "V"), RELEASE) ==> FullVersion(Normalised(e)) == Get(Normalised(e), "V")
  {
    assert Trimmed(Get(e, "P"));
    assert "r" !in KEYS;
    hide Normalised, Slot, TrimSpace, Contains, Clean, Trimmed, Get;
    SlotTable(e);
    Members();
    GetNormalised(e, "P");
    GetNormalised(e, "V");
    GetNormalised(e, "r");
    CleanMerged(e);
    TrimmedSpace(MergedVersion(e));
    TrimmedSpace(Get(e, "P"));
    ContainsConcat(Get(e, "V"), RELEASE, Get(e, "r"));
  }

  lemma {:induction false} NormalisedLists(index: seq<Entry>, name: string, version: string)
    requires (forall e | e in index :: Clean(e)) && Lists(NormalisedKept(index), name, version)
    ensures Lists(index, name, version)
  {
    hide Clean, Kept, Normalised, FullVersion;
    if index != [] {
      var n := |index| - 1;
      var e, before := index[n], index[..n];
      assert e in index && forall x | x in before :: x in index;
      var all := NormalisedKept(index);
      var i :| 0 <= i < |all| && Get(all[i], "P") == name && FullVersion(all[i]) == version;
      if i < |NormalisedKept(before)| {
        assert all[i] == NormalisedKept(before)[i];
        NormalisedLists(before, name, version);
        var j :| 0 <= j < |before| && Get(before[j], "P") == name && FullVersion(before[j]) == version;
        assert index[j] == before[j];
      } else {
        FullVersionKept(e);
        assert all[i] == Normalised(e);
      }
    }
  }

  /** What reading an extended index gives. */
  lemma ReadAdded(content: string, meta: Info)
    requires Publishable(meta) && !Lists(ReadIndex(content), Get(meta, "pkgname"), NewVersion(meta))
    ensures var index, e := ReadIndex(content), IndexMeta(meta);
      && ReadIndex(Added(content, meta)) == NormalisedKept(index) + (if Kept(e) then [Normalised(e)] else [])
      && Added(content, meta) == IndexText(index) + EntryText(e)
  {
    var index, e := ReadIndex(content), IndexMeta(meta);
    AddedEntry(meta);
    ReadIndexClean(content);
    hide ReadIndex, Normalised, Clean, NewlineFree, EntryText, Kept, IndexMeta;
    var all := index + [e];
    assert all[..|all| - 1] == index;
    forall x | x in all
      ensures NewlineFree(x)
    {
      if x in index {
        CleanNewlineFree(x);
      }
    }
    RoundTrip(all);
  }

  /** Adding the same revision twice is adding it once. */
  lemma AddTwice(content: string, meta: Info)
    requires Publishable(meta)
    ensures Added(Added(content, meta), meta) == Added(content, meta)
  {
    var name, version := Get(meta, "pkgname"), NewVersion(meta);
    var index, e := ReadIndex(content), IndexMeta(meta);
    hide ReadIndex, Normalised, IndexMeta, FullVersion, Publishable, NewVersion, Clean, Kept, EntryText, Tidy;
    if !Lists(index, name, version) {
      ReadAdded(content, meta);
      AddedEntry(meta);
      var once := Added(content, meta);
      var again := ReadIndex(once);
      if Kept(e) {
        assert again[|again| - 1] == Normalised(e);
      } else {
        ReadIndexClean(content);
        assert again == NormalisedKept(index);
        if Lists(again, name, version) {
          NormalisedLists(index, name, version);
        }
        TidyRead(content);
        WriteTwice(index);
        ReadAdded(once, meta);
        NotWritten(e);
      }
    }
  }

  lemma NotWritten(e: Entry)
    requires !Kept(e)
    ensures EntryText(e) == ""
  {
  }

  lemma TidyRead(content: string)
    ensures forall e | e in ReadIndex(content) && Kept(e) :: Tidy(e)
  {
    hide ReadIndex, Clean, Kept, Tidy;
    ReadIndexClean(content);
    forall e | e in ReadIndex(content) && Kept(e)
      ensures Tidy(e)
    {
      CleanTidy(e);
    }
  }

  // ---------------------------------------------------------------------
  // Withdrawing
  // ---------------------------------------------------------------------

  /** What follows the last dot of the last path segment, with the dot. */
  function Ext(path: string): (ext: string)
    ensures |ext| <= |path| && path[|path| - |ext|..] == ext
  {
    if path == [] || path[|path| - 1] == '/' then ""
    else if path[|path| - 1] == '.' then "."
    else
      var before := Ext(path[..|path| - 1]);
      if before == "" then "" else before + [path[|path| - 1]]
  }

  /** Name, version and release of a package file name. */
  function ParseAPKFilename(filename: string): Option<(string, string, string)> {
    FromParts(Split(filename[..|filename| - |Ext(filename)|], '-'))
  }

  /** The last part is the release, the one before it the version, and the name is the rest. */
  function FromParts(parts: seq<string>): Option<(string, string, string)> {
    if |parts| < 3 then None
    else Some((Join(parts[..|parts| - 2], '-'), parts[|parts| - 2], parts[|parts| - 1]))
  }

  /** The file name of a revision. */
  function APKFilename(name: string, version: string, release: string): string {
    name + "-" + version + "-" + release + ".apk"
  }

  lemma ExtApk(stem: string)
    ensures Ext(stem + ".apk") == ".apk"
  {
    var s := stem + ".apk";
    var a, b, c := s[..|s| - 1], s[..|s| - 2], s[..|s| - 3];
    assert s[|s| - 1] == 'k' && a[|a| - 1] == 'p' && b[|b| - 1] == 'a' && c[|c| - 1] == '.';
    assert a[..|a| - 1] == b && b[..|b| - 1] == c;
    assert Ext(c) == ".";
    assert Ext(b) == ".a";
    assert Ext(a) == ".ap";
  }

  lemma FilenameStem(name: string, version: string, release: string)
    ensures var file := APKFilename(name, version, release);
      file[..|file| - |Ext(file)|] == name + ['-'] + (version + ['-'] + release)
  {
    var stem := name + ['-'] + (version + ['-'] + release);
    var file := APKFilename(name, version, release);
    assert file == stem + ".apk";
    ExtApk(stem);
    hide Ext;
    assert file[..|file| - 4] == stem;
  }

  /** The file name of a revision gives the revision back, whatever the name, exactly when
      version and release hold no dash. */
  lemma FilenameBackIff(name: string, version: string, release: string)
    ensures ParseAPKFilename(APKFilename(name, version, release)) == Some((name, version, release))
      <==> '-' !in version && '-' !in release
  {
    FilenameStem(name, version, release);
    hide Ext, Join, Split, APKFilename;
    var parts := Split(name + ['-'] + (version + ['-'] + release), '-');
    if '-' !in version && '-' !in release {
      StemParts(name, version, release);
      JoinSplit(name, '-');
      assert parts[..|parts| - 2] == Split(name, '-');
    } else {
      PartsFree(parts);
    }
  }

  lemma PartsFree(parts: seq<string>)
    requires forall p | p in parts :: '-' !in p
    ensures FromParts(parts).Some? ==> '-' !in FromParts(parts).value.1 && '-' !in FromParts(parts).value.2
  {
    hide Join;
  }

  lemma StemParts(name: string, version: string, release: string)
    requires '-' !in version && '-' !in release
    ensures Split(name + ['-'] + (version + ['-'] + release), '-') == Split(name, '-') + [version, release]
  {
    assert Split(version, '-') == [version] by { CutUnique(version, "", '-'); }
    assert Split(release, '-') == [release] by { CutUnique(release, "", '-'); }
    hide Split;
    SplitConcat(name, version + ['-'] + release, '-');
    SplitConcat(version, release, '-');
    assert [version] + [release] == [version, release];
  }

  /** The index without its first entry of that name and version. */
  function WithoutFirst(index: seq<Entry>, name: string, version: string): seq<Entry> {
    if index == [] then []
    else if IsRevision(index[0], name, version) then index[1..]
    else [index[0]] + WithoutFirst(index[1..], name, version)
  }

  function Removed(content: string, name: string, version: string, release: string): string {
    IndexText(WithoutFirst(ReadIndex(content), name, version + "-" + release))
  }

  predicate IsRevision(e: Entry, name: string, version: string) {
    Get(e, "P") == name && Get(e, "V") == version
  }

  lemma {:induction false} WithoutFirstAt(index: seq<Entry>, i: nat, name: string, version: string)
    requires i <= |index| && forall j | 0 <= j < i :: !IsRevision(index[j], name, version)
    requires i < |index| ==> IsRevision(index[i], name, version)
    ensures WithoutFirst(index, name, version) == if i < |index| then index[..i] + index[i + 1..] else index
  {
    if i > 0 {
      hide Get;
      assert !IsRevision(index[0], name, version);
      WithoutFirstAt(index[1..], i - 1, name, version);
      assert index == [index[0]] + index[1..];
      if i < |index| {
        assert index[..i] == [index[0]] + index[1..][..i - 1];
        assert index[i + 1..] == index[1..][i..];
      }
    } else {
      assert index != [] ==> IsRevision(index[0], name, version);
      assert index[..0] == [];
    }
  }

  method RemoveAPKFromIndex(content: string, name: string, version: string, release: string) returns (content': string)
    ensures content' == Removed(content, name, version, release)
  {
    hide ReadIndex, IndexText, WithoutFirst;
    var packages := ParseIndex(content);
    var joined := version + "-" + release;
    var i := 0;
    while i < |packages|
      invariant i <= |packages|
      invariant forall j | 0 <= j < i :: !IsRevision(packages[j], name, joined)
    {
      if Get(packages[i], "P") == name {
        if Get(packages[i], "V") == joined {
          break;
        }
      }
      i := i + 1;
    }
    WithoutFirstAt(packages, i, name, joined);
    if i < |packages| {
      packages := packages[..i] + packages[i + 1..];
    }
    content' := WriteIndex(packages);
  }

  lemma {:induction false} WithoutLast(index: seq<Entry>, e: Entry, name: string, version: string)
    requires forall i | 0 <= i < |index| :: !IsRevision(index[i], name, version)
    requires IsRevision(e, name, version)
    ensures WithoutFirst(index + [e], name, version) == index
  {
    hide Get;
    if index != [] {
      assert (index + [e])[1..] == index[1..] + [e];
      WithoutLast(index[1..], e, name, version);
    }
  }

  /** Withdrawing a newly added revision by its file name restores the previous index, in
      order and normalised. */
  lemma WithdrawAdded(content: string, meta: Info)
    requires Publishable(meta) && Kept(IndexMeta(meta))
    requires '-' !in Get(meta, "pkgver") && '-' !in Get(meta, "pkgrel")
    requires forall e | e in ReadIndex(content) :: !HasRevision(e, Get(meta, "pkgname"), Get(meta, "pkgver"), Get(meta, "pkgrel"))
    ensures var file := APKFilename(Get(meta, "pkgname"), Get(meta, "pkgver"), "r" + Get(meta, "pkgrel"));
      && ParseAPKFilename(file).Some?
      && var (name, version, release) := ParseAPKFilename(file).value;
         var after := Removed(Added(content, meta), name, version, release);
         && after == IndexText(ReadIndex(content))
         && ReadIndex(after) == NormalisedKept(ReadIndex(content))
  {
    var name, version, release := Get(meta, "pkgname"), Get(meta, "pkgver"), Get(meta, "pkgrel");
    var index, e := ReadIndex(content), IndexMeta(meta);
    FilenameBackIff(name, version, "r" + release);
    ListsIff(index, name, version, release);
    ReadAdded(content, meta);
    AddedEntry(meta);
    SameJoin(version, release);
    hide ReadIndex, Normalised, IndexMeta, Publishable, EntryText, Kept, Contains, FullVersion, HasRevision, Lists, ParseAPKFilename, APKFilename;
    var joined := version + "-" + ("r" + release);
    Unlisted(content, meta);
    WithoutLast(NormalisedKept(index), Normalised(e), name, joined);
    RewriteSettles(content);
    TidyRead(content);
    WriteTwice(index);
  }

  lemma SameJoin(version: string, release: string)
    ensures version + "-" + ("r" + release) == version + RELEASE + release
  {
    assert "-" + "r" == RELEASE;
    assert version + "-" + ("r" + release) == version + ("-" + "r") + release;
  }

  /** No earlier entry of the normalised index is mistaken for the new revision. */
  lemma Unlisted(content: string, meta: Info)
    requires !Lists(ReadIndex(content), Get(meta, "pkgname"), NewVersion(meta))
    ensures var index := NormalisedKept(ReadIndex(content));
      forall i | 0 <= i < |index| :: !IsRevision(index[i], Get(meta, "pkgname"), NewVersion(meta))
  {
    var name, version := Get(meta, "pkgname"), NewVersion(meta);
    var index := ReadIndex(content);
    ContainsConcat(Get(meta, "pkgver"), RELEASE, Get(meta, "pkgrel"));
    assert Contains(version, RELEASE);
    ReadIndexClean(content);
    hide ReadIndex, Normalised, Contains, Clean, NewVersion;
    var all := NormalisedKept(index);
    forall i | 0 <= i < |all|
      ensures !IsRevision(all[i], name, version)
    {
      if IsRevision(all[i], name, version) {
        assert FullVersion(all[i]) == version;
        NormalisedLists(index, name, version);
        assert false;
      }
    }
  }
}
