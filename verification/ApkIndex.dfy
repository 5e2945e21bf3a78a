/** The text of a package index: writing entries, reading them back. */
module ApkIndex {
  import opened Options
  import opened Strings
  import opened Text

  /** An index entry: field letter to value. */
  type Entry = map<string, string>

  /** A missing field reads as the empty string. */
  function Get(e: Entry, key: string): string {
    if key in e then e[key] else ""
  }

  // ---------------------------------------------------------------------
  // Writing
  // ---------------------------------------------------------------------

  /** The fields that are written, in order. */
  const KEYS: seq<string> := ["C", "P", "V", "A", "S", "I", "T", "U", "L", "o", "m", "t", "c", "D", "p"]

  const EPOCH: string := "1700000000"
  const DEFAULT_SIZE: string := "0"
  const DEFAULT_URL: string := "https://securebuild.com"
  const RELEASE: string := "-r"

  /** The version with the release appended, unless it has one already. */
  function MergedVersion(e: Entry): string {
    if !Contains(Get(e, "V"), RELEASE) && Get(e, "r") != "" then Get(e, "V") + RELEASE + Get(e, "r") else Get(e, "V")
  }

  function OrElse(value: string, otherwise: string): string {
    if value != "" then TrimSpace(value) else otherwise
  }

  /** The value written for a field, or None when its line is left out. */
  function Slot(e: Entry, key: string): Option<string> {
    if key == "V" then Some(TrimSpace(MergedVersion(e)))
    else if key == "I" then Some(OrElse(Get(e, key), DEFAULT_SIZE))
    else if key == "U" then Some(OrElse(Get(e, key), DEFAULT_URL))
    else if key == "m" then if TrimSpace(Get(e, key)) != "" then Some(TrimSpace(Get(e, key))) else None
    else if key == "t" then Some(EPOCH)
    else if key in {"c", "D", "p"} then if Get(e, key) != "" then Some(TrimSpace(Get(e, key))) else None
    else Some(TrimSpace(Get(e, key)))
  }

  /** Entries without checksum, name or version are not written. */
  predicate Kept(e: Entry) {
    Get(e, "C") != "" && Get(e, "P") != "" && Get(e, "V") != ""
  }

  function Line(e: Entry, key: string): string {
    if Slot(e, key).Some? then key + ":" + Slot(e, key).value + "\n" else ""
  }

  function Lines(e: Entry, keys: seq<string>): string {
    if keys == [] then "" else Lines(e, keys[..|keys| - 1]) + Line(e, keys[|keys| - 1])
  }

  function EntryText(e: Entry): string {
    if Kept(e) then Lines(e, KEYS) + "\n" else ""
  }

  function IndexText(index: seq<Entry>): string {
    if index == [] then "" else IndexText(index[..|index| - 1]) + EntryText(index[|index| - 1])
  }

  /** What is written for each field. */
  lemma SlotTable(e: Entry)
    ensures Slot(e, "C") == Some(TrimSpace(Get(e, "C"))) && Slot(e, "P") == Some(TrimSpace(Get(e, "P")))
    ensures Slot(e, "V") == Some(TrimSpace(MergedVersion(e)))
    ensures Slot(e, "A") == Some(TrimSpace(Get(e, "A"))) && Slot(e, "S") == Some(TrimSpace(Get(e, "S")))
    ensures Slot(e, "I") == Some(OrElse(Get(e, "I"), DEFAULT_SIZE)) && Slot(e, "T") == Some(TrimSpace(Get(e, "T")))
    ensures Slot(e, "U") == Some(OrElse(Get(e, "U"), DEFAULT_URL)) && Slot(e, "L") == Some(TrimSpace(Get(e, "L")))
    ensures Slot(e, "o") == Some(TrimSpace(Get(e, "o")))
  {
    hide TrimSpace, MergedVersion, Get, OrElse;
  }

  lemma OptionalSlotTable(e: Entry)
    ensures Slot(e, "t") == Some(EPOCH)
    ensures Slot(e, "m") == if TrimSpace(Get(e, "m")) != "" then Some(TrimSpace(Get(e, "m"))) else None
    ensures Slot(e, "c") == if Get(e, "c") != "" then Some(TrimSpace(Get(e, "c"))) else None
    ensures Slot(e, "D") == if Get(e, "D") != "" then Some(TrimSpace(Get(e, "D"))) else None
    ensures Slot(e, "p") == if Get(e, "p") != "" then Some(TrimSpace(Get(e, "p"))) else None
  {
    hide TrimSpace, MergedVersion, Get, OrElse;
  }

  predicate KeyAt(i: nat, key: string) {
    i < |KEYS| && KEYS[i] == key
  }

  lemma KeyTable()
    ensures KeyAt(0, "C") && KeyAt(1, "P") && KeyAt(2, "V") && KeyAt(3, "A") && KeyAt(4, "S") && KeyAt(5, "I") && KeyAt(6, "T")
    ensures KeyAt(7, "U") && KeyAt(8, "L") && KeyAt(9, "o") && KeyAt(10, "m") && KeyAt(11, "t") && KeyAt(12, "c") && KeyAt(13, "D") && KeyAt(14, "p")
    ensures |KEYS| == 15
  {
  }

  /** The text of the first i fields. */
  ghost predicate Upto(e: Entry, i: nat, buf: string) {
    i <= |KEYS| && buf == Lines(e, KEYS[..i])
  }

  method WriteField(buf: string, key: string, value: string, ghost e: Entry, ghost i: nat) returns (buf': string)
    requires Upto(e, i, buf) && KeyAt(i, key) && Slot(e, key) == Some(value)
    ensures buf' == buf + key + ":" + value + "\n" && Upto(e, i + 1, buf')
  {
    hide Slot;
    buf' := buf + (key + ":" + value + "\n");
    assert KEYS[..i + 1][..i] == KEYS[..i];
  }

  lemma SkipField(e: Entry, i: nat, key: string, buf: string)
    requires Upto(e, i, buf) && KeyAt(i, key) && Slot(e, key) == None
    ensures Upto(e, i + 1, buf)
  {
    hide Slot;
    assert KEYS[..i + 1][..i] == KEYS[..i];
  }

  lemma NoField(e: Entry)
    ensures Upto(e, 0, "")
  {
    assert KEYS[..0] == [];
  }

  lemma AllFields(e: Entry, buf: string)
    requires Upto(e, 15, buf)
    ensures buf == Lines(e, KEYS)
  {
    assert KEYS[..15] == KEYS;
  }

  method WriteEntry(e: Entry) returns (buf: string)
    ensures buf == Lines(e, KEYS) + "\n"
  {
    CutOnFinds(Get(e, "V"), RELEASE);
    SlotTable(e);
    KeyTable();
    NoField(e);
    hide Upto, KeyAt, Slot, TrimSpace, Contains, CutOn, Get, Lines;
    buf := WriteField("", "C", TrimSpace(Get(e, "C")), e, 0);
    buf := WriteField(buf, "P", TrimSpace(Get(e, "P")), e, 1);
    var version := Get(e, "V");
    if !CutOn(version, RELEASE).2 && Get(e, "r") != "" {
      version := version + RELEASE + Get(e, "r");
    }
    buf := WriteField(buf, "V", TrimSpace(version), e, 2);
    buf := WriteField(buf, "A", TrimSpace(Get(e, "A")), e, 3);
    buf := WriteField(buf, "S", TrimSpace(Get(e, "S")), e, 4);
    if Get(e, "I") != "" {
      buf := WriteField(buf, "I", TrimSpace(Get(e, "I")), e, 5);
    } else {
      buf := WriteField(buf, "I", DEFAULT_SIZE, e, 5);
    }
    buf := WriteField(buf, "T", TrimSpace(Get(e, "T")), e, 6);
    if Get(e, "U") != "" {
      buf := WriteField(buf, "U", TrimSpace(Get(e, "U")), e, 7);
    } else {
      buf := WriteField(buf, "U", DEFAULT_URL, e, 7);
    }
    buf := WriteField(buf, "L", TrimSpace(Get(e, "L")), e, 8);
    buf := WriteField(buf, "o", TrimSpace(Get(e, "o")), e, 9);
    buf := WriteOptional(e, buf);
    AllFields(e, buf);
    buf := buf + "\n";
  }

  method WriteOptional(e: Entry, start: string) returns (buf: string)
    requires Upto(e, 10, start)
    ensures Upto(e, 15, buf)
  {
    OptionalSlotTable(e);
    KeyTable();
    hide Upto, KeyAt, Slot, TrimSpace, Get;
    buf := start;
    var maintainer := TrimSpace(Get(e, "m"));
    if maintainer != "" {
      buf := WriteField(buf, "m", maintainer, e, 10);
    } else {
      SkipField(e, 10, "m", buf);
    }
    buf := WriteField(buf, "t", EPOCH, e, 11);
    if Get(e, "c") != "" {
      buf := WriteField(buf, "c", TrimSpace(Get(e, "c")), e, 12);
    } else {
      SkipField(e, 12, "c", buf);
    }
    if Get(e, "D") != "" {
      buf := WriteField(buf, "D", TrimSpace(Get(e, "D")), e, 13);
    } else {
      SkipField(e, 13, "D", buf);
    }
    if Get(e, "p") != "" {
      buf := WriteField(buf, "p", TrimSpace(Get(e, "p")), e, 14);
    } else {
      SkipField(e, 14, "p", buf);
    }
  }

  /** The text part of writeAPKIndex. */
  method WriteIndex(index: seq<Entry>) returns (buf: string)
    ensures buf == IndexText(index)
  {
    buf := "";
    for i := 0 to |index|
      invariant buf == IndexText(index[..i])
    {
      hide Lines, Slot;
      assert index[..i + 1][..i] == index[..i];
      var e := index[i];
      if Get(e, "C") == "" || Get(e, "P") == "" || Get(e, "V") == "" {
        continue;
      }
      var text := WriteEntry(e);
      buf := buf + text;
    }
    assert index[..|index|] == index;
  }

  // ---------------------------------------------------------------------
  // Reading
  // ---------------------------------------------------------------------

  /** A line without a colon is skipped; a repeated key is overwritten. */
  function ReadLine(e: Entry, line: string): Entry {
    if ':' !in line then e
    else
      var (key, value, _) := Cut(line, ':');
      e[TrimSpace(key) := TrimSpace(value)]
  }

  function ReadLines(e: Entry, lines: seq<string>): Entry {
    if lines == [] then e else ReadLine(ReadLines(e, lines[..|lines| - 1]), lines[|lines| - 1])
  }

  function ReadBlock(block: string): Entry {
    ReadLines(map[], Split(block, '\n'))
  }

  /** The entries of the blocks that have any field. */
  function ReadBlocks(blocks: seq<string>): seq<Entry> {
    if blocks == [] then []
    else
      var e := ReadBlock(blocks[|blocks| - 1]);
      ReadBlocks(blocks[..|blocks| - 1]) + if e == map[] then [] else [e]
  }

  function ReadIndex(content: string): seq<Entry> {
    ReadBlocks(SplitOn(content, "\n\n"))
  }

  method ParseIndex(content: string) returns (index: seq<Entry>)
    ensures index == ReadIndex(content)
  {
    hide SplitOn, ReadBlock;
    var blocks := SplitOn(content, "\n\n");
    index := [];
    for i := 0 to |blocks|
      invariant index == ReadBlocks(blocks[..i])
    {
      assert blocks[..i + 1][..i] == blocks[..i];
      var meta := ParseBlock(blocks[i]);
      if |meta| > 0 {
        index := index + [meta];
      }
    }
    assert blocks[..|blocks|] == blocks;
  }

  method ParseBlock(block: string) returns (meta: Entry)
    ensures meta == ReadBlock(block)
  {
    hide ReadLine, Split;
    var lines := Split(block, '\n');
    meta := map[];
    for j := 0 to |lines|
      invariant meta == ReadLines(map[], lines[..j])
    {
      assert lines[..j + 1][..j] == lines[..j];
      meta := ParseLine(meta, lines[j]);
    }
    assert lines[..|lines|] == lines;
  }

  method ParseLine(meta: Entry, line: string) returns (meta': Entry)
    ensures meta' == ReadLine(meta, line)
  {
    if line == "" || ':' !in line {
      return meta;
    }
    var parts := Cut(line, ':');
    var key := TrimSpace(parts.0);
    var value := TrimSpace(parts.1);
    meta' := meta[key := value];
  }

  // ---------------------------------------------------------------------
  // Reading what was written
  // ---------------------------------------------------------------------

  /** What an entry becomes: written fields only, trimmed, with defaults and with the
      release merged into the version. */
  function Normalised(e: Entry): Entry {
    map k | k in KEYS && Slot(e, k).Some? :: Slot(e, k).value
  }

  function NormalisedKept(index: seq<Entry>): seq<Entry> {
    if index == [] then []
    else
      var e := index[|index| - 1];
      NormalisedKept(index[..|index| - 1]) + if Kept(e) then [Normalised(e)] else []
  }

  predicate NewlineFree(e: Entry) {
    forall k | k in e :: '\n' !in e[k]
  }

  lemma SlotNewlineFree(e: Entry, key: string)
    requires NewlineFree(e)
    ensures Slot(e, key).Some? ==> '\n' !in Slot(e, key).value && Trimmed(Slot(e, key).value)
  {
    hide Contains;
    TrimmedSpace(Get(e, key));
    TrimmedSpace(MergedVersion(e));
    hide TrimSpace;
    assert '\n' !in Get(e, key) && '\n' !in MergedVersion(e);
  }

  predicate KeyOk(k: string) {
    |k| == 1 && !IsSpace(k[0]) && k[0] != ':' && k[0] != '\n'
  }

  lemma KeysOk(k: string)
    requires k in KEYS
    ensures KeyOk(k)
  {
  }

  /** One written line, without its newline, read back. */
  lemma ReadWritten(e: Entry, key: string, value: string)
    requires KeyOk(key) && Trimmed(value)
    ensures ReadLine(e, key + ":" + value) == e[key := value]
  {
    var line := key + [':'] + value;
    assert line[1] == ':';
    CutUnique(key, value, ':');
    TrimmedSpace(key);
    TrimmedSpace(value);
    assert line == key + ":" + value;
  }

  /** The lines of the written fields. */
  function Written(e: Entry, keys: seq<string>): seq<string> {
    if keys == [] then []
    else
      var k := keys[|keys| - 1];
      Written(e, keys[..|keys| - 1]) + if Slot(e, k).Some? then [k + ":" + Slot(e, k).value] else []
  }

  function Slots(e: Entry, keys: seq<string>): Entry {
    map k | k in keys && Slot(e, k).Some? :: Slot(e, k).value
  }

  lemma SlotsSnoc(e: Entry, keys: seq<string>)
    requires keys != []
    ensures var k, before := keys[|keys| - 1], Slots(e, keys[..|keys| - 1]);
      Slots(e, keys) == if Slot(e, k).Some? then before[k := Slot(e, k).value] else before
  {
    hide Slot;
    assert keys == keys[..|keys| - 1] + [keys[|keys| - 1]];
  }

  lemma ReadSnoc(e: Entry, lines: seq<string>, line: string)
    ensures ReadLines(e, lines + [line]) == ReadLine(ReadLines(e, lines), line)
  {
    hide ReadLine;
    assert (lines + [line])[..|lines|] == lines;
  }

  lemma {:induction false} ReadAllWritten(e: Entry, keys: seq<string>)
    requires NewlineFree(e) && forall k | k in keys :: KeyOk(k)
    ensures ReadLines(map[], Written(e, keys)) == Slots(e, keys)
  {
    hide Slot, KeyOk, NewlineFree, ReadLine, ReadLines, Slots;
    if keys == [] {
      NothingRead(e);
    } else {
      var n := |keys| - 1;
      var k := keys[n];
      assert forall x | x in keys[..n] :: x in keys;
      ReadAllWritten(e, keys[..n]);
      SlotsSnoc(e, keys);
      SlotNewlineFree(e, k);
      if Slot(e, k).Some? {
        var line := k + ":" + Slot(e, k).value;
        ReadWritten(Slots(e, keys[..n]), k, Slot(e, k).value);
        ReadSnoc(map[], Written(e, keys[..n]), line);
      } else {
        assert Written(e, keys) == Written(e, keys[..n]);
      }
    }
  }

  lemma NothingRead(e: Entry)
    ensures ReadLines(map[], []) == Slots(e, [])
  {
  }

  /** Lines that hold something but no newline. */
  predicate PlainLines(lines: seq<string>) {
    forall l | l in lines :: l != "" && '\n' !in l
  }

  lemma PlainLine(e: Entry, k: string)
    requires NewlineFree(e) && KeyOk(k) && Slot(e, k).Some?
    ensures var line := k + ":" + Slot(e, k).value; line != "" && '\n' !in line && Line(e, k) == line + "\n"
  {
    SlotNewlineFree(e, k);
    hide Slot;
    assert '\n' !in ":";
  }

  lemma JoinedSnoc(lines: seq<string>, line: string)
    ensures Joined(lines + [line]) == Joined(lines) + (line + "\n")
  {
    assert (lines + [line])[..|lines|] == lines;
  }

  lemma {:induction false} WrittenPlain(e: Entry, keys: seq<string>)
    requires NewlineFree(e) && forall k | k in keys :: KeyOk(k)
    ensures PlainLines(Written(e, keys))
    ensures Lines(e, keys) == Joined(Written(e, keys))
  {
    hide Slot, NewlineFree, KeyOk, Joined;
    if keys == [] {
      assert Joined([]) == "" by { NothingJoined(); }
    } else {
      var n := |keys| - 1;
      var k := keys[n];
      assert forall x | x in keys[..n] :: x in keys;
      WrittenPlain(e, keys[..n]);
      if Slot(e, k).Some? {
        PlainLine(e, k);
        JoinedSnoc(Written(e, keys[..n]), k + ":" + Slot(e, k).value);
      } else {
        assert Written(e, keys) == Written(e, keys[..n]);
        assert Lines(e, keys) == Lines(e, keys[..n]) + "";
      }
    }
  }

  lemma NothingJoined()
    ensures Joined([]) == ""
  {
  }

  /** Each line ended by a newline. */
  function Joined(lines: seq<string>): string {
    if lines == [] then "" else Joined(lines[..|lines| - 1]) + (lines[|lines| - 1] + "\n")
  }

  lemma {:induction false} JoinedIsJoin(lines: seq<string>)
    requires lines != []
    ensures Joined(lines) == Join(lines, '\n') + "\n"
  {
    var n := |lines| - 1;
    if n > 0 {
      JoinedIsJoin(lines[..n]);
      JoinSnoc(lines[..n], lines[n], '\n');
      assert lines == lines[..n] + [lines[n]];
    } else {
      assert lines[..0] == [];
    }
  }

  /** A block with no blank line inside or at its ends is cut off whole. */
  predicate Solid(block: string) {
    && block != [] && block[0] != '\n' && block[|block| - 1] != '\n'
    && forall i | 0 <= i < |block| - 1 && block[i] == '\n' :: block[i + 1] != '\n'
  }

  lemma {:induction false} CutSolid(block: string, rest: string)
    requires block != [] && block[|block| - 1] != '\n'
    requires forall i | 0 <= i < |block| - 1 && block[i] == '\n' :: block[i + 1] != '\n'
    ensures CutOn(block + "\n\n" + rest, "\n\n") == (block, rest, true)
  {
    var s := block + "\n\n" + rest;
    assert s[0] == block[0];
    assert |block| > 1 ==> s[1] == block[1];
    assert s[1..] == block[1..] + "\n\n" + rest;
    assert block == [block[0]] + block[1..];
    if |block| == 1 {
      assert s[1..][0] == '\n' && s[1..][1] == '\n';
      assert "\n\n" <= s[1..];
      assert s[1..][2..] == rest;
    } else {
      CutSolid(block[1..], rest);
    }
  }

  lemma {:induction false} JoinSolid(lines: seq<string>)
    requires lines != [] && PlainLines(lines)
    ensures Solid(Join(lines, '\n'))
  {
    var first, block := lines[0], Join(lines, '\n');
    assert first in lines;
    if |lines| > 1 {
      var rest := Join(lines[1..], '\n');
      assert forall l | l in lines[1..] :: l in lines;
      JoinSolid(lines[1..]);
      assert block == first + ['\n'] + rest;
      assert forall j | 0 <= j < |first| :: block[j] in first;
      forall i | 0 <= i < |block| - 1 && block[i] == '\n'
        ensures block[i + 1] != '\n'
      {
        if i > |first| {
          assert block[i] == rest[i - |first| - 1];
          assert block[i + 1] == rest[i - |first|];
        }
      }
      assert block[|block| - 1] == rest[|rest| - 1];
    }
  }

  /** A written entry is one solid block and a blank line. */
  lemma EntryBlock(e: Entry)
    requires Kept(e) && NewlineFree(e)
    ensures var block := Join(Written(e, KEYS), '\n');
      EntryText(e) == (block + "\n") + "\n" && Solid(block)
  {
    AllKeysOk();
    WrittenPlain(e, KEYS);
    SomethingWritten(e);
    hide Written, Slot, Lines, KeyOk, NewlineFree, Join, Solid;
    var lines := Written(e, KEYS);
    JoinedIsJoin(lines);
    JoinSolid(lines);
  }

  /** The first written entry is cut off, and the rest of the text is left. */
  lemma SplitEntry(e: Entry, rest: string)
    requires Kept(e) && NewlineFree(e)
    ensures SplitOn(EntryText(e) + rest, "\n\n") == [Join(Written(e, KEYS), '\n')] + SplitOn(rest, "\n\n")
  {
    EntryBlock(e);
    hide Written, Slot, Lines, KeyOk, NewlineFree, Join, EntryText, CutOn, Kept;
    var block := Join(Written(e, KEYS), '\n');
    BlockThen(block, rest);
    CutSolid(block, rest);
  }

  lemma BlockThen(block: string, rest: string)
    ensures (block + "\n") + "\n" + rest == block + "\n\n" + rest
  {
    assert "\n" + "\n" == "\n\n";
    assert (block + "\n") + "\n" == block + ("\n" + "\n");
  }

  lemma ReadEntry(e: Entry)
    requires NewlineFree(e)
    ensures ReadBlock(Join(Written(e, KEYS), '\n')) == Normalised(e)
    ensures Normalised(e) != map[]
  {
    AllKeysOk();
    WrittenPlain(e, KEYS);
    ReadAllWritten(e, KEYS);
    SomethingWritten(e);
    var lines := Written(e, KEYS);
    hide Written, Slot, KeyOk, NewlineFree;
    SplitJoin(lines, '\n');
  }

  lemma AllKeysOk()
    ensures forall k | k in KEYS :: KeyOk(k)
  {
    forall k | k in KEYS
      ensures KeyOk(k)
    {
      KeysOk(k);
    }
  }

  lemma SomethingWritten(e: Entry)
    ensures Written(e, KEYS) != [] && "C" in Normalised(e)
  {
    WrittenFirst(e, KEYS);
    assert KEYS[0] == "C" && Slot(e, "C").Some?;
  }

  lemma {:induction false} WrittenFirst(e: Entry, keys: seq<string>)
    requires keys != [] && Slot(e, keys[0]).Some?
    ensures Written(e, keys) != []
  {
    hide Slot;
    if |keys| > 1 {
      WrittenFirst(e, keys[..|keys| - 1]);
    }
  }

  lemma {:induction false} ReadBlocksConcat(a: seq<string>, b: seq<string>)
    ensures ReadBlocks(a + b) == ReadBlocks(a) + ReadBlocks(b)
    decreases |b|
  {
    hide ReadBlock;
    if b == [] {
      assert a + b == a;
    } else {
      assert (a + b)[..|a + b| - 1] == a + b[..|b| - 1];
      ReadBlocksConcat(a, b[..|b| - 1]);
    }
  }

  lemma ReadOne(block: string)
    requires ReadBlock(block) != map[]
    ensures ReadBlocks([block]) == [ReadBlock(block)]
  {
    hide ReadBlock;
    assert [block][..0] == [];
  }

  lemma TextSnoc(index: seq<Entry>, rest: string)
    requires index != []
    ensures IndexText(index) + rest == IndexText(index[..|index| - 1]) + (EntryText(index[|index| - 1]) + rest)
  {
    hide EntryText;
  }

  /** Reading a written index, followed by any text, gives the entries and then those of
      the text. */
  lemma {:induction false} ReadWrittenIndex(index: seq<Entry>, rest: string)
    requires forall e | e in index :: NewlineFree(e)
    ensures ReadIndex(IndexText(index) + rest) == NormalisedKept(index) + ReadIndex(rest)
  {
    hide Normalised, ReadBlock, SplitOn, NewlineFree, Join, Written, Kept, Get;
    if index == [] {
      assert IndexText(index) + rest == rest;
    } else {
      var n := |index| - 1;
      var e, before := index[n], index[..n];
      assert e in index;
      TextSnoc(index, rest);
      ReadWrittenIndex(before, EntryText(e) + rest);
      if Kept(e) {
        SplitEntry(e, rest);
        ReadEntry(e);
        hide EntryText, IndexText, Kept;
        var block := Join(Written(e, KEYS), '\n');
        ReadBlocksConcat([block], SplitOn(rest, "\n\n"));
        ReadOne(block);
        assert NormalisedKept(before) + ([Normalised(e)] + ReadIndex(rest)) == (NormalisedKept(before) + [Normalised(e)]) + ReadIndex(rest);
      } else {
        assert EntryText(e) + rest == rest;
      }
    }
  }

  /** Writing and reading gives exactly the kept entries, in order, with defaults filled in
      and releases merged. */
  lemma RoundTrip(index: seq<Entry>)
    requires forall e | e in index :: NewlineFree(e)
    ensures ReadIndex(IndexText(index)) == NormalisedKept(index)
  {
    ReadWrittenIndex(index, "");
    assert IndexText(index) + "" == IndexText(index);
    EmptyText();
    assert NormalisedKept(index) + [] == NormalisedKept(index);
  }

  lemma EmptyText()
    ensures ReadIndex("") == []
  {
    assert SplitOn("", "\n\n") == [""];
    assert Split("", '\n') == [""];
    assert ReadLines(map[], [""]) == map[] by { assert [""][..0] == []; }
    assert [""][..0] == [];
  }

  // ---------------------------------------------------------------------
  // Writing what was read
  // ---------------------------------------------------------------------

  /** White space that is not nothing. */
  predicate Blank(s: string) {
    s != "" && TrimSpace(s) == ""
  }

  /** No field whose presence matters is blank. */
  predicate Tidy(e: Entry) {
    && !Blank(Get(e, "C")) && !Blank(Get(e, "P")) && TrimSpace(MergedVersion(e)) != ""
    && !Blank(Get(e, "I")) && !Blank(Get(e, "U")) && !Blank(Get(e, "c")) && !Blank(Get(e, "D")) && !Blank(Get(e, "p"))
  }

  lemma GetNormalised(e: Entry, key: string)
    ensures Get(Normalised(e), key) == if key in KEYS && Slot(e, key).Some? then Slot(e, key).value else ""
  {
    hide Slot;
  }

  lemma NormalisedVersion(e: Entry)
    ensures MergedVersion(Normalised(e)) == TrimSpace(MergedVersion(e))
  {
    SlotTable(e);
    hide Slot, Contains, TrimSpace;
    GetNormalised(e, "V");
    GetNormalised(e, "r");
    assert "V" == KEYS[2] && "V" in KEYS;
  }

  lemma TrimTwice(s: string)
    ensures TrimSpace(TrimSpace(s)) == TrimSpace(s)
  {
    TrimmedSpace(s);
  }

  /** A second pass leaves a field as it is, unless the field is blank and not always written. */
  lemma SlotTwice(e: Entry, k: string)
    requires k in KEYS
    ensures (k in {"I", "U", "c", "D", "p"} && Blank(Get(e, k))) <==> Slot(Normalised(e), k) != Slot(e, k)
  {
    GetNormalised(e, k);
    NormalisedVersion(e);
    TrimTwice(Get(e, k));
    TrimTwice(MergedVersion(e));
    hide Get, Normalised, MergedVersion, TrimSpace;
    assert TrimSpace(DEFAULT_SIZE) == DEFAULT_SIZE && TrimSpace(DEFAULT_URL) == DEFAULT_URL && TrimSpace("") == "" by { DefaultsTrimmed(); }
  }

  lemma DefaultsTrimmed()
    ensures TrimSpace(DEFAULT_SIZE) == DEFAULT_SIZE && TrimSpace(DEFAULT_URL) == DEFAULT_URL && TrimSpace("") == ""
  {
    TrimmedSpace(DEFAULT_SIZE);
    TrimmedSpace(DEFAULT_URL);
  }

  lemma Members()
    ensures forall k | k in {"C", "P", "V", "I", "U", "c", "D", "p"} :: k in KEYS
  {
    KeyTable();
    assert KEYS[0] in KEYS && KEYS[1] in KEYS && KEYS[2] in KEYS && KEYS[5] in KEYS && KEYS[7] in KEYS;
    assert KEYS[12] in KEYS && KEYS[13] in KEYS && KEYS[14] in KEYS;
  }

  lemma KeptTwice(e: Entry)
    requires Kept(e)
    ensures Kept(Normalised(e)) <==> !Blank(Get(e, "C")) && !Blank(Get(e, "P")) && TrimSpace(MergedVersion(e)) != ""
  {
    SlotTable(e);
    Members();
    GetNormalised(e, "C");
    GetNormalised(e, "P");
    GetNormalised(e, "V");
    hide Slot, Get, TrimSpace, MergedVersion, Normalised;
  }

  /** Normalisation is final exactly for tidy entries. */
  lemma NormalisedOnceIff(e: Entry)
    requires Kept(e)
    ensures Kept(Normalised(e)) && (forall k | k in KEYS :: Slot(Normalised(e), k) == Slot(e, k)) <==> Tidy(e)
  {
    hide Kept, Slot, Get, TrimSpace, Blank, Normalised, MergedVersion;
    KeptTwice(e);
    Members();
    forall k | k in KEYS
      ensures (k in {"I", "U", "c", "D", "p"} && Blank(Get(e, k))) <==> Slot(Normalised(e), k) != Slot(e, k)
    {
      SlotTwice(e, k);
    }
  }

  lemma {:induction false} SameLines(e: Entry, f: Entry, keys: seq<string>)
    requires forall k | k in keys :: Slot(e, k) == Slot(f, k)
    ensures Lines(e, keys) == Lines(f, keys)
  {
    hide Slot;
    if keys != [] {
      assert forall k | k in keys[..|keys| - 1] :: k in keys;
      SameLines(e, f, keys[..|keys| - 1]);
    }
  }

  /** Writing tidy entries again, after reading them, yields the same text. */
  lemma {:induction false} WriteTwice(index: seq<Entry>)
    requires forall e | e in index && Kept(e) :: Tidy(e)
    ensures IndexText(NormalisedKept(index)) == IndexText(index)
  {
    hide Normalised, Kept, Tidy, Lines;
    if index != [] {
      var n := |index| - 1;
      var e := index[n];
      assert e in index && forall x | x in index[..n] :: x in index;
      WriteTwice(index[..n]);
      if Kept(e) {
        NormalisedOnceIff(e);
        SameLines(Normalised(e), e, KEYS);
        var all := NormalisedKept(index);
        assert all[..|all| - 1] == NormalisedKept(index[..n]);
      } else {
        assert NormalisedKept(index) == NormalisedKept(index[..n]);
        assert IndexText(index) == IndexText(index[..n]) + "";
      }
    }
  }

  // ---------------------------------------------------------------------
  // Entries that were read
  // ---------------------------------------------------------------------

  /** Every value trimmed and on one line. */
  predicate Clean(e: Entry) {
    forall k | k in e :: Trimmed(e[k]) && '\n' !in e[k]
  }

  lemma ReadLineClean(e: Entry, line: string)
    requires Clean(e) && '\n' !in line
    ensures Clean(ReadLine(e, line))
  {
    var value := Cut(line, ':').1;
    TrimmedSpace(value);
    hide TrimSpace, Trimmed;
  }

  lemma {:induction false} ReadLinesClean(lines: seq<string>)
    requires forall l | l in lines :: '\n' !in l
    ensures Clean(ReadLines(map[], lines))
  {
    hide ReadLine;
    if lines != [] {
      ReadLinesClean(lines[..|lines| - 1]);
      ReadLineClean(ReadLines(map[], lines[..|lines| - 1]), lines[|lines| - 1]);
    }
  }

  lemma {:induction false} ReadBlocksClean(blocks: seq<string>)
    ensures forall e | e in ReadBlocks(blocks) :: Clean(e)
  {
    hide Clean, ReadLines, Split;
    if blocks != [] {
      ReadBlocksClean(blocks[..|blocks| - 1]);
      ReadLinesClean(Split(blocks[|blocks| - 1], '\n'));
    }
  }

  /** Whatever the text, the entries read from it have clean values. */
  lemma ReadIndexClean(content: string)
    ensures forall e | e in ReadIndex(content) :: Clean(e)
  {
    ReadBlocksClean(SplitOn(content, "\n\n"));
  }

  lemma CleanMerged(e: Entry)
    requires Clean(e)
    ensures Trimmed(MergedVersion(e)) && '\n' !in MergedVersion(e)
  {
    hide Contains;
  }

  lemma CleanTidy(e: Entry)
    requires Clean(e) && Kept(e)
    ensures Tidy(e) && NewlineFree(e)
  {
    CleanMerged(e);
    assert MergedVersion(e) != "";
    hide MergedVersion;
    forall k
      ensures !Blank(Get(e, k))
    {
      TrimmedSpace(Get(e, k));
    }
    TrimmedSpace(MergedVersion(e));
  }

  /** Reading any text and writing it gives a text that reading and writing keeps. */
  lemma RewriteSettles(content: string)
    ensures ReadIndex(IndexText(ReadIndex(content))) == NormalisedKept(ReadIndex(content))
    ensures IndexText(ReadIndex(IndexText(ReadIndex(content)))) == IndexText(ReadIndex(content))
  {
    hide ReadIndex, Clean, Tidy, NewlineFree, Kept;
    ReadIndexClean(content);
    forall e | e in ReadIndex(content)
      ensures NewlineFree(e) && (Kept(e) ==> Tidy(e))
    {
      CleanNewlineFree(e);
      if Kept(e) {
        CleanTidy(e);
      }
    }
    RoundTrip(ReadIndex(content));
    WriteTwice(ReadIndex(content));
  }

  lemma CleanNewlineFree(e: Entry)
    requires Clean(e)
    ensures NewlineFree(e)
  {
  }
}
