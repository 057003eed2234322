/** Reading NUL-separated checkout status records, and the printer whose output they are. */
module StatusParser {
  import opened Wrappers

  newtype Byte = n: int | 0 <= n < 256

  datatype StatusError = MalformedStatus | NonUtf8Path

  const SPACE: Byte := 32

  predicate Continuation(b: Byte) {
    0x80 <= b <= 0xBF
  }

  /** How many bytes the first UTF-8 character takes, or 0 if there is none; section 4 of RFC 3629. */
  function CharacterLength(s: seq<Byte>): (n: nat)
    ensures n <= |s|
  {
    if s == [] then 0
    else if s[0] <= 0x7F then 1
    else if |s| >= 2 && 0xC2 <= s[0] <= 0xDF && Continuation(s[1]) then 2
    else if |s| >= 3 && Continuation(s[1]) && Continuation(s[2])
      && ((s[0] == 0xE0 && s[1] >= 0xA0) || (0xE1 <= s[0] <= 0xEF && (s[0] == 0xED ==> s[1] <= 0x9F))) then 3
    else if |s| >= 4 && Continuation(s[1]) && Continuation(s[2]) && Continuation(s[3])
      && ((s[0] == 0xF0 && s[1] >= 0x90) || 0xF1 <= s[0] <= 0xF3 || (s[0] == 0xF4 && s[1] <= 0x8F)) then 4
    else 0
  }

  predicate IsUtf8(s: seq<Byte>)
    decreases |s|
  {
    s == [] || (CharacterLength(s) > 0 && IsUtf8(s[CharacterLength(s)..]))
  }

  /** Cuts at every NUL. */
  function Split(output: seq<Byte>): (parts: seq<seq<Byte>>)
    ensures parts != []
  {
    if output == [] then [[]]
    else
      var rest := Split(output[1..]);
      if output[0] == 0 then [[]] + rest else [[output[0]] + rest[0]] + rest[1..]
  }

  function NonEmpty(parts: seq<seq<Byte>>): seq<seq<Byte>> {
    if parts == [] then [] else (if parts[0] == [] then [] else [parts[0]]) + NonEmpty(parts[1..])
  }

  function Records(output: seq<Byte>): seq<seq<Byte>> {
    NonEmpty(Split(output))
  }

  predicate Is(b: Byte, letter: char) {
    b as int == letter as int
  }

  /** A rename or a copy is followed by the path it came from. */
  predicate HasOrigin(x: Byte, y: Byte) {
    Is(x, 'R') || Is(x, 'C') || Is(y, 'R') || Is(y, 'C')
  }

  predicate Ambiguous(x: Byte, y: Byte) {
    || HasOrigin(x, y) || Is(x, 'U') || Is(y, 'U')
    || (Is(x, 'A') && Is(y, 'A')) || (Is(x, 'D') && Is(y, 'D'))
  }

  type Dirty = map<seq<Byte>, bool>

  predicate WellShaped(record: seq<Byte>) {
    |record| >= 4 && record[2] == SPACE
  }

  function Read(records: seq<seq<Byte>>, entries: Dirty): Result<Dirty, StatusError>
    decreases |records|
  {
    if records == [] then Ok(entries)
    else
      var record := records[0];
      if !WellShaped(record) then Err(MalformedStatus)
      else if !IsUtf8(record[3..]) then Err(NonUtf8Path)
      else
        var next := entries[record[3..] := Ambiguous(record[0], record[1])];
        if !HasOrigin(record[0], record[1]) then Read(records[1..], next)
        else if |records| < 2 then Err(MalformedStatus)
        else Read(records[2..], next)
  }

  method DirtyEntries(output: seq<Byte>) returns (r: Result<Dirty, StatusError>)
    ensures r == Read(Records(output), map[])
  {
    var records := Records(output);
    var entries: Dirty := map[];
    var index := 0;
    while index < |records|
      invariant index <= |records|
      invariant Read(records[index..], entries) == Read(records, map[])
    {
      var record := records[index];
      assert records[index..][1..] == records[index + 1..];
      assert index + 1 < |records| ==> records[index..][2..] == records[index + 2..];
      if |record| < 4 || record[2] != SPACE {
        return Err(MalformedStatus);
      }
      if !IsUtf8(record[3..]) {
        return Err(NonUtf8Path);
      }
      entries := entries[record[3..] := Ambiguous(record[0], record[1])];
      if HasOrigin(record[0], record[1]) {
        index := index + 1;
        if index >= |records| {
          return Err(MalformedStatus);
        }
      }
      index := index + 1;
    }
    return Ok(entries);
  }

  /** One changed path as the status command reports it. */
  datatype Entry = Entry(x: Byte, y: Byte, path: seq<Byte>, origin: Option<seq<Byte>>) {
    ghost predicate Valid() {
      && x != 0 && y != 0 && path != [] && 0 !in path && IsUtf8(path)
      && (origin.Some? <==> HasOrigin(x, y))
      && (origin.Some? ==> origin.value != [] && 0 !in origin.value)
    }

    function Line(): seq<Byte> {
      [x, y, SPACE] + path
    }

    function Lines(): seq<seq<Byte>> {
      if origin.Some? then [Line(), origin.value] else [Line()]
    }
  }

  function Terminated(lines: seq<seq<Byte>>): seq<Byte> {
    if lines == [] then [] else lines[0] + [0] + Terminated(lines[1..])
  }

  function AllLines(entries: seq<Entry>): seq<seq<Byte>> {
    if entries == [] then [] else entries[0].Lines() + AllLines(entries[1..])
  }

  /** The status output for these entries. */
  function Render(entries: seq<Entry>): seq<Byte> {
    Terminated(AllLines(entries))
  }

  ghost predicate AllValid(entries: seq<Entry>) {
    forall k | 0 <= k < |entries| :: entries[k].Valid()
  }

  /** The paths with their ambiguity; the last entry of a path decides. */
  function Meaning(entries: seq<Entry>, before: Dirty): Dirty {
    if entries == [] then before
    else Meaning(entries[1..], before[entries[0].path := Ambiguous(entries[0].x, entries[0].y)])
  }

  lemma {:induction false} SplitLine(line: seq<Byte>, rest: seq<Byte>)
    requires 0 !in line
    ensures Split(line + [0] + rest) == [line] + Split(rest)
    decreases |line|
  {
    var all := line + [0] + rest;
    if line == [] {
      assert all[1..] == rest;
    } else {
      assert all[1..] == line[1..] + [0] + rest;
      SplitLine(line[1..], rest);
      assert [line[0]] + line[1..] == line;
    }
  }

  ghost predicate Printable(lines: seq<seq<Byte>>) {
    forall k | 0 <= k < |lines| :: lines[k] != [] && 0 !in lines[k]
  }

  /** Splitting undoes terminating. */
  lemma {:induction false} RecordsOfTerminated(lines: seq<seq<Byte>>)
    requires Printable(lines)
    ensures Records(Terminated(lines)) == lines
    decreases |lines|
  {
    if lines == [] {
      assert Split([])[1..] == [];
    } else {
      var rest := lines[1..];
      RecordsOfTerminated(rest);
      SplitLine(lines[0], Terminated(rest));
      assert ([lines[0]] + Split(Terminated(rest)))[1..] == Split(Terminated(rest));
    }
  }

  lemma {:induction false} LinesArePrintable(entries: seq<Entry>)
    requires AllValid(entries)
    ensures Printable(AllLines(entries))
  {
    if entries != [] {
      LinesArePrintable(entries[1..]);
      assert entries[0].Valid();
    }
  }

  lemma ReadOne(entry: Entry, rest: seq<seq<Byte>>, before: Dirty)
    requires entry.Valid()
    ensures Read(entry.Lines() + rest, before) == Read(rest, before[entry.path := Ambiguous(entry.x, entry.y)])
  {
    var records := entry.Lines() + rest;
    assert entry.Line()[3..] == entry.path;
    assert records[0] == entry.Line();
    if entry.origin.Some? {
      assert records[2..] == rest;
    } else {
      assert records[1..] == rest;
    }
  }

  lemma {:induction false} ReadLines(entries: seq<Entry>, rest: seq<seq<Byte>>, before: Dirty)
    requires AllValid(entries)
    ensures Read(AllLines(entries) + rest, before) == Read(rest, Meaning(entries, before))
    decreases |entries|
  {
    if entries == [] {
      assert AllLines(entries) + rest == rest;
    } else {
      var entry := entries[0];
      assert AllLines(entries) + rest == entry.Lines() + (AllLines(entries[1..]) + rest);
      ReadOne(entry, AllLines(entries[1..]) + rest, before);
      ReadLines(entries[1..], rest, before[entry.path := Ambiguous(entry.x, entry.y)]);
    }
  }

  /** Reading back what was rendered gives the same paths with the same ambiguity. */
  lemma RoundTrip(entries: seq<Entry>)
    requires AllValid(entries)
    ensures Read(Records(Render(entries)), map[]) == Ok(Meaning(entries, map[]))
  {
    LinesArePrintable(entries);
    RecordsOfTerminated(AllLines(entries));
    ReadLines(entries, [], map[]);
    assert AllLines(entries) + [] == AllLines(entries);
  }

  /** The codes under which a path has an origin: R is 82 and C is 67. */
  predicate Moved(x: Byte, y: Byte) {
    x == 82 || x == 67 || y == 82 || y == 67
  }

  /** The codes that leave open whose change it is: a moved path, U (85) on a side, A (65) or D (68) on both. */
  predicate Unclear(x: Byte, y: Byte) {
    Moved(x, y) || x == 85 || y == 85 || (x == 65 && y == 65) || (x == 68 && y == 68)
  }

  lemma CodesAreLetters(x: Byte, y: Byte)
    ensures HasOrigin(x, y) <==> Moved(x, y)
    ensures Ambiguous(x, y) <==> Unclear(x, y)
  {
  }

  /**
   * Byte by byte, what one reported path is read as: two codes, a space (32), the path and a NUL, and for a
   * moved path its origin and a NUL. Of a moved path whose origin is missing nothing is read.
   */
  lemma OneReportedPath(x: Byte, y: Byte, path: seq<Byte>, origin: seq<Byte>)
    requires x != 0 && y != 0 && path != [] && 0 !in path && IsUtf8(path) && origin != [] && 0 !in origin
    ensures Read(Records([x, y, 32] + path + [0]), map[])
            == if Moved(x, y) then Err(MalformedStatus) else Ok(map[path := Unclear(x, y)])
    ensures Moved(x, y) ==> Read(Records([x, y, 32] + path + [0] + (origin + [0])), map[]) == Ok(map[path := true])
  {
    hide Split, Records, Read;
    CodesAreLetters(x, y);
    var entry := Entry(x, y, path, if Moved(x, y) then Some(origin) else None);
    if Moved(x, y) {
      LostOriginIsMalformed([], entry);
      assert AllLines([]) + [entry.Line()] == [entry.Line()];
      TerminatedOne(entry.Line());
      TerminatedTwo(entry.Line(), origin);
      assert entry.Lines() == [entry.Line(), origin];
      assert [x, y, 32] + path + [0] + (origin + [0]) == Terminated(entry.Lines());
    } else {
      TerminatedOne(entry.Line());
    }
    RoundTrip([entry]);
    OneEntry(entry);
  }

  lemma TerminatedOne(line: seq<Byte>)
    ensures Terminated([line]) == line + [0]
  {
    assert [line][1..] == [];
  }

  lemma TerminatedTwo(first: seq<Byte>, second: seq<Byte>)
    ensures Terminated([first, second]) == first + [0] + (second + [0])
  {
    assert [first, second][1..] == [second];
    TerminatedOne(second);
  }

  lemma OneEntry(entry: Entry)
    ensures Render([entry]) == Terminated(entry.Lines())
    ensures Meaning([entry], map[]) == map[entry.path := Ambiguous(entry.x, entry.y)]
  {
    assert [entry][1..] == [];
    var none: seq<Entry> := [];
    assert AllLines([entry]) == entry.Lines() + AllLines(none) == entry.Lines();
    var meant := Meaning([], map[][entry.path := Ambiguous(entry.x, entry.y)]);
    assert Meaning([entry], map[]) == meant;
  }

  /** The first record that is not two codes, a space and a path refuses the output; so does a path that is no text. */
  lemma FirstRecordDecides(records: seq<seq<Byte>>, entries: Dirty)
    requires records != []
    ensures !Shaped(records[0]) ==> Read(records, entries) == Err(MalformedStatus)
    ensures Shaped(records[0]) && !IsUtf8(records[0][3..]) ==> Read(records, entries) == Err(NonUtf8Path)
  {
  }

  /** At least four bytes, the third a space. */
  predicate Shaped(record: seq<Byte>) {
    |record| >= 4 && record[2] == 32
  }

  /** Losing the last origin path is noticed. */
  lemma LostOriginIsMalformed(entries: seq<Entry>, last: Entry)
    requires AllValid(entries) && last.Valid() && last.origin.Some?
    ensures Read(Records(Terminated(AllLines(entries) + [last.Line()])), map[]) == Err(MalformedStatus)
  {
    var lines := AllLines(entries) + [last.Line()];
    LinesArePrintable(entries);
    RecordsOfTerminated(lines);
    ReadLines(entries, [last.Line()], map[]);
    assert last.Line()[3..] == last.path;
  }

  lemma {:induction false} SplitIsPrintable(output: seq<Byte>)
    ensures forall k | 0 <= k < |Split(output)| :: 0 !in Split(output)[k]
  {
    if output != [] {
      SplitIsPrintable(output[1..]);
    }
  }

  lemma {:induction false} NonEmptyIsPrintable(parts: seq<seq<Byte>>)
    requires forall k | 0 <= k < |parts| :: 0 !in parts[k]
    ensures Printable(NonEmpty(parts))
  {
    if parts != [] {
      NonEmptyIsPrintable(parts[1..]);
    }
  }

  /** The records are those of these entries. */
  ghost predicate Reports(entries: seq<Entry>, records: seq<seq<Byte>>) {
    AllValid(entries) && AllLines(entries) == records
  }

  lemma {:induction false} AcceptedIsReported(records: seq<seq<Byte>>, before: Dirty) returns (entries: seq<Entry>)
    requires Printable(records) && Read(records, before).Ok?
    ensures Reports(entries, records)
    decreases |records|
  {
    if records == [] {
      entries := [];
    } else {
      var record := records[0];
      var next := before[record[3..] := Ambiguous(record[0], record[1])];
      var n := if HasOrigin(record[0], record[1]) then 2 else 1;
      var first := Entry(record[0], record[1], record[3..], if n == 2 then Some(records[1]) else None);
      assert 0 !in record;
      assert record[0] in record && record[1] in record;
      assert forall b | b in record[3..] :: b in record;
      assert first.Line() == record;
      var rest := AcceptedIsReported(records[n..], next);
      entries := [first] + rest;
      assert first.Lines() + records[n..] == records;
    }
  }

  /** Output is accepted exactly when its records are those of some list of changed paths, and then means that list. */
  lemma AcceptedExactly(output: seq<Byte>)
    ensures Read(Records(output), map[]).Ok? <==> exists entries :: Reports(entries, Records(output))
    ensures forall entries | Reports(entries, Records(output)) ::
      Read(Records(output), map[]) == Ok(Meaning(entries, map[]))
  {
    SplitIsPrintable(output);
    NonEmptyIsPrintable(Split(output));
    if Read(Records(output), map[]).Ok? {
      var entries := AcceptedIsReported(Records(output), map[]);
    }
    forall entries | Reports(entries, Records(output))
      ensures Read(Records(output), map[]) == Ok(Meaning(entries, map[]))
    {
      ReadLines(entries, [], map[]);
      assert AllLines(entries) + [] == AllLines(entries);
    }
  }

  /** A path is ambiguous as its last entry says, and absent if no entry names it. */
  lemma {:induction false} LastEntryDecides(entries: seq<Entry>, before: Dirty, path: seq<Byte>)
    ensures path in Meaning(entries, before) <==> path in before || exists k | 0 <= k < |entries| :: entries[k].path == path
    ensures forall k | 0 <= k < |entries| && entries[k].path == path
                       && (forall j | k < j < |entries| :: entries[j].path != path) ::
      path in Meaning(entries, before) && Meaning(entries, before)[path] == Ambiguous(entries[k].x, entries[k].y)
    ensures path in before && (forall k | 0 <= k < |entries| :: entries[k].path != path) ==>
      path in Meaning(entries, before) && Meaning(entries, before)[path] == before[path]
    decreases |entries|
  {
    if entries != [] {
      var rest := entries[1..];
      LastEntryDecides(rest, before[entries[0].path := Ambiguous(entries[0].x, entries[0].y)], path);
      assert forall k | 1 <= k < |entries| :: entries[k] == rest[k - 1];
      if exists k :: 0 <= k < |entries| && entries[k].path == path {
        if forall k | 1 <= k < |entries| :: entries[k].path != path {
          assert forall k | 0 <= k < |rest| :: rest[k].path != path;
        }
      }
    }
  }
}
