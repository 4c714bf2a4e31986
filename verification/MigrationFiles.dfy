/** Reading the migrations directory: file names, timestamps and SQL commands. */
module MigrationFiles {
  import opened Splitting
  import opened Trimming
  import opened Wrappers

  const MAX_INT64 := 0x7fff_ffff_ffff_ffff

  predicate EndsWith(s: string, suffix: string) {
    |suffix| <= |s| && s[|s| - |suffix|..] == suffix
  }

  function Stem(input: string): string {
    if EndsWith(input, ".sql") then input[..|input| - 4] else input
  }

  /** `timestamp-name.sql`; two empty strings when there is no dash. */
  function ParseSqlFilename(input: string): (string, string) {
    var stem := Stem(input);
    var i := Find(stem, '-');
    if i < |stem| then (stem[..i], stem[i + 1..]) else ("", "")
  }

  predicate IsDigit(c: char) { '0' <= c <= '9' }

  function DigitsUpTo(s: string): (n: nat)
    ensures n <= |s| && (forall i :: 0 <= i < n ==> IsDigit(s[i])) && (n < |s| ==> !IsDigit(s[n]))
  {
    if s == [] || !IsDigit(s[0]) then 0 else 1 + DigitsUpTo(s[1..])
  }

  function Value(digits: string): nat
    requires forall c <- digits :: IsDigit(c)
  {
    if digits == [] then 0
    else
      assert IsDigit(digits[|digits| - 1]);
      10 * Value(digits[..|digits| - 1]) + (digits[|digits| - 1] as int - '0' as int)
  }

  /**
   std::from_chars for int64_t: an optional minus sign and the longest run of
   digits, whatever follows; no digits and overflow are errors.
   */
  function ParseTimestamp(s: string): Option<int> {
    var negative := s != [] && s[0] == '-';
    var t := if negative then s[1..] else s;
    var n := DigitsUpTo(t);
    if n == 0 then None
    else
      var v: int := Value(t[..n]);
      if negative then (if v > MAX_INT64 + 1 then None else Some(-v))
      else if v > MAX_INT64 then None else Some(v)
  }

  function Decimal(n: nat): (s: string)
    ensures |s| > 0 && (forall c <- s :: IsDigit(c)) && Value(s) == n
  {
    var d := (n % 10) as char + '0';
    if n < 10 then [d]
    else
      var s := Decimal(n / 10) + [d];
      assert s[..|s| - 1] == Decimal(n / 10);
      s
  }

  /** A name is read back exactly when its timestamp part has no dash. */
  lemma FilenameRoundTripIff(timestamp: string, name: string)
    ensures ParseSqlFilename(timestamp + "-" + name + ".sql") == (timestamp, name) <==> '-' !in timestamp
  {
    var input, stem := timestamp + "-" + name + ".sql", timestamp + ("-" + name);
    assert input == stem + ".sql";
    assert EndsWith(input, ".sql") && input[..|input| - 4] == stem;
    if '-' in timestamp {
      var k :| 0 <= k < |timestamp| && timestamp[k] == '-';
      FindFirst(stem, '-', k);
      assert |stem[..Find(stem, '-')]| < |timestamp|;
    } else {
      FindAfter(timestamp, '-', "-" + name);
      assert stem[..|timestamp|] == timestamp && stem[|timestamp| + 1..] == name;
    }
  }

  lemma DigitsThenRest(digits: string, rest: string)
    requires forall c <- digits :: IsDigit(c)
    requires rest == [] || !IsDigit(rest[0])
    ensures DigitsUpTo(digits + rest) == |digits|
  {
    if digits == [] {
      assert digits + rest == rest;
    } else {
      assert (digits + rest)[1..] == digits[1..] + rest;
      DigitsThenRest(digits[1..], rest);
    }
  }

  /** Printing a timestamp and reading it back, with anything but a digit after it. */
  lemma TimestampRoundTrip(n: nat, rest: string)
    requires rest == [] || !IsDigit(rest[0])
    ensures ParseTimestamp(Decimal(n) + rest) == if n <= MAX_INT64 then Some(n) else None
  {
    DigitsThenRest(Decimal(n), rest);
    assert IsDigit(Decimal(n)[0]);
    assert (Decimal(n) + rest)[..|Decimal(n)|] == Decimal(n);
  }

  datatype MigrationFile = MigrationFile(timestamp: int, name: string, filename: string, content: string)

  /** A directory entry; `content` is what opening the file would read. */
  datatype Entry = Entry(filename: string, isRegular: bool, content: string)

  function ReadEntry(e: Entry): Option<MigrationFile> {
    var (tsStr, nameStr) := ParseSqlFilename(e.filename);
    if !e.isRegular || tsStr == "" || nameStr == "" then None
    else
      match ParseTimestamp(tsStr)
      case None => None
      case Some(ts) => Some(MigrationFile(ts, nameStr, e.filename, e.content))
  }

  /** The stem of a readable name: digits and whatever else has no dash, a dash, a name that is not empty. */
  ghost predicate WellNamed(stem: string, digits: string, rest: string, name: string) {
    && stem == digits + rest + ("-" + name)
    && digits != "" && (forall c <- digits :: IsDigit(c)) && Value(digits) <= MAX_INT64
    && (rest == "" || !IsDigit(rest[0])) && '-' !in rest && name != ""
  }

  lemma ParsedName(filename: string, ts: string, name: string)
    requires Stem(filename) == ts + ("-" + name) && '-' !in ts
    ensures ParseSqlFilename(filename) == (ts, name)
  {
    hide Stem;
    FindAfter(ts, '-', "-" + name);
    assert Stem(filename)[..|ts|] == ts && Stem(filename)[|ts| + 1..] == name;
  }

  lemma ParsedTimestamp(digits: string, rest: string)
    requires digits != "" && (forall c <- digits :: IsDigit(c)) && (rest == "" || !IsDigit(rest[0]))
    ensures ParseTimestamp(digits + rest) == if Value(digits) <= MAX_INT64 then Some(Value(digits)) else None
  {
    hide Value;
    DigitsThenRest(digits, rest);
    assert digits[0] in digits && (digits + rest)[..|digits|] == digits;
  }

  lemma WellNamedIsRead(e: Entry, digits: string, rest: string, name: string)
    requires WellNamed(Stem(e.filename), digits, rest, name) && e.isRegular
    ensures ReadEntry(e) == Some(MigrationFile(Value(digits), name, e.filename, e.content))
  {
    hide Value, Stem, ParseSqlFilename, ParseTimestamp;
    assert '-' !in digits by {
      assert !IsDigit('-');
    }
    ParsedName(e.filename, digits + rest, name);
    ParsedTimestamp(digits, rest);
  }

  /** What was read has such a name. */
  lemma ReadIsWellNamed(e: Entry) returns (digits: string, rest: string)
    requires ReadEntry(e).Some?
    ensures e.isRegular && WellNamed(Stem(e.filename), digits, rest, ReadEntry(e).value.name)
  {
    hide Value, Stem;
    var stem, name := Stem(e.filename), ReadEntry(e).value.name;
    var ts := stem[..Find(stem, '-')];
    assert stem == ts + ("-" + name) && ts[0] in ts;
    var n := DigitsUpTo(ts);
    digits, rest := ts[..n], ts[n..];
    assert ts == digits + rest && forall c <- rest :: c in ts;
    ParsedTimestamp(digits, rest);
  }

  /**
   Exactly the regular files with such a name are read, each as what its name and content say;
   any other entry stops the scan.
   */
  lemma ReadEntryIff(e: Entry, f: MigrationFile)
    ensures ReadEntry(e) == Some(f) <==>
              && e.isRegular && f.filename == e.filename && f.content == e.content
              && exists digits, rest ::
                   WellNamed(Stem(e.filename), digits, rest, f.name) && f.timestamp == Value(digits)
  {
    hide Value, Stem, ReadEntry;
    if e.isRegular && f.filename == e.filename && f.content == e.content {
      if digits, rest :| WellNamed(Stem(e.filename), digits, rest, f.name) && f.timestamp == Value(digits) {
        WellNamedIsRead(e, digits, rest, f.name);
      }
    }
    if ReadEntry(e) == Some(f) {
      var digits, rest := ReadIsWellNamed(e);
      WellNamedIsRead(e, digits, rest, f.name);
    }
  }

  lemma ReadEntryRoundTrip(n: nat, name: string, content: string)
    requires n <= MAX_INT64 && name != ""
    ensures ReadEntry(Entry(Decimal(n) + "-" + name + ".sql", true, content)) ==
            Some(MigrationFile(n, name, Decimal(n) + "-" + name + ".sql", content))
  {
    assert '-' !in Decimal(n) by {
      assert !IsDigit('-');
    }
    FilenameRoundTripIff(Decimal(n), name);
    TimestampRoundTrip(n, "");
    assert Decimal(n) + "" == Decimal(n);
  }

  /** A dash ends the timestamp, so a scanned timestamp is never negative. */
  lemma ScannedTimestampIsNotNegative(e: Entry)
    requires ReadEntry(e).Some?
    ensures 0 <= ReadEntry(e).value.timestamp <= MAX_INT64
  {
    var stem := Stem(e.filename);
    var i := Find(stem, '-');
    var tsStr := stem[..i];
    assert tsStr != [] ==> tsStr[0] in tsStr;
  }

  // Sorting by timestamp.

  ghost predicate Sorted(files: seq<MigrationFile>) {
    forall i, j :: 0 <= i < j < |files| ==> files[i].timestamp <= files[j].timestamp
  }

  ghost predicate Distinct(files: seq<MigrationFile>) {
    forall i, j :: 0 <= i < j < |files| ==> files[i].timestamp != files[j].timestamp
  }

  function Insert(files: seq<MigrationFile>, f: MigrationFile): (out: seq<MigrationFile>)
    requires Sorted(files)
    ensures Sorted(out) && multiset(out) == multiset(files) + multiset{f}
  {
    if files == [] || f.timestamp < files[0].timestamp then
      [f] + files
    else
      var rest := Insert(files[1..], f);
      SortedCons(files, f, rest);
      [files[0]] + rest
  }

  lemma SortedCons(files: seq<MigrationFile>, f: MigrationFile, rest: seq<MigrationFile>)
    requires files != [] && Sorted(files) && files[0].timestamp <= f.timestamp
    requires Sorted(rest) && multiset(rest) == multiset(files[1..]) + multiset{f}
    ensures Sorted([files[0]] + rest) && multiset([files[0]] + rest) == multiset(files) + multiset{f}
  {
    assert files == [files[0]] + files[1..];
    forall x | x in rest ensures files[0].timestamp <= x.timestamp {
      assert x in multiset(rest);
    }
  }

  function Sort(files: seq<MigrationFile>): (out: seq<MigrationFile>)
    ensures Sorted(out) && multiset(out) == multiset(files)
  {
    if files == [] then []
    else
      var last := |files| - 1;
      assert files == files[..last] + [files[last]];
      Insert(Sort(files[..last]), files[last])
  }

  lemma SameFirst(a: seq<MigrationFile>, b: seq<MigrationFile>)
    requires Sorted(a) && Sorted(b) && multiset(a) == multiset(b) && Distinct(a) && a != [] && b != []
    ensures a[0] == b[0]
  {
    assert b[0] in multiset(a) && a[0] in multiset(b);
    var i :| 0 <= i < |a| && a[i] == b[0];
    var j :| 0 <= j < |b| && b[j] == a[0];
    assert a[0].timestamp <= a[i].timestamp && b[0].timestamp <= b[j].timestamp;
  }

  lemma SameRest(a: seq<MigrationFile>, b: seq<MigrationFile>)
    requires multiset(a) == multiset(b) && a != [] && b != [] && a[0] == b[0]
    ensures multiset(a[1..]) == multiset(b[1..])
  {
    assert a == [a[0]] + a[1..] && b == [b[0]] + b[1..];
    assert multiset(a[1..]) == multiset(a) - multiset{a[0]} && multiset(b[1..]) == multiset(b) - multiset{b[0]};
  }

  /** With distinct timestamps there is one sorted order, so the order of listing does not matter. */
  lemma {:induction false} SortedOrderIsUnique(a: seq<MigrationFile>, b: seq<MigrationFile>)
    requires Sorted(a) && Sorted(b) && multiset(a) == multiset(b) && Distinct(a)
    ensures a == b
    decreases |a|
  {
    assert |a| == |multiset(a)| && |b| == |multiset(b)|;
    if a != [] {
      SameFirst(a, b);
      SameRest(a, b);
      SortedOrderIsUnique(a[1..], b[1..]);
      assert a == [a[0]] + a[1..] && b == [b[0]] + b[1..];
    }
  }

  lemma JoinedInOrder(first: seq<MigrationFile>, second: seq<MigrationFile>)
    requires Sorted(first) && Sorted(second) && Distinct(first) && Distinct(second)
    requires forall x, y | x in first && y in second :: x.timestamp < y.timestamp
    ensures Sorted(first + second) && Distinct(first + second)
  {
    var joined := first + second;
    forall i, j | 0 <= i < j < |joined| ensures joined[i].timestamp < joined[j].timestamp {
      if i < |first| <= j {
        assert joined[i] in first && joined[j] in second;
      }
    }
  }

  /** Adding later files, in whatever order they are listed, only extends the sorted list. */
  lemma LaterFilesExtend(files: seq<MigrationFile>, more: seq<MigrationFile>, all: seq<MigrationFile>)
    requires multiset(all) == multiset(files) + multiset(more)
    requires Distinct(Sort(files)) && Distinct(Sort(more))
    requires forall x <- files, y <- more :: x.timestamp < y.timestamp
    ensures Sort(all) == Sort(files) + Sort(more)
  {
    hide Sort;
    var first, second := Sort(files), Sort(more);
    forall x, y | x in first && y in second ensures x.timestamp < y.timestamp {
      assert x in multiset(first) && y in multiset(second);
      assert x in files && y in more;
    }
    JoinedInOrder(first, second);
    SortedOrderIsUnique(first + second, Sort(all));
  }

  function ReadAll(entries: seq<Entry>): Option<seq<MigrationFile>> {
    if entries == [] then Some([])
    else
      var last := |entries| - 1;
      match (ReadAll(entries[..last]), ReadEntry(entries[last]))
      case (Some(files), Some(f)) => Some(files + [f])
      case _ => None
  }

  /** What a scan finds: every entry readable, sorted by timestamp, or nothing at all. */
  function Scanned(entries: seq<Entry>): Option<seq<MigrationFile>> {
    match ReadAll(entries)
    case Some(files) => Some(Sort(files))
    case None => None
  }

  lemma {:induction false} UnreadableEntry(entries: seq<Entry>, i: nat)
    requires i < |entries| && ReadEntry(entries[i]).None?
    ensures ReadAll(entries).None?
    decreases |entries|
  {
    if i < |entries| - 1 {
      UnreadableEntry(entries[..|entries| - 1], i);
    }
  }

  /** `missing` says that the directory does not exist. */
  method ScanMigrationFiles(entries: seq<Entry>, missing: bool) returns (files: Option<seq<MigrationFile>>)
    ensures files == if missing then None else Scanned(entries)
  {
    if missing {
      return None;
    }
    var out: seq<MigrationFile> := [];
    for i := 0 to |entries|
      invariant ReadAll(entries[..i]) == Some(out)
    {
      var f := ReadEntry(entries[i]);
      if f.None? {
        UnreadableEntry(entries, i);
        return None;
      }
      assert entries[..i + 1][..i] == entries[..i];
      out := out + [f.value];
    }
    assert entries[..|entries|] == entries;
    files := Some(Sort(out));
  }

  // The commands of a file.

  predicate IsSpace(c: char) {
    c in {' ', '\t', '\n', '\r', '\U{0B}', '\U{0C}'}
  }

  function TrimAll(pieces: seq<string>): (out: seq<string>)
    ensures |out| == |pieces|
  {
    seq(|pieces|, i requires 0 <= i < |pieces| => Trim(pieces[i], IsSpace))
  }

  /** std::views::split yields no part at all for an empty text. */
  function SplitAndTrim(content: string): seq<string> {
    if content == "" then [] else TrimAll(Split(content, ';'))
  }

  lemma JoinIsEmptyIff(commands: seq<string>)
    ensures Join(commands, ';') == "" <==> commands == [] || commands == [""]
  {
    if |commands| > 1 {
      assert Join(commands, ';')[|commands[0]|] == ';';
    }
  }

  /**
   A list of commands is read back exactly when they are trimmed and hold no semicolon,
   and it is not the one empty command, of which an empty file leaves nothing.
   */
  lemma CommandsRoundTripIff(commands: seq<string>)
    ensures SplitAndTrim(Join(commands, ';')) == commands <==>
              commands != [""] && forall c <- commands :: ';' !in c && Trimmed(c, IsSpace)
  {
    hide Trim, Trimmed;
    JoinIsEmptyIff(commands);
    if Join(commands, ';') != "" {
      PartsRoundTripIff(commands);
    }
  }

  lemma PartsRoundTripIff(commands: seq<string>)
    requires commands != []
    ensures TrimAll(Split(Join(commands, ';'), ';')) == commands <==>
              forall c <- commands :: ';' !in c && Trimmed(c, IsSpace)
  {
    hide Trim, Trimmed;
    var pieces := Split(Join(commands, ';'), ';');
    SplitHasNoSeparator(Join(commands, ';'), ';');
    SplitUndoesJoinIff(commands, ';');
    if TrimAll(pieces) == commands {
      forall i | 0 <= i < |commands| ensures ';' !in commands[i] && Trimmed(commands[i], IsSpace) {
        assert commands[i] == Trim(pieces[i], IsSpace) && pieces[i] in pieces;
        var from, to := TrimIff(pieces[i], IsSpace);
      }
    }
    if forall c <- commands :: ';' !in c && Trimmed(c, IsSpace) {
      forall i | 0 <= i < |commands| ensures Trim(commands[i], IsSpace) == commands[i] {
        assert commands[i] in commands;
        var from, to := TrimIff(commands[i], IsSpace);
      }
    }
  }
}
