/** Release files as text: header fields and three tables of digests, merged back into one entry per file. */
module ReleaseCodec {
  import opened Text
  import opened Numbers
  import opened Control
  import opened Dependencies
  import opened DependencyStability
  import opened Documents
  import opened Manifests
  import opened Publication
  import opened Layout
  import opened Agreement

  // ------------------------------------------------------------------------ printing

  datatype Table = Md5 | Sha1 | Sha256

  function Heading(t: Table): string
  {
    match t case Md5 => "MD5Sum" case Sha1 => "SHA1" case Sha256 => "SHA256"
  }

  function Digest(t: Table, f: FileHashes): string
  {
    match t case Md5 => f.md5 case Sha1 => f.sha1 case Sha256 => f.sha256
  }

  function Spaces(n: int): (s: string)
    ensures |s| == if n > 0 then n else 0
    ensures forall i :: 0 <= i < |s| ==> s[i] == ' '
  {
    if n <= 0 then "" else " " + Spaces(n - 1)
  }

  /** The %16d verb. */
  function Padded(n: int): string
  {
    Spaces(16 - |Itoa(n)|) + Itoa(n)
  }

  function TableLine(t: Table, name: string, f: FileHashes): string
  {
    " " + Digest(t, f) + " " + Padded(f.size) + " " + name
  }

  function TableLines(t: Table, names: seq<string>, files: map<string, FileHashes>): (lines: seq<string>)
    requires forall n <- names :: n in files
    ensures |lines| == |names|
  {
    if names == [] then [] else [TableLine(t, names[0], files[names[0]])] + TableLines(t, names[1..], files)
  }

  function Section(t: Table, names: seq<string>, files: map<string, FileHashes>): seq<string>
    requires forall n <- names :: n in files
  {
    [Heading(t) + ":"] + TableLines(t, names, files)
  }

  function HeaderFields(r: ReleaseState, date: string): seq<Field>
  {
    (if r.origin.Some? then [Field("Origin", r.origin.value)] else []) +
    [Field("Codename", r.codename), Field("Date", date), Field("Architectures", Join(r.architectures, " ")),
     Field("Components", Join(r.components, " ")), Field("Suite", if r.suite.Some? then r.suite.value else "")] +
    (if r.byHash then [Field("Acquire-By-Hash", "yes")] else [])
  }

  /** All digest lines, for the files in the order they are listed. */
  function AllSections(r: ReleaseState, names: seq<string>): seq<string>
    requires forall n <- names :: n in r.files
  {
    Section(Md5, names, r.files) + Section(Sha1, names, r.files) + Section(Sha256, names, r.files)
  }

  function RenderRelease(r: ReleaseState, date: string, names: seq<string>): string
    requires forall n <- names :: n in r.files
  {
    FieldsText(HeaderFields(r, date)) + Unlines(AllSections(r, names))
  }

  // ------------------------------------------------------------------------- reading

  /** The rest of the first line that starts with a field name. */
  function ReleaseField(lines: seq<string>, name: string): Option<string>
  {
    if lines == [] then None
    else if HasPrefix(lines[0], name + ": ") then Some(TrimPrefix(lines[0], name + ": "))
    else ReleaseField(lines[1..], name)
  }

  function FileAt(files: map<string, FileHashes>, name: string): FileHashes
  {
    if name in files then files[name] else FileHashes(0, "", "", "")
  }

  function WithDigest(f: FileHashes, digest: string): Option<FileHashes>
  {
    if |digest| == 32 then Some(f.(md5 := digest))
    else if |digest| == 40 then Some(f.(sha1 := digest))
    else if |digest| == 64 then Some(f.(sha256 := digest))
    else None
  }

  /** One line: an indented one with a digest, a size and a name updates the file's entry. */
  function ReadFileLine(files: map<string, FileHashes>, line: string): map<string, FileHashes>
  {
    if line == "" || (line[0] != ' ' && line[0] != '\t') then files
    else
      var words := Words(line);
      if |words| != 3 then files
      else
        var (size, exact) := ParseInt64(words[1]);
        if !exact || size < 0 then files
        else
          match WithDigest(FileAt(files, words[2]).(size := size), words[0])
          case None => files
          case Some(f) => files[words[2] := f]
  }

  function ReadFileLines(files: map<string, FileHashes>, lines: seq<string>): map<string, FileHashes>
    decreases |lines|
  {
    if lines == [] then files else ReadFileLines(ReadFileLine(files, lines[0]), lines[1..])
  }

  function LowerText(s: string): string
  {
    LowerAll(s)
  }

  function ParseReleaseLines(lines: seq<string>): ReleaseState
  {
    var codename := ReleaseField(lines, "Codename");
    var byHash := ReleaseField(lines, "Acquire-By-Hash");
    var architectures := ReleaseField(lines, "Architectures");
    var components := ReleaseField(lines, "Components");
    ReleaseState(
      if codename.Some? then codename.value else "",
      ReleaseField(lines, "Origin"),
      ReleaseField(lines, "Suite"),
      if architectures.Some? then Words(architectures.value) else [],
      if components.Some? then Words(components.value) else [],
      byHash.Some? && LowerText(TrimSpace(byHash.value)) == "yes",
      ReadFileLines(map[], lines))
  }

  function ParseRelease(input: string): ReleaseState
  {
    ParseReleaseLines(Split(NormalizeNewlines(input), '\n'))
  }

  // ------------------------------------------------------------------ what is printable

  /** A digest of its usual length, or none. */
  ghost predicate UsualDigest(digest: string, length: nat)
  {
    digest == "" || (Word(digest) && |digest| == length)
  }

  /** A file entry with at least one digest. */
  ghost predicate PrintableFile(name: string, f: FileHashes)
  {
    && Word(name) && f.size <= MAX_INT64
    && UsualDigest(f.md5, 32) && UsualDigest(f.sha1, 40) && UsualDigest(f.sha256, 64)
    && (f.md5 != "" || f.sha1 != "" || f.sha256 != "")
  }

  /** A Release whose text holds all of it: single-line headers, unbroken tokens, digests of the usual lengths. */
  ghost predicate PrintableRelease(r: ReleaseState, date: string)
  {
    && SingleLine(r.codename) && SingleLine(date)
    && (r.origin.Some? ==> SingleLine(r.origin.value)) && (r.suite.Some? ==> SingleLine(r.suite.value))
    && AllWords(r.architectures) && AllWords(r.components)
    && forall n :: n in r.files ==> PrintableFile(n, r.files[n])
  }

  ghost predicate ListsFiles(names: seq<string>, files: map<string, FileHashes>)
  {
    forall n :: n in names <==> n in files
  }

  // ------------------------------------------------------------------------- headers

  ghost predicate SingleLines(fields: seq<Field>)
  {
    forall i :: 0 <= i < |fields| ==> ValidName(fields[i].name) && SingleLine(fields[i].value)
  }

  lemma HeaderLine(field: Field)
    requires SingleLine(field.value)
    ensures FieldLines(field) == [field.name + ": " + field.value]
  {
    SplitWhole(field.value, '\n');
    if field.value == "" {
      assert field.name + ": " + "" == field.name + ": ";
    } else {
      assert DropEmptyTail([field.value]) == [field.value];
      assert FoldLines([field.value][1..]) == [];
    }
  }

  function HeaderLines(fields: seq<Field>): (lines: seq<string>)
    ensures |lines| == |fields|
  {
    if fields == [] then [] else [fields[0].name + ": " + fields[0].value] + HeaderLines(fields[1..])
  }

  lemma {:induction false} HeaderText(fields: seq<Field>)
    requires SingleLines(fields)
    ensures FieldsLines(fields) == HeaderLines(fields)
  {
    if fields != [] {
      HeaderLine(fields[0]);
      HeaderText(fields[1..]);
    }
  }

  /** A line is matched by the name in front of its first colon only. */
  lemma SameHeader(a: string, rest: string, b: string)
    requires ':' !in a && ':' !in b && HasPrefix(a + ":" + rest, b + ": ")
    ensures a == b
  {
    var line := a + ":" + rest;
    assert line == a + [':'] + rest;
    IndexOfFirst(a, ':', rest);
    var tail := line[|b| + 1..];
    assert line[..|b| + 1] == (b + ": ")[..|b| + 1] == b + [':'];
    assert line == b + [':'] + tail;
    IndexOfFirst(b, ':', tail);
    assert line[..|a|] == a && line[..|b|] == b;
  }

  lemma OtherHeader(a: string, rest: string, b: string)
    requires ':' !in a && ':' !in b && a != b
    ensures !HasPrefix(a + ":" + rest, b + ": ")
  {
    if HasPrefix(a + ":" + rest, b + ": ") { SameHeader(a, rest, b); }
  }

  ghost predicate NoneStarts(lines: seq<string>, name: string)
  {
    forall i :: 0 <= i < |lines| ==> !HasPrefix(lines[i], name + ": ")
  }

  lemma {:induction false} NoField(lines: seq<string>, name: string)
    requires NoneStarts(lines, name)
    ensures ReleaseField(lines, name) == None
  {
    if lines != [] { NoField(lines[1..], name); }
  }

  /** A header field is read by its name; the lines after the headers do not matter. */
  lemma {:induction false} HeaderLookup(fields: seq<Field>, back: seq<string>, name: string)
    requires SingleLines(fields) && ValidName(name) && NoneStarts(back, name)
    ensures ReleaseField(HeaderLines(fields) + back, name) == Lookup(fields, name)
  {
    var lines := HeaderLines(fields) + back;
    if fields == [] {
      assert lines == back;
      NoField(back, name);
    } else {
      var line := fields[0].name + ": " + fields[0].value;
      assert lines[0] == line && lines[1..] == HeaderLines(fields[1..]) + back;
      HeaderLookup(fields[1..], back, name);
      if fields[0].name == name {
        assert line[..|name + ": "|] == name + ": " && TrimPrefix(line, name + ": ") == fields[0].value;
      } else {
        assert line == fields[0].name + ":" + (" " + fields[0].value) by { assert ": " == ":" + " "; }
        OtherHeader(fields[0].name, " " + fields[0].value, name);
      }
    }
  }

  // -------------------------------------------------------------------------- tokens

  lemma {:induction false} WordsOfJoin(ws: seq<string>)
    requires AllWords(ws)
    ensures Words(Join(ws, " ")) == ws
  {
    if |ws| == 0 {
      assert TrimLeft("") == "";
    } else if |ws| == 1 {
      WordsOfWord(ws[0]);
    } else {
      WordsOfJoin(ws[1..]);
      var rest := Join(ws[1..], " ");
      assert Join(ws, " ") == ws[0] + [' '] + rest by { assert " " == [' ']; }
      WordsAcross(ws[0], ' ', rest);
      WordsOfWord(ws[0]);
    }
  }

  lemma {:induction false} JoinSingleLine(ws: seq<string>)
    requires AllWords(ws)
    ensures SingleLine(Join(ws, " "))
  {
    assert Free(ws, '\n') && Free(ws, '\r') by {
      forall i | 0 <= i < |ws| ensures '\n' !in ws[i] && '\r' !in ws[i] { assert Word(ws[i]); }
    }
    JoinFree(ws, " ", '\n');
    JoinFree(ws, " ", '\r');
  }

  lemma {:induction false} WordsAfterSpaces(n: int, s: string)
    ensures Words(Spaces(n) + s) == Words(s)
  {
    if n <= 0 {
      assert Spaces(n) + s == s;
    } else {
      assert (Spaces(n) + s)[1..] == Spaces(n - 1) + s;
      WordsAfterSpaces(n - 1, s);
      assert TrimLeft(Spaces(n) + s) == TrimLeft(Spaces(n - 1) + s);
    }
  }

  lemma {:induction false} DigitsWord(n: nat)
    ensures Word(Digits(n)) && AllDigits(Digits(n))
  {
    DigitsRoundTrip(n);
    forall i | 0 <= i < |Digits(n)| ensures !IsSpace(Digits(n)[i]) { assert IsDigit(Digits(n)[i]); }
  }

  lemma TailWords(size: string, padding: int, name: string)
    requires Word(size) && Word(name)
    ensures Words(Spaces(padding) + size + " " + name) == [size, name]
  {
    assert Spaces(padding) + size + " " + name == Spaces(padding) + (size + [' '] + name) by { assert " " == [' ']; }
    WordsAfterSpaces(padding, size + [' '] + name);
    WordsAcross(size, ' ', name);
    WordsOfWord(size);
    WordsOfWord(name);
  }

  lemma FrontWords(digest: string, tail: string, rest: seq<string>)
    requires Word(digest) && Words(tail) == rest
    ensures Words("" + [' '] + (digest + [' '] + tail)) == [digest] + rest
  {
    WordsAcross("", ' ', digest + [' '] + tail);
    WordsAcross(digest, ' ', tail);
    WordsOfWord(digest);
    assert Words("") == [];
  }

  lemma SizeAndName(f: FileHashes, name: string)
    requires Word(name)
    ensures Words(Padded(f.size) + " " + name) == [Itoa(f.size), name]
  {
    DigitsWord(f.size);
    TailWords(Itoa(f.size), 16 - |Itoa(f.size)|, name);
  }

  /** The words of a digest line; without a digest there are only two. */
  lemma LineWords(t: Table, name: string, f: FileHashes)
    requires PrintableFile(name, f)
    ensures Words(TableLine(t, name, f)) == (if Digest(t, f) == "" then [] else [Digest(t, f)]) + [Itoa(f.size), name]
  {
    var digest, tail := Digest(t, f), Padded(f.size) + " " + name;
    SizeAndName(f, name);
    LineText(digest, Padded(f.size), name);
    if digest == "" {
      assert "" + [' '] + ("" + [' '] + tail) == "" + [' '] + ([' '] + tail) && [' '] + tail == "" + [' '] + tail;
      WordsAcross("", ' ', "" + [' '] + tail);
      WordsAcross("", ' ', tail);
      assert Words("") == [];
    } else {
      FrontWords(digest, tail, [Itoa(f.size), name]);
    }
  }

  lemma LineText(digest: string, padded: string, name: string)
    ensures " " + digest + " " + padded + " " + name == "" + [' '] + (digest + [' '] + (padded + " " + name))
  {
    assert " " == [' '];
  }

  // -------------------------------------------------------------------------- tables

  function Recorded(t: Table, before: FileHashes, f: FileHashes): FileHashes
  {
    match t
    case Md5 => before.(size := f.size, md5 := f.md5)
    case Sha1 => before.(size := f.size, sha1 := f.sha1)
    case Sha256 => before.(size := f.size, sha256 := f.sha256)
  }

  /** What one line of a table leaves. */
  function AfterLine(t: Table, files: map<string, FileHashes>, name: string, f: FileHashes): map<string, FileHashes>
  {
    if Digest(t, f) == "" then files else files[name := Recorded(t, FileAt(files, name), f)]
  }

  lemma ReadTableLine(t: Table, name: string, f: FileHashes, files: map<string, FileHashes>)
    requires PrintableFile(name, f)
    ensures ReadFileLine(files, TableLine(t, name, f)) == AfterLine(t, files, name, f)
  {
    LineWords(t, name, f);
    ItoaRoundTrip(f.size);
    var line := TableLine(t, name, f);
    assert line[0] == ' ';
  }

  ghost predicate PrintableFiles(files: map<string, FileHashes>)
  {
    forall n :: n in files ==> PrintableFile(n, files[n])
  }

  /** Whether a table lists a name with its digest. */
  predicate Lists(t: Table, names: seq<string>, files: map<string, FileHashes>, n: string)
  {
    n in names && n in files && Digest(t, files[n]) != ""
  }

  /** What a table leaves for one name, whether it is listed once or more often. */
  lemma {:induction false} ReadTable(t: Table, names: seq<string>, files: map<string, FileHashes>, before: map<string, FileHashes>, n: string)
    requires (forall m <- names :: m in files) && PrintableFiles(files)
    ensures var after := ReadFileLines(before, TableLines(t, names, files));
            && (n in after <==> n in before || Lists(t, names, files, n))
            && FileAt(after, n) == if n in names && n in files then Taken(t, FileAt(before, n), files[n]) else FileAt(before, n)
    decreases |names|
  {
    if names != [] {
      var name := names[0];
      assert name in names && PrintableFile(name, files[name]);
      ReadTableLine(t, name, files[name], before);
      forall m | m in names[1..] ensures m in files { assert m in names; }
      ReadTable(t, names[1..], files, AfterLine(t, before, name, files[name]), n);
      assert n in names <==> n == name || n in names[1..];
    }
  }

  lemma {:induction false} ReadLinesAfter(files: map<string, FileHashes>, a: seq<string>, b: seq<string>)
    ensures ReadFileLines(files, a + b) == ReadFileLines(ReadFileLines(files, a), b)
    decreases |a|
  {
    if a == [] {
      assert a + b == b;
    } else {
      assert (a + b)[1..] == a[1..] + b;
      ReadLinesAfter(ReadFileLine(files, a[0]), a[1..], b);
    }
  }

  /** Lines that start with a letter list no files. */
  ghost predicate Plainly(lines: seq<string>)
  {
    forall i :: 0 <= i < |lines| ==> lines[i] == "" || (lines[i][0] != ' ' && lines[i][0] != '\t')
  }

  lemma {:induction false} PlainLinesIgnored(files: map<string, FileHashes>, lines: seq<string>)
    requires Plainly(lines)
    ensures ReadFileLines(files, lines) == files
  {
    if lines != [] { PlainLinesIgnored(files, lines[1..]); }
  }

  lemma ReadThree(a: seq<string>, b: seq<string>, c: seq<string>)
    ensures ReadFileLines(map[], a + b + c) == ReadFileLines(ReadFileLines(ReadFileLines(map[], a), b), c)
  {
    ReadLinesAfter(map[], a + b, c);
    ReadLinesAfter(map[], a, b);
  }

  /** The three tables merge back into the entries they were printed from. */
  lemma SectionsMerge(r: ReleaseState, names: seq<string>)
    requires PrintableFiles(r.files) && ListsFiles(names, r.files)
    ensures ReadFileLines(map[], AllSections(r, names)) == r.files
  {
    var files := r.files;
    var one := ReadFileLines(map[], TableLines(Md5, names, files));
    var two := ReadFileLines(one, TableLines(Sha1, names, files));
    ReadThree(Section(Md5, names, files), Section(Sha1, names, files), Section(Sha256, names, files));
    TablesMerge(names, files, one, two);
  }

  lemma TablesMerge(names: seq<string>, files: map<string, FileHashes>, one: map<string, FileHashes>, two: map<string, FileHashes>)
    requires PrintableFiles(files) && ListsFiles(names, files)
    requires one == ReadFileLines(map[], TableLines(Md5, names, files)) && two == ReadFileLines(one, TableLines(Sha1, names, files))
    ensures ReadFileLines(two, TableLines(Sha256, names, files)) == files
  {
    var three := ReadFileLines(two, TableLines(Sha256, names, files));
    forall n ensures (n in three <==> n in files) && (n in files ==> FileAt(three, n) == files[n]) {
      ReadTable(Md5, names, files, map[], n);
      ReadTable(Sha1, names, files, one, n);
      ReadTable(Sha256, names, files, two, n);
      if n in files { MergedFile(n, files[n]); }
    }
    assert three == files;
  }

  /** What one of the tables makes of an entry. */
  function Taken(t: Table, before: FileHashes, f: FileHashes): FileHashes
  {
    if Digest(t, f) == "" then before else Recorded(t, before, f)
  }

  lemma MergedFile(name: string, f: FileHashes)
    requires PrintableFile(name, f)
    ensures Taken(Sha256, Taken(Sha1, Taken(Md5, FileHashes(0, "", "", ""), f), f), f) == f
  {
  }

  // ---------------------------------------------------------------------- round trip

  lemma {:induction false} TableLinesAt(t: Table, names: seq<string>, files: map<string, FileHashes>, i: nat)
    requires (forall n <- names :: n in files) && i < |names|
    ensures names[i] in files && TableLines(t, names, files)[i] == TableLine(t, names[i], files[names[i]])
  {
    assert names[i] in names;
    if i > 0 { TableLinesAt(t, names[1..], files, i - 1); }
  }

  /** No line of the tables reads as a header field. */
  lemma SectionStarts(t: Table, names: seq<string>, files: map<string, FileHashes>, name: string)
    requires (forall n <- names :: n in files) && ValidName(name) && name != Heading(t)
    ensures NoneStarts(Section(t, names, files), name)
  {
    var lines := Section(t, names, files);
    forall i | 0 <= i < |lines| ensures !HasPrefix(lines[i], name + ": ") {
      if i == 0 {
        OtherHeader(Heading(t), "", name);
        assert Heading(t) + ":" + "" == Heading(t) + ":";
      } else {
        TableLinesAt(t, names, files, i - 1);
        assert lines[i][0] == ' ' && (name + ": ")[0] == name[0] && NameChar(name[0]);
      }
    }
  }

  lemma SectionsStart(r: ReleaseState, names: seq<string>, name: string)
    requires (forall n <- names :: n in r.files) && ValidName(name) && name !in {"MD5Sum", "SHA1", "SHA256"}
    ensures NoneStarts(AllSections(r, names) + [""], name)
  {
    SectionStarts(Md5, names, r.files, name);
    SectionStarts(Sha1, names, r.files, name);
    SectionStarts(Sha256, names, r.files, name);
  }

  lemma HeaderNames()
    ensures ValidName("Origin") && ValidName("Codename") && ValidName("Date") && ValidName("Architectures")
    ensures ValidName("Components") && ValidName("Suite") && ValidName("Acquire-By-Hash")
  {
  }

  /** The fields every Release has. */
  function FixedFields(r: ReleaseState, date: string): seq<Field>
  {
    [Field("Codename", r.codename), Field("Date", date), Field("Architectures", Join(r.architectures, " ")),
     Field("Components", Join(r.components, " ")), Field("Suite", if r.suite.Some? then r.suite.value else "")]
  }

  lemma FixedSingle(r: ReleaseState, date: string)
    requires PrintableRelease(r, date)
    ensures SingleLines(FixedFields(r, date))
  {
    HeaderNames();
    JoinSingleLine(r.architectures);
    JoinSingleLine(r.components);
  }

  lemma HeadersSingle(r: ReleaseState, date: string)
    requires PrintableRelease(r, date)
    ensures SingleLines(HeaderFields(r, date))
  {
    HeaderNames();
    FixedSingle(r, date);
    var front := if r.origin.Some? then [Field("Origin", r.origin.value)] else [];
    var back := if r.byHash then [Field("Acquire-By-Hash", "yes")] else [];
  }

  lemma OptionalOrigin(r: ReleaseState, date: string, name: string)
    requires name != "Origin"
    ensures Lookup(HeaderFields(r, date), name) ==
            Lookup(FixedFields(r, date) + (if r.byHash then [Field("Acquire-By-Hash", "yes")] else []), name)
  {
    var rest := FixedFields(r, date) + (if r.byHash then [Field("Acquire-By-Hash", "yes")] else []);
    if r.origin.Some? {
      assert HeaderFields(r, date) == [Field("Origin", r.origin.value)] + rest;
      assert HeaderFields(r, date)[1..] == rest;
      assert Find(HeaderFields(r, date), name) == 1 + Find(rest, name);
    } else {
      assert HeaderFields(r, date) == rest;
    }
  }

  /** What each header field of a printed Release reads as. */
  lemma OriginValue(r: ReleaseState, date: string)
    ensures Lookup(HeaderFields(r, date), "Origin") == r.origin
  {
    if r.origin.Some? { FindFirst(HeaderFields(r, date), 0); } else { FindAbsent(HeaderFields(r, date), "Origin"); }
  }

  lemma ByHashValue(r: ReleaseState, date: string)
    ensures Lookup(HeaderFields(r, date), "Acquire-By-Hash") == if r.byHash then Some("yes") else None
  {
    OptionalOrigin(r, date, "Acquire-By-Hash");
    if r.byHash { FindFirst(FixedFields(r, date) + [Field("Acquire-By-Hash", "yes")], 5); }
    else { FindAbsent(FixedFields(r, date) + [], "Acquire-By-Hash"); }
  }

  lemma FixedValue(r: ReleaseState, date: string, i: nat)
    requires i < 5
    ensures Lookup(HeaderFields(r, date), FixedFields(r, date)[i].name) == Some(FixedFields(r, date)[i].value)
  {
    var rest := FixedFields(r, date) + (if r.byHash then [Field("Acquire-By-Hash", "yes")] else []);
    OptionalOrigin(r, date, FixedFields(r, date)[i].name);
    FindFirst(rest, i);
  }

  lemma {:induction false} HeadersPlain(fields: seq<Field>)
    requires SingleLines(fields)
    ensures Plainly(HeaderLines(fields))
  {
    if fields != [] {
      HeadersPlain(fields[1..]);
      assert NameChar(fields[0].name[0]);
    }
  }

  lemma {:induction false} HeadersFree(fields: seq<Field>, c: char)
    requires SingleLines(fields) && c in {'\n', '\r'}
    ensures Free(HeaderLines(fields), c)
  {
    if fields != [] {
      HeadersFree(fields[1..], c);
    }
  }

  lemma TableLineFree(t: Table, name: string, f: FileHashes, c: char)
    requires PrintableFile(name, f) && IsSpace(c) && c != ' '
    ensures c !in TableLine(t, name, f)
  {
    DigitsWord(f.size);
    assert Digest(t, f) == "" || Word(Digest(t, f));
  }

  lemma {:induction false} SectionFree(t: Table, names: seq<string>, files: map<string, FileHashes>, c: char)
    requires (forall n <- names :: n in files) && PrintableFiles(files) && IsSpace(c) && c != ' '
    ensures Free(Section(t, names, files), c)
  {
    var lines := Section(t, names, files);
    forall i | 0 <= i < |lines| ensures c !in lines[i] {
      if i > 0 {
        TableLinesAt(t, names, files, i - 1);
        TableLineFree(t, names[i - 1], files[names[i - 1]], c);
      }
    }
  }

  /** The lines of a printed Release. */
  lemma TextLinesOf(r: ReleaseState, date: string, names: seq<string>)
    requires PrintableRelease(r, date) && forall n <- names :: n in r.files
    ensures Split(NormalizeNewlines(RenderRelease(r, date, names)), '\n') ==
            HeaderLines(HeaderFields(r, date)) + (AllSections(r, names) + [""])
  {
    var headers, tables := HeaderLines(HeaderFields(r, date)), AllSections(r, names);
    HeadersSingle(r, date);
    HeaderText(HeaderFields(r, date));
    UnlinesConcat(headers, tables);
    AllFree(r, date, names, '\n');
    AllFree(r, date, names, '\r');
    UnlinesFree(headers + tables, '\r');
    NoReturnsNormalized(Unlines(headers + tables));
    SplitUnlines(headers + tables);
    assert headers + tables + [""] == headers + (tables + [""]);
  }

  lemma AllFree(r: ReleaseState, date: string, names: seq<string>, c: char)
    requires PrintableRelease(r, date) && (forall n <- names :: n in r.files) && c in {'\n', '\r'}
    ensures Free(HeaderLines(HeaderFields(r, date)) + AllSections(r, names), c)
  {
    HeadersSingle(r, date);
    HeadersFree(HeaderFields(r, date), c);
    SectionFree(Md5, names, r.files, c);
    SectionFree(Sha1, names, r.files, c);
    SectionFree(Sha256, names, r.files, c);
  }

  lemma FieldOf(r: ReleaseState, date: string, names: seq<string>, name: string)
    requires PrintableRelease(r, date) && (forall n <- names :: n in r.files)
    requires ValidName(name) && name !in {"MD5Sum", "SHA1", "SHA256"}
    ensures ReleaseField(HeaderLines(HeaderFields(r, date)) + (AllSections(r, names) + [""]), name) == Lookup(HeaderFields(r, date), name)
  {
    HeadersSingle(r, date);
    SectionsStart(r, names, name);
    HeaderLookup(HeaderFields(r, date), AllSections(r, names) + [""], name);
  }

  lemma FilesOf(r: ReleaseState, date: string, names: seq<string>)
    requires PrintableRelease(r, date) && ListsFiles(names, r.files)
    ensures ReadFileLines(map[], HeaderLines(HeaderFields(r, date)) + (AllSections(r, names) + [""])) == r.files
  {
    var headers := HeaderLines(HeaderFields(r, date));
    HeadersSingle(r, date);
    HeadersPlain(HeaderFields(r, date));
    PlainLinesIgnored(map[], headers);
    ReadLinesAfter(map[], headers, AllSections(r, names) + [""]);
    ReadLinesAfter(map[], AllSections(r, names), [""]);
    SectionsMerge(r, names);
    PlainLinesIgnored(r.files, [""]);
  }

  /** The header fields of a printed Release, as its lines are read. */
  lemma FieldsOf(r: ReleaseState, date: string, names: seq<string>, lines: seq<string>)
    requires PrintableRelease(r, date) && forall n <- names :: n in r.files
    requires lines == HeaderLines(HeaderFields(r, date)) + (AllSections(r, names) + [""])
    ensures ReleaseField(lines, "Origin") == r.origin && ReleaseField(lines, "Codename") == Some(r.codename)
    ensures ReleaseField(lines, "Architectures") == Some(Join(r.architectures, " "))
    ensures ReleaseField(lines, "Components") == Some(Join(r.components, " "))
    ensures ReleaseField(lines, "Suite") == Some(if r.suite.Some? then r.suite.value else "")
    ensures ReleaseField(lines, "Acquire-By-Hash") == if r.byHash then Some("yes") else None
  {
    HeaderNames();
    OriginValue(r, date);
    ByHashValue(r, date);
    FixedValue(r, date, 0);
    FixedValue(r, date, 2);
    FixedValue(r, date, 3);
    FixedValue(r, date, 4);
    FieldOf(r, date, names, "Origin");
    FieldOf(r, date, names, "Codename");
    FieldOf(r, date, names, "Architectures");
    FieldOf(r, date, names, "Components");
    FieldOf(r, date, names, "Suite");
    FieldOf(r, date, names, "Acquire-By-Hash");
  }

  lemma LinesParse(lines: seq<string>, r: ReleaseState)
    requires AllWords(r.architectures) && AllWords(r.components)
    requires ReleaseField(lines, "Origin") == r.origin && ReleaseField(lines, "Codename") == Some(r.codename)
    requires ReleaseField(lines, "Architectures") == Some(Join(r.architectures, " "))
    requires ReleaseField(lines, "Components") == Some(Join(r.components, " "))
    requires ReleaseField(lines, "Suite") == Some(if r.suite.Some? then r.suite.value else "")
    requires ReleaseField(lines, "Acquire-By-Hash") == if r.byHash then Some("yes") else None
    requires ReadFileLines(map[], lines) == r.files
    ensures ParseReleaseLines(lines) == RereadRelease(r)
  {
    WordsOfJoin(r.architectures);
    WordsOfJoin(r.components);
  }

  /**
   Parsing a printed Release gives back everything in it, whatever order its files are
   listed in; an absent suite comes back empty.
   */
  lemma ReleaseRoundTrip(r: ReleaseState, date: string, names: seq<string>)
    requires PrintableRelease(r, date) && ListsFiles(names, r.files)
    ensures ParseRelease(RenderRelease(r, date, names)) == RereadRelease(r)
  {
    var lines := HeaderLines(HeaderFields(r, date)) + (AllSections(r, names) + [""]);
    TextLinesOf(r, date, names);
    FieldsOf(r, date, names, lines);
    FilesOf(r, date, names);
    LinesParse(lines, r);
  }

  // ------------------------------------------------------------------ what was parsed

  lemma FileLinePrintable(files: map<string, FileHashes>, line: string)
    requires PrintableFiles(files)
    ensures PrintableFiles(ReadFileLine(files, line))
  {
    var words := Words(line);
    WordsAreWords(line);
    if |words| == 3 {
      var (size, exact) := ParseInt64(words[1]);
      assert Word(words[0]) && Word(words[2]);
      var f := FileAt(files, words[2]);
      assert UsualDigest(f.md5, 32) && UsualDigest(f.sha1, 40) && UsualDigest(f.sha256, 64) by {
        if words[2] in files { assert PrintableFile(words[2], files[words[2]]); }
      }
    }
  }

  lemma {:induction false} FileLinesPrintable(files: map<string, FileHashes>, lines: seq<string>)
    requires PrintableFiles(files)
    ensures PrintableFiles(ReadFileLines(files, lines))
    decreases |lines|
  {
    if lines != [] {
      FileLinePrintable(files, lines[0]);
      FileLinesPrintable(ReadFileLine(files, lines[0]), lines[1..]);
    }
  }

  lemma {:induction false} FieldFree(lines: seq<string>, name: string, c: char)
    requires Free(lines, c)
    ensures ReleaseField(lines, name).Some? ==> c !in ReleaseField(lines, name).value
  {
    if lines != [] {
      if !HasPrefix(lines[0], name + ": ") { FieldFree(lines[1..], name, c); }
    }
  }

  /** Whatever a Release text says, what is read of it can be printed. */
  lemma ParsedPrintable(input: string, date: string)
    requires '\r' !in NormalizeNewlines(input) && SingleLine(date)
    ensures PrintableRelease(ParseRelease(input), date)
  {
    var lines := Split(NormalizeNewlines(input), '\n');
    SplitFree(NormalizeNewlines(input), '\n');
    SplitChars(NormalizeNewlines(input), '\n', '\r');
    FieldsFree(lines);
    FileLinesPrintable(map[], lines);
    FieldWords(lines, "Architectures");
    FieldWords(lines, "Components");
  }

  lemma FieldWords(lines: seq<string>, name: string)
    ensures ReleaseField(lines, name).Some? ==> AllWords(Words(ReleaseField(lines, name).value))
  {
    if ReleaseField(lines, name).Some? { WordsAreWords(ReleaseField(lines, name).value); }
  }

  lemma FieldsFree(lines: seq<string>)
    requires Free(lines, '\n') && Free(lines, '\r')
    ensures var codename, origin, suite := ReleaseField(lines, "Codename"), ReleaseField(lines, "Origin"), ReleaseField(lines, "Suite");
            && (codename.Some? ==> SingleLine(codename.value)) && (origin.Some? ==> SingleLine(origin.value))
            && (suite.Some? ==> SingleLine(suite.value))
  {
    FieldSingle(lines, "Codename");
    FieldSingle(lines, "Origin");
    FieldSingle(lines, "Suite");
  }

  lemma FieldSingle(lines: seq<string>, name: string)
    requires Free(lines, '\n') && Free(lines, '\r')
    ensures ReleaseField(lines, name).Some? ==> SingleLine(ReleaseField(lines, name).value)
  {
    FieldFree(lines, name, '\n');
    FieldFree(lines, name, '\r');
  }

  /** Printing a Release that was read and reading it again gives the same Release, but for an absent suite. */
  lemma ReleaseStable(input: string, date: string, names: seq<string>)
    requires '\r' !in NormalizeNewlines(input) && SingleLine(date) && ListsFiles(names, ParseRelease(input).files)
    ensures ParseRelease(RenderRelease(ParseRelease(input), date, names)) == RereadRelease(ParseRelease(input))
  {
    ParsedPrintable(input, date);
    ReleaseRoundTrip(ParseRelease(input), date, names);
  }

  /** Size and digests as they are: digests of the usual lengths, a size that fits 64 bits. */
  ghost predicate UsualHashes(f: FileHashes)
  {
    PrintableFile("Packages", f)
  }

  /** The digests of these indices, plain and compressed, are of the usual lengths. */
  ghost predicate UsualIndices(ps: seq<Prepared>, h: Hasher)
  {
    forall i :: 0 <= i < |ps| ==> UsualHashes(h(ps[i].index)) && UsualHashes(h(Gzip(ps[i].index)))
  }

  /** A published Release lists files whose digests can be printed, if those it listed before can. */
  lemma {:induction false} ListedPrintable(files: map<string, FileHashes>, ps: seq<Prepared>, h: Hasher)
    requires UsualIndices(ps, h) && PrintableFiles(files) && GoodSlots(ps)
    ensures PrintableFiles(FilesAfter(files, ps, h))
  {
    if ps != [] {
      var front, last := ps[..|ps| - 1], ps[|ps| - 1];
      ListedPrintable(files, front, h);
      ListedWords(last.slot);
      assert UsualHashes(h(last.index)) && UsualHashes(h(Gzip(last.index)));
    }
  }

  lemma GoodPrintable(r: ReleaseState, date: string)
    requires GoodRelease(r) && PrintableFiles(r.files) && SingleLine(date)
    ensures PrintableRelease(r, date)
  {
    forall i | 0 <= i < |r.architectures| ensures Word(r.architectures[i]) { assert r.architectures[i] in r.architectures; }
    forall i | 0 <= i < |r.components| ensures Word(r.components[i]) { assert r.components[i] in r.components; }
  }

  lemma ClosedPrintable(r: ReleaseState, ms: seq<ManifestState>, h: Hasher)
    requires GoodRelease(r) && AllOffered(r, ms) && Closure(r, ms, h).Ok? && UsualIndices(Closure(r, ms, h).value.1, h)
    requires PrintableFiles(r.files)
    ensures GoodRelease(Closure(r, ms, h).value.0) && PrintableFiles(Closure(r, ms, h).value.0.files)
  {
    ClosureShape(r, ms, h);
    var (closed, ps) := Closure(r, ms, h).value;
    forall i | 0 <= i < |ps| ensures GoodSlot(ps[i].slot) { assert OfRelease(r, ps[i].slot); }
    ListedPrintable(r.files, ps, h);
  }

  /**
   The stored text of a Release that was published over a readable one reads as the
   Release the store's document holds.
   */
  lemma PublishedReleaseReadsBack(r: ReleaseState, ms: seq<ManifestState>, h: Hasher, date: string, names: seq<string>)
    requires GoodRelease(r) && AllOffered(r, ms) && Closure(r, ms, h).Ok?
    requires UsualIndices(Closure(r, ms, h).value.1, h) && PrintableFiles(r.files) && SingleLine(date)
    requires ListsFiles(names, Closure(r, ms, h).value.0.files)
    ensures var closed := Closure(r, ms, h).value.0;
            ParseRelease(RenderRelease(closed, date, names)) == RereadRelease(closed)
  {
    ClosedPrintable(r, ms, h);
    GoodPrintable(Closure(r, ms, h).value.0, date);
    ReleaseRoundTrip(Closure(r, ms, h).value.0, date, names);
  }

  // ------------------------------------------------------------------------- methods

  /** The rest of the first line that starts with a field name. */
  method FindField(lines: seq<string>, name: string) returns (value: Option<string>)
    ensures value == ReleaseField(lines, name)
  {
    assert lines[0..] == lines;
    for i := 0 to |lines|
      invariant ReleaseField(lines, name) == ReleaseField(lines[i..], name)
    {
      assert lines[i..][1..] == lines[i + 1..];
      if HasPrefix(lines[i], name + ": ") { return Some(TrimPrefix(lines[i], name + ": ")); }
    }
    value := None;
  }

  /** The listed files, one digest line after the other. */
  method ReadFiles(lines: seq<string>) returns (files: map<string, FileHashes>)
    ensures files == ReadFileLines(map[], lines)
  {
    files := map[];
    assert lines[0..] == lines;
    for i := 0 to |lines|
      invariant ReadFileLines(files, lines[i..]) == ReadFileLines(map[], lines)
    {
      assert lines[i..][1..] == lines[i + 1..];
      var line := lines[i];
      if line == "" || (line[0] != ' ' && line[0] != '\t') { continue; }
      var words := Words(line);
      if |words| != 3 { continue; }
      var (size, exact) := ParseInt64(words[1]);
      if !exact || size < 0 { continue; }
      var hashes := WithDigest(FileAt(files, words[2]).(size := size), words[0]);
      if hashes.None? { continue; }
      files := files[words[2] := hashes.value];
    }
  }

  method ReadRelease(input: string) returns (r: ReleaseState)
    ensures r == ParseRelease(input)
  {
    var lines := Split(NormalizeNewlines(input), '\n');
    var codename := FindField(lines, "Codename");
    var origin := FindField(lines, "Origin");
    var suite := FindField(lines, "Suite");
    var byHash := FindField(lines, "Acquire-By-Hash");
    var architectures := FindField(lines, "Architectures");
    var components := FindField(lines, "Components");
    var files := ReadFiles(lines);
    r := ReleaseState(if codename.Some? then codename.value else "", origin, suite,
                      if architectures.Some? then Words(architectures.value) else [],
                      if components.Some? then Words(components.value) else [],
                      byHash.Some? && LowerText(TrimSpace(byHash.value)) == "yes", files);
  }

  lemma LinesGrow(output: string, lines: seq<string>, k: nat, line: string)
    requires k < |lines| && lines[k] == line
    ensures output + Unlines(lines[..k + 1]) == output + Unlines(lines[..k]) + line + "\n"
  {
    UnlinesGrow(output, lines[..k], line);
    assert lines[..k] + [line] == lines[..k + 1];
  }

  /** Appends one table to the output. */
  method WriteTable(output: string, t: Table, names: seq<string>, files: map<string, FileHashes>) returns (text: string)
    requires forall n <- names :: n in files
    ensures text == output + Unlines(Section(t, names, files))
  {
    ghost var lines := Section(t, names, files);
    text := output + Heading(t) + ":\n";
    for i := 0 to |names|
      invariant text == output + Unlines(lines[..i + 1])
    {
      TableLinesAt(t, names, files, i);
      var line := TableLine(t, names[i], files[names[i]]);
      LinesGrow(output, lines, i + 1, line);
      text := text + line + "\n";
    }
    assert lines[..|names| + 1] == lines;
  }
}
