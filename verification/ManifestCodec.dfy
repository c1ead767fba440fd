/** A printed Packages index reads back record by record, and prints again as the same text. */
module ManifestCodec {
  import opened Text
  import opened Control
  import opened Versions
  import opened Dependencies
  import opened Packages
  import opened PackageCodec
  import opened EntryCodec
  import opened RecordStability
  import opened RecordTexts
  import opened IndexText

  // ------------------------------------------------------------- splitting records

  /** The lines of a record: ended nowhere but at their ends, and none of them blank. */
  ghost predicate RecordLines(lines: seq<string>)
  {
    lines != [] && forall i :: 0 <= i < |lines| ==> '\n' !in lines[i] && '\r' !in lines[i] && !Blank(lines[i])
  }

  lemma {:induction false} BlanksBeforeText(line: string, tail: string)
    requires '\n' !in line && '\r' !in line && !Blank(line)
    ensures PrefixOf(line + tail, BLANKS) < |line|
    ensures (line + tail)[PrefixOf(line + tail, BLANKS)] !in {'\n', '\r'}
  {
    if line[0] in BLANKS {
      assert (line + tail)[1..] == line[1..] + tail;
      BlanksBeforeText(line[1..], tail);
    }
  }

  /** No separator matches before a line that is not blank. */
  lemma NoSeparatorBefore(line: string, tail: string)
    requires '\n' !in line && '\r' !in line && !Blank(line)
    ensures SeparatorLength("\n" + line + tail) == 0
  {
    var s := "\n" + line + tail;
    BlanksBeforeText(line, tail);
    assert s[1..] == line + tail;
  }

  /** Putting text before the first paragraph. */
  function Prefixed(text: string, parts: seq<string>): seq<string>
    requires parts != []
  {
    [text + parts[0]] + parts[1..]
  }

  lemma PrefixedTwice(a: string, b: string, parts: seq<string>)
    requires parts != []
    ensures Prefixed(a, Prefixed(b, parts)) == Prefixed(a + b, parts)
    ensures Prefixed("", parts) == parts
  {
    assert a + (b + parts[0]) == a + b + parts[0];
    assert "" + parts[0] == parts[0] && [parts[0]] + parts[1..] == parts;
  }

  lemma {:induction false} SplitAfterLine(line: string, tail: string)
    requires '\n' !in line && '\r' !in line
    ensures SplitParagraphs(line + tail) == Prefixed(line, SplitParagraphs(tail))
  {
    var parts := SplitParagraphs(tail);
    if line == "" {
      assert line + tail == tail;
      PrefixedTwice("", "", parts);
    } else {
      var s := line + tail;
      assert s[1..] == line[1..] + tail && s[0] == line[0];
      SplitAfterLine(line[1..], tail);
      PrefixedTwice([line[0]], line[1..], parts);
      assert [line[0]] + line[1..] == line;
    }
  }

  /** A record is never split: what follows it decides where its paragraph ends. */
  lemma {:induction false} SplitAfterRecord(lines: seq<string>, tail: string)
    requires RecordLines(lines)
    ensures SplitParagraphs(Join(lines, "\n") + tail) == Prefixed(Join(lines, "\n"), SplitParagraphs(tail))
  {
    var parts := SplitParagraphs(tail);
    if |lines| == 1 {
      SplitAfterLine(lines[0], tail);
    } else {
      var rest := Join(lines[1..], "\n");
      SplitAfterRecord(lines[1..], tail);
      NoSeparatorBefore(lines[1], (rest + tail)[|lines[1]|..]);
      NewlineTexts(lines[0], rest, tail, lines[1]);
      SplitAfterLine(lines[0], "\n" + (rest + tail));
      PrefixedTwice("\n", rest, parts);
      PrefixedTwice(lines[0], "\n" + rest, parts);
    }
  }

  lemma NewlineTexts(first: string, rest: string, tail: string, second: string)
    requires |rest| >= |second| && rest + tail == second + (rest + tail)[|second|..]
    ensures "\n" + second + (rest + tail)[|second|..] == "\n" + (rest + tail)
    ensures first + "\n" + rest + tail == first + ("\n" + (rest + tail))
    ensures first + ("\n" + rest) == first + "\n" + rest
  {
  }

  /** A record and an empty line are one paragraph without its last line end. */
  lemma SplitFirstRecord(lines: seq<string>, rest: string)
    requires RecordLines(lines)
    ensures SplitParagraphs(Unlines(lines) + "\n" + rest) == [Join(lines, "\n")] + SplitParagraphs(rest)
  {
    var tail := "\n\n" + rest;
    UnlinesJoin(lines);
    assert Unlines(lines) + "\n" + rest == Join(lines, "\n") + tail;
    assert tail[1..] == "\n" + rest && PrefixOf(tail[1..], BLANKS) == 0;
    assert SeparatorLength(tail) == 2 && tail[2..] == rest;
    SplitAfterRecord(lines, tail);
    assert Join(lines, "\n") + "" == Join(lines, "\n");
  }

  lemma {:induction false} BlanksSkipped(blanks: string, rest: string)
    requires (forall i :: 0 <= i < |blanks| ==> blanks[i] in {' ', '\t'}) && rest != "" && rest[0] in {'\r', '\n'}
    ensures PrefixOf(blanks + rest, BLANKS) == |blanks|
  {
    if blanks == "" {
      assert blanks + rest == rest;
    } else {
      assert (blanks + rest)[1..] == blanks[1..] + rest;
      BlanksSkipped(blanks[1..], rest);
    }
  }

  lemma SeparatorRead(separator: string, first: string, blanks: string, second: string, rest: string)
    requires first in {"\n", "\r\n"} && second in {"\n", "\r\n"} && separator == first + blanks + second
    requires forall i :: 0 <= i < |blanks| ==> blanks[i] in {' ', '\t'}
    ensures SeparatorLength(separator + rest) == |separator|
  {
    var s, a := separator + rest, |first| - 1;
    assert s[0] == first[0] && s[a] == '\n';
    BlanksSkipped(blanks, second + rest);
    assert s[a + 1..] == blanks + (second + rest);
    var b := a + 1 + |blanks|;
    assert s[b] == second[0] && (|second| == 2 ==> s[b + 1] == '\n');
  }

  /** A record ends at a line of nothing but blanks and tabs, whichever line ends it has. */
  lemma SplitAtBlankLine(lines: seq<string>, separator: string, first: string, blanks: string, second: string, rest: string)
    requires RecordLines(lines)
    requires first in {"\n", "\r\n"} && second in {"\n", "\r\n"} && separator == first + blanks + second
    requires forall i :: 0 <= i < |blanks| ==> blanks[i] in {' ', '\t'}
    ensures SplitParagraphs(Join(lines, "\n") + separator + rest) == [Join(lines, "\n")] + SplitParagraphs(rest)
  {
    SeparatorRead(separator, first, blanks, second, rest);
    var tail := separator + rest;
    assert tail[|separator|..] == rest;
    SplitAfterRecord(lines, tail);
    assert Join(lines, "\n") + separator + rest == Join(lines, "\n") + tail;
    assert Join(lines, "\n") + "" == Join(lines, "\n");
  }

  lemma SplitLastRecord(lines: seq<string>)
    requires RecordLines(lines)
    ensures SplitParagraphs(Unlines(lines)) == [Unlines(lines)]
  {
    UnlinesJoin(lines);
    SplitAfterRecord(lines, "\n");
    assert "\n" == "\n" + "" && SeparatorLength("\n") == 0;
    assert Join(lines, "\n") + ("\n" + "") == Unlines(lines);
  }

  lemma {:induction false} UnlinesJoin(lines: seq<string>)
    requires lines != []
    ensures Unlines(lines) == Join(lines, "\n") + "\n"
  {
    if |lines| == 1 {
      assert Unlines(lines[1..]) == "";
    } else {
      UnlinesJoin(lines[1..]);
    }
  }

  // ------------------------------------------------------------------ reading records

  lemma NonBlankText(lines: seq<string>)
    requires RecordLines(lines)
    ensures TrimSpace(Unlines(lines)) != "" && TrimSpace(Join(lines, "\n")) != ""
  {
    UnlinesJoin(lines);
    var i :| 0 <= i < |lines[0]| && !IsSpace(lines[0][i]);
    var text := Join(lines, "\n");
    assert text + "" == text;
    assert !Blank(text) by { assert text[i] == lines[0][i]; }
    assert !Blank(text + "\n") by { assert (text + "\n")[i] == lines[0][i]; }
    TrimSpaceBlank(text);
    TrimSpaceBlank(text + "\n");
  }

  /** A record reads the same with and without its last line end. */
  lemma FinalNewlineIgnored(lines: seq<string>)
    requires RecordLines(lines)
    ensures ReadFields(Join(lines, "\n")) == ReadFields(Unlines(lines))
  {
    assert Free(lines, '\n') && Free(lines, '\r');
    UnlinesFree(lines, '\r');
    NoReturnsNormalized(Unlines(lines));
    SplitUnlines(lines);
    JoinFree(lines, "\n", '\r');
    NoReturnsNormalized(Join(lines, "\n"));
    assert "\n" == ['\n'];
    SplitOfJoin(lines, '\n');
    ReadFinalNewline(Reading([], "", ""), lines);
  }

  /** The lines that printed fields make up. */
  lemma FieldRecordLines(field: Field)
    requires ValidName(field.name) && '\r' !in field.value
    ensures RecordLines(FieldLines(field))
  {
    var lines := FieldLines(field);
    ValueLinesFree(field.value, '\n');
    ValueLinesFree(field.value, '\r');
    FieldLinesFree(field, '\n');
    FieldLinesFree(field, '\r');
    forall i | 0 <= i < |lines| ensures !Blank(lines[i]) {
      if i == 0 {
        assert NameChar(field.name[0]) && lines[0][0] == field.name[0];
      } else {
        FieldLinesAt(field, i);
        FoldLineVisible(ValueLines(field.value)[i]);
      }
    }
  }

  lemma FoldLineVisible(line: string)
    ensures !Blank(FoldLine(line))
  {
    TrimSpaceBlank(line);
    if TrimSpace(line) == "" {
      assert !IsSpace(FoldLine(line)[1]);
    } else {
      var i :| 0 <= i < |line| && !IsSpace(line[i]);
      assert FoldLine(line)[i + 1] == line[i];
    }
  }

  lemma {:induction false} FieldsRecordLines(fields: seq<Field>)
    requires WritableFields(fields) && fields != []
    ensures RecordLines(FieldsLines(fields))
  {
    FieldRecordLines(fields[0]);
    if |fields| == 1 {
      assert FieldsLines(fields[1..]) == [];
      assert FieldsLines(fields) == FieldLines(fields[0]) + [];
    } else {
      FieldsRecordLines(fields[1..]);
    }
  }

  // -------------------------------------------------------------------- round trips

  /** A package whose printed entry names its location, and goes on naming it. */
  ghost predicate Indexable(p: Package, codename: string)
  {
    RepositoryFilename(p, codename).Ok? && Lasting(p, RepositoryFilename(p, codename).value)
  }

  ghost predicate AllIndexable(packages: seq<Package>, codename: string)
  {
    forall i :: 0 <= i < |packages| ==> Indexable(packages[i], codename)
  }

  function Lines(p: Package, codename: string): seq<string>
  {
    if RepositoryFilename(p, codename).Ok? then FieldsLines(RecordFields(p, RepositoryFilename(p, codename).value)) else []
  }

  /** What a package's record reads back as. */
  function Again(p: Package, codename: string): Package
  {
    if RepositoryFilename(p, codename).Ok? then ReadAgain(p, RepositoryFilename(p, codename).value) else p
  }

  function Each<A, B>(items: seq<A>, f: A -> B): seq<B>
  {
    if items == [] then [] else [f(items[0])] + Each(items[1..], f)
  }

  function AllAgain(packages: seq<Package>, codename: string): seq<Package>
  {
    Each(packages, p => Again(p, codename))
  }

  /** A printed record: its lines, and what it reads as with or without its last line end. */
  lemma RecordParses(p: Package, codename: string)
    requires Indexable(p, codename)
    ensures RecordLines(Lines(p, codename)) && Render(p, codename) == Ok(Unlines(Lines(p, codename)))
    ensures ParsePackage(Unlines(Lines(p, codename))) == Ok(Again(p, codename))
    ensures ParsePackage(Join(Lines(p, codename), "\n")) == Ok(Again(p, codename))
  {
    var fields := RecordFields(p, RepositoryFilename(p, codename).value);
    FieldsRecordLines(fields);
    FinalNewlineIgnored(FieldsLines(fields));
    EntryLasts(p, RepositoryFilename(p, codename).value);
  }

  /** The paragraphs of a first record and the rest, read one by one. */
  lemma FirstRecordRead<B, E>(lines: seq<string>, tail: string, f: string -> Result<Option<B>, E>, b: B, bs: seq<B>)
    requires RecordLines(lines) && f(Join(lines, "\n")) == Ok(Some(b)) && Mapped(SplitParagraphs(tail), f) == Ok(bs)
    ensures Mapped(SplitParagraphs(Unlines(lines) + "\n" + tail), f) == Ok([b] + bs)
    ensures TrimSpace(Unlines(lines) + "\n" + tail) != ""
  {
    SplitFirstRecord(lines, tail);
    NonBlankText(lines);
    NonBlankStart(Unlines(lines), "\n");
    NonBlankStart(Unlines(lines) + "\n", tail);
  }

  lemma LastRecordRead<B, E>(lines: seq<string>, f: string -> Result<Option<B>, E>, b: B)
    requires RecordLines(lines) && f(Unlines(lines)) == Ok(Some(b))
    ensures Mapped(SplitParagraphs(Unlines(lines)), f) == Ok([b])
    ensures TrimSpace(Unlines(lines)) != ""
  {
    SplitLastRecord(lines);
    assert [Unlines(lines)][1..] == [] && [b] + [] == [b];
    NonBlankText(lines);
  }

  /** A package's record through the reader and the writer. */
  lemma RecordRead(p: Package, codename: string)
    requires Indexable(p, codename)
    ensures RecordLines(Lines(p, codename)) && Writer(codename)(p) == Ok(Some(Unlines(Lines(p, codename))))
    ensures Reader()(Unlines(Lines(p, codename))) == Ok(Some(Again(p, codename)))
    ensures Reader()(Join(Lines(p, codename), "\n")) == Ok(Some(Again(p, codename)))
  {
    RecordParses(p, codename);
    NonBlankText(Lines(p, codename));
  }

  /** An item that is written as a record and read back from it, with or without its last line end. */
  ghost predicate Codec<A, B, E>(item: A, linesOf: A -> seq<string>, again: A -> B, read: string -> Result<Option<B>, E>,
                                 write: A -> Result<Option<string>, E>)
  {
    var lines := linesOf(item);
    && RecordLines(lines) && write(item) == Ok(Some(Unlines(lines)))
    && read(Unlines(lines)) == Ok(Some(again(item))) && read(Join(lines, "\n")) == Ok(Some(again(item)))
  }

  /** Records that are read back one by one are read back from their concatenation. */
  lemma {:induction false} RecordsParse<A, B, E>(items: seq<A>, linesOf: A -> seq<string>, again: A -> B,
                                                 read: string -> Result<Option<B>, E>, write: A -> Result<Option<string>, E>)
    requires items != [] && forall i :: 0 <= i < |items| ==> Codec(items[i], linesOf, again, read, write)
    ensures Mapped(items, write).Ok? && |Mapped(items, write).value| == |items|
    ensures Mapped(SplitParagraphs(Join(Mapped(items, write).value, "\n")), read) == Ok(Each(items, again))
    ensures TrimSpace(Join(Mapped(items, write).value, "\n")) != ""
  {
    var rest := items[1..];
    var lines := linesOf(items[0]);
    assert Codec(items[0], linesOf, again, read, write);
    if rest == [] {
      LastRecordRead(lines, read, again(items[0]));
      assert [Unlines(lines)] + [] == [Unlines(lines)];
      assert Each(rest, again) == [] && Each(items, again) == [again(items[0])];
    } else {
      forall i | 0 <= i < |rest| ensures Codec(rest[i], linesOf, again, read, write) { assert rest[i] == items[i + 1]; }
      RecordsParse(rest, linesOf, again, read, write);
      var records := Mapped(rest, write).value;
      var tail := Join(records, "\n");
      assert Join([Unlines(lines)] + records, "\n") == Unlines(lines) + "\n" + tail;
      FirstRecordRead(lines, tail, read, again(items[0]), Each(rest, again));
    }
  }

  lemma NonBlankStart(text: string, tail: string)
    requires TrimSpace(text) != ""
    ensures TrimSpace(text + tail) != ""
  {
    TrimSpaceBlank(text);
    TrimSpaceBlank(text + tail);
    if Blank(text + tail) {
      forall i | 0 <= i < |text| ensures IsSpace(text[i]) { assert (text + tail)[i] == text[i]; }
    }
  }

  /** Parsing a printed index gives, entry by entry, what each record reads back as. */
  lemma IndexRoundTrip(packages: seq<Package>, codename: string)
    requires AllIndexable(packages, codename)
    ensures RenderIndex(packages, codename).Ok?
    ensures ParsePackages(RenderIndex(packages, codename).value) == Ok(AllAgain(packages, codename))
  {
    if packages != [] {
      var linesOf, again := (p: Package) => Lines(p, codename), (p: Package) => Again(p, codename);
      var read, write := Reader(), Writer(codename);
      forall i | 0 <= i < |packages| ensures Codec(packages[i], linesOf, again, read, write) {
        assert Indexable(packages[i], codename);
        RecordRead(packages[i], codename);
      }
      RecordsParse(packages, linesOf, again, read, write);
    }
  }

  /** An index of one record, whatever it reads back as. */
  lemma OneRecordIndex(p: Package, codename: string, filename: string, q: Package)
    requires RepositoryFilename(p, codename) == Ok(filename) && WritableFields(RecordFields(p, filename))
    requires ParsePackage(FieldsText(RecordFields(p, filename))) == Ok(q)
    ensures RenderIndex([p], codename) == Ok(FieldsText(RecordFields(p, filename)))
    ensures ParsePackages(FieldsText(RecordFields(p, filename))) == Ok([q])
  {
    RecordNotEmpty(p, filename);
    OneRecordReads(RecordFields(p, filename), q);
    OneRecordRendered(p, codename, FieldsText(RecordFields(p, filename)));
  }

  lemma OneRecordReads(fields: seq<Field>, q: Package)
    requires WritableFields(fields) && fields != [] && ParsePackage(FieldsText(fields)) == Ok(q)
    ensures ParsePackages(FieldsText(fields)) == Ok([q])
  {
    var lines := FieldsLines(fields);
    FieldsRecordLines(fields);
    NonBlankText(lines);
    LastRecordRead(lines, Reader(), q);
  }

  lemma OneRecordRendered(p: Package, codename: string, text: string)
    requires Render(p, codename) == Ok(text)
    ensures RenderIndex([p], codename) == Ok(text)
  {
    assert [p][1..] == [] && [text] + [] == [text];
    assert Records([], codename) == Ok([]);
  }

  lemma RecordNotEmpty(p: Package, filename: string)
    ensures RecordFields(p, filename) != []
  {
  }

  ghost predicate Republishable(p: Package, codename: string)
  {
    Indexable(p, codename) && Rereadable(p, RepositoryFilename(p, codename).value)
  }

  ghost predicate AllRepublishable(packages: seq<Package>, codename: string)
  {
    forall i :: 0 <= i < |packages| ==> Republishable(packages[i], codename)
  }

  ghost predicate AllStable(packages: seq<Package>)
  {
    forall i :: 0 <= i < |packages| ==> Stable(packages[i])
  }

  /** A package whose entry prints the fields it was printed with. */
  predicate Reprints(p: Package, codename: string)
  {
    RepositoryFilename(p, codename).Ok? && Reprinted(Again(p, codename)) == RecordFields(p, RepositoryFilename(p, codename).value)
  }

  predicate AllReprint(packages: seq<Package>, codename: string)
  {
    forall i :: 0 <= i < |packages| ==> Reprints(packages[i], codename)
  }

  lemma {:induction false} RecordsFixed(packages: seq<Package>, codename: string, other: string)
    requires AllRepublishable(packages, codename) && AllStable(packages)
    ensures Records(AllAgain(packages, codename), other) == Records(packages, codename)
  {
    if packages != [] {
      assert Republishable(packages[0], codename);
      EntryFixed(packages[0], codename, other);
      RecordsFixed(packages[1..], codename, other);
      assert AllAgain(packages, codename)[1..] == AllAgain(packages[1..], codename);
    }
  }

  lemma EntryFixed(p: Package, codename: string, other: string)
    requires Republishable(p, codename) && Stable(p)
    ensures Writer(other)(Again(p, codename)) == Writer(codename)(p)
  {
    EntryLasts(p, RepositoryFilename(p, codename).value);
    RenderFixed(p, codename, other);
  }

  // ------------------------------------------------------------- an index and its records

  /** The paragraphs of records with an empty line between them: only the last keeps its last line end. */
  function Paragraphs(records: seq<seq<string>>): seq<string>
  {
    if |records| == 0 then []
    else if |records| == 1 then [Unlines(records[0])]
    else [Join(records[0], "\n")] + Paragraphs(records[1..])
  }

  ghost predicate AllRecordLines(records: seq<seq<string>>)
  {
    forall i :: 0 <= i < |records| ==> RecordLines(records[i])
  }

  function Texts(records: seq<seq<string>>): (texts: seq<string>)
    ensures |texts| == |records|
  {
    if records == [] then [] else [Unlines(records[0])] + Texts(records[1..])
  }

  lemma {:induction false} SplitRecords(records: seq<seq<string>>)
    requires records != [] && AllRecordLines(records)
    ensures SplitParagraphs(Join(Texts(records), "\n")) == Paragraphs(records)
  {
    if |records| == 1 {
      assert Texts(records) == [Unlines(records[0])] + [];
      SplitLastRecord(records[0]);
    } else {
      SplitRecords(records[1..]);
      assert Texts(records)[1..] == Texts(records[1..]);
      SplitFirstRecord(records[0], Join(Texts(records[1..]), "\n"));
    }
  }

  /** Lists of as many records with the same paragraphs are the same texts. */
  lemma {:induction false} ParagraphsTold(a: seq<seq<string>>, b: seq<seq<string>>)
    requires |a| == |b| && AllRecordLines(a) && AllRecordLines(b) && Paragraphs(a) == Paragraphs(b)
    ensures Texts(a) == Texts(b)
  {
    if a != [] {
      UnlinesJoin(a[0]);
      UnlinesJoin(b[0]);
      assert Paragraphs(a)[0] == Paragraphs(b)[0];
      if |a| > 1 {
        assert Paragraphs(a)[1..] == Paragraphs(a[1..]) && Paragraphs(b)[1..] == Paragraphs(b[1..]);
        ParagraphsTold(a[1..], b[1..]);
      }
    }
  }

  lemma {:induction false} EachAt<A, B>(items: seq<A>, f: A -> B)
    ensures |Each(items, f)| == |items| && forall i :: 0 <= i < |items| ==> Each(items, f)[i] == f(items[i])
  {
    if items != [] {
      EachAt(items[1..], f);
      forall i | 0 <= i < |items| ensures Each(items, f)[i] == f(items[i]) {
        if i > 0 { assert Each(items, f)[i] == Each(items[1..], f)[i - 1] && items[i] == items[1..][i - 1]; }
      }
    }
  }

  lemma {:induction false} MappedTexts<A, E>(items: seq<A>, write: A -> Result<Option<string>, E>, linesOf: A -> seq<string>)
    requires forall i :: 0 <= i < |items| ==> write(items[i]) == Ok(Some(Unlines(linesOf(items[i]))))
    ensures Mapped(items, write) == Ok(Texts(Each(items, linesOf)))
  {
    if items != [] {
      assert write(items[0]) == Ok(Some(Unlines(linesOf(items[0]))));
      forall i | 0 <= i < |items[1..]| ensures write(items[1..][i]) == Ok(Some(Unlines(linesOf(items[1..][i])))) {
        assert items[1..][i] == items[i + 1];
      }
      MappedTexts(items[1..], write, linesOf);
      assert Each(items, linesOf)[1..] == Each(items[1..], linesOf);
    }
  }

  /** The lines of each package's record. */
  function LinesOf(packages: seq<Package>, codename: string): seq<seq<string>>
  {
    Each(packages, p => Lines(p, codename))
  }

  lemma IndexLines(packages: seq<Package>, codename: string)
    requires AllIndexable(packages, codename)
    ensures |LinesOf(packages, codename)| == |packages| && AllRecordLines(LinesOf(packages, codename))
    ensures Records(packages, codename) == Ok(Texts(LinesOf(packages, codename)))
  {
    var linesOf := p => Lines(p, codename);
    forall i | 0 <= i < |packages|
      ensures RecordLines(Lines(packages[i], codename)) && Writer(codename)(packages[i]) == Ok(Some(Unlines(linesOf(packages[i]))))
    {
      assert Indexable(packages[i], codename);
      RecordRead(packages[i], codename);
    }
    EachAt(packages, linesOf);
    MappedTexts(packages, Writer(codename), linesOf);
  }

  /** Indices with as many lasting packages and the same text have the same records. */
  lemma SameIndexText(a: seq<Package>, codename: string, b: seq<Package>, other: string)
    requires |a| == |b| && AllIndexable(a, codename) && AllIndexable(b, other)
    requires RenderIndex(a, codename) == RenderIndex(b, other)
    ensures |LinesOf(a, codename)| == |LinesOf(b, other)| == |a| && Texts(LinesOf(a, codename)) == Texts(LinesOf(b, other))
  {
    IndexLines(a, codename);
    IndexLines(b, other);
    if a != [] {
      SplitRecords(LinesOf(a, codename));
      SplitRecords(LinesOf(b, other));
      ParagraphsTold(LinesOf(a, codename), LinesOf(b, other));
    }
  }

  lemma {:induction false} TextsAt(records: seq<seq<string>>, i: nat)
    requires i < |records|
    ensures Texts(records)[i] == Unlines(records[i])
  {
    if i > 0 { TextsAt(records[1..], i - 1); }
  }

  lemma TextAt(packages: seq<Package>, codename: string, i: nat)
    requires i < |packages| == |LinesOf(packages, codename)|
    ensures Texts(LinesOf(packages, codename))[i] == Unlines(Lines(packages[i], codename))
  {
    EachAt(packages, p => Lines(p, codename));
    TextsAt(LinesOf(packages, codename), i);
  }

  lemma AgainAt(packages: seq<Package>, codename: string, i: nat)
    requires i < |packages|
    ensures |AllAgain(packages, codename)| == |packages| && AllAgain(packages, codename)[i] == Again(packages[i], codename)
  {
    EachAt(packages, p => Again(p, codename));
  }

  lemma AgainIndexable(packages: seq<Package>, codename: string, other: string)
    requires AllIndexable(packages, codename)
    ensures |AllAgain(packages, codename)| == |packages| && AllIndexable(AllAgain(packages, codename), other)
  {
    var again := AllAgain(packages, codename);
    if packages != [] { AgainAt(packages, codename, 0); }
    forall i | 0 <= i < |again| ensures Indexable(again[i], other) {
      AgainAt(packages, codename, i);
      assert Indexable(packages[i], codename);
      EntryLasts(packages[i], RepositoryFilename(packages[i], codename).value);
    }
  }

  ghost predicate AllOneLine(packages: seq<Package>)
  {
    forall i :: 0 <= i < |packages| ==> OneLineRelations(packages[i])
  }

  /** An index that reads back and prints as the same text is one of packages whose records do. */
  lemma SameTextStable(packages: seq<Package>, codename: string, other: string)
    requires AllRepublishable(packages, codename) && AllOneLine(packages)
    requires RenderIndex(AllAgain(packages, codename), other) == RenderIndex(packages, codename)
    ensures AllStable(packages)
  {
    forall i | 0 <= i < |packages| ensures Indexable(packages[i], codename) { assert Republishable(packages[i], codename); }
    AgainIndexable(packages, codename, other);
    SameIndexText(packages, codename, AllAgain(packages, codename), other);
    forall i | 0 <= i < |packages| ensures Stable(packages[i]) {
      TextAt(packages, codename, i);
      TextAt(AllAgain(packages, codename), other, i);
      AgainAt(packages, codename, i);
      assert Republishable(packages[i], codename) && OneLineRelations(packages[i]);
      OneStable(packages[i], codename, other);
    }
  }

  lemma OneStable(p: Package, codename: string, other: string)
    requires Republishable(p, codename) && OneLineRelations(p)
    requires Unlines(Lines(Again(p, codename), other)) == Unlines(Lines(p, codename))
    ensures Stable(p)
  {
    RecordParses(p, codename);
    EntryLasts(p, RepositoryFilename(p, codename).value);
    RecordParses(Again(p, codename), other);
    RenderFixed(p, codename, other);
  }

  /**
   Republishing: an index read back prints as the same bytes, under any codename, if all
   its packages are stable, and only if they are, but for relations folded in their middle.
   Field by field the equivalence needs no exception.
   */
  lemma RepublishingFixed(packages: seq<Package>, codename: string, other: string)
    requires AllRepublishable(packages, codename)
    ensures RenderIndex(packages, codename).Ok?
    ensures ParsePackages(RenderIndex(packages, codename).value) == Ok(AllAgain(packages, codename))
    ensures AllReprint(packages, codename) <==> AllStable(packages)
    ensures AllStable(packages) ==> RenderIndex(AllAgain(packages, codename), other) == RenderIndex(packages, codename)
    ensures AllOneLine(packages) ==>
              (RenderIndex(AllAgain(packages, codename), other) == RenderIndex(packages, codename) <==> AllStable(packages))
  {
    forall i | 0 <= i < |packages|
      ensures Indexable(packages[i], codename) && (Reprints(packages[i], codename) <==> Stable(packages[i]))
    {
      assert Republishable(packages[i], codename);
      EntryLasts(packages[i], RepositoryFilename(packages[i], codename).value);
      RecordFixed(packages[i], RepositoryFilename(packages[i], codename).value);
    }
    IndexRoundTrip(packages, codename);
    if AllStable(packages) {
      RecordsFixed(packages, codename, other);
    } else if AllOneLine(packages) && RenderIndex(AllAgain(packages, codename), other) == RenderIndex(packages, codename) {
      SameTextStable(packages, codename, other);
    }
  }
}
