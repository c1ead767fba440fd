/** The text of a Release as a client reads it: its header lines, and a table of digests under each heading. */
module ReleaseTables {
  import opened Text
  import opened Numbers
  import opened Control
  import opened Dependencies
  import opened DependencyStability
  import opened Documents
  import opened ReleaseCodec

  // ------------------------------------------------------------------------- reading

  predicate Indented(line: string)
  {
    line != "" && line[0] == ' '
  }

  /** The indented lines a text starts with. */
  function LeadingLines(lines: seq<string>): seq<string>
  {
    if lines == [] || !Indented(lines[0]) then [] else [lines[0]] + LeadingLines(lines[1..])
  }

  /** The indented lines after the first line that is the heading. */
  function TableUnder(lines: seq<string>, heading: string): seq<string>
  {
    if lines == [] then []
    else if lines[0] == heading then LeadingLines(lines[1..])
    else TableUnder(lines[1..], heading)
  }

  lemma {:induction false} LeadingAre(table: seq<string>, back: seq<string>)
    requires (forall i :: 0 <= i < |table| ==> Indented(table[i])) && (back == [] || !Indented(back[0]))
    ensures LeadingLines(table + back) == table
  {
    if table == [] {
      assert table + back == back;
    } else {
      assert (table + back)[1..] == table[1..] + back;
      LeadingAre(table[1..], back);
    }
  }

  lemma {:induction false} TableFound(front: seq<string>, heading: string, table: seq<string>, back: seq<string>)
    requires (forall i :: 0 <= i < |front| ==> front[i] != heading)
    requires (forall i :: 0 <= i < |table| ==> Indented(table[i])) && (back == [] || !Indented(back[0]))
    ensures TableUnder(front + ([heading] + (table + back)), heading) == table
  {
    var lines := front + ([heading] + (table + back));
    if front == [] {
      assert lines == [heading] + (table + back);
      assert lines[1..] == table + back;
      LeadingAre(table, back);
    } else {
      assert lines[1..] == front[1..] + ([heading] + (table + back));
      TableFound(front[1..], heading, table, back);
    }
  }

  // ------------------------------------------------------------------------- printing

  /** A line of a table: the digest, the size right-aligned in sixteen columns, and the name. */
  ghost predicate TableRow(line: string, digest: string, size: nat, name: string)
  {
    exists blanks :: OnlyBlanks(blanks) && (|blanks| + |Itoa(size)| == 16 || (blanks == "" && |Itoa(size)| > 16)) &&
                     line == " " + digest + " " + blanks + Itoa(size) + " " + name
  }

  predicate OnlyBlanks(s: string)
  {
    forall i :: 0 <= i < |s| ==> s[i] == ' '
  }

  lemma RowOf(t: Table, name: string, f: FileHashes)
    ensures TableRow(TableLine(t, name, f), Digest(t, f), f.size, name)
    ensures Indented(TableLine(t, name, f))
  {
    var blanks := Spaces(16 - |Itoa(f.size)|);
    assert OnlyBlanks(blanks);
    assert TableLine(t, name, f) == " " + Digest(t, f) + " " + blanks + Itoa(f.size) + " " + name;
  }

  /** The lines of a table carry the digest that some digest function takes of each file. */
  ghost predicate Rows(table: seq<string>, names: seq<string>, files: map<string, FileHashes>, digest: FileHashes -> string)
    requires forall n <- names :: n in files
  {
    |table| == |names| && forall i :: 0 <= i < |names| ==> TableRow(table[i], digest(files[names[i]]), files[names[i]].size, names[i])
  }

  lemma RowsOf(t: Table, names: seq<string>, files: map<string, FileHashes>, digest: FileHashes -> string)
    requires (forall n <- names :: n in files) && forall f :: digest(f) == Digest(t, f)
    ensures Rows(TableLines(t, names, files), names, files, digest)
    ensures forall i :: 0 <= i < |names| ==> Indented(TableLines(t, names, files)[i])
  {
    forall i | 0 <= i < |names|
      ensures TableRow(TableLines(t, names, files)[i], digest(files[names[i]]), files[names[i]].size, names[i])
      ensures Indented(TableLines(t, names, files)[i]) {
      TableLinesAt(t, names, files, i);
      RowOf(t, names[i], files[names[i]]);
    }
  }

  // ----------------------------------------------------------------------- the theorem

  predicate HasBlank(line: string)
  {
    ' ' in line
  }

  lemma {:induction false} HeadersHaveBlanks(fields: seq<Field>)
    ensures forall i :: 0 <= i < |fields| ==> HasBlank(HeaderLines(fields)[i])
  {
    if fields != [] {
      HeadersHaveBlanks(fields[1..]);
      var line := fields[0].name + ": " + fields[0].value;
      assert line[|fields[0].name| + 1] == ' ';
    }
  }

  /** Lines with a blank in them, as header lines and rows are, and other headings: none is a heading sought later. */
  ghost predicate Passed(lines: seq<string>, headings: set<string>)
  {
    forall i :: 0 <= i < |lines| ==> HasBlank(lines[i]) || lines[i] in headings
  }

  lemma NotPassed(lines: seq<string>, headings: set<string>, heading: string)
    requires Passed(lines, headings) && ' ' !in heading && heading !in headings
    ensures forall i :: 0 <= i < |lines| ==> lines[i] != heading
  {
  }

  lemma PassedMore(a: seq<string>, heading: string, table: seq<string>, headings: set<string>)
    requires Passed(a, headings) && forall i :: 0 <= i < |table| ==> Indented(table[i])
    ensures Passed(a + ([heading] + table), headings + {heading})
  {
    forall i | 0 <= i < |table| ensures HasBlank(table[i]) { assert table[i][0] == ' '; }
  }

  /** Three tables after header lines, each found under its heading. */
  lemma ThreeTables(headers: seq<string>, a: seq<string>, b: seq<string>, c: seq<string>, lines: seq<string>)
    requires forall i :: 0 <= i < |headers| ==> HasBlank(headers[i])
    requires (forall i :: 0 <= i < |a| ==> Indented(a[i])) && (forall i :: 0 <= i < |b| ==> Indented(b[i]))
    requires forall i :: 0 <= i < |c| ==> Indented(c[i])
    requires lines == headers + (["MD5Sum:"] + a + (["SHA1:"] + b) + (["SHA256:"] + c) + [""])
    ensures TableUnder(lines, "MD5Sum:") == a && TableUnder(lines, "SHA1:") == b && TableUnder(lines, "SHA256:") == c
  {
    var first := headers + (["MD5Sum:"] + a);
    var second := first + (["SHA1:"] + b);
    assert Passed(headers, {});
    PassedMore(headers, "MD5Sum:", a, {});
    PassedMore(first, "SHA1:", b, {} + {"MD5Sum:"});
    NotPassed(headers, {}, "MD5Sum:");
    NotPassed(first, {} + {"MD5Sum:"}, "SHA1:");
    NotPassed(second, {} + {"MD5Sum:"} + {"SHA1:"}, "SHA256:");
    assert lines == headers + (["MD5Sum:"] + (a + (["SHA1:"] + b + (["SHA256:"] + c) + [""])));
    assert lines == first + (["SHA1:"] + (b + (["SHA256:"] + c + [""])));
    assert lines == second + (["SHA256:"] + (c + [""]));
    TableFound(headers, "MD5Sum:", a, ["SHA1:"] + b + (["SHA256:"] + c) + [""]);
    TableFound(first, "SHA1:", b, ["SHA256:"] + c + [""]);
    TableFound(second, "SHA256:", c, [""]);
  }

  function Md5Of(): FileHashes -> string
  {
    (f: FileHashes) => f.md5
  }

  function Sha1Of(): FileHashes -> string
  {
    (f: FileHashes) => f.sha1
  }

  function Sha256Of(): FileHashes -> string
  {
    (f: FileHashes) => f.sha256
  }

  lemma HeadedSections(r: ReleaseState, names: seq<string>)
    requires forall n <- names :: n in r.files
    ensures AllSections(r, names) ==
            ["MD5Sum:"] + TableLines(Md5, names, r.files) + (["SHA1:"] + TableLines(Sha1, names, r.files)) +
            (["SHA256:"] + TableLines(Sha256, names, r.files))
  {
    assert "MD5Sum" + ":" == "MD5Sum:" && "SHA1" + ":" == "SHA1:" && "SHA256" + ":" == "SHA256:";
  }

  /**
   In the text of a Release the lines under each heading, up to the next one that is not
   indented, are one for each listed file, in the given order: under "MD5Sum:" its MD5,
   under "SHA1:" its SHA-1 and under "SHA256:" its SHA-256, with its size and name.
   Each header field stands on the first line that starts with its name.
   */
  lemma TablesPrinted(r: ReleaseState, date: string, names: seq<string>)
    requires PrintableRelease(r, date) && forall n <- names :: n in r.files
    ensures var lines := Split(NormalizeNewlines(RenderRelease(r, date, names)), '\n');
            && Rows(TableUnder(lines, "MD5Sum:"), names, r.files, Md5Of())
            && Rows(TableUnder(lines, "SHA1:"), names, r.files, Sha1Of())
            && Rows(TableUnder(lines, "SHA256:"), names, r.files, Sha256Of())
  {
    var headers := HeaderLines(HeaderFields(r, date));
    var a, b, c := TableLines(Md5, names, r.files), TableLines(Sha1, names, r.files), TableLines(Sha256, names, r.files);
    TextLinesOf(r, date, names);
    HeadedSections(r, names);
    HeadersHaveBlanks(HeaderFields(r, date));
    RowsOf(Md5, names, r.files, Md5Of());
    RowsOf(Sha1, names, r.files, Sha1Of());
    RowsOf(Sha256, names, r.files, Sha256Of());
    ThreeTables(headers, a, b, c, headers + (AllSections(r, names) + [""]));
  }

  /** The header lines of a Release's text carry its fields. */
  lemma HeadersPrinted(r: ReleaseState, date: string, names: seq<string>)
    requires PrintableRelease(r, date) && forall n <- names :: n in r.files
    ensures var lines := Split(NormalizeNewlines(RenderRelease(r, date, names)), '\n');
            && ReleaseField(lines, "Origin") == r.origin && ReleaseField(lines, "Codename") == Some(r.codename)
            && ReleaseField(lines, "Date") == Some(date)
            && ReleaseField(lines, "Architectures") == Some(Join(r.architectures, " "))
            && ReleaseField(lines, "Components") == Some(Join(r.components, " "))
            && ReleaseField(lines, "Suite") == Some(if r.suite.Some? then r.suite.value else "")
            && ReleaseField(lines, "Acquire-By-Hash") == if r.byHash then Some("yes") else None
  {
    TextLinesOf(r, date, names);
    HeaderNames();
    FixedValue(r, date, 1);
    FieldOf(r, date, names, "Date");
    FieldsOf(r, date, names, HeaderLines(HeaderFields(r, date)) + (AllSections(r, names) + [""]));
  }

  // ---------------------------------------------------------------- reading any Release

  /** By-hash is on exactly if the field's value, but for blanks around it, is "yes" in any case. */
  lemma ByHashRead(input: string)
    ensures var value := ReleaseField(Split(NormalizeNewlines(input), '\n'), "Acquire-By-Hash");
            ParseRelease(input).byHash <==>
            value.Some? && var word := TrimSpace(value.value);
            |word| == 3 && word[0] in {'y', 'Y'} && word[1] in {'e', 'E'} && word[2] in {'s', 'S'}
  {
    var value := ReleaseField(Split(NormalizeNewlines(input), '\n'), "Acquire-By-Hash");
    if value.Some? { YesInAnyCase(TrimSpace(value.value)); }
  }

  lemma YesInAnyCase(word: string)
    ensures LowerAll(word) == "yes" <==> |word| == 3 && word[0] in {'y', 'Y'} && word[1] in {'e', 'E'} && word[2] in {'s', 'S'}
  {
    if |word| == 3 {
      var low := LowerAll(word);
      LowerAllAt(word, 0);
      LowerAllAt(word, 1);
      LowerAllAt(word, 2);
      ThreeLetters(low);
      LowerIs(word[0], 'y');
      LowerIs(word[1], 'e');
      LowerIs(word[2], 's');
    }
  }

  lemma ThreeLetters(s: string)
    requires |s| == 3
    ensures s == "yes" <==> s[0] == 'y' && s[1] == 'e' && s[2] == 's'
  {
  }

  lemma LowerIs(c: char, lower: char)
    requires 'a' <= lower <= 'z'
    ensures Lower(c) == lower <==> c == lower || c == lower - 'a' + 'A'
  {
  }

  /** A line with a digest, a decimal size and a name, with any blanks between them. */
  ghost predicate FileLine(line: string, digest: string, size: string, name: string)
  {
    exists lead, gap, space :: lead != "" && lead[0] in {' ', '\t'} && gap != "" && space != "" &&
                               AllSpaces(lead) && AllSpaces(gap) && AllSpaces(space) &&
                               line == lead + (digest + gap + (size + space + name))
  }

  lemma FileWords(line: string, digest: string, size: string, name: string)
    requires FileLine(line, digest, size, name) && Word(digest) && Word(size) && Word(name)
    ensures Words(line) == [digest, size, name] && line != "" && line[0] in {' ', '\t'}
  {
    var lead, gap, space :| lead != "" && lead[0] in {' ', '\t'} && gap != "" && space != "" &&
                            AllSpaces(lead) && AllSpaces(gap) && AllSpaces(space) &&
                            line == lead + (digest + gap + (size + space + name));
    GapWords(lead, digest, gap, size, space, name);
  }

  lemma GapWords(lead: string, digest: string, gap: string, size: string, space: string, name: string)
    requires lead != "" && gap != "" && space != "" && AllSpaces(lead) && AllSpaces(gap) && AllSpaces(space)
    requires Word(digest) && Word(size) && Word(name)
    ensures Words(lead + (digest + gap + (size + space + name))) == [digest, size, name]
  {
    var tail := size + space + name;
    var rest := digest + gap + tail;
    TwoWords(size, space, name);
    TwoWords(digest, gap, tail);
    BlanksFirst(lead, rest);
    WordsOfWord(digest);
    WordsOfWord(size);
    WordsOfWord(name);
    assert Words(tail) == [size, name] && Words(rest) == [digest] + [size, name];
  }

  lemma BlanksFirst(gap: string, b: string)
    requires gap != "" && AllSpaces(gap)
    ensures Words(gap + b) == Words(b)
  {
    WordsAfterGap("", gap, b);
    assert "" + gap + b == gap + b && Words("") == [];
  }

  lemma TwoWords(a: string, gap: string, b: string)
    requires gap != "" && AllSpaces(gap)
    ensures Words(a + gap + b) == Words(a) + Words(b)
  {
    WordsAfterGap(a, gap, b);
  }

  /**
   Such a line records its size for its name, and its digest as the MD5, SHA-1 or SHA-256
   that its length makes it; a digest of any other length is passed over.
   */
  lemma FileLineRead(files: map<string, FileHashes>, line: string, digest: string, size: string, name: string)
    requires FileLine(line, digest, size, name) && Word(digest) && Word(name)
    requires size != "" && AllDigits(size) && Decimal(size) <= MAX_INT64
    ensures var was := if name in files then files[name] else FileHashes(0, "", "", "");
            ReadFileLine(files, line) ==
            if |digest| == 32 then files[name := FileHashes(Decimal(size), digest, was.sha1, was.sha256)]
            else if |digest| == 40 then files[name := FileHashes(Decimal(size), was.md5, digest, was.sha256)]
            else if |digest| == 64 then files[name := FileHashes(Decimal(size), was.md5, was.sha1, digest)]
            else files
  {
    forall i | 0 <= i < |size| ensures !IsSpace(size[i]) { assert IsDigit(size[i]); }
    FileWords(line, digest, size, name);
    DecimalValue(size);
    ParseUnsigned(size);
  }

  /** Whether a line says something of a file: indented, of three words, the second a size, the first as long as a digest. */
  predicate SaysFile(line: string)
  {
    && line != "" && line[0] in {' ', '\t'} && |Words(line)| == 3
    && ParseInt64(Words(line)[1]).1 && ParseInt64(Words(line)[1]).0 >= 0 && |Words(line)[0]| in {32, 40, 64}
  }

  /** What a line leaves of the other files, and of all of them if it says nothing of any. */
  lemma OtherLineSkipped(files: map<string, FileHashes>, line: string, name: string)
    ensures !SaysFile(line) ==> ReadFileLine(files, line) == files
    ensures SaysFile(line) && name != Words(line)[2] ==>
              (name in ReadFileLine(files, line) <==> name in files) && (name in files ==> ReadFileLine(files, line)[name] == files[name])
  {
  }
}
