/** The text of a package record as a client reads it: every known field under its name. */
module RecordLookups {
  import opened Text
  import opened Control
  import opened Versions
  import opened Dependencies
  import opened DependencyForms
  import opened Packages
  import opened PackageCodec
  import opened EntryCodec

  /** The value that a printed record has under a name. */
  function Printed(p: Package, filename: string): string -> Option<string>
  {
    name => Lookup(ReadFields(FieldsText(RecordFields(p, filename))), name)
  }

  /** A value as it reads back, if there is one. */
  function Back(value: Option<string>): Option<string>
  {
    if value.Some? then Some(ReadBack(value.value)) else None
  }

  /** A record that can be written, whose extra fields do not stand in for known ones. */
  ghost predicate Printable(p: Package, filename: string)
  {
    WritableFields(RecordFields(p, filename)) && StableExtras(p.extraFields)
  }

  lemma PrintedRow(p: Package, filename: string)
    requires Printable(p, filename)
    ensures Row(Printed(p, filename), KNOWN, ReadValues(KnownValues(p, filename)))
    ensures forall i :: 0 <= i < |KNOWN| ==> ReadValues(KnownValues(p, filename))[i] == Back(KnownValues(p, filename)[i])
  {
    forall i | 0 <= i < |KNOWN|
      ensures Printed(p, filename)(KNOWN[i]) == ReadValues(KnownValues(p, filename))[i]
      ensures ReadValues(KnownValues(p, filename))[i] == Back(KnownValues(p, filename)[i]) {
      KnownReadBack(p, filename, i);
      ReadValuesAt(KnownValues(p, filename), i);
      assert KNOWN[i] in KNOWN;
      FindAbsent(p.extraFields, KNOWN[i]);
    }
  }

  lemma KnownDisplayed(p: Package, filename: string)
    ensures var v := KnownValues(p, filename);
            && v[0] == Some(p.name) && v[1] == Some(FullVersion(p.version)) && v[2] == Some(p.license) && v[3] == Some(p.vendor)
            && v[4] == Some(p.architecture) && v[5] == Some(p.maintainer)
            && v[6] == Some(if p.installedSize.Some? then p.installedSize.value else "")
            && v[7] == DependsValue(p) && v[8] == ConflictsValue(p) && v[9] == p.breaks && v[10] == p.preDepends && v[11] == p.provided
            && v[12] == p.replaced && v[13] == p.recommends && v[14] == p.suggests && v[15] == p.enhances && v[16] == Some(p.category)
            && v[17] == p.origin && v[18] == Some(if p.priority.Some? then p.priority.value else "")
            && v[19] == Some(if p.homepage.Some? then p.homepage.value else "http://nourlgiven.example.com/")
            && v[20] == Some(filename) && v[21] == p.size && v[22] == p.sha1 && v[23] == p.sha256 && v[24] == p.md5
            && v[25] == Some(if p.description.Some? then p.description.value else "no description given")
  {
    DisplayAt(Some(p.name), Some(FullVersion(p.version)), Some(p.license), Some(p.vendor), Some(p.architecture),
              Some(p.maintainer), Some(OrElse(p.installedSize, "")), DependsValue(p), ConflictsValue(p), p.breaks,
              p.preDepends, p.provided, p.replaced, p.recommends, p.suggests, p.enhances, Some(p.category), p.origin,
              Some(OrElse(p.priority, "")), Some(OrElse(p.homepage, NO_HOMEPAGE)), Some(filename), p.size, p.sha1,
              p.sha256, p.md5, Some(OrElse(p.description, NO_DESCRIPTION)));
  }

  /** What a record says of its package. */
  lemma PackagePrinted(p: Package, filename: string)
    requires Printable(p, filename)
    ensures var printed := Printed(p, filename);
            && printed("Package") == Some(ReadBack(p.name)) && printed("Version") == Some(ReadBack(FullVersion(p.version)))
            && printed("License") == Some(ReadBack(p.license)) && printed("Vendor") == Some(ReadBack(p.vendor))
            && printed("Architecture") == Some(ReadBack(p.architecture)) && printed("Maintainer") == Some(ReadBack(p.maintainer))
            && printed("Installed-Size") == Some(ReadBack(if p.installedSize.Some? then p.installedSize.value else ""))
            && printed("Section") == Some(ReadBack(p.category)) && printed("Origin") == Back(p.origin)
            && printed("Priority") == Some(ReadBack(if p.priority.Some? then p.priority.value else ""))
            && printed("Homepage") == Some(ReadBack(if p.homepage.Some? then p.homepage.value else "http://nourlgiven.example.com/"))
            && printed("Description") == Some(ReadBack(if p.description.Some? then p.description.value else "no description given"))
  {
    PrintedRow(p, filename);
    KnownDisplayed(p, filename);
    var values := ReadValues(KnownValues(p, filename));
    RowNamesA(Printed(p, filename), values);
    RowNamesC(Printed(p, filename), values);
    RowNamesD(Printed(p, filename), values);
  }

  /** What a record says of the package's relations to others. */
  lemma RelationsPrinted(p: Package, filename: string)
    requires Printable(p, filename)
    ensures var printed := Printed(p, filename);
            && printed("Depends") == Back(DependsValue(p)) && printed("Conflicts") == Back(ConflictsValue(p))
            && printed("Breaks") == Back(p.breaks) && printed("Pre-Depends") == Back(p.preDepends)
            && printed("Provides") == Back(p.provided) && printed("Replaces") == Back(p.replaced)
            && printed("Recommends") == Back(p.recommends) && printed("Suggests") == Back(p.suggests)
            && printed("Enhances") == Back(p.enhances)
  {
    PrintedRow(p, filename);
    KnownDisplayed(p, filename);
    var values := ReadValues(KnownValues(p, filename));
    RowNamesB(Printed(p, filename), values);
    RowNamesC(Printed(p, filename), values);
  }

  /** What a record says of the package's file: its location, its size, and each digest under its own name. */
  lemma FilePrinted(p: Package, filename: string)
    requires Printable(p, filename)
    ensures var printed := Printed(p, filename);
            && printed("Filename") == Some(ReadBack(filename)) && printed("Size") == Back(p.size)
            && printed("SHA1") == Back(p.sha1) && printed("SHA256") == Back(p.sha256) && printed("MD5sum") == Back(p.md5)
  {
    PrintedRow(p, filename);
    KnownDisplayed(p, filename);
    RowNamesD(Printed(p, filename), ReadValues(KnownValues(p, filename)));
  }

  /** A record starts with its package's name. */
  lemma NameFirst(p: Package, filename: string)
    ensures RecordFields(p, filename) != [] && RecordFields(p, filename)[0] == Field("Package", p.name)
  {
    KnownDisplayed(p, filename);
    PresentHead(KNOWN, KnownValues(p, filename), p.extraFields);
  }

  // ------------------------------------------------------------------------- parsing

  /** The value that a control paragraph has under a name. */
  function Stated(input: string): string -> Option<string>
  {
    name => Lookup(ReadFields(input), name)
  }

  /** A paragraph is a package exactly if its version parses; what it leaves out is absent, or has its default. */
  lemma PackageParsed(input: string)
    ensures ParsePackage(input).Ok? <==> ParseVersion(OrElse(Stated(input)("Version"), "")).Some?
    ensures ParsePackage(input).Ok? ==>
              var p, stated := ParsePackage(input).value, Stated(input);
              && Some(p.version) == ParseVersion(OrElse(stated("Version"), ""))
              && p.name == OrElse(stated("Package"), "") && p.architecture == OrElse(stated("Architecture"), "")
              && p.maintainer == OrElse(stated("Maintainer"), "") && p.category == OrElse(stated("Section"), "")
              && p.license == OrElse(stated("License"), "unknown") && p.vendor == OrElse(stated("Vendor"), "none")
              && p.homepage == stated("Homepage") && p.origin == stated("Origin") && p.priority == stated("Priority")
              && p.installedSize == stated("Installed-Size") && p.description == stated("Description")
              && p.indexFilename == stated("Filename") && p.size == stated("Size")
              && p.sha1 == stated("SHA1") && p.sha256 == stated("SHA256") && p.md5 == stated("MD5sum")
              && p.dependencies == (if stated("Depends").Some? then ParseDependencies(stated("Depends").value) else [])
              && p.preDepends == stated("Pre-Depends") && p.recommends == stated("Recommends") && p.suggests == stated("Suggests")
              && p.enhances == stated("Enhances") && p.breaks == stated("Breaks") && p.conflicts == stated("Conflicts")
              && p.provided == stated("Provides") && p.replaced == stated("Replaces")
              && p.filename == "" && !p.noDepends && !p.ignoreIteration
  {
  }

  /** Extra fields lose an "X", at most three of the letters "B", "C" and "S", and a hyphen in front. */
  lemma ExtraName(letters: string, rest: string)
    requires |letters| <= 3 && forall i :: 0 <= i < |letters| ==> letters[i] in {'B', 'C', 'S'}
    ensures NormalizeExtraName("X" + letters + "-" + rest) == rest
  {
    var name := "X" + letters + "-" + rest;
    assert name[1..] == letters + ['-'] + rest;
    assert '-' !in letters;
    IndexOfFirst(letters, '-', rest);
    assert name[1..][|letters| + 1..] == rest;
  }

  /** Other names keep what they start with. */
  lemma OtherName(name: string, letters: string, rest: string)
    requires name == "" || name[0] != 'X' || '-' !in name ||
             (name == "X" + letters + ['-'] + rest && '-' !in letters && (|letters| > 3 || exists i :: 0 <= i < |letters| && letters[i] !in {'B', 'C', 'S'}))
    ensures NormalizeExtraName(name) == name
  {
    if name != "" && name[0] == 'X' {
      IndexOfAbsent(name[1..], '-');
      if '-' in name {
        assert name[1..] == letters + ['-'] + rest;
        IndexOfFirst(letters, '-', rest);
        if i :| 0 <= i < |letters| && letters[i] !in {'B', 'C', 'S'} { assert name[1..][i] == letters[i] && !StripClass(name[1..][i]); }
      }
    }
  }

  // ------------------------------------------------------------------- dependencies

  /** A dependency on versions of a package, or on others than one version. */
  datatype Need = Need(name: string, operator: string, version: string)

  ghost predicate Plainly(n: Need)
  {
    Term(n.name) && n.operator in OPERATORS && Term(n.version) && '_' !in n.version
  }

  ghost predicate AllPlainly(needs: seq<Need>)
  {
    forall i :: 0 <= i < |needs| ==> Plainly(needs[i])
  }

  function TextsOf(needs: seq<Need>): seq<string>
  {
    if needs == [] then [] else [Relation(needs[0].name, needs[0].operator, needs[0].version)] + TextsOf(needs[1..])
  }

  /** The relations that stay: all but the inequalities, with folded names. */
  function Kept(needs: seq<Need>): seq<string>
  {
    if needs == [] then []
    else
      (if needs[0].operator == "!=" then [] else [Relation(FoldedName(needs[0].name), needs[0].operator, needs[0].version)]) +
      Kept(needs[1..])
  }

  /** The conflicts with the versions that inequalities rule out. */
  function RuledOut(needs: seq<Need>): seq<string>
  {
    if needs == [] then []
    else
      (if needs[0].operator == "!=" then [Relation(FoldedName(needs[0].name), "=", needs[0].version)] else []) +
      RuledOut(needs[1..])
  }

  lemma {:induction false} NeedsPrint(needs: seq<Need>)
    requires AllPlainly(needs)
    ensures PrintedRelations(TextsOf(needs), false) == Kept(needs) && PrintedConflicts(TextsOf(needs), false) == RuledOut(needs)
  {
    if needs != [] {
      var n := needs[0];
      assert Plainly(n);
      RelationPrints(n.name, n.operator, n.version, false);
      NeedsPrint(needs[1..]);
      assert TextsOf(needs)[1..] == TextsOf(needs[1..]);
    }
  }

  /**
   The Depends line of a package lists its dependencies in order, without inequalities,
   which its Conflicts line lists after the package's own conflicts; a package without
   dependencies, or rendered without them, has no Depends line, but keeps the conflicts.
   */
  lemma NeedsPrinted(p: Package, needs: seq<Need>)
    requires AllPlainly(needs) && p.dependencies == TextsOf(needs) && !p.ignoreIteration
    ensures DependsValue(p) == if needs == [] || p.noDepends then None else Some(Join(Kept(needs), ", "))
    ensures var conflicts := (if p.conflicts.Some? then [p.conflicts.value] else []) + RuledOut(needs);
            ConflictsValue(p) == if conflicts == [] then None else Some(Join(conflicts, ", "))
  {
    NeedsPrint(needs);
  }
}
