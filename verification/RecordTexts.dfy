/**
 Records as text: what two equal texts say of the fields they were printed from, and
 exactly when a record that was read back prints as the same text.
 */
module RecordTexts {
  import opened Text
  import opened Control
  import opened Versions
  import opened Dependencies
  import opened RelationLists
  import opened Packages
  import opened PackageCodec
  import opened EntryCodec
  import opened RecordStability

  // ------------------------------------------------------------- lines tell fields apart

  /** The text of a value behind its field's name. */
  function Folded(value: string): string
  {
    Unlines(FieldLines(Field("", value)))
  }

  /** Fields with their values as they are printed. */
  function FoldedFields(fields: seq<Field>): (folded: seq<Field>)
    ensures |folded| == |fields|
  {
    if fields == [] then [] else [Field(fields[0].name, Folded(fields[0].value))] + FoldedFields(fields[1..])
  }

  function FoldedValues(values: seq<Option<string>>): (folded: seq<Option<string>>)
    ensures |folded| == |values|
  {
    if values == [] then []
    else [if values[0].Some? then Some(Folded(values[0].value)) else None] + FoldedValues(values[1..])
  }

  /** A name whose line can be told from a continuation. */
  ghost predicate NameText(name: string)
  {
    forall i :: 0 <= i < |name| ==> NameChar(name[i])
  }

  ghost predicate Named(fields: seq<Field>)
  {
    forall i :: 0 <= i < |fields| ==> NameText(fields[i].name)
  }

  /** A field's lines are its value's, with its name in front. */
  lemma NameInFront(field: Field)
    ensures var lines, bare := FieldLines(field), FieldLines(Field("", field.value));
            |lines| == |bare| >= 1 && lines[0] == field.name + bare[0] && lines[1..] == bare[1..]
    ensures var bare := FieldLines(Field("", field.value)); bare[0] != "" && bare[0][0] == ':'
  {
    var value := ValueLines(field.value);
    if value != [] {
      assert field.name + ": " + value[0] == field.name + (": " + value[0]);
      assert "" + ": " + value[0] == ": " + value[0];
    } else {
      assert field.name + ": " == field.name + ("" + ": ");
    }
  }

  lemma ContinuationLines(field: Field, i: nat)
    requires 1 <= i < |FieldLines(field)|
    ensures FieldLines(field)[i] != "" && FieldLines(field)[i][0] == ' '
  {
    FieldLinesAt(field, i);
  }

  /** Lines of a field: the first starts with its name, the others with a blank. */
  lemma LinesOfField(field: Field)
    requires NameText(field.name)
    ensures var lines, bare := FieldLines(field), FieldLines(Field("", field.value));
            && |lines| == |bare| >= 1 && lines[0] == field.name + bare[0] && lines[1..] == bare[1..]
            && bare[0] != "" && bare[0][0] == ':' && lines[0] != "" && lines[0][0] != ' '
            && forall i :: 1 <= i < |lines| ==> lines[i] != "" && lines[i][0] == ' '
  {
    NameInFront(field);
    forall i | 1 <= i < |FieldLines(field)| ensures FieldLines(field)[i] != "" && FieldLines(field)[i][0] == ' ' {
      ContinuationLines(field, i);
    }
  }

  lemma FieldLinesApart(field: Field)
    requires NameText(field.name)
    ensures Free(FieldLines(field), '\n')
  {
    ValueLinesFree(field.value, '\n');
    var value := ValueLines(field.value);
    if value != [] {
      FoldLinesFree(value[1..], '\n');
      assert '\n' !in field.name + ": " + value[0];
    }
  }

  lemma {:induction false} FieldsLinesApart(fields: seq<Field>)
    requires Named(fields)
    ensures Free(FieldsLines(fields), '\n')
  {
    if fields != [] {
      FieldLinesApart(fields[0]);
      FieldsLinesApart(fields[1..]);
    }
  }

  lemma UnlinesTold(a: seq<string>, b: seq<string>)
    requires Free(a, '\n') && Free(b, '\n') && Unlines(a) == Unlines(b)
    ensures a == b
  {
    SplitUnlines(a);
    SplitUnlines(b);
    assert a == (a + [""])[..|a|] && b == (b + [""])[..|b|];
  }

  /** Behind its first field's lines a text ends, or a line starts that is no continuation. */
  lemma AfterFirst(fields: seq<Field>)
    requires fields != [] && Named(fields)
    ensures var lines, n := FieldsLines(fields), |FieldLines(fields[0])|;
            n <= |lines| && (n < |lines| ==> lines[n] != "" && lines[n][0] != ' ')
  {
    LinesOfField(fields[0]);
    if |fields| > 1 {
      LinesOfField(fields[1]);
      assert FieldsLines(fields[1..])[0] == FieldLines(fields[1])[0];
    }
  }

  /** The lines of a first field end where a line starts a new one. */
  lemma FirstLength(a: seq<Field>, b: seq<Field>)
    requires a != [] && b != [] && Named(a) && Named(b) && FieldsLines(a) == FieldsLines(b)
    ensures |FieldLines(a[0])| >= |FieldLines(b[0])|
  {
    AfterFirst(a);
    AfterFirst(b);
    LinesOfField(a[0]);
    LinesOfField(b[0]);
    assert forall i :: 0 <= i < |FieldLines(b[0])| ==> FieldsLines(b)[i] == FieldLines(b[0])[i];
  }

  lemma FirstField(a: Field, b: Field)
    requires NameText(a.name) && NameText(b.name) && FieldLines(a) == FieldLines(b)
    ensures a.name == b.name && Folded(a.value) == Folded(b.value)
  {
    LinesOfField(a);
    LinesOfField(b);
    var bareA, bareB := FieldLines(Field("", a.value)), FieldLines(Field("", b.value));
    assert ':' !in a.name && ':' !in b.name;
    assert a.name + bareA[0] == a.name + [':'] + bareA[0][1..];
    assert b.name + bareB[0] == b.name + [':'] + bareB[0][1..];
    IndexOfFirst(a.name, ':', bareA[0][1..]);
    IndexOfFirst(b.name, ':', bareB[0][1..]);
    var line := FieldLines(a)[0];
    assert line[..|a.name|] == a.name && line[..|b.name|] == b.name;
    assert line[|a.name|..] == bareA[0] && line[|b.name|..] == bareB[0];
    assert bareA == [bareA[0]] + bareA[1..] && bareB == [bareB[0]] + bareB[1..];
  }

  lemma {:induction false} SameLines(a: seq<Field>, b: seq<Field>)
    requires Named(a) && Named(b) && FieldsLines(a) == FieldsLines(b)
    ensures FoldedFields(a) == FoldedFields(b)
  {
    if a != [] { LinesOfField(a[0]); }
    if b != [] { LinesOfField(b[0]); }
    if a != [] && b != [] {
      FirstLength(a, b);
      FirstLength(b, a);
      var n := |FieldLines(a[0])|;
      assert FieldLines(a[0]) == FieldsLines(a)[..n] == FieldsLines(b)[..n] == FieldLines(b[0]);
      assert FieldsLines(a[1..]) == FieldsLines(a)[n..] == FieldsLines(b)[n..] == FieldsLines(b[1..]);
      FirstField(a[0], b[0]);
      SameLines(a[1..], b[1..]);
    }
  }

  /** Field lists with the same text have the same names in the same order, and values that print alike. */
  lemma SameText(a: seq<Field>, b: seq<Field>)
    requires Named(a) && Named(b) && FieldsText(a) == FieldsText(b)
    ensures FoldedFields(a) == FoldedFields(b)
  {
    FieldsLinesApart(a);
    FieldsLinesApart(b);
    UnlinesTold(FieldsLines(a), FieldsLines(b));
    SameLines(a, b);
  }

  // --------------------------------------------------------------------- records as text

  lemma {:induction false} FoldedConcat(a: seq<Field>, b: seq<Field>)
    ensures FoldedFields(a + b) == FoldedFields(a) + FoldedFields(b)
  {
    if a == [] {
      assert [] + b == b;
    } else {
      assert (a + b)[1..] == a[1..] + b;
      FoldedConcat(a[1..], b);
    }
  }

  lemma {:induction false} FoldedPresent(names: seq<string>, values: seq<Option<string>>)
    requires |names| == |values|
    ensures FoldedFields(Present(names, values)) == Present(names, FoldedValues(values))
  {
    if names != [] {
      FoldedPresent(names[1..], values[1..]);
      var first := if values[0].Some? then [Field(names[0], values[0].value)] else [];
      FoldedConcat(first, Present(names[1..], values[1..]));
      assert FoldedValues(values)[1..] == FoldedValues(values[1..]);
      if values[0].Some? { assert first[1..] == []; }
    }
  }

  lemma {:induction false} FoldedAt(values: seq<Option<string>>, i: nat)
    requires i < |values|
    ensures FoldedValues(values)[i] == if values[i].Some? then Some(Folded(values[i].value)) else None
  {
    if i > 0 { FoldedAt(values[1..], i - 1); }
  }

  /** Records with the same text agree on every known value as it is printed, and on their extra fields. */
  lemma SameRecordText(p: Package, filename: string, q: Package, location: string)
    requires Named(RecordFields(p, filename)) && Named(RecordFields(q, location))
    requires FieldsText(RecordFields(p, filename)) == FieldsText(RecordFields(q, location))
    ensures FoldedValues(KnownValues(p, filename)) == FoldedValues(KnownValues(q, location))
    ensures FoldedFields(p.extraFields) == FoldedFields(q.extraFields)
  {
    var a, b := KnownValues(p, filename), KnownValues(q, location);
    SameText(RecordFields(p, filename), RecordFields(q, location));
    FoldedConcat(Present(KNOWN, a), p.extraFields);
    FoldedConcat(Present(KNOWN, b), q.extraFields);
    FoldedPresent(KNOWN, a);
    FoldedPresent(KNOWN, b);
    Described(p, filename);
    Described(q, location);
    FoldedAt(a, |KNOWN| - 1);
    FoldedAt(b, |KNOWN| - 1);
    SameRecord(FoldedValues(a), FoldedFields(p.extraFields), FoldedValues(b), FoldedFields(q.extraFields));
  }

  /** A value on one line is told from its printed form. */
  lemma FoldedLine(a: string, b: string)
    requires '\n' !in a && '\n' !in b && Folded(a) == Folded(b)
    ensures a == b
  {
    FoldedWhole(a);
    FoldedWhole(b);
    assert (": " + a + "\n")[2..|a| + 2] == a && (": " + b + "\n")[2..|b| + 2] == b;
  }

  lemma OneLineLines(value: string)
    requires '\n' !in value
    ensures ValueLines(value) == if value == "" then [] else [value]
  {
    SplitWhole(value, '\n');
    if value != "" { assert DropEmptyTail([value]) == [value]; }
  }

  lemma OneLineField(value: string)
    requires '\n' !in value
    ensures FieldLines(Field("", value)) == [": " + value]
  {
    OneLineLines(value);
    if value == "" {
      assert "" + ": " == ": " + value;
    } else {
      assert [value][1..] == [] && "" + ": " + value == ": " + value;
    }
  }

  lemma FoldedWhole(value: string)
    requires '\n' !in value
    ensures Folded(value) == ": " + value + "\n"
  {
    OneLineField(value);
    OneUnline(": " + value);
  }

  lemma OneUnline(line: string)
    ensures Unlines([line]) == line + "\n"
  {
    assert [line][1..] == [];
  }

  // ------------------------------------------------------------------------ names printed

  lemma {:induction false} PresentNamed(names: seq<string>, values: seq<Option<string>>)
    requires |names| == |values| && forall i :: 0 <= i < |names| ==> NameText(names[i])
    ensures Named(Present(names, values))
  {
    if names != [] {
      PresentNamed(names[1..], values[1..]);
      var first := if values[0].Some? then [Field(names[0], values[0].value)] else [];
      assert Present(names, values) == first + Present(names[1..], values[1..]);
    }
  }

  lemma RecordNamed(p: Package, filename: string)
    requires Named(p.extraFields)
    ensures Named(RecordFields(p, filename))
  {
    KnownValid();
    PresentNamed(KNOWN, KnownValues(p, filename));
  }

  lemma NormalizedName(name: string)
    requires NameText(name)
    ensures NameText(NormalizeExtraName(name))
  {
  }

  lemma {:induction false} ExtrasNamed(done: seq<Field>, fields: seq<Field>)
    requires Named(done) && Named(fields)
    ensures Named(AddExtras(done, fields))
    decreases |fields|
  {
    if fields != [] {
      NormalizedName(fields[0].name);
      ExtrasNamed(SetField(done, NormalizeExtraName(fields[0].name), fields[0].value), fields[1..]);
    }
  }

  lemma {:induction false} UnknownNamed(fields: seq<Field>)
    requires Named(fields)
    ensures Named(Unknown(fields))
  {
    if fields != [] { UnknownNamed(fields[1..]); }
  }

  lemma {:induction false} FoldedSameNames(a: seq<Field>, b: seq<Field>)
    requires FoldedFields(a) == FoldedFields(b)
    ensures NamesOf(a) == NamesOf(b)
  {
    if a != [] {
      assert |FoldedFields(a)| == |FoldedFields(b)|;
      assert FoldedFields(a)[0] == FoldedFields(b)[0] && FoldedFields(a)[1..] == FoldedFields(b)[1..];
      FoldedSameNames(a[1..], b[1..]);
    }
  }

  /** Extra fields that come back under the same names are stable. */
  lemma ExtrasSameNames(extras: seq<Field>)
    requires DistinctNames(extras) && FoldedFields(AddExtras([], Unknown(extras))) == FoldedFields(extras)
    ensures StableExtras(extras)
  {
    FoldedSameNames(AddExtras([], Unknown(extras)), extras);
    assert |NamesOf(AddExtras([], Unknown(extras)))| == |NamesOf(extras)|;
    UnknownFewer(extras);
    ExtrasFewer([], Unknown(extras));
    KeptNames(extras);
  }

  // ------------------------------------------------------------------------- the theorem

  /** Relations on one line each, as all well-formed ones and all others but those folded in their middle are. */
  predicate OneLineRelations(p: Package)
  {
    forall i :: 0 <= i < |p.dependencies| ==> '\n' !in p.dependencies[i]
  }

  lemma DependsOneLine(p: Package, q: Package)
    requires OneLineRelations(p) && q.dependencies == (if DependsValue(p).Some? then ParseDependencies(DependsValue(p).value) else [])
    ensures DependsValue(p).Some? ==> '\n' !in DependsValue(p).value
    ensures DependsValue(q).Some? ==> '\n' !in DependsValue(q).value
  {
    PrintedFree(p.dependencies, p.ignoreIteration, '\n');
    JoinFree(PrintedRelations(p.dependencies, p.ignoreIteration), ", ", '\n');
    if DependsValue(p).Some? { ParseFree(DependsValue(p).value, '\n'); }
    PrintedFree(q.dependencies, q.ignoreIteration, '\n');
    JoinFree(PrintedRelations(q.dependencies, q.ignoreIteration), ", ", '\n');
  }

  /** An entry whose record has the same text as the package's: the package's extra fields are stable. */
  lemma SameTextExtras(p: Package, filename: string)
    requires Rereadable(p, filename) && ParsePackage(FieldsText(RecordFields(p, filename))).Ok?
    requires FieldsText(Reprinted(ParsePackage(FieldsText(RecordFields(p, filename))).value)) == FieldsText(RecordFields(p, filename))
    ensures StableExtras(p.extraFields)
  {
    var q := ParsePackage(FieldsText(RecordFields(p, filename))).value;
    ReadExtraFields(p, filename);
    WritableConcat(Present(KNOWN, KnownValues(p, filename)), p.extraFields);
    UnknownNamed(p.extraFields);
    ExtrasNamed([], Unknown(p.extraFields));
    RecordNamed(p, filename);
    RecordNamed(q, OrElse(q.indexFilename, ""));
    SameRecordText(q, OrElse(q.indexFilename, ""), p, filename);
    ExtrasSameNames(p.extraFields);
  }

  /** With stable extra fields, the version and the Depends line are told from the text. */
  lemma SameTextValues(p: Package, filename: string)
    requires Rereadable(p, filename) && StableExtras(p.extraFields)
    requires FieldsText(RecordFields(Reread(p, filename), filename)) == FieldsText(RecordFields(p, filename))
    ensures !LeadingHyphenOnly(FullVersion(p.version)) && (OneLineRelations(p) ==> DependsLasts(p))
  {
    var q := Reread(p, filename);
    var a, b := KnownValues(p, filename), KnownValues(q, filename);
    WritableConcat(Present(KNOWN, a), p.extraFields);
    RecordNamed(p, filename);
    RecordNamed(q, filename);
    SameRecordText(p, filename, q, filename);
    KnownAt(p, filename);
    KnownAt(q, filename);
    FoldedAt(a, 1);
    FoldedAt(b, 1);
    FoldedAt(a, 7);
    FoldedAt(b, 7);
    SameVersion(p, q);
    if OneLineRelations(p) {
      DependsOneLine(p, q);
      if DependsValue(p).Some? { FoldedLine(DependsValue(p).value, DependsValue(q).value); }
      DependsFixed(p, filename);
    }
  }

  lemma SameVersion(p: Package, q: Package)
    requires ParseVersion(FullVersion(p.version)) == Some(q.version)
    requires Folded(FullVersion(p.version)) == Folded(FullVersion(q.version))
    ensures !LeadingHyphenOnly(FullVersion(p.version))
  {
    var s := FullVersion(p.version);
    VersionStableAfterOnePass(s);
    VersionLine(s);
    VersionLine(FullVersion(q.version));
    FoldedLine(s, FullVersion(q.version));
    VersionFixed(s);
  }

  /** The record that rendering what was read back gives, if it gives one. */
  lemma RenderedAgain(p: Package, filename: string, other: string)
    requires Rereadable(p, filename) && ParsePackage(FieldsText(RecordFields(p, filename))).Ok?
    ensures var q := ParsePackage(FieldsText(RecordFields(p, filename))).value; Render(q, other) == Ok(FieldsText(Reprinted(q)))
  {
    EntryReadsBack(p, filename);
  }

  /**
   Rendering, parsing and rendering again under any codename gives the same text if the
   package is stable, and only if it is, but for relations that are folded in their middle.
   */
  lemma RenderFixed(p: Package, codename: string, other: string)
    requires RepositoryFilename(p, codename).Ok? && Rereadable(p, RepositoryFilename(p, codename).value)
    ensures Render(p, codename).Ok?
    ensures var text := Render(p, codename).value;
            var same := ParsePackage(text).Ok? && Render(ParsePackage(text).value, other) == Ok(text);
            && (Stable(p) ==> same)
            && (same ==> StableExtras(p.extraFields) && !LeadingHyphenOnly(FullVersion(p.version)))
            && (OneLineRelations(p) ==> (same <==> Stable(p)))
  {
    var filename := RepositoryFilename(p, codename).value;
    var text := Render(p, codename).value;
    RecordFixed(p, filename);
    if ParsePackage(text).Ok? {
      RenderedAgain(p, filename, other);
      if FieldsText(Reprinted(ParsePackage(text).value)) == text {
        SameTextExtras(p, filename);
        ParseUndoesRender(p, codename);
        SameTextValues(p, filename);
      }
    }
  }
}
