/**
 Printing a record again: what it reads back as, and exactly when the entry read back
 prints the fields it was read from.
 */
module RecordStability {
  import opened Text
  import opened Control
  import opened Versions
  import opened Dependencies
  import opened DependencyStability
  import opened RelationLists
  import opened Packages
  import opened PackageCodec
  import opened EntryCodec

  ghost predicate AllNormal(fields: seq<Field>)
  {
    forall i :: 0 <= i < |fields| ==> NormalValue(fields[i].value)
  }

  /** A record that parses, of values that folding leaves alone, with relations as they come from a control field. */
  ghost predicate Rereadable(p: Package, filename: string)
  {
    && WritableFields(RecordFields(p, filename)) && AllNormal(RecordFields(p, filename))
    && DistinctNames(p.extraFields) && GoodRelations(p.dependencies)
    && ParseVersion(FullVersion(p.version)).Some?
  }

  /** The guards: extra fields stay extra, the version's only hyphen does not lead, and the relations last. */
  ghost predicate Stable(p: Package)
  {
    && StableExtras(p.extraFields)
    && !LeadingHyphenOnly(FullVersion(p.version))
    && DependsLasts(p)
  }

  ghost predicate DependsLasts(p: Package)
  {
    p.dependencies != [] && !p.noDepends ==>
      !Empty(p.dependencies) && AllLast(p.dependencies, p.ignoreIteration)
  }

  // ------------------------------------------------------------- relations as they come

  ghost predicate UnblankedStart(value: string)
  {
    value == "" || value[0] != ' '
  }

  ghost predicate UnblankedFields(fields: seq<Field>)
  {
    forall i :: 0 <= i < |fields| ==> UnblankedStart(fields[i].value)
  }

  lemma SetUnblanked(fields: seq<Field>, name: string, value: string)
    requires UnblankedFields(fields) && UnblankedStart(value)
    ensures UnblankedFields(SetField(fields, name, value))
  {
  }

  lemma LineUnblanked(r: Reading, line: string)
    requires UnblankedFields(r.fields) && UnblankedStart(r.value)
    ensures UnblankedFields(ReadLine(r, line).fields) && UnblankedStart(ReadLine(r, line).value)
  {
    match Continuation(line)
    case Some((indent, rest)) =>
    case None =>
      if ControlField(line).Some? {
        var (name, value) := ControlField(line).value;
        SetUnblanked(r.fields, r.name, r.value);
        TrimSpaceTrimmed(value);
      }
  }

  lemma {:induction false} LinesUnblanked(r: Reading, lines: seq<string>)
    requires UnblankedFields(r.fields) && UnblankedStart(r.value)
    ensures UnblankedFields(Commit(ReadLines(r, lines)))
    decreases |lines|
  {
    if lines == [] {
      SetUnblanked(r.fields, r.name, r.value);
    } else {
      LineUnblanked(r, TrimReturn(lines[0]));
      LinesUnblanked(ReadLine(r, TrimReturn(lines[0])), lines[1..]);
    }
  }

  lemma DependsRead(fields: seq<Field>)
    requires FromFields(fields).Ok?
    ensures FromFields(fields).value.dependencies ==
            match Lookup(fields, "Depends") case Some(value) => ParseDependencies(value) case None => []
  {
  }

  /** Relations of a package that was parsed are good: no field value starts with a blank. */
  lemma ParsedRelationsGood(input: string)
    requires ParsePackage(input).Ok?
    ensures GoodRelations(ParsePackage(input).value.dependencies)
  {
    var fields := ReadFields(input);
    LinesUnblanked(Reading([], "", ""), Split(NormalizeNewlines(input), '\n'));
    DependsRead(fields);
    if Lookup(fields, "Depends").Some? { ParsedGood(Lookup(fields, "Depends").value); }
  }

  // ----------------------------------------------------------------- reading it back

  lemma {:induction false} NormalReadBack(fields: seq<Field>)
    requires AllNormal(fields)
    ensures ReadBackFields(fields) == fields
  {
    if fields != [] {
      ReadBackFixed(fields[0].value);
      NormalReadBack(fields[1..]);
    }
  }

  lemma NormalConcat(a: seq<Field>, b: seq<Field>)
    requires AllNormal(a + b)
    ensures AllNormal(a) && AllNormal(b)
  {
    forall i | 0 <= i < |a| ensures NormalValue(a[i].value) { assert (a + b)[i] == a[i]; }
    forall i | 0 <= i < |b| ensures NormalValue(b[i].value) { assert (a + b)[|a| + i] == b[i]; }
  }

  lemma NormalParts(p: Package, filename: string)
    requires AllNormal(RecordFields(p, filename))
    ensures ReadValues(KnownValues(p, filename)) == KnownValues(p, filename)
    ensures ReadBackFields(p.extraFields) == p.extraFields
  {
    var values := KnownValues(p, filename);
    NormalConcat(Present(KNOWN, values), p.extraFields);
    NormalReadBack(p.extraFields);
    NormalReadBack(Present(KNOWN, values));
    ReadBackPresent(KNOWN, values);
    PresentInjective(ReadValues(values), values);
  }

  lemma PresentInjective(a: seq<Option<string>>, b: seq<Option<string>>)
    requires |a| == |b| == |KNOWN| && Present(KNOWN, a) == Present(KNOWN, b)
    ensures a == b
  {
    forall i | 0 <= i < |KNOWN| ensures a[i] == b[i] {
      KnownLookup(a, i);
      KnownLookup(b, i);
    }
  }

  lemma ReadNormal(p: Package, filename: string)
    requires Rereadable(p, filename)
    ensures ReadFields(FieldsText(RecordFields(p, filename))) == SetAll(Present(KNOWN, KnownValues(p, filename)), p.extraFields)
  {
    RecordSet(p, filename);
    NormalParts(p, filename);
  }

  // ------------------------------------------------------------------- what is unknown

  /** None of these fields has the name of an unknown one among the others. */
  ghost predicate KnownShared(done: seq<Field>, fields: seq<Field>)
  {
    forall i, j :: 0 <= i < |done| && 0 <= j < |fields| && done[i].name == fields[j].name ==> Unknown([fields[j]]) == []
  }

  /** Setting fields among known ones: the unknown ones among them are what is unknown after it. */
  lemma {:induction false} SetUnknown(done: seq<Field>, fields: seq<Field>)
    requires DistinctNames(fields) && KnownShared(done, fields)
    ensures Unknown(SetAll(done, fields)) == Unknown(done) + Unknown(fields)
    decreases |fields|
  {
    if fields == [] {
      assert Unknown(done) + [] == Unknown(done);
    } else {
      SharedNext(done, fields);
      SetUnknown(SetField(done, fields[0].name, fields[0].value), fields[1..]);
      UnknownSet(done, fields[0]);
      UnknownHead(done, fields);
    }
  }

  lemma UnknownHead(done: seq<Field>, fields: seq<Field>)
    requires fields != []
    ensures Unknown(done) + Unknown(fields) == Unknown(done) + Unknown([fields[0]]) + Unknown(fields[1..])
  {
    assert [fields[0]] + fields[1..] == fields;
    UnknownConcat([fields[0]], fields[1..]);
  }

  lemma SharedNext(done: seq<Field>, fields: seq<Field>)
    requires fields != [] && DistinctNames(fields) && KnownShared(done, fields)
    ensures KnownShared(SetField(done, fields[0].name, fields[0].value), fields[1..]) && KnownShared(done, [fields[0]])
  {
    var next := SetField(done, fields[0].name, fields[0].value);
    forall i, j | 0 <= i < |next| && 0 <= j < |fields[1..]| && next[i].name == fields[1..][j].name ensures Unknown([fields[1..][j]]) == [] {
      assert fields[1..][j] == fields[j + 1] && fields[0].name != fields[j + 1].name;
      if i < |done| { assert next[i].name == done[i].name; }
    }
  }

  lemma UnknownSet(done: seq<Field>, field: Field)
    requires KnownShared(done, [field])
    ensures Unknown(SetField(done, field.name, field.value)) == Unknown(done) + Unknown([field])
  {
    var k := Find(done, field.name);
    if k < |done| {
      assert done[k].name == [field][0].name;
      UnknownReplaced(done, k, field);
      assert Unknown(done) + [] == Unknown(done);
    } else {
      UnknownConcat(done, [field]);
    }
  }

  lemma UnknownReplaced(done: seq<Field>, k: nat, field: Field)
    requires k < |done| && done[k].name == field.name && Unknown([field]) == []
    ensures Unknown(done[k := field]) == Unknown(done)
  {
    var a, b := done[..k], done[k + 1..];
    SameKind(done[k], field);
    assert done == a + [done[k]] + b && done[k := field] == a + [field] + b;
    UnknownConcat(a + [done[k]], b);
    UnknownConcat(a, [done[k]]);
    UnknownConcat(a + [field], b);
    UnknownConcat(a, [field]);
  }

  lemma SameKind(a: Field, b: Field)
    requires a.name == b.name && Unknown([b]) == []
    ensures Unknown([a]) == []
  {
    assert [a][1..] == [] && [b][1..] == [];
  }

  lemma {:induction false} UnknownConcat(a: seq<Field>, b: seq<Field>)
    ensures Unknown(a + b) == Unknown(a) + Unknown(b)
  {
    if a == [] {
      assert a + b == b;
    } else {
      assert (a + b)[1..] == a[1..] + b;
      UnknownConcat(a[1..], b);
    }
  }

  lemma {:induction false} UnknownFewer(fields: seq<Field>)
    ensures |Unknown(fields)| <= |fields|
    ensures |Unknown(fields)| == |fields| ==> Unknown(fields) == fields && forall i :: 0 <= i < |fields| ==> fields[i].name !in KNOWN
  {
    if fields != [] { UnknownFewer(fields[1..]); }
  }

  function NamesOf(fields: seq<Field>): (names: seq<string>)
    ensures |names| == |fields|
  {
    if fields == [] then [] else [fields[0].name] + NamesOf(fields[1..])
  }

  function Stripped(fields: seq<Field>): (names: seq<string>)
    ensures |names| == |fields|
  {
    if fields == [] then [] else [NormalizeExtraName(fields[0].name)] + Stripped(fields[1..])
  }

  lemma {:induction false} NamesAt(fields: seq<Field>, i: nat)
    requires i < |fields|
    ensures NamesOf(fields)[i] == fields[i].name && Stripped(fields)[i] == NormalizeExtraName(fields[i].name)
  {
    if i > 0 { NamesAt(fields[1..], i - 1); }
  }

  lemma {:induction false} NamesMore(fields: seq<Field>, last: Field)
    ensures NamesOf(fields + [last]) == NamesOf(fields) + [last.name]
  {
    if fields == [] {
      assert [last][1..] == [] && fields + [last] == [last];
    } else {
      assert (fields + [last])[1..] == fields[1..] + [last];
      NamesMore(fields[1..], last);
    }
  }

  /** Extra fields are not lost by normalising only if each adds a field of its own. */
  lemma {:induction false} ExtrasFewer(done: seq<Field>, fields: seq<Field>)
    ensures |AddExtras(done, fields)| <= |done| + |fields|
    ensures |AddExtras(done, fields)| == |done| + |fields| ==> NamesOf(AddExtras(done, fields)) == NamesOf(done) + Stripped(fields)
    decreases |fields|
  {
    if fields == [] {
      assert NamesOf(done) + [] == NamesOf(done);
    } else {
      var field := Field(NormalizeExtraName(fields[0].name), fields[0].value);
      ExtrasFewer(SetField(done, field.name, field.value), fields[1..]);
      NamesMore(done, field);
      assert Stripped(fields) == [field.name] + Stripped(fields[1..]);
      Regrouped(NamesOf(done), [field.name], Stripped(fields[1..]));
    }
  }

  lemma Regrouped<T>(a: seq<T>, b: seq<T>, c: seq<T>)
    ensures a + b + c == a + (b + c)
  {
  }

  lemma StableBack(extras: seq<Field>)
    requires StableExtras(extras)
    ensures AddExtras([], Unknown(extras)) == extras
  {
    UnknownAll(extras);
    assert [] + extras == extras;
    ExtrasAppended([], extras);
  }

  /** Extra fields that come back under their own names have no prefix to lose. */
  lemma KeptNames(extras: seq<Field>)
    requires NamesOf(AddExtras([], extras)) == NamesOf(extras)
    ensures forall i :: 0 <= i < |extras| ==> NormalizeExtraName(extras[i].name) == extras[i].name
  {
    ExtrasFewer([], extras);
    assert |AddExtras([], extras)| == |NamesOf(AddExtras([], extras))|;
    assert [] + Stripped(extras) == Stripped(extras);
    forall i | 0 <= i < |extras| ensures NormalizeExtraName(extras[i].name) == extras[i].name { NamesAt(extras, i); }
  }

  /** Extra fields come back as they were exactly when they are stable. */
  lemma ExtrasFixed(extras: seq<Field>)
    requires DistinctNames(extras)
    ensures AddExtras([], Unknown(extras)) == extras <==> StableExtras(extras)
  {
    if StableExtras(extras) {
      StableBack(extras);
    } else if AddExtras([], Unknown(extras)) == extras {
      UnknownFewer(extras);
      ExtrasFewer([], Unknown(extras));
      KeptNames(extras);
    }
  }

  lemma {:induction false} PresentKnown(names: seq<string>, values: seq<Option<string>>)
    requires |names| == |values| && forall i :: 0 <= i < |names| ==> names[i] in KNOWN
    ensures forall i :: 0 <= i < |Present(names, values)| ==> Present(names, values)[i].name in KNOWN
  {
    if names != [] {
      PresentKnown(names[1..], values[1..]);
      var first := if values[0].Some? then [Field(names[0], values[0].value)] else [];
      assert Present(names, values) == first + Present(names[1..], values[1..]);
    }
  }

  lemma {:induction false} NothingUnknown(fields: seq<Field>)
    requires forall i :: 0 <= i < |fields| ==> fields[i].name in KNOWN
    ensures Unknown(fields) == []
  {
    if fields != [] { NothingUnknown(fields[1..]); }
  }

  lemma AllIn<T>(items: seq<T>)
    ensures forall i :: 0 <= i < |items| ==> items[i] in items
  {
  }

  lemma KnownInFront(values: seq<Option<string>>)
    requires |values| == |KNOWN|
    ensures forall i :: 0 <= i < |Present(KNOWN, values)| ==> Present(KNOWN, values)[i].name in KNOWN
    ensures Unknown(Present(KNOWN, values)) == []
  {
    AllIn(KNOWN);
    PresentKnown(KNOWN, values);
    NothingUnknown(Present(KNOWN, values));
  }

  lemma KnownBefore(values: seq<Option<string>>, extras: seq<Field>)
    requires |values| == |KNOWN|
    ensures KnownShared(Present(KNOWN, values), extras) && Unknown(Present(KNOWN, values)) == []
  {
    var front := Present(KNOWN, values);
    KnownInFront(values);
    forall i, j | 0 <= i < |front| && 0 <= j < |extras| && front[i].name == extras[j].name ensures Unknown([extras[j]]) == [] {
      AlsoKnown(front[i], extras[j]);
    }
  }

  lemma AlsoKnown(a: Field, b: Field)
    requires a.name in KNOWN && a.name == b.name
    ensures Unknown([b]) == []
  {
    assert [b][1..] == [];
  }

  /** The extra fields a printed record reads back with. */
  lemma ReadExtraFields(p: Package, filename: string)
    requires Rereadable(p, filename) && ParsePackage(FieldsText(RecordFields(p, filename))).Ok?
    ensures ParsePackage(FieldsText(RecordFields(p, filename))).value.extraFields == AddExtras([], Unknown(p.extraFields))
  {
    var front := Present(KNOWN, KnownValues(p, filename));
    ReadNormal(p, filename);
    KnownBefore(KnownValues(p, filename), p.extraFields);
    SetUnknown(front, p.extraFields);
    assert [] + Unknown(p.extraFields) == Unknown(p.extraFields);
    ExtrasOf(SetAll(front, p.extraFields));
  }

  lemma ExtrasOf(fields: seq<Field>)
    requires FromFields(fields).Ok?
    ensures FromFields(fields).value.extraFields == AddExtras([], Unknown(fields))
  {
  }

  // ---------------------------------------------------------------- the entry read back

  lemma RowReread(p: Package, filename: string)
    requires ParseVersion(FullVersion(p.version)).Some?
    ensures FromRow(KnownValues(p, filename), p.extraFields) == Ok(Reread(p, filename))
  {
    var values := KnownValues(p, filename);
    var find := Taken(values);
    TakenRow(values);
    RowNamesA(find, values);
    RowNamesB(find, values);
    RowNamesC(find, values);
    RowNamesD(find, values);
    DisplayAt(Some(p.name), Some(FullVersion(p.version)), Some(p.license), Some(p.vendor),
              Some(p.architecture), Some(p.maintainer), Some(OrElse(p.installedSize, "")), DependsValue(p),
              ConflictsValue(p), p.breaks, p.preDepends, p.provided, p.replaced, p.recommends, p.suggests,
              p.enhances, Some(p.category), p.origin, Some(OrElse(p.priority, "")),
              Some(OrElse(p.homepage, NO_HOMEPAGE)), Some(filename), p.size, p.sha1, p.sha256, p.md5,
              Some(OrElse(p.description, NO_DESCRIPTION)));
  }

  /** Parsing a printed record gives the package as an index entry. */
  lemma ParseUndoesRender(p: Package, codename: string)
    requires RepositoryFilename(p, codename).Ok? && Rereadable(p, RepositoryFilename(p, codename).value) && StableExtras(p.extraFields)
    ensures Render(p, codename).Ok?
    ensures ParsePackage(Render(p, codename).value) == Ok(Reread(p, RepositoryFilename(p, codename).value))
  {
    var filename := RepositoryFilename(p, codename).value;
    RecordRow(p, filename);
    NormalParts(p, filename);
    RowReread(p, filename);
  }

  // ----------------------------------------------------------------- records are equal

  lemma {:induction false} PresentLast(names: seq<string>, values: seq<Option<string>>)
    requires |names| == |values| && names != [] && values[|values| - 1].Some?
    ensures Present(names, values) != []
    ensures Present(names, values)[|Present(names, values)| - 1].name == names[|names| - 1]
  {
    if |names| == 1 {
      assert Present(names[1..], values[1..]) == [];
    } else {
      PresentLast(names[1..], values[1..]);
    }
  }

  lemma LastOnce(a: seq<Field>, b: seq<Field>, more: seq<Field>, rest: seq<Field>)
    requires a != [] && b != [] && DistinctNames(b) && a + more == b + rest
    requires a[|a| - 1].name == b[|b| - 1].name
    ensures |a| >= |b|
  {
    forall k | 0 <= k < |a| && k < |b| ensures a[k] == b[k] { assert a[k] == (a + more)[k] == (b + rest)[k] == b[k]; }
  }

  /** Two records with a description have the same fields only if their known and their extra fields agree. */
  lemma SameRecord(a: seq<Option<string>>, more: seq<Field>, b: seq<Option<string>>, rest: seq<Field>)
    requires |a| == |b| == |KNOWN| && a[|KNOWN| - 1].Some? && b[|KNOWN| - 1].Some?
    requires Present(KNOWN, a) + more == Present(KNOWN, b) + rest
    ensures a == b && more == rest
  {
    var front, other := Present(KNOWN, a), Present(KNOWN, b);
    KnownDistinct();
    PresentDistinct(KNOWN, a);
    PresentDistinct(KNOWN, b);
    PresentLast(KNOWN, a);
    PresentLast(KNOWN, b);
    LastOnce(front, other, more, rest);
    LastOnce(other, front, rest, more);
    assert front == (front + more)[..|front|] == (other + rest)[..|other|] == other;
    assert more == (front + more)[|front|..] == (other + rest)[|other|..] == rest;
    PresentInjective(a, b);
  }

  // --------------------------------------------------------------------- field by field

  lemma DependsFixed(p: Package, filename: string)
    requires GoodRelations(p.dependencies)
    ensures DependsValue(Reread(p, filename)) == DependsValue(p) <==> DependsLasts(p)
  {
    if p.dependencies != [] && !p.noDepends {
      var text := Join(PrintedRelations(p.dependencies, p.ignoreIteration), ", ");
      EmptyLine(p.dependencies, p.ignoreIteration);
      if text != "" {
        DependsLineFixed(p.dependencies, p.ignoreIteration);
        ParsesSome(text);
      }
    }
  }

  lemma ParsesSome(text: string)
    requires text != ""
    ensures ParseDependencies(text) != []
  {
  }

  lemma {:induction false} FixedPrint(rs: seq<string>)
    requires AllFixed(rs, false)
    ensures PrintedConflicts(rs, false) == []
  {
    if rs != [] {
      assert Normalize(rs[0], false) == ([rs[0]], "");
      FixedPrint(rs[1..]);
    }
  }

  lemma RelationsFixed(p: Package, filename: string)
    requires GoodRelations(p.dependencies) && DependsLasts(p)
    ensures PrintedConflicts(Reread(p, filename).dependencies, false) == []
  {
    if p.dependencies != [] && !p.noDepends {
      var rs := PrintedRelations(p.dependencies, p.ignoreIteration);
      EmptyLine(p.dependencies, p.ignoreIteration);
      EachLasts(p.dependencies, p.ignoreIteration);
      ParseJoined(rs);
      FixedPrint(rs);
    }
  }

  lemma ConflictsFixed(p: Package, filename: string)
    requires PrintedConflicts(Reread(p, filename).dependencies, false) == []
    ensures ConflictsValue(Reread(p, filename)) == ConflictsValue(p)
  {
    var text := ConflictsValue(p);
    if text.Some? { assert [text.value] + [] == [text.value]; }
  }

  lemma VersionFixed(s: string)
    requires ParseVersion(s).Some?
    ensures FullVersion(ParseVersion(s).value) == s <==> !LeadingHyphenOnly(s)
  {
    VersionRoundTrip(s);
  }

  /** The known values of the entry are those it was read from exactly when version and relations are. */
  lemma ValuesFixed(p: Package, filename: string)
    requires GoodRelations(p.dependencies) && ParseVersion(FullVersion(p.version)).Some?
    ensures KnownValues(Reread(p, filename), filename) == KnownValues(p, filename) <==>
            !LeadingHyphenOnly(FullVersion(p.version)) && DependsLasts(p)
  {
    var q := Reread(p, filename);
    VersionFixed(FullVersion(p.version));
    DependsFixed(p, filename);
    if !LeadingHyphenOnly(FullVersion(p.version)) && DependsLasts(p) {
      RelationsFixed(p, filename);
      ConflictsFixed(p, filename);
      assert KnownValues(q, filename) == KnownValues(p, filename);
    } else {
      KnownAt(p, filename);
      KnownAt(q, filename);
    }
  }

  /** The fields an entry is printed with at its own location. */
  function Reprinted(q: Package): seq<Field>
  {
    RecordFields(q, OrElse(q.indexFilename, ""))
  }

  /** A record reads back as a package that prints the same fields exactly when the package is stable. */
  lemma RecordFixed(p: Package, filename: string)
    requires Rereadable(p, filename)
    ensures var parsed := ParsePackage(FieldsText(RecordFields(p, filename)));
            parsed.Ok? && Reprinted(parsed.value) == RecordFields(p, filename) <==> Stable(p)
  {
    var parsed := ParsePackage(FieldsText(RecordFields(p, filename)));
    if StableExtras(p.extraFields) {
      RecordRow(p, filename);
      NormalParts(p, filename);
      RowReread(p, filename);
      ValuesFixed(p, filename);
      if Reprinted(parsed.value) == RecordFields(p, filename) {
        Described(p, filename);
        Described(Reread(p, filename), filename);
        SameRecord(KnownValues(parsed.value, filename), parsed.value.extraFields, KnownValues(p, filename), p.extraFields);
      }
    } else if parsed.Ok? && Reprinted(parsed.value) == RecordFields(p, filename) {
      var q := parsed.value;
      Described(p, filename);
      Described(q, OrElse(q.indexFilename, ""));
      SameRecord(KnownValues(q, OrElse(q.indexFilename, "")), q.extraFields, KnownValues(p, filename), p.extraFields);
      ReadExtraFields(p, filename);
      ExtrasFixed(p.extraFields);
    }
  }

  lemma Described(p: Package, filename: string)
    ensures KnownValues(p, filename)[|KNOWN| - 1].Some?
  {
  }

  /**
   An empty Depends line is printed exactly when all dependencies are inequalities, but
   for at most one that is blank; such a line is gone after the next pass.
   */
  lemma EmptyDependsVanishes(p: Package, filename: string)
    ensures DependsValue(p) == Some("") <==> p.dependencies != [] && !p.noDepends && Empty(p.dependencies)
    ensures DependsValue(p) == Some("") ==> DependsValue(Reread(p, filename)) == None
  {
    EmptyLine(p.dependencies, p.ignoreIteration);
  }

  /** "Depends: name (!= version)" prints an empty Depends line. */
  lemma InequalityVanishes(p: Package, filename: string, name: string, version: string)
    requires p.dependencies == [name + [' '] + ("(!= " + version + ")")] && !p.noDepends
    requires PlainWord(name) && !HasUpper(name) && version != ""
    requires '\n' !in version && '_' !in version && '~' !in version
    ensures DependsValue(p) == Some("") && DependsValue(Reread(p, filename)) == None
  {
    InequalityText(name, version);
    assert p.dependencies[1..] == [] && Shown([]) == [];
    assert Shown(p.dependencies) == [] + [];
    EmptyDependsVanishes(p, filename);
  }
}
