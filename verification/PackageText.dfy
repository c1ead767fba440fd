/** Reading and printing one package record step by step. */
module PackageText {
  import opened Text
  import opened Control
  import opened Versions
  import opened Dependencies
  import opened Packages
  import opened PackageCodec

  // ------------------------------------------------------------------------- reading

  /** The fields left after some names were taken. */
  function Left(fields: seq<Field>, names: seq<string>): seq<Field>
  {
    if fields == [] then []
    else (if fields[0].name in names then [] else [fields[0]]) + Left(fields[1..], names)
  }

  lemma {:induction false} LeftAll(fields: seq<Field>)
    ensures Left(fields, []) == fields
  {
    if fields != [] { LeftAll(fields[1..]); }
  }

  lemma {:induction false} LeftUnknown(fields: seq<Field>)
    ensures Left(fields, KNOWN) == Unknown(fields)
  {
    if fields != [] { LeftUnknown(fields[1..]); }
  }

  /** Taking one more name from distinct fields. */
  lemma {:induction false} LeftMore(fields: seq<Field>, names: seq<string>, name: string)
    requires DistinctNames(fields) && name !in names
    ensures Lookup(Left(fields, names), name) == Lookup(fields, name)
    ensures Without(Left(fields, names), name) == Left(fields, names + [name])
  {
    if fields != [] {
      var first, rest := fields[0], fields[1..];
      assert DistinctNames(rest) by {
        forall i, j | 0 <= i < j < |rest| ensures rest[i].name != rest[j].name { assert rest[i] == fields[i + 1] && rest[j] == fields[j + 1]; }
      }
      LeftMore(rest, names, name);
      var tail := Left(rest, names);
      if first.name == name {
        NameGone(fields, names, name);
        assert Left(fields, names) == [first] + tail && ([first] + tail)[1..] == tail;
        assert [] + tail == tail;
      } else if first.name in names {
        assert first.name in names + [name];
        assert [] + tail == tail && [] + Left(rest, names + [name]) == Left(rest, names + [name]);
      } else {
        assert first.name !in names + [name];
        TakeBehind(first, tail, name);
      }
    }
  }

  lemma TakeBehind(first: Field, tail: seq<Field>, name: string)
    requires first.name != name
    ensures Lookup([first] + tail, name) == Lookup(tail, name)
    ensures Without([first] + tail, name) == [first] + Without(tail, name)
  {
    assert ([first] + tail)[1..] == tail;
    var i := Find(tail, name);
    if i < |tail| {
      assert ([first] + tail)[..i + 1] == [first] + tail[..i] && ([first] + tail)[i + 2..] == tail[i + 1..];
    }
  }

  /** A distinct field list has a name once only. */
  lemma NameGone(fields: seq<Field>, names: seq<string>, name: string)
    requires DistinctNames(fields) && fields != [] && fields[0].name == name
    ensures Left(fields[1..], names + [name]) == Left(fields[1..], names)
  {
    var rest := fields[1..];
    forall i | 0 <= i < |rest| ensures rest[i].name != name { assert rest[i] == fields[i + 1]; }
    SameLeft(rest, names, name);
  }

  lemma {:induction false} SameLeft(fields: seq<Field>, names: seq<string>, name: string)
    requires forall i :: 0 <= i < |fields| ==> fields[i].name != name
    ensures Left(fields, names + [name]) == Left(fields, names)
  {
    if fields != [] {
      assert fields[0].name in names + [name] <==> fields[0].name in names;
      SameLeft(fields[1..], names, name);
    }
  }

  method TakeOne(paragraph: Paragraph, ghost fields: seq<Field>, ghost done: seq<string>, name: string) returns (value: Option<string>)
    requires paragraph.Valid() && paragraph.fields == Left(fields, done) && DistinctNames(fields) && name !in done
    modifies paragraph
    ensures paragraph.Valid() && paragraph.fields == Left(fields, done + [name])
    ensures value == Lookup(fields, name)
  {
    LeftMore(fields, done, name);
    value := paragraph.Take(name);
  }

  lemma NextName(names: seq<string>, i: nat)
    requires DistinctTexts(names) && i < |names|
    ensures names[i] !in names[..i] && names[..i] + [names[i]] == names[..i + 1]
  {
  }

  /** Takes fields by name; what it took, in the order of the names, and what is left. */
  method TakeNames(paragraph: Paragraph, names: seq<string>) returns (values: seq<Option<string>>)
    requires paragraph.Valid() && DistinctTexts(names)
    modifies paragraph
    ensures paragraph.Valid() && |values| == |names|
    ensures forall i :: 0 <= i < |names| ==> values[i] == Lookup(old(paragraph.fields), names[i])
    ensures paragraph.fields == Left(old(paragraph.fields), names)
  {
    ghost var fields := paragraph.fields;
    values := [];
    LeftAll(fields);
    for i := 0 to |names|
      invariant paragraph.Valid() && |values| == i && paragraph.fields == Left(fields, names[..i])
      invariant forall j :: 0 <= j < i ==> values[j] == Lookup(fields, names[j])
    {
      NextName(names, i);
      var value := TakeOne(paragraph, fields, names[..i], names[i]);
      values := values + [value];
    }
    assert names[..|names|] == names;
  }

  method CollectExtras(fields: seq<Field>) returns (extras: seq<Field>)
    ensures extras == AddExtras([], fields)
  {
    extras := [];
    for i := 0 to |fields|
      invariant AddExtras(extras, fields[i..]) == AddExtras([], fields)
    {
      assert fields[i..][1..] == fields[i + 1..];
      extras := SetExtra(extras, Field(NormalizeExtraName(fields[i].name), fields[i].value));
    }
    assert fields[|fields|..] == [];
  }

  /** Replaces the first extra field of that name, or appends one. */
  method SetExtra(extras: seq<Field>, field: Field) returns (updated: seq<Field>)
    ensures updated == SetField(extras, field.name, field.value)
  {
    for position := 0 to |extras|
      invariant forall j :: 0 <= j < position ==> extras[j].name != field.name
    {
      if extras[position].name == field.name {
        FindFirst(extras, position);
        return extras[position := field];
      }
    }
    FindAbsent(extras, field.name);
    updated := extras + [field];
  }

  /** Reads a package: a control paragraph, its known fields taken, the rest kept as extra fields. */
  method ReadPackageRecord(input: string) returns (result: Result<Package, PackageError>)
    ensures result == ParsePackage(input)
  {
    var paragraph := ParseParagraph(input);
    ghost var fields := paragraph.fields;
    ghost var find := name => Lookup(fields, name);
    KnownDistinct();
    var values := TakeNames(paragraph, KNOWN);
    LeftUnknown(fields);
    var extras := CollectExtras(paragraph.fields);
    TakenRow(values);
    assert Row(find, KNOWN, values);
    SameValues(Taken(values), find, values, extras);
    result := FromValues(Taken(values), extras);
  }

  // ------------------------------------------------------------------------ printing

  /** The relations and the conflicts of dependencies, for any rewriting of one. */
  function Relations(dependencies: seq<string>, f: string -> (seq<string>, string)): seq<string>
  {
    if dependencies == [] then [] else f(dependencies[0]).0 + Relations(dependencies[1..], f)
  }

  function Refusals(dependencies: seq<string>, f: string -> (seq<string>, string)): seq<string>
  {
    if dependencies == [] then []
    else (if f(dependencies[0]).1 != "" then [f(dependencies[0]).1] else []) + Refusals(dependencies[1..], f)
  }

  function Normalizer(ignoreIteration: bool): string -> (seq<string>, string)
  {
    d => Normalize(d, ignoreIteration)
  }

  lemma {:induction false} PrintedByNormalizer(dependencies: seq<string>, ignoreIteration: bool)
    ensures PrintedRelations(dependencies, ignoreIteration) == Relations(dependencies, Normalizer(ignoreIteration))
    ensures PrintedConflicts(dependencies, ignoreIteration) == Refusals(dependencies, Normalizer(ignoreIteration))
  {
    if dependencies != [] { PrintedByNormalizer(dependencies[1..], ignoreIteration); }
  }

  lemma {:induction false} RelationsMore(a: seq<string>, d: string, f: string -> (seq<string>, string))
    ensures Relations(a + [d], f) == Relations(a, f) + f(d).0
    ensures Refusals(a + [d], f) == Refusals(a, f) + (if f(d).1 != "" then [f(d).1] else [])
  {
    if a == [] {
      assert [] + [d] == [d] && [d][1..] == [];
      assert f(d).0 + [] == f(d).0;
    } else {
      assert (a + [d])[1..] == a[1..] + [d];
      RelationsMore(a[1..], d, f);
    }
  }

  method NormalizeEach(dependencies: seq<string>, f: string -> (seq<string>, string)) returns (relations: seq<string>, conflicts: seq<string>)
    ensures relations == Relations(dependencies, f) && conflicts == Refusals(dependencies, f)
  {
    relations, conflicts := [], [];
    for i := 0 to |dependencies|
      invariant relations == Relations(dependencies[..i], f) && conflicts == Refusals(dependencies[..i], f)
    {
      assert dependencies[..i + 1] == dependencies[..i] + [dependencies[i]];
      RelationsMore(dependencies[..i], dependencies[i], f);
      var (normalized, conflict) := f(dependencies[i]);
      relations := relations + normalized;
      if conflict != "" { conflicts := conflicts + [conflict]; }
    }
    assert dependencies[..|dependencies|] == dependencies;
  }

  /** The relations and conflicts that dependencies print as. */
  method NormalizeAll(dependencies: seq<string>, ignoreIteration: bool) returns (relations: seq<string>, conflicts: seq<string>)
    ensures relations == PrintedRelations(dependencies, ignoreIteration)
    ensures conflicts == PrintedConflicts(dependencies, ignoreIteration)
  {
    PrintedByNormalizer(dependencies, ignoreIteration);
    relations, conflicts := NormalizeEach(dependencies, Normalizer(ignoreIteration));
  }

  /** Prints fields one after the other. */
  method WriteFields(fields: seq<Field>) returns (text: string)
    ensures text == FieldsText(fields)
  {
    text := "";
    for i := 0 to |fields|
      invariant text == FieldsText(fields[..i])
    {
      FieldsMore(fields[..i], fields[i]);
      assert fields[..i + 1] == fields[..i] + [fields[i]];
      text := WriteField(text, fields[i]);
    }
    assert fields[..|fields|] == fields;
  }

  lemma FieldsMore(fields: seq<Field>, field: Field)
    ensures FieldsText(fields + [field]) == FieldsText(fields) + Unlines(FieldLines(field))
  {
    FieldsLinesMore(fields, field);
    UnlinesConcat(FieldsLines(fields), FieldLines(field));
  }

  lemma {:induction false} FieldsLinesMore(fields: seq<Field>, field: Field)
    ensures FieldsLines(fields + [field]) == FieldsLines(fields) + FieldLines(field)
  {
    if fields == [] {
      assert [] + [field] == [field] && [field][1..] == [];
      assert FieldLines(field) + [] == FieldLines(field);
    } else {
      assert (fields + [field])[1..] == fields[1..] + [field];
      FieldsLinesMore(fields[1..], field);
    }
  }

  /** The record fields, from the printed relations and conflicts. */
  method GatherFields(p: Package, filename: string) returns (fields: seq<Field>)
    ensures fields == RecordFields(p, filename)
  {
    var relations, conflicts := NormalizeAll(p.dependencies, p.ignoreIteration);
    if p.conflicts.Some? { conflicts := [p.conflicts.value] + conflicts; }
    ghost var own := if p.conflicts.Some? then [p.conflicts.value] else [];
    assert p.conflicts.None? ==> own + conflicts == conflicts;
    var depends := if p.dependencies != [] && !p.noDepends then Some(Join(relations, ", ")) else None;
    var conflicting := if p.conflicts.Some? || conflicts != [] then Some(Join(conflicts, ", ")) else None;
    assert depends == DependsValue(p) && conflicting == ConflictsValue(p);
    var values := [Some(p.name), Some(FullVersion(p.version)), Some(p.license), Some(p.vendor), Some(p.architecture),
                   Some(p.maintainer), Some(OrElse(p.installedSize, "")), depends, conflicting, p.breaks,
                   p.preDepends, p.provided, p.replaced, p.recommends, p.suggests, p.enhances, Some(p.category), p.origin,
                   Some(OrElse(p.priority, "")), Some(OrElse(p.homepage, NO_HOMEPAGE)), Some(filename), p.size, p.sha1,
                   p.sha256, p.md5, Some(OrElse(p.description, NO_DESCRIPTION))];
    var present := GatherPresent(KNOWN, values);
    fields := present + p.extraFields;
  }

  lemma {:induction false} PresentConcat(names: seq<string>, values: seq<Option<string>>, name: string, value: Option<string>)
    requires |names| == |values|
    ensures Present(names + [name], values + [value]) == Present(names, values) + (if value.Some? then [Field(name, value.value)] else [])
  {
    if names == [] {
      assert [] + [name] == [name] && [] + [value] == [value] && [name][1..] == [] && [value][1..] == [];
    } else {
      assert (names + [name])[1..] == names[1..] + [name] && (values + [value])[1..] == values[1..] + [value];
      PresentConcat(names[1..], values[1..], name, value);
    }
  }

  method GatherPresent(names: seq<string>, values: seq<Option<string>>) returns (fields: seq<Field>)
    requires |names| == |values|
    ensures fields == Present(names, values)
  {
    fields := [];
    for i := 0 to |names|
      invariant fields == Present(names[..i], values[..i])
    {
      PresentConcat(names[..i], values[..i], names[i], values[i]);
      assert names[..i + 1] == names[..i] + [names[i]] && values[..i + 1] == values[..i] + [values[i]];
      if values[i].Some? { fields := fields + [Field(names[i], values[i].value)]; }
    }
    assert names[..|names|] == names && values[..|values|] == values;
  }

  /** Prints a package's record. */
  method WritePackageRecord(p: Package, codename: string) returns (result: Result<string, PackageError>)
    ensures result == Render(p, codename)
  {
    var filename := RepositoryFilename(p, codename);
    if filename.Err? { return Err(filename.error); }
    var fields := GatherFields(p, filename.value);
    var text := WriteFields(fields);
    result := Ok(text);
  }
}
