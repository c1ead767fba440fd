/**
 Debian control paragraphs: the lenient reader, the folding writer, and how the
 reader undoes the writer (section 5.1 of the Debian Policy Manual).
 */
module Control {
  import opened Text

  datatype Field = Field(name: string, value: string)

  /** Position of a name in a field list, or the list's length. */
  function Find(fields: seq<Field>, name: string): (i: nat)
    ensures i <= |fields|
    ensures i < |fields| ==> fields[i].name == name
  {
    if fields == [] || fields[0].name == name then 0 else 1 + Find(fields[1..], name)
  }

  function Lookup(fields: seq<Field>, name: string): Option<string>
  {
    var i := Find(fields, name);
    if i < |fields| then Some(fields[i].value) else None
  }

  /** Assignment keeps the position of a name already present. */
  function SetField(fields: seq<Field>, name: string, value: string): seq<Field>
  {
    var i := Find(fields, name);
    if i < |fields| then fields[i := Field(name, value)] else fields + [Field(name, value)]
  }

  function Without(fields: seq<Field>, name: string): seq<Field>
  {
    var i := Find(fields, name);
    if i < |fields| then fields[..i] + fields[i + 1..] else fields
  }

  ghost predicate DistinctNames(fields: seq<Field>)
  {
    forall i, j :: 0 <= i < j < |fields| ==> fields[i].name != fields[j].name
  }

  lemma {:induction false} FindFirst(fields: seq<Field>, i: nat)
    requires i < |fields| && forall k :: 0 <= k < i ==> fields[k].name != fields[i].name
    ensures Find(fields, fields[i].name) == i
  {
    if i > 0 {
      assert fields[1..][i - 1] == fields[i];
      assert fields[0].name != fields[i].name;
      forall k | 0 <= k < i - 1 ensures fields[1..][k].name != fields[i].name { assert fields[1..][k] == fields[k + 1]; }
      FindFirst(fields[1..], i - 1);
    }
  }

  lemma {:induction false} FindAbsent(fields: seq<Field>, name: string)
    requires forall i :: 0 <= i < |fields| ==> fields[i].name != name
    ensures Find(fields, name) == |fields|
  {
    if fields != [] {
      forall k | 0 <= k < |fields| - 1 ensures fields[1..][k].name != name { assert fields[1..][k] == fields[k + 1]; }
      FindAbsent(fields[1..], name);
    }
  }

  lemma DistinctWithout(fields: seq<Field>, i: nat)
    requires DistinctNames(fields) && i < |fields|
    ensures DistinctNames(fields[..i] + fields[i + 1..])
  {
    var kept := fields[..i] + fields[i + 1..];
    forall a, b | 0 <= a < b < |kept| ensures kept[a].name != kept[b].name {
      var x := if a < i then a else a + 1;
      var y := if b < i then b else b + 1;
      assert kept[a] == fields[x] && kept[b] == fields[y];
    }
  }

  /** An ordered field list with an index from names to positions. */
  class Paragraph {
    var fields: seq<Field>
    var index: map<string, nat>

    ghost predicate Valid()
      reads this
    {
      && DistinctNames(fields)
      && (forall name <- index :: index[name] < |fields| && fields[index[name]].name == name)
      && (forall i :: 0 <= i < |fields| ==> fields[i].name in index)
    }

    constructor ()
      ensures Valid() && fields == []
    {
      fields := [];
      index := map[];
    }

    method Set(name: string, value: string)
      requires Valid()
      modifies this
      ensures Valid() && fields == SetField(old(fields), name, value)
    {
      if name in index {
        var position := index[name];
        FindFirst(fields, position);
        fields := fields[position := Field(name, value)];
      } else {
        FindAbsent(fields, name);
        index := index[name := |fields|];
        fields := fields + [Field(name, value)];
      }
    }

    method Get(name: string) returns (value: Option<string>)
      requires Valid()
      ensures value == Lookup(fields, name)
    {
      if name in index {
        FindFirst(fields, index[name]);
        value := Some(fields[index[name]].value);
      } else {
        FindAbsent(fields, name);
        value := None;
      }
    }

    method Take(name: string) returns (value: Option<string>)
      requires Valid()
      modifies this
      ensures Valid() && value == Lookup(old(fields), name)
      ensures fields == Without(old(fields), name)
    {
      if name !in index {
        FindAbsent(fields, name);
        return None;
      }
      var position := index[name];
      FindFirst(fields, position);
      DistinctWithout(fields, position);
      value := Some(fields[position].value);
      fields := fields[..position] + fields[position + 1..];
      Reindex();
    }

    method Reindex()
      requires DistinctNames(fields)
      modifies this`index
      ensures Valid() && fields == old(fields)
    {
      index := map[];
      for position := 0 to |fields|
        invariant fields == old(fields)
        invariant forall name <- index :: index[name] < position && fields[index[name]].name == name
        invariant forall i :: 0 <= i < position ==> fields[i].name in index
      {
        index := index[fields[position].name := position];
      }
    }
  }

  /** strings.ReplaceAll(input, "\r\n", "\n"). */
  function NormalizeNewlines(s: string): string
  {
    if s == "" then ""
    else if |s| >= 2 && s[0] == '\r' && s[1] == '\n' then ['\n'] + NormalizeNewlines(s[2..])
    else [s[0]] + NormalizeNewlines(s[1..])
  }

  function TrimReturn(line: string): string
  {
    if HasSuffix(line, "\r") then line[..|line| - 1] else line
  }

  /** An indented, non-blank line: its indent and the text after it. */
  function Continuation(line: string): Option<(nat, string)>
  {
    var rest := TrimLeft(line);
    if rest == line || rest == "" then None else Some((|line| - |rest|, rest))
  }

  predicate NameChar(c: char)
  {
    c == '-' || c == '_' || 'a' <= c <= 'z' || 'A' <= c <= 'Z' || '0' <= c <= '9'
  }

  predicate ValidName(name: string)
  {
    name != "" && forall i :: 0 <= i < |name| ==> NameChar(name[i])
  }

  function IndexOf(s: string, c: char): (i: nat)
    ensures i <= |s|
    ensures i < |s| ==> s[i] == c
  {
    if s == "" || s[0] == c then 0 else 1 + IndexOf(s[1..], c)
  }

  lemma {:induction false} IndexOfFirst(a: string, c: char, b: string)
    requires c !in a
    ensures IndexOf(a + [c] + b, c) == |a|
  {
    if a == "" {
      assert a + [c] + b == [c] + b;
    } else {
      assert (a + [c] + b)[1..] == a[1..] + [c] + b;
      IndexOfFirst(a[1..], c, b);
    }
  }

  function ControlField(line: string): Option<(string, string)>
  {
    var colon := IndexOf(line, ':');
    if colon == |line| || !ValidName(line[..colon]) then None
    else Some((line[..colon], line[colon + 1..]))
  }

  /** The reader's state: committed fields and the field still being read ("" for none). */
  datatype Reading = Reading(fields: seq<Field>, name: string, value: string)

  function Commit(r: Reading): seq<Field>
  {
    if r.name == "" then r.fields else SetField(r.fields, r.name, r.value)
  }

  function Append(value: string, indent: nat, rest: string): string
  {
    if indent == 1 && rest == "." then value + "\n"
    else (if value != "" then value + "\n" else value) + rest
  }

  function ReadLine(r: Reading, line: string): Reading
  {
    match Continuation(line)
    case Some((indent, rest)) =>
      if r.name == "" then r else r.(value := Append(r.value, indent, rest))
    case None =>
      match ControlField(line)
      case None => r
      case Some((name, value)) => Reading(Commit(r), name, TrimSpace(value))
  }

  function ReadLines(r: Reading, lines: seq<string>): Reading
    decreases |lines|
  {
    if lines == [] then r else ReadLines(ReadLine(r, TrimReturn(lines[0])), lines[1..])
  }

  /** The field list ParseParagraph reads from a text. */
  function ReadFields(input: string): seq<Field>
  {
    Commit(ReadLines(Reading([], "", ""), Split(NormalizeNewlines(input), '\n')))
  }

  lemma {:induction false} ReadLinesSnoc(r: Reading, lines: seq<string>, line: string)
    ensures ReadLines(r, lines + [line]) == ReadLine(ReadLines(r, lines), TrimReturn(line))
    decreases |lines|
  {
    if lines == [] {
      assert [line][1..] == [];
      assert lines + [line] == [line];
    } else {
      assert (lines + [line])[1..] == lines[1..] + [line];
      ReadLinesSnoc(ReadLine(r, TrimReturn(lines[0])), lines[1..], line);
    }
  }

  method ParseParagraph(input: string) returns (paragraph: Paragraph)
    ensures fresh(paragraph) && paragraph.Valid()
    ensures paragraph.fields == ReadFields(input)
  {
    paragraph := new Paragraph();
    var currentName, currentValue := "", "";
    var lines := Split(NormalizeNewlines(input), '\n');
    ghost var start := Reading([], "", "");
    for i := 0 to |lines|
      invariant fresh(paragraph) && paragraph.Valid()
      invariant ReadLines(start, lines[..i]) == Reading(paragraph.fields, currentName, currentValue)
    {
      ReadLinesSnoc(start, lines[..i], lines[i]);
      assert lines[..i + 1] == lines[..i] + [lines[i]];
      currentName, currentValue := AcceptLine(paragraph, currentName, currentValue, TrimReturn(lines[i]));
    }
    assert lines[..|lines|] == lines;
    if currentName != "" { paragraph.Set(currentName, currentValue); }
  }

  /** The body of the reading loop: extend the current field, start another, or skip the line. */
  method AcceptLine(paragraph: Paragraph, name: string, value: string, line: string)
    returns (currentName: string, currentValue: string)
    requires paragraph.Valid()
    modifies paragraph
    ensures paragraph.Valid()
    ensures Reading(paragraph.fields, currentName, currentValue) ==
            ReadLine(Reading(old(paragraph.fields), name, value), line)
  {
    currentName, currentValue := name, value;
    var continued := Continuation(line);
    if continued.Some? {
      var (indent, rest) := continued.value;
      if currentName == "" { return; }
      if indent == 1 && rest == "." {
        currentValue := currentValue + "\n";
        return;
      }
      if currentValue != "" { currentValue := currentValue + "\n"; }
      currentValue := currentValue + rest;
      return;
    }
    var field := ControlField(line);
    if field.None? { return; }
    if currentName != "" { paragraph.Set(currentName, currentValue); }
    currentName, currentValue := field.value.0, TrimSpace(field.value.1);
  }

  /** A value's lines without trailing empty ones. */
  function ValueLines(value: string): seq<string>
  {
    if value == "" then [] else DropEmptyTail(Split(value, '\n'))
  }

  function DropEmptyTail(lines: seq<string>): (kept: seq<string>)
    ensures |kept| <= |lines|
    ensures kept == [] || kept[|kept| - 1] != ""
  {
    if lines != [] && lines[|lines| - 1] == "" then DropEmptyTail(lines[..|lines| - 1]) else lines
  }

  /** How the writer folds one continuation line. */
  function FoldLine(line: string): string
  {
    if TrimSpace(line) == "" then " ." else " " + line
  }

  function FoldLines(lines: seq<string>): (folded: seq<string>)
    ensures |folded| == |lines|
  {
    if lines == [] then [] else [FoldLine(lines[0])] + FoldLines(lines[1..])
  }

  lemma {:induction false} FoldLinesAt(lines: seq<string>, i: nat)
    requires i < |lines|
    ensures FoldLines(lines)[i] == FoldLine(lines[i])
  {
    if i > 0 { FoldLinesAt(lines[1..], i - 1); }
  }

  /** The physical lines of one field. */
  function FieldLines(field: Field): seq<string>
  {
    var lines := ValueLines(field.value);
    if lines == [] then [field.name + ": "]
    else [field.name + ": " + lines[0]] + FoldLines(lines[1..])
  }

  /** Every line ended with a newline. */
  function Unlines(lines: seq<string>): string
  {
    if lines == [] then "" else lines[0] + "\n" + Unlines(lines[1..])
  }

  function FieldsLines(fields: seq<Field>): seq<string>
  {
    if fields == [] then [] else FieldLines(fields[0]) + FieldsLines(fields[1..])
  }

  /** The text of a field list: one writeField after another. */
  function FieldsText(fields: seq<Field>): string
  {
    Unlines(FieldsLines(fields))
  }

  lemma {:induction false} UnlinesConcat(a: seq<string>, b: seq<string>)
    ensures Unlines(a + b) == Unlines(a) + Unlines(b)
  {
    if a == [] {
      assert a + b == b;
    } else {
      assert (a + b)[1..] == a[1..] + b;
      UnlinesConcat(a[1..], b);
    }
  }

  lemma UnlinesSnoc(lines: seq<string>, line: string)
    ensures Unlines(lines + [line]) == Unlines(lines) + line + "\n"
  {
    UnlinesConcat(lines, [line]);
    assert [line][1..] == [];
  }

  lemma UnlinesGrow(output: string, written: seq<string>, line: string)
    ensures output + Unlines(written + [line]) == output + Unlines(written) + line + "\n"
  {
    UnlinesSnoc(written, line);
  }

  lemma FieldLinesAt(field: Field, i: nat)
    requires 1 <= i < |ValueLines(field.value)|
    ensures |FieldLines(field)| == |ValueLines(field.value)|
    ensures FieldLines(field)[i] == FoldLine(ValueLines(field.value)[i])
  {
    FoldLinesAt(ValueLines(field.value)[1..], i - 1);
  }

  method WriteField(output: string, field: Field) returns (text: string)
    ensures text == output + Unlines(FieldLines(field))
  {
    var lines := ValueLines(field.value);
    ghost var folded := FieldLines(field);
    ghost var written := [folded[0]];
    UnlinesGrow(output, [], folded[0]);
    assert [] + written == written;
    text := output + field.name + ": " + (if lines == [] then "" else lines[0]) + "\n";
    assert output + Unlines([]) == output;
    if lines == [] {
      assert folded == written;
      return;
    }
    for i := 1 to |lines|
      invariant |written| == i && |folded| == |lines| && written == folded[..i]
      invariant text == output + Unlines(written)
    {
      FieldLinesAt(field, i);
      UnlinesGrow(output, written, folded[i]);
      text := WriteContinuation(text, lines[i]);
      written := written + [folded[i]];
    }
    assert folded[..|lines|] == folded;
  }

  method WriteContinuation(output: string, line: string) returns (text: string)
    ensures text == output + FoldLine(line) + "\n"
  {
    if TrimSpace(line) == "" {
      text := output + " .\n";
      assert " .\n" == " ." + "\n";
    } else {
      text := output + " " + line + "\n";
    }
  }

  /** What reading back makes of one continuation line. */
  function ReadBackLine(line: string): string
  {
    if TrimSpace(line) == "" || line == "." then "" else TrimLeft(line)
  }

  function ReadBackTail(value: string, lines: seq<string>): string
    decreases |lines|
  {
    if lines == [] then value
    else
      var read := ReadBackLine(lines[0]);
      ReadBackTail((if value != "" || read == "" then value + "\n" else value) + read, lines[1..])
  }

  /** The value the reader returns for a value the writer folded. */
  function ReadBack(value: string): string
  {
    var lines := ValueLines(value);
    if lines == [] then "" else ReadBackTail(TrimSpace(lines[0]), lines[1..])
  }

  /** The values that folding and unfolding leave alone. */
  predicate NormalValue(value: string)
  {
    var lines := Split(value, '\n');
    && Trimmed(lines[0])
    && (|lines| > 1 ==> lines[|lines| - 1] != "")
    && (lines[0] == "" && |lines| > 1 ==> lines[1] == "")
    && forall i :: 1 <= i < |lines| ==> lines[i] == "" || (!IsSpace(lines[i][0]) && lines[i] != ".")
  }

  lemma {:induction false} ReadLinesConcat(r: Reading, a: seq<string>, b: seq<string>)
    ensures ReadLines(r, a + b) == ReadLines(ReadLines(r, a), b)
    decreases |a|
  {
    if a == [] {
      assert a + b == b;
    } else {
      assert (a + b)[1..] == a[1..] + b;
      ReadLinesConcat(ReadLine(r, TrimReturn(a[0])), a[1..], b);
    }
  }

  lemma NoReturnAtEnd(line: string)
    requires '\r' !in line
    ensures TrimReturn(line) == line
  {
    assert line != "" ==> line[|line| - 1..][0] == line[|line| - 1];
  }

  /** Reading one folded continuation line appends exactly its read-back form. */
  lemma ReadFoldedLine(r: Reading, line: string)
    requires r.name != "" && '\r' !in line
    ensures ReadLine(r, TrimReturn(FoldLine(line))) ==
            r.(value := (if r.value != "" || ReadBackLine(line) == "" then r.value + "\n" else r.value) + ReadBackLine(line))
  {
    var folded := FoldLine(line);
    NoReturnAtEnd(folded);
    TrimSpaceBlank(line);
    TrimLeftBlank(line);
    if TrimSpace(line) == "" {
      assert TrimLeft(".") == ".";
      assert folded == " " + ".";
      assert r.value + "\n" + "" == r.value + "\n";
    } else {
      var rest := TrimLeft(line);
      assert rest != "";
      assert Continuation(folded) == Some((1 + |line| - |rest|, rest));
      if line == "." {
        assert rest == ".";
        assert r.value + "\n" + "" == r.value + "\n";
      } else if rest == "." {
        assert |rest| < |line|;
      }
    }
  }

  lemma {:induction false} ReadFoldedLines(r: Reading, lines: seq<string>)
    requires r.name != "" && Free(lines, '\r')
    ensures ReadLines(r, FoldLines(lines)) == r.(value := ReadBackTail(r.value, lines))
    decreases |lines|
  {
    if lines != [] {
      ReadFoldedLine(r, lines[0]);
      assert FoldLines(lines)[1..] == FoldLines(lines[1..]);
      ReadFoldedLines(ReadLine(r, TrimReturn(FoldLine(lines[0]))), lines[1..]);
    }
  }

  lemma ReadHeader(r: Reading, name: string, first: string)
    requires ValidName(name) && '\r' !in first
    ensures ReadLine(r, TrimReturn(name + ": " + first)) == Reading(Commit(r), name, TrimSpace(first))
  {
    var line := name + ": " + first;
    assert NameChar(name[0]) && line[0] == name[0];
    assert TrimLeft(line) == line;
    NoReturnAtEnd(line);
    IndexOfFirst(name, ':', " " + first);
    assert line == name + [':'] + (" " + first);
    assert line[..|name|] == name;
    assert line[|name| + 1..] == " " + first;
  }

  /** Reading one written field starts it and leaves its read-back value pending. */
  lemma ReadField(r: Reading, field: Field)
    requires ValidName(field.name) && '\r' !in field.value
    ensures ReadLines(r, FieldLines(field)) == Reading(Commit(r), field.name, ReadBack(field.value))
  {
    var lines := ValueLines(field.value);
    var first := if lines == [] then "" else lines[0];
    var tail := if lines == [] then [] else lines[1..];
    ValueLinesFree(field.value, '\r');
    FieldLinesShape(field, first, tail);
    ReadHeader(r, field.name, first);
    var begun := Reading(Commit(r), field.name, TrimSpace(first));
    ReadLinesConcat(r, [field.name + ": " + first], FoldLines(tail));
    ReadFoldedLines(begun, tail);
  }

  lemma {:induction false} DropEmptyFree(lines: seq<string>, c: char)
    requires Free(lines, c)
    ensures Free(DropEmptyTail(lines), c)
  {
    if lines != [] { DropEmptyFree(lines[..|lines| - 1], c); }
  }

  lemma ValueLinesFree(value: string, c: char)
    requires c !in value || c == '\n'
    ensures Free(ValueLines(value), c)
  {
    if c == '\n' { SplitFree(value, c); } else { SplitChars(value, '\n', c); }
    DropEmptyFree(Split(value, '\n'), c);
  }

  lemma FieldLinesShape(field: Field, first: string, tail: seq<string>)
    requires var lines := ValueLines(field.value);
             first == (if lines == [] then "" else lines[0]) && tail == (if lines == [] then [] else lines[1..])
    ensures FieldLines(field) == [field.name + ": " + first] + FoldLines(tail)
    ensures ReadBack(field.value) == ReadBackTail(TrimSpace(first), tail)
  {
    assert field.name + ": " + "" == field.name + ": ";
  }

  ghost predicate WritableFields(fields: seq<Field>)
  {
    forall i :: 0 <= i < |fields| ==> ValidName(fields[i].name) && '\r' !in fields[i].value
  }

  function ReadBackFields(fields: seq<Field>): (read: seq<Field>)
    ensures |read| == |fields|
  {
    if fields == [] then []
    else [Field(fields[0].name, ReadBack(fields[0].value))] + ReadBackFields(fields[1..])
  }

  lemma {:induction false} ReadBackFieldsAt(fields: seq<Field>, i: nat)
    requires i < |fields|
    ensures ReadBackFields(fields)[i] == Field(fields[i].name, ReadBack(fields[i].value))
  {
    if i > 0 { ReadBackFieldsAt(fields[1..], i - 1); }
  }

  /** Setting fields one after the other. */
  function SetAll(done: seq<Field>, fields: seq<Field>): seq<Field>
    decreases |fields|
  {
    if fields == [] then done else SetAll(SetField(done, fields[0].name, fields[0].value), fields[1..])
  }

  /** Fields with new and distinct names are appended in order. */
  lemma {:induction false} SetAllDistinct(done: seq<Field>, fields: seq<Field>)
    requires DistinctNames(done + fields)
    ensures SetAll(done, fields) == done + fields
    decreases |fields|
  {
    if fields == [] {
      assert done + fields == done;
    } else {
      forall i | 0 <= i < |done| ensures done[i].name != fields[0].name {
        assert (done + fields)[i].name != (done + fields)[|done|].name;
      }
      FindAbsent(done, fields[0].name);
      assert done + [fields[0]] + fields[1..] == done + fields;
      SetAllDistinct(done + [fields[0]], fields[1..]);
    }
  }

  lemma SetFieldLookup(fields: seq<Field>, name: string, value: string, other: string)
    ensures Lookup(SetField(fields, name, value), other) == if other == name then Some(value) else Lookup(fields, other)
  {
    SetFieldFind(fields, name, value, other);
  }

  lemma {:induction false} SetFieldFind(fields: seq<Field>, name: string, value: string, other: string)
    ensures var updated := SetField(fields, name, value);
            var i := Find(updated, other);
            if other == name then i == Find(fields, name) && i < |updated| && updated[i].value == value
            else if Find(fields, other) == |fields| then i == |updated|
            else i == Find(fields, other) && updated[i] == fields[i]
  {
    if fields != [] {
      SetFieldFind(fields[1..], name, value, other);
      if fields[0].name == name {
        assert SetField(fields, name, value) == [Field(name, value)] + fields[1..];
      } else {
        assert SetField(fields, name, value) == [fields[0]] + SetField(fields[1..], name, value);
      }
    }
  }

  /** Of fields set one after the other, the last one of a name counts. */
  lemma {:induction false} SetAllLookup(done: seq<Field>, front: seq<Field>, last: Field, back: seq<Field>)
    requires forall i :: 0 <= i < |back| ==> back[i].name != last.name
    ensures Lookup(SetAll(done, front + [last] + back), last.name) == Some(last.value)
    decreases |front| + |back|
  {
    var fields := front + [last] + back;
    if front != [] {
      assert fields[0] == front[0] && fields[1..] == front[1..] + [last] + back;
      SetAllLookup(SetField(done, front[0].name, front[0].value), front[1..], last, back);
    } else {
      assert fields[0] == last && fields[1..] == back;
      SetFieldLookup(done, last.name, last.value, last.name);
      SetAllKeeps(SetField(done, last.name, last.value), back, last.name);
    }
  }

  lemma {:induction false} SetAllKeeps(done: seq<Field>, fields: seq<Field>, name: string)
    requires forall i :: 0 <= i < |fields| ==> fields[i].name != name
    ensures Lookup(SetAll(done, fields), name) == Lookup(done, name)
    decreases |fields|
  {
    if fields != [] {
      SetFieldLookup(done, fields[0].name, fields[0].value, name);
      SetAllKeeps(SetField(done, fields[0].name, fields[0].value), fields[1..], name);
    }
  }

  /** Reading written fields sets them one after the other, each to its read-back value. */
  lemma {:induction false} ReadWrittenFields(r: Reading, fields: seq<Field>)
    requires WritableFields(fields)
    ensures Commit(ReadLines(r, FieldsLines(fields))) == SetAll(Commit(r), ReadBackFields(fields))
    decreases |fields|
  {
    if fields != [] {
      ReadFirstField(r, fields);
      ReadWrittenFields(Reading(Commit(r), fields[0].name, ReadBack(fields[0].value)), fields[1..]);
      assert ReadBackFields(fields)[1..] == ReadBackFields(fields[1..]);
    }
  }

  lemma ReadFirstField(r: Reading, fields: seq<Field>)
    requires fields != [] && WritableFields(fields)
    ensures fields[0].name != "" && WritableFields(fields[1..])
    ensures ReadLines(r, FieldsLines(fields)) ==
            ReadLines(Reading(Commit(r), fields[0].name, ReadBack(fields[0].value)), FieldsLines(fields[1..]))
  {
    ReadLinesConcat(r, FieldLines(fields[0]), FieldsLines(fields[1..]));
    ReadField(r, fields[0]);
  }

  lemma {:induction false} SplitUnlines(lines: seq<string>)
    requires Free(lines, '\n')
    ensures Split(Unlines(lines), '\n') == lines + [""]
  {
    if lines == [] {
      assert lines + [""] == [""];
    } else {
      SplitUnlines(lines[1..]);
      SplitAtSeparator(lines[0], Unlines(lines[1..]), '\n');
      assert Unlines(lines) == lines[0] + ['\n'] + Unlines(lines[1..]);
      assert lines == [lines[0]] + lines[1..];
    }
  }

  lemma {:induction false} UnlinesFree(lines: seq<string>, c: char)
    requires Free(lines, c) && c != '\n'
    ensures c !in Unlines(lines)
  {
    if lines != [] { UnlinesFree(lines[1..], c); }
  }

  lemma {:induction false} NoReturnsNormalized(s: string)
    requires '\r' !in s
    ensures NormalizeNewlines(s) == s
  {
    if s != "" { NoReturnsNormalized(s[1..]); }
  }

  lemma {:induction false} FoldLinesFree(lines: seq<string>, c: char)
    requires Free(lines, c) && c != ' ' && c != '.'
    ensures Free(FoldLines(lines), c)
  {
    if lines != [] { FoldLinesFree(lines[1..], c); }
  }

  lemma FieldLinesFree(field: Field, c: char)
    requires ValidName(field.name) && !NameChar(c) && c !in ": ." && Free(ValueLines(field.value), c)
    ensures Free(FieldLines(field), c)
  {
    var lines := ValueLines(field.value);
    assert c != ':' && c != ' ' && c != '.' by { assert ": ."[0] == ':' && ": ."[1] == ' ' && ": ."[2] == '.'; }
    if lines != [] {
      FoldLinesFree(lines[1..], c);
      assert c !in field.name + ": " + lines[0];
    }
  }

  lemma {:induction false} FieldsLinesFree(fields: seq<Field>, c: char)
    requires WritableFields(fields) && (c == '\n' || c == '\r')
    ensures Free(FieldsLines(fields), c)
  {
    if fields != [] {
      ValueLinesFree(fields[0].value, c);
      FieldLinesFree(fields[0], c);
      FieldsLinesFree(fields[1..], c);
    }
  }

  lemma ReadFinalNewline(r: Reading, lines: seq<string>)
    ensures ReadLines(r, lines + [""]) == ReadLines(r, lines)
  {
    ReadLinesSnoc(r, lines, "");
  }

  /** Reading the text of any field list with valid names: a later field of the same name replaces an earlier one. */
  lemma ReadBackOfAnyText(fields: seq<Field>)
    requires WritableFields(fields)
    ensures ReadFields(FieldsText(fields)) == SetAll([], ReadBackFields(fields))
  {
    var start := Reading([], "", "");
    TextLines(fields);
    ReadFinalNewline(start, FieldsLines(fields));
    ReadWrittenFields(start, fields);
  }

  /**
   Reading the text of any field list with distinct valid names returns the same
   names in the same order, each with its read-back value.
   */
  lemma ReadBackOfText(fields: seq<Field>)
    requires WritableFields(fields) && DistinctNames(fields)
    ensures ReadFields(FieldsText(fields)) == ReadBackFields(fields)
  {
    ReadBackOfAnyText(fields);
    ReadBackDistinct(fields);
    assert [] + ReadBackFields(fields) == ReadBackFields(fields);
    SetAllDistinct([], ReadBackFields(fields));
  }

  lemma ReadBackDistinct(fields: seq<Field>)
    requires DistinctNames(fields)
    ensures DistinctNames(ReadBackFields(fields))
  {
    forall i | 0 <= i < |fields| ensures ReadBackFields(fields)[i].name == fields[i].name { ReadBackFieldsAt(fields, i); }
  }

  lemma TextLines(fields: seq<Field>)
    requires WritableFields(fields)
    ensures Split(NormalizeNewlines(FieldsText(fields)), '\n') == FieldsLines(fields) + [""]
  {
    var lines := FieldsLines(fields);
    FieldsLinesFree(fields, '\n');
    FieldsLinesFree(fields, '\r');
    UnlinesFree(lines, '\r');
    NoReturnsNormalized(FieldsText(fields));
    SplitUnlines(lines);
  }

  /** The read-back tail as a list of lines. */
  function ReadBackList(lines: seq<string>): (read: seq<string>)
    ensures |read| == |lines|
  {
    if lines == [] then [] else [ReadBackLine(lines[0])] + ReadBackList(lines[1..])
  }

  lemma {:induction false} ReadBackListAt(lines: seq<string>, i: nat)
    requires i < |lines|
    ensures ReadBackList(lines)[i] == ReadBackLine(lines[i])
  {
    if i > 0 { ReadBackListAt(lines[1..], i - 1); }
  }

  lemma {:induction false} ReadBackTailJoin(value: string, lines: seq<string>)
    requires value != ""
    ensures ReadBackTail(value, lines) == Join([value] + ReadBackList(lines), "\n")
    decreases |lines|
  {
    if lines != [] {
      var read := ReadBackLine(lines[0]);
      ReadBackTailJoin(value + "\n" + read, lines[1..]);
      var tail := ReadBackList(lines[1..]);
      assert ReadBackList(lines) == [read] + tail;
      assert ([value] + ([read] + tail))[1..] == [read] + tail;
      if tail == [] {
        assert [value + "\n" + read] + tail == [value + "\n" + read];
        assert [read] + tail == [read];
      } else {
        assert ([value + "\n" + read] + tail)[1..] == tail == ([read] + tail)[1..];
      }
    }
  }

  /** When an empty first line meets a non-empty second one, the reader drops the first. */
  predicate DropsFirst(lines: seq<string>)
  {
    |lines| > 1 && TrimSpace(lines[0]) == "" && ReadBackLine(lines[1]) != ""
  }

  lemma ReadBackJoin(value: string)
    requires ValueLines(value) != []
    ensures var lines := ValueLines(value);
            ReadBack(value) ==
            if DropsFirst(lines) then Join(ReadBackList(lines[1..]), "\n")
            else Join([TrimSpace(lines[0])] + ReadBackList(lines[1..]), "\n")
  {
    var lines := ValueLines(value);
    var first := TrimSpace(lines[0]);
    var tail := lines[1..];
    if first != "" {
      ReadBackTailJoin(first, tail);
    } else if tail != [] {
      ReadBackEmptyFirst(tail);
    }
  }

  lemma ReadBackEmptyFirst(tail: seq<string>)
    requires tail != []
    ensures ReadBackTail("", tail) ==
            if ReadBackLine(tail[0]) == "" then Join([""] + ReadBackList(tail), "\n")
            else Join(ReadBackList(tail), "\n")
  {
    var read := ReadBackLine(tail[0]);
    var rest := ReadBackList(tail[1..]);
    assert ReadBackList(tail) == [read] + rest;
    if read == "" {
      ReadBackTailJoin("\n", tail[1..]);
      assert "" + "\n" + read == "\n";
      JoinTwoEmpty(rest);
    } else {
      ReadBackTailJoin(read, tail[1..]);
      assert "" + read == read;
    }
  }

  lemma JoinTwoEmpty(rest: seq<string>)
    ensures Join(["\n"] + rest, "\n") == Join([""] + ([""] + rest), "\n")
  {
    assert ([""] + ([""] + rest))[1..] == [""] + rest;
    assert ([""] + rest)[1..] == rest;
    assert (["\n"] + rest)[1..] == rest;
    if rest != [] {
      assert "" + "\n" + ("" + "\n" + Join(rest, "\n")) == "\n" + "\n" + Join(rest, "\n");
    }
  }

  lemma {:induction false} ReadBackListFree(lines: seq<string>)
    requires Free(lines, '\n')
    ensures Free(ReadBackList(lines), '\n')
  {
    if lines != [] {
      TrimLeftFree(lines[0], '\n');
      ReadBackListFree(lines[1..]);
    }
  }

  lemma JoinInjective(a: seq<string>, b: seq<string>)
    requires a != [] && b != [] && Free(a, '\n') && Free(b, '\n')
    requires Join(a, "\n") == Join(b, "\n")
    ensures a == b
  {
    assert "\n" == ['\n'];
    SplitOfJoin(a, '\n');
    SplitOfJoin(b, '\n');
  }

  /** Folding then unfolding returns a value unchanged exactly when it is in normal form. */
  lemma ReadBackFixed(value: string)
    ensures ReadBack(value) == value <==> NormalValue(value)
  {
    if value != "" {
      var all := Split(value, '\n');
      var lines := ValueLines(value);
      JoinOfSplit(value, '\n');
      assert "\n" == ['\n'];
      if lines == [] {
        EmptyTailOnly(all);
      } else {
        FixedLines(value, all, lines);
      }
    }
  }

  /** The lines that reading back makes of a value's lines. */
  function BackLines(lines: seq<string>): seq<string>
    requires lines != []
  {
    if DropsFirst(lines) then ReadBackList(lines[1..]) else [TrimSpace(lines[0])] + ReadBackList(lines[1..])
  }

  lemma {:induction false} EmptyTailDropped(lines: seq<string>)
    ensures DropEmptyTail(lines) <= lines
    decreases |lines|
  {
    if lines != [] && lines[|lines| - 1] == "" { EmptyTailDropped(lines[..|lines| - 1]); }
  }

  /** Lines that come back as all lines of a value are all of them. */
  lemma BackWhole(all: seq<string>, lines: seq<string>)
    requires lines != [] && lines == DropEmptyTail(all) && BackLines(lines) == all
    ensures lines == all && !DropsFirst(lines)
  {
    EmptyTailDropped(all);
    assert |BackLines(lines)| == if DropsFirst(lines) then |lines| - 1 else |lines|;
    assert |lines| == |all|;
  }

  lemma KeptNormal(value: string, lines: seq<string>)
    requires Split(value, '\n') == lines && lines[|lines| - 1] != "" && !DropsFirst(lines) && BackLines(lines) == lines
    ensures NormalValue(value)
  {
    KeptLines(lines, BackLines(lines));
  }

  lemma FixedLines(value: string, all: seq<string>, lines: seq<string>)
    requires value != "" && all == Split(value, '\n') && lines == ValueLines(value) && lines != [] && Join(all, "\n") == value
    ensures ReadBack(value) == value <==> NormalValue(value)
  {
    ReadBackJoin(value);
    assert ReadBack(value) == Join(BackLines(lines), "\n");
    if ReadBack(value) == value {
      SplitFree(value, '\n');
      LinesFree(value, lines);
      BackLinesFree(lines);
      BackNotEmpty(lines);
      JoinInjective(BackLines(lines), all);
      BackWhole(all, lines);
      KeptNormal(value, lines);
    }
    if NormalValue(value) {
      SplitFree(value, '\n');
      NormalLines(all);
    }
  }

  lemma BackNotEmpty(lines: seq<string>)
    requires lines != []
    ensures BackLines(lines) != []
  {
  }

  lemma BackLinesFree(lines: seq<string>)
    requires lines != [] && Free(ReadBackList(lines[1..]), '\n') && '\n' !in TrimSpace(lines[0])
    ensures Free(BackLines(lines), '\n')
  {
  }

  lemma LinesFree(value: string, lines: seq<string>)
    requires value != "" && lines == ValueLines(value) && lines != []
    ensures Free(ReadBackList(lines[1..]), '\n') && '\n' !in TrimSpace(lines[0])
  {
    SplitFree(value, '\n');
    ValueLinesFree(value, '\n');
    ReadBackListFree(lines[1..]);
    TrimLeftFree(lines[0], '\n');
    TrimRightFree(TrimLeft(lines[0]), '\n');
  }

  lemma {:induction false} EmptyTailOnly(lines: seq<string>)
    requires DropEmptyTail(lines) == [] && lines != []
    ensures lines[0] == "" && lines[|lines| - 1] == ""
  {
    if |lines| > 1 { EmptyTailOnly(lines[..|lines| - 1]); }
  }

  lemma KeptLines(lines: seq<string>, read: seq<string>)
    requires lines != [] && lines[|lines| - 1] != "" && !DropsFirst(lines)
    requires read == [TrimSpace(lines[0])] + ReadBackList(lines[1..]) && read == lines
    ensures Trimmed(lines[0])
    ensures lines[0] == "" && |lines| > 1 ==> lines[1] == ""
    ensures forall i :: 1 <= i < |lines| ==> lines[i] == "" || (!IsSpace(lines[i][0]) && lines[i] != ".")
  {
    TrimSpaceFixed(lines[0]);
    forall i | 1 <= i < |lines| ensures ReadBackLine(lines[i]) == lines[i] {
      ReadBackListAt(lines[1..], i - 1);
      assert read[i] == ReadBackList(lines[1..])[i - 1];
    }
    if |lines| > 1 { assert ReadBackLine(lines[1]) == lines[1]; }
    forall i | 1 <= i < |lines| ensures lines[i] == "" || (!IsSpace(lines[i][0]) && lines[i] != ".") {
      assert ReadBackLine(lines[i]) == lines[i];
    }
  }

  lemma NormalLines(lines: seq<string>)
    requires lines != [] && Free(lines, '\n') && NormalValue(Join(lines, "\n")) && Join(lines, "\n") != ""
    ensures DropEmptyTail(lines) == lines && !DropsFirst(lines)
    ensures [TrimSpace(lines[0])] + ReadBackList(lines[1..]) == lines
  {
    assert "\n" == ['\n'];
    SplitOfJoin(lines, '\n');
    TrimSpaceFixed(lines[0]);
    forall i | 1 <= i < |lines| ensures ReadBackLine(lines[i]) == lines[i] {
      NormalLine(lines[i]);
    }
    ReadBackListFixed(lines[1..]);
    assert [lines[0]] + lines[1..] == lines;
  }

  lemma NormalLine(line: string)
    requires line == "" || (!IsSpace(line[0]) && line != ".")
    ensures ReadBackLine(line) == line
  {
    TrimSpaceBlank(line);
    assert line != "" ==> !Blank(line);
  }

  lemma {:induction false} ReadBackListFixed(lines: seq<string>)
    requires forall i :: 0 <= i < |lines| ==> ReadBackLine(lines[i]) == lines[i]
    ensures ReadBackList(lines) == lines
  {
    if lines != [] {
      ReadBackListFixed(lines[1..]);
      assert [lines[0]] + lines[1..] == lines;
    }
  }

  /**
   Fold then unfold: writing a field list and parsing the text gives back the very
   same list exactly when every value is in normal form.
   */
  lemma ParseUndoesWrite(fields: seq<Field>)
    requires WritableFields(fields) && DistinctNames(fields)
    ensures ReadFields(FieldsText(fields)) == fields <==>
            forall i :: 0 <= i < |fields| ==> NormalValue(fields[i].value)
  {
    ReadBackOfText(fields);
    forall i | 0 <= i < |fields|
      ensures ReadBackFields(fields)[i] == fields[i] <==> NormalValue(fields[i].value)
    {
      ReadBackFieldsAt(fields, i);
      ReadBackFixed(fields[i].value);
    }
    if forall i :: 0 <= i < |fields| ==> NormalValue(fields[i].value) {
      assert ReadBackFields(fields) == fields;
    } else {
      var i :| 0 <= i < |fields| && !NormalValue(fields[i].value);
      assert ReadBackFields(fields)[i] != fields[i];
    }
  }

  // ------------------------------------------------------------------ one line alone

  /** A letter, a digit, a hyphen or an underscore. */
  predicate NameLetter(c: char)
  {
    'a' <= c <= 'z' || 'A' <= c <= 'Z' || '0' <= c <= '9' || c in {'-', '_'}
  }

  ghost predicate PlainName(name: string)
  {
    name != "" && forall i :: 0 <= i < |name| ==> NameLetter(name[i])
  }

  lemma OneLineRead(line: string)
    requires '\n' !in line && '\r' !in line
    ensures ReadFields(line) == Commit(ReadLine(Reading([], "", ""), line))
  {
    var start := Reading([], "", "");
    NoReturnsNormalized(line);
    SplitWhole(line, '\n');
    NoReturnAtEnd(line);
    assert [line][1..] == [] && ReadLines(start, [line]) == ReadLine(start, TrimReturn(line));
  }

  lemma ColonText(name: string, rest: string)
    ensures name + ":" + rest == name + [':'] + rest
  {
  }

  lemma NotContinued(line: string)
    requires line != "" && !IsSpace(line[0])
    ensures Continuation(line) == None
  {
  }

  lemma NameBeforeColon(name: string, value: string)
    requires ':' !in name
    ensures ControlField(name + [':'] + value) == if ValidName(name) then Some((name, value)) else None
  {
    var line := name + [':'] + value;
    IndexOfFirst(name, ':', value);
    assert line[..|name|] == name && line[|name| + 1..] == value;
  }

  lemma OneField(line: string, name: string, value: string)
    requires Continuation(line) == None && ControlField(line) == Some((name, value)) && name != ""
    ensures Commit(ReadLine(Reading([], "", ""), line)) == [Field(name, TrimSpace(value))]
  {
    var read := Reading([], name, TrimSpace(value));
    assert ReadLine(Reading([], "", ""), line) == read;
    assert [] + [Field(name, TrimSpace(value))] == [Field(name, TrimSpace(value))];
  }

  lemma LineClean(name: string, value: string, c: char)
    requires c !in name && c !in value && c != ':'
    ensures c !in name + [':'] + value
  {
  }

  /** A line that starts with a name and a colon is a field; what follows is its value, trimmed. */
  lemma FieldLineRead(name: string, value: string)
    requires PlainName(name) && '\n' !in value && '\r' !in value
    ensures ReadFields(name + ":" + value) == [Field(name, TrimSpace(value))]
  {
    ColonText(name, value);
    NameClean(name);
    LineClean(name, value, '\n');
    LineClean(name, value, '\r');
    OneLineRead(name + [':'] + value);
    FirstLetter(name, value);
    NotContinued(name + [':'] + value);
    NameBeforeColon(name, value);
    OneField(name + [':'] + value, name, value);
  }

  lemma FirstLetter(name: string, value: string)
    requires PlainName(name)
    ensures name + [':'] + value != "" && !IsSpace((name + [':'] + value)[0])
  {
    assert NameLetter(name[0]) && (name + [':'] + value)[0] == name[0];
  }

  lemma NameClean(name: string)
    requires PlainName(name)
    ensures ValidName(name) && ':' !in name && '\n' !in name && '\r' !in name
  {
    forall i | 0 <= i < |name| ensures NameChar(name[i]) && name[i] !in {':', '\n', '\r'} { assert NameLetter(name[i]); }
  }

  /** A line with anything else in front of its first colon, and one without a colon, says nothing. */
  lemma OtherLineSkipped(name: string, rest: string)
    requires !PlainName(name) && ':' !in name && '\n' !in name && '\r' !in name && '\n' !in rest && '\r' !in rest
    ensures ReadFields(name + ":" + rest) == [] && ReadFields(name) == []
  {
    ColonText(name, rest);
    LineClean(name, rest, '\n');
    LineClean(name, rest, '\r');
    OneLineRead(name + [':'] + rest);
    OneLineRead(name);
    PlainIffValid(name);
    NameBeforeColon(name, rest);
    NoColon(name);
    NoFieldRead(name + [':'] + rest);
    NoFieldRead(name);
  }

  lemma NoFieldRead(line: string)
    requires ControlField(line) == None
    ensures Commit(ReadLine(Reading([], "", ""), line)) == []
  {
  }

  lemma PlainIffValid(name: string)
    ensures ValidName(name) <==> PlainName(name)
  {
    forall i | 0 <= i < |name| ensures NameLetter(name[i]) <==> NameChar(name[i]) { SameChars(name[i]); }
  }

  lemma SameChars(c: char)
    ensures NameLetter(c) <==> NameChar(c)
  {
  }

  lemma {:induction false} NoColon(s: string)
    requires ':' !in s
    ensures IndexOf(s, ':') == |s|
  {
    if s != "" { NoColon(s[1..]); }
  }
}
