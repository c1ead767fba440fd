/** Packages indices as text: records between blank lines. */
module IndexText {
  import opened Text
  import opened Control
  import opened Dependencies
  import opened Packages
  import opened Documents

  const BLANKS: set<char> := {'\t', ' '}

  /** Length of the paragraph separator a text starts with: a line end, blanks, and another line end. */
  function SeparatorLength(s: string): (n: nat)
    ensures n <= |s|
  {
    var a := if s != "" && s[0] == '\r' then 1 else 0;
    if |s| <= a || s[a] != '\n' then 0
    else
      var b := a + 1 + PrefixOf(s[a + 1..], BLANKS);
      var c := if b < |s| && s[b] == '\r' then b + 1 else b;
      if c < |s| && s[c] == '\n' then c + 1 else 0
  }

  /** Splitting at every separator, the leftmost first. */
  function SplitParagraphs(s: string): (parts: seq<string>)
    ensures |parts| >= 1
    decreases |s|
  {
    if s == "" then [""]
    else if SeparatorLength(s) > 0 then [""] + SplitParagraphs(s[SeparatorLength(s)..])
    else
      var rest := SplitParagraphs(s[1..]);
      [[s[0]] + rest[0]] + rest[1..]
  }

  /** Mapping items that may be skipped; the first failure is the result. */
  function Mapped<A, B, E>(items: seq<A>, f: A -> Result<Option<B>, E>): Result<seq<B>, E>
  {
    if items == [] then Ok([])
    else
      match f(items[0])
      case Err(e) => Err(e)
      case Ok(item) => Prepended(if item.Some? then [item.value] else [], Mapped(items[1..], f))
  }

  function Prepended<T, E>(front: seq<T>, rest: Result<seq<T>, E>): Result<seq<T>, E>
  {
    match rest case Err(e) => Err(e) case Ok(items) => Ok(front + items)
  }

  /** One paragraph of an index: nothing if it is blank, else a package. */
  function Reader(): string -> Result<Option<Package>, PackageError>
  {
    paragraph =>
      if TrimSpace(paragraph) == "" then Ok(None)
      else match ParsePackage(paragraph) case Err(e) => Err(e) case Ok(p) => Ok(Some(p))
  }

  function Writer(codename: string): Package -> Result<Option<string>, PackageError>
  {
    p => match Render(p, codename) case Err(e) => Err(e) case Ok(record) => Ok(Some(record))
  }

  /** The packages of an index text. */
  function ParsePackages(input: string): Result<seq<Package>, PackageError>
  {
    if TrimSpace(input) == "" then Ok([]) else Mapped(SplitParagraphs(input), Reader())
  }

  /** The records of packages, in order; the first one without a location is the result. */
  function Records(packages: seq<Package>, codename: string): Result<seq<string>, PackageError>
  {
    Mapped(packages, Writer(codename))
  }

  /** An index as text: records with an empty line between them. */
  function RenderIndex(packages: seq<Package>, codename: string): Result<string, PackageError>
  {
    match Records(packages, codename)
    case Err(e) => Err(e)
    case Ok(records) => Ok(Join(records, "\n"))
  }

  /** The packages of a stored index; a document that is not plain text is none. */
  function Entries(doc: Doc): Option<seq<Package>>
  {
    if !doc.Bytes? then None
    else match ParsePackages(doc.text) case Err(_) => None case Ok(packages) => Some(packages)
  }

  /** The index without packages is the empty text, and reads as one. */
  lemma EmptyIndex(codename: string)
    ensures RenderIndex([], codename) == Ok("") && Entries(Bytes("")) == Some([])
  {
  }

  // ------------------------------------------------------------------------- methods

  lemma PrependedMore<T, E>(front: seq<T>, more: seq<T>, rest: Result<seq<T>, E>)
    ensures Prepended(front + more, rest) == Prepended(front, Prepended(more, rest))
  {
    if rest.Ok? { assert front + more + rest.value == front + (more + rest.value); }
  }

  lemma PrependedNothing<T, E>(rest: Result<seq<T>, E>)
    ensures Prepended([], rest) == rest
  {
    if rest.Ok? { assert [] + rest.value == rest.value; }
  }

  /** Maps items in order, skipping some, until one fails. */
  method MapEach<A, B, E>(items: seq<A>, f: A -> Result<Option<B>, E>) returns (result: Result<seq<B>, E>)
    ensures result == Mapped(items, f)
  {
    var done := [];
    assert items[0..] == items;
    PrependedNothing(Mapped(items, f));
    for i := 0 to |items|
      invariant Prepended(done, Mapped(items[i..], f)) == Mapped(items, f)
    {
      assert items[i..][1..] == items[i + 1..];
      var item := f(items[i]);
      if item.Err? { return Err(item.error); }
      PrependedMore(done, if item.value.Some? then [item.value.value] else [], Mapped(items[i + 1..], f));
      if item.value.None? {
        assert done + [] == done;
        continue;
      }
      done := done + [item.value.value];
    }
    assert done + [] == done;
    result := Ok(done);
  }

  /** Reads the packages of an index text, paragraph by paragraph. */
  method ReadIndex(input: string) returns (result: Result<seq<Package>, PackageError>)
    ensures result == ParsePackages(input)
  {
    if TrimSpace(input) == "" { return Ok([]); }
    result := MapEach(SplitParagraphs(input), Reader());
  }

  /** Reads the packages of a stored index. */
  method ReadEntries(doc: Doc) returns (packages: Option<seq<Package>>)
    ensures packages == Entries(doc)
  {
    match doc {
      case Bytes(text) =>
        var read := ReadIndex(text);
        packages := if read.Err? then None else Some(read.value);
      case _ => packages := None;
    }
  }

  /** Writes records one after the other, with an empty line before each but the first. */
  method JoinRecords(records: seq<string>) returns (output: string)
    ensures output == Join(records, "\n")
  {
    output := "";
    for i := 0 to |records|
      invariant output == Join(records[..i], "\n")
    {
      assert records[..i + 1] == records[..i] + [records[i]];
      if i > 0 {
        JoinConcat(records[..i], [records[i]], "\n");
        output := output + "\n";
      } else {
        assert [] + [records[i]] == [records[i]];
      }
      output := output + records[i];
    }
    assert records[..|records|] == records;
  }

  /** Prints packages as an index. */
  method WriteIndex(packages: seq<Package>, codename: string) returns (result: Result<string, PackageError>)
    ensures result == RenderIndex(packages, codename)
  {
    var records := MapEach(packages, Writer(codename));
    if records.Err? { return Err(records.error); }
    var output := JoinRecords(records.value);
    result := Ok(output);
  }
}
