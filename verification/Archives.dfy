/**
 Reading a .deb file: an ar archive read as a stream, whose reader finds the next
 member wherever the reading of the last one stopped (the layout of deb(5)).
 */
module Archives {
  import opened Text
  import opened Numbers
  import opened Packages

  const MAGIC := "!<arch>\n"
  const HEADER_SIZE: nat := 60

  // ------------------------------------------------------------------- direct parsing

  datatype Header = AtEnd | Malformed | Member(name: string, size: nat)

  /** The member header at a position. */
  function HeaderAt(bytes: string, p: nat): Header
    requires p <= |bytes|
  {
    if p == |bytes| then AtEnd
    else if p + HEADER_SIZE > |bytes| then Malformed
    else ParseHeader(bytes[p..p + HEADER_SIZE])
  }

  function TrimSuffix(s: string, suffix: string): string
  {
    if HasSuffix(s, suffix) then s[..|s| - |suffix|] else s
  }

  function ParseHeader(header: string): Header
    requires |header| == HEADER_SIZE
  {
    var name := TrimSuffix(TrimSpace(header[..16]), "/");
    var (size, exact) := ParseInt64(TrimSpace(header[48..58]));
    if header[58..] != "`\n" || name == "" || name == "/" || name == "//" || HasPrefix(name, "#1/") then Malformed
    else if !exact || size < 0 then Malformed
    else Member(name, size)
  }

  /** Where the member after one with a body of this size starts. */
  function After(start: nat, size: nat): nat
  {
    start + HEADER_SIZE + size + size % 2
  }

  /** The members from a position on, and whether the archive is well formed up to its end. */
  function Members(bytes: string, p: nat): (seq<(string, nat)>, bool)
    decreases |bytes| - p
  {
    if p > |bytes| then ([], false)
    else
      match HeaderAt(bytes, p)
      case AtEnd => ([], true)
      case Malformed => ([], false)
      case Member(name, size) =>
        var (rest, whole) := Members(bytes, After(p, size));
        ([(name, size)] + rest, whole)
  }

  function Archive(bytes: string): (seq<(string, nat)>, bool)
  {
    if !HasPrefix(bytes, MAGIC) then ([], false) else Members(bytes, |MAGIC|)
  }

  // ----------------------------------------------------------------------- streaming

  /** A stream that hands out its bytes in chunks of any size, and what was handed out so far. */
  class Source {
    const bytes: string
    var seen: string

    constructor (bytes: string)
      ensures this.bytes == bytes && seen == "" && Valid()
    {
      this.bytes, seen := bytes, "";
    }

    ghost predicate Valid()
      reads this
    {
      seen <= bytes
    }

    /** At most n bytes, at least one of them unless the stream is at its end; the end may come with the last ones. */
    method Read(n: nat) returns (data: string, eof: bool)
      requires Valid()
      modifies this`seen
      ensures Valid() && |data| <= n && seen == old(seen) + data
      ensures data == "" && n > 0 ==> eof
      ensures eof ==> seen == bytes
    {
      var available := |bytes| - |seen|;
      var most := if n < available then n else available;
      var k: int := *;
      if k <= 0 || k > most { k := most; }
      data := bytes[|seen|..|seen| + k];
      var early: bool := *;
      eof := |seen| + k == |bytes| && (early || k == 0);
      seen := bytes[..|seen| + k];
    }

    /** Reads until n bytes are there or the stream ends. */
    method ReadFull(n: nat) returns (data: string)
      requires Valid()
      modifies this`seen
      ensures Valid() && seen == old(seen) + data && |data| <= n
      ensures |data| < n ==> seen == bytes
    {
      data := "";
      assert seen == old(seen) + data;
      while |data| < n
        invariant Valid() && |data| <= n && seen == old(seen) + data
        decreases n - |data|
      {
        var chunk, eof := Read(n - |data|);
        assert old(seen) + data + chunk == old(seen) + (data + chunk);
        data := data + chunk;
        if eof { return; }
      }
    }
  }

  class ArReader {
    const source: Source
    var started: bool
    var remaining: nat
    var padding: nat

    /** Where the next header is. */
    ghost function Position(): nat
      reads this, source
    {
      if started then |source.seen| + remaining + padding else |MAGIC|
    }

    ghost predicate Valid()
      reads this, source
    {
      source.Valid() && (!started ==> remaining == 0 && padding == 0)
    }

    constructor (source: Source)
      requires source.Valid() && source.seen == ""
      ensures this.source == source && Valid() && !started
    {
      this.source, started, remaining, padding := source, false, 0, 0;
    }

    /** Skips what is left of a member; false if the stream ends within it. */
    method Skip() returns (ok: bool)
      requires Valid() && started
      modifies this`remaining, this`padding, source`seen
      ensures Valid() && started && source.seen <= source.bytes
      ensures ok <==> old(Position()) <= |source.bytes|
      ensures ok ==> |source.seen| == old(Position()) && remaining == 0 && padding == 0
    {
      var body := source.ReadFull(remaining);
      if |body| < remaining { return false; }
      var pad := source.ReadFull(padding);
      if |pad| < padding { return false; }
      remaining, padding := 0, 0;
      ok := true;
    }

    /** Whether the reader stands where it was put: at the start, or past the magic. */
    ghost predicate InPlace()
      reads this, source
    {
      started || source.seen == ""
    }

    /** The next member, whatever was read of the last one. */
    method Next() returns (header: Header)
      requires Valid()
      modifies this, source`seen
      ensures Valid()
      ensures old(InPlace()) && !old(started) && !HasPrefix(source.bytes, MAGIC) ==> header == Malformed
      ensures old(InPlace()) && (old(started) || HasPrefix(source.bytes, MAGIC)) ==>
                header == if old(Position()) > |source.bytes| then Malformed else HeaderAt(source.bytes, old(Position()))
      ensures header.Member? ==> started && remaining == header.size && padding == header.size % 2
      ensures old(InPlace()) && header.Member? ==>
                && |source.seen| == old(Position()) + HEADER_SIZE && Position() == After(old(Position()), header.size)
      ensures header.AtEnd? ==> source.seen == source.bytes
    {
      ghost var bytes := source.bytes;
      if !started {
        ghost var atStart := source.seen == "";
        var magic := source.ReadFull(|MAGIC|);
        if atStart { MagicRead(bytes, source.seen, magic); }
        if magic != MAGIC { return Malformed; }
        started := true;
      }
      var skipped := Skip();
      if !skipped { return Malformed; }
      header := ReadHeader();
    }

    /** Reads one header where the stream stands. */
    method ReadHeader() returns (header: Header)
      requires Valid() && started && remaining == 0 && padding == 0
      modifies this`remaining, this`padding, source`seen
      ensures Valid() && started && header == HeaderAt(source.bytes, |old(source.seen)|)
      ensures header.Member? ==>
                && remaining == header.size && padding == header.size % 2
                && |source.seen| == |old(source.seen)| + HEADER_SIZE
      ensures header.AtEnd? ==> source.seen == source.bytes
    {
      ghost var start := |source.seen|;
      var text := source.ReadFull(HEADER_SIZE);
      assert source.seen == source.bytes[..|source.seen|];
      if |text| == 0 { return AtEnd; }
      if |text| < HEADER_SIZE { return Malformed; }
      assert text == source.bytes[start..start + HEADER_SIZE];
      header := ParseHeader(text);
      if header.Member? { remaining, padding := header.size, header.size % 2; }
    }

    /** Reads from the current member's body: never past it, and the next header stays where it is. */
    method ReadBody(n: nat) returns (data: string, ended: bool, cut: bool)
      requires Valid() && started
      modifies this`remaining, source`seen
      ensures Valid() && Position() == old(Position()) && |data| <= old(remaining)
      ensures source.seen == old(source.seen) + data && remaining == old(remaining) - |data|
      ensures ended ==> remaining == 0
      ensures cut ==> remaining > 0 && source.seen == source.bytes
      ensures n > 0 && data == "" ==> ended || cut
    {
      if remaining == 0 { return "", true, false; }
      var most := if n > remaining then remaining else n;
      var eof;
      data, eof := source.Read(most);
      remaining := remaining - |data|;
      ended := eof && remaining == 0;
      cut := eof && remaining > 0;
    }
  }

  lemma MagicRead(bytes: string, seen: string, magic: string)
    requires seen <= bytes && seen == magic && |magic| <= |MAGIC| && (|magic| < |MAGIC| ==> seen == bytes)
    ensures magic == MAGIC <==> HasPrefix(bytes, MAGIC)
  {
  }

  /** Reads any number of chunks of any size from the current member. */
  method ReadSome(reader: ArReader)
    requires reader.Valid() && reader.started
    modifies reader`remaining, reader.source`seen
    ensures reader.Valid() && reader.started && reader.Position() == old(reader.Position())
  {
    var rounds: int := *;
    while rounds > 0
      invariant reader.Valid() && reader.started && reader.Position() == old(reader.Position())
      decreases rounds
    {
      var n: int := *;
      var data, ended, cut := reader.ReadBody(if n > 0 then n else 0);
      rounds := rounds - 1;
    }
  }

  /**
   Lists an archive's members, reading any amount of each body in between. The reader
   resynchronises: names and sizes are those of a direct parse of the bytes.
   */
  method ListMembers(source: Source) returns (members: seq<(string, nat)>, whole: bool)
    requires source.Valid() && source.seen == ""
    modifies source
    ensures (members, whole) == Archive(source.bytes)
    ensures whole ==> source.seen == source.bytes
  {
    var reader := new ArReader(source);
    members := [];
    ghost var bytes := source.bytes;
    var header := reader.Next();
    ghost var position: nat := |MAGIC|;
    if header.Malformed? { return [], false; }
    assert [] + Members(bytes, position).0 == Members(bytes, position).0;
    ListedEnd(members, bytes, position, header);
    while header.Member?
      invariant reader.Valid() && reader.source == source && position <= |bytes|
      invariant header == HeaderAt(bytes, position) || header == Malformed
      invariant header.Member? ==> reader.started && reader.Position() == After(position, header.size)
      invariant header.AtEnd? ==> source.seen == bytes
      invariant header.Member? ==> Listed(members, bytes, position)
      invariant !header.Member? ==> Archive(bytes) == (members, header.AtEnd?)
      decreases if header.Member? then |bytes| - position + 1 else 0
    {
      var name, size := header.name, header.size;
      ListedMore(members, bytes, position, name, size);
      members := members + [(name, size)];
      ReadSome(reader);
      ghost var next := After(position, size);
      header := reader.Next();
      if next <= |bytes| {
        position := next;
      }
      ListedEnd(members, bytes, next, header);
    }
    whole := header.AtEnd?;
  }

  /** The members found before a position, and those still to come. */
  ghost predicate Listed(members: seq<(string, nat)>, bytes: string, position: nat)
  {
    Archive(bytes) == (members + Members(bytes, position).0, Members(bytes, position).1)
  }

  lemma ListedMore(members: seq<(string, nat)>, bytes: string, position: nat, name: string, size: nat)
    requires position <= |bytes| && Listed(members, bytes, position) && HeaderAt(bytes, position) == Member(name, size)
    ensures Listed(members + [(name, size)], bytes, After(position, size))
  {
    var rest := Members(bytes, After(position, size)).0;
    assert members + ([(name, size)] + rest) == members + [(name, size)] + rest;
  }

  lemma ListedEnd(members: seq<(string, nat)>, bytes: string, position: nat, header: Header)
    requires Listed(members, bytes, position)
    requires header == if position > |bytes| then Malformed else HeaderAt(bytes, position)
    ensures !header.Member? ==> Archive(bytes) == (members, header.AtEnd?)
  {
    assert members + [] == members;
  }

  // ------------------------------------------------------------------ a Debian package

  datatype Entry = Entry(name: string, body: string)

  /** Unpacks the control file of a control archive, given the member's name and body; none if it is refused. */
  type Extractor = (string, string) -> Option<string>

  /** The members from a position on with their bodies; none unless the archive is well formed up to its end. */
  function Contents(bytes: string, p: nat): Option<seq<Entry>>
    decreases |bytes| - p
  {
    if p > |bytes| then None
    else
      match HeaderAt(bytes, p)
      case AtEnd => Some([])
      case Malformed => None
      case Member(name, size) =>
        if After(p, size) > |bytes| then None
        else
          match Contents(bytes, After(p, size))
          case None => None
          case Some(rest) => Some([Entry(name, BodyAt(bytes, p, size))] + rest)
  }

  function BodyAt(bytes: string, p: nat, size: nat): string
    requires p + HEADER_SIZE + size <= |bytes|
  {
    bytes[p + HEADER_SIZE..p + HEADER_SIZE + size]
  }

  /** Entries with these names and sizes. */
  ghost predicate Sized(entries: seq<Entry>, members: seq<(string, nat)>)
  {
    && |entries| == |members|
    && forall i :: 0 <= i < |entries| ==> members[i] == (entries[i].name, |entries[i].body|)
  }

  lemma SizedMore(entry: Entry, entries: seq<Entry>, member: (string, nat), members: seq<(string, nat)>)
    requires Sized(entries, members) && member == (entry.name, |entry.body|)
    ensures Sized([entry] + entries, [member] + members)
  {
  }

  /** The contents are the members of a direct parse, sizes and all. */
  lemma {:induction false} ContentsMembers(bytes: string, p: nat)
    ensures Contents(bytes, p).Some? <==> Members(bytes, p).1
    ensures Contents(bytes, p).Some? ==> Sized(Contents(bytes, p).value, Members(bytes, p).0)
    decreases |bytes| - p
  {
    if p <= |bytes| && HeaderAt(bytes, p).Member? {
      var name, size := HeaderAt(bytes, p).name, HeaderAt(bytes, p).size;
      ContentsMembers(bytes, After(p, size));
      MembersStep(bytes, p, name, size, Contents(bytes, After(p, size)), Members(bytes, After(p, size)));
    }
  }

  lemma MembersStep(bytes: string, p: nat, name: string, size: nat, entries: Option<seq<Entry>>, members: (seq<(string, nat)>, bool))
    requires p <= |bytes| && HeaderAt(bytes, p) == Member(name, size)
    requires entries == Contents(bytes, After(p, size)) && members == Members(bytes, After(p, size))
    requires (entries.Some? <==> members.1) && (entries.Some? ==> Sized(entries.value, members.0))
    ensures Contents(bytes, p).Some? <==> Members(bytes, p).1
    ensures Contents(bytes, p).Some? ==> Sized(Contents(bytes, p).value, Members(bytes, p).0)
  {
    if After(p, size) <= |bytes| && entries.Some? {
      SizedMore(Entry(name, BodyAt(bytes, p, size)), entries.value, (name, size), members.0);
    }
  }

  /** How far the reading of a package got: the version seen, then the control file, then the data archive. */
  datatype Stage = Stage(state: nat, control: string)

  /** The version member: short, and of major version 2. */
  predicate Supported(version: string)
  {
    |version| <= 32 && HasPrefix(TrimSpace(version), "2.")
  }

  /** One member at one stage: the next stage, or none if the file is refused. Members that start with "_" may stand in between. */
  function Enter(s: Stage, name: string, body: string, extract: Extractor): Option<Stage>
  {
    if s.state == 0 then if name == "debian-binary" && Supported(body) then Some(Stage(1, "")) else None
    else if s.state >= 3 || HasPrefix(name, "_") then Some(s)
    else if s.state == 1 then
      if !HasPrefix(name, "control.tar") then None
      else
        match extract(name, body)
        case None => None
        case Some(control) => Some(Stage(2, control))
    else if HasPrefix(name, "data.tar") then Some(Stage(3, s.control))
    else None
  }

  function EnterAll(s: Stage, entries: seq<Entry>, extract: Extractor): Option<Stage>
    decreases |entries|
  {
    if entries == [] then Some(s)
    else
      match Enter(s, entries[0].name, entries[0].body, extract)
      case None => None
      case Some(next) => EnterAll(next, entries[1..], extract)
  }

  /** The stage reached by the members from a position on. */
  function Scan(bytes: string, p: nat, s: Stage, extract: Extractor): Option<Stage>
  {
    match Contents(bytes, p)
    case None => None
    case Some(entries) => EnterAll(s, entries, extract)
  }

  /** The control file of a package; none if the file is refused. */
  function ControlFile(bytes: string, extract: Extractor): Option<string>
  {
    if !HasPrefix(bytes, MAGIC) then None
    else
      match Scan(bytes, |MAGIC|, Stage(0, ""), extract)
      case None => None
      case Some(s) => if s.state >= 3 then Some(s.control) else None
  }

  /** Members i and j are the control and the data archive, after a supported version and nothing but "_" members in between. */
  ghost predicate Debian(entries: seq<Entry>, i: nat, j: nat)
  {
    && 0 < i < j < |entries|
    && entries[0].name == "debian-binary" && Supported(entries[0].body)
    && (forall k :: 0 < k < i || i < k < j ==> HasPrefix(entries[k].name, "_"))
    && HasPrefix(entries[i].name, "control.tar") && HasPrefix(entries[j].name, "data.tar")
  }

  lemma PrefixesApart(name: string)
    ensures HasPrefix(name, "_") ==> !HasPrefix(name, "control.tar") && !HasPrefix(name, "data.tar")
  {
    if HasPrefix(name, "_") { assert name[0] == "_"[0]; }
    if HasPrefix(name, "control.tar") { assert name[0] == "control.tar"[0]; }
    if HasPrefix(name, "data.tar") { assert name[0] == "data.tar"[0]; }
  }

  lemma {:induction false} EnterDone(s: Stage, entries: seq<Entry>, extract: Extractor)
    requires s.state >= 3
    ensures EnterAll(s, entries, extract) == Some(s)
  {
    if entries != [] { EnterDone(s, entries[1..], extract); }
  }

  /** Entry j is the first plain one, and it has a name of this form. */
  ghost predicate FirstPlain(entries: seq<Entry>, j: nat, form: string)
  {
    && j < |entries| && (forall k :: 0 <= k < j ==> HasPrefix(entries[k].name, "_"))
    && !HasPrefix(entries[j].name, "_") && HasPrefix(entries[j].name, form)
  }

  ghost predicate StartsPlain(entries: seq<Entry>, form: string)
  {
    exists j :: FirstPlain(entries, j, form)
  }

  /** From the control file on, only a data archive leads to the last stage. */
  lemma {:induction false} EnterData(control: string, entries: seq<Entry>, extract: Extractor)
    ensures var last := EnterAll(Stage(2, control), entries, extract);
            && (last.Some? && last.value.state >= 3 <==> StartsPlain(entries, "data.tar"))
            && (last.Some? ==> last.value.control == control)
  {
    if entries != [] {
      if HasPrefix(entries[0].name, "_") {
        EnterData(control, entries[1..], extract);
        assert forall j: nat :: FirstPlain(entries, j, "data.tar") <==> j > 0 && FirstPlain(entries[1..], j - 1, "data.tar");
        if j: nat :| FirstPlain(entries[1..], j, "data.tar") { assert FirstPlain(entries, j + 1, "data.tar"); }
      } else if HasPrefix(entries[0].name, "data.tar") {
        EnterDone(Stage(3, control), entries[1..], extract);
        assert FirstPlain(entries, 0, "data.tar");
      }
    }
  }

  /** The stage after a control archive at i. */
  ghost predicate ControlThenData(entries: seq<Entry>, i: nat, extract: Extractor, control: string)
  {
    && FirstPlain(entries, i, "control.tar") && extract(entries[i].name, entries[i].body) == Some(control)
    && StartsPlain(entries[i + 1..], "data.tar")
  }

  lemma {:induction false} EnterControl(entries: seq<Entry>, extract: Extractor, control: string)
    ensures var last := EnterAll(Stage(1, ""), entries, extract);
            last.Some? && last.value.state >= 3 && last.value.control == control <==>
            exists i :: ControlThenData(entries, i, extract, control)
  {
    if entries != [] {
      if HasPrefix(entries[0].name, "_") {
        EnterControl(entries[1..], extract, control);
        forall i: nat ensures ControlThenData(entries, i, extract, control) <==>
                              i > 0 && ControlThenData(entries[1..], i - 1, extract, control) {
          if 0 < i < |entries| { assert entries[i + 1..] == entries[1..][i..] && entries[i] == entries[1..][i - 1]; }
        }
        if i: nat :| ControlThenData(entries[1..], i, extract, control) { assert ControlThenData(entries, i + 1, extract, control); }
      } else if HasPrefix(entries[0].name, "control.tar") {
        match extract(entries[0].name, entries[0].body) {
          case None =>
          case Some(found) =>
            EnterData(found, entries[1..], extract);
            assert ControlThenData(entries, 0, extract, found) <==> StartsPlain(entries[1..], "data.tar");
        }
      }
    }
  }

  /** Members i and j make a package with this control file. */
  ghost predicate Packaged(entries: seq<Entry>, i: nat, j: nat, extract: Extractor, control: string)
  {
    Debian(entries, i, j) && extract(entries[i].name, entries[i].body) == Some(control)
  }

  lemma EntriesShape(entries: seq<Entry>, extract: Extractor, control: string)
    ensures var last := EnterAll(Stage(0, ""), entries, extract);
            last.Some? && last.value.state >= 3 && last.value.control == control <==>
            exists i, j :: Packaged(entries, i, j, extract, control)
  {
    if entries != [] && entries[0].name == "debian-binary" && Supported(entries[0].body) {
      EnterControl(entries[1..], extract, control);
      if i, j :| Packaged(entries, i, j, extract, control) {
        ShapeParts(entries, i, j, extract, control);
      }
      if i: nat :| ControlThenData(entries[1..], i, extract, control) {
        var j: nat :| FirstPlain(entries[1..][i + 1..], j, "data.tar");
        assert Packaged(entries, i + 1, i + 2 + j, extract, control);
      }
    }
  }

  /**
   A file is accepted, with this control file, exactly when it is a well formed archive
   of a supported version member, a control archive that unpacks to it and a data
   archive, in this order, with nothing but "_" members in between; what follows is free.
   */
  lemma PackageShape(bytes: string, extract: Extractor, control: string)
    ensures ControlFile(bytes, extract) == Some(control) <==>
            && HasPrefix(bytes, MAGIC) && Contents(bytes, |MAGIC|).Some?
            && exists i, j :: Packaged(Contents(bytes, |MAGIC|).value, i, j, extract, control)
  {
    if Contents(bytes, |MAGIC|).Some? {
      EntriesShape(Contents(bytes, |MAGIC|).value, extract, control);
    }
  }

  lemma ShapeParts(entries: seq<Entry>, i: nat, j: nat, extract: Extractor, control: string)
    requires Packaged(entries, i, j, extract, control)
    ensures ControlThenData(entries[1..], i - 1, extract, control)
  {
    PrefixesApart(entries[i].name);
    PrefixesApart(entries[j].name);
    assert FirstPlain(entries[1..], i - 1, "control.tar");
    var rest := entries[1..][i..];
    forall k | 0 <= k < j - i - 1 ensures HasPrefix(rest[k].name, "_") {
      assert rest[k] == entries[i + 1 + k];
    }
    assert rest[j - i - 1] == entries[j];
    assert FirstPlain(rest, j - i - 1, "data.tar");
  }

  // -------------------------------------------------------------- reading it as a stream

  /** The bytes of the body the reader stands in, if the stream holds them all. */
  ghost function Body(reader: ArReader): Option<string>
    requires reader.Valid()
    reads reader, reader.source
  {
    var start := |reader.source.seen|;
    if start + reader.remaining <= |reader.source.bytes|
    then Some(reader.source.bytes[start..start + reader.remaining]) else None
  }

  /** Reads the rest of a body; false if the stream ends within it. */
  method ReadAll(reader: ArReader) returns (data: string, ok: bool)
    requires reader.Valid() && reader.started
    modifies reader`remaining, reader.source`seen
    ensures reader.Valid() && reader.Position() == old(reader.Position())
    ensures ok <==> old(Body(reader)).Some?
    ensures ok ==> data == old(Body(reader)).value
  {
    data := "";
    assert reader.source.seen == old(reader.source.seen) + data;
    while true
      invariant reader.Valid() && reader.Position() == old(reader.Position())
      invariant reader.source.seen == old(reader.source.seen) + data && |data| + reader.remaining == old(reader.remaining)
      decreases reader.remaining
    {
      var chunk, ended, cut := reader.ReadBody(512);
      assert old(reader.source.seen) + data + chunk == old(reader.source.seen) + (data + chunk);
      data := data + chunk;
      if cut { return data, false; }
      if ended {
        assert reader.source.seen[|old(reader.source.seen)|..] == data;
        return data, true;
      }
    }
  }

  /** Checks the version member. */
  method ValidVersion(reader: ArReader, size: nat) returns (ok: bool)
    requires reader.Valid() && reader.started && reader.remaining == size
    modifies reader`remaining, reader.source`seen
    ensures reader.Valid() && reader.Position() == old(reader.Position()) && reader.started
    ensures old(Body(reader)).Some? ==> (ok <==> Supported(old(Body(reader)).value))
  {
    if size > 32 { return false; }
    var data, whole := ReadAll(reader);
    if !whole { return false; }
    var version := TrimSpace(data);
    ok := HasPrefix(version, "2.");
  }

  /** Unpacks the control archive, which reads as much of the body as it needs. */
  method ReadControl(reader: ArReader, name: string, extract: Extractor) returns (control: Option<string>)
    requires reader.Valid() && reader.started
    modifies reader`remaining, reader.source`seen
    ensures reader.Valid() && reader.Position() == old(reader.Position()) && reader.started
    ensures old(Body(reader)).Some? ==> control == extract(name, old(Body(reader)).value)
  {
    var bytes, start, end := reader.source.bytes, |reader.source.seen|, |reader.source.seen| + reader.remaining;
    control := extract(name, bytes[start..if end <= |bytes| then end else |bytes|]);
    ReadSome(reader);
  }

  /** Enters one member: exactly as its whole body tells, if the stream holds it. */
  method Examine(reader: ArReader, ghost p: nat, s: Stage, name: string, size: nat, extract: Extractor) returns (next: Option<Stage>)
    requires reader.Valid() && reader.started && reader.remaining == size && |reader.source.seen| == p + HEADER_SIZE
    modifies reader`remaining, reader.source`seen
    ensures reader.Valid() && reader.Position() == old(reader.Position()) && reader.started
    ensures p + HEADER_SIZE + size <= |reader.source.bytes| ==>
              next == Enter(s, name, BodyAt(reader.source.bytes, p, size), extract)
  {
    if s.state == 0 {
      if name != "debian-binary" { return None; }
      var ok := ValidVersion(reader, size);
      return if ok then Some(Stage(1, "")) else None;
    }
    if s.state == 1 {
      if HasPrefix(name, "_") { return Some(s); }
      if !HasPrefix(name, "control.tar") { return None; }
      var control := ReadControl(reader, name, extract);
      return if control.Some? then Some(Stage(2, control.value)) else None;
    }
    if s.state == 2 {
      if HasPrefix(name, "_") { return Some(s); }
      if !HasPrefix(name, "data.tar") { return None; }
      return Some(Stage(3, s.control));
    }
    next := Some(s);
  }

  lemma ScanStep(bytes: string, p: nat, s: Stage, extract: Extractor, next: Option<Stage>)
    requires p <= |bytes| && HeaderAt(bytes, p).Member?
    requires var size := HeaderAt(bytes, p).size;
             p + HEADER_SIZE + size <= |bytes| ==> next == Enter(s, HeaderAt(bytes, p).name, BodyAt(bytes, p, size), extract)
    ensures next.None? || After(p, HeaderAt(bytes, p).size) > |bytes| ==> Scan(bytes, p, s, extract) == None
    ensures next.Some? && After(p, HeaderAt(bytes, p).size) <= |bytes| ==>
              Scan(bytes, p, s, extract) == Scan(bytes, After(p, HeaderAt(bytes, p).size), next.value, extract)
  {
  }

  /** An inspected package carries nothing that belongs to an index entry. */
  function WithoutEntry(p: Package): Package
  {
    p.(indexFilename := None, size := None, md5 := None, sha1 := None, sha256 := None)
  }

  datatype PackageInfo = PackageInfo(package: Package, size: nat, digested: string)

  /** The package of a file, with the size and the bytes its digests are taken of: all of them. */
  function Inspection(bytes: string, extract: Extractor): Option<PackageInfo>
  {
    match ControlFile(bytes, extract)
    case None => None
    case Some(control) =>
      match ParsePackage(control)
      case Err(_) => None
      case Ok(p) => Some(PackageInfo(WithoutEntry(p), |bytes|, bytes))
  }

  /** Walks through the members of a package to the end of the input. */
  method WalkMembers(source: Source, extract: Extractor) returns (control: Option<string>)
    requires source.Valid() && source.seen == ""
    modifies source
    ensures control == ControlFile(source.bytes, extract)
    ensures control.Some? ==> source.seen == source.bytes
  {
    var reader := new ArReader(source);
    ghost var bytes := source.bytes;
    var stage := Stage(0, "");
    var header := reader.Next();
    if header.Malformed? {
      if HasPrefix(bytes, MAGIC) { assert HeaderAt(bytes, |MAGIC|).Malformed?; }
      return None;
    }
    ghost var position: nat := |MAGIC|;
    ghost var whole := Scan(bytes, position, stage, extract);
    while header.Member?
      invariant reader.Valid() && reader.source == source && position <= |bytes|
      invariant header.Member? ==> reader.started && reader.remaining == header.size && |source.seen| == position + HEADER_SIZE
      invariant header.Member? ==> reader.Position() == After(position, header.size)
      invariant header.Malformed? ==> whole == None
      invariant !header.Malformed? ==> header == HeaderAt(bytes, position) && whole == Scan(bytes, position, stage, extract)
      invariant header.AtEnd? ==> source.seen == bytes
      decreases if header.Member? then |bytes| - position + 1 else 0
    {
      var size := header.size;
      var next := Examine(reader, position, stage, header.name, size, extract);
      ScanStep(bytes, position, stage, extract, next);
      if next.None? { return None; }
      stage := next.value;
      header := reader.Next();
      if After(position, size) <= |bytes| {
        position := After(position, size);
      }
    }
    if header.Malformed? || stage.state < 3 { return None; }
    control := Some(stage.control);
  }

  /**
   Reads a package as a stream. The outcome is that of a direct parse of the bytes,
   however little of the bodies was read, and the size and the digests cover every byte.
   */
  method ReadPackage(source: Source, extract: Extractor) returns (info: Option<PackageInfo>)
    requires source.Valid() && source.seen == ""
    modifies source
    ensures info == Inspection(source.bytes, extract)
  {
    var control := WalkMembers(source, extract);
    if control.None? { return None; }
    var parsed := ParsePackage(control.value);
    if parsed.Err? { return None; }
    info := Some(PackageInfo(WithoutEntry(parsed.value), |source.seen|, source.seen));
  }

  // -------------------------------------------------------------------- a size limit

  datatype Limited = Data(bytes: string, eof: bool) | TooLarge

  /** A reader that delivers at most a number of bytes, and then tells the end from an excess. */
  class SizeLimitedReader {
    const source: Source
    const limit: nat
    const start: nat
    var remaining: int
    ghost var delivered: string

    ghost predicate Valid()
      reads this, source
    {
      && source.Valid() && 0 <= remaining <= limit && |delivered| == limit - remaining
      && start + |delivered| <= |source.seen| && delivered == source.bytes[start..start + |delivered|]
      && (remaining > 0 ==> |source.seen| == start + |delivered|)
    }

    constructor (source: Source, limit: nat)
      requires source.Valid()
      ensures Valid() && this.source == source && this.limit == limit && start == |source.seen| && delivered == ""
    {
      this.source, this.limit, start := source, limit, |source.seen|;
      remaining, delivered := limit, "";
    }

    /** Delivers more bytes, or reports an excess, which happens only if there is a byte beyond the limit. */
    method Read(n: nat) returns (result: Limited)
      requires Valid()
      modifies this, source`seen
      ensures Valid() && |delivered| <= limit
      ensures result.Data? ==> delivered == old(delivered) + result.bytes
      ensures result.TooLarge? ==> delivered == old(delivered) && |delivered| == limit && start + limit < |source.bytes|
      ensures result.Data? && result.eof ==> source.seen == source.bytes
      ensures result.Data? && n > 0 && result.bytes == "" ==> result.eof
      ensures result.Data? && |old(source.seen)| == start + |old(delivered)| ==> |source.seen| == start + |delivered|
    {
      if remaining <= 0 {
        var probe, eof := source.Read(1);
        if |probe| > 0 { return TooLarge; }
        assert delivered + "" == delivered;
        return Data("", eof);
      }
      var most := if n > remaining then remaining else n;
      var data, eof := source.Read(most);
      remaining := remaining - |data|;
      assert source.bytes[start..|old(source.seen)|] + data == source.bytes[start..|source.seen|];
      delivered := delivered + data;
      result := Data(data, eof);
    }
  }

  /** Reads through a limit to the end, in chunks of any size: all bytes within the limit, or an excess. */
  method ReadLimited(source: Source, limit: nat, chunk: nat) returns (data: Option<string>)
    requires source.Valid() && chunk > 0
    modifies source`seen
    ensures var rest := source.bytes[|old(source.seen)|..];
            data == if |rest| <= limit then Some(rest) else None
  {
    var reader := new SizeLimitedReader(source, limit);
    var found := "";
    while true
      invariant reader.Valid() && reader.source == source && reader.limit == limit && reader.start == |old(source.seen)|
      invariant reader.delivered == found
      invariant |source.seen| == reader.start + |found|
      decreases reader.remaining
    {
      var result := reader.Read(chunk);
      if result.TooLarge? { return None; }
      found := found + result.bytes;
      if result.eof {
        LimitedWhole(source, reader, found);
        return Some(found);
      }
    }
  }

  lemma LimitedWhole(source: Source, reader: SizeLimitedReader, found: string)
    requires reader.Valid() && reader.source == source && source.seen == source.bytes && found == reader.delivered
    requires |source.seen| == reader.start + |found|
    ensures found == source.bytes[reader.start..] && |found| <= reader.limit
  {
  }
}
