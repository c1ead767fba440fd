/**
 Archives as they are written: members behind headers of fixed columns, padded to even
 length. The reader finds exactly what was written, and a package among it.
 */
module ArchiveText {
  import opened Text
  import opened Numbers
  import opened Packages
  import opened Archives

  // ------------------------------------------------------------------------ writing

  function Blanks(n: nat): (s: string)
    ensures |s| == n && forall i :: 0 <= i < n ==> s[i] == ' '
  {
    if n == 0 then "" else " " + Blanks(n - 1)
  }

  /** A text with blanks after it up to a width. */
  function Column(text: string, width: nat): (s: string)
    requires |text| <= width
    ensures |s| == width
  {
    text + Blanks(width - |text|)
  }

  /**
   A member as written: its name, with a slash after it or not; whatever the columns of
   date, owner, group and mode hold; its size in decimal; its body; and a byte of padding.
   */
  datatype Piece = Piece(name: string, slash: bool, columns: string, size: string, body: string, padding: char)

  function NameText(m: Piece): string
  {
    if m.slash then m.name + "/" else m.name
  }

  /** A name of its column, without slashes or blanks around it, and a size of at most ten digits that is the body's. */
  predicate Writable(m: Piece)
  {
    && m.name != "" && Trimmed(m.name) && '/' !in m.name && |NameText(m)| <= 16
    && |m.columns| == 32 && m.size != "" && |m.size| <= 10 && AllDigits(m.size) && Decimal(m.size) == |m.body|
  }

  predicate AllWritable(ms: seq<Piece>)
  {
    forall i :: 0 <= i < |ms| ==> Writable(ms[i])
  }

  function HeaderText(m: Piece): (text: string)
    requires Writable(m)
    ensures |text| == 60
  {
    Column(NameText(m), 16) + m.columns + Column(m.size, 10) + "`\n"
  }

  function PieceText(m: Piece): string
    requires Writable(m)
  {
    HeaderText(m) + m.body + (if |m.body| % 2 == 1 then [m.padding] else "")
  }

  function PiecesText(ms: seq<Piece>): string
    requires AllWritable(ms)
  {
    if ms == [] then "" else PieceText(ms[0]) + PiecesText(ms[1..])
  }

  function ArchiveOf(ms: seq<Piece>): string
    requires AllWritable(ms)
  {
    "!<arch>\n" + PiecesText(ms)
  }

  function EntriesOf(ms: seq<Piece>): (entries: seq<Entry>)
    ensures |entries| == |ms|
    ensures forall i :: 0 <= i < |ms| ==> entries[i] == Entry(ms[i].name, ms[i].body)
  {
    if ms == [] then [] else [Entry(ms[0].name, ms[0].body)] + EntriesOf(ms[1..])
  }

  // ------------------------------------------------------------------------ columns

  lemma {:induction false} BlanksTrimmed(text: string, n: nat)
    requires text == "" || !IsSpace(text[|text| - 1])
    ensures TrimRight(text + Blanks(n)) == text
  {
    if n == 0 {
      assert text + Blanks(0) == text;
    } else {
      BlanksGrow(n);
      var padded := text + Blanks(n);
      assert padded[..|padded| - 1] == text + Blanks(n - 1);
      BlanksTrimmed(text, n - 1);
    }
  }

  lemma BlanksGrow(n: nat)
    requires n > 0
    ensures Blanks(n) == Blanks(n - 1) + " "
  {
  }

  /** A column trimmed is its text. */
  lemma ColumnTrimmed(text: string, width: nat)
    requires text != "" && Trimmed(text) && |text| <= width
    ensures TrimSpace(Column(text, width)) == text
  {
    assert Column(text, width)[0] == text[0];
    BlanksTrimmed(text, width - |text|);
  }

  // --------------------------------------------------------------------------- sizes

  lemma {:induction false} DecimalBelow(digits: string)
    requires AllDigits(digits)
    ensures Decimal(digits) < Power10(|digits|)
    decreases |digits|
  {
    if digits != "" {
      DecimalBelow(digits[1..]);
      Shifted((digits[0] - '0') as nat, Power10(|digits| - 1));
    }
  }

  lemma SizeReads(m: Piece)
    requires Writable(m)
    ensures ParseInt64(TrimSpace(Column(m.size, 10))) == (|m.body|, true)
  {
    ColumnTrimmed(m.size, 10);
    DecimalValue(m.size);
    DecimalBelow(m.size);
    PowerTen(|m.size|);
    ParseUnsigned(m.size);
  }

  lemma {:induction false} PowerTen(n: nat)
    requires n <= 10
    ensures Power10(n) <= 10_000_000_000
    decreases 10 - n
  {
    if n < 10 { PowerTen(n + 1); } else { PowersOfTen(); }
  }

  lemma PowersOfTen()
    ensures Power10(10) == 10_000_000_000
  {
    assert Power10(5) == 100_000;
  }

  // -------------------------------------------------------------------------- headers

  lemma HeaderColumns(m: Piece)
    requires Writable(m)
    ensures var text := HeaderText(m);
            text[..16] == Column(NameText(m), 16) && text[48..58] == Column(m.size, 10) && text[58..] == "`\n"
  {
  }

  lemma NameReads(m: Piece)
    requires Writable(m)
    ensures TrimSuffix(TrimSpace(Column(NameText(m), 16)), "/") == m.name
  {
    var text := NameText(m);
    assert text != "" && Trimmed(text);
    ColumnTrimmed(text, 16);
    if m.slash {
      assert text[|text| - 1..] == "/" && text[..|text| - 1] == m.name;
    } else {
      assert text[|text| - 1] != '/';
    }
  }

  /** Where such a header stands, the reader finds the member's name and size. */
  lemma HeaderReads(bytes: string, p: nat, m: Piece)
    requires Writable(m) && p + 60 <= |bytes| && bytes[p..p + 60] == HeaderText(m)
    ensures HeaderAt(bytes, p) == Member(m.name, |m.body|)
  {
    HeaderColumns(m);
    NameReads(m);
    SizeReads(m);
    SlashFree(m.name);
  }

  lemma SlashFree(name: string)
    requires '/' !in name
    ensures name != "/" && name != "//" && !HasPrefix(name, "#1/")
  {
    assert "#1/"[2] == '/' && "/"[0] == '/' && "//"[0] == '/';
  }

  // ------------------------------------------------------------------------- archives

  lemma PieceAt(bytes: string, front: string, m: Piece, rest: string)
    requires Writable(m) && bytes == front + (PieceText(m) + rest)
    ensures |front| + 60 + |m.body| + |m.body| % 2 == |front + PieceText(m)| <= |bytes|
    ensures bytes[|front|..|front| + 60] == HeaderText(m)
    ensures bytes[|front| + 60..|front| + 60 + |m.body|] == m.body
  {
    var tail := if |m.body| % 2 == 1 then [m.padding] else "";
    assert bytes == front + HeaderText(m) + (m.body + tail + rest);
    assert bytes == front + HeaderText(m) + m.body + (tail + rest);
  }

  lemma ContentsMore(bytes: string, p: nat, name: string, size: nat, entries: Option<seq<Entry>>)
    requires p <= |bytes| && HeaderAt(bytes, p) == Member(name, size) && After(p, size) <= |bytes|
    requires entries == Contents(bytes, After(p, size)) && entries.Some?
    ensures Contents(bytes, p) == Some([Entry(name, BodyAt(bytes, p, size))] + entries.value)
  {
  }

  lemma PieceStands(bytes: string, front: string, m: Piece, rest: string)
    requires Writable(m) && bytes == front + (PieceText(m) + rest)
    ensures After(|front|, |m.body|) == |front + PieceText(m)| <= |bytes|
    ensures HeaderAt(bytes, |front|) == Member(m.name, |m.body|) && BodyAt(bytes, |front|, |m.body|) == m.body
  {
    PieceAt(bytes, front, m, rest);
    HeaderReads(bytes, |front|, m);
  }

  lemma PieceRead(bytes: string, front: string, m: Piece, rest: string, p: nat, next: nat, entries: Option<seq<Entry>>)
    requires Writable(m) && bytes == front + (PieceText(m) + rest) && p == |front| && next == |front + PieceText(m)|
    requires entries == Contents(bytes, next) && entries.Some?
    ensures Contents(bytes, p) == Some([Entry(m.name, m.body)] + entries.value)
  {
    PieceStands(bytes, front, m, rest);
    ContentsMore(bytes, p, m.name, |m.body|, entries);
  }

  /** The contents of written members are what was written, wherever they start. */
  lemma {:induction false} PiecesRead(bytes: string, front: string, ms: seq<Piece>)
    requires AllWritable(ms) && bytes == front + PiecesText(ms)
    ensures Contents(bytes, |front|) == Some(EntriesOf(ms))
    decreases |ms|
  {
    if ms == [] {
      NothingLeft(bytes, front);
    } else {
      var next := front + PieceText(ms[0]);
      assert bytes == next + PiecesText(ms[1..]);
      PiecesRead(bytes, next, ms[1..]);
      PieceRead(bytes, front, ms[0], PiecesText(ms[1..]), |front|, |next|, Some(EntriesOf(ms[1..])));
    }
  }

  lemma NothingLeft(bytes: string, front: string)
    requires bytes == front + ""
    ensures Contents(bytes, |front|) == Some([])
  {
  }

  /** A written archive is read as exactly the members that were written. */
  lemma ArchiveReads(ms: seq<Piece>)
    requires AllWritable(ms)
    ensures HasPrefix(ArchiveOf(ms), MAGIC) && Contents(ArchiveOf(ms), |MAGIC|) == Some(EntriesOf(ms))
  {
    assert "!<arch>\n" == MAGIC;
    PiecesRead(ArchiveOf(ms), MAGIC, ms);
  }

  // ------------------------------------------------------------------------- packages

  lemma {:induction false} TrimLeftDrops(s: string) returns (i: nat)
    ensures i <= |s| && TrimLeft(s) == s[i..] && Blank(s[..i])
  {
    if s != "" && IsSpace(s[0]) {
      var k := TrimLeftDrops(s[1..]);
      i := k + 1;
      assert s[1..][k..] == s[i..];
      forall j | 0 <= j < i ensures IsSpace(s[..i][j]) { if j > 0 { assert s[..i][j] == s[1..][..k][j - 1]; } }
    } else {
      i := 0;
    }
  }

  lemma {:induction false} TrimRightKeeps(s: string, k: nat)
    requires 0 < k <= |s| && !IsSpace(s[k - 1])
    ensures k <= |TrimRight(s)| && TrimRight(s) <= s
    decreases |s|
  {
    if IsSpace(s[|s| - 1]) { TrimRightKeeps(s[..|s| - 1], k); }
  }

  lemma {:induction false} TrimRightPrefix(s: string)
    ensures TrimRight(s) <= s
  {
    if s != "" && IsSpace(s[|s| - 1]) { TrimRightPrefix(s[..|s| - 1]); }
  }

  /** A version is supported exactly if it is at most 32 bytes, of which the first that are not blanks are "2.". */
  lemma SupportedExact(version: string)
    ensures Supported(version) <==>
            |version| <= 32 && exists i :: 0 <= i <= |version| && Blank(version[..i]) && "2." <= version[i..]
  {
    var text := TrimLeft(version);
    var k := TrimLeftDrops(version);
    TrimRightPrefix(text);
    if "2." <= text { TrimRightKeeps(text, 2); }
    assert "2." <= TrimSpace(version) <==> "2." <= text;
    if i :| 0 <= i <= |version| && Blank(version[..i]) && "2." <= version[i..] {
      SameStart(version, i, k);
    }
  }

  /** The first bytes that are not blanks start at one place. */
  lemma SameStart(s: string, i: nat, k: nat)
    requires i <= |s| && Blank(s[..i]) && "2." <= s[i..]
    requires k <= |s| && Blank(s[..k]) && (s[k..] == "" || !IsSpace(s[k]))
    ensures i == k
  {
    assert s[i] == s[i..][0] == '2';
  }

  /** A version member, a control archive that unpacks to a control file, and a data archive. */
  ghost predicate PackageOf(ms: seq<Piece>, extract: Extractor, control: string)
  {
    && |ms| >= 3 && ms[0].name == "debian-binary" && ms[0].body == "2.0\n"
    && "control.tar" <= ms[1].name && extract(ms[1].name, ms[1].body) == Some(control)
    && "data.tar" <= ms[2].name
  }

  lemma CurrentVersion()
    ensures Supported("2.0\n")
  {
    assert "2.0\n"[..3] == "2.0";
    assert TrimLeft("2.0\n") == "2.0\n";
    assert TrimRight("2.0") == "2.0";
    assert TrimRight("2.0\n") == TrimRight("2.0");
    assert "2.0"[..2] == "2.";
  }

  /**
   A written package is inspected as the package its control file parses to, without an
   index entry's fields, with its whole size and the digests of all its bytes; if the
   control file does not parse it is refused.
   */
  lemma PackageReads(ms: seq<Piece>, extract: Extractor, control: string)
    requires AllWritable(ms) && PackageOf(ms, extract, control)
    ensures Inspection(ArchiveOf(ms), extract) ==
            match ParsePackage(control)
            case Err(_) => None
            case Ok(p) =>
              Some(PackageInfo(p.(indexFilename := None, size := None, md5 := None, sha1 := None, sha256 := None),
                               |ArchiveOf(ms)|, ArchiveOf(ms)))
  {
    ArchiveReads(ms);
    CurrentVersion();
    var entries := EntriesOf(ms);
    assert Debian(entries, 1, 2);
    assert Packaged(entries, 1, 2, extract, control);
    PackageShape(ArchiveOf(ms), extract, control);
  }
}
