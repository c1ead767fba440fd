/**
 The key algebra of the object store: how a configured prefix and a logical
 repository key become a physical bucket key, and how a physical key is read back.
 */
module Keys {
  import opened Text
  import opened Paths

  datatype KeyError = EmptyKey | HoldsBackslash | EscapesPrefix

  function TrimSlashesLeft(s: string): string
  {
    if s != "" && s[0] == '/' then TrimSlashesLeft(s[1..]) else s
  }

  function TrimSlashesRight(s: string): string
  {
    if s != "" && s[|s| - 1] == '/' then TrimSlashesRight(s[..|s| - 1]) else s
  }

  /** strings.Trim(s, "/"). */
  function TrimSlashes(s: string): string
  {
    TrimSlashesRight(TrimSlashesLeft(s))
  }

  predicate Escaping(cleaned: string)
  {
    cleaned == ".." || HasPrefix(cleaned, "../")
  }

  function NormalizePrefix(prefix: string): Result<string, KeyError>
  {
    var trimmed := TrimSlashes(prefix);
    if trimmed == "" then Ok("")
    else if '\\' in trimmed then Err(HoldsBackslash)
    else
      var cleaned := Clean(trimmed);
      if Escaping(cleaned) then Err(EscapesPrefix) else Ok(cleaned)
  }

  function JoinKey(prefix: string, key: string): Result<string, KeyError>
  {
    match NormalizePrefix(prefix)
    case Err(e) => Err(e)
    case Ok(normalized) =>
      var logical := TrimPrefix(key, "/");
      if logical == "" || logical == "." then Err(EmptyKey)
      else if '\\' in logical then Err(HoldsBackslash)
      else
        var cleaned := Clean(logical);
        if Escaping(cleaned) then Err(EscapesPrefix)
        else if normalized == "" then Ok(cleaned)
        else Ok(PathJoin([normalized, cleaned]))
  }

  function LogicalKey(prefix: string, physical: string): Option<string>
  {
    var trimmed := TrimSlashes(prefix);
    if trimmed == "" then Some(physical)
    else if HasPrefix(physical, trimmed + "/") then Some(physical[|trimmed| + 1..])
    else None
  }

  /** A relative path of clean segments: "." and anything with a leading slash are not plain. */
  predicate Plain(key: string)
  {
    forall segment <- Split(key, '/') :: Segment(segment)
  }

  /** A prefix as NormalizePrefix leaves it, other than the degenerate ".". */
  predicate CleanPrefix(prefix: string)
  {
    prefix == "" || Plain(prefix)
  }

  lemma PlainSegments(key: string)
    requires Plain(key)
    ensures Segments(Split(key, '/'))
    ensures key == Join(Split(key, '/'), "/")
    ensures key != "" && key[0] != '/' && key != "."
    ensures Clean(key) == key
  {
    var segs := Split(key, '/');
    forall i | 0 <= i < |segs| ensures Segment(segs[i]) { assert segs[i] in segs; }
    JoinOfSplit(key, '/');
    assert "/" == ['/'];
    CleanOfSegments(segs);
    SplitWhole(".", '/');
  }

  lemma JoinedSegmentsPlain(segs: seq<string>)
    requires segs != [] && Segments(segs)
    ensures Plain(Join(segs, "/"))
  {
    SplitSegments(segs);
  }

  lemma TrimSlashesPlain(key: string)
    requires Plain(key)
    ensures TrimSlashes(key) == key
  {
    PlainSegments(key);
    var segs := Split(key, '/');
    LastOfJoin(segs);
  }

  lemma {:induction false} LastOfJoin(segs: seq<string>)
    requires segs != [] && Segments(segs)
    ensures Join(segs, "/") != "" && Join(segs, "/")[|Join(segs, "/")| - 1] != '/'
  {
    if |segs| > 1 { LastOfJoin(segs[1..]); }
  }

  /** The three things an accepted cleaned key can be. */
  lemma CleanedShape(text: string)
    requires text != "" && !Escaping(Clean(text))
    ensures var c := Clean(text); c == "." || c[0] == '/' || Plain(c)
    ensures Clean(text)[0] == '/' ==> text[0] == '/'
    ensures Clean(text)[0] == '/' ==> Clean(text) == "/" || Plain(Clean(text)[1..])
  {
    var rooted := text[0] == '/';
    var segs := CleanFold(rooted, [], Split(text, '/'));
    SplitFree(text, '/');
    CleanFoldShape(rooted, [], Split(text, '/'));
    if segs != [] {
      ShapeWithoutParents(rooted, segs);
      JoinedSegmentsPlain(segs);
      CleanOfSegments(segs);
      assert rooted ==> Clean(text)[1..] == Join(segs, "/");
    }
  }

  lemma EscapingNotPlain(key: string)
    requires Escaping(key)
    ensures !Plain(key) && Split(key, '/')[0] == ".."
  {
    var first := Split(key, '/')[0];
    if key == ".." {
      SplitWhole(key, '/');
    } else {
      SplitAtSeparator("..", key[3..], '/');
      assert key == ".." + ['/'] + key[3..];
    }
    assert first == ".." && first in Split(key, '/');
  }

  /** Every normalised prefix is empty, "." or plain. */
  lemma {:induction false} NormalizedPrefixShape(prefix: string)
    requires NormalizePrefix(prefix).Ok?
    ensures var p := NormalizePrefix(prefix).value; p == "." || CleanPrefix(p)
  {
    var trimmed := TrimSlashes(prefix);
    if trimmed != "" {
      TrimmedFront(prefix);
      CleanedShape(trimmed);
    }
  }

  lemma TrimmedFront(s: string)
    ensures TrimSlashes(s) == "" || TrimSlashes(s)[0] != '/'
  {
    LeftFront(s);
    RightKeepsFront(TrimSlashesLeft(s));
  }

  lemma LeftFront(s: string)
    ensures TrimSlashesLeft(s) == "" || TrimSlashesLeft(s)[0] != '/'
  {
  }

  lemma RightKeepsFront(s: string)
    ensures TrimSlashesRight(s) <= s
  {
  }

  lemma NormalizedPrefixFixed(prefix: string)
    requires NormalizePrefix(prefix).Ok? && NormalizePrefix(prefix).value != "."
    ensures NormalizePrefix(NormalizePrefix(prefix).value) == NormalizePrefix(prefix)
    ensures TrimSlashes(NormalizePrefix(prefix).value) == NormalizePrefix(prefix).value
  {
    var p := NormalizePrefix(prefix).value;
    NormalizedPrefixShape(prefix);
    if p != "" {
      PlainSegments(p);
      TrimSlashesPlain(p);
      NoBackslash(TrimSlashes(prefix));
      if Escaping(p) { PlainNotEscaping(p); }
    }
  }

  lemma PlainNotEscaping(key: string)
    requires Plain(key)
    ensures !Escaping(key)
  {
    if Escaping(key) { EscapingNotPlain(key); }
  }

  /** Cleaning invents no characters. */
  lemma {:induction false} CleanFoldChars(rooted: bool, acc: seq<string>, segs: seq<string>, c: char)
    requires Free(acc, c) && Free(segs, c) && c != '.'
    ensures Free(CleanFold(rooted, acc, segs), c)
    decreases |segs|
  {
    if segs != [] { CleanFoldChars(rooted, CleanStep(rooted, acc, segs[0]), segs[1..], c); }
  }

  lemma NoBackslash(s: string)
    requires '\\' !in s
    ensures '\\' !in Clean(s)
  {
    if s != "" {
      SplitChars(s, '/', '\\');
      CleanFoldChars(s[0] == '/', [], Split(s, '/'), '\\');
      JoinFree(CleanFold(s[0] == '/', [], Split(s, '/')), "/", '\\');
    }
  }

  /** Cleaning the concatenation of a clean prefix and a cleaned key. */
  lemma JoinUnderPrefix(prefix: string, c: string)
    requires Plain(prefix)
    requires c != ""
    requires c == "." || c == "/" || Plain(c) || (c[0] == '/' && Plain(c[1..]))
    ensures PathJoin([prefix, c]) ==
            if c == "." || c == "/" then prefix
            else if c[0] == '/' then prefix + c
            else prefix + "/" + c
  {
    PathJoinPair(prefix, c);
    PlainSegments(prefix);
    var ps := Split(prefix, '/');
    if c == "." {
      SplitWhole(c, '/');
      DotSegmentIgnored(ps);
    } else if c[0] == '/' {
      RootedFold(ps, c[1..]);
      RootedText(prefix, c);
    } else {
      PlainFold(ps, c);
    }
  }

  lemma RootedText(prefix: string, c: string)
    requires c != "" && c[0] == '/'
    ensures c == "/" + c[1..] && prefix + c == prefix + "/" + c[1..]
  {
  }

  lemma PathJoinPair(prefix: string, c: string)
    requires Plain(prefix) && c != ""
    ensures var folded := Join(CleanFold(false, Split(prefix, '/'), Split(c, '/')), "/");
            PathJoin([prefix, c]) == if folded == "" then "." else folded
  {
    PlainSegments(prefix);
    NonEmptySegments([prefix, c]);
    assert Join([prefix, c], "/") == prefix + "/" + c;
    CleanUnderPrefix(prefix, c);
  }

  /** Cleaning a joined pair continues the prefix's segments with the key's. */
  lemma CleanUnderPrefix(prefix: string, c: string)
    requires Plain(prefix)
    ensures var folded := CleanFold(false, Split(prefix, '/'), Split(c, '/'));
            Clean(prefix + "/" + c) == if Join(folded, "/") == "" then "." else Join(folded, "/")
  {
    var ps, cs := Split(prefix, '/'), Split(c, '/');
    PlainSegments(prefix);
    assert prefix + "/" + c == prefix + ['/'] + c;
    SplitConcat(prefix, c, '/');
    CleanFoldConcat(false, [], ps, cs);
    CleanFoldSegments(false, [], ps);
    assert [] + ps == ps;
  }

  lemma DotSegmentIgnored(acc: seq<string>)
    ensures CleanFold(false, acc, ["."]) == acc
  {
    assert ["."][1..] == [];
  }

  lemma PlainFold(ps: seq<string>, c: string)
    requires ps != [] && Segments(ps) && Plain(c)
    ensures Join(CleanFold(false, ps, Split(c, '/')), "/") == Join(ps, "/") + "/" + c
  {
    PlainSegments(c);
    CleanFoldSegments(false, ps, Split(c, '/'));
    JoinConcat(ps, Split(c, '/'), "/");
  }

  lemma RootedFold(ps: seq<string>, tail: string)
    requires ps != [] && Segments(ps) && (tail == "" || Plain(tail))
    ensures Join(CleanFold(false, ps, Split("/" + tail, '/')), "/") ==
            if tail == "" then Join(ps, "/") else Join(ps, "/") + "/" + tail
  {
    var cs := Split("/" + tail, '/');
    SplitAtSeparator("", tail, '/');
    assert "/" + tail == "" + ['/'] + tail;
    assert cs[0] == "" && cs[1..] == Split(tail, '/');
    assert CleanFold(false, ps, cs) == CleanFold(false, ps, Split(tail, '/'));
    if tail == "" {
      EmptySegmentIgnored(false, ps);
    } else {
      PlainFold(ps, tail);
    }
  }

  /**
   A prefixed key is the prefix, a slash and the unprefixed key exactly when the
   cleaned key is neither "." nor starts with a slash.
   */
  lemma JoinKeyFactors(prefix: string, key: string)
    requires NormalizePrefix(prefix).Ok? && NormalizePrefix(prefix).value !in {"", "."}
    requires JoinKey("", key).Ok?
    ensures JoinKey(prefix, key).Ok?
    ensures var p, c := NormalizePrefix(prefix).value, JoinKey("", key).value;
            JoinKey(prefix, key) == Ok(p + "/" + c) <==> Plain(c)
    ensures var c := JoinKey("", key).value; Plain(c) <==> c != "." && c[0] != '/'
  {
    var p, c := NormalizePrefix(prefix).value, JoinKey("", key).value;
    NormalizedPrefixShape(prefix);
    CleanedShape(TrimPrefix(key, "/"));
    JoinUnderPrefix(p, c);
    if Plain(c) { PlainSegments(c); }
  }

  /** LogicalKey undoes JoinKey on exactly the same keys. */
  lemma LogicalKeyUndoesJoin(prefix: string, key: string)
    requires NormalizePrefix(prefix).Ok? && NormalizePrefix(prefix).value !in {"", "."}
    requires JoinKey("", key).Ok?
    ensures var p, c := NormalizePrefix(prefix).value, JoinKey("", key).value;
            JoinKey(prefix, key).Ok? &&
            (LogicalKey(p, JoinKey(prefix, key).value) == Some(c) <==> c != "." && c[0] != '/')
  {
    var p, c := NormalizePrefix(prefix).value, JoinKey("", key).value;
    JoinKeyFactors(prefix, key);
    NormalizedPrefixShape(prefix);
    NormalizedPrefixFixed(prefix);
    CleanedShape(TrimPrefix(key, "/"));
    JoinUnderPrefix(p, c);
    if Plain(c) {
      assert (p + "/" + c)[|p| + 1..] == c;
    } else if c != "." && c != "/" {
      assert (p + c)[|p| + 1..] == c[1..];
    }
  }

  /** Normalising a key twice is normalising it once, again exactly for plain results. */
  lemma JoinKeyIdempotent(key: string)
    requires JoinKey("", key).Ok?
    ensures var c := JoinKey("", key).value; JoinKey("", c) == Ok(c) <==> Plain(c)
  {
    var c := JoinKey("", key).value;
    CleanedShape(TrimPrefix(key, "/"));
    NoBackslash(TrimPrefix(key, "/"));
    if Plain(c) {
      PlainSegments(c);
      PlainNotEscaping(c);
    } else if c[0] == '/' && c != "/" {
      PlainSegments(c[1..]);
    }
  }

  /** Plain keys without a backslash are their own normal form. */
  lemma PlainKeyNormal(key: string)
    requires Plain(key) && '\\' !in key
    ensures JoinKey("", key) == Ok(key)
  {
    PlainSegments(key);
    PlainNotEscaping(key);
  }

  /** A key with two leading slashes names one object with a prefix and another without. */
  lemma DoubleSlashKeyDisagrees(prefix: string, tail: string)
    requires Plain(prefix) && Plain(tail)
    requires '\\' !in prefix && '\\' !in tail
    ensures JoinKey("", "//" + tail) == Ok("/" + tail)
    ensures JoinKey(prefix, "//" + tail) == Ok(prefix + "/" + tail)
    ensures LogicalKey(prefix, prefix + "/" + tail) == Some(tail)
  {
    var rooted := "/" + tail;
    assert TrimPrefix("//" + tail, "/") == rooted;
    PlainSegments(tail);
    RootedClean(tail);
    PlainSegments(prefix);
    TrimSlashesPlain(prefix);
    PlainNotEscaping(prefix);
    assert rooted[1..] == tail;
    JoinUnderPrefix(prefix, rooted);
    assert prefix + rooted == prefix + "/" + tail;
    assert (prefix + "/" + tail)[|prefix| + 1..] == tail;
  }

  lemma RootedClean(tail: string)
    requires Plain(tail)
    ensures Clean("/" + tail) == "/" + tail
  {
    var rooted := "/" + tail;
    PlainSegments(tail);
    SplitAtSeparator("", tail, '/');
    assert rooted == "" + ['/'] + tail;
    assert Split(rooted, '/')[1..] == Split(tail, '/');
    assert CleanFold(true, [], Split(rooted, '/')) == CleanFold(true, [], Split(tail, '/'));
    CleanFoldSegments(true, [], Split(tail, '/'));
    assert [] + Split(tail, '/') == Split(tail, '/');
  }
}
