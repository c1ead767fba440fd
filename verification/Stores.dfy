/**
 The object store: a bucket of objects under a configured prefix. Requests may
 fail at any time, before or after they took effect.
 */
module Stores {
  import opened Text
  import opened Paths
  import opened Keys
  import opened Documents

  datatype PutOptions = PutOptions(failIfExists: bool, createOnly: bool)

  datatype StoreError = NotFound | Conflict | Rejected(key: KeyError) | Unavailable

  datatype Write =
    | Put(key: string, doc: Doc, options: PutOptions)
    | Delete(key: string)

  /** Whether an existing different object refuses a put. */
  predicate Refused(objects: map<string, Doc>, key: string, doc: Doc, options: PutOptions)
  {
    key in objects && objects[key] != doc && (options.failIfExists || options.createOnly)
  }

  function PutAt(objects: map<string, Doc>, key: string, doc: Doc, options: PutOptions): map<string, Doc>
  {
    if Refused(objects, key, doc, options) then objects else objects[key := doc]
  }

  /** The key an object is found under, if it names one beneath the prefix. */
  function Named(key: string): Option<string>
  {
    match JoinKey("", key)
    case Ok(c) => if Plain(c) then Some(c) else None
    case Err(_) => None
  }

  /** Effect of one write on the logical objects; a refused or ill-named write has none. */
  function Effect(objects: map<string, Doc>, w: Write): map<string, Doc>
  {
    match Named(w.key)
    case None => objects
    case Some(key) => if w.Put? then PutAt(objects, key, w.doc, w.options) else objects - {key}
  }

  predicate Accepted(objects: map<string, Doc>, w: Write)
  {
    Named(w.key).Some? && (w.Put? ==> !Refused(objects, Named(w.key).value, w.doc, w.options))
  }

  /** Every stored key is its own normal form. */
  ghost predicate PlainKeys(objects: map<string, Doc>)
  {
    forall k :: k in objects ==> Named(k) == Some(k)
  }

  function Run(objects: map<string, Doc>, writes: seq<Write>): map<string, Doc>
    decreases |writes|
  {
    if writes == [] then objects else Run(Effect(objects, writes[0]), writes[1..])
  }

  predicate AllAccepted(objects: map<string, Doc>, writes: seq<Write>)
    decreases |writes|
  {
    writes == [] || (Accepted(objects, writes[0]) && AllAccepted(Effect(objects, writes[0]), writes[1..]))
  }

  /** The first k writes were accepted and took effect, and nothing else did. */
  predicate Reached(before: map<string, Doc>, writes: seq<Write>, k: nat, after: map<string, Doc>)
  {
    k <= |writes| && AllAccepted(before, writes[..k]) && after == Run(before, writes[..k])
  }

  /** Some prefix of the writes took effect: all on success; reliable requests fail only at a refused write. */
  ghost predicate Ran(before: map<string, Doc>, writes: seq<Write>, after: map<string, Doc>, ok: bool, reliable: bool)
  {
    && (ok ==> Reached(before, writes, |writes|, after))
    && (reliable && !ok ==> !AllAccepted(before, writes))
    && exists k :: Reached(before, writes, k, after)
  }

  lemma {:induction false} RunConcat(objects: map<string, Doc>, a: seq<Write>, b: seq<Write>)
    ensures Run(objects, a + b) == Run(Run(objects, a), b)
    ensures AllAccepted(objects, a + b) <==> AllAccepted(objects, a) && AllAccepted(Run(objects, a), b)
    decreases |a|
  {
    if a == [] {
      assert a + b == b;
    } else {
      assert (a + b)[1..] == a[1..] + b;
      RunConcat(Effect(objects, a[0]), a[1..], b);
    }
  }

  lemma RanNothing(objects: map<string, Doc>, reliable: bool)
    ensures Ran(objects, [], objects, true, reliable)
  {
    var none: seq<Write> := [];
    assert none[..0] == none;
    assert Reached(objects, none, 0, objects);
  }

  lemma RanFaulted(objects: map<string, Doc>, writes: seq<Write>)
    ensures Ran(objects, writes, objects, false, false)
  {
    assert writes[..0] == [];
    assert Reached(objects, writes, 0, objects);
  }

  /** A failed start is a failed whole. */
  lemma RanStopped(before: map<string, Doc>, a: seq<Write>, b: seq<Write>, after: map<string, Doc>, reliable: bool)
    requires Ran(before, a, after, false, reliable)
    ensures Ran(before, a + b, after, false, reliable)
  {
    var k: nat :| Reached(before, a, k, after);
    assert (a + b)[..k] == a[..k];
    assert Reached(before, a + b, k, after);
    RunConcat(before, a, b);
  }

  lemma RanThen(before: map<string, Doc>, a: seq<Write>, middle: map<string, Doc>, b: seq<Write>, after: map<string, Doc>,
                ok: bool, reliable: bool)
    requires Ran(before, a, middle, true, reliable) && Ran(middle, b, after, ok, reliable)
    ensures Ran(before, a + b, after, ok, reliable)
  {
    assert a[..|a|] == a;
    var k: nat :| Reached(middle, b, k, after);
    ReachedThen(before, a, middle, b, k, after);
    if ok { ReachedThen(before, a, middle, b, |b|, after); }
    RunConcat(before, a, b);
  }

  /** One more stretch of a longer list of writes. */
  lemma RanStretch(before: map<string, Doc>, done: seq<Write>, middle: map<string, Doc>, next: seq<Write>, after: map<string, Doc>,
                   ok: bool, reliable: bool, whole: seq<Write>)
    requires Ran(before, done, middle, true, reliable) && Ran(middle, next, after, ok, reliable) && done + next <= whole
    ensures Ran(before, done + next, after, ok, reliable)
    ensures !ok ==> Ran(before, whole, after, false, reliable)
  {
    RanThen(before, done, middle, next, after, ok, reliable);
    if !ok {
      RanStopped(before, done + next, whole[|done + next|..], after, reliable);
      assert whole == done + next + whole[|done + next|..];
    }
  }

  lemma ReachedThen(before: map<string, Doc>, a: seq<Write>, middle: map<string, Doc>, b: seq<Write>, k: nat, after: map<string, Doc>)
    requires AllAccepted(before, a) && middle == Run(before, a) && Reached(middle, b, k, after)
    ensures Reached(before, a + b, |a| + k, after)
  {
    RunConcat(before, a, b[..k]);
    assert (a + b)[..|a| + k] == a + b[..k];
  }

  lemma RanOne(before: map<string, Doc>, w: Write, after: map<string, Doc>, ok: bool, reliable: bool)
    requires reliable && !ok ==> !Accepted(before, w)
    requires after == before || (Accepted(before, w) && after == Effect(before, w))
    requires ok ==> Accepted(before, w) && after == Effect(before, w)
    ensures Ran(before, [w], after, ok, reliable)
  {
    assert [w][1..] == [] && [w][..0] == [] && [w][..1] == [w];
    assert Run(before, [w]) == Effect(before, w);
    assert AllAccepted(before, [w]) <==> Accepted(before, w);
    if after == before {
      assert Reached(before, [w], 0, after);
    }
    if Accepted(before, w) && after == Effect(before, w) {
      assert Reached(before, [w], 1, after);
    }
  }

  /** Keys that mean the same with every prefix: beneath it, or refused. */
  predicate Usable(key: string)
  {
    Named(key).Some? || JoinKey("", key).Err?
  }

  /** A relative key is usable unless it cleans to the prefix itself. */
  lemma RelativeUsable(key: string)
    requires key == "" || key == "." || (key[0] != '/' && Clean(key) != ".")
    ensures Usable(key)
  {
    if key != "" && key != "." && !Escaping(Clean(key)) { CleanedShape(key); }
  }

  lemma {:induction false} LastStays(rooted: bool, acc: seq<string>, segs: seq<string>)
    requires segs != [] && Segment(segs[|segs| - 1])
    ensures CleanFold(rooted, acc, segs) != []
    ensures var f := CleanFold(rooted, acc, segs); f[|f| - 1] == segs[|segs| - 1]
    decreases |segs|
  {
    if |segs| == 1 {
      assert segs[1..] == [];
    } else {
      LastStays(rooted, CleanStep(rooted, acc, segs[0]), segs[1..]);
    }
  }

  function Last(key: string): string
  {
    Split(key, '/')[|Split(key, '/')| - 1]
  }

  /** A relative key that ends in an ordinary segment is usable. */
  lemma LastUsable(key: string)
    requires key != "" && key[0] != '/' && Segment(Last(key))
    ensures Usable(key)
  {
    LastStays(false, [], Split(key, '/'));
    LastInJoin(CleanFold(false, [], Split(key, '/')));
    RelativeUsable(key);
  }

  lemma CleanRelative(text: string)
    requires text == "" || text[0] != '/'
    ensures Clean(text) != "" && Clean(text)[0] != '/'
  {
    if text != "" {
      SplitFree(text, '/');
      CleanFoldShape(false, [], Split(text, '/'));
      var folded := CleanFold(false, [], Split(text, '/'));
    }
  }

  lemma CleanLast(text: string)
    requires text != "" && text[0] != '/' && Segment(Last(text))
    ensures Clean(text) != "" && Clean(text)[0] != '/' && Last(Clean(text)) == Last(text)
  {
    CleanRelative(text);
    SplitFree(text, '/');
    LastStays(false, [], Split(text, '/'));
    var folded := CleanFold(false, [], Split(text, '/'));
    CleanFoldShape(false, [], Split(text, '/'));
    LastInJoin(folded);
    assert Clean(text) == Join(folded, "/");
    assert Split(Join(folded, "/"), '/') == folded by {
      assert "/" == ['/'];
      SplitOfJoin(folded, '/');
    }
  }

  lemma {:induction false} NonEmptyEnds(elements: seq<string>)
    requires elements != [] && elements[|elements| - 1] != ""
    ensures NonEmpty(elements) != []
    ensures NonEmpty(elements)[|NonEmpty(elements)| - 1] == elements[|elements| - 1]
    ensures elements[0] != "" ==> NonEmpty(elements)[0] == elements[0]
  {
    if |elements| > 1 { NonEmptyEnds(elements[1..]); }
  }

  lemma {:induction false} LastOfJoined(parts: seq<string>, last: string)
    requires '/' !in last
    ensures Last(Join(parts + [last], "/")) == last
  {
    if parts == [] {
      assert parts + [last] == [last];
      SplitWhole(last, '/');
    } else {
      JoinConcat(parts, [last], "/");
      SplitConcat(Join(parts, "/"), last, '/');
      SplitWhole(last, '/');
      assert Join(parts, "/") + "/" + last == Join(parts, "/") + ['/'] + last;
    }
  }

  /** path.Join of elements that start relative and end in an ordinary segment ends in it. */
  lemma PathJoinLast(elements: seq<string>)
    requires elements != [] && elements[0] != "" && elements[0][0] != '/' && Segment(elements[|elements| - 1])
    ensures PathJoin(elements) != "" && PathJoin(elements)[0] != '/'
    ensures Last(PathJoin(elements)) == elements[|elements| - 1]
    ensures Usable(PathJoin(elements))
  {
    var kept := NonEmpty(elements);
    NonEmptyEnds(elements);
    var front := kept[..|kept| - 1];
    assert kept == front + [elements[|elements| - 1]];
    LastOfJoined(front, elements[|elements| - 1]);
    CleanLast(Join(kept, "/"));
    LastUsable(PathJoin(elements));
  }

  /** A suffix of ordinary characters keeps a key usable. */
  lemma SuffixUsable(key: string, suffix: string)
    requires key != "" && key[0] != '/' && Segment(Last(key))
    requires suffix in {".gz", ".gpg"}
    ensures Usable(key + suffix) && key + suffix != "" && (key + suffix)[0] != '/' && Last(key + suffix) == Last(key) + suffix
  {
    SplitSuffix(key, suffix);
    LastUsable(key + suffix);
  }

  lemma {:induction false} JoinSuffix(front: seq<string>, last: string, suffix: string)
    ensures Join(front + [last], "/") + suffix == Join(front + [last + suffix], "/")
  {
    if front == [] {
      assert front + [last] == [last] && front + [last + suffix] == [last + suffix];
    } else {
      JoinConcat(front, [last], "/");
      JoinConcat(front, [last + suffix], "/");
      assert Join(front, "/") + "/" + last + suffix == Join(front, "/") + "/" + (last + suffix);
    }
  }

  lemma SplitSuffix(key: string, suffix: string)
    requires '/' !in suffix
    ensures Split(key + suffix, '/') == Split(key, '/')[..|Split(key, '/')| - 1] + [Last(key) + suffix]
  {
    var segs := Split(key, '/');
    var front := segs[..|segs| - 1];
    assert segs == front + [Last(key)];
    SplitFree(key, '/');
    JoinOfSplit(key, '/');
    assert "/" == ['/'];
    JoinSuffix(front, Last(key), suffix);
    SplitOfJoin(front + [Last(key) + suffix], '/');
  }

  /** The directory of a relative path is relative. */
  lemma DirRelative(path: string)
    requires path != "" && path[0] != '/'
    ensures Dir(path) != "" && Dir(path)[0] != '/'
  {
    var parts := Split(path, '/');
    var front := parts[..|parts| - 1];
    if front == [] {
      CleanRelative("");
    } else {
      assert parts[0] != "" && parts[0][0] == path[0];
      CleanRelative(Join(front, "/") + "/");
    }
  }

  lemma {:induction false} LastInJoin(segs: seq<string>)
    requires segs != [] && Segment(segs[|segs| - 1])
    ensures Join(segs, "/") != "" && Join(segs, "/") != "."
  {
    if |segs| > 1 {
      LastInJoin(segs[1..]);
      assert |Join(segs, "/")| >= |segs[0]| + 1 + |Join(segs[1..], "/")|;
    }
  }

  // --------------------------------------------------------- the prefixed bucket

  function Physical(prefix: string, logical: string): string
  {
    if prefix == "" then logical else prefix + "/" + logical
  }

  function LogicalKeys(prefix: string, physical: set<string>): set<string>
  {
    set k | k in physical && LogicalKey(prefix, k).Some? :: LogicalKey(prefix, k).value
  }

  /** A physical key and its logical one name each other. */
  lemma PhysicalInverse(prefix: string, logical: string)
    requires CleanPrefix(prefix)
    ensures LogicalKey(prefix, Physical(prefix, logical)) == Some(logical)
    ensures forall k :: LogicalKey(prefix, k) == Some(logical) ==> k == Physical(prefix, logical)
  {
    if prefix == "" {
    } else {
      TrimSlashesPlain(prefix);
      PlainSegments(prefix);
      assert (prefix + "/" + logical)[|prefix| + 1..] == logical;
      forall k | LogicalKey(prefix, k) == Some(logical) ensures k == Physical(prefix, logical) {
        assert k == k[..|prefix| + 1] + k[|prefix| + 1..];
      }
    }
  }

  lemma LogicalKeysExact(prefix: string, physical: set<string>, logical: string)
    requires CleanPrefix(prefix)
    ensures logical in LogicalKeys(prefix, physical) <==> Physical(prefix, logical) in physical
  {
    PhysicalInverse(prefix, logical);
  }

  /** A bucket's objects seen through a prefix. */
  ghost function LogicalView(prefix: string, objects: map<string, Doc>): map<string, Doc>
    requires CleanPrefix(prefix)
  {
    map l | l in LogicalKeys(prefix, objects.Keys) && Physical(prefix, l) in objects :: objects[Physical(prefix, l)]
  }

  lemma ViewAt(prefix: string, objects: map<string, Doc>, logical: string)
    requires CleanPrefix(prefix)
    ensures logical in LogicalView(prefix, objects) <==> Physical(prefix, logical) in objects
    ensures logical in LogicalView(prefix, objects) ==>
              LogicalView(prefix, objects)[logical] == objects[Physical(prefix, logical)]
  {
    LogicalKeysExact(prefix, objects.Keys, logical);
  }

  lemma PhysicalInjective(prefix: string, a: string, b: string)
    requires CleanPrefix(prefix) && Physical(prefix, a) == Physical(prefix, b)
    ensures a == b
  {
    PhysicalInverse(prefix, a);
    PhysicalInverse(prefix, b);
  }

  /** Writing one physical object is writing one logical object. */
  lemma ViewUpdate(prefix: string, objects: map<string, Doc>, logical: string, doc: Doc)
    requires CleanPrefix(prefix)
    ensures LogicalView(prefix, objects[Physical(prefix, logical) := doc]) == LogicalView(prefix, objects)[logical := doc]
    ensures LogicalView(prefix, objects - {Physical(prefix, logical)}) == LogicalView(prefix, objects) - {logical}
  {
    var updated, removed := objects[Physical(prefix, logical) := doc], objects - {Physical(prefix, logical)};
    forall l ensures (l in LogicalView(prefix, updated) <==> l in LogicalView(prefix, objects)[logical := doc]) &&
                     (l in LogicalView(prefix, removed) <==> l in LogicalView(prefix, objects) - {logical}) &&
                     (l in LogicalView(prefix, updated) ==>
                       LogicalView(prefix, updated)[l] == LogicalView(prefix, objects)[logical := doc][l]) &&
                     (l in LogicalView(prefix, removed) ==>
                       LogicalView(prefix, removed)[l] == (LogicalView(prefix, objects) - {logical})[l]) {
      ViewAt(prefix, objects, l);
      ViewAt(prefix, updated, l);
      ViewAt(prefix, removed, l);
      if Physical(prefix, l) == Physical(prefix, logical) { PhysicalInjective(prefix, l, logical); }
    }
  }

  /** An accepted plain key is placed beneath the prefix. */
  lemma NamedPlacement(prefix: string, key: string)
    requires CleanPrefix(prefix) && '\\' !in prefix && Named(key).Some?
    ensures JoinKey(prefix, key) == Ok(Physical(prefix, Named(key).value))
  {
    if prefix != "" {
      PlainKeyNormal(prefix);
      PlainSegments(prefix);
      TrimSlashesPlain(prefix);
      PlainNotEscaping(prefix);
      JoinKeyFactors(prefix, key);
    }
  }

  // ------------------------------------------------------------------- listings

  /** The object a key names, if any. */
  function Found(objects: map<string, Doc>, key: string): Option<Doc>
  {
    match Named(key)
    case Some(k) => if k in objects then Some(objects[k]) else None
    case None => None
  }

  /**
   The physical prefix of a listing. The in-memory store and the S3 store differ for an
   empty argument only, where the latter closes the prefix with a slash.
   */
  function ListPrefix(prefix: string, under: string, closed: bool): Result<string, KeyError>
  {
    if under == "" then
      match NormalizePrefix(prefix)
      case Err(e) => Err(e)
      case Ok(p) => Ok(if closed && p != "" then p + "/" else p)
    else
      match JoinKey(prefix, under)
      case Err(e) => Err(e)
      case Ok(p) => Ok(if HasSuffix(under, "/") then p + "/" else p)
  }

  /** The logical keys of the physical keys with a physical prefix. */
  function ListedBy(prefix: string, physicalPrefix: string, physical: set<string>): set<string>
  {
    LogicalKeys(prefix, (set k | k in physical && HasPrefix(k, physicalPrefix)))
  }

  /** The entries of a set, each once. */
  ghost predicate Lists(keys: seq<string>, entries: set<string>)
  {
    && (forall k :: k in keys <==> k in entries)
    && (forall i, j :: 0 <= i < j < |keys| ==> keys[i] != keys[j])
  }

  lemma ListedMembers(prefix: string, physicalPrefix: string, physical: set<string>, logical: string)
    requires CleanPrefix(prefix)
    ensures logical in ListedBy(prefix, physicalPrefix, physical) <==>
            Physical(prefix, logical) in physical && HasPrefix(Physical(prefix, logical), physicalPrefix)
  {
    LogicalKeysExact(prefix, (set k | k in physical && HasPrefix(k, physicalPrefix)), logical);
  }

  /** One more physical key adds its logical key, which no other one has. */
  lemma ListedMore(prefix: string, physicalPrefix: string, physical: set<string>, key: string)
    requires CleanPrefix(prefix) && key !in physical
    ensures var logical := LogicalKey(prefix, key);
            var before, after := ListedBy(prefix, physicalPrefix, physical), ListedBy(prefix, physicalPrefix, physical + {key});
            if HasPrefix(key, physicalPrefix) && logical.Some?
            then logical.value !in before && after == before + {logical.value}
            else after == before
  {
    var logical := LogicalKey(prefix, key);
    var before, after := ListedBy(prefix, physicalPrefix, physical), ListedBy(prefix, physicalPrefix, physical + {key});
    forall l ensures l in after <==> l in before || (HasPrefix(key, physicalPrefix) && logical == Some(l)) {
      ListedMembers(prefix, physicalPrefix, physical, l);
      ListedMembers(prefix, physicalPrefix, physical + {key}, l);
      PhysicalInverse(prefix, l);
    }
    if logical.Some? {
      ListedMembers(prefix, physicalPrefix, physical, logical.value);
      PhysicalInverse(prefix, logical.value);
    }
  }

  /** Both stores list the same keys for every argument. */
  lemma ListingsAgree(prefix: string, under: string, physical: set<string>)
    requires CleanPrefix(prefix)
    ensures ListPrefix(prefix, under, false).Ok? <==> ListPrefix(prefix, under, true).Ok?
    ensures ListPrefix(prefix, under, false).Ok? ==>
              ListedBy(prefix, ListPrefix(prefix, under, false).value, physical) ==
              ListedBy(prefix, ListPrefix(prefix, under, true).value, physical)
  {
    if under == "" && prefix != "" {
      NormalizedPlain(prefix);
      forall l ensures l in ListedBy(prefix, prefix, physical) <==> l in ListedBy(prefix, prefix + "/", physical) {
        ListedMembers(prefix, prefix, physical, l);
        ListedMembers(prefix, prefix + "/", physical, l);
        assert HasPrefix(Physical(prefix, l), prefix) && HasPrefix(Physical(prefix, l), prefix + "/");
      }
    }
  }

  lemma NormalizedPlain(prefix: string)
    requires Plain(prefix)
    ensures NormalizePrefix(prefix).Ok? ==> NormalizePrefix(prefix) == Ok(prefix)
  {
    TrimSlashesPlain(prefix);
    PlainSegments(prefix);
  }

  /** Listing a plain key's directory yields exactly the objects whose logical key starts with it. */
  lemma ListedExactly(prefix: string, directory: string, physical: set<string>, logical: string)
    requires CleanPrefix(prefix) && '\\' !in prefix && Named(directory) == Some(directory)
    ensures ListPrefix(prefix, directory + "/", false).Ok?
    ensures logical in ListedBy(prefix, ListPrefix(prefix, directory + "/", false).value, physical) <==>
            logical in LogicalKeys(prefix, physical) && HasPrefix(logical, directory + "/")
  {
    DirectoryPrefix(prefix, directory);
    ListedMembers(prefix, Physical(prefix, directory) + "/", physical, logical);
    LogicalKeysExact(prefix, physical, logical);
    PrefixUnder(prefix, directory + "/", logical);
    assert Physical(prefix, directory) + "/" == Physical(prefix, directory + "/");
  }

  lemma PrefixUnder(prefix: string, start: string, logical: string)
    ensures HasPrefix(Physical(prefix, logical), Physical(prefix, start)) <==> HasPrefix(logical, start)
  {
    if prefix != "" {
      var p := prefix + "/";
      if HasPrefix(logical, start) {
        assert p + logical == p + start + logical[|start|..];
      }
      if HasPrefix(p + logical, p + start) {
        assert (p + logical)[|p|..][..|start|] == (p + logical)[|p|..|p| + |start|];
        assert (p + start)[|p|..] == start && (p + logical)[|p|..] == logical;
      }
    }
  }

  lemma DirectoryPrefix(prefix: string, directory: string)
    requires CleanPrefix(prefix) && '\\' !in prefix && Named(directory) == Some(directory)
    ensures ListPrefix(prefix, directory + "/", false) == Ok(Physical(prefix, directory) + "/")
  {
    PlainSegments(directory);
    CleanOfTrailingSlash(Split(directory, '/'));
    var text := directory + "/";
    assert text[0] == directory[0] && text != "" && |text| >= 2;
    assert TrimPrefix(text, "/") == text;
    PlainNotEscaping(directory);
    assert JoinKey("", text) == Ok(directory);
    NamedPlacement(prefix, text);
    assert text[|text| - 1..] == "/";
  }

  // ----------------------------------------------------------------- sorted listings

  /** The order of texts, character by character. */
  predicate Precedes(a: string, b: string)
  {
    b != "" && (a == "" || a[0] < b[0] || (a[0] == b[0] && Precedes(a[1..], b[1..])))
  }

  lemma {:induction false} PrecedesTotal(a: string, b: string)
    ensures a == b || Precedes(a, b) || Precedes(b, a)
  {
    if a != "" && b != "" && a[0] == b[0] {
      PrecedesTotal(a[1..], b[1..]);
      if a[1..] == b[1..] { assert a == [a[0]] + a[1..] && b == [b[0]] + b[1..]; }
    }
  }

  lemma {:induction false} PrecedesThrough(a: string, b: string, c: string)
    requires Precedes(a, b) && Precedes(b, c)
    ensures Precedes(a, c)
  {
    if a != "" && a[0] == b[0] && b[0] == c[0] {
      PrecedesThrough(a[1..], b[1..], c[1..]);
    }
  }

  lemma {:induction false} PrecedesOther(a: string, b: string)
    requires Precedes(a, b)
    ensures a != b
  {
    if a != "" && a[0] == b[0] { PrecedesOther(a[1..], b[1..]); }
  }

  ghost predicate Ascending(keys: seq<string>)
  {
    forall i, j :: 0 <= i < j < |keys| ==> Precedes(keys[i], keys[j])
  }

  lemma AscendingInsert(keys: seq<string>, i: nat, key: string)
    requires Ascending(keys) && i <= |keys|
    requires forall j :: 0 <= j < i ==> Precedes(keys[j], key)
    requires i < |keys| ==> Precedes(key, keys[i])
    ensures Ascending(keys[..i] + [key] + keys[i..])
  {
    forall j | i < j < |keys| ensures Precedes(key, keys[j]) { PrecedesThrough(key, keys[i], keys[j]); }
  }

  lemma AscendingLists(keys: seq<string>, entries: set<string>)
    requires Ascending(keys) && forall k :: k in keys <==> k in entries
    ensures Lists(keys, entries)
  {
    forall i, j | 0 <= i < j < |keys| ensures keys[i] != keys[j] { PrecedesOther(keys[i], keys[j]); }
  }

  /** Adds a new key to sorted ones. */
  method Insert(keys: seq<string>, key: string) returns (sorted: seq<string>)
    requires Ascending(keys) && key !in keys
    ensures Ascending(sorted) && forall k :: k in sorted <==> k in keys || k == key
  {
    var i := 0;
    while i < |keys| && Precedes(keys[i], key)
      invariant i <= |keys| && forall j :: 0 <= j < i ==> Precedes(keys[j], key)
    {
      i := i + 1;
    }
    if i < |keys| { PrecedesTotal(keys[i], key); }
    AscendingInsert(keys, i, key);
    sorted := keys[..i] + [key] + keys[i..];
    assert keys == keys[..i] + keys[i..];
  }

  /**
   A write to the bucket itself, for every key: a key that cannot be joined to the prefix
   is refused; without faults only a refused put fails, and a failed write may have
   taken effect.
   */
  predicate Wrote(prefix: string, before: map<string, Doc>, w: Write, after: map<string, Doc>, ok: bool, reliable: bool)
  {
    match JoinKey(prefix, w.key)
    case Err(_) => !ok && after == before
    case Ok(physical) =>
      var refused := w.Put? && Refused(before, physical, w.doc, w.options);
      var written := if w.Put? then PutAt(before, physical, w.doc, w.options) else before - {physical};
      && (ok ==> !refused && after == written)
      && (!ok ==> (reliable ==> refused) && after in {before, written})
  }

  class Store {
    const prefix: string
    /** Whether requests, and the signer, never fail for reasons of their own. */
    const reliable: bool
    var objects: map<string, Doc>

    ghost predicate Valid()
    {
      CleanPrefix(prefix) && '\\' !in prefix
    }

    ghost function View(): map<string, Doc>
      requires Valid()
      reads this
    {
      LogicalView(prefix, objects)
    }

    method Get(key: string) returns (result: Result<Doc, StoreError>)
      requires Valid()
      ensures Usable(key) && result.Ok? ==> Named(key).Some? && Found(View(), key) == Some(result.value)
      ensures Usable(key) && result == Err(NotFound) ==> Named(key).Some? && Found(View(), key) == None
      ensures Usable(key) && reliable && result.Err? ==> Found(View(), key) == None && (Named(key).Some? ==> result == Err(NotFound))
      ensures var physical := JoinKey(prefix, key);
              && (result.Ok? ==> physical.Ok? && physical.value in objects && result.value == objects[physical.value])
              && (result == Err(NotFound) ==> physical.Ok? && physical.value !in objects)
              && (reliable ==> result.Ok? || result == Err(NotFound) || (physical.Err? && result == Err(Rejected(physical.error))))
    {
      var fault: bool := *;
      if fault && !reliable { return Err(Unavailable); }
      var physical := JoinKey(prefix, key);
      if Named(key).Some? {
        NamedPlacement(prefix, key);
        ViewAt(prefix, objects, Named(key).value);
      } else if JoinKey("", key).Err? {
        RejectedEverywhere(prefix, key);
      }
      if physical.Err? { return Err(Rejected(physical.error)); }
      result := if physical.value in objects then Ok(objects[physical.value]) else Err(NotFound);
    }

    /** Whether an object exists; a failure says nothing. */
    method Head(key: string) returns (result: Result<bool, StoreError>)
      requires Valid()
      ensures Usable(key) && result.Ok? ==> Named(key).Some? && (result.value <==> Found(View(), key).Some?)
      ensures Usable(key) && reliable && Named(key).Some? ==> result.Ok?
    {
      var got := Get(key);
      result := if got.Ok? then Ok(true) else if got.error == NotFound then Ok(false) else Err(got.error);
    }

    /** The logical keys beneath a prefix, each once, in ascending order. */
    method List(under: string) returns (keys: Result<seq<string>, StoreError>)
      requires Valid()
      ensures reliable && keys.Err? ==> ListPrefix(prefix, under, false).Err?
      ensures keys.Ok? ==> ListPrefix(prefix, under, false).Ok? &&
                           Lists(keys.value, ListedBy(prefix, ListPrefix(prefix, under, false).value, objects.Keys)) &&
                           Ascending(keys.value)
    {
      var fault: bool := *;
      if fault && !reliable { return Err(Unavailable); }
      var physicalPrefix := ListPrefix(prefix, under, false);
      if physicalPrefix.Err? { return Err(Rejected(physicalPrefix.error)); }
      var remaining, found := objects.Keys, [];
      while remaining != {}
        invariant remaining <= objects.Keys
        invariant Lists(found, ListedBy(prefix, physicalPrefix.value, objects.Keys - remaining)) && Ascending(found)
        decreases |remaining|
      {
        var physical :| physical in remaining;
        ListedMore(prefix, physicalPrefix.value, objects.Keys - remaining, physical);
        if HasPrefix(physical, physicalPrefix.value) {
          var logical := LogicalKey(prefix, physical);
          if logical.Some? {
            found := Insert(found, logical.value);
            AscendingLists(found, ListedBy(prefix, physicalPrefix.value, objects.Keys - remaining + {physical}));
          }
        }
        assert objects.Keys - (remaining - {physical}) == objects.Keys - remaining + {physical};
        remaining := remaining - {physical};
      }
      assert objects.Keys - {} == objects.Keys;
      keys := Ok(found);
    }

    method Put(key: string, doc: Doc, options: PutOptions) returns (error: Option<StoreError>)
      requires Valid()
      modifies this
      ensures var w := Write.Put(key, doc, options);
              && Wrote(prefix, old(objects), w, objects, error.None?, reliable)
              && (Usable(key) ==> Ran(old(View()), [w], View(), error.None?, reliable))
    {
      ghost var w := Write.Put(key, doc, options);
      ghost var before := View();
      if Named(key).Some? {
        NamedPlacement(prefix, key);
        ViewAt(prefix, objects, Named(key).value);
        ViewUpdate(prefix, objects, Named(key).value, doc);
      }
      error := PutPhysical(key, doc, options);
      if Usable(key) {
        if JoinKey("", key).Err? { RejectedEverywhere(prefix, key); }
        RanOne(before, w, View(), error.None?, reliable);
      }
    }

    /** The put itself: digest comparison, refusal, replacement. */
    method PutPhysical(key: string, doc: Doc, options: PutOptions) returns (error: Option<StoreError>)
      requires Valid()
      modifies this
      ensures Wrote(prefix, old(objects), Write.Put(key, doc, options), objects, error.None?, reliable)
    {
      var early: bool, late: bool := *, *;
      if early && !reliable { return Some(Unavailable); }
      var joined := JoinKey(prefix, key);
      if joined.Err? { return Some(Rejected(joined.error)); }
      var physical := joined.value;
      if physical in objects {
        if objects[physical] == doc {
          assert objects[physical := doc] == objects;
          return None;
        }
        if options.failIfExists || options.createOnly { return Some(Conflict); }
      }
      objects := objects[physical := doc];
      error := if late && !reliable then Some(Unavailable) else None;
    }

    method Remove(key: string) returns (error: Option<StoreError>)
      requires Valid()
      modifies this
      ensures Wrote(prefix, old(objects), Delete(key), objects, error.None?, reliable)
      ensures Usable(key) ==> Ran(old(View()), [Delete(key)], View(), error.None?, reliable)
    {
      ghost var before := View();
      var early: bool, late: bool := *, *;
      var joined := JoinKey(prefix, key);
      if Named(key).Some? {
        NamedPlacement(prefix, key);
        ViewUpdate(prefix, objects, Named(key).value, Bytes(""));
      }
      if (early && !reliable) || joined.Err? {
        if JoinKey("", key).Err? { RejectedEverywhere(prefix, key); }
        RanOne(before, Delete(key), before, false, reliable);
        return Some(Unavailable);
      }
      objects := objects - {joined.value};
      error := if late && !reliable then Some(Unavailable) else None;
      if Named(key).Some? {
        RanOne(before, Delete(key), View(), error.None?, reliable);
      } else if JoinKey("", key).Err? {
        RejectedEverywhere(prefix, key);
      }
    }
  }

  /** A key refused without a prefix is refused with one. */
  lemma RejectedEverywhere(prefix: string, key: string)
    requires JoinKey("", key).Err?
    ensures JoinKey(prefix, key).Err?
  {
  }
}
