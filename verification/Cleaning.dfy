/**
 Removing pool objects that no index of any codename mentions: mark over every
 stored index, then sweep one codename's pool.
 */
module Cleaning {
  import opened Text
  import opened Paths
  import opened Keys
  import opened Packages
  import opened Documents
  import opened IndexText
  import opened Stores

  /** Whether a key beneath "dists/" is taken for a Packages index. */
  predicate IndexKey(key: string)
  {
    HasPrefix(key, "dists/") && Base(key) == "Packages" && HasPrefix(Base(Dir(key)), "binary-")
  }

  /** The pool directory of a codename; an unsafe codename has none. */
  function Scope(codename: string): Option<string>
  {
    var cleaned := Paths.Clean(codename);
    if cleaned == "." || HasPrefix(cleaned, "/") || Escaping(cleaned) then None else Some(PathJoin(["pool", cleaned]))
  }

  /** The pool key an index entry refers to, normalised. */
  function ReferencedKey(p: Package): Option<string>
  {
    match RepositoryFilename(p, "")
    case Err(_) => None
    case Ok(filename) => match JoinKey("", filename) case Err(_) => None case Ok(key) => Some(key)
  }

  /** Whether some of these entries refers to a key. */
  ghost predicate Mentions(packages: seq<Package>, key: string)
  {
    exists p :: p in packages && ReferencedKey(p) == Some(key)
  }

  /** Whether a document is an index with an entry that refers to a key. */
  ghost predicate RefersTo(doc: Doc, key: string)
  {
    Entries(doc).Some? && Mentions(Entries(doc).value, key)
  }

  /** Whether some stored index refers to a key. */
  ghost predicate Referenced(objects: map<string, Doc>, key: string)
  {
    exists k :: k in objects && IndexKey(k) && RefersTo(objects[k], key)
  }

  ghost predicate ReadableDoc(doc: Doc)
  {
    Entries(doc).Some? && Resolved(Entries(doc).value)
  }

  /** Every index can be read and every entry resolved. */
  ghost predicate Readable(objects: map<string, Doc>)
  {
    forall k :: k in objects && IndexKey(k) ==> ReadableDoc(objects[k])
  }

  ghost function Unreferenced(objects: map<string, Doc>, directory: string): set<string>
  {
    set k | k in objects && HasPrefix(k, directory + "/") && !Referenced(objects, k)
  }

  function Deletes(keys: seq<string>): (writes: seq<Write>)
    ensures |writes| == |keys|
  {
    if keys == [] then [] else Deletes(keys[..|keys| - 1]) + [Delete(keys[|keys| - 1])]
  }

  /** How a cleaning ends: before it deletes anything, at a deletion that fails, or with all of them done. */
  datatype CleanOutcome = Refused | Interrupted | Finished

  /**
   What cleaning does. It deletes nothing if the codename is unsafe or if an index or a
   listing cannot be read; else it deletes the unreferenced keys in ascending order.
   */
  ghost predicate Cleaned(before: map<string, Doc>, codename: string, after: map<string, Doc>, outcome: CleanOutcome,
                          deleted: seq<string>, reliable: bool)
  {
    var usable := Scope(codename).Some? && '\\' !in Scope(codename).value && Readable(before);
    if outcome.Refused? then after == before && deleted == [] && (reliable ==> !usable)
    else usable && exists victims: seq<string> :: Swept(before, Scope(codename).value, victims, after, outcome.Finished?, deleted, reliable)
  }

  ghost predicate Swept(before: map<string, Doc>, directory: string, victims: seq<string>, after: map<string, Doc>, ok: bool,
                        deleted: seq<string>, reliable: bool)
  {
    Lists(victims, Unreferenced(before, directory)) && Ascending(victims) && SweptPart(before, victims, after, ok, deleted, reliable)
  }

  /** The deleted keys are gone, all of them on success; the one at which a sweep failed may be gone too. */
  ghost predicate SweptPart(before: map<string, Doc>, victims: seq<string>, after: map<string, Doc>, ok: bool,
                            deleted: seq<string>, reliable: bool)
  {
    && Ran(before, Deletes(victims), after, ok, reliable)
    && deleted <= victims && (ok <==> deleted == victims)
    && (!ok ==> after in {Run(before, Deletes(deleted)), Run(before, Deletes(victims[..|deleted| + 1]))})
  }

  /** Index keys are their own normal form, and no pool key means different objects with and without a prefix. */
  ghost predicate Tidy(objects: map<string, Doc>)
  {
    forall k :: k in objects ==> Usable(k) && (IndexKey(k) ==> Named(k) == Some(k))
  }

  lemma ScopePlain(codename: string)
    requires Scope(codename).Some?
    ensures var directory := Scope(codename).value;
            && HasPrefix(directory, "pool/")
            && ('\\' !in directory ==> Named(directory) == Some(directory))
  {
    var cleaned := Paths.Clean(codename);
    if codename != "" {
      CleanedShape(codename);
      PlainSegments(cleaned);
      SplitWhole("pool", '/');
      JoinUnderPrefix("pool", cleaned);
      var directory := "pool" + "/" + cleaned;
      assert directory == "pool" + ['/'] + cleaned;
      SplitConcat("pool", cleaned, '/');
      if '\\' !in directory { PlainKeyNormal(directory); }
    }
  }

  // ------------------------------------------------------------------------ marking

  function Collector(): (set<string>, Package) -> Option<set<string>>
  {
    (names: set<string>, p: Package) =>
      match ReferencedKey(p) case None => None case Some(key) => Some(names + {key})
  }

  function Marker(objects: map<string, Doc>): (set<string>, string) -> Option<set<string>>
  {
    (names: set<string>, key: string) =>
      match Found(objects, key)
      case None => None
      case Some(doc) =>
        match Entries(doc)
        case None => None
        case Some(packages) => Steps(names, packages, Collector())
  }

  ghost predicate Resolved(packages: seq<Package>)
  {
    forall p :: p in packages ==> ReferencedKey(p).Some?
  }

  lemma MentionsMore(front: seq<Package>, last: Package, key: string)
    ensures Resolved(front + [last]) <==> Resolved(front) && ReferencedKey(last).Some?
    ensures Mentions(front + [last], key) <==> Mentions(front, key) || ReferencedKey(last) == Some(key)
  {
    assert forall p :: p in front + [last] <==> p in front || p == last;
  }

  lemma {:induction false} CollectedNames(names: set<string>, packages: seq<Package>, key: string)
    ensures Steps(names, packages, Collector()).Some? <==> Resolved(packages)
    ensures Steps(names, packages, Collector()).Some? ==>
              (key in Steps(names, packages, Collector()).value <==> key in names || Mentions(packages, key))
    decreases |packages|
  {
    if packages != [] {
      var front, last := packages[..|packages| - 1], packages[|packages| - 1];
      CollectedNames(names, front, key);
      MentionsMore(front, last, key);
      assert packages == front + [last];
    }
  }

  lemma MarkOne(objects: map<string, Doc>, names: set<string>, k: string, key: string)
    requires k in objects && Named(k) == Some(k)
    ensures Marker(objects)(names, k).Some? <==> ReadableDoc(objects[k])
    ensures Marker(objects)(names, k).Some? ==>
              (key in Marker(objects)(names, k).value <==> key in names || RefersTo(objects[k], key))
  {
    if Entries(objects[k]).Some? { CollectedNames(names, Entries(objects[k]).value, key); }
  }

  /** Whether the listed indices refer to a key. */
  ghost predicate MarkedBy(objects: map<string, Doc>, keys: seq<string>, key: string)
  {
    exists k :: k in keys && k in objects && RefersTo(objects[k], key)
  }

  ghost predicate AllReadable(objects: map<string, Doc>, keys: seq<string>)
  {
    forall k :: k in keys ==> k in objects && ReadableDoc(objects[k])
  }

  lemma {:induction false} MarkedNames(objects: map<string, Doc>, keys: seq<string>, key: string)
    requires forall i :: 0 <= i < |keys| ==> keys[i] in objects && Named(keys[i]) == Some(keys[i])
    ensures Steps({}, keys, Marker(objects)).Some? <==> AllReadable(objects, keys)
    ensures Steps({}, keys, Marker(objects)).Some? ==>
              (key in Steps({}, keys, Marker(objects)).value <==> MarkedBy(objects, keys, key))
  {
    if keys != [] {
      var front, last := keys[..|keys| - 1], keys[|keys| - 1];
      MarkedNames(objects, front, key);
      assert keys == front + [last];
      if Steps({}, front, Marker(objects)).Some? {
        MarkOne(objects, Steps({}, front, Marker(objects)).value, last, key);
      }
    }
  }

  // ---------------------------------------------------------------------- the command

  ghost function Under(objects: map<string, Doc>, directory: string): set<string>
  {
    set k | k in objects && HasPrefix(k, directory + "/")
  }

  /** The logical keys in a directory of the repository. */
  method ListUnder(store: Store, directory: string) returns (keys: Option<seq<string>>)
    requires store.Valid() && Named(directory) == Some(directory)
    ensures store.reliable ==> keys.Some?
    ensures keys.Some? ==> Lists(keys.value, Under(store.View(), directory)) && Ascending(keys.value)
  {
    ghost var stored := store.objects.Keys;
    ListedExactly(store.prefix, directory, stored, directory);
    forall l ensures l in ListedBy(store.prefix, ListPrefix(store.prefix, directory + "/", false).value, stored) <==>
                     l in Under(store.View(), directory) {
      ListedExactly(store.prefix, directory, stored, l);
      LogicalKeysExact(store.prefix, stored, l);
      ViewAt(store.prefix, store.objects, l);
    }
    var listed := store.List(directory + "/");
    keys := if listed.Ok? then Some(listed.value) else None;
  }

  /** The index keys among listed ones. */
  method SelectIndices(listed: seq<string>) returns (keys: seq<string>)
    requires forall k <- listed :: HasPrefix(k, "dists/")
    ensures forall k :: k in keys <==> k in listed && IndexKey(k)
  {
    keys := [];
    for i := 0 to |listed|
      invariant forall k :: k in keys <==> k in listed[..i] && IndexKey(k)
    {
      assert listed[..i + 1] == listed[..i] + [listed[i]];
      if Base(listed[i]) != "Packages" || !HasPrefix(Base(Dir(listed[i])), "binary-") { continue; }
      keys := keys + [listed[i]];
    }
    assert listed[..|listed|] == listed;
  }

  method CollectNames(names: set<string>, packages: seq<Package>) returns (all: Option<set<string>>)
    ensures all == Steps(names, packages, Collector())
  {
    var current := names;
    for i := 0 to |packages|
      invariant Steps(names, packages[..i], Collector()) == Some(current)
    {
      StepsNext(names, packages, Collector(), i);
      var key := ReferencedKey(packages[i]);
      if key.None? { return None; }
      current := current + {key.value};
    }
    assert packages[..|packages|] == packages;
    all := Some(current);
  }

  ghost predicate AllNamed(keys: seq<string>)
  {
    forall i :: 0 <= i < |keys| ==> Named(keys[i]) == Some(keys[i])
  }

  /** The keys all listed indices refer to; the first failing read or entry ends it. */
  method MarkAll(store: Store, keys: seq<string>) returns (names: Option<set<string>>)
    requires store.Valid()
    ensures (names.Some? || store.reliable) && AllNamed(keys) ==> names == Steps({}, keys, Marker(store.View()))
  {
    var current := {};
    ghost var named := AllNamed(keys);
    for i := 0 to |keys|
      invariant named ==> Steps({}, keys[..i], Marker(store.View())) == Some(current)
    {
      if named { StepsNext({}, keys, Marker(store.View()), i); }
      var doc := store.Get(keys[i]);
      if doc.Err? { return None; }
      var packages := ReadEntries(doc.value);
      if packages.None? { return None; }
      var next := CollectNames(current, packages.value);
      if next.None? { return None; }
      current := next.value;
    }
    assert keys[..|keys|] == keys;
    names := Some(current);
  }

  /** Every key some stored index refers to. */
  method ReferencedNames(store: Store) returns (names: Option<set<string>>)
    requires store.Valid()
    ensures Tidy(store.View()) ==>
      && (names.None? && store.reliable ==> !Readable(store.View()))
      && (names.Some? ==> Readable(store.View()) && forall key :: key in names.value <==> Referenced(store.View(), key))
  {
    DistsPlain();
    var listed := ListUnder(store, "dists");
    if listed.None? { return None; }
    var keys := SelectIndices(listed.value);
    ghost var objects := store.View();
    assert forall k :: k in keys <==> k in objects && IndexKey(k);
    names := MarkAll(store, keys);
    if Tidy(objects) { MarkedExactly(objects, keys); }
  }

  lemma MarkedExactly(objects: map<string, Doc>, keys: seq<string>)
    requires Tidy(objects) && forall k :: k in keys <==> k in objects && IndexKey(k)
    ensures AllNamed(keys)
    ensures var names := Steps({}, keys, Marker(objects));
            && (names.Some? <==> Readable(objects))
            && (names.Some? ==> forall key :: key in names.value <==> Referenced(objects, key))
  {
    forall i | 0 <= i < |keys| ensures keys[i] in objects && Named(keys[i]) == Some(keys[i]) { assert keys[i] in keys; }
    forall key ensures Steps({}, keys, Marker(objects)).Some? ==>
                         (key in Steps({}, keys, Marker(objects)).value <==> Referenced(objects, key)) {
      MarkedNames(objects, keys, key);
    }
    MarkedNames(objects, keys, "");
  }

  lemma DistsPlain()
    ensures Named("dists") == Some("dists")
  {
    SplitWhole("dists", '/');
    PlainKeyNormal("dists");
  }

  lemma DeletesNext(keys: seq<string>, i: nat)
    requires i < |keys|
    ensures Deletes(keys[..i + 1]) == Deletes(keys[..i]) + [Delete(keys[i])]
  {
    assert keys[..i + 1][..i] == keys[..i];
  }

  lemma {:induction false} DeletesPrefix(keys: seq<string>, k: nat)
    requires k <= |keys|
    ensures Deletes(keys[..k]) <= Deletes(keys)
    decreases |keys| - k
  {
    if k < |keys| {
      DeletesNext(keys, k);
      DeletesPrefix(keys, k + 1);
    } else {
      assert keys[..k] == keys;
    }
  }

  /** Listed keys without those referred to, in listing order. */
  function Victims(listed: seq<string>, referenced: set<string>): seq<string>
  {
    if listed == [] then []
    else
      var last := listed[|listed| - 1];
      Victims(listed[..|listed| - 1], referenced) + (if last in referenced then [] else [last])
  }

  lemma VictimsNext(listed: seq<string>, referenced: set<string>, i: nat)
    requires i < |listed|
    ensures Victims(listed[..i + 1], referenced) ==
            Victims(listed[..i], referenced) + (if listed[i] in referenced then [] else [listed[i]])
  {
    assert listed[..i + 1][..i] == listed[..i];
  }

  lemma {:induction false} VictimsPrefix(listed: seq<string>, referenced: set<string>, k: nat)
    requires k <= |listed|
    ensures Victims(listed[..k], referenced) <= Victims(listed, referenced)
    decreases |listed| - k
  {
    if k < |listed| {
      VictimsNext(listed, referenced, k);
      VictimsPrefix(listed, referenced, k + 1);
    } else {
      assert listed[..k] == listed;
    }
  }

  lemma {:induction false} VictimsList(listed: seq<string>, referenced: set<string>, entries: set<string>)
    requires Lists(listed, entries)
    ensures Lists(Victims(listed, referenced), entries - referenced)
    decreases |listed|
  {
    if listed != [] {
      var front, last := listed[..|listed| - 1], listed[|listed| - 1];
      assert listed == front + [last];
      assert last !in front;
      assert Lists(front, entries - {last});
      VictimsList(front, referenced, entries - {last});
      var rest := Victims(front, referenced);
      assert last !in rest && entries - referenced == (entries - {last} - referenced) + ({last} - referenced);
      if last in referenced { assert rest + [] == rest; } else { ListsMore(rest, entries - {last} - referenced, last); }
    }
  }

  lemma ListsMore(keys: seq<string>, entries: set<string>, key: string)
    requires Lists(keys, entries) && key !in entries
    ensures Lists(keys + [key], entries + {key})
  {
    forall i | 0 <= i < |keys| ensures keys[i] != key { assert keys[i] in keys; }
  }

  lemma {:induction false} VictimsAscending(listed: seq<string>, referenced: set<string>)
    requires Ascending(listed)
    ensures Ascending(Victims(listed, referenced))
    ensures forall k :: k in Victims(listed, referenced) ==> k in listed
  {
    if listed != [] {
      var front, last := listed[..|listed| - 1], listed[|listed| - 1];
      VictimsAscending(front, referenced);
      var rest := Victims(front, referenced);
      forall i | 0 <= i < |rest| ensures Precedes(rest[i], last) {
        assert rest[i] in front;
        var j :| 0 <= j < |front| && front[j] == rest[i];
        assert listed[j] == front[j];
      }
    }
  }

  /** Deletes the listed keys that nothing refers to, until one deletion fails. */
  method Sweep(store: Store, listed: seq<string>, referenced: set<string>) returns (ok: bool, deleted: seq<string>)
    requires store.Valid()
    modifies store
    ensures (forall i :: 0 <= i < |listed| ==> Usable(listed[i])) ==>
              SweptPart(old(store.View()), Victims(listed, referenced), store.View(), ok, deleted, store.reliable)
  {
    ghost var before := store.View();
    ghost var usable := forall i :: 0 <= i < |listed| ==> Usable(listed[i]);
    deleted := [];
    RanNothing(before, store.reliable);
    for i := 0 to |listed|
      invariant deleted == Victims(listed[..i], referenced)
      invariant usable ==> Ran(before, Deletes(deleted), store.View(), true, store.reliable)
    {
      VictimsNext(listed, referenced, i);
      if listed[i] in referenced { continue; }
      ghost var middle, whole := store.View(), Victims(listed, referenced);
      VictimsPrefix(listed, referenced, i + 1);
      var error := store.Remove(listed[i]);
      if usable { SweepStep(before, deleted, listed[i], whole, middle, store.View(), error.None?, store.reliable); }
      if error.Some? { return false, deleted; }
      deleted := deleted + [listed[i]];
    }
    assert listed[..|listed|] == listed;
    ok := true;
  }

  lemma SweepStep(before: map<string, Doc>, deleted: seq<string>, key: string, whole: seq<string>, middle: map<string, Doc>,
                  after: map<string, Doc>, ok: bool, reliable: bool)
    requires Ran(before, Deletes(deleted), middle, true, reliable) && Ran(middle, [Delete(key)], after, ok, reliable)
    requires deleted + [key] <= whole
    ensures Ran(before, Deletes(deleted + [key]), after, ok, reliable)
    ensures !ok ==> SweptPart(before, whole, after, false, deleted, reliable)
  {
    assert whole[..|deleted|] == deleted && whole[..|deleted| + 1] == deleted + [key];
    DeletesNext(whole, |deleted|);
    DeletesPrefix(whole, |deleted| + 1);
    RanStretch(before, Deletes(deleted), middle, [Delete(key)], after, ok, reliable, Deletes(whole));
    StoppedAt(before, Deletes(deleted), middle, Delete(key), after, ok, reliable);
  }

  /** A write that failed had its effect or none. */
  lemma StoppedAt(before: map<string, Doc>, done: seq<Write>, middle: map<string, Doc>, w: Write, after: map<string, Doc>,
                  ok: bool, reliable: bool)
    requires Ran(before, done, middle, true, reliable) && Ran(middle, [w], after, ok, reliable)
    ensures after in {Run(before, done), Run(before, done + [w])}
  {
    var k: nat :| Reached(middle, [w], k, after);
    assert done[..|done|] == done && [w][..0] == [] && [w][..1] == [w];
    RunConcat(before, done, [w]);
  }

  /** Listed keys of a directory, in order, and the marks over all indices. */
  ghost predicate Surveyed(objects: map<string, Doc>, directory: string, listed: seq<string>, names: set<string>)
  {
    && Tidy(objects) && Readable(objects)
    && Lists(listed, Under(objects, directory)) && Ascending(listed)
    && forall key :: key in names <==> Referenced(objects, key)
  }

  lemma SweptVictims(before: map<string, Doc>, directory: string, listed: seq<string>, names: set<string>, after: map<string, Doc>,
                     ok: bool, deleted: seq<string>, reliable: bool)
    requires Surveyed(before, directory, listed, names)
    requires SweptPart(before, Victims(listed, names), after, ok, deleted, reliable)
    ensures Swept(before, directory, Victims(listed, names), after, ok, deleted, reliable)
  {
    VictimsList(listed, names, Under(before, directory));
    VictimsAscending(listed, names);
    assert Under(before, directory) - names == Unreferenced(before, directory);
  }

  /** Deletes the listed keys of a codename's directory that are not marked. */
  method SweepListed(store: Store, codename: string, listed: seq<string>, names: set<string>) returns (outcome: CleanOutcome, deleted: seq<string>)
    requires store.Valid() && Scope(codename).Some? && '\\' !in Scope(codename).value
    modifies store
    ensures !outcome.Refused?
    ensures old(Surveyed(store.View(), Scope(codename).value, listed, names)) ==>
              Cleaned(old(store.View()), codename, store.View(), outcome, deleted, store.reliable)
  {
    ghost var before, directory := store.View(), Scope(codename).value;
    var ok;
    ok, deleted := Sweep(store, listed, names);
    outcome := if ok then Finished else Interrupted;
    if Surveyed(before, directory, listed, names) {
      forall i | 0 <= i < |listed| ensures Usable(listed[i]) { assert listed[i] in listed; }
      SweptVictims(before, directory, listed, names, store.View(), ok, deleted, store.reliable);
      assert Swept(before, directory, Victims(listed, names), store.View(), outcome.Finished?, deleted, store.reliable);
    }
  }

  /** Deletes one codename's pool objects that no stored index of any codename refers to. */
  method Clean(store: Store, codename: string) returns (outcome: CleanOutcome, deleted: seq<string>)
    requires store.Valid()
    modifies store
    ensures old(Tidy(store.View())) ==> Cleaned(old(store.View()), codename, store.View(), outcome, deleted, store.reliable)
    ensures outcome.Refused? ==> store.objects == old(store.objects)
  {
    var directory := Scope(codename);
    if directory.None? { return Refused, []; }
    ScopePlain(codename);
    var names := ReferencedNames(store);
    if names.None? || '\\' in directory.value { return Refused, []; }
    var listed := ListUnder(store, directory.value);
    if listed.None? { return Refused, []; }
    outcome, deleted := SweepListed(store, codename, listed.value, names.value);
  }
}
