/**
 What becomes of a package whose control file has a user-defined "Filename": its index
 entry names another object, and the next cleaning removes its body.
 */
module Shadowing {
  import opened Text
  import opened Paths
  import opened Keys
  import opened Control
  import opened Versions
  import opened Packages
  import opened PackageCodec
  import opened EntryCodec
  import opened Documents
  import opened IndexText
  import opened ManifestCodec
  import opened Stores
  import opened Publication
  import opened Layout
  import opened Cleaning
  import opened GarbageCollection
  import opened NoDangling
  import opened RepositoryRuns

  /** A codename that is one clean segment has its own directory in the pool. */
  lemma ScopeOfName(codename: string)
    requires Name(codename)
    ensures Scope(codename) == Some("pool/" + codename)
  {
    SplitWhole(codename, '/');
    PlainSegments(codename);
    PlainNotEscaping(codename);
    PoolDirectory(codename);
  }

  lemma PoolDirectory(codename: string)
    requires Name(codename)
    ensures PathJoin(["pool", codename]) == "pool/" + codename
  {
    assert Names(["pool", codename]);
    KeyOfNames(["pool", codename]);
    assert ["pool", codename][1..] == [codename] && Join([codename], "/") == codename;
    assert "pool" + "/" + codename == "pool/" + codename;
  }

  lemma StartOf(start: string, a: string, b: string, c: string)
    ensures HasPrefix(start + a + "/" + b + "/" + c, start)
  {
  }

  lemma DerivedInScope(p: Package, codename: string)
    requires p.indexFilename == None && RepositoryFilename(p, codename).Ok?
    ensures HasPrefix(RepositoryFilename(p, codename).value, "pool/" + codename + "/")
  {
    StartOf("pool/" + codename + "/", p.name[..1], if |p.name| > 2 then p.name[..2] else p.name, Base(p.filename));
  }

  /** The index that holds nothing but such a package refers to the object its field names, and to no other. */
  lemma ShadowedIndex(text: string, q: Package, other: string, key: string)
    requires ParsePackages(text) == Ok([q]) && q.indexFilename.Some? && Named(q.indexFilename.value) == Some(other)
    ensures ReadableDoc(Bytes(text)) && (RefersTo(Bytes(text), key) <==> key == other)
  {
    assert Entries(Bytes(text)) == Some([q]);
    OneEntry(q, other, key);
  }

  lemma OneEntry(q: Package, other: string, key: string)
    requires q.indexFilename.Some? && Named(q.indexFilename.value) == Some(other)
    ensures Resolved([q]) && (Mentions([q], key) <==> key == other)
  {
    assert forall x :: x in [q] <==> x == q;
    assert ReferencedKey(q) == Some(other);
  }

  /** In a store without faults a cleaning removes any unreferenced object of the codename. */
  lemma UnreferencedRemoved(before: map<string, Doc>, codename: string, key: string, after: map<string, Doc>, outcome: CleanOutcome,
                            deleted: seq<string>)
    requires Name(codename) && PlainKeys(before) && Readable(before)
    requires key in before && HasPrefix(key, "pool/" + codename + "/") && !Referenced(before, key)
    requires Cleaned(before, codename, after, outcome, deleted, true)
    ensures outcome.Finished? && key !in after
  {
    ScopeOfName(codename);
    if outcome.Interrupted? {
      var victims: seq<string> :| Swept(before, Scope(codename).value, victims, after, false, deleted, true);
      DeletesRun(before, victims);
      forall k | k in victims ensures Named(k).Some? { assert k in before; }
      assert false;
    }
    CleanExact(before, codename, after, deleted, true);
  }

  /**
   A package with "XB-Filename: v", published alone and stored where its body belongs: the
   index that is written for it does not refer to its body, unless v names it, so that
   the next cleaning of a store without faults removes the body.
   */
  lemma ShadowedBodyRemoved(before: map<string, Doc>, path: string, codename: string, name: string, version: string, v: string,
                            source: string, filename: string, other: string, after: map<string, Doc>, outcome: CleanOutcome,
                            deleted: seq<string>)
    requires ParseVersion(version).Some? && NormalValue(version)
    requires '\r' !in name && '\r' !in version && '\r' !in v && '\r' !in filename
    requires FromFields(ControlWith(name, version, Field("XB-Filename", v))).Ok?
    requires var p := InspectedWith(name, version, Field("XB-Filename", v), source);
             && RepositoryFilename(p, codename) == Ok(filename)
             && path in before && before[path] == Bytes(FieldsText(RecordFields(p, filename)))
    requires Named(ReadBack(v)) == Some(other) && other != filename
    requires Name(codename) && PlainKeys(before) && IndexKey(path) && filename in before
    requires forall k :: k in before && IndexKey(k) && k != path ==> ReadableDoc(before[k]) && !RefersTo(before[k], filename)
    requires Cleaned(before, codename, after, outcome, deleted, true)
    ensures var p := InspectedWith(name, version, Field("XB-Filename", v), source);
            RenderIndex([p], codename) == Ok(before[path].text)
    ensures outcome.Finished? && filename !in after
  {
    var p := InspectedWith(name, version, Field("XB-Filename", v), source);
    FilenameShadowed(name, version, v, source, filename);
    var q := ParsePackage(FieldsText(RecordFields(p, filename))).value;
    OneRecordIndex(p, codename, filename, q);
    ShadowedIndex(before[path].text, q, other, filename);
    DerivedInScope(p, codename);
    UnreferencedRemoved(before, codename, filename, after, outcome, deleted);
  }

  /** Some stored index has an entry that names a key. */
  ghost predicate NamedBySome(objects: map<string, Doc>, key: string)
  {
    exists i, p :: i in objects && IndexKey(i) && Entries(objects[i]).Some? && p in Entries(objects[i]).value &&
                   p.indexFilename.Some? && Named(p.indexFilename.value) == Some(key)
  }

  lemma NamedReferenced(objects: map<string, Doc>, key: string)
    requires Whole(objects)
    ensures Referenced(objects, key) <==> NamedBySome(objects, key)
  {
    forall i | i in objects && IndexKey(i)
      ensures RefersTo(objects[i], key) <==>
              exists p :: p in Entries(objects[i]).value && p.indexFilename.Some? && Named(p.indexFilename.value) == Some(key) {
      forall p | p in Entries(objects[i]).value
        ensures ReferencedKey(p) == Some(key) <==> p.indexFilename.Some? && Named(p.indexFilename.value) == Some(key) {
        EntryReference(objects.Keys, p, key);
      }
    }
  }

  lemma EntryReference(keys: set<string>, p: Package, key: string)
    requires LocatedIn(keys, p)
    ensures ReferencedKey(p) == Some(key) <==> p.indexFilename.Some? && Named(p.indexFilename.value) == Some(key)
  {
  }

  /**
   A cleaning changes nothing and removes only objects of the codename's own part of the
   pool that no entry of any stored index names; and all of these, if it finishes.
   */
  lemma CleaningExact(before: map<string, Doc>, codename: string, after: map<string, Doc>, outcome: CleanOutcome, deleted: seq<string>,
                      reliable: bool, key: string)
    requires Whole(before) && Name(codename) && Cleaned(before, codename, after, outcome, deleted, reliable)
    ensures key in after ==> key in before && after[key] == before[key]
    ensures key in before && key !in after ==> "pool/" + codename + "/" <= key && !NamedBySome(before, key)
    ensures outcome.Finished? && key in before && "pool/" + codename + "/" <= key && !NamedBySome(before, key) ==> key !in after
  {
    ScopeOfName(codename);
    NamedReferenced(before, key);
    if !outcome.Refused? {
      var victims: seq<string> :| Swept(before, Scope(codename).value, victims, after, outcome.Finished?, deleted, reliable);
      SweptKey(before, Scope(codename).value, victims, after, outcome.Finished?, deleted, reliable, key);
      if outcome.Finished? { CleanExact(before, codename, after, deleted, reliable); }
    }
  }

  lemma SweptKey(before: map<string, Doc>, directory: string, victims: seq<string>, after: map<string, Doc>, ok: bool, deleted: seq<string>,
                 reliable: bool, key: string)
    requires PlainKeys(before) && Swept(before, directory, victims, after, ok, deleted, reliable)
    ensures key in after ==> key in before && after[key] == before[key]
    ensures key in before && key !in after ==> directory + "/" <= key && !Referenced(before, key)
  {
    var k: nat :| Reached(before, Deletes(victims), k, after);
    DeletesPrefix(victims, k);
    var part := victims[..k];
    assert Deletes(victims)[..k] == Deletes(part);
    forall v | v in part ensures v in Unreferenced(before, directory) && Named(v) == Some(v) { PlainVictim(before, directory, victims, v); }
    DeletesRun(before, part);
    TargetsMembers(part, key);
  }
}
