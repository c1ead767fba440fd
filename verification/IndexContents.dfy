/** The entries of an index that a finished publication wrote, and the locations they name. */
module IndexContents {
  import opened Text
  import opened Packages
  import opened PackageCodec
  import opened EntryCodec
  import opened Documents
  import opened IndexText
  import opened ManifestCodec
  import opened Stores
  import opened Manifests
  import opened Publication
  import opened Retrieval
  import opened Managing
  import opened Layout
  import opened Agreement
  import opened NoDangling
  import opened CommandRuns
  import opened Survival

  /** The locations that entries name, in order. */
  function Locations(packages: seq<Package>): seq<Option<string>>
  {
    Each(packages, (p: Package) => p.indexFilename)
  }

  /** Where packages are stored, in order. */
  function Places(packages: seq<Package>, codename: string): seq<Option<string>>
  {
    Each(packages, (p: Package) => if RepositoryFilename(p, codename).Ok? then Some(RepositoryFilename(p, codename).value) else None)
  }

  /** Written entries name the places of their packages. */
  lemma {:induction false} LocationsAgain(packages: seq<Package>, codename: string)
    requires AllIndexable(packages, codename)
    ensures Locations(AllAgain(packages, codename)) == Places(packages, codename)
  {
    if packages != [] {
      var p := packages[0];
      assert Indexable(p, codename);
      EntryLasts(p, RepositoryFilename(p, codename).value);
      LocationsAgain(packages[1..], codename);
      assert AllAgain(packages, codename) == [Again(p, codename)] + AllAgain(packages[1..], codename);
    }
  }

  /** Located entries have the places they name. */
  lemma {:induction false} LocatedPlaces(keys: set<string>, packages: seq<Package>, codename: string)
    requires AllLocated(keys, packages)
    ensures AllIndexable(packages, codename) && Places(packages, codename) == Locations(packages)
  {
    forall i | 0 <= i < |packages| ensures Indexable(packages[i], codename) { assert LocatedIn(keys, packages[i]); }
    if packages != [] {
      assert LocatedIn(keys, packages[0]);
      assert AllLocated(keys, packages[1..]) by { assert forall q :: q in packages[1..] ==> q in packages; }
      LocatedPlaces(keys, packages[1..], codename);
    }
  }

  /** The index text of such a manifest reads back as its packages' records do. */
  lemma BuiltEntries(m: ManifestState, doc: Doc)
    requires AllIndexable(m.packages, m.codename) && BuildIndex(m) == Ok(doc)
    ensures Entries(doc) == Some(AllAgain(m.packages, m.codename))
  {
    IndexRoundTrip(m.packages, m.codename);
  }

  /** A finished publication leaves the entries of the manifests it published. */
  lemma PublishedEntries(objects: map<string, Doc>, r: ReleaseState, ms: seq<ManifestState>, h: Hasher, signed: bool, date: string, s: Slot,
                         packages: seq<Package>)
    requires GoodHasher(h) && GoodRelease(r) && AllOffered(r, ms) && Closure(r, ms, h).Ok? && GoodSlot(s)
    requires Publishes(ms, s) && forall i :: 0 <= i < |ms| && SameIndex(SlotOf(ms[i]), s) ==> ms[i].packages == packages
    requires AllIndexable(packages, s.codename)
    ensures var (closed, ps) := Closure(r, ms, h).value;
            EntriesAt(Run(objects, PublishPlan(closed, ps, h, signed, date)), s) == Some(AllAgain(packages, s.codename))
  {
    PublicationIndices(objects, r, ms, h, signed, date, s);
    var (closed, ps) := Closure(r, ms, h).value;
    var left := At(Run(objects, PublishPlan(closed, ps, h, signed, date)), IndexPath(s));
    var i :| 0 <= i < |ms| && SameIndex(SlotOf(ms[i]), s) && left.Some? && BuildIndex(ms[i]) == Ok(left.value);
    BuiltEntries(ms[i], left.value);
  }

  /** The entries of a whole store's index can be read, and are located. */
  lemma WholeEntries(objects: map<string, Doc>, s: Slot)
    requires Whole(objects) && GoodSlot(s)
    ensures EntriesAt(objects, s).Some? && AllLocated(PoolKeys(objects), EntriesAt(objects, s).value)
  {
    IndexKeys(s);
    IndexPathIndex(s);
    if IndexPath(s) in objects {
      LocatedMore(objects.Keys, PoolKeys(objects), Entries(objects[IndexPath(s)]).value);
    }
  }

  /** A manifest read from a whole store holds the entries of its index. */
  lemma ReadHolds(objects: map<string, Doc>, s: Slot, failIfExists: bool, skip: bool)
    requires Whole(objects) && GoodSlot(s)
    ensures EntriesAt(objects, s).Some?
    ensures ManifestRead(objects, s, failIfExists, skip) ==
            Some(EmptyManifest(s).(failIfExists := failIfExists, skipPackageUpload := skip, packages := EntriesAt(objects, s).value))
  {
    IndexKeys(s);
    WholeEntries(objects, s);
  }

  /** The store after a publication that succeeded. */
  lemma FinishedPlan(before: map<string, Doc>, r: ReleaseState, ms: seq<ManifestState>, h: Hasher, signed: bool, date: string,
                     after: map<string, Doc>, reliable: bool)
    requires ManifestsPublished(before, r, ms, h, signed, date, after, true, reliable)
    ensures Closure(r, ms, h).Ok?
    ensures var (closed, ps) := Closure(r, ms, h).value; after == Run(before, PublishPlan(closed, ps, h, signed, date))
  {
    var (closed, ps) := Closure(r, ms, h).value;
    var plan := PublishPlan(closed, ps, h, signed, date);
    assert plan[..|plan|] == plan;
  }
}
