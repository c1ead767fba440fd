/** The indices after an upload that succeeded. */
module Uploads {
  import opened Text
  import opened Packages
  import opened PackageCodec
  import opened Documents
  import opened IndexText
  import opened ManifestCodec
  import opened Stores
  import opened Manifests
  import opened Publication
  import opened Retrieval
  import opened Uploading
  import opened FanOutProperties
  import opened Layout
  import opened Agreement
  import opened NoDangling
  import opened CommandRuns
  import opened RepositoryRuns
  import opened Survival
  import opened IndexContents

  /** The manifest that an upload publishes for one of its architectures. */
  lemma ManifestOf(before: map<string, Doc>, o: UploadOptions, r: ReleaseState, inspected: seq<Option<Package>>, a: string)
    requires UploadManifests(before, o, r, inspected).Some? && a in Once([], Needed(o, r, inspected))
    ensures var ms := UploadManifests(before, o, r, inspected).value;
            exists i :: 0 <= i < |ms| && ms[i].architecture == a
  {
    FanOutOpens(before, o, r, inspected);
    var ms := UploadManifests(before, o, r, inspected).value;
    var i :| 0 <= i < |ms| && Architectures(ms)[i] == a;
    assert ms[i].architecture == a;
  }

  lemma {:induction false} OnceMembers(seen: seq<string>, values: seq<string>, a: string)
    ensures a in Once(seen, values) <==> a in seen || a in values
  {
    if values != [] {
      var front, last := values[..|values| - 1], values[|values| - 1];
      OnceMembers(seen, front, a);
      assert values == front + [last];
    }
  }

  /** What was stored for an architecture, as an upload reads it. */
  lemma StoredEntries(before: map<string, Doc>, o: UploadOptions, r: ReleaseState, s: Slot)
    requires Whole(before) && GoodSlot(s) && s.codename == o.codename && s.component == o.component
    ensures EntriesAt(before, s) == Some(FanOutProperties.StoredIn(before, o, r, s.architecture))
  {
    IndexKeys(s);
    WholeEntries(before, s);
  }

  /** The manifests of an index hold what was stored there and the packages that go there. */
  lemma UploadedPackages(before: map<string, Doc>, o: UploadOptions, r: ReleaseState, inspected: seq<Option<Package>>, s: Slot)
    requires Whole(before) && GoodSlot(s) && s.codename == o.codename && s.component == o.component
    requires UploadManifests(before, o, r, inspected).Some? && s.architecture in Needed(o, r, inspected)
    ensures EntriesAt(before, s).Some?
    ensures var ms := UploadManifests(before, o, r, inspected).value;
            var packages := Added(EntriesAt(before, s).value, Batch(o, inspected, s.architecture), o.preserveVersions);
            && Publishes(ms, s)
            && forall i :: 0 <= i < |ms| && SameIndex(SlotOf(ms[i]), s) ==> ms[i].packages == packages
  {
    var ms := UploadManifests(before, o, r, inspected).value;
    StoredEntries(before, o, r, s);
    FanOutAlike(before, o, r, inspected);
    OnceMembers([], Needed(o, r, inspected), s.architecture);
    ManifestOf(before, o, r, inspected, s.architecture);
    var i :| 0 <= i < |ms| && ms[i].architecture == s.architecture;
    assert Alike(o, r, ms[i]);
    assert SameIndex(SlotOf(ms[i]), s);
    forall j | 0 <= j < |ms| && SameIndex(SlotOf(ms[j]), s)
      ensures ms[j].packages == Added(EntriesAt(before, s).value, Batch(o, inspected, s.architecture), o.preserveVersions) {
      FanOutComplete(before, o, r, inspected, j);
    }
  }

  /** Manifests that could be published hold packages that have a place. */
  lemma ManifestIndexable(before: map<string, Doc>, r: ReleaseState, ms: seq<ManifestState>, disk: map<string, string>, h: Hasher, i: nat)
    requires Whole(before) && UploadReady(PoolKeys(before), r, ms) && Closure(r, ms, h).Ok? && i < |ms|
    requires PoolWrites(ms, disk).1 && AllAccepted(before, PoolWrites(ms, disk).0)
    ensures AllIndexable(ms[i].packages, r.codename)
  {
    var keys := PoolKeys(before) + BodyKeys(PoolWrites(ms, disk).0);
    ClosureShape(r, ms, h);
    assert Built(ms[i], Closure(r, ms, h).value.1[i]) && Offered(r, ms[i]);
    forall k | 0 <= k < |ms[i].packages| ensures Placeable(keys, ms[i].packages[k], r.codename) {
      ReadyPlaceable(before, PoolKeys(before), r, ms, disk, ms[i].packages[k]);
    }
    RenderedIndexable(keys, ms[i].packages, r.codename);
  }

  lemma FinishedUpload(before: map<string, Doc>, r: ReleaseState, ms: seq<ManifestState>, disk: map<string, string>, h: Hasher, signed: bool,
                       date: string, after: map<string, Doc>, reliable: bool)
    requires UploadedManifests(before, r, ms, disk, h, signed, date, after, true, reliable)
    ensures Closure(r, ms, h).Ok? && PoolWrites(ms, disk).1 && AllAccepted(before, PoolWrites(ms, disk).0)
    ensures var (closed, ps) := Closure(r, ms, h).value;
            after == Run(Run(before, PoolWrites(ms, disk).0), PublishPlan(closed, ps, h, signed, date))
  {
    var (closed, ps) := Closure(r, ms, h).value;
    var pool, rest := PoolWrites(ms, disk).0, PublishPlan(closed, ps, h, signed, date);
    assert (pool + rest)[..|pool + rest|] == pool + rest;
    RunConcat(before, pool, rest);
  }

  /**
   After an upload that succeeded the index of each architecture it needs holds exactly
   what was stored there and not replaced, and the packages that belong there and were
   not replaced by a later one, in this order; and its entries name their places.
   */
  lemma UploadedEntries(before: map<string, Doc>, o: UploadOptions, inspected: seq<Option<Package>>, disk: map<string, string>, h: Hasher,
                        signed: bool, date: string, after: map<string, Doc>, reliable: bool, r: ReleaseState, s: Slot)
    requires Whole(before) && GoodHasher(h) && Sensible(UploadOf(o, inspected, disk)) && GoodSlot(s)
    requires Uploaded(before, o, inspected, disk, h, signed, date, after, true, reliable)
    requires ReleaseRead(before, o.codename, o.overrides) == Some(r)
    requires s.codename == o.codename && s.component == o.component && s.architecture in Needed(o, r, inspected)
    ensures EntriesAt(before, s).Some? && EntriesAt(after, s).Some?
    ensures var packages := Added(EntriesAt(before, s).value, Batch(o, inspected, s.architecture), o.preserveVersions);
            && EntriesAt(after, s) == Some(AllAgain(packages, o.codename))
            && Locations(EntriesAt(after, s).value) == Places(packages, o.codename)
            && forall p :: p in packages <==> BatchMember(EntriesAt(before, s).value, Batch(o, inspected, s.architecture), o.preserveVersions, p)
  {
    var ms := UploadManifests(before, o, r, inspected).value;
    ReleaseReadGood(before, o.codename, o.overrides);
    UploadIsReady(before, o, r, inspected, disk);
    UploadedPackages(before, o, r, inspected, s);
    FinishedUpload(before, r, ms, disk, h, signed, date, after, reliable);
    var batch := Batch(o, inspected, s.architecture);
    var packages := Added(EntriesAt(before, s).value, batch, o.preserveVersions);
    var i :| 0 <= i < |ms| && SameIndex(SlotOf(ms[i]), s);
    ManifestIndexable(before, r, ms, disk, h, i);
    assert AllOffered(r, ms);
    PublishedEntries(Run(before, PoolWrites(ms, disk).0), r, ms, h, signed, date, s, packages);
    LocationsAgain(packages, o.codename);
    forall p ensures p in packages <==> BatchMember(EntriesAt(before, s).value, batch, o.preserveVersions, p) {
      AddedMembers(EntriesAt(before, s).value, batch, o.preserveVersions, p);
    }
  }
}
