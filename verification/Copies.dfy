/** The destination index after a copy that succeeded. */
module Copies {
  import opened Text
  import opened Versions
  import opened Packages
  import opened Documents
  import opened IndexText
  import opened ManifestCodec
  import opened Stores
  import opened Manifests
  import opened Publication
  import opened Retrieval
  import opened Uploading
  import opened FanOutProperties
  import opened Managing
  import opened Layout
  import opened Agreement
  import opened NoDangling
  import opened CommandRuns
  import opened Survival
  import opened IndexContents

  /** The entries of the named package, and only of the given full versions if there are any given. */
  function Asked(o: CopyOptions): Package -> bool
  {
    (p: Package) => p.name == o.name && (o.versions.None? || exists v :: v in o.versions.value && v == FullVersion(p.version))
  }

  function SourceSlot(o: CopyOptions): Slot
  {
    Slot(o.sourceCodename, o.sourceComponent, o.architecture, false)
  }

  function DestinationSlot(o: CopyOptions, r: ReleaseState): Slot
  {
    Slot(o.codename, o.component, o.architecture, r.byHash)
  }

  lemma WantedAsked(o: CopyOptions, packages: seq<Package>)
    ensures WantedFrom(o, packages) == Filter(packages, Asked(o))
  {
    SameFilter(packages, p => Wanted(o, p), Asked(o));
  }

  /** What a copy makes of the destination: its entries, and after them the ones asked for. */
  lemma CopyHolds(before: map<string, Doc>, o: CopyOptions, r: ReleaseState)
    requires Whole(before) && WellNamed(CopyOf(o))
    ensures EntriesAt(before, SourceSlot(o)).Some? && EntriesAt(before, DestinationSlot(o, r)).Some?
    ensures var asked := Filter(EntriesAt(before, SourceSlot(o)).value, Asked(o));
            && (CopyTarget(before, o, r).Some? ==>
                  && asked != [] && SlotOf(CopyTarget(before, o, r).value) == DestinationSlot(o, r)
                  && CopyTarget(before, o, r).value.packages == Added(EntriesAt(before, DestinationSlot(o, r)).value, asked, o.preserveVersions))
            && (asked != [] && !o.failIfExists ==> CopyTarget(before, o, r).Some?)
  {
    ReadHolds(before, SourceSlot(o), false, false);
    ReadHolds(before, DestinationSlot(o, r), o.failIfExists, true);
    var source := ManifestRead(before, SourceSlot(o), false, false).value;
    var destination := ManifestRead(before, DestinationSlot(o, r), o.failIfExists, true).value;
    var wanted := WantedFrom(o, source.packages);
    WantedAsked(o, source.packages);
    if !o.failIfExists { AddsAll(destination, wanted, o.preserveVersions); }
    if AddCommon(destination, wanted, o.preserveVersions).Some? {
      AddCommonAdded(destination, wanted, o.preserveVersions);
      AddCommonPending(destination, wanted, o.preserveVersions);
    }
  }

  lemma OnePublished(before: map<string, Doc>, r: ReleaseState, m: ManifestState, h: Hasher, signed: bool, date: string)
    requires GoodHasher(h) && GoodRelease(r) && Closure(r, [m], h).Ok? && LocatedManifests(PoolKeys(before), r, [m])
    ensures var (closed, ps) := Closure(r, [m], h).value;
            var after := Run(before, PublishPlan(closed, ps, h, signed, date));
            && EntriesAt(after, SlotOf(m)) == Some(AllAgain(m.packages, m.codename))
            && Locations(EntriesAt(after, SlotOf(m)).value) == Locations(m.packages)
  {
    assert [m][0] == m;
    assert Offered(r, m) && AllLocated(PoolKeys(before), m.packages);
    LocatedPlaces(PoolKeys(before), m.packages, m.codename);
    LocationsAgain(m.packages, m.codename);
    assert Publishes([m], SlotOf(m)) by { assert SameIndex(SlotOf([m][0]), SlotOf(m)); }
    PublishedEntries(before, r, [m], h, signed, date, SlotOf(m), m.packages);
  }

  /**
   After a copy that succeeded the destination's index names what it named before and was
   not replaced, and then the source's entries that were asked for, of which there were
   some, and that were not replaced by a later one.
   */
  lemma CopiedEntries(before: map<string, Doc>, o: CopyOptions, h: Hasher, signed: bool, date: string, after: map<string, Doc>, reliable: bool,
                      r: ReleaseState)
    requires Whole(before) && GoodHasher(h) && WellNamed(CopyOf(o))
    requires Copied(before, o, h, signed, date, after, true, reliable) && CopyRelease(before, o) == Some(r)
    ensures EntriesAt(before, SourceSlot(o)).Some? && EntriesAt(before, DestinationSlot(o, r)).Some?
    ensures EntriesAt(after, DestinationSlot(o, r)).Some?
    ensures var asked := Filter(EntriesAt(before, SourceSlot(o)).value, Asked(o));
            var was := EntriesAt(before, DestinationSlot(o, r)).value;
            var packages := Added(was, asked, o.preserveVersions);
            && asked != [] && EntriesAt(after, DestinationSlot(o, r)) == Some(AllAgain(packages, o.codename))
            && Locations(EntriesAt(after, DestinationSlot(o, r)).value) == Locations(packages)
            && forall p :: p in packages <==> BatchMember(was, asked, o.preserveVersions, p)
  {
    ReleaseReadGood(before, o.codename, Overrides(None, None, o.byHash));
    CopyHolds(before, o, r);
    var m := CopyTarget(before, o, r).value;
    CopyLocated(before, o, r, m);
    FinishedPlan(before, r, [m], h, signed, date, after, reliable);
    OnePublished(before, r, m, h, signed, date);
    var asked := Filter(EntriesAt(before, SourceSlot(o)).value, Asked(o));
    var was := EntriesAt(before, DestinationSlot(o, r)).value;
    forall p ensures p in Added(was, asked, o.preserveVersions) <==> BatchMember(was, asked, o.preserveVersions, p) {
      AddedMembers(was, asked, o.preserveVersions, p);
    }
  }

  /**
   Where existing entries are protected, a copy goes ahead only if each of the destination's
   entries has the file name of the first entry asked for of its name, if that has its version.
   */
  lemma CopyProtects(before: map<string, Doc>, o: CopyOptions, r: ReleaseState)
    requires Whole(before) && WellNamed(CopyOf(o)) && o.failIfExists && CopyTarget(before, o, r).Some?
    ensures EntriesAt(before, SourceSlot(o)).Some? && EntriesAt(before, DestinationSlot(o, r)).Some?
    ensures Protected(EntriesAt(before, DestinationSlot(o, r)).value, Filter(EntriesAt(before, SourceSlot(o)).value, Asked(o)), o.codename)
  {
    ReadHolds(before, SourceSlot(o), false, false);
    ReadHolds(before, DestinationSlot(o, r), o.failIfExists, true);
    var source := ManifestRead(before, SourceSlot(o), false, false).value;
    var destination := ManifestRead(before, DestinationSlot(o, r), o.failIfExists, true).value;
    var wanted := WantedFrom(o, source.packages);
    WantedAsked(o, source.packages);
    CommonProtects(destination, destination.packages, [], wanted, o.preserveVersions);
    assert [] + wanted == wanted;
  }
}
