/**
 One command at a time, each of which may stop after any store write: no run ever
 leaves a stored index with an entry whose body is missing from the pool.
 */
module CommandRuns {
  import opened Text
  import opened Paths
  import opened Keys
  import opened Packages
  import opened PackageCodec
  import opened EntryCodec
  import opened IndexText
  import opened ManifestCodec
  import opened Documents
  import opened Stores
  import opened Manifests
  import opened Publication
  import opened Retrieval
  import opened Uploading
  import opened FanOutProperties
  import opened Managing
  import opened Maintaining
  import opened Cleaning
  import opened GarbageCollection
  import opened Layout
  import opened Agreement
  import opened NoDangling

  datatype Command =
    | UploadOf(upload: UploadOptions, inspected: seq<Option<Package>>, disk: map<string, string>)
    | CopyOf(copied: CopyOptions)
    | DeleteOf(deleted: DeleteOptions)
    | VerifyOf(verified: VerifyOptions)
    | CleanOf(codename: string)

  /** What the methods of the commands guarantee of the store afterwards, finished or not. */
  ghost predicate Happens(before: map<string, Doc>, c: Command, h: Hasher, signed: bool, date: string, after: map<string, Doc>)
  {
    match c
    case UploadOf(o, inspected, disk) => exists ok :: Uploaded(before, o, inspected, disk, h, signed, date, after, ok, false)
    case CopyOf(o) => exists ok :: Copied(before, o, h, signed, date, after, ok, false)
    case DeleteOf(o) => exists ok :: DeletedEntries(before, o, h, signed, date, after, ok, false)
    case VerifyOf(o) => Verifiable(before, o) ==> exists ok, counts :: Verified(before, o, h, signed, date, after, ok, counts, false)
    case CleanOf(codename) => Tidy(before) ==> exists outcome, deleted :: Cleaned(before, codename, after, outcome, deleted, false)
  }

  /** A codename that is a single clean segment, and options that are single lines. */
  ghost predicate SensibleRelease(codename: string, o: Overrides)
  {
    && Name(codename) && SingleLine(codename)
    && (o.origin.Some? ==> SingleLine(o.origin.value)) && (o.suite.Some? ==> SingleLine(o.suite.value))
  }

  /** Codenames, components and architectures that are single clean segments. */
  ghost predicate WellNamed(c: Command)
  {
    match c
    case UploadOf(o, inspected, _) =>
      && SensibleRelease(o.codename, o.overrides) && ComponentName(o.component)
      && (o.architecture.Some? ==> ArchitectureName(o.architecture.value))
      && (forall p :: p in inspected && p.Some? ==> Inspected(p.value) && ArchitectureName(p.value.architecture))
    case CopyOf(o) =>
      && SensibleRelease(o.codename, Overrides(None, None, o.byHash)) && ComponentName(o.component)
      && Name(o.sourceCodename) && ComponentName(o.sourceComponent) && ArchitectureName(o.architecture)
    case DeleteOf(o) => SensibleRelease(o.codename, o.overrides) && ComponentName(o.component) && ArchitectureName(o.architecture)
    case VerifyOf(o) => SensibleRelease(o.codename, o.overrides) && ComponentName(o.component)
    case CleanOf(_) => true
  }

  /** A package whose entry will name its body, and go on naming it. */
  ghost predicate SensiblePackage(p: Package, codename: string)
  {
    && Inspected(p) && ArchitectureName(p.architecture)
    && (RepositoryFilename(p, codename).Ok? ==> Lasting(p, RepositoryFilename(p, codename).value))
  }

  /** A well-named command that, if it uploads, puts the bodies too, and adds entries that last. */
  ghost predicate Sensible(c: Command)
  {
    && WellNamed(c)
    && (c.UploadOf? ==>
          && !c.upload.skipPackageUpload
          && forall p :: p in c.inspected && p.Some? ==> SensiblePackage(p.value, c.upload.codename))
  }

  // ------------------------------------------------------------- what commands read

  ghost function PoolKeys(objects: map<string, Doc>): set<string>
  {
    set k | k in objects && PoolName(k)
  }

  lemma NewGood(codename: string, o: Overrides)
    requires SensibleRelease(codename, o)
    ensures GoodRelease(NewRelease(codename, o))
  {
  }

  lemma OverriddenGood(r: ReleaseState, codename: string, o: Overrides)
    requires SensibleRelease(codename, o) && GoodBody(r)
    ensures GoodRelease(Overridden(r, codename, o))
  {
  }

  lemma ReleaseReadGood(objects: map<string, Doc>, codename: string, o: Overrides)
    requires Whole(objects) && SensibleRelease(codename, o) && ReleaseRead(objects, codename, o).Some?
    ensures GoodRelease(ReleaseRead(objects, codename, o).value)
    ensures ReleaseRead(objects, codename, o).value.codename == codename
  {
    ReleaseKeys(codename);
    NewGood(codename, o);
    if ReleasePath(codename) in objects {
      assert GoodStored(objects[ReleasePath(codename)]);
      OverriddenGood(ReleaseOf(objects[ReleasePath(codename)]), codename, o);
    }
  }

  /** A manifest read from a whole store has located entries only. */
  lemma ManifestReadLocated(objects: map<string, Doc>, s: Slot, failIfExists: bool, skip: bool)
    requires Whole(objects) && GoodSlot(s) && ManifestRead(objects, s, failIfExists, skip).Some?
    ensures var m := ManifestRead(objects, s, failIfExists, skip).value;
            && SlotOf(m) == s && m.files == map[] && m.pendingUploads == [] && m.skipPackageUpload == skip
            && AllLocated(PoolKeys(objects), m.packages)
  {
    IndexKeys(s);
    IndexPathIndex(s);
    var m := ManifestRead(objects, s, failIfExists, skip).value;
    if IndexPath(s) in objects {
      LocatedMore(objects.Keys, PoolKeys(objects), m.packages);
    }
  }

  ghost predicate PendingSensible(m: ManifestState)
  {
    forall p <- m.pendingUploads :: SensiblePackage(p, m.codename)
  }

  /** A manifest whose entries are located, or pending. */
  ghost predicate Sourced(keys: set<string>, r: ReleaseState, m: ManifestState)
  {
    && Offered(r, m) && !m.skipPackageUpload && PendingSensible(m)
    && (forall p :: p in m.packages ==> LocatedIn(keys, p) || p in m.pendingUploads)
  }

  ghost predicate AllSourced(keys: set<string>, r: ReleaseState, ms: seq<ManifestState>)
  {
    forall i :: 0 <= i < |ms| ==> Sourced(keys, r, ms[i])
  }

  // --------------------------------------------------------------------- publication

  /** A package whose published entry will be located, and last. */
  ghost predicate Placeable(keys: set<string>, p: Package, codename: string)
  {
    RepositoryFilename(p, codename).Ok? ==>
      Located(keys, RepositoryFilename(p, codename).value) && Lasting(p, RepositoryFilename(p, codename).value)
  }

  lemma {:induction false} MappedEach<A, B, E>(items: seq<A>, f: A -> Result<Option<B>, E>, i: nat)
    requires Mapped(items, f).Ok? && i < |items|
    ensures f(items[i]).Ok?
  {
    if i > 0 { MappedEach(items[1..], f, i - 1); }
  }

  lemma AllRendered(packages: seq<Package>, codename: string, i: nat)
    requires Records(packages, codename).Ok? && i < |packages|
    ensures RepositoryFilename(packages[i], codename).Ok?
  {
    MappedEach(packages, Writer(codename), i);
  }

  lemma EntryLocated(keys: set<string>, p: Package, codename: string)
    requires Indexable(p, codename) && Placeable(keys, p, codename)
    ensures LocatedIn(keys, Again(p, codename))
  {
    EntryLasts(p, RepositoryFilename(p, codename).value);
  }

  lemma {:induction false} EntriesLocated(keys: set<string>, packages: seq<Package>, codename: string)
    requires AllIndexable(packages, codename) && forall i :: 0 <= i < |packages| ==> Placeable(keys, packages[i], codename)
    ensures AllLocated(keys, AllAgain(packages, codename))
  {
    if packages != [] {
      EntryLocated(keys, packages[0], codename);
      EntriesLocated(keys, packages[1..], codename);
      assert AllAgain(packages, codename) == [Again(packages[0], codename)] + AllAgain(packages[1..], codename);
    }
  }

  lemma RenderedIndexable(keys: set<string>, packages: seq<Package>, codename: string)
    requires Records(packages, codename).Ok? && forall i :: 0 <= i < |packages| ==> Placeable(keys, packages[i], codename)
    ensures AllIndexable(packages, codename)
  {
    forall i | 0 <= i < |packages| ensures Indexable(packages[i], codename) { AllRendered(packages, codename, i); }
  }

  /** The index text of placeable packages reads back as entries that are located. */
  lemma BuiltLocated(keys: set<string>, m: ManifestState)
    requires BuildIndex(m).Ok? && forall p :: p in m.packages ==> Placeable(keys, p, m.codename)
    ensures LocatedDoc(keys, BuildIndex(m).value)
  {
    forall i | 0 <= i < |m.packages| ensures Placeable(keys, m.packages[i], m.codename) { assert m.packages[i] in m.packages; }
    RenderedIndexable(keys, m.packages, m.codename);
    IndexRoundTrip(m.packages, m.codename);
    EntriesLocated(keys, m.packages, m.codename);
  }

  /** The closure of placeable manifests publishes good indices only. */
  lemma ClosureIndices(keys: set<string>, r: ReleaseState, ms: seq<ManifestState>, h: Hasher)
    requires GoodRelease(r) && AllOffered(r, ms) && Closure(r, ms, h).Ok?
    requires forall i, p :: 0 <= i < |ms| && p in ms[i].packages ==> Placeable(keys, p, r.codename)
    ensures GoodIndices(keys, Closure(r, ms, h).value.1) && GoodRelease(Closure(r, ms, h).value.0)
  {
    ClosureShape(r, ms, h);
    var ps := Closure(r, ms, h).value.1;
    forall i | 0 <= i < |ps| ensures GoodIndex(keys, ps[i]) {
      assert OfRelease(r, ps[i].slot);
      if i < |ms| {
        assert Built(ms[i], ps[i]) && Offered(r, ms[i]);
        BuiltLocated(keys, ms[i]);
      }
    }
  }

  ghost predicate LocatedManifests(keys: set<string>, r: ReleaseState, ms: seq<ManifestState>)
  {
    forall i :: 0 <= i < |ms| ==> Offered(r, ms[i]) && AllLocated(keys, ms[i].packages)
  }

  /** Publishing manifests of located entries keeps the store whole. */
  lemma PublicationKeeps(before: map<string, Doc>, r: ReleaseState, ms: seq<ManifestState>, h: Hasher, signed: bool, date: string,
                         after: map<string, Doc>, ok: bool)
    requires Whole(before) && GoodHasher(h) && GoodRelease(r) && LocatedManifests(PoolKeys(before), r, ms)
    requires ManifestsPublished(before, r, ms, h, signed, date, after, ok, false)
    ensures Whole(after)
  {
    if Closure(r, ms, h).Ok? {
      var keys := PoolKeys(before);
      forall i, p | 0 <= i < |ms| && p in ms[i].packages ensures Placeable(keys, p, r.codename) {
        assert AllLocated(keys, ms[i].packages);
      }
      ClosureIndices(keys, r, ms, h);
      var (closed, ps) := Closure(r, ms, h).value;
      PublishPlanSafe(keys, closed, ps, h, signed, date);
      PartKeeps(before, keys, PublishPlan(closed, ps, h, signed, date), after, ok);
    }
  }

  /** Any part of a list of safe writes keeps the store whole. */
  lemma PartKeeps(before: map<string, Doc>, keys: set<string>, writes: seq<Write>, after: map<string, Doc>, ok: bool)
    requires Whole(before) && Stocked(keys, before) && AllSafe(keys, writes) && Ran(before, writes, after, ok, false)
    ensures Whole(after)
  {
    var k: nat :| Reached(before, writes, k, after);
    SafeWritesKeep(before, keys, writes, k);
  }

  // ------------------------------------------------------------ copy, delete, verify

  lemma CopyKeeps(before: map<string, Doc>, o: CopyOptions, h: Hasher, signed: bool, date: string, after: map<string, Doc>, ok: bool)
    requires Whole(before) && GoodHasher(h) && Sensible(CopyOf(o)) && Copied(before, o, h, signed, date, after, ok, false)
    ensures Whole(after)
  {
    if CopyRelease(before, o).Some? {
      var r := CopyRelease(before, o).value;
      ReleaseReadGood(before, o.codename, Overrides(None, None, o.byHash));
      if CopyTarget(before, o, r).Some? {
        var m := CopyTarget(before, o, r).value;
        CopyLocated(before, o, r, m);
        PublicationKeeps(before, r, [m], h, signed, date, after, ok);
      }
    }
  }

  lemma CopyLocated(objects: map<string, Doc>, o: CopyOptions, r: ReleaseState, m: ManifestState)
    requires Whole(objects) && Sensible(CopyOf(o)) && r.codename == o.codename && CopyTarget(objects, o, r) == Some(m)
    ensures LocatedManifests(PoolKeys(objects), r, [m])
  {
    var from, to := Slot(o.sourceCodename, o.sourceComponent, o.architecture, false), Slot(o.codename, o.component, o.architecture, r.byHash);
    ManifestReadLocated(objects, from, false, false);
    ManifestReadLocated(objects, to, o.failIfExists, true);
    var source, destination := ManifestRead(objects, from, false, false).value, ManifestRead(objects, to, o.failIfExists, true).value;
    WantedLocated(PoolKeys(objects), o, source.packages);
    BatchLocated(PoolKeys(objects), destination, WantedFrom(o, source.packages), o.preserveVersions);
  }

  lemma WantedLocated(keys: set<string>, o: CopyOptions, packages: seq<Package>)
    requires AllLocated(keys, packages)
    ensures AllLocated(keys, WantedFrom(o, packages))
  {
    forall p | p in WantedFrom(o, packages) ensures LocatedIn(keys, p) { FilterMembers(packages, q => Wanted(o, q), p); }
  }

  /** Adding located entries to located ones. */
  lemma BatchLocated(keys: set<string>, m: ManifestState, common: seq<Package>, preserveVersions: bool)
    requires AddCommon(m, common, preserveVersions).Some?
    requires AllLocated(keys, m.packages) && AllLocated(keys, common)
    ensures AllLocated(keys, AddCommon(m, common, preserveVersions).value.packages)
    ensures SlotOf(AddCommon(m, common, preserveVersions).value) == SlotOf(m)
    ensures AddCommon(m, common, preserveVersions).value.files == m.files
  {
    AddCommonPending(m, common, preserveVersions);
    forall p | p in AddCommon(m, common, preserveVersions).value.packages ensures LocatedIn(keys, p) {
      AddCommonMembers(m, common, preserveVersions, p);
    }
  }

  ghost predicate ArchitectureNames(architectures: seq<string>)
  {
    forall a :: a in architectures ==> ArchitectureName(a)
  }

  lemma RetainedLocated(keys: set<string>, packages: seq<Package>, o: DeleteOptions)
    requires AllLocated(keys, packages)
    ensures AllLocated(keys, Retained(packages, o.name, o.versions))
  {
    forall p | p in Retained(packages, o.name, o.versions) ensures LocatedIn(keys, p) {
      FilterMembers(packages, q => !Selected(o.name, o.versions, q), p);
    }
  }

  lemma DeleteStep(objects: map<string, Doc>, o: DeleteOptions, r: ReleaseState, changed: seq<ManifestState>, architecture: string)
    requires Whole(objects) && Sensible(DeleteOf(o)) && r.codename == o.codename && ArchitectureName(architecture)
    requires LocatedManifests(PoolKeys(objects), r, changed) && Deleter(objects, o, r.byHash)(changed, architecture).Some?
    ensures LocatedManifests(PoolKeys(objects), r, Deleter(objects, o, r.byHash)(changed, architecture).value)
  {
    var s := Slot(o.codename, o.component, architecture, r.byHash);
    ManifestReadLocated(objects, s, false, true);
    var m := ManifestRead(objects, s, false, true).value;
    RetainedLocated(PoolKeys(objects), m.packages, o);
    LocatedManifest(PoolKeys(objects), r, changed, m.(packages := Retained(m.packages, o.name, o.versions)));
  }

  lemma LocatedManifest(keys: set<string>, r: ReleaseState, ms: seq<ManifestState>, m: ManifestState)
    requires LocatedManifests(keys, r, ms) && Offered(r, m) && AllLocated(keys, m.packages)
    ensures LocatedManifests(keys, r, ms + [m])
  {
  }

  lemma {:induction false} DeleteLocated(objects: map<string, Doc>, o: DeleteOptions, r: ReleaseState, architectures: seq<string>)
    requires Whole(objects) && Sensible(DeleteOf(o)) && r.codename == o.codename && ArchitectureNames(architectures)
    requires Steps([], architectures, Deleter(objects, o, r.byHash)).Some?
    ensures LocatedManifests(PoolKeys(objects), r, Steps([], architectures, Deleter(objects, o, r.byHash)).value)
  {
    if architectures != [] {
      var front, last := architectures[..|architectures| - 1], architectures[|architectures| - 1];
      assert last in architectures;
      DeleteLocated(objects, o, r, front);
      DeleteStep(objects, o, r, Steps([], front, Deleter(objects, o, r.byHash)).value, last);
    }
  }

  lemma TargetsLocated(objects: map<string, Doc>, o: DeleteOptions, r: ReleaseState)
    requires Whole(objects) && Sensible(DeleteOf(o)) && r.codename == o.codename && GoodRelease(r)
    requires DeleteTargets(objects, o, r).Some?
    ensures LocatedManifests(PoolKeys(objects), r, DeleteTargets(objects, o, r).value)
  {
    assert ArchitectureNames(DeletedIn(o, r));
    DeleteLocated(objects, o, r, DeletedIn(o, r));
  }

  lemma DeleteKeeps(before: map<string, Doc>, o: DeleteOptions, h: Hasher, signed: bool, date: string, after: map<string, Doc>, ok: bool)
    requires Whole(before) && GoodHasher(h) && Sensible(DeleteOf(o)) && DeletedEntries(before, o, h, signed, date, after, ok, false)
    ensures Whole(after)
  {
    if ReleaseRead(before, o.codename, o.overrides).Some? {
      var r := ReleaseRead(before, o.codename, o.overrides).value;
      ReleaseReadGood(before, o.codename, o.overrides);
      if DeleteTargets(before, o, r).Some? {
        TargetsLocated(before, o, r);
        PublicationKeeps(before, r, DeleteTargets(before, o, r).value, h, signed, date, after, ok);
      }
    }
  }

  /** A step that keeps each entry or drops it. */
  ghost predicate Keeps(step: (Check, Package) -> Option<Check>)
  {
    forall c: Check, p: Package :: step(c, p).Some? ==> step(c, p).value.retained in {c.retained, c.retained + [p]}
  }

  lemma {:induction false} KeptSubset(packages: seq<Package>, start: Check, step: (Check, Package) -> Option<Check>, p: Package)
    requires Keeps(step) && Steps(start, packages, step).Some? && p in Steps(start, packages, step).value.retained
    ensures p in start.retained || p in packages
  {
    if packages != [] {
      var front, last := packages[..|packages| - 1], packages[|packages| - 1];
      assert packages == front + [last];
      var before := Steps(start, front, step).value;
      assert step(before, last).value.retained in {before.retained, before.retained + [last]};
      if p in before.retained { KeptSubset(front, start, step, p); }
    }
  }

  lemma CheckSubset(objects: map<string, Doc>, o: VerifyOptions, packages: seq<Package>, p: Package)
    requires CheckAll(objects, o, packages).Some? && p in CheckAll(objects, o, packages).value.retained
    ensures p in packages
  {
    KeptSubset(packages, Check([], 0), Checker(objects, o), p);
  }

  lemma VerifyStep(objects: map<string, Doc>, o: VerifyOptions, r: ReleaseState, v: Verification, architecture: string)
    requires Whole(objects) && Sensible(VerifyOf(o)) && r.codename == o.codename && ArchitectureName(architecture)
    requires LocatedManifests(PoolKeys(objects), r, v.changed) && Verifier(objects, o, r.byHash)(v, architecture).Some?
    ensures LocatedManifests(PoolKeys(objects), r, Verifier(objects, o, r.byHash)(v, architecture).value.changed)
  {
    var s := Slot(o.codename, o.component, architecture, r.byHash);
    ManifestReadLocated(objects, s, false, true);
    var m := ManifestRead(objects, s, false, true).value;
    var retained := CheckAll(objects, o, m.packages).value.retained;
    forall p | p in retained ensures LocatedIn(PoolKeys(objects), p) { CheckSubset(objects, o, m.packages, p); }
    LocatedManifest(PoolKeys(objects), r, v.changed, m.(packages := retained));
  }

  lemma {:induction false} VerifyLocated(objects: map<string, Doc>, o: VerifyOptions, r: ReleaseState, architectures: seq<string>)
    requires Whole(objects) && Sensible(VerifyOf(o)) && r.codename == o.codename && ArchitectureNames(architectures)
    requires Steps(Verification([], Counts(0, 0, 0)), architectures, Verifier(objects, o, r.byHash)).Some?
    ensures LocatedManifests(PoolKeys(objects), r, Steps(Verification([], Counts(0, 0, 0)), architectures, Verifier(objects, o, r.byHash)).value.changed)
  {
    if architectures != [] {
      var front, last := architectures[..|architectures| - 1], architectures[|architectures| - 1];
      assert last in architectures;
      VerifyLocated(objects, o, r, front);
      VerifyStep(objects, o, r, Steps(Verification([], Counts(0, 0, 0)), front, Verifier(objects, o, r.byHash)).value, last);
    }
  }

  lemma WholeVerifiable(objects: map<string, Doc>, o: VerifyOptions)
    requires Whole(objects) && Sensible(VerifyOf(o))
    ensures Verifiable(objects, o)
  {
    if ReleaseRead(objects, o.codename, o.overrides).Some? {
      ReleaseReadGood(objects, o.codename, o.overrides);
      var r := ReleaseRead(objects, o.codename, o.overrides).value;
      forall i | 0 <= i < |r.architectures| ensures UsableIndex(objects, o, r.architectures[i]) {
        var s := Slot(o.codename, o.component, r.architectures[i], false);
        IndexKeys(s);
        IndexPathIndex(s);
      }
    }
  }

  lemma VerifyKeeps(before: map<string, Doc>, o: VerifyOptions, h: Hasher, signed: bool, date: string, after: map<string, Doc>,
                    ok: bool, counts: Counts)
    requires Whole(before) && GoodHasher(h) && Sensible(VerifyOf(o)) && Verified(before, o, h, signed, date, after, ok, counts, false)
    ensures Whole(after)
  {
    if ReleaseRead(before, o.codename, o.overrides).Some? {
      var r := ReleaseRead(before, o.codename, o.overrides).value;
      ReleaseReadGood(before, o.codename, o.overrides);
      if VerifyAll(before, o, r).Some? {
        var changed := VerifyAll(before, o, r).value.changed;
        VerifyLocated(before, o, r, r.architectures);
        if changed != [] {
          PublicationKeeps(before, r, changed, h, signed, date, after, ok);
        } else if signed {
          ReleasePlanSafe(PoolKeys(before), r, h, signed, date);
          PartKeeps(before, PoolKeys(before), ReleasePlan(r, h, signed, date), after, ok);
        }
      }
    }
  }
}
