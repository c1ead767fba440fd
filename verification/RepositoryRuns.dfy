/** Uploads and cleaning keep the store whole; so does every run of commands. */
module RepositoryRuns {
  import opened Text
  import opened Paths
  import opened Keys
  import opened Packages
  import opened Documents
  import opened IndexText
  import opened Stores
  import opened Manifests
  import opened Publication
  import opened Retrieval
  import opened Uploading
  import opened FanOutProperties
  import opened Cleaning
  import opened GarbageCollection
  import opened Layout
  import opened Agreement
  import opened NoDangling
  import opened CommandRuns
  import Managing
  import Maintaining

  // ------------------------------------------------------------ sources of an upload

  lemma OpenSourced(objects: map<string, Doc>, o: UploadOptions, r: ReleaseState, ordered: seq<ManifestState>, architecture: string)
    requires Whole(objects) && Name(o.codename) && ComponentName(o.component) && !o.skipPackageUpload && r.codename == o.codename
    requires ArchitectureName(architecture) && AllSourced(PoolKeys(objects), r, ordered)
    requires Open(objects, o, r.byHash, ordered, architecture).Some?
    ensures AllSourced(PoolKeys(objects), r, Open(objects, o, r.byHash, ordered, architecture).value)
  {
    if Position(ordered, architecture) == |ordered| {
      ManifestReadLocated(objects, Slot(o.codename, o.component, architecture, r.byHash), o.failIfExists, o.skipPackageUpload);
    }
  }

  lemma {:induction false} OpenAllSourced(objects: map<string, Doc>, o: UploadOptions, r: ReleaseState, ordered: seq<ManifestState>,
                                          architectures: seq<string>)
    requires Whole(objects) && Name(o.codename) && ComponentName(o.component) && !o.skipPackageUpload && r.codename == o.codename
    requires ArchitectureNames(architectures) && AllSourced(PoolKeys(objects), r, ordered)
    requires OpenAll(objects, o, r.byHash, ordered, architectures).Some?
    ensures AllSourced(PoolKeys(objects), r, OpenAll(objects, o, r.byHash, ordered, architectures).value)
    decreases |architectures|
  {
    if architectures != [] {
      var front, last := architectures[..|architectures| - 1], architectures[|architectures| - 1];
      assert last in architectures;
      OpenAllSourced(objects, o, r, ordered, front);
      OpenSourced(objects, o, r, OpenAll(objects, o, r.byHash, ordered, front).value, last);
    }
  }

  lemma SeedNames(r: ReleaseState)
    requires GoodRelease(r)
    ensures ArchitectureNames(SeedArchitectures(r))
  {
  }

  lemma OpenedSourced(objects: map<string, Doc>, o: UploadOptions, r: ReleaseState, ordered: seq<ManifestState>, architecture: string)
    requires Whole(objects) && Name(o.codename) && ComponentName(o.component) && !o.skipPackageUpload && r.codename == o.codename
    requires GoodRelease(r) && ArchitectureName(architecture) && AllSourced(PoolKeys(objects), r, ordered)
    requires OpenedFor(objects, o, r, ordered, architecture).Some?
    ensures AllSourced(PoolKeys(objects), r, OpenedFor(objects, o, r, ordered, architecture).value)
  {
    if architecture == "all" && |ordered| == 0 {
      SeedNames(r);
      OpenAllSourced(objects, o, r, ordered, SeedArchitectures(r));
      OpenSourced(objects, o, r, OpenAll(objects, o, r.byHash, ordered, SeedArchitectures(r)).value, architecture);
    } else {
      OpenSourced(objects, o, r, ordered, architecture);
    }
  }

  lemma AddedSourced(keys: set<string>, r: ReleaseState, m: ManifestState, p: Package, preserveVersions: bool)
    requires Sourced(keys, r, m) && SensiblePackage(p, r.codename) && AddTo(m, p, preserveVersions, true).Ok?
    ensures Sourced(keys, r, AddTo(m, p, preserveVersions, true).value)
  {
    var added := AddTo(m, p, preserveVersions, true).value;
    forall q | q in added.packages ensures LocatedIn(keys, q) || q in added.pendingUploads {
      AddMembers(m.packages, p, preserveVersions, q);
    }
  }

  lemma PlaceSourced(objects: map<string, Doc>, o: UploadOptions, r: ReleaseState, fan: Fan, p: Package)
    requires Whole(objects) && Name(o.codename) && ComponentName(o.component) && !o.skipPackageUpload && r.codename == o.codename
    requires o.architecture.Some? ==> ArchitectureName(o.architecture.value)
    requires GoodRelease(r) && AllSourced(PoolKeys(objects), r, fan.ordered) && SensiblePackage(p, o.codename)
    requires PlaceOne(objects, o, r, fan, p).Some?
    ensures AllSourced(PoolKeys(objects), r, PlaceOne(objects, o, r, fan, p).value.ordered)
  {
    var a := PlacedIn(o, p).value;
    OpenedSourced(objects, o, r, fan.ordered, a);
    var ready := OpenedFor(objects, o, r, fan.ordered, a).value;
    AddedSourced(PoolKeys(objects), r, ready[Position(ready, a)], p, o.preserveVersions);
  }

  lemma {:induction false} PlaceAllSourced(objects: map<string, Doc>, o: UploadOptions, r: ReleaseState, inspected: seq<Option<Package>>,
                                           disk: map<string, string>)
    requires Whole(objects) && Sensible(UploadOf(o, inspected, disk)) && r.codename == o.codename && GoodRelease(r)
    requires PlaceAll(objects, o, r, inspected).Some?
    ensures AllSourced(PoolKeys(objects), r, PlaceAll(objects, o, r, inspected).value.ordered)
  {
    if inspected == [] {
      OpenAllSourced(objects, o, r, [], r.architectures);
    } else {
      var front, last := inspected[..|inspected| - 1], inspected[|inspected| - 1];
      assert last in inspected;
      PlaceAllSourced(objects, o, r, front, disk);
      PlaceSourced(objects, o, r, PlaceAll(objects, o, r, front).value, last.value);
    }
  }

  /** A package's entry is located already, or its body is pending in one of the manifests. */
  ghost predicate SourcedBy(keys: set<string>, ms: seq<ManifestState>, p: Package)
  {
    LocatedIn(keys, p) || exists j :: 0 <= j < |ms| && p in ms[j].pendingUploads
  }

  lemma UploadOffered(objects: map<string, Doc>, o: UploadOptions, r: ReleaseState, inspected: seq<Option<Package>>,
                      disk: map<string, string>, i: nat)
    requires Whole(objects) && Sensible(UploadOf(o, inspected, disk)) && r.codename == o.codename && GoodRelease(r)
    requires UploadManifests(objects, o, r, inspected).Some? && i < |UploadManifests(objects, o, r, inspected).value|
    ensures var m := UploadManifests(objects, o, r, inspected).value[i];
            Offered(r, m) && !m.skipPackageUpload && PendingSensible(m)
  {
    PlaceAllSourced(objects, o, r, inspected, disk);
    var fan := PlaceAll(objects, o, r, inspected).value;
    PropagatedLength(fan.ordered, fan.common, o.preserveVersions);
    PropagatedAt(fan.ordered, fan.common, o.preserveVersions, i);
    assert Sourced(PoolKeys(objects), r, fan.ordered[i]);
    if fan.ordered[i].architecture != "all" { AddCommonPending(fan.ordered[i], fan.common, o.preserveVersions); }
  }

  lemma UploadSourced(objects: map<string, Doc>, o: UploadOptions, r: ReleaseState, inspected: seq<Option<Package>>,
                      disk: map<string, string>, i: nat, p: Package)
    requires Whole(objects) && Sensible(UploadOf(o, inspected, disk)) && r.codename == o.codename && GoodRelease(r)
    requires UploadManifests(objects, o, r, inspected).Some? && i < |UploadManifests(objects, o, r, inspected).value|
    requires p in UploadManifests(objects, o, r, inspected).value[i].packages
    ensures SourcedBy(PoolKeys(objects), UploadManifests(objects, o, r, inspected).value, p)
  {
    PlaceAllSourced(objects, o, r, inspected, disk);
    var fan := PlaceAll(objects, o, r, inspected).value;
    var ms := UploadManifests(objects, o, r, inspected).value;
    PropagatedLength(fan.ordered, fan.common, o.preserveVersions);
    PropagatedAt(fan.ordered, fan.common, o.preserveVersions, i);
    var m := fan.ordered[i];
    assert Sourced(PoolKeys(objects), r, m);
    if m.architecture != "all" { AddCommonPending(m, fan.common, o.preserveVersions); }
    if !LocatedIn(PoolKeys(objects), p) && p !in m.pendingUploads {
      AddCommonMembers(m, fan.common, o.preserveVersions, p);
      CommonPending(objects, o, r, inspected, p);
    }
  }

  /** Every architecture-independent package of an upload is pending in the manifest "all". */
  lemma CommonPending(objects: map<string, Doc>, o: UploadOptions, r: ReleaseState, inspected: seq<Option<Package>>, p: Package)
    requires UploadManifests(objects, o, r, inspected).Some? && p in PlaceAll(objects, o, r, inspected).value.common
    ensures var ms := UploadManifests(objects, o, r, inspected).value; exists j :: 0 <= j < |ms| && p in ms[j].pendingUploads
  {
    PlaceAllKeeps(objects, o, r, inspected);
    var fan := PlaceAll(objects, o, r, inspected).value;
    var ms := UploadManifests(objects, o, r, inspected).value;
    var j := Position(fan.ordered, "all");
    KeptByPropagation(fan, o.preserveVersions, j);
    assert p in ms[j].pendingUploads;
  }

  // ------------------------------------------------------------------- package bodies

  /** The derived location of an inspected package lies in the pool. */
  lemma DerivedInPool(p: Package, codename: string)
    requires Inspected(p) && RepositoryFilename(p, codename).Ok?
    ensures var key := RepositoryFilename(p, codename).value;
            Named(key).Some? ==> Named(key) == Some(key) && PoolName(key)
  {
    var key := RepositoryFilename(p, codename).value;
    PoolHead(key);
  }

  lemma PoolHead(key: string)
    requires HasPrefix(key, "pool/")
    ensures PoolName(key)
  {
    SplitConcat("pool", key[5..], '/');
    assert key == "pool/" + key[5..] && "pool/" == "pool" + ['/'];
    SplitWhole("pool", '/');
  }

  lemma BodyOfInspected(m: ManifestState, p: Package, disk: map<string, string>)
    requires Inspected(p) && BodyWrite(m, p, disk).Some?
    ensures BodyPut(BodyWrite(m, p, disk).value)
    ensures BodyWrite(m, p, disk).value.key == RepositoryFilename(p, m.codename).value
  {
    DerivedInPool(p, m.codename);
  }

  lemma {:induction false} BodyWritesBodies(m: ManifestState, pending: seq<Package>, disk: map<string, string>)
    requires forall p :: p in pending ==> Inspected(p)
    ensures AllBodies(BodyWrites(m, pending, disk).0)
  {
    if pending != [] {
      var front, last := pending[..|pending| - 1], pending[|pending| - 1];
      assert last in pending;
      BodyWritesBodies(m, front, disk);
      if BodyWrite(m, last, disk).Some? { BodyOfInspected(m, last, disk); }
    }
  }

  lemma {:induction false} PoolWritesBodies(ms: seq<ManifestState>, disk: map<string, string>)
    requires AllPendingInspected(ms)
    ensures AllBodies(PoolWrites(ms, disk).0)
  {
    if ms != [] {
      PoolWritesBodies(ms[..|ms| - 1], disk);
      var last := ms[|ms| - 1];
      assert PendingInspected(last);
      BodyWritesBodies(last, last.pendingUploads, disk);
    }
  }

  lemma {:induction false} BodyWritten(m: ManifestState, pending: seq<Package>, disk: map<string, string>, p: Package)
    requires BodyWrites(m, pending, disk).1 && p in pending
    ensures BodyWrite(m, p, disk).Some? && BodyWrite(m, p, disk).value in BodyWrites(m, pending, disk).0
  {
    var front, last := pending[..|pending| - 1], pending[|pending| - 1];
    assert pending == front + [last];
    if p in front { BodyWritten(m, front, disk, p); }
  }

  lemma {:induction false} PoolWritten(ms: seq<ManifestState>, disk: map<string, string>, j: nat, p: Package)
    requires PoolWrites(ms, disk).1 && j < |ms| && !ms[j].skipPackageUpload && p in ms[j].pendingUploads
    ensures BodyWrite(ms[j], p, disk).Some? && BodyWrite(ms[j], p, disk).value in PoolWrites(ms, disk).0
    decreases |ms|
  {
    if j == |ms| - 1 {
      BodyWritten(ms[j], ms[j].pendingUploads, disk, p);
    } else {
      PoolWritten(ms[..|ms| - 1], disk, j, p);
    }
  }

  lemma {:induction false} AcceptedNamed(objects: map<string, Doc>, writes: seq<Write>, i: nat)
    requires AllAccepted(objects, writes) && i < |writes|
    ensures Named(writes[i].key).Some?
    decreases |writes|
  {
    if i > 0 { AcceptedNamed(Effect(objects, writes[0]), writes[1..], i - 1); }
  }

  /** Once the bodies are accepted, each pending package can be published. */
  lemma PendingPlaceable(objects: map<string, Doc>, ms: seq<ManifestState>, disk: map<string, string>, keys: set<string>, j: nat, p: Package)
    requires PoolWrites(ms, disk).1 && AllAccepted(objects, PoolWrites(ms, disk).0)
    requires j < |ms| && !ms[j].skipPackageUpload && PendingSensible(ms[j]) && p in ms[j].pendingUploads
    ensures Placeable(keys + BodyKeys(PoolWrites(ms, disk).0), p, ms[j].codename)
  {
    PoolWritten(ms, disk, j, p);
    var pool := PoolWrites(ms, disk).0;
    var i :| 0 <= i < |pool| && pool[i] == BodyWrite(ms[j], p, disk).value;
    AcceptedNamed(objects, pool, i);
    BodyKeysMembers(pool, i);
    BodyOfInspected(ms[j], p, disk);
    DerivedInPool(p, ms[j].codename);
  }

  // ------------------------------------------------------------------------- uploads

  /** What is needed of an upload's manifests. */
  ghost predicate UploadReady(keys: set<string>, r: ReleaseState, ms: seq<ManifestState>)
  {
    && GoodRelease(r)
    && (forall i :: 0 <= i < |ms| ==> Offered(r, ms[i]) && !ms[i].skipPackageUpload && PendingSensible(ms[i]))
    && (forall i, p :: 0 <= i < |ms| && p in ms[i].packages ==> SourcedBy(keys, ms, p))
  }

  lemma ReadyPlaceable(objects: map<string, Doc>, keys: set<string>, r: ReleaseState, ms: seq<ManifestState>, disk: map<string, string>, p: Package)
    requires UploadReady(keys, r, ms) && PoolWrites(ms, disk).1 && AllAccepted(objects, PoolWrites(ms, disk).0)
    requires SourcedBy(keys, ms, p)
    ensures Placeable(keys + BodyKeys(PoolWrites(ms, disk).0), p, r.codename)
  {
    if LocatedIn(keys, p) {
    } else {
      var j :| 0 <= j < |ms| && p in ms[j].pendingUploads;
      PendingPlaceable(objects, ms, disk, keys, j, p);
    }
  }

  lemma UploadRest(before: map<string, Doc>, r: ReleaseState, ms: seq<ManifestState>, disk: map<string, string>, h: Hasher,
                   signed: bool, date: string, k: nat)
    requires Whole(before) && GoodHasher(h) && UploadReady(PoolKeys(before), r, ms) && Closure(r, ms, h).Ok?
    requires PoolWrites(ms, disk).1 && AllAccepted(before, PoolWrites(ms, disk).0)
    requires var (closed, ps) := Closure(r, ms, h).value;
             k <= |PoolWrites(ms, disk).0 + PublishPlan(closed, ps, h, signed, date)|
    ensures var (closed, ps) := Closure(r, ms, h).value;
            Whole(Run(before, (PoolWrites(ms, disk).0 + PublishPlan(closed, ps, h, signed, date))[..k]))
  {
    var keys, pool := PoolKeys(before), PoolWrites(ms, disk).0;
    var (closed, ps) := Closure(r, ms, h).value;
    forall i, p | 0 <= i < |ms| && p in ms[i].packages ensures Placeable(keys + BodyKeys(pool), p, r.codename) {
      ReadyPlaceable(before, keys, r, ms, disk, p);
    }
    ClosureIndices(keys + BodyKeys(pool), r, ms, h);
    PublishPlanSafe(keys + BodyKeys(pool), closed, ps, h, signed, date);
    PoolWritesBodies(ms, disk);
    PlanKeepsWhole(before, keys, pool, PublishPlan(closed, ps, h, signed, date), k);
  }

  lemma AcceptedStart(objects: map<string, Doc>, a: seq<Write>, b: seq<Write>, k: nat)
    requires |a| <= k <= |a + b| && AllAccepted(objects, (a + b)[..k])
    ensures AllAccepted(objects, a)
  {
    assert (a + b)[..k] == a + b[..k - |a|];
    RunConcat(objects, a, b[..k - |a|]);
  }

  lemma UploadPartKeeps(before: map<string, Doc>, r: ReleaseState, ms: seq<ManifestState>, disk: map<string, string>, h: Hasher,
                        signed: bool, date: string, after: map<string, Doc>, ok: bool)
    requires Whole(before) && GoodHasher(h) && UploadReady(PoolKeys(before), r, ms)
    requires UploadedManifests(before, r, ms, disk, h, signed, date, after, ok, false)
    ensures Whole(after)
  {
    if Closure(r, ms, h).Ok? {
      var (closed, ps) := Closure(r, ms, h).value;
      var (pool, whole) := PoolWrites(ms, disk);
      PoolWritesBodies(ms, disk);
      var rest := if whole then PublishPlan(closed, ps, h, signed, date) else [];
      assert whole ==> UploadPlan(ms, disk, closed, ps, h, signed, date) == (pool + rest, true);
      assert !whole ==> pool + rest == pool;
      var k: nat :| Reached(before, pool + rest, k, after);
      if k <= |pool| {
        BodiesPart(before, PoolKeys(before), pool, rest, k);
      } else {
        AcceptedStart(before, pool, rest, k);
        UploadRest(before, r, ms, disk, h, signed, date, k);
      }
    }
  }

  lemma UploadKeeps(before: map<string, Doc>, o: UploadOptions, inspected: seq<Option<Package>>, disk: map<string, string>, h: Hasher,
                    signed: bool, date: string, after: map<string, Doc>, ok: bool)
    requires Whole(before) && GoodHasher(h) && Sensible(UploadOf(o, inspected, disk))
    requires Uploaded(before, o, inspected, disk, h, signed, date, after, ok, false)
    ensures Whole(after)
  {
    if ReleaseRead(before, o.codename, o.overrides).Some? {
      var r := ReleaseRead(before, o.codename, o.overrides).value;
      ReleaseReadGood(before, o.codename, o.overrides);
      if UploadManifests(before, o, r, inspected).Some? {
        UploadIsReady(before, o, r, inspected, disk);
        UploadPartKeeps(before, r, UploadManifests(before, o, r, inspected).value, disk, h, signed, date, after, ok);
      }
    }
  }

  lemma UploadIsReady(objects: map<string, Doc>, o: UploadOptions, r: ReleaseState, inspected: seq<Option<Package>>, disk: map<string, string>)
    requires Whole(objects) && Sensible(UploadOf(o, inspected, disk)) && r.codename == o.codename && GoodRelease(r)
    requires UploadManifests(objects, o, r, inspected).Some?
    ensures UploadReady(PoolKeys(objects), r, UploadManifests(objects, o, r, inspected).value)
  {
    var ms := UploadManifests(objects, o, r, inspected).value;
    forall i | 0 <= i < |ms| ensures Offered(r, ms[i]) && !ms[i].skipPackageUpload && PendingSensible(ms[i]) {
      UploadOffered(objects, o, r, inspected, disk, i);
    }
    forall i, p | 0 <= i < |ms| && p in ms[i].packages ensures SourcedBy(PoolKeys(objects), ms, p) {
      UploadSourced(objects, o, r, inspected, disk, i, p);
    }
  }

  // ------------------------------------------------------------------------- cleaning

  /** A sweep's victims are pool objects, so it leaves indices and Releases alone. */
  lemma VictimsInPool(objects: map<string, Doc>, directory: string, victims: seq<string>, v: string)
    requires Lists(victims, Unreferenced(objects, directory)) && HasPrefix(directory, "pool/") && v in victims
    ensures PoolName(v)
  {
    assert v[..5] == "pool/" by { assert (directory + "/")[..5] == directory[..5]; }
    PoolHead(v);
  }

  /** What a part of a sweep leaves of the store. */
  lemma SweptObjects(before: map<string, Doc>, victims: seq<string>, k: nat)
    requires k <= |victims|
    ensures var after := Run(before, Deletes(victims)[..k]);
            forall key :: key in after ==> key in before && after[key] == before[key]
  {
    DeletesPrefix(victims, k);
    assert Deletes(victims)[..k] == Deletes(victims[..k]);
    DeletesRun(before, victims[..k]);
  }

  lemma SweptEntries(before: map<string, Doc>, directory: string, victims: seq<string>, k: nat, key: string)
    requires Whole(before) && Lists(victims, Unreferenced(before, directory)) && k <= |victims|
    requires key in before && IndexKey(key)
    ensures LocatedDoc(Run(before, Deletes(victims)[..k]).Keys, before[key])
  {
    var after := Run(before, Deletes(victims)[..k]);
    forall p | p in Entries(before[key]).value ensures LocatedIn(after.Keys, p) {
      SweptEntry(before, directory, victims, k, key, p);
    }
  }

  lemma SweptEntry(before: map<string, Doc>, directory: string, victims: seq<string>, k: nat, key: string, p: Package)
    requires Whole(before) && Lists(victims, Unreferenced(before, directory)) && k <= |victims|
    requires key in before && IndexKey(key) && p in Entries(before[key]).value
    ensures LocatedIn(Run(before, Deletes(victims)[..k]).Keys, p)
  {
    EntryRefers(before, key, p);
    var named := Named(p.indexFilename.value).value;
    forall v | v in victims ensures Named(v) == Some(v) { PlainVictim(before, directory, victims, v); }
    ReferencedSurvives(before, directory, victims, k, named);
  }

  lemma EntryRefers(before: map<string, Doc>, key: string, p: Package)
    requires Whole(before) && key in before && IndexKey(key) && p in Entries(before[key]).value
    ensures LocatedIn(before.Keys, p) && Referenced(before, Named(p.indexFilename.value).value)
  {
    assert LocatedDoc(before.Keys, before[key]);
    assert LocatedIn(before.Keys, p);
    assert ReferencedKey(p) == Some(Named(p.indexFilename.value).value);
    assert RefersTo(before[key], Named(p.indexFilename.value).value);
  }

  lemma PlainVictim(before: map<string, Doc>, directory: string, victims: seq<string>, v: string)
    requires PlainKeys(before) && Lists(victims, Unreferenced(before, directory)) && v in victims
    ensures v in Unreferenced(before, directory) && Named(v) == Some(v)
  {
    assert v in before;
  }

  lemma SweepKeeps(before: map<string, Doc>, directory: string, victims: seq<string>, k: nat)
    requires Whole(before) && Lists(victims, Unreferenced(before, directory)) && k <= |victims|
    ensures Whole(Run(before, Deletes(victims)[..k]))
  {
    var after := Run(before, Deletes(victims)[..k]);
    SweptObjects(before, victims, k);
    forall i | i in after && IndexKey(i) ensures LocatedDoc(after.Keys, after[i]) {
      SweptEntries(before, directory, victims, k, i);
    }
  }

  /** A whole store is one that cleaning works on: keys are clean, indices parse and all their entries resolve. */
  lemma WholeTidy(objects: map<string, Doc>)
    requires Whole(objects)
    ensures Tidy(objects) && Readable(objects)
  {
    forall k | k in objects && IndexKey(k) ensures ReadableDoc(objects[k]) {
      forall p | p in Entries(objects[k]).value ensures ReferencedKey(p).Some? {
        assert LocatedIn(objects.Keys, p);
      }
    }
  }

  lemma CleanKeeps(before: map<string, Doc>, codename: string, after: map<string, Doc>, outcome: CleanOutcome, deleted: seq<string>)
    requires Whole(before) && Cleaned(before, codename, after, outcome, deleted, false)
    ensures Whole(after)
  {
    if !outcome.Refused? {
      var directory := Scope(codename).value;
      var victims: seq<string> :| Swept(before, directory, victims, after, outcome.Finished?, deleted, false);
      var k: nat :| Reached(before, Deletes(victims), k, after);
      SweepKeeps(before, directory, victims, k);
    }
  }

  // ------------------------------------------------------------------------- any run

  /** No command leaves a dangling index, wherever it stops. */
  lemma CommandKeepsWhole(before: map<string, Doc>, c: Command, h: Hasher, signed: bool, date: string, after: map<string, Doc>)
    requires Whole(before) && GoodHasher(h) && Sensible(c) && Happens(before, c, h, signed, date, after)
    ensures Whole(after)
  {
    match c {
      case UploadOf(o, inspected, disk) =>
        var ok :| Uploaded(before, o, inspected, disk, h, signed, date, after, ok, false);
        UploadKeeps(before, o, inspected, disk, h, signed, date, after, ok);
      case CopyOf(o) =>
        var ok :| Managing.Copied(before, o, h, signed, date, after, ok, false);
        CopyKeeps(before, o, h, signed, date, after, ok);
      case DeleteOf(o) =>
        var ok :| Managing.DeletedEntries(before, o, h, signed, date, after, ok, false);
        DeleteKeeps(before, o, h, signed, date, after, ok);
      case VerifyOf(o) =>
        WholeVerifiable(before, o);
        var ok, counts :| Maintaining.Verified(before, o, h, signed, date, after, ok, counts, false);
        VerifyKeeps(before, o, h, signed, date, after, ok, counts);
      case CleanOf(codename) =>
        WholeTidy(before);
        var outcome, deleted :| Cleaned(before, codename, after, outcome, deleted, false);
        CleanKeeps(before, codename, after, outcome, deleted);
    }
  }

  datatype Doing = Doing(command: Command, signed: bool, date: string)

  ghost predicate Did(h: Hasher, before: map<string, Doc>, d: Doing, after: map<string, Doc>)
  {
    Sensible(d.command) && Happens(before, d.command, h, d.signed, d.date, after)
  }

  lemma DoingKeepsWhole(h: Hasher, before: map<string, Doc>, d: Doing, after: map<string, Doc>)
    requires Whole(before) && GoodHasher(h) && Did(h, before, d, after)
    ensures Whole(after)
  {
    CommandKeepsWhole(before, d.command, h, d.signed, d.date, after);
  }

  ghost predicate Sequence(h: Hasher, states: seq<map<string, Doc>>, done: seq<Doing>)
  {
    && |states| == |done| + 1
    && forall i :: 0 <= i < |done| ==> Did(h, states[i], done[i], states[i + 1])
  }

  lemma SequenceAt(h: Hasher, states: seq<map<string, Doc>>, done: seq<Doing>, i: nat)
    requires Sequence(h, states, done) && i < |done|
    ensures Did(h, states[i], done[i], states[i + 1])
  {
  }

  /**
   In every run of commands, each finished or stopped after any store write, every
   entry of every stored Packages index names a pool object that is there.
   */
  lemma {:induction false} NothingDangles(h: Hasher, states: seq<map<string, Doc>>, done: seq<Doing>, i: nat, k: string, p: Package)
    requires GoodHasher(h) && Sequence(h, states, done) && Whole(states[0]) && i < |states|
    requires k in states[i] && IndexKey(k)
    ensures Whole(states[i]) && Entries(states[i][k]).Some?
    ensures p in Entries(states[i][k]).value ==>
              && p.indexFilename.Some? && Named(p.indexFilename.value).Some?
              && Named(p.indexFilename.value).value in states[i]
  {
    WholeRun(h, states, done, i);
    if p in Entries(states[i][k]).value { assert LocatedIn(states[i].Keys, p); }
  }

  lemma {:induction false} WholeRun(h: Hasher, states: seq<map<string, Doc>>, done: seq<Doing>, i: nat)
    requires GoodHasher(h) && Sequence(h, states, done) && Whole(states[0]) && i < |states|
    ensures Whole(states[i])
  {
    if i > 0 {
      WholeRun(h, states, done, i - 1);
      SequenceAt(h, states, done, i - 1);
      DoingKeepsWhole(h, states[i - 1], done[i - 1], states[i]);
    }
  }
}
