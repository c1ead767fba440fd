/** Without faults, commands whose arguments are usable succeed, and only those. */
module Progress {
  import opened Text
  import opened Paths
  import opened Keys
  import opened Packages
  import opened PackageCodec
  import opened Documents
  import opened IndexText
  import opened ManifestCodec
  import opened Stores
  import opened Manifests
  import opened Publication
  import opened Retrieval
  import opened Uploading
  import opened FanOutProperties
  import opened Managing
  import opened Maintaining
  import opened Layout
  import opened Agreement
  import opened Currency
  import opened ByHashSafety
  import opened ByHashPlans
  import opened NoDangling
  import opened CommandRuns
  import opened RepositoryRuns
  import opened CommandPlans
  import opened Survival
  import opened IndexContents
  import opened Copies
  import opened Deletions
  import opened Bodies
  import Uploads

  // --------------------------------------------------------------- accepted writes

  /** A write that a content-addressed store accepts: by-hash objects are put under their own digest, others replace. */
  ghost predicate Welcome(codename: string, w: Write, h: Hasher)
  {
    && Named(w.key).Some?
    && (if HashKey(codename, Named(w.key).value)
        then w.Put? && Split(Named(w.key).value, '/')[6] == h(w.doc).sha256
        else w.Put? ==> w.options == REPLACE)
  }

  ghost predicate AllWelcome(codename: string, writes: seq<Write>, h: Hasher)
  {
    forall i :: 0 <= i < |writes| ==> Welcome(codename, writes[i], h)
  }

  lemma WelcomeAccepted(codename: string, objects: map<string, Doc>, w: Write, h: Hasher)
    requires GoodHasher(h) && ContentAddressed(codename, objects, h) && Welcome(codename, w, h)
    ensures Accepted(objects, w) && ContentAddressed(codename, Effect(objects, w), h)
  {
  }

  lemma {:induction false} AllWelcomeAccepted(codename: string, objects: map<string, Doc>, writes: seq<Write>, h: Hasher)
    requires GoodHasher(h) && ContentAddressed(codename, objects, h) && AllWelcome(codename, writes, h)
    ensures AllAccepted(objects, writes)
    decreases |writes|
  {
    if writes != [] {
      assert Welcome(codename, writes[0], h);
      WelcomeAccepted(codename, objects, writes[0], h);
      AllWelcomeAccepted(codename, Effect(objects, writes[0]), writes[1..], h);
    }
  }

  lemma HashWelcome(s: Slot, h: Hasher, doc: Doc)
    requires GoodHasher(h) && GoodSlot(s)
    ensures Welcome(s.codename, Put(ByHashPath(IndexPath(s), h(doc).sha256), doc, IMMUTABLE), h)
    ensures Welcome(s.codename, Put(ByHashPath(IndexPath(s) + ".gz", h(doc).sha256), doc, IMMUTABLE), h)
  {
    HashKeyOf(s.codename, s, h(doc).sha256);
  }

  lemma CanonicalWelcome(codename: string, p: Prepared, h: Hasher)
    requires GoodSlot(p.slot)
    ensures AllWelcome(codename, CanonicalWrites(p), h)
  {
    IndexKeys(p.slot);
  }

  lemma ByHashWelcome(p: Prepared, h: Hasher)
    requires GoodHasher(h) && GoodSlot(p.slot)
    ensures AllWelcome(p.slot.codename, ByHashWrites(p, h), h)
  {
    HashWelcome(p.slot, h, p.index);
    HashWelcome(p.slot, h, Gzip(p.index));
  }

  lemma {:induction false} IndicesWelcome(r: ReleaseState, ps: seq<Prepared>, h: Hasher)
    requires GoodHasher(h) && forall i :: 0 <= i < |ps| ==> OfRelease(r, ps[i].slot)
    ensures AllWelcome(r.codename, AllByHash(ps, h), h) && AllWelcome(r.codename, AllCanonical(ps), h)
  {
    if ps != [] {
      assert OfRelease(r, ps[|ps| - 1].slot);
      IndicesWelcome(r, ps[..|ps| - 1], h);
      ByHashWelcome(ps[|ps| - 1], h);
      CanonicalWelcome(r.codename, ps[|ps| - 1], h);
    }
  }

  lemma FinalWelcome(r: ReleaseState, signed: bool, date: string, h: Hasher)
    requires Name(r.codename)
    ensures AllWelcome(r.codename, FinalWrites(r, signed, date), h)
  {
    ReleaseKeys(r.codename);
    InReleaseKeys(r.codename);
  }

  lemma PublicationWelcome(r: ReleaseState, ms: seq<ManifestState>, h: Hasher, signed: bool, date: string)
    requires GoodHasher(h) && GoodRelease(r) && AllOffered(r, ms) && Closure(r, ms, h).Ok?
    ensures var (closed, ps) := Closure(r, ms, h).value; AllWelcome(r.codename, PublishPlan(closed, ps, h, signed, date), h)
  {
    var (closed, ps) := Closure(r, ms, h).value;
    ClosureShape(r, ms, h);
    NothingLeft(closed, h, signed, date);
    IndicesWelcome(r, ps, h);
    FinalWelcome(closed, signed, date, h);
    AllThree(r.codename, AllByHash(ps, h), AllCanonical(ps), FinalWrites(closed, signed, date), h);
  }

  lemma AllThree(codename: string, a: seq<Write>, b: seq<Write>, c: seq<Write>, h: Hasher)
    requires AllWelcome(codename, a, h) && AllWelcome(codename, b, h) && AllWelcome(codename, c, h)
    ensures AllWelcome(codename, a + (b + c), h)
  {
  }

  /** A store whose by-hash objects are named by their digests accepts every publication of the codename. */
  lemma PublicationAccepted(objects: map<string, Doc>, r: ReleaseState, ms: seq<ManifestState>, h: Hasher, signed: bool, date: string)
    requires GoodHasher(h) && GoodRelease(r) && AllOffered(r, ms) && Closure(r, ms, h).Ok? && ContentAddressed(r.codename, objects, h)
    ensures var (closed, ps) := Closure(r, ms, h).value; AllAccepted(objects, PublishPlan(closed, ps, h, signed, date))
  {
    var (closed, ps) := Closure(r, ms, h).value;
    PublicationWelcome(r, ms, h, signed, date);
    AllWelcomeAccepted(r.codename, objects, PublishPlan(closed, ps, h, signed, date), h);
  }

  // --------------------------------------------------------------------- publishing

  lemma {:induction false} PrepareSucceeds(r: ReleaseState, ms: seq<ManifestState>, h: Hasher)
    requires forall i :: 0 <= i < |ms| ==> BuildIndex(ms[i]).Ok?
    ensures Prepare(r, ms, h).Ok?
  {
    if ms != [] { PrepareSucceeds(r, ms[..|ms| - 1], h); }
  }

  lemma IndexBuilds(m: ManifestState)
    requires AllIndexable(m.packages, m.codename)
    ensures BuildIndex(m).Ok?
  {
    IndexRoundTrip(m.packages, m.codename);
  }

  /** Located manifests are published without fail. */
  lemma LocatedPublished(before: map<string, Doc>, r: ReleaseState, ms: seq<ManifestState>, h: Hasher, signed: bool, date: string,
                         after: map<string, Doc>, ok: bool, keys: set<string>)
    requires GoodHasher(h) && GoodRelease(r) && ContentAddressed(r.codename, before, h) && LocatedManifests(keys, r, ms)
    requires ManifestsPublished(before, r, ms, h, signed, date, after, ok, true)
    ensures ok
  {
    forall i | 0 <= i < |ms| ensures BuildIndex(ms[i]).Ok? {
      assert Offered(r, ms[i]) && AllLocated(keys, ms[i].packages);
      LocatedPlaces(keys, ms[i].packages, ms[i].codename);
      IndexBuilds(ms[i]);
    }
    PrepareSucceeds(r, ms, h);
    assert AllOffered(r, ms);
    PublicationAccepted(before, r, ms, h, signed, date);
  }

  lemma ReleaseFound(objects: map<string, Doc>, codename: string, o: Overrides)
    requires Name(codename)
    ensures ReleaseRead(objects, codename, o).Some?
  {
    ReleaseKeys(codename);
  }

  /** A copy from and to whole indices succeeds exactly when some entry is asked for, if existing entries may be replaced. */
  lemma CopySucceeds(before: map<string, Doc>, o: CopyOptions, h: Hasher, signed: bool, date: string, after: map<string, Doc>, ok: bool)
    requires Whole(before) && GoodHasher(h) && WellNamed(CopyOf(o)) && !o.failIfExists && ContentAddressed(o.codename, before, h)
    requires Copied(before, o, h, signed, date, after, ok, true)
    ensures EntriesAt(before, SourceSlot(o)).Some?
    ensures ok <==> Filter(EntriesAt(before, SourceSlot(o)).value, Asked(o)) != []
  {
    ReleaseFound(before, o.codename, Overrides(None, None, o.byHash));
    ReleaseReadGood(before, o.codename, Overrides(None, None, o.byHash));
    var r := CopyRelease(before, o).value;
    CopyHolds(before, o, r);
    if CopyTarget(before, o, r).Some? {
      var m := CopyTarget(before, o, r).value;
      CopyLocated(before, o, r, m);
      LocatedPublished(before, r, [m], h, signed, date, after, ok, PoolKeys(before));
    }
  }

  /** An index that a deletion looks into holds an entry it is to delete. */
  ghost predicate HoldsMeant(before: map<string, Doc>, o: DeleteOptions, r: ReleaseState, s: Slot)
  {
    GoodSlot(s) && Targeted(o, r, s) && EntriesAt(before, s).Some? &&
    Filter(EntriesAt(before, s).value, Meant(o.name, o.versions)) != []
  }

  /** A deletion from whole indices succeeds exactly when some index it looks into holds an entry it is to delete. */
  lemma DeleteSucceeds(before: map<string, Doc>, o: DeleteOptions, h: Hasher, signed: bool, date: string, after: map<string, Doc>, ok: bool)
    requires Whole(before) && GoodHasher(h) && WellNamed(DeleteOf(o)) && ContentAddressed(o.codename, before, h)
    requires DeletedEntries(before, o, h, signed, date, after, ok, true)
    ensures ReleaseRead(before, o.codename, o.overrides).Some?
    ensures ok <==> exists s :: HoldsMeant(before, o, ReleaseRead(before, o.codename, o.overrides).value, s)
  {
    ReleaseFound(before, o.codename, o.overrides);
    ReleaseReadGood(before, o.codename, o.overrides);
    var r := ReleaseRead(before, o.codename, o.overrides).value;
    DeletionFound(before, o, r);
    if DeleteTargets(before, o, r).Some? {
      TargetsLocated(before, o, r);
      LocatedPublished(before, r, DeleteTargets(before, o, r).value, h, signed, date, after, ok, PoolKeys(before));
    }
  }

  lemma DeletionFound(before: map<string, Doc>, o: DeleteOptions, r: ReleaseState)
    requires Whole(before) && WellNamed(DeleteOf(o)) && GoodRelease(r) && r.codename == o.codename
    ensures DeleteTargets(before, o, r).Some? <==> exists s :: HoldsMeant(before, o, r, s)
  {
    var stored := Deletions.StoredIn(before, o, r);
    TargetsAre(before, o, r);
    if s :| HoldsMeant(before, o, r, s) { MeantChanged(before, o, r, s); }
    if Changed(stored, o, r) != [] { ChangedMeant(before, o, r); }
  }

  lemma TargetsAre(before: map<string, Doc>, o: DeleteOptions, r: ReleaseState)
    requires Whole(before) && WellNamed(DeleteOf(o)) && GoodRelease(r) && r.codename == o.codename
    ensures ArchitectureNames(DeletedIn(o, r))
    ensures var changed := Changed(Deletions.StoredIn(before, o, r), o, r);
            DeleteTargets(before, o, r) == if changed == [] then None else Some(changed)
  {
    var stored := Deletions.StoredIn(before, o, r);
    assert ArchitectureNames(DeletedIn(o, r));
    forall a | a in DeletedIn(o, r) ensures Reads(before, o, r, stored, a) {
      StoredHeld(before, Slot(o.codename, o.component, a, r.byHash));
      StoredRead(before, o, r, a);
    }
    DeletionSteps(before, o, r, stored);
  }

  lemma MeantChanged(before: map<string, Doc>, o: DeleteOptions, r: ReleaseState, s: Slot)
    requires HoldsMeant(before, o, r, s) && r.codename == o.codename
    ensures Changed(Deletions.StoredIn(before, o, r), o, r) != []
  {
    var entries := EntriesAt(before, s).value;
    Deletions.StoredEntries(before, o, r, s);
    DeletionExact(entries, o.name, o.versions);
    TargetsPublished(Deletions.StoredIn(before, o, r), o, r, s, entries);
  }

  lemma ChangedMeant(before: map<string, Doc>, o: DeleteOptions, r: ReleaseState)
    requires Whole(before) && WellNamed(DeleteOf(o)) && ArchitectureNames(DeletedIn(o, r))
    requires Changed(Deletions.StoredIn(before, o, r), o, r) != []
    ensures exists s :: HoldsMeant(before, o, r, s)
  {
    var stored := Deletions.StoredIn(before, o, r);
    ChangedIs(stored, o, r, 0);
    ArchitectureMeant(before, o, r, Changed(stored, o, r)[0].architecture);
  }

  lemma ArchitectureMeant(before: map<string, Doc>, o: DeleteOptions, r: ReleaseState, a: string)
    requires Whole(before) && WellNamed(DeleteOf(o)) && ArchitectureNames(DeletedIn(o, r)) && a in DeletedIn(o, r)
    requires Manifests.Deleted(Deletions.StoredIn(before, o, r)(a), o.name, o.versions) != []
    ensures HoldsMeant(before, o, r, Slot(o.codename, o.component, a, r.byHash))
  {
    StoredAt(before, o, r, a);
    EntriesMeant(before, o, r, Slot(o.codename, o.component, a, r.byHash), Deletions.StoredIn(before, o, r)(a));
  }

  lemma StoredAt(before: map<string, Doc>, o: DeleteOptions, r: ReleaseState, a: string)
    requires Whole(before) && WellNamed(DeleteOf(o)) && ArchitectureName(a)
    ensures EntriesAt(before, Slot(o.codename, o.component, a, r.byHash)) == Some(Deletions.StoredIn(before, o, r)(a))
  {
    StoredHeld(before, Slot(o.codename, o.component, a, r.byHash));
    Deletions.StoredEntries(before, o, r, Slot(o.codename, o.component, a, r.byHash));
  }

  lemma EntriesMeant(before: map<string, Doc>, o: DeleteOptions, r: ReleaseState, s: Slot, entries: seq<Package>)
    requires GoodSlot(s) && Targeted(o, r, s) && EntriesAt(before, s) == Some(entries)
    requires Manifests.Deleted(entries, o.name, o.versions) != []
    ensures HoldsMeant(before, o, r, s)
  {
    DeletionExact(entries, o.name, o.versions);
  }

  // -------------------------------------------------------------------- verifications

  lemma LocatedResolvable(keys: set<string>, packages: seq<Package>, codename: string)
    requires AllLocated(keys, packages)
    ensures Resolvable(packages, codename)
  {
    forall i | 0 <= i < |packages|
      ensures RepositoryFilename(packages[i], codename).Ok? && Named(RepositoryFilename(packages[i], codename).value).Some? {
      assert LocatedIn(keys, packages[i]);
    }
  }

  lemma {:induction false} VerifyReads(before: map<string, Doc>, o: VerifyOptions, r: ReleaseState, architectures: seq<string>)
    requires Whole(before) && Name(o.codename) && ComponentName(o.component) && ArchitectureNames(architectures)
    ensures Steps(Verification([], Counts(0, 0, 0)), architectures, Verifier(before, o, r.byHash)).Some?
  {
    if architectures != [] {
      var front, last := architectures[..|architectures| - 1], architectures[|architectures| - 1];
      assert last in architectures;
      assert ArchitectureNames(front) by { assert forall a :: a in front ==> a in architectures; }
      VerifyReads(before, o, r, front);
      var s := Slot(o.codename, o.component, last, r.byHash);
      ReadHolds(before, s, false, true);
      WholeEntries(before, s);
      LocatedResolvable(PoolKeys(before), EntriesAt(before, s).value, o.codename);
      CheckExact(before, o, EntriesAt(before, s).value);
    }
  }

  lemma {:induction false} CreatedWelcome(r: ReleaseState, ps: seq<Prepared>, h: Hasher)
    requires GoodHasher(h) && forall i :: 0 <= i < |ps| ==> OfRelease(r, ps[i].slot)
    ensures AllWelcome(r.codename, AllCreated(ps, h), h)
  {
    if ps != [] {
      assert OfRelease(r, ps[|ps| - 1].slot);
      CreatedWelcome(r, ps[..|ps| - 1], h);
      ByHashWelcome(ps[|ps| - 1], h);
      CanonicalWelcome(r.codename, ps[|ps| - 1], h);
    }
  }

  lemma RepublicationAccepted(objects: map<string, Doc>, r: ReleaseState, h: Hasher, signed: bool, date: string)
    requires GoodHasher(h) && GoodRelease(r) && ContentAddressed(r.codename, objects, h)
    ensures AllAccepted(objects, ReleasePlan(r, h, signed, date))
  {
    var created := Empties(Missing(r));
    CreatedShape(r, h);
    CreatedWelcome(r, created, h);
    FinalWelcome(Listing(r, created, h), signed, date, h);
    AllWelcomeAccepted(r.codename, objects, ReleasePlan(r, h, signed, date), h);
  }

  /** A verification of whole indices succeeds. */
  lemma VerifySucceeds(before: map<string, Doc>, o: VerifyOptions, h: Hasher, signed: bool, date: string, after: map<string, Doc>, ok: bool,
                       counts: Counts)
    requires Whole(before) && GoodHasher(h) && WellNamed(VerifyOf(o)) && ContentAddressed(o.codename, before, h)
    requires Verified(before, o, h, signed, date, after, ok, counts, true)
    ensures ok
  {
    ReleaseFound(before, o.codename, o.overrides);
    ReleaseReadGood(before, o.codename, o.overrides);
    var r := ReleaseRead(before, o.codename, o.overrides).value;
    assert ArchitectureNames(r.architectures);
    VerifyReads(before, o, r, r.architectures);
    VerifyLocated(before, o, r, r.architectures);
    var changed := VerifyAll(before, o, r).value.changed;
    if changed != [] {
      LocatedPublished(before, r, changed, h, signed, date, after, ok, PoolKeys(before));
    } else if signed {
      RepublicationAccepted(before, r, h, signed, date);
    }
  }

  // -------------------------------------------------------------------------- uploads

  /** A package whose file can be stored: it has a location that the store accepts, and a file. */
  ghost predicate Storable(p: Package, codename: string, disk: map<string, string>)
  {
    RepositoryFilename(p, codename).Ok? && Named(RepositoryFilename(p, codename).value).Some? && p.filename in disk
  }

  ghost predicate AllStorable(inspected: seq<Option<Package>>, codename: string, disk: map<string, string>)
  {
    forall i :: 0 <= i < |inspected| && inspected[i].Some? ==> Storable(inspected[i].value, codename, disk)
  }

  lemma {:induction false} NeededNames(o: UploadOptions, r: ReleaseState, inspected: seq<Option<Package>>, disk: map<string, string>)
    requires WellNamed(UploadOf(o, inspected, disk)) && GoodRelease(r)
    ensures ArchitectureNames(Needed(o, r, inspected))
  {
    if inspected != [] {
      var front, last := inspected[..|inspected| - 1], inspected[|inspected| - 1];
      assert last in inspected;
      assert WellNamed(UploadOf(o, front, disk)) by { assert forall p :: p in front ==> p in inspected; }
      NeededNames(o, r, front, disk);
    }
  }

  lemma AllCanBeRead(before: map<string, Doc>, o: UploadOptions, r: ReleaseState, architectures: seq<string>)
    requires Whole(before) && Name(o.codename) && ComponentName(o.component) && ArchitectureNames(architectures)
    ensures AllReadable(before, o, r, architectures)
  {
    forall i | 0 <= i < |architectures| ensures CanRead(before, o, r, architectures[i]) {
      assert architectures[i] in architectures;
      ReadHolds(before, Slot(o.codename, o.component, architectures[i], r.byHash), o.failIfExists, o.skipPackageUpload);
    }
  }

  lemma {:induction false} PlacedFrom(o: UploadOptions, inspected: seq<Option<Package>>, architecture: string, p: Package)
    ensures p in PlacedList(o, inspected, architecture) <==> Some(p) in inspected && Target(o, p) == architecture
  {
    if inspected != [] {
      var front, last := inspected[..|inspected| - 1], inspected[|inspected| - 1];
      PlacedFrom(o, front, architecture, p);
      assert inspected == front + [last];
    }
  }

  lemma PendingStorable(before: map<string, Doc>, o: UploadOptions, r: ReleaseState, inspected: seq<Option<Package>>, disk: map<string, string>,
                        i: nat, p: Package)
    requires UploadManifests(before, o, r, inspected).Some? && i < |UploadManifests(before, o, r, inspected).value|
    requires AllStorable(inspected, o.codename, disk) && p in UploadManifests(before, o, r, inspected).value[i].pendingUploads
    ensures Storable(p, o.codename, disk) && Some(p) in inspected
  {
    FanOutComplete(before, o, r, inspected, i);
    PlacedFrom(o, inspected, UploadManifests(before, o, r, inspected).value[i].architecture, p);
    var k :| 0 <= k < |inspected| && inspected[k] == Some(p);
  }

  lemma PoolNotHash(codename: string, key: string)
    requires PoolName(key)
    ensures !HashKey(codename, key)
  {
  }

  lemma BodyWelcome(o: UploadOptions, r: ReleaseState, m: ManifestState, p: Package, disk: map<string, string>, h: Hasher)
    requires Alike(o, r, m) && !o.failIfExists && Inspected(p) && Storable(p, o.codename, disk)
    ensures BodyWrite(m, p, disk).Some? && Welcome(r.codename, BodyWrite(m, p, disk).value, h)
  {
    var key := RepositoryFilename(p, o.codename).value;
    assert key[..5] == "pool/";
    PoolHead(key);
    DerivedInPool(p, o.codename);
    PoolNotHash(r.codename, key);
  }

  lemma {:induction false} BodiesWelcome(o: UploadOptions, r: ReleaseState, m: ManifestState, pending: seq<Package>, disk: map<string, string>, h: Hasher)
    requires Alike(o, r, m) && !o.failIfExists && forall p :: p in pending ==> Inspected(p) && Storable(p, o.codename, disk)
    ensures BodyWrites(m, pending, disk).1 && AllWelcome(r.codename, BodyWrites(m, pending, disk).0, h)
  {
    if pending != [] {
      var front, last := pending[..|pending| - 1], pending[|pending| - 1];
      assert last in pending;
      BodiesWelcome(o, r, m, front, disk, h);
      BodyWelcome(o, r, m, last, disk, h);
    }
  }

  lemma {:induction false} PoolWelcome(o: UploadOptions, r: ReleaseState, ms: seq<ManifestState>, disk: map<string, string>, h: Hasher)
    requires AllAlike(o, r, ms) && !o.failIfExists
    requires forall i, p :: 0 <= i < |ms| && p in ms[i].pendingUploads ==> Inspected(p) && Storable(p, o.codename, disk)
    ensures PoolWrites(ms, disk).1 && AllWelcome(r.codename, PoolWrites(ms, disk).0, h)
  {
    if ms != [] {
      var front, last := ms[..|ms| - 1], ms[|ms| - 1];
      assert forall i, p :: 0 <= i < |front| && p in front[i].pendingUploads ==> p in ms[i].pendingUploads;
      PoolWelcome(o, r, front, disk, h);
      assert Alike(o, r, last);
      BodiesWelcome(o, r, last, last.pendingUploads, disk, h);
    }
  }

  /** The indices of an upload can be built. */
  lemma UploadBuilds(before: map<string, Doc>, o: UploadOptions, r: ReleaseState, inspected: seq<Option<Package>>, disk: map<string, string>, i: nat)
    requires Whole(before) && Sensible(UploadOf(o, inspected, disk)) && r.codename == o.codename && GoodRelease(r)
    requires UploadManifests(before, o, r, inspected).Some? && i < |UploadManifests(before, o, r, inspected).value|
    requires AllStorable(inspected, o.codename, disk)
    ensures BuildIndex(UploadManifests(before, o, r, inspected).value[i]).Ok?
  {
    var ms := UploadManifests(before, o, r, inspected).value;
    var m := ms[i];
    FanOutAlike(before, o, r, inspected);
    assert Alike(o, r, m);
    forall k | 0 <= k < |m.packages| ensures Indexable(m.packages[k], o.codename) {
      var p := m.packages[k];
      UploadSourced(before, o, r, inspected, disk, i, p);
      if !LocatedIn(PoolKeys(before), p) {
        var j :| 0 <= j < |ms| && p in ms[j].pendingUploads;
        PendingStorable(before, o, r, inspected, disk, j, p);
        assert SensiblePackage(p, o.codename);
      }
    }
    IndexBuilds(m);
  }

  lemma UploadCloses(before: map<string, Doc>, o: UploadOptions, r: ReleaseState, inspected: seq<Option<Package>>, disk: map<string, string>,
                     h: Hasher)
    requires Whole(before) && Sensible(UploadOf(o, inspected, disk)) && r.codename == o.codename && GoodRelease(r)
    requires UploadManifests(before, o, r, inspected).Some? && AllStorable(inspected, o.codename, disk)
    ensures var ms := UploadManifests(before, o, r, inspected).value; Closure(r, ms, h).Ok? && AllOffered(r, ms)
  {
    var ms := UploadManifests(before, o, r, inspected).value;
    forall i | 0 <= i < |ms| ensures BuildIndex(ms[i]).Ok? { UploadBuilds(before, o, r, inspected, disk, i); }
    PrepareSucceeds(r, ms, h);
    UploadIsReady(before, o, r, inspected, disk);
  }

  lemma UploadAccepted(before: map<string, Doc>, o: UploadOptions, r: ReleaseState, inspected: seq<Option<Package>>, disk: map<string, string>,
                       h: Hasher, signed: bool, date: string)
    requires Whole(before) && Sensible(UploadOf(o, inspected, disk)) && r.codename == o.codename && GoodRelease(r) && GoodHasher(h)
    requires UploadManifests(before, o, r, inspected).Some? && !o.failIfExists && ContentAddressed(r.codename, before, h)
    requires AllStorable(inspected, o.codename, disk)
    ensures var ms := UploadManifests(before, o, r, inspected).value;
            Closure(r, ms, h).Ok? &&
            var (closed, ps) := Closure(r, ms, h).value;
            var plan := UploadPlan(ms, disk, closed, ps, h, signed, date);
            plan.1 && AllAccepted(before, plan.0)
  {
    var ms := UploadManifests(before, o, r, inspected).value;
    UploadCloses(before, o, r, inspected, disk, h);
    UploadPoolWelcome(before, o, r, inspected, disk, h);
    PublicationWelcome(r, ms, h, signed, date);
    var (closed, ps) := Closure(r, ms, h).value;
    BothAccepted(r.codename, before, PoolWrites(ms, disk).0, PublishPlan(closed, ps, h, signed, date), h);
  }

  lemma BothAccepted(codename: string, objects: map<string, Doc>, a: seq<Write>, b: seq<Write>, h: Hasher)
    requires GoodHasher(h) && ContentAddressed(codename, objects, h) && AllWelcome(codename, a, h) && AllWelcome(codename, b, h)
    ensures AllAccepted(objects, a + b)
  {
    AllWelcomeAccepted(codename, objects, a + b, h);
  }

  lemma UploadPoolWelcome(before: map<string, Doc>, o: UploadOptions, r: ReleaseState, inspected: seq<Option<Package>>, disk: map<string, string>,
                          h: Hasher)
    requires UploadManifests(before, o, r, inspected).Some? && !o.failIfExists && AllStorable(inspected, o.codename, disk)
    requires forall p <- inspected :: p.Some? ==> Inspected(p.value)
    ensures var (pool, whole) := PoolWrites(UploadManifests(before, o, r, inspected).value, disk); whole && AllWelcome(r.codename, pool, h)
  {
    var ms := UploadManifests(before, o, r, inspected).value;
    FanOutAlike(before, o, r, inspected);
    UploadsInspected(before, o, r, inspected);
    forall i, p | 0 <= i < |ms| && p in ms[i].pendingUploads ensures Inspected(p) && Storable(p, o.codename, disk) {
      assert PendingInspected(ms[i]);
      PendingStorable(before, o, r, inspected, disk, i, p);
    }
    PoolWelcome(o, r, ms, disk, h);
  }

  /** Every package that suits is among those sent. */
  lemma {:induction false} InOrderHas(o: UploadOptions, inspected: seq<Option<Package>>, architectures: seq<string>, p: Package)
    requires Some(p) in inspected && Target(o, p) in architectures
    ensures p in InOrder(o, inspected, architectures)
  {
    var front, last := architectures[..|architectures| - 1], architectures[|architectures| - 1];
    assert architectures == front + [last];
    if Target(o, p) == last {
      PlacedFrom(o, inspected, last, p);
    } else {
      InOrderHas(o, inspected, front, p);
    }
  }

  lemma {:induction false} NeededTargets(o: UploadOptions, r: ReleaseState, inspected: seq<Option<Package>>, p: Package)
    requires Some(p) in inspected
    ensures Target(o, p) in Needed(o, r, inspected)
  {
    var front, last := inspected[..|inspected| - 1], inspected[|inspected| - 1];
    assert inspected == front + [last];
    if Some(p) != last { NeededTargets(o, r, front, p); }
  }

  /** What an upload that succeeded stored could be stored. */
  lemma StoredStorable(before: map<string, Doc>, o: UploadOptions, r: ReleaseState, inspected: seq<Option<Package>>, disk: map<string, string>,
                       k: nat)
    requires UploadManifests(before, o, r, inspected).Some? && !o.skipPackageUpload
    requires var (pool, whole) := PoolWrites(UploadManifests(before, o, r, inspected).value, disk); whole && AllAccepted(before, pool)
    requires k < |inspected| && inspected[k].Some?
    ensures Storable(inspected[k].value, o.codename, disk)
  {
    var p := inspected[k].value;
    var pool := PoolWrites(UploadManifests(before, o, r, inspected).value, disk).0;
    PoolOfUpload(before, o, r, inspected, disk);
    NeededTargets(o, r, inspected, p);
    Uploads.OnceMembers([], Needed(o, r, inspected), Target(o, p));
    InOrderHas(o, inspected, Once([], Needed(o, r, inspected)), p);
    var i :| 0 <= i < |Sent(o, r, inspected)| && Sent(o, r, inspected)[i] == p;
    assert Puts(pool[i], p, o, disk);
    AcceptedNamed(before, pool, i);
  }

  /**
   An upload to a whole repository succeeds exactly when every file was inspected, every
   package suits the architecture it is placed in, and every file can be stored, if
   existing entries may be replaced.
   */
  lemma UploadSucceeds(before: map<string, Doc>, o: UploadOptions, inspected: seq<Option<Package>>, disk: map<string, string>, h: Hasher,
                       signed: bool, date: string, after: map<string, Doc>, ok: bool)
    requires Whole(before) && GoodHasher(h) && Sensible(UploadOf(o, inspected, disk)) && !o.failIfExists
    requires ContentAddressed(o.codename, before, h)
    requires Uploaded(before, o, inspected, disk, h, signed, date, after, ok, true)
    ensures ok <==> AllSuit(o, inspected) && AllStorable(inspected, o.codename, disk)
  {
    ReleaseFound(before, o.codename, o.overrides);
    ReleaseReadGood(before, o.codename, o.overrides);
    var r := ReleaseRead(before, o.codename, o.overrides).value;
    NeededNames(o, r, inspected, disk);
    AllCanBeRead(before, o, r, Needed(o, r, inspected));
    FanOutSucceeds(before, o, r, inspected);
    if AllSuit(o, inspected) && AllStorable(inspected, o.codename, disk) {
      UploadAccepted(before, o, r, inspected, disk, h, signed, date);
    }
    if ok {
      var ms := UploadManifests(before, o, r, inspected).value;
      Uploads.FinishedUpload(before, r, ms, disk, h, signed, date, after, true);
      forall k | 0 <= k < |inspected| && inspected[k].Some? ensures Storable(inspected[k].value, o.codename, disk) {
        StoredStorable(before, o, r, inspected, disk, k);
      }
    }
  }
}
