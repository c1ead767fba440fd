/**
 Whatever a command reads, the writes it plans are an operation of the by-hash machine,
 if it works on another codename or reads a Release with by-hash on that was stored.
 */
module CommandPlans {
  import opened Text
  import opened Packages
  import opened Documents
  import opened Stores
  import opened Manifests
  import opened Publication
  import opened Retrieval
  import opened Uploading
  import opened Managing
  import opened Maintaining
  import opened Cleaning
  import opened Layout
  import opened Agreement
  import opened NoDangling
  import opened CommandRuns
  import opened RepositoryRuns
  import opened ByHashSafety

  /** What a command may decide to write, given all it read. */
  ghost predicate Plans(objects: map<string, Doc>, c: Command, h: Hasher, signed: bool, date: string, r: ReleaseState, plan: seq<Write>)
  {
    match c
    case UploadOf(o, inspected, disk) =>
      ReleaseRead(objects, o.codename, o.overrides) == Some(r) && UploadManifests(objects, o, r, inspected).Some? &&
      var ms := UploadManifests(objects, o, r, inspected).value;
      Closure(r, ms, h).Ok? &&
      var (closed, ps) := Closure(r, ms, h).value;
      plan == UploadPlan(ms, disk, closed, ps, h, signed, date).0
    case CopyOf(o) => PlansCopy(objects, o, h, signed, date, r, plan)
    case DeleteOf(o) => PlansDelete(objects, o, h, signed, date, r, plan)
    case VerifyOf(o) =>
      ReleaseRead(objects, o.codename, o.overrides) == Some(r) && VerifyAll(objects, o, r).Some? &&
      PlansChanged(r, VerifyAll(objects, o, r).value.changed, h, signed, date, plan)
    case CleanOf(codename) =>
      Scope(codename).Some? && exists victims: seq<string> :: VictimsOf(objects, Scope(codename).value, victims) && plan == Deletes(victims)
  }

  ghost predicate VictimsOf(objects: map<string, Doc>, directory: string, victims: seq<string>)
  {
    Lists(victims, Unreferenced(objects, directory))
  }

  ghost predicate PlansCopy(objects: map<string, Doc>, o: CopyOptions, h: Hasher, signed: bool, date: string, r: ReleaseState, plan: seq<Write>)
  {
    CopyRelease(objects, o) == Some(r) && CopyTarget(objects, o, r).Some? &&
    PlansManifests(r, [CopyTarget(objects, o, r).value], h, signed, date, plan)
  }

  ghost predicate PlansDelete(objects: map<string, Doc>, o: DeleteOptions, h: Hasher, signed: bool, date: string, r: ReleaseState, plan: seq<Write>)
  {
    ReleaseRead(objects, o.codename, o.overrides) == Some(r) && DeleteTargets(objects, o, r).Some? &&
    PlansManifests(r, DeleteTargets(objects, o, r).value, h, signed, date, plan)
  }

  /** Changed manifests are published; without any, a signed Release is. */
  ghost predicate PlansChanged(r: ReleaseState, changed: seq<ManifestState>, h: Hasher, signed: bool, date: string, plan: seq<Write>)
  {
    if changed != [] then PlansManifests(r, changed, h, signed, date, plan)
    else plan == if signed then ReleasePlan(r, h, signed, date) else []
  }

  ghost predicate PlansManifests(r: ReleaseState, ms: seq<ManifestState>, h: Hasher, signed: bool, date: string, plan: seq<Write>)
  {
    Closure(r, ms, h).Ok? &&
    var (closed, ps) := Closure(r, ms, h).value;
    plan == PublishPlan(closed, ps, h, signed, date)
  }

  // ---------------------------------------------------------- manifests as read

  /** A manifest of the Release's codename with nothing recorded. */
  ghost predicate Fits(r: ReleaseState, component: string, m: ManifestState)
  {
    SlotOf(m) == Slot(r.codename, component, m.architecture, r.byHash) && ArchitectureName(m.architecture) && m.files == map[]
  }

  ghost predicate AllFit(r: ReleaseState, component: string, ms: seq<ManifestState>)
  {
    forall i :: 0 <= i < |ms| ==> Fits(r, component, ms[i])
  }

  lemma {:induction false} OpenAllFits(objects: map<string, Doc>, o: UploadOptions, r: ReleaseState, ordered: seq<ManifestState>,
                                       architectures: seq<string>)
    requires r.codename == o.codename && ArchitectureNames(architectures) && AllFit(r, o.component, ordered)
    requires OpenAll(objects, o, r.byHash, ordered, architectures).Some?
    ensures AllFit(r, o.component, OpenAll(objects, o, r.byHash, ordered, architectures).value)
    decreases |architectures|
  {
    if architectures != [] {
      var front, last := architectures[..|architectures| - 1], architectures[|architectures| - 1];
      assert last in architectures;
      OpenAllFits(objects, o, r, ordered, front);
      OpenFits(objects, o, r, OpenAll(objects, o, r.byHash, ordered, front).value, last);
    }
  }

  lemma OpenFits(objects: map<string, Doc>, o: UploadOptions, r: ReleaseState, ordered: seq<ManifestState>, architecture: string)
    requires r.codename == o.codename && ArchitectureName(architecture) && AllFit(r, o.component, ordered)
    requires Open(objects, o, r.byHash, ordered, architecture).Some?
    ensures AllFit(r, o.component, Open(objects, o, r.byHash, ordered, architecture).value)
  {
  }

  lemma OpenedFits(objects: map<string, Doc>, o: UploadOptions, r: ReleaseState, ordered: seq<ManifestState>, architecture: string)
    requires r.codename == o.codename && GoodRelease(r) && ArchitectureName(architecture) && AllFit(r, o.component, ordered)
    requires OpenedFor(objects, o, r, ordered, architecture).Some?
    ensures AllFit(r, o.component, OpenedFor(objects, o, r, ordered, architecture).value)
  {
    if architecture == "all" && |ordered| == 0 {
      SeedNames(r);
      OpenAllFits(objects, o, r, ordered, SeedArchitectures(r));
      OpenFits(objects, o, r, OpenAll(objects, o, r.byHash, ordered, SeedArchitectures(r)).value, architecture);
    } else {
      OpenFits(objects, o, r, ordered, architecture);
    }
  }

  lemma PlaceFits(objects: map<string, Doc>, o: UploadOptions, r: ReleaseState, fan: Fan, p: Package)
    requires r.codename == o.codename && GoodRelease(r) && AllFit(r, o.component, fan.ordered)
    requires (o.architecture.Some? ==> ArchitectureName(o.architecture.value)) && ArchitectureName(p.architecture)
    requires PlaceOne(objects, o, r, fan, p).Some?
    ensures AllFit(r, o.component, PlaceOne(objects, o, r, fan, p).value.ordered)
  {
    var a := PlacedIn(o, p).value;
    OpenedFits(objects, o, r, fan.ordered, a);
    var ready := OpenedFor(objects, o, r, fan.ordered, a).value;
    var m := ready[Position(ready, a)];
    assert Fits(r, o.component, m);
  }

  lemma {:induction false} PlaceAllFits(objects: map<string, Doc>, o: UploadOptions, r: ReleaseState, inspected: seq<Option<Package>>,
                                        disk: map<string, string>)
    requires r.codename == o.codename && GoodRelease(r) && WellNamed(UploadOf(o, inspected, disk))
    requires PlaceAll(objects, o, r, inspected).Some?
    ensures AllFit(r, o.component, PlaceAll(objects, o, r, inspected).value.ordered)
  {
    if inspected == [] {
      OpenAllFits(objects, o, r, [], r.architectures);
    } else {
      var front, last := inspected[..|inspected| - 1], inspected[|inspected| - 1];
      assert last in inspected;
      PlaceAllFits(objects, o, r, front, disk);
      PlaceFits(objects, o, r, PlaceAll(objects, o, r, front).value, last.value);
    }
  }

  lemma UploadFits(objects: map<string, Doc>, o: UploadOptions, r: ReleaseState, inspected: seq<Option<Package>>, disk: map<string, string>)
    requires r.codename == o.codename && GoodRelease(r) && WellNamed(UploadOf(o, inspected, disk))
    requires UploadManifests(objects, o, r, inspected).Some?
    ensures AllFit(r, o.component, UploadManifests(objects, o, r, inspected).value)
  {
    PlaceAllFits(objects, o, r, inspected, disk);
    var fan := PlaceAll(objects, o, r, inspected).value;
    var ms := UploadManifests(objects, o, r, inspected).value;
    PropagatedLength(fan.ordered, fan.common, o.preserveVersions);
    forall i | 0 <= i < |ms| ensures Fits(r, o.component, ms[i]) {
      PropagatedAt(fan.ordered, fan.common, o.preserveVersions, i);
      assert Fits(r, o.component, fan.ordered[i]);
      if fan.ordered[i].architecture != "all" { AddCommonPending(fan.ordered[i], fan.common, o.preserveVersions); }
    }
  }

  lemma {:induction false} DeleteFits(objects: map<string, Doc>, o: DeleteOptions, r: ReleaseState, architectures: seq<string>)
    requires r.codename == o.codename && ArchitectureNames(architectures)
    requires Steps([], architectures, Deleter(objects, o, r.byHash)).Some?
    ensures AllFit(r, o.component, Steps([], architectures, Deleter(objects, o, r.byHash)).value)
  {
    if architectures != [] {
      var front, last := architectures[..|architectures| - 1], architectures[|architectures| - 1];
      assert last in architectures;
      DeleteFits(objects, o, r, front);
      DeleterFits(objects, o, r, Steps([], front, Deleter(objects, o, r.byHash)).value, last);
    }
  }

  lemma FitMore(r: ReleaseState, component: string, ms: seq<ManifestState>, m: ManifestState)
    requires AllFit(r, component, ms) && Fits(r, component, m)
    ensures AllFit(r, component, ms + [m])
  {
  }

  /** A manifest as read fits, whatever its packages. */
  lemma ReadFits(objects: map<string, Doc>, codename: string, component: string, r: ReleaseState, architecture: string, packages: seq<Package>)
    requires r.codename == codename && ArchitectureName(architecture)
    requires ManifestRead(objects, Slot(codename, component, architecture, r.byHash), false, true).Some?
    ensures Fits(r, component, ManifestRead(objects, Slot(codename, component, architecture, r.byHash), false, true).value.(packages := packages))
  {
    ManifestReadFits(objects, Slot(codename, component, architecture, r.byHash), false, true);
  }

  lemma DeleterFits(objects: map<string, Doc>, o: DeleteOptions, r: ReleaseState, changed: seq<ManifestState>, architecture: string)
    requires r.codename == o.codename && ArchitectureName(architecture) && AllFit(r, o.component, changed)
    requires Deleter(objects, o, r.byHash)(changed, architecture).Some?
    ensures AllFit(r, o.component, Deleter(objects, o, r.byHash)(changed, architecture).value)
  {
    var m := ManifestRead(objects, Slot(o.codename, o.component, architecture, r.byHash), false, true).value;
    var retained := m.(packages := Retained(m.packages, o.name, o.versions));
    ReadFits(objects, o.codename, o.component, r, architecture, retained.packages);
    FitMore(r, o.component, changed, retained);
  }

  lemma ManifestReadFits(objects: map<string, Doc>, slot: Slot, failIfExists: bool, skip: bool)
    requires ManifestRead(objects, slot, failIfExists, skip).Some?
    ensures var m := ManifestRead(objects, slot, failIfExists, skip).value; SlotOf(m) == slot && m.files == map[]
  {
  }

  lemma VerifierFits(objects: map<string, Doc>, o: VerifyOptions, r: ReleaseState, v: Verification, architecture: string)
    requires r.codename == o.codename && ArchitectureName(architecture) && AllFit(r, o.component, v.changed)
    requires Verifier(objects, o, r.byHash)(v, architecture).Some?
    ensures AllFit(r, o.component, Verifier(objects, o, r.byHash)(v, architecture).value.changed)
  {
    var m := ManifestRead(objects, Slot(o.codename, o.component, architecture, r.byHash), false, true).value;
    var retained := m.(packages := CheckAll(objects, o, m.packages).value.retained);
    ReadFits(objects, o.codename, o.component, r, architecture, retained.packages);
    FitMore(r, o.component, v.changed, retained);
  }

  lemma {:induction false} VerifyFits(objects: map<string, Doc>, o: VerifyOptions, r: ReleaseState, architectures: seq<string>)
    requires r.codename == o.codename && ArchitectureNames(architectures)
    requires Steps(Verification([], Counts(0, 0, 0)), architectures, Verifier(objects, o, r.byHash)).Some?
    ensures AllFit(r, o.component, Steps(Verification([], Counts(0, 0, 0)), architectures, Verifier(objects, o, r.byHash)).value.changed)
  {
    if architectures != [] {
      var front, last := architectures[..|architectures| - 1], architectures[|architectures| - 1];
      assert last in architectures;
      VerifyFits(objects, o, r, front);
      VerifierFits(objects, o, r, Steps(Verification([], Counts(0, 0, 0)), front, Verifier(objects, o, r.byHash)).value, last);
    }
  }

  // ------------------------------------------------------------- plans are operations

  /** Puts of plain bytes, as package bodies are. */
  ghost predicate PutsBytes(writes: seq<Write>)
  {
    forall i :: 0 <= i < |writes| ==> writes[i].Put? && writes[i].doc.Bytes?
  }

  /** An operation on a Release at a date, whose other writes are package bodies. */
  ghost predicate From(op: Operation, r: ReleaseState, date: string)
  {
    match op
    case PublicationOf(read, _, bodies, _, at) => read == r && at == date && PutsBytes(bodies)
    case BodiesOnly(bodies) => PutsBytes(bodies)
    case Republication(read, _, at) => read == r && at == date
    case Sweeping(_) => true
  }

  lemma {:induction false} BodyWritesBytes(m: ManifestState, pending: seq<Package>, disk: map<string, string>)
    ensures PutsBytes(BodyWrites(m, pending, disk).0)
  {
    if pending != [] { BodyWritesBytes(m, pending[..|pending| - 1], disk); }
  }

  lemma {:induction false} PoolWritesBytes(ms: seq<ManifestState>, disk: map<string, string>)
    ensures PutsBytes(PoolWrites(ms, disk).0)
  {
    if ms != [] {
      PoolWritesBytes(ms[..|ms| - 1], disk);
      var last := ms[|ms| - 1];
      BodyWritesBytes(last, last.pendingUploads, disk);
    }
  }

  lemma UploadOperation(codename: string, history: seq<ReleaseState>, objects: map<string, Doc>, o: UploadOptions,
                        inspected: seq<Option<Package>>, disk: map<string, string>, h: Hasher, signed: bool, date: string,
                        r: ReleaseState, plan: seq<Write>) returns (op: Operation)
    requires WellNamed(UploadOf(o, inspected, disk)) && MayRead(codename, history, r)
    requires Plans(objects, UploadOf(o, inspected, disk), h, signed, date, r, plan)
    ensures MayBegin(codename, history, op) && PlanOf(op, h) == plan && From(op, r, date)
  {
    var ms := UploadManifests(objects, o, r, inspected).value;
    UploadFits(objects, o, r, inspected, disk);
    UploadsInspected(objects, o, r, inspected);
    PoolWritesBodies(ms, disk);
    PoolWritesBytes(ms, disk);
    var (pool, whole) := PoolWrites(ms, disk);
    op := if whole then PublicationOf(r, ms, pool, signed, date) else BodiesOnly(pool);
  }

  lemma ManifestsOperation(codename: string, history: seq<ReleaseState>, r: ReleaseState, ms: seq<ManifestState>, component: string,
                           h: Hasher, signed: bool, date: string, plan: seq<Write>) returns (op: Operation)
    requires MayRead(codename, history, r) && ComponentName(component) && AllFit(r, component, ms)
    requires PlansManifests(r, ms, h, signed, date, plan)
    ensures MayBegin(codename, history, op) && PlanOf(op, h) == plan && From(op, r, date)
  {
    op := PublicationOf(r, ms, [], signed, date);
    assert [] + plan == plan;
  }

  lemma CopyFits(objects: map<string, Doc>, o: CopyOptions, r: ReleaseState)
    requires r.codename == o.codename && ArchitectureName(o.architecture) && CopyTarget(objects, o, r).Some?
    ensures AllFit(r, o.component, [CopyTarget(objects, o, r).value])
  {
    var from, to := Slot(o.sourceCodename, o.sourceComponent, o.architecture, false), Slot(o.codename, o.component, o.architecture, r.byHash);
    var source, destination := ManifestRead(objects, from, false, false).value, ManifestRead(objects, to, o.failIfExists, true).value;
    ManifestReadFits(objects, to, o.failIfExists, true);
    AddCommonPending(destination, WantedFrom(o, source.packages), o.preserveVersions);
  }

  lemma CopyNames(objects: map<string, Doc>, o: CopyOptions, h: Hasher, signed: bool, date: string, r: ReleaseState, plan: seq<Write>)
    requires WellNamed(CopyOf(o)) && PlansCopy(objects, o, h, signed, date, r, plan)
    ensures r.codename == o.codename && ComponentName(o.component) && ArchitectureName(o.architecture)
  {
  }

  lemma CopyOperation(codename: string, history: seq<ReleaseState>, objects: map<string, Doc>, o: CopyOptions, h: Hasher,
                      signed: bool, date: string, r: ReleaseState, plan: seq<Write>) returns (op: Operation)
    requires WellNamed(CopyOf(o)) && PlansCopy(objects, o, h, signed, date, r, plan) && MayRead(codename, history, r)
    ensures MayBegin(codename, history, op) && PlanOf(op, h) == plan && From(op, r, date)
  {
    CopyNames(objects, o, h, signed, date, r, plan);
    CopyFits(objects, o, r);
    op := ManifestsOperation(codename, history, r, [CopyTarget(objects, o, r).value], o.component, h, signed, date, plan);
  }

  lemma TargetsFit(objects: map<string, Doc>, o: DeleteOptions, r: ReleaseState)
    requires r.codename == o.codename && GoodRelease(r) && ArchitectureName(o.architecture) && DeleteTargets(objects, o, r).Some?
    ensures AllFit(r, o.component, DeleteTargets(objects, o, r).value)
  {
    assert ArchitectureNames(DeletedIn(o, r));
    DeleteFits(objects, o, r, DeletedIn(o, r));
  }

  lemma DeleteOperation(codename: string, history: seq<ReleaseState>, objects: map<string, Doc>, o: DeleteOptions, h: Hasher,
                        signed: bool, date: string, r: ReleaseState, plan: seq<Write>) returns (op: Operation)
    requires WellNamed(DeleteOf(o)) && PlansDelete(objects, o, h, signed, date, r, plan) && MayRead(codename, history, r)
    ensures MayBegin(codename, history, op) && PlanOf(op, h) == plan && From(op, r, date)
  {
    var ms := DeleteTargets(objects, o, r).value;
    TargetsFit(objects, o, r);
    op := ManifestsOperation(codename, history, r, ms, o.component, h, signed, date, plan);
  }

  lemma VerifyOperation(codename: string, history: seq<ReleaseState>, objects: map<string, Doc>, o: VerifyOptions, h: Hasher,
                        signed: bool, date: string, r: ReleaseState, plan: seq<Write>) returns (op: Operation)
    requires WellNamed(VerifyOf(o)) && Plans(objects, VerifyOf(o), h, signed, date, r, plan) && MayRead(codename, history, r)
    ensures MayBegin(codename, history, op) && PlanOf(op, h) == plan && From(op, r, date)
  {
    VerifyFits(objects, o, r, r.architectures);
    op := ChangedOperation(codename, history, r, VerifyAll(objects, o, r).value.changed, o.component, h, signed, date, plan);
  }

  lemma ChangedOperation(codename: string, history: seq<ReleaseState>, r: ReleaseState, changed: seq<ManifestState>, component: string,
                         h: Hasher, signed: bool, date: string, plan: seq<Write>) returns (op: Operation)
    requires MayRead(codename, history, r) && ComponentName(component) && AllFit(r, component, changed)
    requires PlansChanged(r, changed, h, signed, date, plan)
    ensures MayBegin(codename, history, op) && PlanOf(op, h) == plan && From(op, r, date)
  {
    if changed != [] {
      op := ManifestsOperation(codename, history, r, changed, component, h, signed, date, plan);
    } else {
      op := if signed then Republication(r, signed, date) else BodiesOnly([]);
    }
  }

  lemma CleanOperation(codename: string, history: seq<ReleaseState>, objects: map<string, Doc>, cleaned: string, plan: seq<Write>)
    returns (op: Operation)
    requires PlainKeys(objects) && Scope(cleaned).Some?
    requires exists victims: seq<string> :: VictimsOf(objects, Scope(cleaned).value, victims) && plan == Deletes(victims)
    ensures forall h: Hasher :: PlanOf(op, h) == plan
    ensures MayBegin(codename, history, op) && op.Sweeping?
  {
    var directory := Scope(cleaned).value;
    var victims: seq<string> :| VictimsOf(objects, directory, victims) && plan == Deletes(victims);
    ScopePlain(cleaned);
    forall i | 0 <= i < |victims| ensures PoolKey(victims[i]) {
      assert victims[i] in victims;
      VictimsInPool(objects, directory, victims, victims[i]);
    }
    op := Sweeping(victims);
  }

  /** Every plan of every command is an operation that may begin. */
  lemma PlansMayBegin(codename: string, history: seq<ReleaseState>, objects: map<string, Doc>, c: Command, h: Hasher,
                      signed: bool, date: string, r: ReleaseState, plan: seq<Write>) returns (op: Operation)
    requires WellNamed(c) && Plans(objects, c, h, signed, date, r, plan)
    requires !c.CleanOf? ==> MayRead(codename, history, r)
    requires c.CleanOf? ==> PlainKeys(objects)
    ensures MayBegin(codename, history, op) && PlanOf(op, h) == plan && From(op, r, date) && (c.CleanOf? ==> op.Sweeping?)
  {
    match c {
      case UploadOf(o, inspected, disk) =>
        op := UploadOperation(codename, history, objects, o, inspected, disk, h, signed, date, r, plan);
      case CopyOf(o) => op := CopyOperation(codename, history, objects, o, h, signed, date, r, plan);
      case DeleteOf(o) => op := DeleteOperation(codename, history, objects, o, h, signed, date, r, plan);
      case VerifyOf(o) => op := VerifyOperation(codename, history, objects, o, h, signed, date, r, plan);
      case CleanOf(cleaned) => op := CleanOperation(codename, history, objects, cleaned, plan);
    }
  }
}
