/** Copying entries between codenames and deleting them: metadata-only commands. */
module Managing {
  import opened Text
  import opened Versions
  import opened Packages
  import opened Documents
  import opened Stores
  import opened Manifests
  import opened Publication
  import opened Publishing
  import opened Metadata
  import opened Retrieval
  import opened Uploading

  datatype CopyOptions = CopyOptions(
    sourceCodename: string,
    sourceComponent: string,
    codename: string,
    component: string,
    architecture: string,
    name: string,
    versions: Option<seq<string>>,
    preserveVersions: bool,
    failIfExists: bool,
    byHash: Option<bool>)

  datatype DeleteOptions = DeleteOptions(
    codename: string,
    component: string,
    architecture: string,
    name: string,
    versions: Option<seq<string>>,
    overrides: Overrides)

  /** What publishing changed manifests does to the store: nothing, or a prefix of its planned writes. */
  ghost predicate ManifestsPublished(before: map<string, Doc>, r: ReleaseState, ms: seq<ManifestState>, h: Hasher,
                                     signed: bool, date: string, after: map<string, Doc>, ok: bool, reliable: bool)
  {
    match Closure(r, ms, h)
    case Err(_) => !ok && after == before
    case Ok((closed, ps)) => Ran(before, PublishPlan(closed, ps, h, signed, date), after, ok, reliable)
  }

  lemma NothingPublished(before: map<string, Doc>, r: ReleaseState, ms: seq<ManifestState>, h: Hasher, signed: bool, date: string)
    ensures ManifestsPublished(before, r, ms, h, signed, date, before, false, false)
  {
    if Closure(r, ms, h).Ok? {
      var (closed, ps) := Closure(r, ms, h).value;
      RanFaulted(before, PublishPlan(closed, ps, h, signed, date));
    }
  }

  // ------------------------------------------------------------------------ copying

  /** Whether an entry is to be copied: by name, and by full version when versions are given. */
  predicate Wanted(o: CopyOptions, p: Package)
  {
    p.name == o.name && (o.versions.Some? ==> FullVersion(p.version) in o.versions.value)
  }

  function WantedFrom(o: CopyOptions, packages: seq<Package>): seq<Package>
  {
    Filter(packages, p => Wanted(o, p))
  }

  function CopyRelease(objects: map<string, Doc>, o: CopyOptions): Option<ReleaseState>
  {
    ReleaseRead(objects, o.codename, Overrides(None, None, o.byHash))
  }

  /** The destination manifest with the wanted entries added; none if nothing is wanted. */
  function CopyTarget(objects: map<string, Doc>, o: CopyOptions, r: ReleaseState): Option<ManifestState>
  {
    match ManifestRead(objects, Slot(o.sourceCodename, o.sourceComponent, o.architecture, false), false, false)
    case None => None
    case Some(source) =>
      match ManifestRead(objects, Slot(o.codename, o.component, o.architecture, r.byHash), o.failIfExists, true)
      case None => None
      case Some(destination) =>
        var wanted := WantedFrom(o, source.packages);
        if wanted == [] then None else AddCommon(destination, wanted, o.preserveVersions)
  }

  ghost predicate Copied(before: map<string, Doc>, o: CopyOptions, h: Hasher, signed: bool, date: string,
                         after: map<string, Doc>, ok: bool, reliable: bool)
  {
    match CopyRelease(before, o)
    case None => !ok && after == before
    case Some(r) =>
      match CopyTarget(before, o, r)
      case None => !ok && after == before
      case Some(m) => ManifestsPublished(before, r, [m], h, signed, date, after, ok, reliable)
  }

  lemma NothingCopied(before: map<string, Doc>, o: CopyOptions, h: Hasher, signed: bool, date: string)
    ensures Copied(before, o, h, signed, date, before, false, false)
  {
    if CopyRelease(before, o).Some? {
      var r := CopyRelease(before, o).value;
      if CopyTarget(before, o, r).Some? {
        NothingPublished(before, r, [CopyTarget(before, o, r).value], h, signed, date);
      }
    }
  }

  method SelectWanted(o: CopyOptions, packages: seq<Package>) returns (wanted: seq<Package>)
    ensures wanted == WantedFrom(o, packages)
  {
    wanted := [];
    for i := 0 to |packages|
      invariant wanted == WantedFrom(o, packages[..i])
    {
      FilterSnoc(packages[..i], packages[i], p => Wanted(o, p));
      assert packages[..i + 1] == packages[..i] + [packages[i]];
      if packages[i].name != o.name { continue; }
      if o.versions.Some? && FullVersion(packages[i].version) !in o.versions.value { continue; }
      wanted := wanted + [packages[i]];
    }
    assert packages[..|packages|] == packages;
  }

  method AddWanted(destination: Manifest, wanted: seq<Package>, preserveVersions: bool) returns (ok: bool)
    modifies destination
    ensures ok ==> AddCommon(old(destination.State()), wanted, preserveVersions) == Some(destination.State())
    ensures !ok ==> AddCommon(old(destination.State()), wanted, preserveVersions) == None
  {
    ghost var start, step := destination.State(), Adder(preserveVersions);
    for i := 0 to |wanted|
      invariant Steps(start, wanted[..i], step) == Some(destination.State())
    {
      StepsNext(start, wanted, step, i);
      var error := destination.Add(wanted[i], preserveVersions, false);
      if error.Some? { return false; }
    }
    assert wanted[..|wanted|] == wanted;
    ok := true;
  }

  /** Both manifests of a copy, the destination with the wanted entries added. */
  method PrepareCopy(store: Store, o: CopyOptions, r: ReleaseState, source: Manifest) returns (target: Option<ManifestState>)
    requires store.Valid()
    requires Some(source.State()) ==
             ManifestRead(store.View(), Slot(o.sourceCodename, o.sourceComponent, o.architecture, false), false, false)
    ensures target.Some? || store.reliable ==> target == CopyTarget(store.View(), o, r)
  {
    var destination := RetrieveManifest(store, Slot(o.codename, o.component, o.architecture, r.byHash), o.failIfExists, true);
    if destination == null { return None; }
    var wanted := SelectWanted(o, source.packages);
    if wanted == [] { return None; }
    var ok := AddWanted(destination, wanted, o.preserveVersions);
    target := if ok then Some(destination.State()) else None;
  }

  method Copy(store: Store, o: CopyOptions, h: Hasher, signed: bool, date: string) returns (ok: bool)
    requires store.Valid() && GoodHasher(h)
    modifies store
    ensures Copied(old(store.View()), o, h, signed, date, store.View(), ok, store.reliable)
  {
    NothingCopied(store.View(), o, h, signed, date);
    var source := RetrieveManifest(store, Slot(o.sourceCodename, o.sourceComponent, o.architecture, false), false, false);
    if source == null { return false; }
    var release := RetrieveRelease(store, o.codename, Overrides(None, None, o.byHash));
    if release == null { return false; }
    var target := PrepareCopy(store, o, release.State(), source);
    if target.None? { return false; }
    ok := PublishMetadata(store, release, [target.value], h, signed, date);
  }

  // ----------------------------------------------------------------------- deleting

  /** One architecture of a deletion: its manifest is changed if an entry goes. */
  function Deleter(objects: map<string, Doc>, o: DeleteOptions, byHash: bool): (seq<ManifestState>, string) -> Option<seq<ManifestState>>
  {
    (changed, architecture) =>
      match ManifestRead(objects, Slot(o.codename, o.component, architecture, byHash), false, true)
      case None => None
      case Some(m) =>
        if Deleted(m.packages, o.name, o.versions) == [] then Some(changed)
        else Some(changed + [m.(packages := Retained(m.packages, o.name, o.versions))])
  }

  function DeletedIn(o: DeleteOptions, r: ReleaseState): seq<string>
  {
    if o.architecture == "all" then r.architectures else [o.architecture]
  }

  /** The changed manifests of a deletion; none if nothing is deleted. */
  function DeleteTargets(objects: map<string, Doc>, o: DeleteOptions, r: ReleaseState): Option<seq<ManifestState>>
  {
    match Steps([], DeletedIn(o, r), Deleter(objects, o, r.byHash))
    case None => None
    case Some(changed) => if changed == [] then None else Some(changed)
  }

  ghost predicate DeletedEntries(before: map<string, Doc>, o: DeleteOptions, h: Hasher, signed: bool, date: string,
                                 after: map<string, Doc>, ok: bool, reliable: bool)
  {
    match ReleaseRead(before, o.codename, o.overrides)
    case None => !ok && after == before
    case Some(r) =>
      match DeleteTargets(before, o, r)
      case None => !ok && after == before
      case Some(ms) => ManifestsPublished(before, r, ms, h, signed, date, after, ok, reliable)
  }

  lemma NothingDeleted(before: map<string, Doc>, o: DeleteOptions, h: Hasher, signed: bool, date: string)
    ensures DeletedEntries(before, o, h, signed, date, before, false, false)
  {
    if ReleaseRead(before, o.codename, o.overrides).Some? {
      var r := ReleaseRead(before, o.codename, o.overrides).value;
      if DeleteTargets(before, o, r).Some? {
        NothingPublished(before, r, DeleteTargets(before, o, r).value, h, signed, date);
      }
    }
  }

  method DeleteIn(store: Store, o: DeleteOptions, byHash: bool, changed: seq<ManifestState>, architecture: string,
                  ghost step: (seq<ManifestState>, string) -> Option<seq<ManifestState>>) returns (next: Option<seq<ManifestState>>)
    requires store.Valid() && step == Deleter(store.View(), o, byHash)
    ensures next.Some? || store.reliable ==> next == step(changed, architecture)
  {
    var m := RetrieveManifest(store, Slot(o.codename, o.component, architecture, byHash), false, true);
    if m == null { return None; }
    var deleted := m.DeletePackage(o.name, o.versions);
    next := Some(if deleted == [] then changed else changed + [m.State()]);
  }

  lemma TargetsOf(objects: map<string, Doc>, o: DeleteOptions, r: ReleaseState, changed: Option<seq<ManifestState>>)
    requires Steps([], DeletedIn(o, r), Deleter(objects, o, r.byHash)) == changed
    ensures DeleteTargets(objects, o, r) == if changed == None || changed.value == [] then None else changed
  {
  }

  method PrepareDelete(store: Store, o: DeleteOptions, r: ReleaseState) returns (changed: Option<seq<ManifestState>>)
    requires store.Valid()
    ensures changed.Some? || store.reliable ==> changed == DeleteTargets(store.View(), o, r)
  {
    var architectures := if o.architecture == "all" then r.architectures else [o.architecture];
    ghost var step := Deleter(store.View(), o, r.byHash);
    changed := Some([]);
    for i := 0 to |architectures|
      invariant changed.Some? && Steps([], architectures[..i], step) == changed
    {
      StepsNext([], architectures, step, i);
      changed := DeleteIn(store, o, r.byHash, changed.value, architectures[i], step);
      if changed.None? {
        if store.reliable { TargetsOf(store.View(), o, r, None); }
        return;
      }
    }
    assert architectures[..|architectures|] == architectures;
    TargetsOf(store.View(), o, r, changed);
    if changed.value == [] { changed := None; }
  }

  method Delete(store: Store, o: DeleteOptions, h: Hasher, signed: bool, date: string) returns (ok: bool)
    requires store.Valid() && GoodHasher(h)
    modifies store
    ensures DeletedEntries(old(store.View()), o, h, signed, date, store.View(), ok, store.reliable)
  {
    NothingDeleted(store.View(), o, h, signed, date);
    var release := RetrieveRelease(store, o.codename, o.overrides);
    if release == null { return false; }
    var changed := PrepareDelete(store, o, release.State());
    if changed.None? { return false; }
    ok := PublishMetadata(store, release, changed.value, h, signed, date);
  }
}
