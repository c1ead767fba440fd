/**
 Uploading packages: each one goes to the manifest of its architecture, and the
 architecture-independent ones to every other manifest as well.
 */
module Uploading {
  import opened Text
  import opened Packages
  import opened Documents
  import opened Stores
  import opened Manifests
  import opened Publication
  import opened Publishing
  import opened Metadata
  import opened Retrieval

  datatype UploadOptions = UploadOptions(
    codename: string,
    component: string,
    overrides: Overrides,
    architecture: Option<string>,
    preserveVersions: bool,
    failIfExists: bool,
    skipPackageUpload: bool)

  const DEFAULT_ARCHITECTURES: seq<string> := ["amd64", "i386", "armhf", "arm64"]

  /** The manifests open so far, in order, and the architecture-independent packages placed so far. */
  datatype Fan = Fan(ordered: seq<ManifestState>, common: seq<Package>)

  /** Where the manifest of an architecture is among the open ones; the length if it is not. */
  function Position(ordered: seq<ManifestState>, architecture: string): (i: nat)
    ensures i <= |ordered|
    ensures i < |ordered| ==> ordered[i].architecture == architecture
  {
    if ordered == [] then 0
    else if ordered[0].architecture == architecture then 0
    else 1 + Position(ordered[1..], architecture)
  }

  /** Opens the manifest of an architecture unless it is open. */
  function Open(objects: map<string, Doc>, o: UploadOptions, byHash: bool, ordered: seq<ManifestState>, architecture: string)
    : Option<seq<ManifestState>>
  {
    if Position(ordered, architecture) < |ordered| then Some(ordered)
    else
      match ManifestRead(objects, Slot(o.codename, o.component, architecture, byHash), o.failIfExists, o.skipPackageUpload)
      case None => None
      case Some(m) => Some(ordered + [m])
  }

  function Opener(objects: map<string, Doc>, o: UploadOptions, byHash: bool): (seq<ManifestState>, string) -> Option<seq<ManifestState>>
  {
    (ordered, architecture) => Open(objects, o, byHash, ordered, architecture)
  }

  function OpenAll(objects: map<string, Doc>, o: UploadOptions, byHash: bool, ordered: seq<ManifestState>, architectures: seq<string>)
    : Option<seq<ManifestState>>
  {
    Steps(ordered, architectures, Opener(objects, o, byHash))
  }

  function SeedArchitectures(r: ReleaseState): seq<string>
  {
    if |r.architectures| > 0 then r.architectures else DEFAULT_ARCHITECTURES
  }

  /** The architecture whose manifest a package goes to; a concrete one cannot be overridden by another. */
  function PlacedIn(o: UploadOptions, p: Package): Option<string>
  {
    match o.architecture
    case None => if p.architecture == "" then None else Some(p.architecture)
    case Some(a) =>
      if p.architecture != "" && p.architecture != "all" && p.architecture != a then None
      else if a == "" then None
      else Some(a)
  }

  /** The manifests open when a package is added to its own. */
  function OpenedFor(objects: map<string, Doc>, o: UploadOptions, r: ReleaseState, ordered: seq<ManifestState>, architecture: string)
    : Option<seq<ManifestState>>
  {
    var seeded := if architecture == "all" && |ordered| == 0
                  then OpenAll(objects, o, r.byHash, ordered, SeedArchitectures(r))
                  else Some(ordered);
    match seeded
    case None => None
    case Some(ready) => Open(objects, o, r.byHash, ready, architecture)
  }

  function PlaceOne(objects: map<string, Doc>, o: UploadOptions, r: ReleaseState, fan: Fan, p: Package): Option<Fan>
  {
    match PlacedIn(o, p)
    case None => None
    case Some(a) =>
      match OpenedFor(objects, o, r, fan.ordered, a)
      case None => None
      case Some(ready) =>
        var i := Position(ready, a);
        if i == |ready| then None
        else
          match AddTo(ready[i], p, o.preserveVersions, true)
          case Err(_) => None
          case Ok(m) => Some(Fan(ready[i := m], if a == "all" then fan.common + [p] else fan.common))
  }

  /** Placing inspected packages; a file that cannot be inspected ends the upload. */
  function Placer(objects: map<string, Doc>, o: UploadOptions, r: ReleaseState): (Fan, Option<Package>) -> Option<Fan>
  {
    (fan: Fan, p: Option<Package>) => if p.None? then None else PlaceOne(objects, o, r, fan, p.value)
  }

  function PlaceAll(objects: map<string, Doc>, o: UploadOptions, r: ReleaseState, inspected: seq<Option<Package>>): Option<Fan>
  {
    match OpenAll(objects, o, r.byHash, [], r.architectures)
    case None => None
    case Some(ready) => Steps(Fan(ready, []), inspected, Placer(objects, o, r))
  }

  /** Adding packages without uploading them. */
  function Adder(preserveVersions: bool): (ManifestState, Package) -> Option<ManifestState>
  {
    (m, p) => match AddTo(m, p, preserveVersions, false) case Err(_) => None case Ok(added) => Some(added)
  }

  function AddCommon(m: ManifestState, common: seq<Package>, preserveVersions: bool): Option<ManifestState>
  {
    Steps(m, common, Adder(preserveVersions))
  }

  function Propagated(m: ManifestState, common: seq<Package>, preserveVersions: bool): Option<ManifestState>
  {
    if m.architecture == "all" then Some(m) else AddCommon(m, common, preserveVersions)
  }

  function PropagatedAll(ms: seq<ManifestState>, common: seq<Package>, preserveVersions: bool): Option<seq<ManifestState>>
  {
    if ms == [] then Some([])
    else
      match PropagatedAll(ms[..|ms| - 1], common, preserveVersions)
      case None => None
      case Some(done) =>
        match Propagated(ms[|ms| - 1], common, preserveVersions)
        case None => None
        case Some(m) => Some(done + [m])
  }

  /** The manifests an upload publishes. */
  function UploadManifests(objects: map<string, Doc>, o: UploadOptions, r: ReleaseState, inspected: seq<Option<Package>>)
    : Option<seq<ManifestState>>
  {
    match PlaceAll(objects, o, r, inspected)
    case None => None
    case Some(fan) => PropagatedAll(fan.ordered, fan.common, o.preserveVersions)
  }

  // ---------------------------------------------------------------- package bodies

  /** The put of a pending package's body, if it may be put. */
  function BodyWrite(m: ManifestState, p: Package, disk: map<string, string>): Option<Write>
  {
    if p.filename == "" then None
    else
      match RepositoryFilename(p, m.codename)
      case Err(_) => None
      case Ok(key) =>
        if !HasPrefix(key, "pool/") || p.filename !in disk then None
        else Some(Put(key, Bytes(disk[p.filename]), PutOptions(m.failIfExists, false)))
  }

  /** The puts up to the first pending package that may not be put, and whether that is all of them. */
  function BodyWrites(m: ManifestState, pending: seq<Package>, disk: map<string, string>): (seq<Write>, bool)
  {
    if pending == [] then ([], true)
    else
      var (writes, whole) := BodyWrites(m, pending[..|pending| - 1], disk);
      var last := BodyWrite(m, pending[|pending| - 1], disk);
      if !whole || last.None? then (writes, false) else (writes + [last.value], true)
  }

  function ManifestBodies(m: ManifestState, disk: map<string, string>): (seq<Write>, bool)
  {
    if m.skipPackageUpload then ([], true) else BodyWrites(m, m.pendingUploads, disk)
  }

  function PoolWrites(ms: seq<ManifestState>, disk: map<string, string>): (seq<Write>, bool)
  {
    if ms == [] then ([], true)
    else
      var (writes, whole) := PoolWrites(ms[..|ms| - 1], disk);
      if !whole then (writes, false)
      else
        var (last, complete) := ManifestBodies(ms[|ms| - 1], disk);
        (writes + last, complete)
  }

  /** As Ran, for writes after which the command cannot go on unless they are whole. */
  ghost predicate RanPart(before: map<string, Doc>, part: (seq<Write>, bool), after: map<string, Doc>, ok: bool, reliable: bool)
  {
    if part.1 then Ran(before, part.0, after, ok, reliable)
    else !ok && exists issued :: Ran(before, part.0, after, issued, reliable)
  }

  /** All writes of an upload: bodies, then metadata. */
  function UploadPlan(ms: seq<ManifestState>, disk: map<string, string>, closed: ReleaseState, ps: seq<Prepared>, h: Hasher,
                      signed: bool, date: string): (seq<Write>, bool)
  {
    var (pool, whole) := PoolWrites(ms, disk);
    if whole then (pool + PublishPlan(closed, ps, h, signed, date), true) else (pool, false)
  }

  /** A package as the inspector returns it: without an index entry's location. */
  ghost predicate Inspected(p: Package)
  {
    p.indexFilename == None
  }

  ghost predicate PendingInspected(m: ManifestState)
  {
    forall p <- m.pendingUploads :: Inspected(p)
  }

  ghost predicate AllPendingInspected(ms: seq<ManifestState>)
  {
    forall i :: 0 <= i < |ms| ==> PendingInspected(ms[i])
  }

  /** Bodies are put at usable keys. */
  lemma BodyUsable(m: ManifestState, p: Package, disk: map<string, string>)
    requires Inspected(p) && BodyWrite(m, p, disk).Some?
    ensures Usable(BodyWrite(m, p, disk).value.key)
  {
    RelativeUsable(RepositoryFilename(p, m.codename).value);
  }

  method PublishBodies(store: Store, m: ManifestState, disk: map<string, string>) returns (ok: bool)
    requires store.Valid() && PendingInspected(m)
    modifies store
    ensures RanPart(old(store.View()), ManifestBodies(m, disk), store.View(), ok, store.reliable)
  {
    ghost var before := store.View();
    RanNothing(before, store.reliable);
    if m.skipPackageUpload { return true; }
    var pending := m.pendingUploads;
    for i := 0 to |pending|
      invariant BodyWrites(m, pending[..i], disk).1
      invariant Ran(before, BodyWrites(m, pending[..i], disk).0, store.View(), true, store.reliable)
    {
      assert pending[..i + 1][..i] == pending[..i];
      ghost var done, whole := BodyWrites(m, pending[..i], disk).0, BodyWrites(m, pending, disk).0;
      BodyPrefix(m, pending, i + 1, disk);
      var w := BodyWrite(m, pending[i], disk);
      if w.None? { return false; }
      BodyUsable(m, pending[i], disk);
      ghost var middle := store.View();
      var error := store.Put(w.value.key, w.value.doc, w.value.options);
      RanStretch(before, done, middle, [w.value], store.View(), error.None?, store.reliable, whole);
      if error.Some? { return false; }
    }
    assert pending[..|pending|] == pending;
    ok := true;
  }

  lemma {:induction false} BodyPrefix(m: ManifestState, pending: seq<Package>, k: nat, disk: map<string, string>)
    requires k <= |pending|
    ensures var part, whole := BodyWrites(m, pending[..k], disk), BodyWrites(m, pending, disk);
            part.0 <= whole.0 && (!part.1 ==> whole == part)
    decreases |pending| - k
  {
    if k < |pending| {
      assert pending[..k + 1][..k] == pending[..k];
      BodyPrefix(m, pending, k + 1, disk);
    } else {
      assert pending[..k] == pending;
    }
  }

  lemma {:induction false} PoolPrefix(ms: seq<ManifestState>, k: nat, disk: map<string, string>)
    requires k <= |ms|
    ensures var part, whole := PoolWrites(ms[..k], disk), PoolWrites(ms, disk);
            part.0 <= whole.0 && (!part.1 ==> whole == part)
    decreases |ms| - k
  {
    if k < |ms| {
      assert ms[..k + 1][..k] == ms[..k];
      PoolPrefix(ms, k + 1, disk);
    } else {
      assert ms[..k] == ms;
    }
  }

  method PublishPool(store: Store, ms: seq<ManifestState>, disk: map<string, string>) returns (ok: bool)
    requires store.Valid() && AllPendingInspected(ms)
    modifies store
    ensures RanPart(old(store.View()), PoolWrites(ms, disk), store.View(), ok, store.reliable)
  {
    ghost var before := store.View();
    RanNothing(before, store.reliable);
    for i := 0 to |ms|
      invariant PoolWrites(ms[..i], disk).1
      invariant Ran(before, PoolWrites(ms[..i], disk).0, store.View(), true, store.reliable)
    {
      assert ms[..i + 1][..i] == ms[..i];
      ghost var middle := store.View();
      ok := PublishBodies(store, ms[i], disk);
      PoolStep(before, ms, i, disk, middle, store.View(), ok, store.reliable);
      if !ok { return; }
    }
    assert ms[..|ms|] == ms;
    ok := true;
  }

  lemma PoolStep(before: map<string, Doc>, ms: seq<ManifestState>, i: nat, disk: map<string, string>,
                 middle: map<string, Doc>, after: map<string, Doc>, ok: bool, reliable: bool)
    requires i < |ms| && PoolWrites(ms[..i], disk).1 && Ran(before, PoolWrites(ms[..i], disk).0, middle, true, reliable)
    requires RanPart(middle, ManifestBodies(ms[i], disk), after, ok, reliable)
    ensures ok ==> PoolWrites(ms[..i + 1], disk).1 && Ran(before, PoolWrites(ms[..i + 1], disk).0, after, true, reliable)
    ensures !ok ==> RanPart(before, PoolWrites(ms, disk), after, false, reliable)
  {
    assert ms[..i + 1][..i] == ms[..i];
    PoolPrefix(ms, i + 1, disk);
    var done, next := PoolWrites(ms[..i], disk).0, ManifestBodies(ms[i], disk);
    if next.1 {
      RanStretch(before, done, middle, next.0, after, ok, reliable, PoolWrites(ms, disk).0);
    } else {
      var issued :| Ran(middle, next.0, after, issued, reliable);
      RanThen(before, done, middle, next.0, after, issued, reliable);
    }
  }

  // ------------------------------------------------------------------ the fan-out

  method OpenManifest(store: Store, o: UploadOptions, byHash: bool, ordered: seq<ManifestState>, architecture: string)
    returns (ready: Option<seq<ManifestState>>)
    requires store.Valid()
    ensures ready.Some? || store.reliable ==> ready == Open(store.View(), o, byHash, ordered, architecture)
  {
    if Position(ordered, architecture) < |ordered| { return Some(ordered); }
    var m := RetrieveManifest(store, Slot(o.codename, o.component, architecture, byHash), o.failIfExists, o.skipPackageUpload);
    ready := if m == null then None else Some(ordered + [m.State()]);
  }

  method OpenEvery(store: Store, o: UploadOptions, byHash: bool, ordered: seq<ManifestState>, architectures: seq<string>)
    returns (ready: Option<seq<ManifestState>>)
    requires store.Valid()
    ensures ready.Some? || store.reliable ==> ready == OpenAll(store.View(), o, byHash, ordered, architectures)
  {
    ghost var step := Opener(store.View(), o, byHash);
    ready := Some(ordered);
    for i := 0 to |architectures|
      invariant ready.Some? && ready == Steps(ordered, architectures[..i], step)
    {
      StepsNext(ordered, architectures, step, i);
      ready := OpenManifest(store, o, byHash, ready.value, architectures[i]);
      if ready.None? { return; }
    }
    assert architectures[..|architectures|] == architectures;
  }

  method OpenFor(store: Store, o: UploadOptions, r: ReleaseState, ordered: seq<ManifestState>, architecture: string)
    returns (ready: Option<seq<ManifestState>>)
    requires store.Valid()
    ensures ready.Some? || store.reliable ==> ready == OpenedFor(store.View(), o, r, ordered, architecture)
  {
    ready := Some(ordered);
    if architecture == "all" && |ordered| == 0 {
      ready := OpenEvery(store, o, r.byHash, ordered, SeedArchitectures(r));
      if ready.None? { return; }
    }
    ready := OpenManifest(store, o, r.byHash, ready.value, architecture);
  }

  method Place(store: Store, o: UploadOptions, r: ReleaseState, fan: Fan, p: Package) returns (placed: Option<Fan>)
    requires store.Valid()
    ensures placed.Some? || store.reliable ==> placed == PlaceOne(store.View(), o, r, fan, p)
  {
    var architecture := p.architecture;
    if o.architecture.Some? {
      if p.architecture != "" && p.architecture != "all" && p.architecture != o.architecture.value { return None; }
      architecture := o.architecture.value;
    }
    if architecture == "" { return None; }
    var ready := OpenFor(store, o, r, fan.ordered, architecture);
    if ready.None? { return None; }
    var i := Position(ready.value, architecture);
    if i == |ready.value| { return None; }
    var added := AddTo(ready.value[i], p, o.preserveVersions, true);
    if added.Err? { return None; }
    placed := Some(Fan(ready.value[i := added.value], if architecture == "all" then fan.common + [p] else fan.common));
  }

  method PlaceEvery(store: Store, o: UploadOptions, r: ReleaseState, inspected: seq<Option<Package>>) returns (placed: Option<Fan>)
    requires store.Valid()
    ensures placed.Some? || store.reliable ==> placed == PlaceAll(store.View(), o, r, inspected)
  {
    var ready := OpenEvery(store, o, r.byHash, [], r.architectures);
    if ready.None? { return None; }
    var start := Fan(ready.value, []);
    ghost var step := Placer(store.View(), o, r);
    placed := Some(start);
    for i := 0 to |inspected|
      invariant placed.Some? && placed == Steps(start, inspected[..i], step)
    {
      StepsNext(start, inspected, step, i);
      if inspected[i].None? { return None; }
      placed := Place(store, o, r, placed.value, inspected[i].value);
      if placed.None? { return; }
    }
    assert inspected[..|inspected|] == inspected;
  }

  method AddEvery(m: ManifestState, common: seq<Package>, preserveVersions: bool) returns (added: Option<ManifestState>)
    ensures added == AddCommon(m, common, preserveVersions)
  {
    ghost var step := Adder(preserveVersions);
    var current := m;
    for i := 0 to |common|
      invariant Steps(m, common[..i], step) == Some(current)
    {
      StepsNext(m, common, step, i);
      var next := AddTo(current, common[i], preserveVersions, false);
      if next.Err? { return None; }
      current := next.value;
    }
    assert common[..|common|] == common;
    added := Some(current);
  }

  lemma {:induction false} PropagatedPointwise(ms: seq<ManifestState>, common: seq<Package>, preserveVersions: bool, done: seq<ManifestState>)
    requires |done| == |ms|
    requires forall i :: 0 <= i < |ms| ==> Propagated(ms[i], common, preserveVersions) == Some(done[i])
    ensures PropagatedAll(ms, common, preserveVersions) == Some(done)
  {
    if ms != [] {
      PropagatedPointwise(ms[..|ms| - 1], common, preserveVersions, done[..|ms| - 1]);
      assert done == done[..|ms| - 1] + [done[|ms| - 1]];
    }
  }

  lemma {:induction false} PropagatedFails(ms: seq<ManifestState>, common: seq<Package>, preserveVersions: bool, i: nat)
    requires i < |ms| && Propagated(ms[i], common, preserveVersions) == None
    ensures PropagatedAll(ms, common, preserveVersions) == None
    decreases |ms|
  {
    if i < |ms| - 1 { PropagatedFails(ms[..|ms| - 1], common, preserveVersions, i); }
  }

  function Positions(n: nat): (positions: set<nat>)
    ensures forall i: nat :: i in positions <==> i < n
  {
    if n == 0 then {} else Positions(n - 1) + {n - 1}
  }

  /** Adds the architecture-independent packages to all other manifests, whatever order they are taken in. */
  method PropagateEvery(ms: seq<ManifestState>, common: seq<Package>, preserveVersions: bool) returns (done: Option<seq<ManifestState>>)
    ensures done == PropagatedAll(ms, common, preserveVersions)
  {
    var todo := Positions(|ms|);
    var current := ms;
    while todo != {}
      invariant forall i :: i in todo ==> 0 <= i < |ms|
      invariant |current| == |ms|
      invariant forall i :: 0 <= i < |ms| ==>
        if i in todo then current[i] == ms[i] else Propagated(ms[i], common, preserveVersions) == Some(current[i])
      decreases |todo|
    {
      var i :| i in todo;
      todo := todo - {i};
      if current[i].architecture != "all" {
        var added := AddEvery(current[i], common, preserveVersions);
        if added.None? {
          PropagatedFails(ms, common, preserveVersions, i);
          return None;
        }
        current := current[i := added.value];
      }
    }
    PropagatedPointwise(ms, common, preserveVersions, current);
    done := Some(current);
  }

  method FanOut(store: Store, o: UploadOptions, r: ReleaseState, inspected: seq<Option<Package>>) returns (ms: Option<seq<ManifestState>>)
    requires store.Valid()
    ensures ms.Some? || store.reliable ==> ms == UploadManifests(store.View(), o, r, inspected)
  {
    var placed := PlaceEvery(store, o, r, inspected);
    if placed.None? { return None; }
    ms := PropagateEvery(placed.value.ordered, placed.value.common, o.preserveVersions);
  }

  // ---------------------------------------------------------------- the command

  /** What an upload does to the store: nothing, or a prefix of its planned writes. */
  ghost predicate Uploaded(before: map<string, Doc>, o: UploadOptions, inspected: seq<Option<Package>>, disk: map<string, string>,
                           h: Hasher, signed: bool, date: string, after: map<string, Doc>, ok: bool, reliable: bool)
  {
    match ReleaseRead(before, o.codename, o.overrides)
    case None => !ok && after == before
    case Some(r) =>
      match UploadManifests(before, o, r, inspected)
      case None => !ok && after == before
      case Some(ms) => UploadedManifests(before, r, ms, disk, h, signed, date, after, ok, reliable)
  }

  ghost predicate UploadedManifests(before: map<string, Doc>, r: ReleaseState, ms: seq<ManifestState>, disk: map<string, string>,
                                    h: Hasher, signed: bool, date: string, after: map<string, Doc>, ok: bool, reliable: bool)
  {
    match Closure(r, ms, h)
    case Err(_) => !ok && after == before
    case Ok((closed, ps)) => RanPart(before, UploadPlan(ms, disk, closed, ps, h, signed, date), after, ok, reliable)
  }

  lemma NothingUploaded(before: map<string, Doc>, r: ReleaseState, ms: seq<ManifestState>, disk: map<string, string>,
                        h: Hasher, signed: bool, date: string)
    ensures UploadedManifests(before, r, ms, disk, h, signed, date, before, false, false)
  {
    if Closure(r, ms, h).Ok? {
      var (closed, ps) := Closure(r, ms, h).value;
      RanFaulted(before, UploadPlan(ms, disk, closed, ps, h, signed, date).0);
    }
  }

  method PublishUpload(store: Store, release: Release, ms: seq<ManifestState>, disk: map<string, string>, h: Hasher,
                       signed: bool, date: string) returns (ok: bool)
    requires store.Valid() && GoodHasher(h) && AllPendingInspected(ms)
    modifies store, release
    ensures UploadedManifests(old(store.View()), old(release.State()), ms, disk, h, signed, date, store.View(), ok, store.reliable)
  {
    ghost var before := store.View();
    var prepared := PrepareClosure(release, ms, h);
    if prepared.Err? { return false; }
    ok := PublishPool(store, ms, disk);
    ghost var (pool, whole) := PoolWrites(ms, disk);
    ghost var final := PublishPlan(release.State(), prepared.value, h, signed, date);
    if !ok {
      if whole { RanStopped(before, pool, final, store.View(), store.reliable); }
      return;
    }
    ghost var middle := store.View();
    ok := PublishPhases(store, release, prepared.value, h, signed, date);
    RanThen(before, pool, middle, final, store.View(), ok, store.reliable);
  }

  /** Uploads packages: every read comes before the first write, every body before the first index. */
  method Upload(store: Store, o: UploadOptions, inspected: seq<Option<Package>>, disk: map<string, string>, h: Hasher,
                signed: bool, date: string) returns (ok: bool)
    requires store.Valid() && GoodHasher(h)
    requires forall p <- inspected :: p.Some? ==> Inspected(p.value)
    modifies store
    ensures Uploaded(old(store.View()), o, inspected, disk, h, signed, date, store.View(), ok, store.reliable)
  {
    ghost var before := store.View();
    var release := RetrieveRelease(store, o.codename, o.overrides);
    ghost var r := ReleaseRead(before, o.codename, o.overrides);
    if release == null {
      if r.Some? && UploadManifests(before, o, r.value, inspected).Some? {
        NothingUploaded(before, r.value, UploadManifests(before, o, r.value, inspected).value, disk, h, signed, date);
      }
      return false;
    }
    var ms := FanOut(store, o, release.State(), inspected);
    if ms.None? {
      if UploadManifests(before, o, r.value, inspected).Some? {
        NothingUploaded(before, r.value, UploadManifests(before, o, r.value, inspected).value, disk, h, signed, date);
      }
      return false;
    }
    UploadsInspected(before, o, r.value, inspected);
    ok := PublishUpload(store, release, ms.value, disk, h, signed, date);
  }

  // --------------------------------------------------- pending uploads are inspected

  lemma OpenInspected(objects: map<string, Doc>, o: UploadOptions, byHash: bool, ordered: seq<ManifestState>, architecture: string)
    requires AllPendingInspected(ordered) && Open(objects, o, byHash, ordered, architecture).Some?
    ensures AllPendingInspected(Open(objects, o, byHash, ordered, architecture).value)
  {
  }

  lemma {:induction false} OpenAllInspected(objects: map<string, Doc>, o: UploadOptions, byHash: bool, ordered: seq<ManifestState>,
                                            architectures: seq<string>)
    requires AllPendingInspected(ordered) && OpenAll(objects, o, byHash, ordered, architectures).Some?
    ensures AllPendingInspected(OpenAll(objects, o, byHash, ordered, architectures).value)
    decreases |architectures|
  {
    if architectures != [] {
      var front, last := architectures[..|architectures| - 1], architectures[|architectures| - 1];
      OpenAllInspected(objects, o, byHash, ordered, front);
      OpenInspected(objects, o, byHash, OpenAll(objects, o, byHash, ordered, front).value, last);
    }
  }

  lemma OpenedInspected(objects: map<string, Doc>, o: UploadOptions, r: ReleaseState, ordered: seq<ManifestState>, architecture: string)
    requires AllPendingInspected(ordered) && OpenedFor(objects, o, r, ordered, architecture).Some?
    ensures AllPendingInspected(OpenedFor(objects, o, r, ordered, architecture).value)
  {
    if architecture == "all" && |ordered| == 0 {
      OpenAllInspected(objects, o, r.byHash, ordered, SeedArchitectures(r));
      OpenInspected(objects, o, r.byHash, OpenAll(objects, o, r.byHash, ordered, SeedArchitectures(r)).value, architecture);
    } else {
      OpenInspected(objects, o, r.byHash, ordered, architecture);
    }
  }

  lemma PlaceInspected(objects: map<string, Doc>, o: UploadOptions, r: ReleaseState, fan: Fan, p: Package)
    requires AllPendingInspected(fan.ordered) && Inspected(p) && PlaceOne(objects, o, r, fan, p).Some?
    ensures AllPendingInspected(PlaceOne(objects, o, r, fan, p).value.ordered)
  {
    var a := PlacedIn(o, p).value;
    OpenedInspected(objects, o, r, fan.ordered, a);
    var ready := OpenedFor(objects, o, r, fan.ordered, a).value;
    var m := ready[Position(ready, a)];
    assert PendingInspected(m);
  }

  lemma {:induction false} PlaceAllInspected(objects: map<string, Doc>, o: UploadOptions, r: ReleaseState, inspected: seq<Option<Package>>)
    requires forall p <- inspected :: p.Some? ==> Inspected(p.value)
    requires PlaceAll(objects, o, r, inspected).Some?
    ensures AllPendingInspected(PlaceAll(objects, o, r, inspected).value.ordered)
  {
    if inspected == [] {
      OpenAllInspected(objects, o, r.byHash, [], r.architectures);
    } else {
      PlaceAllInspected(objects, o, r, inspected[..|inspected| - 1]);
      PlaceInspected(objects, o, r, PlaceAll(objects, o, r, inspected[..|inspected| - 1]).value, inspected[|inspected| - 1].value);
    }
  }

  lemma {:induction false} AddCommonPending(m: ManifestState, common: seq<Package>, preserveVersions: bool)
    requires AddCommon(m, common, preserveVersions).Some?
    ensures var added := AddCommon(m, common, preserveVersions).value; added == m.(packages := added.packages)
    decreases |common|
  {
    if common != [] { AddCommonPending(m, common[..|common| - 1], preserveVersions); }
  }

  lemma {:induction false} PropagatedAt(ms: seq<ManifestState>, common: seq<Package>, preserveVersions: bool, i: nat)
    requires PropagatedAll(ms, common, preserveVersions).Some? && i < |ms|
    ensures |PropagatedAll(ms, common, preserveVersions).value| == |ms|
    ensures Propagated(ms[i], common, preserveVersions) == Some(PropagatedAll(ms, common, preserveVersions).value[i])
    decreases |ms|
  {
    var front := ms[..|ms| - 1];
    PropagatedLength(front, common, preserveVersions);
    if i < |ms| - 1 { PropagatedAt(front, common, preserveVersions, i); }
  }

  lemma {:induction false} PropagatedLength(ms: seq<ManifestState>, common: seq<Package>, preserveVersions: bool)
    requires PropagatedAll(ms, common, preserveVersions).Some?
    ensures |PropagatedAll(ms, common, preserveVersions).value| == |ms|
  {
    if ms != [] { PropagatedLength(ms[..|ms| - 1], common, preserveVersions); }
  }

  lemma UploadsInspected(objects: map<string, Doc>, o: UploadOptions, r: ReleaseState, inspected: seq<Option<Package>>)
    requires forall p <- inspected :: p.Some? ==> Inspected(p.value)
    requires UploadManifests(objects, o, r, inspected).Some?
    ensures AllPendingInspected(UploadManifests(objects, o, r, inspected).value)
  {
    PlaceAllInspected(objects, o, r, inspected);
    var fan := PlaceAll(objects, o, r, inspected).value;
    var ms := UploadManifests(objects, o, r, inspected).value;
    PropagatedLength(fan.ordered, fan.common, o.preserveVersions);
    forall i | 0 <= i < |ms| ensures PendingInspected(ms[i]) {
      PropagatedAt(fan.ordered, fan.common, o.preserveVersions, i);
      assert PendingInspected(fan.ordered[i]);
      if fan.ordered[i].architecture != "all" {
        AddCommonPending(fan.ordered[i], fan.common, o.preserveVersions);
      }
    }
  }
}
