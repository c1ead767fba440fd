/** Verifying that indexed packages exist, and removing the pool objects no index mentions. */
module Maintaining {
  import opened Text
  import opened Paths
  import opened Keys
  import opened Packages
  import opened Documents
  import opened IndexText
  import opened Stores
  import opened Manifests
  import opened Publication
  import opened Publishing
  import opened Metadata
  import opened Retrieval
  import opened Managing

  // ---------------------------------------------------------------------- verifying

  datatype VerifyOptions = VerifyOptions(codename: string, component: string, fixManifests: bool, overrides: Overrides)

  datatype Counts = Counts(checked: nat, missing: nat, repaired: nat)

  /** The entries of one manifest that stay, and how many are missing from the pool. */
  datatype Check = Check(retained: seq<Package>, missing: nat)

  /** One entry: it needs a location the store accepts; a missing one goes when manifests are fixed. */
  function Checker(objects: map<string, Doc>, o: VerifyOptions): (Check, Package) -> Option<Check>
  {
    (c: Check, p: Package) =>
      match RepositoryFilename(p, o.codename)
      case Err(_) => None
      case Ok(key) =>
        if Named(key).None? then None
        else if Found(objects, key).Some? then Some(Check(c.retained + [p], c.missing))
        else Some(Check(if o.fixManifests then c.retained else c.retained + [p], c.missing + 1))
  }

  function CheckAll(objects: map<string, Doc>, o: VerifyOptions, packages: seq<Package>): Option<Check>
  {
    Steps(Check([], 0), packages, Checker(objects, o))
  }

  /** Whether a package's location names a stored object. */
  function Backed(objects: map<string, Doc>, codename: string): Package -> bool
  {
    (p: Package) => RepositoryFilename(p, codename).Ok? && Found(objects, RepositoryFilename(p, codename).value).Some?
  }

  function Orphaned(objects: map<string, Doc>, codename: string): Package -> bool
  {
    (p: Package) => !Backed(objects, codename)(p)
  }

  /** Whether a package has a location, and one that the store accepts. */
  ghost predicate Resolvable(packages: seq<Package>, codename: string)
  {
    forall i :: 0 <= i < |packages| ==>
      RepositoryFilename(packages[i], codename).Ok? && Named(RepositoryFilename(packages[i], codename).value).Some?
  }

  /**
   A check goes through exactly when every entry has a location. With manifests fixed it
   retains the entries whose object is stored, otherwise all, and it counts the others.
   */
  lemma {:induction false} CheckExact(objects: map<string, Doc>, o: VerifyOptions, packages: seq<Package>)
    ensures CheckAll(objects, o, packages).Some? <==> Resolvable(packages, o.codename)
    ensures CheckAll(objects, o, packages).Some? ==>
              && CheckAll(objects, o, packages).value.retained ==
                 (if o.fixManifests then Filter(packages, Backed(objects, o.codename)) else packages)
              && CheckAll(objects, o, packages).value.missing == |Filter(packages, Orphaned(objects, o.codename))|
  {
    if packages != [] {
      var front, last := packages[..|packages| - 1], packages[|packages| - 1];
      assert packages == front + [last];
      CheckExact(objects, o, front);
      FilterSnoc(front, last, Backed(objects, o.codename));
      FilterSnoc(front, last, Orphaned(objects, o.codename));
      ResolvableMore(front, last, o.codename);
    }
  }

  lemma ResolvableMore(front: seq<Package>, last: Package, codename: string)
    ensures Resolvable(front + [last], codename) <==>
            Resolvable(front, codename) && RepositoryFilename(last, codename).Ok? && Named(RepositoryFilename(last, codename).value).Some?
  {
    var whole := front + [last];
    assert whole[|front|] == last;
    assert forall i :: 0 <= i < |front| ==> whole[i] == front[i];
  }

  datatype Verification = Verification(changed: seq<ManifestState>, counts: Counts)

  function Verifier(objects: map<string, Doc>, o: VerifyOptions, byHash: bool): (Verification, string) -> Option<Verification>
  {
    (v: Verification, architecture: string) =>
      match ManifestRead(objects, Slot(o.codename, o.component, architecture, byHash), false, true)
      case None => None
      case Some(m) =>
        match CheckAll(objects, o, m.packages)
        case None => None
        case Some(c) => Some(VerifiedManifest(v, o, m, c))
  }

  function VerifiedManifest(v: Verification, o: VerifyOptions, m: ManifestState, c: Check): Verification
  {
    var repairs := o.fixManifests && c.missing > 0;
    Verification(if repairs then v.changed + [m.(packages := c.retained)] else v.changed,
                 Counts(v.counts.checked + |m.packages|, v.counts.missing + c.missing,
                        v.counts.repaired + if repairs then c.missing else 0))
  }

  function VerifyAll(objects: map<string, Doc>, o: VerifyOptions, r: ReleaseState): Option<Verification>
  {
    Steps(Verification([], Counts(0, 0, 0)), r.architectures, Verifier(objects, o, r.byHash))
  }

  /** What follows a verification: repaired manifests are published, else a signed Release is. */
  ghost predicate VerifiedWrites(before: map<string, Doc>, r: ReleaseState, changed: seq<ManifestState>, h: Hasher,
                                 signed: bool, date: string, after: map<string, Doc>, ok: bool, reliable: bool)
  {
    if changed != [] then ManifestsPublished(before, r, changed, h, signed, date, after, ok, reliable)
    else if signed then Ran(before, ReleasePlan(r, h, signed, date), after, ok, reliable)
    else after == before && (reliable ==> ok)
  }

  ghost predicate Verified(before: map<string, Doc>, o: VerifyOptions, h: Hasher, signed: bool, date: string,
                           after: map<string, Doc>, ok: bool, counts: Counts, reliable: bool)
  {
    match ReleaseRead(before, o.codename, o.overrides)
    case None => !ok && after == before
    case Some(r) =>
      match VerifyAll(before, o, r)
      case None => !ok && after == before
      case Some(v) => VerifiedWrites(before, r, v.changed, h, signed, date, after, ok, reliable) && (ok ==> counts == v.counts)
  }

  lemma NothingVerified(before: map<string, Doc>, o: VerifyOptions, h: Hasher, signed: bool, date: string, counts: Counts)
    ensures Verified(before, o, h, signed, date, before, false, counts, false)
  {
    if ReleaseRead(before, o.codename, o.overrides).Some? {
      var r := ReleaseRead(before, o.codename, o.overrides).value;
      if VerifyAll(before, o, r).Some? {
        NothingPublished(before, r, VerifyAll(before, o, r).value.changed, h, signed, date);
        RanFaulted(before, ReleasePlan(r, h, signed, date));
      }
    }
  }

  /** No entry of these has a location that means different objects with and without a prefix. */
  ghost predicate UsableNames(packages: seq<Package>, codename: string)
  {
    forall p <- packages :: RepositoryFilename(p, codename).Ok? ==> Usable(RepositoryFilename(p, codename).value)
  }

  /** The entries of one architecture's stored index. */
  ghost predicate UsableIndex(objects: map<string, Doc>, o: VerifyOptions, architecture: string)
  {
    var doc := Found(objects, PackagesPath(o.codename, o.component, architecture));
    doc.Some? && Entries(doc.value).Some? ==> UsableNames(Entries(doc.value).value, o.codename)
  }

  ghost predicate AllUsableNames(objects: map<string, Doc>, o: VerifyOptions, architectures: seq<string>)
  {
    forall i :: 0 <= i < |architectures| ==> UsableIndex(objects, o, architectures[i])
  }

  /** The same for all indices a verification reads. */
  ghost predicate Verifiable(objects: map<string, Doc>, o: VerifyOptions)
  {
    match ReleaseRead(objects, o.codename, o.overrides)
    case None => true
    case Some(r) => AllUsableNames(objects, o, r.architectures)
  }

  method CheckEntry(store: Store, o: VerifyOptions, c: Check, p: Package) returns (next: Option<Check>)
    requires store.Valid()
    ensures (next.Some? || store.reliable) && (RepositoryFilename(p, o.codename).Ok? ==> Usable(RepositoryFilename(p, o.codename).value)) ==>
              next == Checker(store.View(), o)(c, p)
  {
    var key := RepositoryFilename(p, o.codename);
    if key.Err? { return None; }
    var present := store.Head(key.value);
    if present.Err? { return None; }
    if present.value { return Some(c.(retained := c.retained + [p])); }
    next := Some(Check(if o.fixManifests then c.retained else c.retained + [p], c.missing + 1));
  }

  method CheckEntries(store: Store, o: VerifyOptions, packages: seq<Package>) returns (checked: Option<Check>)
    requires store.Valid()
    ensures (checked.Some? || store.reliable) && UsableNames(packages, o.codename) ==>
              checked == CheckAll(store.View(), o, packages)
    ensures checked.Some? && UsableNames(packages, o.codename) ==>
              && checked.value.retained ==
                 (if o.fixManifests then Filter(packages, Backed(store.View(), o.codename)) else packages)
              && checked.value.missing == |Filter(packages, Orphaned(store.View(), o.codename))|
  {
    CheckExact(store.View(), o, packages);
    ghost var step := Checker(store.View(), o);
    ghost var usable := UsableNames(packages, o.codename);
    checked := Some(Check([], 0));
    for i := 0 to |packages|
      invariant checked.Some?
      invariant usable ==> Steps(Check([], 0), packages[..i], step) == checked
    {
      if usable { StepsNext(Check([], 0), packages, step, i); }
      checked := CheckEntry(store, o, checked.value, packages[i]);
      if checked.None? { return; }
    }
    assert packages[..|packages|] == packages;
  }

  method VerifyIn(store: Store, o: VerifyOptions, byHash: bool, v: Verification, architecture: string) returns (next: Option<Verification>)
    requires store.Valid()
    ensures (next.Some? || store.reliable) && UsableIndex(store.View(), o, architecture) ==>
              next == Verifier(store.View(), o, byHash)(v, architecture)
  {
    var m := RetrieveManifest(store, Slot(o.codename, o.component, architecture, byHash), false, true);
    if m == null { return None; }
    var checked := CheckEntries(store, o, m.packages);
    if checked.None? { return None; }
    var before := m.State();
    var changed := v.changed;
    if o.fixManifests && checked.value.missing > 0 {
      m.packages := checked.value.retained;
      changed := changed + [m.State()];
    }
    next := Some(VerifiedManifest(v, o, before, checked.value).(changed := changed));
  }

  method VerifyEvery(store: Store, o: VerifyOptions, r: ReleaseState) returns (result: Option<Verification>)
    requires store.Valid()
    ensures (result.Some? || store.reliable) && AllUsableNames(store.View(), o, r.architectures) ==> result == VerifyAll(store.View(), o, r)
  {
    var start := Verification([], Counts(0, 0, 0));
    ghost var step := Verifier(store.View(), o, r.byHash);
    ghost var usable := AllUsableNames(store.View(), o, r.architectures);
    result := Some(start);
    for i := 0 to |r.architectures|
      invariant result.Some?
      invariant usable ==> result == Steps(start, r.architectures[..i], step)
    {
      if usable { StepsNext(start, r.architectures, step, i); }
      result := VerifyIn(store, o, r.byHash, result.value, r.architectures[i]);
      if result.None? { return; }
    }
    assert r.architectures[..|r.architectures|] == r.architectures;
  }

  method Verify(store: Store, o: VerifyOptions, h: Hasher, signed: bool, date: string) returns (ok: bool, counts: Counts)
    requires store.Valid() && GoodHasher(h)
    modifies store
    ensures old(Verifiable(store.View(), o)) ==>
              Verified(old(store.View()), o, h, signed, date, store.View(), ok, counts, store.reliable)
  {
    counts := Counts(0, 0, 0);
    NothingVerified(store.View(), o, h, signed, date, counts);
    var release := RetrieveRelease(store, o.codename, o.overrides);
    if release == null { return false, counts; }
    var result := VerifyEvery(store, o, release.State());
    if result.None? { return false, counts; }
    counts := result.value.counts;
    if result.value.changed != [] {
      ok := PublishMetadata(store, release, result.value.changed, h, signed, date);
    } else if signed {
      ok := release.Publish(store, h, signed, date);
    } else {
      ok := true;
    }
  }
}
