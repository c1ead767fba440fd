/** Publishing changed manifests as one metadata update. */
module Metadata {
  import opened Text
  import opened Packages
  import opened Documents
  import opened Stores
  import opened Manifests
  import opened Publication
  import opened Publishing

  /** Builds a manifest's index, records its files and lists them in the Release. */
  method PrepareOne(release: Release, m: ManifestState, h: Hasher) returns (prepared: Result<Prepared, PackageError>)
    modifies release
    ensures match BuildIndex(m)
            case Err(e) => prepared == Err(e) && release.State() == old(release.State())
            case Ok(index) =>
              var p := Prepared(SlotOf(m), index);
              && prepared == Ok(p)
              && release.State() == UpdatedRelease(old(release.State()), p.slot, m.files + ArtifactFiles(p, h))
  {
    var built := BuildArtifacts(m);
    if built.Err? { return Err(built.error); }
    var recorded := RecordArtifacts(m, built.value, h);
    release.UpdateManifest(recorded);
    prepared := Ok(Prepared(SlotOf(m), built.value));
  }

  lemma {:induction false} PrepareStop(r: ReleaseState, ms: seq<ManifestState>, k: nat, h: Hasher)
    requires k <= |ms| && Prepare(r, ms[..k], h).Err?
    ensures Prepare(r, ms, h) == Prepare(r, ms[..k], h)
    decreases |ms| - k
  {
    if k < |ms| {
      assert ms[..k + 1][..k] == ms[..k];
      PrepareStop(r, ms, k + 1, h);
    } else {
      assert ms[..k] == ms;
    }
  }

  lemma PrepareNext(r: ReleaseState, ms: seq<ManifestState>, k: nat, h: Hasher)
    requires k < |ms| && Prepare(r, ms[..k], h).Ok?
    ensures BuildIndex(ms[k]).Err? ==> Prepare(r, ms, h) == Err(BuildIndex(ms[k]).error)
    ensures BuildIndex(ms[k]).Ok? ==>
              var (updated, done) := Prepare(r, ms[..k], h).value;
              var p := Prepared(SlotOf(ms[k]), BuildIndex(ms[k]).value);
              Prepare(r, ms[..k + 1], h) ==
              Ok((UpdatedRelease(updated, p.slot, ms[k].files + ArtifactFiles(p, h)), done + [p]))
  {
    assert ms[..k + 1][..k] == ms[..k];
    if BuildIndex(ms[k]).Err? { PrepareStop(r, ms, k + 1, h); }
  }

  method PrepareAll(release: Release, ms: seq<ManifestState>, h: Hasher) returns (result: Result<seq<Prepared>, PackageError>)
    modifies release
    ensures match Prepare(old(release.State()), ms, h)
            case Err(e) => result == Err(e)
            case Ok((updated, done)) => result == Ok(done) && release.State() == updated
  {
    var done := [];
    for i := 0 to |ms|
      invariant Prepare(old(release.State()), ms[..i], h) == Ok((release.State(), done))
    {
      PrepareNext(old(release.State()), ms, i, h);
      var prepared := PrepareOne(release, ms[i], h);
      if prepared.Err? { return Err(prepared.error); }
      done := done + [prepared.value];
    }
    assert ms[..|ms|] == ms;
    result := Ok(done);
  }

  /** Preparing empty manifests cannot fail and lists their empty indices. */
  lemma {:induction false} PrepareEmpties(r: ReleaseState, slots: seq<Slot>, h: Hasher)
    ensures Prepare(r, EmptyManifests(slots), h) == Ok((Listing(r, Empties(slots), h), Empties(slots)))
  {
    if slots != [] {
      var front, last := slots[..|slots| - 1], slots[|slots| - 1];
      PrepareEmpties(r, front, h);
      PreparedEmpty(r, EmptyManifests(front), EmptyManifest(last), h);
      ListedMore(r, Empties(front), Prepared(last, Bytes("")), h);
    }
  }

  lemma PreparedEmpty(r: ReleaseState, front: seq<ManifestState>, m: ManifestState, h: Hasher)
    requires Prepare(r, front, h).Ok? && m.packages == [] && m.files == map[]
    ensures var (updated, done) := Prepare(r, front, h).value;
            var p := Prepared(SlotOf(m), Bytes(""));
            Prepare(r, front + [m], h) == Ok((UpdatedRelease(updated, p.slot, ArtifactFiles(p, h)), done + [p]))
  {
    NothingBefore(ArtifactFiles(Prepared(SlotOf(m), Bytes("")), h));
    assert (front + [m])[..|front|] == front;
  }

  lemma ListedMore(r: ReleaseState, ps: seq<Prepared>, p: Prepared, h: Hasher)
    ensures Listing(r, ps + [p], h) == UpdatedRelease(Listing(r, ps, h), p.slot, ArtifactFiles(p, h))
  {
    assert (ps + [p])[..|ps|] == ps;
  }

  lemma ByHashNext(ps: seq<Prepared>, i: nat, h: Hasher)
    requires i < |ps|
    ensures AllByHash(ps[..i + 1], h) == AllByHash(ps[..i], h) + ByHashWrites(ps[i], h)
  {
    assert ps[..i + 1][..i] == ps[..i];
  }

  lemma {:induction false} ByHashPrefix(ps: seq<Prepared>, k: nat, h: Hasher)
    requires k <= |ps|
    ensures AllByHash(ps[..k], h) <= AllByHash(ps, h)
    decreases |ps| - k
  {
    if k < |ps| {
      ByHashNext(ps, k, h);
      ByHashPrefix(ps, k + 1, h);
    } else {
      assert ps[..k] == ps;
    }
  }

  lemma {:induction false} CanonicalPrefix(ps: seq<Prepared>, k: nat)
    requires k <= |ps|
    ensures AllCanonical(ps[..k]) <= AllCanonical(ps)
    decreases |ps| - k
  {
    if k < |ps| {
      assert ps[..k + 1][..k] == ps[..k];
      CanonicalPrefix(ps, k + 1);
    } else {
      assert ps[..k] == ps;
    }
  }

  method PublishAllByHash(store: Store, ps: seq<Prepared>, h: Hasher) returns (ok: bool)
    requires store.Valid() && GoodHasher(h)
    modifies store
    ensures Ran(old(store.View()), AllByHash(ps, h), store.View(), ok, store.reliable)
  {
    ghost var before := store.View();
    RanNothing(before, store.reliable);
    for i := 0 to |ps|
      invariant Ran(before, AllByHash(ps[..i], h), store.View(), true, store.reliable)
    {
      ghost var middle := store.View();
      ok := PublishByHash(store, ps[i], h);
      ByHashNext(ps, i, h);
      ByHashPrefix(ps, i + 1, h);
      RanStretch(before, AllByHash(ps[..i], h), middle, ByHashWrites(ps[i], h), store.View(), ok, store.reliable, AllByHash(ps, h));
      if !ok { return; }
    }
    assert ps[..|ps|] == ps;
    ok := true;
  }

  method PublishAllCanonical(store: Store, ps: seq<Prepared>, ghost h: Hasher) returns (ok: bool)
    requires store.Valid() && GoodHasher(h)
    modifies store
    ensures Ran(old(store.View()), AllCanonical(ps), store.View(), ok, store.reliable)
  {
    ghost var before := store.View();
    RanNothing(before, store.reliable);
    for i := 0 to |ps|
      invariant Ran(before, AllCanonical(ps[..i]), store.View(), true, store.reliable)
    {
      ghost var middle := store.View();
      ok := PublishCanonical(store, ps[i], h);
      assert ps[..i + 1][..i] == ps[..i];
      CanonicalPrefix(ps, i + 1);
      RanStretch(before, AllCanonical(ps[..i]), middle, CanonicalWrites(ps[i]), store.View(), ok, store.reliable, AllCanonical(ps));
      if !ok { return; }
    }
    assert ps[..|ps|] == ps;
    ok := true;
  }

  /** The phases of a publication in order: by-hash objects, canonical indices, the Release. */
  method PublishPhases(store: Store, release: Release, ps: seq<Prepared>, h: Hasher, signed: bool, date: string) returns (ok: bool)
    requires store.Valid() && GoodHasher(h)
    modifies store, release
    ensures Ran(old(store.View()), PublishPlan(old(release.State()), ps, h, signed, date), store.View(), ok, store.reliable)
  {
    ghost var before := store.View();
    ghost var final := ReleasePlan(release.State(), h, signed, date);
    ok := PublishAllByHash(store, ps, h);
    if !ok {
      RanStopped(before, AllByHash(ps, h), AllCanonical(ps) + final, store.View(), store.reliable);
      return;
    }
    ghost var first := store.View();
    ok := PublishAllCanonical(store, ps, h);
    if !ok {
      RanStopped(first, AllCanonical(ps), final, store.View(), store.reliable);
    } else {
      ghost var second := store.View();
      ok := release.Publish(store, h, signed, date);
      RanThen(first, AllCanonical(ps), second, final, store.View(), ok, store.reliable);
    }
    RanThen(before, AllByHash(ps, h), first, AllCanonical(ps) + final, store.View(), ok, store.reliable);
  }

  /**
   Prepares changed manifests and the missing ones. The missing ones are found after
   the changed ones are listed, so that a new component or architecture closes over
   all the others.
   */
  method PrepareClosure(release: Release, manifests: seq<ManifestState>, h: Hasher) returns (result: Result<seq<Prepared>, PackageError>)
    modifies release
    ensures match Closure(old(release.State()), manifests, h)
            case Err(e) => result == Err(e)
            case Ok((updated, ps)) => result == Ok(ps) && release.State() == updated
  {
    result := PrepareAll(release, manifests, h);
    if result.Err? { return; }
    var changed := result.value;
    var missing := release.MissingManifests();
    PrepareEmpties(release.State(), Missing(release.State()), h);
    result := PrepareAll(release, missing, h);
    result := Ok(changed + result.value);
  }

  /** Publishes changed manifests; nothing is written when one of them cannot be built. */
  method PublishMetadata(store: Store, release: Release, manifests: seq<ManifestState>, h: Hasher, signed: bool, date: string)
    returns (ok: bool)
    requires store.Valid() && GoodHasher(h)
    modifies store, release
    ensures match Closure(old(release.State()), manifests, h)
            case Err(_) => !ok && store.View() == old(store.View())
            case Ok((updated, ps)) =>
              Ran(old(store.View()), PublishPlan(updated, ps, h, signed, date), store.View(), ok, store.reliable)
  {
    var prepared := PrepareClosure(release, manifests, h);
    if prepared.Err? { return false; }
    ok := PublishPhases(store, release, prepared.value, h, signed, date);
  }
}
