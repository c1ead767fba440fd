/**
 The methods that publish manifests and Releases, each proved to issue its
 planned writes in order, stopping at the first failure.
 */
module Publishing {
  import opened Text
  import opened Packages
  import opened Documents
  import opened IndexText
  import opened Stores
  import opened Manifests
  import opened Publication

  ghost predicate AllUsable(writes: seq<Write>)
  {
    forall i :: 0 <= i < |writes| ==> Usable(writes[i].key)
  }

  /** Issues writes in order until one fails. */
  method Issue(store: Store, writes: seq<Write>) returns (ok: bool)
    requires store.Valid() && AllUsable(writes)
    modifies store
    ensures Ran(old(store.View()), writes, store.View(), ok, store.reliable)
  {
    ghost var before := store.View();
    RanNothing(before, store.reliable);
    assert writes[..0] == [];
    for i := 0 to |writes|
      invariant Ran(before, writes[..i], store.View(), true, store.reliable)
    {
      var w := writes[i];
      ghost var middle := store.View();
      var error: Option<StoreError>;
      if w.Put? { error := store.Put(w.key, w.doc, w.options); } else { error := store.Remove(w.key); }
      assert writes[..i + 1] == writes[..i] + [w];
      RanStretch(before, writes[..i], middle, [w], store.View(), error.None?, store.reliable, writes);
      if error.Some? { return false; }
    }
    assert writes[..|writes|] == writes;
    ok := true;
  }

  lemma IndexWritesUsable(p: Prepared, h: Hasher)
    requires GoodHasher(h)
    ensures AllUsable(ByHashWrites(p, h)) && AllUsable(CanonicalWrites(p))
  {
    var path := IndexPath(p.slot);
    IndexPathUsable(p.slot.codename, p.slot.component, p.slot.architecture);
    ByHashUsable(path, h, p.index);
    ByHashUsable(path + ".gz", h, Gzip(p.index));
  }

  lemma FinalUsable(r: ReleaseState, signed: bool, date: string)
    ensures AllUsable(FinalWrites(r, signed, date))
  {
    ReleasePathsUsable(r.codename);
  }

  method PublishByHash(store: Store, p: Prepared, h: Hasher) returns (ok: bool)
    requires store.Valid() && GoodHasher(h)
    modifies store
    ensures Ran(old(store.View()), ByHashWrites(p, h), store.View(), ok, store.reliable)
  {
    if !p.slot.byHash {
      RanNothing(store.View(), store.reliable);
      return true;
    }
    var path := IndexPath(p.slot);
    IndexWritesUsable(p, h);
    ok := Issue(store, [Put(ByHashPath(path, h(p.index).sha256), p.index, IMMUTABLE),
                        Put(ByHashPath(path + ".gz", h(Gzip(p.index)).sha256), Gzip(p.index), IMMUTABLE)]);
  }

  method PublishCanonical(store: Store, p: Prepared, ghost h: Hasher) returns (ok: bool)
    requires store.Valid() && GoodHasher(h)
    modifies store
    ensures Ran(old(store.View()), CanonicalWrites(p), store.View(), ok, store.reliable)
  {
    var path := IndexPath(p.slot);
    IndexWritesUsable(p, h);
    ok := Issue(store, [Put(path, p.index, REPLACE), Put(path + ".gz", Gzip(p.index), REPLACE)]);
  }

  /** Renders the manifest's records in order; the first one without a location stops it. */
  method BuildArtifacts(m: ManifestState) returns (built: Result<Doc, PackageError>)
    ensures built == BuildIndex(m)
  {
    var rendered := WriteIndex(m.packages, m.codename);
    if rendered.Err? { return Err(rendered.error); }
    built := Ok(Bytes(rendered.value));
  }

  method RecordArtifacts(m: ManifestState, index: Doc, h: Hasher) returns (recorded: ManifestState)
    ensures recorded == m.(files := m.files + ArtifactFiles(Prepared(SlotOf(m), index), h))
  {
    var listed := ListedPath(m.component, m.architecture);
    var files := m.files[listed := h(index)];
    files := files[listed + ".gz" := h(Gzip(index))];
    recorded := m.(files := files);
  }

  /** Publishes one manifest that has no bodies to upload. */
  method PublishEmpty(store: Store, m: ManifestState, h: Hasher) returns (ok: bool, recorded: ManifestState)
    requires store.Valid() && GoodHasher(h) && m.packages == [] && m.pendingUploads == []
    modifies store
    ensures var p := Prepared(SlotOf(m), Bytes(""));
            && Ran(old(store.View()), ByHashWrites(p, h) + CanonicalWrites(p), store.View(), ok, store.reliable)
            && (ok ==> recorded == m.(files := m.files + ArtifactFiles(p, h)))
  {
    ghost var before := store.View();
    recorded := m;
    var built := BuildArtifacts(m);
    var p := Prepared(SlotOf(m), built.value);
    ok := PublishByHash(store, p, h);
    if !ok {
      RanStopped(before, ByHashWrites(p, h), CanonicalWrites(p), store.View(), store.reliable);
      return;
    }
    ghost var middle := store.View();
    ok := PublishCanonical(store, p, h);
    RanThen(before, ByHashWrites(p, h), middle, CanonicalWrites(p), store.View(), ok, store.reliable);
    if ok { recorded := RecordArtifacts(m, built.value, h); }
  }

  class Release {
    var codename: string
    var origin: Option<string>
    var suite: Option<string>
    var architectures: seq<string>
    var components: seq<string>
    var byHash: bool
    var files: map<string, FileHashes>

    function State(): ReleaseState
      reads this
    {
      ReleaseState(codename, origin, suite, architectures, components, byHash, files)
    }

    constructor (state: ReleaseState)
      ensures State() == state
    {
      codename, origin, suite := state.codename, state.origin, state.suite;
      architectures, components := state.architectures, state.components;
      byHash, files := state.byHash, state.files;
    }

    method UpdateManifest(m: ManifestState)
      modifies this
      ensures State() == UpdatedRelease(old(State()), SlotOf(m), m.files)
    {
      if m.component !in components { components := components + [m.component]; }
      if m.architecture !in architectures { architectures := architectures + [m.architecture]; }
      files := files + m.files;
    }

    /** New empty manifests for the listed pairs the Release has no file for. */
    method MissingManifests() returns (created: seq<ManifestState>)
      ensures created == EmptyManifests(Missing(State()))
    {
      created := [];
      for i := 0 to |components|
        invariant created == EmptyManifests(MissingFrom(State(), components[..i]))
      {
        created := MissingFor(components[i], created, MissingFrom(State(), components[..i]));
        assert components[..i + 1][..i] == components[..i];
      }
      assert components[..|components|] == components;
    }

    method MissingFor(component: string, earlier: seq<ManifestState>, ghost slots: seq<Slot>) returns (created: seq<ManifestState>)
      requires earlier == EmptyManifests(slots)
      ensures created == EmptyManifests(slots + MissingIn(State(), component, architectures))
    {
      created := earlier;
      assert slots + [] == slots;
      for j := 0 to |architectures|
        invariant created == EmptyManifests(slots + MissingIn(State(), component, architectures[..j]))
      {
        assert architectures[..j + 1][..j] == architectures[..j];
        ghost var found := MissingIn(State(), component, architectures[..j]);
        assert found + [] == found;
        var packagesPath := component + "/binary-" + architectures[j] + "/Packages";
        if packagesPath in files { continue; }
        var slot := Slot(codename, component, architectures[j], byHash);
        created := created + [EmptyManifest(slot)];
        MissingMore(slots, found, slot);
      }
      assert architectures[..|architectures|] == architectures;
    }

    /** Publishes an empty index for every listed pair without one, then lists them. */
    method ValidateOtherManifests(store: Store, h: Hasher) returns (ok: bool)
      requires store.Valid() && GoodHasher(h)
      modifies this, store
      ensures var created := Empties(Missing(old(State())));
              && Ran(old(store.View()), AllCreated(created, h), store.View(), ok, store.reliable)
              && (ok ==> State() == Listing(old(State()), created, h))
    {
      ghost var slots := Missing(State());
      var created := MissingManifests();
      var published;
      ok, published := PublishEmpties(store, created, slots, h);
      if ok { ListEmpties(published, slots, h); }
    }

    method ListEmpties(published: seq<ManifestState>, ghost slots: seq<Slot>, ghost h: Hasher)
      requires published == PublishedManifests(slots, h)
      modifies this
      ensures State() == Listing(old(State()), Empties(slots), h)
    {
      ghost var ps := Empties(slots);
      for i := 0 to |published|
        invariant State() == Listing(old(State()), ps[..i], h)
      {
        PublishedAt(slots, h, i);
        ListingStep(old(State()), ps, h, i, SlotOf(published[i]), published[i].files);
        UpdateManifest(published[i]);
      }
      assert ps[..|published|] == ps;
    }

    /** Publishes the Release: missing manifests, signatures or their removal, and the file itself. */
    method Publish(store: Store, h: Hasher, signed: bool, date: string) returns (ok: bool)
      requires store.Valid() && GoodHasher(h)
      modifies this, store
      ensures Ran(old(store.View()), ReleasePlan(old(State()), h, signed, date), store.View(), ok, store.reliable)
    {
      ghost var before := store.View();
      ghost var created := Empties(Missing(State()));
      ghost var final := FinalWrites(Listing(State(), created, h), signed, date);
      ok := ValidateOtherManifests(store, h);
      if !ok {
        RanStopped(before, AllCreated(created, h), final, store.View(), store.reliable);
        return;
      }
      ghost var middle := store.View();
      var signerFails: bool := *;
      if signed && signerFails && !store.reliable {
        RanFaulted(middle, final);
        ok := false;
      } else {
        ok := PutFinal(store, signed, date);
      }
      RanThen(before, AllCreated(created, h), middle, final, store.View(), ok, store.reliable);
    }

    method PutFinal(store: Store, signed: bool, date: string) returns (ok: bool)
      requires store.Valid()
      modifies store
      ensures Ran(old(store.View()), FinalWrites(State(), signed, date), store.View(), ok, store.reliable)
    {
      var path := ReleasePath(codename);
      var doc := ReleaseText(RereadRelease(State()), date);
      FinalUsable(State(), signed, date);
      if signed {
        ok := Issue(store, [Put(path, doc, REPLACE), Put(path + ".gpg", Detached(doc), REPLACE),
                            Put(InReleasePath(codename), ClearSigned(doc), REPLACE)]);
      } else {
        ok := Issue(store, [Delete(path + ".gpg"), Delete(InReleasePath(codename)), Put(path, doc, REPLACE)]);
      }
    }
  }

  function EmptyManifests(slots: seq<Slot>): (ms: seq<ManifestState>)
    ensures |ms| == |slots|
  {
    if slots == [] then [] else EmptyManifests(slots[..|slots| - 1]) + [EmptyManifest(slots[|slots| - 1])]
  }

  lemma MissingMore(slots: seq<Slot>, found: seq<Slot>, slot: Slot)
    ensures EmptyManifests(slots + (found + [slot])) == EmptyManifests(slots + found) + [EmptyManifest(slot)]
  {
    assert slots + (found + [slot]) == slots + found + [slot];
    assert (slots + found + [slot])[..|slots + found|] == slots + found;
  }

  lemma ListingStep(r: ReleaseState, ps: seq<Prepared>, h: Hasher, i: nat, slot: Slot, files: map<string, FileHashes>)
    requires i < |ps| && slot == ps[i].slot && files == ArtifactFiles(ps[i], h)
    ensures UpdatedRelease(Listing(r, ps[..i], h), slot, files) == Listing(r, ps[..i + 1], h)
  {
    assert ps[..i + 1][..i] == ps[..i];
  }

  lemma {:induction false} EmptyManifestsAt(slots: seq<Slot>, i: nat)
    requires i < |slots|
    ensures EmptyManifests(slots)[i] == EmptyManifest(slots[i])
    decreases |slots|
  {
    if i < |slots| - 1 { EmptyManifestsAt(slots[..|slots| - 1], i); }
  }

  /** Empty manifests with their files recorded. */
  function PublishedManifests(slots: seq<Slot>, h: Hasher): (ms: seq<ManifestState>)
    ensures |ms| == |slots|
  {
    if slots == [] then []
    else
      var last := slots[|slots| - 1];
      PublishedManifests(slots[..|slots| - 1], h) +
      [EmptyManifest(last).(files := map[] + ArtifactFiles(Prepared(last, Bytes("")), h))]
  }

  lemma {:induction false} PublishedAt(slots: seq<Slot>, h: Hasher, i: nat)
    requires i < |slots|
    ensures var m := PublishedManifests(slots, h)[i];
            && SlotOf(m) == slots[i] && m.files == ArtifactFiles(Empties(slots)[i], h)
            && Empties(slots)[i].slot == slots[i]
    decreases |slots|
  {
    if i < |slots| - 1 {
      PublishedAt(slots[..|slots| - 1], h, i);
    } else {
      NothingBefore(ArtifactFiles(Prepared(slots[i], Bytes("")), h));
    }
  }

  lemma NothingBefore(files: map<string, FileHashes>)
    ensures map[] + files == files
  {
  }

  lemma PublishedMore(slots: seq<Slot>, h: Hasher, i: nat, recorded: ManifestState)
    requires i < |slots|
    requires recorded == EmptyManifest(slots[i]).(files := map[] + ArtifactFiles(Prepared(slots[i], Bytes("")), h))
    ensures PublishedManifests(slots[..i + 1], h) == PublishedManifests(slots[..i], h) + [recorded]
  {
    assert slots[..i + 1][..i] == slots[..i];
  }

  /** Publishes empty manifests one by one. */
  method PublishEmpties(store: Store, created: seq<ManifestState>, ghost slots: seq<Slot>, h: Hasher)
    returns (ok: bool, published: seq<ManifestState>)
    requires store.Valid() && GoodHasher(h) && created == EmptyManifests(slots)
    modifies store
    ensures Ran(old(store.View()), AllCreated(Empties(slots), h), store.View(), ok, store.reliable)
    ensures ok ==> published == PublishedManifests(slots, h)
  {
    ghost var before := store.View();
    ghost var ps := Empties(slots);
    published := [];
    RanNothing(before, store.reliable);
    for i := 0 to |created|
      invariant published == PublishedManifests(slots[..i], h)
      invariant Ran(before, AllCreated(ps[..i], h), store.View(), true, store.reliable)
    {
      EmptiesAt(slots, i);
      EmptyManifestsAt(slots, i);
      ghost var middle := store.View();
      var recorded;
      ok, recorded := PublishEmpty(store, created[i], h);
      CreatedNext(ps, i, h);
      CreatedPrefix(ps, i + 1, h);
      RanStretch(before, AllCreated(ps[..i], h), middle, ByHashWrites(ps[i], h) + CanonicalWrites(ps[i]), store.View(), ok,
                 store.reliable, AllCreated(ps, h));
      if !ok { return; }
      PublishedMore(slots, h, i, recorded);
      published := published + [recorded];
    }
    assert ps[..|created|] == ps && slots[..|created|] == slots;
    ok := true;
  }

  lemma CreatedNext(ps: seq<Prepared>, i: nat, h: Hasher)
    requires i < |ps|
    ensures AllCreated(ps[..i + 1], h) == AllCreated(ps[..i], h) + (ByHashWrites(ps[i], h) + CanonicalWrites(ps[i]))
  {
    assert ps[..i + 1][..i] == ps[..i];
  }

  lemma {:induction false} CreatedPrefix(ps: seq<Prepared>, k: nat, h: Hasher)
    requires k <= |ps|
    ensures AllCreated(ps[..k], h) <= AllCreated(ps, h)
    decreases |ps| - k
  {
    if k < |ps| {
      CreatedNext(ps, k, h);
      CreatedPrefix(ps, k + 1, h);
    } else {
      assert ps[..k] == ps;
    }
  }
}
