/**
 What a finished publication guarantees: the Release lists every pair of its
 components and architectures, and lists the bytes that are stored.
 */
module Agreement {
  import opened Text
  import opened Paths
  import opened Packages
  import opened Documents
  import opened Stores
  import opened Manifests
  import opened Publication
  import opened Layout

  ghost predicate GoodSlots(ps: seq<Prepared>)
  {
    forall i :: 0 <= i < |ps| ==> GoodSlot(ps[i].slot)
  }

  /** Release fields that read back from text: names that are single clean segments and words, and single lines. */
  ghost predicate GoodBody(r: ReleaseState)
  {
    && (forall c <- r.components :: ComponentName(c))
    && (forall a <- r.architectures :: ArchitectureName(a))
    && (r.origin.Some? ==> SingleLine(r.origin.value)) && (r.suite.Some? ==> SingleLine(r.suite.value))
    && (forall n <- r.files :: Word(n))
  }

  ghost predicate GoodRelease(r: ReleaseState)
  {
    Name(r.codename) && SingleLine(r.codename) && GoodBody(r)
  }

  /** A manifest as retrieved for a Release: nothing recorded yet. */
  ghost predicate Offered(r: ReleaseState, m: ManifestState)
  {
    GoodSlot(SlotOf(m)) && m.codename == r.codename && m.byHash == r.byHash && m.files == map[]
  }

  ghost predicate AllOffered(r: ReleaseState, ms: seq<ManifestState>)
  {
    forall i :: 0 <= i < |ms| ==> Offered(r, ms[i])
  }

  // ------------------------------------------------------- one closure pass suffices

  lemma {:induction false} MissingInMembers(r: ReleaseState, component: string, architectures: seq<string>, s: Slot)
    ensures s in MissingIn(r, component, architectures) <==>
            && s == Slot(r.codename, component, s.architecture, r.byHash) && s.architecture in architectures
            && component + "/binary-" + s.architecture + "/Packages" !in r.files
  {
    if architectures != [] {
      MissingInMembers(r, component, architectures[..|architectures| - 1], s);
      assert architectures == architectures[..|architectures| - 1] + [architectures[|architectures| - 1]];
    }
  }

  lemma {:induction false} MissingFromMembers(r: ReleaseState, components: seq<string>, s: Slot)
    ensures s in MissingFrom(r, components) <==>
            && s == Slot(r.codename, s.component, s.architecture, r.byHash)
            && s.component in components && s.architecture in r.architectures
            && s.component + "/binary-" + s.architecture + "/Packages" !in r.files
  {
    if components != [] {
      MissingFromMembers(r, components[..|components| - 1], s);
      MissingInMembers(r, components[|components| - 1], r.architectures, s);
      assert components == components[..|components| - 1] + [components[|components| - 1]];
    }
  }

  /** The files listed after some indices are recorded, later ones overriding earlier ones. */
  function FilesAfter(files: map<string, FileHashes>, ps: seq<Prepared>, h: Hasher): map<string, FileHashes>
  {
    if ps == [] then files else FilesAfter(files, ps[..|ps| - 1], h) + ArtifactFiles(ps[|ps| - 1], h)
  }

  lemma {:induction false} FilesAfterMembers(files: map<string, FileHashes>, ps: seq<Prepared>, h: Hasher, n: string)
    ensures n in files || (exists i :: 0 <= i < |ps| && n in ArtifactFiles(ps[i], h)) <==> n in FilesAfter(files, ps, h)
  {
    if ps != [] {
      var front, last := ps[..|ps| - 1], ps[|ps| - 1];
      FilesAfterMembers(files, front, h, n);
      if i :| 0 <= i < |ps| && n in ArtifactFiles(ps[i], h) {
        if i < |front| { assert front[i] == ps[i]; }
      }
      if i :| 0 <= i < |front| && n in ArtifactFiles(front[i], h) { assert front[i] == ps[i]; }
    }
  }

  lemma {:induction false} ListingFiles(r: ReleaseState, ps: seq<Prepared>, h: Hasher)
    ensures Listing(r, ps, h).files == FilesAfter(r.files, ps, h)
    ensures Listing(r, ps, h).codename == r.codename && Listing(r, ps, h).byHash == r.byHash
    ensures Listing(r, ps, h).origin == r.origin && Listing(r, ps, h).suite == r.suite
  {
    if ps != [] { ListingFiles(r, ps[..|ps| - 1], h); }
  }

  /** Listing indices of already listed components and architectures adds no new ones. */
  lemma {:induction false} ListingKeepsNames(r: ReleaseState, ps: seq<Prepared>, h: Hasher)
    requires forall i :: 0 <= i < |ps| ==> ps[i].slot.component in r.components && ps[i].slot.architecture in r.architectures
    ensures Listing(r, ps, h).components == r.components && Listing(r, ps, h).architectures == r.architectures
  {
    if ps != [] { ListingKeepsNames(r, ps[..|ps| - 1], h); }
  }

  lemma MissingSlot(r: ReleaseState, i: nat)
    requires i < |Missing(r)|
    ensures var s := Missing(r)[i];
            && s == Slot(r.codename, s.component, s.architecture, r.byHash)
            && s.component in r.components && s.architecture in r.architectures
            && s.component + "/binary-" + s.architecture + "/Packages" !in r.files
            && Empties(Missing(r))[i] == Prepared(s, Bytes(""))
  {
    EmptiesAt(Missing(r), i);
    MissingFromMembers(r, r.components, Missing(r)[i]);
  }

  lemma MissingBecomesListed(r: ReleaseState, s: Slot, h: Hasher)
    requires GoodRelease(r) && s in Missing(r)
    ensures s.component + "/binary-" + s.architecture + "/Packages" in Listing(r, Empties(Missing(r)), h).files
  {
    var text := s.component + "/binary-" + s.architecture + "/Packages";
    var created := Empties(Missing(r));
    ListingFiles(r, created, h);
    FilesAfterMembers(r.files, created, h, text);
    var i :| 0 <= i < |Missing(r)| && Missing(r)[i] == s;
    MissingSlot(r, i);
    ListedNames(s);
    MissingName(s.component, s.architecture);
    assert text in ArtifactFiles(created[i], h);
  }

  /** Publishing the empty indices of all missing pairs leaves none missing. */
  lemma OnePassSuffices(r: ReleaseState, h: Hasher)
    requires GoodRelease(r)
    ensures Missing(Listing(r, Empties(Missing(r)), h)) == []
  {
    var created := Empties(Missing(r));
    var closed := Listing(r, created, h);
    forall i | 0 <= i < |created| ensures created[i].slot.component in r.components && created[i].slot.architecture in r.architectures {
      MissingSlot(r, i);
    }
    ListingKeepsNames(r, created, h);
    ListingFiles(r, created, h);
    if Missing(closed) != [] {
      var s := Missing(closed)[0];
      FilesAfterMembers(r.files, created, h, s.component + "/binary-" + s.architecture + "/Packages");
      MissingFromMembers(r, r.components, s);
      if s in Missing(r) { MissingBecomesListed(r, s, h); }
      MissingSlot(closed, 0);
    }
  }

  // --------------------------------------------------------------- what closure returns

  /** What preparing manifests yields: their indices in order, and a Release that lists exactly those besides. */
  ghost predicate Shaped(r: ReleaseState, ms: seq<ManifestState>, h: Hasher, updated: ReleaseState, done: seq<Prepared>)
  {
    && |done| == |ms| && GoodRelease(updated)
    && (forall i :: 0 <= i < |ms| ==> Built(ms[i], done[i]))
    && updated.codename == r.codename && updated.byHash == r.byHash
    && updated.origin == r.origin && updated.suite == r.suite
    && updated.files == FilesAfter(r.files, done, h)
  }

  ghost predicate Built(m: ManifestState, p: Prepared)
  {
    p.slot == SlotOf(m) && BuildIndex(m) == Ok(p.index)
  }

  lemma {:induction false} PrepareShape(r: ReleaseState, ms: seq<ManifestState>, h: Hasher)
    requires GoodRelease(r) && AllOffered(r, ms) && Prepare(r, ms, h).Ok?
    ensures Shaped(r, ms, h, Prepare(r, ms, h).value.0, Prepare(r, ms, h).value.1)
  {
    if ms != [] {
      var front, last := ms[..|ms| - 1], ms[|ms| - 1];
      PrepareShape(r, front, h);
      var (updated, done) := Prepare(r, front, h).value;
      var p := Prepared(SlotOf(last), BuildIndex(last).value);
      ShapedMore(r, front, h, updated, done, last, p);
      assert front + [last] == ms;
    }
  }

  lemma JoinedWord(segs: seq<string>)
    requires segs != [] && AllWords(segs)
    ensures Word(Join(segs, "/"))
  {
    var text := Join(segs, "/");
    forall i | 0 <= i < |text| ensures !IsSpace(text[i]) {
      if IsSpace(text[i]) {
        forall k | 0 <= k < |segs| ensures text[i] !in segs[k] { assert Word(segs[k]); }
        JoinFree(segs, "/", text[i]);
      }
    }
    assert Word(segs[0]);
  }

  /** The listed names of an index are words. */
  lemma ListedWords(s: Slot)
    requires GoodSlot(s)
    ensures Word(ListedPath(s.component, s.architecture)) && Word(ListedPath(s.component, s.architecture) + ".gz")
  {
    ListedNames(s);
    JoinedWord(ListedSegments(s.component, s.architecture));
  }

  lemma UpdatedGood(r: ReleaseState, p: Prepared, files: map<string, FileHashes>, h: Hasher)
    requires GoodRelease(r) && GoodSlot(p.slot) && files == ArtifactFiles(p, h)
    ensures GoodRelease(UpdatedRelease(r, p.slot, files))
  {
    ListedWords(p.slot);
  }

  lemma {:induction false} ListingGood(r: ReleaseState, ps: seq<Prepared>, h: Hasher)
    requires GoodRelease(r) && GoodSlots(ps)
    ensures GoodRelease(Listing(r, ps, h))
  {
    if ps != [] {
      var front, last := ps[..|ps| - 1], ps[|ps| - 1];
      ListingGood(r, front, h);
      UpdatedGood(Listing(r, front, h), last, ArtifactFiles(last, h), h);
    }
  }

  lemma ShapedMore(r: ReleaseState, ms: seq<ManifestState>, h: Hasher, updated: ReleaseState, done: seq<Prepared>,
                   m: ManifestState, p: Prepared)
    requires Shaped(r, ms, h, updated, done) && Offered(r, m) && Built(m, p)
    ensures Shaped(r, ms + [m], h, UpdatedRelease(updated, p.slot, m.files + ArtifactFiles(p, h)), done + [p])
  {
    PreparedFiles(r.files, done, p, h);
    UpdatedGood(updated, p, ArtifactFiles(p, h), h);
  }

  lemma PreparedFiles(files: map<string, FileHashes>, done: seq<Prepared>, p: Prepared, h: Hasher)
    ensures FilesAfter(files, done + [p], h) == FilesAfter(files, done, h) + ArtifactFiles(p, h)
    ensures map[] + ArtifactFiles(p, h) == ArtifactFiles(p, h)
  {
    assert (done + [p])[..|done|] == done;
  }

  /** What a publication publishes: the changed manifests' indices, then empty ones, all of the Release's codename. */
  ghost predicate Closed(r: ReleaseState, ms: seq<ManifestState>, h: Hasher, closed: ReleaseState, ps: seq<Prepared>)
  {
    && GoodRelease(closed) && closed.codename == r.codename && closed.byHash == r.byHash
    && closed.origin == r.origin && closed.suite == r.suite
    && closed.files == FilesAfter(r.files, ps, h)
    && Missing(closed) == []
    && |ps| >= |ms|
    && (forall i :: 0 <= i < |ms| ==> Built(ms[i], ps[i]))
    && (forall i :: |ms| <= i < |ps| ==> ps[i].index == Bytes(""))
    && (forall i :: 0 <= i < |ps| ==> OfRelease(r, ps[i].slot))
  }

  ghost predicate OfRelease(r: ReleaseState, s: Slot)
  {
    GoodSlot(s) && s.codename == r.codename && s.byHash == r.byHash
  }

  lemma {:induction false} FilesAfterConcat(files: map<string, FileHashes>, a: seq<Prepared>, b: seq<Prepared>, h: Hasher)
    ensures FilesAfter(files, a + b, h) == FilesAfter(FilesAfter(files, a, h), b, h)
    decreases |b|
  {
    if b == [] {
      assert a + b == a;
    } else {
      assert (a + b)[..|a + b| - 1] == a + b[..|b| - 1];
      FilesAfterConcat(files, a, b[..|b| - 1], h);
    }
  }

  /** The names and properties of the Release after its missing indices are listed. */
  lemma CreatedShape(r: ReleaseState, h: Hasher)
    requires GoodRelease(r)
    ensures var created := Empties(Missing(r));
            var closed := Listing(r, created, h);
            && GoodRelease(closed) && closed.codename == r.codename && closed.byHash == r.byHash
            && closed.origin == r.origin && closed.suite == r.suite
            && closed.files == FilesAfter(r.files, created, h)
            && Missing(closed) == []
            && (forall i :: 0 <= i < |created| ==> OfRelease(r, created[i].slot) && created[i].index == Bytes(""))
  {
    var created := Empties(Missing(r));
    forall i | 0 <= i < |created|
      ensures created[i].slot.component in r.components && created[i].slot.architecture in r.architectures
      ensures OfRelease(r, created[i].slot) && created[i].index == Bytes("")
    {
      MissingSlot(r, i);
    }
    ListingGood(r, created, h);
    ListingFiles(r, created, h);
    OnePassSuffices(r, h);
  }

  /** The closure of a publication over all listed components and architectures. */
  lemma ClosureShape(r: ReleaseState, ms: seq<ManifestState>, h: Hasher)
    requires GoodRelease(r) && AllOffered(r, ms) && Closure(r, ms, h).Ok?
    ensures Closed(r, ms, h, Closure(r, ms, h).value.0, Closure(r, ms, h).value.1)
  {
    PrepareShape(r, ms, h);
    var (updated, done) := Prepare(r, ms, h).value;
    CreatedShape(updated, h);
    var created := Empties(Missing(updated));
    FilesAfterConcat(r.files, done, created, h);
    forall i | 0 <= i < |done + created| ensures OfRelease(r, (done + created)[i].slot) {
      if i < |done| { assert Built(ms[i], done[i]) && Offered(r, ms[i]); } else { assert OfRelease(updated, created[i - |done|].slot); }
    }
    forall i | 0 <= i < |ms| ensures Built(ms[i], (done + created)[i]) { assert Built(ms[i], done[i]); }
  }

  /** After the closure there is nothing left for Release.Publish to create. */
  lemma NothingLeft(r: ReleaseState, h: Hasher, signed: bool, date: string)
    requires Missing(r) == []
    ensures ReleasePlan(r, h, signed, date) == FinalWrites(r, signed, date)
  {
    assert Empties(Missing(r)) == [];
    assert AllCreated(Empties(Missing(r)), h) == [] && Listing(r, Empties(Missing(r)), h) == r;
  }
}
