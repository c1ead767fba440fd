/** Every command's plan stores the by-hash objects of a Release before the Release. */
module ByHashPlans {
  import opened Text
  import opened Paths
  import opened Documents
  import opened Stores
  import opened Manifests
  import opened Publication
  import opened Layout
  import opened Agreement
  import opened Currency
  import opened Cleaning
  import opened ByHashSafety

  // ------------------------------------------------------------- single index writes

  /** The by-hash key readers derive from a listed name is the one that is written. */
  lemma CoverOfListed(s: Slot, sha256: string)
    requires GoodSlot(s) && Name(sha256)
    ensures var listed := ListedPath(s.component, s.architecture);
            && CoverKey(s.codename, listed, sha256) == ByHashPath(IndexPath(s), sha256)
            && CoverKey(s.codename, listed + ".gz", sha256) == ByHashPath(IndexPath(s) + ".gz", sha256)
  {
    ListedNames(s);
    SuffixMoves(s.codename, ListedPath(s.component, s.architecture));
  }

  lemma HashKeyOf(codename: string, s: Slot, sha256: string)
    requires GoodSlot(s) && Name(sha256)
    ensures var key := ByHashPath(IndexPath(s), sha256);
            && ByHashPath(IndexPath(s) + ".gz", sha256) == key && Named(key) == Some(key)
            && (HashKey(codename, key) <==> s.codename == codename)
            && |Split(key, '/')| == 7 && Split(key, '/')[6] == sha256
  {
    ByHashKeys(s, sha256);
  }

  lemma ReleaseKeyParts(codename: string)
    requires Name(codename)
    ensures |Split(ReleasePath(codename), '/')| == 3 && Split(ReleasePath(codename), '/')[0] == "dists"
    ensures Split(ReleasePath(codename), '/')[1] == codename && Split(ReleasePath(codename), '/')[2] == "Release"
  {
    ReleaseKeys(codename);
  }

  lemma ByHashHarmless(codename: string, p: Prepared, h: Hasher)
    requires Name(codename) && GoodHasher(h) && GoodSlot(p.slot)
    ensures AllHarmless(codename, ByHashWrites(p, h), h) && NoRelease(codename, ByHashWrites(p, h))
  {
    HashKeyOf(codename, p.slot, h(p.index).sha256);
    HashKeyOf(codename, p.slot, h(Gzip(p.index)).sha256);
    ReleaseKeyParts(codename);
    CreateHarmless(codename, ByHashPath(IndexPath(p.slot), h(p.index).sha256), p.index, h);
    CreateHarmless(codename, ByHashPath(IndexPath(p.slot) + ".gz", h(Gzip(p.index)).sha256), Gzip(p.index), h);
  }

  lemma CreateHarmless(codename: string, key: string, doc: Doc, h: Hasher)
    requires Name(codename) && Named(key) == Some(key) && |Split(key, '/')| == 7 && Split(key, '/')[6] == h(doc).sha256
    ensures Harmless(codename, Put(key, doc, IMMUTABLE), h) && !StoresRelease(codename, Put(key, doc, IMMUTABLE))
  {
    ReleaseKeyParts(codename);
  }

  /** A write to a key of another length than a by-hash key's and a Release's. */
  lemma OtherHarmless(codename: string, w: Write, h: Hasher)
    requires Name(codename) && (Named(w.key).Some? ==> OtherKey(Named(w.key).value))
    ensures Harmless(codename, w, h) && !StoresRelease(codename, w)
  {
    ReleaseKeyParts(codename);
  }

  /** A key that is neither a by-hash key nor a Release's, told from its segments. */
  predicate OtherKey(key: string)
  {
    var s := Split(key, '/');
    |s| == 5 || s[0] != "dists" || (|s| == 3 && s[2] != "Release")
  }

  lemma CanonicalHarmless(codename: string, p: Prepared, h: Hasher)
    requires Name(codename) && GoodSlot(p.slot)
    ensures AllHarmless(codename, CanonicalWrites(p), h) && NoRelease(codename, CanonicalWrites(p))
  {
    IndexKeys(p.slot);
    OtherHarmless(codename, Put(IndexPath(p.slot), p.index, REPLACE), h);
    OtherHarmless(codename, Put(IndexPath(p.slot) + ".gz", Gzip(p.index), REPLACE), h);
  }

  lemma PoolHarmless(codename: string, writes: seq<Write>, h: Hasher)
    requires Name(codename) && InPool(writes)
    ensures AllHarmless(codename, writes, h) && NoRelease(codename, writes)
  {
    forall i | 0 <= i < |writes| ensures Harmless(codename, writes[i], h) && !StoresRelease(codename, writes[i]) {
      OtherHarmless(codename, writes[i], h);
    }
  }

  lemma ReplaceHarmless(codename: string, r: ReleaseState, date: string, h: Hasher)
    requires Name(codename) && GoodRelease(r) && (r.codename == codename ==> r.byHash)
    ensures Harmless(codename, Put(ReleasePath(r.codename), ReleaseText(RereadRelease(r), date), REPLACE), h)
  {
    ReleaseKeys(r.codename);
    ReleaseKeyParts(codename);
  }

  lemma SignaturesHarmless(codename: string, r: ReleaseState, doc: Doc, h: Hasher)
    requires Name(codename) && GoodRelease(r)
    ensures Harmless(codename, Put(ReleasePath(r.codename) + ".gpg", Detached(doc), REPLACE), h)
    ensures Harmless(codename, Put(InReleasePath(r.codename), ClearSigned(doc), REPLACE), h)
    ensures !StoresRelease(codename, Put(ReleasePath(r.codename) + ".gpg", Detached(doc), REPLACE))
    ensures !StoresRelease(codename, Put(InReleasePath(r.codename), ClearSigned(doc), REPLACE))
  {
    ReleaseKeys(r.codename);
    InReleaseKeys(r.codename);
    OtherHarmless(codename, Put(ReleasePath(r.codename) + ".gpg", Detached(doc), REPLACE), h);
    OtherHarmless(codename, Put(InReleasePath(r.codename), ClearSigned(doc), REPLACE), h);
  }

  lemma RemovalsHarmless(codename: string, r: ReleaseState, h: Hasher)
    requires Name(codename) && GoodRelease(r)
    ensures Harmless(codename, Delete(ReleasePath(r.codename) + ".gpg"), h)
    ensures Harmless(codename, Delete(InReleasePath(r.codename)), h)
  {
    ReleaseKeys(r.codename);
    InReleaseKeys(r.codename);
    OtherHarmless(codename, Delete(ReleasePath(r.codename) + ".gpg"), h);
    OtherHarmless(codename, Delete(InReleasePath(r.codename)), h);
  }

  lemma FinalHarmless(codename: string, r: ReleaseState, signed: bool, date: string, h: Hasher)
    requires Name(codename) && GoodRelease(r) && (r.codename == codename ==> r.byHash)
    ensures AllHarmless(codename, FinalWrites(r, signed, date), h)
  {
    ReplaceHarmless(codename, r, date, h);
    if signed {
      SignaturesHarmless(codename, r, ReleaseText(RereadRelease(r), date), h);
    } else {
      RemovalsHarmless(codename, r, h);
    }
  }

  // ------------------------------------------------------------------ lists of writes

  lemma {:induction false} AllByHashHarmless(codename: string, ps: seq<Prepared>, h: Hasher)
    requires Name(codename) && GoodHasher(h) && GoodSlots(ps)
    ensures AllHarmless(codename, AllByHash(ps, h), h) && NoRelease(codename, AllByHash(ps, h))
  {
    if ps != [] {
      AllByHashHarmless(codename, ps[..|ps| - 1], h);
      ByHashHarmless(codename, ps[|ps| - 1], h);
    }
  }

  lemma {:induction false} AllCanonicalHarmless(codename: string, ps: seq<Prepared>, h: Hasher)
    requires Name(codename) && GoodSlots(ps)
    ensures AllHarmless(codename, AllCanonical(ps), h) && NoRelease(codename, AllCanonical(ps))
  {
    if ps != [] {
      AllCanonicalHarmless(codename, ps[..|ps| - 1], h);
      CanonicalHarmless(codename, ps[|ps| - 1], h);
    }
  }

  lemma {:induction false} AllCreatedHarmless(codename: string, ps: seq<Prepared>, h: Hasher)
    requires Name(codename) && GoodHasher(h) && GoodSlots(ps)
    ensures AllHarmless(codename, AllCreated(ps, h), h) && NoRelease(codename, AllCreated(ps, h))
  {
    if ps != [] {
      var front, last := ps[..|ps| - 1], ps[|ps| - 1];
      AllCreatedHarmless(codename, front, h);
      ByHashHarmless(codename, last, h);
      CanonicalHarmless(codename, last, h);
    }
  }

  // -------------------------------------------------------------------- what is secured

  lemma SecuredMore(codename: string, n: string, hashes: FileHashes, a: seq<Write>, b: seq<Write>, h: Hasher)
    requires SecuredFile(codename, n, hashes, a, h) || SecuredFile(codename, n, hashes, b, h)
    ensures SecuredFile(codename, n, hashes, a + b, h)
  {
    if i :| 0 <= i < |a| && Secures(codename, n, hashes, a[i], h) { assert (a + b)[i] == a[i]; }
    if i :| 0 <= i < |b| && Secures(codename, n, hashes, b[i], h) { assert (a + b)[|a| + i] == b[i]; }
  }

  /** The files of an index are secured by its by-hash writes. */
  lemma ArtifactsSecured(p: Prepared, n: string, h: Hasher)
    requires GoodHasher(h) && GoodSlot(p.slot) && p.slot.byHash && n in ArtifactFiles(p, h)
    ensures SecuredFile(p.slot.codename, n, ArtifactFiles(p, h)[n], ByHashWrites(p, h), h)
  {
    var listed := ListedPath(p.slot.component, p.slot.architecture);
    if n == listed + ".gz" {
      GzipSecured(p, h);
    } else {
      PlainSecured(p, h);
    }
  }

  lemma PlainSecured(p: Prepared, h: Hasher)
    requires GoodHasher(h) && GoodSlot(p.slot) && p.slot.byHash
    ensures SecuredFile(p.slot.codename, ListedPath(p.slot.component, p.slot.architecture), h(p.index), ByHashWrites(p, h), h)
  {
    CoverOfListed(p.slot, h(p.index).sha256);
    HashKeyOf(p.slot.codename, p.slot, h(p.index).sha256);
    assert Secures(p.slot.codename, ListedPath(p.slot.component, p.slot.architecture), h(p.index), ByHashWrites(p, h)[0], h);
  }

  lemma GzipSecured(p: Prepared, h: Hasher)
    requires GoodHasher(h) && GoodSlot(p.slot) && p.slot.byHash
    ensures SecuredFile(p.slot.codename, ListedPath(p.slot.component, p.slot.architecture) + ".gz", h(Gzip(p.index)), ByHashWrites(p, h), h)
  {
    CoverOfListed(p.slot, h(Gzip(p.index)).sha256);
    HashKeyOf(p.slot.codename, p.slot, h(Gzip(p.index)).sha256);
    assert Secures(p.slot.codename, ListedPath(p.slot.component, p.slot.architecture) + ".gz", h(Gzip(p.index)), ByHashWrites(p, h)[1], h);
  }

  ghost predicate OfCodename(codename: string, ps: seq<Prepared>)
  {
    forall i :: 0 <= i < |ps| ==> GoodSlot(ps[i].slot) && ps[i].slot.codename == codename && ps[i].slot.byHash
  }

  lemma CoveredStep(codename: string, files: map<string, FileHashes>, objects: map<string, Doc>, writes: seq<Write>,
                    p: Prepared, more: seq<Write>, h: Hasher)
    requires GoodHasher(h) && GoodSlot(p.slot) && p.slot.codename == codename && p.slot.byHash
    requires CoveredBy(codename, files, objects, writes, h)
    ensures CoveredBy(codename, files + ArtifactFiles(p, h), objects, writes + (ByHashWrites(p, h) + more), h)
  {
    var next := ByHashWrites(p, h) + more;
    var after := files + ArtifactFiles(p, h);
    forall n | n in after
      ensures CoveredFile(codename, n, after[n], objects, h) || SecuredFile(codename, n, after[n], writes + next, h) {
      if n in ArtifactFiles(p, h) {
        ArtifactsSecured(p, n, h);
        SecuredMore(codename, n, after[n], ByHashWrites(p, h), more, h);
        SecuredMore(codename, n, after[n], writes, next, h);
      } else if !CoveredFile(codename, n, after[n], objects, h) {
        SecuredMore(codename, n, after[n], writes, next, h);
      }
    }
  }

  lemma {:induction false} PublishedCovered(codename: string, files: map<string, FileHashes>, objects: map<string, Doc>, ps: seq<Prepared>, h: Hasher)
    requires GoodHasher(h) && OfCodename(codename, ps) && Covered(codename, files, objects, h)
    ensures CoveredBy(codename, FilesAfter(files, ps, h), objects, AllByHash(ps, h), h)
  {
    if ps != [] {
      var front, last := ps[..|ps| - 1], ps[|ps| - 1];
      PublishedCovered(codename, files, objects, front, h);
      CoveredStep(codename, FilesAfter(files, front, h), objects, AllByHash(front, h), last, [], h);
      assert ByHashWrites(last, h) + [] == ByHashWrites(last, h);
    }
  }

  lemma {:induction false} CreatedCovered(codename: string, files: map<string, FileHashes>, objects: map<string, Doc>, ps: seq<Prepared>, h: Hasher)
    requires GoodHasher(h) && OfCodename(codename, ps) && Covered(codename, files, objects, h)
    ensures CoveredBy(codename, FilesAfter(files, ps, h), objects, AllCreated(ps, h), h)
  {
    if ps != [] {
      var front, last := ps[..|ps| - 1], ps[|ps| - 1];
      CreatedCovered(codename, files, objects, front, h);
      CoveredStep(codename, FilesAfter(files, front, h), objects, AllCreated(front, h), last, CanonicalWrites(last), h);
    }
  }

  // ------------------------------------------------------------------------ good plans

  /** Writes that cover a Release, then the Release. */
  lemma PlanWithRelease(codename: string, objects: map<string, Doc>, first: seq<Write>, r: ReleaseState, signed: bool, date: string, h: Hasher)
    requires Name(codename) && GoodRelease(r) && (r.codename == codename ==> r.byHash)
    requires AllHarmless(codename, first, h) && NoRelease(codename, first)
    requires r.codename == codename ==> CoveredBy(codename, r.files, objects, first, h)
    ensures GoodPlan(codename, objects, first + FinalWrites(r, signed, date), h)
  {
    var final := FinalWrites(r, signed, date);
    var plan := first + final;
    FinalHarmless(codename, r, signed, date, h);
    forall j | 0 <= j < |plan| && StoresRelease(codename, plan[j])
      ensures CoveredBy(codename, plan[j].doc.release.files, objects, plan[..j], h) {
      assert j >= |first| && plan[j] == final[j - |first|];
      FinalRelease(codename, r, signed, date, h, j - |first|);
      ReleaseOnly(codename, r, signed, date, j - |first|);
      assert plan[..j] == first + final[..j - |first|];
      forall n | n in r.files && SecuredFile(codename, n, r.files[n], first, h)
        ensures SecuredFile(codename, n, r.files[n], plan[..j], h) {
        SecuredMore(codename, n, r.files[n], first, final[..j - |first|], h);
      }
    }
  }

  /** The only Release among the last writes is the one published. */
  lemma FinalRelease(codename: string, r: ReleaseState, signed: bool, date: string, h: Hasher, i: nat)
    requires Name(codename) && GoodRelease(r) && i < |FinalWrites(r, signed, date)|
    requires StoresRelease(codename, FinalWrites(r, signed, date)[i])
    ensures FinalWrites(r, signed, date)[i].doc == ReleaseText(RereadRelease(r), date)
  {
    if signed { SignaturesHarmless(codename, r, ReleaseText(RereadRelease(r), date), h); }
  }

  lemma ReleaseOnly(codename: string, r: ReleaseState, signed: bool, date: string, i: nat)
    requires Name(codename) && Name(r.codename) && i < |FinalWrites(r, signed, date)|
    requires StoresRelease(codename, FinalWrites(r, signed, date)[i])
    requires FinalWrites(r, signed, date)[i].doc == ReleaseText(RereadRelease(r), date)
    ensures r.codename == codename
  {
    SameCodename(codename, r, date);
  }

  lemma SameCodename(codename: string, r: ReleaseState, date: string)
    requires Name(codename) && Name(r.codename)
    requires StoresRelease(codename, Put(ReleasePath(r.codename), ReleaseText(RereadRelease(r), date), REPLACE))
    ensures r.codename == codename
  {
    ReleaseKeys(r.codename);
    ReleaseKeyParts(codename);
    ReleaseKeyParts(r.codename);
  }

  lemma PublicationGood(codename: string, history: seq<ReleaseState>, objects: map<string, Doc>, op: Operation, h: Hasher)
    requires Name(codename) && GoodHasher(h) && op.PublicationOf? && MayBegin(codename, history, op)
    requires AllCovered(codename, history, objects, h) && Closure(op.r, op.ms, h).Ok?
    ensures GoodPlan(codename, objects, PlanOf(op, h), h)
  {
    var (closed, ps) := Closure(op.r, op.ms, h).value;
    ClosureShape(op.r, op.ms, h);
    NothingLeft(closed, h, op.signed, op.date);
    SlotsOfRelease(op.r, ps);
    PoolHarmless(codename, op.bodies, h);
    AllByHashHarmless(codename, ps, h);
    AllCanonicalHarmless(codename, ps, h);
    var indices := AllByHash(ps, h) + AllCanonical(ps);
    if op.r.codename == codename { CoveredByIndices(codename, history, objects, op, ps, h); }
    PlanWithRelease(codename, objects, op.bodies + indices, closed, op.signed, op.date, h);
    Phases(op.bodies, AllByHash(ps, h), AllCanonical(ps), FinalWrites(closed, op.signed, op.date));
  }

  lemma Phases(a: seq<Write>, b: seq<Write>, c: seq<Write>, d: seq<Write>)
    ensures a + (b + (c + d)) == a + (b + c) + d
  {
  }

  lemma SlotsOfRelease(r: ReleaseState, ps: seq<Prepared>)
    requires forall i :: 0 <= i < |ps| ==> OfRelease(r, ps[i].slot)
    ensures GoodSlots(ps)
  {
    forall i | 0 <= i < |ps| ensures GoodSlot(ps[i].slot) { assert OfRelease(r, ps[i].slot); }
  }

  lemma CoveredByIndices(codename: string, history: seq<ReleaseState>, objects: map<string, Doc>, op: Operation, ps: seq<Prepared>, h: Hasher)
    requires GoodHasher(h) && op.PublicationOf? && MayBegin(codename, history, op) && op.r.codename == codename
    requires AllCovered(codename, history, objects, h)
    requires forall i :: 0 <= i < |ps| ==> OfRelease(op.r, ps[i].slot)
    ensures CoveredBy(codename, FilesAfter(op.r.files, ps, h), objects, op.bodies + (AllByHash(ps, h) + AllCanonical(ps)), h)
  {
    PublishedCovered(codename, op.r.files, objects, ps, h);
    var files := FilesAfter(op.r.files, ps, h);
    var indices := AllByHash(ps, h) + AllCanonical(ps);
    forall n | n in files && SecuredFile(codename, n, files[n], AllByHash(ps, h), h)
      ensures SecuredFile(codename, n, files[n], op.bodies + indices, h) {
      SecuredMore(codename, n, files[n], AllByHash(ps, h), AllCanonical(ps), h);
      SecuredMore(codename, n, files[n], op.bodies, indices, h);
    }
  }

  lemma RepublicationGood(codename: string, history: seq<ReleaseState>, objects: map<string, Doc>, op: Operation, h: Hasher)
    requires Name(codename) && GoodHasher(h) && op.Republication? && MayBegin(codename, history, op)
    requires AllCovered(codename, history, objects, h)
    ensures GoodPlan(codename, objects, PlanOf(op, h), h)
  {
    var created := Empties(Missing(op.r));
    CreatedShape(op.r, h);
    var listing := Listing(op.r, created, h);
    SlotsOfRelease(op.r, created);
    AllCreatedHarmless(codename, created, h);
    if op.r.codename == codename {
      CreatedCovered(codename, op.r.files, objects, created, h);
    }
    PlanWithRelease(codename, objects, AllCreated(created, h), listing, op.signed, op.date, h);
  }

  lemma {:induction false} DeletesInPool(victims: seq<string>)
    requires forall i :: 0 <= i < |victims| ==> PoolKey(victims[i])
    ensures InPool(Deletes(victims))
  {
    if victims != [] { DeletesInPool(victims[..|victims| - 1]); }
  }

  /** Every command that may begin begins with a good plan. */
  lemma BeginsGood(codename: string, history: seq<ReleaseState>, objects: map<string, Doc>, op: Operation, h: Hasher)
    requires Name(codename) && GoodHasher(h) && MayBegin(codename, history, op)
    requires AllCovered(codename, history, objects, h)
    ensures GoodPlan(codename, objects, PlanOf(op, h), h)
  {
    match op {
      case PublicationOf(r, ms, _, _, _) =>
        if Closure(r, ms, h).Ok? { PublicationGood(codename, history, objects, op, h); }
      case Republication(_, _, _) => RepublicationGood(codename, history, objects, op, h);
      case BodiesOnly(bodies) =>
        PoolHarmless(codename, bodies, h);
      case Sweeping(victims) =>
        DeletesInPool(victims);
        PoolHarmless(codename, Deletes(victims), h);
    }
  }
}
