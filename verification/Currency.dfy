/** After a successful publication every listed size and digest is that of the stored bytes. */
module Currency {
  import opened Text
  import opened Paths
  import opened Packages
  import opened Documents
  import opened Stores
  import opened Manifests
  import opened Publication
  import opened Layout
  import opened Agreement

  /** The key of a file a Release lists. */
  function ListedKey(codename: string, name: string): string
  {
    Join(["dists", codename], "/") + "/" + name
  }

  /** Every file the Release lists is stored with the listed size and digests. */
  ghost predicate Current(codename: string, files: map<string, FileHashes>, objects: map<string, Doc>, h: Hasher)
  {
    forall n :: n in files ==> ListedKey(codename, n) in objects && h(objects[ListedKey(codename, n)]) == files[n]
  }

  /** The Release does not list itself or its signatures. */
  predicate SelfFree(files: map<string, FileHashes>)
  {
    "Release" !in files && "Release.gpg" !in files && "InRelease" !in files
  }

  lemma ListedKeyInjective(codename: string, a: string, b: string)
    requires ListedKey(codename, a) == ListedKey(codename, b)
    ensures a == b
  {
    var front := Join(["dists", codename], "/") + "/";
    assert (front + a)[|front|..] == a && (front + b)[|front|..] == b;
  }

  lemma ReleaseAmongListed(codename: string)
    requires Name(codename)
    ensures ReleasePath(codename) == ListedKey(codename, "Release")
    ensures ReleasePath(codename) + ".gpg" == ListedKey(codename, "Release.gpg")
    ensures InReleasePath(codename) == ListedKey(codename, "InRelease")
  {
    ReleaseNames(codename);
    ReleaseKeys(codename);
    InReleaseKeys(codename);
    JoinedFrom(codename, ReleasePath(codename), "Release");
    JoinedFrom(codename, ReleasePath(codename) + ".gpg", "Release.gpg");
    JoinedFrom(codename, InReleasePath(codename), "InRelease");
  }

  lemma JoinedFrom(codename: string, key: string, name: string)
    requires Split(key, '/') == ["dists", codename, name]
    ensures key == ListedKey(codename, name)
  {
    JoinOfSplit(key, '/');
    assert "/" == ['/'];
    JoinThree("dists", codename, name);
    JoinTwo("dists", codename);
  }

  lemma JoinTwo(a: string, b: string)
    ensures Join([a, b], "/") == a + "/" + b
  {
    assert [a, b][1..] == [b];
  }

  predicate Creating(w: Write)
  {
    w.Put? && w.options == IMMUTABLE
  }

  ghost predicate AllCreating(writes: seq<Write>)
  {
    forall i :: 0 <= i < |writes| ==> Creating(writes[i])
  }

  /** Create-only puts change no existing object. */
  lemma {:induction false} CreatingKeeps(objects: map<string, Doc>, writes: seq<Write>, key: string)
    requires AllCreating(writes) && key in objects
    ensures key in Run(objects, writes) && Run(objects, writes)[key] == objects[key]
    decreases |writes|
  {
    if writes != [] {
      assert Creating(writes[0]);
      CreatingKeeps(Effect(objects, writes[0]), writes[1..], key);
    }
  }

  lemma {:induction false} AllByHashCreating(ps: seq<Prepared>, h: Hasher)
    ensures AllCreating(AllByHash(ps, h))
  {
    if ps != [] {
      AllByHashCreating(ps[..|ps| - 1], h);
      assert AllCreating(ByHashWrites(ps[|ps| - 1], h));
    }
  }

  lemma CanonicalRun(objects: map<string, Doc>, p: Prepared)
    requires GoodSlot(p.slot)
    ensures Run(objects, CanonicalWrites(p)) == objects[IndexPath(p.slot) := p.index][IndexPath(p.slot) + ".gz" := Gzip(p.index)]
  {
    IndexKeys(p.slot);
    PutTwo(objects, IndexPath(p.slot), p.index, IndexPath(p.slot) + ".gz", Gzip(p.index));
  }

  lemma PutTwo(objects: map<string, Doc>, a: string, x: Doc, b: string, y: Doc)
    requires Named(a) == Some(a) && Named(b) == Some(b)
    ensures Run(objects, [Put(a, x, REPLACE), Put(b, y, REPLACE)]) == objects[a := x][b := y]
  {
    var first, second := Put(a, x, REPLACE), Put(b, y, REPLACE);
    assert [first, second][1..] == [second] && [second][1..] == [];
    assert Run(objects, [first, second]) == Run(objects[a := x], [second]);
    assert Run(objects[a := x], [second]) == Run(objects[a := x][b := y], []);
  }

  /** Recording an index and storing it keep the listing current, also for a path stored before. */
  lemma CurrentStep(files: map<string, FileHashes>, objects: map<string, Doc>, p: Prepared, h: Hasher)
    requires GoodSlot(p.slot) && Current(p.slot.codename, files, objects, h)
    ensures Current(p.slot.codename, files + ArtifactFiles(p, h), Run(objects, CanonicalWrites(p)), h)
  {
    CanonicalRun(objects, p);
    ListedNames(p.slot);
    var listed := ListedPath(p.slot.component, p.slot.architecture);
    assert ListedKey(p.slot.codename, listed) == IndexPath(p.slot);
    SuffixMoves(p.slot.codename, listed);
    StoreTwo(p.slot.codename, files, objects, listed, p.index, listed + ".gz", Gzip(p.index), h);
  }

  lemma SuffixMoves(codename: string, name: string)
    ensures ListedKey(codename, name + ".gz") == ListedKey(codename, name) + ".gz"
  {
  }

  lemma StoreTwo(codename: string, files: map<string, FileHashes>, objects: map<string, Doc>,
                 a: string, x: Doc, b: string, y: Doc, h: Hasher)
    requires Current(codename, files, objects, h)
    ensures Current(codename, files + map[a := h(x)][b := h(y)],
                    objects[ListedKey(codename, a) := x][ListedKey(codename, b) := y], h)
  {
    var after := objects[ListedKey(codename, a) := x][ListedKey(codename, b) := y];
    var listed := files + map[a := h(x)][b := h(y)];
    forall n | n in listed ensures ListedKey(codename, n) in after && h(after[ListedKey(codename, n)]) == listed[n] {
      if ListedKey(codename, n) == ListedKey(codename, a) { ListedKeyInjective(codename, n, a); }
      if ListedKey(codename, n) == ListedKey(codename, b) { ListedKeyInjective(codename, n, b); }
      if n != a && n != b { assert n in files; }
    }
  }

  lemma {:induction false} CurrentAll(r: ReleaseState, files: map<string, FileHashes>, objects: map<string, Doc>, ps: seq<Prepared>, h: Hasher)
    requires forall i :: 0 <= i < |ps| ==> OfRelease(r, ps[i].slot)
    requires Current(r.codename, files, objects, h)
    ensures Current(r.codename, FilesAfter(files, ps, h), Run(objects, AllCanonical(ps)), h)
  {
    if ps != [] {
      var front, last := ps[..|ps| - 1], ps[|ps| - 1];
      CurrentAll(r, files, objects, front, h);
      RunConcat(objects, AllCanonical(front), CanonicalWrites(last));
      CurrentStep(FilesAfter(files, front, h), Run(objects, AllCanonical(front)), last, h);
    }
  }

  lemma {:induction false} SelfFreeAfter(r: ReleaseState, files: map<string, FileHashes>, ps: seq<Prepared>, h: Hasher)
    requires forall i :: 0 <= i < |ps| ==> OfRelease(r, ps[i].slot)
    requires SelfFree(files)
    ensures SelfFree(FilesAfter(files, ps, h))
  {
    if ps != [] {
      SelfFreeAfter(r, files, ps[..|ps| - 1], h);
      ArtifactsSelfFree(ps[|ps| - 1], h);
    }
  }

  lemma ArtifactsSelfFree(p: Prepared, h: Hasher)
    requires GoodSlot(p.slot)
    ensures SelfFree(ArtifactFiles(p, h))
  {
    ListedNames(p.slot);
    var listed := ListedPath(p.slot.component, p.slot.architecture);
    SplitSuffix(listed, ".gz");
    DeepName(listed);
    DeepName(listed + ".gz");
  }

  lemma DeepName(name: string)
    requires |Split(name, '/')| == 3
    ensures name !in {"Release", "Release.gpg", "InRelease"}
  {
    NotOnePart(name, "Release");
    NotOnePart(name, "Release.gpg");
    NotOnePart(name, "InRelease");
  }

  lemma NotOnePart(name: string, other: string)
    requires |Split(name, '/')| == 3 && '/' !in other
    ensures name != other
  {
    SplitWhole(other, '/');
  }

  /** Writing the Release and its signatures keeps all listed files. */
  lemma FinalKeeps(r: ReleaseState, files: map<string, FileHashes>, objects: map<string, Doc>, signed: bool, date: string, h: Hasher)
    requires Name(r.codename) && SelfFree(files) && Current(r.codename, files, objects, h)
    ensures Current(r.codename, files, Run(objects, FinalWrites(r, signed, date)), h)
    ensures var after := Run(objects, FinalWrites(r, signed, date));
            ReleasePath(r.codename) in after && after[ReleasePath(r.codename)] == ReleaseText(RereadRelease(r), date)
  {
    var path, inRelease := ReleasePath(r.codename), InReleasePath(r.codename);
    var after := Run(objects, FinalWrites(r, signed, date));
    FinalRun(r, objects, signed, date);
    ReleaseAmongListed(r.codename);
    forall n | n in files ensures ListedKey(r.codename, n) in after && h(after[ListedKey(r.codename, n)]) == files[n] {
      if ListedKey(r.codename, n) == path { ListedKeyInjective(r.codename, n, "Release"); }
      if ListedKey(r.codename, n) == path + ".gpg" { ListedKeyInjective(r.codename, n, "Release.gpg"); }
      if ListedKey(r.codename, n) == inRelease { ListedKeyInjective(r.codename, n, "InRelease"); }
    }
  }

  /** The last writes touch three keys only. */
  lemma FinalRun(r: ReleaseState, objects: map<string, Doc>, signed: bool, date: string)
    requires Name(r.codename)
    ensures var path, inRelease := ReleasePath(r.codename), InReleasePath(r.codename);
            var doc := ReleaseText(RereadRelease(r), date);
            Run(objects, FinalWrites(r, signed, date)) ==
            if signed then objects[path := doc][path + ".gpg" := Detached(doc)][inRelease := ClearSigned(doc)]
            else (objects - {path + ".gpg"} - {inRelease})[path := doc]
    ensures ReleasePath(r.codename) != InReleasePath(r.codename) && ReleasePath(r.codename) != ReleasePath(r.codename) + ".gpg"
  {
    var path, inRelease := ReleasePath(r.codename), InReleasePath(r.codename);
    var doc := ReleaseText(RereadRelease(r), date);
    ReleaseKeys(r.codename);
    InReleaseKeys(r.codename);
    RunThree(objects, FinalWrites(r, signed, date));
  }

  lemma RunThree(objects: map<string, Doc>, writes: seq<Write>)
    requires |writes| == 3
    ensures Run(objects, writes) == Effect(Effect(Effect(objects, writes[0]), writes[1]), writes[2])
  {
    assert writes[1..][1..] == writes[2..] && writes[2..][1..] == [];
    assert Run(objects, writes) == Run(Effect(objects, writes[0]), writes[1..]);
    var second := Effect(Effect(objects, writes[0]), writes[1]);
    assert Run(Effect(objects, writes[0]), writes[1..]) == Run(second, writes[2..]);
    assert Run(second, writes[2..]) == Run(Effect(second, writes[2]), []);
  }

  /**
   After a successful publication the Release lists an index for every pair of its
   components and architectures, and everything it lists is stored as listed, if
   everything it listed before was.
   */
  lemma PublicationCurrent(r: ReleaseState, ms: seq<ManifestState>, h: Hasher, signed: bool, date: string, objects: map<string, Doc>)
    requires GoodRelease(r) && AllOffered(r, ms) && Closure(r, ms, h).Ok?
    requires SelfFree(r.files) && Current(r.codename, r.files, objects, h)
    ensures var (closed, ps) := Closure(r, ms, h).value;
            var after := Run(objects, PublishPlan(closed, ps, h, signed, date));
            && Missing(closed) == []
            && ReleasePath(r.codename) in after
            && after[ReleasePath(r.codename)] == ReleaseText(RereadRelease(closed), date)
            && Current(r.codename, closed.files, after, h)
  {
    ClosureShape(r, ms, h);
    var (closed, ps) := Closure(r, ms, h).value;
    NothingLeft(closed, h, signed, date);
    var hashed := Run(objects, AllByHash(ps, h));
    AllByHashCreating(ps, h);
    forall n | n in r.files ensures ListedKey(r.codename, n) in hashed && h(hashed[ListedKey(r.codename, n)]) == r.files[n] {
      CreatingKeeps(objects, AllByHash(ps, h), ListedKey(r.codename, n));
    }
    CurrentAll(r, r.files, hashed, ps, h);
    SelfFreeAfter(r, r.files, ps, h);
    var canonical := Run(hashed, AllCanonical(ps));
    FinalKeeps(closed, closed.files, canonical, signed, date, h);
    RunPhases(objects, AllByHash(ps, h), AllCanonical(ps), FinalWrites(closed, signed, date));
  }

  lemma RunPhases(objects: map<string, Doc>, a: seq<Write>, b: seq<Write>, c: seq<Write>)
    ensures Run(objects, a + (b + c)) == Run(Run(Run(objects, a), b), c)
  {
    RunConcat(objects, a, b + c);
    RunConcat(Run(objects, a), b, c);
  }
}
