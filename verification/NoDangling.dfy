/**
 No stored index dangles: every entry of every canonical Packages index names a body
 that is in the pool. Lists of writes keep this after each of their writes.
 */
module NoDangling {
  import opened Text
  import opened Paths
  import opened Keys
  import opened Packages
  import opened PackageCodec
  import opened Documents
  import opened IndexText
  import opened Stores
  import opened Manifests
  import opened Publication
  import opened Retrieval
  import opened Layout
  import opened Agreement
  import opened Cleaning
  import opened GarbageCollection

  predicate PoolName(key: string)
  {
    Split(key, '/')[0] == "pool"
  }

  /** An entry refers to one of these pool keys, and goes on naming it when it is printed again. */
  ghost predicate LocatedIn(keys: set<string>, p: Package)
  {
    p.indexFilename.Some? && Located(keys, p.indexFilename.value) && Lasting(p, p.indexFilename.value)
  }

  ghost predicate Located(keys: set<string>, location: string)
  {
    Named(location).Some? && PoolName(Named(location).value) && Named(location).value in keys
  }

  ghost predicate AllLocated(keys: set<string>, packages: seq<Package>)
  {
    forall p :: p in packages ==> LocatedIn(keys, p)
  }

  /** An index that parses, all of whose entries refer to these pool keys. */
  ghost predicate LocatedDoc(keys: set<string>, doc: Doc)
  {
    Entries(doc).Some? && AllLocated(keys, Entries(doc).value)
  }

  /** No index dangles, and every Release can be worked on. */
  ghost predicate Whole(objects: map<string, Doc>)
  {
    && PlainKeys(objects)
    && (forall k :: k in objects && IndexKey(k) ==> LocatedDoc(objects.Keys, objects[k]))
    && (forall k :: k in objects && ReleaseKey(k) ==> GoodStored(objects[k]))
  }

  // ------------------------------------------------------------------ harmless writes

  /** A write that breaks nothing while these pool keys are present. */
  ghost predicate SafeWrite(keys: set<string>, w: Write)
  {
    Named(w.key).Some? ==>
      && (IndexKey(Named(w.key).value) ==> w.Put? && LocatedDoc(keys, w.doc))
      && (ReleaseKey(Named(w.key).value) && w.Put? ==> GoodStored(w.doc))
      && (PoolName(Named(w.key).value) ==> w.Put?)
  }

  ghost predicate AllSafe(keys: set<string>, writes: seq<Write>)
  {
    forall i :: 0 <= i < |writes| ==> SafeWrite(keys, writes[i])
  }

  ghost predicate Stocked(keys: set<string>, objects: map<string, Doc>)
  {
    forall k :: k in keys ==> k in objects && PoolName(k)
  }

  lemma LocatedMore(keys: set<string>, more: set<string>, packages: seq<Package>)
    requires AllLocated(keys, packages) && forall k :: k in keys && PoolName(k) ==> k in more
    ensures AllLocated(more, packages)
  {
  }

  /** A safe write removes no pool object. */
  lemma SafePoolKept(objects: map<string, Doc>, keys: set<string>, w: Write, k: string)
    requires SafeWrite(keys, w) && k in objects && PoolName(k)
    ensures k in Effect(objects, w)
  {
    if Named(w.key) == Some(k) { PoolNotIndex(k); }
  }

  lemma SafeIndices(objects: map<string, Doc>, keys: set<string>, w: Write, k: string)
    requires Whole(objects) && Stocked(keys, objects) && SafeWrite(keys, w)
    requires k in Effect(objects, w) && IndexKey(k)
    ensures LocatedDoc(Effect(objects, w).Keys, Effect(objects, w)[k])
  {
    var after := Effect(objects, w);
    forall n | n in objects && PoolName(n) ensures n in after { SafePoolKept(objects, keys, w, n); }
    if Named(w.key) == Some(k) && Accepted(objects, w) {
      LocatedMore(keys, after.Keys, Entries(w.doc).value);
    } else {
      LocatedMore(objects.Keys, after.Keys, Entries(objects[k]).value);
    }
  }

  lemma SafePlain(objects: map<string, Doc>, keys: set<string>, w: Write)
    requires PlainKeys(objects) && SafeWrite(keys, w) && (forall k :: k in objects && ReleaseKey(k) ==> GoodStored(objects[k]))
    ensures PlainKeys(Effect(objects, w))
    ensures forall k :: k in Effect(objects, w) && ReleaseKey(k) ==> GoodStored(Effect(objects, w)[k])
  {
    if Named(w.key).Some? { NamedFixed(w.key); }
  }

  lemma SafeWriteKeeps(objects: map<string, Doc>, keys: set<string>, w: Write)
    requires Whole(objects) && Stocked(keys, objects) && SafeWrite(keys, w)
    ensures Whole(Effect(objects, w)) && Stocked(keys, Effect(objects, w))
  {
    SafePlain(objects, keys, w);
    forall k | k in Effect(objects, w) && IndexKey(k) ensures LocatedDoc(Effect(objects, w).Keys, Effect(objects, w)[k]) {
      SafeIndices(objects, keys, w, k);
    }
    forall k | k in keys ensures k in Effect(objects, w) { SafePoolKept(objects, keys, w, k); }
  }

  lemma PoolNotIndex(key: string)
    requires PoolName(key)
    ensures !IndexKey(key)
  {
    if HasPrefix(key, "dists/") { DistsHead(key); }
  }

  lemma DistsHead(key: string)
    requires HasPrefix(key, "dists/")
    ensures Split(key, '/')[0] == "dists"
  {
    SplitConcat("dists", key[6..], '/');
    assert key == "dists/" + key[6..] && "dists/" == "dists" + ['/'];
    SplitWhole("dists", '/');
  }

  /** Safe writes keep a store whole, whichever of them were issued. */
  lemma {:induction false} SafeWritesKeep(objects: map<string, Doc>, keys: set<string>, writes: seq<Write>, k: nat)
    requires Whole(objects) && Stocked(keys, objects) && AllSafe(keys, writes) && k <= |writes|
    ensures Whole(Run(objects, writes[..k])) && Stocked(keys, Run(objects, writes[..k]))
    decreases |writes|
  {
    if k > 0 {
      SafeWriteKeeps(objects, keys, writes[0]);
      SafeWritesKeep(Effect(objects, writes[0]), keys, writes[1..], k - 1);
      assert writes[..k][1..] == writes[1..][..k - 1];
    } else {
      assert writes[..k] == [];
    }
  }

  // -------------------------------------------------------------- bodies, then the rest

  /** Puts of bodies into the pool. */
  predicate BodyPut(w: Write)
  {
    w.Put? && (Named(w.key).Some? ==> PoolName(Named(w.key).value))
  }

  ghost predicate AllBodies(writes: seq<Write>)
  {
    forall i :: 0 <= i < |writes| ==> BodyPut(writes[i])
  }

  function BodyKeys(writes: seq<Write>): set<string>
  {
    if writes == [] then {}
    else BodyKeys(writes[..|writes| - 1]) + (if Named(writes[|writes| - 1].key).Some? then {Named(writes[|writes| - 1].key).value} else {})
  }

  lemma {:induction false} BodyKeysMembers(writes: seq<Write>, i: nat)
    requires i < |writes| && Named(writes[i].key).Some?
    ensures Named(writes[i].key).value in BodyKeys(writes)
    decreases |writes|
  {
    if i < |writes| - 1 { BodyKeysMembers(writes[..|writes| - 1], i); }
  }

  lemma BodySafe(keys: set<string>, w: Write)
    requires BodyPut(w)
    ensures SafeWrite(keys, w)
  {
    if Named(w.key).Some? { PoolNotIndex(Named(w.key).value); }
  }

  /** After all bodies were accepted, their keys are present, and the old pool keys still are. */
  lemma {:induction false} BodiesPresent(objects: map<string, Doc>, keys: set<string>, bodies: seq<Write>)
    requires Whole(objects) && Stocked(keys, objects) && AllBodies(bodies)
    ensures Whole(Run(objects, bodies)) && Stocked(keys + BodyKeys(bodies), Run(objects, bodies))
  {
    if bodies == [] {
      assert keys + {} == keys;
    } else {
      var front, last := bodies[..|bodies| - 1], bodies[|bodies| - 1];
      assert bodies == front + [last];
      BodiesPresent(objects, keys, front);
      RunConcat(objects, front, [last]);
      BodySafe(keys + BodyKeys(front), last);
      SafeWriteKeeps(Run(objects, front), keys + BodyKeys(front), last);
    }
  }

  lemma BodiesSafe(keys: set<string>, bodies: seq<Write>)
    requires AllBodies(bodies)
    ensures AllSafe(keys, bodies)
  {
    forall i | 0 <= i < |bodies| ensures SafeWrite(keys, bodies[i]) { BodySafe(keys, bodies[i]); }
  }

  lemma BodiesPart(objects: map<string, Doc>, keys: set<string>, bodies: seq<Write>, rest: seq<Write>, k: nat)
    requires Whole(objects) && Stocked(keys, objects) && AllBodies(bodies) && k <= |bodies|
    ensures Whole(Run(objects, (bodies + rest)[..k]))
  {
    BodiesSafe(keys, bodies);
    SafeWritesKeep(objects, keys, bodies, k);
    assert (bodies + rest)[..k] == bodies[..k];
  }

  /** Bodies, then writes that may rely on them: the store is whole after any part of the plan. */
  lemma PlanKeepsWhole(objects: map<string, Doc>, keys: set<string>, bodies: seq<Write>, rest: seq<Write>, k: nat)
    requires Whole(objects) && Stocked(keys, objects) && AllBodies(bodies)
    requires AllSafe(keys + BodyKeys(bodies), rest) && k <= |bodies + rest|
    ensures Whole(Run(objects, (bodies + rest)[..k]))
  {
    if k <= |bodies| {
      BodiesPart(objects, keys, bodies, rest, k);
    } else {
      BodiesPresent(objects, keys, bodies);
      SafeWritesKeep(Run(objects, bodies), keys + BodyKeys(bodies), rest, k - |bodies|);
      RunPart(objects, bodies, rest, k);
    }
  }

  lemma RunPart(objects: map<string, Doc>, bodies: seq<Write>, rest: seq<Write>, k: nat)
    requires |bodies| <= k <= |bodies + rest|
    ensures Run(objects, (bodies + rest)[..k]) == Run(Run(objects, bodies), rest[..k - |bodies|])
  {
    assert (bodies + rest)[..k] == bodies + rest[..k - |bodies|];
    RunConcat(objects, bodies, rest[..k - |bodies|]);
  }

  // ----------------------------------------------------------- which keys are indices

  lemma IndexPathIndex(s: Slot)
    requires GoodSlot(s)
    ensures IndexKey(IndexPath(s)) && !IndexKey(IndexPath(s) + ".gz")
  {
    PlainPathIndex(s);
    IndexFronts(s);
    IndexKeys(s);
    KeyBase(IndexFront(s), "Packages.gz");
  }

  lemma PlainPathIndex(s: Slot)
    requires GoodSlot(s)
    ensures IndexKey(IndexPath(s))
  {
    IndexFronts(s);
    IndexKeys(s);
    KeyBase(IndexFront(s), "Packages");
    DirBase(["dists", s.codename, s.component], "binary-" + s.architecture, "Packages");
    assert ["dists", s.codename, s.component] + ["binary-" + s.architecture, "Packages"] == IndexSegments(s);
    StartsWithDists(IndexSegments(s));
  }

  lemma StartsWithDists(segs: seq<string>)
    requires |segs| > 1 && segs[0] == "dists"
    ensures HasPrefix(Join(segs, "/"), "dists/")
  {
    assert "dists" + "/" == "dists/";
    assert Join(segs, "/") == "dists/" + Join(segs[1..], "/");
  }

  lemma KeyBase(front: seq<string>, last: string)
    requires Names(front + [last])
    ensures Base(Join(front + [last], "/")) == last
  {
    BaseOfSegments(front + [last]);
  }

  lemma DirBase(front: seq<string>, directory: string, last: string)
    requires Names(front + [directory, last])
    ensures Base(Dir(Join(front + [directory, last], "/"))) == directory
  {
    DirOfSegments(front + [directory, last]);
    assert (front + [directory, last])[..|front| + 1] == front + [directory];
    assert Names(front + [directory]) by {
      forall i | 0 <= i < |front + [directory]| ensures Name((front + [directory])[i]) {
        assert (front + [directory])[i] == (front + [directory, last])[i];
      }
    }
    BaseOfSegments(front + [directory]);
  }

  lemma ByHashNotIndex(s: Slot, sha256: string)
    requires GoodSlot(s) && Name(sha256)
    ensures Named(ByHashPath(IndexPath(s), sha256)) == Some(ByHashPath(IndexPath(s), sha256))
    ensures ByHashPath(IndexPath(s) + ".gz", sha256) == ByHashPath(IndexPath(s), sha256)
    ensures !IndexKey(ByHashPath(IndexPath(s), sha256)) && !ReleaseKey(ByHashPath(IndexPath(s), sha256))
  {
    ByHashKeys(s, sha256);
    ByHashFronts(s, sha256);
    var front := IndexFront(s) + ["by-hash"];
    assert ByHashSegments(s, sha256) == front + ["SHA256", sha256];
    DirBase(front, "SHA256", sha256);
  }

  lemma ReleaseNotIndex(codename: string)
    requires Name(codename)
    ensures !IndexKey(ReleasePath(codename)) && !IndexKey(ReleasePath(codename) + ".gpg") && !IndexKey(InReleasePath(codename))
    ensures !PoolName(ReleasePath(codename) + ".gpg") && !PoolName(InReleasePath(codename))
  {
    ReleaseNames(codename);
    ReleaseKeys(codename);
    InReleaseKeys(codename);
    SplitBase(ReleasePath(codename), codename, "Release");
    SplitBase(ReleasePath(codename) + ".gpg", codename, "Release.gpg");
    SplitBase(InReleasePath(codename), codename, "InRelease");
  }

  lemma SplitBase(key: string, codename: string, last: string)
    requires Split(key, '/') == ["dists", codename, last] && Names(["dists", codename, last])
    ensures Base(key) == last
  {
    JoinOfSplit(key, '/');
    assert "/" == ['/'];
    BaseOfSegments(["dists", codename, last]);
  }

  // ------------------------------------------------------------------- safe publication

  lemma ByHashSafe(keys: set<string>, p: Prepared, h: Hasher)
    requires GoodHasher(h) && GoodSlot(p.slot)
    ensures AllSafe(keys, ByHashWrites(p, h))
  {
    assert Name(h(p.index).sha256) && Name(h(Gzip(p.index)).sha256);
    ByHashNotIndex(p.slot, h(p.index).sha256);
    ByHashNotIndex(p.slot, h(Gzip(p.index)).sha256);
    PutSafe(keys, ByHashPath(IndexPath(p.slot), h(p.index).sha256), p.index, IMMUTABLE);
    PutSafe(keys, ByHashPath(IndexPath(p.slot) + ".gz", h(Gzip(p.index)).sha256), Gzip(p.index), IMMUTABLE);
  }

  lemma PutSafe(keys: set<string>, key: string, doc: Doc, options: PutOptions)
    requires Named(key) == Some(key) && !IndexKey(key) && (ReleaseKey(key) ==> GoodStored(doc))
    ensures SafeWrite(keys, Put(key, doc, options))
  {
  }

  /** An index that may be published: its entries are all located. */
  ghost predicate GoodIndex(keys: set<string>, p: Prepared)
  {
    GoodSlot(p.slot) && LocatedDoc(keys, p.index)
  }

  ghost predicate GoodIndices(keys: set<string>, ps: seq<Prepared>)
  {
    forall i :: 0 <= i < |ps| ==> GoodIndex(keys, ps[i])
  }

  lemma CanonicalSafe(keys: set<string>, p: Prepared)
    requires GoodIndex(keys, p)
    ensures AllSafe(keys, CanonicalWrites(p))
  {
    IndexKeys(p.slot);
    IndexPathIndex(p.slot);
    PutSafe(keys, IndexPath(p.slot) + ".gz", Gzip(p.index), REPLACE);
  }

  lemma {:induction false} AllByHashSafe(keys: set<string>, ps: seq<Prepared>, h: Hasher)
    requires GoodHasher(h) && GoodIndices(keys, ps)
    ensures AllSafe(keys, AllByHash(ps, h))
  {
    if ps != [] {
      AllByHashSafe(keys, ps[..|ps| - 1], h);
      assert GoodIndex(keys, ps[|ps| - 1]);
      ByHashSafe(keys, ps[|ps| - 1], h);
    }
  }

  lemma {:induction false} AllCanonicalSafe(keys: set<string>, ps: seq<Prepared>)
    requires GoodIndices(keys, ps)
    ensures AllSafe(keys, AllCanonical(ps))
  {
    if ps != [] {
      AllCanonicalSafe(keys, ps[..|ps| - 1]);
      assert GoodIndex(keys, ps[|ps| - 1]);
      CanonicalSafe(keys, ps[|ps| - 1]);
    }
  }

  lemma {:induction false} AllCreatedSafe(keys: set<string>, ps: seq<Prepared>, h: Hasher)
    requires GoodHasher(h) && GoodIndices(keys, ps)
    ensures AllSafe(keys, AllCreated(ps, h))
  {
    if ps != [] {
      var front, last := ps[..|ps| - 1], ps[|ps| - 1];
      AllCreatedSafe(keys, front, h);
      assert GoodIndex(keys, last);
      ByHashSafe(keys, last, h);
      CanonicalSafe(keys, last);
    }
  }

  lemma ReleaseSafe(keys: set<string>, r: ReleaseState, date: string)
    requires GoodRelease(r)
    ensures SafeWrite(keys, Put(ReleasePath(r.codename), ReleaseText(RereadRelease(r), date), REPLACE))
  {
    ReleaseKeys(r.codename);
    ReleaseNotIndex(r.codename);
    PutSafe(keys, ReleasePath(r.codename), ReleaseText(RereadRelease(r), date), REPLACE);
  }

  lemma SignaturesSafe(keys: set<string>, r: ReleaseState, doc: Doc)
    requires GoodRelease(r)
    ensures SafeWrite(keys, Put(ReleasePath(r.codename) + ".gpg", Detached(doc), REPLACE))
    ensures SafeWrite(keys, Put(InReleasePath(r.codename), ClearSigned(doc), REPLACE))
  {
    ReleaseKeys(r.codename);
    InReleaseKeys(r.codename);
    ReleaseNotIndex(r.codename);
    PutSafe(keys, ReleasePath(r.codename) + ".gpg", Detached(doc), REPLACE);
    PutSafe(keys, InReleasePath(r.codename), ClearSigned(doc), REPLACE);
  }

  lemma RemovalsSafe(keys: set<string>, r: ReleaseState)
    requires GoodRelease(r)
    ensures SafeWrite(keys, Delete(ReleasePath(r.codename) + ".gpg")) && SafeWrite(keys, Delete(InReleasePath(r.codename)))
  {
    ReleaseKeys(r.codename);
    InReleaseKeys(r.codename);
    ReleaseNotIndex(r.codename);
  }

  lemma FinalSafe(keys: set<string>, r: ReleaseState, signed: bool, date: string)
    requires GoodRelease(r)
    ensures AllSafe(keys, FinalWrites(r, signed, date))
  {
    ReleaseSafe(keys, r, date);
    if signed { SignaturesSafe(keys, r, ReleaseText(RereadRelease(r), date)); } else { RemovalsSafe(keys, r); }
  }

  /** Publishing a Release with its missing empty indices is safe. */
  lemma ReleasePlanSafe(keys: set<string>, r: ReleaseState, h: Hasher, signed: bool, date: string)
    requires GoodHasher(h) && GoodRelease(r)
    ensures AllSafe(keys, ReleasePlan(r, h, signed, date))
  {
    var created := Empties(Missing(r));
    CreatedShape(r, h);
    EmptyIndex(r.codename);
    forall i | 0 <= i < |created| ensures GoodIndex(keys, created[i]) { assert OfRelease(r, created[i].slot); }
    AllCreatedSafe(keys, created, h);
    FinalSafe(keys, Listing(r, created, h), signed, date);
  }

  lemma PublishPlanSafe(keys: set<string>, r: ReleaseState, ps: seq<Prepared>, h: Hasher, signed: bool, date: string)
    requires GoodHasher(h) && GoodRelease(r) && GoodIndices(keys, ps)
    ensures AllSafe(keys, PublishPlan(r, ps, h, signed, date))
  {
    AllByHashSafe(keys, ps, h);
    AllCanonicalSafe(keys, ps);
    ReleasePlanSafe(keys, r, h, signed, date);
  }
}
