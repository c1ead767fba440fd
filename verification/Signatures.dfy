/** The Release and its signatures: what a publication leaves of them, and what it leaves when it stops. */
module Signatures {
  import opened Text
  import opened Documents
  import opened Stores
  import opened Manifests
  import opened Publication
  import opened Retrieval
  import opened Layout
  import opened Agreement
  import opened Currency
  import opened ByHashPlans
  import opened Survival

  /** A write to an index or a by-hash object, which lie deeper than a Release. */
  predicate Deep(w: Write)
  {
    Named(w.key).Some? && |Split(Named(w.key).value, '/')| >= 5 && Split(Named(w.key).value, '/')[0] == "dists"
  }

  ghost predicate AllDeep(writes: seq<Write>)
  {
    forall i :: 0 <= i < |writes| ==> Deep(writes[i])
  }

  lemma HashDeep(s: Slot, h: Hasher, doc: Doc)
    requires GoodHasher(h) && GoodSlot(s)
    ensures Deep(Put(ByHashPath(IndexPath(s), h(doc).sha256), doc, IMMUTABLE))
    ensures Deep(Put(ByHashPath(IndexPath(s) + ".gz", h(doc).sha256), doc, IMMUTABLE))
  {
    assert Name(h(doc).sha256);
    ByHashKeys(s, h(doc).sha256);
  }

  lemma IndexDeep(p: Prepared)
    requires GoodSlot(p.slot)
    ensures AllDeep(CanonicalWrites(p))
  {
    IndexKeys(p.slot);
  }

  lemma HashesDeep(p: Prepared, h: Hasher)
    requires GoodHasher(h) && GoodSlot(p.slot)
    ensures AllDeep(ByHashWrites(p, h))
  {
    HashDeep(p.slot, h, p.index);
    HashDeep(p.slot, h, Gzip(p.index));
  }

  lemma {:induction false} IndicesDeep(ps: seq<Prepared>, h: Hasher)
    requires GoodHasher(h) && GoodSlots(ps)
    ensures AllDeep(AllByHash(ps, h)) && AllDeep(AllCanonical(ps))
  {
    if ps != [] {
      IndicesDeep(ps[..|ps| - 1], h);
      IndexDeep(ps[|ps| - 1]);
      HashesDeep(ps[|ps| - 1], h);
    }
  }

  lemma DeepAvoid(writes: seq<Write>, key: string)
    requires AllDeep(writes) && |Split(key, '/')| == 3
    ensures Avoids(writes, key)
  {
    forall i | 0 <= i < |writes| ensures Named(writes[i].key) != Some(key) { assert Deep(writes[i]); }
  }

  /** The three keys of a codename's Release and signatures, as they are in a store. */
  datatype Signed = Signed(release: Option<Doc>, detached: Option<Doc>, clear: Option<Doc>)

  function SignedAt(objects: map<string, Doc>, codename: string): Signed
  {
    Signed(At(objects, ReleasePath(codename)), At(objects, ReleasePath(codename) + ".gpg"), At(objects, InReleasePath(codename)))
  }

  lemma DeepKeeps(objects: map<string, Doc>, writes: seq<Write>, codename: string)
    requires AllDeep(writes) && Name(codename)
    ensures SignedAt(Run(objects, writes), codename) == SignedAt(objects, codename)
  {
    ReleaseKeys(codename);
    InReleaseKeys(codename);
    DeepAvoid(writes, ReleasePath(codename));
    DeepAvoid(writes, ReleasePath(codename) + ".gpg");
    DeepAvoid(writes, InReleasePath(codename));
    AvoidedKept(objects, writes, ReleasePath(codename));
    AvoidedKept(objects, writes, ReleasePath(codename) + ".gpg");
    AvoidedKept(objects, writes, InReleasePath(codename));
  }

  /** A publication's plan: writes of indices, then the last ones. */
  lemma PlanParts(r: ReleaseState, ms: seq<ManifestState>, h: Hasher, signed: bool, date: string)
    requires GoodHasher(h) && GoodRelease(r) && AllOffered(r, ms) && Closure(r, ms, h).Ok?
    ensures var (closed, ps) := Closure(r, ms, h).value;
            && closed.codename == r.codename && AllDeep(AllByHash(ps, h) + AllCanonical(ps))
            && PublishPlan(closed, ps, h, signed, date) == AllByHash(ps, h) + AllCanonical(ps) + FinalWrites(closed, signed, date)
  {
    var (closed, ps) := Closure(r, ms, h).value;
    ClosureShape(r, ms, h);
    NothingLeft(closed, h, signed, date);
    SlotsOfRelease(r, ps);
    IndicesDeep(ps, h);
    DeepBoth(AllByHash(ps, h), AllCanonical(ps));
    Regrouped(AllByHash(ps, h), AllCanonical(ps), FinalWrites(closed, signed, date));
  }

  lemma DeepBoth(a: seq<Write>, b: seq<Write>)
    requires AllDeep(a) && AllDeep(b)
    ensures AllDeep(a + b)
  {
  }

  lemma Regrouped(a: seq<Write>, b: seq<Write>, c: seq<Write>)
    ensures a + (b + c) == a + b + c
  {
  }

  /**
   A finished publication leaves its Release, and beside it the two signatures made of
   that Release if there is a signer, and otherwise none.
   */
  lemma PublicationSigned(objects: map<string, Doc>, r: ReleaseState, ms: seq<ManifestState>, h: Hasher, signed: bool, date: string)
    requires GoodHasher(h) && GoodRelease(r) && AllOffered(r, ms) && Closure(r, ms, h).Ok?
    ensures var (closed, ps) := Closure(r, ms, h).value;
            var doc := ReleaseText(RereadRelease(closed), date);
            SignedAt(Run(objects, PublishPlan(closed, ps, h, signed, date)), r.codename) ==
            if signed then Signed(Some(doc), Some(Detached(doc)), Some(ClearSigned(doc))) else Signed(Some(doc), None, None)
  {
    var (closed, ps) := Closure(r, ms, h).value;
    PlanParts(r, ms, h, signed, date);
    RunConcat(objects, AllByHash(ps, h) + AllCanonical(ps), FinalWrites(closed, signed, date));
    FinalRun(closed, Run(objects, AllByHash(ps, h) + AllCanonical(ps)), signed, date);
    SignedKeysDiffer(r.codename);
  }

  lemma SignedKeysDiffer(codename: string)
    requires Name(codename)
    ensures ReleasePath(codename) + ".gpg" != InReleasePath(codename) && InReleasePath(codename) != ReleasePath(codename)
  {
    ReleaseKeys(codename);
    InReleaseKeys(codename);
  }

  /**
   Without a signer, wherever a publication stops, the Release is still the old one or
   there are no signatures: those of an old Release never stand beside a new one.
   */
  lemma NeverStale(objects: map<string, Doc>, r: ReleaseState, ms: seq<ManifestState>, h: Hasher, date: string, k: nat)
    requires GoodHasher(h) && GoodRelease(r) && AllOffered(r, ms) && Closure(r, ms, h).Ok?
    requires var (closed, ps) := Closure(r, ms, h).value; k <= |PublishPlan(closed, ps, h, false, date)|
    ensures var (closed, ps) := Closure(r, ms, h).value;
            var now := SignedAt(Run(objects, PublishPlan(closed, ps, h, false, date)[..k]), r.codename);
            now.release == At(objects, ReleasePath(r.codename)) || (now.detached == None && now.clear == None)
  {
    var (closed, ps) := Closure(r, ms, h).value;
    PlanParts(r, ms, h, false, date);
    var front, last := AllByHash(ps, h) + AllCanonical(ps), FinalWrites(closed, false, date);
    if k <= |front| {
      assert (front + last)[..k] == front[..k];
      DeepKeeps(objects, front[..k], r.codename);
    } else {
      LastPart(objects, front, last, k, r.codename);
      RemovedFirst(Run(objects, front), closed, date, k - |front|);
    }
  }

  lemma LastPart(objects: map<string, Doc>, front: seq<Write>, last: seq<Write>, k: nat, codename: string)
    requires |front| <= k <= |front + last| && AllDeep(front) && Name(codename)
    ensures Run(objects, (front + last)[..k]) == Run(Run(objects, front), last[..k - |front|])
    ensures SignedAt(Run(objects, front), codename) == SignedAt(objects, codename)
  {
    assert (front + last)[..k] == front + last[..k - |front|];
    RunConcat(objects, front, last[..k - |front|]);
    DeepKeeps(objects, front, codename);
  }

  /** The last writes remove both signatures before they replace the Release. */
  lemma RemovedFirst(objects: map<string, Doc>, r: ReleaseState, date: string, k: nat)
    requires Name(r.codename) && k <= 3
    ensures var now := SignedAt(Run(objects, FinalWrites(r, false, date)[..k]), r.codename);
            now.release == At(objects, ReleasePath(r.codename)) || (now.detached == None && now.clear == None)
  {
    var writes := FinalWrites(r, false, date);
    ReleaseKeys(r.codename);
    InReleaseKeys(r.codename);
    SignedKeysDiffer(r.codename);
    if k < 3 {
      var part := writes[..k];
      assert forall i :: 0 <= i < k ==> part[i] == writes[i] && part[i].Delete?;
      assert Avoids(part, ReleasePath(r.codename));
      AvoidedKept(objects, part, ReleasePath(r.codename));
    } else {
      assert writes[..3] == writes;
      FinalRun(r, objects, false, date);
    }
  }
}
