/**
 What an upload leaves in the pool: at each package's location the bytes of its file,
 and everything else as it was.
 */
module Bodies {
  import opened Text
  import opened Paths
  import opened Keys
  import opened Packages
  import opened Documents
  import opened Stores
  import opened Manifests
  import opened Publication
  import opened Retrieval
  import opened Uploading
  import opened FanOutProperties
  import opened Layout
  import opened Agreement
  import opened NoDangling
  import opened CommandRuns
  import opened RepositoryRuns
  import opened CommandPlans
  import opened ByHashPlans
  import opened Survival
  import opened Signatures

  // ------------------------------------------------------------- what is sent, in order

  /** The packages placed in these architectures, one architecture after the other. */
  function InOrder(o: UploadOptions, inspected: seq<Option<Package>>, architectures: seq<string>): seq<Package>
  {
    if architectures == [] then []
    else InOrder(o, inspected, architectures[..|architectures| - 1]) + PlacedList(o, inspected, architectures[|architectures| - 1])
  }

  /** The packages whose bodies an upload puts, in order. */
  function Sent(o: UploadOptions, r: ReleaseState, inspected: seq<Option<Package>>): seq<Package>
  {
    if o.skipPackageUpload then [] else InOrder(o, inspected, Once([], Needed(o, r, inspected)))
  }

  /** The put that a package's body needs: its file's bytes at its location. */
  ghost predicate Puts(w: Write, p: Package, o: UploadOptions, disk: map<string, string>)
  {
    && w.Put? && RepositoryFilename(p, o.codename) == Ok(w.key) && PoolName(w.key)
    && p.filename in disk && w.doc == Bytes(disk[p.filename]) && w.options.failIfExists == o.failIfExists && !w.options.createOnly
  }

  /** Writes are the puts of packages, in order, as far as they go. */
  ghost predicate PutsAll(writes: seq<Write>, packages: seq<Package>, o: UploadOptions, disk: map<string, string>)
  {
    |writes| <= |packages| && forall i :: 0 <= i < |writes| ==> Puts(writes[i], packages[i], o, disk)
  }

  lemma BodyPuts(o: UploadOptions, r: ReleaseState, m: ManifestState, p: Package, disk: map<string, string>)
    requires Alike(o, r, m) && BodyWrite(m, p, disk).Some?
    ensures Puts(BodyWrite(m, p, disk).value, p, o, disk)
  {
    PoolHead(BodyWrite(m, p, disk).value.key);
  }

  lemma {:induction false} BodiesPut(o: UploadOptions, r: ReleaseState, m: ManifestState, pending: seq<Package>, disk: map<string, string>)
    requires Alike(o, r, m)
    ensures PutsAll(BodyWrites(m, pending, disk).0, pending, o, disk)
    ensures BodyWrites(m, pending, disk).1 ==> |BodyWrites(m, pending, disk).0| == |pending|
  {
    if pending != [] {
      var front, last := pending[..|pending| - 1], pending[|pending| - 1];
      BodiesPut(o, r, m, front, disk);
      if BodyWrite(m, last, disk).Some? { BodyPuts(o, r, m, last, disk); }
    }
  }

  function AllPending(ms: seq<ManifestState>): seq<Package>
  {
    if ms == [] then [] else AllPending(ms[..|ms| - 1]) + ms[|ms| - 1].pendingUploads
  }

  lemma PutsMore(a: seq<Write>, b: seq<Write>, ps: seq<Package>, qs: seq<Package>, o: UploadOptions, disk: map<string, string>)
    requires PutsAll(a, ps, o, disk) && |a| == |ps| && PutsAll(b, qs, o, disk)
    ensures PutsAll(a + b, ps + qs, o, disk)
  {
  }

  lemma PutsLess(a: seq<Write>, ps: seq<Package>, qs: seq<Package>, o: UploadOptions, disk: map<string, string>)
    requires PutsAll(a, ps, o, disk)
    ensures PutsAll(a, ps + qs, o, disk)
  {
  }

  lemma {:induction false} PoolPuts(o: UploadOptions, r: ReleaseState, ms: seq<ManifestState>, disk: map<string, string>)
    requires AllAlike(o, r, ms) && !o.skipPackageUpload
    ensures PutsAll(PoolWrites(ms, disk).0, AllPending(ms), o, disk)
    ensures PoolWrites(ms, disk).1 ==> |PoolWrites(ms, disk).0| == |AllPending(ms)|
  {
    if ms != [] {
      var front, last := ms[..|ms| - 1], ms[|ms| - 1];
      assert Alike(o, r, last);
      PoolPuts(o, r, front, disk);
      BodiesPut(o, r, last, last.pendingUploads, disk);
      if PoolWrites(front, disk).1 {
        PutsMore(PoolWrites(front, disk).0, BodyWrites(last, last.pendingUploads, disk).0, AllPending(front), last.pendingUploads, o, disk);
      } else {
        PutsLess(PoolWrites(front, disk).0, AllPending(front), last.pendingUploads, o, disk);
      }
    }
  }

  lemma {:induction false} NoPoolPuts(o: UploadOptions, r: ReleaseState, ms: seq<ManifestState>, disk: map<string, string>)
    requires AllAlike(o, r, ms) && o.skipPackageUpload
    ensures PoolWrites(ms, disk) == ([], true)
  {
    if ms != [] {
      assert Alike(o, r, ms[|ms| - 1]);
      NoPoolPuts(o, r, ms[..|ms| - 1], disk);
      var none: seq<Write> := [];
      assert none + none == none;
    }
  }

  lemma {:induction false} PendingInOrder(o: UploadOptions, inspected: seq<Option<Package>>, ms: seq<ManifestState>)
    requires forall i :: 0 <= i < |ms| ==> ms[i].pendingUploads == PlacedList(o, inspected, ms[i].architecture)
    ensures AllPending(ms) == InOrder(o, inspected, Architectures(ms))
  {
    if ms != [] {
      PendingInOrder(o, inspected, ms[..|ms| - 1]);
      assert Architectures(ms)[..|ms| - 1] == Architectures(ms[..|ms| - 1]);
    }
  }

  /** An upload's puts into the pool are those of the packages it sends, in order. */
  lemma PoolOfUpload(before: map<string, Doc>, o: UploadOptions, r: ReleaseState, inspected: seq<Option<Package>>, disk: map<string, string>)
    requires UploadManifests(before, o, r, inspected).Some?
    ensures var (pool, whole) := PoolWrites(UploadManifests(before, o, r, inspected).value, disk);
            PutsAll(pool, Sent(o, r, inspected), o, disk) && (whole ==> |pool| == |Sent(o, r, inspected)|)
  {
    var ms := UploadManifests(before, o, r, inspected).value;
    FanOutAlike(before, o, r, inspected);
    FanOutOpens(before, o, r, inspected);
    forall i | 0 <= i < |ms| ensures ms[i].pendingUploads == PlacedList(o, inspected, ms[i].architecture) {
      FanOutComplete(before, o, r, inspected, i);
    }
    PendingInOrder(o, inspected, ms);
    if o.skipPackageUpload { NoPoolPuts(o, r, ms, disk); } else { PoolPuts(o, r, ms, disk); }
  }

  // ------------------------------------------------------------------ what puts leave

  /** Whether a package has this location. */
  predicate LocatedAt(p: Package, codename: string, key: string)
  {
    RepositoryFilename(p, codename) == Ok(key)
  }

  /** The last package with this location. */
  ghost predicate LastAt(packages: seq<Package>, i: int, codename: string, key: string)
  {
    0 <= i < |packages| && LocatedAt(packages[i], codename, key) && forall j :: i < j < |packages| ==> !LocatedAt(packages[j], codename, key)
  }

  ghost predicate NoneAt(packages: seq<Package>, codename: string, key: string)
  {
    forall i :: 0 <= i < |packages| ==> !LocatedAt(packages[i], codename, key)
  }

  lemma PutsFront(writes: seq<Write>, packages: seq<Package>, o: UploadOptions, disk: map<string, string>)
    requires PutsAll(writes, packages, o, disk) && writes != [] && |writes| == |packages|
    ensures PutsAll(writes[..|writes| - 1], packages[..|packages| - 1], o, disk)
    ensures Puts(writes[|writes| - 1], packages[|packages| - 1], o, disk)
  {
  }

  lemma AcceptedFront(objects: map<string, Doc>, writes: seq<Write>)
    requires writes != [] && AllAccepted(objects, writes)
    ensures var front, last := writes[..|writes| - 1], writes[|writes| - 1];
            && AllAccepted(objects, front) && Accepted(Run(objects, front), last)
            && Run(objects, writes) == Effect(Run(objects, front), last)
  {
    var front, last := writes[..|writes| - 1], writes[|writes| - 1];
    assert writes == front + [last];
    RunConcat(objects, front, [last]);
    assert [last][1..] == [];
  }

  /** Each location a package has: its own key. */
  lemma PutAtKey(w: Write, p: Package, o: UploadOptions, disk: map<string, string>, objects: map<string, Doc>, key: string)
    requires Puts(w, p, o, disk) && Inspected(p) && Accepted(objects, w)
    ensures At(Effect(objects, w), key) == if LocatedAt(p, o.codename, key) then Some(Bytes(disk[p.filename])) else At(objects, key)
    ensures o.failIfExists && key in objects ==> At(Effect(objects, w), key) == At(objects, key)
  {
    DerivedInPool(p, o.codename);
  }

  ghost predicate AllInspected(packages: seq<Package>)
  {
    forall i :: 0 <= i < |packages| ==> Inspected(packages[i])
  }

  lemma LastMore(front: seq<Package>, last: Package, i: int, codename: string, key: string)
    ensures LastAt(front + [last], i, codename, key) <==>
            if LocatedAt(last, codename, key) then i == |front| else LastAt(front, i, codename, key)
    ensures NoneAt(front + [last], codename, key) <==> NoneAt(front, codename, key) && !LocatedAt(last, codename, key)
  {
    var whole := front + [last];
    assert whole[|front|] == last;
    assert forall j :: 0 <= j < |front| ==> whole[j] == front[j];
  }

  /** What the last of these packages at a key leaves there, or else what it held. */
  ghost predicate Leaves(packages: seq<Package>, o: UploadOptions, disk: map<string, string>, key: string, was: Option<Doc>, now: Option<Doc>)
  {
    && (forall i :: LastAt(packages, i, o.codename, key) ==>
                      packages[i].filename in disk && now == Some(Bytes(disk[packages[i].filename])))
    && (NoneAt(packages, o.codename, key) ==> now == was)
    && (o.failIfExists && was.Some? ==> now == was)
  }

  lemma LeavesMore(front: seq<Package>, last: Package, w: Write, o: UploadOptions, disk: map<string, string>, key: string,
                   objects: map<string, Doc>, was: Option<Doc>)
    requires Leaves(front, o, disk, key, was, At(objects, key)) && Puts(w, last, o, disk) && Inspected(last) && Accepted(objects, w)
    ensures Leaves(front + [last], o, disk, key, was, At(Effect(objects, w), key))
  {
    var whole := front + [last];
    PutAtKey(w, last, o, disk, objects, key);
    forall i ensures LastAt(whole, i, o.codename, key) <==>
                     if LocatedAt(last, o.codename, key) then i == |front| else LastAt(front, i, o.codename, key) {
      LastMore(front, last, i, o.codename, key);
    }
    LastMore(front, last, 0, o.codename, key);
    assert forall i :: 0 <= i < |front| ==> whole[i] == front[i];
  }

  lemma InspectedFront(packages: seq<Package>)
    requires packages != [] && AllInspected(packages)
    ensures AllInspected(packages[..|packages| - 1]) && Inspected(packages[|packages| - 1])
  {
  }

  /** After accepted puts each location holds the bytes of the last package there, every other key what it held. */
  lemma {:induction false} PutsLeave(objects: map<string, Doc>, writes: seq<Write>, packages: seq<Package>, o: UploadOptions,
                                     disk: map<string, string>, key: string)
    requires PutsAll(writes, packages, o, disk) && |writes| == |packages| && AllInspected(packages) && AllAccepted(objects, writes)
    ensures Leaves(packages, o, disk, key, At(objects, key), At(Run(objects, writes), key))
    decreases |writes|
  {
    if writes == [] {
      assert NoneAt(packages, o.codename, key);
    } else {
      var n := |writes| - 1;
      PutsFront(writes, packages, o, disk);
      InspectedFront(packages);
      AcceptedFront(objects, writes);
      PutsLeave(objects, writes[..n], packages[..n], o, disk, key);
      NextLeaves(objects, writes, packages, o, disk, key);
    }
  }

  lemma NextLeaves(objects: map<string, Doc>, writes: seq<Write>, packages: seq<Package>, o: UploadOptions, disk: map<string, string>, key: string)
    requires writes != [] && |writes| == |packages| && Puts(writes[|writes| - 1], packages[|writes| - 1], o, disk)
    requires Inspected(packages[|writes| - 1]) && AllAccepted(objects, writes)
    requires Leaves(packages[..|writes| - 1], o, disk, key, At(objects, key), At(Run(objects, writes[..|writes| - 1]), key))
    ensures Leaves(packages, o, disk, key, At(objects, key), At(Run(objects, writes), key))
  {
    var n := |writes| - 1;
    var front, last, middle := packages[..n], packages[n], Run(objects, writes[..n]);
    AcceptedFront(objects, writes);
    assert Run(objects, writes) == Effect(middle, writes[n]);
    LeavesMore(front, last, writes[n], o, disk, key, middle, At(objects, key));
    WholeAgain(packages, n);
  }

  lemma WholeAgain(packages: seq<Package>, n: nat)
    requires n + 1 == |packages|
    ensures packages[..n] + [packages[n]] == packages
  {
  }

  // -------------------------------------------------------- metadata stays out of the pool

  /** A write to a key beneath "dists". */
  predicate InDists(w: Write)
  {
    Named(w.key).Some? && Split(Named(w.key).value, '/')[0] == "dists"
  }

  ghost predicate AllInDists(writes: seq<Write>)
  {
    forall i :: 0 <= i < |writes| ==> InDists(writes[i])
  }

  lemma DeepInDists(writes: seq<Write>)
    requires AllDeep(writes)
    ensures AllInDists(writes)
  {
    forall i | 0 <= i < |writes| ensures InDists(writes[i]) { assert Deep(writes[i]); }
  }

  lemma FinalInDists(r: ReleaseState, signed: bool, date: string)
    requires Name(r.codename)
    ensures AllInDists(FinalWrites(r, signed, date))
  {
    ReleaseKeys(r.codename);
    InReleaseKeys(r.codename);
  }

  lemma PlanInDists(r: ReleaseState, ms: seq<ManifestState>, h: Hasher, signed: bool, date: string)
    requires GoodHasher(h) && GoodRelease(r) && AllOffered(r, ms) && Closure(r, ms, h).Ok?
    ensures var (closed, ps) := Closure(r, ms, h).value; AllInDists(PublishPlan(closed, ps, h, signed, date))
  {
    var (closed, ps) := Closure(r, ms, h).value;
    ClosureShape(r, ms, h);
    NothingLeft(closed, h, signed, date);
    SlotsOfRelease(r, ps);
    IndicesDeep(ps, h);
    DeepInDists(AllByHash(ps, h));
    DeepInDists(AllCanonical(ps));
    FinalInDists(closed, signed, date);
  }

  lemma DistsAvoidPool(writes: seq<Write>, key: string)
    requires AllInDists(writes) && PoolName(key)
    ensures Avoids(writes, key)
  {
    forall i | 0 <= i < |writes| ensures Named(writes[i].key) != Some(key) { assert InDists(writes[i]); }
  }

  // ------------------------------------------------------------------------ the theorem

  lemma {:induction false} PlacedInspected(o: UploadOptions, inspected: seq<Option<Package>>, architecture: string)
    requires forall p <- inspected :: p.Some? ==> Inspected(p.value)
    ensures AllInspected(PlacedList(o, inspected, architecture))
  {
    if inspected != [] {
      PlacedInspected(o, inspected[..|inspected| - 1], architecture);
      assert inspected[|inspected| - 1] in inspected;
    }
  }

  lemma {:induction false} OrderInspected(o: UploadOptions, inspected: seq<Option<Package>>, architectures: seq<string>)
    requires forall p <- inspected :: p.Some? ==> Inspected(p.value)
    ensures AllInspected(InOrder(o, inspected, architectures))
  {
    if architectures != [] {
      OrderInspected(o, inspected, architectures[..|architectures| - 1]);
      PlacedInspected(o, inspected, architectures[|architectures| - 1]);
    }
  }

  /** A part of the puts, then of the metadata, if all puts were accepted. */
  lemma PlanPart(before: map<string, Doc>, pool: seq<Write>, rest: seq<Write>, k: nat, after: map<string, Doc>, key: string)
    requires Reached(before, pool + rest, k, after) && AllInDists(rest) && PoolName(key)
    ensures exists n: nat :: n <= |pool| && n <= k && (k >= |pool| ==> n == |pool|) &&
                             AllAccepted(before, pool[..n]) && At(after, key) == At(Run(before, pool[..n]), key)
  {
    var n := if k <= |pool| then k else |pool|;
    if k <= |pool| {
      assert (pool + rest)[..k] == pool[..k];
    } else {
      var tail := rest[..k - |pool|];
      assert (pool + rest)[..k] == pool + tail && pool[..n] == pool;
      RunConcat(before, pool, tail);
      assert AllInDists(tail);
      DistsAvoidPool(tail, key);
      AvoidedKept(Run(before, pool), tail, key);
    }
    assert AllAccepted(before, pool[..n]) && At(after, key) == At(Run(before, pool[..n]), key);
  }

  /** A key holds the bytes of some package's file, and that is the package's location. */
  ghost predicate SentTo(packages: seq<Package>, o: UploadOptions, disk: map<string, string>, key: string, now: Option<Doc>)
  {
    exists i :: 0 <= i < |packages| && LocatedAt(packages[i], o.codename, key) && packages[i].filename in disk &&
                now == Some(Bytes(disk[packages[i].filename]))
  }

  /** What some of the puts leave at a key. */
  lemma PartLeaves(before: map<string, Doc>, pool: seq<Write>, packages: seq<Package>, o: UploadOptions, disk: map<string, string>, n: nat, key: string)
    requires PutsAll(pool, packages, o, disk) && AllInspected(packages) && n <= |pool| && AllAccepted(before, pool[..n])
    ensures var now := At(Run(before, pool[..n]), key);
            Leaves(packages[..n], o, disk, key, At(before, key), now) &&
            (now == At(before, key) || SentTo(packages, o, disk, key, now))
  {
    var part := packages[..n];
    PutsLeave(before, pool[..n], part, o, disk, key);
    if !NoneAt(part, o.codename, key) {
      var i := LastOf(part, o.codename, key);
      assert packages[i] == part[i];
    }
  }

  lemma {:induction false} LastOf(packages: seq<Package>, codename: string, key: string) returns (i: nat)
    requires !NoneAt(packages, codename, key)
    ensures LastAt(packages, i, codename, key)
  {
    i := |packages| - 1;
    if !LocatedAt(packages[i], codename, key) {
      var front := packages[..i];
      assert !NoneAt(front, codename, key) by {
        var j :| 0 <= j < |packages| && LocatedAt(packages[j], codename, key);
        assert front[j] == packages[j];
      }
      i := LastOf(front, codename, key);
      assert LocatedAt(packages[i], codename, key);
    }
  }

  /** The key holds what it did, unless it is a location and may be written; then perhaps the bytes of a package's file. */
  ghost predicate Undisturbed(packages: seq<Package>, o: UploadOptions, disk: map<string, string>, key: string, was: Option<Doc>, now: Option<Doc>)
  {
    now == was || (SentTo(packages, o, disk, key, now) && !(o.failIfExists && was.Some?))
  }

  lemma UploadOffers(before: map<string, Doc>, o: UploadOptions, r: ReleaseState, inspected: seq<Option<Package>>, disk: map<string, string>,
                     ms: seq<ManifestState>)
    requires UploadManifests(before, o, r, inspected) == Some(ms) && GoodRelease(r) && r.codename == o.codename
    requires WellNamed(UploadOf(o, inspected, disk))
    ensures AllOffered(r, ms)
  {
    UploadFits(before, o, r, inspected, disk);
    forall i | 0 <= i < |ms| ensures Offered(r, ms[i]) { assert Fits(r, o.component, ms[i]); }
  }

  /** How far an upload came in its plan: the puts into the pool, then writes beneath "dists". */
  lemma UploadedPlan(before: map<string, Doc>, r: ReleaseState, ms: seq<ManifestState>, disk: map<string, string>, h: Hasher, signed: bool,
                     date: string, after: map<string, Doc>, ok: bool, reliable: bool) returns (rest: seq<Write>, k: nat)
    requires UploadedManifests(before, r, ms, disk, h, signed, date, after, ok, reliable)
    requires GoodHasher(h) && GoodRelease(r) && AllOffered(r, ms) && (ok || after != before)
    ensures AllInDists(rest) && Reached(before, PoolWrites(ms, disk).0 + rest, k, after)
    ensures ok ==> PoolWrites(ms, disk).1 && k >= |PoolWrites(ms, disk).0|
  {
    var (pool, whole) := PoolWrites(ms, disk);
    var (closed, ps) := Closure(r, ms, h).value;
    PlanInDists(r, ms, h, signed, date);
    rest := if whole then PublishPlan(closed, ps, h, signed, date) else [];
    var plan := UploadPlan(ms, disk, closed, ps, h, signed, date);
    assert plan.0 == pool + rest;
    k := HowFar(before, plan, after, ok, reliable);
  }

  lemma HowFar(before: map<string, Doc>, plan: (seq<Write>, bool), after: map<string, Doc>, ok: bool, reliable: bool) returns (k: nat)
    requires RanPart(before, plan, after, ok, reliable)
    ensures Reached(before, plan.0, k, after) && (ok ==> plan.1 && k == |plan.0|)
  {
    if ok {
      k := |plan.0|;
    } else {
      var issued := ok;
      if !plan.1 { issued :| Ran(before, plan.0, after, issued, reliable); }
      k :| Reached(before, plan.0, k, after);
    }
  }

  /**
   Whatever becomes of an upload, a pool key it changes is the location of a package it
   sends and holds the bytes of that package's file; with existing objects protected
   none that was there is changed. When it succeeds, each location holds the bytes of
   the last package sent there. With bodies skipped nothing is sent.
   */
  lemma BodiesStored(before: map<string, Doc>, o: UploadOptions, inspected: seq<Option<Package>>, disk: map<string, string>, h: Hasher,
                     signed: bool, date: string, after: map<string, Doc>, ok: bool, reliable: bool, r: ReleaseState, key: string)
    requires Uploaded(before, o, inspected, disk, h, signed, date, after, ok, reliable)
    requires ReleaseRead(before, o.codename, o.overrides) == Some(r) && GoodRelease(r) && r.codename == o.codename
    requires GoodHasher(h) && WellNamed(UploadOf(o, inspected, disk)) && PoolName(key)
    ensures Undisturbed(Sent(o, r, inspected), o, disk, key, At(before, key), At(after, key))
    ensures ok ==> forall i :: LastAt(Sent(o, r, inspected), i, o.codename, key) ==>
                                 && Sent(o, r, inspected)[i].filename in disk
                                 && At(after, key) == Some(Bytes(disk[Sent(o, r, inspected)[i].filename]))
  {
    if ok || after != before {
      var ms := UploadManifests(before, o, r, inspected).value;
      UploadOffers(before, o, r, inspected, disk, ms);
      var rest, k := UploadedPlan(before, r, ms, disk, h, signed, date, after, ok, reliable);
      PoolOfUpload(before, o, r, inspected, disk);
      OrderInspected(o, inspected, Once([], Needed(o, r, inspected)));
      PlanLeaves(before, PoolWrites(ms, disk).0, rest, k, after, Sent(o, r, inspected), o, disk, key);
    }
  }

  /** What a part of the plan leaves at a pool key. */
  lemma PlanLeaves(before: map<string, Doc>, pool: seq<Write>, rest: seq<Write>, k: nat, after: map<string, Doc>, sent: seq<Package>,
                   o: UploadOptions, disk: map<string, string>, key: string)
    requires AllInDists(rest) && Reached(before, pool + rest, k, after) && PoolName(key)
    requires PutsAll(pool, sent, o, disk) && AllInspected(sent)
    ensures Undisturbed(sent, o, disk, key, At(before, key), At(after, key))
    ensures k >= |pool| && |pool| == |sent| ==> Leaves(sent, o, disk, key, At(before, key), At(after, key))
  {
    PlanPart(before, pool, rest, k, after, key);
    var n: nat :| n <= |pool| && n <= k && (k >= |pool| ==> n == |pool|) &&
                  AllAccepted(before, pool[..n]) && At(after, key) == At(Run(before, pool[..n]), key);
    PartLeaves(before, pool, sent, o, disk, n, key);
    if n == |sent| { assert sent[..n] == sent; }
  }

  // -------------------------------------------------------------------- the locations

  /** The segments of an inspected package's location: the codename, a directory named by its first letter, one by its first two. */
  function LocationSegments(p: Package, codename: string): seq<string>
    requires p.name != ""
  {
    ["pool", codename, [p.name[0]], if |p.name| == 1 then p.name else [p.name[0], p.name[1]], Base(p.filename)]
  }

  lemma {:induction false} NonEmptyFrom(elements: seq<string>, i: nat)
    requires i < |NonEmpty(elements)|
    ensures NonEmpty(elements)[i] in elements
  {
    if elements[0] != "" {
      if i > 0 { NonEmptyFrom(elements[1..], i - 1); }
    } else {
      NonEmptyFrom(elements[1..], i);
    }
  }

  /** A last element holds no slash, unless the path is nothing but slashes. */
  lemma BaseSlash(path: string)
    ensures Base(path) == "/" || '/' !in Base(path)
  {
    if path != "" {
      var kept := NonEmpty(Split(path, '/'));
      SplitFree(path, '/');
      if kept != [] { NonEmptyFrom(Split(path, '/'), |kept| - 1); }
    }
  }

  lemma EmptyPart(part: string, i: nat)
    requires |part| <= 2 && i < |part| && part[i] == '/' && (i == 1 ==> part[0] != '/')
    ensures !Segments(Split(part, '/'))
  {
    if i == 0 {
      assert part == "" + ['/'] + part[1..];
      SplitAtSeparator("", part[1..], '/');
    } else {
      assert part == [part[0]] + ['/'] + "";
      SplitAtSeparator([part[0]], "", '/');
    }
    assert Split(part, '/')[i] == "";
  }

  /** A part of a path, all of whose segments are clean, is one of them if it is too short to hold two. */
  lemma ShortPart(part: string)
    requires |part| <= 2 && Segments(Split(part, '/'))
    ensures Segment(part)
  {
    if |part| >= 1 && part[0] == '/' {
      EmptyPart(part, 0);
    } else if |part| == 2 && part[1] == '/' {
      EmptyPart(part, 1);
    } else {
      forall i | 0 <= i < |part| ensures part[i] != '/' { assert i == 0 || i == 1; }
      OnePart(part);
    }
  }

  lemma OnePart(part: string)
    requires forall i :: 0 <= i < |part| ==> part[i] != '/'
    requires Segments(Split(part, '/'))
    ensures Segment(part)
  {
    SplitWhole(part, '/');
    assert Segment(Split(part, '/')[0]);
  }

  lemma BasePart(path: string)
    requires Segments(Split(Base(path), '/'))
    ensures Segment(Base(path))
  {
    BaseSlash(path);
    if Base(path) == "/" { ShortPart("/"); } else { SplitWhole(Base(path), '/'); assert Split(Base(path), '/')[0] == Base(path); }
  }

  lemma SplitFive(a: string, b: string, c: string, d: string, e: string)
    ensures Split(a + "/" + b + "/" + c + "/" + d + "/" + e, '/') ==
            Split(a, '/') + Split(b, '/') + Split(c, '/') + Split(d, '/') + Split(e, '/')
  {
    assert "/" == ['/'];
    SplitConcat(a, b, '/');
    SplitConcat(a + "/" + b, c, '/');
    SplitConcat(a + "/" + b + "/" + c, d, '/');
    SplitConcat(a + "/" + b + "/" + c + "/" + d, e, '/');
  }

  lemma JoinFive(a: string, b: string, c: string, d: string, e: string)
    ensures Join([a, b, c, d, e], "/") == a + "/" + b + "/" + c + "/" + d + "/" + e
  {
    JoinOneMore([a], b);
    JoinOneMore([a, b], c);
    JoinOneMore([a, b, c], d);
    JoinOneMore([a, b, c, d], e);
    assert [a] + [b] == [a, b] && [a, b] + [c] == [a, b, c];
    assert [a, b, c] + [d] == [a, b, c, d] && [a, b, c, d] + [e] == [a, b, c, d, e];
  }

  lemma JoinOneMore(parts: seq<string>, last: string)
    requires parts != []
    ensures Join(parts + [last], "/") == Join(parts, "/") + "/" + last
  {
    JoinConcat(parts, [last], "/");
  }

  lemma PlainDerived(p: Package, codename: string, derived: string)
    requires Inspected(p) && p.name != "" && p.filename != "" && derived == Join(LocationSegments(p, codename), "/")
    ensures RepositoryFilename(p, codename) == if derived == Clean(derived) then Ok(derived) else Err(NoPoolPath)
  {
    var segs := LocationSegments(p, codename);
    JoinFive(segs[0], segs[1], segs[2], segs[3], segs[4]);
    assert segs == [segs[0], segs[1], segs[2], segs[3], segs[4]];
    assert "pool" + "/" == "pool/";
    assert p.name[..1] == [p.name[0]];
    if |p.name| == 2 { assert p.name == [p.name[0], p.name[1]]; }
    if |p.name| > 2 { assert p.name[..2] == [p.name[0], p.name[1]]; }
  }

  /** A derived key that is its own normal form consists of its five segments. */
  lemma DerivedSegments(p: Package, codename: string)
    requires p.name != "" && Name(codename) && Clean(Join(LocationSegments(p, codename), "/")) == Join(LocationSegments(p, codename), "/")
    ensures Segments(LocationSegments(p, codename))
  {
    var segs := LocationSegments(p, codename);
    var derived := Join(segs, "/");
    JoinFive(segs[0], segs[1], segs[2], segs[3], segs[4]);
    assert segs == [segs[0], segs[1], segs[2], segs[3], segs[4]];
    assert derived[0] == 'p' && !Escaping(derived) by { assert derived[..4] == "pool"; }
    CleanedShape(derived);
    PlainSegments(derived);
    FiveParts(segs[0], segs[1], segs[2], segs[3], segs[4]);
    ShortPart(segs[2]);
    ShortPart(segs[3]);
    BasePart(p.filename);
  }

  lemma FiveParts(a: string, b: string, c: string, d: string, e: string)
    requires Segments(Split(a + "/" + b + "/" + c + "/" + d + "/" + e, '/'))
    ensures Segments(Split(c, '/')) && Segments(Split(d, '/')) && Segments(Split(e, '/'))
  {
    SplitFive(a, b, c, d, e);
    var front := Split(a, '/') + Split(b, '/');
    var whole := front + Split(c, '/') + Split(d, '/') + Split(e, '/');
    assert whole == front + Split(c, '/') + (Split(d, '/') + Split(e, '/'));
    SplitPart(whole, front, Split(c, '/'), Split(d, '/') + Split(e, '/'));
    SplitPart(whole, front + Split(c, '/'), Split(d, '/'), Split(e, '/'));
    SplitPart(whole, front + Split(c, '/') + Split(d, '/'), Split(e, '/'), []);
  }

  lemma SplitPart(whole: seq<string>, front: seq<string>, part: seq<string>, back: seq<string>)
    requires Segments(whole) && whole == front + part + back
    ensures Segments(part)
  {
    forall i | 0 <= i < |part| ensures Segment(part[i]) { assert whole[|front| + i] == part[i]; }
  }

  /**
   An inspected package has a location exactly when it has a name, a file, and names of
   one segment each to make it from; and then the location is these segments.
   */
  lemma PoolLocation(p: Package, codename: string)
    requires Inspected(p) && Name(codename)
    ensures RepositoryFilename(p, codename).Ok? <==> p.name != "" && p.filename != "" && Segments(LocationSegments(p, codename))
    ensures RepositoryFilename(p, codename).Ok? ==>
              && RepositoryFilename(p, codename).value == Join(LocationSegments(p, codename), "/")
              && Split(RepositoryFilename(p, codename).value, '/') == LocationSegments(p, codename)
  {
    if p.name != "" && p.filename != "" {
      var segs := LocationSegments(p, codename);
      PlainDerived(p, codename, Join(segs, "/"));
      if Segments(segs) { CleanOfSegments(segs); }
      if RepositoryFilename(p, codename).Ok? {
        DerivedSegments(p, codename);
        CleanOfSegments(segs);
      }
    }
  }
}
