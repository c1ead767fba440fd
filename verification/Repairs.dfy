/** What a verification counts, and the indices after one that repairs. */
module Repairs {
  import opened Text
  import opened Packages
  import opened Documents
  import opened IndexText
  import opened ManifestCodec
  import opened Stores
  import opened Manifests
  import opened Publication
  import opened Retrieval
  import opened FanOutProperties
  import opened Managing
  import opened Maintaining
  import opened Layout
  import opened Agreement
  import opened Currency
  import opened NoDangling
  import opened CommandRuns
  import opened CommandPlans
  import opened ByHashPlans
  import opened Survival
  import opened IndexContents

  // ---------------------------------------------------------------------- what is counted

  /** The index of an architecture. */
  function SlotIn(o: VerifyOptions, r: ReleaseState, architecture: string): Slot
  {
    Slot(o.codename, o.component, architecture, r.byHash)
  }

  /** The entries of an architecture's index. */
  function EntriesIn(before: map<string, Doc>, o: VerifyOptions, r: ReleaseState, architecture: string): seq<Package>
  {
    var entries := EntriesAt(before, SlotIn(o, r, architecture));
    if entries.Some? then entries.value else []
  }

  /** The entries of all these architectures that meet a condition. */
  function Total(before: map<string, Doc>, o: VerifyOptions, r: ReleaseState, architectures: seq<string>, counted: Package -> bool): nat
  {
    if architectures == [] then 0
    else
      Total(before, o, r, architectures[..|architectures| - 1], counted) +
      |Filter(EntriesIn(before, o, r, architectures[|architectures| - 1]), counted)|
  }

  function Whichever(): Package -> bool
  {
    (p: Package) => true
  }

  /** What a verification should find of these architectures. */
  ghost predicate Tallied(before: map<string, Doc>, o: VerifyOptions, r: ReleaseState, architectures: seq<string>, counts: Counts)
  {
    && counts.checked == Total(before, o, r, architectures, Whichever())
    && counts.missing == Total(before, o, r, architectures, Orphaned(before, o.codename))
    && counts.repaired == if o.fixManifests then counts.missing else 0
  }

  /** The manifest a repair makes for an architecture: without the entries whose object is missing. */
  ghost predicate Mended(before: map<string, Doc>, o: VerifyOptions, r: ReleaseState, m: ManifestState)
  {
    && SameIndex(SlotOf(m), SlotIn(o, r, m.architecture))
    && m.packages == Filter(EntriesIn(before, o, r, m.architecture), Backed(before, o.codename))
  }

  /** The number of an architecture's entries whose object is missing. */
  function Orphans(before: map<string, Doc>, o: VerifyOptions, r: ReleaseState, a: string): nat
  {
    |Filter(EntriesIn(before, o, r, a), Orphaned(before, o.codename))|
  }

  /** An architecture whose index has entries without their object, if manifests are to be fixed. */
  function Damaged(before: map<string, Doc>, o: VerifyOptions, r: ReleaseState): string -> bool
  {
    a => o.fixManifests && Orphans(before, o, r, a) > 0
  }

  /** The changed manifests are those of the damaged architectures, mended. */
  ghost predicate MendedAll(before: map<string, Doc>, o: VerifyOptions, r: ReleaseState, architectures: seq<string>, changed: seq<ManifestState>)
  {
    && Architectures(changed) == Filter(architectures, Damaged(before, o, r))
    && forall i :: 0 <= i < |changed| ==> Mended(before, o, r, changed[i])
  }

  /** What a verification reads of an architecture. */
  lemma ReadIn(before: map<string, Doc>, o: VerifyOptions, r: ReleaseState, architecture: string)
    requires GoodSlot(SlotIn(o, r, architecture))
    requires ManifestRead(before, SlotIn(o, r, architecture), false, true).Some?
    ensures EntriesAt(before, SlotIn(o, r, architecture)).Some?
    ensures ManifestRead(before, SlotIn(o, r, architecture), false, true) ==
            Some(EmptyManifest(SlotIn(o, r, architecture)).(skipPackageUpload := true, packages := EntriesIn(before, o, r, architecture)))
  {
    IndexKeys(SlotIn(o, r, architecture));
  }

  lemma ArchitecturesMore(ms: seq<ManifestState>, m: ManifestState)
    ensures Architectures(ms + [m]) == Architectures(ms) + [m.architecture]
  {
    assert (ms + [m])[..|ms|] == ms;
  }

  lemma MendedOne(before: map<string, Doc>, o: VerifyOptions, r: ReleaseState, changed: seq<ManifestState>, m: ManifestState)
    requires Mended(before, o, r, m) && forall i :: 0 <= i < |changed| ==> Mended(before, o, r, changed[i])
    ensures forall i :: 0 <= i < |changed + [m]| ==> Mended(before, o, r, (changed + [m])[i])
  {
  }

  lemma FilteredMore(front: seq<string>, last: string, damaged: string -> bool, done: seq<ManifestState>, m: ManifestState)
    requires Architectures(done) == Filter(front, damaged) && m.architecture == last
    ensures damaged(last) ==> Architectures(done + [m]) == Filter(front + [last], damaged)
    ensures !damaged(last) ==> Architectures(done) == Filter(front + [last], damaged)
  {
    FilterSnoc(front, last, damaged);
    ArchitecturesMore(done, m);
  }

  lemma MendedMore(before: map<string, Doc>, o: VerifyOptions, r: ReleaseState, front: seq<string>, last: string, changed: seq<ManifestState>,
                   m: ManifestState)
    requires MendedAll(before, o, r, front, changed) && Mended(before, o, r, m) && m.architecture == last
    ensures MendedAll(before, o, r, front + [last], if Damaged(before, o, r)(last) then changed + [m] else changed)
  {
    FilteredMore(front, last, Damaged(before, o, r), changed, m);
    MendedOne(before, o, r, changed, m);
  }

  function Start(): Verification
  {
    Verification([], Counts(0, 0, 0))
  }

  /** The mended manifest of an architecture. */
  function Mending(before: map<string, Doc>, o: VerifyOptions, r: ReleaseState, a: string): ManifestState
  {
    EmptyManifest(SlotIn(o, r, a)).(skipPackageUpload := true, packages := Filter(EntriesIn(before, o, r, a), Backed(before, o.codename)))
  }

  lemma VerifierStep(before: map<string, Doc>, o: VerifyOptions, r: ReleaseState, v: Verification, last: string)
    requires GoodSlot(SlotIn(o, r, last)) && Verifier(before, o, r.byHash)(v, last).Some?
    ensures EntriesAt(before, SlotIn(o, r, last)).Some?
    ensures var c := CheckAll(before, o, EntriesIn(before, o, r, last));
            c.Some? &&
            var m := EmptyManifest(SlotIn(o, r, last)).(skipPackageUpload := true, packages := EntriesIn(before, o, r, last));
            Verifier(before, o, r.byHash)(v, last).value == VerifiedManifest(v, o, m, c.value)
  {
    ReadIn(before, o, r, last);
  }

  /** What one check adds to a verification. */
  ghost predicate Adds(v: Verification, next: Verification, damaged: bool, m: ManifestState, entries: nat, orphans: nat, fixed: bool)
  {
    && next.changed == (if damaged then v.changed + [m] else v.changed)
    && next.counts.checked == v.counts.checked + entries && next.counts.missing == v.counts.missing + orphans
    && next.counts.repaired == v.counts.repaired + if fixed then orphans else 0
  }

  lemma VerifiedStep(before: map<string, Doc>, o: VerifyOptions, r: ReleaseState, v: Verification, last: string, c: Check, read: ManifestState)
    requires CheckAll(before, o, EntriesIn(before, o, r, last)) == Some(c)
    requires read == EmptyManifest(SlotIn(o, r, last)).(skipPackageUpload := true, packages := EntriesIn(before, o, r, last))
    ensures Adds(v, VerifiedManifest(v, o, read, c), Damaged(before, o, r)(last), Mending(before, o, r, last),
                 |EntriesIn(before, o, r, last)|, Orphans(before, o, r, last), o.fixManifests)
  {
    CheckExact(before, o, EntriesIn(before, o, r, last));
    if o.fixManifests { assert read.(packages := c.retained) == Mending(before, o, r, last); }
  }

  lemma TotalMore(before: map<string, Doc>, o: VerifyOptions, r: ReleaseState, front: seq<string>, last: string, counted: Package -> bool)
    ensures Total(before, o, r, front + [last], counted) == Total(before, o, r, front, counted) + |Filter(EntriesIn(before, o, r, last), counted)|
  {
    assert (front + [last])[..|front|] == front;
  }

  lemma VerifyStep(before: map<string, Doc>, o: VerifyOptions, r: ReleaseState, front: seq<string>, last: string, v: Verification)
    requires GoodSlot(SlotIn(o, r, last)) && MendedAll(before, o, r, front, v.changed) && Tallied(before, o, r, front, v.counts)
    requires Verifier(before, o, r.byHash)(v, last).Some?
    ensures EntriesAt(before, SlotIn(o, r, last)).Some?
    ensures var next := Verifier(before, o, r.byHash)(v, last).value;
            MendedAll(before, o, r, front + [last], next.changed) && Tallied(before, o, r, front + [last], next.counts)
  {
    VerifierStep(before, o, r, v, last);
    var read := EmptyManifest(SlotIn(o, r, last)).(skipPackageUpload := true, packages := EntriesIn(before, o, r, last));
    VerifiedStep(before, o, r, v, last, CheckAll(before, o, EntriesIn(before, o, r, last)).value, read);
    MendedMore(before, o, r, front, last, v.changed, Mending(before, o, r, last));
    TalliedMore(before, o, r, front, last, v, Verifier(before, o, r.byHash)(v, last).value);
  }

  lemma TalliedMore(before: map<string, Doc>, o: VerifyOptions, r: ReleaseState, front: seq<string>, last: string, v: Verification, next: Verification)
    requires Tallied(before, o, r, front, v.counts)
    requires Adds(v, next, Damaged(before, o, r)(last), Mending(before, o, r, last), |EntriesIn(before, o, r, last)|,
                  Orphans(before, o, r, last), o.fixManifests)
    ensures Tallied(before, o, r, front + [last], next.counts)
  {
    FilterAll(EntriesIn(before, o, r, last), Whichever());
    TotalMore(before, o, r, front, last, Whichever());
    TotalMore(before, o, r, front, last, Orphaned(before, o.codename));
  }

  /** What a verification finds and changes. */
  lemma {:induction false} VerifyExact(before: map<string, Doc>, o: VerifyOptions, r: ReleaseState, architectures: seq<string>)
    requires Name(o.codename) && ComponentName(o.component) && ArchitectureNames(architectures)
    requires Steps(Start(), architectures, Verifier(before, o, r.byHash)).Some?
    ensures forall a <- architectures :: EntriesAt(before, SlotIn(o, r, a)).Some?
    ensures var v := Steps(Start(), architectures, Verifier(before, o, r.byHash)).value;
            MendedAll(before, o, r, architectures, v.changed) && Tallied(before, o, r, architectures, v.counts)
  {
    if architectures != [] {
      var front, last := architectures[..|architectures| - 1], architectures[|architectures| - 1];
      assert architectures == front + [last] && last in architectures;
      assert ArchitectureNames(front) by { assert forall a :: a in front ==> a in architectures; }
      VerifyExact(before, o, r, front);
      VerifyStep(before, o, r, front, last, Steps(Start(), front, Verifier(before, o, r.byHash)).value);
    }
  }

  // ------------------------------------------------------------------ what is left

  lemma {:induction false} CreatedAt(objects: map<string, Doc>, ps: seq<Prepared>, h: Hasher, s: Slot)
    requires GoodHasher(h) && GoodSlots(ps) && GoodSlot(s)
    ensures At(Run(objects, AllCreated(ps, h)), IndexPath(s)) ==
            if Written(ps, s).Some? then Written(ps, s) else At(objects, IndexPath(s))
  {
    if ps != [] {
      var front, last := ps[..|ps| - 1], ps[|ps| - 1];
      CreatedAt(objects, front, h, s);
      RunConcat(objects, AllCreated(front, h), ByHashWrites(last, h) + CanonicalWrites(last));
      OneCreatedAt(Run(objects, AllCreated(front, h)), last, h, s);
    }
  }

  lemma OneCreatedAt(objects: map<string, Doc>, p: Prepared, h: Hasher, s: Slot)
    requires GoodHasher(h) && GoodSlot(p.slot) && GoodSlot(s)
    ensures At(Run(objects, ByHashWrites(p, h) + CanonicalWrites(p)), IndexPath(s)) ==
            if SameIndex(p.slot, s) then Some(p.index) else At(objects, IndexPath(s))
  {
    RunConcat(objects, ByHashWrites(p, h), CanonicalWrites(p));
    ByHashAvoids(p, h, s);
    AvoidedKept(objects, ByHashWrites(p, h), IndexPath(s));
    CanonicalRun(Run(objects, ByHashWrites(p, h)), p);
    IndexPathsDiffer(p.slot, s);
  }

  /** Publishing a Release alone creates the indices it lists without a file, and leaves all others. */
  lemma ReleasePlanAt(objects: map<string, Doc>, r: ReleaseState, h: Hasher, signed: bool, date: string, s: Slot)
    requires GoodHasher(h) && GoodRelease(r) && GoodSlot(s)
    ensures At(Run(objects, ReleasePlan(r, h, signed, date)), IndexPath(s)) ==
            if Unlisted(r, [], s) then Some(Bytes("")) else At(objects, IndexPath(s))
  {
    var created := Empties(Missing(r));
    CreatedShape(r, h);
    CreatedAre(r, [], h, s);
    SlotsOfRelease(r, created);
    CreatedAt(objects, created, h, s);
    RunConcat(objects, AllCreated(created, h), FinalWrites(Listing(r, created, h), signed, date));
    FinalAvoids(Listing(r, created, h), signed, date, s);
    AvoidedKept(Run(objects, AllCreated(created, h)), FinalWrites(Listing(r, created, h), signed, date), IndexPath(s));
  }

  /** An index that a verification looks into. */
  predicate Checked(o: VerifyOptions, r: ReleaseState, s: Slot)
  {
    s.codename == o.codename && s.component == o.component && s.architecture in r.architectures
  }

  /** The locations a verification should leave in an index: those it held, or of these the stored ones if it repairs. */
  function Due(before: map<string, Doc>, o: VerifyOptions, r: ReleaseState, s: Slot, entries: seq<Package>): seq<Option<string>>
  {
    Locations(if o.fixManifests && Checked(o, r, s) then Filter(entries, Backed(before, o.codename)) else entries)
  }

  /** An index was left with the locations it should have. */
  ghost predicate LeftRight(before: map<string, Doc>, after: map<string, Doc>, o: VerifyOptions, r: ReleaseState, s: Slot)
  {
    EntriesAt(before, s).Some? && EntriesAt(after, s).Some? &&
    Locations(EntriesAt(after, s).value) == Due(before, o, r, s, EntriesAt(before, s).value)
  }

  /** Whether a verification publishes anything: repaired manifests, or a signed Release. */
  predicate Publishing(changed: seq<ManifestState>, signed: bool)
  {
    changed != [] || signed
  }

  lemma FilterLocated(keys: set<string>, packages: seq<Package>, keep: Package -> bool)
    requires AllLocated(keys, packages)
    ensures AllLocated(keys, Filter(packages, keep))
  {
    forall p | p in Filter(packages, keep) ensures LocatedIn(keys, p) { FilterMembers(packages, keep, p); }
  }

  lemma MendedOffered(before: map<string, Doc>, o: VerifyOptions, r: ReleaseState)
    requires VerifyAll(before, o, r).Some? && GoodRelease(r) && r.codename == o.codename && ComponentName(o.component)
    ensures AllOffered(r, VerifyAll(before, o, r).value.changed)
    ensures MendedAll(before, o, r, r.architectures, VerifyAll(before, o, r).value.changed)
    ensures Tallied(before, o, r, r.architectures, VerifyAll(before, o, r).value.counts)
  {
    assert ArchitectureNames(r.architectures);
    VerifyExact(before, o, r, r.architectures);
    VerifyFits(before, o, r, r.architectures);
    var changed := VerifyAll(before, o, r).value.changed;
    forall i | 0 <= i < |changed| ensures Offered(r, changed[i]) { assert Fits(r, o.component, changed[i]); }
  }

  /** The changed manifests of an index: there are some exactly when it is damaged, and they hold what is due. */
  lemma ChangedOf(before: map<string, Doc>, o: VerifyOptions, r: ReleaseState, changed: seq<ManifestState>, s: Slot)
    requires MendedAll(before, o, r, r.architectures, changed)
    ensures Publishes(changed, s) <==> Checked(o, r, s) && Damaged(before, o, r)(s.architecture)
    ensures forall i :: 0 <= i < |changed| && SameIndex(SlotOf(changed[i]), s) ==>
                          changed[i].packages == Filter(EntriesIn(before, o, r, s.architecture), Backed(before, o.codename))
  {
    FilterMembers(r.architectures, Damaged(before, o, r), s.architecture);
    forall i | 0 <= i < |changed| && SameIndex(SlotOf(changed[i]), s)
      ensures Checked(o, r, s) && Damaged(before, o, r)(s.architecture)
      ensures changed[i].packages == Filter(EntriesIn(before, o, r, s.architecture), Backed(before, o.codename)) {
      assert Mended(before, o, r, changed[i]) && Architectures(changed)[i] == s.architecture;
    }
    if Checked(o, r, s) && Damaged(before, o, r)(s.architecture) {
      var i :| 0 <= i < |changed| && Architectures(changed)[i] == s.architecture;
      assert Mended(before, o, r, changed[i]) && SameIndex(SlotOf(changed[i]), s);
    }
  }

  /** All indices parse, and their entries last and name pool objects among these, stored or not. */
  ghost predicate Entered(before: map<string, Doc>, keys: set<string>)
  {
    forall s :: GoodSlot(s) ==> EntriesAt(before, s).Some? && AllLocated(keys, EntriesAt(before, s).value)
  }

  lemma {:induction false} NothingDropped<T>(items: seq<T>, keep: T -> bool, drop: T -> bool)
    requires (forall p <- items :: drop(p) <==> !keep(p)) && Filter(items, drop) == []
    ensures Filter(items, keep) == items
  {
    if items != [] {
      assert items[0] in items;
      NothingDropped(items[1..], keep, drop);
    }
  }

  /** An index without missing entries should stay as it is. */
  lemma UndamagedDue(before: map<string, Doc>, o: VerifyOptions, r: ReleaseState, s: Slot)
    requires EntriesAt(before, s).Some? && !(Checked(o, r, s) && Damaged(before, o, r)(s.architecture))
    ensures Due(before, o, r, s, EntriesAt(before, s).value) == Locations(EntriesAt(before, s).value)
  {
    if o.fixManifests && Checked(o, r, s) {
      assert EntriesIn(before, o, r, s.architecture) == EntriesAt(before, s).value;
      NothingDropped(EntriesAt(before, s).value, Backed(before, o.codename), Orphaned(before, o.codename));
    }
  }

  /** A damaged index is left with the locations of its stored objects. */
  lemma DamagedRight(before: map<string, Doc>, o: VerifyOptions, r: ReleaseState, changed: seq<ManifestState>, h: Hasher, signed: bool, date: string,
                     after: map<string, Doc>, keys: set<string>, s: Slot)
    requires GoodHasher(h) && GoodRelease(r) && r.codename == o.codename && AllOffered(r, changed) && Closure(r, changed, h).Ok?
    requires MendedAll(before, o, r, r.architectures, changed) && Entered(before, keys) && GoodSlot(s) && Publishes(changed, s)
    requires var (closed, ps) := Closure(r, changed, h).value; after == Run(before, PublishPlan(closed, ps, h, signed, date))
    ensures LeftRight(before, after, o, r, s)
  {
    ChangedOf(before, o, r, changed, s);
    var kept := Filter(EntriesIn(before, o, r, s.architecture), Backed(before, o.codename));
    assert EntriesIn(before, o, r, s.architecture) == EntriesAt(before, s).value;
    FilterLocated(keys, EntriesAt(before, s).value, Backed(before, o.codename));
    LocatedPlaces(keys, kept, s.codename);
    LocationsAgain(kept, s.codename);
    PublishedEntries(before, r, changed, h, signed, date, s, kept);
  }

  /** An index that is not damaged is left as it should be, unless it is emptied. */
  lemma UndamagedRight(before: map<string, Doc>, after: map<string, Doc>, o: VerifyOptions, r: ReleaseState, s: Slot, emptied: bool)
    requires EntriesAt(before, s).Some? && !(Checked(o, r, s) && Damaged(before, o, r)(s.architecture))
    requires At(after, IndexPath(s)) == if emptied then Some(Bytes("")) else At(before, IndexPath(s))
    ensures LeftRight(before, after, o, r, s) <==> (emptied ==> EntriesAt(before, s) == Some([]))
  {
    UndamagedDue(before, o, r, s);
    EmptyIndex("");
  }

  /** What a verification that succeeded did to the store. */
  lemma VerifiedRun(before: map<string, Doc>, r: ReleaseState, changed: seq<ManifestState>, h: Hasher, signed: bool, date: string,
                    after: map<string, Doc>, reliable: bool)
    requires VerifiedWrites(before, r, changed, h, signed, date, after, true, reliable)
    ensures changed != [] ==>
              Closure(r, changed, h).Ok? &&
              var (closed, ps) := Closure(r, changed, h).value; after == Run(before, PublishPlan(closed, ps, h, signed, date))
    ensures changed == [] ==> after == if signed then Run(before, ReleasePlan(r, h, signed, date)) else before
  {
    if changed != [] {
      FinishedPlan(before, r, changed, h, signed, date, after, reliable);
    } else if signed {
      var plan := ReleasePlan(r, h, signed, date);
      assert plan[..|plan|] == plan;
    }
  }

  lemma IndexRight(before: map<string, Doc>, o: VerifyOptions, r: ReleaseState, changed: seq<ManifestState>, h: Hasher, signed: bool, date: string,
                   after: map<string, Doc>, reliable: bool, keys: set<string>, s: Slot)
    requires GoodHasher(h) && GoodRelease(r) && r.codename == o.codename && AllOffered(r, changed)
    requires MendedAll(before, o, r, r.architectures, changed) && Entered(before, keys) && GoodSlot(s)
    requires VerifiedWrites(before, r, changed, h, signed, date, after, true, reliable)
    ensures LeftRight(before, after, o, r, s) <==>
            (Publishing(changed, signed) && Unlisted(r, changed, s) ==> EntriesAt(before, s) == Some([]))
  {
    VerifiedRun(before, r, changed, h, signed, date, after, reliable);
    ChangedOf(before, o, r, changed, s);
    if Publishes(changed, s) {
      DamagedRight(before, o, r, changed, h, signed, date, after, keys, s);
    } else {
      if changed != [] {
        PublicationIndices(before, r, changed, h, signed, date, s);
      } else if signed {
        ReleasePlanAt(before, r, h, signed, date, s);
      }
      UndamagedRight(before, after, o, r, s, Publishing(changed, signed) && Unlisted(r, changed, s));
    }
  }

  /**
   A verification that succeeds counts the entries of all listed architectures and those
   among them whose object is missing. If it repairs, exactly the others remain in the
   indices, in order, and no other index changes, if and only if it publishes nothing
   or no index that it creates for a listed pair without a file holds entries.
   */
  lemma VerificationRepairs(before: map<string, Doc>, o: VerifyOptions, h: Hasher, signed: bool, date: string, after: map<string, Doc>,
                            counts: Counts, reliable: bool, r: ReleaseState, keys: set<string>)
    requires Verified(before, o, h, signed, date, after, true, counts, reliable) && ReleaseRead(before, o.codename, o.overrides) == Some(r)
    requires GoodHasher(h) && GoodRelease(r) && r.codename == o.codename && ComponentName(o.component) && Entered(before, keys)
    ensures Tallied(before, o, r, r.architectures, counts) && VerifyAll(before, o, r).Some?
    ensures var changed := VerifyAll(before, o, r).value.changed;
            && (forall s :: GoodSlot(s) ==> (Publishes(changed, s) <==> Checked(o, r, s) && Damaged(before, o, r)(s.architecture)))
            && ((forall s :: GoodSlot(s) ==> LeftRight(before, after, o, r, s)) <==>
                (Publishing(changed, signed) ==> NothingToLose(before, r, changed)))
  {
    MendedOffered(before, o, r);
    var changed := VerifyAll(before, o, r).value.changed;
    forall s | GoodSlot(s)
      ensures Publishes(changed, s) <==> Checked(o, r, s) && Damaged(before, o, r)(s.architecture)
      ensures LeftRight(before, after, o, r, s) <==>
              (Publishing(changed, signed) && Unlisted(r, changed, s) ==> EntriesAt(before, s) == Some([])) {
      ChangedOf(before, o, r, changed, s);
      IndexRight(before, o, r, changed, h, signed, date, after, reliable, keys, s);
    }
  }
}
