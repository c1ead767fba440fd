/**
 Which entries a deletion keeps: all it did not select, exactly when no index that it
 creates for a listed pair held entries; and how an interrupted command brings that about.
 */
module Deletions {
  import opened Text
  import opened Packages
  import opened PackageCodec
  import opened EntryCodec
  import opened Documents
  import opened IndexText
  import opened ManifestCodec
  import opened Stores
  import opened Manifests
  import opened Publication
  import opened Retrieval
  import opened Managing
  import opened Layout
  import opened Agreement
  import opened Currency
  import opened NoDangling
  import opened CommandRuns
  import ByHashSafety
  import opened ByHashPlans
  import opened Survival
  import opened IndexContents

  lemma BuiltLocations(keys: set<string>, m: ManifestState)
    requires AllLocated(keys, m.packages) && BuildIndex(m).Ok?
    ensures Entries(BuildIndex(m).value).Some?
    ensures Locations(Entries(BuildIndex(m).value).value) == Locations(m.packages)
  {
    LocatedPlaces(keys, m.packages, m.codename);
    BuiltEntries(m, BuildIndex(m).value);
    LocationsAgain(m.packages, m.codename);
  }

  // ----------------------------------------------------------------- what is deleted from

  /** Whether a deletion looks into an index. */
  predicate Targeted(o: DeleteOptions, r: ReleaseState, s: Slot)
  {
    && s.codename == o.codename && s.component == o.component
    && (if o.architecture == "all" then s.architecture in r.architectures else s.architecture == o.architecture)
  }

  /** The entries a deletion should leave of an index that holds some. */
  function Kept(o: DeleteOptions, r: ReleaseState, s: Slot, packages: seq<Package>): seq<Package>
  {
    if Targeted(o, r, s) then Filter(packages, NotMeant(o.name, o.versions)) else packages
  }

  lemma {:induction false} NothingDropped<T>(items: seq<T>, keep: T -> bool, drop: T -> bool)
    requires (forall p <- items :: drop(p) <==> !keep(p)) && Filter(items, drop) == []
    ensures Filter(items, keep) == items
  {
    if items != [] {
      assert items[0] in items;
      NothingDropped(items[1..], keep, drop);
    }
  }

  lemma NothingDeletedKept(packages: seq<Package>, name: string, versions: Option<seq<string>>)
    requires Manifests.Deleted(packages, name, versions) == []
    ensures Filter(packages, NotMeant(name, versions)) == packages
  {
    DeletionExact(packages, name, versions);
    NothingDropped(packages, (p: Package) => !Selected(name, versions, p), (p: Package) => Selected(name, versions, p));
  }

  /** The manifest a command reads for a slot has the slot's entries. */
  ghost predicate ReadsAt(objects: map<string, Doc>, s: Slot)
  {
    && EntriesAt(objects, s).Some?
    && ManifestRead(objects, s, false, true) == Some(EmptyManifest(s).(skipPackageUpload := true, packages := EntriesAt(objects, s).value))
  }

  lemma StoredHeld(objects: map<string, Doc>, s: Slot)
    requires Whole(objects) && GoodSlot(s)
    ensures ReadsAt(objects, s) && AllLocated(PoolKeys(objects), EntriesAt(objects, s).value)
  {
    ReadHolds(objects, s, false, true);
    WholeEntries(objects, s);
  }

  /** What is made of the items that are picked, in order. */
  function Picked<A, B>(items: seq<A>, pick: A -> bool, make: A -> B): seq<B>
  {
    if items == [] then []
    else
      var last := items[|items| - 1];
      Picked(items[..|items| - 1], pick, make) + (if pick(last) then [make(last)] else [])
  }

  lemma {:induction false} StepsPicked<A, B>(items: seq<A>, step: (seq<B>, A) -> Option<seq<B>>, pick: A -> bool, make: A -> B)
    requires forall done, i :: 0 <= i < |items| ==> step(done, items[i]) == Some(if pick(items[i]) then done + [make(items[i])] else done)
    ensures Steps([], items, step) == Some(Picked(items, pick, make))
  {
    if items != [] {
      var front := items[..|items| - 1];
      assert forall i :: 0 <= i < |front| ==> front[i] == items[i];
      StepsPicked(front, step, pick, make);
      var done := Picked(front, pick, make);
      assert done + [] == done;
    }
  }

  lemma {:induction false} PickedFrom<A, B>(items: seq<A>, pick: A -> bool, make: A -> B, i: nat)
    requires i < |Picked(items, pick, make)|
    ensures exists a :: a in items && pick(a) && make(a) == Picked(items, pick, make)[i]
  {
    var front, last := items[..|items| - 1], items[|items| - 1];
    assert items == front + [last];
    if i < |Picked(front, pick, make)| {
      PickedFrom(front, pick, make, i);
      var a :| a in front && pick(a) && make(a) == Picked(front, pick, make)[i];
      assert a in items;
    } else {
      assert last in items;
    }
  }

  lemma {:induction false} PickedAll<A, B>(items: seq<A>, pick: A -> bool, make: A -> B, a: A)
    requires a in items && pick(a)
    ensures make(a) in Picked(items, pick, make)
  {
    var front, last := items[..|items| - 1], items[|items| - 1];
    assert items == front + [last];
    if a != last { PickedAll(front, pick, make, a); }
  }

  /** Whether a deletion finds selected entries among those stored for an architecture. */
  function Affected(stored: string -> seq<Package>, o: DeleteOptions): string -> bool
  {
    a => Manifests.Deleted(stored(a), o.name, o.versions) != []
  }

  /** The manifest of an architecture without the selected entries. */
  function Remaining(stored: string -> seq<Package>, o: DeleteOptions, r: ReleaseState): string -> ManifestState
  {
    a => ManifestState(o.codename, o.component, a, r.byHash, false, true, Retained(stored(a), o.name, o.versions), [], map[])
  }

  /** The manifests a deletion changes: one for each index it looks into and finds selected entries in. */
  function Changed(stored: string -> seq<Package>, o: DeleteOptions, r: ReleaseState): seq<ManifestState>
  {
    Picked(DeletedIn(o, r), Affected(stored, o), Remaining(stored, o, r))
  }

  /** The stored entries of the architectures that a deletion reads. */
  ghost predicate Reads(objects: map<string, Doc>, o: DeleteOptions, r: ReleaseState, stored: string -> seq<Package>, a: string)
  {
    ManifestRead(objects, Slot(o.codename, o.component, a, r.byHash), false, true) ==
    Some(ManifestState(o.codename, o.component, a, r.byHash, false, true, stored(a), [], map[]))
  }

  lemma DeleterPicks(objects: map<string, Doc>, o: DeleteOptions, r: ReleaseState, stored: string -> seq<Package>, done: seq<ManifestState>,
                     a: string)
    requires Reads(objects, o, r, stored, a)
    ensures Deleter(objects, o, r.byHash)(done, a) ==
            Some(if Affected(stored, o)(a) then done + [Remaining(stored, o, r)(a)] else done)
  {
  }

  lemma DeletionChanges(objects: map<string, Doc>, o: DeleteOptions, r: ReleaseState, stored: string -> seq<Package>)
    requires forall a :: a in DeletedIn(o, r) ==> Reads(objects, o, r, stored, a)
    requires DeleteTargets(objects, o, r).Some?
    ensures DeleteTargets(objects, o, r).value == Changed(stored, o, r)
  {
    DeletionSteps(objects, o, r, stored);
  }

  /** A deletion fails if it finds nothing, and otherwise changes these manifests. */
  lemma DeletionSteps(objects: map<string, Doc>, o: DeleteOptions, r: ReleaseState, stored: string -> seq<Package>)
    requires forall a :: a in DeletedIn(o, r) ==> Reads(objects, o, r, stored, a)
    ensures DeleteTargets(objects, o, r) == if Changed(stored, o, r) == [] then None else Some(Changed(stored, o, r))
  {
    var architectures := DeletedIn(o, r);
    var step, pick, make := Deleter(objects, o, r.byHash), Affected(stored, o), Remaining(stored, o, r);
    forall done, i | 0 <= i < |architectures|
      ensures step(done, architectures[i]) == Some(if pick(architectures[i]) then done + [make(architectures[i])] else done)
    {
      assert architectures[i] in architectures;
      DeleterPicks(objects, o, r, stored, done, architectures[i]);
    }
    StepsPicked(architectures, step, pick, make);
  }

  lemma ChangedIs(stored: string -> seq<Package>, o: DeleteOptions, r: ReleaseState, i: nat)
    requires i < |Changed(stored, o, r)|
    ensures var m := Changed(stored, o, r)[i];
            && SlotOf(m) == Slot(o.codename, o.component, m.architecture, r.byHash) && m.architecture in DeletedIn(o, r)
            && Manifests.Deleted(stored(m.architecture), o.name, o.versions) != []
            && m.packages == Filter(stored(m.architecture), NotMeant(o.name, o.versions))
  {
    DeletionExact(stored(Changed(stored, o, r)[i].architecture), o.name, o.versions);
    PickedFrom(DeletedIn(o, r), Affected(stored, o), Remaining(stored, o, r), i);
  }

  /** What a deletion publishes: exactly the indices it looks into that hold selected entries. */
  lemma TargetsPublished(stored: string -> seq<Package>, o: DeleteOptions, r: ReleaseState, s: Slot, entries: seq<Package>)
    requires r.codename == o.codename && (Targeted(o, r, s) ==> stored(s.architecture) == entries)
    ensures var ms := Changed(stored, o, r);
            && (Publishes(ms, s) <==> Targeted(o, r, s) && Manifests.Deleted(entries, o.name, o.versions) != [])
            && forall i :: 0 <= i < |ms| && SameIndex(SlotOf(ms[i]), s) ==> ms[i].packages == Kept(o, r, s, entries)
  {
    var ms := Changed(stored, o, r);
    forall i | 0 <= i < |ms| && SameIndex(SlotOf(ms[i]), s)
      ensures Targeted(o, r, s) && Manifests.Deleted(entries, o.name, o.versions) != [] && ms[i].packages == Kept(o, r, s, entries)
    {
      ChangedIs(stored, o, r, i);
    }
    if Targeted(o, r, s) && Manifests.Deleted(entries, o.name, o.versions) != [] {
      PickedAll(DeletedIn(o, r), Affected(stored, o), Remaining(stored, o, r), s.architecture);
      var m := Remaining(stored, o, r)(s.architecture);
      var i :| 0 <= i < |ms| && ms[i] == m;
      assert SameIndex(SlotOf(ms[i]), s);
    }
  }

  /** The entries stored for each architecture of a component. */
  function StoredIn(objects: map<string, Doc>, o: DeleteOptions, r: ReleaseState): string -> seq<Package>
  {
    a => match EntriesAt(objects, Slot(o.codename, o.component, a, r.byHash)) case None => [] case Some(packages) => packages
  }

  lemma StoredRead(objects: map<string, Doc>, o: DeleteOptions, r: ReleaseState, a: string)
    requires ReadsAt(objects, Slot(o.codename, o.component, a, r.byHash))
    ensures Reads(objects, o, r, StoredIn(objects, o, r), a)
  {
  }

  lemma StoredEntries(objects: map<string, Doc>, o: DeleteOptions, r: ReleaseState, s: Slot)
    requires s.codename == o.codename && s.component == o.component && EntriesAt(objects, s).Some?
    ensures StoredIn(objects, o, r)(s.architecture) == EntriesAt(objects, s).value
  {
  }

  // ------------------------------------------------------------------------- the theorem

  /** A deletion left an index with the locations of the entries it should have kept. */
  ghost predicate KeptAt(before: map<string, Doc>, after: map<string, Doc>, o: DeleteOptions, r: ReleaseState, s: Slot)
  {
    EntriesAt(before, s).Some? && EntriesAt(after, s).Some? &&
    Locations(EntriesAt(after, s).value) == Locations(Kept(o, r, s, EntriesAt(before, s).value))
  }

  lemma IndexKept(keys: set<string>, before: map<string, Doc>, after: map<string, Doc>, o: DeleteOptions, r: ReleaseState,
                  stored: string -> seq<Package>, s: Slot, entries: seq<Package>)
    requires r.codename == o.codename && (Targeted(o, r, s) ==> stored(s.architecture) == entries)
    requires EntriesAt(before, s) == Some(entries) && AllLocated(keys, entries)
    requires var ms := Changed(stored, o, r);
             && (Publishes(ms, s) ==>
                   exists i :: 0 <= i < |ms| && SameIndex(SlotOf(ms[i]), s) && At(after, IndexPath(s)).Some? &&
                               BuildIndex(ms[i]) == Ok(At(after, IndexPath(s)).value))
             && (Unlisted(r, ms, s) ==> At(after, IndexPath(s)) == Some(Bytes("")))
             && (!Publishes(ms, s) && !Unlisted(r, ms, s) ==> At(after, IndexPath(s)) == At(before, IndexPath(s)))
    ensures KeptAt(before, after, o, r, s) <==> (Unlisted(r, Changed(stored, o, r), s) ==> entries == [])
  {
    var ms := Changed(stored, o, r);
    TargetsPublished(stored, o, r, s, entries);
    EmptyIndex("");
    if Publishes(ms, s) {
      var i :| 0 <= i < |ms| && SameIndex(SlotOf(ms[i]), s) && BuildIndex(ms[i]) == Ok(At(after, IndexPath(s)).value);
      PublishedKept(keys, before, after, o, r, ms[i], s);
    } else {
      UnpublishedKept(o, r, s, entries);
    }
  }

  lemma UnpublishedKept(o: DeleteOptions, r: ReleaseState, s: Slot, entries: seq<Package>)
    requires Targeted(o, r, s) ==> Manifests.Deleted(entries, o.name, o.versions) == []
    ensures Kept(o, r, s, entries) == entries
  {
    if Targeted(o, r, s) { NothingDeletedKept(entries, o.name, o.versions); }
  }

  lemma PublishedKept(keys: set<string>, before: map<string, Doc>, after: map<string, Doc>, o: DeleteOptions, r: ReleaseState, m: ManifestState, s: Slot)
    requires EntriesAt(before, s).Some? && AllLocated(keys, EntriesAt(before, s).value)
    requires m.packages == Kept(o, r, s, EntriesAt(before, s).value)
    requires At(after, IndexPath(s)).Some? && BuildIndex(m) == Ok(At(after, IndexPath(s)).value)
    ensures KeptAt(before, after, o, r, s)
  {
    KeptLocated(keys, o, r, s, EntriesAt(before, s).value);
    BuiltLocations(keys, m);
  }

  lemma KeptLocated(keys: set<string>, o: DeleteOptions, r: ReleaseState, s: Slot, packages: seq<Package>)
    requires AllLocated(keys, packages)
    ensures AllLocated(keys, Kept(o, r, s, packages))
  {
    if Targeted(o, r, s) {
      DeletionExact(packages, o.name, o.versions);
      RetainedLocated(keys, packages, o);
    }
  }

  ghost predicate AllKept(before: map<string, Doc>, after: map<string, Doc>, o: DeleteOptions, r: ReleaseState)
  {
    forall s :: GoodSlot(s) ==> KeptAt(before, after, o, r, s)
  }

  /**
   A deletion that succeeds removes exactly the entries it selected and keeps all others,
   of every index of every codename in their order, if and only if no index that it
   creates for a listed pair without a file holds entries.
   */
  lemma DeletionKeepsOthers(before: map<string, Doc>, o: DeleteOptions, h: Hasher, signed: bool, date: string, after: map<string, Doc>,
                            reliable: bool)
    requires Whole(before) && GoodHasher(h) && WellNamed(DeleteOf(o))
    requires DeletedEntries(before, o, h, signed, date, after, true, reliable)
    ensures ReleaseRead(before, o.codename, o.overrides).Some?
    ensures var r := ReleaseRead(before, o.codename, o.overrides).value;
            DeleteTargets(before, o, r).Some? &&
            (AllKept(before, after, o, r) <==> NothingToLose(before, r, DeleteTargets(before, o, r).value))
  {
    var r := ReleaseRead(before, o.codename, o.overrides).value;
    var ms := DeleteTargets(before, o, r).value;
    DeletionPlanned(before, o, r);
    FinishedPlan(before, r, ms, h, signed, date, after, reliable);
    forall s | GoodSlot(s)
      ensures EntriesAt(before, s).Some?
      ensures KeptAt(before, after, o, r, s) <==> (Unlisted(r, ms, s) ==> EntriesAt(before, s) == Some([]))
    {
      PublicationIndices(before, r, ms, h, signed, date, s);
      StoredHeld(before, s);
      if Targeted(o, r, s) { StoredEntries(before, o, r, s); }
      IndexKept(PoolKeys(before), before, after, o, r, StoredIn(before, o, r), s, EntriesAt(before, s).value);
    }
  }

  lemma DeletionPlanned(before: map<string, Doc>, o: DeleteOptions, r: ReleaseState)
    requires Whole(before) && WellNamed(DeleteOf(o)) && ReleaseRead(before, o.codename, o.overrides) == Some(r)
    requires DeleteTargets(before, o, r).Some?
    ensures GoodRelease(r) && r.codename == o.codename
    ensures DeleteTargets(before, o, r).value == Changed(StoredIn(before, o, r), o, r) && AllOffered(r, DeleteTargets(before, o, r).value)
  {
    ReleaseReadGood(before, o.codename, o.overrides);
    assert ArchitectureNames(DeletedIn(o, r));
    forall a | a in DeletedIn(o, r) ensures Reads(before, o, r, StoredIn(before, o, r), a) {
      StoredHeld(before, Slot(o.codename, o.component, a, r.byHash));
      StoredRead(before, o, r, a);
    }
    DeletionChanges(before, o, r, StoredIn(before, o, r));
    DeletionOffered(before, o, r);
  }

  lemma DeletionOffered(before: map<string, Doc>, o: DeleteOptions, r: ReleaseState)
    requires Whole(before) && WellNamed(DeleteOf(o)) && r.codename == o.codename && GoodRelease(r) && DeleteTargets(before, o, r).Some?
    ensures AllOffered(r, DeleteTargets(before, o, r).value)
  {
    TargetsLocated(before, o, r);
  }

  // ------------------------------------------------------------- how entries come to be lost

  /** The writes of a publication before its Release. */
  function IndexWrites(ps: seq<Prepared>, h: Hasher): seq<Write>
  {
    AllByHash(ps, h) + AllCanonical(ps)
  }

  /**
   A publication of a new component that stops before its Release, and then one of the
   same component for another architecture that reads the same Release: the entries
   that the first one stored are lost.
   */
  lemma InterruptedThenEmptied(objects: map<string, Doc>, r: ReleaseState, first: ManifestState, second: ManifestState, h: Hasher,
                               signed: bool, date: string)
    requires GoodHasher(h) && GoodRelease(r) && AllOffered(r, [first]) && AllOffered(r, [second])
    requires Closure(r, [first], h).Ok? && Closure(r, [second], h).Ok?
    requires first.component == second.component && first.architecture != second.architecture
    requires first.architecture in r.architectures && Listed(SlotOf(first)) !in r.files
    ensures var s := SlotOf(first);
            var (_, ps) := Closure(r, [first], h).value;
            var interrupted := Run(objects, IndexWrites(ps, h));
            var (closed, qs) := Closure(r, [second], h).value;
            var after := Run(interrupted, PublishPlan(closed, qs, h, signed, date));
            && At(interrupted, ReleasePath(r.codename)) == At(objects, ReleasePath(r.codename))
            && (exists doc :: BuildIndex(first) == Ok(doc) && At(interrupted, IndexPath(s)) == Some(doc))
            && At(after, IndexPath(s)) == Some(Bytes(""))
  {
    var (_, ps) := Closure(r, [first], h).value;
    assert Offered(r, [first][0]);
    IndicesStored(objects, r, first, h);
    LaterEmpties(Run(objects, IndexWrites(ps, h)), r, SlotOf(first), second, h, signed, date);
  }

  lemma LaterEmpties(objects: map<string, Doc>, r: ReleaseState, s: Slot, m: ManifestState, h: Hasher, signed: bool, date: string)
    requires GoodHasher(h) && GoodRelease(r) && AllOffered(r, [m]) && Closure(r, [m], h).Ok? && GoodSlot(s) && s.codename == r.codename
    requires s.component == m.component && s.architecture != m.architecture
    requires s.architecture in r.architectures && Listed(s) !in r.files
    ensures var (closed, ps) := Closure(r, [m], h).value;
            At(Run(objects, PublishPlan(closed, ps, h, signed, date)), IndexPath(s)) == Some(Bytes(""))
  {
    assert [m][0].component == s.component;
    PublicationIndices(objects, r, [m], h, signed, date, s);
  }

  lemma IndicesStored(objects: map<string, Doc>, r: ReleaseState, m: ManifestState, h: Hasher)
    requires GoodHasher(h) && GoodRelease(r) && AllOffered(r, [m]) && Closure(r, [m], h).Ok?
    ensures var (_, ps) := Closure(r, [m], h).value;
            var stored := Run(objects, IndexWrites(ps, h));
            && At(stored, ReleasePath(r.codename)) == At(objects, ReleasePath(r.codename))
            && exists doc :: BuildIndex(m) == Ok(doc) && At(stored, IndexPath(SlotOf(m))) == Some(doc)
  {
    var (_, ps) := Closure(r, [m], h).value;
    var s := SlotOf(m);
    ClosureShape(r, [m], h);
    SlotsOfRelease(r, ps);
    assert Offered(r, [m][0]);
    RunConcat(objects, AllByHash(ps, h), AllCanonical(ps));
    AllByHashAvoids(ps, h, s);
    AvoidedKept(objects, AllByHash(ps, h), IndexPath(s));
    CanonicalAt(Run(objects, AllByHash(ps, h)), ps, s);
    var (updated, done) := Prepare(r, [m], h).value;
    WrittenConcat(done, Empties(Missing(updated)), s);
    assert SameIndex(SlotOf([m][0]), s);
    CreatedAre(r, [m], h, s);
    ChangedAre(r, [m], h, s);
    ReleaseUntouched(objects, r, ps, h);
  }

  lemma ReleaseUntouched(objects: map<string, Doc>, r: ReleaseState, ps: seq<Prepared>, h: Hasher)
    requires GoodHasher(h) && GoodRelease(r) && GoodSlots(ps)
    ensures At(Run(objects, IndexWrites(ps, h)), ReleasePath(r.codename)) == At(objects, ReleasePath(r.codename))
  {
    AllByHashHarmless(r.codename, ps, h);
    AllCanonicalHarmless(r.codename, ps, h);
    IndicesAvoidRelease(ps, r.codename, h);
    AvoidedKept(objects, IndexWrites(ps, h), ReleasePath(r.codename));
  }

  lemma {:induction false} PutsOnly(ps: seq<Prepared>, h: Hasher)
    ensures forall i :: 0 <= i < |IndexWrites(ps, h)| ==> IndexWrites(ps, h)[i].Put?
  {
    if ps != [] {
      var front, last := ps[..|ps| - 1], ps[|ps| - 1];
      PutsOnly(front, h);
      forall i | 0 <= i < |AllByHash(ps, h)| ensures AllByHash(ps, h)[i].Put? {
        if i < |AllByHash(front, h)| { assert AllByHash(ps, h)[i] == IndexWrites(front, h)[i]; }
      }
      forall i | 0 <= i < |AllCanonical(ps)| ensures AllCanonical(ps)[i].Put? {
        if i < |AllCanonical(front)| { assert AllCanonical(ps)[i] == IndexWrites(front, h)[|AllByHash(front, h)| + i]; }
      }
    }
  }

  lemma IndicesAvoidRelease(ps: seq<Prepared>, codename: string, h: Hasher)
    requires NoReleaseIn(AllByHash(ps, h), codename) && NoReleaseIn(AllCanonical(ps), codename)
    ensures Avoids(IndexWrites(ps, h), ReleasePath(codename))
  {
    PutsOnly(ps, h);
  }

  ghost predicate NoReleaseIn(writes: seq<Write>, codename: string)
  {
    ByHashSafety.NoRelease(codename, writes)
  }
}
