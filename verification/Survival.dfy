/**
 What a finished publication leaves of the other indices of its codename: all of them
 stay as they are, but for those of listed pairs that the Release has no file for, which
 become empty. Such an index may hold entries that an interrupted command left there.
 */
module Survival {
  import opened Text
  import opened Paths
  import opened Packages
  import opened PackageCodec
  import opened EntryCodec
  import opened Documents
  import opened IndexText
  import opened ManifestCodec
  import opened Stores
  import opened Manifests
  import opened Publication
  import opened Retrieval
  import opened Layout
  import opened Agreement
  import opened Currency
  import opened ByHashPlans

  // ---------------------------------------------------------------------- index keys

  predicate SameIndex(a: Slot, b: Slot)
  {
    a.codename == b.codename && a.component == b.component && a.architecture == b.architecture
  }

  lemma PrefixedEqual(a: string, b: string)
    ensures "binary-" + a == "binary-" + b <==> a == b
  {
    assert ("binary-" + a)[7..] == a && ("binary-" + b)[7..] == b;
  }

  /** Index keys of good slots tell the slots apart. */
  lemma IndexPathsDiffer(a: Slot, b: Slot)
    requires GoodSlot(a) && GoodSlot(b)
    ensures IndexPath(a) == IndexPath(b) <==> SameIndex(a, b)
    ensures IndexPath(a) + ".gz" != IndexPath(b)
  {
    IndexKeys(a);
    IndexKeys(b);
    PrefixedEqual(a.architecture, b.architecture);
    assert IndexSegments(a)[4] == "Packages" && GzipSegments(a)[4] == "Packages.gz" && IndexSegments(b)[4] == "Packages";
    if IndexPath(a) == IndexPath(b) {
      assert IndexSegments(a)[1] == IndexSegments(b)[1] && IndexSegments(a)[2] == IndexSegments(b)[2];
      assert IndexSegments(a)[3] == IndexSegments(b)[3];
    }
  }

  /** No write goes to a key. */
  ghost predicate Avoids(writes: seq<Write>, key: string)
  {
    forall i :: 0 <= i < |writes| ==> Named(writes[i].key) != Some(key)
  }

  function At(objects: map<string, Doc>, key: string): Option<Doc>
  {
    if key in objects then Some(objects[key]) else None
  }

  lemma {:induction false} AvoidedKept(objects: map<string, Doc>, writes: seq<Write>, key: string)
    requires Avoids(writes, key)
    ensures At(Run(objects, writes), key) == At(objects, key)
    decreases |writes|
  {
    if writes != [] {
      assert Named(writes[0].key) != Some(key);
      AvoidedKept(Effect(objects, writes[0]), writes[1..], key);
    }
  }

  lemma ByHashAvoids(p: Prepared, h: Hasher, s: Slot)
    requires GoodHasher(h) && GoodSlot(p.slot) && GoodSlot(s)
    ensures Avoids(ByHashWrites(p, h), IndexPath(s))
  {
    IndexKeys(s);
    HashKeyOf(s.codename, p.slot, h(p.index).sha256);
    HashKeyOf(s.codename, p.slot, h(Gzip(p.index)).sha256);
  }

  lemma {:induction false} AllByHashAvoids(ps: seq<Prepared>, h: Hasher, s: Slot)
    requires GoodHasher(h) && GoodSlots(ps) && GoodSlot(s)
    ensures Avoids(AllByHash(ps, h), IndexPath(s))
  {
    if ps != [] {
      AllByHashAvoids(ps[..|ps| - 1], h, s);
      ByHashAvoids(ps[|ps| - 1], h, s);
    }
  }

  lemma ThreeSegments(key: string, s: Slot)
    requires GoodSlot(s) && |Split(key, '/')| == 3 && Named(key) == Some(key)
    ensures Named(key) != Some(IndexPath(s))
  {
    IndexKeys(s);
  }

  lemma FinalAvoids(r: ReleaseState, signed: bool, date: string, s: Slot)
    requires Name(r.codename) && GoodSlot(s)
    ensures Avoids(FinalWrites(r, signed, date), IndexPath(s))
  {
    ReleaseKeys(r.codename);
    InReleaseKeys(r.codename);
    ThreeSegments(ReleasePath(r.codename), s);
    ThreeSegments(ReleasePath(r.codename) + ".gpg", s);
    ThreeSegments(InReleasePath(r.codename), s);
  }

  // ------------------------------------------------------------------ canonical indices

  /** The document last written to a slot's canonical index. */
  function Written(ps: seq<Prepared>, s: Slot): Option<Doc>
  {
    if ps == [] then None
    else if SameIndex(ps[|ps| - 1].slot, s) then Some(ps[|ps| - 1].index)
    else Written(ps[..|ps| - 1], s)
  }

  lemma {:induction false} CanonicalAt(objects: map<string, Doc>, ps: seq<Prepared>, s: Slot)
    requires GoodSlots(ps) && GoodSlot(s)
    ensures At(Run(objects, AllCanonical(ps)), IndexPath(s)) ==
            if Written(ps, s).Some? then Written(ps, s) else At(objects, IndexPath(s))
  {
    if ps != [] {
      var front, last := ps[..|ps| - 1], ps[|ps| - 1];
      CanonicalAt(objects, front, s);
      RunConcat(objects, AllCanonical(front), CanonicalWrites(last));
      CanonicalRun(Run(objects, AllCanonical(front)), last);
      IndexPathsDiffer(last.slot, s);
    }
  }

  lemma {:induction false} WrittenConcat(a: seq<Prepared>, b: seq<Prepared>, s: Slot)
    ensures Written(a + b, s) == if Written(b, s).Some? then Written(b, s) else Written(a, s)
    decreases |b|
  {
    if b == [] {
      assert a + b == a;
    } else {
      assert (a + b)[..|a + b| - 1] == a + b[..|b| - 1];
      WrittenConcat(a, b[..|b| - 1], s);
    }
  }

  lemma {:induction false} WrittenMembers(ps: seq<Prepared>, s: Slot)
    ensures Written(ps, s).Some? <==> exists i :: 0 <= i < |ps| && SameIndex(ps[i].slot, s)
    ensures Written(ps, s).Some? ==> exists i :: 0 <= i < |ps| && SameIndex(ps[i].slot, s) && ps[i].index == Written(ps, s).value
  {
    if ps != [] {
      var front, last := ps[..|ps| - 1], ps[|ps| - 1];
      WrittenMembers(front, s);
      if i :| 0 <= i < |ps| && SameIndex(ps[i].slot, s) {
        if i < |front| { assert front[i] == ps[i]; }
      }
      if i :| 0 <= i < |front| && SameIndex(front[i].slot, s) && front[i].index == Written(front, s).value {
        assert ps[i] == front[i];
      }
    }
  }

  /** What a publication leaves of an index depends on its prepared indices alone. */
  lemma PlanAt(objects: map<string, Doc>, r: ReleaseState, ms: seq<ManifestState>, h: Hasher, signed: bool, date: string, s: Slot)
    requires GoodHasher(h) && GoodRelease(r) && AllOffered(r, ms) && Closure(r, ms, h).Ok? && GoodSlot(s)
    ensures var (closed, ps) := Closure(r, ms, h).value;
            At(Run(objects, PublishPlan(closed, ps, h, signed, date)), IndexPath(s)) ==
            if Written(ps, s).Some? then Written(ps, s) else At(objects, IndexPath(s))
  {
    var (closed, ps) := Closure(r, ms, h).value;
    ClosureShape(r, ms, h);
    NothingLeft(closed, h, signed, date);
    SlotsOfRelease(r, ps);
    RunPhases(objects, AllByHash(ps, h), AllCanonical(ps), FinalWrites(closed, signed, date));
    var hashed := Run(objects, AllByHash(ps, h));
    AllByHashAvoids(ps, h, s);
    AvoidedKept(objects, AllByHash(ps, h), IndexPath(s));
    CanonicalAt(hashed, ps, s);
    FinalAvoids(closed, signed, date, s);
    AvoidedKept(Run(hashed, AllCanonical(ps)), FinalWrites(closed, signed, date), IndexPath(s));
  }

  // ---------------------------------------------------------------- which are emptied

  ghost predicate Publishes(ms: seq<ManifestState>, s: Slot)
  {
    exists i :: 0 <= i < |ms| && SameIndex(SlotOf(ms[i]), s)
  }

  function Listed(s: Slot): string
  {
    s.component + "/binary-" + s.architecture + "/Packages"
  }

  ghost predicate HasComponent(ms: seq<ManifestState>, component: string)
  {
    exists i :: 0 <= i < |ms| && ms[i].component == component
  }

  ghost predicate HasArchitecture(ms: seq<ManifestState>, architecture: string)
  {
    exists i :: 0 <= i < |ms| && ms[i].architecture == architecture
  }

  /**
   An index whose component and architecture the Release lists or will list, that it has
   no file for and that is not published.
   */
  ghost predicate Unlisted(r: ReleaseState, ms: seq<ManifestState>, s: Slot)
  {
    && s.codename == r.codename && Listed(s) !in r.files && !Publishes(ms, s)
    && (s.component in r.components || HasComponent(ms, s.component))
    && (s.architecture in r.architectures || HasArchitecture(ms, s.architecture))
  }

  lemma OneMoreName(front: seq<ManifestState>, last: ManifestState, component: string, architecture: string)
    ensures HasComponent(front + [last], component) <==> HasComponent(front, component) || last.component == component
    ensures HasArchitecture(front + [last], architecture) <==> HasArchitecture(front, architecture) || last.architecture == architecture
  {
    var ms := front + [last];
    assert ms[|front|] == last;
    if i :| 0 <= i < |front| && front[i].component == component { assert ms[i] == front[i]; }
    if i :| 0 <= i < |front| && front[i].architecture == architecture { assert ms[i] == front[i]; }
  }

  lemma PreparedMore(r: ReleaseState, front: seq<ManifestState>, last: ManifestState, h: Hasher)
    requires Prepare(r, front + [last], h).Ok?
    ensures Prepare(r, front, h).Ok?
    ensures var before, after := Prepare(r, front, h).value.0, Prepare(r, front + [last], h).value.0;
            && after.components == AppendUnique(before.components, last.component)
            && after.architectures == AppendUnique(before.architectures, last.architecture)
  {
    assert (front + [last])[..|front|] == front;
  }

  lemma {:induction false} PreparedNames(r: ReleaseState, ms: seq<ManifestState>, h: Hasher, c: string, a: string)
    requires Prepare(r, ms, h).Ok?
    ensures var updated := Prepare(r, ms, h).value.0;
            && (c in updated.components <==> c in r.components || HasComponent(ms, c))
            && (a in updated.architectures <==> a in r.architectures || HasArchitecture(ms, a))
  {
    if ms != [] {
      var front, last := ms[..|ms| - 1], ms[|ms| - 1];
      assert ms == front + [last];
      OneMoreName(front, last, c, a);
      PreparedMore(r, front, last, h);
      PreparedNames(r, front, h, c, a);
    }
  }

  /** A listed name is among the files of an index exactly when it is that index. */
  lemma ListedOfIndex(p: Prepared, s: Slot, h: Hasher)
    requires GoodSlot(p.slot) && GoodSlot(s)
    ensures Listed(s) in ArtifactFiles(p, h) <==> p.slot.component == s.component && p.slot.architecture == s.architecture
  {
    ListedNames(p.slot);
    ListedNames(s);
    MissingName(s.component, s.architecture);
    PrefixedEqual(p.slot.architecture, s.architecture);
    var listed := ListedPath(p.slot.component, p.slot.architecture);
    SplitSuffix(listed, ".gz");
    assert Listed(s) != listed + ".gz" by {
      assert ListedSegments(s.component, s.architecture)[2] == "Packages";
      assert Last(listed) == "Packages" && Split(listed + ".gz", '/')[2] == "Packages" + ".gz";
    }
    if Listed(s) == listed {
      assert ListedSegments(s.component, s.architecture)[0] == ListedSegments(p.slot.component, p.slot.architecture)[0];
      assert ListedSegments(s.component, s.architecture)[1] == ListedSegments(p.slot.component, p.slot.architecture)[1];
    }
  }

  lemma ListedAfter(r: ReleaseState, ms: seq<ManifestState>, h: Hasher, s: Slot)
    requires GoodRelease(r) && AllOffered(r, ms) && Prepare(r, ms, h).Ok? && GoodSlot(s) && s.codename == r.codename
    ensures Listed(s) in Prepare(r, ms, h).value.0.files <==> Listed(s) in r.files || Publishes(ms, s)
  {
    PrepareShape(r, ms, h);
    var done := Prepare(r, ms, h).value.1;
    FilesAfterMembers(r.files, done, h, Listed(s));
    forall i | 0 <= i < |ms| ensures Listed(s) in ArtifactFiles(done[i], h) <==> SameIndex(SlotOf(ms[i]), s) {
      assert Built(ms[i], done[i]) && Offered(r, ms[i]);
      ListedOfIndex(done[i], s, h);
    }
  }

  /** The indices a publication creates empty are exactly the unlisted ones. */
  lemma CreatedAre(r: ReleaseState, ms: seq<ManifestState>, h: Hasher, s: Slot)
    requires GoodRelease(r) && AllOffered(r, ms) && Prepare(r, ms, h).Ok? && GoodSlot(s)
    ensures var created := Empties(Missing(Prepare(r, ms, h).value.0));
            Written(created, s) == if Unlisted(r, ms, s) then Some(Bytes("")) else None
  {
    var updated := Prepare(r, ms, h).value.0;
    var created := Empties(Missing(updated));
    PrepareShape(r, ms, h);
    PreparedNames(r, ms, h, s.component, s.architecture);
    WrittenMembers(created, s);
    forall i | 0 <= i < |created| ensures created[i] == Prepared(Missing(updated)[i], Bytes("")) { EmptiesAt(Missing(updated), i); }
    var slot := Slot(updated.codename, s.component, s.architecture, updated.byHash);
    MissingFromMembers(updated, updated.components, slot);
    if s.codename == r.codename { ListedAfter(r, ms, h, s); }
    if i :| 0 <= i < |created| && SameIndex(created[i].slot, s) {
      MissingFromMembers(updated, updated.components, Missing(updated)[i]);
      assert Missing(updated)[i] in Missing(updated);
    }
    if slot in Missing(updated) {
      var i :| 0 <= i < |Missing(updated)| && Missing(updated)[i] == slot;
      assert created[i].slot == slot;
    }
  }

  lemma ChangedAre(r: ReleaseState, ms: seq<ManifestState>, h: Hasher, s: Slot)
    requires GoodRelease(r) && AllOffered(r, ms) && Prepare(r, ms, h).Ok?
    ensures Written(Prepare(r, ms, h).value.1, s).Some? <==> Publishes(ms, s)
    ensures Publishes(ms, s) ==>
              exists i :: 0 <= i < |ms| && SameIndex(SlotOf(ms[i]), s) && BuildIndex(ms[i]) == Ok(Written(Prepare(r, ms, h).value.1, s).value)
  {
    PrepareShape(r, ms, h);
    var done := Prepare(r, ms, h).value.1;
    WrittenMembers(done, s);
    forall i | 0 <= i < |ms| ensures done[i].slot == SlotOf(ms[i]) && BuildIndex(ms[i]) == Ok(done[i].index) { assert Built(ms[i], done[i]); }
  }

  // ------------------------------------------------------------------------- the theorem

  /** What a finished publication leaves of every canonical index of every codename. */
  lemma PublicationIndices(objects: map<string, Doc>, r: ReleaseState, ms: seq<ManifestState>, h: Hasher, signed: bool, date: string, s: Slot)
    requires GoodHasher(h) && GoodRelease(r) && AllOffered(r, ms) && Closure(r, ms, h).Ok? && GoodSlot(s)
    ensures var (closed, ps) := Closure(r, ms, h).value;
            var left := At(Run(objects, PublishPlan(closed, ps, h, signed, date)), IndexPath(s));
            && (Publishes(ms, s) ==>
                  exists i :: 0 <= i < |ms| && SameIndex(SlotOf(ms[i]), s) && left.Some? && BuildIndex(ms[i]) == Ok(left.value))
            && (Unlisted(r, ms, s) ==> left == Some(Bytes("")))
            && (!Publishes(ms, s) && !Unlisted(r, ms, s) ==> left == At(objects, IndexPath(s)))
  {
    PlanAt(objects, r, ms, h, signed, date, s);
    var (updated, done) := Prepare(r, ms, h).value;
    WrittenConcat(done, Empties(Missing(updated)), s);
    CreatedAre(r, ms, h, s);
    ChangedAre(r, ms, h, s);
  }

  /** The entries a command reads of an index; an absent one has none. */
  function EntriesAt(objects: map<string, Doc>, s: Slot): Option<seq<Package>>
  {
    match At(objects, IndexPath(s)) case None => Some([]) case Some(doc) => Entries(doc)
  }

  /** No index that the publication will create holds entries already. */
  ghost predicate NothingToLose(objects: map<string, Doc>, r: ReleaseState, ms: seq<ManifestState>)
  {
    forall s :: GoodSlot(s) && Unlisted(r, ms, s) ==> EntriesAt(objects, s) == Some([])
  }

  ghost predicate OthersKept(objects: map<string, Doc>, after: map<string, Doc>, ms: seq<ManifestState>)
  {
    forall s :: GoodSlot(s) && !Publishes(ms, s) ==> EntriesAt(after, s) == EntriesAt(objects, s)
  }

  /**
   A publication keeps all entries of all indices it does not publish exactly when no
   index that it will create for a listed pair without a file holds entries.
   */
  lemma OthersSurvive(objects: map<string, Doc>, r: ReleaseState, ms: seq<ManifestState>, h: Hasher, signed: bool, date: string)
    requires GoodHasher(h) && GoodRelease(r) && AllOffered(r, ms) && Closure(r, ms, h).Ok?
    ensures var (closed, ps) := Closure(r, ms, h).value;
            OthersKept(objects, Run(objects, PublishPlan(closed, ps, h, signed, date)), ms) <==> NothingToLose(objects, r, ms)
  {
    var (closed, ps) := Closure(r, ms, h).value;
    var after := Run(objects, PublishPlan(closed, ps, h, signed, date));
    EmptyIndex("");
    forall s | GoodSlot(s) && !Publishes(ms, s)
      ensures EntriesAt(after, s) == if Unlisted(r, ms, s) then Some([]) else EntriesAt(objects, s) {
      PublicationIndices(objects, r, ms, h, signed, date, s);
    }
    if OthersKept(objects, after, ms) {
      forall s | GoodSlot(s) && Unlisted(r, ms, s) ensures EntriesAt(objects, s) == Some([]) {
        assert EntriesAt(after, s) == EntriesAt(objects, s);
      }
    }
  }
}
