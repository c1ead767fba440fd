/** What an upload's manifests hold: every package placed, and the architecture-independent ones everywhere. */
module FanOutProperties {
  import opened Text
  import opened Versions
  import opened Packages
  import opened Documents
  import opened Stores
  import opened Manifests
  import opened Publication
  import opened Retrieval
  import opened Uploading

  /** The architecture an upload is for, or else the package's own. */
  function Target(o: UploadOptions, p: Package): string
  {
    if o.architecture.Some? then o.architecture.value else p.architecture
  }

  /** The inspected packages placed in an architecture, in order. */
  function PlacedList(o: UploadOptions, inspected: seq<Option<Package>>, architecture: string): seq<Package>
  {
    if inspected == [] then []
    else
      var last := inspected[|inspected| - 1];
      PlacedList(o, inspected[..|inspected| - 1], architecture) +
      (if last.Some? && Target(o, last.value) == architecture then [last.value] else [])
  }

  ghost predicate DistinctArchitectures(ordered: seq<ManifestState>)
  {
    forall i, j :: 0 <= i < j < |ordered| ==> ordered[i].architecture != ordered[j].architecture
  }

  /** Each open manifest has exactly its own packages pending; nothing was placed in one that is not open. */
  ghost predicate Pending(o: UploadOptions, inspected: seq<Option<Package>>, ordered: seq<ManifestState>)
  {
    && DistinctArchitectures(ordered)
    && (forall i :: 0 <= i < |ordered| ==> ordered[i].pendingUploads == PlacedList(o, inspected, ordered[i].architecture))
    && (forall a :: Position(ordered, a) == |ordered| ==> PlacedList(o, inspected, a) == [])
  }

  lemma {:induction false} PositionFirst(ordered: seq<ManifestState>, architecture: string)
    ensures forall i :: 0 <= i < Position(ordered, architecture) ==> ordered[i].architecture != architecture
  {
    if ordered != [] && ordered[0].architecture != architecture {
      PositionFirst(ordered[1..], architecture);
      forall i | 0 <= i < Position(ordered, architecture) ensures ordered[i].architecture != architecture {
        if i > 0 { assert ordered[i] == ordered[1..][i - 1]; }
      }
    }
  }

  lemma {:induction false} PositionAppended(ordered: seq<ManifestState>, m: ManifestState, architecture: string)
    ensures Position(ordered + [m], architecture) ==
            if Position(ordered, architecture) < |ordered| then Position(ordered, architecture)
            else if m.architecture == architecture then |ordered| else |ordered| + 1
  {
    if ordered == [] {
      assert ordered + [m] == [m] && [m][1..] == [];
    } else if ordered[0].architecture != architecture {
      assert (ordered + [m])[1..] == ordered[1..] + [m];
      PositionAppended(ordered[1..], m, architecture);
    }
  }

  lemma {:induction false} PositionReplaced(ordered: seq<ManifestState>, i: nat, m: ManifestState, architecture: string)
    requires i < |ordered| && m.architecture == ordered[i].architecture
    ensures Position(ordered[i := m], architecture) == Position(ordered, architecture)
  {
    if i > 0 {
      assert ordered[i := m][1..] == ordered[1..][i - 1 := m];
      PositionReplaced(ordered[1..], i - 1, m, architecture);
    } else {
      assert ordered[i := m][1..] == ordered[1..];
    }
  }

  lemma OpenKeeps(objects: map<string, Doc>, o: UploadOptions, byHash: bool, ordered: seq<ManifestState>, architecture: string,
                  inspected: seq<Option<Package>>)
    requires Pending(o, inspected, ordered) && Open(objects, o, byHash, ordered, architecture).Some?
    ensures var ready := Open(objects, o, byHash, ordered, architecture).value;
            Pending(o, inspected, ready) && Position(ready, architecture) < |ready|
  {
    var ready := Open(objects, o, byHash, ordered, architecture).value;
    if Position(ordered, architecture) == |ordered| {
      PositionFirst(ordered, architecture);
      var m := ready[|ordered|];
      assert ready == ordered + [m] && m.architecture == architecture && m.pendingUploads == [];
      PositionAppended(ordered, m, architecture);
      forall a | Position(ready, a) == |ready| ensures PlacedList(o, inspected, a) == [] {
        PositionAppended(ordered, m, a);
      }
    }
  }

  lemma {:induction false} OpenAllKeeps(objects: map<string, Doc>, o: UploadOptions, byHash: bool, ordered: seq<ManifestState>,
                                        architectures: seq<string>, inspected: seq<Option<Package>>)
    requires Pending(o, inspected, ordered) && OpenAll(objects, o, byHash, ordered, architectures).Some?
    ensures Pending(o, inspected, OpenAll(objects, o, byHash, ordered, architectures).value)
    decreases |architectures|
  {
    if architectures != [] {
      var front := architectures[..|architectures| - 1];
      OpenAllKeeps(objects, o, byHash, ordered, front, inspected);
      OpenKeeps(objects, o, byHash, OpenAll(objects, o, byHash, ordered, front).value, architectures[|architectures| - 1], inspected);
    }
  }

  lemma OpenedKeeps(objects: map<string, Doc>, o: UploadOptions, r: ReleaseState, ordered: seq<ManifestState>, architecture: string,
                    inspected: seq<Option<Package>>)
    requires Pending(o, inspected, ordered) && OpenedFor(objects, o, r, ordered, architecture).Some?
    ensures var ready := OpenedFor(objects, o, r, ordered, architecture).value;
            Pending(o, inspected, ready) && Position(ready, architecture) < |ready|
  {
    if architecture == "all" && |ordered| == 0 {
      OpenAllKeeps(objects, o, r.byHash, ordered, SeedArchitectures(r), inspected);
      OpenKeeps(objects, o, r.byHash, OpenAll(objects, o, r.byHash, ordered, SeedArchitectures(r)).value, architecture, inspected);
    } else {
      OpenKeeps(objects, o, r.byHash, ordered, architecture, inspected);
    }
  }

  lemma PlaceKeeps(objects: map<string, Doc>, o: UploadOptions, r: ReleaseState, fan: Fan, inspected: seq<Option<Package>>, p: Package)
    requires Pending(o, inspected, fan.ordered) && PlaceOne(objects, o, r, fan, p).Some?
    ensures Pending(o, inspected + [Some(p)], PlaceOne(objects, o, r, fan, p).value.ordered)
  {
    var a := PlacedIn(o, p).value;
    OpenedKeeps(objects, o, r, fan.ordered, a, inspected);
    var ready := OpenedFor(objects, o, r, fan.ordered, a).value;
    var i := Position(ready, a);
    var m := AddTo(ready[i], p, o.preserveVersions, true).value;
    ReplacedKeeps(o, inspected, ready, i, m, p);
  }

  lemma PlacedMore(o: UploadOptions, inspected: seq<Option<Package>>, p: Package, architecture: string)
    ensures PlacedList(o, inspected + [Some(p)], architecture) ==
            PlacedList(o, inspected, architecture) + (if Target(o, p) == architecture then [p] else [])
  {
    assert (inspected + [Some(p)])[..|inspected|] == inspected;
  }

  lemma ReplacedKeeps(o: UploadOptions, inspected: seq<Option<Package>>, ready: seq<ManifestState>, i: nat, m: ManifestState, p: Package)
    requires Pending(o, inspected, ready) && i < |ready| && Target(o, p) == ready[i].architecture
    requires m.architecture == ready[i].architecture && m.pendingUploads == ready[i].pendingUploads + [p]
    ensures Pending(o, inspected + [Some(p)], ready[i := m])
  {
    var after := ready[i := m];
    forall k | 0 <= k < |after| ensures after[k].pendingUploads == PlacedList(o, inspected + [Some(p)], after[k].architecture) {
      PlacedMore(o, inspected, p, after[k].architecture);
      if k != i { assert PlacedList(o, inspected, after[k].architecture) + [] == PlacedList(o, inspected, after[k].architecture); }
    }
    forall a | Position(after, a) == |after| ensures PlacedList(o, inspected + [Some(p)], a) == [] {
      PositionReplaced(ready, i, m, a);
      PlacedMore(o, inspected, p, a);
      NotOpen(ready, i, a);
    }
  }

  lemma NotOpen(ready: seq<ManifestState>, i: nat, a: string)
    requires i < |ready| && Position(ready, a) == |ready|
    ensures ready[i].architecture != a
  {
    PositionFirst(ready, a);
  }

  /** What is pending after some packages were placed, and what is to be propagated. */
  ghost predicate Placed(o: UploadOptions, inspected: seq<Option<Package>>, fan: Fan)
  {
    Pending(o, inspected, fan.ordered) && fan.common == PlacedList(o, inspected, "all")
  }

  lemma PlacedNext(objects: map<string, Doc>, o: UploadOptions, r: ReleaseState, fan: Fan, inspected: seq<Option<Package>>, p: Package)
    requires Placed(o, inspected, fan) && PlaceOne(objects, o, r, fan, p).Some?
    ensures Placed(o, inspected + [Some(p)], PlaceOne(objects, o, r, fan, p).value)
  {
    PlaceKeeps(objects, o, r, fan, inspected, p);
    PlacedMore(o, inspected, p, "all");
    assert fan.common + [] == fan.common;
  }

  lemma PlaceAllNext(objects: map<string, Doc>, o: UploadOptions, r: ReleaseState, front: seq<Option<Package>>, last: Option<Package>)
    requires PlaceAll(objects, o, r, front + [last]).Some?
    ensures PlaceAll(objects, o, r, front).Some? && last.Some?
    ensures PlaceOne(objects, o, r, PlaceAll(objects, o, r, front).value, last.value) == PlaceAll(objects, o, r, front + [last])
  {
    assert (front + [last])[..|front|] == front;
  }

  lemma {:induction false} PlaceAllKeeps(objects: map<string, Doc>, o: UploadOptions, r: ReleaseState, inspected: seq<Option<Package>>)
    requires PlaceAll(objects, o, r, inspected).Some?
    ensures Placed(o, inspected, PlaceAll(objects, o, r, inspected).value)
  {
    if inspected == [] {
      OpenAllKeeps(objects, o, r.byHash, [], r.architectures, []);
    } else {
      var front, last := inspected[..|inspected| - 1], inspected[|inspected| - 1];
      assert inspected == front + [last];
      PlaceAllNext(objects, o, r, front, last);
      PlaceAllKeeps(objects, o, r, front);
      PlacedNext(objects, o, r, PlaceAll(objects, o, r, front).value, front, last.value);
    }
  }

  // --------------------------------------------------------------- the contents

  /** A package of the same name takes another's place; if versions are preserved, only one of the same version does. */
  predicate Replaces(added: Package, preserveVersions: bool, p: Package)
  {
    p.name == added.name && (!preserveVersions || FullVersion(p.version) == FullVersion(added.version))
  }

  /** Whether a package added k-th is displaced by one added later. */
  ghost predicate DisplacedAfter(common: seq<Package>, k: int, preserveVersions: bool, p: Package)
    requires -1 <= k
  {
    exists j :: k < j < |common| && Replaces(common[j], preserveVersions, p)
  }

  /** The entries after adding a batch: those added and not displaced since, and the old ones none displaced. */
  ghost predicate BatchMember(packages: seq<Package>, common: seq<Package>, preserveVersions: bool, p: Package)
  {
    || (exists k :: 0 <= k < |common| && common[k] == p && !DisplacedAfter(common, k, preserveVersions, p))
    || (p in packages && !DisplacedAfter(common, -1, preserveVersions, p))
  }

  /** Packages after adding a batch, each displacing what it replaces. */
  function Added(packages: seq<Package>, batch: seq<Package>, preserveVersions: bool): seq<Package>
  {
    if batch == [] then packages
    else WithPackage(Added(packages, batch[..|batch| - 1], preserveVersions), batch[|batch| - 1], preserveVersions)
  }

  lemma {:induction false} AddedMembers(packages: seq<Package>, batch: seq<Package>, preserveVersions: bool, p: Package)
    ensures p in Added(packages, batch, preserveVersions) <==> BatchMember(packages, batch, preserveVersions, p)
    decreases |batch|
  {
    if batch != [] {
      var front, last := batch[..|batch| - 1], batch[|batch| - 1];
      AddedMembers(packages, front, preserveVersions, p);
      AddMembers(Added(packages, front, preserveVersions), last, preserveVersions, p);
      BatchMore(packages, front, last, preserveVersions, p);
      assert front + [last] == batch;
    }
  }

  lemma {:induction false} AddedMore(packages: seq<Package>, a: seq<Package>, b: seq<Package>, preserveVersions: bool)
    ensures Added(packages, a + b, preserveVersions) == Added(Added(packages, a, preserveVersions), b, preserveVersions)
    decreases |b|
  {
    if b == [] {
      assert a + b == a;
    } else {
      assert (a + b)[..|a + b| - 1] == a + b[..|b| - 1];
      AddedMore(packages, a, b[..|b| - 1], preserveVersions);
    }
  }

  lemma {:induction false} AddCommonAdded(m: ManifestState, common: seq<Package>, preserveVersions: bool)
    requires AddCommon(m, common, preserveVersions).Some?
    ensures AddCommon(m, common, preserveVersions).value.packages == Added(m.packages, common, preserveVersions)
    decreases |common|
  {
    if common != [] { AddCommonAdded(m, common[..|common| - 1], preserveVersions); }
  }

  lemma AddCommonMembers(m: ManifestState, common: seq<Package>, preserveVersions: bool, p: Package)
    requires AddCommon(m, common, preserveVersions).Some?
    ensures p in AddCommon(m, common, preserveVersions).value.packages <==> BatchMember(m.packages, common, preserveVersions, p)
  {
    AddCommonAdded(m, common, preserveVersions);
    AddedMembers(m.packages, common, preserveVersions, p);
  }

  lemma BatchMore(packages: seq<Package>, front: seq<Package>, last: Package, preserveVersions: bool, p: Package)
    ensures BatchMember(packages, front + [last], preserveVersions, p) <==>
            p == last || (BatchMember(packages, front, preserveVersions, p) && !Replaces(last, preserveVersions, p))
  {
    var common := front + [last];
    forall k | -1 <= k < |front|
      ensures DisplacedAfter(common, k, preserveVersions, p) <==>
              DisplacedAfter(front, k, preserveVersions, p) || Replaces(last, preserveVersions, p) {
      DisplacedMore(front, last, k, preserveVersions, p);
    }
    if p == last {
      assert common[|front|] == p && !DisplacedAfter(common, |front|, preserveVersions, p);
    }
    if k :| 0 <= k < |front| && front[k] == p && !DisplacedAfter(front, k, preserveVersions, p) {
      assert common[k] == p;
    }
    if k :| 0 <= k < |common| && common[k] == p && !DisplacedAfter(common, k, preserveVersions, p) {
      if k < |front| { assert front[k] == p; }
    }
  }

  lemma DisplacedMore(front: seq<Package>, last: Package, k: int, preserveVersions: bool, p: Package)
    requires -1 <= k < |front|
    ensures DisplacedAfter(front + [last], k, preserveVersions, p) <==>
            DisplacedAfter(front, k, preserveVersions, p) || Replaces(last, preserveVersions, p)
  {
    var common := front + [last];
    if j :| k < j < |front| && Replaces(front[j], preserveVersions, p) { assert common[j] == front[j]; }
    if Replaces(last, preserveVersions, p) { assert common[|front|] == last; }
    if j :| k < j < |common| && Replaces(common[j], preserveVersions, p) {
      if j < |front| { assert front[j] == common[j]; }
    }
  }

  // ------------------------------------------------------- the contents of each manifest

  /** The packages of an architecture's stored index. */
  function StoredIn(objects: map<string, Doc>, o: UploadOptions, r: ReleaseState, architecture: string): seq<Package>
  {
    match ManifestRead(objects, Slot(o.codename, o.component, architecture, r.byHash), o.failIfExists, o.skipPackageUpload)
    case None => []
    case Some(m) => m.packages
  }

  /** A manifest holds its stored packages and those placed in it. */
  predicate Filled(objects: map<string, Doc>, o: UploadOptions, r: ReleaseState, inspected: seq<Option<Package>>, m: ManifestState)
  {
    m.packages == Added(StoredIn(objects, o, r, m.architecture), PlacedList(o, inspected, m.architecture), o.preserveVersions)
  }

  ghost predicate AllFilled(objects: map<string, Doc>, o: UploadOptions, r: ReleaseState, inspected: seq<Option<Package>>, ordered: seq<ManifestState>)
  {
    forall i :: 0 <= i < |ordered| ==> Filled(objects, o, r, inspected, ordered[i])
  }

  lemma ReadFilled(objects: map<string, Doc>, o: UploadOptions, r: ReleaseState, inspected: seq<Option<Package>>, architecture: string)
    requires ManifestRead(objects, Slot(o.codename, o.component, architecture, r.byHash), o.failIfExists, o.skipPackageUpload).Some?
    requires PlacedList(o, inspected, architecture) == []
    ensures Filled(objects, o, r, inspected,
                   ManifestRead(objects, Slot(o.codename, o.component, architecture, r.byHash), o.failIfExists, o.skipPackageUpload).value)
  {
  }

  lemma OpenFilled(objects: map<string, Doc>, o: UploadOptions, r: ReleaseState, ordered: seq<ManifestState>, architecture: string,
                   inspected: seq<Option<Package>>)
    requires Pending(o, inspected, ordered) && AllFilled(objects, o, r, inspected, ordered)
    requires Open(objects, o, r.byHash, ordered, architecture).Some?
    ensures Pending(o, inspected, Open(objects, o, r.byHash, ordered, architecture).value)
    ensures AllFilled(objects, o, r, inspected, Open(objects, o, r.byHash, ordered, architecture).value)
  {
    OpenKeeps(objects, o, r.byHash, ordered, architecture, inspected);
    if Position(ordered, architecture) == |ordered| {
      ReadFilled(objects, o, r, inspected, architecture);
      FilledMore(objects, o, r, inspected, ordered,
                 ManifestRead(objects, Slot(o.codename, o.component, architecture, r.byHash), o.failIfExists, o.skipPackageUpload).value);
    }
  }

  lemma FilledMore(objects: map<string, Doc>, o: UploadOptions, r: ReleaseState, inspected: seq<Option<Package>>, ordered: seq<ManifestState>,
                   m: ManifestState)
    requires AllFilled(objects, o, r, inspected, ordered) && Filled(objects, o, r, inspected, m)
    ensures AllFilled(objects, o, r, inspected, ordered + [m])
  {
  }

  lemma {:induction false} OpenAllFilled(objects: map<string, Doc>, o: UploadOptions, r: ReleaseState, ordered: seq<ManifestState>,
                                         architectures: seq<string>, inspected: seq<Option<Package>>)
    requires Pending(o, inspected, ordered) && AllFilled(objects, o, r, inspected, ordered)
    requires OpenAll(objects, o, r.byHash, ordered, architectures).Some?
    ensures Pending(o, inspected, OpenAll(objects, o, r.byHash, ordered, architectures).value)
    ensures AllFilled(objects, o, r, inspected, OpenAll(objects, o, r.byHash, ordered, architectures).value)
    decreases |architectures|
  {
    if architectures != [] {
      var front, last := architectures[..|architectures| - 1], architectures[|architectures| - 1];
      OpenAllFilled(objects, o, r, ordered, front, inspected);
      OpenFilled(objects, o, r, OpenAll(objects, o, r.byHash, ordered, front).value, last, inspected);
    }
  }

  lemma OpenedFilled(objects: map<string, Doc>, o: UploadOptions, r: ReleaseState, ordered: seq<ManifestState>, architecture: string,
                     inspected: seq<Option<Package>>)
    requires Pending(o, inspected, ordered) && AllFilled(objects, o, r, inspected, ordered)
    requires OpenedFor(objects, o, r, ordered, architecture).Some?
    ensures AllFilled(objects, o, r, inspected, OpenedFor(objects, o, r, ordered, architecture).value)
  {
    if architecture == "all" && |ordered| == 0 {
      OpenAllFilled(objects, o, r, ordered, SeedArchitectures(r), inspected);
      OpenFilled(objects, o, r, OpenAll(objects, o, r.byHash, ordered, SeedArchitectures(r)).value, architecture, inspected);
    } else {
      OpenFilled(objects, o, r, ordered, architecture, inspected);
    }
  }

  lemma PlaceFilled(objects: map<string, Doc>, o: UploadOptions, r: ReleaseState, fan: Fan, inspected: seq<Option<Package>>, p: Package)
    requires Pending(o, inspected, fan.ordered) && AllFilled(objects, o, r, inspected, fan.ordered)
    requires PlaceOne(objects, o, r, fan, p).Some?
    ensures AllFilled(objects, o, r, inspected + [Some(p)], PlaceOne(objects, o, r, fan, p).value.ordered)
  {
    var a := PlacedIn(o, p).value;
    OpenedKeeps(objects, o, r, fan.ordered, a, inspected);
    OpenedFilled(objects, o, r, fan.ordered, a, inspected);
    var ready := OpenedFor(objects, o, r, fan.ordered, a).value;
    ReplacedFilled(objects, o, r, inspected, ready, Position(ready, a), p);
  }

  lemma ReplacedFilled(objects: map<string, Doc>, o: UploadOptions, r: ReleaseState, inspected: seq<Option<Package>>,
                       ready: seq<ManifestState>, i: nat, p: Package)
    requires AllFilled(objects, o, r, inspected, ready) && DistinctArchitectures(ready)
    requires i < |ready| && Target(o, p) == ready[i].architecture && AddTo(ready[i], p, o.preserveVersions, true).Ok?
    ensures AllFilled(objects, o, r, inspected + [Some(p)], ready[i := AddTo(ready[i], p, o.preserveVersions, true).value])
  {
    var after := ready[i := AddTo(ready[i], p, o.preserveVersions, true).value];
    forall k | 0 <= k < |after| ensures Filled(objects, o, r, inspected + [Some(p)], after[k]) {
      var a := ready[k].architecture;
      assert Filled(objects, o, r, inspected, ready[k]) && after[k].architecture == a;
      PlacedMore(o, inspected, p, a);
      var placed := PlacedList(o, inspected, a);
      if k == i {
        assert (placed + [p])[..|placed|] == placed;
      } else {
        assert a != ready[i].architecture && placed + [] == placed;
      }
    }
  }

  lemma {:induction false} PlaceAllFilled(objects: map<string, Doc>, o: UploadOptions, r: ReleaseState, inspected: seq<Option<Package>>)
    requires PlaceAll(objects, o, r, inspected).Some?
    ensures AllFilled(objects, o, r, inspected, PlaceAll(objects, o, r, inspected).value.ordered)
  {
    if inspected == [] {
      OpenAllFilled(objects, o, r, [], r.architectures, []);
    } else {
      var front, last := inspected[..|inspected| - 1], inspected[|inspected| - 1];
      assert inspected == front + [last];
      PlaceAllNext(objects, o, r, front, last);
      PlaceAllKeeps(objects, o, r, front);
      PlaceAllFilled(objects, o, r, front);
      PlaceFilled(objects, o, r, PlaceAll(objects, o, r, front).value, front, last.value);
    }
  }

  /** What an upload adds to an architecture: the packages placed in it, and the architecture-independent ones after them. */
  function Batch(o: UploadOptions, inspected: seq<Option<Package>>, architecture: string): seq<Package>
  {
    PlacedList(o, inspected, architecture) + (if architecture == "all" then [] else PlacedList(o, inspected, "all"))
  }

  lemma PropagatedAdded(m: ManifestState, common: seq<Package>, preserveVersions: bool)
    requires Propagated(m, common, preserveVersions).Some?
    ensures var after := Propagated(m, common, preserveVersions).value;
            after == m.(packages := Added(m.packages, if m.architecture == "all" then [] else common, preserveVersions))
  {
    if m.architecture != "all" {
      AddCommonAdded(m, common, preserveVersions);
      AddCommonPending(m, common, preserveVersions);
    }
  }

  /**
   An upload's manifests have distinct architectures, and each has exactly the packages
   placed in it pending. Each holds exactly the packages of its batch that no later one
   of it displaces, and the stored ones that none displaces: every package is in its own
   architecture's index, and every architecture-independent one in all of them, also
   when they were opened after the package was placed.
   */
  lemma FanOutComplete(objects: map<string, Doc>, o: UploadOptions, r: ReleaseState, inspected: seq<Option<Package>>, i: nat)
    requires UploadManifests(objects, o, r, inspected).Some?
    requires i < |UploadManifests(objects, o, r, inspected).value|
    ensures var ms := UploadManifests(objects, o, r, inspected).value;
            var a := ms[i].architecture;
            && DistinctArchitectures(ms)
            && ms[i].pendingUploads == PlacedList(o, inspected, a)
            && ms[i].packages == Added(StoredIn(objects, o, r, a), Batch(o, inspected, a), o.preserveVersions)
            && forall p :: p in ms[i].packages <==> BatchMember(StoredIn(objects, o, r, a), Batch(o, inspected, a), o.preserveVersions, p)
  {
    PlaceAllKeeps(objects, o, r, inspected);
    PlaceAllFilled(objects, o, r, inspected);
    var fan := PlaceAll(objects, o, r, inspected).value;
    var ms := UploadManifests(objects, o, r, inspected).value;
    PropagatedLength(fan.ordered, fan.common, o.preserveVersions);
    forall j | 0 <= j < |ms|
      ensures ms[j].architecture == fan.ordered[j].architecture && ms[j].pendingUploads == fan.ordered[j].pendingUploads {
      KeptByPropagation(fan, o.preserveVersions, j);
    }
    FanOutPackages(objects, o, r, inspected, fan, i);
    var a := ms[i].architecture;
    forall p ensures p in ms[i].packages <==> BatchMember(StoredIn(objects, o, r, a), Batch(o, inspected, a), o.preserveVersions, p) {
      AddedMembers(StoredIn(objects, o, r, a), Batch(o, inspected, a), o.preserveVersions, p);
    }
  }

  lemma FanOutPackages(objects: map<string, Doc>, o: UploadOptions, r: ReleaseState, inspected: seq<Option<Package>>, fan: Fan, i: nat)
    requires AllFilled(objects, o, r, inspected, fan.ordered) && fan.common == PlacedList(o, inspected, "all")
    requires PropagatedAll(fan.ordered, fan.common, o.preserveVersions).Some? && i < |fan.ordered|
    ensures |PropagatedAll(fan.ordered, fan.common, o.preserveVersions).value| == |fan.ordered|
    ensures var a := fan.ordered[i].architecture;
            PropagatedAll(fan.ordered, fan.common, o.preserveVersions).value[i].packages ==
            Added(StoredIn(objects, o, r, a), Batch(o, inspected, a), o.preserveVersions)
  {
    var m := fan.ordered[i];
    var rest := if m.architecture == "all" then [] else fan.common;
    assert Filled(objects, o, r, inspected, m);
    PropagatedAt(fan.ordered, fan.common, o.preserveVersions, i);
    PropagatedAdded(m, fan.common, o.preserveVersions);
    AddedMore(StoredIn(objects, o, r, m.architecture), PlacedList(o, inspected, m.architecture), rest, o.preserveVersions);
  }

  lemma KeptByPropagation(fan: Fan, preserveVersions: bool, j: nat)
    requires PropagatedAll(fan.ordered, fan.common, preserveVersions).Some? && j < |fan.ordered|
    ensures |PropagatedAll(fan.ordered, fan.common, preserveVersions).value| == |fan.ordered|
    ensures var m := PropagatedAll(fan.ordered, fan.common, preserveVersions).value[j];
            m.architecture == fan.ordered[j].architecture && m.pendingUploads == fan.ordered[j].pendingUploads
  {
    PropagatedAt(fan.ordered, fan.common, preserveVersions, j);
    var m := fan.ordered[j];
    if m.architecture != "all" { AddCommonPending(m, fan.common, preserveVersions); }
  }

  // --------------------------------------------------- which manifests there are

  function Architectures(ms: seq<ManifestState>): (architectures: seq<string>)
    ensures |architectures| == |ms|
    ensures forall i :: 0 <= i < |ms| ==> architectures[i] == ms[i].architecture
  {
    if ms == [] then [] else Architectures(ms[..|ms| - 1]) + [ms[|ms| - 1].architecture]
  }

  /** The architectures an upload needs, in order, repetitions included; the usual ones come first if there is nothing to go by. */
  function Needed(o: UploadOptions, r: ReleaseState, inspected: seq<Option<Package>>): seq<string>
  {
    if inspected == [] then r.architectures
    else
      var last := inspected[|inspected| - 1];
      var before := Needed(o, r, inspected[..|inspected| - 1]);
      if last.None? then before
      else
        var usual := if before == [] && Target(o, last.value) == "all" then ["amd64", "i386", "armhf", "arm64"] else [];
        before + usual + [Target(o, last.value)]
  }

  /** The values of a list after others, each once. */
  function Once(seen: seq<string>, values: seq<string>): seq<string>
  {
    if values == [] then seen else AppendUnique(Once(seen, values[..|values| - 1]), values[|values| - 1])
  }

  lemma {:induction false} OnceConcat(seen: seq<string>, a: seq<string>, b: seq<string>)
    ensures Once(seen, a + b) == Once(Once(seen, a), b)
    decreases |b|
  {
    if b == [] {
      assert a + b == a;
    } else {
      assert (a + b)[..|a + b| - 1] == a + b[..|b| - 1];
      OnceConcat(seen, a, b[..|b| - 1]);
    }
  }

  lemma OnceOne(seen: seq<string>, value: string)
    ensures Once(seen, [value]) == AppendUnique(seen, value)
  {
    assert [value][..0] == [];
  }

  lemma {:induction false} OnceSome(seen: seq<string>, values: seq<string>)
    ensures Once(seen, values) == [] <==> seen == [] && values == []
  {
    if values != [] { OnceSome(seen, values[..|values| - 1]); }
  }

  lemma PositionFound(ordered: seq<ManifestState>, architecture: string)
    ensures Position(ordered, architecture) < |ordered| <==> architecture in Architectures(ordered)
  {
    PositionFirst(ordered, architecture);
  }

  lemma OpenArchitectures(objects: map<string, Doc>, o: UploadOptions, byHash: bool, ordered: seq<ManifestState>, architecture: string)
    requires Open(objects, o, byHash, ordered, architecture).Some?
    ensures Architectures(Open(objects, o, byHash, ordered, architecture).value) == AppendUnique(Architectures(ordered), architecture)
  {
    PositionFound(ordered, architecture);
    if Position(ordered, architecture) == |ordered| {
      var ready := Open(objects, o, byHash, ordered, architecture).value;
      assert ready[..|ready| - 1] == ordered;
    }
  }

  lemma {:induction false} OpenAllArchitectures(objects: map<string, Doc>, o: UploadOptions, byHash: bool, ordered: seq<ManifestState>,
                                                architectures: seq<string>)
    requires OpenAll(objects, o, byHash, ordered, architectures).Some?
    ensures Architectures(OpenAll(objects, o, byHash, ordered, architectures).value) == Once(Architectures(ordered), architectures)
    decreases |architectures|
  {
    if architectures != [] {
      var front := architectures[..|architectures| - 1];
      OpenAllArchitectures(objects, o, byHash, ordered, front);
      OpenArchitectures(objects, o, byHash, OpenAll(objects, o, byHash, ordered, front).value, architectures[|architectures| - 1]);
    }
  }

  lemma OpenedArchitectures(objects: map<string, Doc>, o: UploadOptions, r: ReleaseState, ordered: seq<ManifestState>, architecture: string)
    requires OpenedFor(objects, o, r, ordered, architecture).Some? && (ordered == [] ==> r.architectures == [])
    ensures var usual := if ordered == [] && architecture == "all" then ["amd64", "i386", "armhf", "arm64"] else [];
            Architectures(OpenedFor(objects, o, r, ordered, architecture).value) == Once(Architectures(ordered), usual + [architecture])
  {
    if architecture == "all" && |ordered| == 0 {
      OpenAllArchitectures(objects, o, r.byHash, ordered, SeedArchitectures(r));
      OpenArchitectures(objects, o, r.byHash, OpenAll(objects, o, r.byHash, ordered, SeedArchitectures(r)).value, architecture);
      OnceConcat(Architectures(ordered), SeedArchitectures(r), [architecture]);
      OnceOne(Once(Architectures(ordered), SeedArchitectures(r)), architecture);
    } else {
      OpenArchitectures(objects, o, r.byHash, ordered, architecture);
      OnceOne(Architectures(ordered), architecture);
      assert [] + [architecture] == [architecture];
    }
  }

  lemma PlacedArchitectures(objects: map<string, Doc>, o: UploadOptions, r: ReleaseState, fan: Fan, p: Package)
    requires PlaceOne(objects, o, r, fan, p).Some? && (fan.ordered == [] ==> r.architectures == [])
    ensures var usual := if fan.ordered == [] && Target(o, p) == "all" then ["amd64", "i386", "armhf", "arm64"] else [];
            Architectures(PlaceOne(objects, o, r, fan, p).value.ordered) == Once(Architectures(fan.ordered), usual + [Target(o, p)])
  {
    PlacedWhere(objects, o, r, fan, p);
    OpenedArchitectures(objects, o, r, fan.ordered, Target(o, p));
    var ready := OpenedFor(objects, o, r, fan.ordered, Target(o, p)).value;
    var i := Position(ready, Target(o, p));
    ReplacedArchitectures(ready, i, AddTo(ready[i], p, o.preserveVersions, true).value);
  }

  lemma PlacedWhere(objects: map<string, Doc>, o: UploadOptions, r: ReleaseState, fan: Fan, p: Package)
    requires PlaceOne(objects, o, r, fan, p).Some?
    ensures OpenedFor(objects, o, r, fan.ordered, Target(o, p)).Some?
    ensures var ready := OpenedFor(objects, o, r, fan.ordered, Target(o, p)).value;
            var i := Position(ready, Target(o, p));
            && i < |ready| && AddTo(ready[i], p, o.preserveVersions, true).Ok?
            && PlaceOne(objects, o, r, fan, p).value.ordered == ready[i := AddTo(ready[i], p, o.preserveVersions, true).value]
  {
  }

  lemma ReplacedArchitectures(ready: seq<ManifestState>, i: nat, m: ManifestState)
    requires i < |ready| && m.architecture == ready[i].architecture
    ensures Architectures(ready[i := m]) == Architectures(ready)
  {
  }

  lemma {:induction false} AllArchitectures(objects: map<string, Doc>, o: UploadOptions, r: ReleaseState, inspected: seq<Option<Package>>)
    requires PlaceAll(objects, o, r, inspected).Some?
    ensures Architectures(PlaceAll(objects, o, r, inspected).value.ordered) == Once([], Needed(o, r, inspected))
    ensures Needed(o, r, inspected) == [] ==> r.architectures == []
  {
    if inspected == [] {
      OpenAllArchitectures(objects, o, r.byHash, [], r.architectures);
    } else {
      var front, last := inspected[..|inspected| - 1], inspected[|inspected| - 1];
      assert inspected == front + [last];
      AllArchitectures(objects, o, r, front);
      PlaceAllNext(objects, o, r, front, last);
      var fan := PlaceAll(objects, o, r, front).value;
      OnceSome([], Needed(o, r, front));
      PlacedArchitectures(objects, o, r, fan, last.value);
      var usual := if fan.ordered == [] && Target(o, last.value) == "all" then ["amd64", "i386", "armhf", "arm64"] else [];
      OnceConcat([], Needed(o, r, front), usual + [Target(o, last.value)]);
      assert Needed(o, r, front) + usual + [Target(o, last.value)] == Needed(o, r, front) + (usual + [Target(o, last.value)]);
    }
  }

  /** An upload publishes exactly the manifests of the architectures it needs, each once, in that order. */
  lemma FanOutOpens(objects: map<string, Doc>, o: UploadOptions, r: ReleaseState, inspected: seq<Option<Package>>)
    requires UploadManifests(objects, o, r, inspected).Some?
    ensures Architectures(UploadManifests(objects, o, r, inspected).value) == Once([], Needed(o, r, inspected))
  {
    AllArchitectures(objects, o, r, inspected);
    var fan := PlaceAll(objects, o, r, inspected).value;
    PropagatedLength(fan.ordered, fan.common, o.preserveVersions);
    forall i | 0 <= i < |fan.ordered|
      ensures UploadManifests(objects, o, r, inspected).value[i].architecture == fan.ordered[i].architecture {
      KeptByPropagation(fan, o.preserveVersions, i);
    }
  }

  /** A package that may be placed: an architecture is known, and a concrete one is not overridden by another. */
  predicate Suits(o: UploadOptions, p: Option<Package>)
  {
    && p.Some? && Target(o, p.value) != ""
    && (o.architecture.Some? ==> p.value.architecture in {"", "all", Target(o, p.value)})
  }

  ghost predicate AllSuit(o: UploadOptions, inspected: seq<Option<Package>>)
  {
    forall i :: 0 <= i < |inspected| ==> Suits(o, inspected[i])
  }

  predicate CanRead(objects: map<string, Doc>, o: UploadOptions, r: ReleaseState, architecture: string)
  {
    ManifestRead(objects, Slot(o.codename, o.component, architecture, r.byHash), o.failIfExists, o.skipPackageUpload).Some?
  }

  /** The stored indices of these architectures can be read. */
  ghost predicate AllReadable(objects: map<string, Doc>, o: UploadOptions, r: ReleaseState, architectures: seq<string>)
  {
    forall i :: 0 <= i < |architectures| ==> CanRead(objects, o, r, architectures[i])
  }

  lemma ReadableParts(objects: map<string, Doc>, o: UploadOptions, r: ReleaseState, a: seq<string>, b: seq<string>)
    requires AllReadable(objects, o, r, a + b)
    ensures AllReadable(objects, o, r, a) && AllReadable(objects, o, r, b)
  {
    forall i | 0 <= i < |a| ensures CanRead(objects, o, r, a[i]) { assert (a + b)[i] == a[i]; }
    forall i | 0 <= i < |b| ensures CanRead(objects, o, r, b[i]) { assert (a + b)[|a| + i] == b[i]; }
  }

  lemma {:induction false} OpensAll(objects: map<string, Doc>, o: UploadOptions, r: ReleaseState, ordered: seq<ManifestState>,
                                    architectures: seq<string>)
    requires AllReadable(objects, o, r, architectures)
    ensures OpenAll(objects, o, r.byHash, ordered, architectures).Some?
    decreases |architectures|
  {
    if architectures != [] {
      assert CanRead(objects, o, r, architectures[|architectures| - 1]);
      OpensAll(objects, o, r, ordered, architectures[..|architectures| - 1]);
    }
  }

  lemma OpensNeeded(objects: map<string, Doc>, o: UploadOptions, r: ReleaseState, ordered: seq<ManifestState>, p: Package)
    requires ordered == [] ==> r.architectures == []
    requires var usual := if ordered == [] && Target(o, p) == "all" then ["amd64", "i386", "armhf", "arm64"] else [];
             AllReadable(objects, o, r, usual + [Target(o, p)])
    ensures OpenedFor(objects, o, r, ordered, Target(o, p)).Some?
    ensures Position(OpenedFor(objects, o, r, ordered, Target(o, p)).value, Target(o, p)) < |OpenedFor(objects, o, r, ordered, Target(o, p)).value|
  {
    var a := Target(o, p);
    var usual := if ordered == [] && a == "all" then ["amd64", "i386", "armhf", "arm64"] else [];
    ReadableParts(objects, o, r, usual, [a]);
    assert CanRead(objects, o, r, [a][0]);
    if usual != [] { OpensAll(objects, o, r, ordered, SeedArchitectures(r)); }
    var ready := OpenedFor(objects, o, r, ordered, a).value;
    OpenedArchitectures(objects, o, r, ordered, a);
    OnceConcat(Architectures(ordered), usual, [a]);
    OnceOne(Once(Architectures(ordered), usual), a);
    PositionFound(ready, a);
  }

  // --------------------------------------------------------------- their settings

  /** A manifest of the upload's component, with its settings. */
  predicate Alike(o: UploadOptions, r: ReleaseState, m: ManifestState)
  {
    && m.codename == o.codename && m.component == o.component && m.byHash == r.byHash
    && m.failIfExists == o.failIfExists && m.skipPackageUpload == o.skipPackageUpload
  }

  ghost predicate AllAlike(o: UploadOptions, r: ReleaseState, ms: seq<ManifestState>)
  {
    forall i :: 0 <= i < |ms| ==> Alike(o, r, ms[i])
  }

  lemma OpenAlike(objects: map<string, Doc>, o: UploadOptions, r: ReleaseState, ordered: seq<ManifestState>, architecture: string)
    requires AllAlike(o, r, ordered) && Open(objects, o, r.byHash, ordered, architecture).Some?
    ensures AllAlike(o, r, Open(objects, o, r.byHash, ordered, architecture).value)
  {
  }

  lemma {:induction false} OpenAllAlike(objects: map<string, Doc>, o: UploadOptions, r: ReleaseState, ordered: seq<ManifestState>,
                                        architectures: seq<string>)
    requires AllAlike(o, r, ordered) && OpenAll(objects, o, r.byHash, ordered, architectures).Some?
    ensures AllAlike(o, r, OpenAll(objects, o, r.byHash, ordered, architectures).value)
    decreases |architectures|
  {
    if architectures != [] {
      var front := architectures[..|architectures| - 1];
      OpenAllAlike(objects, o, r, ordered, front);
      OpenAlike(objects, o, r, OpenAll(objects, o, r.byHash, ordered, front).value, architectures[|architectures| - 1]);
    }
  }

  lemma OpenedAlike(objects: map<string, Doc>, o: UploadOptions, r: ReleaseState, ordered: seq<ManifestState>, architecture: string)
    requires AllAlike(o, r, ordered) && OpenedFor(objects, o, r, ordered, architecture).Some?
    ensures AllAlike(o, r, OpenedFor(objects, o, r, ordered, architecture).value)
  {
    if architecture == "all" && |ordered| == 0 {
      OpenAllAlike(objects, o, r, ordered, SeedArchitectures(r));
      OpenAlike(objects, o, r, OpenAll(objects, o, r.byHash, ordered, SeedArchitectures(r)).value, architecture);
    } else {
      OpenAlike(objects, o, r, ordered, architecture);
    }
  }

  lemma PlaceAlike(objects: map<string, Doc>, o: UploadOptions, r: ReleaseState, fan: Fan, p: Package)
    requires AllAlike(o, r, fan.ordered) && PlaceOne(objects, o, r, fan, p).Some?
    ensures AllAlike(o, r, PlaceOne(objects, o, r, fan, p).value.ordered)
  {
    var a := PlacedIn(o, p).value;
    OpenedAlike(objects, o, r, fan.ordered, a);
    var ready := OpenedFor(objects, o, r, fan.ordered, a).value;
    assert Alike(o, r, ready[Position(ready, a)]);
  }

  lemma {:induction false} PlaceAllAlike(objects: map<string, Doc>, o: UploadOptions, r: ReleaseState, inspected: seq<Option<Package>>)
    requires PlaceAll(objects, o, r, inspected).Some?
    ensures AllAlike(o, r, PlaceAll(objects, o, r, inspected).value.ordered)
  {
    if inspected == [] {
      OpenAllAlike(objects, o, r, [], r.architectures);
    } else {
      var front, last := inspected[..|inspected| - 1], inspected[|inspected| - 1];
      assert inspected == front + [last];
      PlaceAllAlike(objects, o, r, front);
      PlaceAllNext(objects, o, r, front, last);
      PlaceAlike(objects, o, r, PlaceAll(objects, o, r, front).value, last.value);
    }
  }

  lemma FanOutAlike(objects: map<string, Doc>, o: UploadOptions, r: ReleaseState, inspected: seq<Option<Package>>)
    requires UploadManifests(objects, o, r, inspected).Some?
    ensures AllAlike(o, r, UploadManifests(objects, o, r, inspected).value)
  {
    PlaceAllAlike(objects, o, r, inspected);
    var fan := PlaceAll(objects, o, r, inspected).value;
    PropagatedLength(fan.ordered, fan.common, o.preserveVersions);
    forall i | 0 <= i < |fan.ordered| ensures Alike(o, r, UploadManifests(objects, o, r, inspected).value[i]) {
      PropagatedAt(fan.ordered, fan.common, o.preserveVersions, i);
      assert Alike(o, r, fan.ordered[i]);
      if fan.ordered[i].architecture != "all" { AddCommonPending(fan.ordered[i], fan.common, o.preserveVersions); }
    }
  }

  // ------------------------------------------------------------- when it succeeds

  lemma PlacesOne(objects: map<string, Doc>, o: UploadOptions, r: ReleaseState, fan: Fan, p: Package)
    requires !o.failIfExists && (fan.ordered == [] ==> r.architectures == []) && AllAlike(o, r, fan.ordered)
    requires var usual := if fan.ordered == [] && Target(o, p) == "all" then ["amd64", "i386", "armhf", "arm64"] else [];
             AllReadable(objects, o, r, usual + [Target(o, p)])
    ensures PlaceOne(objects, o, r, fan, p).Some? <==> Suits(o, Some(p))
  {
    OpensNeeded(objects, o, r, fan.ordered, p);
    var ready := OpenedFor(objects, o, r, fan.ordered, Target(o, p)).value;
    OpenedAlike(objects, o, r, fan.ordered, Target(o, p));
    assert Alike(o, r, ready[Position(ready, Target(o, p))]);
  }

  lemma {:induction false} PlacesAll(objects: map<string, Doc>, o: UploadOptions, r: ReleaseState, inspected: seq<Option<Package>>)
    requires !o.failIfExists && AllReadable(objects, o, r, Needed(o, r, inspected))
    ensures PlaceAll(objects, o, r, inspected).Some? <==> AllSuit(o, inspected)
  {
    if inspected == [] {
      OpensAll(objects, o, r, [], r.architectures);
    } else {
      var front, last := inspected[..|inspected| - 1], inspected[|inspected| - 1];
      assert inspected == front + [last];
      SuitMore(o, front, last);
      NeededParts(objects, o, r, front, last);
      PlacesAll(objects, o, r, front);
      if AllSuit(o, front) && last.Some? {
        var fan := PlaceAll(objects, o, r, front).value;
        AllArchitectures(objects, o, r, front);
        OnceSome([], Needed(o, r, front));
        PlaceAllAlike(objects, o, r, front);
        PlacesOne(objects, o, r, fan, last.value);
      }
    }
  }

  lemma SuitMore(o: UploadOptions, front: seq<Option<Package>>, last: Option<Package>)
    ensures AllSuit(o, front + [last]) <==> AllSuit(o, front) && Suits(o, last)
  {
    var whole := front + [last];
    assert whole[|front|] == last;
    if AllSuit(o, whole) {
      forall i | 0 <= i < |front| ensures Suits(o, front[i]) { assert whole[i] == front[i]; }
    }
  }

  lemma NeededParts(objects: map<string, Doc>, o: UploadOptions, r: ReleaseState, front: seq<Option<Package>>, last: Option<Package>)
    requires AllReadable(objects, o, r, Needed(o, r, front + [last]))
    ensures AllReadable(objects, o, r, Needed(o, r, front))
    ensures last.Some? ==>
              var usual := if Needed(o, r, front) == [] && Target(o, last.value) == "all" then ["amd64", "i386", "armhf", "arm64"] else [];
              AllReadable(objects, o, r, usual + [Target(o, last.value)])
  {
    assert (front + [last])[..|front|] == front;
    if last.Some? {
      var before := Needed(o, r, front);
      var usual := if before == [] && Target(o, last.value) == "all" then ["amd64", "i386", "armhf", "arm64"] else [];
      assert before + usual + [Target(o, last.value)] == before + (usual + [Target(o, last.value)]);
      ReadableParts(objects, o, r, before, usual + [Target(o, last.value)]);
    }
  }

  lemma {:induction false} AddsAll(m: ManifestState, common: seq<Package>, preserveVersions: bool)
    requires !m.failIfExists
    ensures AddCommon(m, common, preserveVersions).Some?
    decreases |common|
  {
    if common != [] {
      AddsAll(m, common[..|common| - 1], preserveVersions);
      AddCommonPending(m, common[..|common| - 1], preserveVersions);
    }
  }

  lemma {:induction false} PropagatesAll(o: UploadOptions, r: ReleaseState, ms: seq<ManifestState>, common: seq<Package>)
    requires !o.failIfExists && AllAlike(o, r, ms)
    ensures PropagatedAll(ms, common, o.preserveVersions).Some?
  {
    if ms != [] {
      var front, last := ms[..|ms| - 1], ms[|ms| - 1];
      assert AllAlike(o, r, front) && Alike(o, r, last);
      PropagatesAll(o, r, front, common);
      AddsAll(last, common, o.preserveVersions);
    }
  }

  /**
   Where existing entries may be replaced and stored indices can be read, an upload goes
   ahead exactly when every file was inspected and every package suits the architecture
   it is placed in.
   */
  lemma FanOutSucceeds(objects: map<string, Doc>, o: UploadOptions, r: ReleaseState, inspected: seq<Option<Package>>)
    requires !o.failIfExists && AllReadable(objects, o, r, Needed(o, r, inspected))
    ensures UploadManifests(objects, o, r, inspected).Some? <==> AllSuit(o, inspected)
  {
    PlacesAll(objects, o, r, inspected);
    if AllSuit(o, inspected) {
      PlaceAllAlike(objects, o, r, inspected);
      var fan := PlaceAll(objects, o, r, inspected).value;
      PropagatesAll(o, r, fan.ordered, fan.common);
    }
  }

  /** With existing entries protected or not, it goes ahead only then. */
  lemma {:induction false} FanOutSuits(objects: map<string, Doc>, o: UploadOptions, r: ReleaseState, inspected: seq<Option<Package>>)
    requires PlaceAll(objects, o, r, inspected).Some?
    ensures AllSuit(o, inspected)
  {
    if inspected != [] {
      var front, last := inspected[..|inspected| - 1], inspected[|inspected| - 1];
      assert inspected == front + [last];
      PlaceAllNext(objects, o, r, front, last);
      FanOutSuits(objects, o, r, front);
      SuitMore(o, front, last);
    }
  }

  // -------------------------------------------------------------- protected entries

  /** A stored entry that would be replaced first by a package of its own version has that package's file name. */
  ghost predicate Protected(stored: seq<Package>, batch: seq<Package>, codename: string)
  {
    forall k, q :: 0 <= k < |batch| && q in stored && SameVersion(q, batch[k]) && FirstOfName(batch, k) ==> SameFile(q, batch[k], codename)
  }

  predicate FirstOfName(batch: seq<Package>, k: nat)
    requires k < |batch|
  {
    forall j :: 0 <= j < k ==> batch[j].name != batch[k].name
  }

  lemma FirstKept(batch: seq<Package>, p: Package, k: nat)
    requires k < |batch|
    ensures FirstOfName(batch + [p], k) <==> FirstOfName(batch, k)
  {
    var whole := batch + [p];
    assert forall j :: 0 <= j < |batch| ==> whole[j] == batch[j];
  }

  /** An entry none of whose name was added is still there. */
  lemma StillThere(stored: seq<Package>, batch: seq<Package>, preserveVersions: bool, q: Package)
    requires q in stored && forall j :: 0 <= j < |batch| ==> batch[j].name != q.name
    ensures q in Added(stored, batch, preserveVersions)
  {
    AddedMembers(stored, batch, preserveVersions, q);
    assert !DisplacedAfter(batch, -1, preserveVersions, q);
  }

  lemma AddedProtects(m: ManifestState, stored: seq<Package>, batch: seq<Package>, p: Package, preserveVersions: bool, needsUploading: bool)
    requires m.packages == Added(stored, batch, preserveVersions) && m.failIfExists && AddTo(m, p, preserveVersions, needsUploading).Ok?
    requires Protected(stored, batch, m.codename)
    ensures Protected(stored, batch + [p], m.codename)
  {
    var whole := batch + [p];
    ConflictExact(m, p, preserveVersions, needsUploading);
    forall k, q | 0 <= k < |whole| && q in stored && SameVersion(q, whole[k]) && FirstOfName(whole, k)
      ensures SameFile(q, whole[k], m.codename) {
      if k < |batch| {
        assert whole[k] == batch[k];
        FirstKept(batch, p, k);
      } else {
        assert forall j :: 0 <= j < |batch| ==> whole[j] == batch[j];
        StillThere(stored, batch, preserveVersions, q);
      }
    }
  }

  lemma {:induction false} CommonProtects(m: ManifestState, stored: seq<Package>, done: seq<Package>, common: seq<Package>, preserveVersions: bool)
    requires m.packages == Added(stored, done, preserveVersions) && m.failIfExists && AddCommon(m, common, preserveVersions).Some?
    requires Protected(stored, done, m.codename)
    ensures Protected(stored, done + common, m.codename)
    decreases |common|
  {
    if common == [] {
      assert done + common == done;
    } else {
      var front, last := common[..|common| - 1], common[|common| - 1];
      CommonProtects(m, stored, done, front, preserveVersions);
      var before := AddCommon(m, front, preserveVersions).value;
      AddCommonPending(m, front, preserveVersions);
      AddCommonAdded(m, front, preserveVersions);
      AddedMore(stored, done, front, preserveVersions);
      AddedProtects(before, stored, done + front, last, preserveVersions, false);
      assert done + common == done + front + [last];
    }
  }

  lemma PlaceProtects(objects: map<string, Doc>, o: UploadOptions, r: ReleaseState, fan: Fan, inspected: seq<Option<Package>>, p: Package)
    requires o.failIfExists && Pending(o, inspected, fan.ordered) && AllFilled(objects, o, r, inspected, fan.ordered) && AllAlike(o, r, fan.ordered)
    requires PlaceOne(objects, o, r, fan, p).Some?
    requires Protected(StoredIn(objects, o, r, Target(o, p)), PlacedList(o, inspected, Target(o, p)), o.codename)
    ensures Protected(StoredIn(objects, o, r, Target(o, p)), PlacedList(o, inspected + [Some(p)], Target(o, p)), o.codename)
  {
    var a := Target(o, p);
    PlacedWhere(objects, o, r, fan, p);
    OpenedFilled(objects, o, r, fan.ordered, a, inspected);
    OpenedAlike(objects, o, r, fan.ordered, a);
    var ready := OpenedFor(objects, o, r, fan.ordered, a).value;
    var m := ready[Position(ready, a)];
    assert Filled(objects, o, r, inspected, m) && Alike(o, r, m);
    AddedProtects(m, StoredIn(objects, o, r, a), PlacedList(o, inspected, a), p, o.preserveVersions, true);
    PlacedMore(o, inspected, p, a);
  }

  lemma {:induction false} PlaceAllProtects(objects: map<string, Doc>, o: UploadOptions, r: ReleaseState, inspected: seq<Option<Package>>, a: string)
    requires o.failIfExists && PlaceAll(objects, o, r, inspected).Some?
    ensures Protected(StoredIn(objects, o, r, a), PlacedList(o, inspected, a), o.codename)
  {
    if inspected != [] {
      var front, last := inspected[..|inspected| - 1], inspected[|inspected| - 1];
      assert inspected == front + [last];
      PlaceAllNext(objects, o, r, front, last);
      PlaceAllProtects(objects, o, r, front, a);
      NextProtects(objects, o, r, front, last.value, a);
    }
  }

  lemma NextProtects(objects: map<string, Doc>, o: UploadOptions, r: ReleaseState, front: seq<Option<Package>>, p: Package, a: string)
    requires o.failIfExists && PlaceAll(objects, o, r, front).Some? && PlaceOne(objects, o, r, PlaceAll(objects, o, r, front).value, p).Some?
    requires Protected(StoredIn(objects, o, r, a), PlacedList(o, front, a), o.codename)
    ensures Protected(StoredIn(objects, o, r, a), PlacedList(o, front + [Some(p)], a), o.codename)
  {
    if Target(o, p) == a {
      PlaceAllKeeps(objects, o, r, front);
      PlaceAllFilled(objects, o, r, front);
      PlaceAllAlike(objects, o, r, front);
      PlaceProtects(objects, o, r, PlaceAll(objects, o, r, front).value, front, p);
    } else {
      PlacedMore(o, front, p, a);
      assert PlacedList(o, front, a) + [] == PlacedList(o, front, a);
    }
  }

  /**
   Where existing entries are protected, an upload goes ahead only if each stored entry,
   in the index of every architecture the upload needs, has the file name of the first
   package of its name there, if that has its version.
   */
  lemma FanOutProtects(objects: map<string, Doc>, o: UploadOptions, r: ReleaseState, inspected: seq<Option<Package>>, a: string)
    requires o.failIfExists && UploadManifests(objects, o, r, inspected).Some? && a in Once([], Needed(o, r, inspected))
    ensures Protected(StoredIn(objects, o, r, a), Batch(o, inspected, a), o.codename)
  {
    PlaceAllProtects(objects, o, r, inspected, a);
    PlaceAllKeeps(objects, o, r, inspected);
    PlaceAllFilled(objects, o, r, inspected);
    PlaceAllAlike(objects, o, r, inspected);
    AllArchitectures(objects, o, r, inspected);
    var fan := PlaceAll(objects, o, r, inspected).value;
    var i :| 0 <= i < |fan.ordered| && Architectures(fan.ordered)[i] == a;
    ManifestProtects(objects, o, r, inspected, fan, i);
  }

  lemma ManifestProtects(objects: map<string, Doc>, o: UploadOptions, r: ReleaseState, inspected: seq<Option<Package>>, fan: Fan, i: nat)
    requires o.failIfExists && AllFilled(objects, o, r, inspected, fan.ordered) && AllAlike(o, r, fan.ordered) && i < |fan.ordered|
    requires fan.common == PlacedList(o, inspected, "all") && PropagatedAll(fan.ordered, fan.common, o.preserveVersions).Some?
    requires var a := fan.ordered[i].architecture; Protected(StoredIn(objects, o, r, a), PlacedList(o, inspected, a), o.codename)
    ensures var a := fan.ordered[i].architecture; Protected(StoredIn(objects, o, r, a), Batch(o, inspected, a), o.codename)
  {
    var m := fan.ordered[i];
    var placed := PlacedList(o, inspected, m.architecture);
    assert Filled(objects, o, r, inspected, m) && Alike(o, r, m);
    PropagatedAt(fan.ordered, fan.common, o.preserveVersions, i);
    if m.architecture == "all" {
      assert placed + [] == placed;
    } else {
      CommonProtects(m, StoredIn(objects, o, r, m.architecture), placed, fan.common, o.preserveVersions);
    }
  }
}
