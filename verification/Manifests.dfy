/** Packages manifests: the list of packages of one codename, component and architecture. */
module Manifests {
  import opened Text
  import opened Paths
  import opened Versions
  import opened Packages
  import opened Documents

  datatype ManifestState = ManifestState(
    codename: string,
    component: string,
    architecture: string,
    byHash: bool,
    failIfExists: bool,
    skipPackageUpload: bool,
    packages: seq<Package>,
    pendingUploads: seq<Package>,
    files: map<string, FileHashes>)

  datatype ManifestError = Unresolved(error: PackageError) | PackageConflict(existing: string, offered: string)

  function Identity(p: Package): (string, string)
  {
    (p.name, FullVersion(p.version))
  }

  function Filter<T>(items: seq<T>, keep: T -> bool): seq<T>
  {
    if items == [] then []
    else (if keep(items[0]) then [items[0]] else []) + Filter(items[1..], keep)
  }

  /** Whether adding a package displaces an existing one. */
  predicate Displaces(added: Package, preserveVersions: bool, existing: Package)
  {
    existing.name == added.name && (preserveVersions ==> Identity(existing) == Identity(added))
  }

  function WithPackage(packages: seq<Package>, added: Package, preserveVersions: bool): seq<Package>
  {
    Filter(packages, p => !Displaces(added, preserveVersions, p)) + [added]
  }

  /** The first conflict or unresolvable name met when existing entries must not change. */
  function Conflict(packages: seq<Package>, added: Package, codename: string): Option<ManifestError>
  {
    match RepositoryFilename(added, codename)
    case Err(e) => Some(Unresolved(e))
    case Ok(offered) => ConflictWith(packages, added, codename, offered)
  }

  function ConflictWith(packages: seq<Package>, added: Package, codename: string, offered: string): Option<ManifestError>
  {
    if packages == [] then None
    else if Identity(packages[0]) != Identity(added) then ConflictWith(packages[1..], added, codename, offered)
    else
      match RepositoryFilename(packages[0], codename)
      case Err(e) => Some(Unresolved(e))
      case Ok(existing) =>
        if Base(existing) != Base(offered) then Some(PackageConflict(existing, offered))
        else ConflictWith(packages[1..], added, codename, offered)
  }

  function AddTo(m: ManifestState, added: Package, preserveVersions: bool, needsUploading: bool): Result<ManifestState, ManifestError>
  {
    var conflict := if m.failIfExists then Conflict(m.packages, added, m.codename) else None;
    if conflict.Some? then Err(conflict.value)
    else
      Ok(m.(packages := WithPackage(m.packages, added, preserveVersions),
            pendingUploads := if needsUploading then m.pendingUploads + [added] else m.pendingUploads))
  }

  /** Whether a deletion by name and versions removes a package; no version list removes every version. */
  predicate Selected(name: string, versions: Option<seq<string>>, p: Package)
  {
    p.name == name &&
    (versions.None? ||
     p.version.version in versions.value ||
     p.version.version + "-" + p.version.iteration in versions.value ||
     FullVersion(p.version) in versions.value)
  }

  function Retained(packages: seq<Package>, name: string, versions: Option<seq<string>>): seq<Package>
  {
    Filter(packages, p => !Selected(name, versions, p))
  }

  function Deleted(packages: seq<Package>, name: string, versions: Option<seq<string>>): seq<Package>
  {
    Filter(packages, p => Selected(name, versions, p))
  }

  lemma {:induction false} FilterSnoc<T>(items: seq<T>, last: T, keep: T -> bool)
    ensures Filter(items + [last], keep) == Filter(items, keep) + (if keep(last) then [last] else [])
  {
    if items == [] {
      assert [last][1..] == [];
      assert items + [last] == [last];
    } else {
      assert (items + [last])[1..] == items[1..] + [last];
      FilterSnoc(items[1..], last, keep);
    }
  }

  lemma {:induction false} FilterMembers<T>(items: seq<T>, keep: T -> bool, p: T)
    ensures p in Filter(items, keep) <==> p in items && keep(p)
  {
    if items != [] {
      FilterMembers(items[1..], keep, p);
      assert p in items <==> p == items[0] || p in items[1..];
    }
  }

  /** A manifest as the commands hold it. */
  class Manifest {
    var codename: string
    var component: string
    var architecture: string
    var byHash: bool
    var failIfExists: bool
    var skipPackageUpload: bool
    var packages: seq<Package>
    var pendingUploads: seq<Package>
    var files: map<string, FileHashes>

    function State(): ManifestState
      reads this
    {
      ManifestState(codename, component, architecture, byHash, failIfExists, skipPackageUpload, packages, pendingUploads, files)
    }

    constructor (codename: string, component: string, architecture: string, byHash: bool, failIfExists: bool, skipPackageUpload: bool)
      ensures State() == ManifestState(codename, component, architecture, byHash, failIfExists, skipPackageUpload, [], [], map[])
    {
      this.codename, this.component, this.architecture := codename, component, architecture;
      this.byHash, this.failIfExists, this.skipPackageUpload := byHash, failIfExists, skipPackageUpload;
      packages, pendingUploads, files := [], [], map[];
    }

    method FindConflict(added: Package) returns (conflict: Option<ManifestError>)
      ensures conflict == Conflict(packages, added, codename)
    {
      var offered := RepositoryFilename(added, codename);
      if offered.Err? { return Some(Unresolved(offered.error)); }
      for i := 0 to |packages|
        invariant Conflict(packages, added, codename) == ConflictWith(packages[i..], added, codename, offered.value)
      {
        assert packages[i..][1..] == packages[i + 1..];
        if Identity(packages[i]) != Identity(added) { continue; }
        var existing := RepositoryFilename(packages[i], codename);
        if existing.Err? { return Some(Unresolved(existing.error)); }
        if Base(existing.value) != Base(offered.value) {
          return Some(PackageConflict(existing.value, offered.value));
        }
      }
      conflict := None;
    }

    method Add(added: Package, preserveVersions: bool, needsUploading: bool) returns (error: Option<ManifestError>)
      modifies this
      ensures var result := AddTo(old(State()), added, preserveVersions, needsUploading);
              if error.Some? then result == Err(error.value) && State() == old(State()) else result == Ok(State())
    {
      if failIfExists {
        error := FindConflict(added);
        if error.Some? { return; }
      }
      var retained := [];
      ghost var keep := p => !Displaces(added, preserveVersions, p);
      for i := 0 to |packages|
        invariant State() == old(State())
        invariant retained == Filter(packages[..i], keep)
      {
        FilterSnoc(packages[..i], packages[i], keep);
        assert packages[..i + 1] == packages[..i] + [packages[i]];
        var existing := packages[i];
        var replace := existing.name == added.name;
        if preserveVersions { replace := replace && Identity(existing) == Identity(added); }
        if !replace { retained := retained + [existing]; }
      }
      assert packages[..|packages|] == packages;
      packages := retained + [added];
      if needsUploading { pendingUploads := pendingUploads + [added]; }
      error := None;
    }

    method DeletePackage(name: string, versions: Option<seq<string>>) returns (deleted: seq<Package>)
      modifies this`packages
      ensures packages == Retained(old(packages), name, versions)
      ensures deleted == Deleted(old(packages), name, versions)
      ensures packages == Filter(old(packages), NotMeant(name, versions))
      ensures deleted == Filter(old(packages), Meant(name, versions))
    {
      var retained := [];
      deleted := [];
      ghost var keep, drop := p => !Selected(name, versions, p), p => Selected(name, versions, p);
      for i := 0 to |packages|
        invariant packages == old(packages)
        invariant retained == Filter(packages[..i], keep) && deleted == Filter(packages[..i], drop)
      {
        FilterSnoc(packages[..i], packages[i], keep);
        FilterSnoc(packages[..i], packages[i], drop);
        assert packages[..i + 1] == packages[..i] + [packages[i]];
        if Selected(name, versions, packages[i]) {
          deleted := deleted + [packages[i]];
        } else {
          retained := retained + [packages[i]];
        }
      }
      assert packages[..|packages|] == packages;
      DeletionExact(packages, name, versions);
      packages := retained;
    }
  }

  // ------------------------------------------------- properties of manifest edits

  ghost predicate Unique(packages: seq<Package>)
  {
    forall i, j :: 0 <= i < j < |packages| ==> Identity(packages[i]) != Identity(packages[j])
  }

  ghost predicate Subsequence<T>(a: seq<T>, b: seq<T>)
    decreases |b|
  {
    a == [] || (b != [] && ((a[0] == b[0] && Subsequence(a[1..], b[1..])) || Subsequence(a, b[1..])))
  }

  lemma {:induction false} FilterUnique(packages: seq<Package>, keep: Package -> bool)
    requires Unique(packages)
    ensures Unique(Filter(packages, keep))
  {
    if packages != [] {
      var rest := Filter(packages[1..], keep);
      FilterUnique(packages[1..], keep);
      forall j | 0 <= j < |rest| ensures Identity(packages[0]) != Identity(rest[j]) {
        FilterMembers(packages[1..], keep, rest[j]);
        var k :| 0 <= k < |packages[1..]| && packages[1..][k] == rest[j];
        assert packages[k + 1] == rest[j];
      }
    }
  }

  /** A filter and its complement partition the list, each in the list's order. */
  lemma {:induction false} FilterPartition<T>(items: seq<T>, keep: T -> bool, drop: T -> bool)
    requires forall p <- items :: drop(p) <==> !keep(p)
    ensures multiset(items) == multiset(Filter(items, keep)) + multiset(Filter(items, drop))
  {
    if items != [] {
      FilterPartition(items[1..], keep, drop);
      assert items == [items[0]] + items[1..];
    }
  }

  lemma {:induction false} FilterSubsequence<T>(items: seq<T>, keep: T -> bool)
    ensures Subsequence(Filter(items, keep), items)
  {
    if items != [] {
      FilterSubsequence(items[1..], keep);
      var rest := Filter(items[1..], keep);
      if keep(items[0]) {
        assert ([items[0]] + rest)[1..] == rest;
      } else {
        assert [] + rest == rest;
      }
    }
  }

  /** Deletion splits a manifest into what stays and what is reported, keeping the order of both. */
  lemma DeletionPartitions(packages: seq<Package>, name: string, versions: Option<seq<string>>)
    ensures var kept, gone := Retained(packages, name, versions), Deleted(packages, name, versions);
            && multiset(packages) == multiset(kept) + multiset(gone)
            && Subsequence(kept, packages) && Subsequence(gone, packages)
  {
    var keep, drop := (p: Package) => !Selected(name, versions, p), (p: Package) => Selected(name, versions, p);
    FilterPartition(packages, keep, drop);
    FilterSubsequence(packages, keep);
    FilterSubsequence(packages, drop);
  }

  /** Whether one of these texts is a version's version, version and iteration, or all of it. */
  predicate Matches(versions: seq<string>, v: Version)
  {
    exists text :: text in versions && (text == v.version || text == v.version + "-" + v.iteration || text == FullVersion(v))
  }

  /** The entries of a name, and of the listed versions if there is a list. */
  function Meant(name: string, versions: Option<seq<string>>): Package -> bool
  {
    (p: Package) => p.name == name && (versions.None? || Matches(versions.value, p.version))
  }

  function NotMeant(name: string, versions: Option<seq<string>>): Package -> bool
  {
    (p: Package) => p.name != name || (versions.Some? && !Matches(versions.value, p.version))
  }

  /** A deletion takes exactly the entries of the name, and only those of the listed versions if there is a list. */
  lemma DeletionExact(packages: seq<Package>, name: string, versions: Option<seq<string>>)
    ensures Retained(packages, name, versions) == Filter(packages, NotMeant(name, versions))
    ensures Deleted(packages, name, versions) == Filter(packages, Meant(name, versions))
  {
    forall p | p in packages ensures Selected(name, versions, p) <==> Meant(name, versions)(p) { SelectedMeant(name, versions, p); }
    SameFilter(packages, p => !Selected(name, versions, p), NotMeant(name, versions));
    SameFilter(packages, p => Selected(name, versions, p), Meant(name, versions));
  }

  lemma SelectedMeant(name: string, versions: Option<seq<string>>, p: Package)
    ensures Selected(name, versions, p) <==> p.name == name && (versions.None? || Matches(versions.value, p.version))
  {
    if versions.Some? {
      var v := p.version;
      assert v.version in versions.value ==> Matches(versions.value, v);
      assert v.version + "-" + v.iteration in versions.value ==> Matches(versions.value, v);
      assert FullVersion(v) in versions.value ==> Matches(versions.value, v);
    }
  }

  lemma {:induction false} SameFilter<T>(items: seq<T>, a: T -> bool, b: T -> bool)
    requires forall p <- items :: a(p) <==> b(p)
    ensures Filter(items, a) == Filter(items, b)
  {
    if items != [] {
      assert items[0] in items;
      SameFilter(items[1..], a, b);
    }
  }

  /** No version list deletes every version of the name; an empty one deletes nothing. */
  lemma DeletionExtremes(packages: seq<Package>, name: string)
    ensures forall p <- Retained(packages, name, None) :: p.name != name && p in packages
    ensures Retained(packages, name, Some([])) == packages
  {
    var keep := (p: Package) => !Selected(name, None, p);
    forall p | p in Retained(packages, name, None) ensures p.name != name && p in packages {
      FilterMembers(packages, keep, p);
    }
    FilterAll(packages, p => !Selected(name, Some([]), p));
  }

  lemma {:induction false} FilterAll<T>(items: seq<T>, keep: T -> bool)
    requires forall p <- items :: keep(p)
    ensures Filter(items, keep) == items
  {
    if items != [] {
      FilterAll(items[1..], keep);
      assert [items[0]] + items[1..] == items;
    }
  }

  datatype Edit =
    | Adding(added: Package, preserveVersions: bool, needsUploading: bool)
    | Deleting(name: string, versions: Option<seq<string>>)

  /** One edit; a rejected addition leaves the manifest as it was. */
  function Apply(m: ManifestState, e: Edit): ManifestState
  {
    match e
    case Adding(added, preserve, needs) =>
      var result := AddTo(m, added, preserve, needs);
      if result.Ok? then result.value else m
    case Deleting(name, versions) => m.(packages := Retained(m.packages, name, versions))
  }

  function ApplyAll(m: ManifestState, edits: seq<Edit>): ManifestState
    decreases |edits|
  {
    if edits == [] then m else ApplyAll(Apply(m, edits[0]), edits[1..])
  }

  lemma AddKeepsUnique(packages: seq<Package>, added: Package, preserveVersions: bool)
    requires Unique(packages)
    ensures Unique(WithPackage(packages, added, preserveVersions))
  {
    var keep := p => !Displaces(added, preserveVersions, p);
    var kept := Filter(packages, keep);
    FilterUnique(packages, keep);
    forall i | 0 <= i < |kept| ensures Identity(kept[i]) != Identity(added) { FilterMembers(packages, keep, kept[i]); }
  }

  /** No sequence of additions and deletions introduces a second entry for a name and version. */
  lemma {:induction false} EditsKeepUnique(m: ManifestState, edits: seq<Edit>)
    requires Unique(m.packages)
    ensures Unique(ApplyAll(m, edits).packages)
    decreases |edits|
  {
    if edits != [] {
      match edits[0] {
        case Adding(added, preserve, _) => AddKeepsUnique(m.packages, added, preserve);
        case Deleting(name, versions) => FilterUnique(m.packages, p => !Selected(name, versions, p));
      }
      EditsKeepUnique(Apply(m, edits[0]), edits[1..]);
    }
  }

  /** What one addition does to the entries: the added package last, the displaced ones gone, nothing else. */
  lemma AddMembers(packages: seq<Package>, added: Package, preserveVersions: bool, p: Package)
    ensures p in WithPackage(packages, added, preserveVersions) <==>
            p == added || (p in packages && (p.name != added.name || (preserveVersions && FullVersion(p.version) != FullVersion(added.version))))
  {
    FilterMembers(packages, q => !Displaces(added, preserveVersions, q), p);
  }

  // ------------------------------------------------------------- conflicting entries

  /** Two packages of one name and version. */
  predicate SameVersion(p: Package, q: Package)
  {
    p.name == q.name && FullVersion(p.version) == FullVersion(q.version)
  }

  /** Two packages whose locations end in the same file name. */
  predicate SameFile(p: Package, q: Package, codename: string)
  {
    RepositoryFilename(p, codename).Ok? && RepositoryFilename(q, codename).Ok? &&
    Base(RepositoryFilename(p, codename).value) == Base(RepositoryFilename(q, codename).value)
  }

  ghost predicate NoConflict(packages: seq<Package>, added: Package, codename: string)
  {
    RepositoryFilename(added, codename).Ok? && forall p <- packages :: SameVersion(p, added) ==> SameFile(p, added, codename)
  }

  lemma {:induction false} ConflictWithExact(packages: seq<Package>, added: Package, codename: string, offered: string)
    requires RepositoryFilename(added, codename) == Ok(offered)
    ensures ConflictWith(packages, added, codename, offered).None? <==>
            forall p <- packages :: SameVersion(p, added) ==> SameFile(p, added, codename)
    ensures forall existing, other :: ConflictWith(packages, added, codename, offered) == Some(PackageConflict(existing, other)) ==>
              other == offered && Base(existing) != Base(offered) &&
              exists p :: p in packages && SameVersion(p, added) && RepositoryFilename(p, codename) == Ok(existing)
  {
    if packages != [] {
      var first, rest := packages[0], packages[1..];
      ConflictWithExact(rest, added, codename, offered);
      assert forall p :: p in packages <==> p == first || p in rest;
      assert Identity(first) == Identity(added) <==> SameVersion(first, added);
      assert (forall p <- packages :: SameVersion(p, added) ==> SameFile(p, added, codename)) <==>
             (SameVersion(first, added) ==> SameFile(first, added, codename)) &&
             (forall p <- rest :: SameVersion(p, added) ==> SameFile(p, added, codename));
    }
  }

  /**
   Where existing entries are protected, an addition goes through exactly when it has a
   location and every entry of its name and version has one that ends in the same file
   name; a reported conflict is between such an entry and the addition.
   */
  lemma ConflictExact(m: ManifestState, added: Package, preserveVersions: bool, needsUploading: bool)
    ensures AddTo(m, added, preserveVersions, needsUploading).Ok? <==> !m.failIfExists || NoConflict(m.packages, added, m.codename)
    ensures forall existing, offered :: AddTo(m, added, preserveVersions, needsUploading) == Err(PackageConflict(existing, offered)) ==>
              && RepositoryFilename(added, m.codename) == Ok(offered) && Base(existing) != Base(offered)
              && exists p :: p in m.packages && SameVersion(p, added) && RepositoryFilename(p, m.codename) == Ok(existing)
  {
    if RepositoryFilename(added, m.codename).Ok? {
      ConflictWithExact(m.packages, added, m.codename, RepositoryFilename(added, m.codename).value);
    }
  }
}
