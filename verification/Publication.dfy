/**
 Publishing metadata: indices and Release files as ordered store writes. Every
 command's writes are a function of what it read; the methods issue them.
 */
module Publication {
  import opened Text
  import opened Paths
  import opened Packages
  import opened Documents
  import opened IndexText
  import opened Stores
  import opened Manifests

  const IMMUTABLE := PutOptions(false, true)
  const REPLACE := PutOptions(false, false)

  /** Which index a manifest is, and whether it has by-hash objects. */
  datatype Slot = Slot(codename: string, component: string, architecture: string, byHash: bool)

  /** An index document built for a slot. */
  datatype Prepared = Prepared(slot: Slot, index: Doc)

  function SlotOf(m: ManifestState): Slot
  {
    Slot(m.codename, m.component, m.architecture, m.byHash)
  }

  // ------------------------------------------------------------------- artifacts

  /** The index of a manifest: the records of its packages, each with its location for the codename. */
  function BuildIndex(m: ManifestState): Result<Doc, PackageError>
  {
    match RenderIndex(m.packages, m.codename)
    case Err(e) => Err(e)
    case Ok(text) => Ok(Bytes(text))
  }

  function PackagesPath(codename: string, component: string, architecture: string): string
  {
    PathJoin(["dists", codename, component, "binary-" + architecture, "Packages"])
  }

  /** The same file's name relative to the codename, as a Release lists it. */
  function ListedPath(component: string, architecture: string): string
  {
    PathJoin([component, "binary-" + architecture, "Packages"])
  }

  function ReleasePath(codename: string): string
  {
    PathJoin(["dists", codename, "Release"])
  }

  function InReleasePath(codename: string): string
  {
    PathJoin([Dir(ReleasePath(codename)), "InRelease"])
  }

  function ByHashPath(path: string, sha256: string): string
  {
    PathJoin([Dir(path), "by-hash", "SHA256", sha256])
  }

  function IndexPath(slot: Slot): string
  {
    PackagesPath(slot.codename, slot.component, slot.architecture)
  }

  function ByHashWrites(p: Prepared, h: Hasher): seq<Write>
  {
    var path := IndexPath(p.slot);
    if !p.slot.byHash then []
    else [Put(ByHashPath(path, h(p.index).sha256), p.index, IMMUTABLE),
          Put(ByHashPath(path + ".gz", h(Gzip(p.index)).sha256), Gzip(p.index), IMMUTABLE)]
  }

  function CanonicalWrites(p: Prepared): seq<Write>
  {
    var path := IndexPath(p.slot);
    [Put(path, p.index, REPLACE), Put(path + ".gz", Gzip(p.index), REPLACE)]
  }

  /** The two files a Release lists for a prepared index. */
  function ArtifactFiles(p: Prepared, h: Hasher): map<string, FileHashes>
  {
    var listed := ListedPath(p.slot.component, p.slot.architecture);
    map[listed := h(p.index)][listed + ".gz" := h(Gzip(p.index))]
  }

  function AppendUnique(values: seq<string>, value: string): seq<string>
  {
    if value in values then values else values + [value]
  }

  function UpdatedRelease(r: ReleaseState, slot: Slot, files: map<string, FileHashes>): ReleaseState
  {
    r.(components := AppendUnique(r.components, slot.component),
       architectures := AppendUnique(r.architectures, slot.architecture),
       files := r.files + files)
  }

  // ------------------------------------------------------------ missing manifests

  function MissingIn(r: ReleaseState, component: string, architectures: seq<string>): seq<Slot>
  {
    if architectures == [] then []
    else
      var last := architectures[|architectures| - 1];
      MissingIn(r, component, architectures[..|architectures| - 1]) +
      (if component + "/binary-" + last + "/Packages" in r.files then []
       else [Slot(r.codename, component, last, r.byHash)])
  }

  function MissingFrom(r: ReleaseState, components: seq<string>): seq<Slot>
  {
    if components == [] then []
    else
      MissingFrom(r, components[..|components| - 1]) +
      MissingIn(r, components[|components| - 1], r.architectures)
  }

  /** The listed component and architecture pairs the Release has no file for. */
  function Missing(r: ReleaseState): seq<Slot>
  {
    MissingFrom(r, r.components)
  }

  function EmptyManifest(slot: Slot): ManifestState
  {
    ManifestState(slot.codename, slot.component, slot.architecture, slot.byHash, false, false, [], [], map[])
  }

  // ----------------------------------------------------------------------- plans

  /** Building, recording and listing manifests in order. */
  function Prepare(r: ReleaseState, ms: seq<ManifestState>, h: Hasher): Result<(ReleaseState, seq<Prepared>), PackageError>
  {
    if ms == [] then Ok((r, []))
    else
      var last := ms[|ms| - 1];
      match Prepare(r, ms[..|ms| - 1], h)
      case Err(e) => Err(e)
      case Ok((updated, done)) =>
        match BuildIndex(last)
        case Err(e) => Err(e)
        case Ok(index) =>
          var p := Prepared(SlotOf(last), index);
          Ok((UpdatedRelease(updated, p.slot, last.files + ArtifactFiles(p, h)), done + [p]))
  }

  function AllByHash(ps: seq<Prepared>, h: Hasher): seq<Write>
  {
    if ps == [] then [] else AllByHash(ps[..|ps| - 1], h) + ByHashWrites(ps[|ps| - 1], h)
  }

  function AllCanonical(ps: seq<Prepared>): seq<Write>
  {
    if ps == [] then [] else AllCanonical(ps[..|ps| - 1]) + CanonicalWrites(ps[|ps| - 1])
  }

  /** Publishing manifests one by one: the by-hash objects of each just before its canonical ones. */
  function AllCreated(ps: seq<Prepared>, h: Hasher): seq<Write>
  {
    if ps == [] then []
    else AllCreated(ps[..|ps| - 1], h) + (ByHashWrites(ps[|ps| - 1], h) + CanonicalWrites(ps[|ps| - 1]))
  }

  /** A Release as its text reads back: an absent suite becomes an empty one. */
  function RereadRelease(r: ReleaseState): ReleaseState
  {
    r.(suite := Some(if r.suite.Some? then r.suite.value else ""))
  }

  /** The last writes of a publication: the Release, with its signatures or without stale ones. */
  function FinalWrites(r: ReleaseState, signed: bool, date: string): seq<Write>
  {
    var path := ReleasePath(r.codename);
    var doc := ReleaseText(RereadRelease(r), date);
    if signed then
      [Put(path, doc, REPLACE), Put(path + ".gpg", Detached(doc), REPLACE),
       Put(InReleasePath(r.codename), ClearSigned(doc), REPLACE)]
    else
      [Delete(path + ".gpg"), Delete(InReleasePath(r.codename)), Put(path, doc, REPLACE)]
  }

  /** Empty indices for slots. */
  function Empties(slots: seq<Slot>): (ps: seq<Prepared>)
    ensures |ps| == |slots|
  {
    if slots == [] then [] else Empties(slots[..|slots| - 1]) + [Prepared(slots[|slots| - 1], Bytes(""))]
  }

  lemma {:induction false} EmptiesAt(slots: seq<Slot>, i: nat)
    requires i < |slots|
    ensures Empties(slots)[i] == Prepared(slots[i], Bytes(""))
    decreases |slots|
  {
    if i < |slots| - 1 { EmptiesAt(slots[..|slots| - 1], i); }
  }

  function Listing(r: ReleaseState, ps: seq<Prepared>, h: Hasher): ReleaseState
  {
    if ps == [] then r
    else
      var last := ps[|ps| - 1];
      UpdatedRelease(Listing(r, ps[..|ps| - 1], h), last.slot, ArtifactFiles(last, h))
  }

  /** The writes of Release.Publish: missing manifests first, then the Release itself. */
  function ReleasePlan(r: ReleaseState, h: Hasher, signed: bool, date: string): seq<Write>
  {
    var created := Empties(Missing(r));
    AllCreated(created, h) + FinalWrites(Listing(r, created, h), signed, date)
  }

  /** The Release and indices a publication of changed manifests ends up with. */
  function Closure(r: ReleaseState, ms: seq<ManifestState>, h: Hasher): Result<(ReleaseState, seq<Prepared>), PackageError>
  {
    match Prepare(r, ms, h)
    case Err(e) => Err(e)
    case Ok((updated, done)) =>
      var created := Empties(Missing(updated));
      Ok((Listing(updated, created, h), done + created))
  }

  /** All writes of one metadata publication; by-hash objects precede canonical names, Release comes last. */
  function PublishPlan(r: ReleaseState, ps: seq<Prepared>, h: Hasher, signed: bool, date: string): seq<Write>
  {
    AllByHash(ps, h) + (AllCanonical(ps) + ReleasePlan(r, h, signed, date))
  }

  // ------------------------------------------------------------ keys are usable

  lemma IndexPathUsable(codename: string, component: string, architecture: string)
    ensures var path := PackagesPath(codename, component, architecture);
            && path != "" && path[0] != '/' && Last(path) == "Packages"
            && Usable(path) && Usable(path + ".gz") && (path + ".gz")[0] != '/'
  {
    var elements := ["dists", codename, component, "binary-" + architecture, "Packages"];
    PathJoinLast(elements);
    SuffixUsable(PathJoin(elements), ".gz");
  }

  lemma ByHashUsable(path: string, h: Hasher, doc: Doc)
    requires GoodHasher(h) && path != "" && path[0] != '/'
    ensures Usable(ByHashPath(path, h(doc).sha256))
  {
    DirRelative(path);
    PathJoinLast([Dir(path), "by-hash", "SHA256", h(doc).sha256]);
  }

  lemma ReleasePathsUsable(codename: string)
    ensures Usable(ReleasePath(codename)) && Usable(ReleasePath(codename) + ".gpg") && Usable(InReleasePath(codename))
  {
    PathJoinLast(["dists", codename, "Release"]);
    SuffixUsable(ReleasePath(codename), ".gpg");
    DirRelative(ReleasePath(codename));
    PathJoinLast([Dir(ReleasePath(codename)), "InRelease"]);
  }
}
