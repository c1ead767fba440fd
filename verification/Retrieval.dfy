/** Reading the Release and the manifests a command starts from. */
module Retrieval {
  import opened Text
  import opened Packages
  import opened Documents
  import opened IndexText
  import opened ReleaseCodec
  import opened Stores
  import opened Manifests
  import opened Publication
  import opened Agreement
  import opened Publishing

  /** What a command overrides in the Release it reads. */
  datatype Overrides = Overrides(origin: Option<string>, suite: Option<string>, byHash: Option<bool>)

  function NewRelease(codename: string, o: Overrides): ReleaseState
  {
    ReleaseState(codename, o.origin, o.suite, [], [], o.byHash.Some? && o.byHash.value, map[])
  }

  function Overridden(r: ReleaseState, codename: string, o: Overrides): ReleaseState
  {
    r.(codename := codename,
       origin := if o.origin.Some? then o.origin else r.origin,
       suite := if o.suite.Some? then o.suite else r.suite,
       byHash := if o.byHash.Some? then o.byHash.value else r.byHash)
  }

  const NO_RELEASE := ReleaseState("", None, None, [], [], false, map[])

  /** The Release a document holds; one that is no text has no Release fields. */
  function ReleaseOf(doc: Doc): ReleaseState
  {
    match doc
    case ReleaseText(release, _) => release
    case Bytes(text) => ParseRelease(text)
    case _ => NO_RELEASE
  }

  /** A document that, read as a Release, has usable names. */
  ghost predicate GoodStored(doc: Doc)
  {
    GoodBody(ReleaseOf(doc))
  }

  /** The Release a command works on; an absent one is new, a codename without a usable key is refused. */
  function ReleaseRead(objects: map<string, Doc>, codename: string, o: Overrides): Option<ReleaseState>
  {
    if Named(ReleasePath(codename)).None? then None
    else
      match Found(objects, ReleasePath(codename))
      case None => Some(NewRelease(codename, o))
      case Some(doc) => Some(Overridden(ReleaseOf(doc), codename, o))
  }

  /** A manifest with the packages of a stored index, if there is one; None if that does not parse. */
  function Loaded(empty: ManifestState, doc: Option<Doc>): Option<ManifestState>
  {
    match doc
    case None => Some(empty)
    case Some(d) =>
      match Entries(d)
      case None => None
      case Some(packages) => Some(empty.(packages := packages))
  }

  /** The manifest of a slot; an absent one is empty, one that is no index is an error. */
  function ManifestRead(objects: map<string, Doc>, slot: Slot, failIfExists: bool, skipPackageUpload: bool): Option<ManifestState>
  {
    if Named(IndexPath(slot)).None? then None
    else
      var empty := EmptyManifest(slot).(failIfExists := failIfExists, skipPackageUpload := skipPackageUpload);
      Loaded(empty, Found(objects, IndexPath(slot)))
  }

  method ParsedRelease(doc: Doc, codename: string, o: Overrides) returns (release: Release)
    ensures fresh(release) && release.State() == Overridden(ReleaseOf(doc), codename, o)
  {
    var read := NO_RELEASE;
    match doc {
      case ReleaseText(r, _) => read := r;
      case Bytes(text) => read := ReadRelease(text);
      case _ =>
    }
    release := new Release(read);
    release.codename := codename;
    if o.origin.Some? { release.origin := o.origin; }
    if o.suite.Some? { release.suite := o.suite; }
    if o.byHash.Some? { release.byHash := o.byHash.value; }
  }

  method RetrieveRelease(store: Store, codename: string, o: Overrides) returns (release: Release?)
    requires store.Valid()
    ensures release == null && store.reliable ==> ReleaseRead(store.View(), codename, o) == None
    ensures release != null ==> fresh(release) && Some(release.State()) == ReleaseRead(store.View(), codename, o)
    ensures release != null ==>
              && release.codename == codename
              && (o.origin.Some? ==> release.origin == o.origin) && (o.suite.Some? ==> release.suite == o.suite)
              && (o.byHash.Some? ==> release.byHash == o.byHash.value)
    ensures release != null ==>
              match Found(store.View(), ReleasePath(codename))
              case None =>
                && release.origin == o.origin && release.suite == o.suite && release.byHash == (o.byHash == Some(true))
                && release.architectures == [] && release.components == [] && release.files == map[]
              case Some(doc) =>
                && release.architectures == ReleaseOf(doc).architectures && release.components == ReleaseOf(doc).components
                && release.files == ReleaseOf(doc).files && (o.origin.None? ==> release.origin == ReleaseOf(doc).origin)
                && (o.suite.None? ==> release.suite == ReleaseOf(doc).suite) && (o.byHash.None? ==> release.byHash == ReleaseOf(doc).byHash)
  {
    ReleasePathsUsable(codename);
    var path := ReleasePath(codename);
    var got := store.Get(path);
    match got {
      case Err(NotFound) => release := new Release(NewRelease(codename, o));
      case Err(_) => release := null;
      case Ok(doc) => release := ParsedRelease(doc, codename, o);
    }
  }

  method RetrieveManifest(store: Store, slot: Slot, failIfExists: bool, skipPackageUpload: bool) returns (m: Manifest?)
    requires store.Valid()
    ensures m == null && store.reliable ==> ManifestRead(store.View(), slot, failIfExists, skipPackageUpload) == None
    ensures m != null ==> fresh(m) && Some(m.State()) == ManifestRead(store.View(), slot, failIfExists, skipPackageUpload)
  {
    IndexPathUsable(slot.codename, slot.component, slot.architecture);
    var manifest := new Manifest(slot.codename, slot.component, slot.architecture, slot.byHash, failIfExists, skipPackageUpload);
    var got := store.Get(IndexPath(slot));
    match got {
      case Err(NotFound) => m := manifest;
      case Err(_) => m := null;
      case Ok(doc) =>
        var packages := ReadEntries(doc);
        if packages.None? { return null; }
        manifest.packages := packages.value;
        m := manifest;
    }
  }
}
