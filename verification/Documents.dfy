/** What the repository's objects hold: text, and a Release as its fields. */
module Documents {
  import opened Text

  datatype FileHashes = FileHashes(size: nat, md5: string, sha1: string, sha256: string)

  /** The contents of a Release file, apart from its date. */
  datatype ReleaseState = ReleaseState(
    codename: string,
    origin: Option<string>,
    suite: Option<string>,
    architectures: seq<string>,
    components: seq<string>,
    byHash: bool,
    files: map<string, FileHashes>)

  /** What an object holds: plain bytes, such as an index or a package body, or what is made from other documents. */
  datatype Doc =
    | Bytes(text: string)
    | Gzip(original: Doc)
    | ReleaseText(release: ReleaseState, date: string)
    | Detached(signed: Doc)
    | ClearSigned(signed: Doc)

  /** A header value on one line. */
  predicate SingleLine(s: string)
  {
    '\n' !in s && '\r' !in s
  }

  ghost predicate AllWords(ws: seq<string>)
  {
    forall i :: 0 <= i < |ws| ==> Word(ws[i])
  }

  /** Size and digests of a document's bytes. */
  type Hasher = Doc -> FileHashes

  /** The digest names one document, and is a path segment. */
  ghost predicate GoodHasher(h: Hasher)
  {
    && (forall a, b :: h(a).sha256 == h(b).sha256 ==> a == b)
    && (forall a :: h(a).sha256 != "" && '/' !in h(a).sha256 && h(a).sha256 != "." && h(a).sha256 != ".." && '\\' !in h(a).sha256)
  }
}
