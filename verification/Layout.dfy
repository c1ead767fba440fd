/**
 Where a repository's objects live when codenames, components and architectures
 are single clean path segments: the segments of every key, by kind.
 */
module Layout {
  import opened Text
  import opened Paths
  import opened Keys
  import opened Documents
  import opened Stores
  import opened Publication

  predicate Name(s: string)
  {
    Segment(s) && '\\' !in s
  }

  ghost predicate ComponentName(c: string)
  {
    Name(c) && Word(c)
  }

  ghost predicate ArchitectureName(a: string)
  {
    '/' !in a && '\\' !in a && Word(a)
  }

  ghost predicate GoodSlot(s: Slot)
  {
    Name(s.codename) && ComponentName(s.component) && ArchitectureName(s.architecture)
  }

  /** The key of some codename's Release. */
  predicate ReleaseKey(key: string)
  {
    var s := Split(key, '/');
    |s| == 3 && s[0] == "dists" && s[2] == "Release"
  }

  ghost predicate Names(segs: seq<string>)
  {
    segs != [] && forall i :: 0 <= i < |segs| ==> Name(segs[i])
  }

  /** Names joined by slashes are a key that every operation leaves as it is. */
  lemma KeyOfNames(segs: seq<string>)
    requires Names(segs)
    ensures PathJoin(segs) == Join(segs, "/") && Split(Join(segs, "/"), '/') == segs
    ensures Named(Join(segs, "/")) == Some(Join(segs, "/"))
  {
    PathJoinOfSegments(segs);
    JoinedSegmentsPlain(segs);
    assert Free(segs, '\\');
    JoinFree(segs, "/", '\\');
    PlainKeyNormal(Join(segs, "/"));
  }

  lemma SuffixedKey(front: seq<string>, last: string, suffix: string, whole: string)
    requires whole == last + suffix
    ensures Join(front + [last], "/") + suffix == Join(front + [whole], "/")
  {
    JoinSuffix(front, last, suffix);
  }

  function IndexSegments(s: Slot): seq<string>
  {
    ["dists", s.codename, s.component, "binary-" + s.architecture, "Packages"]
  }

  function GzipSegments(s: Slot): seq<string>
  {
    ["dists", s.codename, s.component, "binary-" + s.architecture, "Packages.gz"]
  }

  function ByHashSegments(s: Slot, sha256: string): seq<string>
  {
    ["dists", s.codename, s.component, "binary-" + s.architecture, "by-hash", "SHA256", sha256]
  }

  function IndexFront(s: Slot): seq<string>
  {
    ["dists", s.codename, s.component, "binary-" + s.architecture]
  }

  lemma IndexFronts(s: Slot)
    requires GoodSlot(s)
    ensures Names(IndexFront(s))
    ensures IndexSegments(s) == IndexFront(s) + ["Packages"] && Names(IndexSegments(s))
    ensures GzipSegments(s) == IndexFront(s) + ["Packages.gz"] && Names(GzipSegments(s))
  {
  }

  /** The segments of an index's plain and compressed keys. */
  lemma IndexKeys(s: Slot)
    requires GoodSlot(s)
    ensures IndexPath(s) == Join(IndexSegments(s), "/") && Split(IndexPath(s), '/') == IndexSegments(s)
    ensures Named(IndexPath(s)) == Some(IndexPath(s))
    ensures IndexPath(s) + ".gz" == Join(GzipSegments(s), "/") && Split(IndexPath(s) + ".gz", '/') == GzipSegments(s)
    ensures Named(IndexPath(s) + ".gz") == Some(IndexPath(s) + ".gz")
  {
    IndexFronts(s);
    KeyOfNames(IndexSegments(s));
    KeyOfNames(GzipSegments(s));
    SuffixedKey(IndexFront(s), "Packages", ".gz", "Packages.gz");
  }

  /** Both by-hash keys of an index lie beside it, named by digest. */
  lemma ByHashKeys(s: Slot, sha256: string)
    requires GoodSlot(s) && Name(sha256)
    ensures var key := Join(ByHashSegments(s, sha256), "/");
            && ByHashPath(IndexPath(s), sha256) == key && ByHashPath(IndexPath(s) + ".gz", sha256) == key
            && Split(key, '/') == ByHashSegments(s, sha256) && Named(key) == Some(key)
  {
    IndexFronts(s);
    IndexKeys(s);
    ByHashFronts(s, sha256);
    ByHashBeside(IndexFront(s), "Packages", sha256);
    ByHashBeside(IndexFront(s), "Packages.gz", sha256);
    KeyOfNames(ByHashSegments(s, sha256));
  }

  lemma ByHashFronts(s: Slot, sha256: string)
    requires GoodSlot(s) && Name(sha256)
    ensures ByHashSegments(s, sha256) == IndexFront(s) + ["by-hash", "SHA256", sha256]
    ensures Names(ByHashSegments(s, sha256))
  {
  }

  lemma ByHashBeside(front: seq<string>, last: string, sha256: string)
    requires Names(front) && Names(front + [last]) && Name(sha256)
    ensures ByHashPath(Join(front + [last], "/"), sha256) == Join(front + ["by-hash", "SHA256", sha256], "/")
  {
    DirOfSegments(front + [last]);
    assert (front + [last])[..|front|] == front;
    DirectoryThen(front, ["by-hash", "SHA256", sha256]);
    assert [Join(front, "/")] + ["by-hash", "SHA256", sha256] == [Join(front, "/"), "by-hash", "SHA256", sha256];
  }

  /** Joining a directory of names and more names. */
  lemma DirectoryThen(front: seq<string>, tail: seq<string>)
    requires Names(front) && Names(tail)
    ensures PathJoin([Join(front, "/")] + tail) == Join(front + tail, "/")
  {
    var parts := [Join(front, "/")] + tail;
    NonEmptySegments(parts);
    JoinConcat([Join(front, "/")], tail, "/");
    JoinConcat(front, tail, "/");
    CleanOfSegments(front + tail);
  }

  lemma ReleaseNames(codename: string)
    requires Name(codename)
    ensures Names(["dists", codename]) && Names(["dists", codename, "Release"])
    ensures Names(["dists", codename, "Release.gpg"]) && Names(["dists", codename, "InRelease"])
    ensures ["dists", codename] + ["Release"] == ["dists", codename, "Release"]
    ensures ["dists", codename] + ["Release.gpg"] == ["dists", codename, "Release.gpg"]
    ensures ["dists", codename] + ["InRelease"] == ["dists", codename, "InRelease"]
  {
  }

  lemma ReleaseKeys(codename: string)
    requires Name(codename)
    ensures Split(ReleasePath(codename), '/') == ["dists", codename, "Release"]
    ensures Split(ReleasePath(codename) + ".gpg", '/') == ["dists", codename, "Release.gpg"]
    ensures Named(ReleasePath(codename)) == Some(ReleasePath(codename))
    ensures Named(ReleasePath(codename) + ".gpg") == Some(ReleasePath(codename) + ".gpg")
  {
    ReleaseNames(codename);
    KeyOfNames(["dists", codename, "Release"]);
    KeyOfNames(["dists", codename, "Release.gpg"]);
    SuffixedKey(["dists", codename], "Release", ".gpg", "Release.gpg");
  }

  lemma InReleaseKeys(codename: string)
    requires Name(codename)
    ensures Split(InReleasePath(codename), '/') == ["dists", codename, "InRelease"]
    ensures Named(InReleasePath(codename)) == Some(InReleasePath(codename))
  {
    var front := ["dists", codename];
    ReleaseNames(codename);
    KeyOfNames(["dists", codename, "Release"]);
    KeyOfNames(["dists", codename, "InRelease"]);
    ReleaseDirectory(front);
    DirectoryThen(front, ["InRelease"]);
    assert [Join(front, "/")] + ["InRelease"] == [Join(front, "/"), "InRelease"];
  }

  lemma ReleaseDirectory(front: seq<string>)
    requires Names(front)
    ensures Dir(Join(front + ["Release"], "/")) == Join(front, "/")
  {
    assert Name("Release");
    DirOfSegments(front + ["Release"]);
    assert (front + ["Release"])[..|front|] == front;
  }

  function ListedSegments(component: string, architecture: string): seq<string>
  {
    [component, "binary-" + architecture, "Packages"]
  }

  /** A listed name is the index's key without "dists" and the codename. */
  lemma ListedNames(s: Slot)
    requires GoodSlot(s)
    ensures ListedPath(s.component, s.architecture) == Join(ListedSegments(s.component, s.architecture), "/")
    ensures Split(ListedPath(s.component, s.architecture), '/') == ListedSegments(s.component, s.architecture)
    ensures IndexPath(s) == Join(["dists", s.codename], "/") + "/" + ListedPath(s.component, s.architecture)
  {
    var listed := ListedSegments(s.component, s.architecture);
    assert Names(listed);
    KeyOfNames(listed);
    IndexKeys(s);
    JoinConcat(["dists", s.codename], listed, "/");
    assert IndexSegments(s) == ["dists", s.codename] + listed;
  }

  /** The name looked up for a missing manifest is the listed one. */
  lemma MissingName(component: string, architecture: string)
    ensures Join(ListedSegments(component, architecture), "/") == component + "/binary-" + architecture + "/Packages"
  {
    JoinThree(component, "binary-" + architecture, "Packages");
    assert component + "/" + ("binary-" + architecture) + "/" + "Packages" == component + ("/" + "binary-") + architecture + ("/" + "Packages");
    assert "/" + "binary-" == "/binary-" && "/" + "Packages" == "/Packages";
  }

  lemma JoinThree(a: string, b: string, c: string)
    ensures Join([a, b, c], "/") == a + "/" + b + "/" + c
  {
    assert [a, b, c][1..] == [b, c] && [b, c][1..] == [c];
    assert Join([b, c], "/") == b + "/" + c;
    assert a + "/" + (b + "/" + c) == a + "/" + b + "/" + c;
  }
}
