/** Slash-separated paths with the semantics of Go's path package. */
module Paths {
  import opened Text

  /** A clean single path segment. */
  predicate Segment(s: string)
  {
    s != "" && '/' !in s && s != "." && s != ".."
  }

  ghost predicate Segments(segs: seq<string>)
  {
    forall i :: 0 <= i < |segs| ==> Segment(segs[i])
  }

  function CleanStep(rooted: bool, acc: seq<string>, seg: string): seq<string>
  {
    if seg == "" || seg == "." then acc
    else if seg == ".." then
      if |acc| > 0 && acc[|acc| - 1] != ".." then acc[..|acc| - 1]
      else if rooted then acc
      else acc + [".."]
    else acc + [seg]
  }

  function CleanFold(rooted: bool, acc: seq<string>, segs: seq<string>): seq<string>
    decreases |segs|
  {
    if segs == [] then acc else CleanFold(rooted, CleanStep(rooted, acc, segs[0]), segs[1..])
  }

  /** path.Clean. */
  function Clean(p: string): string
  {
    if p == "" then "."
    else
      var rooted := p[0] == '/';
      var body := Join(CleanFold(rooted, [], Split(p, '/')), "/");
      if rooted then "/" + body else if body == "" then "." else body
  }

  /** path.Join: empty elements are ignored, the rest is joined and cleaned. */
  function PathJoin(elements: seq<string>): string
  {
    var kept := NonEmpty(elements);
    if kept == [] then "" else Clean(Join(kept, "/"))
  }

  function NonEmpty(elements: seq<string>): seq<string>
  {
    if elements == [] then []
    else (if elements[0] == "" then [] else [elements[0]]) + NonEmpty(elements[1..])
  }

  /** path.Dir: the cleaned text up to the last slash. */
  function Dir(p: string): string
  {
    var parts := Split(p, '/');
    var front := parts[..|parts| - 1];
    Clean(if front == [] then "" else Join(front, "/") + "/")
  }

  /** path.Base: the last element, ignoring trailing slashes. */
  function Base(p: string): string
  {
    if p == "" then "."
    else
      var kept := NonEmpty(Split(p, '/'));
      if kept == [] then "/" else kept[|kept| - 1]
  }

  /** What a clean path's segments look like: leading ".." only, and none when rooted. */
  ghost predicate CleanShape(rooted: bool, segs: seq<string>)
  {
    && (forall i :: 0 <= i < |segs| ==> Segment(segs[i]) || segs[i] == "..")
    && (rooted ==> Segments(segs))
    && (forall i :: 0 < i < |segs| && segs[i] == ".." ==> segs[i - 1] == "..")
  }

  lemma {:induction false} CleanFoldShape(rooted: bool, acc: seq<string>, segs: seq<string>)
    requires CleanShape(rooted, acc) && Free(segs, '/')
    ensures CleanShape(rooted, CleanFold(rooted, acc, segs))
    decreases |segs|
  {
    if segs != [] {
      CleanFoldShape(rooted, CleanStep(rooted, acc, segs[0]), segs[1..]);
    }
  }

  lemma {:induction false} CleanFoldSegments(rooted: bool, acc: seq<string>, segs: seq<string>)
    requires Segments(segs)
    ensures CleanFold(rooted, acc, segs) == acc + segs
    decreases |segs|
  {
    if segs != [] {
      CleanFoldSegments(rooted, acc + [segs[0]], segs[1..]);
      assert acc + [segs[0]] + segs[1..] == acc + segs;
    }
  }

  lemma {:induction false} CleanFoldConcat(rooted: bool, acc: seq<string>, a: seq<string>, b: seq<string>)
    ensures CleanFold(rooted, acc, a + b) == CleanFold(rooted, CleanFold(rooted, acc, a), b)
    decreases |a|
  {
    if a == [] {
      assert a + b == b;
    } else {
      assert (a + b)[1..] == a[1..] + b;
      CleanFoldConcat(rooted, CleanStep(rooted, acc, a[0]), a[1..], b);
    }
  }

  /** No clean shape but the one with leading ".." hides a parent reference. */
  lemma {:induction false} ShapeWithoutParents(rooted: bool, segs: seq<string>)
    requires CleanShape(rooted, segs) && (segs == [] || segs[0] != "..")
    ensures Segments(segs)
  {
    if exists i :: 0 <= i < |segs| && segs[i] == ".." {
      var i :| 0 <= i < |segs| && segs[i] == "..";
      ParentsReachFront(rooted, segs, i);
    }
  }

  lemma {:induction false} ParentsReachFront(rooted: bool, segs: seq<string>, i: nat)
    requires CleanShape(rooted, segs) && i < |segs| && segs[i] == ".."
    ensures segs[0] == ".."
  {
    if i > 0 { ParentsReachFront(rooted, segs, i - 1); }
  }

  /** A path of clean segments is its own Clean. */
  lemma CleanOfSegments(segs: seq<string>)
    requires segs != [] && Segments(segs)
    ensures Clean(Join(segs, "/")) == Join(segs, "/")
    ensures Split(Join(segs, "/"), '/') == segs
    ensures Join(segs, "/")[0] != '/'
  {
    SplitSegments(segs);
    CleanFoldSegments(false, [], segs);
    assert [] + segs == segs;
  }

  lemma SplitSegments(segs: seq<string>)
    requires segs != [] && Segments(segs)
    ensures Split(Join(segs, "/"), '/') == segs
  {
    assert "/" == ['/'];
    SplitOfJoin(segs, '/');
  }

  lemma {:induction false} NonEmptySegments(segs: seq<string>)
    requires forall i :: 0 <= i < |segs| ==> segs[i] != ""
    ensures NonEmpty(segs) == segs
  {
    if segs != [] {
      NonEmptySegments(segs[1..]);
      assert [segs[0]] + segs[1..] == segs;
    }
  }

  /** path.Join of clean segments only puts slashes between them. */
  lemma PathJoinOfSegments(segs: seq<string>)
    requires segs != [] && Segments(segs)
    ensures PathJoin(segs) == Join(segs, "/")
    ensures Split(PathJoin(segs), '/') == segs
  {
    NonEmptySegments(segs);
    CleanOfSegments(segs);
  }

  lemma DirOfSegments(segs: seq<string>)
    requires |segs| >= 2 && Segments(segs)
    ensures Dir(Join(segs, "/")) == Join(segs[..|segs| - 1], "/")
  {
    var front := segs[..|segs| - 1];
    CleanOfTrailingSlash(front);
    DirOfJoined(Join(segs, "/"), segs, Join(front, "/"));
  }

  lemma DirOfJoined(path: string, segs: seq<string>, text: string)
    requires |segs| >= 2 && Segments(segs) && path == Join(segs, "/")
    requires Clean(Join(segs[..|segs| - 1], "/") + "/") == text
    ensures Dir(path) == text
  {
    SplitSegments(segs);
  }

  lemma CleanOfTrailingSlash(segs: seq<string>)
    requires segs != [] && Segments(segs)
    ensures Clean(Join(segs, "/") + "/") == Join(segs, "/")
  {
    var text := Join(segs, "/") + "/";
    assert Split(text, '/') == segs + [""] by {
      SplitSegments(segs);
      SplitConcat(Join(segs, "/"), "", '/');
      assert text == Join(segs, "/") + ['/'] + "";
    }
    assert text[0] == segs[0][0];
    assert CleanFold(false, [], segs + [""]) == segs by {
      CleanFoldConcat(false, [], segs, [""]);
      CleanFoldSegments(false, [], segs);
      assert [] + segs == segs;
      EmptySegmentIgnored(false, segs);
    }
  }

  lemma EmptySegmentIgnored(rooted: bool, acc: seq<string>)
    ensures CleanFold(rooted, acc, [""]) == acc
  {
    assert [""][1..] == [];
  }

  lemma BaseOfSegments(segs: seq<string>)
    requires segs != [] && Segments(segs)
    ensures Base(Join(segs, "/")) == segs[|segs| - 1]
  {
    SplitSegments(segs);
    NonEmptySegments(segs);
  }

  // --------------------------------------------------------------- parent directories

  lemma ParentUndoes(rooted: bool, acc: seq<string>, name: string)
    requires Segment(name)
    ensures CleanFold(rooted, acc, [name, ".."]) == acc
  {
    assert [name, ".."][1..] == [".."] && [".."][1..] == [];
    assert (acc + [name])[..|acc|] == acc;
  }

  /** What CleanFold makes of a path decides its text. */
  lemma SameFold(p: string, q: string)
    requires p != "" && q != "" && p[0] == q[0]
    requires CleanFold(p[0] == '/', [], Split(p, '/')) == CleanFold(q[0] == '/', [], Split(q, '/'))
    ensures Clean(p) == Clean(q)
  {
  }

  /** A directory followed by its parent is as if neither were there. */
  lemma CleanParent(a: string, name: string, b: string)
    requires Segment(name)
    ensures Clean(a + "/" + name + "/../" + b) == Clean(a + "/" + b)
  {
    var p, q := a + "/" + name + "/../" + b, a + "/" + b;
    var rooted := p[0] == '/';
    assert "/" == ['/'] && p == a + ['/'] + (name + ['/'] + (".." + ['/'] + b));
    SplitConcat(a, name + ['/'] + (".." + ['/'] + b), '/');
    SplitConcat(name, ".." + ['/'] + b, '/');
    SplitConcat("..", b, '/');
    SplitConcat(a, b, '/');
    SplitWhole(name, '/');
    SplitWhole("..", '/');
    assert Split(p, '/') == Split(a, '/') + ([name, ".."] + Split(b, '/'));
    CleanFoldConcat(rooted, [], Split(a, '/'), [name, ".."] + Split(b, '/'));
    CleanFoldConcat(rooted, CleanFold(rooted, [], Split(a, '/')), [name, ".."], Split(b, '/'));
    ParentUndoes(rooted, CleanFold(rooted, [], Split(a, '/')), name);
    CleanFoldConcat(rooted, [], Split(a, '/'), Split(b, '/'));
    assert p[0] == q[0];
    SameFold(p, q);
  }

  /** There is nothing above the root, but a relative path keeps the parents it starts with. */
  lemma CleanLeadingParent(segs: seq<string>)
    requires segs != [] && Segments(segs)
    ensures Clean("/../" + Join(segs, "/")) == "/" + Join(segs, "/")
    ensures Clean("../" + Join(segs, "/")) == "../" + Join(segs, "/")
  {
    var b := Join(segs, "/");
    SplitSegments(segs);
    LeadingParts(b);
    FoldsLeading(segs);
    assert Join([".."] + segs, "/") == "../" + b;
  }

  lemma FoldsLeading(segs: seq<string>)
    requires Segments(segs)
    ensures CleanFold(true, [], ["", ".."] + segs) == segs && CleanFold(false, [], [".."] + segs) == [".."] + segs
  {
    CleanFoldConcat(true, [], ["", ".."], segs);
    CleanFoldConcat(false, [], [".."], segs);
    assert ["", ".."][1..] == [".."] && [".."][1..] == [];
    assert CleanFold(true, [], ["", ".."]) == [] && CleanFold(false, [], [".."]) == [".."];
    CleanFoldSegments(true, [], segs);
    CleanFoldSegments(false, [".."], segs);
    assert [] + segs == segs;
  }

  lemma LeadingParts(b: string)
    ensures Split("/../" + b, '/') == ["", ".."] + Split(b, '/') && Split("../" + b, '/') == [".."] + Split(b, '/')
  {
    assert "/../" + b == "" + ['/'] + (".." + ['/'] + b) && "../" + b == ".." + ['/'] + b;
    SplitAtSeparator("", ".." + ['/'] + b, '/');
    SplitAtSeparator("..", b, '/');
  }
}
