/**
 Every Release that commands store reads back from its text: what a command writes at a
 Release key can be printed, if the digests of the indices it writes are of the usual
 lengths.
 */
module StoredReleases {
  import opened Text
  import opened Control
  import opened Documents
  import opened Stores
  import opened Manifests
  import opened Publication
  import opened Retrieval
  import opened Agreement
  import opened ReleaseCodec
  import opened Layout
  import Cleaning
  import opened ByHashSafety
  import opened CommandPlans

  /** A document that, if it is a Release, is what its printed text reads as. */
  ghost predicate LegibleDoc(doc: Doc)
  {
    doc.ReleaseText? ==> PrintableRelease(doc.release, doc.date) && doc.release.suite.Some?
  }

  ghost predicate Legible(objects: map<string, Doc>)
  {
    forall k :: k in objects ==> LegibleDoc(objects[k])
  }

  ghost predicate LegibleWrites(writes: seq<Write>)
  {
    forall i :: 0 <= i < |writes| ==> writes[i].Put? ==> LegibleDoc(writes[i].doc)
  }

  /** The digests of all bytes that these writes put, compressed or not, are of the usual lengths. */
  ghost predicate UsualWrites(writes: seq<Write>, h: Hasher)
  {
    forall i :: 0 <= i < |writes| ==>
      writes[i].Put? && (writes[i].doc.Bytes? || writes[i].doc.Gzip?) ==> UsualHashes(h(writes[i].doc))
  }

  /** A legible Release's text reads as the Release, whatever order its files are listed in. */
  lemma LegibleReadsBack(doc: Doc, names: seq<string>)
    requires LegibleDoc(doc) && doc.ReleaseText? && ListsFiles(names, doc.release.files)
    ensures ParseRelease(RenderRelease(doc.release, doc.date, names)) == doc.release
  {
    ReleaseRoundTrip(doc.release, doc.date, names);
  }

  /** What is read of any document as a Release lists files that can be printed. */
  lemma LegibleFiles(doc: Doc)
    requires LegibleDoc(doc)
    ensures PrintableFiles(ReleaseOf(doc).files)
  {
    match doc {
      case Bytes(text) => FileLinesPrintable(map[], Split(NormalizeNewlines(text), '\n'));
      case _ =>
    }
  }

  lemma LegibleRead(objects: map<string, Doc>, codename: string, o: Overrides)
    requires Legible(objects) && ReleaseRead(objects, codename, o).Some?
    ensures PrintableFiles(ReleaseRead(objects, codename, o).value.files)
  {
    var doc := Found(objects, ReleasePath(codename));
    if doc.Some? { LegibleFiles(doc.value); }
  }

  lemma LegibleEffect(objects: map<string, Doc>, w: Write)
    requires Legible(objects) && (w.Put? ==> LegibleDoc(w.doc))
    ensures Legible(Effect(objects, w))
  {
  }

  lemma {:induction false} LegibleRun(objects: map<string, Doc>, writes: seq<Write>)
    requires Legible(objects) && LegibleWrites(writes)
    ensures Legible(Run(objects, writes))
    decreases |writes|
  {
    if writes != [] {
      LegibleEffect(objects, writes[0]);
      LegibleRun(Effect(objects, writes[0]), writes[1..]);
    }
  }

  // ---------------------------------------------------------------- what plans write

  lemma FinalLegible(r: ReleaseState, signed: bool, date: string)
    requires GoodRelease(r) && PrintableFiles(r.files) && SingleLine(date)
    ensures LegibleWrites(FinalWrites(r, signed, date))
  {
    GoodPrintable(r, date);
  }

  /** Indices written to their canonical keys, all of them plain bytes. */
  ghost predicate PlainIndices(ps: seq<Prepared>)
  {
    forall i :: 0 <= i < |ps| ==> ps[i].index.Bytes?
  }

  lemma IndexLegible(p: Prepared, h: Hasher)
    requires p.index.Bytes?
    ensures LegibleWrites(ByHashWrites(p, h)) && LegibleWrites(CanonicalWrites(p))
  {
  }

  lemma LegibleParts(a: seq<Write>, b: seq<Write>)
    requires LegibleWrites(a) && LegibleWrites(b)
    ensures LegibleWrites(a + b)
  {
  }

  lemma {:induction false} IndicesLegible(ps: seq<Prepared>, h: Hasher)
    requires PlainIndices(ps)
    ensures LegibleWrites(AllByHash(ps, h)) && LegibleWrites(AllCanonical(ps)) && LegibleWrites(AllCreated(ps, h))
  {
    if ps != [] {
      var front, last := ps[..|ps| - 1], ps[|ps| - 1];
      assert last.index.Bytes?;
      IndicesLegible(front, h);
      IndexLegible(last, h);
      LegibleParts(AllByHash(front, h), ByHashWrites(last, h));
      LegibleParts(AllCanonical(front), CanonicalWrites(last));
      LegibleParts(ByHashWrites(last, h), CanonicalWrites(last));
      LegibleParts(AllCreated(front, h), ByHashWrites(last, h) + CanonicalWrites(last));
    }
  }

  lemma UsualParts(a: seq<Write>, b: seq<Write>, h: Hasher)
    ensures UsualWrites(a + b, h) <==> UsualWrites(a, h) && UsualWrites(b, h)
  {
    if UsualWrites(a + b, h) {
      forall i | 0 <= i < |a| && a[i].Put? && (a[i].doc.Bytes? || a[i].doc.Gzip?) ensures UsualHashes(h(a[i].doc)) {
        assert (a + b)[i] == a[i];
      }
      forall i | 0 <= i < |b| && b[i].Put? && (b[i].doc.Bytes? || b[i].doc.Gzip?) ensures UsualHashes(h(b[i].doc)) {
        assert (a + b)[|a| + i] == b[i];
      }
    }
  }

  lemma CanonicalUsual(p: Prepared, h: Hasher)
    requires p.index.Bytes? && UsualWrites(CanonicalWrites(p), h)
    ensures UsualHashes(h(p.index)) && UsualHashes(h(Gzip(p.index)))
  {
    assert CanonicalWrites(p)[0].doc == p.index && CanonicalWrites(p)[1].doc == Gzip(p.index);
  }

  lemma {:induction false} AllCanonicalUsual(ps: seq<Prepared>, h: Hasher)
    requires PlainIndices(ps) && UsualWrites(AllCanonical(ps), h)
    ensures UsualIndices(ps, h)
  {
    if ps != [] {
      var front, last := ps[..|ps| - 1], ps[|ps| - 1];
      UsualParts(AllCanonical(front), CanonicalWrites(last), h);
      AllCanonicalUsual(front, h);
      CanonicalUsual(last, h);
    }
  }

  lemma {:induction false} AllCreatedUsual(ps: seq<Prepared>, h: Hasher)
    requires PlainIndices(ps) && UsualWrites(AllCreated(ps, h), h)
    ensures UsualIndices(ps, h)
  {
    if ps != [] {
      var front, last := ps[..|ps| - 1], ps[|ps| - 1];
      UsualParts(AllCreated(front, h), ByHashWrites(last, h) + CanonicalWrites(last), h);
      UsualParts(ByHashWrites(last, h), CanonicalWrites(last), h);
      AllCreatedUsual(front, h);
      CanonicalUsual(last, h);
    }
  }

  lemma ClosedPlain(r: ReleaseState, ms: seq<ManifestState>, h: Hasher)
    requires GoodRelease(r) && AllOffered(r, ms) && Closure(r, ms, h).Ok?
    ensures PlainIndices(Closure(r, ms, h).value.1)
  {
    ClosureShape(r, ms, h);
    var ps := Closure(r, ms, h).value.1;
    forall i | 0 <= i < |ps| ensures ps[i].index.Bytes? {
      if i < |ms| { assert Built(ms[i], ps[i]); }
    }
  }

  /** The plan of a publication puts a Release that reads back. */
  lemma PublicationLegible(r: ReleaseState, ms: seq<ManifestState>, h: Hasher, signed: bool, date: string)
    requires GoodRelease(r) && AllOffered(r, ms) && Closure(r, ms, h).Ok? && PrintableFiles(r.files) && SingleLine(date)
    requires var (closed, ps) := Closure(r, ms, h).value; UsualWrites(PublishPlan(closed, ps, h, signed, date), h)
    ensures var (closed, ps) := Closure(r, ms, h).value; LegibleWrites(PublishPlan(closed, ps, h, signed, date))
  {
    var (closed, ps) := Closure(r, ms, h).value;
    ClosureShape(r, ms, h);
    NothingLeft(closed, h, signed, date);
    ClosedPlain(r, ms, h);
    var rest := ReleasePlan(closed, h, signed, date);
    UsualParts(AllByHash(ps, h), AllCanonical(ps) + rest, h);
    UsualParts(AllCanonical(ps), rest, h);
    AllCanonicalUsual(ps, h);
    ClosedPrintable(r, ms, h);
    IndicesLegible(ps, h);
    FinalLegible(closed, signed, date);
  }

  lemma RepublicationLegible(r: ReleaseState, h: Hasher, signed: bool, date: string)
    requires GoodRelease(r) && PrintableFiles(r.files) && SingleLine(date) && UsualWrites(ReleasePlan(r, h, signed, date), h)
    ensures LegibleWrites(ReleasePlan(r, h, signed, date))
  {
    var created := Empties(Missing(r));
    CreatedShape(r, h);
    UsualParts(AllCreated(created, h), FinalWrites(Listing(r, created, h), signed, date), h);
    AllCreatedUsual(created, h);
    forall i | 0 <= i < |created| ensures GoodSlot(created[i].slot) { assert OfRelease(r, created[i].slot); }
    ListedPrintable(r.files, created, h);
    IndicesLegible(created, h);
    FinalLegible(Listing(r, created, h), signed, date);
  }

  /** Whatever a command writes can be read back, if it started from a Release whose files can be printed. */
  lemma OperationLegible(codename: string, history: seq<ReleaseState>, op: Operation, r: ReleaseState, date: string, h: Hasher)
    requires MayBegin(codename, history, op) && From(op, r, date) && SingleLine(date)
    requires !op.Sweeping? ==> PrintableFiles(r.files)
    requires UsualWrites(PlanOf(op, h), h)
    ensures LegibleWrites(PlanOf(op, h))
  {
    match op {
      case PublicationOf(_, ms, bodies, signed, _) =>
        if Closure(r, ms, h).Ok? {
          var (closed, ps) := Closure(r, ms, h).value;
          UsualParts(bodies, PublishPlan(closed, ps, h, signed, date), h);
          PublicationLegible(r, ms, h, signed, date);
        }
      case BodiesOnly(bodies) =>
      case Republication(_, signed, _) => RepublicationLegible(r, h, signed, date);
      case Sweeping(victims) => DeletesOnly(victims);
    }
  }

  lemma {:induction false} DeletesOnly(victims: seq<string>)
    ensures forall i :: 0 <= i < |victims| ==> Cleaning.Deletes(victims)[i].Delete?
  {
    if victims != [] { DeletesOnly(victims[..|victims| - 1]); }
  }
}
