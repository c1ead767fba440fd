/**
 The S3 store's put: a HeadObject followed by a conditional PutObject, with other
 clients acting on the bucket in between. It takes effect at one moment, at which it
 does what the in-memory store does atomically.
 */
module S3 {
  import opened Text
  import opened Documents
  import opened Stores

  type Objects = map<string, Doc>

  /** The bucket after one atomic request, and whose request it was. */
  datatype Moment = Moment(own: bool, objects: Objects)

  /** What a put answers; to its caller a race with another request is a conflict too. */
  datatype PutResult = Kept | Conflicting | Raced | Failing

  /** What a put answers when it is one atomic step. */
  function AtomicResult(objects: Objects, key: string, doc: Doc, options: PutOptions): PutResult
  {
    if Refused(objects, key, doc, options) then Conflicting else Kept
  }

  /** A bucket; requests fail on their own, or race with others under way, only if it is not reliable. */
  class Bucket {
    const reliable: bool
    var objects: Objects
    ghost var history: seq<Moment>

    ghost predicate Valid()
      reads this
    {
      history != [] && history[|history| - 1].objects == objects
    }

    constructor (objects: Objects, reliable: bool)
      ensures Valid() && this.objects == objects && |history| == 1 && this.reliable == reliable
    {
      this.objects, this.reliable := objects, reliable;
      history := [Moment(false, objects)];
    }

    /** Any number of requests by other clients. */
    method Others()
      requires Valid()
      modifies this
      ensures Valid() && |history| == |old(history)| + 1 && history[..|old(history)|] == old(history)
      ensures !history[|old(history)|].own
    {
      objects := *;
      history := history + [Moment(false, objects)];
    }

    /** A request that reads one object. */
    method HeadObject(key: string) returns (found: Result<Option<Doc>, StoreError>)
      requires Valid()
      modifies this
      ensures Valid() && objects == old(objects) && history == old(history) + [Moment(true, objects)]
      ensures found.Ok? ==> found.value == if key in objects then Some(objects[key]) else None
      ensures reliable ==> found.Ok?
    {
      var fault: bool := *;
      history := history + [Moment(true, objects)];
      found := if fault && !reliable then Err(Unavailable) else Ok(if key in objects then Some(objects[key]) else None);
    }

    /** A request that stores one object, on request only if there is none. */
    method PutObject(key: string, doc: Doc, ifNoneMatch: bool) returns (result: PutResult)
      requires Valid()
      modifies this
      ensures Valid() && history == old(history) + [Moment(true, objects)]
      ensures result == Conflicting ==> ifNoneMatch && key in old(objects) && objects == old(objects)
      ensures result == Kept ==> !(ifNoneMatch && key in old(objects)) && objects == old(objects)[key := doc]
      ensures result == Failing ==>
                objects == old(objects) || (!(ifNoneMatch && key in old(objects)) && objects == old(objects)[key := doc])
      ensures result == Raced ==> objects == old(objects)
      ensures reliable ==> result != Failing && result != Raced
    {
      var early: bool, late: bool, race: bool := *, *, *;
      if early && !reliable {
        result := if race then Raced else Failing;
      } else if ifNoneMatch && key in objects {
        result := Conflicting;
      } else {
        objects := objects[key := doc];
        result := if late && !reliable then Failing else Kept;
      }
      history := history + [Moment(true, objects)];
    }
  }

  /** What one moment of a put did, seen as the atomic put; an answer of conflict may be spurious, when the same bytes just appeared. */
  ghost predicate TakesEffect(before: Objects, after: Objects, key: string, doc: Doc, options: PutOptions, result: PutResult)
  {
    match result
    case Kept => AtomicResult(before, key, doc, options) == Kept && after == PutAt(before, key, doc, options)
    case Conflicting =>
      && after == before && key in before && (options.failIfExists || options.createOnly)
      && (before[key] != doc ==> AtomicResult(before, key, doc, options) == Conflicting)
    case Raced => after == before
    case Failing => after == before || (AtomicResult(before, key, doc, options) == Kept && after == PutAt(before, key, doc, options))
  }

  /** The moments from one on, of which a put made its own. */
  ghost predicate Linearized(history: seq<Moment>, start: nat, t: nat, key: string, doc: Doc, options: PutOptions, result: PutResult)
  {
    && 0 < start <= t < |history| && history[t].own
    && TakesEffect(history[t - 1].objects, history[t].objects, key, doc, options, result)
    && forall j :: start <= j < |history| && history[j].own && j != t ==> history[j].objects == history[j - 1].objects
  }

  /**
   What a put's own moments do, whatever it answers: they touch no other key, they leave
   an existing object as it is if it must not be replaced, and after a success the key
   held the requested bytes at one of them.
   */
  ghost predicate OwnEffects(history: seq<Moment>, start: nat, key: string, doc: Doc, options: PutOptions, result: PutResult)
  {
    && 0 < start <= |history|
    && (forall j :: start <= j < |history| && history[j].own ==> OwnEffect(history[j - 1].objects, history[j].objects, key, options))
    && (result == Kept ==> exists t :: start <= t < |history| && history[t].own && Stored(history[t].objects, key, doc))
  }

  ghost predicate OwnEffect(before: Objects, after: Objects, key: string, options: PutOptions)
  {
    && (forall other :: other != key ==> Same(before, after, other))
    && ((options.failIfExists || options.createOnly) && key in before ==> Same(before, after, key))
  }

  ghost predicate Same(before: Objects, after: Objects, key: string)
  {
    (key in before <==> key in after) && (key in before && key in after ==> before[key] == after[key])
  }

  predicate Stored(objects: Objects, key: string, doc: Doc)
  {
    key in objects && objects[key] == doc
  }

  lemma LinearizedOwn(history: seq<Moment>, start: nat, t: nat, key: string, doc: Doc, options: PutOptions, result: PutResult)
    requires Linearized(history, start, t, key, doc, options, result)
    ensures OwnEffects(history, start, key, doc, options, result)
  {
    forall j | start <= j < |history| && history[j].own
      ensures OwnEffect(history[j - 1].objects, history[j].objects, key, options)
    {
      assert j != t ==> history[j].objects == history[j - 1].objects;
    }
    assert result == Kept ==> Stored(history[t].objects, key, doc);
  }

  // ----------------------------------------------------- what the two requests decide

  /** Whether the Head settles the put: the object is there, and is what is asked for or must not be replaced. */
  predicate Settled(seen: Objects, key: string, doc: Doc, options: PutOptions)
  {
    key in seen && (seen[key] == doc || options.failIfExists || options.createOnly)
  }

  /** Whether the second request stores only where there is nothing. */
  predicate Conditional(seen: Objects, key: string, options: PutOptions)
  {
    options.createOnly || (options.failIfExists && key !in seen)
  }

  /** What a put answers when its requests see these objects and none of them fails. */
  function Answer(seen: Objects, found: Objects, key: string, doc: Doc, options: PutOptions): PutResult
  {
    if Settled(seen, key, doc, options) then if seen[key] == doc then Kept else Conflicting
    else if Conditional(seen, key, options) && key in found then Conflicting
    else Kept
  }

  /** The objects at the moment that decides. */
  function Deciding(seen: Objects, found: Objects, key: string, doc: Doc, options: PutOptions): Objects
  {
    if Settled(seen, key, doc, options) then seen else found
  }

  /** The bucket's moments during such a put. */
  function Moments(seen: Objects, found: Objects, key: string, doc: Doc, options: PutOptions): seq<Moment>
  {
    [Moment(false, seen), Moment(true, seen)] +
    if Settled(seen, key, doc, options) then []
    else [Moment(false, found), Moment(true, if Answer(seen, found, key, doc, options) == Kept then found[key := doc] else found)]
  }

  /** A put's own moments, as one atomic put among the others. */
  ghost predicate Atomic(history: seq<Moment>, start: nat, key: string, doc: Doc, options: PutOptions, result: PutResult)
  {
    (exists t: nat :: Linearized(history, start, t, key, doc, options, result)) && OwnEffects(history, start, key, doc, options, result)
  }

  /** A put without faults: its answer and its moments follow from what its requests saw. */
  ghost predicate Faultless(before: seq<Moment>, history: seq<Moment>, key: string, doc: Doc, options: PutOptions, result: PutResult)
  {
    exists seen, found :: result == Answer(seen, found, key, doc, options) && history == before + Moments(seen, found, key, doc, options)
  }

  /** A put that ends with its Head takes effect there. */
  lemma HeadDecides(before: seq<Moment>, seen: Objects, key: string, doc: Doc, options: PutOptions, result: PutResult)
    requires before != [] && TakesEffect(seen, seen, key, doc, options, result)
    ensures var history := before + [Moment(false, seen), Moment(true, seen)];
            && Atomic(history, |before|, key, doc, options, result)
            && (Settled(seen, key, doc, options) && result == Answer(seen, seen, key, doc, options) ==>
                  Faultless(before, history, key, doc, options, result))
  {
    var history := before + [Moment(false, seen), Moment(true, seen)];
    assert Linearized(history, |before|, |before| + 1, key, doc, options, result);
    LinearizedOwn(history, |before|, |before| + 1, key, doc, options, result);
    assert Settled(seen, key, doc, options) ==> history == before + Moments(seen, seen, key, doc, options);
  }

  /** A put that goes on takes effect with its PutObject. */
  lemma PutDecides(before: seq<Moment>, seen: Objects, found: Objects, left: Objects, key: string, doc: Doc, options: PutOptions, result: PutResult)
    requires before != [] && TakesEffect(found, left, key, doc, options, result) && !Settled(seen, key, doc, options)
    ensures var history := before + [Moment(false, seen), Moment(true, seen), Moment(false, found), Moment(true, left)];
            && Linearized(history, |before|, |before| + 3, key, doc, options, result)
            && Atomic(history, |before|, key, doc, options, result)
            && (result == Answer(seen, found, key, doc, options) && left == (if result == Kept then found[key := doc] else found) ==>
                  Faultless(before, history, key, doc, options, result))
  {
    var history := before + [Moment(false, seen), Moment(true, seen), Moment(false, found), Moment(true, left)];
    assert Linearized(history, |before|, |before| + 3, key, doc, options, result);
    LinearizedOwn(history, |before|, |before| + 3, key, doc, options, result);
    if result == Answer(seen, found, key, doc, options) && left == (if result == Kept then found[key := doc] else found) {
      assert history == before + Moments(seen, found, key, doc, options);
    }
  }

  /** Put: other clients act before and between its two requests. */
  method Put(bucket: Bucket, key: string, doc: Doc, options: PutOptions) returns (result: PutResult)
    requires bucket.Valid()
    modifies bucket
    ensures bucket.Valid() && old(bucket.history) <= bucket.history
    ensures Atomic(bucket.history, |old(bucket.history)|, key, doc, options, result)
    ensures bucket.reliable ==> Faultless(old(bucket.history), bucket.history, key, doc, options, result)
  {
    ghost var before := bucket.history;
    bucket.Others();
    var existing := bucket.HeadObject(key);
    ghost var seen := bucket.objects;
    assert bucket.history == before + [Moment(false, seen), Moment(true, seen)];
    if existing.Err? {
      HeadDecides(before, seen, key, doc, options, Failing);
      return Failing;
    }
    if existing.value.Some? {
      if existing.value.value == doc {
        assert seen[key := doc] == seen;
        HeadDecides(before, seen, key, doc, options, Kept);
        return Kept;
      }
      if options.failIfExists || options.createOnly {
        HeadDecides(before, seen, key, doc, options, Conflicting);
        return Conflicting;
      }
    }
    var ifNoneMatch := options.createOnly || (options.failIfExists && existing.value.None?);
    bucket.Others();
    ghost var found := bucket.objects;
    result := bucket.PutObject(key, doc, ifNoneMatch);
    if key in found && found[key] == doc { assert found[key := doc] == found; }
    assert bucket.history == before + [Moment(false, seen), Moment(true, seen), Moment(false, found), Moment(true, bucket.objects)];
    PutDecides(before, seen, found, bucket.objects, key, doc, options, result);
  }

  /**
   A conflict is answered where the atomic put would have succeeded exactly when there
   was nothing under the key at first and the same bytes when the second request came,
   and the put must not replace.
   */
  lemma SpuriousConflict(seen: Objects, found: Objects, key: string, doc: Doc, options: PutOptions)
    ensures Answer(seen, found, key, doc, options) == Conflicting &&
            AtomicResult(Deciding(seen, found, key, doc, options), key, doc, options) == Kept <==>
            && (options.createOnly || options.failIfExists) && key !in seen && Stored(found, key, doc)
  {
  }

  /** Such a conflict happens: somebody else stores the same bytes between the two requests of a create-only put. */
  lemma SpuriousHistory(key: string, doc: Doc)
    ensures var history := [Moment(false, map[])] + Moments(map[], map[key := doc], key, doc, PutOptions(false, true));
            && Answer(map[], map[key := doc], key, doc, PutOptions(false, true)) == Conflicting
            && history == [Moment(false, map[]), Moment(false, map[]), Moment(true, map[]), Moment(false, map[key := doc]), Moment(true, map[key := doc])]
            && Linearized(history, 1, 4, key, doc, PutOptions(false, true), Conflicting)
            && AtomicResult(history[3].objects, key, doc, PutOptions(false, true)) == Kept
  {
    SpuriousConflict(map[], map[key := doc], key, doc, PutOptions(false, true));
    PutDecides([Moment(false, map[])], map[], map[key := doc], map[key := doc], key, doc, PutOptions(false, true), Conflicting);
  }

  // ------------------------------------------------------------------------ listings

  datatype Page = Page(keys: seq<string>, truncated: bool, next: Option<nat>)

  /** One page of a listing, from a position on; unless reliable, a truncated page may come without a continuation. */
  method ListObjects(all: seq<string>, start: nat, reliable: bool) returns (page: Option<Page>)
    requires start <= |all|
    ensures page.Some? ==>
              && page.value.keys <= all[start..]
              && (page.value.truncated <==> start + |page.value.keys| < |all|)
              && (page.value.truncated && page.value.next.Some? ==>
                    page.value.next.value == start + |page.value.keys| && page.value.keys != [])
    ensures reliable ==> page.Some? && (page.value.truncated ==> page.value.next.Some?)
  {
    var fault: bool, lost: bool, size: int := *, *, *;
    if fault && !reliable { return None; }
    var n := if 0 < size <= |all| - start then size else |all| - start;
    var truncated := start + n < |all|;
    page := Some(Page(all[start..start + n], truncated, if truncated && (reliable || !lost) then Some(start + n) else None));
  }

  /** Following continuations yields the whole listing; a truncated page without one is an error. */
  method ListAll(all: seq<string>, reliable: bool) returns (keys: Option<seq<string>>)
    ensures keys.Some? ==> keys.value == all
    ensures reliable ==> keys.Some?
  {
    var token, found := 0, [];
    while true
      invariant token <= |all| && found == all[..token]
      decreases |all| - token
    {
      var page := ListObjects(all, token, reliable);
      if page.None? { return None; }
      found := found + page.value.keys;
      assert all[..token] + all[token..] == all;
      if !page.value.truncated { return Some(found); }
      if page.value.next.None? { return None; }
      token := page.value.next.value;
    }
  }
}
