/** What a sweep leaves: exactly the rest, if and only if every victim is its own normal form. */
module GarbageCollection {
  import opened Text
  import opened Keys
  import opened Packages
  import opened Documents
  import opened Stores
  import opened Cleaning

  /** The objects that deleting some keys removes. */
  function Targets(keys: seq<string>): set<string>
  {
    if keys == [] then {}
    else
      var last := keys[|keys| - 1];
      Targets(keys[..|keys| - 1]) + (if Named(last).Some? then {Named(last).value} else {})
  }

  lemma {:induction false} TargetsMembers(keys: seq<string>, n: string)
    ensures n in Targets(keys) <==> exists k :: k in keys && Named(k) == Some(n)
  {
    if keys != [] {
      var front, last := keys[..|keys| - 1], keys[|keys| - 1];
      assert keys == front + [last];
      TargetsMembers(front, n);
      if k :| k in keys && Named(k) == Some(n) {
        if k != last { assert k in front; }
      }
      if k :| k in front && Named(k) == Some(n) { assert k in keys; }
      if Named(last) == Some(n) { assert last in keys; }
    }
  }

  /** Deleting keys removes their targets, in whatever order. */
  lemma {:induction false} DeletesRun(objects: map<string, Doc>, keys: seq<string>)
    ensures Run(objects, Deletes(keys)) == objects - Targets(keys)
    ensures AllAccepted(objects, Deletes(keys)) <==> forall k :: k in keys ==> Named(k).Some?
  {
    if keys == [] {
      assert objects - {} == objects;
    } else {
      var front, last := keys[..|keys| - 1], keys[|keys| - 1];
      assert keys == front + [last];
      DeletesRun(objects, front);
      RunConcat(objects, Deletes(front), [Delete(last)]);
      assert forall k :: k in keys <==> k in front || k == last;
    }
  }

  /**
   A completed sweep removes exactly the listed victims when each is its own normal
   form, and only then: an unclean key stays, and the object its normal form names goes.
   */
  lemma SweepExact(objects: map<string, Doc>, victims: seq<string>)
    requires (forall k :: k in victims ==> k in objects) && AllAccepted(objects, Deletes(victims))
    ensures Run(objects, Deletes(victims)) == objects - (set k | k in victims) <==>
            forall k :: k in victims ==> Named(k) == Some(k)
  {
    DeletesRun(objects, victims);
    var exact := set k | k in victims;
    if forall k :: k in victims ==> Named(k) == Some(k) {
      forall n ensures n in Targets(victims) <==> n in exact { TargetsMembers(victims, n); }
      assert Targets(victims) == exact;
    } else {
      var k :| k in victims && Named(k) != Some(k);
      TargetsMembers(victims, k);
      if n :| n in victims && Named(n) == Some(k) { NamedFixed(n); }
      assert k in objects - Targets(victims) && k !in objects - exact;
    }
  }

  /** A named key is its own normal form. */
  lemma NamedFixed(key: string)
    requires Named(key).Some?
    ensures Named(Named(key).value) == Named(key)
  {
    JoinKeyIdempotent(key);
  }

  /** No part of a sweep over clean keys removes a key some index refers to. */
  lemma {:induction false} ReferencedSurvives(objects: map<string, Doc>, directory: string, victims: seq<string>, k: nat, key: string)
    requires Lists(victims, Unreferenced(objects, directory)) && k <= |victims|
    requires forall v :: v in victims ==> Named(v) == Some(v)
    requires key in objects && Referenced(objects, key)
    ensures key in Run(objects, Deletes(victims)[..k])
  {
    DeletesPrefix(victims, k);
    assert Deletes(victims)[..k] == Deletes(victims[..k]);
    DeletesRun(objects, victims[..k]);
    TargetsMembers(victims[..k], key);
    forall v | v in victims[..k] ensures Named(v) != Some(key) { assert v in victims; }
  }

  /**
   When cleaning succeeds over clean keys, what is left is the store without precisely
   the objects in the codename's pool that no index of any codename refers to.
   */
  lemma CleanExact(before: map<string, Doc>, codename: string, after: map<string, Doc>, deleted: seq<string>, reliable: bool)
    requires Cleaned(before, codename, after, Finished, deleted, reliable)
    requires forall k :: k in before ==> Named(k) == Some(k)
    ensures Scope(codename).Some? && Readable(before)
    ensures after == before - Unreferenced(before, Scope(codename).value)
  {
    var directory := Scope(codename).value;
    var victims: seq<string> :| Swept(before, directory, victims, after, true, deleted, reliable);
    assert Deletes(victims)[..|victims|] == Deletes(victims);
    SweepExact(before, victims);
    assert (set k | k in victims) == Unreferenced(before, directory);
  }
}
