/** Over every interleaved run with crashes, no generation of a codename loses its by-hash objects. */
module ByHashHistory {
  import opened Text
  import opened Documents
  import opened Stores
  import opened Publication
  import opened Layout
  import opened Agreement
  import opened ByHashSafety
  import opened ByHashPlans

  lemma BeginKeeps(codename: string, h: Hasher, w: World, op: Operation, after: World)
    requires Name(codename) && GoodHasher(h) && Safe(codename, h, w) && Next(codename, h, w, Begin(op), after)
    ensures Safe(codename, h, after)
  {
    BeginsGood(codename, w.history, w.objects, op, h);
    forall i | 0 <= i < |after.plans| ensures GoodPlan(codename, after.objects, after.plans[i], h) {
      if i < |w.plans| { assert GoodPlan(codename, w.objects, w.plans[i], h); }
    }
  }

  lemma IssueKeeps(codename: string, h: Hasher, w: World, i: nat, outcome: Outcome, after: World)
    requires Name(codename) && GoodHasher(h) && Safe(codename, h, w) && Next(codename, h, w, Issue(i, outcome), after)
    ensures Safe(codename, h, after) && HashesKept(codename, w.objects, after.objects)
  {
    var plan := w.plans[i];
    assert GoodPlan(codename, w.objects, plan, h);
    if !outcome.StopsBefore? && Accepted(w.objects, plan[0]) {
      HarmlessKeeps(codename, w.objects, plan[0], h);
      GoodPlanAdvances(codename, w.objects, plan, h);
      WriteRemembered(codename, h, w, plan);
    }
  }

  lemma WriteRemembered(codename: string, h: Hasher, w: World, plan: seq<Write>)
    requires Name(codename) && GoodHasher(h) && ContentAddressed(codename, w.objects, h)
    requires plan != [] && GoodPlan(codename, w.objects, plan, h) && Accepted(w.objects, plan[0])
    requires Remembered(codename, w.objects, w.history) && AllCovered(codename, w.history, Effect(w.objects, plan[0]), h)
    ensures Remembered(codename, Effect(w.objects, plan[0]), Stored(codename, w.history, plan[0]))
    ensures AllCovered(codename, Stored(codename, w.history, plan[0]), Effect(w.objects, plan[0]), h)
  {
    var write := plan[0];
    var history := Stored(codename, w.history, write);
    var objects := Effect(w.objects, write);
    assert Harmless(codename, write, h);
    if StoresRelease(codename, write) {
      HarmlessKeeps(codename, w.objects, write, h);
      assert history == w.history + [write.doc.release];
      assert history[|w.history|] == write.doc.release;
    } else {
      assert history == w.history;
      assert Named(write.key) != Some(ReleasePath(codename));
    }
    if ReleasePath(codename) in objects && !StoresRelease(codename, write) {
      assert ReleasePath(codename) in w.objects && objects[ReleasePath(codename)] == w.objects[ReleasePath(codename)];
    }
  }

  lemma StepKeeps(codename: string, h: Hasher, w: World, step: Step, after: World)
    requires Name(codename) && GoodHasher(h) && Safe(codename, h, w) && Next(codename, h, w, step, after)
    ensures Safe(codename, h, after) && HashesKept(codename, w.objects, after.objects)
    ensures |w.history| <= |after.history| && after.history[..|w.history|] == w.history
  {
    match step {
      case Begin(op) => BeginKeeps(codename, h, w, op, after);
      case Issue(i, outcome) => IssueKeeps(codename, h, w, i, outcome, after);
    }
  }

  /** Every world of a run is safe. */
  lemma {:induction false} RunSafe(codename: string, h: Hasher, worlds: seq<World>, steps: seq<Step>, i: nat)
    requires Name(codename) && GoodHasher(h) && Execution(codename, h, worlds, steps) && i < |worlds|
    ensures Safe(codename, h, worlds[i])
  {
    if i == 0 {
    } else {
      RunSafe(codename, h, worlds, steps, i - 1);
      StepKeeps(codename, h, worlds[i - 1], steps[i - 1], worlds[i]);
    }
  }

  /** No by-hash object is ever changed or removed. */
  lemma {:induction false} HashesForever(codename: string, h: Hasher, worlds: seq<World>, steps: seq<Step>, i: nat, j: nat)
    requires Name(codename) && GoodHasher(h) && Execution(codename, h, worlds, steps) && i <= j < |worlds|
    ensures HashesKept(codename, worlds[i].objects, worlds[j].objects)
    decreases j - i
  {
    if i < j {
      HashesForever(codename, h, worlds, steps, i, j - 1);
      RunSafe(codename, h, worlds, steps, j - 1);
      StepKeeps(codename, h, worlds[j - 1], steps[j - 1], worlds[j]);
    }
  }

  /**
   Whoever read a Release of the codename at any moment finds, at that moment and ever
   after, each file it lists under its by-hash key, with exactly the listed size and
   digests.
   */
  lemma OldGenerationsFetchable(codename: string, h: Hasher, worlds: seq<World>, steps: seq<Step>, i: nat, j: nat, n: string)
    requires Name(codename) && GoodHasher(h) && Execution(codename, h, worlds, steps) && i <= j < |worlds|
    requires ReleasePath(codename) in worlds[i].objects
    ensures worlds[i].objects[ReleasePath(codename)].ReleaseText?
    ensures var files := worlds[i].objects[ReleasePath(codename)].release.files;
            n in files ==>
              && CoverKey(codename, n, files[n].sha256) in worlds[j].objects
              && h(worlds[j].objects[CoverKey(codename, n, files[n].sha256)]) == files[n]
  {
    RunSafe(codename, h, worlds, steps, i);
    var files := worlds[i].objects[ReleasePath(codename)].release.files;
    if n in files {
      var k :| 0 <= k < |worlds[i].history| && worlds[i].history[k] == worlds[i].objects[ReleasePath(codename)].release;
      assert Covered(codename, worlds[i].history[k].files, worlds[i].objects, h);
      HashesForever(codename, h, worlds, steps, i, j);
    }
  }
}
