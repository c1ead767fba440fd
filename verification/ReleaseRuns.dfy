/**
 In every run, concurrent or one command at a time, each stored Release is what its own
 text reads as.
 */
module ReleaseRuns {
  import opened Text
  import opened Documents
  import opened Stores
  import opened Manifests
  import opened Publication
  import opened Retrieval
  import opened Uploading
  import opened Cleaning
  import opened Layout
  import opened Agreement
  import opened ReleaseCodec
  import opened NoDangling
  import opened CommandRuns
  import opened RepositoryRuns
  import opened CommandPlans
  import opened StoredReleases
  import Managing
  import Maintaining
  import ByHashSafety
  import CommandHistory

  // ------------------------------------------------------------- interleaved commands

  /** Stored Releases read back, and so will those still to be written. */
  ghost predicate LegibleWorld(w: ByHashSafety.World)
  {
    Legible(w.objects) && forall i :: 0 <= i < |w.plans| ==> LegibleWrites(w.plans[i])
  }

  ghost predicate LegibleWorlds(worlds: seq<ByHashSafety.World>)
  {
    forall i :: 0 <= i < |worlds| ==> LegibleWorld(worlds[i])
  }

  /** A command with a date on one line, whose indices have digests of the usual lengths. */
  ghost predicate UsualStep(step: CommandHistory.CommandStep, h: Hasher)
  {
    step.Starts? ==> SingleLine(step.date) && UsualWrites(step.plan, h)
  }

  ghost predicate UsualSteps(steps: seq<CommandHistory.CommandStep>, h: Hasher)
  {
    forall i :: 0 <= i < |steps| ==> UsualStep(steps[i], h)
  }

  lemma SeenLegible(worlds: seq<ByHashSafety.World>, seen: map<string, Doc>)
    requires LegibleWorlds(worlds) && CommandHistory.ReadFrom(worlds, seen)
    ensures Legible(seen)
  {
    forall k | k in seen ensures LegibleDoc(seen[k]) {
      var i :| 0 <= i < |worlds| && CommandHistory.Held(worlds[i], k, seen[k]);
      assert LegibleWorld(worlds[i]);
    }
  }

  lemma StartLegible(codename: string, h: Hasher, worlds: seq<ByHashSafety.World>, step: CommandHistory.CommandStep, after: ByHashSafety.World)
    requires step.Starts? && UsualStep(step, h) && LegibleWorlds(worlds) && CommandHistory.AllSafe(codename, h, worlds)
    requires CommandHistory.CommandNext(codename, h, worlds, step, after)
    ensures LegibleWrites(step.plan)
  {
    var history := worlds[|worlds| - 1].history;
    var r :| Plans(step.seen, step.command, h, step.signed, step.date, r, step.plan);
    if step.command.CleanOf? {
      CommandHistory.ReadsPlain(codename, h, worlds, step.seen);
    } else {
      var (target, o) := CommandHistory.Target(step.command).value;
      CommandHistory.ReadMayBegin(codename, h, worlds, step.seen, target, o, r);
      SeenLegible(worlds, step.seen);
      CommandHistory.PlansRead(step.seen, step.command, h, step.signed, step.date, r, step.plan);
      LegibleRead(step.seen, target, o);
    }
    var op := PlansMayBegin(codename, history, step.seen, step.command, h, step.signed, step.date, r, step.plan);
    OperationLegible(codename, history, op, r, step.date, h);
  }

  lemma StepLegible(codename: string, h: Hasher, worlds: seq<ByHashSafety.World>, step: CommandHistory.CommandStep, after: ByHashSafety.World)
    requires UsualStep(step, h) && LegibleWorlds(worlds) && CommandHistory.AllSafe(codename, h, worlds)
    requires CommandHistory.CommandNext(codename, h, worlds, step, after)
    ensures LegibleWorld(after)
  {
    var w := worlds[|worlds| - 1];
    assert LegibleWorld(w);
    match step {
      case Starts(_, _, _, _, _) => StartLegible(codename, h, worlds, step, after);
      case Issues(i, _) =>
        assert LegibleWrites(w.plans[i]);
        LegibleEffect(w.objects, w.plans[i][0]);
    }
  }

  lemma LegibleMore(codename: string, h: Hasher, worlds: seq<ByHashSafety.World>, steps: seq<CommandHistory.CommandStep>)
    requires steps != [] && CommandHistory.CommandExecution(codename, h, worlds, steps) && UsualStep(steps[|steps| - 1], h)
    requires LegibleWorlds(worlds[..|steps|]) && CommandHistory.AllSafe(codename, h, worlds[..|steps|])
    ensures LegibleWorlds(worlds)
  {
    var n := |steps|;
    CommandHistory.ExecutionFront(codename, h, worlds, steps);
    StepLegible(codename, h, worlds[..n], steps[n - 1], worlds[n]);
    WorldsMore(worlds[..n], worlds[n]);
    assert worlds == worlds[..n] + [worlds[n]];
  }

  lemma WorldsMore(worlds: seq<ByHashSafety.World>, after: ByHashSafety.World)
    requires LegibleWorlds(worlds) && LegibleWorld(after)
    ensures LegibleWorlds(worlds + [after])
  {
  }

  /** Every state of a run of commands is legible if the first one is. */
  lemma {:induction false} RunLegible(codename: string, h: Hasher, worlds: seq<ByHashSafety.World>, steps: seq<CommandHistory.CommandStep>)
    requires Name(codename) && GoodHasher(h) && CommandHistory.CommandExecution(codename, h, worlds, steps)
    requires Legible(worlds[0].objects) && UsualSteps(steps, h)
    ensures LegibleWorlds(worlds)
    decreases |steps|
  {
    if steps != [] {
      CommandHistory.ExecutionFront(codename, h, worlds, steps);
      CommandHistory.CommandsRefine(codename, h, worlds[..|steps|], steps[..|steps| - 1]);
      RunLegible(codename, h, worlds[..|steps|], steps[..|steps| - 1]);
      LegibleMore(codename, h, worlds, steps);
    }
  }

  /**
   In every interleaved run of commands, started with Releases that read back or are
   plain text, whatever Release is stored for any codename at any moment: its text,
   parsed, is that Release.
   */
  lemma StoredTextReadsBack(codename: string, h: Hasher, worlds: seq<ByHashSafety.World>, steps: seq<CommandHistory.CommandStep>,
                            i: nat, key: string, names: seq<string>)
    requires Name(codename) && GoodHasher(h) && CommandHistory.CommandExecution(codename, h, worlds, steps)
    requires Legible(worlds[0].objects) && UsualSteps(steps, h) && i < |worlds|
    requires key in worlds[i].objects && worlds[i].objects[key].ReleaseText?
    requires ListsFiles(names, worlds[i].objects[key].release.files)
    ensures var doc := worlds[i].objects[key]; ParseRelease(RenderRelease(doc.release, doc.date, names)) == doc.release
  {
    RunLegible(codename, h, worlds, steps);
    assert LegibleWorld(worlds[i]);
    LegibleReadsBack(worlds[i].objects[key], names);
  }

  // ------------------------------------------------------------ one command at a time

  /** A store after some of a plan's writes. */
  ghost predicate Follows(before: map<string, Doc>, plan: seq<Write>, after: map<string, Doc>)
  {
    exists k :: Reached(before, plan, k, after)
  }

  /** A command left the store after some of the writes it plans there, or as it was. */
  ghost predicate Planned(before: map<string, Doc>, c: Command, h: Hasher, signed: bool, date: string, after: map<string, Doc>)
  {
    after == before || exists r, plan :: Plans(before, c, h, signed, date, r, plan) && Follows(before, plan, after)
  }

  lemma UploadPlanned(before: map<string, Doc>, c: Command, h: Hasher, signed: bool, date: string, after: map<string, Doc>, ok: bool)
    requires c.UploadOf? && Uploaded(before, c.upload, c.inspected, c.disk, h, signed, date, after, ok, false)
    ensures Planned(before, c, h, signed, date, after)
  {
    var o := c.upload;
    if ReleaseRead(before, o.codename, o.overrides).Some? {
      var r := ReleaseRead(before, o.codename, o.overrides).value;
      if UploadManifests(before, o, r, c.inspected).Some? {
        var ms := UploadManifests(before, o, r, c.inspected).value;
        if Closure(r, ms, h).Ok? {
          var (closed, ps) := Closure(r, ms, h).value;
          var plan := UploadPlan(ms, c.disk, closed, ps, h, signed, date).0;
          assert Plans(before, c, h, signed, date, r, plan);
          assert Follows(before, plan, after);
        }
      }
    }
  }

  lemma ManifestsPlanned(before: map<string, Doc>, h: Hasher, signed: bool, date: string, after: map<string, Doc>, ok: bool,
                         r: ReleaseState, ms: seq<ManifestState>)
    requires Managing.ManifestsPublished(before, r, ms, h, signed, date, after, ok, false)
    ensures after == before || exists plan :: PlansManifests(r, ms, h, signed, date, plan) && Follows(before, plan, after)
  {
    if Closure(r, ms, h).Ok? {
      var (closed, ps) := Closure(r, ms, h).value;
      var plan := PublishPlan(closed, ps, h, signed, date);
      assert PlansManifests(r, ms, h, signed, date, plan);
      assert Follows(before, plan, after);
    }
  }

  lemma CopyPlanned(before: map<string, Doc>, o: Managing.CopyOptions, h: Hasher, signed: bool, date: string, after: map<string, Doc>, ok: bool)
    requires Managing.Copied(before, o, h, signed, date, after, ok, false)
    ensures Planned(before, CopyOf(o), h, signed, date, after)
  {
    if Managing.CopyRelease(before, o).Some? && Managing.CopyTarget(before, o, Managing.CopyRelease(before, o).value).Some? {
      var r := Managing.CopyRelease(before, o).value;
      ManifestsPlanned(before, h, signed, date, after, ok, r, [Managing.CopyTarget(before, o, r).value]);
      if after != before {
        var plan :| PlansManifests(r, [Managing.CopyTarget(before, o, r).value], h, signed, date, plan) && Follows(before, plan, after);
        assert Plans(before, CopyOf(o), h, signed, date, r, plan);
      }
    }
  }

  lemma DeletePlanned(before: map<string, Doc>, o: Managing.DeleteOptions, h: Hasher, signed: bool, date: string, after: map<string, Doc>, ok: bool)
    requires Managing.DeletedEntries(before, o, h, signed, date, after, ok, false)
    ensures Planned(before, DeleteOf(o), h, signed, date, after)
  {
    if ReleaseRead(before, o.codename, o.overrides).Some? &&
       Managing.DeleteTargets(before, o, ReleaseRead(before, o.codename, o.overrides).value).Some? {
      var r := ReleaseRead(before, o.codename, o.overrides).value;
      var ms := Managing.DeleteTargets(before, o, r).value;
      ManifestsPlanned(before, h, signed, date, after, ok, r, ms);
      if after != before {
        var plan :| PlansManifests(r, ms, h, signed, date, plan) && Follows(before, plan, after);
        assert Plans(before, DeleteOf(o), h, signed, date, r, plan);
      }
    }
  }

  lemma ChangedPlanned(before: map<string, Doc>, r: ReleaseState, changed: seq<ManifestState>, h: Hasher, signed: bool, date: string,
                       after: map<string, Doc>, ok: bool)
    requires Maintaining.VerifiedWrites(before, r, changed, h, signed, date, after, ok, false)
    ensures after == before || exists plan :: PlansChanged(r, changed, h, signed, date, plan) && Follows(before, plan, after)
  {
    if changed != [] {
      ManifestsPlanned(before, h, signed, date, after, ok, r, changed);
      if after != before {
        var plan :| PlansManifests(r, changed, h, signed, date, plan) && Follows(before, plan, after);
        assert PlansChanged(r, changed, h, signed, date, plan);
      }
    } else if signed {
      assert PlansChanged(r, changed, h, signed, date, ReleasePlan(r, h, signed, date));
      assert Follows(before, ReleasePlan(r, h, signed, date), after);
    }
  }

  lemma VerifyPlanned(before: map<string, Doc>, o: Maintaining.VerifyOptions, h: Hasher, signed: bool, date: string, after: map<string, Doc>,
                      ok: bool, counts: Maintaining.Counts)
    requires Maintaining.Verified(before, o, h, signed, date, after, ok, counts, false)
    ensures Planned(before, VerifyOf(o), h, signed, date, after)
  {
    if ReleaseRead(before, o.codename, o.overrides).Some? &&
       Maintaining.VerifyAll(before, o, ReleaseRead(before, o.codename, o.overrides).value).Some? {
      var r := ReleaseRead(before, o.codename, o.overrides).value;
      var changed := Maintaining.VerifyAll(before, o, r).value.changed;
      ChangedPlanned(before, r, changed, h, signed, date, after, ok);
      if after != before {
        var plan :| PlansChanged(r, changed, h, signed, date, plan) && Follows(before, plan, after);
        assert Plans(before, VerifyOf(o), h, signed, date, r, plan);
      }
    }
  }

  lemma CleanPlanned(before: map<string, Doc>, c: Command, h: Hasher, signed: bool, date: string, after: map<string, Doc>,
                     outcome: CleanOutcome, deleted: seq<string>)
    requires c.CleanOf? && Cleaned(before, c.codename, after, outcome, deleted, false)
    ensures Planned(before, c, h, signed, date, after)
  {
    if !outcome.Refused? {
      var directory := Scope(c.codename).value;
      var victims: seq<string> :| Swept(before, directory, victims, after, outcome.Finished?, deleted, false);
      assert VictimsOf(before, directory, victims);
      assert Plans(before, c, h, signed, date, NO_RELEASE, Deletes(victims));
      assert Follows(before, Deletes(victims), after);
    }
  }

  /** What the methods of the commands leave is some of the writes that the concurrent machine has them plan. */
  lemma HappensPlanned(before: map<string, Doc>, c: Command, h: Hasher, signed: bool, date: string, after: map<string, Doc>)
    requires Whole(before) && WellNamed(c) && Happens(before, c, h, signed, date, after)
    ensures Planned(before, c, h, signed, date, after)
  {
    match c {
      case UploadOf(o, inspected, disk) =>
        var ok :| Uploaded(before, o, inspected, disk, h, signed, date, after, ok, false);
        UploadPlanned(before, c, h, signed, date, after, ok);
      case CopyOf(o) =>
        var ok :| Managing.Copied(before, o, h, signed, date, after, ok, false);
        CopyPlanned(before, o, h, signed, date, after, ok);
      case DeleteOf(o) =>
        var ok :| Managing.DeletedEntries(before, o, h, signed, date, after, ok, false);
        DeletePlanned(before, o, h, signed, date, after, ok);
      case VerifyOf(o) =>
        WholeVerifiable(before, o);
        var ok, counts :| Maintaining.Verified(before, o, h, signed, date, after, ok, counts, false);
        VerifyPlanned(before, o, h, signed, date, after, ok, counts);
      case CleanOf(codename) =>
        WholeTidy(before);
        var outcome, deleted :| Cleaned(before, codename, after, outcome, deleted, false);
        CleanPlanned(before, c, h, signed, date, after, outcome, deleted);
    }
  }

  /** As UsualStep, for whatever the command decides to write. */
  ghost predicate UsualDoing(h: Hasher, before: map<string, Doc>, d: Doing)
  {
    SingleLine(d.date) && forall r, plan :: Plans(before, d.command, h, d.signed, d.date, r, plan) ==> UsualWrites(plan, h)
  }

  /** What a command reads of a Release in a whole store is one that any codename's machine may work on. */
  lemma ReadAnywhere(before: map<string, Doc>, c: Command, h: Hasher, signed: bool, date: string, r: ReleaseState, plan: seq<Write>,
                     other: string)
    requires Whole(before) && Legible(before) && WellNamed(c) && !c.CleanOf? && Plans(before, c, h, signed, date, r, plan)
    requires other != r.codename
    ensures ByHashSafety.MayRead(other, [], r) && PrintableFiles(r.files)
  {
    var (target, o) := CommandHistory.Target(c).value;
    CommandHistory.PlansRead(before, c, h, signed, date, r, plan);
    ReleaseReadGood(before, target, o);
    LegibleRead(before, target, o);
  }

  lemma PlanLegible(before: map<string, Doc>, c: Command, h: Hasher, signed: bool, date: string, r: ReleaseState, plan: seq<Write>)
    requires Whole(before) && Legible(before) && WellNamed(c) && SingleLine(date)
    requires Plans(before, c, h, signed, date, r, plan) && UsualWrites(plan, h)
    ensures LegibleWrites(plan)
  {
    var other := r.codename + "-";
    if !c.CleanOf? { ReadAnywhere(before, c, h, signed, date, r, plan, other); }
    var op := PlansMayBegin(other, [], before, c, h, signed, date, r, plan);
    OperationLegible(other, [], op, r, date, h);
  }

  lemma LegiblePart(before: map<string, Doc>, plan: seq<Write>, after: map<string, Doc>)
    requires Legible(before) && LegibleWrites(plan) && Follows(before, plan, after)
    ensures Legible(after)
  {
    var k: nat :| Reached(before, plan, k, after);
    LegibleRun(before, plan[..k]);
  }

  lemma DoingLegible(h: Hasher, before: map<string, Doc>, d: Doing, after: map<string, Doc>)
    requires Whole(before) && Legible(before) && Did(h, before, d, after) && UsualDoing(h, before, d)
    ensures Legible(after)
  {
    HappensPlanned(before, d.command, h, d.signed, d.date, after);
    if after != before {
      var r, plan :| Plans(before, d.command, h, d.signed, d.date, r, plan) && Follows(before, plan, after);
      PlanLegible(before, d.command, h, d.signed, d.date, r, plan);
      LegiblePart(before, plan, after);
    }
  }

  /** The same in every run of one command at a time, each finished or stopped after any store write. */
  lemma {:induction false} SequenceReadsBack(h: Hasher, states: seq<map<string, Doc>>, done: seq<Doing>, i: nat)
    requires GoodHasher(h) && Sequence(h, states, done) && Whole(states[0]) && Legible(states[0]) && i < |states|
    requires forall j :: 0 <= j < |done| ==> UsualDoing(h, states[j], done[j])
    ensures Legible(states[i])
  {
    if i > 0 {
      SequenceReadsBack(h, states, done, i - 1);
      WholeRun(h, states, done, i - 1);
      SequenceAt(h, states, done, i - 1);
      DoingLegible(h, states[i - 1], done[i - 1], states[i]);
    }
  }
}
