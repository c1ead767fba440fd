/**
 Runs of commands: each reads objects as they were at some earlier moments, decides,
 and issues its writes one by one, interleaved with the others. Every such run is a
 run of the by-hash machine, so no generation of a codename loses its by-hash objects.
 */
module CommandHistory {
  import opened Text
  import opened Documents
  import opened Stores
  import opened Publication
  import opened Retrieval
  import opened Layout
  import opened Agreement
  import opened GarbageCollection
  import opened CommandRuns
  import opened CommandPlans
  import opened ByHashSafety
  import opened ByHashHistory

  // -------------------------------------------------------------------- the machine

  /** What each key held at some moment; not all of one moment, nor of the last. */
  ghost predicate ReadFrom(worlds: seq<World>, seen: map<string, Doc>)
  {
    && (forall k :: k in seen ==> exists i :: 0 <= i < |worlds| && Held(worlds[i], k, seen[k]))
    && (forall k :: k !in seen ==> exists i :: 0 <= i < |worlds| && k !in worlds[i].objects)
  }

  ghost predicate Held(w: World, key: string, doc: Doc)
  {
    key in w.objects && w.objects[key] == doc
  }

  /** The codename a command works on, and what it overrides in its Release. */
  function Target(c: Command): Option<(string, Overrides)>
  {
    match c
    case UploadOf(o, _, _) => Some((o.codename, o.overrides))
    case CopyOf(o) => Some((o.codename, Overrides(None, None, o.byHash)))
    case DeleteOf(o) => Some((o.codename, o.overrides))
    case VerifyOf(o) => Some((o.codename, o.overrides))
    case CleanOf(_) => None
  }

  lemma PlansRead(seen: map<string, Doc>, c: Command, h: Hasher, signed: bool, date: string, r: ReleaseState, plan: seq<Write>)
    requires Target(c).Some? && Plans(seen, c, h, signed, date, r, plan)
    ensures ReleaseRead(seen, Target(c).value.0, Target(c).value.1) == Some(r)
  {
  }

  /** A command does not turn by-hash off, and turns it on when it finds no Release. */
  ghost predicate KeepsByHash(codename: string, c: Command, seen: map<string, Doc>)
  {
    Target(c).Some? && Target(c).value.0 == codename ==>
      var byHash := Target(c).value.1.byHash;
      byHash != Some(false) && (ReleasePath(codename) in seen || byHash == Some(true))
  }

  datatype CommandStep =
    | Starts(command: Command, seen: map<string, Doc>, signed: bool, date: string, plan: seq<Write>)
    | Issues(writer: nat, outcome: Outcome)

  ghost predicate CommandNext(codename: string, h: Hasher, worlds: seq<World>, step: CommandStep, after: World)
    requires worlds != []
  {
    var w := worlds[|worlds| - 1];
    match step
    case Starts(c, seen, signed, date, plan) =>
      && WellNamed(c) && ReadFrom(worlds, seen) && KeepsByHash(codename, c, seen)
      && (exists r :: Plans(seen, c, h, signed, date, r, plan))
      && after == w.(plans := w.plans + [plan])
    case Issues(i, outcome) => Next(codename, h, w, Issue(i, outcome), after)
  }

  /** Clean keys, and Releases of any codename with usable names. */
  ghost predicate Orderly(objects: map<string, Doc>)
  {
    PlainKeys(objects) && forall k :: k in objects && ReleaseKey(k) ==> GoodStored(objects[k])
  }

  ghost predicate CommandExecution(codename: string, h: Hasher, worlds: seq<World>, steps: seq<CommandStep>)
  {
    && |worlds| == |steps| + 1 && Initial(codename, worlds[0]) && Orderly(worlds[0].objects)
    && forall i :: 0 <= i < |steps| ==> CommandNext(codename, h, worlds[..i + 1], steps[i], worlds[i + 1])
  }

  // ---------------------------------------------------------------- what may be read

  /** A Release read in a safe state, by-hash being left on, is one that may be worked on. */
  lemma ReadGeneration(codename: string, h: Hasher, w: World, o: Overrides, r: ReleaseState)
    requires SensibleRelease(codename, o) && Safe(codename, h, w) && ReleaseRead(w.objects, codename, o) == Some(r)
    requires o.byHash != Some(false) && (ReleasePath(codename) in w.objects || o.byHash == Some(true))
    ensures MayRead(codename, w.history, r)
  {
    ReleaseKeys(codename);
    if ReleasePath(codename) in w.objects {
      var i :| 0 <= i < |w.history| && w.history[i] == w.objects[ReleasePath(codename)].release;
      assert GenerationOf(codename, w.history[i]);
    }
  }

  lemma MayReadLater(codename: string, before: seq<ReleaseState>, history: seq<ReleaseState>, r: ReleaseState)
    requires MayRead(codename, before, r) && before <= history
    ensures MayRead(codename, history, r)
  {
    if r.codename == codename && r.files != map[] {
      var i :| 0 <= i < |before| && r.files == before[i].files;
      assert history[i] == before[i];
    }
  }

  /** The Release of another codename that was read in an orderly state. */
  lemma ReadOther(codename: string, objects: map<string, Doc>, other: string, o: Overrides, history: seq<ReleaseState>, r: ReleaseState)
    requires Orderly(objects) && SensibleRelease(other, o) && other != codename && ReleaseRead(objects, other, o) == Some(r)
    ensures MayRead(codename, history, r)
  {
    ReleaseKeys(other);
  }

  /** What is read of a Release depends on its object alone. */
  lemma SameRelease(objects: map<string, Doc>, seen: map<string, Doc>, codename: string, o: Overrides)
    requires Name(codename) && (ReleasePath(codename) in seen <==> ReleasePath(codename) in objects)
    requires ReleasePath(codename) in seen ==> objects[ReleasePath(codename)] == seen[ReleasePath(codename)]
    ensures ReleaseRead(seen, codename, o) == ReleaseRead(objects, codename, o)
  {
    ReleaseKeys(codename);
  }

  /** All states so far are safe and orderly, and the history only grew. */
  ghost predicate AllSafe(codename: string, h: Hasher, worlds: seq<World>)
  {
    worlds != [] && forall i :: 0 <= i < |worlds| ==>
      Safe(codename, h, worlds[i]) && Orderly(worlds[i].objects) && worlds[i].history <= worlds[|worlds| - 1].history
  }

  lemma ReadMayBegin(codename: string, h: Hasher, worlds: seq<World>, seen: map<string, Doc>, target: string, o: Overrides, r: ReleaseState)
    requires AllSafe(codename, h, worlds) && ReadFrom(worlds, seen) && SensibleRelease(target, o)
    requires target == codename ==> o.byHash != Some(false) && (ReleasePath(codename) in seen || o.byHash == Some(true))
    requires ReleaseRead(seen, target, o) == Some(r)
    ensures MayRead(codename, worlds[|worlds| - 1].history, r)
  {
    var key := ReleasePath(target);
    var i :| 0 <= i < |worlds| && if key in seen then Held(worlds[i], key, seen[key]) else key !in worlds[i].objects;
    SameRelease(worlds[i].objects, seen, target, o);
    if target == codename {
      ReadGeneration(codename, h, worlds[i], o, r);
      MayReadLater(codename, worlds[i].history, worlds[|worlds| - 1].history, r);
    } else {
      ReadOther(codename, worlds[i].objects, target, o, worlds[|worlds| - 1].history, r);
    }
  }

  lemma ReadsPlain(codename: string, h: Hasher, worlds: seq<World>, seen: map<string, Doc>)
    requires AllSafe(codename, h, worlds) && ReadFrom(worlds, seen)
    ensures PlainKeys(seen)
  {
    forall k | k in seen ensures Named(k) == Some(k) {
      var i :| 0 <= i < |worlds| && Held(worlds[i], k, seen[k]);
      assert Orderly(worlds[i].objects);
    }
  }

  // -------------------------------------------------------------------- refinement

  /** A command that starts is an operation that begins. */
  lemma StartBegins(codename: string, h: Hasher, worlds: seq<World>, step: CommandStep, after: World) returns (begun: Step)
    requires step.Starts? && AllSafe(codename, h, worlds) && CommandNext(codename, h, worlds, step, after)
    ensures Next(codename, h, worlds[|worlds| - 1], begun, after)
  {
    var history := worlds[|worlds| - 1].history;
    var r :| Plans(step.seen, step.command, h, step.signed, step.date, r, step.plan);
    if step.command.CleanOf? {
      ReadsPlain(codename, h, worlds, step.seen);
    } else {
      var (target, o) := Target(step.command).value;
      ReadMayBegin(codename, h, worlds, step.seen, target, o, r);
    }
    var op := PlansMayBegin(codename, history, step.seen, step.command, h, step.signed, step.date, r, step.plan);
    begun := Begin(op);
  }

  lemma IssueOrderly(codename: string, h: Hasher, w: World, i: nat, outcome: Outcome, after: World)
    requires Safe(codename, h, w) && Orderly(w.objects) && Next(codename, h, w, Issue(i, outcome), after)
    ensures Orderly(after.objects)
  {
    var write := w.plans[i][0];
    assert GoodPlan(codename, w.objects, w.plans[i], h);
    assert Harmless(codename, write, h);
    if Named(write.key).Some? { NamedFixed(write.key); }
  }

  lemma StepRefined(codename: string, h: Hasher, worlds: seq<World>, step: CommandStep, after: World) returns (taken: Step)
    requires Name(codename) && GoodHasher(h) && AllSafe(codename, h, worlds) && CommandNext(codename, h, worlds, step, after)
    ensures Next(codename, h, worlds[|worlds| - 1], taken, after)
    ensures AllSafe(codename, h, worlds + [after])
  {
    var w := worlds[|worlds| - 1];
    match step {
      case Starts(_, _, _, _, _) => taken := StartBegins(codename, h, worlds, step, after);
      case Issues(i, outcome) =>
        taken := Issue(i, outcome);
        IssueOrderly(codename, h, w, i, outcome, after);
    }
    StepKeeps(codename, h, w, taken, after);
    SafeMore(codename, h, worlds, after);
  }

  /** Some steps of the by-hash machine lead through these states. */
  ghost predicate Refined(codename: string, h: Hasher, worlds: seq<World>)
  {
    exists taken :: Execution(codename, h, worlds, taken)
  }

  lemma RefinedMore(codename: string, h: Hasher, worlds: seq<World>, step: CommandStep, after: World)
    requires Name(codename) && GoodHasher(h) && AllSafe(codename, h, worlds) && CommandNext(codename, h, worlds, step, after)
    requires Refined(codename, h, worlds)
    ensures Refined(codename, h, worlds + [after]) && AllSafe(codename, h, worlds + [after])
  {
    var last := StepRefined(codename, h, worlds, step, after);
    var taken :| Execution(codename, h, worlds, taken);
    ExecutionMore(codename, h, worlds, taken, last, after);
  }

  lemma SafeMore(codename: string, h: Hasher, worlds: seq<World>, after: World)
    requires AllSafe(codename, h, worlds) && Safe(codename, h, after) && Orderly(after.objects)
    requires worlds[|worlds| - 1].history <= after.history
    ensures AllSafe(codename, h, worlds + [after])
  {
    forall i | 0 <= i < |worlds| ensures worlds[i].history <= after.history {
      assert worlds[i].history <= worlds[|worlds| - 1].history;
    }
  }

  lemma ExecutionMore(codename: string, h: Hasher, worlds: seq<World>, steps: seq<Step>, taken: Step, after: World)
    requires Execution(codename, h, worlds, steps) && Next(codename, h, worlds[|worlds| - 1], taken, after)
    ensures Execution(codename, h, worlds + [after], steps + [taken])
  {
    var all, more := worlds + [after], steps + [taken];
    forall i | 0 <= i < |more| ensures Next(codename, h, all[i], more[i], all[i + 1]) {
      if i < |steps| { assert all[i] == worlds[i] && all[i + 1] == worlds[i + 1] && more[i] == steps[i]; }
    }
  }

  lemma CommandsRefineMore(codename: string, h: Hasher, worlds: seq<World>, steps: seq<CommandStep>)
    requires Name(codename) && GoodHasher(h) && steps != [] && CommandExecution(codename, h, worlds, steps)
    requires Refined(codename, h, worlds[..|steps|]) && AllSafe(codename, h, worlds[..|steps|])
    ensures Refined(codename, h, worlds) && AllSafe(codename, h, worlds)
  {
    var front, after := worlds[..|steps|], worlds[|steps|];
    LastWorld(worlds, |steps|);
    ExecutionFront(codename, h, worlds, steps);
    RefinedMore(codename, h, front, steps[|steps| - 1], after);
  }

  lemma LastWorld(worlds: seq<World>, n: nat)
    requires |worlds| == n + 1
    ensures worlds[..n] + [worlds[n]] == worlds
  {
  }

  lemma NothingRefined(codename: string, h: Hasher, worlds: seq<World>)
    requires CommandExecution(codename, h, worlds, [])
    ensures Refined(codename, h, worlds) && AllSafe(codename, h, worlds)
  {
    assert Execution(codename, h, worlds, []);
  }

  /** Every run of commands is a run of the by-hash machine, with by-hash read as on in each of them. */
  lemma {:induction false} CommandsRefine(codename: string, h: Hasher, worlds: seq<World>, steps: seq<CommandStep>)
    requires Name(codename) && GoodHasher(h) && CommandExecution(codename, h, worlds, steps)
    ensures Refined(codename, h, worlds) && AllSafe(codename, h, worlds)
    decreases |steps|
  {
    if steps == [] {
      NothingRefined(codename, h, worlds);
    } else {
      ExecutionFront(codename, h, worlds, steps);
      CommandsRefine(codename, h, worlds[..|steps|], steps[..|steps| - 1]);
      CommandsRefineMore(codename, h, worlds, steps);
    }
  }

  lemma ExecutionFront(codename: string, h: Hasher, worlds: seq<World>, steps: seq<CommandStep>)
    requires steps != [] && CommandExecution(codename, h, worlds, steps)
    ensures CommandExecution(codename, h, worlds[..|steps|], steps[..|steps| - 1])
    ensures CommandNext(codename, h, worlds[..|steps|], steps[|steps| - 1], worlds[|steps|])
  {
    var n := |steps| - 1;
    forall i | 0 <= i < n ensures CommandNext(codename, h, worlds[..n + 1][..i + 1], steps[..n][i], worlds[..n + 1][i + 1]) {
      assert worlds[..n + 1][..i + 1] == worlds[..i + 1];
    }
  }

  /**
   In every run of uploads, copies, deletions, verifications and cleanings of any
   codenames, each reading what it reads at any moments, crashing anywhere, and none
   turning by-hash off: whoever read a Release of the codename finds, at that moment and
   ever after, each file it lists under its by-hash key, with exactly the listed size
   and digests.
   */
  lemma CommandsKeepGenerations(codename: string, h: Hasher, worlds: seq<World>, steps: seq<CommandStep>, i: nat, j: nat, n: string)
    requires Name(codename) && GoodHasher(h) && CommandExecution(codename, h, worlds, steps) && i <= j < |worlds|
    requires ReleasePath(codename) in worlds[i].objects
    ensures worlds[i].objects[ReleasePath(codename)].ReleaseText?
    ensures var files := worlds[i].objects[ReleasePath(codename)].release.files;
            n in files ==>
              && CoverKey(codename, n, files[n].sha256) in worlds[j].objects
              && h(worlds[j].objects[CoverKey(codename, n, files[n].sha256)]) == files[n]
  {
    CommandsRefine(codename, h, worlds, steps);
    var taken :| Execution(codename, h, worlds, taken);
    OldGenerationsFetchable(codename, h, worlds, taken, i, j, n);
  }
}
