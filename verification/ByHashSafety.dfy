/**
 Old generations stay fetchable. Writers are lists of remaining writes that run one
 write at a time, interleaved with each other, and may stop after any of them. As
 long as a codename has by-hash objects from its first publication on, every Release
 ever stored for it keeps, for each file it lists, a by-hash object with exactly the
 listed size and digests.
 */
module ByHashSafety {
  import opened Text
  import opened Paths
  import opened Documents
  import opened Stores
  import opened Manifests
  import opened Publication
  import opened Retrieval
  import opened Layout
  import opened Agreement
  import opened Currency
  import opened Cleaning

  // -------------------------------------------------------------- keys of a codename

  /** A key of a codename's immutable by-hash objects. */
  predicate HashKey(codename: string, key: string)
  {
    var s := Split(key, '/');
    |s| == 7 && s[0] == "dists" && s[1] == codename && s[4] == "by-hash" && s[5] == "SHA256"
  }

  /** The by-hash key that readers derive from a listed name and its digest. */
  function CoverKey(codename: string, name: string, sha256: string): string
  {
    ByHashPath(ListedKey(codename, name), sha256)
  }

  /** A listed file has a by-hash object with the listed size and digests. */
  ghost predicate CoveredFile(codename: string, n: string, hashes: FileHashes, objects: map<string, Doc>, h: Hasher)
  {
    var key := CoverKey(codename, n, hashes.sha256);
    HashKey(codename, key) && key in objects && h(objects[key]) == hashes
  }

  ghost predicate Covered(codename: string, files: map<string, FileHashes>, objects: map<string, Doc>, h: Hasher)
  {
    forall n :: n in files ==> CoveredFile(codename, n, files[n], objects, h)
  }

  /** A write that stores the by-hash object of a listed file. */
  predicate Secures(codename: string, n: string, hashes: FileHashes, w: Write, h: Hasher)
  {
    var key := CoverKey(codename, n, hashes.sha256);
    HashKey(codename, key) && Creating(w) && Named(w.key) == Some(key) && h(w.doc) == hashes
  }

  ghost predicate SecuredFile(codename: string, n: string, hashes: FileHashes, writes: seq<Write>, h: Hasher)
  {
    exists i :: 0 <= i < |writes| && Secures(codename, n, hashes, writes[i], h)
  }

  /** Every file is covered already or by one of these writes. */
  ghost predicate CoveredBy(codename: string, files: map<string, FileHashes>, objects: map<string, Doc>, writes: seq<Write>, h: Hasher)
  {
    forall n :: n in files ==> CoveredFile(codename, n, files[n], objects, h) || SecuredFile(codename, n, files[n], writes, h)
  }

  predicate StoresRelease(codename: string, w: Write)
  {
    w.Put? && Named(w.key) == Some(ReleasePath(codename))
  }

  /** A Release of the codename that may be stored: with by-hash on, and with usable names. */
  ghost predicate GenerationOf(codename: string, r: ReleaseState)
  {
    r.codename == codename && r.byHash && GoodRelease(r)
  }

  /** By-hash objects are only created, under their own digest; Releases are only replaced by good ones. */
  ghost predicate Harmless(codename: string, w: Write, h: Hasher)
  {
    && (Named(w.key).Some? && HashKey(codename, Named(w.key).value) ==>
          Creating(w) && Split(Named(w.key).value, '/')[6] == h(w.doc).sha256)
    && (Named(w.key) == Some(ReleasePath(codename)) ==>
          w.Put? && w.doc.ReleaseText? && GenerationOf(codename, w.doc.release))
    && (Named(w.key).Some? && ReleaseKey(Named(w.key).value) && w.Put? ==> GoodStored(w.doc))
  }

  ghost predicate AllHarmless(codename: string, writes: seq<Write>, h: Hasher)
  {
    forall i :: 0 <= i < |writes| ==> Harmless(codename, writes[i], h)
  }

  ghost predicate NoRelease(codename: string, writes: seq<Write>)
  {
    forall i :: 0 <= i < |writes| ==> !StoresRelease(codename, writes[i])
  }

  /** A writer may go on: each Release it will store is covered by then. */
  ghost predicate GoodPlan(codename: string, objects: map<string, Doc>, plan: seq<Write>, h: Hasher)
  {
    && AllHarmless(codename, plan, h)
    && forall j :: 0 <= j < |plan| && StoresRelease(codename, plan[j]) ==>
         CoveredBy(codename, plan[j].doc.release.files, objects, plan[..j], h)
  }

  // -------------------------------------------------------------------- the machine

  /** Objects, the Releases stored so far for the codename, and each writer's remaining writes. */
  datatype World = World(objects: map<string, Doc>, history: seq<ReleaseState>, plans: seq<seq<Write>>)

  /** What a command decided to write, from whatever it read. */
  datatype Operation =
    | PublicationOf(r: ReleaseState, ms: seq<ManifestState>, bodies: seq<Write>, signed: bool, date: string)
    | BodiesOnly(bodies: seq<Write>)
    | Republication(r: ReleaseState, signed: bool, date: string)
    | Sweeping(victims: seq<string>)

  function PlanOf(op: Operation, h: Hasher): seq<Write>
  {
    match op
    case PublicationOf(r, ms, bodies, signed, date) =>
      (match Closure(r, ms, h)
       case Err(_) => []
       case Ok((closed, ps)) => bodies + PublishPlan(closed, ps, h, signed, date))
    case BodiesOnly(bodies) => bodies
    case Republication(r, signed, date) => ReleasePlan(r, h, signed, date)
    case Sweeping(victims) => Deletes(victims)
  }

  /** Writes whose keys lie in the pool. */
  ghost predicate InPool(writes: seq<Write>)
  {
    forall i :: 0 <= i < |writes| ==> PoolKey(writes[i].key)
  }

  predicate PoolKey(key: string)
  {
    Named(key).Some? ==> Split(Named(key).value, '/')[0] == "pool"
  }

  /**
   A Release a command may have read: of another codename, or of this one with by-hash
   on, new or any that was ever stored. Reads need not be of the latest state, nor of
   one state.
   */
  ghost predicate MayRead(codename: string, history: seq<ReleaseState>, r: ReleaseState)
  {
    && GoodRelease(r)
    && (r.codename == codename ==> r.byHash && (r.files == map[] || exists i :: 0 <= i < |history| && r.files == history[i].files))
  }

  ghost predicate MayBegin(codename: string, history: seq<ReleaseState>, op: Operation)
  {
    match op
    case PublicationOf(r, ms, bodies, _, _) => MayRead(codename, history, r) && AllOffered(r, ms) && InPool(bodies)
    case BodiesOnly(bodies) => InPool(bodies)
    case Republication(r, _, _) => MayRead(codename, history, r)
    case Sweeping(victims) => forall i :: 0 <= i < |victims| ==> PoolKey(victims[i])
  }

  /** How a write ends: it takes effect and the writer goes on, or the writer stops after or before its effect. */
  datatype Outcome = GoesOn | StopsAfter | StopsBefore

  datatype Step = Begin(op: Operation) | Issue(writer: nat, outcome: Outcome)

  function Stored(codename: string, history: seq<ReleaseState>, w: Write): seq<ReleaseState>
  {
    if StoresRelease(codename, w) && w.doc.ReleaseText? then history + [w.doc.release] else history
  }

  /** One step: a command begins with its planned writes, or a writer issues its next write. */
  ghost predicate Next(codename: string, h: Hasher, w: World, step: Step, after: World)
  {
    match step
    case Begin(op) =>
      MayBegin(codename, w.history, op) && after == w.(plans := w.plans + [PlanOf(op, h)])
    case Issue(i, outcome) =>
      && i < |w.plans| && w.plans[i] != []
      && var write := w.plans[i][0];
         if outcome.StopsBefore? || !Accepted(w.objects, write) then after == w.(plans := w.plans[i := []])
         else after == World(Effect(w.objects, write), Stored(codename, w.history, write),
                             w.plans[i := if outcome.GoesOn? then w.plans[i][1..] else []])
  }

  /** No by-hash object and no Release of the codename yet, and nobody writing. */
  ghost predicate Initial(codename: string, w: World)
  {
    && w.plans == [] && w.history == []
    && forall k :: k in w.objects ==> !HashKey(codename, k) && k != ReleasePath(codename)
  }

  ghost predicate Execution(codename: string, h: Hasher, worlds: seq<World>, steps: seq<Step>)
  {
    && |worlds| == |steps| + 1 && Initial(codename, worlds[0])
    && forall i :: 0 <= i < |steps| ==> Next(codename, h, worlds[i], steps[i], worlds[i + 1])
  }

  // ------------------------------------------------------------------- the invariant

  ghost predicate ContentAddressed(codename: string, objects: map<string, Doc>, h: Hasher)
  {
    forall k :: k in objects && HashKey(codename, k) ==> Split(k, '/')[6] == h(objects[k]).sha256
  }

  ghost predicate AllCovered(codename: string, history: seq<ReleaseState>, objects: map<string, Doc>, h: Hasher)
  {
    forall i :: 0 <= i < |history| ==> Covered(codename, history[i].files, objects, h)
  }

  ghost predicate AllGood(codename: string, objects: map<string, Doc>, plans: seq<seq<Write>>, h: Hasher)
  {
    forall i :: 0 <= i < |plans| ==> GoodPlan(codename, objects, plans[i], h)
  }

  ghost predicate Remembered(codename: string, objects: map<string, Doc>, history: seq<ReleaseState>)
  {
    var key := ReleasePath(codename);
    key in objects ==> objects[key].ReleaseText? && exists i :: 0 <= i < |history| && history[i] == objects[key].release
  }

  ghost predicate AllGenerations(codename: string, history: seq<ReleaseState>)
  {
    forall i :: 0 <= i < |history| ==> GenerationOf(codename, history[i])
  }

  ghost predicate Safe(codename: string, h: Hasher, w: World)
  {
    && ContentAddressed(codename, w.objects, h)
    && AllGenerations(codename, w.history)
    && AllCovered(codename, w.history, w.objects, h)
    && AllGood(codename, w.objects, w.plans, h)
    && Remembered(codename, w.objects, w.history)
  }

  /** Every by-hash object is still there, unchanged. */
  ghost predicate HashesKept(codename: string, before: map<string, Doc>, after: map<string, Doc>)
  {
    forall k :: k in before && HashKey(codename, k) ==> k in after && after[k] == before[k]
  }

  // ------------------------------------------------------------------ one write's effect

  /** A harmless accepted write keeps all by-hash objects, and the store content-addressed. */
  lemma HarmlessKeeps(codename: string, objects: map<string, Doc>, w: Write, h: Hasher)
    requires GoodHasher(h) && ContentAddressed(codename, objects, h)
    requires Harmless(codename, w, h) && Accepted(objects, w)
    ensures HashesKept(codename, objects, Effect(objects, w))
    ensures ContentAddressed(codename, Effect(objects, w), h)
  {
  }

  lemma CoveredKept(codename: string, files: map<string, FileHashes>, before: map<string, Doc>, after: map<string, Doc>,
                    writes: seq<Write>, h: Hasher)
    requires HashesKept(codename, before, after) && CoveredBy(codename, files, before, writes, h)
    ensures CoveredBy(codename, files, after, writes, h)
  {
  }

  /** Issuing its first write leaves a writer with a good plan. */
  lemma GoodPlanAdvances(codename: string, objects: map<string, Doc>, plan: seq<Write>, h: Hasher)
    requires GoodHasher(h) && ContentAddressed(codename, objects, h)
    requires plan != [] && GoodPlan(codename, objects, plan, h) && Accepted(objects, plan[0])
    ensures GoodPlan(codename, Effect(objects, plan[0]), plan[1..], h)
  {
    var after := Effect(objects, plan[0]);
    HarmlessKeeps(codename, objects, plan[0], h);
    forall j | 0 <= j < |plan[1..]| && StoresRelease(codename, plan[1..][j])
      ensures CoveredBy(codename, plan[1..][j].doc.release.files, after, plan[1..][..j], h) {
      var files, front, rest := plan[j + 1].doc.release.files, plan[..j + 1], plan[1..][..j];
      CoveredKept(codename, files, objects, after, plan[..j + 1], h);
      forall n | n in files
        ensures CoveredFile(codename, n, files[n], after, h) || SecuredFile(codename, n, files[n], plan[1..][..j], h) {
        if i :| 0 <= i < |front| && Secures(codename, n, files[n], front[i], h) {
          if i > 0 { assert rest[i - 1] == front[i]; }
        }
      }
    }
  }
}
