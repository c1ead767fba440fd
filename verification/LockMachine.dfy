/**
 The lock protocol as a state machine: any number of clients and one lock object.
 Creating is the S3 store's put, a Head and then a conditional PutObject; releasing
 is a Get and then a delete on condition of the recorded ETag. Every request may
 fail, with or without effect, and every client may stop anywhere.
 */
module LockMachine {
  import opened Text

  /** A lock body: a client's own, which only it writes, or one written by somebody else. */
  datatype Body = Own(client: nat) | Foreign(text: string)

  /** Where a client is; the recorded ETag stands for the body it was the ETag of. */
  datatype Pc =
    | Waiting
    | Creating
    | Reading
    | Held(etag: Body)
    | Checking(etag: Body)
    | Removing(etag: Body)
    | Finished

  /** The lock object, the clients, and those whose create took effect and whose delete did not. */
  datatype World = World(stored: Option<Body>, clients: seq<Pc>, owners: set<nat>)

  /** Whether the client hears of its request's effect; a create can be refused because of another request under way. */
  datatype Reply = Answered | LostBefore | LostAfter | Raced

  /** A client either goes on or gives up where the code leaves it the choice. */
  datatype Action =
    | Join
    | Request(client: nat, reply: Reply, retry: bool)
    | StartRelease(client: nat)
    | Stop(client: nat)
    | Outside(stored: Option<Body>)

  function At(w: World, i: nat, pc: Pc): World
    requires i < |w.clients|
  {
    w.(clients := w.clients[i := pc])
  }

  /** The put's Head: its own body counts as stored, another is a conflict. */
  function HeadStep(w: World, i: nat, reply: Reply, retry: bool): World
    requires i < |w.clients|
  {
    if !reply.Answered? then At(w, i, Finished)
    else
      match w.stored
      case None => At(w, i, Creating)
      case Some(b) => if b == Own(i) then At(w, i, Reading) else At(w, i, if retry then Waiting else Finished)
  }

  function CreateStep(w: World, i: nat, reply: Reply, retry: bool): World
    requires i < |w.clients|
  {
    if reply.LostBefore? then At(w, i, Finished)
    else if reply.Raced? then At(w, i, if retry then Waiting else Finished)
    else if w.stored.Some? then At(w, i, if reply.Answered? && retry then Waiting else Finished)
    else World(Some(Own(i)), w.clients[i := if reply.Answered? then Reading else Finished], w.owners + {i})
  }

  function ReadStep(w: World, i: nat, reply: Reply): World
    requires i < |w.clients|
  {
    if !reply.Answered? || w.stored.None? then At(w, i, Finished) else At(w, i, Held(w.stored.value))
  }

  /** The release's Get: an absent lock is released, another owner's is left alone. */
  function CheckStep(w: World, i: nat, etag: Body, reply: Reply): World
    requires i < |w.clients|
  {
    if !reply.Answered? then At(w, i, Held(etag))
    else
      match w.stored
      case None => At(w, i, Finished)
      case Some(b) => At(w, i, if b == Own(i) then Removing(etag) else Held(etag))
  }

  /** The release's conditional delete. */
  function RemoveStep(w: World, i: nat, etag: Body, reply: Reply): World
    requires i < |w.clients|
  {
    if reply.LostBefore? || reply.Raced? then At(w, i, Held(etag))
    else if w.stored == Some(etag) then
      World(None, w.clients[i := if reply.Answered? then Finished else Held(etag)], w.owners - {i})
    else At(w, i, if reply.Answered? && w.stored.None? then Finished else Held(etag))
  }

  function RequestStep(w: World, i: nat, reply: Reply, retry: bool): World
    requires i < |w.clients|
  {
    match w.clients[i]
    case Waiting => HeadStep(w, i, reply, retry)
    case Creating => CreateStep(w, i, reply, retry)
    case Reading => ReadStep(w, i, reply)
    case Checking(etag) => CheckStep(w, i, etag, reply)
    case Removing(etag) => RemoveStep(w, i, etag, reply)
    case _ => w
  }

  ghost predicate Next(w: World, a: Action, after: World)
  {
    match a
    case Join => after == w.(clients := w.clients + [Waiting])
    case Request(i, reply, retry) => i < |w.clients| && after == RequestStep(w, i, reply, retry)
    case StartRelease(i) => i < |w.clients| && w.clients[i].Held? && after == At(w, i, Checking(w.clients[i].etag))
    case Stop(i) => i < |w.clients| && after == At(w, i, Finished)
    case Outside(stored) => (stored.Some? ==> stored.value.Foreign?) && after == w.(stored := stored)
  }

  ghost predicate Run(worlds: seq<World>, actions: seq<Action>)
  {
    && |worlds| == |actions| + 1
    && worlds[0].clients == [] && worlds[0].owners == {} && (worlds[0].stored.Some? ==> worlds[0].stored.value.Foreign?)
    && forall i :: 0 <= i < |actions| ==> Next(worlds[i], actions[i], worlds[i + 1])
  }

  ghost predicate NoOutsiders(actions: seq<Action>)
  {
    forall i :: 0 <= i < |actions| ==> !actions[i].Outside?
  }

  // ------------------------------------------------------------ whoever interferes

  /** A recorded ETag is the client's own, or its own body is gone for good; a client about to delete has its own ETag. */
  ghost predicate SafeClient(w: World, i: nat)
    requires i < |w.clients|
  {
    match w.clients[i]
    case Waiting => w.stored != Some(Own(i))
    case Creating => w.stored != Some(Own(i))
    case Reading => true
    case Held(etag) => etag == Own(i) || w.stored != Some(Own(i))
    case Checking(etag) => etag == Own(i) || w.stored != Some(Own(i))
    case Removing(etag) => etag == Own(i)
    case Finished => true
  }

  ghost predicate Safe(w: World)
  {
    && (forall i: nat :: i < |w.clients| ==> SafeClient(w, i))
    && (w.stored.Some? && w.stored.value.Own? ==> w.stored.value.client < |w.clients|)
  }

  /** Only client i's own create makes its body appear. */
  lemma OthersStaySafe(w: World, after: World, i: nat, pc: Pc)
    requires Safe(w) && i < |w.clients| && after.clients == w.clients[i := pc]
    requires SafeClient(after, i)
    requires after.stored == w.stored || after.stored == None || after.stored == Some(Own(i))
    ensures Safe(after)
  {
    forall j: nat | j < |after.clients| ensures SafeClient(after, j) {
      if j != i { assert SafeClient(w, j); }
    }
  }

  lemma StepSafe(w: World, a: Action, after: World)
    requires Safe(w) && Next(w, a, after)
    ensures Safe(after)
  {
    match a {
      case Join =>
        forall j: nat | j < |after.clients| ensures SafeClient(after, j) {
          if j < |w.clients| { assert SafeClient(w, j); }
        }
      case Request(i, reply, retry) =>
        assert SafeClient(w, i);
        if after != w { OthersStaySafe(w, after, i, after.clients[i]); }
      case StartRelease(i) =>
        assert SafeClient(w, i);
        OthersStaySafe(w, after, i, after.clients[i]);
      case Stop(i) => OthersStaySafe(w, after, i, Finished);
      case Outside(_) =>
        forall j: nat | j < |after.clients| ensures SafeClient(after, j) { assert SafeClient(w, j); }
    }
  }

  lemma {:induction false} RunIsSafe(worlds: seq<World>, actions: seq<Action>, i: nat)
    requires Run(worlds, actions) && i < |worlds|
    ensures Safe(worlds[i])
  {
    if i > 0 {
      RunIsSafe(worlds, actions, i - 1);
      StepSafe(worlds[i - 1], actions[i - 1], worlds[i]);
    }
  }

  /**
   Whatever outsiders do to the lock object and whenever, a client's step that makes a
   stored body disappear removes its own body.
   */
  lemma ReleaseRemovesOwn(worlds: seq<World>, actions: seq<Action>, i: nat)
    requires Run(worlds, actions) && i < |actions| && !actions[i].Outside?
    requires worlds[i].stored.Some? && worlds[i + 1].stored != worlds[i].stored
    ensures actions[i].Request? && worlds[i].stored == Some(Own(actions[i].client)) && worlds[i + 1].stored == None
  {
    RunIsSafe(worlds, actions, i);
    assert Next(worlds[i], actions[i], worlds[i + 1]);
    assert actions[i].Request? ==> SafeClient(worlds[i], actions[i].client);
  }

  // ----------------------------------------------------------------- mutual exclusion

  /** While nobody else touches the lock, its object is the body of whoever owns it. */
  ghost predicate Exclusive(w: World)
  {
    && (forall i :: i in w.owners ==> w.stored == Some(Own(i)))
    && (forall i: nat :: i < |w.clients| ==> HoldsOwn(w.clients[i], i, w))
  }

  /** A client past its create owns the lock, or its delete already took effect. */
  ghost predicate HoldsOwn(pc: Pc, i: nat, w: World)
  {
    match pc
    case Reading => i in w.owners
    case Held(etag) => etag == Own(i)
    case Checking(etag) => etag == Own(i)
    case Removing(etag) => etag == Own(i)
    case _ => true
  }

  lemma ExclusiveStep(w: World, a: Action, after: World)
    requires Exclusive(w) && Safe(w) && Next(w, a, after) && !a.Outside?
    ensures Exclusive(after)
  {
    if a.Request? { assert HoldsOwn(w.clients[a.client], a.client, w) && SafeClient(w, a.client); }
    forall j: nat | j < |after.clients| ensures HoldsOwn(after.clients[j], j, after) {
      if j < |w.clients| { assert HoldsOwn(w.clients[j], j, w); }
    }
  }

  lemma {:induction false} RunIsExclusive(worlds: seq<World>, actions: seq<Action>, i: nat)
    requires Run(worlds, actions) && NoOutsiders(actions) && i < |worlds|
    ensures Exclusive(worlds[i])
  {
    if i > 0 {
      RunIsExclusive(worlds, actions, i - 1);
      RunIsSafe(worlds, actions, i - 1);
      ExclusiveStep(worlds[i - 1], actions[i - 1], worlds[i]);
    }
  }

  /** At most one client lies between its create and its delete taking effect. */
  lemma MutualExclusion(worlds: seq<World>, actions: seq<Action>, i: nat, a: nat, b: nat)
    requires Run(worlds, actions) && NoOutsiders(actions) && i < |worlds|
    requires a in worlds[i].owners && b in worlds[i].owners
    ensures a == b
  {
    RunIsExclusive(worlds, actions, i);
  }

  /** A client that was told it acquired the lock owns it until a release of its own removed it. */
  lemma AcquiredOwns(worlds: seq<World>, actions: seq<Action>, i: nat, c: nat)
    requires Run(worlds, actions) && NoOutsiders(actions) && i < |actions|
    requires c < |worlds[i].clients| && c < |worlds[i + 1].clients| && worlds[i].clients[c].Reading? && worlds[i + 1].clients[c].Held?
    ensures c in worlds[i + 1].owners && worlds[i + 1].stored == Some(Own(c)) && worlds[i + 1].clients[c].etag == Own(c)
  {
    RunIsExclusive(worlds, actions, i);
    RunIsExclusive(worlds, actions, i + 1);
    assert Next(worlds[i], actions[i], worlds[i + 1]);
    assert HoldsOwn(worlds[i].clients[c], c, worlds[i]) && HoldsOwn(worlds[i + 1].clients[c], c, worlds[i + 1]);
  }

  // ------------------------------------------------------------------------- progress

  /** The world after some requests of a client that are all answered. */
  function Answers(w: World, i: nat, n: nat): World
    requires i < |w.clients|
    ensures |Answers(w, i, n).clients| == |w.clients|
  {
    if n == 0 then w else RequestStep(Answers(w, i, n - 1), i, Answered, true)
  }

  /**
   If nobody interferes and requests are answered, a waiting client has a free lock after
   three of them and waits on at a taken one; and a client that holds its lock has given
   it back after two, free for the next.
   */
  lemma LockHandedOn(w: World, i: nat, j: nat)
    requires i < |w.clients| && j < |w.clients| && i != j && w.stored == None && w.clients[i].Waiting? && w.clients[j].Waiting?
    ensures var held := Answers(w, i, 3);
            && held.stored == Some(Own(i)) && held.clients[i] == Held(Own(i)) && held.owners == w.owners + {i}
            && Answers(held, j, 1) == held
            && var returned := Answers(At(held, i, Checking(Own(i))), i, 2);
               && returned.stored == None && returned.clients[i].Finished? && returned.owners == w.owners - {i}
               && returned.clients[j].Waiting? && Answers(returned, j, 3).stored == Some(Own(j))
  {
    OneAnswer(w, i, 1);
    OneAnswer(w, i, 2);
    OneAnswer(w, i, 3);
    var held := Answers(w, i, 3);
    assert Answers(w, i, 0) == w && Answers(w, i, 1).clients[i].Creating? && Answers(w, i, 2).clients[i].Reading?;
    OneAnswer(held, j, 1);
    assert Answers(held, j, 0) == held && held.clients[j].Waiting? && held.clients[j := Waiting] == held.clients;
    var checking := At(held, i, Checking(Own(i)));
    HandedBack(checking, i, j);
  }

  lemma OneAnswer(w: World, i: nat, n: nat)
    requires i < |w.clients| && n > 0
    ensures Answers(w, i, n) == RequestStep(Answers(w, i, n - 1), i, Answered, true)
  {
  }

  lemma HandedBack(w: World, i: nat, j: nat)
    requires i < |w.clients| && j < |w.clients| && i != j && w.stored == Some(Own(i)) && w.clients[i] == Checking(Own(i)) && w.clients[j].Waiting?
    ensures var returned := Answers(w, i, 2);
            && returned.stored == None && returned.clients[i].Finished? && returned.owners == w.owners - {i}
            && returned.clients[j].Waiting? && Answers(returned, j, 3).stored == Some(Own(j))
  {
    OneAnswer(w, i, 1);
    OneAnswer(w, i, 2);
    assert Answers(w, i, 0) == w && Answers(w, i, 1).clients[i] == Removing(Own(i));
    var returned := Answers(w, i, 2);
    OneAnswer(returned, j, 1);
    OneAnswer(returned, j, 2);
    OneAnswer(returned, j, 3);
    assert Answers(returned, j, 0) == returned && Answers(returned, j, 1).clients[j].Creating?;
    assert Answers(returned, j, 2).stored == Some(Own(j));
  }
}
