/** Acquiring and releasing the repository lock, and the delays between attempts. */
module Locks {
  import opened Text
  import opened Numbers
  import opened LockMachine

  // ------------------------------------------------------------------------- backoff

  function Pow2(n: nat): (p: nat)
    ensures p >= 1
  {
    if n == 0 then 1 else 2 * Pow2(n - 1)
  }

  function Min(a: int, b: int): int
  {
    if a < b then a else b
  }

  /** What 64-bit doubling from a start gives after some steps, stopping at the maximum. */
  function Doubled(initial: int, maximum: int, steps: nat): int
  {
    if steps == 0 then initial
    else
      var before := Doubled(initial, maximum, steps - 1);
      if before < maximum then Wrap64(before * 2) else before
  }

  function Delay(initial: int, maximum: int, attempt: int): int
  {
    Min(Doubled(initial, maximum, if attempt >= 1 then attempt - 1 else 0), maximum)
  }

  /** The retry delay: doubling while below the maximum, in 64 bits. */
  method RetryDelay(initial: int, maximum: int, attempt: int) returns (delay: int)
    ensures delay == Delay(initial, maximum, attempt)
  {
    delay := initial;
    var step := 1;
    while step < attempt && delay < maximum
      invariant 1 <= step && (step <= attempt || step == 1)
      invariant delay == Doubled(initial, maximum, step - 1)
      decreases attempt - step
    {
      delay := Wrap64(delay * 2);
      step := step + 1;
    }
    if attempt >= 1 {
      DoubledStops(initial, maximum, step - 1, attempt - 1);
      assert delay == Doubled(initial, maximum, attempt - 1);
    } else {
      assert step == 1;
    }
    delay := Min(delay, maximum);
  }

  lemma {:induction false} DoubledStops(initial: int, maximum: int, a: nat, b: nat)
    requires a <= b && (Doubled(initial, maximum, a) >= maximum || a == b)
    ensures Doubled(initial, maximum, b) == Doubled(initial, maximum, a)
    decreases b
  {
    if a < b { DoubledStops(initial, maximum, a, b - 1); }
  }

  lemma WrapInRange(n: int)
    requires MIN_INT64 <= n <= MAX_INT64
    ensures Wrap64(n) == n
  {
  }

  lemma DoubleProduct(initial: int, p: nat)
    requires initial > 0
    ensures initial * (2 * p) == 2 * (initial * p) && initial * p <= initial * (2 * p)
  {
  }

  /** The delays asked for: the exponential up to the maximum. */
  function Capped(initial: int, maximum: int, attempt: nat): int
    requires attempt >= 1
  {
    Min(initial * Pow2(attempt - 1), maximum)
  }

  /** No delay below the maximum overflows 64 bits when it is doubled. */
  ghost predicate Doubles(initial: int, maximum: int)
  {
    forall k: nat :: initial * Pow2(k) < maximum ==> 2 * (initial * Pow2(k)) <= MAX_INT64
  }

  lemma {:induction false} DoubledCapped(initial: int, maximum: int, steps: nat)
    requires 0 < initial <= maximum <= MAX_INT64 && Doubles(initial, maximum)
    ensures Min(Doubled(initial, maximum, steps), maximum) == Min(initial * Pow2(steps), maximum)
    ensures Doubled(initial, maximum, steps) < maximum ==> Doubled(initial, maximum, steps) == initial * Pow2(steps)
  {
    if steps > 0 {
      DoubledCapped(initial, maximum, steps - 1);
      var before := Doubled(initial, maximum, steps - 1);
      DoubleProduct(initial, Pow2(steps - 1));
      if before < maximum {
        assert 2 * (initial * Pow2(steps - 1)) <= MAX_INT64;
        PowPositive(initial, steps - 1);
        WrapInRange(before * 2);
      }
    }
  }

  lemma PowPositive(initial: int, steps: nat)
    requires initial > 0
    ensures initial * Pow2(steps) > 0
  {
  }

  /** Below the maximum nothing has wrapped yet. */
  lemma {:induction false} DoubledBelow(initial: int, maximum: int, steps: nat)
    requires 0 < initial && maximum <= MAX_INT64 && initial * Pow2(steps) < maximum
    ensures Doubled(initial, maximum, steps) == initial * Pow2(steps)
  {
    if steps > 0 {
      DoubleProduct(initial, Pow2(steps - 1));
      PowPositive(initial, steps);
      DoubledBelow(initial, maximum, steps - 1);
      WrapInRange(initial * Pow2(steps));
    }
  }

  lemma WrapsNegative(n: int)
    requires 0 < n <= MAX_INT64 < 2 * n
    ensures Wrap64(n * 2) < 0
  {
  }

  /** The delay after one that is doubled past 64 bits is negative. */
  lemma DelayWraps(initial: int, maximum: int, k: nat)
    requires 0 < initial && maximum <= MAX_INT64 && initial * Pow2(k) < maximum && 2 * (initial * Pow2(k)) > MAX_INT64
    ensures Delay(initial, maximum, k + 2) < 0
  {
    DoubledBelow(initial, maximum, k);
    PowPositive(initial, k);
    WrapsNegative(initial * Pow2(k));
    assert Doubled(initial, maximum, k + 1) == Wrap64(Doubled(initial, maximum, k) * 2);
  }

  /**
   The delays before the retries are the exponential up to the maximum, all of them,
   exactly when no delay below the maximum overflows as it is doubled.
   */
  lemma DelaysExact(initial: int, maximum: int)
    requires 0 < initial <= maximum <= MAX_INT64
    ensures (forall attempt: nat :: attempt >= 1 ==> Delay(initial, maximum, attempt) == Capped(initial, maximum, attempt)) <==>
            Doubles(initial, maximum)
  {
    if Doubles(initial, maximum) {
      forall attempt: nat | attempt >= 1 ensures Delay(initial, maximum, attempt) == Capped(initial, maximum, attempt) {
        DoubledCapped(initial, maximum, attempt - 1);
      }
    } else {
      var k: nat :| initial * Pow2(k) < maximum && 2 * (initial * Pow2(k)) > MAX_INT64;
      DelayWraps(initial, maximum, k);
      PowPositive(initial, k + 1);
      assert Capped(initial, maximum, k + 2) > 0;
    }
  }

  /** Then the delays are positive, at most the maximum, and never decrease. */
  lemma DelayExponential(initial: int, maximum: int, attempt: nat)
    requires 0 < initial <= maximum <= MAX_INT64 && Doubles(initial, maximum) && attempt >= 1
    ensures Delay(initial, maximum, attempt) == Capped(initial, maximum, attempt)
    ensures 0 < Delay(initial, maximum, attempt) <= maximum
    ensures Delay(initial, maximum, attempt) <= Delay(initial, maximum, attempt + 1)
  {
    DelaysExact(initial, maximum);
    assert Delay(initial, maximum, attempt + 1) == Capped(initial, maximum, attempt + 1);
    PowPositive(initial, attempt - 1);
    DoubleProduct(initial, Pow2(attempt - 1));
  }

  /** A maximum of 2^62 or less is small enough for any start. */
  lemma SmallDoubles(initial: int, maximum: int)
    requires maximum <= 0x4000_0000_0000_0000
    ensures Doubles(initial, maximum)
  {
  }

  /** From 2^62 up to the largest maximum the second delay is negative. */
  lemma DelayOverflows()
    ensures Delay(0x4000_0000_0000_0000, MAX_INT64, 2) == MIN_INT64
    ensures !Doubles(0x4000_0000_0000_0000, MAX_INT64)
  {
    assert Pow2(0) == 1;
    DelayWraps(0x4000_0000_0000_0000, MAX_INT64, 0);
    assert Doubled(0x4000_0000_0000_0000, MAX_INT64, 0) == 0x4000_0000_0000_0000;
    assert Doubled(0x4000_0000_0000_0000, MAX_INT64, 1) == Wrap64(0x8000_0000_0000_0000);
  }

  // ------------------------------------------------------------------------- options

  /** Durations in nanoseconds. */
  datatype Options = Options(maxAttempts: int, timeout: int, initialBackoff: int, maxBackoff: int)

  function WithDefaults(o: Options): (d: Options)
    ensures 0 < d.initialBackoff <= d.maxBackoff
    ensures d.maxAttempts == 0 ==> d.timeout > 0
    ensures 0 < o.initialBackoff <= o.maxBackoff && o.maxAttempts != 0 ==> d == o
    ensures o.maxAttempts == 0 && o.timeout <= 0 ==> d.maxAttempts == 60
    ensures o.initialBackoff <= 0 && o.maxBackoff <= 0 ==> d.initialBackoff == 100_000_000 && d.maxBackoff == 10_000_000_000
  {
    var attempts := if o.maxAttempts == 0 && o.timeout <= 0 then 60 else o.maxAttempts;
    var initial := if o.initialBackoff <= 0 then 100_000_000 else o.initialBackoff;
    var maximum := if o.maxBackoff <= 0 then 10_000_000_000 else o.maxBackoff;
    Options(attempts, o.timeout, initial, if maximum < initial then initial else maximum)
  }

  // -------------------------------------------------------------------- the lock file

  datatype Moment = Moment(own: bool, stored: Option<Body>)

  datatype Created = Stored | Conflict | Failure

  /** The lock object, as one client and others see it; without faults and races of its requests if it is reliable. */
  class LockFile {
    const reliable: bool
    var stored: Option<Body>
    ghost var history: seq<Moment>

    ghost predicate Valid()
      reads this
    {
      history != [] && history[|history| - 1].stored == stored
    }

    /** Other clients and outsiders, none of whom writes this client's body. */
    method Others(me: nat)
      requires Valid()
      modifies this
      ensures Valid() && |history| == |old(history)| + 1 && history[..|old(history)|] == old(history)
      ensures !history[|history| - 1].own && (stored == Some(Own(me)) ==> old(stored) == Some(Own(me)))
    {
      var next: Option<Body> := *;
      if next != Some(Own(me)) { stored := next; }
      history := history + [Moment(false, stored)];
    }

    /** Reads the lock, for its body or for its ETag. */
    method Read() returns (found: Option<Option<Body>>)
      requires Valid()
      modifies this`history
      ensures Valid() && history == old(history) + [Moment(true, stored)]
      ensures found.Some? ==> found.value == stored
      ensures reliable ==> found.Some?
    {
      var fault: bool := *;
      history := history + [Moment(true, stored)];
      found := if fault && !reliable then None else Some(stored);
    }

    method CreateIfAbsent(me: nat) returns (created: Created)
      requires Valid()
      modifies this
      ensures Valid() && history == old(history) + [Moment(true, stored)]
      ensures stored == old(stored) || (old(stored) == None && stored == Some(Own(me)))
      ensures created == Stored ==> old(stored) == None && stored == Some(Own(me))
      ensures created == Conflict ==> stored == old(stored) && (reliable ==> old(stored).Some?)
      ensures reliable ==> created != Failure
    {
      var early: bool, late: bool, race: bool := *, *, *;
      if early && !reliable {
        created := if race then Conflict else Failure;
      } else if stored.Some? {
        created := Conflict;
      } else {
        stored := Some(Own(me));
        created := if late && !reliable then Failure else Stored;
      }
      history := history + [Moment(true, stored)];
    }

    method DeleteIfMatch(etag: Body) returns (deleted: Option<Created>)
      requires Valid()
      modifies this
      ensures Valid() && history == old(history) + [Moment(true, stored)]
      ensures stored == old(stored) || (old(stored) == Some(etag) && stored == None)
      ensures deleted == Some(Stored) ==> old(stored) == Some(etag) && stored == None
      ensures deleted == Some(Conflict) ==> stored == old(stored) && (reliable ==> old(stored).Some? && old(stored) != Some(etag))
      ensures deleted == None ==> old(stored) == None
      ensures reliable ==> deleted != Some(Failure)
    {
      var early: bool, late: bool, race: bool := *, *, *;
      if early && !reliable {
        deleted := Some(if race then Conflict else Failure);
      } else if stored == None {
        deleted := None;
      } else if stored != Some(etag) {
        deleted := Some(Conflict);
      } else {
        stored := None;
        deleted := if late && !reliable then Some(Failure) else Some(Stored);
      }
      history := history + [Moment(true, stored)];
    }
  }

  // ------------------------------------------------------------------------ acquiring

  /** A step of the client's own that put its body where none was. */
  ghost predicate Creates(history: seq<Moment>, j: nat, me: nat)
  {
    0 < j < |history| && history[j].own && history[j - 1].stored == None && history[j].stored == Some(Own(me))
  }

  /** How often a client found another's body there. */
  ghost function Met(moments: seq<Moment>, me: nat): nat
  {
    if moments == [] then 0
    else
      var last := moments[|moments| - 1];
      Met(moments[..|moments| - 1], me) + if last.own && last.stored.Some? && last.stored != Some(Own(me)) then 1 else 0
  }

  lemma {:induction false} MetMore(a: seq<Moment>, b: seq<Moment>, me: nat)
    requires a <= b
    ensures Met(a, me) <= Met(b, me)
    decreases |b|
  {
    if |a| < |b| { MetMore(a, b[..|b| - 1], me); } else { assert a == b; }
  }

  lemma MetOneMore(a: seq<Moment>, b: seq<Moment>, me: nat)
    requires a <= b && |a| < |b| && b[|b| - 1].own && b[|b| - 1].stored.Some? && b[|b| - 1].stored != Some(Own(me))
    ensures Met(a, me) + 1 <= Met(b, me)
  {
    MetMore(a, b[..|b| - 1], me);
  }

  /** At some moment since then the client put its body where none was. */
  ghost predicate CreatedSince(history: seq<Moment>, start: nat, me: nat)
  {
    exists j :: start <= j && Creates(history, j, me)
  }

  /** The put of a lock: a Head, whose own body counts as stored, then a conditional create. */
  method CreateLock(lock: LockFile, me: nat) returns (created: Created)
    requires lock.Valid() && lock.stored != Some(Own(me))
    modifies lock
    ensures lock.Valid() && old(lock.history) <= lock.history && |old(lock.history)| < |lock.history|
    ensures created == Stored ==> lock.stored == Some(Own(me)) && Creates(lock.history, |lock.history| - 1, me)
    ensures created == Conflict ==> lock.stored != Some(Own(me)) && (lock.reliable ==> lock.stored.Some?)
    ensures lock.reliable ==> created != Failure
    ensures lock.history[|lock.history| - 1] == Moment(true, lock.stored)
  {
    var existing := lock.Read();
    if existing.None? { return Failure; }
    if existing.value == Some(Own(me)) { return Stored; }
    if existing.value.Some? { return Conflict; }
    lock.Others(me);
    created := lock.CreateIfAbsent(me);
  }

  class Handle {
    const owner: nat
    const etag: Body
    var released: bool

    constructor (owner: nat, etag: Body)
      ensures this.owner == owner && this.etag == etag && !released
    {
      this.owner, this.etag, released := owner, etag, false;
    }

    /** The recorded ETag is the owner's, or the owner's body is gone for good. */
    ghost predicate Sound(lock: LockFile)
      reads lock
    {
      etag == Own(owner) || lock.stored != Some(Own(owner))
    }

    /**
     Releases the lock; whoever interferes, it removes nothing but its owner's body. It
     succeeds only when it found or left no lock there, and apart from faults it fails
     only when it met another's body or had recorded another's ETag.
     */
    method Release(lock: LockFile) returns (ok: bool)
      requires lock.Valid() && Sound(lock)
      modifies lock, this
      ensures lock.Valid() && Sound(lock) && old(lock.history) <= lock.history
      ensures ok == released && (old(released) ==> ok && lock.history == old(lock.history))
      ensures forall j :: |old(lock.history)| <= j < |lock.history| && lock.history[j].own ==>
                || lock.history[j].stored == lock.history[j - 1].stored
                || (lock.history[j - 1].stored == Some(Own(owner)) && lock.history[j].stored == None)
      ensures ok && !old(released) ==>
                exists j :: |old(lock.history)| <= j < |lock.history| && lock.history[j].own && lock.history[j].stored == None
      ensures lock.reliable && !ok && etag == Own(owner) ==>
                exists j :: |old(lock.history)| <= j < |lock.history| && lock.history[j].own &&
                            lock.history[j].stored.Some? && lock.history[j].stored != Some(Own(owner))
    {
      if released { return true; }
      lock.Others(owner);
      var current := lock.Read();
      if current.None? { return false; }
      assert lock.history[|lock.history| - 1] == Moment(true, current.value);
      if current.value.None? {
        released := true;
        assert lock.history[|lock.history| - 1].stored == None;
        return true;
      }
      if current.value != Some(Own(owner)) { return false; }
      lock.Others(owner);
      var deleted := lock.DeleteIfMatch(etag);
      assert lock.history[|lock.history| - 1] == Moment(true, lock.stored);
      if deleted.Some? && deleted.value != Stored { return false; }
      released := true;
      assert lock.history[|lock.history| - 1].stored == None;
      ok := true;
    }
  }

  /** Reading back the created lock's ETag; the body may have been replaced meanwhile. */
  method Confirm(lock: LockFile, me: nat) returns (handle: Handle?)
    requires lock.Valid()
    modifies lock
    ensures lock.Valid() && (handle != null ==> fresh(handle) && handle.owner == me && !handle.released && handle.Sound(lock))
    ensures old(lock.history) <= lock.history
    ensures lock.reliable && handle == null ==> lock.stored == None
  {
    lock.Others(me);
    var head := lock.Read();
    if head.None? || head.value.None? { return null; }
    handle := new Handle(me, head.value.value);
  }

  /** How an acquisition ends: with the lock, after the last allowed attempt, at the end of the wait, or by an error. */
  datatype Outcome = Acquired | Locked | TimedOut | Faulted

  /** A body whose owner can be told; clients' own bodies always are. */
  predicate Decodes(body: Body, decodes: string -> bool)
  {
    body.Foreign? ==> decodes(body.text)
  }

  /** What a waiting client reports after an attempt: its number, the delay before the next, and the lock it found. */
  datatype WaitInfo = WaitInfo(attempt: nat, delay: int, current: Option<Body>)

  /** The delays waited: an attempt that found no lock is repeated at once. */
  function Waited(reports: seq<WaitInfo>): int
  {
    if reports == [] then 0
    else
      var last := reports[|reports| - 1];
      Waited(reports[..|reports| - 1]) + if last.current.Some? then last.delay else 0
  }

  /** One report for each attempt, with its planned delay. */
  ghost predicate Reported(reports: seq<WaitInfo>, o: Options)
  {
    forall i :: 0 <= i < |reports| ==>
      reports[i].attempt == i + 1 && reports[i].delay == Delay(o.initialBackoff, o.maxBackoff, i + 1)
  }

  /** One attempt: the lock, if this client's body was put where none was; or what is there now. */
  method Attempt(lock: LockFile, me: nat, decodes: string -> bool, ghost start: seq<Moment>)
    returns (handle: Handle?, failed: bool, current: Option<Body>)
    requires lock.Valid() && lock.stored != Some(Own(me)) && start <= lock.history
    modifies lock
    ensures lock.Valid() && start <= lock.history
    ensures handle != null ==> !failed && fresh(handle) && handle.owner == me && !handle.released && handle.Sound(lock)
    ensures handle != null ==> CreatedSince(lock.history, |start|, me)
    ensures handle == null && !failed ==> lock.stored != Some(Own(me))
    ensures handle == null && !failed && lock.reliable ==> Met(lock.history, me) >= Met(old(lock.history), me) + 1
    ensures lock.reliable && failed ==>
              if lock.stored.Some? then !Decodes(lock.stored.value, decodes)
              else CreatedSince(lock.history, |start|, me)
  {
    lock.Others(me);
    var created := CreateLock(lock, me);
    ghost var met := lock.history;
    if created == Stored {
      ghost var j := |lock.history| - 1;
      assert Creates(lock.history, j, me);
      handle := Confirm(lock, me);
      assert Creates(lock.history, j, me);
      return handle, handle == null, None;
    }
    if created == Failure { return null, true, None; }
    if lock.reliable { MetOneMore(old(lock.history), lock.history, me); }
    lock.Others(me);
    var found := lock.Read();
    MetMore(met, lock.history, me);
    if found.None? || (found.value.Some? && !Decodes(found.value.value, decodes)) { return null, true, None; }
    return null, false, found.value;
  }

  /**
   Acquires the lock: at most the allowed attempts, and between them planned delays of
   at most the maximal backoff each. The context ends the wait after some rounds. The
   lock is handed out only after this client's body was put where none was; apart from
   faults an error means that the new lock was gone again or that the stored one has no
   readable owner.
   */
  method Acquire(lock: LockFile, me: nat, options: Options, decodes: string -> bool, patience: nat)
    returns (handle: Handle?, attempts: nat, waited: int, reports: seq<WaitInfo>, outcome: Outcome)
    requires lock.Valid() && lock.stored != Some(Own(me))
    modifies lock
    ensures lock.Valid() && (handle != null ==> fresh(handle) && handle.owner == me && !handle.released && handle.Sound(lock))
    ensures handle != null <==> outcome == Acquired
    ensures outcome == Acquired ==> CreatedSince(lock.history, |old(lock.history)|, me)
    ensures outcome == Locked ==> attempts == WithDefaults(options).maxAttempts && attempts >= 1
    ensures outcome == TimedOut ==> attempts == patience
    ensures lock.reliable && outcome in {Locked, TimedOut} ==> Met(lock.history, me) >= Met(old(lock.history), me) + attempts
    ensures Reported(reports, WithDefaults(options))
    ensures |reports| == if outcome in {Acquired, Faulted} then attempts - 1 else attempts
    ensures waited == Waited(if outcome == Locked then reports[..attempts - 1] else reports)
    ensures lock.reliable && outcome == Faulted ==>
              if lock.stored.Some? then !Decodes(lock.stored.value, decodes)
              else CreatedSince(lock.history, |old(lock.history)|, me)
    ensures var o := WithDefaults(options);
            && attempts <= patience && (o.maxAttempts >= 1 ==> attempts <= o.maxAttempts)
            && (o.maxAttempts >= 1 && o.maxBackoff <= MAX_INT64 && Doubles(o.initialBackoff, o.maxBackoff) ==>
                  0 <= waited <= (o.maxAttempts - 1) * o.maxBackoff)
  {
    var o := WithDefaults(options);
    handle, attempts, waited, reports, outcome := null, 0, 0, [], TimedOut;
    while attempts < patience
      invariant lock.Valid() && lock.stored != Some(Own(me)) && attempts <= patience
      invariant old(lock.history) <= lock.history && handle == null && outcome == TimedOut
      invariant o.maxAttempts >= 1 ==> attempts < o.maxAttempts
      invariant lock.reliable ==> Met(lock.history, me) >= Met(old(lock.history), me) + attempts
      invariant |reports| == attempts && Reported(reports, o) && waited == Waited(reports)
      decreases patience - attempts
    {
      attempts := attempts + 1;
      var failed, current;
      handle, failed, current := Attempt(lock, me, decodes, old(lock.history));
      if handle != null || failed {
        outcome := if failed then Faulted else Acquired;
        break;
      }
      var delay := RetryDelay(o.initialBackoff, o.maxBackoff, attempts);
      ghost var before := reports;
      reports := reports + [WaitInfo(attempts, delay, current)];
      assert reports[..attempts - 1] == before;
      if attempts == o.maxAttempts {
        outcome := Locked;
        break;
      }
      if current.Some? { waited := waited + delay; }
    }
    WaitedBound(if outcome == Locked then reports[..attempts - 1] else reports, o);
  }

  /** As many delays take at most as many maximal ones, and less than one for each allowed attempt. */
  lemma {:induction false} WaitedWithin(reports: seq<WaitInfo>, o: Options)
    requires Reported(reports, o) && 0 < o.initialBackoff <= o.maxBackoff <= MAX_INT64 && Doubles(o.initialBackoff, o.maxBackoff)
    ensures 0 <= Waited(reports) <= |reports| * o.maxBackoff
  {
    if reports != [] {
      var n := |reports|;
      WaitedWithin(reports[..n - 1], o);
      DelayExponential(o.initialBackoff, o.maxBackoff, n);
      ProductNext(n, o.maxBackoff);
    }
  }

  lemma WaitedBound(reports: seq<WaitInfo>, o: Options)
    requires Reported(reports, o) && 0 < o.initialBackoff <= o.maxBackoff
    ensures o.maxAttempts >= 1 && |reports| < o.maxAttempts && o.maxBackoff <= MAX_INT64 && Doubles(o.initialBackoff, o.maxBackoff) ==>
              0 <= Waited(reports) <= (o.maxAttempts - 1) * o.maxBackoff
  {
    if o.maxAttempts >= 1 && |reports| < o.maxAttempts && o.maxBackoff <= MAX_INT64 && Doubles(o.initialBackoff, o.maxBackoff) {
      WaitedWithin(reports, o);
      ProductAtLeast(|reports|, o.maxAttempts - 1, o.maxBackoff);
    }
  }

  lemma ProductNext(n: nat, m: int)
    requires n >= 1 && m > 0
    ensures n * m == (n - 1) * m + m && (n - 1) * m <= n * m
  {
  }

  lemma ProductAtLeast(a: nat, b: nat, m: int)
    requires a <= b && m > 0
    ensures 0 <= a * m <= b * m
  {
  }
}
