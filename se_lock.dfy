/** A shared/exclusive lock with a FIFO queue of waiters
    (src/scottbrian_utils/se_lock.py).

    Threads, the internal mutex and `threading.Event` are not modelled:
    a request that cannot be granted at once is appended to the queue and
    identified by a ticket, and a release reports the tickets of the
    waiters whose events it sets. */
module SELocks {

  /** `SELock.SHARE` and `SELock.EXCL`. */
  const SHARE: int := 1
  const EXCL: int := 2

  /** The mode of a queued request; only the two valid modes are queued. */
  datatype Mode = Share | Excl

  /** A `LockWaiter`: the requested mode, and the ticket standing for its event. */
  datatype Waiter = Waiter(mode: Mode, ticket: nat)

  datatype ObtainOutcome =
    | Granted
    | Queued(ticket: nat)
    | IncorrectModeSpecified

  datatype ReleaseOutcome =
    | Released(woken: seq<nat>)
    | AttemptedReleaseOfUnownedLock

  /** `owner_count` (0 free, n > 0 held shared by n owners, -1 held
      exclusive) and `wait_q`. */
  datatype LockState = LockState(ownerCount: int, waitQ: seq<Waiter>)

  const Free := LockState(0, [])

  /** The states the lock can reach: nobody waits on a free lock, and a
      lock held shared has an exclusive request at the head of any queue. */
  predicate Inv(s: LockState)
  {
    && s.ownerCount >= -1
    && (s.ownerCount == 0 ==> s.waitQ == [])
    && (s.ownerCount > 0 && s.waitQ != [] ==> s.waitQ[0].mode == Excl)
  }

  function Tickets(q: seq<Waiter>): (ts: seq<nat>)
    ensures |ts| == |q|
    ensures forall i :: 0 <= i < |q| ==> ts[i] == q[i].ticket
  {
    if q == [] then [] else [q[0].ticket] + Tickets(q[1..])
  }

  //--------------------------------------------------------------------------
  // obtain and release on the state
  //--------------------------------------------------------------------------

  /** `obtain(mode)`: exclusive is granted on a free lock, shared on a free
      lock or one held shared with nobody waiting; any other valid request
      is queued under `ticket`; an invalid mode raises. */
  function ObtainStep(s: LockState, mode: int, ticket: nat): (LockState, ObtainOutcome)
  {
    if mode == EXCL then
      if s.ownerCount == 0 then (LockState(-1, s.waitQ), Granted)
      else (LockState(s.ownerCount, s.waitQ + [Waiter(Excl, ticket)]), Queued(ticket))
    else if mode == SHARE then
      if s.ownerCount == 0 || (s.ownerCount > 0 && s.waitQ == []) then
        (LockState(s.ownerCount + 1, s.waitQ), Granted)
      else (LockState(s.ownerCount, s.waitQ + [Waiter(Share, ticket)]), Queued(ticket))
    else (s, IncorrectModeSpecified)
  }

  /** The loop of `release` that wakes share waiters from the head of the
      queue up to the first exclusive one: the new count, the queue left
      and the tickets woken, in queue order. */
  function WakeSharers(count: int, q: seq<Waiter>): (int, seq<Waiter>, seq<nat>)
    decreases |q|
  {
    if q == [] || q[0].mode == Excl then (count, q, [])
    else
      var rest := WakeSharers(count + 1, q[1..]);
      (rest.0, rest.1, [q[0].ticket] + rest.2)
  }

  /** Waking the share waiter at the head of the queue: one more share
      and its ticket after those already woken. */
  lemma WakeSharersStep(count: int, q: seq<Waiter>, woken: seq<nat>)
    requires q != [] && q[0].mode == Share
    ensures var r, rest := WakeSharers(count, q), WakeSharers(count + 1, q[1..]);
      && r.0 == rest.0 && r.1 == rest.1
      && woken + r.2 == (woken + [q[0].ticket]) + rest.2
  {
    var rest := WakeSharers(count + 1, q[1..]);
    assert woken + ([q[0].ticket] + rest.2) == (woken + [q[0].ticket]) + rest.2;
  }

  /** The share waiters woken are a prefix of the queue, each gets a share,
      and what is left is empty or starts with an exclusive request. */
  lemma {:induction false} WakeSharersPrefix(count: int, q: seq<Waiter>)
    ensures var r := WakeSharers(count, q);
      && r.0 == count + |r.2|
      && |r.2| <= |q| && r.1 == q[|r.2|..] && r.2 == Tickets(q[..|r.2|])
      && (forall i :: 0 <= i < |r.2| ==> q[i].mode == Share)
      && (r.1 == [] || r.1[0].mode == Excl)
    decreases |q|
  {
    if q != [] && q[0].mode == Share {
      var rest := WakeSharers(count + 1, q[1..]);
      WakeSharersPrefix(count + 1, q[1..]);
      assert q[1..][|rest.2|..] == q[|rest.2| + 1..];
      assert q[..|rest.2| + 1] == [q[0]] + q[1..][..|rest.2|];
    }
  }

  /** `release()`: an unowned lock raises; otherwise one owner lets go,
      and a lock that becomes free passes to the head waiter if it wants
      it exclusive, else to every share waiter before the first exclusive
      one. */
  function ReleaseStep(s: LockState): (LockState, ReleaseOutcome)
  {
    if s.ownerCount == 0 then (s, AttemptedReleaseOfUnownedLock)
    else
      var count :=
        if s.ownerCount > 0 then s.ownerCount - 1
        else if s.ownerCount == -1 then 0
        else s.ownerCount;
      if count == 0 && s.waitQ != [] then
        if s.waitQ[0].mode == Excl then
          (LockState(-1, s.waitQ[1..]), Released([s.waitQ[0].ticket]))
        else
          var w := WakeSharers(count, s.waitQ);
          (LockState(w.0, w.1), Released(w.2))
      else (LockState(count, s.waitQ), Released([]))
  }

  //--------------------------------------------------------------------------
  // Properties
  //--------------------------------------------------------------------------

  /** obtain keeps the lock in a reachable state. */
  lemma ObtainKeepsInv(s: LockState, mode: int, ticket: nat)
    requires Inv(s)
    ensures Inv(ObtainStep(s, mode, ticket).0)
  {
  }

  /** release keeps the lock in a reachable state. */
  lemma ReleaseKeepsInv(s: LockState)
    requires Inv(s)
    ensures Inv(ReleaseStep(s).0)
  {
    WakeSharersPrefix(0, s.waitQ);
  }

  /** An exclusive request is granted exactly when the lock is free, and
      then the requester is the one exclusive owner. */
  lemma ExclGrantedIff(s: LockState, ticket: nat)
    requires Inv(s)
    ensures ObtainStep(s, EXCL, ticket).1 == Granted <==> s.ownerCount == 0
    ensures ObtainStep(s, EXCL, ticket).1 == Granted ==> ObtainStep(s, EXCL, ticket).0 == LockState(-1, [])
  {
  }

  /** A share request is granted exactly when the lock is not held
      exclusive and nobody waits, so a queued exclusive request is never
      overtaken by a later share request. */
  lemma ShareGrantedIff(s: LockState, ticket: nat)
    requires Inv(s)
    ensures ObtainStep(s, SHARE, ticket).1 == Granted <==> s.ownerCount >= 0 && s.waitQ == []
    ensures ObtainStep(s, SHARE, ticket).1 == Granted ==>
      ObtainStep(s, SHARE, ticket).0 == LockState(s.ownerCount + 1, [])
  {
  }

  /** A request that is not granted joins the tail of the queue with its
      ticket; an invalid mode changes nothing. */
  lemma ObtainQueuesAtTail(s: LockState, mode: int, ticket: nat)
    ensures var (s', out) := ObtainStep(s, mode, ticket);
      && (out.Queued? ==>
            (out.ticket == ticket && s'.ownerCount == s.ownerCount
             && s'.waitQ == s.waitQ + [Waiter(if mode == EXCL then Excl else Share, ticket)]))
      && (out == IncorrectModeSpecified <==> mode != SHARE && mode != EXCL)
      && (out == IncorrectModeSpecified ==> s' == s)
  {
  }

  /** Releasing raises exactly on an unowned lock and then changes nothing. */
  lemma ReleaseUnownedIff(s: LockState)
    ensures ReleaseStep(s).1 == AttemptedReleaseOfUnownedLock <==> s.ownerCount == 0
    ensures ReleaseStep(s).1 == AttemptedReleaseOfUnownedLock ==> ReleaseStep(s).0 == s
  {
  }

  /** Waiters are woken in FIFO order: the woken tickets are those of a
      prefix of the queue and the queue left is the rest; either one
      exclusive waiter now owns the lock alone, or every woken waiter
      wanted it shared and each now holds a share. */
  lemma ReleaseWakesFifo(s: LockState)
    requires Inv(s) && s.ownerCount != 0
    ensures var (s', out) := ReleaseStep(s);
      && out.Released?
      && |out.woken| <= |s.waitQ|
      && out.woken == Tickets(s.waitQ[..|out.woken|])
      && s'.waitQ == s.waitQ[|out.woken|..]
      && (|out.woken| > 0 ==>
            (s.waitQ[0].mode == Excl && |out.woken| == 1 && s'.ownerCount == -1)
            || ((forall i :: 0 <= i < |out.woken| ==> s.waitQ[i].mode == Share)
                && s'.ownerCount == |out.woken|))
  {
    WakeSharersPrefix(0, s.waitQ);
    var (s', out) := ReleaseStep(s);
    if |out.woken| == 1 && s.waitQ[0].mode == Excl {
      assert s.waitQ[..1] == [s.waitQ[0]];
    }
  }

  /** Nobody is woken while the lock stays owned. */
  lemma ReleaseWakesOnlyWhenFree(s: LockState)
    requires Inv(s)
    requires s.ownerCount > 1
    ensures ReleaseStep(s) == (LockState(s.ownerCount - 1, s.waitQ), Released([]))
  {
  }

  /** Obtaining a free lock in either mode and releasing it leaves it free. */
  lemma ObtainReleaseFree(mode: int, ticket: nat)
    requires mode == SHARE || mode == EXCL
    ensures ObtainStep(Free, mode, ticket).1 == Granted
    ensures ReleaseStep(ObtainStep(Free, mode, ticket).0) == (Free, Released([]))
  {
  }

  //--------------------------------------------------------------------------
  // The lock object
  //--------------------------------------------------------------------------

  class SELock {
    var ownerCount: int
    var waitQ: seq<Waiter>
    /** The ticket the next queued request receives. */
    var nextTicket: nat

    function State(): LockState
      reads this
    {
      LockState(ownerCount, waitQ)
    }

    ghost predicate Valid()
      reads this
    {
      Inv(State())
    }

    /** `SELock()`: free, with an empty queue. */
    constructor()
      ensures Valid() && State() == Free
    {
      ownerCount := 0;
      waitQ := [];
      nextTicket := 0;
    }

    /** `len(lock)`: the number of waiters. */
    function Length(): (n: nat)
      reads this
      ensures n == |waitQ|
      ensures n > 0 ==> ownerCount != 0 || !Valid()
    {
      |waitQ|
    }

    /** `repr(lock)`. */
    function Repr(): (s: string)
      ensures s == "SELock()"
    {
      "SELock()"
    }

    /** `obtain(mode)`. A request that cannot be granted is queued and its
        ticket returned; the caller would then wait for that ticket to be
        woken by a release. */
    method Obtain(mode: int) returns (r: ObtainOutcome)
      requires Valid()
      modifies this
      ensures Valid()
      ensures (State(), r) == ObtainStep(old(State()), mode, old(nextTicket))
    {
      if mode == EXCL {
        if ownerCount == 0 {
          ownerCount := -1;
          return Granted;
        }
      } else if mode == SHARE {
        if ownerCount == 0 || (ownerCount > 0 && waitQ == []) {
          ownerCount := ownerCount + 1;
          return Granted;
        }
      } else {
        return IncorrectModeSpecified;
      }
      r := Queued(nextTicket);
      waitQ := waitQ + [Waiter(if mode == EXCL then Excl else Share, nextTicket)];
      nextTicket := nextTicket + 1;
      ObtainKeepsInv(old(State()), mode, old(nextTicket));
    }

    /** The loop of `release()` that wakes every share waiter from the
        head of the queue up to the first exclusive one. */
    method WakeShareWaiters() returns (woken: seq<nat>)
      modifies this
      ensures (ownerCount, waitQ, woken) == WakeSharers(old(ownerCount), old(waitQ))
      ensures nextTicket == old(nextTicket)
    {
      woken := [];
      ghost var final := WakeSharers(ownerCount, waitQ);
      assert woken + final.2 == final.2;
      while waitQ != []
        invariant WakeSharers(ownerCount, waitQ).0 == final.0
        invariant WakeSharers(ownerCount, waitQ).1 == final.1
        invariant woken + WakeSharers(ownerCount, waitQ).2 == final.2
        invariant nextTicket == old(nextTicket)
        decreases |waitQ|
      {
        if waitQ[0].mode == Excl {
          assert woken + [] == woken;
          return;
        }
        WakeSharersStep(ownerCount, waitQ, woken);
        woken := woken + [waitQ[0].ticket];
        waitQ := waitQ[1..];
        ownerCount := ownerCount + 1;
      }
      assert woken + [] == woken;
    }

    /** `release()`: returns the tickets of the waiters it wakes. */
    method Release() returns (r: ReleaseOutcome)
      requires Valid()
      modifies this
      ensures Valid()
      ensures (State(), r) == ReleaseStep(old(State()))
      ensures nextTicket == old(nextTicket)
    {
      ReleaseKeepsInv(State());
      if ownerCount == 0 {
        return AttemptedReleaseOfUnownedLock;
      }
      if ownerCount > 0 {
        ownerCount := ownerCount - 1;
      } else if ownerCount == -1 {
        ownerCount := 0;
      }
      var woken: seq<nat> := [];
      if ownerCount == 0 && waitQ != [] {
        if waitQ[0].mode == Excl {
          woken := [waitQ[0].ticket];
          waitQ := waitQ[1..];
          ownerCount := -1;
          return Released(woken);
        }
        woken := WakeShareWaiters();
      }
      r := Released(woken);
    }
  }

  /** `SELockShare(lock)`: a context manager holding the lock shared. */
  class SELockShare {
    const seLock: SELock

    constructor(lock: SELock)
      ensures seLock == lock
    {
      seLock := lock;
    }

    /** `__enter__`: `obtain(SHARE)`. */
    method Enter() returns (r: ObtainOutcome)
      requires seLock.Valid()
      modifies seLock
      ensures seLock.Valid()
      ensures (seLock.State(), r) == ObtainStep(old(seLock.State()), SHARE, old(seLock.nextTicket))
    {
      r := seLock.Obtain(SHARE);
    }

    /** `__exit__`: `release()`. */
    method Exit() returns (r: ReleaseOutcome)
      requires seLock.Valid()
      modifies seLock
      ensures seLock.Valid()
      ensures (seLock.State(), r) == ReleaseStep(old(seLock.State()))
    {
      r := seLock.Release();
    }
  }

  /** `SELockExcl(lock)`: a context manager holding the lock exclusive. */
  class SELockExcl {
    const seLock: SELock

    constructor(lock: SELock)
      ensures seLock == lock
    {
      seLock := lock;
    }

    /** `__enter__`: `obtain(EXCL)`. */
    method Enter() returns (r: ObtainOutcome)
      requires seLock.Valid()
      modifies seLock
      ensures seLock.Valid()
      ensures (seLock.State(), r) == ObtainStep(old(seLock.State()), EXCL, old(seLock.nextTicket))
    {
      r := seLock.Obtain(EXCL);
    }

    /** `__exit__`: `release()`. */
    method Exit() returns (r: ReleaseOutcome)
      requires seLock.Valid()
      modifies seLock
      ensures seLock.Valid()
      ensures (seLock.State(), r) == ReleaseStep(old(seLock.State()))
    {
      r := seLock.Release();
    }
  }
}
