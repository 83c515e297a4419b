/**
 CritSectRec over CritSectEx: a lock that spins and then waits on a semaphore, with a
 recursion count.  Any number of threads run its code; every interlocked operation,
 every load and store of the shared fields, every semaphore wait and release is one
 step, and the steps interleave in any order.
 */
module CritSect {

  type Tid = t: nat | t > 0 witness 1

  /** The timeout argument of Enter: none, some, or INFINITE. */
  datatype Timeout = Zero | Bounded | Forever

  /** Where a thread is. */
  datatype Pc =
    | Idle
    | ReadOwner(w: Timeout)               // dwThreadId == m_nLocker
    | ReadFree(w: Timeout)                // !m_nLocker
    | TryOnce(w: Timeout)                 // compare-exchange in Lock
    | Spin(w: Timeout)                    // PerfLock's spin loop
    | ReadSem(w: Timeout)                 // !m_hSemaphore
    | InstallSem(w: Timeout)              // pointer compare-exchange
    | Register(w: Timeout, waiter: bool)  // PerfLockKernel's loop head, WaiterPlus
    | TryAgain(w: Timeout)                // compare-exchange in PerfLockKernel
    | CheckTime(w: Timeout)
    | Waiting(w: Timeout)                 // WaitForSingleObject
    | Depart(won: bool)                   // PerfLock's WaiterMinus
    | Entered(unlockFlag: bool)           // back in Enter, m_nRecursion++ ahead
    | Clear                               // m_nLocker = 0 ahead
    | ReadWaiters                         // m_nWaiters > 0
    | Unregister                          // PerfUnlock's WaiterMinus
    | Release                             // ReleaseSemaphore
  {
    /** Counted in m_nWaiters by itself and not yet signalled or departed. */
    predicate Registered() {
      TryAgain? || CheckTime? || Waiting? || Depart? || (Register? && waiter)
    }

    /** In PerfLockKernel, or back from it. */
    predicate NeedsSem() {
      Register? || TryAgain? || CheckTime? || Waiting? || Depart? || Unregister? || Release?
    }

    /** It has failed its try and is going to wait, or waits. */
    predicate Sleepy() {
      CheckTime? || Waiting?
    }

    /** It has the lock but its enter is not complete, or its leave is not. */
    predicate Owning() {
      Entered? || Clear? || (Depart? && won)
    }

    /** Somebody who is here has no complete enter of its own to leave. */
    predicate Outside() {
      !Idle? && !ReadOwner? && !Entered?
    }

    predicate Waking() {
      ReadWaiters? || Unregister? || Release?
    }

    predicate Retrying() {
      Register? || TryAgain?
    }
  }

  /** What is left open: the caller's next call, the spin count, and time. */
  datatype Choice = Go | Enter(w: Timeout) | Leave | TimedOut

  datatype Shared = Shared(
    locker: nat,      // m_nLocker, 0 when the lock is free
    waiters: int,     // m_nWaiters
    handle: nat,      // m_hSemaphore, 0 until it is created
    sem: nat,         // the count of that semaphore
    recursion: int,   // m_nRecursion
    pcs: map<Tid, Pc>,
    depth: map<Tid, nat>)  // each thread's completed enters not yet left
  {
    function At(t: Tid, pc: Pc): Shared {
      this.(pcs := pcs[t := pc])
    }

    /** Compare-exchange of m_nLocker from 0 to t, and where that leads. */
    function CompareExchange(t: Tid, won: Pc, lost: Pc): Shared {
      if locker == 0 then this.(locker := t).At(t, won) else At(t, lost)
    }

    /** Whether thread t can take a step with this choice. */
    predicate Enabled(t: Tid, c: Choice) {
      t in pcs && t in depth &&
      match pcs[t]
      case Idle => c.Enter? || (c.Leave? && depth[t] > 0)
      case Spin(_) => c.Go? || c.TimedOut?
      case CheckTime(w) => c.Go? || (c.TimedOut? && w.Bounded?)
      case Waiting(w) => (c.Go? && sem > 0) || (c.TimedOut? && w.Bounded?)
      case _ => c.Go?
    }

    /** The step. */
    function Next(t: Tid, c: Choice): Shared
      requires Enabled(t, c)
    {
      match pcs[t]
      case Idle =>
        if c.Enter? then At(t, ReadOwner(c.w))
        else this.(recursion := recursion - 1, depth := depth[t := depth[t] - 1])
             .At(t, if recursion == 1 then Clear else Idle)
      case ReadOwner(w) => At(t, if locker == t then Entered(false) else ReadFree(w))
      case ReadFree(w) => At(t, if locker == 0 then TryOnce(w) else if w.Zero? then Idle else Spin(w))
      case TryOnce(w) => CompareExchange(t, Entered(true), if w.Zero? then Idle else Spin(w))
      case Spin(w) => if c.Go? then CompareExchange(t, Entered(true), Spin(w)) else At(t, ReadSem(w))
      case ReadSem(w) => At(t, if handle == 0 then InstallSem(w) else Register(w, false))
      case InstallSem(w) => this.(handle := if handle == 0 then t else handle).At(t, Register(w, false))
      case Register(w, waiter) => this.(waiters := if waiter then waiters else waiters + 1).At(t, TryAgain(w))
      case TryAgain(w) => CompareExchange(t, Depart(true), CheckTime(w))
      case CheckTime(w) => At(t, if c.TimedOut? then Depart(false) else Waiting(w))
      case Waiting(w) =>
        if c.TimedOut? then At(t, Register(w, true)) else this.(sem := sem - 1).At(t, Register(w, false))
      case Depart(won) => this.(waiters := waiters - 1).At(t, if won then Entered(true) else Idle)
      case Entered(_) => this.(recursion := recursion + 1, depth := depth[t := depth[t] + 1]).At(t, Idle)
      case Clear => this.(locker := 0).At(t, ReadWaiters)
      case ReadWaiters => At(t, if waiters > 0 then Unregister else Idle)
      case Unregister => this.(waiters := waiters - 1).At(t, Release)
      case Release => this.(sem := sem + 1).At(t, Idle)
    }

    function Where(p: Pc -> bool): set<Tid> {
      set t | t in pcs && p(pcs[t])
    }

    function Count(p: Pc -> bool): nat {
      |Where(p)|
    }

    /** Thread t has the lock. */
    predicate Holds(t: Tid) {
      t in pcs && t in depth && (pcs[t].Owning() || depth[t] > 0)
    }

    // ----- the invariant, part by part

    ghost predicate OwnerOk() {
      && pcs.Keys == depth.Keys
      && (locker != 0 ==> locker in pcs)
      && (forall t :: t in pcs ==> (Holds(t) <==> locker == t))
      && (forall t :: t in pcs && pcs[t].Outside() ==> depth[t] == 0)
    }

    ghost predicate RecursionOk() {
      && (locker == 0 ==> recursion == 0)
      && (forall t :: t in depth && locker == t ==> recursion == depth[t])
      && (forall t :: t in pcs && t in depth && pcs[t].Entered? ==> (pcs[t].unlockFlag <==> depth[t] == 0))
    }

    /** Waiter conservation. */
    ghost predicate Conserved() {
      waiters + sem + Count((pc: Pc) => pc.Release?) == Count((pc: Pc) => pc.Registered())
    }

    ghost predicate SemExists() {
      forall t :: t in pcs && pcs[t].NeedsSem() ==> handle != 0
    }

    ghost predicate SemBounded() {
      && (pcs != map[] ==>
            sem + Count((pc: Pc) => pc.Unregister?) + Count((pc: Pc) => pc.Release?) <= |pcs| - 1)
      && (pcs == map[] ==> sem == 0)
    }

    /** No lost wakeup. */
    ghost predicate Woken() {
      locker == 0 && (exists t :: t in pcs && pcs[t].Sleepy()) ==>
        sem > 0 || (exists t :: t in pcs && (pcs[t].Waking() || pcs[t].Retrying()))
    }

    ghost predicate Inv() {
      OwnerOk() && RecursionOk() && Conserved() && SemExists() && SemBounded() && Woken()
    }
  }

  /** Everybody outside, the lock free. */
  function Initial(threads: set<Tid>): Shared {
    Shared(0, 0, 0, 0, 0, map t | t in threads :: Idle, map t | t in threads :: 0)
  }

  // ----- counting

  lemma CountStep(s: Shared, t: Tid, q: Pc, p: Pc -> bool)
    requires t in s.pcs
    ensures s.At(t, q).Count(p) == s.Count(p) - (if p(s.pcs[t]) then 1 else 0) + (if p(q) then 1 else 0)
  {
    var before, after := s.Where(p), s.At(t, q).Where(p);
    assert after == (before - {t}) + (if p(q) then {t} else {});
  }

  /** The counts only depend on where the threads are. */
  lemma CountSame(s: Shared, u: Shared, p: Pc -> bool)
    requires u.pcs == s.pcs
    ensures u.Count(p) == s.Count(p)
  {
    assert u.Where(p) == s.Where(p);
  }

  lemma CountsOf(s: Shared, u: Shared, t: Tid, q: Pc, p: Pc -> bool)
    requires t in s.pcs && u.pcs == s.pcs[t := q]
    ensures u.Count(p) == s.Count(p) - (if p(s.pcs[t]) then 1 else 0) + (if p(q) then 1 else 0)
  {
    CountStep(s, t, q, p);
    CountSame(s.At(t, q), u, p);
  }

  lemma SomeWhere(s: Shared, p: Pc -> bool)
    ensures s.Count(p) > 0 <==> exists t :: t in s.pcs && p(s.pcs[t])
  {
    if t :| t in s.pcs && p(s.pcs[t]) {
      assert t in s.Where(p);
    }
    if s.Where(p) != {} {
      var t :| t in s.Where(p);
      assert t in s.pcs && p(s.pcs[t]);
    }
  }

  lemma SubsetSize<T>(a: set<T>, b: set<T>)
    requires a <= b
    ensures |a| <= |b|
  {
    assert b == a + (b - a) && a !! (b - a);
  }

  lemma FourDisjoint<T>(a: set<T>, b: set<T>, c: set<T>, d: set<T>, all: set<T>)
    requires a !! b && a !! c && a !! d && b !! c && b !! d && c !! d
    requires a <= all && b <= all && c <= all && d <= all
    ensures |a| + |b| + |c| + |d| <= |all|
  {
    assert |a + b| == |a| + |b| && |c + d| == |c| + |d|;
    assert (a + b) !! (c + d);
    assert |(a + b) + (c + d)| == |a + b| + |c + d|;
    SubsetSize((a + b) + (c + d), all);
  }

  /** Threads at four kinds of places are at most all threads. */
  lemma DisjointCounts(s: Shared)
    ensures s.Count((pc: Pc) => pc.Registered()) + s.Count((pc: Pc) => pc.Unregister?)
            + s.Count((pc: Pc) => pc.Release?) + s.Count((pc: Pc) => pc.ReadWaiters?) <= |s.pcs|
  {
    FourDisjoint(s.Where((pc: Pc) => pc.Registered()), s.Where((pc: Pc) => pc.Unregister?),
                 s.Where((pc: Pc) => pc.Release?), s.Where((pc: Pc) => pc.ReadWaiters?), s.pcs.Keys);
    assert |s.pcs.Keys| == |s.pcs|;
  }

  // ----- every step keeps each part

  /** A step of t changes ownership, if at all, between t and nobody. */
  lemma OwnerChange(s: Shared, u: Shared, t: Tid)
    requires s.OwnerOk() && t in s.pcs && t in u.pcs && t in u.depth
    requires u.pcs == s.pcs[t := u.pcs[t]] && u.depth == s.depth[t := u.depth[t]]
    requires u.locker == s.locker || ((s.locker == 0 || s.locker == t) && (u.locker == 0 || u.locker == t))
    requires (u.Holds(t) <==> u.locker == t) && (u.pcs[t].Outside() ==> u.depth[t] == 0)
    ensures u.OwnerOk()
  {
    forall o | o in u.pcs ensures u.Holds(o) <==> u.locker == o {
      assert s.Holds(o) <==> s.locker == o;
    }
  }

  lemma RecursionAt(s: Shared, t: Tid)
    requires s.RecursionOk() && t in s.depth
    ensures s.locker == t ==> s.recursion == s.depth[t]
  {
  }

  lemma OwnerStep(s: Shared, t: Tid, c: Choice)
    requires s.OwnerOk() && s.RecursionOk() && s.Enabled(t, c)
    ensures s.Next(t, c).OwnerOk()
  {
    assert s.Holds(t) <==> s.locker == t;
    OwnStep(s, t, c);
    OwnerChange(s, s.Next(t, c), t);
  }

  /** What the step does to the thread's own part. */
  lemma OwnStep(s: Shared, t: Tid, c: Choice)
    requires s.Enabled(t, c) && (s.Holds(t) <==> s.locker == t)
    requires (s.pcs[t].Outside() ==> s.depth[t] == 0) && (s.locker == t ==> s.recursion == s.depth[t])
    ensures var u := s.Next(t, c);
      && u.pcs == s.pcs[t := u.pcs[t]] && u.depth == s.depth[t := u.depth[t]]
      && (u.locker == s.locker || ((s.locker == 0 || s.locker == t) && (u.locker == 0 || u.locker == t)))
      && (u.Holds(t) <==> u.locker == t) && (u.pcs[t].Outside() ==> u.depth[t] == 0)
  {
  }

  /** A step of t changes the count, if at all, for the owner it makes or unmakes. */
  lemma RecursionChange(s: Shared, u: Shared, t: Tid)
    requires s.RecursionOk() && t in u.pcs && t in u.depth
    requires u.pcs == s.pcs[t := u.pcs[t]] && u.depth == s.depth[t := u.depth[t]]
    requires (u.locker == 0 ==> u.recursion == 0) && (u.locker == t ==> u.recursion == u.depth[t])
    requires u.locker != 0 && u.locker != t ==> u.locker == s.locker && u.recursion == s.recursion
    requires u.pcs[t].Entered? ==> (u.pcs[t].unlockFlag <==> u.depth[t] == 0)
    ensures u.RecursionOk()
  {
  }

  lemma RecursionStep(s: Shared, t: Tid, c: Choice)
    requires s.OwnerOk() && s.RecursionOk() && s.Enabled(t, c)
    ensures s.Next(t, c).RecursionOk()
  {
    hide Shared.Next, Shared.RecursionOk;
    assert s.Holds(t) <==> s.locker == t;
    RecursionAt(s, t);
    OwnStep(s, t, c);
    OwnRecursion(s, t, c);
    RecursionChange(s, s.Next(t, c), t);
  }

  lemma OwnRecursion(s: Shared, t: Tid, c: Choice)
    requires s.RecursionOk() && s.Enabled(t, c) && (s.Holds(t) <==> s.locker == t)
    requires (s.pcs[t].Outside() ==> s.depth[t] == 0) && (s.locker == t ==> s.recursion == s.depth[t])
    ensures var u := s.Next(t, c);
      && t in u.depth && t in u.pcs
      && (u.locker == 0 ==> u.recursion == 0) && (u.locker == t ==> u.recursion == u.depth[t])
      && (u.locker != 0 && u.locker != t ==> u.locker == s.locker && u.recursion == s.recursion)
      && (u.pcs[t].Entered? ==> (u.pcs[t].unlockFlag <==> u.depth[t] == 0))
  {
  }

  lemma ConservedStep(s: Shared, t: Tid, c: Choice)
    requires s.Conserved() && s.Enabled(t, c)
    ensures s.Next(t, c).Conserved()
  {
    var u := s.Next(t, c);
    CountsOf(s, u, t, u.pcs[t], (pc: Pc) => pc.Release?);
    CountsOf(s, u, t, u.pcs[t], (pc: Pc) => pc.Registered());
  }

  /** A positive waiter count means that the semaphore exists. */
  lemma WaitersHaveSem(s: Shared)
    requires s.Conserved() && s.SemExists() && s.waiters > 0
    ensures s.handle != 0
  {
    SomeWhere(s, (pc: Pc) => pc.Registered());
  }

  lemma ExistsStep(s: Shared, t: Tid, c: Choice)
    requires s.Conserved() && s.SemExists() && s.Enabled(t, c)
    ensures s.Next(t, c).SemExists()
    ensures s.handle != 0 ==> s.Next(t, c).handle == s.handle
  {
    hide Shared.Conserved;
    if s.pcs[t].ReadWaiters? && s.waiters > 0 {
      WaitersHaveSem(s);
    }
  }

  lemma BoundedStep(s: Shared, t: Tid, c: Choice)
    requires s.Conserved() && s.SemBounded() && s.Enabled(t, c)
    ensures s.Next(t, c).SemBounded()
  {
    hide Shared.Count;
    var u := s.Next(t, c);
    CountsOf(s, u, t, u.pcs[t], (pc: Pc) => pc.Release?);
    CountsOf(s, u, t, u.pcs[t], (pc: Pc) => pc.Unregister?);
    assert |u.pcs| == |s.pcs| by {
      assert u.pcs.Keys == s.pcs.Keys;
    }
    if s.pcs[t].ReadWaiters? {
      DisjointCounts(s);
      SomeWhere(s, (pc: Pc) => pc.ReadWaiters?);
    }
  }

  /** The one step after which a wakeup could be lost reads that nobody waits. */
  lemma NobodyWaits(s: Shared, u: Shared, t: Tid)
    requires s.Conserved() && t in s.pcs && s.pcs[t].ReadWaiters? && s.waiters <= 0
    requires u.pcs == s.pcs[t := Idle] && u.sem == s.sem
    ensures u.Woken()
  {
    hide Shared.Count;
    SomeWhere(s, (pc: Pc) => pc.Registered());
    SomeWhere(s, (pc: Pc) => pc.Release?);
    if o :| o in u.pcs && u.pcs[o].Sleepy() {
      assert s.pcs[o].Registered();
      if s.sem <= 0 {
        var r :| r in s.pcs && s.pcs[r].Release?;
        assert u.pcs[r].Waking();
      }
    }
  }

  lemma WokenStep(s: Shared, t: Tid, c: Choice)
    requires s.Conserved() && s.Woken() && s.Enabled(t, c)
    ensures s.Next(t, c).Woken()
  {
    hide Shared.Conserved;
    var u := s.Next(t, c);
    if s.pcs[t].ReadWaiters? && s.waiters <= 0 {
      NobodyWaits(s, u, t);
    } else if s.pcs[t].Clear? {
      assert u.pcs[t].Waking();
    } else if u.locker == 0 && exists o :: o in u.pcs && u.pcs[o].Sleepy() {
      var o :| o in u.pcs && u.pcs[o].Sleepy();
      assert s.locker == 0 && s.pcs[o].Sleepy();
      StaysWoken(s, t, c);
    }
  }

  lemma StaysWoken(s: Shared, t: Tid, c: Choice)
    requires s.Enabled(t, c) && s.locker == 0 && s.Next(t, c).locker == 0 && (s.pcs[t].ReadWaiters? ==> s.waiters > 0)
    requires s.sem > 0 || exists o :: o in s.pcs && (s.pcs[o].Waking() || s.pcs[o].Retrying())
    ensures var u := s.Next(t, c);
            u.sem > 0 || exists o :: o in u.pcs && (u.pcs[o].Waking() || u.pcs[o].Retrying())
  {
    var u := s.Next(t, c);
    assert u.pcs[t].Waking() || u.pcs[t].Retrying() || u.sem == s.sem || s.pcs[t].Release?;
    if s.sem <= 0 {
      var w :| w in s.pcs && (s.pcs[w].Waking() || s.pcs[w].Retrying());
      assert w in u.pcs && (w == t || u.pcs[w] == s.pcs[w]);
      assert u.sem > 0 || u.pcs[t].Waking() || u.pcs[t].Retrying() || w != t;
    }
  }
}
