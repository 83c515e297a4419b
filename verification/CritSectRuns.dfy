/**
 All runs of CritSectRec: mutual exclusion, recursion, no lost wakeup, no deadlock;
 and the code itself, one atomic step of one thread at a time, on the shared fields.
 */
module CritSectRuns {
  import opened CritSect

  datatype Act = Act(thread: Tid, choice: Choice)

  ghost predicate Run(states: seq<Shared>, acts: seq<Act>) {
    && |states| == |acts| + 1
    && states[0] == Initial(states[0].pcs.Keys)
    && (forall n :: 0 <= n < |acts| ==>
          states[n].Enabled(acts[n].thread, acts[n].choice)
          && states[n + 1] == states[n].Next(acts[n].thread, acts[n].choice))
  }

  lemma InitialInv(threads: set<Tid>)
    ensures Initial(threads).Inv()
  {
    var s := Initial(threads);
    assert s.Where((pc: Pc) => pc.Release?) == {} && s.Where((pc: Pc) => pc.Registered()) == {};
    assert s.Where((pc: Pc) => pc.Unregister?) == {};
    if s.pcs != map[] {
      assert s.pcs.Keys != {} && |s.pcs| == |s.pcs.Keys| > 0;
    }
  }

  lemma StepInv(s: Shared, t: Tid, c: Choice)
    requires s.Inv() && s.Enabled(t, c)
    ensures s.Next(t, c).Inv()
    ensures s.handle != 0 ==> s.Next(t, c).handle == s.handle
  {
    hide Shared.OwnerOk, Shared.RecursionOk, Shared.Conserved, Shared.SemExists, Shared.SemBounded, Shared.Woken,
         Shared.Next, Shared.Enabled;
    OwnerStep(s, t, c);
    RecursionStep(s, t, c);
    ConservedStep(s, t, c);
    ExistsStep(s, t, c);
    BoundedStep(s, t, c);
    WokenStep(s, t, c);
  }

  lemma {:induction false} RunInv(states: seq<Shared>, acts: seq<Act>, n: nat)
    requires Run(states, acts) && n < |states|
    ensures states[n].Inv()
  {
    hide Shared.Inv, Shared.Next, Shared.Enabled;
    if n == 0 {
      InitialInv(states[0].pcs.Keys);
    } else {
      RunInv(states, acts, n - 1);
      assert states[n - 1].Enabled(acts[n - 1].thread, acts[n - 1].choice);
      StepInv(states[n - 1], acts[n - 1].thread, acts[n - 1].choice);
    }
  }

  /** Thread t's enters that succeeded before step n, less its leaves. */
  function Unmatched(states: seq<Shared>, acts: seq<Act>, n: nat, t: Tid): int
    requires n < |states| == |acts| + 1
  {
    if n == 0 then 0
    else
      var before := Unmatched(states, acts, n - 1, t);
      if acts[n - 1].thread != t || t !in states[n - 1].pcs then before
      else if acts[n - 1].choice.Leave? then before - 1
      else if states[n - 1].pcs[t].Entered? then before + 1
      else before
  }

  lemma {:induction false} DepthIsUnmatched(states: seq<Shared>, acts: seq<Act>, n: nat, t: Tid)
    requires Run(states, acts) && n < |states| && t in states[0].pcs
    ensures t in states[n].pcs && t in states[n].depth && states[n].depth[t] == Unmatched(states, acts, n, t)
  {
    if n > 0 {
      DepthIsUnmatched(states, acts, n - 1, t);
      DepthStep(states[n - 1], acts[n - 1].thread, acts[n - 1].choice, t);
    }
  }

  lemma DepthStep(s: Shared, t: Tid, c: Choice, o: Tid)
    requires s.Enabled(t, c) && o in s.pcs && o in s.depth
    ensures var u := s.Next(t, c); o in u.pcs && o in u.depth
    ensures s.Next(t, c).depth[o] == s.depth[o]
              + if o != t then 0 else if c.Leave? then -1 else if s.pcs[t].Entered? then 1 else 0
  {
  }

  /** In every run at most one thread is inside, m_nLocker is its id, and m_nRecursion
      is the number of its enters not yet left. */
  lemma MutualExclusion(states: seq<Shared>, acts: seq<Act>, n: nat, t: Tid, o: Tid)
    requires Run(states, acts) && n < |states| && t in states[0].pcs && o in states[0].pcs
    requires Unmatched(states, acts, n, t) > 0
    ensures states[n].locker == t && states[n].recursion == Unmatched(states, acts, n, t)
    ensures o != t ==> Unmatched(states, acts, n, o) == 0
  {
    hide Shared.Conserved, Shared.SemExists, Shared.SemBounded, Shared.Woken, Shared.Next, Run;
    RunInv(states, acts, n);
    DepthIsUnmatched(states, acts, n, t);
    DepthIsUnmatched(states, acts, n, o);
    assert states[n].Holds(t);
    assert o != t ==> !states[n].Holds(o);
  }

  /** In every run the lock is given up only by its owner with nothing left to leave;
      a leave that is not the last one keeps it. */
  lemma FreedAtDepthZero(states: seq<Shared>, acts: seq<Act>, n: nat)
    requires Run(states, acts) && n < |acts|
    ensures states[n].locker != 0 && states[n + 1].locker != states[n].locker ==>
              && states[n + 1].locker == 0 && acts[n].thread == states[n].locker
              && Unmatched(states, acts, n, acts[n].thread) == 0 && states[n].recursion == 0
    ensures acts[n].choice.Leave? ==>
              var left := Unmatched(states, acts, n + 1, acts[n].thread);
              left >= 0 && states[n + 1].pcs[acts[n].thread] == if left == 0 then Clear else Idle
  {
    hide Shared.Conserved, Shared.SemExists, Shared.SemBounded, Shared.Woken;
    var s, t, c := states[n], acts[n].thread, acts[n].choice;
    assert s.Enabled(t, c) && states[n + 1] == s.Next(t, c);
    SameThreads(states, acts, n);
    RunInv(states, acts, n);
    DepthIsUnmatched(states, acts, n, t);
    assert s.Holds(t) <==> s.locker == t;
    RecursionAt(s, t);
  }

  lemma {:induction false} SameThreads(states: seq<Shared>, acts: seq<Act>, n: nat)
    requires Run(states, acts) && n < |states|
    ensures states[n].pcs.Keys == states[0].pcs.Keys
  {
    if n > 0 {
      SameThreads(states, acts, n - 1);
    }
  }

  /** The assertions of Enter, Leave and PerfUnlock/PerfLockKernel hold at every step of every run. */
  lemma AssertsHold(states: seq<Shared>, acts: seq<Act>, n: nat)
    requires Run(states, acts) && n < |acts|
    ensures var s, t := states[n], acts[n].thread;
      && t in s.pcs
      && (s.pcs[t].Entered? ==> if s.pcs[t].unlockFlag then s.recursion == 0 else s.recursion > 0)
      && (acts[n].choice.Leave? ==> s.recursion > 0)
      && (s.pcs[t].Waiting? || s.pcs[t].Release? ==> s.handle != 0)
  {
    hide Shared.Conserved, Shared.SemBounded, Shared.Woken, Shared.Next;
    var s, t, c := states[n], acts[n].thread, acts[n].choice;
    assert s.Enabled(t, c);
    RunInv(states, acts, n);
    assert s.Holds(t) <==> s.locker == t;
    RecursionAt(s, t);
  }

  /** The waiter count and the semaphore count stay within the number of threads. */
  lemma CountsBounded(states: seq<Shared>, acts: seq<Act>, n: nat)
    requires Run(states, acts) && n < |states|
    ensures var s := states[n];
      && s.waiters + s.sem + s.Count((pc: Pc) => pc.Release?) == s.Count((pc: Pc) => pc.Registered())
      && (s.waiters > 0 ==> s.handle != 0)
      && (s.sem > 0 ==> s.sem < |s.pcs|) && -|s.pcs| <= s.waiters <= |s.pcs|
      && (s.waiters < 0 <==> s.sem + s.Count((pc: Pc) => pc.Release?) > s.Count((pc: Pc) => pc.Registered()))
  {
    hide Shared.OwnerOk, Shared.RecursionOk, Shared.Woken, Shared.Count;
    RunInv(states, acts, n);
    DisjointCounts(states[n]);
    if states[n].waiters > 0 {
      WaitersHaveSem(states[n]);
    }
  }

  lemma {:induction false} SemaphoreStays(states: seq<Shared>, acts: seq<Act>, m: nat, n: nat)
    requires Run(states, acts) && m <= n < |states| && states[m].handle != 0
    ensures states[n].handle == states[m].handle
  {
    hide Shared.Inv, Shared.Next, Shared.Enabled;
    if m < n {
      SemaphoreStays(states, acts, m, n - 1);
      RunInv(states, acts, n - 1);
      assert states[n - 1].Enabled(acts[n - 1].thread, acts[n - 1].choice);
      StepInv(states[n - 1], acts[n - 1].thread, acts[n - 1].choice);
    }
  }

  /** No lost wakeup: while the lock is free and a thread is going to wait or waits, a
      wakeup is there or on its way, or a thread is about to try again. */
  lemma NoLostWakeup(states: seq<Shared>, acts: seq<Act>, n: nat, t: Tid)
    requires Run(states, acts) && n < |states| && states[n].locker == 0
    requires t in states[n].pcs && states[n].pcs[t].Sleepy()
    ensures states[n].sem > 0
      || exists o :: o in states[n].pcs && (states[n].pcs[o].Waking() || states[n].pcs[o].Retrying())
  {
    RunInv(states, acts, n);
  }

  /** No deadlock: when any thread is on its way in or out, one of them can take a step
      without a timeout, unless a thread that is inside has yet to call Leave. */
  lemma NoDeadlock(states: seq<Shared>, acts: seq<Act>, n: nat, t: Tid)
    requires Run(states, acts) && n < |states| && t in states[n].pcs && !states[n].pcs[t].Idle?
    ensures (exists o :: o in states[n].pcs && !states[n].pcs[o].Idle? && states[n].Enabled(o, Go))
      || (exists o :: o in states[n].pcs && o in states[n].depth && states[n].pcs[o].Idle?
                      && states[n].depth[o] > 0 && states[n].locker == o)
  {
    hide Shared.Conserved, Shared.SemExists, Shared.SemBounded, Shared.RecursionOk, Shared.Next;
    RunInv(states, acts, n);
    var s := states[n];
    if !s.pcs[t].Waiting? {
      assert s.Enabled(t, Go);
    } else if s.locker == 0 {
      assert s.pcs[t].Sleepy();
      if s.sem > 0 {
        assert s.Enabled(t, Go);
      } else {
        var o :| o in s.pcs && (s.pcs[o].Waking() || s.pcs[o].Retrying());
        assert s.Enabled(o, Go);
      }
    } else {
      var o: Tid := s.locker;
      assert s.Holds(o);
      if !s.pcs[o].Idle? {
        assert s.Enabled(o, Go);
      }
    }
  }

  // ----- the waiter count may be negative

  /** Two threads. */
  function Two(locker: nat, waiters: int, handle: nat, recursion: int, p: Pc, q: Pc, d: nat): Shared {
    Shared(locker, waiters, handle, 0, recursion, map[1 := p, 2 := q], map[1 := d, 2 := 0])
  }

  lemma Extend(states: seq<Shared>, acts: seq<Act>, t: Tid, c: Choice, u: Shared)
      returns (states': seq<Shared>, acts': seq<Act>)
    requires Run(states, acts) && states[|acts|].Enabled(t, c) && u == states[|acts|].Next(t, c)
    ensures Run(states', acts') && states'[|acts'|] == u
  {
    hide Shared.Enabled, Shared.Next;
    states', acts' := states + [u], acts + [Act(t, c)];
    forall n | 0 <= n < |acts'|
      ensures states'[n].Enabled(acts'[n].thread, acts'[n].choice)
        && states'[n + 1] == states'[n].Next(acts'[n].thread, acts'[n].choice)
    {
      if n < |acts| {
        assert states'[n] == states[n] && states'[n + 1] == states[n + 1] && acts'[n] == acts[n];
      }
    }
  }

  /** The first thread finds the lock free. */
  lemma FirstTries() returns (states: seq<Shared>, acts: seq<Act>)
    ensures Run(states, acts) && states[|acts|] == Two(0, 0, 0, 0, TryOnce(Forever), Idle, 0)
  {
    hide Run;
    var w := Forever;
    states, acts := [Two(0, 0, 0, 0, Idle, Idle, 0)], [];
    StartOfTwo();
    states, acts := Extend(states, acts, 1, Enter(w), Two(0, 0, 0, 0, ReadOwner(w), Idle, 0));
    states, acts := Extend(states, acts, 1, Go, Two(0, 0, 0, 0, ReadFree(w), Idle, 0));
    states, acts := Extend(states, acts, 1, Go, Two(0, 0, 0, 0, TryOnce(w), Idle, 0));
  }

  lemma StartOfTwo()
    ensures Run([Two(0, 0, 0, 0, Idle, Idle, 0)], [])
  {
    var s := Two(0, 0, 0, 0, Idle, Idle, 0);
    assert s.pcs.Keys == {1, 2};
    assert s.pcs == Initial({1, 2}).pcs && s.depth == Initial({1, 2}).depth;
  }

  /** It enters, and the second thread calls Enter. */
  lemma FirstEnters() returns (states: seq<Shared>, acts: seq<Act>)
    ensures Run(states, acts) && states[|acts|] == Two(1, 0, 0, 1, Idle, ReadOwner(Forever), 1)
  {
    hide Run;
    var w := Forever;
    states, acts := FirstTries();
    states, acts := Extend(states, acts, 1, Go, Two(1, 0, 0, 0, Entered(true), Idle, 0));
    states, acts := Extend(states, acts, 1, Go, Two(1, 0, 0, 1, Idle, Idle, 1));
    states, acts := Extend(states, acts, 2, Enter(w), Two(1, 0, 0, 1, Idle, ReadOwner(w), 1));
  }

  /** The second thread finds the lock taken and gives up spinning. */
  lemma SecondFails() returns (states: seq<Shared>, acts: seq<Act>)
    ensures Run(states, acts) && states[|acts|] == Two(1, 0, 0, 1, Idle, ReadSem(Forever), 1)
  {
    hide Run;
    var w := Forever;
    states, acts := FirstEnters();
    states, acts := Extend(states, acts, 2, Go, Two(1, 0, 0, 1, Idle, ReadFree(w), 1));
    states, acts := Extend(states, acts, 2, Go, Two(1, 0, 0, 1, Idle, Spin(w), 1));
    states, acts := Extend(states, acts, 2, TimedOut, Two(1, 0, 0, 1, Idle, ReadSem(w), 1));
  }

  /** It creates the semaphore and registers. */
  lemma SecondRegisters() returns (states: seq<Shared>, acts: seq<Act>)
    ensures Run(states, acts) && states[|acts|] == Two(1, 1, 2, 1, Idle, TryAgain(Forever), 1)
  {
    hide Run;
    var w := Forever;
    states, acts := SecondFails();
    states, acts := Extend(states, acts, 2, Go, Two(1, 0, 0, 1, Idle, InstallSem(w), 1));
    states, acts := Extend(states, acts, 2, Go, Two(1, 0, 2, 1, Idle, Register(w, false), 1));
    states, acts := Extend(states, acts, 2, Go, Two(1, 1, 2, 1, Idle, TryAgain(w), 1));
  }

  /** The first thread leaves. */
  lemma FirstLeaves() returns (states: seq<Shared>, acts: seq<Act>)
    ensures Run(states, acts) && states[|acts|] == Two(0, 1, 2, 0, ReadWaiters, TryAgain(Forever), 0)
  {
    hide Run;
    var w := Forever;
    states, acts := SecondRegisters();
    states, acts := Extend(states, acts, 1, Leave, Two(1, 1, 2, 0, Clear, TryAgain(w), 0));
    states, acts := Extend(states, acts, 1, Go, Two(0, 1, 2, 0, ReadWaiters, TryAgain(w), 0));
  }

  /** It sees a waiter; the second thread wins the lock meanwhile. */
  lemma SecondWins() returns (states: seq<Shared>, acts: seq<Act>)
    ensures Run(states, acts) && states[|acts|] == Two(2, 1, 2, 0, Unregister, Depart(true), 0)
  {
    hide Run;
    var w := Forever;
    states, acts := FirstLeaves();
    states, acts := Extend(states, acts, 1, Go, Two(0, 1, 2, 0, Unregister, TryAgain(w), 0));
    states, acts := Extend(states, acts, 2, Go, Two(2, 1, 2, 0, Unregister, Depart(true), 0));
  }

  /** The second thread counts itself out, and then the first one counts it out too. */
  lemma WaitersGoNegative() returns (states: seq<Shared>, acts: seq<Act>)
    ensures Run(states, acts) && states[|acts|].waiters == -1
  {
    hide Run;
    states, acts := SecondWins();
    states, acts := Extend(states, acts, 2, Go, Two(2, 0, 2, 0, Unregister, Entered(true), 0));
    states, acts := Extend(states, acts, 1, Go, Two(2, -1, 2, 0, Release, Entered(true), 0));
  }

  // ----- progress

  /** How far a thread is from the lock, or from being outside, while the lock is free. */
  function Rank(pc: Pc): nat {
    match pc
    case ReadOwner(_) => 10
    case ReadFree(_) => 9
    case TryOnce(_) => 8
    case Spin(_) => 7
    case ReadSem(_) => 6
    case InstallSem(_) => 5
    case CheckTime(_) => 5
    case Waiting(_) => 4
    case Register(_, _) => 3
    case ReadWaiters => 3
    case TryAgain(_) => 2
    case Unregister => 2
    case Depart(_) => 1
    case Release => 1
    case _ => 0
  }

  /** The sum of all threads' ranks, as far as they go up to r. */
  function Sum(s: Shared, r: nat): nat {
    if r == 0 then 0 else Sum(s, r - 1) + s.Count((pc: Pc) => Rank(pc) >= r)
  }

  function Least(x: nat, y: nat): nat {
    if x < y then x else y
  }

  lemma {:induction false} SumStep(s: Shared, u: Shared, t: Tid, q: Pc, r: nat)
    requires t in s.pcs && u.pcs == s.pcs[t := q]
    ensures Sum(u, r) == Sum(s, r) - Least(Rank(s.pcs[t]), r) + Least(Rank(q), r)
  {
    if r > 0 {
      SumStep(s, u, t, q, r - 1);
      CountsOf(s, u, t, q, (pc: Pc) => Rank(pc) >= r);
    }
  }

  lemma {:induction false} SumBounded(s: Shared, r: nat)
    ensures Sum(s, r) <= r * |s.pcs|
  {
    hide Rank, Shared.Count;
    if r > 0 {
      SumBounded(s, r - 1);
      CountBounded(s, (pc: Pc) => Rank(pc) >= r);
      OneMore(r, |s.pcs|);
    }
  }

  lemma CountBounded(s: Shared, p: Pc -> bool)
    ensures s.Count(p) <= |s.pcs|
  {
    SubsetSize(s.Where(p), s.pcs.Keys);
    assert |s.pcs.Keys| == |s.pcs|;
  }

  lemma OneMore(r: nat, n: nat)
    requires r > 0
    ensures r * n == (r - 1) * n + n
  {
  }

  /** While the lock stays free, every step but a new call of Enter lowers the sum. */
  lemma FreeStepFalls(s: Shared, t: Tid, c: Choice)
    requires s.OwnerOk() && s.Enabled(t, c) && s.locker == 0 && s.Next(t, c).locker == 0
    ensures Sum(s.Next(t, c), 10) + (if c.Enter? then 0 else 1) <= Sum(s, 10) + if c.Enter? then 10 else 0
  {
    var u := s.Next(t, c);
    SumStep(s, u, t, u.pcs[t], 10);
    RankFalls(s, t, c);
  }

  lemma RankFalls(s: Shared, t: Tid, c: Choice)
    requires s.OwnerOk() && s.Enabled(t, c) && s.locker == 0 && s.Next(t, c).locker == 0
    ensures s.Next(t, c).pcs == s.pcs[t := s.Next(t, c).pcs[t]]
    ensures if c.Enter? then Rank(s.pcs[t]) == 0 && Rank(s.Next(t, c).pcs[t]) == 10
            else Rank(s.Next(t, c).pcs[t]) < Rank(s.pcs[t]) <= 10
  {
    assert !s.Holds(t);
  }

  /** The number of calls of Enter among the steps m to n. */
  function Enters(acts: seq<Act>, m: nat, n: nat): nat
    requires m <= n <= |acts|
  {
    if m == n then 0 else Enters(acts, m, n - 1) + if acts[n - 1].choice.Enter? then 1 else 0
  }

  /** A free lock does not stay free: of a stretch of any run in which nobody has it, the
      length is bounded by the number of threads and of new calls. */
  lemma {:induction false} Progress(states: seq<Shared>, acts: seq<Act>, m: nat, n: nat)
    requires Run(states, acts) && m <= n < |states|
    requires forall k :: m <= k <= n ==> states[k].locker == 0
    ensures Sum(states[n], 10) + (n - m) <= Sum(states[m], 10) + 11 * Enters(acts, m, n)
    ensures n - m <= 10 * |states[0].pcs| + 11 * Enters(acts, m, n)
  {
    hide Shared.Next, Shared.Enabled, Shared.Inv, Sum;
    SameThreads(states, acts, m);
    SumBounded(states[m], 10);
    assert |states[m].pcs| == |states[m].pcs.Keys| == |states[0].pcs.Keys| == |states[0].pcs|;
    if m < n {
      Progress(states, acts, m, n - 1);
      RunOwner(states, acts, n - 1);
      assert states[n - 1].Enabled(acts[n - 1].thread, acts[n - 1].choice);
      assert states[n - 1 + 1] == states[n];
      FreeStepFalls(states[n - 1], acts[n - 1].thread, acts[n - 1].choice);
    }
  }

  lemma RunOwner(states: seq<Shared>, acts: seq<Act>, n: nat)
    requires Run(states, acts) && n < |states|
    ensures states[n].OwnerOk()
  {
    hide Shared.Next, Shared.Enabled, Shared.OwnerOk;
    RunInv(states, acts, n);
  }

  /** On its way in, with no timeout. */
  predicate Insists(pc: Pc) {
    match pc
    case ReadOwner(w) => w.Forever?
    case ReadFree(w) => w.Forever?
    case TryOnce(w) => w.Forever?
    case Spin(w) => w.Forever?
    case ReadSem(w) => w.Forever?
    case InstallSem(w) => w.Forever?
    case Register(w, _) => w.Forever?
    case TryAgain(w) => w.Forever?
    case CheckTime(w) => w.Forever?
    case Waiting(w) => w.Forever?
    case _ => pc.Depart? && pc.won
  }

  /** A thread that came with no timeout stays on its way in until it is inside, so in a
      stretch in which nobody has the lock there is always a step to take without a
      timeout; with Progress, the lock is taken within the bound. */
  lemma {:induction false} Insistent(states: seq<Shared>, acts: seq<Act>, m: nat, n: nat, t: Tid)
    requires Run(states, acts) && m <= n < |states|
    requires forall k :: m <= k <= n ==> states[k].locker == 0
    requires t in states[m].pcs && Insists(states[m].pcs[t])
    ensures t in states[n].pcs && Insists(states[n].pcs[t])
    ensures exists o :: o in states[n].pcs && !states[n].pcs[o].Idle? && states[n].Enabled(o, Go)
  {
    hide Shared.Next, Shared.OwnerOk;
    if m < n {
      Insistent(states, acts, m, n - 1, t);
      InsistsStep(states, acts, n - 1, t);
    }
    NoDeadlock(states, acts, n, t);
  }

  lemma InsistsStep(states: seq<Shared>, acts: seq<Act>, n: nat, t: Tid)
    requires Run(states, acts) && n < |acts| && t in states[n].pcs && Insists(states[n].pcs[t])
    ensures t in states[n + 1].pcs && (Insists(states[n + 1].pcs[t]) || states[n + 1].pcs[t].Entered?)
    ensures states[n + 1].locker == 0 ==> !states[n + 1].pcs[t].Entered?
  {
    var s, a := states[n], acts[n];
    assert s.Enabled(a.thread, a.choice) && states[n + 1] == s.Next(a.thread, a.choice);
    RunOwner(states, acts, n + 1);
    assert states[n + 1].pcs[t].Entered? ==> states[n + 1].Holds(t);
  }

  // ----- what comes of a call of Enter

  /** On its way in with timeout w, or through. */
  predicate Calling(pc: Pc, w: Timeout) {
    match pc
    case ReadOwner(v) => v == w
    case ReadFree(v) => v == w
    case TryOnce(v) => v == w
    case Spin(v) => v == w
    case ReadSem(v) => v == w
    case InstallSem(v) => v == w
    case Register(v, _) => v == w
    case TryAgain(v) => v == w
    case CheckTime(v) => v == w
    case Waiting(v) => v == w
    case Depart(won) => won
    case Entered(_) => true
    case _ => false
  }

  /** How many own steps a try has at most to go; 0 where no try gets. */
  function TryLeft(pc: Pc): nat {
    match pc
    case ReadOwner(_) => 4
    case ReadFree(_) => 3
    case TryOnce(_) => 2
    case Entered(_) => 1
    case _ => 0
  }

  /** The call of Enter that thread t makes at step m is still going at state n. */
  ghost predicate CallFrom(states: seq<Shared>, acts: seq<Act>, m: nat, n: nat, t: Tid, w: Timeout) {
    && Run(states, acts) && m < n < |states| && acts[m] == Act(t, Enter(w))
    && (forall j :: m < j <= n ==> t in states[j].pcs && !states[j].pcs[t].Idle?)
  }

  /** At step j thread t finds that its time is over. */
  ghost predicate GaveUp(states: seq<Shared>, acts: seq<Act>, j: nat, t: Tid) {
    j < |acts| && j < |states| && acts[j] == Act(t, TimedOut) && t in states[j].pcs && states[j].pcs[t].CheckTime?
  }

  /** The number of steps of thread t among the steps m to n. */
  function Own(acts: seq<Act>, m: nat, n: nat, t: Tid): nat
    requires m <= n <= |acts|
  {
    if m == n then 0 else Own(acts, m, n - 1, t) + if acts[n - 1].thread == t then 1 else 0
  }

  /** Where a step of its own takes a call. */
  lemma CallStep(s: Shared, t: Tid, c: Choice, w: Timeout)
    requires s.Enabled(t, c) && Calling(s.pcs[t], w) && !s.Next(t, c).pcs[t].Idle?
    ensures var p, q := s.pcs[t], s.Next(t, c).pcs[t];
      Calling(q, w) || (w.Bounded? && p.CheckTime? && c.TimedOut? && q == Depart(false))
    ensures s.Next(t, c).depth == s.depth
  {
  }

  /** A step of its own takes a try on, and touches neither waiters nor semaphore. */
  lemma TryStep(s: Shared, t: Tid, c: Choice)
    requires s.Enabled(t, c) && Calling(s.pcs[t], Zero) && TryLeft(s.pcs[t]) > 0
    ensures var u := s.Next(t, c);
      && (u.pcs[t].Idle? || TryLeft(s.pcs[t]) > TryLeft(u.pcs[t]) > 0)
      && u.waiters == s.waiters && u.sem == s.sem && u.handle == s.handle
  {
  }

  lemma OthersStep(s: Shared, o: Tid, c: Choice, t: Tid)
    requires s.Enabled(o, c) && o != t && t in s.pcs && t in s.depth
    ensures var u := s.Next(o, c); t in u.pcs && u.pcs[t] == s.pcs[t] && t in u.depth && u.depth[t] == s.depth[t]
  {
  }

  lemma CallStarts(s: Shared, t: Tid, w: Timeout)
    requires s.Enabled(t, Enter(w))
    ensures s.pcs[t].Idle? && s.Next(t, Enter(w)).pcs[t] == ReadOwner(w) && s.Next(t, Enter(w)).depth == s.depth
  {
  }

  /** While it is going, a call keeps its timeout, and leaves the waiting only when its time is over. */
  lemma {:induction false} CallStays(states: seq<Shared>, acts: seq<Act>, m: nat, n: nat, t: Tid, w: Timeout)
    requires CallFrom(states, acts, m, n, t, w)
    ensures t in states[m].depth && t in states[n].depth && states[n].depth[t] == states[m].depth[t]
    ensures Calling(states[n].pcs[t], w)
      || (w.Bounded? && states[n].pcs[t] == Depart(false) && exists j :: m < j < n && GaveUp(states, acts, j, t))
  {
    hide Shared.Next, Shared.Enabled, Calling;
    var s, a := states[n - 1], acts[n - 1];
    assert s.Enabled(a.thread, a.choice) && states[n - 1 + 1] == s.Next(a.thread, a.choice);
    if n == m + 1 {
      CallStarts(s, t, w);
      StartCalls(s, t, w);
    } else {
      CallStays(states, acts, m, n - 1, t, w);
      if a.thread != t {
        OthersStep(s, a.thread, a.choice, t);
      } else if Calling(s.pcs[t], w) {
        CallStep(s, t, a.choice, w);
        if !Calling(states[n].pcs[t], w) {
          assert a == Act(t, TimedOut);
          assert GaveUp(states, acts, n - 1, t);
        }
      } else {
        DepartEnds(s, t, a.choice);
      }
    }
  }

  lemma StartCalls(s: Shared, t: Tid, w: Timeout)
    requires s.Enabled(t, Enter(w))
    ensures t in s.depth && Calling(ReadOwner(w), w)
  {
  }

  lemma DepartEnds(s: Shared, t: Tid, c: Choice)
    requires s.Enabled(t, c) && s.pcs[t] == Depart(false)
    ensures s.Next(t, c).pcs[t].Idle? && s.Next(t, c).depth == s.depth
  {
  }

  /** TryEnter never waits: while it is going it is not in the spin loop or beyond, it has
      made at most three steps of its own, none of them has touched waiters or semaphore,
      and its next one can be taken; so the fourth at the latest takes it outside or inside. */
  lemma {:induction false} TryNeverWaits(states: seq<Shared>, acts: seq<Act>, m: nat, n: nat, t: Tid)
    requires CallFrom(states, acts, m, n, t, Zero)
    ensures states[n].pcs[t] in {ReadOwner(Zero), ReadFree(Zero), TryOnce(Zero)} || states[n].pcs[t].Entered?
    ensures Own(acts, m + 1, n, t) + TryLeft(states[n].pcs[t]) <= 4 && Own(acts, m + 1, n, t) <= 3
    ensures states[n].Enabled(t, Go)
    ensures forall j :: m < j < n && acts[j].thread == t ==>
              && states[j + 1].waiters == states[j].waiters && states[j + 1].sem == states[j].sem
              && states[j + 1].handle == states[j].handle
  {
    hide Shared.Next, Shared.Enabled;
    var s, a := states[n - 1], acts[n - 1];
    assert s.Enabled(a.thread, a.choice) && states[n - 1 + 1] == s.Next(a.thread, a.choice);
    CallStays(states, acts, m, n, t, Zero);
    if n == m + 1 {
      CallStarts(s, t, Zero);
    } else {
      TryNeverWaits(states, acts, m, n - 1, t);
      if a.thread == t {
        TryStep(s, t, a.choice);
      } else {
        CallStays(states, acts, m, n - 1, t, Zero);
        OthersStep(s, a.thread, a.choice, t);
      }
    }
    TryGoes(states[n], t);
  }

  lemma TryGoes(s: Shared, t: Tid)
    requires t in s.pcs && t in s.depth && TryLeft(s.pcs[t]) > 0
    ensures s.Enabled(t, Go)
  {
  }

  /** What a call of Enter comes to: inside, with the lock; or outside without it, only for
      a try while another thread has the lock, or for a time limit that is over. */
  lemma EnterOutcome(states: seq<Shared>, acts: seq<Act>, m: nat, n: nat, t: Tid, w: Timeout)
    requires CallFrom(states, acts, m, n, t, w) && n < |acts| && acts[n].thread == t
    requires t in states[n + 1].pcs && states[n + 1].pcs[t].Idle?
    ensures t in states[m].depth && t in states[n + 1].depth
    ensures (states[n + 1].locker == t && states[n + 1].depth[t] == states[m].depth[t] + 1)
      || (states[n + 1].depth[t] == states[m].depth[t]
          && ((w.Zero? && states[n].locker != 0 && states[n].locker != t)
              || (w.Bounded? && exists j :: m < j < n && GaveUp(states, acts, j, t))))
  {
    hide Shared.Conserved, Shared.SemExists, Shared.SemBounded, Shared.Woken, Shared.RecursionOk, Run, GaveUp;
    var s := states[n];
    RunAt(states, acts, n);
    RunOwner(states, acts, n);
    CallStays(states, acts, m, n, t, w);
    assert s.Holds(t) <==> s.locker == t;
  }

  /** A thread whose time is over goes outside with its next step, and counts itself out. */
  lemma {:induction false} GivesUp(states: seq<Shared>, acts: seq<Act>, j: nat, n: nat, t: Tid)
    requires Run(states, acts) && GaveUp(states, acts, j, t) && j < n < |acts|
    requires forall k :: j < k < n ==> acts[k].thread != t
    ensures t in states[n].pcs && states[n].pcs[t] == Depart(false) && t in states[n].depth
    ensures acts[n].thread == t ==>
              && t in states[n + 1].pcs && states[n + 1].pcs[t].Idle? && states[n + 1].waiters == states[n].waiters - 1
  {
    hide Run;
    RunAt(states, acts, n - 1);
    RunAt(states, acts, n);
    if j < n - 1 {
      GivesUp(states, acts, j, n - 1, t);
    }
  }

  lemma RunAt(states: seq<Shared>, acts: seq<Act>, n: nat)
    requires Run(states, acts) && n < |acts|
    ensures n + 1 < |states| && states[n].Enabled(acts[n].thread, acts[n].choice)
    ensures states[n + 1] == states[n].Next(acts[n].thread, acts[n].choice)
  {
  }

  /** What others do leaves the lock with its owner. */
  lemma OwnerKeeps(s: Shared, o: Tid, c: Choice, t: Tid)
    requires s.OwnerOk() && s.Enabled(o, c) && o != t && s.locker == t
    ensures s.Next(o, c).locker == t
  {
    assert !s.Holds(o);
  }

  lemma OwnerCalls(s: Shared, t: Tid, c: Choice, w: Timeout)
    requires s.Enabled(t, c) && s.locker == t
    ensures s.pcs[t] == ReadOwner(w) ==> s.Next(t, c).locker == t && s.Next(t, c).pcs[t] == Entered(false)
    ensures s.pcs[t].Entered? ==> s.Next(t, c).pcs[t].Idle?
    ensures c == Enter(w) ==> s.Next(t, c).locker == t
  {
  }

  /** Who has the lock is inside again after two steps, whatever the timeout. */
  lemma {:induction false} OwnerReenters(states: seq<Shared>, acts: seq<Act>, m: nat, n: nat, t: Tid, w: Timeout)
    requires CallFrom(states, acts, m, n, t, w) && states[m].locker == t
    ensures states[n].locker == t && Own(acts, m + 1, n, t) <= 1
    ensures states[n].pcs[t] == if Own(acts, m + 1, n, t) == 0 then ReadOwner(w) else Entered(false)
  {
    hide Shared.Next, Shared.Enabled, Shared.OwnerOk;
    var s, a := states[n - 1], acts[n - 1];
    RunAt(states, acts, n - 1);
    RunOwner(states, acts, n - 1);
    if n == m + 1 {
      CallStarts(s, t, w);
      OwnerCalls(s, t, Enter(w), w);
    } else {
      OwnerReenters(states, acts, m, n - 1, t, w);
      if a.thread == t {
        OwnerCalls(s, t, a.choice, w);
      } else {
        CallStays(states, acts, m, n - 1, t, w);
        OthersStep(s, a.thread, a.choice, t);
        OwnerKeeps(s, a.thread, a.choice, t);
      }
    }
  }

  // ----- the code, step by step

  /** The lock's fields, and where each thread is in the code. */
  class CritSectRec {
    var m_nLocker: nat
    var m_nWaiters: int
    var m_hSemaphore: nat
    var m_nCount: nat  // the count of the semaphore
    var m_nRecursion: int
    var pcs: map<Tid, Pc>
    ghost var depth: map<Tid, nat>

    ghost function Now(): Shared
      reads this
    {
      Shared(m_nLocker, m_nWaiters, m_hSemaphore, m_nCount, m_nRecursion, pcs, depth)
    }

    ghost predicate Valid()
      reads this
    {
      Now().Inv()
    }

    constructor (threads: set<Tid>)
      ensures Valid() && Now() == Initial(threads)
    {
      m_nLocker, m_nWaiters, m_hSemaphore, m_nCount, m_nRecursion := 0, 0, 0, 0, 0;
      pcs := map t | t in threads :: Idle;
      depth := map t | t in threads :: 0;
      InitialInv(threads);
    }

    method PerfLockImmediate(id: Tid) returns (ok: bool)
      modifies this`m_nLocker
      ensures ok == (old(m_nLocker) == 0) && m_nLocker == if ok then id else old(m_nLocker)
    {
      ok := m_nLocker == 0;
      if ok {
        m_nLocker := id;
      }
    }

    /** The steps of Enter and Lock up to the spin loop, and of PerfLock. */
    method StepLock(t: Tid, c: Choice)
      requires Now().Enabled(t, c)
      requires pcs[t].ReadOwner? || pcs[t].ReadFree? || pcs[t].TryOnce?
               || pcs[t].Spin? || pcs[t].ReadSem? || pcs[t].InstallSem?
      modifies this
      ensures Now() == old(Now()).Next(t, c)
    {
      match pcs[t]
      case ReadOwner(w) =>
        pcs := pcs[t := if t == m_nLocker then Entered(false) else ReadFree(w)];
      case ReadFree(w) =>
        pcs := pcs[t := if m_nLocker == 0 then TryOnce(w) else if w == Zero then Idle else Spin(w)];
      case TryOnce(w) =>
        var ok := PerfLockImmediate(t);
        pcs := pcs[t := if ok then Entered(true) else if w == Zero then Idle else Spin(w)];
      case Spin(w) =>
        if c == Go {
          var ok := PerfLockImmediate(t);
          if ok {
            pcs := pcs[t := Entered(true)];
          } else {
            pcs := pcs[t := Spin(w)];
          }
        } else {
          pcs := pcs[t := ReadSem(w)];
        }
      case ReadSem(w) =>
        pcs := pcs[t := if m_hSemaphore == 0 then InstallSem(w) else Register(w, false)];
      case InstallSem(w) =>
        if m_hSemaphore == 0 {
          m_hSemaphore := t;
        }
        pcs := pcs[t := Register(w, false)];
    }

    /** The steps of PerfLockKernel, and the WaiterMinus after it. */
    method StepKernel(t: Tid, c: Choice)
      requires Now().Enabled(t, c)
      requires pcs[t].Register? || pcs[t].TryAgain? || pcs[t].CheckTime? || pcs[t].Waiting? || pcs[t].Depart?
      modifies this
      ensures Now() == old(Now()).Next(t, c)
    {
      match pcs[t]
      case Register(w, waiter) =>
        if !waiter {
          m_nWaiters := m_nWaiters + 1;
        }
        pcs := pcs[t := TryAgain(w)];
      case TryAgain(w) =>
        var ok := PerfLockImmediate(t);
        pcs := pcs[t := if ok then Depart(true) else CheckTime(w)];
      case CheckTime(w) =>
        pcs := pcs[t := if c == TimedOut then Depart(false) else Waiting(w)];
      case Waiting(w) =>
        if c == Go {
          m_nCount := m_nCount - 1;
        }
        pcs := pcs[t := Register(w, c == TimedOut)];
      case Depart(won) =>
        m_nWaiters := m_nWaiters - 1;
        pcs := pcs[t := if won then Entered(true) else Idle];
    }

    /** The last step of Enter, the first of Enter and Leave, and the steps of PerfUnlock. */
    method StepOut(t: Tid, c: Choice)
      requires Now().Enabled(t, c)
      requires pcs[t].Idle? || pcs[t].Entered? || pcs[t].Clear?
               || pcs[t].ReadWaiters? || pcs[t].Unregister? || pcs[t].Release?
      modifies this
      ensures Now() == old(Now()).Next(t, c)
    {
      match pcs[t]
      case Idle =>
        if c.Enter? {
          pcs := pcs[t := ReadOwner(c.w)];
        } else {
          m_nRecursion := m_nRecursion - 1;
          depth := depth[t := depth[t] - 1];
          pcs := pcs[t := if m_nRecursion == 0 then Clear else Idle];
        }
      case Entered(_) =>
        m_nRecursion := m_nRecursion + 1;
        depth := depth[t := depth[t] + 1];
        pcs := pcs[t := Idle];
      case Clear =>
        m_nLocker := 0;
        pcs := pcs[t := ReadWaiters];
      case ReadWaiters =>
        pcs := pcs[t := if m_nWaiters > 0 then Unregister else Idle];
      case Unregister =>
        m_nWaiters := m_nWaiters - 1;
        pcs := pcs[t := Release];
      case Release =>
        m_nCount := m_nCount + 1;
        pcs := pcs[t := Idle];
    }

    /** One atomic step of thread t. */
    method Step(t: Tid, c: Choice)
      requires Valid() && Now().Enabled(t, c)
      modifies this
      ensures Valid() && Now() == old(Now()).Next(t, c)
    {
      hide Shared.Inv, Shared.Next;
      StepInv(Now(), t, c);
      var pc := pcs[t];
      if pc.ReadOwner? || pc.ReadFree? || pc.TryOnce? || pc.Spin? || pc.ReadSem? || pc.InstallSem? {
        StepLock(t, c);
      } else if pc.Register? || pc.TryAgain? || pc.CheckTime? || pc.Waiting? || pc.Depart? {
        StepKernel(t, c);
      } else {
        StepOut(t, c);
      }
    }
  }
}
