/**
 What one poll saves, and what it leaves: a full one all that is complete, a partial one
 the identities that have been queued longest; and what the list is cut down to.
 */
module EvictorBatches {
  import opened Basics
  import opened EvictorTypes
  import opened Lists
  import opened EvictorSpec
  import opened EvictorRuns

  // ----- a full poll

  /** What does not wait is in the store as it is in the object map, unless a client has
      changed it without saying so. */
  lemma UntrackedAgrees<K(!new), V(!new)>(s: EvState<K, V>, i: K)
    requires s.Inv() && !s.Tracked(i)
    ensures s.StoreAgrees(i) || s.Unreported(i)
  {
    if i in s.cache {
      assert s.CachedOk(i, s.cache[i]);
    }
  }

  /** Only new or changed objects that are not complete are held back, and only under the
      save-completed-only flag. */
  ghost predicate Incomplete<K(!new), V(!new)>(s: EvState<K, V>, i: K) {
    && s.completedOnly && (i in s.cache || i in s.pending)
    && s.TrackedRec(i).status in {Created, Modified} && !s.TrackedRec(i).completed
  }

  lemma SavedTracks<K(!new), V(!new)>(s: EvState<K, V>, m: EvState<K, V>, batch: set<K>, i: K)
    requires s.Inv() && m.SavedFrom(s, batch)
    ensures m.Tracked(i) <==> s.Tracked(i) && (i in batch ==> Incomplete(s, i))
    ensures i in batch && Incomplete(s, i) ==> m.Stored(i) == s.Stored(i)
  {
    hide EvState.StoreOk, EvState.SavedEntry, Distinct;
    assert i in s.pending ==> s.PendingOk(i, s.pending[i]);
    if i in batch && Incomplete(s, i) {
      HeldEntry(s, m, batch, i);
    }
  }

  lemma HeldEntry<K(!new), V(!new)>(s: EvState<K, V>, m: EvState<K, V>, batch: set<K>, i: K)
    requires m.SavedFrom(s, batch) && i in batch && Incomplete(s, i)
    ensures m.Stored(i) == s.Stored(i)
  {
    assert m.SavedEntry(s, batch, i);
  }

  lemma CutTracks<K(!new), V(!new)>(m: EvState<K, V>, t: EvState<K, V>, n: nat, i: K)
    requires t.CutFrom(m, n)
    ensures t.Tracked(i) <==> m.Tracked(i)
    ensures t.Stored(i) <==> m.Stored(i)
    ensures t.queue == m.queue && t.waiting == m.waiting && t.pending == m.pending
    ensures t.completedOnly == m.completedOnly && t.batchSize == m.batchSize
  {
  }

  /** After a full poll exactly the incomplete objects still wait, and the store has not been
      touched for them; of all others it has what the object map has. */
  lemma FullPollSaves<K(!new), V(!new)>(s: EvState<K, V>, t: EvState<K, V>, i: K)
    requires s.Inv() && Step(s, Polled(true), t)
    ensures t.Tracked(i) <==> s.Tracked(i) && Incomplete(s, i)
    ensures t.Tracked(i) ==> t.Stored(i) == s.Stored(i)
    ensures !t.Tracked(i) ==> t.StoreAgrees(i) || t.Unreported(i)
  {
    hide EvState.SavedFrom, EvState.CutFrom, EvState.TakenFrom, EvState.StoreOk, EvState.RecsOk, EvState.StoreAgrees,
         EvState.Unreported, Incomplete;
    if s.queue != [] {
      var batch, m, n :| PolledTo(s, t, true, batch, m, n);
      SavedTracks(s, m, batch, i);
      CutTracks(m, t, n, i);
    }
    PollKeeps(s, t, true);
    if !t.Tracked(i) {
      UntrackedAgrees(t, i);
    }
  }

  /** Under the save-completed-only flag a clean object that is marked dirty is saved by the
      next full poll exactly if it is marked complete. */
  lemma DirtyThenPolled<K(!new), V(!new)>(s: EvState<K, V>, i: K, completed: bool, t: EvState<K, V>)
    requires s.Inv() && s.completedOnly && Step(s.SetDirty(i, completed), Polled(true), t)
    requires if i in s.cache then s.cache[i].status == Clean else s.Stored(i)
    ensures t.Tracked(i) <==> !completed
    ensures completed ==> t.StoreAgrees(i)
    ensures !completed ==> t.Stored(i) == s.Stored(i)
  {
    hide EvState.Inv, Step, EvState.StoreAgrees, EvState.Unreported, EvState.Lookup;
    var u := s.SetDirty(i, completed);
    SetDirtyKeeps(s, i, completed);
    HostedFacts(s, i);
    FullPollSaves(u, t, i);
    if t.Unreported(i) {
      PollReports(u, t, true, i);
    }
  }

  // ----- an object that is held back once is held back for ever

  /** A poll holds it back again. */
  lemma PolledHeld<K(!new), V(!new)>(s: EvState<K, V>, t: EvState<K, V>, flushAll: bool, i: K)
    requires s.Inv() && Incomplete(s, i) && Step(s, Polled(flushAll), t)
    ensures Incomplete(t, i) && t.Stored(i) == s.Stored(i) && (i in s.pending ==> i in t.pending)
  {
    hide EvState.TakenFrom, EvState.StoreOk, EvState.ListsOk, EvState.SavedEntry;
    HostedFacts(s, i);
    if s.queue != [] {
      var batch, m, n :| PolledTo(s, t, flushAll, batch, m, n);
      HeldSaved(s, m, batch, i);
      HeldNotCut(m, t, n, i);
    }
  }

  lemma HeldSaved<K(!new), V(!new)>(s: EvState<K, V>, m: EvState<K, V>, batch: set<K>, i: K)
    requires s.Inv() && m.SavedFrom(s, batch) && Incomplete(s, i)
    ensures Incomplete(m, i) && m.Tracked(i) && m.Stored(i) == s.Stored(i) && (i in s.pending ==> i in m.pending)
  {
    assert i in s.cache ==> s.CachedOk(i, s.cache[i]);
    assert i in s.pending ==> s.PendingOk(i, s.pending[i]);
    assert m.SavedEntry(s, batch, i);
    assert i in s.cache ==> i in s.Kept(batch) && m.cache[i] == s.SavedRec(i, batch);
  }

  lemma HeldNotCut<K(!new), V(!new)>(m: EvState<K, V>, t: EvState<K, V>, n: nat, i: K)
    requires t.CutFrom(m, n) && Incomplete(m, i) && m.Tracked(i) && (i in m.waiting || i !in m.cache)
    ensures Incomplete(t, i) && t.Stored(i) == m.Stored(i)
  {
    if i in m.cache {
      assert i !in m.lru[n..] by {
        forall k | n <= k < |m.lru| ensures m.lru[k] != i {
          assert m.Evictable(m.lru[k]);
        }
      }
    }
  }

  lemma StepHeld<K(!new), V(!new)>(s: EvState<K, V>, e: Event<K, V>, t: EvState<K, V>, i: K)
    requires s.Inv() && Incomplete(s, i) && Step(s, e, t)
    requires e == Removed(i) ==> i in s.pending
    ensures Incomplete(t, i) && t.Stored(i) == s.Stored(i) && (i in s.pending ==> i in t.pending)
  {
    hide EvState.Inv, PolledTo, EvState.Add, EvState.Remove, EvState.Locate, EvState.SetDirty, Incomplete, Allowed;
    HostedFacts(s, i);
    match e
    case Polled(flushAll) => PolledHeld(s, t, flushAll, i);
    case Wrote(_, _) => ClientHeld(s, e, t, i);
    case Referred(_, _, _) => ClientHeld(s, e, t, i);
    case WroteDetached(_, _) =>
    case _ => CallHeld(s, e, t, i);
  }

  lemma ClientHeld<K(!new), V(!new)>(s: EvState<K, V>, e: Event<K, V>, t: EvState<K, V>, i: K)
    requires Incomplete(s, i) && Step(s, e, t) && (e.Wrote? || e.Referred?)
    ensures Incomplete(t, i) && t.Stored(i) == s.Stored(i) && (i in s.pending ==> i in t.pending)
  {
  }

  /** Pinning another identity, or this one, changes nothing about it. */
  lemma PinHeld<K(!new), V(!new)>(s: EvState<K, V>, j: K, i: K)
    requires Incomplete(s, i) && (i in s.pending ==> i !in s.cache && !s.Stored(i))
    ensures var p := s.Pin(j);
      && Incomplete(p, i) && p.Stored(i) == s.Stored(i) && p.pending == s.pending
      && (i in p.cache <==> i in s.cache) && (i in s.cache ==> p.cache[i] == s.cache[i])
  {
  }

  lemma PutHeld<K(!new), V(!new)>(s: EvState<K, V>, j: K, i: K)
    requires Incomplete(s, i) && j in s.cache && (i in s.pending ==> i !in s.cache)
    ensures forall r: Rec<V>, queued :: (j == i ==> r.status in {Created, Modified} && !r.completed) ==>
              Incomplete(s.Put(j, r, queued), i)
  {
    hide Without;
  }

  lemma CallHeld<K(!new), V(!new)>(s: EvState<K, V>, e: Event<K, V>, t: EvState<K, V>, i: K)
    requires Incomplete(s, i) && Step(s, e, t) && (e.Added? || e.Removed? || e.Dirtied? || e.Located?)
    requires (i in s.pending ==> i !in s.cache && !s.Stored(i)) && (e == Removed(i) ==> i in s.pending)
    ensures Incomplete(t, i) && t.Stored(i) == s.Stored(i) && (i in s.pending ==> i in t.pending)
  {
    hide EvState.Put, EvState.Pin, Allowed;
    var j, p := e.ident, s.Pin(e.ident);
    PinHeld(s, j, i);
    if j in p.cache {
      PutHeld(p, j, i);
      PutStores(p, j, i);
    }
  }

  lemma PutStores<K(!new), V(!new)>(s: EvState<K, V>, j: K, i: K)
    ensures forall r: Rec<V>, queued :: s.Put(j, r, queued).Stored(i) == s.Stored(i)
    ensures forall r: Rec<V>, queued :: s.Put(j, r, queued).pending == s.pending
  {
    hide Without;
  }

  /** Under the save-completed-only flag, an object that waits and is not complete never
      gets to the store as long as it is not removed: setDirty does not complete it, since it
      records completion for clean objects only. */
  lemma {:induction false} HeldForEver<K(!new), V(!new)>(states: seq<EvState<K, V>>, events: seq<Event<K, V>>,
                                                         n: nat, i: K)
    requires Run(states, events) && n < |states| && Incomplete(states[0], i)
    requires forall k :: 0 <= k < n ==> events[k] != Removed(i)
    ensures Incomplete(states[n], i) && states[n].Stored(i) == states[0].Stored(i)
  {
    hide Step, EvState.Inv, Incomplete;
    if n > 0 {
      HeldForEver(states, events, n - 1, i);
      ReadsLastWrite(states, events, n - 1);
      StepHeld(states[n - 1], events[n - 1], states[n], i);
    }
  }

  /** A fresh add is pending and not complete. */
  lemma FreshAddIncomplete<K(!new), V(!new)>(s: EvState<K, V>, i: K, v: V, h: nat)
    requires s.completedOnly && i !in s.cache && !s.Stored(i)
    ensures i in s.Add(i, v, h).pending && Incomplete(s.Add(i, v, h), i)
  {
  }

  /** In particular a fresh add: in every run with the flag it stays pending, so it is never
      stored and never found, whatever the calls. */
  lemma {:induction false} FreshAddStuck<K(!new), V(!new)>(states: seq<EvState<K, V>>, events: seq<Event<K, V>>,
                                                           n: nat, i: K)
    requires Run(states, events) && n < |states| && Incomplete(states[0], i) && i in states[0].pending
    ensures i in states[n].pending && Incomplete(states[n], i)
    ensures !states[n].Stored(i) && Found(states[n], i) == None
  {
    hide Step, EvState.Inv, Incomplete;
    if n > 0 {
      FreshAddStuck(states, events, n - 1, i);
      ReadsLastWrite(states, events, n - 1);
      StepHeld(states[n - 1], events[n - 1], states[n], i);
    }
    ReadsLastWrite(states, events, n);
    HostedFacts(states[n], i);
  }

  /** The item of a removed object is out of the cache once it has been polled, and stays dead
      there exactly if a client refers to it. */
  lemma FullPollDrops<K(!new), V(!new)>(s: EvState<K, V>, t: EvState<K, V>, i: K)
    requires s.Inv() && Step(s, Polled(true), t) && s.Tracked(i)
    requires i in s.cache && s.cache[i].status in {Destroyed, Dead}
    ensures !t.Tracked(i) && (i in t.cache <==> s.cache[i].itemHandles > 0)
    ensures i in t.cache ==> t.cache[i].status == Dead
  {
    hide EvState.TakenFrom, EvState.SavedFrom, EvState.CutFrom, EvState.Inv;
    FullPollSaves(s, t, i);
    TrackedIsQueued(s, i);
    var batch, m, n :| PolledTo(s, t, true, batch, m, n);
    DeadSaved(s, m, batch, i);
    DeadCut(m, t, n, i);
  }

  lemma DeadSaved<K(!new), V(!new)>(s: EvState<K, V>, m: EvState<K, V>, batch: set<K>, i: K)
    requires m.SavedFrom(s, batch) && i in batch && i in s.cache && s.cache[i].status in {Destroyed, Dead}
    ensures i in m.cache <==> s.cache[i].itemHandles > 0
    ensures i in m.cache ==> m.cache[i].status == Dead && m.cache[i].itemHandles == s.cache[i].itemHandles
  {
    hide EvState.SavedEntry;
    assert i in s.Kept(batch) <==> s.cache[i].itemHandles > 0;
    assert i in m.cache ==> m.cache[i] == s.SavedRec(i, batch);
  }

  lemma DeadCut<K(!new), V(!new)>(m: EvState<K, V>, t: EvState<K, V>, n: nat, i: K)
    requires t.CutFrom(m, n)
    ensures i in t.cache ==> i in m.cache && t.cache[i] == m.cache[i]
    ensures i in m.cache && m.cache[i].itemHandles > 0 ==> i in t.cache
  {
    if i in m.cache && m.cache[i].itemHandles > 0 {
      ReferredStays(m, t, n, i);
    }
  }

  lemma ReferredStays<K(!new), V(!new)>(m: EvState<K, V>, t: EvState<K, V>, n: nat, i: K)
    requires t.CutFrom(m, n) && i in m.cache && m.cache[i].itemHandles > 0
    ensures i in t.cache && t.cache[i] == m.cache[i]
  {
    assert i !in m.lru[n..] by {
      forall k | n <= k < |m.lru| ensures m.lru[k] != i {
        assert m.Evictable(m.lru[k]);
      }
    }
  }

  // ----- a partial poll

  /** The tracked identities that are queued before i. */
  ghost function Ahead<K(!new), V(!new)>(s: EvState<K, V>, i: K): set<K>
    requires i in s.queue
  {
    s.Front(First(s.queue, i))
  }

  lemma {:induction false} FirstBehind<K(!new)>(s: seq<K>, p: nat, x: K)
    requires p <= |s| && x in s && x !in s[..p]
    ensures p <= First(s, x) && x in s[p..] && First(s[p..], x) == First(s, x) - p
  {
    if p == 0 {
      assert s[0..] == s;
    } else {
      assert s[..p][0] == s[0] && s[..p] == [s[0]] + s[1..][..p - 1];
      assert s == [s[0]] + s[1..];
      FirstBehind(s[1..], p - 1, x);
      assert s[1..][p - 1..] == s[p..];
    }
  }

  lemma SmallerSet<K>(a: set<K>, b: set<K>, x: K)
    requires a <= b - {x} && x in b
    ensures |a| < |b|
  {
    assert b == a + (b - a) && |b| == |a| + |b - a| && x in b - a;
  }

  lemma SumOfSets<K>(a: set<K>, b: set<K>)
    requires a !! b
    ensures |a + b| == |a| + |b|
  {
  }

  /** Taking a batch off the queue: what was in front of i is fewer by the batch, unless i is
      in it. */
  lemma TakenAdvances<K(!new), V(!new)>(s: EvState<K, V>, m: EvState<K, V>, batch: set<K>, p: nat, i: K)
    requires p <= |s.queue| && batch == s.Front(p) && m.queue == s.queue[p..] && s.Tracked(i) && i in s.queue
    requires forall k :: m.Tracked(k) <==> s.Tracked(k) && k !in batch
    ensures i in batch ==> |Ahead(s, i)| < |batch|
    ensures i !in batch ==> p < |s.queue| && i in m.queue && |Ahead(s, i)| == |batch| + |Ahead(m, i)|
  {
    if i in batch {
      AheadInBatch(s, batch, p, i);
      SmallerSet(Ahead(s, i), batch, i);
    } else {
      AheadBehind(s, m, batch, p, i);
      SumOfSets(batch, Ahead(m, i));
    }
  }

  lemma AheadInBatch<K(!new), V(!new)>(s: EvState<K, V>, batch: set<K>, p: nat, i: K)
    requires p <= |s.queue| && batch == s.Front(p) && i in batch
    ensures i in s.queue && Ahead(s, i) <= batch - {i}
  {
    InFrontBefore(s.queue, i, p);
    var n := First(s.queue, i);
    assert s.queue[..n] == s.queue[..p][..n];
  }

  lemma AheadBehind<K(!new), V(!new)>(s: EvState<K, V>, m: EvState<K, V>, batch: set<K>, p: nat, i: K)
    requires p <= |s.queue| && batch == s.Front(p) && m.queue == s.queue[p..] && s.Tracked(i) && i in s.queue
    requires i !in batch && forall k :: m.Tracked(k) <==> s.Tracked(k) && k !in batch
    ensures p < |s.queue| && i in m.queue && Ahead(s, i) == batch + Ahead(m, i) && batch !! Ahead(m, i)
  {
    hide First, EvState.Tracked;
    var n := First(s.queue, i);
    assert i !in s.queue[..p];
    FirstBehind(s.queue, p, i);
    assert s.queue[..n] == s.queue[..p] + m.queue[..n - p];
  }

  lemma InFrontBefore<K(!new)>(s: seq<K>, x: K, p: nat)
    requires p <= |s| && x in s[..p]
    ensures x in s && First(s, x) < p
  {
    var m :| 0 <= m < p && s[..p][m] == x;
    assert s[m] == x;
    FirstBefore(s, x, m);
  }

  /** A partial poll without the save-completed-only flag saves the batchSize identities that
      are in front, and takes what is behind them that much further. */
  lemma PartialPoll<K(!new), V(!new)>(s: EvState<K, V>, t: EvState<K, V>, i: K)
    requires s.Inv() && !s.completedOnly && Step(s, Polled(false), t)
    ensures !t.completedOnly && t.batchSize == s.batchSize
    ensures s.Tracked(i) ==> i in s.queue
    ensures t.Tracked(i) <==> s.Tracked(i) && |Ahead(s, i)| >= s.batchSize
    ensures t.Tracked(i) ==> i in t.queue && |Ahead(t, i)| == |Ahead(s, i)| - s.batchSize
  {
    hide EvState.SavedFrom, EvState.CutFrom, EvState.TakenFrom, EvState.StoreOk, EvState.RecsOk, EvState.Front, Ahead,
         EvState.HeldBack;
    TrackedQueued(s, i);
    if s.queue != [] {
      var batch, m, n :| PolledTo(s, t, false, batch, m, n);
      var p := TakesBatch(s, m, batch);
      CutTracks(m, t, n, i);
      if s.Tracked(i) {
        TakenAdvances(s, m, batch, p, i);
        SameAhead(m, t, i);
      }
    }
  }

  lemma TrackedQueued<K(!new), V(!new)>(s: EvState<K, V>, i: K)
    requires s.ListsOk()
    ensures s.Tracked(i) ==> i in s.queue
  {
  }

  lemma SameAhead<K(!new), V(!new)>(m: EvState<K, V>, t: EvState<K, V>, i: K)
    requires t.queue == m.queue && t.waiting == m.waiting && t.pending == m.pending
    ensures i in m.queue ==> Ahead(t, i) == Ahead(m, i)
  {
  }

  lemma NoneIn<T>(s: seq<T>)
    ensures s != [] ==> s[0] in s
  {
  }

  lemma TakesBatch<K(!new), V(!new)>(s: EvState<K, V>, m: EvState<K, V>, batch: set<K>) returns (p: nat)
    requires s.Inv() && !s.completedOnly && m.SavedFrom(s, batch) && m.TakenFrom(s, batch, false)
    ensures p <= |s.queue| && batch == s.Front(p) && m.queue == s.queue[p..]
    ensures |batch| <= s.batchSize && (|batch| < s.batchSize ==> p == |s.queue|)
    ensures forall k :: m.Tracked(k) <==> s.Tracked(k) && k !in batch
    ensures m.completedOnly == s.completedOnly && m.batchSize == s.batchSize
  {
    hide EvState.StoreOk, EvState.RecsOk, EvState.ListsOk, EvState.SavedEntry, EvState.Front;
    var q: nat, held: seq<K> :| m.Takes(s, batch, false, q, held);
    p := q;
    NoneIn(held);
    forall k ensures m.Tracked(k) <==> s.Tracked(k) && k !in batch {
      SavedTracks(s, m, batch, k);
    }
  }

  /** Partial polls one after another. */
  ghost predicate Polling<K(!new), V(!new)>(states: seq<EvState<K, V>>) {
    && states != [] && states[0].Inv()
    && (forall j :: 0 <= j < |states| - 1 ==> Step(states[j], Polled(false), states[j + 1]))
  }

  lemma PollingRest<K(!new), V(!new)>(states: seq<EvState<K, V>>)
    requires Polling(states) && |states| > 1
    ensures Step(states[0], Polled(false), states[1]) && states[0].Inv() && Polling(states[1..])
    ensures forall j: K :: states[1].Lookup(j) == states[0].Lookup(j)
  {
    hide EvState.Inv, Step, EvState.Lookup;
    assert Step(states[0], Polled(false), states[0 + 1]);
    PollKeeps(states[0], states[1], false);
    var rest := states[1..];
    forall j | 0 <= j < |rest| - 1 ensures Step(rest[j], Polled(false), rest[j + 1]) {
      assert Step(states[j + 1], Polled(false), states[j + 1 + 1]);
    }
  }

  /** k partial polls with nothing in between, without the save-completed-only flag: an
      identity still waits exactly if k * batchSize others are queued before it; of all
      others the store has what the object map has. */
  lemma {:induction false} PartialPolls<K(!new), V(!new)>(states: seq<EvState<K, V>>, i: K)
    requires Polling(states) && !states[0].completedOnly && !states[0].Unreported(i)
    ensures states[0].Tracked(i) ==> i in states[0].queue
    ensures var s, t, k := states[0], states[|states| - 1], |states| - 1;
      && (t.Tracked(i) <==> s.Tracked(i) && |Ahead(s, i)| >= k * s.batchSize)
      && (!t.Tracked(i) ==> t.StoreAgrees(i)) && t.Lookup(i) == s.Lookup(i)
  {
    hide EvState.Inv, EvState.Tracked, EvState.StoreAgrees, EvState.Unreported, Ahead, Step, EvState.Lookup;
    var s := states[0];
    TrackedIsQueued(s, i);
    if |states| == 1 {
      if !s.Tracked(i) {
        UntrackedAgrees(s, i);
      }
    } else {
      hide Polling;
      PollingRest(states);
      PartialPoll(s, states[1], i);
      if states[1].Unreported(i) {
        PollReports(s, states[1], false, i);
      }
      PartialPolls(states[1..], i);
      if s.Tracked(i) {
        Further(|Ahead(s, i)|, s.batchSize, |states| - 1);
      }
    }
  }

  lemma Further(ahead: nat, size: nat, k: nat)
    requires k > 0
    ensures ahead >= size && ahead - size >= (k - 1) * size <==> ahead >= k * size
  {
    assert k * size == (k - 1) * size + size;
  }

  lemma TrackedIsQueued<K(!new), V(!new)>(s: EvState<K, V>, i: K)
    requires s.Inv()
    ensures s.Tracked(i) ==> i in s.queue
  {
  }

  // ----- eviction by size

  /** A poll with something to do leaves a list that fits, or one whose oldest entry is in
      use: a client refers to its item or its object, or it waits to be saved. */
  lemma ListFits<K(!new), V(!new)>(s: EvState<K, V>, t: EvState<K, V>, flushAll: bool)
    requires s.Inv() && Step(s, Polled(flushAll), t) && s.queue != [] && |t.lru| > t.evictorSize
    ensures var i := t.lru[|t.lru| - 1];
      && i in t.cache
      && (t.cache[i].itemHandles > 0 || i in t.waiting || (t.cache[i].content.Some? && t.cache[i].objHandles > 0))
  {
    hide EvState.SavedFrom, EvState.TakenFrom, EvState.StoreOk, EvState.RecsOk;
    var batch, m, n :| PolledTo(s, t, flushAll, batch, m, n);
    PollKeeps(s, t, flushAll);
    assert t.lru[|t.lru| - 1] == m.lru[n - 1];
  }

  /** Nothing live is evicted but to make a list fit that is too long. */
  lemma EvictsNoMore<K(!new), V(!new)>(s: EvState<K, V>, t: EvState<K, V>, flushAll: bool, i: K)
    requires s.Inv() && Step(s, Polled(flushAll), t) && i in s.cache && s.cache[i].Live() && i !in t.cache
    ensures |t.lru| >= t.evictorSize
  {
    hide EvState.SavedFrom, EvState.TakenFrom, EvState.Inv;
    var batch, m, n :| PolledTo(s, t, flushAll, batch, m, n);
    InUseSaved(s, m, batch, i);
  }

  // ----- the next poll makes a fresh add visible

  /** A fresh add is found after as many partial polls as there are batches in front of it,
      and the one that it is in. */
  lemma FreshAddFound<K(!new), V(!new)>(states: seq<EvState<K, V>>, i: K)
    requires Polling(states) && !states[0].completedOnly && i in states[0].pending && i in states[0].queue
    requires |Ahead(states[0], i)| < (|states| - 1) * states[0].batchSize
    ensures Found(states[|states| - 1], i) == states[0].pending[i].content
  {
    hide EvState.StoreOk, EvState.ListsOk, Ahead, Step, EvState.StoreAgrees;
    var s, t := states[0], states[|states| - 1];
    assert s.PendingOk(i, s.pending[i]);
    PartialPolls(states, i);
    PollsKeep(states);
    FoundExactly(t, i);
  }

  lemma {:induction false} PollsKeep<K(!new), V(!new)>(states: seq<EvState<K, V>>)
    requires Polling(states)
    ensures states[|states| - 1].Inv()
  {
    hide EvState.Inv, Step;
    if |states| > 1 {
      PollingRest(states);
      PollsKeep(states[1..]);
    }
  }
}
