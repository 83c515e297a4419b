/**
 Whole runs of the evictor: any sequence of calls, with what its clients do to the
 objects and references they hold in between.  Reading gives what was written last,
 a restart from the store loses nothing, and eviction takes the least recently used.
 */
module EvictorRuns {
  import opened Basics
  import opened EvictorTypes
  import opened Lists
  import opened EvictorSpec

  datatype Event<+K, +V> =
    | Added(ident: K, obj: V, handles: nat)
    | Removed(ident: K)
    | Located(ident: K)
    | Dirtied(ident: K, completed: bool)
    | Polled(flushAll: bool)
    | Wrote(ident: K, obj: V)              // a client changes an object it holds
    | Referred(ident: K, objHandles: nat, itemHandles: nat)  // clients take or drop references
    | WroteDetached(ident: K, obj: V)      // a client changes an object that is hosted no longer

  /** A client may write through a servant it refers to, and it may drop its last reference
      to a clean object's servant only once the store has what it wrote. */
  ghost predicate Allowed<K(!new), V(!new)>(s: EvState<K, V>, e: Event<K, V>) {
    match e
    case Wrote(i, v) =>
      (i in s.cache || i in s.pending) && s.TrackedRec(i).content.Some? && s.TrackedRec(i).objHandles > 0
    case Referred(i, objHandles, itemHandles) =>
      (i in s.cache || i in s.pending) && (s.TrackedRec(i).content.None? ==> objHandles == 0)
      && (i in s.cache && s.cache[i].status == Clean && !s.InSync(i, s.cache[i]) ==> objHandles > 0)
    case _ => true
  }

  function Replaced<K(!new), V(!new)>(s: EvState<K, V>, i: K, r: Rec<V>): EvState<K, V> {
    if i in s.cache then s.(cache := s.cache[i := r]) else s.(pending := s.pending[i := r])
  }

  ghost predicate PolledTo<K(!new), V(!new)>(s: EvState<K, V>, t: EvState<K, V>, flushAll: bool,
                                             batch: set<K>, m: EvState<K, V>, n: nat) {
    && m.SavedFrom(s, batch) && m.TakenFrom(s, batch, flushAll) && t.CutFrom(m, n)
    && (flushAll ==> forall i :: s.Tracked(i) ==> i in batch)
  }

  ghost predicate Step<K(!new), V(!new)>(s: EvState<K, V>, e: Event<K, V>, t: EvState<K, V>) {
    Allowed(s, e) &&
    match e
    case Added(i, v, h) => t == s.Add(i, v, h)
    case Removed(i) => t == s.Remove(i)
    case Located(i) => t == s.Locate(i)
    case Dirtied(i, completed) => t == s.SetDirty(i, completed)
    case Polled(flushAll) =>
      if s.queue == [] then t == s else exists batch, m, n :: PolledTo(s, t, flushAll, batch, m, n)
    case Wrote(i, v) => t == Replaced(s, i, s.TrackedRec(i).(content := Some(v)))
    case Referred(i, objHandles, itemHandles) =>
      t == Replaced(s, i, s.TrackedRec(i).(objHandles := objHandles, itemHandles := itemHandles))
    case WroteDetached(_, _) => t == s
  }

  ghost predicate Run<K(!new), V(!new)>(states: seq<EvState<K, V>>, events: seq<Event<K, V>>) {
    && |states| == |events| + 1
    && states[0].Inv()
    && (forall n :: 0 <= n < |events| ==> Step(states[n], events[n], states[n + 1]))
  }

  /** What the plain dictionary makes of an event.  The one thing the evictor adds is that
      removing an object that is a pending fresh add does nothing. */
  function Written<K(==,!new), V(!new)>(s: EvState<K, V>, e: Event<K, V>, i: K, was: Option<V>): Option<V> {
    match e
    case Added(j, v, _) => if i == j then Some(v) else was
    case Wrote(j, v) => if i == j then Some(v) else was
    case Removed(j) => if i == j && i !in s.pending then None else was
    case _ => was
  }

  /** The value the last write before step n gave to i. */
  function LastWritten<K(==,!new), V(!new)>(states: seq<EvState<K, V>>, events: seq<Event<K, V>>,
                                            n: nat, i: K): Option<V>
    requires n < |states| == |events| + 1
  {
    if n == 0 then states[0].Lookup(i)
    else Written(states[n - 1], events[n - 1], i, LastWritten(states, events, n - 1, i))
  }

  // ----- one step

  lemma ReplacedKeeps<K(!new), V(!new)>(s: EvState<K, V>, i: K, r: Rec<V>)
    requires s.Inv() && (i in s.cache || i in s.pending)
    requires i in s.cache ==> s.CachedOk(i, r)
    requires i !in s.cache ==> s.PendingOk(i, r)
    ensures Replaced(s, i, r).Inv()
    ensures forall j: K | j != i :: Replaced(s, i, r).Lookup(j) == s.Lookup(j)
    ensures Replaced(s, i, r).Lookup(i) == if i in s.cache && !r.Live() then None else r.content
  {
    hide EvState.StoreOk, EvState.ListsOk, EvState.RecsOk;
    ReplacedRecs(s, i, r);
    ReplacedLists(s, i, r);
    ReplacedStore(s, i, r);
  }

  lemma ReplacedStore<K(!new), V(!new)>(s: EvState<K, V>, i: K, r: Rec<V>)
    requires s.StoreOk()
    ensures Replaced(s, i, r).StoreOk()
  {
    var t := Replaced(s, i, r);
    forall j: K | t.Stored(j) ensures t.codec.marshal(j, t.Loaded(j)) == t.store[t.codec.key(j)] {
      assert s.Stored(j) && s.Loaded(j) == t.Loaded(j);
    }
  }

  lemma ReplacedLists<K(!new), V(!new)>(s: EvState<K, V>, i: K, r: Rec<V>)
    requires s.ListsOk() && (i in s.cache || i in s.pending)
    ensures Replaced(s, i, r).ListsOk()
  {
    hide Distinct;
  }

  lemma ReplacedRecs<K(!new), V(!new)>(s: EvState<K, V>, i: K, r: Rec<V>)
    requires s.RecsOk() && (i in s.cache || i in s.pending)
    requires i in s.cache ==> s.CachedOk(i, r)
    requires i !in s.cache ==> s.PendingOk(i, r)
    ensures Replaced(s, i, r).RecsOk()
  {
    var t := Replaced(s, i, r);
    forall j | j in t.cache ensures t.CachedOk(j, t.cache[j]) {
      if j != i {
        assert s.CachedOk(j, s.cache[j]);
      }
    }
    forall j | j in t.pending ensures t.PendingOk(j, t.pending[j]) {
      if j != i {
        assert s.PendingOk(j, s.pending[j]);
      }
    }
  }

  lemma ClientKeeps<K(!new), V(!new)>(s: EvState<K, V>, e: Event<K, V>, t: EvState<K, V>)
    requires s.Inv() && Step(s, e, t) && (e.Wrote? || e.Referred?)
    ensures t.Inv()
    ensures forall j: K :: t.Lookup(j) == Written(s, e, j, s.Lookup(j))
  {
    hide EvState.ListsOk;
    var i := e.ident;
    if i in s.cache {
      assert s.CachedOk(i, s.cache[i]);
      ReplacedKeeps(s, i, t.cache[i]);
    } else {
      assert s.PendingOk(i, s.pending[i]);
      ReplacedKeeps(s, i, t.pending[i]);
    }
  }

  lemma PollKeeps<K(!new), V(!new)>(s: EvState<K, V>, t: EvState<K, V>, flushAll: bool)
    requires s.Inv() && Step(s, Polled(flushAll), t)
    ensures t.Inv()
    ensures forall j: K :: t.Lookup(j) == s.Lookup(j)
  {
    hide EvState.Inv, EvState.Lookup, EvState.SavedFrom, EvState.CutFrom, EvState.TakenFrom;
    if s.queue != [] {
      var batch, m, n :| PolledTo(s, t, flushAll, batch, m, n);
      SaveKeeps(s, m, batch);
      CutKeeps(m, t, n);
    }
  }

  /** Every step keeps the invariant and acts on the object map as on a dictionary. */
  lemma StepKeeps<K(!new), V(!new)>(s: EvState<K, V>, e: Event<K, V>, t: EvState<K, V>)
    requires s.Inv() && Step(s, e, t)
    ensures t.Inv()
    ensures forall j: K :: t.Lookup(j) == Written(s, e, j, s.Lookup(j))
  {
    hide EvState.Inv, EvState.Lookup, EvState.SavedFrom, EvState.CutFrom, EvState.TakenFrom;
    match e
    case Added(i, v, h) => AddIsUpdate(s, i, v, h);
    case Removed(i) => RemoveIsDelete(s, i);
    case Located(i) => LocateIsLookup(s, i);
    case Dirtied(i, completed) => SetDirtyKeeps(s, i, completed);
    case Polled(flushAll) => PollKeeps(s, t, flushAll);
    case WroteDetached(_, _) =>
    case _ => ClientKeeps(s, e, t);
  }

  // ----- whole runs

  /** In every run, the object map holds what was written last, whatever was polled,
      evicted and loaded again in between. */
  lemma {:induction false} ReadsLastWrite<K(!new), V(!new)>(states: seq<EvState<K, V>>,
                                                            events: seq<Event<K, V>>, n: nat)
    requires Run(states, events) && n < |states|
    ensures states[n].Inv()
    ensures forall i: K :: states[n].Lookup(i) == LastWritten(states, events, n, i)
  {
    hide EvState.Inv, EvState.Lookup, Step, Written;
    if n > 0 {
      ReadsLastWrite(states, events, n - 1);
      StepKeeps(states[n - 1], events[n - 1], states[n]);
    }
  }

  /** What locate and remove hand out. */
  function Found<K(!new), V(!new)>(s: EvState<K, V>, i: K): Option<V> {
    if i in s.Pin(i).cache then s.Pin(i).cache[i].content else None
  }

  lemma FoundExactly<K(!new), V(!new)>(s: EvState<K, V>, i: K)
    requires s.Inv()
    ensures Found(s, i) == s.Lookup(i) <==> i !in s.pending
  {
    if i in s.pending {
      assert s.PendingOk(i, s.pending[i]);
    } else {
      PinKeeps(s, i);
      LocateIsLookup(s, i);
    }
  }

  /** In every run, locate finds what was written last exactly for the identities that
      are not pending fresh adds. */
  lemma LocateReadsLastWrite<K(!new), V(!new)>(states: seq<EvState<K, V>>, events: seq<Event<K, V>>, n: nat, i: K)
    requires Run(states, events) && n < |states|
    ensures Found(states[n], i) == LastWritten(states, events, n, i) <==> i !in states[n].pending
  {
    hide EvState.Inv, EvState.Lookup, Step, Written, Found;
    ReadsLastWrite(states, events, n);
    FoundExactly(states[n], i);
  }

  /** An object added to an empty evictor is not found until it has been polled. */
  lemma FreshAddUnseen<K(!new), V(!new)>(s: EvState<K, V>, i: K, v: V)
    requires s.Inv() && s.cache == map[] && s.store == map[]
    ensures s.Add(i, v, 0).Lookup(i) == Some(v) && Found(s.Add(i, v, 0), i) == None
  {
  }

  // ----- durability

  /** A full poll that holds nothing back leaves nothing waiting. */
  lemma FlushEmpties<K(!new), V(!new)>(s: EvState<K, V>, t: EvState<K, V>)
    requires s.Inv() && !s.completedOnly && Step(s, Polled(true), t)
    ensures t.waiting == {} && t.pending == map[]
  {
    hide EvState.RecsOk, EvState.StoreOk, EvState.TakenFrom;
    if s.queue == [] {
      assert forall i :: i in s.waiting ==> i in s.queue;
      assert forall i :: i in s.pending ==> i in s.queue;
    } else {
      var batch, m, n :| PolledTo(s, t, true, batch, m, n);
      forall i | s.Tracked(i) ensures i !in m.waiting && i !in m.pending {
      }
    }
  }

  /** A fresh add that a poll has saved is in the object map as it was added, but it is
      hosted no longer: no client can write to the object map through what it added. */
  lemma PolledAddDetached<K(!new), V(!new)>(s: EvState<K, V>, t: EvState<K, V>, flushAll: bool, i: K)
    requires s.Inv() && Step(s, Polled(flushAll), t) && i in s.pending && i !in t.pending
    ensures i !in t.cache && s.pending[i].content.Some? && t.Lookup(i) == s.pending[i].content && t.Stored(i)
    ensures forall v: V :: !Allowed(t, Wrote(i, v))
  {
    hide EvState.StoreOk, EvState.ListsOk, EvState.SavedEntry, EvState.TakenFrom;
    assert s.PendingOk(i, s.pending[i]);
    PollKeeps(s, t, flushAll);
    if s.queue != [] {
      var batch, m, n :| PolledTo(s, t, flushAll, batch, m, n);
      assert i !in m.cache;
    }
  }

  /** A full poll that holds nothing back takes every fresh add. */
  lemma FullPollDetaches<K(!new), V(!new)>(s: EvState<K, V>, t: EvState<K, V>, i: K)
    requires s.Inv() && !s.completedOnly && Step(s, Polled(true), t) && i in s.pending
    ensures i !in t.pending && i !in t.cache && t.Lookup(i) == s.pending[i].content
    ensures forall v: V :: !Allowed(t, Wrote(i, v))
  {
    hide Step, EvState.Inv;
    FlushEmpties(s, t);
    PolledAddDetached(s, t, true, i);
  }

  /** The evictor opened anew on the same store. */
  function Reopened<K(==,!new), V(!new)>(s: EvState<K, V>): EvState<K, V> {
    s.(cache := map[], lru := [], queue := [], waiting := {}, pending := map[])
  }

  lemma ReopenedLookup<K(!new), V(!new)>(s: EvState<K, V>, i: K)
    requires s.Inv()
    ensures Reopened(s).Inv()
    ensures s.StoreAgrees(i) ==> Reopened(s).Lookup(i) == s.Lookup(i)
  {
    assert Reopened(s).StoreOk() by {
      forall j: K | Reopened(s).Stored(j) ensures s.codec.marshal(j, Reopened(s).Loaded(j)) == s.store[s.codec.key(j)] {
        assert s.Stored(j) && s.Loaded(j) == Reopened(s).Loaded(j);
      }
    }
    if s.StoreAgrees(i) && s.Stored(i) {
      assert s.codec.unmarshal(i, s.codec.marshal(i, s.Lookup(i).value)) == s.Lookup(i).value;
    }
  }

  // ----- what has not been reported

  /** Changes in place that no call has reported: only a write to a clean object leaves the
      store behind unknowingly, until a call about its identity. */
  function OwedAfter<K(==,!new), V(!new)>(s: EvState<K, V>, e: Event<K, V>, owed: set<K>): set<K> {
    match e
    case Added(i, _, _) => owed - {i}
    case Removed(i) => owed - {i}
    case Dirtied(i, _) => owed - {i}
    case Wrote(i, _) => if i in s.cache && s.cache[i].status == Clean then owed + {i} else owed
    case _ => owed
  }

  ghost predicate OnlyOwed<K(!new), V(!new)>(s: EvState<K, V>, owed: set<K>) {
    forall i: K :: s.Unreported(i) ==> i in owed
  }

  lemma PinReports<K(!new), V(!new)>(s: EvState<K, V>, i: K, j: K)
    requires s.Inv() && s.Pin(i).Unreported(j)
    ensures s.Unreported(j)
  {
    hide EvState.ListsOk, EvState.RecsOk;
  }

  lemma PutReports<K(!new), V(!new)>(s: EvState<K, V>, i: K, r: Rec<V>, queued: bool, j: K)
    requires i in s.cache && s.Put(i, r, queued).Unreported(j)
    ensures j != i ==> s.Unreported(j)
    ensures j == i ==> r.status == Clean && (r == s.cache[i] ==> s.Unreported(i))
  {
  }

  lemma PutsReport<K(!new), V(!new)>(s: EvState<K, V>, i: K, j: K)
    requires i in s.cache
    ensures forall r: Rec<V>, queued | s.Put(i, r, queued).Unreported(j) ::
              if i != j then s.Unreported(j) else r.status == Clean && (r == s.cache[i] ==> s.Unreported(i))
  {
    forall r: Rec<V>, queued | s.Put(i, r, queued).Unreported(j)
      ensures if i != j then s.Unreported(j) else r.status == Clean && (r == s.cache[i] ==> s.Unreported(i))
    {
      PutReports(s, i, r, queued, j);
    }
  }

  /** A call about i leaves it reported, and others as they were. */
  lemma CallReports<K(!new), V(!new)>(s: EvState<K, V>, e: Event<K, V>, t: EvState<K, V>, j: K)
    requires s.Inv() && Step(s, e, t) && (e.Added? || e.Removed? || e.Dirtied? || e.Located?) && t.Unreported(j)
    ensures s.Unreported(j) && (j == e.ident ==> e.Located?)
  {
    hide EvState.Inv, EvState.Put, EvState.Pin, EvState.InSync, Allowed;
    var i, p := e.ident, s.Pin(e.ident);
    if i in p.cache {
      PutsReport(p, i, j);
    }
    PinnedReports(s, i, j);
    PendingReports(p, t, j);
  }

  lemma PinnedReports<K(!new), V(!new)>(s: EvState<K, V>, i: K, j: K)
    requires s.Inv()
    ensures s.Pin(i).Unreported(j) ==> s.Unreported(j)
  {
    if s.Pin(i).Unreported(j) {
      PinReports(s, i, j);
    }
  }

  /** Only the cache and the store matter. */
  lemma PendingReports<K(!new), V(!new)>(s: EvState<K, V>, t: EvState<K, V>, j: K)
    ensures t.cache == s.cache && t.store == s.store && t.codec == s.codec ==> (t.Unreported(j) <==> s.Unreported(j))
  {
  }

  lemma SaveReports<K(!new), V(!new)>(s: EvState<K, V>, m: EvState<K, V>, batch: set<K>, j: K)
    requires s.Inv() && m.SavedFrom(s, batch) && m.Unreported(j)
    ensures s.Unreported(j)
  {
    assert m.SavedEntry(s, batch, j);
    assert s.CachedOk(j, s.cache[j]);
  }

  lemma PollReports<K(!new), V(!new)>(s: EvState<K, V>, t: EvState<K, V>, flushAll: bool, j: K)
    requires s.Inv() && Step(s, Polled(flushAll), t) && t.Unreported(j)
    ensures s.Unreported(j)
  {
    hide EvState.Inv, EvState.SavedFrom, EvState.InSync, EvState.TakenFrom;
    if s.queue != [] {
      var batch, m, n :| PolledTo(s, t, flushAll, batch, m, n);
      SaveReports(s, m, batch, j) by {
        hide *;
        CutReports(m, t, n, j);
      }
    }
  }

  lemma CutReports<K(!new), V(!new)>(m: EvState<K, V>, t: EvState<K, V>, n: nat, j: K)
    requires t.CutFrom(m, n) && t.Unreported(j)
    ensures m.Unreported(j)
  {
  }

  /** What leaves i unreported: a write to it while it is clean, or what did so before. */
  lemma StepReports<K(!new), V(!new)>(s: EvState<K, V>, e: Event<K, V>, t: EvState<K, V>, i: K)
    requires s.Inv() && Step(s, e, t) && t.Unreported(i)
    ensures (e.Wrote? && e.ident == i && i in s.cache && s.cache[i].status == Clean)
      || (s.Unreported(i) && !((e.Added? || e.Removed? || e.Dirtied?) && e.ident == i))
  {
    hide EvState.Inv, EvState.SavedFrom, EvState.CutFrom;
    match e
    case Polled(flushAll) => PollReports(s, t, flushAll, i);
    case Wrote(_, _) =>
    case Referred(_, _, _) =>
    case WroteDetached(_, _) =>
    case _ => CallReports(s, e, t, i);
  }

  lemma StepOwed<K(!new), V(!new)>(s: EvState<K, V>, e: Event<K, V>, t: EvState<K, V>, owed: set<K>)
    requires s.Inv() && Step(s, e, t) && OnlyOwed(s, owed)
    ensures OnlyOwed(t, OwedAfter(s, e, owed))
  {
    hide EvState.Inv, EvState.Unreported, Step;
    forall i: K | t.Unreported(i) ensures i in OwedAfter(s, e, owed) {
      StepReports(s, e, t, i);
    }
  }

  lemma AddOwes<K(!new), V(!new)>(s: EvState<K, V>, owed: set<K>, i: K, v: V, h: nat)
    requires s.Inv() && OnlyOwed(s, owed)
    ensures OnlyOwed(s.Add(i, v, h), owed - {i})
  {
    hide EvState.Inv, OnlyOwed, EvState.Add;
    StepOwed(s, Added(i, v, h), s.Add(i, v, h), owed);
  }

  lemma RemoveOwes<K(!new), V(!new)>(s: EvState<K, V>, owed: set<K>, i: K)
    requires s.Inv() && OnlyOwed(s, owed)
    ensures OnlyOwed(s.Remove(i), owed - {i})
  {
    hide EvState.Inv, OnlyOwed, EvState.Remove;
    StepOwed(s, Removed(i), s.Remove(i), owed);
  }

  lemma LocateOwes<K(!new), V(!new)>(s: EvState<K, V>, owed: set<K>, i: K)
    requires s.Inv() && OnlyOwed(s, owed)
    ensures OnlyOwed(s.Locate(i), owed)
  {
    hide EvState.Inv, OnlyOwed, EvState.Locate;
    StepOwed(s, Located(i), s.Locate(i), owed);
  }

  lemma SetDirtyOwes<K(!new), V(!new)>(s: EvState<K, V>, owed: set<K>, i: K, completed: bool)
    requires s.Inv() && OnlyOwed(s, owed)
    ensures OnlyOwed(s.SetDirty(i, completed), owed - {i})
  {
    hide EvState.Inv, OnlyOwed, EvState.SetDirty;
    StepOwed(s, Dirtied(i, completed), s.SetDirty(i, completed), owed);
  }

  /** With nothing waiting, the store agrees on every identity that is not owed. */
  lemma OwedAgrees<K(!new), V(!new)>(s: EvState<K, V>, owed: set<K>)
    requires s.Inv() && s.waiting == {} && s.pending == map[] && OnlyOwed(s, owed)
    ensures forall j: K :: j !in owed ==> s.StoreAgrees(j)
  {
    hide EvState.Inv, EvState.StoreAgrees, EvState.Unreported;
    forall j: K | j !in owed ensures s.StoreAgrees(j) {
      FlushedStoreAgrees(s, j);
    }
  }

  /** Why the last reference to a clean object may be dropped only when the store has what
      was written to it: no guard then keeps it in the cache, any poll that leaves too long a
      list and finds it at the old end evicts it, and whichever poll evicts it loses what was
      written. */
  lemma DroppedTooEarly<K(!new), V(!new)>(s: EvState<K, V>, i: K, u: EvState<K, V>, t: EvState<K, V>, flushAll: bool,
                                          batch: set<K>, m: EvState<K, V>, n: nat)
    requires s.Inv() && s.Unreported(i) && s.cache[i].itemHandles == 0
    requires u == Replaced(s, i, s.cache[i].(objHandles := 0)) && PolledTo(u, t, flushAll, batch, m, n)
    ensures !Allowed(s, Referred(i, 0, 0)) && s.Lookup(i).Some?
    ensures |m.lru| > s.evictorSize && m.lru[|m.lru| - 1] == i ==> i !in t.cache
    ensures t.Lookup(i) == s.Lookup(i) <==> i in t.cache
  {
    hide EvState.ListsOk, Distinct, EvState.HeldBack, EvState.Saves, EvState.Drops;
    HostedFacts(s, i);
    assert s.CachedOk(i, s.cache[i]) && i !in s.waiting && i !in s.pending;
    assert i !in batch;
    assert m.SavedEntry(u, batch, i);
    StoreDiffers(s, i);
    if i !in t.cache {
      assert i !in t.pending;
    }
  }

  lemma StoreDiffers<K(!new), V(!new)>(s: EvState<K, V>, i: K)
    requires s.Unreported(i) && s.StoreOk() && s.cache[i].content.Some?
    ensures s.Stored(i) ==> s.Loaded(i) != s.cache[i].content.value
  {
  }

  /** Such a poll: it saves another object, and the list is one too long. */
  lemma LosesDropped<K(!new), V(!new)>(s: EvState<K, V>, i: K, j: K) returns (u: EvState<K, V>, t: EvState<K, V>)
    requires s.Inv() && s.Unreported(i) && s.cache[i].itemHandles == 0
    requires s.lru != [] && s.lru[|s.lru| - 1] == i && s.evictorSize == |s.lru| - 1
    requires s.queue == [j] && j in s.cache && s.cache[j].status == Modified && !s.completedOnly
    ensures u == Replaced(s, i, s.cache[i].(objHandles := 0)) && Step(u, Polled(true), t)
    ensures i !in t.cache && t.Lookup(i) != s.Lookup(i) && t.StoreAgrees(j)
  {
    hide EvState.SavedFrom, EvState.Inv, EvState.StoreAgrees, EvState.Unreported, EvState.CutFrom;
    OnlyWaiting(s, i, j);
    u := Replaced(s, i, s.cache[i].(objHandles := 0));
    var m := SavedOne(u, s, j);
    var n := |s.lru| - 1;
    t := m.(lru := m.lru[..n], cache := m.cache - Elems(m.lru[n..]));
    OneCut(m, t, i);
    OneTaken(u, m, j);
    assert PolledTo(u, t, true, {j}, m, n);
    DroppedTooEarly(s, i, u, t, true, {j}, m, n);
    StillAgrees(m, t, j);
  }

  lemma OneTaken<K(!new), V(!new)>(u: EvState<K, V>, m: EvState<K, V>, j: K)
    requires u.queue == [j] && m.queue == [] && u.Tracked(j) && !u.completedOnly
    ensures m.TakenFrom(u, {j}, true)
  {
    assert u.queue[..1] == [j] && u.queue[1..] + [] == [];
    assert u.Front(1) == {j};
    assert m.Takes(u, {j}, true, 1, []);
  }

  lemma OnlyWaiting<K(!new), V(!new)>(s: EvState<K, V>, i: K, j: K)
    requires s.Inv() && s.Unreported(i) && s.queue == [j] && j in s.cache && s.cache[j].status == Modified
    ensures i in s.cache && i != j && s.waiting == {j} && s.pending == map[] && s.cache[j].content.Some?
    ensures s.StoreOk() && (forall k :: k in s.lru ==> k in s.cache)
  {
    hide EvState.StoreOk;
    assert s.CachedOk(j, s.cache[j]);
    assert forall k :: k in s.waiting || k in s.pending ==> k in s.queue;
  }

  lemma OneCut<K(!new), V(!new)>(u: EvState<K, V>, t: EvState<K, V>, i: K)
    requires u.lru != [] && u.lru[|u.lru| - 1] == i && u.evictorSize == |u.lru| - 1
    requires i in u.cache && u.Evictable(i)
    requires t == u.(lru := u.lru[..|u.lru| - 1], cache := u.cache - Elems(u.lru[|u.lru| - 1..]))
    ensures t.CutFrom(u, |u.lru| - 1) && t.cache == u.cache - {i}
  {
    assert u.lru[|u.lru| - 1..] == [i];
  }

  lemma StillAgrees<K(!new), V(!new)>(m: EvState<K, V>, t: EvState<K, V>, j: K)
    requires m.StoreAgrees(j) && j in t.cache && j in m.cache && t.cache[j] == m.cache[j]
    requires t.store == m.store && t.codec == m.codec
    ensures t.StoreAgrees(j)
  {
  }

  /** What a full poll saves when one modified object waits. */
  lemma SavedOne<K(!new), V(!new)>(u: EvState<K, V>, s: EvState<K, V>, j: K) returns (m: EvState<K, V>)
    requires s.StoreOk() && u == s.(cache := u.cache) && u.cache.Keys == s.cache.Keys
    requires s.waiting == {j} && s.pending == map[] && s.queue == [j] && j in s.cache && u.cache[j] == s.cache[j]
    requires s.cache[j].status == Modified && s.cache[j].content.Some? && !s.completedOnly
    requires forall k :: k in s.lru ==> k in s.cache
    ensures m.SavedFrom(u, {j}) && m.StoreAgrees(j)
    ensures m == u.(queue := [], waiting := {}, cache := u.cache[j := u.cache[j].(status := Clean)], store := m.store)
  {
    var v := u.cache[j].content.value;
    m := u.(queue := [], waiting := {}, cache := u.cache[j := u.cache[j].(status := Clean)],
            store := u.store[u.codec.key(j) := u.codec.marshal(j, v)]);
    assert u.Kept({j}) == u.cache.Keys;
    MinusNone(u.lru, u.cache.Keys - u.Kept({j}));
    forall k: K ensures m.SavedEntry(u, {j}, k) {
      SavedOthers(u, m, j, k);
    }
  }

  lemma SavedOthers<K(!new), V(!new)>(u: EvState<K, V>, m: EvState<K, V>, j: K, k: K)
    requires u.codec.Sound() && j in u.cache && u.cache[j].status == Modified && u.cache[j].content.Some?
    requires m.codec == u.codec && !u.completedOnly
    requires m.store == u.store[u.codec.key(j) := u.codec.marshal(j, u.cache[j].content.value)]
    ensures m.SavedEntry(u, {j}, k)
  {
  }

  // ----- the same by events alone

  /** What the events say about an object: nothing since it was saved or loaded; a call
      about it since the last poll; or a change in place that no call has reported. */
  datatype Standing = Quiet | Reported | Owed

  function StandingOf<K(==), V>(events: seq<Event<K, V>>, n: nat, i: K): Standing
    requires n <= |events|
  {
    if n == 0 then Quiet
    else
      var was := StandingOf(events, n - 1, i);
      match events[n - 1]
      case Added(j, _, _) => if i == j then Reported else was
      case Removed(j) => if i == j then Reported else was
      case Dirtied(j, _) => if i == j then Reported else was
      case Wrote(j, _) => if i == j && was != Reported then Owed else was
      case Polled(_) => if was == Reported then Quiet else was
      case _ => was
  }

  /** Not a clean object, nor one that could be loaded as one. */
  predicate NotClean<K(!new), V(!new)>(s: EvState<K, V>, i: K) {
    if i in s.cache then s.cache[i].status != Clean else !s.Stored(i)
  }

  lemma PinNotClean<K(!new), V(!new)>(s: EvState<K, V>, i: K, j: K)
    ensures NotClean(s, j) ==> NotClean(s.Pin(i), j)
    ensures i in s.Pin(i).cache || NotClean(s.Pin(i), i)
  {
  }

  lemma PutNotClean<K(!new), V(!new)>(s: EvState<K, V>, i: K, j: K)
    requires i in s.cache
    ensures forall r: Rec<V>, queued ::
              (if i == j then r.status != Clean else NotClean(s, j)) ==> NotClean(s.Put(i, r, queued), j)
  {
  }

  lemma SameNotClean<K(!new), V(!new)>(s: EvState<K, V>, t: EvState<K, V>, j: K)
    ensures t.cache == s.cache && t.store == s.store && t.codec == s.codec ==> (NotClean(t, j) <==> NotClean(s, j))
    ensures j in s.cache ==> (NotClean(s, j) <==> s.cache[j].status != Clean)
  {
  }

  lemma CallNotClean<K(!new), V(!new)>(s: EvState<K, V>, e: Event<K, V>, t: EvState<K, V>, j: K)
    requires Step(s, e, t) && (e.Added? || e.Removed? || e.Dirtied? || e.Located?)
    requires NotClean(s, j) || (!e.Located? && e.ident == j)
    ensures NotClean(t, j)
  {
    hide EvState.Put, EvState.Pin, NotClean, Allowed;
    var i, p := e.ident, s.Pin(e.ident);
    PinNotClean(s, i, j);
    if i in p.cache {
      PutNotClean(p, i, j);
    }
    SameNotClean(p, t, j);
  }

  lemma StepNotClean<K(!new), V(!new)>(s: EvState<K, V>, e: Event<K, V>, t: EvState<K, V>, i: K)
    requires Step(s, e, t) && !e.Polled?
    requires NotClean(s, i) || ((e.Added? || e.Removed? || e.Dirtied?) && e.ident == i)
    ensures NotClean(t, i)
  {
    match e
    case Wrote(_, _) =>
    case Referred(_, _, _) =>
    case WroteDetached(_, _) =>
    case _ => CallNotClean(s, e, t, i);
  }

  lemma {:induction false} UnreportedIsOwed<K(!new), V(!new)>(states: seq<EvState<K, V>>,
                                                              events: seq<Event<K, V>>, n: nat, i: K)
    requires Run(states, events) && n < |states| && !states[0].Unreported(i)
    ensures StandingOf(events, n, i) == Reported ==> NotClean(states[n], i)
    ensures StandingOf(events, n, i) != Owed ==> !states[n].Unreported(i)
  {
    hide Step, EvState.Inv, NotClean, EvState.Unreported;
    if n > 0 {
      var s, e, t := states[n - 1], events[n - 1], states[n];
      UnreportedIsOwed(states, events, n - 1, i);
      ReadsLastWrite(states, events, n - 1);
      if t.Unreported(i) {
        StepReports(s, e, t, i);
        CleanIsNot(s, i);
      }
      if StandingOf(events, n, i) == Reported {
        StepNotClean(s, e, t, i);
      }
    }
  }

  lemma CleanIsNot<K(!new), V(!new)>(s: EvState<K, V>, i: K)
    ensures i in s.cache && s.cache[i].status == Clean ==> !NotClean(s, i)
  {
  }

  /** After a full poll in any run the store has exactly what was written last, marshalled,
      and nothing for what is not there: for every object that no client has changed in
      place without a setDirty before or after, up to the poll. */
  lemma StoreIsExact<K(!new), V(!new)>(states: seq<EvState<K, V>>, events: seq<Event<K, V>>, n: nat, i: K)
    requires Run(states, events) && n < |events| && events[n] == Polled(true) && !states[n].completedOnly
    requires !states[0].Unreported(i) && StandingOf(events, n, i) != Owed
    ensures var t, v := states[n + 1], LastWritten(states, events, n + 1, i);
            (t.Stored(i) <==> v.Some?) && (v.Some? ==> t.store[t.codec.key(i)] == t.codec.marshal(i, v.value))
  {
    hide Step, Written, LastWritten, EvState.Inv, EvState.Lookup, StandingOf;
    ReadsLastWrite(states, events, n);
    ReadsLastWrite(states, events, n + 1);
    FlushEmpties(states[n], states[n + 1]);
    FlushedStoreAgrees(states[n + 1], i);
    UnreportedIsOwed(states, events, n + 1, i);
    PollOwes(events, n, i);
  }

  lemma PollOwes<K(!new), V(!new)>(events: seq<Event<K, V>>, n: nat, i: K)
    requires n < |events| && events[n].Polled?
    ensures StandingOf(events, n + 1, i) == Owed <==> StandingOf(events, n, i) == Owed
  {
  }

  /** After a full poll in any run, the evictor can be opened anew on its store, and every
      object that no client has changed in place unreported is there as it was written last. */
  lemma RestartKeeps<K(!new), V(!new)>(states: seq<EvState<K, V>>, events: seq<Event<K, V>>, n: nat, i: K)
    requires Run(states, events) && n < |events| && events[n] == Polled(true) && !states[n].completedOnly
    requires !states[0].Unreported(i) && StandingOf(events, n, i) != Owed
    ensures Reopened(states[n + 1]).Inv()
    ensures Reopened(states[n + 1]).Lookup(i) == LastWritten(states, events, n + 1, i)
  {
    hide Step, Written, LastWritten, EvState.Inv, EvState.Lookup, StandingOf;
    ReadsLastWrite(states, events, n + 1);
    StoreIsExact(states, events, n, i);
    AgreesAgain(states[n + 1], i);
    ReopenedLookup(states[n + 1], i);
  }

  lemma AgreesAgain<K(!new), V(!new)>(s: EvState<K, V>, i: K)
    requires (s.Stored(i) <==> s.Lookup(i).Some?)
    requires s.Lookup(i).Some? ==> s.Stored(i) && s.store[s.codec.key(i)] == s.codec.marshal(i, s.Lookup(i).value)
    ensures s.StoreAgrees(i)
  {
  }

  /** The bound is sharp: a write to a clean object that no call reports never gets to the
      store by polling, however often. */
  lemma OwedStaysOwed<K(!new), V(!new)>(s: EvState<K, V>, t: EvState<K, V>, flushAll: bool, i: K)
    requires s.Inv() && Step(s, Polled(flushAll), t) && s.Unreported(i)
    ensures t.Unreported(i) && t.cache[i] == s.cache[i] && !t.StoreAgrees(i)
  {
    hide EvState.SavedFrom, EvState.CutFrom, EvState.Inv, EvState.InSync, EvState.TakenFrom;
    HostedFacts(s, i);
    if s.queue != [] {
      var batch, m, n :| PolledTo(s, t, flushAll, batch, m, n);
      OwedSaved(s, m, batch, i);
      OwedNotCut(m, t, n, i);
    }
    OwedDisagrees(t, i);
  }

  lemma OwedSaved<K(!new), V(!new)>(s: EvState<K, V>, m: EvState<K, V>, batch: set<K>, i: K)
    requires m.SavedFrom(s, batch) && s.Unreported(i) && s.CachedOk(i, s.cache[i])
    ensures m.Unreported(i) && m.cache[i] == s.cache[i] && m.cache[i].content.Some? && m.cache[i].objHandles > 0
  {
    hide EvState.SavedEntry;
    InUseSaved(s, m, batch, i);
    OwedEntry(s, m, batch, i);
  }

  lemma OwedEntry<K(!new), V(!new)>(s: EvState<K, V>, m: EvState<K, V>, batch: set<K>, i: K)
    requires m.SavedFrom(s, batch) && i in s.cache && s.cache[i].status == Clean
    ensures i in m.cache && m.cache[i] == s.cache[i] && (m.InSync(i, m.cache[i]) <==> s.InSync(i, s.cache[i]))
  {
    assert m.SavedEntry(s, batch, i);
    assert i in s.Kept(batch) && m.cache[i] == s.SavedRec(i, batch);
  }

  lemma OwedNotCut<K(!new), V(!new)>(m: EvState<K, V>, t: EvState<K, V>, n: nat, i: K)
    requires t.CutFrom(m, n) && m.Unreported(i) && m.cache[i].content.Some? && m.cache[i].objHandles > 0
    ensures t.Unreported(i) && t.cache[i] == m.cache[i]
  {
    InUseNotCut(m, t, n, i);
  }

  lemma OwedDisagrees<K(!new), V(!new)>(s: EvState<K, V>, i: K)
    requires s.Unreported(i) && s.cache[i].content.Some?
    ensures !s.StoreAgrees(i)
  {
  }

  // ----- eviction

  /** A live object with an item or a servant that a client refers to stays cached. */
  lemma InUseStaysCached<K(!new), V(!new)>(s: EvState<K, V>, t: EvState<K, V>, flushAll: bool, i: K)
    requires s.Inv() && Step(s, Polled(flushAll), t)
    requires i in s.cache && s.cache[i].Live() && (s.cache[i].itemHandles > 0 || s.cache[i].objHandles > 0)
    ensures i in t.cache && t.cache[i].content == s.cache[i].content
  {
    hide EvState.StoreOk, EvState.ListsOk, EvState.SavedFrom, EvState.CutFrom, EvState.TakenFrom;
    if s.queue != [] {
      var batch, m, n :| PolledTo(s, t, flushAll, batch, m, n);
      InUseSaved(s, m, batch, i);
      InUseNotCut(m, t, n, i);
    }
  }

  lemma InUseSaved<K(!new), V(!new)>(s: EvState<K, V>, m: EvState<K, V>, batch: set<K>, i: K)
    requires m.SavedFrom(s, batch) && i in s.cache && s.cache[i].Live()
    ensures i in m.cache && m.cache[i].content == s.cache[i].content
    ensures m.cache[i].itemHandles == s.cache[i].itemHandles && m.cache[i].objHandles == s.cache[i].objHandles
  {
    hide EvState.SavedEntry;
    assert i in s.Kept(batch) && m.cache[i] == s.SavedRec(i, batch);
  }

  lemma InUseNotCut<K(!new), V(!new)>(m: EvState<K, V>, t: EvState<K, V>, n: nat, i: K)
    requires t.CutFrom(m, n) && i in m.cache && m.cache[i].content.Some?
    requires m.cache[i].itemHandles > 0 || m.cache[i].objHandles > 0
    ensures i in t.cache && t.cache[i] == m.cache[i]
  {
    assert i !in m.lru[n..] by {
      forall k | n <= k < |m.lru| ensures m.lru[k] != i {
        assert m.Evictable(m.lru[k]);
      }
    }
  }

  /** The event moves i to the front of the LRU list. */
  predicate Uses<K(==,!new), V(!new)>(s: EvState<K, V>, e: Event<K, V>, i: K) {
    match e
    case Added(j, _, _) => i == j && (i in s.cache || s.Stored(i))
    case Removed(j) => i == j && (if i in s.cache then s.cache[i].Live() else s.Stored(i))
    case Located(j) => i == j && (if i in s.cache then s.cache[i].Live() else s.Stored(i))
    case Dirtied(j, _) => i == j && (if i in s.cache then s.cache[i].status == Clean else s.Stored(i))
    case _ => false
  }

  /** The step at which i was used last, 0 if it never was. */
  function LastUse<K(==,!new), V(!new)>(states: seq<EvState<K, V>>, events: seq<Event<K, V>>, n: nat, i: K): (r: nat)
    requires n < |states| == |events| + 1
    ensures r <= n
  {
    if n == 0 then 0
    else if Uses(states[n - 1], events[n - 1], i) then n
    else LastUse(states, events, n - 1, i)
  }

  ghost predicate ByRecency<K(!new), V(!new)>(states: seq<EvState<K, V>>, events: seq<Event<K, V>>, n: nat, lru: seq<K>)
    requires n < |states| == |events| + 1
  {
    forall a, b :: 0 <= a < b < |lru| ==> LastUse(states, events, n, lru[a]) > LastUse(states, events, n, lru[b])
  }

  /** A call moves the identity it uses to the front, and leaves the list alone otherwise. */
  lemma StepList<K(!new), V(!new)>(s: EvState<K, V>, e: Event<K, V>, t: EvState<K, V>)
    requires s.Inv() && Step(s, e, t) && !e.Polled?
    ensures Uses(s, e, e.ident) ==> t.lru == [e.ident] + Without(s.lru, e.ident)
    ensures !Uses(s, e, e.ident) ==> t.lru == s.lru
  {
    hide EvState.Inv, EvState.Put, EvState.Pin, Without, Distinct, EvState.InSync;
    var i, p := e.ident, s.Pin(e.ident);
    PinnedList(s, i);
    if i in p.cache {
      PutList(p, i);
    }
  }

  lemma PinnedList<K(!new), V(!new)>(s: EvState<K, V>, i: K)
    requires s.Inv()
    ensures var p := s.Pin(i);
      && (i in p.cache <==> i in s.cache || s.Stored(i))
      && (i in s.cache ==> p == s)
      && (i !in s.cache && i in p.cache ==>
            p.cache[i].status == Clean && Without(p.lru, i) == s.lru == Without(s.lru, i))
      && (i !in p.cache ==> p == s)
  {
    hide EvState.StoreOk, EvState.RecsOk, Distinct, Without;
    if i !in s.lru {
      WithoutFront(s.lru, i);
    }
  }

  lemma PutList<K(!new), V(!new)>(s: EvState<K, V>, i: K)
    requires i in s.cache
    ensures forall r: Rec<V>, queued :: s.Put(i, r, queued).lru == [i] + Without(s.lru, i)
  {
    hide Without;
  }

  lemma WithoutFront<K(!new)>(lru: seq<K>, i: K)
    requires i !in lru
    ensures Without([i] + lru, i) == lru && Without(lru, i) == lru
  {
    MinusNone(lru, {i});
    MinusConcat([i], lru, {i});
    assert [i] == [] + [i] && Minus([i], {i}) == [];
  }

  lemma {:induction false} MinusByRecency<K(!new), V(!new)>(states: seq<EvState<K, V>>,
                                                            events: seq<Event<K, V>>, n: nat,
                                                             lru: seq<K>, gone: set<K>)
    requires n < |states| == |events| + 1 && ByRecency(states, events, n, lru)
    ensures ByRecency(states, events, n, Minus(lru, gone))
  {
    hide LastUse;
    if lru != [] {
      var p, last := lru[..|lru| - 1], lru[|lru| - 1];
      MinusByRecency(states, events, n, p, gone);
      forall a | 0 <= a < |Minus(p, gone)|
        ensures LastUse(states, events, n, Minus(p, gone)[a]) > LastUse(states, events, n, last)
      {
        MinusMember(p, gone, Minus(p, gone)[a]);
        var b :| 0 <= b < |p| && p[b] == Minus(p, gone)[a];
        assert lru[b] == p[b];
      }
    }
  }

  lemma FrontByRecency<K(!new), V(!new)>(states: seq<EvState<K, V>>, events: seq<Event<K, V>>, n: nat,
                                         rest: seq<K>, i: K)
    requires n + 1 < |states| == |events| + 1 && ByRecency(states, events, n, rest) && i !in rest
    requires forall j :: Uses(states[n], events[n], j) <==> j == i
    ensures ByRecency(states, events, n + 1, [i] + rest)
  {
    hide Uses;
    var lru := [i] + rest;
    assert forall a :: 1 <= a < |lru| ==> lru[a] == rest[a - 1];
    forall a, b | 0 <= a < b < |lru|
      ensures LastUse(states, events, n + 1, lru[a]) > LastUse(states, events, n + 1, lru[b])
    {
      assert lru[b] == rest[b - 1];
      if a > 0 {
        assert lru[a] == rest[a - 1];
      }
    }
  }

  /** In every run the LRU list is ordered by last use, the most recent first. */
  lemma {:induction false} ListIsByRecency<K(!new), V(!new)>(states: seq<EvState<K, V>>,
                                                             events: seq<Event<K, V>>, n: nat)
    requires Run(states, events) && n < |states| && states[0].lru == []
    ensures ByRecency(states, events, n, states[n].lru)
  {
    hide EvState.Inv, Without, PolledTo, Uses, Step;
    if n > 0 {
      var s, e, t := states[n - 1], events[n - 1], states[n];
      assert Step(s, e, t);
      ListIsByRecency(states, events, n - 1);
      ReadsLastWrite(states, events, n - 1);
      if e.Polled? {
        PolledByRecency(states, events, n);
      } else {
        StepList(s, e, t);
        UsesOnly(s, e);
        if Uses(s, e, e.ident) {
          HostedFacts(s, e.ident);
          WithoutByRecency(states, events, n - 1, s.lru, e.ident);
          FrontByRecency(states, events, n - 1, Without(s.lru, e.ident), e.ident);
        }
      }
    }
  }

  lemma UsesOnly<K(!new), V(!new)>(s: EvState<K, V>, e: Event<K, V>)
    ensures forall j :: Uses(s, e, j) ==> !e.Polled? && j == e.ident
  {
  }

  lemma WithoutByRecency<K(!new), V(!new)>(states: seq<EvState<K, V>>, events: seq<Event<K, V>>, n: nat,
                                           lru: seq<K>, i: K)
    requires n < |states| == |events| + 1 && ByRecency(states, events, n, lru)
    ensures ByRecency(states, events, n, Without(lru, i)) && i !in Without(lru, i)
  {
    MinusByRecency(states, events, n, lru, {i});
    MinusMember(lru, {i}, i);
  }

  lemma PolledByRecency<K(!new), V(!new)>(states: seq<EvState<K, V>>, events: seq<Event<K, V>>, n: nat)
    requires 0 < n < |states| == |events| + 1 && events[n - 1].Polled?
    requires Step(states[n - 1], events[n - 1], states[n]) && ByRecency(states, events, n - 1, states[n - 1].lru)
    ensures ByRecency(states, events, n, states[n].lru)
  {
    hide Minus;
    var s, t := states[n - 1], states[n];
    if s.queue != [] {
      var batch, m, k :| PolledTo(s, t, events[n - 1].flushAll, batch, m, k);
      MinusByRecency(states, events, n - 1, s.lru, s.cache.Keys - s.Kept(batch));
    }
  }

  /** What a poll in any run evicts by size was used before everything it keeps. */
  lemma EvictsLeastRecent<K(!new), V(!new)>(states: seq<EvState<K, V>>, events: seq<Event<K, V>>, n: nat,
                                            batch: set<K>, m: EvState<K, V>, k: nat, i: K, j: K)
    requires Run(states, events) && n < |events| && states[0].lru == [] && events[n].Polled?
    requires PolledTo(states[n], states[n + 1], events[n].flushAll, batch, m, k)
    requires i in m.cache && i !in states[n + 1].cache && j in states[n + 1].cache
    ensures LastUse(states, events, n, i) < LastUse(states, events, n, j)
  {
    hide Minus, LastUse, Step, EvState.StoreOk, EvState.RecsOk, Distinct, EvState.SavedEntry;
    var s, t := states[n], states[n + 1];
    ReadsLastWrite(states, events, n);
    SaveKeeps(s, m, batch);
    CutKeeps(m, t, k);
    ListIsByRecency(states, events, n);
    MinusByRecency(states, events, n, s.lru, s.cache.Keys - s.Kept(batch));
    assert i in m.lru[k..] && j in t.lru;
    var a :| 0 <= a < |t.lru| && t.lru[a] == j;
    var b :| k <= b < |m.lru| && m.lru[b] == i;
    assert m.lru[a] == j;
  }
}
