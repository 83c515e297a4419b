/**
 The stages of the evictor's poll as changes of its state: popping a batch, streaming
 it, putting held-back items back, saving the records, dropping dead items, marking
 the saved ones clean.  `StagesSave` puts them together.
 */
module EvictorPoll {
  import opened Basics
  import opened EvictorTypes
  import opened Lists
  import opened EvictorSpec
  import opened EvictorTables

  function Popped<K(==,!new), V(!new)>(s: EvState<K, V>, batch: set<K>, queue: seq<K>): EvState<K, V> {
    s.(queue := queue, waiting := s.waiting - batch, pending := s.pending - batch)
  }

  lemma PoppedNone<K(!new), V(!new)>(s: EvState<K, V>)
    ensures Popped(s, {}, s.queue) == s
  {
    assert s.waiting - {} == s.waiting && s.pending - {} == s.pending;
  }

  lemma PoppedStep<K(!new), V(!new)>(s: EvState<K, V>, batch: set<K>, queue: seq<K>, k: K, queue': seq<K>)
    ensures Popped(s, batch + {k}, queue') ==
              Popped(s, batch, queue).(queue := queue', waiting := Popped(s, batch, queue).waiting - {k},
                                       pending := Popped(s, batch, queue).pending - {k})
  {
    assert s.waiting - (batch + {k}) == (s.waiting - batch) - {k};
    assert s.pending - (batch + {k}) == (s.pending - batch) - {k};
  }

  /** Only tracked identities matter to what a batch pops. */
  lemma PoppedTracked<K(!new), V(!new)>(s: EvState<K, V>, seen: set<K>, batch: set<K>, queue: seq<K>)
    requires forall k :: s.Tracked(k) ==> (k in seen <==> k in batch)
    ensures Popped(s, seen, queue) == Popped(s, batch, queue) && Popped(s, batch, queue).queue == queue
  {
    assert s.waiting - seen == s.waiting - batch by {
      forall k | k in s.waiting ensures k in seen <==> k in batch {
        assert s.Tracked(k);
      }
    }
    assert s.pending - seen == s.pending - batch by {
      forall k | k in s.pending ensures k in seen <==> k in batch {
        assert s.Tracked(k);
      }
    }
  }

  function Buried<K, V>(cache: map<K, Rec<V>>, done: set<K>): map<K, Rec<V>> {
    map k | k in cache :: if k in done && cache[k].status == Destroyed then cache[k].(status := Dead) else cache[k]
  }

  function Cleaned<K, V>(cache: map<K, Rec<V>>, done: set<K>): map<K, Rec<V>> {
    map k | k in cache :: if k in done then cache[k].(status := Clean) else cache[k]
  }

  lemma BuriedStep<K(!new), V(!new)>(cache: map<K, Rec<V>>, done: set<K>, k: K)
    ensures Buried(cache, done + {k}) ==
              if k in cache && cache[k].status == Destroyed then Buried(cache, done)[k := cache[k].(status := Dead)]
              else Buried(cache, done)
  {
  }

  lemma BuriedKeys<K(!new), V(!new)>(cache: map<K, Rec<V>>, done: set<K>)
    ensures Buried(cache, done).Keys == cache.Keys
  {
  }

  lemma BuriedAt<K(!new), V(!new)>(cache: map<K, Rec<V>>, done: set<K>, k: K)
    requires k in cache && k !in done
    ensures k in Buried(cache, done) && Buried(cache, done)[k] == cache[k]
  {
  }

  lemma CleanedAt<K(!new), V(!new)>(cache: map<K, Rec<V>>, done: set<K>, k: K)
    requires k !in done
    ensures k in Cleaned(cache, done) <==> k in cache
    ensures k in cache ==> Cleaned(cache, done)[k] == cache[k]
  {
  }

  lemma CleanedNone<K(!new), V(!new)>(cache: map<K, Rec<V>>)
    ensures Cleaned(cache, {}) == cache
  {
  }

  lemma CleanedStep<K(!new), V(!new)>(cache: map<K, Rec<V>>, done: set<K>, k: K)
    ensures Cleaned(cache, done + {k}) ==
              if k in cache then Cleaned(cache, done)[k := cache[k].(status := Clean)] else Cleaned(cache, done)
  {
  }

  ghost predicate InBatch<K(!new), V(!new)>(s: EvState<K, V>, batch: set<K>) {
    forall k :: k in batch ==> s.Tracked(k) && (k in s.cache || k in s.pending)
  }

  // ----- the records

  /** Whether an item of the batch is streamed, and the record it is streamed as. */
  ghost predicate Streams<K(!new), V(!new)>(s: EvState<K, V>, k: K)
    requires k in s.cache || k in s.pending
  {
    var r := s.TrackedRec(k);
    (s.Saves(r) && r.content.Some?) || r.status == Destroyed
  }

  function RecordFor<K(==,!new), V(!new)>(s: EvState<K, V>, k: K): StreamedObject
    requires k in s.cache || k in s.pending
  {
    var r := s.TrackedRec(k);
    StreamedObject(s.codec.key(k), r.status,
                   if r.status == Destroyed || r.content.None? then [] else s.codec.marshal(k, r.content.value))
  }

  /** The streamed list holds exactly the records of the items done so far. */
  ghost predicate StreamedFor<K(!new), V(!new)>(streamed: seq<StreamedObject>, s: EvState<K, V>, done: set<K>)
    requires InBatch(s, done)
  {
    && DistinctKeys(streamed)
    && (forall k :: k in done && Streams(s, k) ==> RecordFor(s, k) in streamed)
    && (forall o :: o in streamed ==> exists k :: k in done && Streams(s, k) && o == RecordFor(s, k))
  }

  lemma StreamedStep<K(!new), V(!new)>(streamed: seq<StreamedObject>, s: EvState<K, V>, done: set<K>, k: K)
    requires s.codec.Sound() && InBatch(s, done + {k}) && InBatch(s, done) && StreamedFor(streamed, s, done)
    requires k !in done
    ensures StreamedFor(if Streams(s, k) then streamed + [RecordFor(s, k)] else streamed, s, done + {k})
  {
    if Streams(s, k) {
      forall a | 0 <= a < |streamed| ensures streamed[a].key != s.codec.key(k) {
        assert streamed[a] in streamed;
      }
    }
  }

  /** Saving the streamed records changes the store as SavedFrom asks. */
  lemma RecordsSave<K(!new), V(!new)>(s: EvState<K, V>, t: EvState<K, V>, batch: set<K>,
                                      streamed: seq<StreamedObject>, k: K)
    requires s.codec.Sound() && InBatch(s, batch) && StreamedFor(streamed, s, batch)
    requires t.codec == s.codec && t.store == SaveAll(s.store, streamed)
    ensures t.SavedEntry(s, batch, k)
  {
    hide SaveAll, DistinctKeys;
    SaveAllEffect(s.store, streamed);
    if k in batch && Streams(s, k) {
      var a :| 0 <= a < |streamed| && streamed[a] == RecordFor(s, k);
      assert streamed[a].key == s.codec.key(k);
    } else {
      forall a | 0 <= a < |streamed| ensures streamed[a].key != s.codec.key(k) {
        assert streamed[a] in streamed;
      }
    }
  }

  /** Which of poll's local queues an item of the batch joins.  A clean item joins none. */
  datatype Fate = Idle | ToHold | ToFlush | ToBury

  function FateOf<K(==,!new), V(!new)>(s: EvState<K, V>, k: K): Fate
    requires k in s.cache || k in s.pending
  {
    var r := s.TrackedRec(k);
    if s.HeldBack(r) then ToHold
    else if r.status in {Created, Modified} then ToFlush
    else if r.status in {Destroyed, Dead} then ToBury
    else Idle
  }

  lemma HasMember<T>(s: seq<T>)
    ensures s != [] ==> exists x :: x in s
  {
    if s != [] {
      assert s[0] in s;
    }
  }

  lemma NoneHeld<K(!new), V(!new)>(s: EvState<K, V>, batch: set<K>, ids: seq<K>)
    requires !s.completedOnly && InBatch(s, batch)
    requires forall k :: k in ids <==> k in batch && FateOf(s, k) == ToHold
    ensures ids == []
  {
    HasMember(ids);
  }

  ghost predicate WithServants<K(!new), V(!new)>(s: EvState<K, V>, batch: set<K>)
    requires InBatch(s, batch)
  {
    forall k :: k in batch ==>
      (s.TrackedRec(k).content.None? <==> s.TrackedRec(k).status in {Destroyed, Dead})
      && (k !in s.cache ==> s.pending[k].status == Created)
  }

  /** A local queue holds the items of the identities ids, once each. */
  ghost predicate Refs<K(!new)>(queue: seq<Ref>, ids: seq<K>, flight: map<K, Ref>) {
    && |queue| == |ids| && Distinct(ids)
    && (forall j :: 0 <= j < |ids| ==> ids[j] in flight && queue[j] == flight[ids[j]])
  }

  lemma RefsNone<K(!new)>(flight: map<K, Ref>)
    ensures Refs([], [], flight)
  {
  }

  lemma RefsLength<K(!new)>(queue: seq<Ref>, ids: seq<K>, flight: map<K, Ref>)
    requires Refs(queue, ids, flight)
    ensures |queue| == |ids| && Distinct(ids)
  {
  }

  lemma RefAt<K(!new)>(queue: seq<Ref>, ids: seq<K>, flight: map<K, Ref>, j: nat)
    requires Refs(queue, ids, flight) && j < |ids|
    ensures j < |queue| && ids[j] in flight && queue[j] == flight[ids[j]]
  {
  }

  lemma NextId<K(!new)>(ids: seq<K>, j: nat)
    requires Distinct(ids) && j < |ids|
    ensures ids[..j + 1] == ids[..j] + [ids[j]] && Elems(ids[..j + 1]) == Elems(ids[..j]) + {ids[j]}
    ensures ids[j] in Elems(ids) && ids[j] !in Elems(ids[..j])
  {
    SplitDistinct(ids, j);
    assert ids[j] in ids[j..];
    assert ids[..j + 1] == ids[..j] + [ids[j]];
  }

  lemma RefsMore<K(!new)>(queue: seq<Ref>, ids: seq<K>, flight: map<K, Ref>, k: K)
    requires Refs(queue, ids, flight) && k !in ids && k in flight
    ensures Refs(queue + [flight[k]], ids + [k], flight)
  {
  }

  /** What streaming an item does, by its status. */
  lemma StreamedAs<K(!new), V(!new)>(s: EvState<K, V>, batch: set<K>, k: K)
    requires InBatch(s, batch) && WithServants(s, batch) && k in batch
    ensures k in s.cache || k in s.pending
    ensures var r := s.TrackedRec(k);
      match r.status
      case Destroyed =>
        && k in s.cache && Streams(s, k) && FateOf(s, k) == ToBury
        && RecordFor(s, k) == StreamedObject(s.codec.key(k), Destroyed, [])
      case Dead => !Streams(s, k) && FateOf(s, k) == ToBury
      case Clean => !Streams(s, k) && FateOf(s, k) == Idle
      case _ =>
        r.content.Some?
        && (if s.completedOnly && !r.completed then !Streams(s, k) && FateOf(s, k) == ToHold
            else Streams(s, k) && FateOf(s, k) == ToFlush
                 && RecordFor(s, k) == StreamedObject(s.codec.key(k), r.status, s.codec.marshal(k, r.content.value)))
  {
  }

  /** A local queue holds the items of the batch that have one fate. */
  ghost predicate Sorted<K(!new), V(!new)>(queue: seq<Ref>, ids: seq<K>, flight: map<K, Ref>,
                                            s: EvState<K, V>, batch: set<K>, fate: Fate)
    requires InBatch(s, batch)
  {
    Refs(queue, ids, flight) && (forall k :: k in ids <==> k in batch && FateOf(s, k) == fate)
  }

  lemma SortedFacts<K(!new), V(!new)>(queue: seq<Ref>, ids: seq<K>, flight: map<K, Ref>,
                                      s: EvState<K, V>, batch: set<K>, fate: Fate)
    requires InBatch(s, batch) && Sorted(queue, ids, flight, s, batch, fate)
    ensures Refs(queue, ids, flight)
    ensures forall k :: k in ids <==> k in batch && FateOf(s, k) == fate
  {
  }

  lemma SortedStep<K(!new), V(!new)>(queue: seq<Ref>, ids: seq<K>, flight: map<K, Ref>,
                                     s: EvState<K, V>, batch: set<K>, fate: Fate, k: K)
    requires InBatch(s, batch) && InBatch(s, batch + {k}) && Sorted(queue, ids, flight, s, batch, fate)
    requires k !in batch && k in flight
    ensures FateOf(s, k) == fate ==> Sorted(queue + [flight[k]], ids + [k], flight, s, batch + {k}, fate)
    ensures FateOf(s, k) != fate ==> Sorted(queue, ids, flight, s, batch + {k}, fate)
  {
  }

  lemma NothingYet<K(!new), V(!new)>(s: EvState<K, V>, flight: map<K, Ref>)
    ensures Buried(s.cache, {}) == s.cache && Cleaned(s.cache, {}) == s.cache && StreamedFor([], s, {})
    ensures forall fate :: Sorted([], [], flight, s, {}, fate)
  {
  }

  // ----- putting back, dropping

  /** The held-back items ks of s0 are back in the modified map. */
  function PutBack<K(==,!new), V(!new)>(s: EvState<K, V>, s0: EvState<K, V>, ks: set<K>, queue: seq<K>): EvState<K, V> {
    s.(queue := queue, waiting := s.waiting + ks * s0.cache.Keys,
       pending := s.pending + (map k | k in s0.pending && k in ks && k !in s0.cache :: s0.pending[k]))
  }

  lemma PutBackNone<K(!new), V(!new)>(s: EvState<K, V>, s0: EvState<K, V>)
    ensures PutBack(s, s0, {}, s.queue) == s
  {
  }

  lemma PutBackStep<K(!new), V(!new)>(s: EvState<K, V>, s0: EvState<K, V>, ks: set<K>, q: seq<K>, k: K)
    requires k in s0.cache || k in s0.pending
    ensures var t := PutBack(s, s0, ks, q);
            PutBack(s, s0, ks + {k}, q + [k]) ==
              if k in s0.cache then t.(queue := q + [k], waiting := t.waiting + {k})
              else t.(queue := q + [k], pending := t.pending[k := s0.pending[k]])
  {
    if k in s0.cache {
      assert (ks + {k}) * s0.cache.Keys == ks * s0.cache.Keys + {k};
    } else {
      assert (ks + {k}) * s0.cache.Keys == ks * s0.cache.Keys;
    }
  }

  lemma PutBackRest<K(!new), V(!new)>(s: EvState<K, V>, s0: EvState<K, V>, ks: set<K>, q: seq<K>, k: K)
    requires s.waiting <= s.cache.Keys == s0.cache.Keys && k !in s.pending && k !in ks
    ensures var t := PutBack(s, s0, ks, q);
            t.waiting <= t.cache.Keys == s0.cache.Keys && k !in t.pending
  {
  }

  function Dropped<K(==,!new), V(!new)>(s: EvState<K, V>, gone: set<K>): EvState<K, V> {
    s.(cache := s.cache - gone, lru := Minus(s.lru, gone))
  }

  lemma DroppedStep<K(!new), V(!new)>(s: EvState<K, V>, gone: set<K>, k: K)
    ensures Dropped(s, gone + {k}) ==
              Dropped(s, gone).(cache := Dropped(s, gone).cache - {k}, lru := Without(Dropped(s, gone).lru, k))
  {
    MinusMinus(s.lru, gone, {k});
    assert s.cache - (gone + {k}) == (s.cache - gone) - {k};
  }

  /** The cached items among ks that no client refers to. */
  function Unreferenced<K(!new), V>(cache: map<K, Rec<V>>, ks: set<K>): set<K> {
    set k | k in cache && k in ks && cache[k].itemHandles == 0
  }

  lemma UnreferencedStep<K(!new), V(!new)>(cache: map<K, Rec<V>>, ks: set<K>, k: K)
    requires k in cache
    ensures Unreferenced(cache, ks + {k}) ==
              if cache[k].itemHandles == 0 then Unreferenced(cache, ks) + {k} else Unreferenced(cache, ks)
  {
  }

  lemma DroppedLists<K(!new), V(!new)>(s: EvState<K, V>, gone: set<K>, k: K)
    requires Distinct(s.lru) && k in s.cache && k in s.lru && k !in gone
    ensures Distinct(Dropped(s, gone).lru) && k in Dropped(s, gone).lru
    ensures k in Dropped(s, gone).cache && Dropped(s, gone).cache[k] == s.cache[k]
  {
    MinusDistinct(s.lru, gone);
  }

  lemma DroppedTracks<K(!new), V(!new)>(s: EvState<K, V>, gone: set<K>)
    ensures forall k: K :: Dropped(s, gone).Tracked(k) == s.Tracked(k)
    ensures Dropped(s, gone).pending == s.pending && Dropped(s, gone).waiting == s.waiting
    ensures Dropped(s, gone).store == s.store && Dropped(s, gone).cache.Keys <= s.cache.Keys
  {
  }

  lemma UnreferencedNone<K(!new), V(!new)>(cache: map<K, Rec<V>>)
    ensures Unreferenced(cache, {}) == {}
  {
  }

  lemma DroppedNone<K(!new), V(!new)>(s: EvState<K, V>)
    ensures Dropped(s, {}) == s
  {
    MinusNone(s.lru, {});
  }

  // ----- the whole

  function Flushed<K(!new), V(!new)>(s: EvState<K, V>, batch: set<K>): set<K> {
    set k | k in s.cache && k in batch && s.Saves(s.cache[k])
  }

  ghost predicate Staged<K(!new), V(!new)>(s: EvState<K, V>, t: EvState<K, V>, batch: set<K>) {
    && InBatch(s, batch)
    && t.codec == s.codec && t.evictorSize == s.evictorSize && t.completedOnly == s.completedOnly
    && t.batchSize == s.batchSize
    && t.cache == Cleaned(Buried(s.cache, batch) - (s.cache.Keys - s.Kept(batch)), Flushed(s, batch))
    && t.lru == Minus(s.lru, s.cache.Keys - s.Kept(batch))
    && (forall k :: k in t.waiting <==> k in s.waiting && (k in batch ==> k in s.cache && s.HeldBack(s.cache[k])))
    && (forall k :: k in t.pending <==> k in s.pending && (k in batch ==> s.HeldBack(s.pending[k])))
    && (forall k :: k in t.pending ==> t.pending[k] == s.pending[k])
    && (forall k :: k in t.waiting || k in t.pending ==> k in t.queue)
  }

  lemma StagesSave<K(!new), V(!new)>(s: EvState<K, V>, t: EvState<K, V>, batch: set<K>, streamed: seq<StreamedObject>)
    requires s.codec.Sound() && Staged(s, t, batch) && StreamedFor(streamed, s, batch)
    requires t.store == SaveAll(s.store, streamed)
    ensures t.SavedFrom(s, batch)
  {
    hide SaveAll, DistinctKeys;
    forall k: K ensures t.SavedEntry(s, batch, k) {
      RecordsSave(s, t, batch, streamed, k);
    }
  }

  /** The state once a batch has been streamed and its held-back items are back. */
  function Streamed<K(==,!new), V(!new)>(s0: EvState<K, V>, batch: set<K>, held: set<K>, queue: seq<K>,
                                         queue': seq<K>): EvState<K, V> {
    PutBack(Popped(s0, batch, queue).(cache := Buried(s0.cache, batch)), s0, held, queue')
  }

  lemma BatchFacts<K(!new), V(!new)>(s0: EvState<K, V>, batch: set<K>)
    requires s0.Inv() && forall k :: k in batch ==> s0.Tracked(k)
    ensures s0.codec.Sound() && InBatch(s0, batch) && WithServants(s0, batch)
  {
    forall k | k in batch
      ensures k in s0.cache ==> s0.CachedOk(k, s0.cache[k])
      ensures k in s0.pending ==> s0.PendingOk(k, s0.pending[k])
    {
    }
  }

  lemma StreamedFacts<K(!new), V(!new)>(s0: EvState<K, V>, batch: set<K>, held: set<K>, queue: seq<K>, queue': seq<K>)
    ensures var s := Streamed(s0, batch, held, queue, queue');
            && s.codec == s0.codec && s.evictorSize == s0.evictorSize && s.completedOnly == s0.completedOnly
            && s.batchSize == s0.batchSize
            && s.store == s0.store && s.lru == s0.lru && s.cache.Keys == s0.cache.Keys
            && (forall k :: k in s.pending ==> k in s0.pending)
  {
  }

  /** What dropping the dead items of a batch needs. */
  lemma DeadReady<K(!new), V(!new)>(s0: EvState<K, V>, batch: set<K>, held: set<K>, queue: seq<K>, queue': seq<K>, k: K)
    requires s0.Inv() && InBatch(s0, batch) && WithServants(s0, batch)
    requires forall h :: h in held <==> h in batch && FateOf(s0, h) == ToHold
    requires k in batch && FateOf(s0, k) == ToBury
    ensures var s := Streamed(s0, batch, held, queue, queue');
            k in s0.cache && k in s.cache && k in s.lru && s.cache[k].status == Dead && !s.Tracked(k)
  {
  }

  lemma FlushReady<K(!new), V(!new)>(s0: EvState<K, V>, batch: set<K>, held: set<K>, queue: seq<K>,
                                     queue': seq<K>, k: K)
    requires InBatch(s0, batch) && forall h :: h in held <==> h in batch && FateOf(s0, h) == ToHold
    requires k in batch && FateOf(s0, k) == ToFlush
    ensures k !in Streamed(s0, batch, held, queue, queue').pending
  {
  }

  lemma DeadDropped<K(!new), V(!new)>(s0: EvState<K, V>, batch: set<K>, dead: set<K>)
    requires InBatch(s0, batch) && forall k :: k in dead <==> k in batch && FateOf(s0, k) == ToBury
    ensures Unreferenced(Buried(s0.cache, batch), dead) == s0.cache.Keys - s0.Kept(batch)
  {
  }

  lemma FlushedClean<K(!new), V(!new)>(s0: EvState<K, V>, batch: set<K>, flushed: set<K>, cache: map<K, Rec<V>>)
    requires InBatch(s0, batch) && forall k :: k in flushed <==> k in batch && FateOf(s0, k) == ToFlush
    requires cache.Keys <= s0.cache.Keys
    ensures Cleaned(cache, flushed) == Cleaned(cache, Flushed(s0, batch))
  {
    forall k | k in cache ensures k in flushed <==> k in Flushed(s0, batch) {
    }
  }

  lemma StreamedTracks<K(!new), V(!new)>(s0: EvState<K, V>, batch: set<K>, held: set<K>, queue: seq<K>, heldIds: seq<K>)
    requires s0.ListsOk() && InBatch(s0, batch) && Elems(heldIds) == held
    requires forall k :: k in s0.pending ==> k !in s0.cache
    requires forall k :: k in held <==> k in batch && FateOf(s0, k) == ToHold
    requires forall k :: s0.Tracked(k) && k !in batch ==> k in queue
    ensures var t := Streamed(s0, batch, held, queue, queue + heldIds);
      && (forall k :: k in t.waiting <==> k in s0.waiting && (k in batch ==> k in s0.cache && s0.HeldBack(s0.cache[k])))
      && (forall k :: k in t.pending <==> k in s0.pending && (k in batch ==> s0.HeldBack(s0.TrackedRec(k))))
      && (forall k :: k in t.pending ==> t.pending[k] == s0.pending[k])
      && (forall k :: k in t.waiting || k in t.pending ==> k in t.queue)
  {
    hide Distinct, Buried;
    var t := Streamed(s0, batch, held, queue, queue + heldIds);
    forall k | k in t.waiting || k in t.pending ensures k in t.queue {
      if k in batch {
        assert k in heldIds;
      } else {
        assert s0.Tracked(k);
      }
    }
  }

  lemma StagedCache<K(!new), V(!new)>(s0: EvState<K, V>, s: EvState<K, V>, batch: set<K>, dead: set<K>, flushed: set<K>)
    requires InBatch(s0, batch) && s.cache == Buried(s0.cache, batch) && s.lru == s0.lru
    requires forall k :: k in dead <==> k in batch && FateOf(s0, k) == ToBury
    requires forall k :: k in flushed <==> k in batch && FateOf(s0, k) == ToFlush
    ensures var d := Dropped(s, Unreferenced(s.cache, dead));
      && d.lru == Minus(s0.lru, s0.cache.Keys - s0.Kept(batch))
      && Cleaned(d.cache, flushed)
           == Cleaned(Buried(s0.cache, batch) - (s0.cache.Keys - s0.Kept(batch)), Flushed(s0, batch))
  {
    hide Buried, Cleaned, Unreferenced, Flushed, EvState.Kept, FateOf, InBatch;
    var d := Dropped(s, Unreferenced(s.cache, dead));
    BuriedKeys(s0.cache, batch);
    DeadDropped(s0, batch, dead);
    FlushedClean(s0, batch, flushed, d.cache);
  }

  /** The first p entries have been taken off the queue: the items tracked among them are
      popped, each at its first occurrence. */
  ghost predicate Popping<K(!new), V(!new)>(s0: EvState<K, V>, s: EvState<K, V>, queue: seq<K>, tracked: map<K, Ref>,
                                            left: map<K, Ref>, popped: seq<Ref>, ids: seq<K>, p: nat) {
    && p <= |queue| && s == Popped(s0, Elems(queue[..p]), queue[p..]) && left == tracked - Elems(queue[..p])
    && Refs(popped, ids, tracked) && InOrder(ids, queue)
    && (forall k :: k in ids <==> k in queue[..p] && k in tracked)
  }

  lemma PoppingStart<K(!new), V(!new)>(s: EvState<K, V>, tracked: map<K, Ref>)
    ensures Popping(s, s, s.queue, tracked, tracked, [], [], 0)
  {
    assert s.queue[0..] == s.queue && Elems(s.queue[..0]) == {};
    PoppedNone(s);
    RefsNone(tracked);
    InOrderNone(s.queue);
    assert tracked - {} == tracked;
  }

  /** What popping the first entry comes to. */
  lemma PoppingStep<K(!new), V(!new)>(s0: EvState<K, V>, s: EvState<K, V>, queue: seq<K>, tracked: map<K, Ref>,
                                      left: map<K, Ref>, popped: seq<Ref>, ids: seq<K>, p: nat)
    requires Popping(s0, s, queue, tracked, left, popped, ids, p) && p < |queue|
    ensures var k := queue[p];
      && (k in left ==> k in tracked && left[k] == tracked[k])
      && Popping(s0, s.(queue := queue[p + 1..], waiting := s.waiting - {k}, pending := s.pending - {k}), queue,
                 tracked, left - {k}, if k in left then popped + [left[k]] else popped,
                 if k in left then ids + [k] else ids, p + 1)
  {
    hide Popped, Refs, InOrder;
    var k := queue[p];
    assert queue[..p + 1] == queue[..p] + [k];
    assert Elems(queue[..p + 1]) == Elems(queue[..p]) + {k};
    assert tracked - Elems(queue[..p + 1]) == left - {k};
    PoppedStep(s0, Elems(queue[..p]), queue[p..], k, queue[p + 1..]);
    if k in left {
      assert k !in queue[..p];
      RefsMore(popped, ids, tracked, k);
      InOrderMore(ids, queue, p);
    }
  }

  lemma PoppingEnds<K(!new), V(!new)>(s0: EvState<K, V>, s: EvState<K, V>, queue: seq<K>, tracked: map<K, Ref>,
                                      left: map<K, Ref>, popped: seq<Ref>, ids: seq<K>, p: nat)
    requires Popping(s0, s, queue, tracked, left, popped, ids, p) && forall k :: k in tracked <==> s0.Tracked(k)
    ensures p <= |queue| && s == Popped(s0, Elems(ids), queue[p..]) && s.queue == queue[p..]
    ensures Refs(popped, ids, tracked) && InOrder(ids, queue)
    ensures forall k :: k in ids <==> k in queue[..p] && s0.Tracked(k)
  {
    hide Popped, Refs, InOrder;
    PoppedTracked(s0, Elems(queue[..p]), Elems(ids), queue[p..]);
  }

  lemma FrontIs<K(!new), V(!new)>(s: EvState<K, V>, ids: seq<K>, p: nat)
    requires p <= |s.queue| && Distinct(ids) && forall k :: k in ids <==> k in s.queue[..p] && s.Tracked(k)
    ensures Elems(ids) == s.Front(p) && |s.Front(p)| == |ids|
  {
    DistinctSize(ids);
    assert Elems(ids) == s.Front(p);
  }

  /** What the queue is after a batch has been popped and its held-back items are back. */
  lemma BatchTaken<K(!new), V(!new)>(s: EvState<K, V>, t: EvState<K, V>, batch: set<K>, flushAll: bool, p: nat,
                                     held: seq<K>)
    requires InBatch(s, batch) && forall k :: k in held <==> k in batch && FateOf(s, k) == ToHold
    requires p <= |s.queue| && batch == s.Front(p) && t.queue == s.queue[p..] + held
    requires flushAll ==> p == |s.queue|
    requires !flushAll ==> |batch| <= s.batchSize && (|batch| < s.batchSize ==> p == |s.queue|)
    ensures t.TakenFrom(s, batch, flushAll)
  {
    hide EvState.Front;
    assert t.Takes(s, batch, flushAll, p, held);
  }

  lemma PendingHasRec<K(!new), V(!new)>(s: EvState<K, V>)
    requires s.Inv()
    ensures forall k :: k in s.pending ==> k !in s.cache
  {
    forall k | k in s.pending ensures k !in s.cache {
      assert s.PendingOk(k, s.pending[k]);
    }
  }

  /** The stages one after another make up Staged. */
  lemma AllStages<K(!new), V(!new)>(s0: EvState<K, V>, batch: set<K>, held: set<K>, queue: seq<K>, heldIds: seq<K>,
                                    dead: set<K>, flushed: set<K>, store: Dict) returns (t: EvState<K, V>)
    requires s0.Inv() && InBatch(s0, batch) && Elems(heldIds) == held
    requires forall k :: k in held <==> k in batch && FateOf(s0, k) == ToHold
    requires forall k :: k in dead <==> k in batch && FateOf(s0, k) == ToBury
    requires forall k :: k in flushed <==> k in batch && FateOf(s0, k) == ToFlush
    requires forall k :: s0.Tracked(k) && k !in batch ==> k in queue
    ensures var s := Streamed(s0, batch, held, queue, queue + heldIds).(store := store);
            var d := Dropped(s, Unreferenced(s.cache, dead));
            && t == d.(cache := Cleaned(d.cache, flushed)) && t.store == store && Staged(s0, t, batch)
            && t.queue == queue + heldIds
  {
    hide Buried, Cleaned, Unreferenced, Flushed, EvState.Kept, FateOf, InBatch, EvState.HeldBack, Distinct,
         EvState.Tracked,
         EvState.RecsOk, EvState.StoreOk;
    var s := Streamed(s0, batch, held, queue, queue + heldIds).(store := store);
    var d := Dropped(s, Unreferenced(s.cache, dead));
    t := d.(cache := Cleaned(d.cache, flushed));
    PendingHasRec(s0);
    StreamedTracks(s0, batch, held, queue, heldIds);
    StagedCache(s0, s, batch, dead, flushed);
  }

  /** The batch has been saved and taken off the queue. */
  lemma FlushEnds<K(!new), V(!new)>(s0: EvState<K, V>, t: EvState<K, V>, batch: set<K>, queue: seq<K>, heldIds: seq<K>,
                                    dead: set<K>, flushed: set<K>, streamed: seq<StreamedObject>, flushAll: bool,
                                    p: nat)
    requires s0.Inv() && InBatch(s0, batch) && StreamedFor(streamed, s0, batch)
    requires forall k :: k in heldIds <==> k in batch && FateOf(s0, k) == ToHold
    requires forall k :: k in dead <==> k in batch && FateOf(s0, k) == ToBury
    requires forall k :: k in flushed <==> k in batch && FateOf(s0, k) == ToFlush
    requires forall k :: s0.Tracked(k) && k !in batch ==> k in queue
    requires var saved := SaveAll(s0.store, streamed);
             var s := Streamed(s0, batch, Elems(heldIds), queue, queue + heldIds).(store := saved);
             var d := Dropped(s, Unreferenced(s.cache, dead)); t == d.(cache := Cleaned(d.cache, flushed))
    requires p <= |s0.queue| && queue == s0.queue[p..] && batch == s0.Front(p)
    requires flushAll ==> p == |s0.queue|
    requires !flushAll ==> |batch| <= s0.batchSize && (|batch| < s0.batchSize ==> p == |s0.queue|)
    ensures t.SavedFrom(s0, batch) && t.TakenFrom(s0, batch, flushAll)
  {
    hide Buried, Cleaned, Unreferenced, Streamed, Dropped, Staged, StreamedFor, InBatch, FateOf, SaveAll, EvState.Front,
         EvState.SavedFrom, EvState.TakenFrom, EvState.ListsOk, EvState.RecsOk;
    var t' := AllStages(s0, batch, Elems(heldIds), queue, heldIds, dead, flushed, SaveAll(s0.store, streamed));
    StagesSave(s0, t, batch, streamed);
    BatchTaken(s0, t, batch, flushAll, p, heldIds);
  }
}
