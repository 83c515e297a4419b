/**
 The evictor: a write-back object cache with a least-recently-used list, a queue and a
 map of modified items, and a store.  Every method is tied to the state function of
 EvictorSpec that has its name.
 */
module EvictorCache {
  import opened Basics
  import opened EvictorTypes
  import opened Lists
  import opened EvictorSpec
  import opened EvictorTables
  import opened EvictorPoll
  import opened EvictorRuns

  const EVICTOR_DEFAULT_SIZE: nat := 200

  class Evictor<K(==,!new), V(!new)> {
    const codec: Codec<K, V>

    var evictorSize: nat
    var batchSize: nat
    var saveCompletedOnly: bool

    var items: map<Ref, Item<K, V>>
    var nextRef: nat
    var nextNode: nat
    var cache: map<K, Ref>
    var evictorList: seq<Node<K>>
    var modifiedQueue: seq<K>
    var modifiedMap: map<K, Ref>
    var streamedList: seq<StreamedObject>
    var dict: Dict

    ghost var abs: EvState<K, V>  // what the fields above stand for
    ghost var owed: set<K>        // clean objects changed in place and not reported since
    ghost var added: map<Ref, Item<K, V>>  // the items of fresh adds

    ghost function Now(): Tables<K, V>
      reads this
    {
      Tables(items, cache, evictorList, modifiedQueue, modifiedMap, dict)
    }

    /** The fields stand for abs. */
    ghost predicate Good()
      reads this
    {
      && Linked(Now(), abs) && AddedKept(added, items)
      && abs.codec == codec && abs.evictorSize == evictorSize && abs.completedOnly == saveCompletedOnly
      && abs.batchSize == batchSize
      && Numbered(items, nextRef)
    }

    ghost predicate Valid()
      reads this
    {
      Good() && abs.Inv() && OnlyOwed(abs, owed) && streamedList == [] && batchSize > 0 && evictorSize > 0
    }

    /** The size is kept in an unsigned word, so of the sizes that are not positive only 0
        means the default; -1 is as good as no limit. */
    constructor (codec: Codec<K, V>, maxSize: int)
      requires codec.Sound() && -0x8000_0000 <= maxSize < 0x8000_0000
      ensures Valid()
      ensures maxSize == 0 ==> evictorSize == 200
      ensures maxSize > 0 ==> evictorSize == maxSize
      ensures maxSize < 0 ==> evictorSize == maxSize + 0x1_0000_0000
      ensures batchSize == 20 && !saveCompletedOnly
      ensures forall i: K :: abs.Lookup(i) == None
    {
      this.codec := codec;
      var size: nat := maxSize % 0x1_0000_0000;
      if size <= 0 {
        size := EVICTOR_DEFAULT_SIZE;
      }
      evictorSize := size;
      batchSize, saveCompletedOnly := 20, false;
      items, nextRef, nextNode := map[], 0, 0;
      cache, evictorList, modifiedQueue, modifiedMap := map[], [], [], map[];
      streamedList, dict := [], map[];
      abs := EvState(codec, size, 20, false,
                     map[], [], [], {}, map[], map[]);
      owed, added := {}, map[];
    }

    // ----- steps shared by the calls

    /** Put what the store has for an identity into the cache, at the front of the list. */
    method Load(ident: K)
      requires Good() && ident !in abs.cache && ident !in abs.pending && abs.Stored(ident)
      modifies this`items, this`nextRef, this`nextNode, this`cache, this`evictorList, this`abs
      ensures Good() && abs == old(abs).Pin(ident) && ident in cache
    {
      hide AddedKept, Numbered, Linked, EvState.Pin;
      LinkedKeys(Now(), abs);
      PinnedState(abs, ident);
      var x := Item(ident, Some(Servant(codec.unmarshal(ident, dict[codec.key(ident)]), 0)), Clean, false, false,
                    Node(nextNode, ident), 0);
      NumberedNext(items, nextRef, x);
      InsertedLinked(Now(), abs, nextRef, x);
      AddedFrame(added, items, nextRef, x);
      items := items[nextRef := x];
      cache := cache[ident := nextRef];
      evictorList := [x.pos] + evictorList;
      nextRef, nextNode := nextRef + 1, nextNode + 1;
      abs := abs.Pin(ident);
    }

    /** The cached item of an identity, loaded when only the store has it. */
    method Pin(ident: K) returns (item: Option<Ref>)
      requires Good()
      requires ident in abs.pending ==> !abs.Stored(ident)
      modifies this`items, this`nextRef, this`nextNode, this`cache, this`evictorList, this`abs
      ensures Good() && abs == old(abs).Pin(ident)
      ensures item == if ident in cache then Some(cache[ident]) else None
      ensures item.Some? ==> ident in abs.cache && Now().ItemIs(item.value, ident, false, abs.cache[ident])
      ensures item.None? ==> ident !in abs.cache
    {
      hide AddedKept, Numbered, Linked;
      LinkedKeys(Now(), abs);
      if ident in cache {
        return Some(cache[ident]);
      }
      if codec.key(ident) !in dict {
        return None;
      }
      Load(ident);
      LinkedKeys(Now(), abs);
      item := Some(cache[ident]);
    }

    /** Write back the data of a cached item. */
    method SetData(ident: K, x: Item<K, V>)
      requires Good() && ident in cache && ident !in abs.pending
      requires x.ident == ident && !x.orphan && x.pos == items[cache[ident]].pos
      modifies this`items, this`abs
      ensures Good() && items == old(items)[cache[ident] := x]
      ensures abs == old(abs).(cache := old(abs).cache[ident := x.Record()])
    {
      hide AddedKept, Numbered;
      ChangedLinked(Now(), abs, ident, x);
      AddedFrame(added, items, cache[ident], x);
      NumberedFrame(items, nextRef, cache[ident], x);
      items := items[cache[ident] := x];
      abs := abs.(cache := abs.cache[ident := x.Record()]);
    }

    method QueueModified(item: Ref)
      requires item in items
      modifies this`modifiedQueue, this`modifiedMap
      ensures Now() == Queued(old(Now()), item)
    {
      modifiedQueue := modifiedQueue + [items[item].ident];
      modifiedMap := modifiedMap[items[item].ident := item];
    }

    method QueueCached(ident: K)
      requires Good() && ident in cache && ident !in abs.pending
      modifies this`modifiedQueue, this`modifiedMap, this`abs
      ensures Good()
      ensures abs == old(abs).(queue := old(abs).queue + [ident], waiting := old(abs).waiting + {ident})
    {
      QueuedLinked(Now(), abs, ident);
      QueueModified(cache[ident]);
      abs := abs.(queue := abs.queue + [ident], waiting := abs.waiting + {ident});
    }

    /** Move a managed item to the front of the LRU list. */
    method Requeue(item: Ref)
      requires Good() && Distinct(abs.lru) && item in items
      requires !items[item].orphan ==> items[item].ident in cache && cache[items[item].ident] == item
      requires !items[item].orphan ==> items[item].ident in abs.lru && items[item].ident !in abs.pending
      modifies this`items, this`evictorList, this`nextNode, this`abs
      ensures Good()
      ensures abs == if old(items)[item].orphan then old(abs) else
                old(abs).(lru := [old(items)[item].ident] + Without(old(abs).lru, old(items)[item].ident))
      ensures item in items && items[item].servant == old(items)[item].servant
      ensures items[item].ident == old(items)[item].ident
    {
      hide AddedKept, Numbered, Linked;
      if items[item].orphan {
        return;
      }
      ghost var own := PositionIsOwnNode(Now(), abs, items[item].ident);
      assert evictorList[own] == items[item].pos && items[item].pos.ident == items[item].ident;
      var a: nat :| a < |evictorList| && evictorList[a] == items[item].pos;
      Refront(item, a);
    }

    /** Erase the node at index a, the item's own, and push a new one to the front. */
    method Refront(item: Ref, a: nat)
      requires Good() && Distinct(abs.lru) && item in items && !items[item].orphan
      requires items[item].ident in cache && cache[items[item].ident] == item && items[item].ident !in abs.pending
      requires a < |evictorList| && evictorList[a] == items[item].pos && evictorList[a].ident == items[item].ident
      modifies this`items, this`evictorList, this`nextNode, this`abs
      ensures Good() && item in items
      ensures abs == old(abs).(lru := [items[item].ident] + Without(old(abs).lru, items[item].ident))
      ensures items[item].servant == old(items)[item].servant && items[item].ident == old(items)[item].ident
    {
      hide AddedKept, Numbered, Linked, Distinct, Without;
      var ident := items[item].ident;
      var node := Node(nextNode, ident);
      FrontedLinked(Now(), abs, ident, a, node);
      AddedFrame(added, items, item, items[item].(pos := node));
      NumberedFrame(items, nextRef, item, items[item].(pos := node));
      evictorList := [node] + (evictorList[..a] + evictorList[a + 1..]);
      items := items[item := items[item].(pos := node)];
      nextNode := nextNode + 1;
      abs := abs.(lru := [ident] + Without(abs.lru, ident));
      assert Now() == Fronted(old(Now()), item, a, node);
    }

    /** Write back the data of a cached item, queue it if asked to, and move it to the front. */
    method Put(ident: K, x: Item<K, V>, queued: bool)
      requires Good() && ident in cache && ident !in abs.pending && Distinct(abs.lru) && ident in abs.lru
      requires x.ident == ident && !x.orphan && x.pos == items[cache[ident]].pos
      modifies this`items, this`modifiedQueue, this`modifiedMap, this`evictorList, this`nextNode, this`abs
      ensures Good() && abs == old(abs).Put(ident, x.Record(), queued)
      ensures cache[ident] in items && items[cache[ident]].servant == x.servant && items[cache[ident]].ident == ident
    {
      hide AddedKept, Numbered, Linked, Distinct, Without;
      SetData(ident, x);
      if queued {
        QueueCached(ident);
      }
      Requeue(cache[ident]);
    }

    /** Queue a new item that neither the cache nor the store knows. */
    method AddOrphan(obj: Servant<V>, ident: K) returns (item: Ref)
      requires Good() && ident !in cache && abs.waiting <= abs.cache.Keys
      modifies this`items, this`nextRef, this`modifiedQueue, this`modifiedMap, this`abs, this`added
      ensures Good() && item !in old(items) && item in items && items[item].ident == ident
      ensures items[item].servant == Some(obj) && items[item].orphan && added == old(added)[item := items[item]]
      ensures ident in modifiedMap && modifiedMap[ident] == item
      ensures abs == old(abs).(queue := old(abs).queue + [ident],
                pending := old(abs).pending[ident := Rec(Created, Some(obj.content), false, 0, obj.handles)])
    {
      hide AddedKept, Numbered, Linked;
      item := nextRef;
      var x := Item(ident, Some(obj), Created, false, true, Node(0, ident), 0);
      NumberedNext(items, item, x);
      FreshLinked(Now(), abs, item, x);
      AddedSet(added, items, item, x);
      added := added[item := x];
      items := items[item := x];
      nextRef := nextRef + 1;
      QueueModified(item);
      abs := abs.(queue := abs.queue + [ident], pending := abs.pending[ident := x.Record()]);
    }

    // ----- the calls

    /** Host an object under an identity, whatever was there before. */
    method Add(obj: Servant<V>, ident: K) returns (item: Ref)
      requires Valid()
      modifies this
      ensures owed == old(owed) - {ident} && item in items && items[item].ident == ident
      ensures items[item].servant == Some(obj)
      ensures ident in old(abs).cache || old(abs).Stored(ident) ==>
                added == old(added) && ident in cache && cache[ident] == item
      ensures ident !in old(abs).cache && !old(abs).Stored(ident) ==>
                added == old(added)[item := items[item]] && ident in modifiedMap && modifiedMap[ident] == item
      ensures Valid() && batchSize == old(batchSize) && abs == old(abs).Add(ident, obj.content, obj.handles)
      ensures forall j: K :: abs.Lookup(j) == if j == ident then Some(obj.content) else old(abs).Lookup(j)
    {
      hide AddedKept, Numbered, Linked, EvState.Inv, EvState.Lookup, Distinct, OnlyOwed,
           EvState.Add, EvState.Pin;
      AddOwes(abs, owed, ident, obj.content, obj.handles);
      owed := owed - {ident};
      AddIsUpdate(abs, ident, obj.content, obj.handles);
      AddPinned(abs, ident, obj.content, obj.handles);
      HostedFacts(abs, ident);
      PinKeeps(abs, ident);
      var pinned := Pin(ident);
      HostedFacts(abs, ident);
      if pinned.None? {
        item := AddOrphan(obj, ident);
        return;
      }
      item := pinned.value;
      AddHosted(obj, ident);
    }

    /** Give a cached item its new object, whatever its state. */
    method AddHosted(obj: Servant<V>, ident: K)
      requires Good() && ident in cache && ident !in abs.pending && Distinct(abs.lru) && ident in abs.lru
      requires Now().ItemIs(cache[ident], ident, false, abs.cache[ident])
      modifies this`items, this`modifiedQueue, this`modifiedMap, this`evictorList, this`nextNode, this`abs
      ensures Good() && ident in old(abs).cache && abs == old(abs).Add(ident, obj.content, obj.handles)
      ensures cache == old(cache) && ident in cache && cache[ident] in items
      ensures items[cache[ident]].servant == Some(obj) && items[cache[ident]].ident == ident
    {
      hide AddedKept, Numbered, Linked, Distinct, EvState.Put;
      LinkedKeys(Now(), abs);
      var x := items[cache[ident]].(servant := Some(obj));
      match x.status {
        case Destroyed =>
          // no need to queue it: a destroyed item is on the queue already
          Put(ident, x.(status := Modified), false);
        case Dead =>
          Put(ident, x.(status := Created), true);
        case _ =>
          Put(ident, x.(status := Modified), true);
      }
    }

    /** Take an object out.  The thrown "404" of the original is never reached: a pinned
        item with a servant is in one of the first three states. */
    method Remove(ident: K) returns (servant: Option<V>)
      requires Valid()
      modifies this
      ensures owed == old(owed) - {ident}
      ensures Valid() && batchSize == old(batchSize) && added == old(added) && abs == old(abs).Remove(ident)
      ensures servant == if ident in old(abs).pending then None else old(abs).Lookup(ident)
      ensures forall j: K :: abs.Lookup(j) ==
                (if j == ident && ident !in old(abs).pending then None else old(abs).Lookup(j))
    {
      hide AddedKept, Numbered, Linked, EvState.Inv, EvState.Lookup, Distinct, OnlyOwed;
      RemoveOwes(abs, owed, ident);
      owed := owed - {ident};
      RemoveIsDelete(abs, ident);
      LocateIsLookup(abs, ident);
      HostedFacts(abs, ident);
      PinKeeps(abs, ident);
      var pinned := Pin(ident);
      HostedFacts(abs, ident);
      if pinned.None? || items[pinned.value].servant.None? {
        return None;
      }
      servant := Some(items[pinned.value].servant.value.content);
      RemoveHosted(ident);
    }

    /** Take the object of a cached item out, whatever its state. */
    method RemoveHosted(ident: K)
      requires Good() && ident in cache && ident !in abs.pending && Distinct(abs.lru) && ident in abs.lru
      requires Now().ItemIs(cache[ident], ident, false, abs.cache[ident]) && abs.CachedOk(ident, abs.cache[ident])
      requires items[cache[ident]].servant.Some?
      modifies this`items, this`modifiedQueue, this`modifiedMap, this`evictorList, this`nextNode, this`abs
      ensures Good() && ident in old(abs).cache && abs == old(abs).Remove(ident)
    {
      hide AddedKept, Numbered, Linked, Distinct, EvState.Put;
      LinkedKeys(Now(), abs);
      var x := items[cache[ident]];
      match x.status {
        case Clean =>
          Put(ident, x.(status := Destroyed, servant := None), true);
        case Created =>
          Put(ident, x.(status := Dead, servant := None), false);
        case Modified =>
          // not necessary to queue it: a modified item is on the queue already
          Put(ident, x.(status := Destroyed, servant := None), false);
        case _ =>
          assert false;
      }
    }

    method Locate(ident: K) returns (servant: Option<V>)
      requires Valid()
      modifies this
      ensures owed == old(owed)
      ensures Valid() && batchSize == old(batchSize) && added == old(added) && abs == old(abs).Locate(ident)
      ensures servant == if ident in old(abs).pending then None else old(abs).Lookup(ident)
      ensures forall j: K :: abs.Lookup(j) == old(abs).Lookup(j)
    {
      hide AddedKept, Numbered, Linked, EvState.Inv, EvState.Lookup, Distinct, OnlyOwed;
      LocateOwes(abs, owed, ident);
      LocateIsLookup(abs, ident);
      HostedFacts(abs, ident);
      PinKeeps(abs, ident);
      var pinned := Pin(ident);
      HostedFacts(abs, ident);
      if pinned.None? || items[pinned.value].servant.None? {
        return None;
      }
      // a pinned item with a servant is neither destroyed nor dead
      assert items[pinned.value].status !in {Destroyed, Dead};
      servant := Some(items[pinned.value].servant.value.content);
      Put(ident, items[pinned.value], false);
    }

    method SetDirty(ident: K, completed: bool)
      requires Valid()
      modifies this
      ensures owed == old(owed) - {ident}
      ensures Valid() && batchSize == old(batchSize) && added == old(added)
      ensures abs == old(abs).SetDirty(ident, completed)
      ensures forall j: K :: abs.Lookup(j) == old(abs).Lookup(j)
    {
      hide AddedKept, Numbered, Linked, EvState.Inv, EvState.Lookup, Distinct, OnlyOwed;
      SetDirtyOwes(abs, owed, ident, completed);
      owed := owed - {ident};
      SetDirtyKeeps(abs, ident, completed);
      HostedFacts(abs, ident);
      PinKeeps(abs, ident);
      var pinned := Pin(ident);
      HostedFacts(abs, ident);
      if pinned.None? || items[pinned.value].servant.None? {
        return;
      }
      if items[pinned.value].status == Clean {
        Put(ident, items[pinned.value].(status := Modified, completed := completed), true);
      }
    }

    // ----- poll, stage by stage

    /** Take the first entry off the modified queue, and its item off the modified map. */
    method PopFirst() returns (item: Option<Ref>, ghost ident: K)
      requires Good() && modifiedQueue != []
      modifies this`modifiedQueue, this`modifiedMap, this`abs
      ensures Good() && ident == old(modifiedQueue)[0] && modifiedQueue == old(modifiedQueue)[1..]
      ensures modifiedMap == old(modifiedMap) - {ident}
      ensures abs == old(abs).(queue := modifiedQueue, waiting := old(abs).waiting - {ident},
                               pending := old(abs).pending - {ident})
      ensures item == if ident in old(modifiedMap) then Some(old(modifiedMap)[ident]) else None
    {
      hide AddedKept, Numbered, Linked;
      var first := modifiedQueue[0];
      ident := first;
      PoppedLinked(Now(), abs, first, modifiedQueue[1..]);
      modifiedQueue := modifiedQueue[1..];
      abs := abs.(queue := modifiedQueue, waiting := abs.waiting - {first}, pending := abs.pending - {first});
      if first !in modifiedMap {
        assert modifiedMap == modifiedMap - {first};
        return None, first;
      }
      item := Some(modifiedMap[first]);
      modifiedMap := modifiedMap - {first};
    }

    /** Take up to max items (all, if max is 0) off the modified queue. */
    method PopModified(max: nat) returns (popped: seq<Ref>, ghost ids: seq<K>, ghost p: nat)
      requires Good()
      requires forall k :: k in abs.waiting || k in abs.pending ==> k in abs.queue
      modifies this`modifiedQueue, this`modifiedMap, this`abs
      ensures Good() && abs == Popped(old(abs), Elems(ids), modifiedQueue)
      ensures Refs(popped, ids, old(modifiedMap)) && forall k :: k in ids ==> old(abs).Tracked(k)
      ensures forall k :: k in abs.waiting || k in abs.pending ==> k in abs.queue
      ensures p <= |old(modifiedQueue)| && modifiedQueue == old(modifiedQueue)[p..]
      ensures forall k :: k in ids <==> k in old(modifiedQueue)[..p] && old(abs).Tracked(k)
      ensures InOrder(ids, old(modifiedQueue))
      ensures max == 0 || |popped| < max ==> modifiedQueue == []
      ensures max > 0 ==> |popped| <= max
    {
      hide AddedKept, Numbered, Linked, Popped, Refs, InOrder, Popping, Elems;
      LinkedKeys(Now(), abs);
      PoppingStart(abs, modifiedMap);
      popped, ids, p := [], [], 0;
      var c := 0;
      ghost var queue := modifiedQueue;
      while modifiedQueue != [] && (max == 0 || c < max)
        invariant Good() && p <= |queue| && modifiedQueue == queue[p..] && c == |popped|
        invariant Popping(old(abs), abs, queue, old(modifiedMap), modifiedMap, popped, ids, p)
        invariant max > 0 ==> c <= max
        invariant forall k :: k in abs.waiting || k in abs.pending ==> k in modifiedQueue
        decreases |modifiedQueue|
      {
        PoppingStep(old(abs), abs, queue, old(modifiedMap), modifiedMap, popped, ids, p);
        assert modifiedQueue == [queue[p]] + queue[p + 1..];
        var item, first := PopFirst();
        if item.Some? {
          popped, ids := popped + [item.value], ids + [first];
          c := c + 1;
        }
        p := p + 1;
      }
      PoppingEnds(old(abs), abs, queue, old(modifiedMap), modifiedMap, popped, ids, p);
    }

    /** Stream the record that an item's state asks for, unless it is held back. */
    method StreamRecord(item: Ref, ghost k: K, ghost s0: EvState<K, V>, ghost ks: set<K>) returns (fate: Fate)
      requires item in items && items[item].ident == k && k in ks && InBatch(s0, ks) && WithServants(s0, ks)
      requires items[item].Record() == s0.TrackedRec(k) && codec == s0.codec && saveCompletedOnly == s0.completedOnly
      modifies this`streamedList
      ensures fate == FateOf(s0, k)
      ensures streamedList == if Streams(s0, k) then old(streamedList) + [RecordFor(s0, k)] else old(streamedList)
    {
      hide InBatch, WithServants, Streams, RecordFor, FateOf;
      StreamedAs(s0, ks, k);
      var x := items[item];
      match x.status {
        case Created | Modified =>
          if saveCompletedOnly && !x.completed {
            fate := ToHold;
          } else {
            streamedList := streamedList
              + [StreamedObject(codec.key(x.ident), x.status, codec.marshal(x.ident, x.servant.value.content))];
            fate := ToFlush;
          }
        case Destroyed =>
          streamedList := streamedList + [StreamedObject(codec.key(x.ident), x.status, [])];
          fate := ToBury;
        case Dead =>
          fate := ToBury;
        case Clean =>
          fate := Idle;
      }
    }

    /** Stream one item of the batch, unless it is held back, and say where it goes; a
        destroyed one becomes dead. */
    method StreamItem(item: Ref, ghost k: K, ghost s0: EvState<K, V>, ghost done: set<K>,
                      ghost flight: map<K, Ref>, ghost ks: set<K>)
        returns (fate: Fate)
      requires Good() && InFlight(Now(), s0, flight, ks) && k in ks && flight[k] == item
      requires InBatch(s0, ks) && WithServants(s0, ks) && k !in done && k !in abs.pending
      requires abs.cache == Buried(s0.cache, done) && abs.codec == s0.codec && abs.completedOnly == s0.completedOnly
      modifies this`items, this`streamedList, this`abs
      ensures Good() && abs == old(abs).(cache := Buried(s0.cache, done + {k}))
      ensures fate == FateOf(s0, k)
      ensures streamedList == if Streams(s0, k) then old(streamedList) + [RecordFor(s0, k)] else old(streamedList)
      ensures InFlight(Now(), s0, flight, ks)
    {
      hide AddedKept, Numbered, Linked, Buried, InFlight, InBatch, WithServants, Streams, RecordFor, FateOf;
      LinkedKeys(Now(), abs);
      StreamedAs(s0, ks, k);
      FlightAt(Now(), s0, flight, ks, k);
      BuriedStep(s0.cache, done, k);
      if k in s0.cache {
        BuriedAt(s0.cache, done, k);
      }
      fate := StreamRecord(item, k, s0, ks);
      if items[item].status == Destroyed {
        StatusFlight(Now(), s0, flight, ks, item, Dead);
        SetData(items[item].ident, items[item].(status := Dead));
      }
    }

    /** Stream the popped items in order, sorting them into poll's local queues. */
    method StreamBatch(popped: seq<Ref>, ghost ids: seq<K>, ghost s0: EvState<K, V>, ghost flight: map<K, Ref>)
        returns (dead: seq<Ref>, flush: seq<Ref>, held: seq<Ref>,
                 ghost deadIds: seq<K>, ghost flushIds: seq<K>, ghost heldIds: seq<K>)
      requires Good() && s0.codec.Sound() && Refs(popped, ids, flight)
      requires InBatch(s0, Elems(ids)) && WithServants(s0, Elems(ids))
      requires InFlight(Now(), s0, flight, Elems(ids)) && forall k :: k in ids ==> k !in abs.pending
      requires abs.cache == s0.cache && abs.codec == s0.codec && abs.completedOnly == s0.completedOnly
      requires streamedList == []
      modifies this`items, this`streamedList, this`abs
      ensures Good() && abs == old(abs).(cache := Buried(s0.cache, Elems(ids)))
      ensures InFlight(Now(), s0, flight, Elems(ids))
      ensures StreamedFor(streamedList, s0, Elems(ids)) && |streamedList| <= |popped|
      ensures Sorted(dead, deadIds, flight, s0, Elems(ids), ToBury)
      ensures Sorted(flush, flushIds, flight, s0, Elems(ids), ToFlush)
      ensures Sorted(held, heldIds, flight, s0, Elems(ids), ToHold)
    {
      hide AddedKept, Numbered, Linked, Buried, StreamedFor, Sorted, FateOf, Streams, RecordFor, InFlight;
      dead, flush, held, deadIds, flushIds, heldIds := [], [], [], [], [], [];
      NothingYet(s0, flight);
      assert Elems(ids[..0]) == {};
      var j := 0;
      while j < |popped|
        invariant 0 <= j <= |popped|
        invariant Good() && abs == old(abs).(cache := Buried(s0.cache, Elems(ids[..j])))
        invariant InFlight(Now(), s0, flight, Elems(ids))
        invariant StreamedFor(streamedList, s0, Elems(ids[..j])) && |streamedList| <= j
        invariant Sorted(dead, deadIds, flight, s0, Elems(ids[..j]), ToBury)
        invariant Sorted(flush, flushIds, flight, s0, Elems(ids[..j]), ToFlush)
        invariant Sorted(held, heldIds, flight, s0, Elems(ids[..j]), ToHold)
      {
        ghost var k, done := ids[j], Elems(ids[..j]);
        assert ids[..j + 1] == ids[..j] + [k];
        assert Elems(ids[..j + 1]) == done + {k};
        SortedStep(dead, deadIds, flight, s0, done, ToBury, k);
        SortedStep(flush, flushIds, flight, s0, done, ToFlush, k);
        SortedStep(held, heldIds, flight, s0, done, ToHold, k);
        StreamedStep(streamedList, s0, done, k);
        var fate := StreamItem(popped[j], k, s0, done, flight, Elems(ids));
        match fate {
          case ToBury => dead, deadIds := dead + [popped[j]], deadIds + [k];
          case ToFlush => flush, flushIds := flush + [popped[j]], flushIds + [k];
          case ToHold => held, heldIds := held + [popped[j]], heldIds + [k];
          case Idle =>
        }
        j := j + 1;
      }
      assert ids[..j] == ids;
    }

    /** Put a held-back item on the modified queue again. */
    method PutBackItem(item: Ref, ghost k: K, ghost s0: EvState<K, V>, ghost ks: set<K>, ghost s: EvState<K, V>)
      requires Good() && FlightOk(Now(), s0, item, k) && abs == PutBack(s, s0, ks, modifiedQueue)
      requires k !in abs.pending && abs.waiting <= abs.cache.Keys && abs.cache.Keys == s0.cache.Keys
      modifies this`modifiedQueue, this`modifiedMap, this`abs
      ensures Good() && abs == PutBack(s, s0, ks + {k}, modifiedQueue) && modifiedQueue == old(modifiedQueue) + [k]
    {
      hide AddedKept, Numbered, Linked, PutBack;
      PutBackStep(s, s0, ks, modifiedQueue, k);
      LinkedKeys(Now(), abs);
      if k in s0.cache {
        QueuedLinked(Now(), abs, k);
      } else {
        OrphanLinked(Now(), abs, item);
      }
      QueueModified(item);
      abs := PutBack(s, s0, ks + {k}, modifiedQueue);
    }

    method PutBackHeld(held: seq<Ref>, ghost ids: seq<K>, ghost s0: EvState<K, V>, ghost flight: map<K, Ref>)
      requires Good() && Refs(held, ids, flight) && InFlight(Now(), s0, flight, Elems(ids))
      requires forall k :: k in ids ==> k !in abs.pending
      requires abs.waiting <= abs.cache.Keys && abs.cache.Keys == s0.cache.Keys
      modifies this`modifiedQueue, this`modifiedMap, this`abs
      ensures Good() && abs == PutBack(old(abs), s0, Elems(ids), old(modifiedQueue) + ids)
      ensures modifiedQueue == old(modifiedQueue) + ids
    {
      hide AddedKept, Numbered, Linked, PutBack, InFlight, Distinct, Refs;
      var j := 0;
      RefsLength(held, ids, flight);
      LinkedKeys(Now(), abs);
      PutBackNone(abs, s0);
      ghost var c := Now();
      assert Elems(ids[..0]) == {};
      while j < |held|
        invariant 0 <= j <= |held|
        invariant Good() && abs == PutBack(old(abs), s0, Elems(ids[..j]), modifiedQueue)
        invariant modifiedQueue == old(modifiedQueue) + ids[..j]
        invariant InFlight(Now(), s0, flight, Elems(ids))
      {
        NextId(ids, j);
        PutBackRest(old(abs), s0, Elems(ids[..j]), modifiedQueue, ids[j]);
        FlightAt(Now(), s0, flight, Elems(ids), ids[j]);
        RefAt(held, ids, flight, j);
        PutBackItem(held[j], ids[j], s0, Elems(ids[..j]), old(abs));
        FlightFrame(c, Now(), s0, flight, Elems(ids), Elems(ids));
        j := j + 1;
      }
      assert ids[..j] == ids;
    }

    /** Save a batch of streamed records to the store, in order. */
    method SaveBatchToStore(batch: seq<StreamedObject>)
      requires Good()
      modifies this`dict, this`abs
      ensures Good() && dict == SaveAll(old(dict), batch) && abs == old(abs).(store := dict)
    {
      hide AddedKept, Numbered, Linked;
      var j := 0;
      var saved := dict;
      while j < |batch|
        invariant 0 <= j <= |batch|
        invariant saved == SaveAll(dict, batch[..j])
      {
        assert batch[..j + 1][..j] == batch[..j];
        match batch[j].status {
          case Created | Modified => saved := saved[batch[j].key := batch[j].data];
          case Destroyed => saved := saved - {batch[j].key};
          case _ =>
        }
        j := j + 1;
      }
      assert batch[..j] == batch;
      StoreLinked(Now(), abs, saved);
      dict := saved;
      abs := abs.(store := saved);
    }

    /** Take a cached item out of the cache and the list. */
    method Evict(item: Ref, ghost k: K)
      requires Good() && Distinct(abs.lru) && k in abs.lru && k !in abs.pending && k !in abs.waiting
      requires item in items && items[item].ident == k && k in cache && cache[k] == item && !items[item].orphan
      modifies this`items, this`cache, this`evictorList, this`abs
      ensures Good() && abs == old(abs).(cache := old(abs).cache - {k}, lru := Without(old(abs).lru, k))
      ensures exists a :: 0 <= a < |old(evictorList)| && Now() == Evicted(old(Now()), item, a)
    {
      hide AddedKept, Numbered, Linked, Distinct, Without;
      ghost var own := PositionIsOwnNode(Now(), abs, k);
      var a: nat :| a < |evictorList| && evictorList[a] == items[item].pos;
      EvictedLinked(Now(), abs, k, a);
      evictorList := evictorList[..a] + evictorList[a + 1..];
      cache := cache - {items[item].ident};
      AddedFrame(added, items, item, items[item].(orphan := true));
      NumberedFrame(items, nextRef, item, items[item].(orphan := true));
      items := items[item := items[item].(orphan := true)];
      abs := abs.(cache := abs.cache - {k}, lru := Without(abs.lru, k));
      assert Now() == Evicted(old(Now()), item, a);
    }

    /** How many references there are to a cached item, `queued` of them in poll's local queues. */
    function ItemUsage(item: Ref, queued: nat): nat
      requires item in items
      reads this
    {
      var x := items[item];
      x.handles + queued
      + (if x.ident in cache && cache[x.ident] == item then 1 else 0)
      + (if x.ident in modifiedMap && modifiedMap[x.ident] == item then 1 else 0)
    }

    /** How many references there are to its servant, the item's own included. */
    function ObjectUsage(item: Ref): nat
      requires item in items
      reads this
    {
      if items[item].servant.None? then 0 else items[item].servant.value.handles + 1
    }

    /** Drop one dead item of the batch, unless somebody refers to it. */
    method BuryItem(item: Ref, ghost k: K, ghost s: EvState<K, V>, ghost done: set<K>,
                    ghost s0: EvState<K, V>, ghost flight: map<K, Ref>, ghost ks: set<K>)
      requires Good() && abs == Dropped(s, Unreferenced(s.cache, done)) && Distinct(s.lru)
      requires k in s.cache && k in s.lru && s.cache[k].status == Dead && !s.Tracked(k) && k !in done
      requires InFlight(Now(), s0, flight, ks) && k in ks && k in s0.cache && flight[k] == item
      modifies this`items, this`cache, this`evictorList, this`abs
      ensures Good() && abs == Dropped(s, Unreferenced(s.cache, done + {k}))
      ensures InFlight(Now(), s0, flight, ks - {k})
    {
      hide AddedKept, Numbered, Linked, Distinct, Dropped;
      DroppedLists(s, Unreferenced(s.cache, done), k);
      DroppedStep(s, Unreferenced(s.cache, done), k);
      UnreferencedStep(s.cache, done, k);
      DroppedTracks(s, Unreferenced(s.cache, done));
      LinkedKeys(Now(), abs);
      assert FlightOk(Now(), s0, item, k);
      if items[item].orphan {
        return;
      }
      // expect one in the cache and another in the local queue
      if items[item].status != Dead || ItemUsage(item, 1) > 2 {
        return;
      }
      Evict(item, k);
      ghost var a :| 0 <= a < |old(evictorList)| && Now() == Evicted(old(Now()), item, a);
      EvictedFlight(old(Now()), s0, flight, ks, k, a);
    }

    method BuryDead(dead: seq<Ref>, ghost ids: seq<K>, ghost s0: EvState<K, V>, ghost flight: map<K, Ref>,
                    ghost ks: set<K>)
      requires Good() && Refs(dead, ids, flight) && InFlight(Now(), s0, flight, ks) && Distinct(abs.lru)
      requires forall k :: k in ids ==> k in abs.cache && k in abs.lru && abs.cache[k].status == Dead
                                        && !abs.Tracked(k) && k in ks && k in s0.cache
      modifies this`items, this`cache, this`evictorList, this`abs
      ensures Good() && abs == Dropped(old(abs), Unreferenced(old(abs).cache, Elems(ids)))
      ensures InFlight(Now(), s0, flight, ks - Elems(ids))
    {
      hide AddedKept, Numbered, Linked, Dropped, Unreferenced, InFlight;
      var j := 0;
      DroppedNone(abs);
      assert Elems(ids[..0]) == {} && ks - {} == ks;
      UnreferencedNone(abs.cache);
      while j < |dead|
        invariant 0 <= j <= |dead|
        invariant Good() && abs == Dropped(old(abs), Unreferenced(old(abs).cache, Elems(ids[..j])))
        invariant InFlight(Now(), s0, flight, ks - Elems(ids[..j]))
      {
        assert ids[..j + 1] == ids[..j] + [ids[j]];
        assert Elems(ids[..j + 1]) == Elems(ids[..j]) + {ids[j]};
        assert (ks - Elems(ids[..j])) - {ids[j]} == ks - Elems(ids[..j + 1]);
        BuryItem(dead[j], ids[j], old(abs), Elems(ids[..j]), s0, flight, ks - Elems(ids[..j]));
        j := j + 1;
      }
      assert ids[..j] == ids;
    }

    /** The saved items of the batch are clean; orphans are skipped. */
    method MarkClean(flush: seq<Ref>, ghost ids: seq<K>, ghost s0: EvState<K, V>, ghost flight: map<K, Ref>,
                     ghost ks: set<K>)
      requires Good() && Refs(flush, ids, flight) && InFlight(Now(), s0, flight, ks) && Elems(ids) <= ks
      requires forall k :: k in ids ==> k !in abs.pending && (k in abs.cache ==> k in s0.cache)
      modifies this`items, this`abs
      ensures Good() && abs == old(abs).(cache := Cleaned(old(abs).cache, Elems(ids)))
    {
      hide AddedKept, Numbered, Linked, Cleaned, InFlight;
      var j := 0;
      assert Elems(ids[..0]) == {};
      CleanedNone(abs.cache);
      while j < |flush|
        invariant 0 <= j <= |flush|
        invariant Good() && abs == old(abs).(cache := Cleaned(old(abs).cache, Elems(ids[..j])))
        invariant InFlight(Now(), s0, flight, ks)
      {
        assert ids[..j + 1] == ids[..j] + [ids[j]];
        assert Elems(ids[..j + 1]) == Elems(ids[..j]) + {ids[j]};
        MarkItem(flush[j], ids[j], old(abs), Elems(ids[..j]), s0, flight, ks);
        j := j + 1;
      }
      assert ids[..j] == ids;
    }

    method MarkItem(item: Ref, ghost k: K, ghost s: EvState<K, V>, ghost done: set<K>,
                    ghost s0: EvState<K, V>, ghost flight: map<K, Ref>, ghost ks: set<K>)
      requires Good() && abs == s.(cache := Cleaned(s.cache, done)) && k !in done && k !in s.pending
      requires InFlight(Now(), s0, flight, ks) && k in ks && flight[k] == item && (k in s.cache ==> k in s0.cache)
      modifies this`items, this`abs
      ensures Good() && abs == s.(cache := Cleaned(s.cache, done + {k}))
      ensures InFlight(Now(), s0, flight, ks)
    {
      hide AddedKept, Numbered, Linked, Cleaned;
      CleanedStep(s.cache, done, k);
      CleanedAt(s.cache, done, k);
      LinkedKeys(Now(), abs);
      assert FlightOk(Now(), s0, item, k);
      if !items[item].orphan {
        StatusFlight(Now(), s0, flight, ks, item, Clean);
        SetData(items[item].ident, items[item].(status := Clean));
      }
    }

    /** Evict from the old end of the LRU list until it fits or its oldest item is in use. */
    method EvictBySize() returns (ghost n: nat)
      requires Good() && Distinct(abs.lru) && forall k :: k in abs.lru ==> k in abs.cache && k !in abs.pending
      modifies this`items, this`cache, this`evictorList, this`abs
      ensures Good() && abs.CutFrom(old(abs), n)
    {
      hide AddedKept, Numbered, Linked, Distinct, Without, CutSoFar;
      n := |abs.lru|;
      CutStart(abs);
      ListLength(Now(), abs);
      while |evictorList| > evictorSize
        invariant Good() && n == |evictorList| && evictorSize == old(evictorSize)
        invariant CutSoFar(old(abs), abs, n)
        decreases |evictorList|
      {
        CutFacts(old(abs), abs, n);
        ghost var before := abs;
        var evicted := EvictOldest(old(abs), n);
        if !evicted {
          CutEnds(old(abs), abs, n);
          return;
        }
        CutMore(old(abs), before, abs, n);
        n := n - 1;
      }
      CutEnds(old(abs), abs, n);
    }

    method EvictOldest(ghost s: EvState<K, V>, ghost n: nat) returns (evicted: bool)
      requires Good() && evictorList != [] && Distinct(s.lru) && n == |evictorList| <= |s.lru|
      requires abs == s.(lru := s.lru[..n], cache := s.cache - Elems(s.lru[n..]))
      requires forall k :: k in s.lru ==> k in s.cache && k !in s.pending
      modifies this`items, this`cache, this`evictorList, this`abs
      ensures Good() && evicted == s.Evictable(s.lru[n - 1])
      ensures evicted ==> |evictorList| == n - 1
      ensures evicted ==> abs == s.(lru := s.lru[..n - 1], cache := s.cache - Elems(s.lru[n - 1..]))
      ensures !evicted ==> abs == old(abs) && evictorList == old(evictorList)
    {
      hide AddedKept, Numbered, Linked, Distinct, Without;
      LinkedKeys(Now(), abs);
      OldestListed(Now(), abs);
      SplitDistinct(s.lru, n);
      CutStep(s, abs, n);
      var ident := evictorList[|evictorList| - 1].ident;
      // the identity is cached, so the two repair branches of the original are dead
      assert ident == s.lru[n - 1] && ident in cache;
      var item := cache[ident];
      if ItemUsage(item, 0) > 1 || ObjectUsage(item) > 1 {
        return false; // in use, and the others are newer
      }
      Evict(item, ident);
      evicted := true;
    }

    /** Pop a batch of modified items, or all of them, and stream it. */
    method PopAndStream(flushAll: bool, ghost flight: map<K, Ref>)
        returns (dead: seq<Ref>, flush: seq<Ref>, held: seq<Ref>, ghost batch: set<K>,
                 ghost deadIds: seq<K>, ghost flushIds: seq<K>, ghost heldIds: seq<K>, ghost p: nat)
      requires Valid() && flight == modifiedMap
      modifies this`items, this`modifiedQueue, this`modifiedMap, this`streamedList, this`abs
      ensures Good() && abs == Popped(old(abs), batch, modifiedQueue).(cache := Buried(old(abs).cache, batch))
      ensures InBatch(old(abs), batch) && WithServants(old(abs), batch) && old(abs).codec.Sound()
      ensures InFlight(Now(), old(abs), flight, batch)
      ensures StreamedFor(streamedList, old(abs), batch) && (flushAll || |streamedList| <= batchSize)
      ensures Sorted(dead, deadIds, flight, old(abs), batch, ToBury)
      ensures Sorted(flush, flushIds, flight, old(abs), batch, ToFlush)
      ensures Sorted(held, heldIds, flight, old(abs), batch, ToHold)
      ensures forall k :: old(abs).Tracked(k) && k !in batch ==> !flushAll && k in modifiedQueue
      ensures p <= |old(abs).queue| && modifiedQueue == old(abs).queue[p..] && batch == old(abs).Front(p)
      ensures flushAll ==> p == |old(abs).queue|
      ensures !flushAll ==> |batch| <= batchSize && (|batch| < batchSize ==> p == |old(abs).queue|)
    {
      hide AddedKept, Numbered, Linked, Buried, StreamedFor, InBatch, WithServants, InFlight, EvState.Inv,
           Distinct, Sorted, Refs, InOrder, EvState.Front;
      ghost var s0 := abs;
      FlushStart(Now(), s0);
      var popped, ids, popCount := PopModified(if flushAll then 0 else batchSize);
      p := popCount;
      batch := Elems(ids);
      RefsLength(popped, ids, flight);
      FrontIs(s0, ids, p);
      forall k | s0.Tracked(k) && k !in batch ensures !flushAll && k in modifiedQueue {
        assert k in abs.waiting || k in abs.pending;
      }
      BatchFacts(s0, batch);
      FlightFrame(old(Now()), Now(), s0, flight, flight.Keys, batch);
      dead, flush, held, deadIds, flushIds, heldIds := StreamBatch(popped, ids, s0, flight);
    }

    method ReturnHeld(held: seq<Ref>, ghost ids: seq<K>, ghost s0: EvState<K, V>, ghost flight: map<K, Ref>,
                      ghost batch: set<K>)
      requires Good() && s0.Inv() && abs == Popped(s0, batch, modifiedQueue).(cache := Buried(s0.cache, batch))
      requires InBatch(s0, batch) && Sorted(held, ids, flight, s0, batch, ToHold) && InFlight(Now(), s0, flight, batch)
      modifies this`modifiedQueue, this`modifiedMap, this`abs
      ensures Good() && abs == Streamed(s0, batch, Elems(ids), old(modifiedQueue), old(modifiedQueue) + ids)
      ensures modifiedQueue == old(modifiedQueue) + ids
      ensures InFlight(Now(), s0, flight, batch)
    {
      hide AddedKept, Numbered, Linked, Buried, InBatch, InFlight, EvState.Inv, FateOf, Sorted, Refs, Distinct;
      HostedLists(s0);
      SortedFacts(held, ids, flight, s0, batch, ToHold);
      FlightFrame(Now(), Now(), s0, flight, batch, Elems(ids));
      BuriedKeys(s0.cache, batch);
      ghost var c := Now();
      PutBackHeld(held, ids, s0, flight);
      FlightFrame(c, Now(), s0, flight, batch, batch);
    }

    /** Take the streamed records off the list and save them.  A full batch is never longer
        than the limit, so nothing stays behind. */
    method SaveStreamed(flushAll: bool)
      requires Good() && (flushAll || |streamedList| <= batchSize)
      modifies this`streamedList, this`dict, this`abs
      ensures Good() && streamedList == []
      ensures abs == old(abs).(store := SaveAll(old(abs).store, old(streamedList)))
    {
      hide AddedKept, Numbered, Linked;
      LinkedKeys(Now(), abs);
      var size := if flushAll || batchSize > |streamedList| then |streamedList| else batchSize;
      var toSave := streamedList[..size];
      assert toSave == streamedList && streamedList[size..] == [];
      streamedList := streamedList[size..];
      SaveBatchToStore(toSave);
    }

    /** Drop the dead items of a batch and mark the saved ones clean. */
    method Settle(dead: seq<Ref>, flush: seq<Ref>, ghost s0: EvState<K, V>, ghost flight: map<K, Ref>,
                  ghost batch: set<K>, ghost deadIds: seq<K>, ghost flushIds: seq<K>, ghost held: set<K>,
                  ghost queue: seq<K>, ghost queue': seq<K>)
      requires Good() && s0.Inv() && InBatch(s0, batch) && WithServants(s0, batch)
      requires abs == Streamed(s0, batch, held, queue, queue').(store := dict) && InFlight(Now(), s0, flight, batch)
      requires forall k :: k in held <==> k in batch && FateOf(s0, k) == ToHold
      requires Sorted(dead, deadIds, flight, s0, batch, ToBury) && Sorted(flush, flushIds, flight, s0, batch, ToFlush)
      modifies this`items, this`cache, this`evictorList, this`abs
      ensures Good()
      ensures var d := Dropped(old(abs), Unreferenced(old(abs).cache, Elems(deadIds)));
              abs == d.(cache := Cleaned(d.cache, Elems(flushIds)))
    {
      hide AddedKept, Numbered, Linked, Buried, Cleaned, Streamed, Dropped, Unreferenced, InBatch, WithServants,
           InFlight, EvState.Inv, FateOf, Distinct, Sorted, Refs;
      HostedLists(s0);
      StreamedFacts(s0, batch, held, queue, queue');
      SortedFacts(dead, deadIds, flight, s0, batch, ToBury);
      SortedFacts(flush, flushIds, flight, s0, batch, ToFlush);
      forall k | k in deadIds
        ensures k in s0.cache && k in abs.cache && k in abs.lru && abs.cache[k].status == Dead && !abs.Tracked(k)
      {
        DeadReady(s0, batch, held, queue, queue', k);
      }
      forall k | k in flushIds ensures k !in abs.pending {
        FlushReady(s0, batch, held, queue, queue', k);
      }
      DroppedTracks(abs, Unreferenced(abs.cache, Elems(deadIds)));
      BuryDead(dead, deadIds, s0, flight, batch);
      MarkClean(flush, flushIds, s0, flight, batch - Elems(deadIds));
    }

    /** Pop a batch of modified items, or all of them, stream it, and save the records. */
    method StreamAndSave(flushAll: bool, ghost flight: map<K, Ref>)
        returns (dead: seq<Ref>, flush: seq<Ref>, ghost batch: set<K>, ghost deadIds: seq<K>, ghost flushIds: seq<K>,
                 ghost heldIds: seq<K>, ghost records: seq<StreamedObject>, ghost p: nat)
      requires Valid() && flight == modifiedMap
      modifies this`items, this`modifiedQueue, this`modifiedMap, this`streamedList, this`dict, this`abs
      ensures Good() && streamedList == [] && p <= |old(abs).queue|
      ensures var queue := old(abs).queue[p..];
        && abs == Streamed(old(abs), batch, Elems(heldIds), queue, queue + heldIds).(store := dict)
        && modifiedQueue == queue + heldIds
        && (forall k :: old(abs).Tracked(k) && k !in batch ==> !flushAll && k in queue)
      ensures dict == SaveAll(old(abs).store, records)
      ensures InBatch(old(abs), batch) && WithServants(old(abs), batch) && StreamedFor(records, old(abs), batch)
      ensures InFlight(Now(), old(abs), flight, batch)
      ensures Sorted(dead, deadIds, flight, old(abs), batch, ToBury)
      ensures Sorted(flush, flushIds, flight, old(abs), batch, ToFlush)
      ensures forall k :: k in heldIds <==> k in batch && FateOf(old(abs), k) == ToHold
      ensures batch == old(abs).Front(p) && (flushAll ==> p == |old(abs).queue|)
      ensures !flushAll ==> |batch| <= batchSize && (|batch| < batchSize ==> p == |old(abs).queue|)
    {
      hide AddedKept, Numbered, Linked, Buried, Streamed, StreamedFor, InBatch, WithServants, InFlight, EvState.Inv,
           FateOf, Distinct, Sorted, Refs, Popped, Tables.ItemIs, EvState.Tracked, EvState.ListsOk, EvState.Front;
      ghost var s0 := abs;
      var heldRefs;
      dead, flush, heldRefs, batch, deadIds, flushIds, heldIds, p := PopAndStream(flushAll, flight);
      SortedFacts(heldRefs, heldIds, flight, s0, batch, ToHold);
      ghost var queue := modifiedQueue;
      records := streamedList;
      ReturnHeld(heldRefs, heldIds, s0, flight, batch);
      StreamedFacts(s0, batch, Elems(heldIds), queue, queue + heldIds);
      ghost var c := Now();
      LinkedKeys(c, abs);
      SaveStreamed(flushAll);
      FlightFrame(c, Now(), s0, flight, batch, batch);
      LinkedKeys(Now(), abs);
    }

    /** Pop a batch of modified items, or all of them, and save it: everything poll does
        but evicting by size. */
    method Flush(flushAll: bool) returns (ghost batch: set<K>)
      requires Valid()
      modifies this`items, this`cache, this`evictorList, this`modifiedQueue, this`modifiedMap,
               this`streamedList, this`dict, this`abs
      ensures Good() && streamedList == [] && abs.SavedFrom(old(abs), batch)
      ensures abs.TakenFrom(old(abs), batch, flushAll)
      ensures flushAll ==> forall k :: old(abs).Tracked(k) ==> k in batch
      ensures flushAll && !saveCompletedOnly ==> modifiedQueue == []
    {
      hide AddedKept, Numbered, Linked, Buried, Cleaned, Streamed, Dropped, Unreferenced, StreamedFor, Staged,
           InBatch, WithServants, InFlight, EvState.Inv, EvState.SavedFrom, FateOf, Distinct, Sorted, Refs, Popped,
           Tables.ItemIs, EvState.Tracked, EvState.ListsOk, EvState.TakenFrom, EvState.Front, SaveAll;
      ghost var s0, flight := abs, modifiedMap;
      ghost var deadIds, flushIds, heldIds, records, p;
      var dead, flush;
      dead, flush, batch, deadIds, flushIds, heldIds, records, p := StreamAndSave(flushAll, modifiedMap);
      if flushAll && !saveCompletedOnly {
        NoneHeld(s0, batch, heldIds);
      }
      SortedFacts(flush, flushIds, flight, s0, batch, ToFlush);
      SortedFacts(dead, deadIds, flight, s0, batch, ToBury);
      ghost var queue := s0.queue[p..];
      Settle(dead, flush, s0, flight, batch, deadIds, flushIds, Elems(heldIds), queue, queue + heldIds);
      FlushEnds(s0, abs, batch, queue, heldIds, Elems(deadIds), Elems(flushIds), records, flushAll, p);
    }

    /** Flush a batch of modified items, or all of them, and evict. */
    method Poll(flushAll: bool) returns (did: bool, ghost batch: set<K>, ghost saved: EvState<K, V>, ghost n: nat)
      requires Valid()
      modifies this
      ensures Valid() && batchSize == old(batchSize) && added == old(added) && owed == old(owed)
      ensures did <==> old(modifiedQueue) != []
      ensures !did ==> abs == old(abs)
      ensures did ==> saved.SavedFrom(old(abs), batch) && abs.CutFrom(saved, n)
      ensures did ==> saved.TakenFrom(old(abs), batch, flushAll)
      ensures did && flushAll ==> forall k :: old(abs).Tracked(k) ==> k in batch
      ensures forall j: K :: abs.Lookup(j) == old(abs).Lookup(j)
      ensures Step(old(abs), Polled(flushAll), abs)
      ensures flushAll && !saveCompletedOnly ==> modifiedQueue == [] && modifiedMap == map[] && abs.pending == map[]
      ensures flushAll && !saveCompletedOnly ==> forall j: K :: j !in owed ==> abs.StoreAgrees(j)
    {
      hide AddedKept, Numbered, Linked, EvState.Inv, EvState.Lookup, EvState.SavedFrom, EvState.CutFrom,
           Distinct, EvState.StoreAgrees, OnlyOwed, EvState.TakenFrom;
      batch, saved, n := {}, abs, 0;
      FlushStart(Now(), abs);
      SameSize(Now(), abs);
      // so the list is never rebuilt
      assert |evictorList| == |cache|;
      if modifiedQueue == [] && streamedList == [] {
        NothingWaits(Now(), abs);
        OwedAgrees(abs, owed);
        return false, batch, saved, n;
      }
      batch := Flush(flushAll);
      saved := abs;
      SaveKeeps(old(abs), saved, batch);
      FlushStart(Now(), saved);
      n := EvictBySize();
      CutKeeps(saved, abs, n);
      assert PolledTo(old(abs), abs, flushAll, batch, saved, n);
      StepOwed(old(abs), Polled(flushAll), abs, owed);
      did := true;
      if flushAll && !saveCompletedOnly {
        NothingWaits(Now(), abs);
        OwedAgrees(abs, owed);
      }
    }

    // ----- what clients do between the calls

    /** A client changes an object that is hosted under an identity and that it refers to. */
    method WriteHosted(ident: K, content: V)
      requires Valid() && Allowed(abs, Wrote(ident, content))
      modifies this`items, this`abs, this`owed, this`added
      ensures added.Keys == old(added).Keys
      ensures owed == OwedAfter(old(abs), Wrote(ident, content), old(owed))
      ensures Valid() && Step(old(abs), Wrote(ident, content), abs)
      ensures forall j: K :: abs.Lookup(j) == if j == ident then Some(content) else old(abs).Lookup(j)
    {
      hide AddedKept, Numbered, Linked, EvState.Inv, EvState.Lookup, OnlyOwed;
      var item := Hosted(ident);
      var servant := items[item].servant.value;
      Rewrite(ident, item, items[item].(servant := Some(servant.(content := content))));
      StepKeeps(old(abs), Wrote(ident, content), abs);
      StepOwed(old(abs), Wrote(ident, content), abs, owed);
      owed := OwedAfter(old(abs), Wrote(ident, content), owed);
    }

    /** Clients take or drop references to a hosted item and its servant, if it has one. */
    method ReferHosted(ident: K, objHandles: nat, itemHandles: nat)
      requires Valid() && Allowed(abs, Referred(ident, objHandles, itemHandles))
      modifies this`items, this`abs, this`added
      ensures added.Keys == old(added).Keys
      ensures Valid() && Step(old(abs), Referred(ident, objHandles, itemHandles), abs)
      ensures forall j: K :: abs.Lookup(j) == old(abs).Lookup(j)
    {
      hide AddedKept, Numbered, Linked, EvState.Inv, EvState.Lookup, OnlyOwed;
      var item := Hosted(ident);
      var servant := items[item].servant;
      if servant.Some? {
        servant := Some(servant.value.(handles := objHandles));
      }
      Rewrite(ident, item, items[item].(servant := servant, handles := itemHandles));
      StepKeeps(old(abs), Referred(ident, objHandles, itemHandles), abs);
      StepOwed(old(abs), Referred(ident, objHandles, itemHandles), abs, owed);
    }

    /** The item of a fresh add that neither the cache nor the modified map has any more. */
    ghost predicate Detached(item: Ref)
      reads this
    {
      item in added && item in items && items[item].servant.Some?
      && !(items[item].ident in modifiedMap && modifiedMap[items[item].ident] == item)
    }

    /** A client changes an object that it added and that poll has saved since.  Neither the
        object map nor the store takes any notice. */
    method WriteDetached(item: Ref, content: V)
      requires Valid() && Detached(item)
      modifies this`items, this`added
      ensures Valid() && Detached(item) && items[item].servant.value.content == content
      ensures items[item].ident == old(items)[item].ident && added.Keys == old(added).Keys
      ensures Step(abs, WroteDetached(items[item].ident, content), abs)
    {
      hide AddedKept, EvState.Inv, OnlyOwed, Linked;
      AddedAt(added, items, item);
      var x := items[item].(servant := Some(items[item].servant.value.(content := content)));
      DetachedLinked(Now(), abs, item, x);
      AddedSet(added, items, item, x);
      NumberedFrame(items, nextRef, item, x);
      items := items[item := x];
      added := added[item := x];
    }

    /** The item hosted under an identity: the cached one, or else the pending one. */
    method Hosted(ident: K) returns (item: Ref)
      requires Valid() && (ident in abs.cache || ident in abs.pending)
      ensures ident in abs.cache <==> ident in cache
      ensures item in items && items[item].Record() == abs.TrackedRec(ident) && items[item].ident == ident
      ensures ident in cache ==> item == cache[ident] && !items[item].orphan && ident !in abs.pending
      ensures ident !in cache ==> ident in modifiedMap && item == modifiedMap[ident] && items[item].orphan
    {
      HostedFacts(abs, ident);
      item := if ident in cache then cache[ident] else modifiedMap[ident];
    }

    method Rewrite(ident: K, item: Ref, x: Item<K, V>)
      requires Good() && item in items && x.ident == ident
      requires x.orphan == items[item].orphan && x.pos == items[item].pos
      requires ident in abs.cache <==> ident in cache
      requires ident in cache ==> item == cache[ident] && !items[item].orphan && ident !in abs.pending
      requires ident !in cache ==>
        ident in modifiedMap && item == modifiedMap[ident] && items[item].orphan && ident in abs.pending
      modifies this`items, this`abs, this`added
      ensures Good() && abs == Replaced(old(abs), ident, x.Record()) && added.Keys == old(added).Keys
    {
      hide AddedKept, Numbered, Linked;
      if ident in cache {
        ChangedLinked(Now(), abs, ident, x);
        AddedFrame(added, items, item, x);
      } else {
        ChangedPendingLinked(Now(), abs, ident, x);
        AddedRewrite(added, items, item, x);
        added := if item in added then added[item := x] else added;
      }
      NumberedFrame(items, nextRef, item, x);
      items := items[item := x];
      abs := Replaced(abs, ident, x.Record());
    }
  }

  /** A client adds an object afresh, has it polled, changes it, and looks it up: it finds
      what it added, not what it wrote. */
  method LosesWrite<K(!new), V(!new)>(e: Evictor<K, V>, obj: Servant<V>, ident: K, content: V)
      returns (found: Option<V>)
    requires e.Valid() && !e.saveCompletedOnly && ident !in e.abs.cache && !e.abs.Stored(ident)
    modifies e
    ensures e.Valid() && found == Some(obj.content) && e.abs.Lookup(ident) == found
  {
    hide Linked, AddedKept, Numbered, EvState.Inv, OnlyOwed, EvState.Lookup, EvState.StoreAgrees;
    CompletedOnlyStays(e.abs, ident, obj.content, obj.handles);
    var item := e.Add(obj, ident);
    var _, _, _, _ := e.Poll(true);
    AddedAt(e.added, e.items, item);
    assert e.Detached(item);
    e.WriteDetached(item, content);
    found := e.Locate(ident);
  }

  lemma CompletedOnlyStays<K(!new), V(!new)>(s: EvState<K, V>, i: K, v: V, h: nat)
    ensures s.Add(i, v, h).completedOnly == s.completedOnly
  {
  }

  /** With an empty queue nothing waits. */
  lemma NothingWaits<K(!new), V(!new)>(c: Tables<K, V>, s: EvState<K, V>)
    requires Linked(c, s) && s.Inv() && c.queue == []
    ensures c.modified == map[] && s.queue == [] && s.waiting == {} && s.pending == map[]
  {
    hide EvState.RecsOk, EvState.StoreOk, CacheLinked, ListLinked;
  }
}
