/**
 The evictor's state as a value, one record per identity, and what each public call
 makes of it.  The object map is read off such a state by `Lookup`; the lemmas say
 that every call acts on the object map as on a plain dictionary, and keeps `Inv`.
 */
module EvictorSpec {
  import opened Basics
  import opened EvictorTypes
  import opened Lists

  /** What the child class of an evictor supplies, and the store key of an identity. */
  datatype Codec<!K(!new), !V(!new)> = Codec(key: K -> string,
                                             marshal: (K, V) -> ByteStream,
                                             unmarshal: (K, ByteStream) -> V)
  {
    /** Store keys tell identities apart, and unmarshalling undoes marshalling. */
    ghost predicate Sound() {
      && (forall x: K, y: K :: key(x) == key(y) ==> x == y)
      && (forall i: K, v: V :: unmarshal(i, marshal(i, v)) == v)
    }
  }

  /** The store keys of identities whose categories have no '@' make a sound codec, with any
      marshalling that unmarshalling undoes. */
  lemma IdentCodecSound<V(!new)>(marshal: (Ident, V) -> ByteStream, unmarshal: (Ident, ByteStream) -> V)
    requires forall i: Ident, v: V :: unmarshal(i, marshal(i, v)) == v
    ensures Codec((i: Ident) => IdentToStr(i), marshal, unmarshal).Sound()
  {
    forall x: Ident, y: Ident | IdentToStr(x) == IdentToStr(y) ensures x == y {
      IdentToStrInjective(x, y);
    }
  }

  /** One hosted object.  `content` is None when the item has no servant. */
  datatype Rec<+V> = Rec(
    status: State, content: Option<V>, completed: bool,
    itemHandles: nat,  // client references to the item
    objHandles: nat)   // client references to the servant
  {
    predicate Live() { status in {Clean, Created, Modified} }

    predicate Dirty() { status in {Created, Modified, Destroyed} }
  }

  datatype EvState<!K(==,!new), !V(!new)> = EvState(
    codec: Codec<K, V>, evictorSize: nat, batchSize: nat, completedOnly: bool,
    cache: map<K, Rec<V>>,
    lru: seq<K>,            // the front is the most recently used
    queue: seq<K>,
    waiting: set<K>,        // cached items in the modified map
    pending: map<K, Rec<V>>, // the other items in the modified map
    store: Dict)
  {
    predicate Stored(i: K) {
      codec.key(i) in store
    }

    function Loaded(i: K): V
      requires Stored(i)
    {
      codec.unmarshal(i, store[codec.key(i)])
    }

    /** The object map: a cached item decides, else a pending add, else the store. */
    function Lookup(i: K): Option<V> {
      if i in cache then (if cache[i].Live() then cache[i].content else None)
      else if i in pending then pending[i].content
      else if Stored(i) then Some(Loaded(i))
      else None
    }

    ghost predicate InSync(i: K, r: Rec<V>) {
      r.content.Some? && Stored(i) && store[codec.key(i)] == codec.marshal(i, r.content.value)
    }

    /** A clean item whose object a client has changed and not reported yet. */
    ghost predicate Unreported(i: K) {
      i in cache && cache[i].status == Clean && !InSync(i, cache[i])
    }

    ghost predicate StoreAgrees(i: K) {
      && (Stored(i) <==> Lookup(i).Some?)
      && (Stored(i) ==> store[codec.key(i)] == codec.marshal(i, Lookup(i).value))
    }

    // ----- the invariant

    ghost predicate CachedOk(i: K, r: Rec<V>) {
      && (r.content.None? <==> r.status in {Destroyed, Dead})
      && (r.Dirty() ==> i in waiting)
      && (r.status == Clean ==> i !in waiting && (InSync(i, r) || r.objHandles > 0))
      && (r.status in {Created, Dead} ==> !Stored(i))
    }

    ghost predicate PendingOk(i: K, r: Rec<V>) {
      r.status == Created && r.content.Some? && i !in cache && !Stored(i)
    }

    ghost predicate StoreOk() {
      && codec.Sound()
      && (forall i: K :: Stored(i) ==> codec.marshal(i, Loaded(i)) == store[codec.key(i)])
    }

    /** The LRU list is the cache's identities without duplicates; whatever waits is queued. */
    ghost predicate ListsOk() {
      && Distinct(lru)
      && (forall i :: i in lru <==> i in cache)
      && waiting <= cache.Keys
      && (forall i :: i in waiting || i in pending ==> i in queue)
    }

    ghost predicate RecsOk() {
      && (forall i :: i in cache ==> CachedOk(i, cache[i]))
      && (forall i :: i in pending ==> PendingOk(i, pending[i]))
    }

    ghost predicate Inv() {
      StoreOk() && ListsOk() && RecsOk()
    }

    // ----- the calls

    /** pin: cache what is only in the store, at the front of the LRU list. */
    function Pin(i: K): EvState<K, V> {
      if i !in cache && Stored(i) then
        this.(cache := cache[i := Rec(Clean, Some(Loaded(i)), false, 0, 0)], lru := [i] + lru)
      else
        this
    }

    /** Replace a cached record, putting the item on the modified queue or not, and
        move it to the front of the LRU list. */
    function Put(i: K, r: Rec<V>, queued: bool): EvState<K, V> {
      this.(cache := cache[i := r],
            queue := if queued then queue + [i] else queue,
            waiting := if queued then waiting + {i} else waiting,
            lru := [i] + Without(lru, i))
    }

    function Add(i: K, v: V, objHandles: nat): EvState<K, V> {
      var s := Pin(i);
      if i !in s.cache then
        s.(queue := s.queue + [i], pending := s.pending[i := Rec(Created, Some(v), false, 0, objHandles)])
      else
        var r := s.cache[i].(content := Some(v), objHandles := objHandles);
        match r.status
        case Destroyed => s.Put(i, r.(status := Modified), false)
        case Dead => s.Put(i, r.(status := Created), true)
        case _ => s.Put(i, r.(status := Modified), true)
    }

    function Remove(i: K): EvState<K, V> {
      var s := Pin(i);
      if i !in s.cache then s
      else
        var r := s.cache[i].(content := None, objHandles := 0);
        match r.status
        case Clean => s.Put(i, r.(status := Destroyed), true)
        case Created => s.Put(i, r.(status := Dead), false)
        case Modified => s.Put(i, r.(status := Destroyed), false)
        case _ => s
    }

    function Locate(i: K): EvState<K, V> {
      var s := Pin(i);
      if i in s.cache && s.cache[i].Live() then s.Put(i, s.cache[i], false) else s
    }

    function SetDirty(i: K, completed: bool): EvState<K, V> {
      var s := Pin(i);
      if i in s.cache && s.cache[i].status == Clean then
        s.Put(i, s.cache[i].(status := Modified, completed := completed), true)
      else
        s
    }

    // ----- poll, for a popped batch

    predicate Tracked(i: K) {
      i in waiting || i in pending
    }

    function TrackedRec(i: K): Rec<V>
      requires i in cache || i in pending
    {
      if i in cache then cache[i] else pending[i]
    }

    /** Held back: the evictor saves completed objects only and this one is not. */
    predicate HeldBack(r: Rec<V>) {
      r.status in {Created, Modified} && completedOnly && !r.completed
    }

    predicate Saves(r: Rec<V>) {
      r.status in {Created, Modified} && !HeldBack(r)
    }

    function SavedRec(i: K, batch: set<K>): Rec<V>
      requires i in cache
    {
      var r := cache[i];
      if i in batch && Saves(r) then r.(status := Clean)
      else if i in batch && r.status == Destroyed then r.(status := Dead)
      else r
    }

    /** Dead items of the batch that nobody else refers to are dropped. */
    predicate Drops(i: K, batch: set<K>)
      requires i in cache
    {
      i in batch && cache[i].status in {Destroyed, Dead} && cache[i].itemHandles == 0
    }

    /** The tracked identities among the first p entries of the queue. */
    ghost function Front(p: nat): set<K>
      requires p <= |queue|
    {
      set k | k in queue[..p] && Tracked(k)
    }

    /** The first p entries of s's queue are taken off for a batch: enough for a full one, or
        all; what is held back is queued again. */
    ghost predicate Takes(s: EvState<K, V>, batch: set<K>, flushAll: bool, p: nat, held: seq<K>) {
      && p <= |s.queue| && batch == s.Front(p) && queue == s.queue[p..] + held
      && (forall k :: k in held <==> k in batch && (k in s.cache || k in s.pending) && s.HeldBack(s.TrackedRec(k)))
      && (flushAll ==> p == |s.queue|)
      && (!flushAll ==> |batch| <= s.batchSize && (|batch| < s.batchSize ==> p == |s.queue|))
    }

    ghost predicate TakenFrom(s: EvState<K, V>, batch: set<K>, flushAll: bool) {
      exists p: nat, held: seq<K> :: Takes(s, batch, flushAll, p, held)
    }

    /** This is what s becomes by saving the popped batch and dropping its dead items. */
    ghost predicate SavedFrom(s: EvState<K, V>, batch: set<K>) {
      && (forall i :: i in batch ==> s.Tracked(i) && (i in s.cache || i in s.pending))
      && codec == s.codec && evictorSize == s.evictorSize && completedOnly == s.completedOnly
      && batchSize == s.batchSize
      && cache.Keys == s.Kept(batch)
      && (forall i :: i in cache ==> cache[i] == s.SavedRec(i, batch))
      && lru == Minus(s.lru, s.cache.Keys - s.Kept(batch))
      && (forall i :: i in waiting <==> i in s.waiting && (i in batch ==> i in s.cache && s.HeldBack(s.cache[i])))
      && (forall i :: i in pending <==> i in s.pending && (i in batch ==> s.HeldBack(s.pending[i])))
      && (forall i :: i in pending ==> pending[i] == s.pending[i])
      && (forall i :: i in waiting || i in pending ==> i in queue)
      && (forall i: K :: SavedEntry(s, batch, i))
    }

    ghost predicate SavedEntry(s: EvState<K, V>, batch: set<K>, i: K)
      requires i in batch ==> i in s.cache || i in s.pending
    {
      if i in batch && s.Saves(s.TrackedRec(i)) then
        s.TrackedRec(i).content.Some? ==>
          Stored(i) && store[codec.key(i)] == codec.marshal(i, s.TrackedRec(i).content.value)
      else if i in batch && s.TrackedRec(i).status == Destroyed then
        !Stored(i)
      else
        Stored(i) == s.Stored(i) && (Stored(i) ==> store[codec.key(i)] == s.store[s.codec.key(i)])
    }

    /** The cached identities that saving the batch does not drop. */
    function Kept(batch: set<K>): set<K> {
      set i | i in cache && !Drops(i, batch)
    }

    /** Nobody but the cache refers to the item, and nobody but the item to its servant. */
    predicate Evictable(i: K)
      requires i in cache
    {
      cache[i].itemHandles == 0 && i !in waiting && (cache[i].content.Some? ==> cache[i].objHandles == 0)
    }

    /** This is what s becomes by evicting from the old end of its LRU list down to n
        entries: until the list fits, or its oldest entry is in use. */
    ghost predicate CutFrom(s: EvState<K, V>, n: nat) {
      && n <= |s.lru|
      && (forall k :: n <= k < |s.lru| ==> s.lru[k] in s.cache && s.Evictable(s.lru[k]))
      && (n < |s.lru| ==> n >= s.evictorSize)
      && (n > s.evictorSize ==> s.lru[n - 1] in s.cache && !s.Evictable(s.lru[n - 1]))
      && this == s.(lru := s.lru[..n], cache := s.cache - Elems(s.lru[n..]))
    }
  }

  /** Cutting one more entry off the old end. */
  lemma CutStep<K(!new), V(!new)>(s: EvState<K, V>, t: EvState<K, V>, n: nat)
    requires Distinct(s.lru) && 0 < n <= |s.lru|
    requires t == s.(lru := s.lru[..n], cache := s.cache - Elems(s.lru[n..]))
    ensures s.lru[n - 1] in s.cache ==> s.lru[n - 1] in t.cache && t.cache[s.lru[n - 1]] == s.cache[s.lru[n - 1]]
    ensures t.(lru := Without(t.lru, s.lru[n - 1]), cache := t.cache - {s.lru[n - 1]})
              == s.(lru := s.lru[..n - 1], cache := s.cache - Elems(s.lru[n - 1..]))
  {
    var k := s.lru[n - 1];
    assert s.lru[n - 1..] == [k] + s.lru[n..];
    assert s.lru[..n] == s.lru[..n - 1] + [k] + [];
    SplitDistinct(s.lru, n);
    DistinctMiddle(s.lru[..n - 1], k, []);
    WithoutMiddle(s.lru[..n - 1], k, []);
    assert s.lru[..n - 1] + [] == s.lru[..n - 1];
    assert Elems(s.lru[n - 1..]) == Elems(s.lru[n..]) + {k};
    assert t.cache - {k} == s.cache - Elems(s.lru[n - 1..]);
  }

  /** Cutting has come to n entries, and every one cut was in nobody's use. */
  ghost predicate CutSoFar<K(!new), V(!new)>(s: EvState<K, V>, t: EvState<K, V>, n: nat) {
    && n <= |s.lru| && t == s.(lru := s.lru[..n], cache := s.cache - Elems(s.lru[n..]))
    && (forall k :: n <= k < |s.lru| ==> s.lru[k] in s.cache && s.Evictable(s.lru[k]))
    && (n < |s.lru| ==> n >= s.evictorSize)
  }

  lemma CutStart<K(!new), V(!new)>(s: EvState<K, V>)
    ensures CutSoFar(s, s, |s.lru|)
  {
    assert s.lru[..|s.lru|] == s.lru && s.cache - Elems(s.lru[|s.lru|..]) == s.cache;
  }

  lemma CutFacts<K(!new), V(!new)>(s: EvState<K, V>, t: EvState<K, V>, n: nat)
    requires CutSoFar(s, t, n)
    ensures n <= |s.lru| && t == s.(lru := s.lru[..n], cache := s.cache - Elems(s.lru[n..]))
  {
  }

  lemma CutMore<K(!new), V(!new)>(s: EvState<K, V>, before: EvState<K, V>, t: EvState<K, V>, n: nat)
    requires CutSoFar(s, before, n) && n > s.evictorSize && s.lru[n - 1] in s.cache && s.Evictable(s.lru[n - 1])
    requires t == s.(lru := s.lru[..n - 1], cache := s.cache - Elems(s.lru[n - 1..]))
    ensures CutSoFar(s, t, n - 1)
  {
  }

  lemma CutEnds<K(!new), V(!new)>(s: EvState<K, V>, t: EvState<K, V>, n: nat)
    requires CutSoFar(s, t, n)
    requires n > s.evictorSize ==> s.lru[n - 1] in s.cache && !s.Evictable(s.lru[n - 1])
    ensures t.CutFrom(s, n)
  {
  }

  // ----- every call acts on the object map as on a dictionary, and keeps the invariant

  lemma HostedFacts<K(!new), V(!new)>(s: EvState<K, V>, i: K)
    requires s.Inv()
    ensures Distinct(s.lru) && s.waiting <= s.cache.Keys && (i in s.pending ==> !s.Stored(i) && i !in s.cache)
    ensures i in s.cache ==> i in s.lru && s.CachedOk(i, s.cache[i])
  {
    assert i in s.pending ==> s.PendingOk(i, s.pending[i]);
  }

  lemma HostedLists<K(!new), V(!new)>(s: EvState<K, V>)
    requires s.Inv()
    ensures s.waiting <= s.cache.Keys && Distinct(s.lru) && s.pending.Keys !! s.cache.Keys
  {
    forall k | k in s.pending ensures k !in s.cache {
      assert s.PendingOk(k, s.pending[k]);
    }
  }

  lemma PinnedState<K(!new), V(!new)>(s: EvState<K, V>, i: K)
    ensures s.Pin(i) == if i !in s.cache && s.Stored(i) then
                          s.(cache := s.cache[i := Rec(Clean, Some(s.Loaded(i)), false, 0, 0)], lru := [i] + s.lru)
                        else s
  {
  }

  lemma PinKeeps<K(!new), V(!new)>(s: EvState<K, V>, i: K)
    requires s.Inv()
    ensures s.Pin(i).Inv()
    ensures forall j: K :: s.Pin(i).Lookup(j) == s.Lookup(j)
    ensures i in s.Pin(i).cache || i in s.pending || s.Lookup(i) == None
  {
    forall j | j in s.Pin(i).cache ensures s.Pin(i).CachedOk(j, s.Pin(i).cache[j]) {
      if j in s.cache {
        assert s.CachedOk(j, s.cache[j]);
      }
    }
    forall j | j in s.pending ensures s.Pin(i).PendingOk(j, s.pending[j]) {
      assert s.PendingOk(j, s.pending[j]);
    }
  }

  /** Replacing one cached record by a sound one changes the object map there only. */
  lemma PutKeeps<K(!new), V(!new)>(s: EvState<K, V>, i: K, r: Rec<V>, queued: bool)
    requires s.Inv() && i in s.cache && s.Put(i, r, queued).CachedOk(i, r)
    ensures s.Put(i, r, queued).Inv()
    ensures forall j: K | j != i :: s.Put(i, r, queued).Lookup(j) == s.Lookup(j)
    ensures s.Put(i, r, queued).Lookup(i) == if r.Live() then r.content else None
  {
    var t := s.Put(i, r, queued);
    MinusDistinct(s.lru, {i});
    forall j | j in t.cache ensures t.CachedOk(j, t.cache[j]) {
      assert s.CachedOk(j, s.cache[j]);
    }
    forall j | j in t.pending ensures t.PendingOk(j, t.pending[j]) {
      assert s.PendingOk(j, s.pending[j]);
    }
  }

  lemma AddFreshKeeps<K(!new), V(!new)>(s: EvState<K, V>, i: K, v: V, h: nat)
    requires s.Inv() && i !in s.cache && !s.Stored(i)
    ensures s.Add(i, v, h).Inv()
    ensures forall j: K :: s.Add(i, v, h).Lookup(j) == if j == i then Some(v) else s.Lookup(j)
  {
    var t := s.Add(i, v, h);
    forall j | j in t.cache ensures t.CachedOk(j, t.cache[j]) {
      assert s.CachedOk(j, s.cache[j]);
    }
    forall j | j in t.pending ensures t.PendingOk(j, t.pending[j]) {
      if j != i {
        assert s.PendingOk(j, s.pending[j]);
      }
    }
  }

  lemma AddHostedKeeps<K(!new), V(!new)>(s: EvState<K, V>, i: K, v: V, h: nat)
    requires s.Inv() && i in s.cache
    ensures s.Add(i, v, h).Inv()
    ensures forall j: K :: s.Add(i, v, h).Lookup(j) == if j == i then Some(v) else s.Lookup(j)
  {
    assert s.CachedOk(i, s.cache[i]);
    var status := if s.cache[i].status == Dead then Created else Modified;
    PutKeeps(s, i, s.cache[i].(status := status, content := Some(v), objHandles := h), s.cache[i].status != Destroyed);
  }

  /** Adding is pinning and then adding. */
  lemma AddPinned<K(!new), V(!new)>(s: EvState<K, V>, i: K, v: V, h: nat)
    ensures var p := s.Pin(i);
      && p.Add(i, v, h) == s.Add(i, v, h)
      && (i in p.cache <==> i in s.cache || s.Stored(i))
      && (i !in p.cache ==>
            s.Add(i, v, h) == p.(queue := p.queue + [i], pending := p.pending[i := Rec(Created, Some(v), false, 0, h)]))
  {
  }

  lemma AddIsUpdate<K(!new), V(!new)>(s: EvState<K, V>, i: K, v: V, h: nat)
    requires s.Inv()
    ensures s.Add(i, v, h).Inv()
    ensures forall j: K :: s.Add(i, v, h).Lookup(j) == if j == i then Some(v) else s.Lookup(j)
    ensures s.Add(i, v, h).pending.Keys == s.pending.Keys + if i !in s.cache && !s.Stored(i) then {i} else {}
  {
    hide EvState.Inv, EvState.Lookup, Without;
    if i !in s.cache && !s.Stored(i) {
      AddFreshKeeps(s, i, v, h);
    } else {
      PinKeeps(s, i);
      AddHostedKeeps(s.Pin(i), i, v, h);
    }
  }

  lemma RemoveIsDelete<K(!new), V(!new)>(s: EvState<K, V>, i: K)
    requires s.Inv()
    ensures s.Remove(i).Inv() && s.Remove(i).pending == s.pending
    ensures forall j: K :: s.Remove(i).Lookup(j) == if j == i && i !in s.pending then None else s.Lookup(j)
  {
    hide EvState.Inv, EvState.Lookup, Without;
    PinKeeps(s, i);
    HostedFacts(s, i);
    var p := s.Pin(i);
    HostedFacts(p, i);
    if i in p.cache && p.cache[i].Live() {
      RemoveLiveKeeps(p, i);
    } else {
      NotLive(p, i);
    }
  }

  lemma NotLive<K(!new), V(!new)>(s: EvState<K, V>, i: K)
    ensures i in s.cache && !s.cache[i].Live() ==> s.Lookup(i) == None
  {
  }

  lemma RemoveLiveKeeps<K(!new), V(!new)>(p: EvState<K, V>, i: K)
    requires p.Inv() && i in p.cache && p.cache[i].Live()
    ensures p.Remove(i).Inv() && p.Remove(i).pending == p.pending
    ensures forall j: K :: p.Remove(i).Lookup(j) == if j == i then None else p.Lookup(j)
  {
    hide EvState.Inv, EvState.Lookup, Without;
    HostedFacts(p, i);
    var status := if p.cache[i].status == Created then Dead else Destroyed;
    PutKeeps(p, i, p.cache[i].(status := status, content := None, objHandles := 0), p.cache[i].status == Clean);
  }

  lemma LocateIsLookup<K(!new), V(!new)>(s: EvState<K, V>, i: K)
    requires s.Inv()
    ensures s.Locate(i).Inv() && s.Locate(i).pending == s.pending
    ensures forall j: K :: s.Locate(i).Lookup(j) == s.Lookup(j)
    ensures i !in s.pending ==> s.Lookup(i) == if i in s.Locate(i).cache then s.Locate(i).cache[i].content else None
  {
    PinKeeps(s, i);
    var p := s.Pin(i);
    if i in p.cache {
      assert p.CachedOk(i, p.cache[i]);
      if p.cache[i].Live() {
        PutKeeps(p, i, p.cache[i], false);
      }
    }
  }

  lemma SetDirtyKeeps<K(!new), V(!new)>(s: EvState<K, V>, i: K, completed: bool)
    requires s.Inv()
    ensures s.SetDirty(i, completed).Inv() && s.SetDirty(i, completed).pending == s.pending
    ensures forall j: K :: s.SetDirty(i, completed).Lookup(j) == s.Lookup(j)
    ensures !s.SetDirty(i, completed).Unreported(i)
  {
    PinKeeps(s, i);
    var p := s.Pin(i);
    if i in p.cache && p.cache[i].status == Clean {
      assert p.CachedOk(i, p.cache[i]);
      PutKeeps(p, i, p.cache[i].(status := Modified, completed := completed), true);
    }
  }

  lemma SaveKeepsRecs<K(!new), V(!new)>(s: EvState<K, V>, t: EvState<K, V>, batch: set<K>)
    requires s.Inv() && t.SavedFrom(s, batch)
    ensures t.RecsOk()
  {
    forall i | i in t.cache ensures t.CachedOk(i, t.cache[i]) {
      assert s.CachedOk(i, s.cache[i]) && t.SavedEntry(s, batch, i);
    }
    forall i | i in t.pending ensures t.PendingOk(i, t.pending[i]) {
      assert s.PendingOk(i, s.pending[i]) && t.SavedEntry(s, batch, i);
    }
  }

  lemma SaveKeepsStore<K(!new), V(!new)>(s: EvState<K, V>, t: EvState<K, V>, batch: set<K>)
    requires s.Inv() && t.SavedFrom(s, batch)
    ensures t.StoreOk()
  {
    forall i: K | t.Stored(i) ensures t.codec.marshal(i, t.Loaded(i)) == t.store[t.codec.key(i)] {
      assert t.SavedEntry(s, batch, i);
      if i in s.cache {
        assert s.CachedOk(i, s.cache[i]);
      } else if i in s.pending {
        assert s.PendingOk(i, s.pending[i]);
      }
    }
  }

  lemma SaveKeepsLookup<K(!new), V(!new)>(s: EvState<K, V>, t: EvState<K, V>, batch: set<K>, i: K)
    requires s.Inv() && t.SavedFrom(s, batch)
    ensures t.Lookup(i) == s.Lookup(i)
  {
    assert t.SavedEntry(s, batch, i);
    if i in s.cache {
      assert s.CachedOk(i, s.cache[i]);
    } else if i in s.pending {
      assert s.PendingOk(i, s.pending[i]);
    }
  }

  /** Saving any popped batch leaves the object map alone. */
  lemma SaveKeeps<K(!new), V(!new)>(s: EvState<K, V>, t: EvState<K, V>, batch: set<K>)
    requires s.Inv() && t.SavedFrom(s, batch)
    ensures t.Inv()
    ensures forall j: K :: t.Lookup(j) == s.Lookup(j)
  {
    MinusDistinct(s.lru, s.cache.Keys - s.Kept(batch));
    SaveKeepsRecs(s, t, batch);
    SaveKeepsStore(s, t, batch);
    forall j: K ensures t.Lookup(j) == s.Lookup(j) {
      SaveKeepsLookup(s, t, batch, j);
    }
  }

  lemma CutKeepsLookup<K(!new), V(!new)>(s: EvState<K, V>, t: EvState<K, V>, n: nat, i: K)
    requires s.Inv() && t.CutFrom(s, n)
    ensures t.Lookup(i) == s.Lookup(i)
  {
    if i in s.cache && i in s.lru[n..] {
      assert s.CachedOk(i, s.cache[i]);
      var k :| n <= k < |s.lru| && s.lru[k] == i;
      assert s.Evictable(s.lru[k]);
    }
  }

  lemma CutKeepsRecs<K(!new), V(!new)>(s: EvState<K, V>, t: EvState<K, V>, n: nat)
    requires s.Inv() && t.CutFrom(s, n)
    ensures t.RecsOk()
  {
    forall i | i in t.cache ensures t.CachedOk(i, t.cache[i]) {
      assert s.CachedOk(i, s.cache[i]);
    }
    forall i | i in t.pending ensures t.PendingOk(i, t.pending[i]) {
      assert s.PendingOk(i, s.pending[i]);
    }
  }

  /** Evicting from the old end of the LRU list leaves the object map alone. */
  lemma CutKeeps<K(!new), V(!new)>(s: EvState<K, V>, t: EvState<K, V>, n: nat)
    requires s.Inv() && t.CutFrom(s, n)
    ensures t.Inv()
    ensures forall j: K :: t.Lookup(j) == s.Lookup(j)
  {
    SplitDistinct(s.lru, n);
    forall j: K ensures t.Lookup(j) == s.Lookup(j) {
      CutKeepsLookup(s, t, n, j);
    }
    CutKeepsRecs(s, t, n);
    assert t.waiting <= t.cache.Keys by {
      forall i | i in t.waiting ensures i in t.cache {
        assert i !in s.lru[n..] by {
          forall k | n <= k < |s.lru| ensures s.lru[k] != i {
            assert s.Evictable(s.lru[k]);
          }
        }
      }
    }
  }

  /** Once everything that waits has been saved, the store is the object map, save for
      objects that clients have changed without saying so. */
  lemma FlushedStoreAgrees<K(!new), V(!new)>(s: EvState<K, V>, i: K)
    requires s.Inv() && s.waiting == {} && s.pending == map[]
    ensures s.StoreAgrees(i) || s.Unreported(i)
  {
    if i in s.cache {
      assert s.CachedOk(i, s.cache[i]);
    }
  }
}
