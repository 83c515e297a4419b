/**
 The evictor's data structures: a table of items referred to by number, so that the
 cache, the modified map and poll's local queues can share one, and an LRU list of
 nodes whose positions the items store.  `Linked` says which state of EvictorSpec
 they stand for; the lemmas say what one change of the structures does to that state.
 */
module EvictorTables {
  import opened Basics
  import opened EvictorTypes
  import opened Lists
  import opened EvictorSpec

  type Ref = nat

  datatype Node<+K> = Node(id: nat, ident: K)

  datatype Servant<+V> = Servant(content: V, handles: nat)

  datatype Item<+K, +V> = Item(
    ident: K, servant: Option<Servant<V>>, status: State, completed: bool,
    orphan: bool, pos: Node<K>, handles: nat)
  {
    function Record(): Rec<V> {
      if servant.None? then Rec(status, None, completed, handles, 0)
      else Rec(status, Some(servant.value.content), completed, handles, servant.value.handles)
    }
  }

  datatype Tables<K(==), +V> = Tables(
    items: map<Ref, Item<K, V>>,
    cache: map<K, Ref>,
    list: seq<Node<K>>,       // the front, index 0, is the most recently used
    queue: seq<K>,
    modified: map<K, Ref>,
    dict: Dict)
  {
    ghost predicate ItemIs(ref: Ref, k: K, orphan: bool, r: Rec<V>) {
      ref in items && items[ref].ident == k && items[ref].orphan == orphan && items[ref].Record() == r
    }
  }

  ghost function Idents<K>(nodes: seq<Node<K>>): seq<K> {
    if nodes == [] then [] else Idents(nodes[..|nodes| - 1]) + [nodes[|nodes| - 1].ident]
  }

  lemma {:induction false} IdentsConcat<K>(a: seq<Node<K>>, b: seq<Node<K>>)
    ensures Idents(a + b) == Idents(a) + Idents(b)
  {
    if b == [] {
      assert a + b == a;
    } else {
      assert (a + b)[..|a + b| - 1] == a + b[..|b| - 1];
      IdentsConcat(a, b[..|b| - 1]);
    }
  }

  lemma {:induction false} IdentsAt<K>(nodes: seq<Node<K>>, k: nat)
    requires k < |nodes|
    ensures |Idents(nodes)| == |nodes| && Idents(nodes)[k] == nodes[k].ident
  {
    if k < |nodes| - 1 {
      IdentsAt(nodes[..|nodes| - 1], k);
    } else if k > 0 {
      IdentsAt(nodes[..k], k - 1);
    }
  }

  /** The item numbers in use are below the next one. */
  ghost predicate Numbered<K, V>(items: map<Ref, Item<K, V>>, next: Ref) {
    forall ref :: ref in items ==> ref < next
  }

  lemma NumberedNext<K, V>(items: map<Ref, Item<K, V>>, next: Ref, x: Item<K, V>)
    requires Numbered(items, next)
    ensures next !in items && Numbered(items[next := x], next + 1)
  {
  }

  lemma NumberedFrame<K, V>(items: map<Ref, Item<K, V>>, next: Ref, ref: Ref, x: Item<K, V>)
    requires Numbered(items, next) && ref in items
    ensures Numbered(items[ref := x], next)
  {
  }

  /** The items of fresh adds are never managed by the cache, and stay as they were. */
  ghost predicate AddedKept<K, V>(added: map<Ref, Item<K, V>>, items: map<Ref, Item<K, V>>) {
    forall ref :: ref in added ==> ref in items && items[ref] == added[ref] && items[ref].orphan
  }

  lemma AddedAt<K, V>(added: map<Ref, Item<K, V>>, items: map<Ref, Item<K, V>>, ref: Ref)
    requires AddedKept(added, items) && ref in added
    ensures ref in items && items[ref] == added[ref] && items[ref].orphan
  {
  }

  lemma AddedFrame<K, V>(added: map<Ref, Item<K, V>>, items: map<Ref, Item<K, V>>, ref: Ref, x: Item<K, V>)
    requires AddedKept(added, items) && (ref !in items || !items[ref].orphan)
    ensures AddedKept(added, items[ref := x])
  {
  }

  lemma AddedSet<K, V>(added: map<Ref, Item<K, V>>, items: map<Ref, Item<K, V>>, ref: Ref, x: Item<K, V>)
    requires AddedKept(added, items) && x.orphan
    ensures AddedKept(added[ref := x], items[ref := x])
  {
  }

  lemma AddedRewrite<K, V>(added: map<Ref, Item<K, V>>, items: map<Ref, Item<K, V>>, ref: Ref, x: Item<K, V>)
    requires AddedKept(added, items) && x.orphan
    ensures AddedKept(if ref in added then added[ref := x] else added, items[ref := x])
  {
  }

  // ----- the link

  ghost predicate CacheLinked<K(!new), V(!new)>(c: Tables<K, V>, s: EvState<K, V>) {
    && (forall k :: k in c.cache <==> k in s.cache)
    && (forall k :: k in c.cache ==> c.ItemIs(c.cache[k], k, false, s.cache[k]))
  }

  /** Each node of the list is the stored position of the cached item it names. */
  ghost predicate ListLinked<K(!new), V(!new)>(c: Tables<K, V>, s: EvState<K, V>) {
    && Idents(c.list) == s.lru
    && (forall n :: n in c.list ==>
          n.ident in c.cache && c.cache[n.ident] in c.items && c.items[c.cache[n.ident]].pos == n)
  }

  /** A cached item that waits is the one in the modified map; the others there are orphans. */
  ghost predicate QueueLinked<K(!new), V(!new)>(c: Tables<K, V>, s: EvState<K, V>) {
    && s.queue == c.queue
    && (forall k :: k in c.modified <==> k in s.waiting || k in s.pending)
    && (forall k :: k in s.waiting ==> k in c.cache && c.modified[k] == c.cache[k])
    && (forall k :: k in s.pending ==> c.ItemIs(c.modified[k], k, true, s.pending[k]))
  }

  ghost predicate Linked<K(!new), V(!new)>(c: Tables<K, V>, s: EvState<K, V>) {
    s.store == c.dict && CacheLinked(c, s) && ListLinked(c, s) && QueueLinked(c, s)
  }

  lemma LinkedKeys<K(!new), V(!new)>(c: Tables<K, V>, s: EvState<K, V>)
    requires Linked(c, s)
    ensures c.cache.Keys == s.cache.Keys && c.dict == s.store && c.queue == s.queue
    ensures forall k :: k in c.modified <==> s.Tracked(k)
    ensures forall k :: k in s.waiting ==> k in c.modified && k in c.cache && c.modified[k] == c.cache[k]
    ensures forall k :: k in c.cache ==> c.ItemIs(c.cache[k], k, false, s.cache[k])
  {
  }

  // ----- steps

  function Inserted<K(==), V>(c: Tables<K, V>, ref: Ref, x: Item<K, V>): Tables<K, V> {
    c.(items := c.items[ref := x], cache := c.cache[x.ident := ref], list := [x.pos] + c.list)
  }

  lemma InsertedList<K(!new), V(!new)>(c: Tables<K, V>, s: EvState<K, V>, ref: Ref, x: Item<K, V>)
    requires ListLinked(c, s) && ref !in c.items && x.pos.ident == x.ident && x.ident !in c.cache
    ensures ListLinked(Inserted(c, ref, x), s.(cache := s.cache[x.ident := x.Record()], lru := [x.ident] + s.lru))
  {
    IdentsConcat([x.pos], c.list);
    var d := Inserted(c, ref, x);
    forall n | n in d.list
      ensures n.ident in d.cache && d.cache[n.ident] in d.items && d.items[d.cache[n.ident]].pos == n
    {
      assert n in c.list || n == x.pos;
    }
  }

  /** Filing a new item under a new identity, with its node at the front. */
  lemma InsertedLinked<K(!new), V(!new)>(c: Tables<K, V>, s: EvState<K, V>, ref: Ref, x: Item<K, V>)
    requires Linked(c, s) && ref !in c.items && !x.orphan && x.pos.ident == x.ident
    requires x.ident !in c.cache && x.ident !in s.pending
    ensures Linked(Inserted(c, ref, x), s.(cache := s.cache[x.ident := x.Record()], lru := [x.ident] + s.lru))
  {
    hide ListLinked;
    InsertedList(c, s, ref, x);
  }

  function Changed<K(==), V>(c: Tables<K, V>, ref: Ref, x: Item<K, V>): Tables<K, V> {
    c.(items := c.items[ref := x])
  }

  /** Changing the data of a cached item. */
  lemma ChangedLinked<K(!new), V(!new)>(c: Tables<K, V>, s: EvState<K, V>, k: K, x: Item<K, V>)
    requires Linked(c, s) && k in c.cache && k !in s.pending
    requires x.ident == k && !x.orphan && x.pos == c.items[c.cache[k]].pos
    ensures Linked(Changed(c, c.cache[k], x), s.(cache := s.cache[k := x.Record()]))
  {
  }

  /** Changing the data of an item that only the modified map has. */
  lemma ChangedPendingLinked<K(!new), V(!new)>(c: Tables<K, V>, s: EvState<K, V>, k: K, x: Item<K, V>)
    requires Linked(c, s) && k in s.pending && k !in c.cache && x.ident == k && x.orphan
    ensures k in c.modified && c.modified[k] in c.items
    ensures Linked(Changed(c, c.modified[k], x), s.(pending := s.pending[k := x.Record()]))
  {
  }

  /** Changing the object of an item that neither the cache nor the modified map has. */
  lemma DetachedLinked<K(!new), V(!new)>(c: Tables<K, V>, s: EvState<K, V>, ref: Ref, x: Item<K, V>)
    requires Linked(c, s) && ref in c.items && c.items[ref].orphan
    requires c.items[ref].ident in c.modified ==> c.modified[c.items[ref].ident] != ref
    ensures Linked(Changed(c, ref, x), s)
  {
    hide CacheLinked, ListLinked, QueueLinked;
    DetachedCache(c, s, ref, x);
    DetachedList(c, s, ref, x);
    DetachedQueue(c, s, ref, x);
  }

  lemma DetachedCache<K(!new), V(!new)>(c: Tables<K, V>, s: EvState<K, V>, ref: Ref, x: Item<K, V>)
    requires CacheLinked(c, s) && ref in c.items && c.items[ref].orphan
    ensures CacheLinked(Changed(c, ref, x), s)
  {
  }

  lemma DetachedList<K(!new), V(!new)>(c: Tables<K, V>, s: EvState<K, V>, ref: Ref, x: Item<K, V>)
    requires CacheLinked(c, s) && ListLinked(c, s) && ref in c.items && c.items[ref].orphan
    ensures ListLinked(Changed(c, ref, x), s)
  {
  }

  lemma DetachedQueue<K(!new), V(!new)>(c: Tables<K, V>, s: EvState<K, V>, ref: Ref, x: Item<K, V>)
    requires QueueLinked(c, s) && ref in c.items
    requires c.items[ref].ident in c.modified ==> c.modified[c.items[ref].ident] != ref
    ensures QueueLinked(Changed(c, ref, x), s)
  {
  }

  function Queued<K(==), V>(c: Tables<K, V>, ref: Ref): Tables<K, V>
    requires ref in c.items
  {
    c.(queue := c.queue + [c.items[ref].ident], modified := c.modified[c.items[ref].ident := ref])
  }

  lemma QueuedLinked<K(!new), V(!new)>(c: Tables<K, V>, s: EvState<K, V>, k: K)
    requires Linked(c, s) && k in c.cache && k !in s.pending
    ensures Linked(Queued(c, c.cache[k]), s.(queue := s.queue + [k], waiting := s.waiting + {k}))
  {
  }

  lemma NewItemLinked<K(!new), V(!new)>(c: Tables<K, V>, s: EvState<K, V>, ref: Ref, x: Item<K, V>)
    requires Linked(c, s) && ref !in c.items
    ensures Linked(Changed(c, ref, x), s)
  {
  }

  /** Queueing a new orphan. */
  lemma FreshLinked<K(!new), V(!new)>(c: Tables<K, V>, s: EvState<K, V>, ref: Ref, x: Item<K, V>)
    requires Linked(c, s) && ref !in c.items && x.orphan && x.ident !in c.cache && s.waiting <= s.cache.Keys
    ensures Linked(Queued(Changed(c, ref, x), ref),
                   s.(queue := s.queue + [x.ident], pending := s.pending[x.ident := x.Record()]))
  {
    NewItemLinked(c, s, ref, x);
    OrphanLinked(Changed(c, ref, x), s, ref);
  }

  lemma OrphanLinked<K(!new), V(!new)>(c: Tables<K, V>, s: EvState<K, V>, ref: Ref)
    requires Linked(c, s) && ref in c.items && c.items[ref].orphan
    requires c.items[ref].ident !in c.cache && s.waiting <= s.cache.Keys
    ensures var x := c.items[ref];
            Linked(Queued(c, ref), s.(queue := s.queue + [x.ident], pending := s.pending[x.ident := x.Record()]))
  {
  }

  function Unlisted<K>(list: seq<Node<K>>, a: nat): seq<Node<K>>
    requires a < |list|
  {
    list[..a] + list[a + 1..]
  }

  lemma SingleIdent<K>(n: Node<K>)
    ensures Idents([n]) == [n.ident]
  {
    assert Idents([n]) == Idents([]) + [n.ident];
  }

  lemma IdentsParts<K>(p: seq<Node<K>>, n: Node<K>, q: seq<Node<K>>)
    ensures Idents(p + [n] + q) == Idents(p) + [n.ident] + Idents(q)
    ensures Idents(p + q) == Idents(p) + Idents(q)
  {
    IdentsConcat(p + [n], q);
    IdentsConcat(p, [n]);
    IdentsConcat(p, q);
    SingleIdent(n);
  }

  lemma UnlistedIdents<K(!new)>(list: seq<Node<K>>, a: nat)
    requires a < |list| && Distinct(Idents(list))
    ensures Idents(Unlisted(list, a)) == Without(Idents(list), list[a].ident)
    ensures list[a].ident !in Idents(list[..a]) && list[a].ident !in Idents(list[a + 1..])
  {
    hide Distinct, Minus, Without, Idents;
    assert list == list[..a] + [list[a]] + list[a + 1..];
    IdentsParts(list[..a], list[a], list[a + 1..]);
    DistinctMiddle(Idents(list[..a]), list[a].ident, Idents(list[a + 1..]));
    WithoutMiddle(Idents(list[..a]), list[a].ident, Idents(list[a + 1..]));
  }

  lemma UnlistedNode<K(!new)>(list: seq<Node<K>>, a: nat, n: Node<K>)
    requires a < |list| && Distinct(Idents(list)) && n in Unlisted(list, a)
    ensures n in list && n.ident != list[a].ident
  {
    hide Distinct, Minus, Without, Idents;
    UnlistedIdents(list, a);
    if n in list[..a] {
      IdentsHas(list[..a], n);
    } else {
      IdentsHas(list[a + 1..], n);
    }
  }

  lemma IdentsHas<K>(nodes: seq<Node<K>>, n: Node<K>)
    requires n in nodes
    ensures n.ident in Idents(nodes)
  {
    var k :| 0 <= k < |nodes| && nodes[k] == n;
    IdentsAt(nodes, k);
  }

  /** Every listed identity has a node. */
  lemma {:induction false} NodeOf<K>(nodes: seq<Node<K>>, k: K) returns (a: nat)
    requires k in Idents(nodes)
    ensures a < |nodes| && nodes[a].ident == k
  {
    a := |nodes| - 1;
    if nodes[a].ident != k {
      a := NodeOf(nodes[..a], k);
    }
  }

  function Fronted<K(==), V>(c: Tables<K, V>, ref: Ref, a: nat, node: Node<K>): Tables<K, V>
    requires a < |c.list| && ref in c.items
  {
    c.(items := c.items[ref := c.items[ref].(pos := node)], list := [node] + Unlisted(c.list, a))
  }

  /** Moving a cached item to the front of the list, by erasing the node at its stored position. */
  lemma FrontedLinked<K(!new), V(!new)>(c: Tables<K, V>, s: EvState<K, V>, k: K, a: nat, node: Node<K>)
    requires Linked(c, s) && k in c.cache && k !in s.pending && Distinct(s.lru)
    requires a < |c.list| && c.list[a].ident == k && node.ident == k
    ensures Linked(Fronted(c, c.cache[k], a, node), s.(lru := [k] + Without(s.lru, k)))
  {
    FrontedList(c, s, k, a, node);
    FrontedQueue(c, s, k, a, node);
  }

  lemma FrontedQueue<K(!new), V(!new)>(c: Tables<K, V>, s: EvState<K, V>, k: K, a: nat, node: Node<K>)
    requires Linked(c, s) && k in c.cache && k !in s.pending && a < |c.list|
    ensures QueueLinked(Fronted(c, c.cache[k], a, node), s.(lru := [k] + Without(s.lru, k)))
  {
  }

  lemma FrontedList<K(!new), V(!new)>(c: Tables<K, V>, s: EvState<K, V>, k: K, a: nat, node: Node<K>)
    requires CacheLinked(c, s) && ListLinked(c, s) && k in c.cache && Distinct(s.lru)
    requires a < |c.list| && c.list[a].ident == k && node.ident == k
    ensures ListLinked(Fronted(c, c.cache[k], a, node), s.(lru := [k] + Without(s.lru, k)))
  {
    hide Distinct, Without, Idents;
    UnlistedIdents(c.list, a);
    IdentsConcat([node], Unlisted(c.list, a));
    SingleIdent(node);
    var d := Fronted(c, c.cache[k], a, node);
    forall n | n in d.list
      ensures n.ident in d.cache && d.cache[n.ident] in d.items && d.items[d.cache[n.ident]].pos == n
    {
      if n != node {
        UnlistedNode(c.list, a, n);
      }
    }
  }

  /** The stored position of a cached item is its own node of the list. */
  lemma PositionIsOwnNode<K(!new), V(!new)>(c: Tables<K, V>, s: EvState<K, V>, k: K) returns (a: nat)
    requires Linked(c, s) && k in c.cache && k in s.lru
    ensures a < |c.list| && c.list[a] == c.items[c.cache[k]].pos && c.list[a].ident == k
  {
    a := NodeOf(c.list, k);
    assert c.list[a] in c.list;
  }

  function Evicted<K(==), V>(c: Tables<K, V>, ref: Ref, a: nat): Tables<K, V>
    requires a < |c.list| && ref in c.items
  {
    c.(items := c.items[ref := c.items[ref].(orphan := true)],
       cache := c.cache - {c.items[ref].ident}, list := Unlisted(c.list, a))
  }

  lemma EvictedLinked<K(!new), V(!new)>(c: Tables<K, V>, s: EvState<K, V>, k: K, a: nat)
    requires Linked(c, s) && k in c.cache && k !in s.pending && k !in s.waiting && Distinct(s.lru)
    requires a < |c.list| && c.list[a].ident == k
    ensures Linked(Evicted(c, c.cache[k], a), s.(cache := s.cache - {k}, lru := Without(s.lru, k)))
  {
    EvictedList(c, s, k, a);
    EvictedQueue(c, s, k, a);
  }

  lemma EvictedQueue<K(!new), V(!new)>(c: Tables<K, V>, s: EvState<K, V>, k: K, a: nat)
    requires Linked(c, s) && k in c.cache && k !in s.pending && k !in s.waiting && a < |c.list|
    ensures QueueLinked(Evicted(c, c.cache[k], a), s.(cache := s.cache - {k}, lru := Without(s.lru, k)))
    ensures CacheLinked(Evicted(c, c.cache[k], a), s.(cache := s.cache - {k}, lru := Without(s.lru, k)))
  {
  }

  lemma EvictedList<K(!new), V(!new)>(c: Tables<K, V>, s: EvState<K, V>, k: K, a: nat)
    requires CacheLinked(c, s) && ListLinked(c, s) && k in c.cache && Distinct(s.lru)
    requires a < |c.list| && c.list[a].ident == k
    ensures ListLinked(Evicted(c, c.cache[k], a), s.(cache := s.cache - {k}, lru := Without(s.lru, k)))
  {
    hide Distinct, Without, Idents;
    UnlistedIdents(c.list, a);
    var d := Evicted(c, c.cache[k], a);
    forall n | n in d.list
      ensures n.ident in d.cache && d.cache[n.ident] in d.items && d.items[d.cache[n.ident]].pos == n
    {
      UnlistedNode(c.list, a, n);
    }
  }

  /** Taking the first entry off the modified queue, and its item off the modified map. */
  lemma PoppedLinked<K(!new), V(!new)>(c: Tables<K, V>, s: EvState<K, V>, k: K, queue: seq<K>)
    requires Linked(c, s)
    ensures Linked(c.(queue := queue, modified := c.modified - {k}),
                   s.(queue := queue, waiting := s.waiting - {k}, pending := s.pending - {k}))
  {
  }

  /** What `flight` names are still the items that s had for the identities ks. */
  ghost predicate InFlight<K(!new), V(!new)>(c: Tables<K, V>, s: EvState<K, V>, flight: map<K, Ref>, ks: set<K>) {
    forall k :: k in ks ==> k in flight && FlightOk(c, s, flight[k], k)
  }

  ghost predicate FlightOk<K(!new), V(!new)>(c: Tables<K, V>, s: EvState<K, V>, ref: Ref, k: K) {
    if k in s.cache then
      k in c.cache && c.cache[k] == ref && ref in c.items && c.items[ref].ident == k && !c.items[ref].orphan
    else k in s.pending && c.ItemIs(ref, k, true, s.pending[k])
  }

  lemma FlightAtStart<K(!new), V(!new)>(c: Tables<K, V>, s: EvState<K, V>)
    requires Linked(c, s) && s.waiting <= s.cache.Keys && s.pending.Keys !! s.cache.Keys
    ensures InFlight(c, s, c.modified, c.modified.Keys)
  {
  }

  lemma StoreLinked<K(!new), V(!new)>(c: Tables<K, V>, s: EvState<K, V>, dict: Dict)
    requires Linked(c, s)
    ensures Linked(c.(dict := dict), s.(store := dict))
  {
  }

  /** Evicting one item leaves the others in flight. */
  lemma EvictedFlight<K(!new), V(!new)>(c: Tables<K, V>, s: EvState<K, V>, flight: map<K, Ref>, ks: set<K>,
                                        k: K, a: nat)
    requires InFlight(c, s, flight, ks) && k in c.cache && c.cache[k] in c.items && c.items[c.cache[k]].ident == k
    requires a < |c.list| && k in s.cache
    ensures InFlight(Evicted(c, c.cache[k], a), s, flight, ks - {k})
  {
  }

  /** So does changing the status of a cached item. */
  lemma StatusFlight<K(!new), V(!new)>(c: Tables<K, V>, s: EvState<K, V>, flight: map<K, Ref>, ks: set<K>,
                                       ref: Ref, status: State)
    requires InFlight(c, s, flight, ks) && ref in c.items && !c.items[ref].orphan
    ensures InFlight(Changed(c, ref, c.items[ref].(status := status)), s, flight, ks)
  {
  }

  lemma {:induction false} IdentsLength<K>(nodes: seq<Node<K>>)
    ensures |Idents(nodes)| == |nodes|
  {
    if nodes != [] {
      IdentsLength(nodes[..|nodes| - 1]);
    }
  }

  /** The list and the cache have one entry each per cached identity. */
  lemma ListLength<K(!new), V(!new)>(c: Tables<K, V>, s: EvState<K, V>)
    requires Linked(c, s)
    ensures |c.list| == |s.lru|
  {
    IdentsLength(c.list);
  }

  lemma OldestListed<K(!new), V(!new)>(c: Tables<K, V>, s: EvState<K, V>)
    requires Linked(c, s) && c.list != []
    ensures |c.list| == |s.lru| && c.list[|c.list| - 1].ident == s.lru[|s.lru| - 1]
  {
    IdentsLength(c.list);
    IdentsAt(c.list, |c.list| - 1);
  }

  /** The list and the cache never differ in size, so poll's rebuilding branch is dead. */
  lemma SameSize<K(!new), V(!new)>(c: Tables<K, V>, s: EvState<K, V>)
    requires Linked(c, s) && s.ListsOk()
    ensures |c.list| == |c.cache|
  {
    ListLength(c, s);
    DistinctSize(s.lru);
    assert Elems(s.lru) == s.cache.Keys;
    assert c.cache.Keys == s.cache.Keys;
  }

  lemma FlightAt<K(!new), V(!new)>(c: Tables<K, V>, s: EvState<K, V>, flight: map<K, Ref>, ks: set<K>, k: K)
    requires InFlight(c, s, flight, ks) && k in ks
    ensures k in flight && FlightOk(c, s, flight[k], k)
  {
  }

  lemma FlightFrame<K(!new), V(!new)>(c: Tables<K, V>, d: Tables<K, V>, s: EvState<K, V>, flight: map<K, Ref>,
                                      ks: set<K>, js: set<K>)
    requires InFlight(c, s, flight, ks) && d.items == c.items && d.cache == c.cache && js <= ks
    ensures InFlight(d, s, flight, js)
  {
  }

  /** What the invariant says about lists and queues, and the items that wait. */
  lemma FlushStart<K(!new), V(!new)>(c: Tables<K, V>, s: EvState<K, V>)
    requires Linked(c, s) && s.Inv()
    ensures Distinct(s.lru) && s.waiting <= s.cache.Keys && s.ListsOk() && c.queue == s.queue
    ensures InFlight(c, s, c.modified, c.modified.Keys)
    ensures forall k :: k in s.waiting || k in s.pending ==> k in s.queue
    ensures forall k :: k in s.lru ==> k in s.cache && k !in s.pending
    ensures forall k :: k in c.modified <==> s.Tracked(k)
    ensures s.queue == [] ==> forall k :: !s.Tracked(k)
  {
    forall k | k in s.pending ensures k !in s.cache {
      assert s.PendingOk(k, s.pending[k]);
    }
    FlightAtStart(c, s);
  }
}
