/**
 LRUMap: a map of bounded size that drops the entry used longest ago, kept as three
 maps, two of them inverse, and a stamp that wraps around.  It refines a list of keys
 in order of use.
 */
module LruMap {
  import opened Basics
  import opened Lists

  const STAMPS: nat := 0x1_0000_0000_0000_0000  // of size_t

  // ----- the stamp maps

  ghost predicate ByStamp<K(!new)>(order: seq<K>, k2t: map<K, nat>) {
    forall a, b :: 0 <= a < b < |order| && order[a] in k2t && order[b] in k2t ==> k2t[order[a]] < k2t[order[b]]
  }

  /** The two stamp maps are inverse to each other, on the keys of the list; the stamps
      follow the order of use and are behind the next one, unless that has wrapped to 0. */
  ghost predicate Stamped<K(!new)>(order: seq<K>, k2t: map<K, nat>, t2k: map<nat, K>, next: nat) {
    && Distinct(order) && ByStamp(order, k2t) && next < STAMPS
    && (forall k :: k in order <==> k in k2t)
    && (forall k :: k in k2t ==> k2t[k] in t2k && t2k[k2t[k]] == k)
    && (forall t :: t in t2k ==> t2k[t] in k2t && k2t[t2k[t]] == t)
    && (forall t :: t in t2k ==> 0 < t < STAMPS && (next != 0 ==> t < next))
  }

  lemma {:induction false} MinusByStamp<K(!new)>(order: seq<K>, k2t: map<K, nat>, gone: set<K>)
    requires ByStamp(order, k2t)
    ensures ByStamp(Minus(order, gone), k2t)
  {
    if order != [] {
      var p, last := order[..|order| - 1], order[|order| - 1];
      MinusByStamp(p, k2t, gone);
      forall a | 0 <= a < |Minus(p, gone)| && Minus(p, gone)[a] in k2t && last in k2t
        ensures k2t[Minus(p, gone)[a]] < k2t[last]
      {
        MinusMember(p, gone, Minus(p, gone)[a]);
        var b :| 0 <= b < |p| && p[b] == Minus(p, gone)[a];
        assert order[b] == p[b];
      }
    }
  }

  lemma FewerByStamp<K(!new)>(order: seq<K>, k2t: map<K, nat>, gone: set<K>)
    requires ByStamp(order, k2t)
    ensures ByStamp(order, k2t - gone)
  {
  }

  lemma EraseStamp<K(!new)>(order: seq<K>, k2t: map<K, nat>, t2k: map<nat, K>, next: nat, k: K)
    requires Stamped(order, k2t, t2k, next) && k in k2t
    ensures Stamped(Without(order, k), k2t - {k}, t2k - {k2t[k]}, next)
  {
    MinusDistinct(order, {k});
    MinusByStamp(order, k2t, {k});
    FewerByStamp(Without(order, k), k2t, {k});
  }

  lemma AddStamp<K(!new)>(order: seq<K>, k2t: map<K, nat>, t2k: map<nat, K>, t: nat, k: K)
    requires Stamped(order, k2t, t2k, t) && k !in k2t && t != 0
    ensures Stamped(order + [k], k2t[k := t], t2k[t := k], (t + 1) % STAMPS)
  {
    var more := order + [k];
    assert Distinct(more);
    assert ByStamp(more, k2t[k := t]) by {
      forall a, b | 0 <= a < b < |more| && more[a] in k2t[k := t] && more[b] in k2t[k := t]
        ensures k2t[k := t][more[a]] < k2t[k := t][more[b]]
      {
        assert more[a] == order[a] && order[a] in order;
        if b < |order| {
          assert more[b] == order[b] && order[b] in order;
        }
      }
    }
  }

  lemma LeastStamp<K(!new)>(order: seq<K>, k2t: map<K, nat>, t2k: map<nat, K>, next: nat)
    requires Stamped(order, k2t, t2k, next) && order != []
    ensures order[0] in k2t && k2t[order[0]] in t2k && forall t :: t in t2k ==> k2t[order[0]] <= t
  {
    assert order[0] in order;
    forall t | t in t2k ensures k2t[order[0]] <= t {
      var a :| 0 <= a < |order| && order[a] == t2k[t];
    }
  }

  // ----- the list of keys

  /** The keys, the one used longest ago first, once k is used. */
  function Touched<K(==)>(order: seq<K>, k: K): seq<K> {
    Without(order, k) + [k]
  }

  /** What is kept of a list of keys: too long a list loses its first. */
  function Cut<K>(order: seq<K>, capacity: nat): seq<K> {
    if order != [] && |order| + 1 > capacity then order[1..] else order
  }

  /** What clients have done since the map was empty or was cleared: used a key, under the
      capacity and with the default of that time, assigned to one through the reference that
      a use returns, erased one, or erased the eldest. */
  datatype Op<+K, +V> = Use(key: K, capacity: nat, default: V) | Give(key: K, value: V) | Drop(key: K) | DropEldest

  /** The list of keys after a history. */
  function Kept<K(==), V>(history: seq<Op<K, V>>): seq<K> {
    if history == [] then []
    else
      var before := Kept(history[..|history| - 1]);
      match history[|history| - 1]
      case Use(k, capacity, _) => Cut(Touched(before, k), capacity)
      case Give(_, _) => before
      case Drop(k) => Without(before, k)
      case DropEldest => if before == [] then [] else before[1..]
  }

  /** The value a key was given last: the one assigned to it, or the default that it came
      in with, whichever is later. */
  function LastGiven<K(==), V>(history: seq<Op<K, V>>, k: K): Option<V> {
    if history == [] then None
    else
      var before := history[..|history| - 1];
      match history[|history| - 1]
      case Use(j, _, default) => if j == k && k !in Kept(before) then Some(default) else LastGiven(before, k)
      case Give(j, value) => if j == k then Some(value) else LastGiven(before, k)
      case _ => LastGiven(before, k)
  }

  ghost predicate AsGiven<K(!new), V(!new)>(data: map<K, V>, history: seq<Op<K, V>>) {
    forall k :: k in data ==> LastGiven(history, k) == Some(data[k])
  }

  class LRUMap<K(==,!new), V(!new)> {
    var k2t: map<K, nat>
    var t2k: map<nat, K>
    var realData: map<K, V>
    var stampLast: nat
    var capacity: nat
    ghost var order: seq<K>         // the keys by last use
    ghost var history: seq<Op<K, V>>

    ghost predicate Linked()
      reads this`k2t, this`t2k, this`realData, this`stampLast, this`order
    {
      Stamped(order, k2t, t2k, stampLast) && k2t.Keys == realData.Keys
    }

    ghost predicate Valid()
      reads this
    {
      Linked() && order == Kept(history) && AsGiven(realData, history)
    }

    lemma SameKeys()
      requires Linked()
      ensures forall k :: k in order <==> k in realData
    {
      hide Stamped;
      Listed(order, k2t, t2k, stampLast);
      assert forall k :: k in order <==> k in Elems(order);
    }

    ghost predicate Bounded()
      reads this
    {
      order == [] || |order| + 1 <= capacity
    }

    constructor (cap: nat)
      ensures Valid() && Bounded() && history == [] && realData == map[] && capacity == cap && stampLast == 1
    {
      k2t, t2k, realData, stampLast, capacity := map[], map[], map[], 1, cap;
      order, history := [], [];
    }

    method Resize(size: nat)
      requires Valid()
      modifies this`capacity
      ensures Valid() && capacity == size && (old(Bounded()) && size >= old(capacity) ==> Bounded())
    {
      capacity := size;
    }

    /** The key used longest ago: the one of the least stamp. */
    method Eldest() returns (k: K)
      requires Linked() && order != []
      ensures k == order[0]
    {
      LeastStamp(order, k2t, t2k, stampLast);
      var t :| t in t2k && forall u :: u in t2k ==> t <= u;
      k := t2k[t];
    }

    /** Take a key out of all three maps. */
    method Unlink(k: K)
      requires Linked()
      modifies this`k2t, this`t2k, this`realData, this`order
      ensures Linked() && order == Without(old(order), k) && realData == old(realData) - {k}
    {
      hide ByStamp, Distinct, Without;
      if k !in k2t {
        // looking up the stamp of a key that is not there puts a 0 for it
        k2t := k2t[k := 0];
        assert k2t - {k} == old(k2t) && t2k - {0} == t2k;
        NotListed(order, k);
      } else {
        EraseStamp(order, k2t, t2k, stampLast, k);
      }
      t2k := t2k - {k2t[k]};
      k2t := k2t - {k};
      realData := realData - {k};
      order := Without(order, k);
    }

    method UnlinkEldest()
      requires Linked()
      modifies this`k2t, this`t2k, this`realData, this`order
      ensures Linked() && order == if old(order) == [] then [] else old(order)[1..]
      ensures realData == if old(order) == [] then old(realData) else old(realData) - {old(order)[0]}
    {
      hide Stamped, Without;
      Listed(order, k2t, t2k, stampLast);
      if |realData| <= 0 {
        return;
      }
      assert order != [];
      WithoutFirst(order);
      var kToBeErased := Eldest();
      Unlink(kToBeErased);
    }

    method Erase(k: K)
      requires Valid()
      modifies this`k2t, this`t2k, this`realData, this`order, this`history
      ensures Valid() && history == old(history) + [Drop(k)]
      ensures order == Without(old(order), k) && realData == old(realData) - {k}
    {
      hide Stamped, Without, AsGiven;
      GivenSame(realData, history, Drop(k), realData - {k});
      Unlink(k);
      KeptMore(history, Drop(k));
      history := history + [Drop(k)];
    }

    method EraseEldest()
      requires Valid()
      modifies this`k2t, this`t2k, this`realData, this`order, this`history
      ensures Valid() && history == old(history) + [DropEldest]
      ensures order == if old(order) == [] then [] else old(order)[1..]
      ensures realData == if old(order) == [] then old(realData) else old(realData) - {old(order)[0]}
    {
      hide Stamped, AsGiven;
      GivenSame(realData, history, DropEldest,
                if order == [] then realData else realData - {order[0]});
      UnlinkEldest();
      KeptMore(history, DropEldest);
      history := history + [DropEldest];
    }

    /** operator[]: use a key.  The value is what the reference returned refers to, as long
        as the key is kept.  A stamp that has wrapped around clears the map first, and with it
        the history. */
    method Index(k: K, default: V) returns (v: V)
      requires Valid()
      modifies this`k2t, this`t2k, this`realData, this`stampLast, this`order, this`history
      ensures Valid() && (old(Bounded()) ==> Bounded())
      ensures old(stampLast) != 0 ==> stampLast == (old(stampLast) + 1) % 0x1_0000_0000_0000_0000
      ensures old(stampLast) == 0 ==> stampLast == 2
      ensures history == (if old(stampLast) == 0 then [] else old(history)) + [Use(k, capacity, default)]
      ensures order == Cut(Touched(if old(stampLast) == 0 then [] else old(order), k), capacity)
      ensures realData.Keys == Elems(order)
      ensures forall j :: j in realData ==>
                realData[j] == if old(stampLast) != 0 && j in old(realData) then old(realData)[j] else default
      ensures v == if old(stampLast) != 0 && k in old(realData) then old(realData)[k] else default
    {
      hide Stamped, Touched, Cut, Kept, AsGiven, Linked, Elems;
      ghost var history0 := if stampLast == 0 then [] else history;
      ghost var order0, data0 := if stampLast == 0 then [] else order, if stampLast == 0 then map[] else realData;
      SameKeys();
      IndexStart(order, realData, history, order0, data0, history0, stampLast == 0);
      TouchedLength(order0, k);
      if Bounded() {
        CutLength(Touched(order0, k), capacity, |order0|);
      }
      KeptMore(history0, Use(k, capacity, default));
      GivenUse(data0, order0, history0, k, capacity, default);
      history := history0 + [Use(k, capacity, default)];
      v := Touch(k, default);
      ghost var used := realData;
      Trim();
      GivenFewer(used, history, realData);
    }

    /** The stamp and the value of operator[]. */
    method Touch(k: K, default: V) returns (v: V)
      requires Linked()
      modifies this`k2t, this`t2k, this`realData, this`stampLast, this`order
      ensures Linked() && order == Touched(if old(stampLast) == 0 then [] else old(order), k)
      ensures var data := if old(stampLast) == 0 then map[] else old(realData);
              realData == (if k in data then data else data[k := default]) && v == realData[k]
      ensures stampLast == if old(stampLast) == 0 then 2 else (old(stampLast) + 1) % STAMPS
    {
      hide Stamped, Touched;
      Stamp(k);
      if k !in realData {
        realData := realData[k := default];
      }
      v := realData[k];
    }

    /** An assignment through the reference that a use has returned, while the key is kept. */
    method Assign(k: K, value: V)
      requires Valid() && k in realData
      modifies this`realData, this`history
      ensures Valid() && history == old(history) + [Give(k, value)] && realData == old(realData)[k := value]
    {
      hide Stamped, AsGiven;
      KeptMore(history, Give(k, value));
      GivenTo(realData, history, k, value);
      assert realData[k := value].Keys == realData.Keys;
      realData := realData[k := value];
      history := history + [Give(k, value)];
    }

    /** Remove the oldest if necessary. */
    method Trim()
      requires Linked() && order != []
      modifies this`k2t, this`t2k, this`realData, this`order
      ensures Linked() && order == Cut(old(order), capacity) && realData.Keys == Elems(order)
      ensures realData == if |old(order)| + 1 > capacity then old(realData) - {old(order)[0]} else old(realData)
    {
      hide Stamped;
      Listed(order, k2t, t2k, stampLast);
      if |realData| + 1 > capacity && |realData| >= 1 {
        UnlinkEldest();
      }
      Listed(order, k2t, t2k, stampLast);
    }

    /** The stamp part of operator[]: k gets the newest stamp. */
    method Stamp(k: K)
      requires Linked()
      modifies this`k2t, this`t2k, this`realData, this`stampLast, this`order
      ensures Stamped(order, k2t, t2k, stampLast) && k2t.Keys == realData.Keys + {k}
      ensures order == Touched(if old(stampLast) == 0 then [] else old(order), k)
      ensures realData == if old(stampLast) == 0 then map[] else old(realData)
      ensures stampLast == if old(stampLast) == 0 then 2 else (old(stampLast) + 1) % STAMPS
    {
      hide Stamped, Without;
      Forget(k);
      var theStamp := Next();
      if theStamp == 1 && stampLast == 2 {
        WithoutNothing(k);
      }
      AddStamp(order, k2t, t2k, theStamp, k);
      k2t := k2t[k := theStamp];
      t2k := t2k[theStamp := k];
      order := order + [k];
    }

    /** If the key has a stamp, delete it from both maps. */
    method Forget(k: K)
      requires Linked()
      modifies this`k2t, this`t2k, this`order
      ensures Stamped(order, k2t, t2k, stampLast) && order == Without(old(order), k)
      ensures k !in k2t && k2t.Keys == realData.Keys - {k}
    {
      hide ByStamp, Distinct, Without;
      var theStamp := if k in k2t then k2t[k] else 0;
      if theStamp != 0 {
        EraseStamp(order, k2t, t2k, stampLast, k);
        t2k := t2k - {theStamp};
        k2t := k2t - {k};
      } else {
        NotListed(order, k);
      }
      order := Without(order, k);
    }

    /** The next stamp; when the stamps have wrapped around to 0, everything is cleared. */
    method Next() returns (theStamp: nat)
      requires Stamped(order, k2t, t2k, stampLast)
      modifies this`k2t, this`t2k, this`realData, this`stampLast, this`order
      ensures theStamp != 0 && Stamped(order, k2t, t2k, theStamp) && stampLast == (theStamp + 1) % STAMPS
      ensures old(stampLast) != 0 ==> theStamp == old(stampLast) && order == old(order)
      ensures old(stampLast) != 0 ==> k2t == old(k2t) && realData == old(realData)
      ensures old(stampLast) == 0 ==> theStamp == 1 && order == [] && k2t == map[] && realData == map[]
    {
      hide ByStamp, Distinct;
      theStamp := stampLast;
      stampLast := (stampLast + 1) % STAMPS;
      if theStamp == 0 {
        k2t, t2k, realData, order := map[], map[], map[], [];
        theStamp := stampLast;
        stampLast := (stampLast + 1) % STAMPS;
        NothingStamped<K>();
      }
    }
  }

  lemma KeptMore<K(!new), V(!new)>(history: seq<Op<K, V>>, op: Op<K, V>)
    ensures op.Use? ==> Kept(history + [op]) == Cut(Touched(Kept(history), op.key), op.capacity)
    ensures op.Give? ==> Kept(history + [op]) == Kept(history)
    ensures op.Drop? ==> Kept(history + [op]) == Without(Kept(history), op.key)
    ensures op.DropEldest? ==> Kept(history + [op]) == if Kept(history) == [] then [] else Kept(history)[1..]
  {
    assert (history + [op])[..|history|] == history;
  }

  // ----- the values

  /** Where a use starts from: what there is, or nothing. */
  lemma IndexStart<K(!new), V(!new)>(order: seq<K>, data: map<K, V>, history: seq<Op<K, V>>,
                                     order0: seq<K>, data0: map<K, V>, history0: seq<Op<K, V>>, cleared: bool)
    requires order == Kept(history) && AsGiven(data, history) && forall k :: k in order <==> k in data
    requires if cleared then order0 == [] && data0 == map[] && history0 == [] else
               order0 == order && data0 == data && history0 == history
    ensures order0 == Kept(history0) && AsGiven(data0, history0) && forall k :: k in order0 <==> k in data0
  {
  }

  /** Erasing gives no values. */
  lemma GivenSame<K(!new), V(!new)>(data: map<K, V>, history: seq<Op<K, V>>, op: Op<K, V>, fewer: map<K, V>)
    requires AsGiven(data, history) && (op.Drop? || op.DropEldest?)
    requires forall k :: k in fewer ==> k in data && fewer[k] == data[k]
    ensures AsGiven(fewer, history + [op])
  {
    assert (history + [op])[..|history|] == history;
  }

  lemma GivenFewer<K(!new), V(!new)>(data: map<K, V>, history: seq<Op<K, V>>, fewer: map<K, V>)
    requires AsGiven(data, history) && forall k :: k in fewer ==> k in data && fewer[k] == data[k]
    ensures AsGiven(fewer, history)
  {
  }

  /** A use gives a key that is not there the default, and nothing to the others. */
  lemma GivenUse<K(!new), V(!new)>(data: map<K, V>, order: seq<K>, history: seq<Op<K, V>>, k: K, capacity: nat,
                                   default: V)
    requires AsGiven(data, history) && order == Kept(history) && forall j :: j in order <==> j in data
    ensures AsGiven(if k in data then data else data[k := default], history + [Use(k, capacity, default)])
  {
    assert (history + [Use(k, capacity, default)])[..|history|] == history;
  }

  lemma GivenTo<K(!new), V(!new)>(data: map<K, V>, history: seq<Op<K, V>>, k: K, value: V)
    requires AsGiven(data, history)
    ensures AsGiven(data[k := value], history + [Give(k, value)])
  {
    assert (history + [Give(k, value)])[..|history|] == history;
  }

  lemma {:induction false} MinusLength<K(!new)>(order: seq<K>, gone: set<K>)
    ensures |Minus(order, gone)| <= |order|
  {
    if order != [] {
      MinusLength(order[..|order| - 1], gone);
    }
  }

  lemma TouchedLength<K(!new)>(order: seq<K>, k: K)
    ensures 0 < |Touched(order, k)| <= |order| + 1
  {
    MinusLength(order, {k});
  }

  lemma CutLength<K(!new)>(order: seq<K>, capacity: nat, before: nat)
    requires 0 < |order| <= before + 1 && (before == 0 || before + 1 <= capacity)
    ensures Cut(order, capacity) == [] || |Cut(order, capacity)| + 1 <= capacity
  {
  }

  lemma NotListed<K(!new)>(order: seq<K>, k: K)
    requires k !in order
    ensures Without(order, k) == order
  {
    MinusNone(order, {k});
  }

  lemma NothingStamped<K(!new)>()
    ensures Stamped<K>([], map[], map[], 1)
  {
  }

  lemma WithoutNothing<K(!new)>(k: K)
    ensures Without([], k) == []
  {
  }

  lemma WithoutFirst<K(!new)>(order: seq<K>)
    requires Distinct(order) && order != []
    ensures Without(order, order[0]) == order[1..]
  {
    WithoutAt(order, 0);
  }

  lemma Listed<K(!new)>(order: seq<K>, k2t: map<K, nat>, t2k: map<nat, K>, next: nat)
    requires Stamped(order, k2t, t2k, next)
    ensures Distinct(order) && Elems(order) == k2t.Keys && |k2t.Keys| == |order|
  {
    DistinctSize(order);
  }

  // ----- what is kept

  /** The different keys used in a history and not erased since, by their last use. */
  function ByLastUse<K(==), V>(history: seq<Op<K, V>>): seq<K> {
    if history == [] then []
    else
      var before := ByLastUse(history[..|history| - 1]);
      match history[|history| - 1]
      case Use(k, _, _) => Touched(before, k)
      case Drop(k) => Without(before, k)
      case _ => before
  }

  lemma {:induction false} ByLastUseDistinct<K(!new), V(!new)>(history: seq<Op<K, V>>)
    ensures Distinct(ByLastUse(history))
  {
    if history != [] {
      var before, op := ByLastUse(history[..|history| - 1]), history[|history| - 1];
      ByLastUseDistinct(history[..|history| - 1]);
      if op.Use? || op.Drop? {
        MinusDistinct(before, {op.key});
      }
    }
  }

  /** The step of the last use of a key, counted from 1; 0 if it was never used. */
  function LastUse<K(==), V>(history: seq<Op<K, V>>, k: K): (n: nat)
    ensures n <= |history|
  {
    if history == [] then 0
    else
      var op := history[|history| - 1];
      if op.Use? && op.key == k then |history| else LastUse(history[..|history| - 1], k)
  }

  ghost predicate Recent<K(!new), V(!new)>(history: seq<Op<K, V>>, order: seq<K>) {
    forall a, b :: 0 <= a < b < |order| ==> LastUse(history, order[a]) < LastUse(history, order[b])
  }

  lemma {:induction false} MinusRecent<K(!new), V(!new)>(history: seq<Op<K, V>>, order: seq<K>, gone: set<K>)
    requires Recent(history, order)
    ensures Recent(history, Minus(order, gone))
  {
    if order != [] {
      var p, last := order[..|order| - 1], order[|order| - 1];
      MinusRecent(history, p, gone);
      forall a | 0 <= a < |Minus(p, gone)| ensures LastUse(history, Minus(p, gone)[a]) < LastUse(history, last) {
        MinusMember(p, gone, Minus(p, gone)[a]);
        var b :| 0 <= b < |p| && p[b] == Minus(p, gone)[a];
        assert order[b] == p[b];
      }
    }
  }

  /** One more step leaves the last uses of the keys that it does not use alone. */
  lemma StillRecent<K(!new), V(!new)>(history: seq<Op<K, V>>, op: Op<K, V>, order: seq<K>)
    requires Recent(history, order) && (op.Use? ==> op.key !in order)
    ensures Recent(history + [op], if op.Use? then order + [op.key] else order)
  {
    var more := history + [op];
    assert more[..|history|] == history;
    forall k | k in order ensures LastUse(more, k) == LastUse(history, k) < |more| {
    }
    assert op.Use? ==> LastUse(more, op.key) == |more|;
  }

  /** The keys used and not erased since are in the order of their last use. */
  lemma {:induction false} OrderedByUse<K(!new), V(!new)>(history: seq<Op<K, V>>)
    ensures Recent(history, ByLastUse(history))
  {
    if history != [] {
      hide Recent, Without;
      var before, op := history[..|history| - 1], history[|history| - 1];
      var all := ByLastUse(before);
      assert before + [op] == history;
      OrderedByUse(before);
      if op.Use? || op.Drop? {
        MinusRecent(before, all, {op.key});
        MinusMember(all, {op.key}, op.key);
        StillRecent(before, op, Without(all, op.key));
      } else {
        StillRecent(before, op, all);
      }
    } else {
      assert ByLastUse(history) == [];
    }
  }

  /** Which keys these are. */
  lemma {:induction false} UsedAndNotErased<K(!new), V(!new)>(history: seq<Op<K, V>>, k: K)
    ensures k in ByLastUse(history) <==>
              LastUse(history, k) > 0 && forall n :: LastUse(history, k) <= n < |history| ==> history[n] != Drop(k)
  {
    if history != [] {
      var before, op := history[..|history| - 1], history[|history| - 1];
      UsedAndNotErased(before, k);
      if op.Use? || op.Drop? {
        MinusMember(ByLastUse(before), {op.key}, k);
      }
      assert forall n :: 0 <= n < |before| ==> history[n] == before[n];
    }
  }

  /** After any history, a key that is kept was used last after every key that is not, of
      those that have been used and not erased since. */
  lemma KeptUsedLater<K(!new), V(!new)>(history: seq<Op<K, V>>, k: K, j: K)
    requires k in Kept(history) && j in ByLastUse(history) && j !in Kept(history)
    ensures LastUse(history, j) < LastUse(history, k)
  {
    hide LastUse, Kept, ByLastUse;
    var older := KeepsMostRecent(history);
    OrderedByUse(history);
    var kept := Kept(history);
    var b :| 0 <= b < |kept| && kept[b] == k;
    var a :| 0 <= a < |older + kept| && (older + kept)[a] == j;
    assert a < |older|;
    assert (older + kept)[|older| + b] == k;
  }

  /** After any history, with whatever erased and whatever capacities, the keys kept are the
      most recently used ones: none has been dropped that was used after one that is kept. */
  lemma {:induction false} KeepsMostRecent<K(!new), V(!new)>(history: seq<Op<K, V>>) returns (older: seq<K>)
    ensures ByLastUse(history) == older + Kept(history)
  {
    older := [];
    if history != [] {
      hide Cut;
      var before, op := Kept(history[..|history| - 1]), history[|history| - 1];
      older := KeepsMostRecent(history[..|history| - 1]);
      if op.DropEldest? {
        older := if before == [] then older else older + [before[0]];
      } else if !op.Give? {
        MinusConcat(older, before, {op.key});
        older := Minus(older, {op.key});
        if op.Use? {
          older := CutOlder(older, Touched(before, op.key), op.capacity);
        }
      }
    }
  }

  lemma CutOlder<K(!new)>(older: seq<K>, kept: seq<K>, capacity: nat) returns (older': seq<K>)
    ensures older' + Cut(kept, capacity) == older + kept
  {
    older' := if kept != [] && |kept| + 1 > capacity then older + [kept[0]] else older;
  }

  /** Under one capacity of at least 2 and with nothing erased, exactly the last
      capacity - 1 different keys used are kept. */
  lemma {:induction false} KeepsExactly<K(!new), V(!new)>(history: seq<Op<K, V>>, capacity: nat)
    requires capacity >= 2 && forall op :: op in history ==> op.Give? || (op.Use? && op.capacity == capacity)
    ensures var all := ByLastUse(history);
            Kept(history) == if |all| < capacity then all else all[|all| - (capacity - 1)..]
  {
    hide Touched, Cut;
    if history != [] {
      var before, op := history[..|history| - 1], history[|history| - 1];
      var all, kept := ByLastUse(before), Kept(before);
      assert op in history && forall o :: o in before ==> o in history;
      KeepsExactly(before, capacity);
      ByLastUseDistinct(before);
      if op.Use? {
        KeepsOneMore(all[..|all| - |kept|], kept, op.key, capacity);
      }
      assert all[..|all| - |kept|] + kept == all;
    }
  }

  /** One more use: `older` is what has been dropped. */
  lemma KeepsOneMore<K(!new)>(older: seq<K>, kept: seq<K>, k: K, capacity: nat)
    requires Distinct(older + kept) && capacity >= 2
    requires |kept| < capacity && (older == [] || |kept| == capacity - 1)
    ensures var all := Touched(older + kept, k);
            Cut(Touched(kept, k), capacity) == if |all| < capacity then all else all[|all| - (capacity - 1)..]
  {
    hide Minus;
    var all, o, w := Touched(older + kept, k), Minus(older, {k}), Minus(kept, {k});
    MinusConcat(older, kept, {k});
    assert all == o + (w + [k]);
    if k in kept {
      SplitDistinct(older + kept, |older|);
      assert (older + kept)[..|older|] == older && (older + kept)[|older|..] == kept;
      MinusNone(older, {k});
      MinusOne(kept, k);
    } else {
      MinusNone(kept, {k});
      if older == [] {
        MinusNone(older, {k});
      }
    }
  }

  lemma MinusOne<K(!new)>(s: seq<K>, k: K)
    requires Distinct(s) && k in s
    ensures |Minus(s, {k})| == |s| - 1
  {
    var a :| 0 <= a < |s| && s[a] == k;
    WithoutAt(s, a);
  }

  /** The key just used is kept exactly if the capacity is at least 2 or there are others
      to drop, as there may be after a resize. */
  lemma JustUsedKept<K(!new)>(order: seq<K>, k: K, capacity: nat)
    ensures k in Cut(Touched(order, k), capacity) <==> capacity >= 2 || Without(order, k) != []
  {
    hide Without;
    var t := Touched(order, k);
    assert t[|t| - 1] == k;
    if |t| + 1 > capacity {
      if |t| == 1 {
        assert t[1..] == [];
      } else {
        assert t[1..][|t| - 2] == k;
      }
    }
  }

  /** In a map that holds all it may, or more after a resize, a new key takes the place of the
      eldest; using a key that a shrunk map has makes it one smaller. */
  lemma ShrunkKeeps<K(!new)>(order: seq<K>, k: K, capacity: nat)
    requires Distinct(order) && order != []
    ensures k !in order && |order| + 2 > capacity ==> Cut(Touched(order, k), capacity) == order[1..] + [k]
    ensures k in order && |order| + 1 > capacity ==> |Cut(Touched(order, k), capacity)| == |order| - 1
  {
    hide Without;
    if k in order {
      var a :| 0 <= a < |order| && order[a] == k;
      WithoutAt(order, a);
    } else {
      NotListed(order, k);
    }
  }
}
