/**
 The aligned buffer pool over an intrusive free list: a released block keeps the link to
 the next one in the word that otherwise names its owner.  Addresses are numbers, memory
 is the owner-or-link word of each block, and the system may refuse any request.
 */
module BufferPool {
  import opened Basics
  import opened Lists

  type Addr = nat  // 0 is the null pointer

  const WORD: nat := 8  // the size of the link word
  const SIZES: nat := 0x1_0000_0000_0000_0000  // of size_t

  /** The blocks of that size are in memory and do not overlap each other. */
  ghost predicate Apart(blocks: set<Addr>, size: nat) {
    && (forall a :: a in blocks ==> a + size <= SIZES)
    && (forall a, b :: a in blocks && b in blocks && a < b ==> a + size <= b)
  }

  /** The list that starts at head and follows the link words is exactly chain. */
  ghost predicate Links(head: Addr, memory: map<Addr, Addr>, chain: seq<Addr>)
    decreases chain
  {
    if chain == [] then head == 0
    else head == chain[0] && head != 0 && head in memory && Links(memory[head], memory, chain[1..])
  }

  lemma {:induction false} LinksFrame(head: Addr, memory: map<Addr, Addr>, memory': map<Addr, Addr>, chain: seq<Addr>)
    requires Links(head, memory, chain)
    requires forall a :: a in chain ==> a in memory' && (a in memory ==> memory'[a] == memory[a])
    ensures Links(head, memory', chain)
    decreases chain
  {
    if chain != [] {
      LinksFrame(memory[head], memory, memory', chain[1..]);
    }
  }

  /** Every block from the system is on the free list or handed out, not both; the list is
      a chain without cycles; the word of a block handed out names the owner. */
  ghost predicate Kept(self: Addr, size: nat, maxLen: nat, head: Addr, memory: map<Addr, Addr>,
                       chain: seq<Addr>, out: set<Addr>) {
    && Distinct(chain) && Links(head, memory, chain) && |chain| <= maxLen
    && Elems(chain) !! out && memory.Keys == Elems(chain) + out
    && 0 !in memory && self != 0 && self !in memory
    && Apart(memory.Keys, size)
    && (forall a :: a in out ==> memory[a] == self)
    && (forall a :: a in chain ==> memory[a] == 0 || memory[a] in chain)
  }

  /** The links in a list without its head lead to its members. */
  lemma LinksTail(head: Addr, memory: map<Addr, Addr>, chain: seq<Addr>)
    requires Links(head, memory, chain) && chain != [] && Distinct(chain)
    ensures forall a :: a in chain[1..] ==> a in memory && (memory[a] == 0 || memory[a] in chain[1..])
  {
    LinksInside(memory[head], memory, chain[1..]);
  }

  lemma {:induction false} LinksInside(head: Addr, memory: map<Addr, Addr>, chain: seq<Addr>)
    requires Links(head, memory, chain)
    ensures forall a :: a in chain ==> a in memory && (memory[a] == 0 || memory[a] in chain)
    decreases chain
  {
    if chain != [] {
      LinksInside(memory[head], memory, chain[1..]);
      assert chain == [chain[0]] + chain[1..];
    }
  }

  lemma KeptFacts(self: Addr, size: nat, maxLen: nat, head: Addr, memory: map<Addr, Addr>, chain: seq<Addr>,
                  out: set<Addr>)
    requires Kept(self, size, maxLen, head, memory, chain, out)
    ensures head == 0 <==> chain == []
    ensures head != 0 ==> head == chain[0] && head in memory && head !in out
    ensures |chain| <= maxLen && memory.Keys == Elems(chain) + out && Apart(memory.Keys, size)
    ensures forall a :: a in memory ==> (memory[a] == self <==> a in out) && a != 0
  {
  }

  lemma PopKeeps(self: Addr, size: nat, maxLen: nat, head: Addr, memory: map<Addr, Addr>, chain: seq<Addr>,
                 out: set<Addr>)
    requires Kept(self, size, maxLen, head, memory, chain, out) && chain != []
    ensures head in memory && Kept(self, size, maxLen, memory[head], memory[head := self], chain[1..], out + {head})
  {
    var rest := chain[1..];
    assert [head] + rest == chain;
    DistinctCons(head, rest);
    LinksTail(head, memory, chain);
    LinksFrame(memory[head], memory, memory[head := self], rest);
    assert memory[head := self].Keys == memory.Keys;
  }

  lemma GrantKeeps(self: Addr, size: nat, maxLen: nat, memory: map<Addr, Addr>, out: set<Addr>, obj: Addr)
    requires Kept(self, size, maxLen, 0, memory, [], out) && obj != 0 && obj != self && obj !in memory
    requires obj + size <= SIZES && forall a :: a in memory.Keys ==> a + size <= obj || obj + size <= a
    ensures Kept(self, size, maxLen, 0, memory[obj := self], [], out + {obj})
  {
    assert memory[obj := self].Keys == memory.Keys + {obj};
    assert Elems<Addr>([]) == {};
  }

  lemma PushKeeps(self: Addr, size: nat, maxLen: nat, head: Addr, memory: map<Addr, Addr>, chain: seq<Addr>,
                  out: set<Addr>,
                  obj: Addr)
    requires Kept(self, size, maxLen, head, memory, chain, out) && obj in out && |chain| < maxLen
    ensures Kept(self, size, maxLen, obj, memory[obj := head], [obj] + chain, out - {obj})
  {
    hide Apart;
    DistinctCons(obj, chain);
    var memory' := memory[obj := head];
    LinksFrame(head, memory, memory', chain);
    assert ([obj] + chain)[1..] == chain;
    assert memory'.Keys == memory.Keys;
  }

  lemma ReturnKeeps(self: Addr, size: nat, maxLen: nat, head: Addr, memory: map<Addr, Addr>, chain: seq<Addr>,
                    out: set<Addr>,
                    obj: Addr)
    requires Kept(self, size, maxLen, head, memory, chain, out) && obj in out
    ensures Kept(self, size, maxLen, head, memory - {obj}, chain, out - {obj})
  {
    LinksFrame(head, memory, memory - {obj}, chain);
    assert (memory - {obj}).Keys == memory.Keys - {obj};
  }

  class FreeListHeap {
    const self: Addr         // the address of this object
    const hintSize: nat
    const maxLen: nat
    var freeList: Addr
    var listLen: nat
    var memory: map<Addr, Addr>  // the link words of the blocks that are there
    ghost var chain: seq<Addr>   // the free list
    ghost var out: set<Addr>     // the blocks handed out

    ghost predicate Valid()
      reads this
    {
      Kept(self, WORD + hintSize, maxLen, freeList, memory, chain, out) && listLen == |chain|
    }

    constructor (self: Addr, hintSize: nat, maxLen: nat)
      requires self != 0
      ensures Valid() && this.self == self && this.hintSize == hintSize && this.maxLen == maxLen
      ensures chain == [] && out == {}
    {
      this.self, this.hintSize, this.maxLen := self, hintSize, maxLen;
      freeList, listLen, memory := 0, 0, map[];
      chain, out := [], {};
    }

    /** What the system may hand out: a block away from all others and from this object. */
    predicate Grantable(obj: Addr)
      reads this
    {
      obj != 0 && obj != self && obj !in memory && obj + WORD + hintSize <= SIZES
      && (forall a :: a in memory.Keys ==> a + WORD + hintSize <= obj || obj + WORD + hintSize <= a)
    }

    /** The system's malloc: any block it may hand out, or none. */
    method SystemMalloc() returns (obj: Addr)
      ensures obj == 0 || Grantable(obj)
    {
      obj := *;
      if obj != 0 && !Grantable(obj) {
        obj := 0;
      }
    }

    /** A buffer: the head of the free list, or a block from the system. */
    method Malloc() returns (p: Addr)
      requires Valid()
      modifies this
      ensures Valid()
      ensures p == 0 ==> old(chain) == [] == chain && out == old(out)
      ensures p != 0 ==> p > WORD && p - WORD !in old(out) && out == old(out) + {p - WORD}
      ensures p != 0 ==> chain == if old(chain) == [] then [] else old(chain)[1..]
      ensures p != 0 && old(chain) != [] ==> p - WORD == old(chain)[0]
    {
      hide Kept;
      KeptFacts(self, WORD + hintSize, maxLen, freeList, memory, chain, out);
      if freeList != 0 {
        var obj := freeList;
        PopKeeps(self, WORD + hintSize, maxLen, freeList, memory, chain, out);
        freeList := memory[freeList];
        listLen := listLen - 1;
        memory := memory[obj := self];
        chain, out := chain[1..], out + {obj};
        return obj + WORD;
      }
      var obj := SystemMalloc();
      if obj == 0 {
        return 0;
      }
      GrantKeeps(self, WORD + hintSize, maxLen, memory, out, obj);
      memory := memory[obj := self];
      out := out + {obj};
      p := obj + WORD;
    }

    /** Take a buffer back if it is one that is handed out; anything else changes nothing. */
    method Free(p: Addr) returns (ok: bool)
      requires Valid() && (p == 0 || (p >= WORD && p - WORD in memory))
      modifies this
      ensures Valid()
      ensures ok <==> p != 0 && p - WORD in old(out)
      ensures !ok ==> memory == old(memory) && chain == old(chain) && out == old(out) && freeList == old(freeList)
      ensures ok ==> out == old(out) - {p - WORD}
      ensures ok ==> chain == if |old(chain)| < maxLen then [p - WORD] + old(chain) else old(chain)
    {
      hide Kept;
      KeptFacts(self, WORD + hintSize, maxLen, freeList, memory, chain, out);
      if p == 0 {
        return false;
      }
      var obj := p - WORD;
      if memory[obj] != self {
        return false;
      }
      if listLen < maxLen {
        PushKeeps(self, WORD + hintSize, maxLen, freeList, memory, chain, out, obj);
        memory := memory[obj := freeList];
        freeList := obj;
        listLen := listLen + 1;
        chain := [obj] + chain;
      } else {
        ReturnKeeps(self, WORD + hintSize, maxLen, freeList, memory, chain, out, obj);
        memory := memory - {obj};
      }
      out := out - {obj};
      ok := true;
    }
  }

  // ----- the pool

  datatype Error = NoError | NotInited | BadAlloc | AllInUse | BadPtr

  datatype Buffer = Buffer(ptr: Addr, len: nat)

  lemma MultipleModulo(q: nat, m: nat)
    requires m > 0
    ensures (q * m) % m == 0
  {
    Remainder(q * m, m, q, 0);
  }

  /** How far the buffer starts into its block, behind the link word. */
  function Padding(p: Addr, alignTo: nat): (n: nat) {
    if alignTo == 0 || p % alignTo == 0 then 0 else alignTo - p % alignTo
  }

  /** The padding makes the address a multiple, and there is room for it. */
  lemma PaddingAligns(p: Addr, alignTo: nat)
    ensures alignTo > 0 ==> Padding(p, alignTo) < alignTo && (p + Padding(p, alignTo)) % alignTo == 0
    ensures alignTo == 0 ==> Padding(p, alignTo) == 0
  {
    if alignTo > 0 && p % alignTo != 0 {
      var q := p / alignTo;
      assert p + (alignTo - p % alignTo) == (q + 1) * alignTo;
      MultipleModulo(q + 1, alignTo);
    }
  }

  /** The size that the code asks the system for, in size_t. */
  function Requested(bufSize: nat, alignTo: nat): nat {
    (WORD + (bufSize + alignTo) % SIZES) % SIZES
  }

  /** A block holds the link word and a buffer exactly if no sum wraps around. */
  lemma SizeExactly(bufSize: nat, alignTo: nat)
    requires 0 < bufSize < SIZES && alignTo < SIZES
    ensures Requested(bufSize, alignTo) >= WORD + bufSize <==> WORD + bufSize + alignTo < SIZES
  {
  }

  /** Where the buffer of a block starts, in addresses of size_t. */
  function Place(v: Addr, alignTo: nat): Addr {
    (v + Padding(v, alignTo)) % SIZES
  }

  /** The outstanding buffers, each with the address the free list gave for it. */
  ghost predicate Served(active: map<Addr, Addr>, out: set<Addr>, alignTo: nat) {
    forall p :: p in active ==> active[p] >= WORD && active[p] - WORD in out && p == Place(active[p], alignTo)
  }

  lemma ServedAt(active: map<Addr, Addr>, out: set<Addr>, alignTo: nat, p: Addr)
    requires Served(active, out, alignTo) && p in active
    ensures active[p] >= WORD && active[p] - WORD in out && p == Place(active[p], alignTo)
  {
  }

  /** A block with room for it has its buffer behind the link word, aligned. */
  lemma PlaceNear(v: Addr, alignTo: nat)
    requires v + alignTo < SIZES
    ensures v <= Place(v, alignTo) <= v + alignTo && (alignTo > 0 ==> Place(v, alignTo) % alignTo == 0)
  {
    hide Padding;
    PaddingAligns(v, alignTo);
    Remainder(v + Padding(v, alignTo), SIZES, 0, v + Padding(v, alignTo));
  }

  lemma BlocksApart(blocks: set<Addr>, size: nat, a: Addr, b: Addr)
    requires Apart(blocks, size) && a in blocks && b in blocks
    ensures a + size <= SIZES && b + size <= SIZES
    ensures a != b ==> a + size <= b || b + size <= a
  {
  }

  lemma FreshPlace(blocks: set<Addr>, size: nat, active: map<Addr, Addr>, out: set<Addr>, alignTo: nat, ptr: Addr)
    requires Apart(blocks, size) && size > WORD + alignTo && Served(active, out, alignTo)
    requires ptr >= WORD && ptr - WORD !in out && out <= blocks && ptr - WORD in blocks
    ensures Place(ptr, alignTo) !in active
  {
    hide Apart, Place, Padding, Served;
    var p := Place(ptr, alignTo);
    if p in active {
      ServedAt(active, out, alignTo, p);
      BlocksApart(blocks, size, active[p] - WORD, ptr - WORD);
      PlaceNear(ptr, alignTo);
      PlaceNear(active[p], alignTo);
      assert false;
    }
  }

  /** A new block makes a buffer; with room for the alignment one that is not outstanding yet. */
  lemma Serve(blocks: set<Addr>, size: nat, active: map<Addr, Addr>, out: set<Addr>, alignTo: nat, ptr: Addr)
    requires Apart(blocks, size) && Served(active, out, alignTo)
    requires ptr >= WORD && ptr - WORD !in out && out + {ptr - WORD} <= blocks
    ensures size > WORD + alignTo ==> Place(ptr, alignTo) !in active
    ensures Served(active[Place(ptr, alignTo) := ptr], out + {ptr - WORD}, alignTo)
  {
    hide Apart, Place, Served;
    assert ptr - WORD in out + {ptr - WORD};
    if size > WORD + alignTo {
      FreshPlace(blocks, size, active, out, alignTo, ptr);
    }
    ServeMore(active, out, alignTo, ptr);
  }

  lemma ServeMore(active: map<Addr, Addr>, out: set<Addr>, alignTo: nat, ptr: Addr)
    requires Served(active, out, alignTo) && ptr >= WORD
    ensures Served(active[Place(ptr, alignTo) := ptr], out + {ptr - WORD}, alignTo)
  {
    hide Place;
  }

  lemma OneMore(active: map<Addr, Addr>, p: Addr, v: Addr)
    ensures |active[p := v]| == |active| + if p in active then 0 else 1
  {
    assert active[p := v].Keys == active.Keys + {p};
  }

  /** The padding as the code computes it. */
  lemma PlaceInCode(ptr: Addr, alignTo: nat, padding: nat)
    requires padding == if alignTo == 0 || alignTo - ptr % alignTo == alignTo then 0 else alignTo - ptr % alignTo
    ensures (ptr + padding) % SIZES == Place(ptr, alignTo)
  {
  }

  /** The buffers' places in two blocks that the system may have out at once, for the hint
      that the sum of the sizes has wrapped around to. */
  predicate TwoBlocks(v: Addr, w: Addr, hint: nat) {
    v > WORD && v + WORD + hint <= w && w + hint <= SIZES
  }

  /** The multiple of the alignment that is at or next after an address. */
  lemma NextMultiple(v: Addr, alignTo: nat) returns (q: nat)
    requires alignTo > 0 && v > 0
    ensures v + Padding(v, alignTo) == q * alignTo && q > 0 && (q - 1) * alignTo < v <= q * alignTo
  {
    q := if v % alignTo == 0 then v / alignTo else v / alignTo + 1;
    assert v == (v / alignTo) * alignTo + v % alignTo;
    assert (v / alignTo + 1) * alignTo == (v / alignTo) * alignTo + alignTo;
    assert (v / alignTo - 1) * alignTo == (v / alignTo) * alignTo - alignTo;
  }

  /** Two addresses have the same place only between the same two multiples. */
  lemma SamePlace(v: Addr, w: Addr, alignTo: nat) returns (q: nat)
    requires 0 < alignTo < SIZES && 0 < v < w <= SIZES && Place(v, alignTo) == Place(w, alignTo)
    ensures q > 0 && (q - 1) * alignTo < v && w <= q * alignTo
  {
    hide Padding;
    q := NextMultiple(v, alignTo);
    var p := NextMultiple(w, alignTo);
    SameMultiple(q, p, alignTo, v, w);
  }

  lemma SameMultiple(q: nat, p: nat, m: nat, v: nat, w: nat)
    requires 0 < m < SIZES && 0 < v < w <= SIZES && q > 0 && p > 0 && (q * m) % SIZES == (p * m) % SIZES
    requires (q - 1) * m < v <= q * m && (p - 1) * m < w <= p * m
    ensures q == p
  {
    assert (q - 1) * m == q * m - m && (p - 1) * m == p * m - m;
    assert q * m >= m by { MulMono(q, m); }
    assert p * m - q * m < SIZES && q * m - p * m < m;
    assert p * m == q * m;
    Unscale(q, p, m);
  }

  lemma Unscale(q: nat, p: nat, m: nat)
    requires m > 0 && q * m == p * m
    ensures q == p
  {
    MulMono(q - p, m);
    assert (q - p) * m == 0;
  }

  /** Where the sum of the sizes wraps around to a hint, two blocks may have the same buffer
      exactly if there is room for both places between two multiples of the alignment:
      before the first one, or after it. */
  lemma BuffersCollideExactly(bufSize: nat, alignTo: nat)
    requires 0 < bufSize < SIZES && alignTo < SIZES <= bufSize + alignTo
    ensures var hint := (bufSize + alignTo) % SIZES;
      (exists v, w :: TwoBlocks(v, w, hint) && Place(v, alignTo) == Place(w, alignTo)) <==>
        ((alignTo >= hint + 17 && 2 * hint + 17 <= SIZES) || (alignTo >= hint + 9 && alignTo + 2 * hint + 9 <= SIZES))
  {
    var hint := (bufSize + alignTo) % SIZES;
    if v, w :| TwoBlocks(v, w, hint) && Place(v, alignTo) == Place(w, alignTo) {
      var q := SamePlace(v, w, alignTo);
      RoomForTwo(v, w, hint, alignTo, q);
    }
    if alignTo >= hint + 17 && 2 * hint + 17 <= SIZES {
      PlaceBefore(9, alignTo, 1);
      PlaceBefore(17 + hint, alignTo, 1);
      assert TwoBlocks(9, 17 + hint, hint);
    } else if alignTo >= hint + 9 && alignTo + 2 * hint + 9 <= SIZES {
      PlaceBefore(alignTo + 1, alignTo, 2);
      PlaceBefore(alignTo + 9 + hint, alignTo, 2);
      assert TwoBlocks(alignTo + 1, alignTo + 9 + hint, hint);
    }
  }

  lemma RoomForTwo(v: Addr, w: Addr, hint: nat, alignTo: nat, q: nat)
    requires TwoBlocks(v, w, hint) && q > 0 && (q - 1) * alignTo < v && w <= q * alignTo
    ensures (alignTo >= hint + 17 && 2 * hint + 17 <= SIZES) || (alignTo >= hint + 9 && alignTo + 2 * hint + 9 <= SIZES)
  {
    assert q * alignTo == (q - 1) * alignTo + alignTo;
    if q > 1 {
      assert (q - 1) * alignTo >= alignTo by {
        if alignTo > 0 {
          MulMono(q - 1, alignTo);
        }
      }
    }
  }

  lemma PlaceBefore(v: Addr, alignTo: nat, q: nat)
    requires 0 < alignTo && 1 <= q <= 2 && (q - 1) * alignTo < v <= q * alignTo
    ensures Place(v, alignTo) == (q * alignTo) % SIZES
  {
    var r := v - (q - 1) * alignTo;
    if r < alignTo {
      Remainder(v, alignTo, q - 1, r);
    } else {
      Remainder(v, alignTo, q, 0);
    }
  }

  lemma Unserve(active: map<Addr, Addr>, out: set<Addr>, alignTo: nat, p: Addr)
    requires Served(active, out, alignTo) && p in active
    ensures active[p] >= WORD && active[p] - WORD in out
    ensures Served(active - {p}, out - {active[p] - WORD}, alignTo) && |active - {p}| == |active| - 1
  {
    hide Place;
    var rest := active - {p};
    assert rest.Keys == active.Keys - {p};
  }

  /** Outstanding buffers are aligned, inside their own block, and do not overlap. */
  lemma BuffersApart(blocks: set<Addr>, len: nat, active: map<Addr, Addr>, out: set<Addr>, alignTo: nat,
                     p: Addr, q: Addr)
    requires Apart(blocks, WORD + len + alignTo) && Served(active, out, alignTo) && out <= blocks
    requires p in active && q in active && p != q && len > 0
    ensures alignTo > 0 ==> p % alignTo == 0
    ensures active[p] >= WORD && active[p] <= p && p + len <= active[p] + len + alignTo
    ensures p + len <= q || q + len <= p
  {
    hide Apart, Place, Served;
    ServedAt(active, out, alignTo, p);
    ServedAt(active, out, alignTo, q);
    BlocksApart(blocks, WORD + len + alignTo, active[p] - WORD, active[q] - WORD);
    PlaceNear(active[p], alignTo);
    PlaceNear(active[q], alignTo);
  }

  class BufferPool {
    var flist: FreeListHeap?
    var active: map<Addr, Addr>
    var bufferSize: nat
    var poolSizeMax: nat
    var alignTo: nat

    /** The blocks have room for the alignment: the sum of the sizes has not wrapped around. */
    ghost predicate Sized()
      reads this
    {
      alignTo < bufferSize
    }

    ghost predicate Valid()
      reads this, flist
    {
      if flist == null then active == map[]
      else
        && flist.Valid() && flist.hintSize == bufferSize && flist.maxLen <= poolSizeMax
        && alignTo < SIZES && WORD + bufferSize < SIZES && Served(active, flist.out, alignTo)
        && (Sized() ==> |active| == |flist.out|)
        && |active| + |flist.chain| <= poolSizeMax
    }

    constructor ()
      ensures Valid() && flist == null
    {
      flist, active, bufferSize, poolSizeMax, alignTo := null, map[], 0, 0, 0;
    }

    /** Set the pool up, once.  `self` is the address of the new free list.  The code has no
        use for a block that does not even hold the link word. */
    method Initialize(bufSize: nat, maxBuffers: nat, maxFreeBuffers: nat, align: nat, self: Addr) returns (ok: bool)
      requires Valid() && self != 0 && bufSize < SIZES && align < SIZES
      requires WORD + (bufSize + align) % SIZES < SIZES
      modifies this
      ensures Valid()
      ensures ok <==> old(flist) == null && bufSize > 0 && 0 < maxBuffers && maxFreeBuffers <= maxBuffers
      ensures ok ==> flist != null && fresh(flist) && flist.chain == [] && flist.maxLen == maxFreeBuffers
      ensures ok ==> poolSizeMax == maxBuffers && active == map[]
      ensures ok ==> alignTo == align && bufferSize == (bufSize + align) % SIZES
      ensures ok ==> (Sized() <==> bufSize + align < SIZES)
      ensures !ok ==> flist == old(flist) && active == old(active) && poolSizeMax == old(poolSizeMax)
      ensures !ok ==> alignTo == old(alignTo) && bufferSize == old(bufferSize)
    {
      hide Kept, Place;
      if bufSize == 0 || maxBuffers == 0 || maxFreeBuffers > maxBuffers {
        return false;
      }
      if flist == null {
        alignTo := align;
        flist := new FreeListHeap(self, (bufSize + align) % SIZES, maxFreeBuffers);
        bufferSize := (bufSize + align) % SIZES;
        poolSizeMax := maxBuffers;
        return true;
      }
      ok := false;
    }

    /** A buffer out of the pool. */
    method Allocate(buf: Buffer) returns (ok: bool, buf': Buffer, err: Error)
      requires Valid()
      modifies this, flist
      ensures Valid() && flist == old(flist) && poolSizeMax == old(poolSizeMax)
      ensures alignTo == old(alignTo) && bufferSize == old(bufferSize)
      ensures ok <==> err == NoError
      ensures flist == null ==> err == NotInited
      ensures flist != null && |old(active)| >= poolSizeMax ==> err == AllInUse
      ensures flist != null && |old(active)| < poolSizeMax && old(flist.chain) != [] ==> err == NoError
      ensures flist != null && |old(active)| < poolSizeMax ==> err in {NoError, BadAlloc}
      ensures !ok ==> active == old(active)
      ensures !ok && flist != null ==> flist.chain == old(flist.chain) && flist.out == old(flist.out)
      ensures err in {NotInited, AllInUse} ==> buf' == Buffer(0, 0)
      ensures ok ==> buf'.ptr in active && active == old(active)[buf'.ptr := active[buf'.ptr]]
      ensures ok && Sized() ==> buf'.ptr !in old(active)
      ensures ok ==> buf'.len == (bufferSize - alignTo) % SIZES
      ensures ok ==> flist.chain == if old(flist.chain) == [] then [] else old(flist.chain)[1..]
      ensures err == BadAlloc ==> buf' == buf.(len := 0)  // the caller's pointer stays
    {
      hide Kept, Served, Apart, Place;
      if flist == null {
        return false, Buffer(0, 0), NotInited;
      }
      if |active| >= poolSizeMax {
        return false, Buffer(0, 0), AllInUse;
      }
      var ptr := flist.Malloc();
      if ptr == 0 {
        return false, buf.(len := 0), BadAlloc;
      }
      var padding := if alignTo == 0 then 0 else alignTo - ptr % alignTo;
      if padding == alignTo {
        padding := 0;
      }
      var place := (ptr + padding) % SIZES;
      PlaceInCode(ptr, alignTo, padding);
      KeptBlocks(flist);
      Serve(flist.memory.Keys, WORD + bufferSize, active, old(flist.out), alignTo, ptr);
      OneMore(active, place, ptr);
      buf' := Buffer(place, (bufferSize - alignTo) % SIZES);
      active := active[buf'.ptr := ptr];
      ok, err := true, NoError;
    }

    /** Give a buffer back; a pointer that is not outstanding is refused and changes nothing. */
    method ReleaseBuffer(buf: Buffer) returns (ok: bool, err: Error)
      requires Valid()
      modifies this, flist
      ensures Valid() && flist == old(flist) && poolSizeMax == old(poolSizeMax)
      ensures alignTo == old(alignTo) && bufferSize == old(bufferSize)
      ensures ok <==> err == NoError
      ensures ok <==> flist != null && buf.ptr != 0 && buf.ptr in old(active)
      ensures !ok ==> err == if buf.ptr == 0 then BadPtr else if flist == null then NotInited else BadPtr
      ensures !ok ==> active == old(active)
      ensures !ok && flist != null ==> flist.chain == old(flist.chain) && flist.out == old(flist.out)
      ensures ok ==> active == old(active) - {buf.ptr}
      ensures ok ==> |flist.chain| == |old(flist.chain)| + if |old(flist.chain)| < flist.maxLen then 1 else 0
    {
      hide Kept, Served, Apart;
      if buf.ptr == 0 {
        return false, BadPtr;
      }
      if flist == null {
        return false, NotInited;
      }
      if buf.ptr !in active {
        return false, BadPtr;
      }
      Unserve(active, flist.out, alignTo, buf.ptr);
      KeptBlocks(flist);
      var freed := flist.Free(active[buf.ptr]);
      // a buffer that is outstanding is never refused
      assert freed;
      active := active - {buf.ptr};
      ok, err := true, NoError;
    }

    /** Have n free buffers ready, as far as the two limits and the system allow. */
    method Reserve(n: nat) returns (r: nat, ghost failed: nat)
      requires Valid()
      modifies this, flist
      ensures Valid() && flist == old(flist) && active == old(active) && poolSizeMax == old(poolSizeMax)
      ensures alignTo == old(alignTo) && bufferSize == old(bufferSize)
      ensures flist == null ==> r == 0
      ensures flist != null ==>
                var most := if flist.maxLen < poolSizeMax - |active| then flist.maxLen else poolSizeMax - |active|;
                var want, free := if n < most then n else most, |old(flist.chain)|;
                && r == |flist.chain| == (if want > free then want - failed else free)
                && (want > free ==> failed <= want - free)
      ensures flist != null ==> flist.out == old(flist.out)
    {
      hide Kept, Served, Apart;
      failed := 0;
      if flist == null {
        return 0, 0;
      }
      var n := n;
      if n > flist.maxLen {
        n := flist.maxLen;
      }
      if n > poolSizeMax - |active| {
        n := poolSizeMax - |active|;
      }
      if n > 0 && n > flist.listLen {
        failed := Refill(flist, n);
      }
      r := flist.listLen;
    }
  }

  /** The buffers taken are of blocks handed out, and these were not before. */
  ghost predicate TakenFrom(out: set<Addr>, before: set<Addr>, tmp: set<Addr>) {
    forall p :: p in tmp ==> p > WORD && p - WORD !in before && p - WORD in out
  }

  /** Whatever was not handed out before is a block of a buffer taken. */
  ghost predicate TakenAll(out: set<Addr>, before: set<Addr>, tmp: set<Addr>) {
    forall a :: a in out && a !in before ==> a + WORD in tmp
  }

  ghost predicate Taken(out: set<Addr>, before: set<Addr>, tmp: set<Addr>) {
    TakenFrom(out, before, tmp) && TakenAll(out, before, tmp) && before <= out
  }

  lemma TakeOne(out: set<Addr>, before: set<Addr>, tmp: set<Addr>, p: Addr)
    requires Taken(out, before, tmp) && p > WORD && p - WORD !in out
    ensures p !in tmp && Taken(out + {p - WORD}, before, tmp + {p})
  {
  }

  lemma GiveOne(out: set<Addr>, before: set<Addr>, tmp: set<Addr>, p: Addr)
    requires Taken(out, before, tmp) && p in tmp
    ensures p > WORD && p - WORD in out && Taken(out - {p - WORD}, before, tmp - {p})
  {
    hide TakenAll;
    GiveAll(out, before, tmp, p);
  }

  lemma GiveAll(out: set<Addr>, before: set<Addr>, tmp: set<Addr>, p: Addr)
    requires TakenAll(out, before, tmp) && p > WORD
    ensures TakenAll(out - {p - WORD}, before, tmp - {p})
  {
  }

  lemma NoneTaken(out: set<Addr>, before: set<Addr>)
    ensures Taken(out, before, {}) <==> out == before
  {
  }

  /** Take n buffers from the free list or the system, and give all of them back. */
  method Refill(flist: FreeListHeap, n: nat) returns (ghost failed: nat)
    requires flist.Valid() && |flist.chain| < n <= flist.maxLen
    modifies flist
    ensures flist.Valid() && flist.out == old(flist.out)
    ensures |flist.chain| == n - failed && failed <= n - |old(flist.chain)|
  {
    hide Kept, Taken, TakenFrom, TakenAll;
    var tmp;
    tmp, failed := Take(flist, n);
    ghost var before := old(flist.out);
    while tmp != {}
      invariant flist.Valid() && |flist.chain| + |tmp| == n - failed && Taken(flist.out, before, tmp)
      decreases |tmp|
    {
      var p :| p in tmp;
      KeptBlocks(flist);
      GiveOne(flist.out, before, tmp, p);
      assert p - WORD in flist.memory.Keys;
      var _ := flist.Free(p);
      tmp := tmp - {p};
    }
    NoneTaken(flist.out, before);
  }

  method Take(flist: FreeListHeap, n: nat) returns (tmp: set<Addr>, ghost failed: nat)
    requires flist.Valid() && |flist.chain| < n
    modifies flist
    ensures flist.Valid() && flist.chain == [] && Taken(flist.out, old(flist.out), tmp)
    ensures |tmp| == n - failed && failed <= n - |old(flist.chain)|
  {
    hide Kept, Taken, TakenFrom, TakenAll;
    tmp, failed := {}, 0;
    ghost var before, free := flist.out, |flist.chain|;
    NoneTaken(flist.out, before);
    for i := 0 to n
      invariant flist.Valid() && |flist.chain| == (if i < free then free - i else 0)
      invariant failed <= (if i < free then 0 else i - free) && |tmp| == i - failed
      invariant Taken(flist.out, before, tmp)
    {
      ghost var out := flist.out;
      var p := flist.Malloc();
      if p != 0 {
        TakeOne(out, before, tmp, p);
        tmp := tmp + {p};
      } else {
        failed := failed + 1;
      }
    }
  }

  lemma KeptBlocks(flist: FreeListHeap)
    requires flist.Valid()
    ensures flist.out <= flist.memory.Keys && Apart(flist.memory.Keys, WORD + flist.hintSize)
  {
  }

  /** Whatever calls came before: outstanding buffers are aligned and do not overlap. */
  lemma PoolBuffersApart(pool: BufferPool, p: Addr, q: Addr)
    requires pool.Valid() && pool.flist != null && pool.Sized() && p in pool.active && q in pool.active && p != q
    ensures pool.alignTo > 0 ==> p % pool.alignTo == 0
    ensures var len := pool.bufferSize - pool.alignTo; p + len <= q || q + len <= p
  {
    hide Kept, Served;
    KeptBlocks(pool.flist);
    BuffersApart(pool.flist.memory.Keys, pool.bufferSize - pool.alignTo, pool.active, pool.flist.out,
                 pool.alignTo, p, q);
  }

  /** Whatever calls came before: the blocks that the system gave and has not got back are
      the outstanding and the free ones, each counted once, and within the limits. */
  lemma PoolConserves(pool: BufferPool)
    requires pool.Valid() && pool.flist != null && pool.Sized()
    ensures |pool.flist.memory| == |pool.active| + |pool.flist.chain| <= pool.poolSizeMax
    ensures |pool.flist.chain| == pool.flist.listLen <= pool.flist.maxLen
    ensures forall p :: p in pool.active ==>
              (pool.active[p] - WORD in pool.flist.memory && pool.active[p] - WORD !in pool.flist.chain)
  {
    hide Apart, Links, Place;
    DistinctSize(pool.flist.chain);
    assert |pool.flist.memory.Keys| == |Elems(pool.flist.chain)| + |pool.flist.out|;
    assert |pool.flist.memory| == |pool.flist.memory.Keys|;
  }
}
