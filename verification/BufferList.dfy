/**
 The paged byte list: what reading gives at any offset, and that filling at the end
 appends, keeping every page but the last one full.
 */
module BufferList {
  import opened Basics

  const PAGE_SIZE: nat := 4096

  datatype BD = BD(data: array<Byte>, len: nat, size: nat)

  // ----- contents

  /** The memory of a page, and how much of it is in use. */
  datatype Page = Page(bytes: seq<Byte>, len: nat)
  {
    function InUse(): seq<Byte> {
      if len <= |bytes| then bytes[..len] else bytes
    }
  }

  /** All pages' bytes in use, one after the other. */
  function Flat(pages: seq<Page>): seq<Byte> {
    if pages == [] then [] else Flat(pages[..|pages| - 1]) + pages[|pages| - 1].InUse()
  }

  lemma FlatNext(pages: seq<Page>, i: nat)
    requires i < |pages|
    ensures Flat(pages[..i + 1]) == Flat(pages[..i]) + pages[i].InUse()
  {
    assert pages[..i + 1][..i] == pages[..i];
  }

  lemma {:induction false} FlatPrefix(pages: seq<Page>, i: nat)
    requires i <= |pages|
    ensures |Flat(pages[..i])| <= |Flat(pages)| && Flat(pages)[..|Flat(pages[..i])|] == Flat(pages[..i])
  {
    if i < |pages| {
      FlatPrefix(pages[..|pages| - 1], i);
      assert pages[..|pages| - 1][..i] == pages[..i];
    } else {
      assert pages[..i] == pages;
    }
  }

  /** Where page i is in the whole. */
  lemma PageAt(pages: seq<Page>, i: nat)
    requires i < |pages|
    ensures var start := |Flat(pages[..i])|;
            && start + |pages[i].InUse()| <= |Flat(pages)|
            && Flat(pages)[start..start + |pages[i].InUse()|] == pages[i].InUse()
  {
    FlatNext(pages, i);
    FlatPrefix(pages, i + 1);
    var start := |Flat(pages[..i])|;
    var n := |pages[i].InUse()|;
    assert Flat(pages)[start..start + n] == Flat(pages)[..start + n][start..];
  }

  /** What reading `len` bytes at an offset gives. */
  function Slice(all: seq<Byte>, offset: nat, len: nat): seq<Byte> {
    if offset >= |all| then [] else if len < |all| - offset then all[offset..offset + len] else all[offset..]
  }

  class BufferList {
    const bReference: bool
    var bdlist: seq<BD>
    var totalSize: nat
    ghost var pages: seq<Page>

    ghost function Arrays(): set<object>
      reads this
    {
      set bd | bd in bdlist :: bd.data
    }

    ghost predicate Valid()
      reads this, Arrays()
    {
      && |pages| == |bdlist|
      && (forall i :: 0 <= i < |bdlist| ==> bdlist[i] in bdlist && PageOk(bdlist[i], pages[i]))
      && (forall i, j :: 0 <= i < j < |bdlist| ==> bdlist[i].data != bdlist[j].data)
    }

    static ghost predicate PageOk(bd: BD, page: Page)
      reads bd.data
    {
      bd.len == page.len <= bd.size == |page.bytes| <= bd.data.Length && bd.data[..bd.size] == page.bytes
    }

    /** All the bytes of the list, in order. */
    ghost function Contents(): seq<Byte>
      reads this
    {
      Flat(pages)
    }

    /** An owned list's pages are of one size, and all but the last are full. */
    ghost predicate Paged()
      reads this
    {
      !bReference && totalSize == PAGE_SIZE * |pages| && PagedPages(pages)
    }

    constructor (reference: bool)
      ensures Valid() && bdlist == [] && bReference == reference && Contents() == [] && (!reference ==> Paged())
    {
      bReference, bdlist, totalSize := reference, [], 0;
      pages := [];
    }

    method Length() returns (len: nat)
      requires Valid()
      ensures len == |Contents()|
    {
      len := 0;
      var i := 0;
      assert pages[..0] == [];
      while i < |bdlist|
        invariant i <= |bdlist| && len == |Flat(pages[..i])|
      {
        FlatNext(pages, i);
        assert PageOk(bdlist[i], pages[i]);
        len := len + bdlist[i].len;
        i := i + 1;
      }
      assert pages[..i] == pages;
    }

    /** The page that a position of the contents is in, and where in the page. */
    method SeekRead(offset: nat) returns (i: nat, offsetInBD: nat)
      requires Valid()
      ensures i <= |bdlist|
      ensures i < |bdlist| ==> offsetInBD <= bdlist[i].len && |Flat(pages[..i])| + offsetInBD == offset
      ensures i == |bdlist| ==> offset >= |Contents()|
    {
      i, offsetInBD := 0, 0;
      var offsetInBuffer := 0;
      assert pages[..0] == [];
      while i < |bdlist|
        invariant i <= |bdlist| && offsetInBuffer == |Flat(pages[..i])| <= offset
      {
        FlatNext(pages, i);
        assert PageOk(bdlist[i], pages[i]);
        if offsetInBuffer + bdlist[i].len < offset {
          offsetInBuffer := offsetInBuffer + bdlist[i].len;
          i := i + 1;
        } else {
          offsetInBD := offset - offsetInBuffer;
          return;
        }
      }
      assert pages[..i] == pages;
    }

    /** Copy out the contents from offset on, as far as they go and as far as asked. */
    method Read(buf: array<Byte>, offset: nat, len: nat) returns (r: nat)
      requires Valid() && len <= buf.Length && buf !in Arrays()
      modifies buf
      ensures Valid()
      ensures r == |Slice(Contents(), offset, len)| && buf[..r] == Slice(Contents(), offset, len)
      ensures buf[r..] == old(buf[r..])
    {
      hide Flat, ReadUpTo, Page.InUse, PageOk, Valid, Slice;
      ValidPages();
      var i: nat, offsetInBD: nat := SeekRead(offset);
      if i == |bdlist| {
        NothingToRead(pages, offset, len);
        return 0;
      }
      var nLeft: nat := len;
      PageFacts(i);
      ReadStart(pages, offset, i, offsetInBD, nLeft);
      ghost var got: seq<Byte> := [];
      while nLeft > 0 && i < |bdlist|
        invariant i <= |bdlist| && nLeft <= len && Valid()
        invariant i < |bdlist| ==> offsetInBD <= bdlist[i].len
        invariant i == |bdlist| ==> offsetInBD == 0
        invariant |got| == len - nLeft && buf[..len - nLeft] == got
        invariant ReadUpTo(pages, got, offset, i, offsetInBD, nLeft)
        invariant buf[len - nLeft..] == old(buf[len - nLeft..])
        decreases |bdlist| - i
      {
        var nBytes := ReadOne(buf, len - nLeft, i, offsetInBD, nLeft);
        PageFacts(i);
        ReadStep(pages, got, offset, i, offsetInBD, nLeft, nBytes);
        got := got + pages[i].InUse()[offsetInBD..offsetInBD + nBytes];
        TailOf(old(buf[..]), len - nLeft, nBytes);
        nLeft := nLeft - nBytes;
        i, offsetInBD := i + 1, 0;
      }
      ReadEnd(pages, got, offset, i, nLeft, offsetInBD);
      r := len - nLeft;
    }

    /** Copy out what page i has from an offset on, at most nLeft bytes. */
    method ReadOne(buf: array<Byte>, at: nat, i: nat, offsetInBD: nat, nLeft: nat) returns (nBytes: nat)
      requires Valid() && buf !in Arrays() && i < |bdlist| && offsetInBD <= bdlist[i].len && at + nLeft <= buf.Length
      modifies buf
      ensures Valid()
      ensures nBytes == if bdlist[i].len - offsetInBD > nLeft then nLeft else bdlist[i].len - offsetInBD
      ensures |pages[i].InUse()| == bdlist[i].len
      ensures buf[..at + nBytes] == old(buf[..at]) + pages[i].InUse()[offsetInBD..offsetInBD + nBytes]
      ensures buf[at + nBytes..] == old(buf[at + nBytes..])
    {
      hide Page.InUse, PageOk, Valid;
      ValidPages();
      PageFacts(i);
      nBytes := bdlist[i].len - offsetInBD;
      if nBytes > nLeft {
        nBytes := nLeft;
      }
      ReadPage(buf, at, i, offsetInBD, nBytes);
    }

    /** Join a piece of memory in, with `len` bytes of it in use. */
    method DoJoin(data: array<Byte>, len: nat) returns (total: nat)
      requires Valid() && len <= data.Length && data !in Arrays()
      modifies this`bdlist, this`totalSize, this`pages
      ensures Valid() && bdlist == old(bdlist) + [BD(data, len, data.Length)]
      ensures pages == old(pages) + [Page(data[..], len)] && totalSize == total == old(totalSize) + data.Length
    {
      bdlist := bdlist + [BD(data, len, data.Length)];
      totalSize := totalSize + data.Length;
      pages := pages + [Page(data[..], len)];
      forall j | 0 <= j < |bdlist| ensures PageOk(bdlist[j], pages[j]) {
        if j < |old(bdlist)| {
          assert old(PageOk(bdlist[j], pages[j])) && bdlist[j] == old(bdlist)[j];
        }
      }
      total := totalSize;
    }

    /** The page with room for position `offset`, counting the pages' sizes. */
    method SeekFill(offset: nat) returns (i: nat, offsetInBD: nat)
      requires Valid()
      ensures i <= |pages| && (i == |pages| ==> offset > Room(pages, i) || i == 0)
      ensures i < |pages| ==> offsetInBD <= |pages[i].bytes| && Room(pages, i) + offsetInBD == offset
    {
      i, offsetInBD := 0, 0;
      var offsetInBuffer := 0;
      while i < |bdlist|
        invariant i <= |bdlist| && offsetInBuffer == Room(pages, i) && (i > 0 ==> offset > offsetInBuffer)
      {
        assert PageOk(bdlist[i], pages[i]);
        if offsetInBuffer + bdlist[i].size < offset {
          offsetInBuffer := offsetInBuffer + bdlist[i].size;
          i := i + 1;
        } else {
          offsetInBD := offset - offsetInBuffer;
          return;
        }
      }
    }

    /** Write bytes into page i, and take what is behind them out of use. */
    method WritePage(i: nat, at: nat, bytes: seq<Byte>)
      requires Valid() && i < |bdlist| && at + |bytes| <= bdlist[i].size
      modifies this`bdlist, this`pages, bdlist[i].data
      ensures Valid() && Arrays() == old(Arrays()) && |bdlist| == |old(bdlist)|
      ensures i < |old(pages)| && at + |bytes| <= |old(pages)[i].bytes| == old(bdlist)[i].size
      ensures pages == old(pages)[i := Overwritten(old(pages)[i], at, bytes)]
      ensures forall j :: 0 <= j < |bdlist| ==>
                bdlist[j].data == old(bdlist)[j].data && bdlist[j].size == old(bdlist)[j].size
    {
      var bd := bdlist[i];
      assert PageOk(bd, pages[i]);
      Copy(bd.data, at, bytes);
      OverwrittenInMemory(old(bd.data[..]), bd.data[..], bd.size, at, bytes);
      bdlist := bdlist[i := bd.(len := at + |bytes|)];
      pages := pages[i := Overwritten(pages[i], at, bytes)];
      forall j | 0 <= j < |bdlist| ensures PageOk(bdlist[j], pages[j]) {
        if j != i {
          assert bdlist[j].data != bd.data && old(PageOk(bdlist[j], pages[j]));
        }
      }
      SameArrays(old(bdlist), i, bdlist[i]);
    }

    /** Fill bytes in at an offset.  What fits into the pages that are there overwrites them
        from the offset on and ends what is in use of each page it touches; a list that owns
        its pages takes the rest on new ones. */
    method Fill(buf: seq<Byte>, offset: nat) returns (filled: nat)
      requires Valid()
      modifies this, Arrays()
      ensures Valid() && fresh(Arrays() - old(Arrays()))
      ensures var k, n := |old(pages)|, Fitting(old(pages), offset, |buf|);
        && k <= |pages| && Filled(old(pages), pages[..k], offset, buf[..n])
        && filled == (if bReference then n else |buf|)
        && (bReference || n == |buf| ==> |pages| == k)
        && (!bReference ==> OnNewPages(pages[k..], buf[n..]))
        && totalSize == old(totalSize) + 4096 * (|pages| - k)
      ensures old(Paged()) && offset == |old(Contents())| ==>
                Paged() && Contents() == old(Contents()) + buf && filled == |buf|
      ensures old(Paged()) && offset <= |old(Contents())| && buf != [] ==>
                Contents() == old(Contents())[..offset] + buf + From(old(Contents()), PageEnd(offset + |buf|))
    {
      hide Flat, PageOk, Filled, OnNewPages, FullPages, Fitting, Valid, PagedPages;
      ValidPages();
      var nLeft: nat := FillPages(buf, offset);
      ghost var k: nat, n: nat, total, filledPages := |pages|, |buf| - nLeft, totalSize, pages;
      assert pages[..k] == pages && pages[k..] == [];
      NoNewPages();
      assert buf[n..n] == [];
      while !bReference && nLeft > 0
        invariant nLeft <= |buf| - n && Valid() && fresh(Arrays() - old(Arrays()))
        invariant k <= |pages| && pages[..k] == filledPages && (bReference ==> |pages| == k && nLeft == |buf| - n)
        invariant n == |buf| ==> |pages| == k
        invariant OnNewPages(pages[k..], buf[n..|buf| - nLeft]) && (nLeft > 0 ==> FullPages(pages[k..]))
        invariant totalSize == total + PAGE_SIZE * (|pages| - k)
      {
        nLeft := FillNew(buf, n, k, nLeft);
      }
      assert buf[n..|buf|] == buf[n..];
      filled := |buf| - nLeft;
      if old(Paged()) && offset == |old(Contents())| {
        AppendsAtEnd(old(pages), pages, offset, buf);
      }
      if old(Paged()) && offset <= |old(Contents())| && buf != [] {
        FillsInMiddle(old(pages), pages, offset, buf);
      }
    }

    lemma PageFacts(i: nat)
      requires Valid() && i < |bdlist|
      ensures |pages| == |bdlist| && bdlist[i].data in Arrays()
      ensures bdlist[i].size == |pages[i].bytes| && bdlist[i].len == |pages[i].InUse()|
    {
      assert PageOk(bdlist[i], pages[i]);
    }

    lemma ValidPages()
      requires Valid()
      ensures |pages| == |bdlist|
    {
    }

    /** The pages that are there take what fits. */
    method FillPages(buf: seq<Byte>, offset: nat) returns (nLeft: nat)
      requires Valid()
      modifies this`bdlist, this`pages, Arrays()
      ensures Valid() && Arrays() == old(Arrays()) && |pages| == |old(pages)|
      ensures nLeft == |buf| - Fitting(old(pages), offset, |buf|)
      ensures Filled(old(pages), pages, offset, buf[..|buf| - nLeft])
    {
      hide Flat, Filled, Valid, PageOk, Room;
      ValidPages();
      var i: nat, offsetInBD: nat := SeekFill(offset);
      nLeft := |buf|;
      NothingFilled(pages, offset, buf);
      if i == |bdlist| {
        NoRoom(pages, offset, |buf|);
      }
      while nLeft > 0 && i < |bdlist|
        invariant Valid() && Arrays() == old(Arrays()) && |pages| == |bdlist| == |old(pages)| && i <= |pages|
        invariant nLeft <= |buf|
        invariant Filled(old(pages), pages, offset, buf[..|buf| - nLeft])
        invariant nLeft > 0 && i < |pages| ==> offset + (|buf| - nLeft) == Room(old(pages), i) + offsetInBD
        invariant nLeft > 0 && i < |pages| ==> offsetInBD <= |old(pages)[i].bytes|
        invariant nLeft < |buf| ==> offset + (|buf| - nLeft) <= Room(old(pages), |pages|)
        invariant i == |pages| && nLeft > 0 ==> nLeft == |buf| - Fitting(old(pages), offset, |buf|)
        decreases |bdlist| - i
      {
        nLeft := FillPage(buf, offset, i, offsetInBD, nLeft, old(pages));
        RoomNext(old(pages), i);
        if nLeft > 0 {
          FittingSoFar(old(pages), offset, |buf|, i, nLeft);
        }
        i, offsetInBD := i + 1, 0;
      }
      AllFits(old(pages), offset, |buf|, nLeft);
    }

    /** One page takes what fits. */
    method FillPage(buf: seq<Byte>, offset: nat, i: nat, offsetInBD: nat, left: nat, ghost before: seq<Page>)
        returns (nLeft: nat)
      requires Valid() && |pages| == |bdlist| == |before| && i < |pages| && 0 < left <= |buf|
      requires Filled(before, pages, offset, buf[..|buf| - left])
      requires offset + (|buf| - left) == Room(before, i) + offsetInBD && offsetInBD <= |before[i].bytes|
      modifies this`bdlist, this`pages, Arrays()
      ensures Valid() && Arrays() == old(Arrays()) && |pages| == |bdlist| == |before|
      ensures nLeft == if |before[i].bytes| - offsetInBD > left then 0 else left - (|before[i].bytes| - offsetInBD)
      ensures Filled(before, pages, offset, buf[..|buf| - nLeft])
    {
      hide Flat, Room, Valid, PageOk, Filled;
      PageFacts(i);
      FilledSizes(before, pages, offset, buf[..|buf| - left], i);
      var nBytes := bdlist[i].size - offsetInBD;
      if nBytes > left {
        nBytes := left;
      }
      nLeft := left - nBytes;
      var at := |buf| - left;
      if nBytes > 0 {
        FilledMore(before, pages, offset, buf, at, nBytes, i, offsetInBD);
        WritePage(i, offsetInBD, buf[at..at + nBytes]);
      }
    }

    /** Put the next bytes on a new page, the k-th or later. */
    method FillNew(buf: seq<Byte>, ghost n: nat, ghost k: nat, left: nat) returns (nLeft: nat)
      requires Valid() && 0 < left && n <= |buf| - left && k <= |pages|
      requires OnNewPages(pages[k..], buf[n..|buf| - left]) && FullPages(pages[k..])
      modifies this`bdlist, this`totalSize, this`pages
      ensures Valid() && fresh(Arrays() - old(Arrays())) && nLeft < left
      ensures |pages| == |old(pages)| + 1 && pages[..k] == old(pages[..k]) && totalSize == old(totalSize) + PAGE_SIZE
      ensures OnNewPages(pages[k..], buf[n..|buf| - nLeft]) && (nLeft > 0 ==> FullPages(pages[k..]))
    {
      hide Flat, OnNewPages, FullPages, PageOk;
      var nBytes := if left > PAGE_SIZE then PAGE_SIZE else left;
      var at := |buf| - left;
      var pNewBuf := NewPage(buf[at..at + nBytes]);
      var _ := DoJoin(pNewBuf, nBytes);
      JoinedArrays(old(bdlist), bdlist[|bdlist| - 1]);
      assert pages[k..] == old(pages)[k..] + [pages[|pages| - 1]];
      OneMorePage(old(pages)[k..], pages[|pages| - 1], buf[n..at], buf[at..at + nBytes]);
      assert buf[n..at] + buf[at..at + nBytes] == buf[n..at + nBytes];
      nLeft := left - nBytes;
    }

    method ReadPage(buf: array<Byte>, at: nat, i: nat, offsetInBD: nat, nBytes: nat)
      requires Valid() && buf !in Arrays() && i < |bdlist|
      requires offsetInBD + nBytes <= bdlist[i].len && at + nBytes <= buf.Length
      modifies buf
      ensures Valid()
      ensures |pages[i].InUse()| == bdlist[i].len
      ensures buf[..at + nBytes] == old(buf[..at]) + pages[i].InUse()[offsetInBD..offsetInBD + nBytes]
      ensures buf[at + nBytes..] == old(buf[at + nBytes..])
    {
      hide Flat;
      assert PageOk(bdlist[i], pages[i]);
      var piece := Piece(bdlist[i], offsetInBD, nBytes, pages[i]);
      Copy(buf, at, piece);
      forall j | 0 <= j < |bdlist| ensures PageOk(bdlist[j], pages[j]) {
        assert bdlist[j] in bdlist && bdlist[j].data != buf;
        assert old(PageOk(bdlist[j], pages[j]));
      }
    }
  }

  lemma SameArrays(bds: seq<BD>, i: nat, bd: BD)
    requires i < |bds| && bd.data == bds[i].data
    ensures (set b | b in bds[i := bd] :: b.data) == (set b | b in bds :: b.data)
  {
    var more := bds[i := bd];
    forall b | b in bds ensures exists c :: c in more && c.data == b.data {
      var k :| 0 <= k < |bds| && bds[k] == b;
      assert more[k] in more && more[k].data == b.data;
    }
    forall b | b in more ensures exists c :: c in bds && c.data == b.data {
      var k :| 0 <= k < |bds| && more[k] == b;
      assert bds[k] in bds && bds[k].data == b.data;
    }
  }

  lemma JoinedArrays(bds: seq<BD>, bd: BD)
    ensures (set b | b in bds + [bd] :: b.data) == (set b | b in bds :: b.data) + {bd.data}
  {
    assert bd in bds + [bd];
  }

  // ----- filling, on the pages

  /** The size of the first i pages. */
  function Room(pages: seq<Page>, i: nat): nat
    requires i <= |pages|
  {
    if i == 0 then 0 else Room(pages, i - 1) + |pages[i - 1].bytes|
  }

  /** How many of len bytes fit into the pages from an offset on. */
  function Fitting(pages: seq<Page>, offset: nat, len: nat): (n: nat)
    ensures n <= len
  {
    var room := Room(pages, |pages|);
    if offset > room then 0 else if len < room - offset then len else room - offset
  }

  function Overwritten(p: Page, at: nat, bytes: seq<Byte>): Page
    requires at + |bytes| <= |p.bytes|
  {
    Page(p.bytes[..at] + bytes + p.bytes[at + |bytes|..], at + |bytes|)
  }

  /** A page that starts at `start` has taken its part of bytes written at an offset: it has
      them where they belong and is otherwise as it was, and what it has in use ends with
      them if it has any. */
  ghost predicate PageFilled(p: Page, q: Page, start: nat, offset: nat, bytes: seq<Byte>) {
    && |q.bytes| == |p.bytes|
    && (forall x :: 0 <= x < |q.bytes| ==>
          q.bytes[x] == if offset <= start + x < offset + |bytes| then bytes[start + x - offset] else p.bytes[x])
    && q.len == if start < offset + |bytes| && offset < start + |p.bytes| && bytes != [] && p.bytes != [] then
                  (if offset + |bytes| - start < |p.bytes| then offset + |bytes| - start else |p.bytes|)
                else p.len
  }

  ghost predicate Filled(before: seq<Page>, pages: seq<Page>, offset: nat, bytes: seq<Byte>) {
    && |pages| == |before|
    && (forall i :: 0 <= i < |before| ==> PageFilled(before[i], pages[i], Room(before, i), offset, bytes))
  }

  lemma NothingFilled(pages: seq<Page>, offset: nat, buf: seq<Byte>)
    ensures Filled(pages, pages, offset, buf[..|buf| - |buf|])
  {
  }

  lemma FilledSizes(before: seq<Page>, pages: seq<Page>, offset: nat, bytes: seq<Byte>, i: nat)
    requires Filled(before, pages, offset, bytes) && i < |before|
    ensures |pages[i].bytes| == |before[i].bytes|
  {
    assert PageFilled(before[i], pages[i], Room(before, i), offset, bytes);
  }

  lemma RoomNext(pages: seq<Page>, i: nat)
    requires i < |pages|
    ensures Room(pages, i + 1) == Room(pages, i) + |pages[i].bytes|
    ensures Room(pages, i + 1) <= Room(pages, |pages|)
  {
    RoomGrows(pages, i + 1, |pages|);
  }

  lemma {:induction false} RoomGrows(pages: seq<Page>, i: nat, j: nat)
    requires i <= j <= |pages|
    ensures Room(pages, i) <= Room(pages, j)
  {
    if i < j {
      RoomGrows(pages, i, j - 1);
    }
  }

  lemma NoRoom(pages: seq<Page>, offset: nat, len: nat)
    requires offset > Room(pages, |pages|) || pages == []
    ensures Fitting(pages, offset, len) == 0
  {
  }

  lemma FittingSoFar(pages: seq<Page>, offset: nat, len: nat, i: nat, nLeft: nat)
    requires i < |pages| && 0 < nLeft <= len && offset + (len - nLeft) == Room(pages, i) + |pages[i].bytes|
    ensures i + 1 == |pages| ==> nLeft == len - Fitting(pages, offset, len)
  {
    hide Room;
    RoomNext(pages, i);
  }

  /** Writing the next bytes into the page where they belong. */
  lemma FilledMore(before: seq<Page>, pages: seq<Page>, offset: nat, buf: seq<Byte>, w: nat, n: nat, i: nat, at: nat)
    requires w + n <= |buf| && n > 0 && i < |before| && Filled(before, pages, offset, buf[..w])
    requires offset + w == Room(before, i) + at && at + n <= |before[i].bytes|
    ensures |pages[i].bytes| == |before[i].bytes|
    ensures Filled(before, pages[i := Overwritten(pages[i], at, buf[w..w + n])], offset, buf[..w + n])
  {
    hide Room, Overwritten, PageFilled;
    FilledSizes(before, pages, offset, buf[..w], i);
    var pages' := pages[i := Overwritten(pages[i], at, buf[w..w + n])];
    forall j | 0 <= j < |before| ensures PageFilled(before[j], pages'[j], Room(before, j), offset, buf[..w + n]) {
      assert PageFilled(before[j], pages[j], Room(before, j), offset, buf[..w]);
      if j == i {
        PageHit(before[i], pages[i], Room(before, i), offset, buf, w, n, at);
      } else {
        RoomNext(before, i);
        RoomNext(before, j);
        RoomGrows(before, if j < i then j + 1 else i + 1, if j < i then i else j);
        PageMissed(before[j], pages[j], Room(before, j), offset, buf, w, n);
      }
    }
  }

  lemma PageHit(p: Page, q: Page, start: nat, offset: nat, buf: seq<Byte>, w: nat, n: nat, at: nat)
    requires w + n <= |buf| && n > 0 && PageFilled(p, q, start, offset, buf[..w])
    requires offset + w == start + at && at + n <= |p.bytes|
    ensures PageFilled(p, Overwritten(q, at, buf[w..w + n]), start, offset, buf[..w + n])
  {
    var r := Overwritten(q, at, buf[w..w + n]);
    forall x | 0 <= x < |r.bytes|
      ensures r.bytes[x] == if offset <= start + x < offset + (w + n) then buf[..w + n][start + x - offset]
                            else p.bytes[x]
    {
      if at <= x < at + n {
        assert r.bytes[x] == buf[w..w + n][x - at];
      } else {
        assert r.bytes[x] == q.bytes[x];
      }
    }
  }

  lemma PageMissed(p: Page, q: Page, start: nat, offset: nat, buf: seq<Byte>, w: nat, n: nat)
    requires w + n <= |buf| && PageFilled(p, q, start, offset, buf[..w])
    requires start + |p.bytes| <= offset + w || offset + w + n <= start
    ensures PageFilled(p, q, start, offset, buf[..w + n])
  {
    forall x | 0 <= x < |q.bytes|
      ensures q.bytes[x] == if offset <= start + x < offset + (w + n) then buf[..w + n][start + x - offset]
                            else p.bytes[x]
    {
      assert q.bytes[x] == if offset <= start + x < offset + w then buf[..w][start + x - offset] else p.bytes[x];
    }
  }

  lemma AllFits(pages: seq<Page>, offset: nat, len: nat, nLeft: nat)
    requires nLeft <= len && (nLeft < len ==> offset + (len - nLeft) <= Room(pages, |pages|))
    requires nLeft > 0 ==> nLeft == len - Fitting(pages, offset, len)
    ensures nLeft == len - Fitting(pages, offset, len)
  {
    hide Room;
  }

  /** The memory of a page after a copy into it. */
  lemma OverwrittenInMemory(m: seq<Byte>, m': seq<Byte>, size: nat, at: nat, bytes: seq<Byte>)
    requires |m'| == |m| && size <= |m| && at + |bytes| <= size
    requires m'[..at] == m[..at] && m'[at..at + |bytes|] == bytes && m'[at + |bytes|..] == m[at + |bytes|..]
    ensures m'[..size] == m[..size][..at] + bytes + m[..size][at + |bytes|..]
  {
    assert m' == m'[..at] + m'[at..at + |bytes|] + m'[at + |bytes|..];
    assert m == m[..at] + m[at..at + |bytes|] + m[at + |bytes|..];
  }

  // ----- new pages

  /** The bytes on pages of their own, all but the last full. */
  ghost predicate OnNewPages(pages: seq<Page>, bytes: seq<Byte>) {
    Flat(pages) == bytes && PagedPages(pages)
  }

  ghost predicate PagedPages(pages: seq<Page>) {
    forall i :: 0 <= i < |pages| ==>
      |pages[i].bytes| == PAGE_SIZE && 0 < pages[i].len <= PAGE_SIZE && (i < |pages| - 1 ==> pages[i].len == PAGE_SIZE)
  }

  ghost predicate FullPages(pages: seq<Page>) {
    forall i :: 0 <= i < |pages| ==> pages[i].len == PAGE_SIZE
  }

  lemma NoNewPages()
    ensures OnNewPages([], []) && FullPages([])
  {
  }

  lemma OneMorePage(pages: seq<Page>, p: Page, bytes: seq<Byte>, more: seq<Byte>)
    requires OnNewPages(pages, bytes) && FullPages(pages)
    requires |p.bytes| == PAGE_SIZE && 0 < p.len == |more| <= PAGE_SIZE && p.bytes[..p.len] == more
    ensures OnNewPages(pages + [p], bytes + more) && (|more| == PAGE_SIZE ==> FullPages(pages + [p]))
  {
    hide Flat;
    FlatJoined(pages, p);
  }

  lemma FlatJoined(pages: seq<Page>, p: Page)
    ensures Flat(pages + [p]) == Flat(pages) + p.InUse()
  {
    assert (pages + [p])[..|pages|] == pages;
  }

  lemma {:induction false} FlatConcat(a: seq<Page>, b: seq<Page>)
    ensures Flat(a + b) == Flat(a) + Flat(b)
  {
    hide Page.InUse;
    if b == [] {
      assert a + b == a;
    } else {
      var last := |b| - 1;
      assert a + b == a + b[..last] + [b[last]];
      FlatConcat(a, b[..last]);
      FlatJoined(a + b[..last], b[last]);
    }
  }

  // ----- owned lists

  lemma {:induction false} PagedRoom(pages: seq<Page>, i: nat)
    requires PagedPages(pages) && i <= |pages|
    ensures Room(pages, i) == PAGE_SIZE * i
  {
    if i > 0 {
      PagedRoom(pages, i - 1);
    }
  }

  lemma {:induction false} PagedLength(pages: seq<Page>, i: nat)
    requires PagedPages(pages) && i <= |pages|
    ensures |Flat(pages[..i])| == if i == 0 then 0 else PAGE_SIZE * (i - 1) + pages[i - 1].len
  {
    if i > 0 {
      PagedLength(pages, i - 1);
      FlatNext(pages, i - 1);
    }
  }

  // ----- filling in the middle of an owned list

  /** The end of the page that position x ends in. */
  function PageEnd(x: nat): nat {
    (x + PAGE_SIZE - 1) / PAGE_SIZE * PAGE_SIZE
  }

  lemma PageEndFacts(x: nat, m: nat)
    ensures x <= PageEnd(x)
    ensures PAGE_SIZE * m >= x ==> PageEnd(x) <= PAGE_SIZE * m
    ensures PAGE_SIZE * m < x ==> PageEnd(x) >= PAGE_SIZE * m + PAGE_SIZE
  {
  }

  function Upto(all: seq<Byte>, n: nat): seq<Byte> {
    if n < |all| then all[..n] else all
  }

  function From(all: seq<Byte>, n: nat): seq<Byte> {
    if n < |all| then all[n..] else []
  }

  /** The contents of the pages up to size s, after bytes have been filled in at an offset. */
  function FilledUpto(all: seq<Byte>, offset: nat, bytes: seq<Byte>, s: nat): seq<Byte> {
    if s <= offset then Upto(all, s)
    else Upto(all, offset) + Upto(bytes, s - offset) + From(Upto(all, s), PageEnd(offset + |bytes|))
  }

  /** What a page of the list has in use is a slice of the contents. */
  lemma PagedSlice(pages: seq<Page>, m: nat)
    requires PagedPages(pages) && m < |pages|
    ensures var all, start := Flat(pages), PAGE_SIZE * m;
      && start + pages[m].len <= |all| && pages[m].InUse() == all[start..start + pages[m].len]
      && Flat(pages[..m]) == all[..start]
      && (if m == |pages| - 1 then start + pages[m].len == |all| else pages[m].len == PAGE_SIZE)
  {
    hide Flat, Page.InUse;
    UsedLength(pages[m]);
    PagedLength(pages, m);
    PagedLength(pages, |pages|);
    assert pages[..|pages|] == pages;
    PageAt(pages, m);
    FlatPrefix(pages, m);
  }

  lemma UsedLength(p: Page)
    ensures p.len <= |p.bytes| ==> |p.InUse()| == p.len && p.InUse() == p.bytes[..p.len]
  {
  }

  /** What a page that has taken bytes has in use. */
  lemma PageTaken(p: Page, q: Page, start: nat, offset: nat, bytes: seq<Byte>)
    requires PageFilled(p, q, start, offset, bytes) && p.bytes != [] && bytes != []
    requires start < offset + |bytes| && offset < start + |p.bytes|
    ensures offset >= start ==> q.InUse() == p.bytes[..offset - start] + Upto(bytes, start + |p.bytes| - offset)
    ensures offset < start ==> q.InUse() == Upto(bytes, start + |p.bytes| - offset)[start - offset..]
  {
  }

  lemma PageMissedAll(p: Page, q: Page, start: nat, offset: nat, bytes: seq<Byte>)
    requires PageFilled(p, q, start, offset, bytes)
    requires start + |p.bytes| <= offset || offset + |bytes| <= start
    ensures q == p
  {
    assert q.bytes == p.bytes;
  }

  /** One page more. */
  lemma FilledOneMore(all: seq<Byte>, p: Page, q: Page, m: nat, offset: nat, bytes: seq<Byte>)
    requires |p.bytes| == PAGE_SIZE && 0 < p.len <= PAGE_SIZE && offset <= |all|
    requires var start := PAGE_SIZE * m;
      && PageFilled(p, q, start, offset, bytes) && start + p.len <= |all| && p.InUse() == all[start..start + p.len]
      && (p.len == PAGE_SIZE || start + p.len == |all|)
    requires bytes == [] ==> PAGE_SIZE * (m + 1) <= offset
    ensures FilledUpto(all, offset, bytes, PAGE_SIZE * m) + q.InUse()
              == FilledUpto(all, offset, bytes, PAGE_SIZE * (m + 1))
  {
    hide PageFilled, FilledUpto;
    var start := PAGE_SIZE * m;
    if start + PAGE_SIZE <= offset {
      PageMissedAll(p, q, start, offset, bytes);
      BeforeOffset(all, offset, bytes, start, q);
    } else if start < offset + |bytes| {
      PageTaken(p, q, start, offset, bytes);
      PageEndFacts(offset + |bytes|, m);
      AtOffset(all, p, q, offset, bytes, start);
    } else {
      PageMissedAll(p, q, start, offset, bytes);
      PageEndFacts(offset + |bytes|, m);
      BehindOffset(all, offset, bytes, start, q);
    }
  }

  lemma BeforeOffset(all: seq<Byte>, offset: nat, bytes: seq<Byte>, start: nat, q: Page)
    requires start + PAGE_SIZE <= offset <= |all| && q.len <= PAGE_SIZE && start + q.len <= |all|
    requires q.InUse() == all[start..start + q.len] && (q.len == PAGE_SIZE || start + q.len == |all|)
    ensures FilledUpto(all, offset, bytes, start) + q.InUse() == FilledUpto(all, offset, bytes, start + PAGE_SIZE)
  {
    hide Page.InUse;
    UptoSlice(all, start, q.len);
  }

  lemma UptoSlice(all: seq<Byte>, start: nat, n: nat)
    requires start + n <= |all|
    ensures Upto(all, start) + all[start..start + n] == Upto(all, start + n)
    ensures Upto(all, start) == all[..start]
  {
  }

  lemma UptoMore(bytes: seq<Byte>, a: nat, b: nat)
    requires a <= |bytes| && a <= b
    ensures |Upto(bytes, b)| >= a && Upto(bytes, a) + Upto(bytes, b)[a..] == Upto(bytes, b)
  {
    var more := Upto(bytes, b);
    assert Upto(bytes, a) == more[..a];
  }

  /** Before the end of the page that the bytes end on, nothing follows them. */
  lemma FilledSoFar(all: seq<Byte>, offset: nat, bytes: seq<Byte>, s: nat)
    requires offset <= |all| && s > offset && PageEnd(offset + |bytes|) >= s
    ensures FilledUpto(all, offset, bytes, s) == all[..offset] + Upto(bytes, s - offset)
  {
    hide PageEnd;
    NothingFrom(all, s, offset + |bytes|);
  }

  lemma AtOffset(all: seq<Byte>, p: Page, q: Page, offset: nat, bytes: seq<Byte>, start: nat)
    requires bytes != [] && start < offset + |bytes| && offset < start + PAGE_SIZE && offset <= |all|
    requires |p.bytes| == PAGE_SIZE && p.len <= PAGE_SIZE && start + p.len <= |all|
    requires p.InUse() == all[start..start + p.len] && (p.len == PAGE_SIZE || start + p.len == |all|)
    requires PageEnd(offset + |bytes|) >= start + PAGE_SIZE
    requires offset >= start ==> q.InUse() == p.bytes[..offset - start] + Upto(bytes, start + PAGE_SIZE - offset)
    requires offset < start ==> q.InUse() == Upto(bytes, start + PAGE_SIZE - offset)[start - offset..]
    ensures FilledUpto(all, offset, bytes, start) + q.InUse() == FilledUpto(all, offset, bytes, start + PAGE_SIZE)
  {
    hide PageEnd, Page.InUse, Upto, FilledUpto;
    FilledSoFar(all, offset, bytes, start + PAGE_SIZE);
    if offset >= start {
      FirstTouched(all, p, offset, bytes, start);
    } else {
      FilledSoFar(all, offset, bytes, start);
      UptoMore(bytes, start - offset, start + PAGE_SIZE - offset);
    }
  }

  lemma FirstTouched(all: seq<Byte>, p: Page, offset: nat, bytes: seq<Byte>, start: nat)
    requires start <= offset < start + PAGE_SIZE && offset <= |all|
    requires |p.bytes| == PAGE_SIZE && p.len <= PAGE_SIZE && start + p.len <= |all|
    requires p.InUse() == all[start..start + p.len] && (p.len == PAGE_SIZE || start + p.len == |all|)
    ensures FilledUpto(all, offset, bytes, start) + p.bytes[..offset - start] == all[..offset]
  {
    hide Page.InUse;
    UsedLength(p);
    var a := offset - start;
    assert p.bytes[..a] == p.bytes[..p.len][..a];
    SubSlice(all, start, start + p.len, 0, a);
    UptoSlice(all, start, a);
  }

  lemma NothingFrom(all: seq<Byte>, s: nat, x: nat)
    requires PageEnd(x) >= s
    ensures From(Upto(all, s), PageEnd(x)) == []
  {
  }

  lemma BehindOffset(all: seq<Byte>, offset: nat, bytes: seq<Byte>, start: nat, q: Page)
    requires bytes != [] && offset + |bytes| <= start && PageEnd(offset + |bytes|) <= start && offset <= |all|
    requires 0 < q.len <= PAGE_SIZE && start + q.len <= |all| && q.InUse() == all[start..start + q.len]
    requires q.len == PAGE_SIZE || start + q.len == |all|
    ensures FilledUpto(all, offset, bytes, start) + q.InUse() == FilledUpto(all, offset, bytes, start + PAGE_SIZE)
  {
    hide PageEnd, Page.InUse, Upto, From;
    var e := PageEnd(offset + |bytes|);
    UptoAll(bytes, start - offset);
    UptoAll(bytes, start + PAGE_SIZE - offset);
    UptoSlice(all, start, q.len);
    UptoPage(all, start, q.len);
    FromSlice(all, e, start, q.len);
  }

  lemma UptoAll(bytes: seq<Byte>, n: nat)
    requires |bytes| <= n
    ensures Upto(bytes, n) == bytes
  {
  }

  lemma UptoPage(all: seq<Byte>, start: nat, n: nat)
    requires start + n <= |all| && n <= PAGE_SIZE && (n == PAGE_SIZE || start + n == |all|)
    ensures Upto(all, start + PAGE_SIZE) == Upto(all, start + n)
  {
  }

  lemma FromSlice(all: seq<Byte>, e: nat, start: nat, n: nat)
    requires e <= start && start + n <= |all| && n > 0
    ensures From(Upto(all, start), e) + all[start..start + n] == From(Upto(all, start + n), e)
  {
    assert Upto(all, start) == all[..start] && Upto(all, start + n) == all[..start + n];
    assert all[..start][e..] + all[start..start + n] == all[..start + n][e..];
  }

  lemma FilledAt(before: seq<Page>, pages: seq<Page>, offset: nat, bytes: seq<Byte>, i: nat)
    requires PagedPages(before) && Filled(before, pages, offset, bytes) && i < |before|
    ensures |pages| == |before| && PageFilled(before[i], pages[i], PAGE_SIZE * i, offset, bytes)
    ensures |before[i].bytes| == PAGE_SIZE && 0 < before[i].len <= PAGE_SIZE
  {
    hide PageFilled;
    PagedRoom(before, i);
  }

  lemma {:induction false} FilledPages(before: seq<Page>, pages: seq<Page>, offset: nat, bytes: seq<Byte>, m: nat)
    requires PagedPages(before) && offset <= |Flat(before)| && Filled(before, pages, offset, bytes) && m <= |before|
    requires bytes == [] ==> PAGE_SIZE * |before| <= offset
    ensures |pages| == |before| && Flat(pages[..m]) == FilledUpto(Flat(before), offset, bytes, PAGE_SIZE * m)
  {
    hide Flat, FilledUpto, PageFilled, Page.InUse, Filled, PagedPages;
    if m == 0 {
      SameNumber(before, pages, offset, bytes);
      NothingUpto(Flat(before), offset, bytes);
      NoNewPages();
      assert pages[..0] == [];
    } else {
      FilledPages(before, pages, offset, bytes, m - 1);
      FlatNext(pages, m - 1);
      PagedSlice(before, m - 1);
      FilledAt(before, pages, offset, bytes, m - 1);
      FilledOneMore(Flat(before), before[m - 1], pages[m - 1], m - 1, offset, bytes);
    }
  }

  lemma SameNumber(before: seq<Page>, pages: seq<Page>, offset: nat, bytes: seq<Byte>)
    requires Filled(before, pages, offset, bytes)
    ensures |pages| == |before|
  {
  }

  lemma NothingUpto(all: seq<Byte>, offset: nat, bytes: seq<Byte>)
    ensures FilledUpto(all, offset, bytes, 0) == []
  {
  }

  /** Filling in the middle of an owned list puts the bytes in their place, but what the page
      that they end on had behind them is lost. */
  lemma FillsInMiddle(before: seq<Page>, pages: seq<Page>, offset: nat, buf: seq<Byte>)
    requires PagedPages(before) && offset <= |Flat(before)| && buf != [] && |before| <= |pages|
    requires var n := Fitting(before, offset, |buf|);
      && Filled(before, pages[..|before|], offset, buf[..n]) && OnNewPages(pages[|before|..], buf[n..])
      && (n == |buf| ==> |pages| == |before|)
    ensures Flat(pages) == Flat(before)[..offset] + buf + From(Flat(before), PageEnd(offset + |buf|))
  {
    hide Flat, Filled, FilledUpto, PagedPages, FullPages, PageEnd;
    var k, n := |before|, Fitting(before, offset, |buf|);
    PagedRoom(before, k);
    PagedSize(before);
    FilledPages(before, pages[..k], offset, buf[..n], k);
    assert pages[..k][..k] == pages[..k] && pages == pages[..k] + pages[k..];
    FlatConcat(pages[..k], pages[k..]);
    FilledAll(Flat(before), offset, buf, n, k);
  }

  lemma PagedSize(pages: seq<Page>)
    requires PagedPages(pages)
    ensures |Flat(pages)| <= PAGE_SIZE * |pages|
  {
    hide Flat;
    PagedLength(pages, |pages|);
    assert pages[..|pages|] == pages;
  }

  lemma FilledAll(all: seq<Byte>, offset: nat, buf: seq<Byte>, n: nat, k: nat)
    requires offset <= |all| <= PAGE_SIZE * k && buf != [] && n <= |buf|
    requires n == if |buf| < PAGE_SIZE * k - offset then |buf| else PAGE_SIZE * k - offset
    ensures FilledUpto(all, offset, buf[..n], PAGE_SIZE * k) + buf[n..]
              == all[..offset] + buf + From(all, PageEnd(offset + |buf|))
  {
    hide PageEnd, FilledUpto;
    var s := PAGE_SIZE * k;
    assert buf[..n] + buf[n..] == buf;
    if n < |buf| {
      PageEndFacts(offset + |buf|, k);
      AllTaken(all, offset, buf[..n], s);
    } else {
      assert buf[..n] == buf && buf[n..] == [];
      AllFitted(all, offset, buf, s);
    }
  }

  /** The bytes go to the end of the last page. */
  lemma AllTaken(all: seq<Byte>, offset: nat, bytes: seq<Byte>, s: nat)
    requires offset <= |all| <= s == offset + |bytes|
    ensures FilledUpto(all, offset, bytes, s) == all[..offset] + bytes
  {
    PageEndFacts(s, 0);
  }

  lemma AllFitted(all: seq<Byte>, offset: nat, buf: seq<Byte>, s: nat)
    requires offset <= |all| <= s && buf != [] && offset + |buf| <= s
    ensures FilledUpto(all, offset, buf, s) == all[..offset] + buf + From(all, PageEnd(offset + |buf|))
  {
    hide PageEnd;
    assert Upto(all, s) == all && Upto(all, offset) == all[..offset] && Upto(buf, s - offset) == buf;
  }

  // ----- filling at the end

  lemma PagedConcat(a: seq<Page>, b: seq<Page>)
    requires PagedPages(a) && PagedPages(b) && (b != [] ==> FullPages(a))
    ensures PagedPages(a + b)
  {
  }

  /** The last page takes what fits behind what it has, the others are full. */
  lemma StaysPaged(before: seq<Page>, pages: seq<Page>, offset: nat, buf: seq<Byte>)
    requires PagedPages(before) && offset == |Flat(before)|
    requires Filled(before, pages, offset, buf[..Fitting(before, offset, |buf|)])
    ensures PagedPages(pages) && (Fitting(before, offset, |buf|) < |buf| ==> FullPages(pages))
    ensures buf == [] ==> pages == before
  {
    hide Flat, Room, PageFilled, Filled;
    var k, n := |before|, Fitting(before, offset, |buf|);
    PagedRoom(before, k);
    PagedLength(before, k);
    assert before[..k] == before;
    SameNumber(before, pages, offset, buf[..n]);
    forall i | 0 <= i < k
      ensures |pages[i].bytes| == PAGE_SIZE && (i < k - 1 || n == 0 ==> pages[i] == before[i])
      ensures i == k - 1 ==> pages[i].len == before[i].len + n
    {
      FilledAt(before, pages, offset, buf[..n], i);
      PageAtEnd(before[i], pages[i], PAGE_SIZE * i, offset, buf[..n]);
    }
  }

  lemma PageAtEnd(p: Page, q: Page, start: nat, offset: nat, bytes: seq<Byte>)
    requires PageFilled(p, q, start, offset, bytes) && p.len <= |p.bytes|
    ensures |q.bytes| == |p.bytes| && (start + |p.bytes| <= offset || bytes == [] ==> q == p)
    ensures offset == start + p.len && offset + |bytes| <= start + |p.bytes| ==> q.len == p.len + |bytes|
  {
    assert start + |p.bytes| <= offset || bytes == [] ==> q.bytes == p.bytes;
  }

  /** Filling at the end appends the bytes, and the pages stay paged. */
  lemma AppendsAtEnd(before: seq<Page>, pages: seq<Page>, offset: nat, buf: seq<Byte>)
    requires PagedPages(before) && offset == |Flat(before)| && |before| <= |pages|
    requires var n := Fitting(before, offset, |buf|);
      && Filled(before, pages[..|before|], offset, buf[..n]) && OnNewPages(pages[|before|..], buf[n..])
      && (n == |buf| ==> |pages| == |before|)
    ensures PagedPages(pages) && Flat(pages) == Flat(before) + buf
  {
    hide Flat, Fitting, PageFilled, Filled, PagedPages, FullPages, PageEnd;
    var here, more := pages[..|before|], pages[|before|..];
    assert pages == here + more;
    StaysPaged(before, here, offset, buf);
    PagedConcat(here, more) by {
      if |more| > 0 {
        assert Fitting(before, offset, |buf|) < |buf|;
      }
    }
    if buf == [] {
      assert pages == here;
    } else {
      FillsInMiddle(before, pages, offset, buf);
      PageEndFacts(offset + |buf|, 0);
      assert Flat(before)[..offset] == Flat(before);
    }
  }

  /** What has been read is the contents from offset on, and the next byte is at inPage in
      page i, unless nothing is left to read. */
  ghost predicate ReadUpTo(pages: seq<Page>, got: seq<Byte>, offset: nat, i: nat, inPage: nat, nLeft: nat) {
    && i <= |pages| && offset + |got| <= |Flat(pages)| && got == Flat(pages)[offset..offset + |got|]
    && (nLeft > 0 ==> offset + |got| == |Flat(pages[..i])| + inPage)
  }

  lemma NothingToRead(pages: seq<Page>, offset: nat, len: nat)
    requires offset >= |Flat(pages)|
    ensures Slice(Flat(pages), offset, len) == []
  {
  }

  lemma ReadStart(pages: seq<Page>, offset: nat, i: nat, inPage: nat, nLeft: nat)
    requires i < |pages| && inPage <= |pages[i].InUse()| && |Flat(pages[..i])| + inPage == offset
    ensures ReadUpTo(pages, [], offset, i, inPage, nLeft)
  {
    PageAt(pages, i);
  }

  lemma ReadStep(pages: seq<Page>, got: seq<Byte>, offset: nat, i: nat, inPage: nat, nLeft: nat, n: nat)
    requires i < |pages| && inPage <= |pages[i].InUse()| && nLeft > 0 && ReadUpTo(pages, got, offset, i, inPage, nLeft)
    requires n == if |pages[i].InUse()| - inPage > nLeft then nLeft else |pages[i].InUse()| - inPage
    ensures ReadUpTo(pages, got + pages[i].InUse()[inPage..inPage + n], offset, i + 1, 0, nLeft - n)
  {
    hide Flat;
    PageAt(pages, i);
    FlatNext(pages, i);
    SliceMore(Flat(pages), offset, |got|, n, |Flat(pages[..i])|, inPage, pages[i].InUse());
  }

  lemma ReadEnd(pages: seq<Page>, got: seq<Byte>, offset: nat, i: nat, nLeft: nat, inPage: nat)
    requires ReadUpTo(pages, got, offset, i, inPage, nLeft) && (nLeft > 0 ==> i == |pages| && inPage == 0)
    ensures got == Slice(Flat(pages), offset, |got| + nLeft)
  {
    hide Flat;
    assert pages[..|pages|] == pages;
    assert nLeft > 0 ==> offset + |got| == |Flat(pages)|;
    assert Flat(pages)[offset..|Flat(pages)|] == Flat(pages)[offset..];
  }

  lemma TailOf(s: seq<Byte>, a: nat, n: nat)
    requires a + n <= |s|
    ensures s[a..][n..] == s[a + n..]
  {
  }

  method NewPage(bytes: seq<Byte>) returns (data: array<Byte>)
    requires |bytes| <= PAGE_SIZE
    ensures fresh(data) && data.Length == PAGE_SIZE && data[..|bytes|] == bytes
  {
    data := new Byte[PAGE_SIZE];
    Copy(data, 0, bytes);
  }

  method Piece(bd: BD, at: nat, n: nat, ghost page: Page) returns (piece: seq<Byte>)
    requires BufferList.PageOk(bd, page) && at + n <= bd.len
    ensures |page.InUse()| == bd.len && piece == page.InUse()[at..at + n]
  {
    piece := bd.data[at..at + n];
    assert bd.data[..bd.size][..bd.len] == bd.data[..bd.len];
  }

  lemma SubSlice(s: seq<Byte>, a: nat, b: nat, i: nat, n: nat)
    requires a <= b <= |s| && i + n <= b - a
    ensures s[a..b][i..i + n] == s[a + i..a + i + n]
  {
    var x, y := s[a..b][i..i + n], s[a + i..a + i + n];
    forall k | 0 <= k < n ensures x[k] == y[k] {
    }
    assert x == y;
  }

  lemma SliceMore(all: seq<Byte>, offset: nat, at: nat, n: nat, start: nat, inPage: nat, page: seq<Byte>)
    requires offset + at == start + inPage && inPage + n <= |page|
    requires start + |page| <= |all| && all[start..start + |page|] == page
    ensures all[offset..offset + at] + page[inPage..inPage + n] == all[offset..offset + at + n]
  {
    SubSlice(all, start, start + |page|, inPage, n);
  }
}
