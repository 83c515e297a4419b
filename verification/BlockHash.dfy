/**
 What SHA-1 and MD5 share: folding a compression function over 64-byte blocks, the
 padding of section 5.1.1 of FIPS 180-4 and section 3.1 of RFC 1321, the 64-bit count
 of bits in two words, and what a streaming context holds.
 */
module BlockHash {
  import opened Words

  /** The compression function f over the blocks of data, from the left. */
  function Fold<H>(f: (H, seq<Byte>) -> H, h: H, data: seq<Byte>): H {
    if |data| < 64 then h else f(Fold(f, h, data[..|data| - 64]), data[|data| - 64..])
  }

  lemma FoldAppend<H>(f: (H, seq<Byte>) -> H, h: H, data: seq<Byte>, block: seq<Byte>)
    requires |block| == 64
    ensures Fold(f, h, data + block) == f(Fold(f, h, data), block)
  {
    var all := data + block;
    assert all[..|all| - 64] == data && all[|all| - 64..] == block;
  }

  /** How much of a message of n bytes is in full blocks. */
  function Full(n: nat): (r: nat)
    ensures r <= n < r + 64 && r % 64 == 0
  {
    n - n % 64
  }

  function Zeros(n: nat): seq<Byte> {
    seq(n, _ => 0)
  }

  /** The number of zero bytes after the 0x80: the least that leaves 8 bytes of a block. */
  function Gap(n: nat): (z: nat)
    ensures (n + 1 + z) % 64 == 56
  {
    (119 - n % 64) % 64
  }

  lemma GapIsLeast(n: nat, y: nat)
    requires (n + 1 + y) % 64 == 56
    ensures Gap(n) <= y
  {
  }

  function Padded(msg: seq<Byte>, length: seq<Byte>): seq<Byte> {
    msg + [0x80] + Zeros(Gap(|msg|)) + length
  }

  lemma PaddedIsFull(msg: seq<Byte>, length: seq<Byte>)
    requires |length| == 8
    ensures |Padded(msg, length)| % 64 == 0
  {
  }

  // ----- the bit count

  const W32: nat := 0x1_0000_0000
  const W64: nat := 0x1_0000_0000_0000_0000

  /** The number with these digits in base 256, the most significant first. */
  function NumberOf(digits: seq<nat>): nat {
    if digits == [] then 0 else NumberOf(digits[..|digits| - 1]) * 256 + digits[|digits| - 1]
  }

  /** The two words count the bits of n bytes, modulo 2^64. */
  predicate Counts(count0: nat, count1: nat, n: nat) {
    count0 < W32 && count1 < W32 && count1 * W32 + count0 == (8 * n) % W64
  }

  /** Adding len to the count, in 32-bit words: the low word, its carry, and the top
      three bits of len. */
  function Count0(count0: nat, len: nat): nat {
    (count0 + (8 * len) % W32) % W32
  }

  function Count1(count0: nat, count1: nat, len: nat): nat {
    var carried := if Count0(count0, len) < (8 * len) % W32 then (count1 + 1) % W32 else count1;
    (carried + len / 0x2000_0000) % W32
  }

  lemma CountSplit(count0: nat, count1: nat, len: nat)
    requires count0 < W32 && count1 < W32 && len < W32
    ensures Count0(count0, len) < W32 && Count1(count0, count1, len) < W32
    ensures Count1(count0, count1, len) * W32 + Count0(count0, len) == (count1 * W32 + count0 + 8 * len) % W64
  {
    hide Count0, Count1;
    var lo, hi := (8 * len) % W32, len / 0x2000_0000;
    assert 8 * len == hi * W32 + lo;
    var carry := if count0 + lo >= W32 then 1 else 0;
    LowCount(count0, len);
    HighCount(count0, count1, len);
    TopModulo(count1 + hi + carry, Count0(count0, len));
  }

  lemma LowCount(count0: nat, len: nat)
    requires count0 < W32
    ensures var lo := (8 * len) % W32;
            Count0(count0, len) == if count0 + lo >= W32 then count0 + lo - W32 else count0 + lo
  {
  }

  lemma HighCount(count0: nat, count1: nat, len: nat)
    requires count0 < W32 && count1 < W32
    ensures var lo := (8 * len) % W32;
            Count1(count0, count1, len) == (count1 + len / 0x2000_0000 + if count0 + lo >= W32 then 1 else 0) % W32
  {
    hide Count0;
    LowCount(count0, len);
  }

  lemma TopModulo(top: nat, low: nat)
    requires low < W32
    ensures (top * W32 + low) % W64 == (top % W32) * W32 + low
  {
    var q := top / W32;
    assert top * W32 + low == q * W64 + ((top % W32) * W32 + low);
  }

  lemma CountsAdd(count0: nat, count1: nat, n: nat, len: nat)
    requires Counts(count0, count1, n) && len < W32
    ensures Counts(Count0(count0, len), Count1(count0, count1, len), n + len)
  {
    CountSplit(count0, count1, len);
    ModuloAdd(8 * n, 8 * len);
  }

  lemma ModuloAdd(a: nat, b: nat)
    ensures (a % W64 + b) % W64 == (a + b) % W64
  {
    var q := a / W64;
    assert a + b == q * W64 + (a % W64 + b);
  }

  lemma CountsIndex(count0: nat, count1: nat, n: nat)
    requires Counts(count0, count1, n)
    ensures (count0 / 8) % 64 == n % 64
  {
    var top := (8 * n) / W64 * W32 + count1;
    assert 8 * n == top * W32 + count0;
    IndexOf(top, count0, n);
  }

  lemma IndexOf(top: nat, low: nat, n: nat)
    requires 8 * n == top * W32 + low
    ensures (low / 8) % 64 == n % 64
  {
    var eighth := low / 8;
    assert low == 8 * eighth;
    assert n == (top * 0x80_0000) * 64 + eighth;
  }

  lemma Boundary(start: nat, rest: nat)
    requires start % 64 == 0 && rest < 64
    ensures Full(start + rest) == start && (start + rest) % 64 == rest
  {
  }

  // ----- a streaming context

  /** The state is the fold over the full blocks of msg, the buffer starts with the rest. */
  ghost predicate Streaming<H>(f: (H, seq<Byte>) -> H, h0: H, state: H, buffer: seq<Byte>,
                               count0: nat, count1: nat, msg: seq<Byte>) {
    && |buffer| == 64 && Counts(count0, count1, |msg|)
    && state == Fold(f, h0, msg[..Full(|msg|)])
    && buffer[..|msg| % 64] == msg[Full(|msg|)..]
  }

  /** Filling up the buffer makes the next block. */
  lemma FirstBlock(msg: seq<Byte>, buffer: seq<Byte>, data: seq<Byte>)
    requires |buffer| == 64 && buffer[..|msg| % 64] == msg[Full(|msg|)..] && |data| >= 64 - |msg| % 64
    ensures var i := 64 - |msg| % 64;
            (msg + data)[..|msg| + i] == msg[..Full(|msg|)] + (buffer[..|msg| % 64] + data[..i])
  {
    var i := 64 - |msg| % 64;
    assert msg == msg[..Full(|msg|)] + msg[Full(|msg|)..];
    assert (msg + data)[..|msg| + i] == msg + data[..i];
  }

  lemma NextBlock(msg: seq<Byte>, data: seq<Byte>, i: nat)
    requires i + 64 <= |data|
    ensures (msg + data)[..|msg| + i + 64] == (msg + data)[..|msg| + i] + data[i..i + 64]
  {
    assert (msg + data)[..|msg| + i] == msg + data[..i];
    assert data[..i + 64] == data[..i] + data[i..i + 64];
    assert (msg + data)[..|msg| + i + 64] == msg + data[..i + 64];
  }

  /** The end of an update that has reached a block boundary of the message. */
  lemma LastBlock<H>(f: (H, seq<Byte>) -> H, h0: H, state: H, buffer: seq<Byte>, count0: nat, count1: nat,
                     msg: seq<Byte>, data: seq<Byte>, i: nat)
    requires i <= |data| < i + 64 && (|msg| + i) % 64 == 0 && |buffer| == 64
    requires state == Fold(f, h0, (msg + data)[..|msg| + i])
    requires buffer[..|data| - i] == data[i..] && Counts(count0, count1, |msg| + |data|)
    ensures Streaming(f, h0, state, buffer, count0, count1, msg + data)
  {
    hide Fold, Counts;
    var all := msg + data;
    Boundary(|msg| + i, |data| - i);
    assert |all| == (|msg| + i) + (|data| - i);
    assert all[|msg| + i..] == data[i..];
  }

  /** The end of an update that only fills the buffer further. */
  lemma ShortUpdate<H>(f: (H, seq<Byte>) -> H, h0: H, state: H, before: seq<Byte>, buffer: seq<Byte>,
                       c0: nat, c1: nat, count0: nat, count1: nat, msg: seq<Byte>, data: seq<Byte>)
    requires Streaming(f, h0, state, before, c0, c1, msg) && |msg| % 64 + |data| < 64 && |buffer| == 64
    requires buffer[..|msg| % 64] == before[..|msg| % 64]
    requires buffer[|msg| % 64..|msg| % 64 + |data|] == data
    requires Counts(count0, count1, |msg| + |data|)
    ensures Streaming(f, h0, state, buffer, count0, count1, msg + data)
  {
    hide Fold, Counts;
    var all, j := msg + data, |msg| % 64;
    Boundary(Full(|msg|), j + |data|);
    assert |all| == Full(|msg|) + (j + |data|);
    assert all[..Full(|all|)] == msg[..Full(|msg|)];
    assert all[Full(|all|)..] == msg[Full(|msg|)..] + data;
    assert buffer[..j + |data|] == buffer[..j] + buffer[j..j + |data|];
  }

  /** A message of full blocks has been folded completely. */
  lemma AllFolded<H>(f: (H, seq<Byte>) -> H, h0: H, state: H, buffer: seq<Byte>,
                     count0: nat, count1: nat, msg: seq<Byte>)
    requires Streaming(f, h0, state, buffer, count0, count1, msg) && |msg| % 64 == 0
    ensures state == Fold(f, h0, msg)
  {
    assert msg[..Full(|msg|)] == msg;
  }
}
