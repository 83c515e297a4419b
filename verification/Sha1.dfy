/** The streaming SHA-1 context, and what it computes: section 5 and 6.1 of FIPS 180-4. */
module Sha1 {
  import Basics
  import opened Words
  import opened Sha1Block
  import opened BlockHash

  const BLOCK_LENGTH: nat := 64
  const DIGEST_LENGTH: nat := 20
  const STAGING_LENGTH: nat := 1024

  // ----- the function

  function WordsOf(block: seq<Byte>): (m: seq<Word>)
    requires |block| == 64
    ensures |m| == 16
  {
    seq(16, k requires 0 <= k < 16 => BigEndian(block[4 * k], block[4 * k + 1], block[4 * k + 2], block[4 * k + 3]))
  }

  function CompressBytes(r: Regs, block: seq<Byte>): Regs {
    if |block| == 64 then Compress(r, WordsOf(block)) else r
  }

  /** Section 5.3.1. */
  function H0(): Regs {
    Regs(Word(0x67452301), Word(0xEFCDAB89), Word(0x98BADCFE), Word(0x10325476), Word(0xC3D2E1F0))
  }

  /** Digit k, base 256, of the 64-bit number of bits, the most significant first. */
  function LengthDigit(bits: nat, k: nat): (d: nat)
    requires k < 8
    ensures d < 256
  {
    if k == 0 then bits / 0x100_0000_0000_0000 % 256
    else if k == 1 then bits / 0x1_0000_0000_0000 % 256
    else if k == 2 then bits / 0x100_0000_0000 % 256
    else if k == 3 then bits / 0x1_0000_0000 % 256
    else if k == 4 then bits / 0x100_0000 % 256
    else if k == 5 then bits / 0x1_0000 % 256
    else if k == 6 then bits / 0x100 % 256
    else bits % 256
  }

  function LengthBytes(n: nat): (s: seq<Byte>)
    ensures |s| == 8
  {
    seq(8, k requires 0 <= k < 8 => LengthDigit((8 * n) % W64, k) as Byte)
  }

  /** The eight bytes are the digits of the number of bits, modulo 2^64, in base 256. */
  lemma LengthIsNumber(n: nat) returns (d: seq<nat>)
    ensures |d| == 8 && NumberOf(d) == (8 * n) % W64
    ensures forall k :: 0 <= k < 8 ==> d[k] < 256 && LengthBytes(n)[k] == d[k] as Byte
  {
    hide LengthDigit;
    var bits := (8 * n) % W64;
    d := seq(8, k requires 0 <= k < 8 => LengthDigit(bits, k));
    DigitsAreNumber(bits, d, 8);
    assert d[..8] == d;
  }

  /** What digit k counts. */
  function Weight(k: nat): (p: nat)
    requires k < 8
    ensures p > 0
  {
    if k == 0 then 0x100_0000_0000_0000
    else if k == 1 then 0x1_0000_0000_0000
    else if k == 2 then 0x100_0000_0000
    else if k == 3 then 0x1_0000_0000
    else if k == 4 then 0x100_0000
    else if k == 5 then 0x1_0000
    else if k == 6 then 0x100
    else 1
  }

  lemma {:induction false} DigitsAreNumber(bits: nat, d: seq<nat>, k: nat)
    requires bits < W64 && k <= 8 == |d| && forall j :: 0 <= j < 8 ==> d[j] == LengthDigit(bits, j)
    ensures NumberOf(d[..k]) == if k == 0 then 0 else bits / Weight(k - 1)
  {
    hide LengthDigit, Weight;
    if k > 0 {
      DigitsAreNumber(bits, d, k - 1);
      assert d[..k][..k - 1] == d[..k - 1];
      DigitAt(bits, k - 1);
      if k > 1 {
        WeightAt(k - 1);
        Nested(bits, Weight(k - 1));
      } else {
        TopDigit(bits);
      }
    }
  }

  lemma DigitAt(bits: nat, k: nat)
    requires k < 8
    ensures LengthDigit(bits, k) == bits / Weight(k) % 256
  {
  }

  lemma TopDigit(bits: nat)
    requires bits < W64
    ensures bits / Weight(0) < 256
  {
  }

  lemma WeightAt(k: nat)
    requires 0 < k < 8
    ensures Weight(k - 1) == Weight(k) * 256
  {
  }

  /** Dividing by p and then by 256. */
  lemma Nested(x: nat, p: nat)
    requires p > 0
    ensures x / (p * 256) == x / p / 256
  {
    var q := x / p;
    Parts(x, p);
    Parts(q, 256);
    Joined(q / 256, q % 256, p, x % p);
    Basics.Quotient(x, p * 256, q / 256, (q % 256) * p + x % p);
  }

  lemma Parts(x: nat, m: nat)
    requires m > 0
    ensures x == (x / m) * m + x % m && x % m < m
  {
  }

  lemma Joined(h: nat, l: nat, p: nat, r: nat)
    requires l < 256 && r < p
    ensures (h * 256 + l) * p + r == h * (p * 256) + (l * p + r) && l * p + r < p * 256
  {
    assert (255 - l) * p >= 0;
    assert (h * 256) * p == h * (p * 256);
  }

  function DigestOf(s: seq<Word>): (d: seq<Byte>)
    requires |s| == 5
    ensures |d| == DIGEST_LENGTH
  {
    seq(20, k requires 0 <= k < 20 => s[k / 4].Byte(k % 4))
  }

  function WordsOfRegs(r: Regs): (s: seq<Word>)
    ensures |s| == 5 && Value(s) == r
  {
    [r.a, r.b, r.c, r.d, r.e]
  }

  function FinalRegs(msg: seq<Byte>): Regs {
    Fold(CompressBytes, H0(), Padded(msg, LengthBytes(|msg|)))
  }

  /** SHA-1 of a message.  FIPS 180-4 defines it for messages of less than 2^64 bits;
      longer ones get their length modulo 2^64. */
  function Hash(msg: seq<Byte>): (d: seq<Byte>)
    ensures |d| == DIGEST_LENGTH
  {
    DigestOf(WordsOfRegs(FinalRegs(msg)))
  }

  // ----- the count in bytes

  /** Digit k, base 256, of the two count words, the high one first. */
  function CountDigit(count0: nat, count1: nat, k: nat): (d: nat)
    requires k < 8
    ensures d < 256
  {
    var c := if k >= 4 then count0 else count1;
    if k % 4 == 0 then c / 0x100_0000 % 256
    else if k % 4 == 1 then c / 0x1_0000 % 256
    else if k % 4 == 2 then c / 0x100 % 256
    else c % 256
  }

  lemma HighBytes(count0: nat, count1: nat)
    requires count0 < W32 && count1 < W32
    ensures var bits := count1 * W32 + count0;
      && bits / 0x100_0000_0000_0000 == count1 / 0x100_0000
      && bits / 0x1_0000_0000_0000 == count1 / 0x1_0000
      && bits / 0x100_0000_0000 == count1 / 0x100
      && bits / 0x1_0000_0000 == count1
  {
  }

  lemma LowBytes(count0: nat, count1: nat)
    requires count0 < W32 && count1 < W32
    ensures var bits := count1 * W32 + count0;
      && bits / 0x100_0000 % 256 == count0 / 0x100_0000 % 256
      && bits / 0x1_0000 % 256 == count0 / 0x1_0000 % 256
      && bits / 0x100 % 256 == count0 / 0x100 % 256
      && bits % 256 == count0 % 256
  {
    var bits := count1 * W32 + count0;
    LowByte(count1, bits / 0x100_0000, count0 / 0x100_0000, 1);
    LowByte(count1, bits / 0x1_0000, count0 / 0x1_0000, 0x100);
    LowByte(count1, bits / 0x100, count0 / 0x100, 0x1_0000);
    LowByte(count1, bits, count0, 0x100_0000);
  }

  lemma LowByte(top: nat, bits: nat, low: nat, factor: nat)
    requires factor in {1, 0x100, 0x1_0000, 0x100_0000} && bits == top * factor * 256 + low
    ensures bits % 256 == low % 256
  {
    var q := top * factor;
    assert bits == q * 256 + low;
  }

  lemma CountDigitIsLengthDigit(count0: nat, count1: nat, n: nat, k: nat)
    requires Counts(count0, count1, n) && k < 8
    ensures CountDigit(count0, count1, k) == LengthDigit((8 * n) % W64, k)
  {
    var bits := (8 * n) % W64;
    assert bits == count1 * W32 + count0 && count0 < W32 && count1 < W32;
    hide Counts;
    HighBytes(count0, count1);
    LowBytes(count0, count1);
  }

  // ----- the context

  /** The 64 bytes at `at` taken as one block.  The union of bytes and words lets the
      schedule overwrite them. */
  method TransformBytes(state: array<Word>, bytes: array<Byte>, at: nat)
    requires state.Length == 5 && at + 64 <= bytes.Length
    modifies state, bytes
    ensures Value(state[..]) == CompressBytes(Value(old(state[..])), old(bytes[at..at + 64]))
    ensures bytes[at + 64..] == old(bytes[at + 64..])
  {
    hide Compress, Word.Swapped, LittleEndian, BigEndian;
    ghost var block := bytes[at..at + 64];
    var l := new Word[16](k requires 0 <= k < 16 reads bytes =>
      LittleEndian(bytes[at + 4 * k], bytes[at + 4 * k + 1], bytes[at + 4 * k + 2], bytes[at + 4 * k + 3]));
    forall k | 0 <= k < 16 ensures WordsOf(block)[k] == l[k].Swapped() {
      SwappedIsBigEndian(block[4 * k], block[4 * k + 1], block[4 * k + 2], block[4 * k + 3]);
    }
    Transform(state, l, WordsOf(block));
    forall k | 0 <= k < 64 {
      bytes[at + k] := l[k / 4].Byte(3 - k % 4);
    }
  }

  class Context {
    const state: array<Word>
    const buffer: array<Byte>
    var count0: nat
    var count1: nat
    ghost var msg: seq<Byte>  // the bytes given so far

    ghost predicate Shape()
      reads this
    {
      state.Length == 5 && buffer.Length == BLOCK_LENGTH
    }

    ghost predicate Valid()
      reads this, state, buffer
    {
      Shape() && Streaming(CompressBytes, H0(), Value(state[..]), buffer[..], count0, count1, msg)
    }

    constructor ()
      ensures Valid() && msg == [] && fresh(state) && fresh(buffer)
    {
      state := new Word[5];
      buffer := new Byte[BLOCK_LENGTH];
      new;
      Init();
    }

    method Init()
      requires Shape()
      modifies this, state
      ensures Valid() && msg == []
    {
      state[0], state[1], state[2] := Word(0x67452301), Word(0xEFCDAB89), Word(0x98BADCFE);
      state[3], state[4] := Word(0x10325476), Word(0xC3D2E1F0);
      count0, count1 := 0, 0;
      msg := [];
    }

    /** Append data to the message.  The staging array bounds its length. */
    method Update(data: seq<Byte>)
      requires Valid() && |data| <= STAGING_LENGTH
      modifies this, state, buffer
      ensures Valid() && msg == old(msg) + data
    {
      hide Fold, Streaming, Counts, CompressBytes, Full, Count0, Count1;
      Opened(CompressBytes, H0(), Value(state[..]), buffer[..], count0, count1, msg);
      var staging := new Byte[STAGING_LENGTH](_ => 0);
      Basics.Copy(staging, 0, data);
      assert staging[..|data|] == data;
      var len := |data|;
      CountsAdd(count0, count1, |msg|, len);
      CountsIndex(count0, count1, |msg|);
      var j := (count0 / 8) % 64;
      ghost var before, c0, c1 := buffer[..], count0, count1;
      count0 := (count0 + len * 8) % W32;
      if count0 < len * 8 {
        count1 := (count1 + 1) % W32;
      }
      count1 := (count1 + len / 0x2000_0000) % W32;
      assert count0 == Count0(c0, len) && count1 == Count1(c0, c1, len) by { CountsOfShort(c0, c1, len); }
      if j + len > 63 {
        UpdateBlocks(staging, j, len, data);
      } else {
        Basics.Copy(buffer, j, staging[..len]);
        ShortUpdate(CompressBytes, H0(), Value(state[..]), before, buffer[..], c0, c1, count0, count1, msg, data);
      }
      msg := msg + data;
    }

    /** The part of an update that completes at least one block. */
    method UpdateBlocks(staging: array<Byte>, j: nat, len: nat, ghost data: seq<Byte>)
      requires Shape() && staging != buffer && (staging as object) != state && len <= staging.Length
      requires staging[..len] == data
      requires j == |msg| % 64 && j + len > 63 && Counts(count0, count1, |msg| + |data|)
      requires Value(state[..]) == Fold(CompressBytes, H0(), msg[..Full(|msg|)])
      requires buffer[..j] == msg[Full(|msg|)..]
      modifies state, buffer, staging
      ensures Streaming(CompressBytes, H0(), Value(state[..]), buffer[..], count0, count1, msg + data)
    {
      hide Fold, Streaming, Counts, CompressBytes, Full, H0;
      var i := 64 - j;
      ghost var staged := staging[..];
      FirstBlock(msg, buffer[..], data);
      FoldAppend(CompressBytes, H0(), msg[..Full(|msg|)], buffer[..j] + data[..i]);
      Basics.Copy(buffer, j, staging[..i]);
      assert buffer[0..64] == old(buffer[..j]) + data[..i];
      TransformBytes(state, buffer, 0);
      assert staging[..] == staged && staged[..len] == data;
      i := UpdateRest(staging, i, len, data);
      Basics.Copy(buffer, 0, staging[i..len]);
      assert buffer[..|data| - i] == buffer[0..0 + |data| - i] == data[i..];
      LastBlock(CompressBytes, H0(), Value(state[..]), buffer[..], count0, count1, msg, data, i);
    }

    /** The full blocks of data from i on. */
    method UpdateRest(staging: array<Byte>, from: nat, len: nat, ghost data: seq<Byte>) returns (i: nat)
      requires Shape() && staging != buffer && (staging as object) != state && len <= staging.Length
      requires staging[..len] == data
      requires from <= len && (|msg| + from) % 64 == 0
      requires Value(state[..]) == Fold(CompressBytes, H0(), (msg + data)[..|msg| + from])
      modifies state, staging
      ensures i <= len < i + 64 && (|msg| + i) % 64 == 0 && staging[i..len] == data[i..]
      ensures Value(state[..]) == Fold(CompressBytes, H0(), (msg + data)[..|msg| + i])
    {
      hide Fold, Streaming, Counts, CompressBytes, Full, H0, Value;
      i := from;
      ghost var staged := staging[..];
      while i + 63 < len
        invariant i <= len && (|msg| + i) % 64 == 0
        invariant staging[i..] == staged[i..]
        invariant Value(state[..]) == Fold(CompressBytes, H0(), (msg + data)[..|msg| + i])
        decreases len - i
      {
        NextBlock(msg, data, i);
        FoldAppend(CompressBytes, H0(), (msg + data)[..|msg| + i], data[i..i + 64]);
        assert data[i..i + 64] == staged[..len][i..i + 64] == staged[i..][..64] == staging[i..i + 64];
        TransformBytes(state, staging, i);
        assert staging[i + 64..] == staged[i..][64..] == staged[i + 64..];
        i := i + 64;
      }
      assert staging[i..len] == staging[i..][..len - i] == staged[..len][i..];
    }

    /** Pad the message and put its digest at the start of `digest`; the context is wiped. */
    method Final(digest: array<Byte>)
      requires Valid() && digest.Length >= DIGEST_LENGTH && digest != buffer
      modifies this, state, buffer, digest
      ensures Shape() && digest[..DIGEST_LENGTH] == Hash(old(msg))
      ensures digest[DIGEST_LENGTH..] == old(digest[DIGEST_LENGTH..])
    {
      hide Streaming, Fold, Counts, CompressBytes, FinalRegs;
      Pad();
      assert Value(state[..]) == FinalRegs(old(msg));
      assert WordsOfRegs(FinalRegs(old(msg))) == state[..];
      forall k | 0 <= k < 20 {
        digest[k] := state[k / 4].Byte(k % 4);
      }
      assert digest[..20] == DigestOf(state[..]);
      Wipe();
    }

    method Wipe()
      requires Shape()
      modifies this, state, buffer
      ensures Shape()
    {
      forall k | 0 <= k < 64 {
        buffer[k] := 0;
      }
      forall k | 0 <= k < 5 {
        state[k] := Word(0);
      }
      count0, count1 := 0, 0;
    }

    /** The bytes that Final appends make up the padding. */
    method Pad()
      requires Valid()
      modifies this, state, buffer
      ensures Shape() && Value(state[..]) == FinalRegs(old(msg))
    {
      hide Streaming, Fold, Counts, CompressBytes, CountDigit, LengthDigit;
      Opened(CompressBytes, H0(), Value(state[..]), buffer[..], count0, count1, msg);
      ghost var m := msg;
      var c0, c1 := count0, count1;
      var finalcount := seq(8, k requires 0 <= k < 8 => CountDigit(c0, c1, k) as Byte);
      forall k | 0 <= k < 8 ensures finalcount[k] == LengthBytes(|m|)[k] {
        CountDigitIsLengthDigit(c0, c1, |m|, k);
      }
      Update([0x80]);
      PadZeros(m);
      Update(finalcount);
      assert finalcount == LengthBytes(|m|);
      assert msg == Padded(m, LengthBytes(|m|));
      PaddedIsFull(m, LengthBytes(|m|));
      AllFolded(CompressBytes, H0(), Value(state[..]), buffer[..], count0, count1, msg);
    }

    method PadZeros(ghost m: seq<Byte>)
      requires Valid() && msg == m + [0x80]
      modifies this, state, buffer
      ensures Valid() && msg == m + [0x80] + Zeros(Gap(|m|))
    {
      hide Streaming, Fold, Counts, CompressBytes;
      Opened(CompressBytes, H0(), Value(state[..]), buffer[..], count0, count1, msg);
      CountsIndex(count0, count1, |msg|);
      ghost var z := 0;
      assert Zeros(0) == [] && msg + [] == msg;
      // the bits of 504 are the byte count modulo 64, and 448 is 56 of them
      while (count0 / 8) % 64 != 56
        invariant Valid() && z <= Gap(|m|) && msg == m + [0x80] + Zeros(z)
        invariant (count0 / 8) % 64 == (|m| + 1 + z) % 64
        decreases Gap(|m|) - z
      {
        Update([0]);
        Opened(CompressBytes, H0(), Value(state[..]), buffer[..], count0, count1, msg);
        CountsIndex(count0, count1, |msg|);
        assert Zeros(z + 1) == Zeros(z) + [0];
        assert msg == m + [0x80] + Zeros(z + 1);
        z := z + 1;
      }
      GapIsLeast(|m|, z);
    }
  }

  lemma Opened<H>(f: (H, seq<Byte>) -> H, h0: H, state: H, buffer: seq<Byte>, count0: nat, count1: nat, msg: seq<Byte>)
    requires Streaming(f, h0, state, buffer, count0, count1, msg)
    ensures |buffer| == 64 && Counts(count0, count1, |msg|)
    ensures state == Fold(f, h0, msg[..Full(|msg|)]) && buffer[..|msg| % 64] == msg[Full(|msg|)..]
  {
  }

  lemma CountsOfShort(count0: nat, count1: nat, len: nat)
    requires len <= STAGING_LENGTH
    ensures (count0 + len * 8) % W32 == Count0(count0, len)
    ensures ((if Count0(count0, len) < len * 8 then (count1 + 1) % W32 else count1) + len / 0x2000_0000) % W32
              == Count1(count0, count1, len)
  {
  }
}
