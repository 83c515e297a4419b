/**
 The streaming MD5 context, with the block function left open: the padding and the
 length of sections 3.1 and 3.2 of RFC 1321, for any split of the message.
 */
module Md5 {
  import Basics
  import opened Words
  import opened BlockHash
  import Sha1

  datatype Regs4 = Regs4(a: Word, b: Word, c: Word, d: Word)

  type BlockFunction = (Regs4, seq<Byte>) -> Regs4

  const DIGEST_LENGTH: nat := 16
  const MAX_UPDATE: nat := W32 - 64

  function H0(): Regs4 {
    Regs4(Word(0x67452301), Word(0xEFCDAB89), Word(0x98BADCFE), Word(0x10325476))
  }

  /** Digit k, base 256, of the 64-bit number of bits, the least significant first. */
  function LengthDigit(bits: nat, k: nat): (d: nat)
    requires k < 8
    ensures d < 256
  {
    Sha1.LengthDigit(bits, 7 - k)
  }

  function LengthBytes(n: nat): (s: seq<Byte>)
    ensures |s| == 8
  {
    seq(8, k requires 0 <= k < 8 => LengthDigit((8 * n) % W64, k) as Byte)
  }

  /** The words' bytes, the least significant first. */
  function DigestOf(r: Regs4): (d: seq<Byte>)
    ensures |d| == DIGEST_LENGTH
  {
    seq(16, k requires 0 <= k < 16 => [r.a, r.b, r.c, r.d][k / 4].Byte(3 - k % 4))
  }

  /** The eight bytes are the digits of the number of bits, modulo 2^64, in base 256, the
      least significant first. */
  lemma LengthIsNumber(n: nat) returns (d: seq<nat>)
    ensures |d| == 8 && NumberOf(d) == (8 * n) % W64
    ensures forall k :: 0 <= k < 8 ==> d[k] < 256 && LengthBytes(n)[7 - k] == d[k] as Byte
  {
    hide Sha1.LengthDigit, NumberOf;
    d := Sha1.LengthIsNumber(n);
    forall k | 0 <= k < 8 ensures LengthBytes(n)[7 - k] == Sha1.LengthBytes(n)[k] {
    }
  }

  /** Each four bytes of a digest are a register, the least significant byte first. */
  lemma DigestIsRegs(r: Regs4)
    ensures var d := DigestOf(r);
      && LittleEndian(d[0], d[1], d[2], d[3]) == r.a && LittleEndian(d[4], d[5], d[6], d[7]) == r.b
      && LittleEndian(d[8], d[9], d[10], d[11]) == r.c && LittleEndian(d[12], d[13], d[14], d[15]) == r.d
  {
    hide LittleEndian, Word.Byte;
    WordBytes(r.a);
    WordBytes(r.b);
    WordBytes(r.c);
    WordBytes(r.d);
  }

  lemma WordBytes(w: Word)
    ensures LittleEndian(w.Byte(3), w.Byte(2), w.Byte(1), w.Byte(0)) == w
  {
  }

  function FinalRegs(f: BlockFunction, msg: seq<Byte>): Regs4 {
    Fold(f, H0(), Padded(msg, LengthBytes(|msg|)))
  }

  function Hash(f: BlockFunction, msg: seq<Byte>): (d: seq<Byte>)
    ensures |d| == DIGEST_LENGTH
  {
    DigestOf(FinalRegs(f, msg))
  }

  function Value(s: seq<Word>): Regs4
    requires |s| == 4
  {
    Regs4(s[0], s[1], s[2], s[3])
  }

  /** The padding that finalize takes from the constant array is the least that leaves
      8 bytes of a block. */
  lemma PadLength(n: nat)
    ensures var index := n % 64;
            (if index < 56 then 56 - index else 120 - index) == 1 + Gap(n)
  {
    var index := n % 64;
    var z: nat := (if index < 56 then 56 - index else 120 - index) - 1;
    assert n + 1 + z == (n - index) + (1 + index + z);
    GapIsLeast(n, z);
    if index >= 56 {
      assert Gap(n) == 119 - index;
    }
  }

  lemma PaddingPrefix(padding: seq<Byte>, z: nat)
    requires padding == [0x80] + Zeros(63) && z < 64
    ensures padding[..1 + z] == [0x80] + Zeros(z)
  {
  }

  /** The two count words' bytes, the low word first. */
  method CountBytes(count0: nat, count1: nat, ghost n: nat) returns (bits: seq<Byte>)
    requires Counts(count0, count1, n)
    ensures bits == LengthBytes(n)
  {
    hide Counts, Sha1.CountDigit, Sha1.LengthDigit;
    bits := seq(8, k requires 0 <= k < 8 => Sha1.CountDigit(count0, count1, 7 - k) as Byte);
    forall k | 0 <= k < 8 ensures bits[k] == LengthBytes(n)[k] {
      Sha1.CountDigitIsLengthDigit(count0, count1, n, 7 - k);
    }
  }

  /** The part of the padding array that leaves 8 bytes of a block. */
  method PaddingFor(count0: nat, count1: nat, ghost n: nat) returns (padding: seq<Byte>)
    requires Counts(count0, count1, n)
    ensures padding == [0x80] + Zeros(Gap(n)) && |padding| <= 64
  {
    hide Counts, Gap;
    CountsIndex(count0, count1, n);
    PadLength(n);
    var index := (count0 / 8) % 64;
    var padLen := if index < 56 then 56 - index else 120 - index;
    PaddingPrefix([0x80] + Zeros(63), padLen - 1);
    padding := ([0x80] + Zeros(63))[..padLen];
  }

  class Context {
    const transform: BlockFunction
    const states: array<Word>
    const buf: array<Byte>
    var count0: nat
    var count1: nat
    var digest: seq<Byte>
    ghost var msg: seq<Byte>  // the bytes given so far

    ghost predicate Shape()
      reads this
    {
      states.Length == 4 && buf.Length == 64 && (buf as object) != states
    }

    ghost predicate Valid()
      reads this, states, buf
    {
      Shape() && Streaming(transform, H0(), Value(states[..]), buf[..], count0, count1, msg)
    }

    constructor (f: BlockFunction)
      ensures Valid() && msg == [] && transform == f
    {
      transform := f;
      states := new Word[4];
      buf := new Byte[64];
      digest := [];
      new;
      Reset();
    }

    method Reset()
      requires Shape()
      modifies this, states
      ensures Valid() && msg == []
    {
      count0, count1 := 0, 0;
      states[0], states[1], states[2], states[3] :=
        Word(0x67452301), Word(0xEFCDAB89), Word(0x98BADCFE), Word(0x10325476);
      msg := [];
    }

    method Transform(block: seq<Byte>)
      requires Shape()
      modifies states
      ensures Value(states[..]) == transform(Value(old(states[..])), block)
    {
      var r := transform(Value(states[..]), block);
      states[0], states[1], states[2], states[3] := r.a, r.b, r.c, r.d;
    }

    /** Append data to the message.  The code adds 63 to positions in 32-bit words, so the
        data must end 64 bytes short of what such a word can count. */
    method Update(data: seq<Byte>)
      requires Valid() && |data| <= MAX_UPDATE
      modifies this`count0, this`count1, this`msg, states, buf
      ensures Valid() && msg == old(msg) + data
    {
      hide Fold, Streaming, Counts, Full, Count0, Count1, H0;
      Sha1.Opened(transform, H0(), Value(states[..]), buf[..], count0, count1, msg);
      var len := |data|;
      CountsAdd(count0, count1, |msg|, len);
      CountsIndex(count0, count1, |msg|);
      var index := (count0 / 8) % 64;
      ghost var before, c0, c1 := buf[..], count0, count1;
      AddCount(len);
      var partLen := 64 - index;
      if len >= partLen {
        UpdateBlocks(data, index);
      } else {
        Basics.Copy(buf, index, data);
        ShortUpdate(transform, H0(), Value(states[..]), before, buf[..], c0, c1, count0, count1, msg, data);
      }
      msg := msg + data;
    }

    method AddCount(len: nat)
      requires len < W32
      modifies this`count0, this`count1
      ensures count0 == Count0(old(count0), len) && count1 == Count1(old(count0), old(count1), len)
    {
      var bits := (8 * len) % W32;
      count0 := (count0 + bits) % W32;
      if count0 < bits {
        count1 := (count1 + 1) % W32;
      }
      count1 := (count1 + len / 0x2000_0000) % W32;
    }

    method UpdateBlocks(data: seq<Byte>, index: nat)
      requires Shape() && |data| <= MAX_UPDATE && Counts(count0, count1, |msg| + |data|)
      requires index == |msg| % 64 && index + |data| >= 64
      requires Value(states[..]) == Fold(transform, H0(), msg[..Full(|msg|)])
      requires buf[..index] == msg[Full(|msg|)..]
      modifies states, buf
      ensures Streaming(transform, H0(), Value(states[..]), buf[..], count0, count1, msg + data)
    {
      hide Fold, Streaming, Counts, Full, H0, Value;
      var i, len := 64 - index, |data|;
      FirstBlock(msg, buf[..], data);
      FoldAppend(transform, H0(), msg[..Full(|msg|)], buf[..index] + data[..i]);
      Basics.Copy(buf, index, data[..i]);
      assert buf[..] == old(buf[..index]) + data[..i];
      Transform(buf[..]);
      while i + 63 < len
        invariant i <= len && (|msg| + i) % 64 == 0
        invariant i + 63 < W32  // so the sum does not wrap
        invariant Value(states[..]) == Fold(transform, H0(), (msg + data)[..|msg| + i])
        decreases len - i
      {
        NextBlock(msg, data, i);
        FoldAppend(transform, H0(), (msg + data)[..|msg| + i], data[i..i + 64]);
        Transform(data[i..i + 64]);
        i := i + 64;
      }
      Basics.Copy(buf, 0, data[i..]);
      assert buf[..|data| - i] == buf[0..0 + |data| - i] == data[i..];
      LastBlock(transform, H0(), Value(states[..]), buf[..], count0, count1, msg, data, i);
    }

    /** Pad the message, and keep its digest; the context is wiped. */
    method Finalize()
      requires Valid()
      modifies this, states, buf
      ensures Shape() && digest == Hash(transform, old(msg))
    {
      hide Streaming, Fold, Counts, FinalRegs, H0;
      Pad();
      digest := seq(16, k requires 0 <= k < 16 reads this, states => states[k / 4].Byte(3 - k % 4));
      assert digest == DigestOf(Value(states[..]));
      forall k | 0 <= k < 64 {
        buf[k] := 0;
      }
      forall k | 0 <= k < 4 {
        states[k] := Word(0);
      }
      count0, count1 := 0, 0;
    }

    method Pad()
      requires Valid()
      modifies this`count0, this`count1, this`msg, states, buf
      ensures Shape() && Value(states[..]) == FinalRegs(transform, old(msg))
    {
      hide Streaming, Fold, Counts, LengthBytes, H0, Gap, Zeros;
      Sha1.Opened(transform, H0(), Value(states[..]), buf[..], count0, count1, msg);
      ghost var m := msg;
      var bits := CountBytes(count0, count1, |m|);
      var padding := PaddingFor(count0, count1, |m|);
      Update(padding);
      Update(bits);
      assert msg == Padded(m, LengthBytes(|m|));
      PaddedIsFull(m, LengthBytes(|m|));
      AllFolded(transform, H0(), Value(states[..]), buf[..], count0, count1, msg);
    }
  }

  lemma {:induction false} FoldOfNothing(h: Regs4, data: seq<Byte>)
    ensures Fold((r: Regs4, block: seq<Byte>) => r, h, data) == h
    decreases |data|
  {
    if |data| >= 64 {
      FoldOfNothing(h, data[..|data| - 64]);
    }
  }

  /** A block function that does nothing leaves the initial registers of section 3.3 of
      RFC 1321, which are the digits 0 to f up and down again, byte by byte. */
  lemma InitialDigest(msg: seq<Byte>)
    ensures Hash((r: Regs4, block: seq<Byte>) => r, msg) ==
              [0x01, 0x23, 0x45, 0x67, 0x89, 0xab, 0xcd, 0xef, 0xfe, 0xdc, 0xba, 0x98, 0x76, 0x54, 0x32, 0x10]
  {
    FoldOfNothing(H0(), Padded(msg, LengthBytes(|msg|)));
  }
}
