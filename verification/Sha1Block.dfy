/**
 SHA-1's compression of one block: the specification of section 6.1.2 of FIPS 180-4,
 with an 80-word schedule and five registers that move every round, and the code,
 with 16 words rewritten in place and five variables whose roles rotate.
 */
module Sha1Block {
  import opened Words

  datatype Regs = Regs(a: Word, b: Word, c: Word, d: Word, e: Word)

  // ----- FIPS 180-4

  function Ch(x: Word, y: Word, z: Word): Word { x.And(y).Xor(x.Not().And(z)) }
  function Parity(x: Word, y: Word, z: Word): Word { x.Xor(y).Xor(z) }
  function Maj(x: Word, y: Word, z: Word): Word { x.And(y).Xor(x.And(z)).Xor(y.And(z)) }

  /** The logical function of round t, section 4.1.1. */
  function F(t: nat, x: Word, y: Word, z: Word): Word {
    if t < 20 then Ch(x, y, z) else if t < 40 then Parity(x, y, z) else if t < 60 then Maj(x, y, z) else Parity(x, y, z)
  }

  /** The constant of round t, section 4.2.1. */
  function K(t: nat): Word {
    if t < 20 then Word(0x5a827999)
    else if t < 40 then Word(0x6ed9eba1)
    else if t < 60 then Word(0x8f1bbcdc)
    else Word(0xca62c1d6)
  }

  /** The message schedule. */
  function W(m: seq<Word>, t: nat): Word
    requires |m| == 16
  {
    if t < 16 then m[t] else W(m, t - 3).Xor(W(m, t - 8)).Xor(W(m, t - 14)).Xor(W(m, t - 16)).Rol1()
  }

  function Round(t: nat, r: Regs, w: Word): Regs {
    Regs(Sum5(r.a.Rol5(), F(t, r.b, r.c, r.d), r.e, K(t), w), r.a, r.b.Rol30(), r.c, r.d)
  }

  function Rounds(r: Regs, m: seq<Word>, t: nat): Regs
    requires |m| == 16
  {
    if t == 0 then r else Round(t - 1, Rounds(r, m, t - 1), W(m, t - 1))
  }

  function Plus(r: Regs, s: Regs): Regs {
    Regs(r.a.Add(s.a), r.b.Add(s.b), r.c.Add(s.c), r.d.Add(s.d), r.e.Add(s.e))
  }

  /** The intermediate hash value after one more block. */
  function Compress(r: Regs, m: seq<Word>): Regs
    requires |m| == 16
  {
    Plus(r, Rounds(r, m, 80))
  }

  // ----- the code's forms of the logical functions

  lemma ChForm(w: Word, x: Word, y: Word)
    ensures w.And(x.Xor(y)).Xor(y) == Ch(w, x, y)
  {
  }

  lemma MajForm(w: Word, x: Word, y: Word)
    ensures w.Or(x).And(y).Or(w.And(x)) == Maj(w, x, y)
  {
  }

  /** z += f + w + k + v, as the macros add. */
  function Added(z: Word, f: Word, w: Word, k: Word, v: Word): Word {
    Word(z.bits + (f.bits + w.bits + k.bits + v.bits))
  }

  lemma SumForm(z: Word, f: Word, w: Word, k: Word, v: Word)
    ensures Added(z, f, w, k, v) == Sum5(v, f, z, k, w)
  {
  }

  // ----- the code

  /** The circular buffer when round t is next: the last 16 schedule words, and for the
      first rounds the block's words still in the machine's byte order. */
  ghost predicate Circular(l: seq<Word>, m: seq<Word>, raw: seq<Word>, t: nat) {
    && |l| == 16 && |m| == 16 && |raw| == 16
    && (forall k :: 0 <= k < 16 ==> m[k] == raw[k].Swapped())
    && (forall k :: t <= k < 16 ==> l[k] == raw[k])
    && (forall k :: 0 <= k < t <= k + 16 ==> l[k % 16] == W(m, k))
  }

  lemma DistinctSlots(k: nat, t: nat)
    requires k < t <= k + 15
    ensures k % 16 != t % 16
  {
  }

  lemma EarlierSlots(t: nat)
    requires t >= 16
    ensures (t + 13) % 16 == (t - 3) % 16 && (t + 8) % 16 == (t - 8) % 16
    ensures (t + 2) % 16 == (t - 14) % 16 && t % 16 == (t - 16) % 16
  {
  }

  lemma CircularStep(l: seq<Word>, m: seq<Word>, raw: seq<Word>, t: nat)
    requires Circular(l, m, raw, t)
    ensures Circular(l[t % 16 := W(m, t)], m, raw, t + 1)
  {
    hide W;
    var l' := l[t % 16 := W(m, t)];
    forall k | 0 <= k < t + 1 <= k + 16 ensures l'[k % 16] == W(m, k) {
      if k < t {
        DistinctSlots(k, t);
      }
    }
  }

  /** The words that the buffer has where the schedule word of round t is made from them. */
  lemma CircularAt(l: seq<Word>, m: seq<Word>, raw: seq<Word>, t: nat)
    requires Circular(l, m, raw, t)
    ensures |l| == 16 && (t < 16 ==> l[t].Swapped() == m[t])
    ensures t >= 16 ==> l[(t + 13) % 16] == W(m, t - 3) && l[(t + 8) % 16] == W(m, t - 8)
                        && l[(t + 2) % 16] == W(m, t - 14) && l[t % 16] == W(m, t - 16)
  {
    hide W, Word.Swapped;
    if t >= 16 {
      EarlierSlots(t);
    }
  }

  /** blk0 and blk: the schedule word of round t, kept in the buffer. */
  method Blk(l: array<Word>, t: nat, ghost m: seq<Word>, ghost raw: seq<Word>) returns (word: Word)
    requires l.Length == 16 && |m| == 16 && Circular(l[..], m, raw, t)
    modifies l
    ensures Circular(l[..], m, raw, t + 1) && word == W(m, t)
  {
    hide Word.Rol1, Word.Swapped, Word.Xor, Circular;
    CircularStep(l[..], m, raw, t);
    CircularAt(l[..], m, raw, t);
    if t < 16 {
      word := l[t].Swapped();
    } else {
      word := l[(t + 13) % 16].Xor(l[(t + 8) % 16]).Xor(l[(t + 2) % 16]).Xor(l[t % 16]).Rol1();
    }
    l[t % 16] := word;
    assert l[..] == old(l[..])[t % 16 := word];
  }

  /** What R0 to R4 make of z, with the schedule word of round t. */
  function Mixed(t: nat, v: Word, w: Word, x: Word, y: Word, z: Word, word: Word): Word {
    if t < 20 then Added(z, w.And(x.Xor(y)).Xor(y), word, Word(0x5A827999), v.Rol5())
    else if t < 40 then Added(z, w.Xor(x).Xor(y), word, Word(0x6ED9EBA1), v.Rol5())
    else if t < 60 then Added(z, w.Or(x).And(y).Or(w.And(x)), word, Word(0x8F1BBCDC), v.Rol5())
    else Added(z, w.Xor(x).Xor(y), word, Word(0xCA62C1D6), v.Rol5())
  }

  lemma MixedIsRound(t: nat, v: Word, w: Word, x: Word, y: Word, z: Word, word: Word)
    ensures Mixed(t, v, w, x, y, z, word) == Sum5(v.Rol5(), F(t, w, x, y), z, K(t), word)
  {
    hide Word.Rol5, Word.And, Word.Or, Word.Xor, Word.Not, Added, Sum5, Ch, Maj;
    ChForm(w, x, y);
    MajForm(w, x, y);
    SumForm(z, F(t, w, x, y), word, K(t), v.Rol5());
  }

  lemma RoundsStep(r: Regs, m: seq<Word>, t: nat, v: Word, w: Word, x: Word, y: Word, z: Word)
    requires |m| == 16 && Regs(v, w, x, y, z) == Rounds(r, m, t)
    ensures Rounds(r, m, t + 1) ==
              Regs(Sum5(v.Rol5(), F(t, w, x, y), z, K(t), W(m, t)), v, w.Rol30(), x, y)
  {
    hide Word.Rol5, Word.Rol30, Sum5, F, K, W;
  }

  /** One of the macros R0 to R4: the schedule word of round t replaces one of the
      buffer, and of the five variables z and w change. */
  method RoundInPlace(l: array<Word>, v: Word, w: Word, x: Word, y: Word, z: Word, t: nat,
                      ghost r: Regs, ghost m: seq<Word>, ghost raw: seq<Word>)
      returns (z': Word, w': Word)
    requires l.Length == 16 && |m| == 16 && Circular(l[..], m, raw, t)
    requires Regs(v, w, x, y, z) == Rounds(r, m, t)
    modifies l
    ensures Circular(l[..], m, raw, t + 1)
    ensures Regs(z', v, w', x, y) == Rounds(r, m, t + 1)
  {
    hide *;
    var word := Blk(l, t, m, raw);
    MixedIsRound(t, v, w, x, y, z, word);
    RoundsStep(r, m, t, v, w, x, y, z);
    z' := Mixed(t, v, w, x, y, z, word);
    w' := w.Rol30();
  }

  lemma CircularStart(raw: seq<Word>, m: seq<Word>)
    requires |raw| == 16 && |m| == 16 && forall k :: 0 <= k < 16 ==> m[k] == raw[k].Swapped()
    ensures Circular(raw, m, raw, 0)
  {
  }

  lemma RoundsStart(r: Regs, m: seq<Word>)
    requires |m| == 16
    ensures Rounds(r, m, 0) == r
  {
  }

  /** One block: the state becomes its compression with the block's big-endian words. */
  method Transform(state: array<Word>, l: array<Word>, ghost m: seq<Word>)
    requires state.Length == 5 && l.Length == 16 && state != l
    requires |m| == 16 && forall k :: 0 <= k < 16 ==> m[k] == l[k].Swapped()
    modifies state, l
    ensures Value(state[..]) == Compress(Value(old(state[..])), m)
  {
    hide Word.Swapped, W, Round, Rounds, Circular, Word.Add;
    ghost var r, raw := Value(state[..]), l[..];
    var a, b, c, d, e := state[0], state[1], state[2], state[3], state[4];
    var t := 0;
    CircularStart(raw, m);
    RoundsStart(r, m);
    while t < 80
      invariant t <= 80 && t % 5 == 0
      invariant Circular(l[..], m, raw, t) && Regs(a, b, c, d, e) == Rounds(r, m, t)
      invariant state[..] == old(state[..])
    {
      e, b := RoundInPlace(l, a, b, c, d, e, t, r, m, raw);
      d, a := RoundInPlace(l, e, a, b, c, d, t + 1, r, m, raw);
      c, e := RoundInPlace(l, d, e, a, b, c, t + 2, r, m, raw);
      b, d := RoundInPlace(l, c, d, e, a, b, t + 3, r, m, raw);
      a, c := RoundInPlace(l, b, c, d, e, a, t + 4, r, m, raw);
      t := t + 5;
    }
    state[0] := state[0].Add(a);
    state[1] := state[1].Add(b);
    state[2] := state[2].Add(c);
    state[3] := state[3].Add(d);
    state[4] := state[4].Add(e);
  }

  function Value(s: seq<Word>): Regs
    requires |s| == 5
  {
    Regs(s[0], s[1], s[2], s[3], s[4])
  }
}
