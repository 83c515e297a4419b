/** Bytes and 32-bit words: the operations on words, and both byte orders. */
module Words {
  type Byte = bv8

  datatype Word = Word(bits: bv32)
  {
    function And(y: Word): Word { Word(bits & y.bits) }
    function Or(y: Word): Word { Word(bits | y.bits) }
    function Xor(y: Word): Word { Word(bits ^ y.bits) }
    function Not(): Word { Word(!bits) }

    function Add(y: Word): Word { Word(bits + y.bits) }
    function Half(): Word { Word(bits >> 1) }
    function Shr8(): Word { Word(bits >> 8) }
    predicate Odd() { bits & 1 == 1 }
    function LowByte(): Byte { (bits & 0xFF) as Byte }

    function Rol1(): Word { Word((bits << 1) | (bits >> 31)) }
    function Rol5(): Word { Word((bits << 5) | (bits >> 27)) }
    function Rol30(): Word { Word((bits << 30) | (bits >> 2)) }

    /** What a little-endian machine does to a word it has loaded, to have it big-endian. */
    function Swapped(): Word {
      Word((((bits << 24) | (bits >> 8)) & 0xFF00FF00) | (((bits << 8) | (bits >> 24)) & 0x00FF00FF))
    }

    /** Byte k, counted from the most significant one. */
    function Byte(k: nat): Byte {
      if k == 0 then ((bits >> 24) & 0xFF) as Byte
      else if k == 1 then ((bits >> 16) & 0xFF) as Byte
      else if k == 2 then ((bits >> 8) & 0xFF) as Byte
      else (bits & 0xFF) as Byte
    }
  }

  /** The sum modulo 2^32. */
  function Sum5(a: Word, b: Word, c: Word, d: Word, e: Word): Word {
    Word(a.bits + b.bits + c.bits + d.bits + e.bits)
  }

  function BigEndian(a: Byte, b: Byte, c: Byte, d: Byte): Word {
    Word(((a as bv32) << 24) | ((b as bv32) << 16) | ((c as bv32) << 8) | (d as bv32))
  }

  function LittleEndian(a: Byte, b: Byte, c: Byte, d: Byte): Word {
    BigEndian(d, c, b, a)
  }

  lemma SwappedIsBigEndian(a: Byte, b: Byte, c: Byte, d: Byte)
    ensures LittleEndian(a, b, c, d).Swapped() == BigEndian(a, b, c, d)
  {
  }

  function Wide(b: Byte): Word {
    Word(b as bv32)
  }

  function Low(x: Word): Word {
    Word(x.bits & 1)
  }

  lemma XorOdd(x: Word, y: Word)
    ensures x.Xor(y).Odd() <==> x.Odd() != y.Odd()
  {
  }

  lemma XorHalf(x: Word, y: Word)
    ensures x.Xor(y).Half() == x.Half().Xor(y.Half())
  {
  }

  lemma XorCancels(x: Word, y: Word, p: Word)
    ensures x.Xor(p).Xor(y.Xor(p)) == x.Xor(y)
  {
  }

  lemma XorSwaps(x: Word, y: Word, p: Word)
    ensures x.Xor(p).Xor(y) == x.Xor(y).Xor(p)
  {
  }

  lemma XorAssociates(x: Word, y: Word, p: Word)
    ensures x.Xor(y).Xor(p) == x.Xor(y.Xor(p))
  {
  }

  lemma XorBack(x: Word, p: Word)
    ensures x.Xor(p).Xor(p) == x
  {
  }

  lemma LowParts(x: Word)
    ensures Low(x).Odd() == x.Odd() && Low(x).Half() == Word(0)
  {
  }

  lemma XorCommutes(x: Word, y: Word)
    ensures x.Xor(y) == y.Xor(x)
  {
  }

  lemma XorZero(x: Word)
    ensures x.Xor(Word(0)) == x
  {
  }

  lemma HighHasNoLow(x: Word)
    ensures x.Xor(Wide(x.LowByte())).LowByte() == 0
  {
  }

  lemma HighKeepsRest(x: Word)
    ensures x.Xor(Wide(x.LowByte())).Shr8() == x.Shr8()
  {
  }
}
