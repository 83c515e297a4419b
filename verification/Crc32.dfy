/**
 Table-driven CRC-32, and what it stands for: division of the message, one bit at a
 time, by the reflected polynomial of section 8 of RFC 1952.
 */
module Crc32 {

  import opened Words

  const POLYNOMIAL: Word := Word(0xEDB88320)
  const ONES: Word := Word(0xFFFFFFFF)

  // ----- the division

  /** One step of the division. */
  function Step(c: Word): Word {
    if c.Odd() then c.Half().Xor(POLYNOMIAL) else c.Half()
  }

  function Halved(x: Word, n: nat): Word {
    if n == 0 then x else Halved(x, n - 1).Half()
  }

  /** Bit k of a byte, as a word. */
  function Bit(b: Byte, k: nat): Word
    requires k < 8
  {
    Low(Halved(Wide(b), k))
  }

  /** The remainder c after the first n bits of b, the least significant first. */
  function Divide(c: Word, b: Byte, n: nat): Word
    requires n <= 8
  {
    if n == 0 then c else Step(Divide(c, b, n - 1).Xor(Bit(b, n - 1)))
  }

  function Remainder(c: Word, data: seq<Byte>): Word {
    if data == [] then c else Divide(Remainder(c, data[..|data| - 1]), data[|data| - 1], 8)
  }

  /** CRC-32 of data, continuing from the CRC of what went before. */
  function Crc(crc: Word, data: seq<Byte>): Word {
    Remainder(crc.Xor(ONES), data).Xor(ONES)
  }

  function Steps(c: Word, n: nat): Word {
    if n == 0 then c else Step(Steps(c, n - 1))
  }

  // ----- the eight bits of a byte can be put in first

  lemma StepLinear(x: Word, y: Word)
    ensures Step(x.Xor(y)) == Step(x).Xor(Step(y))
  {
    hide Word.Xor, Word.Half, Word.Odd;
    XorOdd(x, y);
    XorHalf(x, y);
    XorPolynomial(x.Half(), y.Half());
  }

  lemma XorPolynomial(x: Word, y: Word)
    ensures x.Xor(POLYNOMIAL).Xor(y.Xor(POLYNOMIAL)) == x.Xor(y)
    ensures x.Xor(POLYNOMIAL).Xor(y) == x.Xor(y).Xor(POLYNOMIAL) == x.Xor(y.Xor(POLYNOMIAL))
  {
    hide Word.Xor;
    XorCancels(x, y, POLYNOMIAL);
    XorSwaps(x, y, POLYNOMIAL);
    XorAssociates(x, y, POLYNOMIAL);
  }

  lemma {:induction false} StepsLinear(x: Word, y: Word, n: nat)
    ensures Steps(x.Xor(y), n) == Steps(x, n).Xor(Steps(y, n))
  {
    hide Word.Xor, Step;
    if n > 0 {
      StepsLinear(x, y, n - 1);
      StepLinear(Steps(x, n - 1), Steps(y, n - 1));
    }
  }

  /** A step takes all bits but the lowest to the right. */
  lemma StepLow(c: Word, x: Word)
    ensures Step(c.Xor(x)) == Step(c.Xor(Low(x))).Xor(x.Half())
  {
    hide Word.Xor, Word.Half, Word.Odd, Low;
    XorOdd(c, x);
    XorOdd(c, Low(x));
    XorHalf(c, x);
    XorHalf(c, Low(x));
    LowParts(x);
    XorZero(c.Half());
    XorSwaps(c.Half(), x.Half(), POLYNOMIAL);
  }

  /** After n steps with all of b put in first, the rest of b is still to come. */
  lemma {:induction false} StepsDivide(c: Word, b: Byte, n: nat)
    requires n <= 8
    ensures Steps(c.Xor(Wide(b)), n) == Divide(c, b, n).Xor(Halved(Wide(b), n))
  {
    hide Word.Xor, Word.Half, Step, Low, Wide;
    if n > 0 {
      StepsDivide(c, b, n - 1);
      StepLow(Divide(c, b, n - 1), Halved(Wide(b), n - 1));
    }
  }

  lemma DivideIsSteps(c: Word, b: Byte)
    ensures Divide(c, b, 8) == Steps(c.Xor(Wide(b)), 8)
  {
    hide Word.Xor, Word.Half, Divide, Steps, Wide;
    StepsDivide(c, b, 8);
    WideIsShort(b);
    XorZero(Divide(c, b, 8));
  }

  /** Steps only shift as long as the low bits are zero. */
  lemma {:induction false} StepsEven(x: Word, n: nat)
    requires forall k :: 0 <= k < n ==> !Halved(x, k).Odd()
    ensures Steps(x, n) == Halved(x, n)
  {
    hide Word.Xor, Word.Half, Word.Odd;
    if n > 0 {
      StepsEven(x, n - 1);
    }
  }

  lemma Recombined(x: Word, y: Word)
    ensures y.Xor(x.Xor(y)) == x
  {
    hide Word.Xor;
    XorAssociates(y, x, y);
    XorBack(x, y);
    XorCommutes(x, y);
  }

  /** The low byte goes through the steps; the others only shift. */
  lemma StepsSplit(x: Word)
    ensures Steps(x, 8) == Steps(Wide(x.LowByte()), 8).Xor(x.Shr8())
  {
    hide Word.Xor, Word.Half, Word.LowByte, Word.Odd, Word.Shr8, Steps, Wide, Halved;
    var high := x.Xor(Wide(x.LowByte()));
    HighHasNoLow(x);
    HighKeepsRest(x);
    Recombined(x, Wide(x.LowByte()));
    StepsLinear(Wide(x.LowByte()), high, 8);
    LowByteEven(high);
    StepsEven(high, 8);
    HalvedEight(high);
  }

  function Mask(m: nat): bv32 {
    if m == 0 then 0 else if m == 1 then 0x1 else if m == 2 then 0x3 else if m == 3 then 0x7 else if m == 4 then 0xF
    else if m == 5 then 0x1F else if m == 6 then 0x3F else if m == 7 then 0x7F else 0xFF
  }

  /** The low m bits are zero. */
  predicate LowZero(x: Word, m: nat) {
    x.bits & Mask(m) == 0
  }

  lemma LowZeroHalf(x: Word, m: nat)
    requires 0 < m <= 8 && LowZero(x, m)
    ensures !x.Odd() && LowZero(x.Half(), m - 1)
  {
    if m == 1 {} else if m == 2 {} else if m == 3 {} else if m == 4 {}
    else if m == 5 {} else if m == 6 {} else if m == 7 {}
  }

  lemma {:induction false} LowZeroHalved(x: Word, m: nat, k: nat)
    requires k < m <= 8 && LowZero(x, m)
    ensures LowZero(Halved(x, k), m - k) && !Halved(x, k).Odd()
  {
    hide LowZero, Word.Half, Word.Odd;
    if k > 0 {
      LowZeroHalved(x, m, k - 1);
      LowZeroHalf(Halved(x, k - 1), m - k + 1);
    }
    LowZeroHalf(Halved(x, k), m - k);
  }

  lemma NoLowByte(x: Word)
    requires x.LowByte() == 0
    ensures LowZero(x, 8)
  {
  }

  /** Without a low byte, the first eight halvings shift out zeros. */
  lemma LowByteEven(x: Word)
    requires x.LowByte() == 0
    ensures forall k :: 0 <= k < 8 ==> !Halved(x, k).Odd()
  {
    hide Halved, Word.LowByte, Word.Odd, LowZero;
    NoLowByte(x);
    forall k | 0 <= k < 8 ensures !Halved(x, k).Odd() {
      LowZeroHalved(x, 8, k);
    }
  }

  function Shr2(x: Word): Word { Word(x.bits >> 2) }
  function Shr4(x: Word): Word { Word(x.bits >> 4) }

  lemma Shr2IsTwo(x: Word)
    ensures Shr2(x) == x.Half().Half()
  {
  }

  lemma Shr4IsTwo(x: Word)
    ensures Shr4(x) == Shr2(Shr2(x))
  {
  }

  lemma Shr8IsTwo(x: Word)
    ensures x.Shr8() == Shr4(Shr4(x))
  {
  }

  lemma HalvedEight(x: Word)
    ensures Halved(x, 8) == x.Shr8()
  {
    hide Word.Half, Word.Shr8, Shr2, Shr4;
    HalvedTwice(x, 0);
    HalvedTwice(x, 2);
    HalvedTwice(x, 4);
    HalvedTwice(x, 6);
    Shr4IsTwo(x);
    Shr4IsTwo(Shr4(x));
    Shr8IsTwo(x);
  }

  lemma HalvedTwice(x: Word, k: nat)
    ensures Halved(x, k + 2) == Shr2(Halved(x, k))
  {
    hide Word.Half, Shr2;
    assert Halved(x, k + 2) == Halved(x, k + 1).Half();
    Shr2IsTwo(Halved(x, k));
  }

  lemma WideIsShort(b: Byte)
    ensures Halved(Wide(b), 8) == Word(0)
  {
    hide Halved;
    HalvedEight(Wide(b));
  }

  // ----- the table

  /** The table, sixteen entries a row. */
  function Row(h: nat): (r: seq<bv32>)
    ensures |r| == 16
  {
    match h
    case 0 => [0x00000000, 0x77073096, 0xee0e612c, 0x990951ba, 0x076dc419, 0x706af48f, 0xe963a535, 0x9e6495a3,
      0x0edb8832, 0x79dcb8a4, 0xe0d5e91e, 0x97d2d988, 0x09b64c2b, 0x7eb17cbd, 0xe7b82d07, 0x90bf1d91]
    case 1 => [0x1db71064, 0x6ab020f2, 0xf3b97148, 0x84be41de, 0x1adad47d, 0x6ddde4eb, 0xf4d4b551, 0x83d385c7,
      0x136c9856, 0x646ba8c0, 0xfd62f97a, 0x8a65c9ec, 0x14015c4f, 0x63066cd9, 0xfa0f3d63, 0x8d080df5]
    case 2 => [0x3b6e20c8, 0x4c69105e, 0xd56041e4, 0xa2677172, 0x3c03e4d1, 0x4b04d447, 0xd20d85fd, 0xa50ab56b,
      0x35b5a8fa, 0x42b2986c, 0xdbbbc9d6, 0xacbcf940, 0x32d86ce3, 0x45df5c75, 0xdcd60dcf, 0xabd13d59]
    case 3 => [0x26d930ac, 0x51de003a, 0xc8d75180, 0xbfd06116, 0x21b4f4b5, 0x56b3c423, 0xcfba9599, 0xb8bda50f,
      0x2802b89e, 0x5f058808, 0xc60cd9b2, 0xb10be924, 0x2f6f7c87, 0x58684c11, 0xc1611dab, 0xb6662d3d]
    case 4 => [0x76dc4190, 0x01db7106, 0x98d220bc, 0xefd5102a, 0x71b18589, 0x06b6b51f, 0x9fbfe4a5, 0xe8b8d433,
      0x7807c9a2, 0x0f00f934, 0x9609a88e, 0xe10e9818, 0x7f6a0dbb, 0x086d3d2d, 0x91646c97, 0xe6635c01]
    case 5 => [0x6b6b51f4, 0x1c6c6162, 0x856530d8, 0xf262004e, 0x6c0695ed, 0x1b01a57b, 0x8208f4c1, 0xf50fc457,
      0x65b0d9c6, 0x12b7e950, 0x8bbeb8ea, 0xfcb9887c, 0x62dd1ddf, 0x15da2d49, 0x8cd37cf3, 0xfbd44c65]
    case 6 => [0x4db26158, 0x3ab551ce, 0xa3bc0074, 0xd4bb30e2, 0x4adfa541, 0x3dd895d7, 0xa4d1c46d, 0xd3d6f4fb,
      0x4369e96a, 0x346ed9fc, 0xad678846, 0xda60b8d0, 0x44042d73, 0x33031de5, 0xaa0a4c5f, 0xdd0d7cc9]
    case 7 => [0x5005713c, 0x270241aa, 0xbe0b1010, 0xc90c2086, 0x5768b525, 0x206f85b3, 0xb966d409, 0xce61e49f,
      0x5edef90e, 0x29d9c998, 0xb0d09822, 0xc7d7a8b4, 0x59b33d17, 0x2eb40d81, 0xb7bd5c3b, 0xc0ba6cad]
    case 8 => [0xedb88320, 0x9abfb3b6, 0x03b6e20c, 0x74b1d29a, 0xead54739, 0x9dd277af, 0x04db2615, 0x73dc1683,
      0xe3630b12, 0x94643b84, 0x0d6d6a3e, 0x7a6a5aa8, 0xe40ecf0b, 0x9309ff9d, 0x0a00ae27, 0x7d079eb1]
    case 9 => [0xf00f9344, 0x8708a3d2, 0x1e01f268, 0x6906c2fe, 0xf762575d, 0x806567cb, 0x196c3671, 0x6e6b06e7,
      0xfed41b76, 0x89d32be0, 0x10da7a5a, 0x67dd4acc, 0xf9b9df6f, 0x8ebeeff9, 0x17b7be43, 0x60b08ed5]
    case 10 => [0xd6d6a3e8, 0xa1d1937e, 0x38d8c2c4, 0x4fdff252, 0xd1bb67f1, 0xa6bc5767, 0x3fb506dd, 0x48b2364b,
      0xd80d2bda, 0xaf0a1b4c, 0x36034af6, 0x41047a60, 0xdf60efc3, 0xa867df55, 0x316e8eef, 0x4669be79]
    case 11 => [0xcb61b38c, 0xbc66831a, 0x256fd2a0, 0x5268e236, 0xcc0c7795, 0xbb0b4703, 0x220216b9, 0x5505262f,
      0xc5ba3bbe, 0xb2bd0b28, 0x2bb45a92, 0x5cb36a04, 0xc2d7ffa7, 0xb5d0cf31, 0x2cd99e8b, 0x5bdeae1d]
    case 12 => [0x9b64c2b0, 0xec63f226, 0x756aa39c, 0x026d930a, 0x9c0906a9, 0xeb0e363f, 0x72076785, 0x05005713,
      0x95bf4a82, 0xe2b87a14, 0x7bb12bae, 0x0cb61b38, 0x92d28e9b, 0xe5d5be0d, 0x7cdcefb7, 0x0bdbdf21]
    case 13 => [0x86d3d2d4, 0xf1d4e242, 0x68ddb3f8, 0x1fda836e, 0x81be16cd, 0xf6b9265b, 0x6fb077e1, 0x18b74777,
      0x88085ae6, 0xff0f6a70, 0x66063bca, 0x11010b5c, 0x8f659eff, 0xf862ae69, 0x616bffd3, 0x166ccf45]
    case 14 => [0xa00ae278, 0xd70dd2ee, 0x4e048354, 0x3903b3c2, 0xa7672661, 0xd06016f7, 0x4969474d, 0x3e6e77db,
      0xaed16a4a, 0xd9d65adc, 0x40df0b66, 0x37d83bf0, 0xa9bcae53, 0xdebb9ec5, 0x47b2cf7f, 0x30b5ffe9]
    case _ => [0xbdbdf21c, 0xcabac28a, 0x53b39330, 0x24b4a3a6, 0xbad03605, 0xcdd70693, 0x54de5729, 0x23d967bf,
      0xb3667a2e, 0xc4614ab8, 0x5d681b02, 0x2a6f2b94, 0xb40bbe37, 0xc30c8ea1, 0x5a05df1b, 0x2d02ef8d]
  }

  function Entry(b: Byte): Word {
    Word(Row((b as nat) / 16)[(b as nat) % 16])
  }

  /** What eight steps make of the bits of a byte: the table's entries for single bits, summed. */
  function LowSum(l: Byte): Word {
    Four(l, 0x77073096, 0xee0e612c, 0x076dc419, 0x0edb8832)
  }

  function HighSum(h: Byte): Word {
    Four(h, 0x1db71064, 0x3b6e20c8, 0x76dc4190, 0xedb88320)
  }

  predicate RowIsSum(h: nat, l: nat)
    requires l < 16
  {
    Row(h)[l] == Row(h)[0] ^ Row(0)[l]
  }

  lemma Rows0(h: nat, l: nat)
    requires 0 <= h <= 1 && l < 16
    ensures RowIsSum(h, l)
  {
    match h
    case 0 =>
    case _ =>
  }

  lemma Rows2(h: nat, l: nat)
    requires 2 <= h <= 3 && l < 16
    ensures RowIsSum(h, l)
  {
    match h
    case 2 =>
    case _ =>
  }

  lemma Rows4(h: nat, l: nat)
    requires 4 <= h <= 5 && l < 16
    ensures RowIsSum(h, l)
  {
    match h
    case 4 =>
    case _ =>
  }

  lemma Rows6(h: nat, l: nat)
    requires 6 <= h <= 7 && l < 16
    ensures RowIsSum(h, l)
  {
    match h
    case 6 =>
    case _ =>
  }

  lemma Rows8(h: nat, l: nat)
    requires 8 <= h <= 9 && l < 16
    ensures RowIsSum(h, l)
  {
    match h
    case 8 =>
    case _ =>
  }

  lemma Rows10(h: nat, l: nat)
    requires 10 <= h <= 11 && l < 16
    ensures RowIsSum(h, l)
  {
    match h
    case 10 =>
    case _ =>
  }

  lemma Rows12(h: nat, l: nat)
    requires 12 <= h <= 13 && l < 16
    ensures RowIsSum(h, l)
  {
    match h
    case 12 =>
    case _ =>
  }

  lemma Rows14(h: nat, l: nat)
    requires 14 <= h <= 15 && l < 16
    ensures RowIsSum(h, l)
  {
    match h
    case 14 =>
    case _ =>
  }

  lemma RowsAreSums(h: nat, l: nat)
    requires h < 16 && l < 16
    ensures RowIsSum(h, l)
  {
    hide RowIsSum;
    if h <= 1 {
      Rows0(h, l);
    } else if h <= 3 {
      Rows2(h, l);
    } else if h <= 5 {
      Rows4(h, l);
    } else if h <= 7 {
      Rows6(h, l);
    } else if h <= 9 {
      Rows8(h, l);
    } else if h <= 11 {
      Rows10(h, l);
    } else if h <= 13 {
      Rows12(h, l);
    } else {
      Rows14(h, l);
    }
  }

  lemma FirstRow(l: Byte)
    requires l < 16
    ensures (l as nat) < 16 && Word(Row(0)[l as nat]) == LowSum(l)
  {
  }

  lemma FirstColumn(h: Byte)
    requires h < 16
    ensures Word(Row(h as nat)[0]) == HighSum(h)
  {
  }

  lemma Nibbles(b: Byte)
    ensures (b as nat) / 16 == (b >> 4) as nat && (b as nat) % 16 == (b & 15) as nat
    ensures b >> 4 < 16 && b & 15 < 16 && (b >> 4) as nat < 16 && (b & 15) as nat < 16
  {
  }

  lemma EntryIsSum(b: Byte)
    ensures Entry(b) == HighSum(b >> 4).Xor(LowSum(b & 15))
  {
    hide Row, RowIsSum, HighSum, LowSum, Word.Xor;
    Nibbles(b);
    EntryAt(b, (b >> 4) as nat, (b & 15) as nat);
    FirstRow(b & 15);
    FirstColumn(b >> 4);
    XorOfWords(Row((b >> 4) as nat)[0], Row(0)[(b & 15) as nat]);
  }

  lemma EntryAt(b: Byte, h: nat, l: nat)
    requires (b as nat) / 16 == h && (b as nat) % 16 == l && h < 16
    ensures Entry(b) == Word(Row(h)[0] ^ Row(0)[l])
  {
    hide Row, RowIsSum;
    RowsAreSums(h, l);
    RowSum(h, l);
  }

  lemma RowSum(h: nat, l: nat)
    requires l < 16 && RowIsSum(h, l)
    ensures Row(h)[l] == Row(h)[0] ^ Row(0)[l]
  {
    hide Row;
  }

  // ----- the entries are what eight steps make of the bits

  /** One bit of a byte, or nothing. */
  function Single(on: bool, bit: bv32): Word {
    Word(if on then bit else 0)
  }

  lemma {:induction false} StepsZero(n: nat)
    ensures Steps(Word(0), n) == Word(0)
  {
    if n > 0 {
      StepsZero(n - 1);
    }
  }

  /** A single bit is shifted to the low end, and then makes the polynomial. */
  lemma StepsOfBit(bit: bv32, entry: bv32)
    requires
      || (bit == 0x01 && entry == 0x77073096) || (bit == 0x02 && entry == 0xee0e612c)
      || (bit == 0x04 && entry == 0x076dc419) || (bit == 0x08 && entry == 0x0edb8832)
      || (bit == 0x10 && entry == 0x1db71064) || (bit == 0x20 && entry == 0x3b6e20c8)
      || (bit == 0x40 && entry == 0x76dc4190) || (bit == 0x80 && entry == 0xedb88320)
    ensures Steps(Word(bit), 8) == Word(entry)
  {
    var a := Step(Word(bit));
    var b := Step(a);
    var c := Step(b);
    var d := Step(c);
    var e := Step(d);
    var f := Step(e);
    var g := Step(f);
    assert Steps(Word(bit), 4) == d;
  }

  function Four(l: Byte, a: bv32, b: bv32, c: bv32, d: bv32): Word {
    Single(l & 1 != 0, a).Xor(Single(l & 2 != 0, b)).Xor(Single(l & 4 != 0, c)).Xor(Single(l & 8 != 0, d))
  }

  lemma StepsOfSingle(on: bool, bit: bv32, entry: bv32)
    requires Steps(Word(bit), 8) == Word(entry)
    ensures Steps(Single(on, bit), 8) == Single(on, entry)
  {
    hide Steps;
    StepsZero(8);
  }

  lemma StepsOfFour(l: Byte, a: bv32, b: bv32, c: bv32, d: bv32, a': bv32, b': bv32, c': bv32, d': bv32)
    requires Steps(Word(a), 8) == Word(a') && Steps(Word(b), 8) == Word(b')
    requires Steps(Word(c), 8) == Word(c') && Steps(Word(d), 8) == Word(d')
    ensures Steps(Four(l, a, b, c, d), 8) == Four(l, a', b', c', d')
  {
    hide Word.Xor, Steps, Single;
    var w, x, y, z := Single(l & 1 != 0, a), Single(l & 2 != 0, b), Single(l & 4 != 0, c), Single(l & 8 != 0, d);
    StepsLinear(w.Xor(x).Xor(y), z, 8);
    StepsLinear(w.Xor(x), y, 8);
    StepsLinear(w, x, 8);
    StepsOfSingle(l & 1 != 0, a, a');
    StepsOfSingle(l & 2 != 0, b, b');
    StepsOfSingle(l & 4 != 0, c, c');
    StepsOfSingle(l & 8 != 0, d, d');
  }

  /** Every entry of the table is what eight steps make of its index. */
  lemma EntryIsSteps(b: Byte)
    ensures Entry(b) == Steps(Wide(b), 8)
  {
    hide Word.Xor, Steps, Single, Four, Entry, Wide;
    StepsOfBit(0x01, 0x77073096);
    StepsOfBit(0x02, 0xee0e612c);
    StepsOfBit(0x04, 0x076dc419);
    StepsOfBit(0x08, 0x0edb8832);
    StepsOfBit(0x10, 0x1db71064);
    StepsOfBit(0x20, 0x3b6e20c8);
    StepsOfBit(0x40, 0x76dc4190);
    StepsOfBit(0x80, 0xedb88320);
    var h, l := b >> 4, b & 15;
    StepsOfFour(l, 0x01, 0x02, 0x04, 0x08, 0x77073096, 0xee0e612c, 0x076dc419, 0x0edb8832);
    StepsOfFour(h, 0x10, 0x20, 0x40, 0x80, 0x1db71064, 0x3b6e20c8, 0x76dc4190, 0xedb88320);
    WideIsFours(b);
    StepsLinear(Four(h, 0x10, 0x20, 0x40, 0x80), Four(l, 0x01, 0x02, 0x04, 0x08), 8);
    EntryIsSum(b);
  }

  lemma WideIsFours(b: Byte)
    ensures Wide(b) == Four(b >> 4, 0x10, 0x20, 0x40, 0x80).Xor(Four(b & 15, 0x01, 0x02, 0x04, 0x08))
  {
  }

  lemma XorOfWords(x: bv32, y: bv32)
    ensures Word(x).Xor(Word(y)) == Word(x ^ y)
  {
  }

  // ----- the code

  /** One byte of the message. */
  function Looked(crc: Word, p: Byte): Word {
    Entry(crc.Xor(Wide(p)).LowByte()).Xor(crc.Shr8())
  }

  lemma LookedIsDivide(crc: Word, p: Byte)
    ensures Looked(crc, p) == Divide(crc, p, 8)
  {
    hide Word.Xor, Word.Half, Word.LowByte, Steps, Divide, Entry, Wide;
    var x := crc.Xor(Wide(p));
    DivideIsSteps(crc, p);
    StepsSplit(x);
    EntryIsSteps(x.LowByte());
    HighUnchanged(crc, p);
  }

  lemma HighUnchanged(crc: Word, p: Byte)
    ensures crc.Xor(Wide(p)).Shr8() == crc.Shr8()
  {
  }

  method Crc32(crc: Word, buf: seq<Byte>) returns (result: Word)
    ensures result == Crc(crc, buf)
  {
    hide Word.Xor, Looked, Divide;
    var c := crc.Xor(ONES);
    var k := 0;
    while k < |buf|
      invariant k <= |buf| && c == Remainder(crc.Xor(ONES), buf[..k])
    {
      LookedIsDivide(c, buf[k]);
      assert buf[..k + 1][..k] == buf[..k];
      c := Looked(c, buf[k]);
      k := k + 1;
    }
    assert buf[..k] == buf;
    result := c.Xor(ONES);
  }

  /** The running CRC of a message given in pieces. */
  class Running {
    var crc: Word
    ghost var data: seq<Byte>

    ghost predicate Valid()
      reads this
    {
      crc == Crc(Word(0), data)
    }

    constructor ()
      ensures Valid() && data == []
    {
      crc, data := Word(0), [];
      new;
      XorBack(Word(0), ONES);
    }

    method Update(buf: seq<Byte>) returns (result: Word)
      requires Valid()
      modifies this
      ensures Valid() && data == old(data) + buf && result == Crc(Word(0), data)
    {
      hide Crc;
      CrcOfParts(Word(0), data, buf);
      crc := Crc32(crc, buf);
      data := data + buf;
      result := crc;
    }
  }

  lemma {:induction false} RemainderOfParts(c: Word, a: seq<Byte>, b: seq<Byte>)
    ensures Remainder(c, a + b) == Remainder(Remainder(c, a), b)
  {
    hide Divide;
    if b == [] {
      assert a + b == a;
    } else {
      var last := |b| - 1;
      assert (a + b)[..|a + b| - 1] == a + b[..last];
      RemainderOfParts(c, a, b[..last]);
    }
  }

  /** The CRC of a whole is the CRC of its second part, continued from that of the first. */
  lemma CrcOfParts(crc: Word, a: seq<Byte>, b: seq<Byte>)
    ensures Crc(Crc(crc, a), b) == Crc(crc, a + b)
  {
    hide Word.Xor, Remainder;
    RemainderOfParts(crc.Xor(ONES), a, b);
    XorBack(Remainder(crc.Xor(ONES), a), ONES);
  }

  // ----- what fixes the start, the end and the order of bits and bytes

  lemma RemainderMore(c: Word, data: seq<Byte>, b: Byte)
    ensures Remainder(c, data + [b]) == Looked(Remainder(c, data), b)
  {
    hide Divide, Looked;
    assert (data + [b])[..|data|] == data;
    LookedIsDivide(Remainder(c, data), b);
  }

  lemma RemainderNone(c: Word)
    ensures Remainder(c, []) == c
  {
  }

  /** The CRC of one zero byte. */
  lemma CrcOfZero()
    ensures Crc(Word(0), [0]) == Word(0xD202EF8D)
  {
    hide Remainder;
    RemainderNone(Word(0xFFFFFFFF));
    RemainderMore(Word(0xFFFFFFFF), [], 0);
    assert [] + [0 as Byte] == [0];
  }

  /** The next byte of a message. */
  lemma Next(s: seq<Byte>, c: Word, b: Byte, d: Word) returns (s': seq<Byte>)
    requires Remainder(Word(0xFFFFFFFF), s) == c && Looked(c, b) == d
    ensures s' == s + [b] && Remainder(Word(0xFFFFFFFF), s') == d
  {
    hide Remainder, Looked;
    s' := s + [b];
    RemainderMore(Word(0xFFFFFFFF), s, b);
  }

  /** The check value: the CRC of the nine digits "123456789" in ASCII. */
  lemma CheckValue()
    ensures Crc(Word(0), [0x31, 0x32, 0x33, 0x34, 0x35, 0x36, 0x37, 0x38, 0x39]) == Word(0xCBF43926)
  {
    hide Remainder;
    RemainderNone(Word(0xFFFFFFFF));
    var s: seq<Byte> := [];
    s := Next(s, Word(0xFFFFFFFF), 0x31, Word(0x7C231048));
    s := Next(s, Word(0x7C231048), 0x32, Word(0xB0ACBB32));
    s := Next(s, Word(0xB0ACBB32), 0x33, Word(0x77B79C2D));
    s := Next(s, Word(0x77B79C2D), 0x34, Word(0x641C1F5C));
    s := Next(s, Word(0x641C1F5C), 0x35, Word(0x340AC5E3));
    s := Next(s, Word(0x340AC5E3), 0x36, Word(0xF68D2C9E));
    s := Next(s, Word(0xF68D2C9E), 0x37, Word(0xAFFC9660));
    s := Next(s, Word(0xAFFC9660), 0x38, Word(0x651F2550));
    s := Next(s, Word(0x651F2550), 0x39, Word(0x340BC6D9));
    assert s == [0x31, 0x32, 0x33, 0x34, 0x35, 0x36, 0x37, 0x38, 0x39];
  }

  /** Steps one after another. */
  lemma {:induction false} StepsOfSteps(c: Word, m: nat, n: nat)
    ensures Steps(c, m + n) == Steps(Steps(c, m), n)
  {
    hide Step;
    if n > 0 {
      StepsOfSteps(c, m, n - 1);
    }
  }

  /** A word put in first gives its low byte to eight steps; the rest only shifts. */
  lemma StepsOfWord(c: Word, w: Word)
    ensures Steps(c.Xor(w), 8) == Divide(c, w.LowByte(), 8).Xor(w.Shr8())
  {
    hide Word.Xor, Word.Half, Word.LowByte, Word.Odd, Word.Shr8, Steps, Divide, Wide, Halved;
    var low := Wide(w.LowByte());
    var high := w.Xor(low);
    HighHasNoLow(w);
    HighKeepsRest(w);
    Recombined(w, low);
    XorAssociates(c, low, high);
    DivideIsSteps(c, w.LowByte());
    StepsLinear(c.Xor(low), high, 8);
    LowByteEven(high);
    StepsEven(high, 8);
    HalvedEight(high);
  }

  /** The bytes of a word, the least significant first. */
  function BytesOf(w: Word): seq<Byte> {
    [w.LowByte(), w.Shr8().LowByte(), w.Shr8().Shr8().LowByte(), w.Shr8().Shr8().Shr8().LowByte()]
  }

  lemma ShiftedOut(w: Word)
    ensures w.Shr8().Shr8().Shr8().Shr8() == Word(0)
  {
  }

  lemma RemainderOfFour(c: Word, a: Byte, b: Byte, d: Byte, e: Byte)
    ensures Remainder(c, [a, b, d, e]) == Divide(Divide(Divide(Divide(c, a, 8), b, 8), d, 8), e, 8)
  {
    hide Divide;
    assert [a, b, d, e][..3] == [a, b, d] && [a, b, d][..2] == [a, b] && [a, b][..1] == [a] && [a][..0] == [];
    assert Remainder(c, [a]) == Divide(c, a, 8);
    assert Remainder(c, [a, b]) == Divide(Divide(c, a, 8), b, 8);
    assert Remainder(c, [a, b, d]) == Divide(Divide(Divide(c, a, 8), b, 8), d, 8);
  }

  /** Dividing the four bytes of a word is 32 steps with the word put in first. */
  lemma RemainderOfWord(c: Word, w: Word)
    ensures Remainder(c, BytesOf(w)) == Steps(c.Xor(w), 32)
  {
    hide Word.Xor, Word.LowByte, Word.Shr8, Steps, Divide, Remainder;
    var w1, w2, w3 := w.Shr8(), w.Shr8().Shr8(), w.Shr8().Shr8().Shr8();
    var c1 := Divide(c, w.LowByte(), 8);
    var c2 := Divide(c1, w1.LowByte(), 8);
    var c3 := Divide(c2, w2.LowByte(), 8);
    var c4 := Divide(c3, w3.LowByte(), 8);
    RemainderOfFour(c, w.LowByte(), w1.LowByte(), w2.LowByte(), w3.LowByte());
    StepsOfWord(c, w);
    StepsOfWord(c1, w1);
    StepsOfWord(c2, w2);
    StepsOfWord(c3, w3);
    ShiftedOut(w);
    XorZero(c4);
    StepsOfSteps(c.Xor(w), 8, 8);
    StepsOfSteps(c.Xor(w), 16, 8);
    StepsOfSteps(c.Xor(w), 24, 8);
  }

  /** Eight steps, by the table. */
  lemma ZeroLooked(c: Word, d: Word)
    requires Looked(c, 0) == d
    ensures Steps(c, 8) == d
  {
    hide Steps, Divide, Looked, Word.Xor;
    LookedIsDivide(c, 0);
    DivideIsSteps(c, 0);
    XorZero(c);
  }

  lemma OnesRemain()
    ensures Steps(Word(0xFFFFFFFF), 32) == Word(0xDEBB20E3)
  {
    hide Steps;
    var c := Word(0xFFFFFFFF);
    ZeroLooked(Word(0xFFFFFFFF), Word(0x2DFD1072));
    ZeroLooked(Word(0x2DFD1072), Word(0xBE26ED00));
    ZeroLooked(Word(0xBE26ED00), Word(0x00BE26ED));
    ZeroLooked(Word(0x00BE26ED), Word(0xDEBB20E3));
    StepsOfSteps(c, 8, 8);
    StepsOfSteps(c, 16, 8);
    StepsOfSteps(c, 24, 8);
  }

  /** The residue: after a message and the four bytes of its CRC, the least significant
      first, the register holds one and the same word, whatever the message. */
  lemma Residue(data: seq<Byte>)
    ensures Crc(Word(0), data + BytesOf(Crc(Word(0), data))) == Word(0x2144DF1C)
  {
    hide Remainder, BytesOf, Steps;
    var c := Word(0).Xor(ONES);
    var r := Remainder(c, data);
    RemainderOfParts(c, data, BytesOf(r.Xor(ONES)));
    RemainderOfWord(r, r.Xor(ONES));
    SelfCancels(r);
    OnesRemain();
  }

  lemma SelfCancels(r: Word)
    ensures r.Xor(r.Xor(ONES)) == Word(0xFFFFFFFF)
  {
  }
}
