/** The Base64 encoder and decoder, and section 4 of RFC 4648. */
module Base64 {
  import opened Basics

  function Table(): string {
    "ABCDEFGHIJKLMNOPQRSTUVWXYZ" + "abcdefghijklmnopqrstuvwxyz" + "0123456789" + "+/"
  }

  /** The alphabet of RFC 4648, Table 1. */
  function Character(v: nat): char
    requires v < 64
  {
    if v < 26 then 'A' + v as char
    else if v < 52 then 'a' + (v - 26) as char
    else if v < 62 then '0' + (v - 52) as char
    else if v == 62 then '+' else '/'
  }

  /** The value of a character, 64 for one that is not in the alphabet. */
  function ValueOf(c: char): (v: nat)
    ensures v <= 64 && (v < 64 ==> Character(v) == c)
  {
    if 'A' <= c <= 'Z' then (c - 'A') as nat
    else if 'a' <= c <= 'z' then (c - 'a') as nat + 26
    else if '0' <= c <= '9' then (c - '0') as nat + 52
    else if c == '+' then 62
    else if c == '/' then 63
    else 64
  }

  lemma ValueOfCharacter(v: nat)
    requires v < 64
    ensures ValueOf(Character(v)) == v && Character(v) != '=' && Character(v) != '\0'
  {
  }

  lemma Upper(k: nat)
    requires k < 26
    ensures "ABCDEFGHIJKLMNOPQRSTUVWXYZ"[k] == 'A' + k as char
  {
  }

  lemma Lower(k: nat)
    requires k < 26
    ensures "abcdefghijklmnopqrstuvwxyz"[k] == 'a' + k as char
  {
  }

  lemma TableAt(v: nat)
    requires v < 64
    ensures |Table()| == 64 && Table()[v] == Character(v)
  {
    if v < 26 {
      Upper(v);
    } else if v < 52 {
      Lower(v - 26);
    }
  }

  // ----- the encoding

  /** The 24-bit number of up to three bytes, with zero bits on the right. */
  function Number(d: seq<Byte>): nat
    requires 1 <= |d| <= 3
  {
    var b0: nat, b1: nat, b2: nat := d[0], if |d| > 1 then d[1] else 0, if |d| > 2 then d[2] else 0;
    b0 * 65536 + b1 * 256 + b2
  }

  /** Its digits in base 64, as characters; those that only have padding bits are '='. */
  function Group(d: seq<Byte>): (s: string)
    requires 1 <= |d| <= 3
    ensures |s| == 4
  {
    var n := Number(d);
    [Character(n / 64 / 64 / 64 % 64), Character(n / 64 / 64 % 64),
     if |d| > 1 then Character(n / 64 % 64) else '=', if |d| > 2 then Character(n % 64) else '=']
  }

  function Encoded(d: seq<Byte>): string {
    if d == [] then ""
    else if |d| <= 3 then Group(d)
    else Group(d[..3]) + Encoded(d[3..])
  }

  lemma Digits(n: nat, d0: nat, d1: nat, d2: nat, d3: nat)
    requires d0 < 64 && d1 < 64 && d2 < 64 && d3 < 64
    requires n == ((d0 * 64 + d1) * 64 + d2) * 64 + d3
    ensures n / 64 / 64 / 64 % 64 == d0 && n / 64 / 64 % 64 == d1 && n / 64 % 64 == d2 && n % 64 == d3
  {
    assert n / 64 == (d0 * 64 + d1) * 64 + d2;
    assert n / 64 / 64 == d0 * 64 + d1;
  }

  lemma Sextets(b0: nat, b1: nat, b2: nat)
    requires b0 < 256 && b1 < 256 && b2 < 256
    ensures (((b0 / 4) * 64 + ((b0 % 4) * 16 + b1 / 16)) * 64 + ((b1 % 16) * 4 + b2 / 64)) * 64 + b2 % 64
              == b0 * 65536 + b1 * 256 + b2
  {
  }

  lemma GroupSextets(d: seq<Byte>)
    requires 1 <= |d| <= 3
    ensures var n, b0: nat := Number(d), d[0];
      var b1: nat, b2: nat := if |d| > 1 then d[1] else 0, if |d| > 2 then d[2] else 0;
      && n / 64 / 64 / 64 % 64 == b0 / 4 && n / 64 / 64 % 64 == (b0 % 4) * 16 + b1 / 16
      && n / 64 % 64 == (b1 % 16) * 4 + b2 / 64 && n % 64 == b2 % 64
      && n == ((n / 64 / 64 / 64 % 64 * 64 + n / 64 / 64 % 64) * 64 + n / 64 % 64) * 64 + n % 64
  {
    var b0: nat, b1: nat, b2: nat := d[0], if |d| > 1 then d[1] else 0, if |d| > 2 then d[2] else 0;
    Sextets(b0, b1, b2);
    Digits(Number(d), b0 / 4, (b0 % 4) * 16 + b1 / 16, (b1 % 16) * 4 + b2 / 64, b2 % 64);
  }

  method EncodeGroup(ibuf: seq<Byte>, inputparts: nat) returns (dstr: string)
    requires |ibuf| == 3 && 1 <= inputparts <= 3 && forall k :: inputparts <= k < 3 ==> ibuf[k] == 0
    ensures dstr == Group(ibuf[..inputparts])
  {
    hide Character, Table, Number;
    // the masks and shifts of the bytes, as numbers
    var obuf0: nat := ibuf[0] / 4;
    var obuf1: nat := (ibuf[0] % 4) * 16 + ibuf[1] / 16;
    var obuf2: nat := (ibuf[1] % 16) * 4 + ibuf[2] / 64;
    var obuf3: nat := ibuf[2] % 64;
    GroupSextets(ibuf[..inputparts]);
    TableAt(obuf0);
    TableAt(obuf1);
    TableAt(obuf2);
    TableAt(obuf3);
    match inputparts {
      case 1 => dstr := [Table()[obuf0], Table()[obuf1], '=', '='];
      case 2 => dstr := [Table()[obuf0], Table()[obuf1], Table()[obuf2], '='];
      case _ => dstr := [Table()[obuf0], Table()[obuf1], Table()[obuf2], Table()[obuf3]];
    }
  }

  /** Read up to three bytes, with zeros for those that are not there. */
  method ReadGroup(data: seq<Byte>, start: nat, left: nat) returns (ibuf: seq<Byte>, inputparts: nat)
    requires left > 0 && start + left <= |data|
    ensures |ibuf| == 3 && inputparts == if left < 3 then left else 3
    ensures ibuf[..inputparts] == data[start..start + inputparts]
    ensures forall k :: inputparts <= k < 3 ==> ibuf[k] == 0
  {
    ibuf, inputparts := [], 0;
    var i, len := 0, left;
    while i < 3
      invariant i <= 3 && |ibuf| == i && len == left - inputparts
      invariant inputparts == if left < i then left else i
      invariant forall k :: 0 <= k < inputparts ==> ibuf[k] == data[start + k]
      invariant forall k :: inputparts <= k < i ==> ibuf[k] == 0
    {
      if len > 0 {
        ibuf := ibuf + [data[start + inputparts]];
        inputparts := inputparts + 1;
        len := len - 1;
      } else {
        ibuf := ibuf + [0];
      }
      i := i + 1;
    }
  }

  lemma EncodedStep(d: seq<Byte>, n: nat)
    requires d != [] && n == if |d| < 3 then |d| else 3
    ensures Encoded(d) == Group(d[..n]) + Encoded(d[n..])
  {
    if |d| <= 3 {
      assert d[..n] == d && d[n..] == [];
    }
  }

  /** The length of the C string that the memory starts with. */
  function StringLength(data: seq<Byte>): (n: nat)
    requires 0 in data
    ensures n < |data| && data[n] == 0 && forall k :: 0 <= k < n ==> data[k] != 0
  {
    if data[0] == 0 then 0
    else
      assert data == [data[0]] + data[1..];
      1 + StringLength(data[1..])
  }

  /** What a call encodes: length 0 stands for the length of a C string. */
  function Input(data: seq<Byte>, len: nat): seq<Byte>
    requires len <= |data| && (len == 0 ==> 0 in data)
  {
    if len > 0 then data[..len] else data[..StringLength(data)]
  }

  method Encode(data: seq<Byte>, len: nat) returns (str: string)
    requires len <= |data| && (len == 0 ==> 0 in data)
    ensures str == Encoded(Input(data, len))
  {
    hide Group, Encoded;
    var left := len;
    if left <= 0 {
      left := Strlen(data);
    }
    ghost var input := data[..left];
    str := "";
    var at := 0;
    assert input[0..] == input;
    EncodedNone();
    while left > 0
      invariant 0 <= at && 0 <= left && at + left == |input| && input == data[..|input|]
      invariant str + Encoded(input[at..]) == Encoded(input)
    {
      var ibuf, inputparts := ReadGroup(data, at, left);
      var dstr := EncodeGroup(ibuf, inputparts);
      EncodedStep(input[at..], inputparts);
      Slices(data, input, at, inputparts);
      str := str + dstr;
      at, left := at + inputparts, left - inputparts;
    }
    assert input[at..] == [];
  }

  lemma Slices(data: seq<Byte>, input: seq<Byte>, at: nat, n: nat)
    requires |input| <= |data| && input == data[..|input|] && at + n <= |input|
    ensures input[at..][..n] == data[at..at + n] && input[at..][n..] == input[at + n..]
  {
  }

  /** strlen */
  method Strlen(data: seq<Byte>) returns (n: nat)
    requires 0 in data
    ensures n == StringLength(data)
  {
    n := 0;
    while data[n] != 0
      invariant n <= StringLength(data)
      decreases StringLength(data) - n
    {
      n := n + 1;
    }
  }

  lemma EncodedNone()
    ensures Encoded([]) == ""
  {
  }

  // ----- the decoding

  /** One character shifts its six bits in; '=' shifts zeros in, anything else is skipped. */
  function Shifted(x: nat, c: char): nat {
    if ValueOf(c) < 64 then x * 64 + ValueOf(c) else if c == '=' then x * 64 else x
  }

  function Bits(src: string): nat {
    if src == "" then 0 else Shifted(Bits(src[..|src| - 1]), src[|src| - 1])
  }

  function Bytes(x: nat): (d: seq<Byte>)
    ensures |d| == 3
  {
    [x / 256 / 256 % 256, x / 256 % 256, x % 256]
  }

  function Quantum(src: string): (d: seq<Byte>)
    ensures |d| == 3
  {
    Bytes(Bits(src))
  }

  function Quanta(src: string, m: nat): (d: seq<Byte>)
    requires 4 * m <= |src|
    ensures |d| == 3 * m
  {
    if m == 0 then [] else Quanta(src, m - 1) + Quantum(src[4 * m - 4..4 * m])
  }

  /** The position of the first '=', or the end. */
  function TextLength(src: string): (n: nat)
    ensures n <= |src|
    ensures n < |src| ==> src[n] == '='
    ensures forall k :: 0 <= k < n ==> src[k] != '='
  {
    if src == "" || src[0] == '=' then 0 else 1 + TextLength(src[1..])
  }

  function PadCount(src: string): (e: nat)
    ensures e <= 2 && TextLength(src) + e <= |src|
  {
    var n := TextLength(src);
    if n == |src| then 0 else if n + 1 < |src| && src[n + 1] == '=' then 2 else 1
  }

  function QuantumCount(src: string): (q: nat)
    ensures 4 * q <= |src|
  {
    (TextLength(src) + PadCount(src)) / 4
  }

  /** How many of q quantums but the last are decoded into that much room. */
  function FullQuanta(q: nat, capacity: nat): (m: nat)
    requires q > 0
    ensures m < q && (m > 0 ==> 3 * m < capacity)
    ensures m < q - 1 ==> 3 * m >= capacity - 3
  {
    var room := if capacity > 3 then (capacity - 1) / 3 else 0;
    if room < q - 1 then room else q - 1
  }

  /** What decode writes into a buffer of that capacity. */
  function Decoded(src: string, capacity: nat): (d: seq<Byte>)
    requires QuantumCount(src) > 0
    ensures |d| <= capacity
  {
    var m := FullQuanta(QuantumCount(src), capacity);
    var rest := if 3 - PadCount(src) < capacity - 3 * m then 3 - PadCount(src) else capacity - 3 * m;
    Quanta(src, m) + Quantum(src[4 * m..4 * m + 4])[..rest]
  }

  method DecodeQuantum(src: string) returns (dest: seq<Byte>)
    requires |src| == 4 && '\0' !in src
    ensures dest == Quantum(src)
  {
    hide ValueOf, Character;
    var x, i := 0, 0;
    assert src[..0] == "";
    while i < 4
      invariant i <= 4 && x == Bits(src[..i])
    {
      var v := Find(src[i]);
      if v < 64 {
        x := x * 64 + v;
      } else if src[i] == '=' {
        x := x * 64;
      }
      assert src[..i + 1][..i] == src[..i];
      i := i + 1;
    }
    assert src[..4] == src;
    var dest2 := x % 256;
    x := x / 256;
    var dest1 := x % 256;
    x := x / 256;
    dest := [x % 256, dest1, dest2];
  }

  /** The scan of the table. */
  method Find(c: char) returns (v: nat)
    ensures v == ValueOf(c)
  {
    hide Table;
    v := 0;
    TableAt(0);
    while v < |Table()| && Table()[v] != c
      invariant v <= 64 == |Table()| && forall k :: 0 <= k < v ==> Character(k) != c
    {
      TableAt(v);
      v := v + 1;
    }
    if v < 64 {
      TableAt(v);
      ValueOfCharacter(v);
    }
  }

  /** The length up to the first '=', and how many '=' end the text, at most two. */
  method Measure(src: string) returns (len: nat, equalsTerm: nat)
    ensures len == TextLength(src) && equalsTerm == PadCount(src)
  {
    len, equalsTerm := 0, 0;
    while len < |src| && src[len] != '='
      invariant len <= TextLength(src)
    {
      len := len + 1;
    }
    if len < |src| {
      equalsTerm := equalsTerm + 1;
      if len + equalsTerm < |src| && src[len + equalsTerm] == '=' {
        equalsTerm := equalsTerm + 1;
      }
    }
  }

  /** Decode src into data.  The length is that of what was written; a text of less than
      one quantum leaves the caller's length alone. */
  method Decode(src: string, data: array<Byte>, datalen: nat) returns (length: nat)
    requires datalen <= data.Length && '\0' !in src
    modifies data
    ensures QuantumCount(src) == 0 ==> length == datalen && data[..] == old(data[..])
    ensures QuantumCount(src) > 0 ==>
              length == |Decoded(src, datalen)| && data[..length] == Decoded(src, datalen)
    ensures data[datalen..] == old(data[datalen..])
  {
    hide Quantum, Quanta, TextLength, PadCount, FullQuanta;
    var len, equalsTerm := Measure(src);
    var numQuantums := (len + equalsTerm) / 4;
    if numQuantums <= 0 {
      return datalen;
    }
    var i := DecodeFull(src, data, datalen, numQuantums);
    var lastQuantum := DecodeQuantum(src[4 * i..4 * i + 4]);
    length := DecodeLast(lastQuantum, 3 - equalsTerm, data, 3 * i, datalen);
  }

  /** All quantums but the last, as long as there is room for more than three bytes. */
  method DecodeFull(src: string, data: array<Byte>, datalen: nat, numQuantums: nat) returns (i: nat)
    requires datalen <= data.Length && '\0' !in src && 0 < numQuantums && 4 * numQuantums <= |src|
    modifies data
    ensures i == FullQuanta(numQuantums, datalen) && 3 * i <= datalen
    ensures 4 * i <= |src| && data[..3 * i] == Quanta(src, i)
    ensures data[datalen..] == old(data[datalen..])
  {
    hide Quantum;
    i := 0;
    var dest := 0;
    while i < numQuantums - 1 && dest < datalen - 3
      invariant i <= FullQuanta(numQuantums, datalen) && dest == 3 * i <= datalen
      invariant data[..dest] == Quanta(src, i)
      invariant data[datalen..] == old(data[datalen..])
    {
      var q := DecodeQuantum(src[4 * i..4 * i + 4]);
      data[dest], data[dest + 1], data[dest + 2] := q[0], q[1], q[2];
      assert data[..dest + 3] == data[..dest] + q;
      dest, i := dest + 3, i + 1;
    }
  }

  method DecodeLast(lastQuantum: seq<Byte>, count: nat, data: array<Byte>, from: nat, datalen: nat) returns (dest: nat)
    requires |lastQuantum| == 3 && count <= 3 && from <= datalen <= data.Length
    modifies data
    ensures dest == from + if count < datalen - from then count else datalen - from
    ensures data[..from] == old(data[..from]) && data[from..dest] == lastQuantum[..dest - from]
    ensures data[datalen..] == old(data[datalen..])
  {
    dest := from;
    var i := 0;
    while i < count && dest < datalen
      invariant i <= count && dest == from + i <= datalen
      invariant data[..from] == old(data[..from]) && data[datalen..] == old(data[datalen..])
      invariant forall k :: 0 <= k < i ==> data[from + k] == lastQuantum[k]
    {
      data[dest] := lastQuantum[i];
      dest, i := dest + 1, i + 1;
    }
  }

  // ----- the round trip

  lemma BitsOfFour(s: string)
    requires |s| == 4
    ensures Bits(s) == Shifted(Shifted(Shifted(Shifted(0, s[0]), s[1]), s[2]), s[3])
  {
    hide ValueOf;
    assert s[..3][..2] == s[..2] && s[..2][..1] == s[..1] && s[..1][..0] == "";
    assert Bits(s[..1]) == Shifted(Bits(""), s[0]);
    assert Bits(s[..2]) == Shifted(Bits(s[..1]), s[1]);
    assert Bits(s[..3]) == Shifted(Bits(s[..2]), s[2]);
  }

  lemma BitsOfGroup(d: seq<Byte>)
    requires 1 <= |d| <= 3
    ensures Bits(Group(d)) == Number(d)
  {
    hide ValueOf, Character, Number, Bits;
    var n := Number(d);
    GroupSextets(d);
    ValueOfCharacter(n / 64 / 64 / 64 % 64);
    ValueOfCharacter(n / 64 / 64 % 64);
    ValueOfCharacter(n / 64 % 64);
    ValueOfCharacter(n % 64);
    PadValue();
    BitsOfFour(Group(d));
  }

  lemma PadValue()
    ensures ValueOf('=') == 64
  {
  }

  lemma QuantumOfGroup(d: seq<Byte>)
    requires 1 <= |d| <= 3
    ensures Quantum(Group(d))[..|d|] == d
  {
    hide Group, Bits;
    BitsOfGroup(d);
    var b0: nat, b1: nat, b2: nat := d[0], if |d| > 1 then d[1] else 0, if |d| > 2 then d[2] else 0;
    ThreeBytes(b0, b1, b2);
  }

  lemma ThreeBytes(b0: nat, b1: nat, b2: nat)
    requires b0 < 256 && b1 < 256 && b2 < 256
    ensures Bytes(b0 * 65536 + b1 * 256 + b2) == [b0, b1, b2]
  {
    var x := b0 * 65536 + b1 * 256 + b2;
    assert x / 256 == b0 * 256 + b1;
    assert x / 256 / 256 == b0;
  }

  lemma GroupChars(d: seq<Byte>)
    requires 1 <= |d| <= 3
    ensures forall k :: 0 <= k < 4 ==> (Group(d)[k] == '=' <==> k > |d|) && Group(d)[k] != '\0'
  {
    hide ValueOf, Character, Number;
    var n := Number(d);
    ValueOfCharacter(n / 64 / 64 / 64 % 64);
    ValueOfCharacter(n / 64 / 64 % 64);
    ValueOfCharacter(n / 64 % 64);
    ValueOfCharacter(n % 64);
  }

  /** How many '=' an encoding ends in. */
  function Missing(n: nat): nat
    requires n > 0
  {
    2 - (n - 1) % 3
  }

  /** The number of characters, and where the '=' are. */
  lemma {:induction false} EncodedShape(d: seq<Byte>)
    requires d != []
    ensures var s := Encoded(d);
      && |s| == 4 * ((|d| + 2) / 3) && '\0' !in s
      && (forall k :: 0 <= k < |s| ==> (s[k] == '=' <==> k >= |s| - Missing(|d|)))
  {
    hide Group;
    if |d| <= 3 {
      GroupChars(d);
    } else {
      var s, rest := Encoded(d), Encoded(d[3..]);
      GroupChars(d[..3]);
      EncodedShape(d[3..]);
      assert Missing(|d|) == Missing(|d| - 3);
      forall k | 0 <= k < |s| ensures (s[k] == '=' <==> k >= |s| - Missing(|d|)) && s[k] != '\0' {
        if k < 4 {
          assert s[k] == Group(d[..3])[k];
        } else {
          assert s[k] == rest[k - 4];
        }
      }
    }
  }

  lemma SliceBehind<T>(head: seq<T>, rest: seq<T>, from: nat, to: nat)
    requires from <= to <= |rest|
    ensures (head + rest)[|head| + from..|head| + to] == rest[from..to]
  {
  }

  /** The first m groups of an encoding decode to the first 3m bytes. */
  lemma {:induction false} GroupAt(d: seq<Byte>, m: nat)
    requires 3 * m < |d|
    ensures var s, end := Encoded(d), if 3 * m + 3 < |d| then 3 * m + 3 else |d|;
            4 * m + 4 <= |s| && s[4 * m..4 * m + 4] == Group(d[3 * m..end])
  {
    hide Group;
    var s, end := Encoded(d), if 3 * m + 3 < |d| then 3 * m + 3 else |d|;
    if m == 0 {
      EncodedStep(d, end);
    } else {
      GroupAt(d[3..], m - 1);
      EncodedStep(d, 3);
      SliceBehind(Group(d[..3]), Encoded(d[3..]), 4 * (m - 1), 4 * m);
      SliceBehind(d[..3], d[3..], 3 * (m - 1), end - 3);
      assert d[..3] + d[3..] == d;
    }
  }

  lemma {:induction false} QuantaOfEncoded(d: seq<Byte>, m: nat)
    requires 3 * m < |d|
    ensures 4 * m <= |Encoded(d)| && Quanta(Encoded(d), m) == d[..3 * m]
  {
    hide Group, Encoded, Quantum;
    if m > 0 {
      QuantaOfEncoded(d, m - 1);
      GroupAt(d, m - 1);
      QuantumOfGroup(d[3 * (m - 1)..3 * m]);
      assert d[..3 * m] == d[..3 * (m - 1)] + d[3 * (m - 1)..3 * m];
    }
  }

  lemma Measured(d: seq<Byte>)
    requires d != []
    ensures TextLength(Encoded(d)) + PadCount(Encoded(d)) == |Encoded(d)| && PadCount(Encoded(d)) == Missing(|d|)
  {
    hide Encoded;
    EncodedShape(d);
    var s := Encoded(d);
    var n := |s| - Missing(|d|);
    assert TextLength(s) >= n;
    assert n < |s| ==> s[n] == '=';
    assert TextLength(s) == n;
  }

  /** With room for the whole, all quantums but the last are decoded, and then the rest. */
  lemma Room(n: nat, capacity: nat)
    requires n > 0 && capacity >= n
    ensures var m := FullQuanta((n + 2) / 3, capacity);
            m == (n - 1) / 3 && n == 3 * m + (3 - Missing(n))
  {
  }

  lemma DecodedSplit(src: string, capacity: nat, m: nat, rest: nat)
    requires QuantumCount(src) > 0 && m == FullQuanta(QuantumCount(src), capacity)
    requires rest == 3 - PadCount(src) <= capacity - 3 * m
    ensures Decoded(src, capacity) == Quanta(src, m) + Quantum(src[4 * m..4 * m + 4])[..rest]
  {
    hide Quantum, Quanta, QuantumCount, PadCount, FullQuanta;
  }

  lemma LastQuantum(d: seq<Byte>, m: nat)
    requires 3 * m < |d| <= 3 * m + 3
    ensures 4 * m + 4 <= |Encoded(d)| && Quantum(Encoded(d)[4 * m..4 * m + 4])[..|d| - 3 * m] == d[3 * m..]
  {
    hide Encoded, Quantum, Group;
    GroupAt(d, m);
    assert d[3 * m..|d|] == d[3 * m..];
    QuantumOfGroup(d[3 * m..]);
  }

  lemma CountOfEncoded(d: seq<Byte>)
    requires d != []
    ensures QuantumCount(Encoded(d)) == (|d| + 2) / 3 && PadCount(Encoded(d)) == Missing(|d|)
    ensures '\0' !in Encoded(d)
  {
    hide Encoded, TextLength, PadCount;
    EncodedShape(d);
    Measured(d);
  }

  /** Decoding what was encoded gives the bytes back, in any buffer that has room for them. */
  lemma RoundTrip(d: seq<Byte>, capacity: nat)
    requires d != [] && capacity >= |d|
    ensures QuantumCount(Encoded(d)) == (|d| + 2) / 3 && '\0' !in Encoded(d)
    ensures Decoded(Encoded(d), capacity) == d
  {
    hide Encoded, Quantum, Quanta, QuantumCount, PadCount, Group, Missing, FullQuanta, Decoded;
    var m := (|d| - 1) / 3;
    CountOfEncoded(d);
    Room(|d|, capacity);
    QuantaOfEncoded(d, m);
    LastQuantum(d, m);
    DecodedSplit(Encoded(d), capacity, m, |d| - 3 * m);
    assert d == d[..3 * m] + d[3 * m..];
  }

  // ----- what fixes the alphabet and the order of bits

  lemma GroupIs(d: seq<Byte>, n: nat, v0: nat, v1: nat, v2: nat, v3: nat, s: string)
    requires 1 <= |d| <= 3 && Number(d) == n && v0 < 64 && v1 < 64 && v2 < 64 && v3 < 64
    requires n == ((v0 * 64 + v1) * 64 + v2) * 64 + v3
    requires s == [Character(v0), Character(v1), if |d| > 1 then Character(v2) else '=',
                   if |d| > 2 then Character(v3) else '=']
    ensures Group(d) == s
  {
    Digits(n, v0, v1, v2, v3);
  }

  /** Vectors of section 10 of RFC 4648: "foobar", "fooba" and "foob". */
  lemma Vectors()
    ensures Encoded([0x66, 0x6f, 0x6f, 0x62, 0x61, 0x72]) == "Zm9vYmFy"
    ensures Encoded([0x66, 0x6f, 0x6f, 0x62, 0x61]) == "Zm9vYmE="
    ensures Encoded([0x66, 0x6f, 0x6f, 0x62]) == "Zm9vYg=="
  {
    hide Group;
    GroupIs([0x66, 0x6f, 0x6f], 0x666f6f, 25, 38, 61, 47, "Zm9v");
    GroupIs([0x62, 0x61, 0x72], 0x626172, 24, 38, 5, 50, "YmFy");
    GroupIs([0x62, 0x61], 0x626100, 24, 38, 4, 0, "YmE=");
    GroupIs([0x62], 0x620000, 24, 32, 0, 0, "Yg==");
    TwoGroups([0x66, 0x6f, 0x6f], [0x62, 0x61, 0x72]);
    TwoGroups([0x66, 0x6f, 0x6f], [0x62, 0x61]);
    TwoGroups([0x66, 0x6f, 0x6f], [0x62]);
    assert [0x66, 0x6f, 0x6f] + [0x62, 0x61, 0x72] == [0x66, 0x6f, 0x6f, 0x62, 0x61, 0x72];
    assert [0x66, 0x6f, 0x6f] + [0x62, 0x61] == [0x66, 0x6f, 0x6f, 0x62, 0x61];
    assert [0x66, 0x6f, 0x6f] + [0x62] == [0x66, 0x6f, 0x6f, 0x62];
    assert "Zm9v" + "YmFy" == "Zm9vYmFy" && "Zm9v" + "YmE=" == "Zm9vYmE=" && "Zm9v" + "Yg==" == "Zm9vYg==";
  }

  lemma TwoGroups(d: seq<Byte>, e: seq<Byte>)
    requires |d| == 3 && 1 <= |e| <= 3
    ensures Encoded(d + e) == Group(d) + Group(e)
  {
    hide Group;
    assert (d + e)[..3] == d && (d + e)[3..] == e;
  }

  /** The last two characters of the alphabet. */
  lemma LastCharacters()
    ensures Encoded([0xfb, 0xff]) == "+/8="
  {
    hide Group;
    GroupIs([0xfb, 0xff], 0xfbff00, 62, 63, 60, 0, "+/8=");
  }

  /** A character that is neither in the alphabet nor '=' is as good as not there. */
  lemma {:induction false} OthersSkipped(a: string, c: char, b: string)
    requires c != '=' && forall v :: 0 <= v < 64 ==> Character(v) != c
    ensures Bits(a + [c] + b) == Bits(a + b)
  {
    hide Character;
    if b == "" {
      assert a + [c] + b == a + [c] && a + b == a && (a + [c])[..|a|] == a;
    } else {
      OthersSkipped(a, c, b[..|b| - 1]);
      assert (a + [c] + b)[..|a| + |b|] == a + [c] + b[..|b| - 1] && (a + b)[..|a| + |b| - 1] == a + b[..|b| - 1];
    }
  }

  /** How many whole groups go into too little room. */
  function WholeGroups(capacity: nat): nat {
    if capacity > 3 then (capacity - 1) / 3 else 0
  }

  /** How much of n bytes decode gives into too little room: whole groups, and of the next as
      many bytes as the last group of all has, also if there is room for more. */
  function Cropped(n: nat, capacity: nat): nat
    requires capacity < n
  {
    var m := 3 * WholeGroups(capacity);
    m + if 3 - Missing(n) < capacity - m then 3 - Missing(n) else capacity - m
  }

  predicate FillsRoom(n: nat, capacity: nat)
    requires capacity < n
  {
    capacity == 0 || (capacity - 1) % 3 <= (n - 1) % 3
  }

  /** With too little room for the whole, decoding what was encoded gives the first of the
      bytes, but not always as many as there is room for. */
  lemma TooLittleRoom(d: seq<Byte>, capacity: nat)
    requires capacity < |d|
    ensures QuantumCount(Encoded(d)) > 0 && Cropped(|d|, capacity) <= capacity
    ensures Decoded(Encoded(d), capacity) == d[..Cropped(|d|, capacity)]
    ensures Cropped(|d|, capacity) == capacity <==> FillsRoom(|d|, capacity)
  {
    hide Encoded, Quantum, Quanta, QuantumCount, PadCount, Group, Decoded, Cropped, FullQuanta, Missing, WholeGroups,
         FillsRoom;
    var m, n := WholeGroups(capacity), Cropped(|d|, capacity);
    CountOfEncoded(d);
    CropRoom(|d|, capacity);
    QuantaOfEncoded(d, m);
    DecodedParts(Encoded(d), capacity, m, n - 3 * m);
    MiddleQuantum(d, m, n - 3 * m);
    Joined(d, 3 * m, n);
  }

  lemma Joined(d: seq<Byte>, m: nat, n: nat)
    requires m <= n <= |d|
    ensures d[..n] == d[..m] + d[m..n]
  {
  }

  lemma CropRoom(n: nat, capacity: nat)
    requires capacity < n
    ensures (n + 2) / 3 > 0
    ensures var m := WholeGroups(capacity);
      && FullQuanta((n + 2) / 3, capacity) == m && 3 * m <= capacity
      && 3 * m <= Cropped(n, capacity) <= capacity && Cropped(n, capacity) - 3 * m <= 3
      && Cropped(n, capacity) - 3 * m ==
           (if 3 - Missing(n) < capacity - 3 * m then 3 - Missing(n) else capacity - 3 * m)
      && (Cropped(n, capacity) == capacity <==> FillsRoom(n, capacity))
  {
  }

  lemma DecodedParts(src: string, capacity: nat, m: nat, rest: nat)
    requires QuantumCount(src) > 0 && m == FullQuanta(QuantumCount(src), capacity) && 3 * m <= capacity
    requires rest == if 3 - PadCount(src) < capacity - 3 * m then 3 - PadCount(src) else capacity - 3 * m
    ensures Decoded(src, capacity) == Quanta(src, m) + Quantum(src[4 * m..4 * m + 4])[..rest]
  {
    hide Quantum, Quanta, QuantumCount, PadCount, FullQuanta;
  }

  lemma MiddleQuantum(d: seq<Byte>, m: nat, rest: nat)
    requires 3 * m + rest <= |d| && 3 * m < |d| && rest <= 3
    ensures 4 * m + 4 <= |Encoded(d)| && Quantum(Encoded(d)[4 * m..4 * m + 4])[..rest] == d[3 * m..3 * m + rest]
  {
    hide Encoded, Quantum, Group;
    var end := if 3 * m + 3 < |d| then 3 * m + 3 else |d|;
    GroupAt(d, m);
    QuantumOfGroup(d[3 * m..end]);
    var q := Quantum(Encoded(d)[4 * m..4 * m + 4]);
    assert q[..rest] == q[..end - 3 * m][..rest] == d[3 * m..end][..rest] == d[3 * m..3 * m + rest];
  }
}
