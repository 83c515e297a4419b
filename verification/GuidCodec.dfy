/** The compact form of 64-bit identifiers, in base 62 or, regardless of case, 36. */
module GuidCodec {
  import opened Basics

  const W64: nat := 0x1_0000_0000_0000_0000

  function IdChars(): string {
    "0123456789" + "ABCDEFGHIJKLMNOPQRSTUVWXYZ" + "abcdefghijklmnopqrstuvwxyz"
  }

  function Base(caseSensitive: bool): nat {
    if caseSensitive then 62 else 36
  }

  /** The digit of a value. */
  function Digit(v: nat): char
    requires v < 62
  {
    if v < 10 then '0' + v as char else if v < 36 then 'A' + (v - 10) as char else 'a' + (v - 36) as char
  }

  lemma IdCharsAt(v: nat)
    requires v < 62
    ensures |IdChars()| == 62 && IdChars()[v] == Digit(v)
  {
    if 10 <= v < 36 {
      Upper(v - 10);
    } else if v >= 36 {
      Lower(v - 36);
    }
  }

  lemma Upper(k: nat)
    requires k < 26
    ensures "ABCDEFGHIJKLMNOPQRSTUVWXYZ"[k] == 'A' + k as char
  {
  }

  lemma Lower(k: nat)
    requires k < 26
    ensures "abcdefghijklmnopqrstuvwxyz"[k] == 'a' + k as char
  {
  }

  function ToUpper(c: char): char {
    if 'a' <= c <= 'z' then 'A' + (c - 'a') else c
  }

  /** The value of a character in base b, which is b for one that is no digit. */
  function ValueOf(c: char, b: nat): (v: nat)
    requires b <= 62
    ensures v <= b && (v < b ==> Digit(v) == c)
  {
    var v := if '0' <= c <= '9' then (c - '0') as nat
             else if 'A' <= c <= 'Z' then (c - 'A') as nat + 10
             else if 'a' <= c <= 'z' then (c - 'a') as nat + 36
             else 62;
    if v < b then v else b
  }

  lemma ValueOfDigit(v: nat, b: nat)
    requires v < b <= 62
    ensures ValueOf(Digit(v), b) == v && Digit(v) != '\0' && (b == 36 ==> ToUpper(Digit(v)) == Digit(v))
  {
  }

  function Pow(b: nat, m: nat): nat {
    if m == 0 then 1 else b * Pow(b, m - 1)
  }

  // ----- encoding

  /** The last m digits of a number, without leading zeros when they are all. */
  function Digits(id: nat, b: nat, m: nat): (s: string)
    requires 1 < b <= 62
    ensures |s| <= m
    decreases m
  {
    if id == 0 || m == 0 then "" else Digits(id / b, b, m - 1) + [Digit(id % b)]
  }

  /** Write the digits of id into buf, and a terminating NUL: first from the back, then
      moved to the front. */
  method Encode(id: nat, buf: array<char>, bufSize: int, caseSensitive: bool) returns (n: nat)
    requires id < W64 && bufSize <= buf.Length
    modifies buf
    ensures bufSize <= 0 ==> n == 0 && buf[..] == old(buf[..])
    ensures bufSize > 0 ==> n < bufSize && buf[..n] == Digits(id, Base(caseSensitive), bufSize - 1) && buf[n] == '\0'
    ensures bufSize > 0 ==> buf[bufSize..] == old(buf[bufSize..])
  {
    hide Digits, IdChars;
    if bufSize <= 0 {
      return 0;
    }
    var nchars := Base(caseSensitive);
    var p := WriteBack(id, buf, bufSize, nchars);
    n := bufSize - 1 - p;
    DigitsClean(id, nchars, bufSize - 1);
    forall k | p <= k < p + n ensures buf[k] != '\0' {
      assert buf[k] == buf[p..bufSize - 1][k - p];
    }
    MoveFront(buf, p, n);
  }

  lemma DigitsStep(rest: nat, b: nat, m: nat, tail: string)
    requires 1 < b <= 62 && rest > 0 && m > 0
    ensures Digits(rest, b, m) + tail == Digits(rest / b, b, m - 1) + ([Digit(rest % b)] + tail)
  {
  }

  lemma DigitsEnd(rest: nat, b: nat, m: nat)
    requires 1 < b <= 62 && (rest == 0 || m == 0)
    ensures Digits(rest, b, m) == ""
  {
  }

  lemma OneDigit(id: nat, b: nat, m: nat, before: string, v: nat, c: char)
    requires 1 < b <= 62 && id > 0 && m > 0 && Digits(id / b, b, m - 1) == before
    requires id % b == v && v < 62 && Digit(v) == c
    ensures Digits(id, b, m) == before + [c]
  {
  }

  /** The largest identifier in base 62. */
  lemma LargestInBase62()
    ensures Digits(W64 - 1, 62, 11) == "LygHa16AHYF"
  {
    hide Digits;
    DigitsEnd(0, 62, 0);
    OneDigit(21, 62, 1, "", 21, 'L');
    OneDigit(1362, 62, 2, "L", 60, 'y');
    OneDigit(84486, 62, 3, "Ly", 42, 'g');
    OneDigit(5238149, 62, 4, "Lyg", 17, 'H');
    OneDigit(324765274, 62, 5, "LygH", 36, 'a');
    OneDigit(20135446989, 62, 6, "LygHa", 1, '1');
    OneDigit(1248397713324, 62, 7, "LygHa1", 6, '6');
    OneDigit(77400658226098, 62, 8, "LygHa16", 10, 'A');
    OneDigit(4798840810018093, 62, 9, "LygHa16A", 17, 'H');
    OneDigit(297528130221121800, 62, 10, "LygHa16AH", 34, 'Y');
    OneDigit(18446744073709551615, 62, 11, "LygHa16AHY", 15, 'F');
  }

  /** The largest identifier in base 36. */
  lemma LargestInBase36()
    ensures Digits(W64 - 1, 36, 13) == "3W5E11264SGSF"
  {
    hide Digits;
    DigitsEnd(0, 36, 0);
    OneDigit(3, 36, 1, "", 3, '3');
    OneDigit(140, 36, 2, "3", 32, 'W');
    OneDigit(5045, 36, 3, "3W", 5, '5');
    OneDigit(181634, 36, 4, "3W5", 14, 'E');
    OneDigit(6538825, 36, 5, "3W5E", 1, '1');
    OneDigit(235397701, 36, 6, "3W5E1", 1, '1');
    OneDigit(8474317238, 36, 7, "3W5E11", 2, '2');
    OneDigit(305075420574, 36, 8, "3W5E112", 6, '6');
    OneDigit(10982715140668, 36, 9, "3W5E1126", 4, '4');
    OneDigit(395377745064076, 36, 10, "3W5E11264", 28, 'S');
    OneDigit(14233598822306752, 36, 11, "3W5E11264S", 16, 'G');
    OneDigit(512409557603043100, 36, 12, "3W5E11264SG", 28, 'S');
    OneDigit(18446744073709551615, 36, 13, "3W5E11264SGS", 15, 'F');
  }

  method PutBefore(buf: array<char>, at: nat, end: nat, c: char)
    requires at < end < buf.Length
    modifies buf
    ensures buf[at..end] == [c] + old(buf[at + 1..end]) && buf[end..] == old(buf[end..])
  {
    buf[at] := c;
  }

  /** Write the last digit of `rest` at q, in front of the text up to `end`. */
  method WriteDigit(buf: array<char>, q: nat, end: nat, rest: nat, nchars: nat) returns (left: nat)
    requires q < end < buf.Length && 1 < nchars <= 62 && rest > 0
    modifies buf
    ensures Digits(left, nchars, q) + buf[q..end] == Digits(rest, nchars, q + 1) + old(buf[q + 1..end])
    ensures buf[end..] == old(buf[end..])
  {
    hide IdChars, Digit, Digits;
    IdCharsAt(rest % nchars);
    DigitsStep(rest, nchars, q + 1, buf[q + 1..end]);
    PutBefore(buf, q, end, IdChars()[rest % nchars]);
    left := rest / nchars;
  }

  /** The digits at the end of the buffer. */
  method WriteBack(id: nat, buf: array<char>, bufSize: nat, nchars: nat) returns (p: nat)
    requires 0 < bufSize <= buf.Length && 1 < nchars <= 62
    modifies buf
    ensures p < bufSize && buf[p..bufSize - 1] == Digits(id, nchars, bufSize - 1) && buf[bufSize - 1] == '\0'
    ensures buf[bufSize..] == old(buf[bufSize..])
  {
    hide IdChars, Digit, Digits;
    var rest: nat, end: nat := id, bufSize - 1;
    buf[end] := '\0';
    ghost var tail := buf[end..];
    assert tail == ['\0'] + old(buf[bufSize..]);
    var q := bufSize - 2;
    assert buf[q + 1..end] == "";
    while rest > 0 && q >= 0
      invariant -1 <= q <= bufSize - 2 && buf[end..] == tail
      invariant Digits(rest, nchars, q + 1) + buf[q + 1..end] == Digits(id, nchars, end)
      decreases q
    {
      rest := WriteDigit(buf, q, end, rest, nchars);
      q := q - 1;
    }
    DigitsEnd(rest, nchars, q + 1);
    assert buf[end] == buf[end..][0];
    assert buf[bufSize..] == buf[end..][1..] == tail[1..] == old(buf[bufSize..]);
    p := q + 1;
  }

  /** Move the text at p, and the NUL after it, to the front. */
  method MoveFront(buf: array<char>, p: nat, n: nat)
    requires p + n < buf.Length && buf[p + n] == '\0' && forall k :: p <= k < p + n ==> buf[k] != '\0'
    modifies buf
    ensures buf[..n] == old(buf[p..p + n]) && buf[n] == '\0'
    ensures buf[p + n + 1..] == old(buf[p + n + 1..])
  {
    var from, to := p, 0;
    while buf[from] != '\0'
      invariant from == p + to && to <= n
      invariant forall k :: 0 <= k < to ==> buf[k] == old(buf[p + k])
      invariant forall k :: from <= k < buf.Length ==> buf[k] == old(buf[k])
      decreases n - to
    {
      buf[to] := buf[from];
      from, to := from + 1, to + 1;
    }
    buf[to] := '\0';
  }

  // ----- decoding

  /** The number v with one more digit. */
  function Appended(v: nat, b: nat, digit: nat): nat {
    v * b + digit
  }

  /** The number of a text's digits up to the first character that is no digit. */
  function Parsed(s: string, b: nat): nat
    requires b <= 62
  {
    if s == "" then 0
    else if Legal(s[..|s| - 1], b) && ValueOf(s[|s| - 1], b) < b then
      Appended(Parsed(s[..|s| - 1], b), b, ValueOf(s[|s| - 1], b))
    else Parsed(s[..|s| - 1], b)
  }

  predicate Legal(s: string, b: nat)
    requires b <= 62
  {
    forall k :: 0 <= k < |s| ==> ValueOf(s[k], b) < b
  }

  function Folded(s: string, caseSensitive: bool): string {
    seq(|s|, k requires 0 <= k < |s| => if caseSensitive then s[k] else ToUpper(s[k]))
  }

  /** The same letter in the two cases, or the same character. */
  predicate SameLetter(c: char, d: char) {
    c == d || ('a' <= c <= 'z' && d as int == c as int - 32) || ('A' <= c <= 'Z' && d as int == c as int + 32)
  }

  /** In base 36 two texts that differ only in the case of letters decode alike. */
  lemma CaseDoesNotMatter(s: string, t: string)
    requires |s| == |t| && forall k :: 0 <= k < |s| ==> SameLetter(s[k], t[k])
    ensures Parsed(Folded(s, false), 36) == Parsed(Folded(t, false), 36)
  {
    hide Parsed, ToUpper;
    forall k | 0 <= k < |s| ensures ToUpper(s[k]) == ToUpper(t[k]) {
      SameUpper(s[k], t[k]);
    }
    assert Folded(s, false) == Folded(t, false);
  }

  lemma SameUpper(c: char, d: char)
    requires SameLetter(c, d)
    ensures ToUpper(c) == ToUpper(d)
  {
  }

  /** Read a number, in 64-bit words. */
  method Decode(str: string, caseSensitive: bool) returns (v: nat)
    requires '\0' !in str
    ensures v == Parsed(Folded(str, caseSensitive), Base(caseSensitive)) % W64
  {
    hide ValueOf, ToUpper, IdChars;
    v := 0;
    var base := Base(caseSensitive);
    ghost var s := Folded(str, caseSensitive);
    var j := 0;
    while j < |str|
      invariant j <= |str| && Legal(s[..j], base) && v == Parsed(s[..j], base) % W64
    {
      var ch := if caseSensitive then str[j] else ToUpper(str[j]);
      var i := Find(ch, base);
      assert s[..j + 1][..j] == s[..j] && ch == s[j];
      if i >= base {
        Stops(s, base, j);
        return;
      }
      WordStep(Parsed(s[..j], base), base, i);
      v := (v * base) % W64;
      v := (v + i) % W64;
      j := j + 1;
    }
    assert s[..j] == s;
  }

  method Find(ch: char, base: nat) returns (i: nat)
    requires 0 < base <= 62
    ensures i == ValueOf(ch, base)
  {
    hide IdChars, ToUpper;
    i := 0;
    while i < base
      invariant i <= base && forall k :: 0 <= k < i ==> Digit(k) != ch
    {
      IdCharsAt(i);
      if IdChars()[i] == ch {
        break;
      }
      i := i + 1;
    }
    if i < base {
      ValueOfDigit(i, base);
    }
  }

  lemma {:induction false} Stops(s: string, b: nat, j: nat)
    requires b <= 62 && j < |s| && ValueOf(s[j], b) == b
    ensures Parsed(s, b) == Parsed(s[..j], b)
  {
    hide ValueOf;
    if j == |s| - 1 {
    } else {
      var t := s[..|s| - 1];
      Stops(t, b, j);
      assert t[..j] == s[..j] && t[j] == s[j];
      assert !Legal(t, b);
    }
  }

  lemma WordStep(v: nat, b: nat, i: nat)
    ensures ((v % W64) * b % W64 + i) % W64 == (v * b + i) % W64
  {
    var q := v / W64;
    assert v * b == q * b * W64 + (v % W64) * b;
    Modulo(q * b, (v % W64) * b);
    var w, q' := (v * b) % W64, (v * b) / W64;
    assert v * b + i == q' * W64 + (w + i);
    Modulo(q', w + i);
  }

  lemma Modulo(q: nat, r: nat)
    ensures (q * W64 + r) % W64 == r % W64
  {
  }

  // ----- the round trip

  lemma {:induction false} DigitsClean(id: nat, b: nat, m: nat)
    requires 1 < b <= 62
    ensures '\0' !in Digits(id, b, m) && Legal(Digits(id, b, m), b)
    ensures b == 36 || b == 62 ==> Folded(Digits(id, b, m), b == 62) == Digits(id, b, m)
    decreases m
  {
    hide Digit, ValueOf, ToUpper;
    if id != 0 && m != 0 {
      DigitsClean(id / b, b, m - 1);
      ValueOfDigit(id % b, b);
      var s, t := Digits(id, b, m), Digits(id / b, b, m - 1);
      assert s == t + [Digit(id % b)];
      assert b == 36 ==> Folded(t, false) == t && s == Folded(s, false) by {
        if b == 36 {
          assert forall k :: 0 <= k < |t| ==> Folded(t, false)[k] == ToUpper(t[k]) == t[k];
        }
      }
    }
  }

  lemma PowPositive(b: nat, m: nat)
    requires b > 0
    ensures Pow(b, m) > 0
  {
    if m > 0 {
      PowPositive(b, m - 1);
      assert b * Pow(b, m - 1) > 0;
    }
  }

  /** Splitting off the last digit. */
  lemma ModuloPow(id: nat, b: nat, m: nat)
    requires b > 1 && m > 0
    ensures Pow(b, m) > 0 && Pow(b, m - 1) > 0
    ensures id % Pow(b, m) == (id / b) % Pow(b, m - 1) * b + id % b
  {
    PowPositive(b, m);
    PowPositive(b, m - 1);
    SplitDigit(id, b, Pow(b, m - 1));
  }

  lemma SplitDigit(id: nat, b: nat, p: nat)
    requires b > 1 && p > 0
    ensures b * p > 0 && id % (b * p) == (id / b) % p * b + id % b
  {
    Parts(id, b);
    Parts(id / b, p);
    JoinDigit(id, b, p, id / b, id % b, id / b / p, (id / b) % p);
  }

  lemma Parts(x: nat, m: nat)
    requires m > 0
    ensures x == (x / m) * m + x % m && x % m < m
  {
  }

  lemma JoinDigit(id: nat, b: nat, p: nat, q: nat, r: nat, high: nat, low: nat)
    requires id == q * b + r && q == high * p + low && r < b && low < p
    ensures b * p > 0 && id % (b * p) == low * b + r
  {
    Distribute(b, high, p, low);
    Below(low, p, b, r);
    Remainder(id, b * p, high, low * b + r);
  }

  lemma Distribute(b: nat, h: nat, p: nat, l: nat)
    ensures (h * p + l) * b == h * (b * p) + l * b
  {
    assert (h * p) * b == h * (b * p);
  }

  lemma Below(l: nat, p: nat, b: nat, r: nat)
    requires l < p && r < b
    ensures l * b + r < b * p
  {
    Scale(l + 1, p, b);
    assert (l + 1) * b == l * b + b;
  }

  lemma Scale(x: nat, y: nat, b: nat)
    requires x <= y
    ensures x * b <= y * b
  {
    assert (y - x) * b >= 0;
  }

  lemma {:induction false} ParsedDigits(id: nat, b: nat, m: nat)
    requires 1 < b <= 62
    ensures Pow(b, m) > 0 && Parsed(Digits(id, b, m), b) == id % Pow(b, m)
    decreases m
  {
    hide Digit, ValueOf;
    PowPositive(b, m);
    if m == 0 {
    } else if id == 0 {
      Remainder(0, Pow(b, m), 0, 0);
    } else {
      ParsedDigits(id / b, b, m - 1);
      DigitsClean(id / b, b, m - 1);
      ValueOfDigit(id % b, b);
      ModuloPow(id, b, m);
      var s := Digits(id, b, m);
      assert s[..|s| - 1] == Digits(id / b, b, m - 1);
    }
  }

  lemma ParsedMore(s: string, b: nat)
    requires 0 < b <= 62 && Legal(s, b) && s != ""
    ensures Parsed(s[..|s| - 1], b) <= Parsed(s, b)
  {
    hide ValueOf;
    Scale(1, b, Parsed(s[..|s| - 1], b));
  }

  /** The values while reading a text of digits only grow: if the last one fits a word,
      none of them wraps around. */
  lemma {:induction false} ParsedGrows(s: string, b: nat, j: nat)
    requires 0 < b <= 62 && Legal(s, b) && j <= |s|
    ensures Parsed(s[..j], b) <= Parsed(s, b)
  {
    hide ValueOf;
    if j == |s| {
      assert s[..j] == s;
    } else {
      hide Parsed;
      var t := s[..|s| - 1];
      ParsedGrows(t, b, j);
      assert t[..j] == s[..j];
      ParsedMore(s, b);
    }
  }

  /** Decoding what was encoded gives the identifier modulo a power of the base, without
      a wrap-around on the way. */
  lemma RoundTrip(id: nat, bufSize: nat, caseSensitive: bool)
    requires id < W64 && bufSize >= 1
    ensures var b := Base(caseSensitive); var s := Digits(id, b, bufSize - 1);
      && Pow(b, bufSize - 1) > 0
      && Folded(s, caseSensitive) == s && Parsed(s, b) % W64 == Parsed(s, b) == id % Pow(b, bufSize - 1)
      && (forall j :: 0 <= j <= |s| ==> Parsed(s[..j], b) < W64)
  {
    hide Digits, Parsed, Pow;
    var b := Base(caseSensitive);
    var s := Digits(id, b, bufSize - 1);
    ParsedDigits(id, b, bufSize - 1);
    DigitsClean(id, b, bufSize - 1);
    ModuloSmaller(id, Pow(b, bufSize - 1));
    forall j | 0 <= j <= |s| ensures Parsed(s[..j], b) < W64 {
      ParsedGrows(s, b, j);
    }
  }

  lemma ModuloSmaller(x: nat, m: nat)
    requires m > 0
    ensures x % m <= x && (x < m ==> x % m == x)
  {
    if x < m {
      Remainder(x, m, 0, x);
    }
  }

  /** Decoding the encoding gives the identifier. */
  predicate ComesBack(id: nat, bufSize: nat, caseSensitive: bool)
    requires bufSize >= 1
  {
    Parsed(Digits(id, Base(caseSensitive), bufSize - 1), Base(caseSensitive)) == id
  }

  /** Every identifier comes back exactly from buffers of at least 12 characters in base
      62 and 14 in base 36. */
  lemma RoundTripExactly(bufSize: nat, caseSensitive: bool)
    requires bufSize >= 1
    ensures (forall id: nat :: id < W64 ==> ComesBack(id, bufSize, caseSensitive))
            <==> bufSize >= if caseSensitive then 12 else 14
  {
    hide Digits, Parsed, Pow;
    var b := Base(caseSensitive);
    PowersOfBases();
    var m := if caseSensitive then 11 else 13;
    if bufSize - 1 >= m {
      PowGrows(b, m, bufSize - 1);
      forall id: nat | id < W64 ensures ComesBack(id, bufSize, caseSensitive) {
        ParsedDigits(id, b, bufSize - 1);
        ModuloSmaller(id, Pow(b, bufSize - 1));
      }
    } else {
      PowGrows(b, bufSize - 1, m - 1);
      ParsedDigits(W64 - 1, b, bufSize - 1);
      assert !ComesBack(W64 - 1, bufSize, caseSensitive);
    }
  }

  lemma PowersOfBases()
    ensures Pow(62, 10) < W64 - 1 && Pow(62, 11) >= W64
    ensures Pow(36, 12) < W64 - 1 && Pow(36, 13) >= W64
  {
    assert Pow(62, 2) == 3844;
    assert Pow(62, 4) == 14776336;
    assert Pow(62, 6) == 56800235584;
    assert Pow(62, 8) == 218340105584896;
    assert Pow(62, 10) == 839299365868340224;
    assert Pow(36, 2) == 1296;
    assert Pow(36, 4) == 1679616;
    assert Pow(36, 6) == 2176782336;
    assert Pow(36, 8) == 2821109907456;
    assert Pow(36, 10) == 3656158440062976;
    assert Pow(36, 12) == 4738381338321616896;
  }

  lemma {:induction false} PowGrows(b: nat, m: nat, n: nat)
    requires b > 1 && m <= n
    ensures 0 < Pow(b, m) <= Pow(b, n)
  {
    PowPositive(b, m);
    if m < n {
      PowGrows(b, m, n - 1);
      assert b * Pow(b, n - 1) >= Pow(b, n - 1);
    }
  }
}
