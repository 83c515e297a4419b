/** Small things that several modules share. */
module Basics {

  datatype Option<+T> = None | Some(value: T)

  type Byte = b: int | 0 <= b < 256

  /** memcpy */
  method Copy<T>(to: array<T>, at: nat, data: seq<T>)
    requires at + |data| <= to.Length
    modifies to
    ensures to[..at] == old(to[..at]) && to[at..at + |data|] == data
    ensures to[at + |data|..] == old(to[at + |data|..])
  {
    forall k | 0 <= k < |data| {
      to[at + k] := data[k];
    }
  }

  // ----- products and remainders

  /** A multiple of m that is not 0 is at least m away from it. */
  lemma MulMono(e: int, m: nat)
    ensures e >= 1 ==> e * m >= m
    ensures e <= -1 ==> e * m <= 0 - m
  {
    if e >= 1 {
      assert (e - 1) * m >= 0;
    }
    if e <= -1 {
      assert (-e - 1) * m >= 0;
    }
  }

  lemma Remainder(x: nat, m: nat, q: nat, r: nat)
    requires m > 0 && x == q * m + r && r < m
    ensures x % m == r
  {
    var e := x / m - q;
    assert e * m == r - x % m;
    MulMono(e, m);
  }

  lemma Quotient(x: nat, m: nat, q: nat, r: nat)
    requires m > 0 && x == q * m + r && r < m
    ensures x / m == q
  {
    Remainder(x, m, q, r);
    var e := x / m - q;
    assert e * m == 0;
    MulMono(e, m);
  }
}
