/** Lists without duplicates, and taking elements out of them. */
module Lists {

  ghost function Elems<T>(s: seq<T>): set<T> {
    set x | x in s
  }

  ghost predicate Distinct<T>(s: seq<T>) {
    forall a, b :: 0 <= a < b < |s| ==> s[a] != s[b]
  }

  function Minus<T(==)>(s: seq<T>, gone: set<T>): seq<T> {
    if s == [] then []
    else Minus(s[..|s| - 1], gone) + if s[|s| - 1] in gone then [] else [s[|s| - 1]]
  }

  function Without<T(==)>(s: seq<T>, x: T): seq<T> {
    Minus(s, {x})
  }

  /** The place of the first occurrence. */
  ghost function First<T>(s: seq<T>, x: T): (n: nat)
    requires x in s
    ensures n < |s| && s[n] == x && x !in s[..n]
  {
    if s[0] == x then 0
    else
      assert s == [s[0]] + s[1..];
      1 + First(s[1..], x)
  }

  lemma FirstIs<T(!new)>(s: seq<T>, x: T, n: nat)
    requires n < |s| && s[n] == x && x !in s[..n]
    ensures x in s && First(s, x) == n
  {
    assert s[n] in s;
  }

  /** The elements of ids are in the order of their first occurrences in s. */
  ghost predicate InOrder<T(!new)>(ids: seq<T>, s: seq<T>) {
    && (forall x :: x in ids ==> x in s)
    && (forall a, b :: 0 <= a < b < |ids| ==> First(s, ids[a]) < First(s, ids[b]))
  }

  lemma InOrderNone<T(!new)>(s: seq<T>)
    ensures InOrder([], s)
  {
  }

  lemma InOrderMore<T(!new)>(ids: seq<T>, s: seq<T>, n: nat)
    requires InOrder(ids, s) && n < |s| && s[n] !in s[..n] && forall x :: x in ids ==> x in s[..n]
    ensures InOrder(ids + [s[n]], s)
  {
    FirstIs(s, s[n], n);
    forall x | x in ids ensures x in s && First(s, x) < n {
      var m :| 0 <= m < n && s[..n][m] == x;
      FirstBefore(s, x, m);
    }
  }

  lemma FirstBefore<T(!new)>(s: seq<T>, x: T, m: nat)
    requires m < |s| && s[m] == x
    ensures First(s, x) <= m
  {
  }

  lemma DistinctSnoc<T(!new)>(s: seq<T>, x: T)
    requires Distinct(s + [x])
    ensures Distinct(s) && x !in s && Elems(s + [x]) == Elems(s) + {x}
  {
    var u := s + [x];
    assert u[|s|] == x;
    forall k | 0 <= k < |s| ensures s[k] != x {
      assert u[k] == s[k];
    }
    forall a, b | 0 <= a < b < |s| ensures s[a] != s[b] {
      assert u[a] == s[a] && u[b] == s[b];
    }
  }

  lemma {:induction false} DistinctSize<T(!new)>(s: seq<T>)
    requires Distinct(s)
    ensures |Elems(s)| == |s|
  {
    hide Distinct;
    if s != [] {
      var p, last := s[..|s| - 1], s[|s| - 1];
      assert s == p + [last];
      DistinctSnoc(p, last);
      DistinctSize(p);
    }
  }

  lemma {:induction false} MinusMember<T(!new)>(s: seq<T>, gone: set<T>, x: T)
    ensures x in Minus(s, gone) <==> x in s && x !in gone
  {
    if s != [] {
      MinusMember(s[..|s| - 1], gone, x);
      assert s == s[..|s| - 1] + [s[|s| - 1]];
    }
  }

  lemma {:induction false} MinusDistinct<T(!new)>(s: seq<T>, gone: set<T>)
    requires Distinct(s)
    ensures Distinct(Minus(s, gone))
    ensures forall x :: x in Minus(s, gone) <==> x in s && x !in gone
  {
    forall x ensures x in Minus(s, gone) <==> x in s && x !in gone {
      MinusMember(s, gone, x);
    }
    if s != [] {
      MinusDistinct(s[..|s| - 1], gone);
    }
  }

  lemma {:induction false} MinusNone<T(!new)>(s: seq<T>, gone: set<T>)
    requires forall x :: x in s ==> x !in gone
    ensures Minus(s, gone) == s
  {
    if s != [] {
      MinusNone(s[..|s| - 1], gone);
      assert s == s[..|s| - 1] + [s[|s| - 1]];
    }
  }

  lemma {:induction false} MinusConcat<T(!new)>(s: seq<T>, t: seq<T>, gone: set<T>)
    ensures Minus(s + t, gone) == Minus(s, gone) + Minus(t, gone)
  {
    if t == [] {
      assert s + t == s;
    } else {
      assert (s + t)[..|s + t| - 1] == s + t[..|t| - 1];
      MinusConcat(s, t[..|t| - 1], gone);
    }
  }

  /** Erasing the node at one index is removing its identity. */
  lemma WithoutAt<T(!new)>(s: seq<T>, k: nat)
    requires Distinct(s) && k < |s|
    ensures Without(s, s[k]) == s[..k] + s[k + 1..]
  {
    WithoutMiddle(s[..k], s[k], s[k + 1..]);
    assert s == s[..k] + [s[k]] + s[k + 1..];
  }

  lemma WithoutMiddle<T(!new)>(s: seq<T>, x: T, t: seq<T>)
    requires x !in s && x !in t
    ensures Without(s + [x] + t, x) == s + t
  {
    MinusConcat(s + [x], t, {x});
    MinusNone(s, {x});
    MinusNone(t, {x});
    assert (s + [x])[..|s + [x]| - 1] == s;
    assert Minus(s + [x], {x}) == s;
  }

  lemma {:induction false} MinusMinus<T(!new)>(s: seq<T>, a: set<T>, b: set<T>)
    ensures Minus(Minus(s, a), b) == Minus(s, a + b)
  {
    if s != [] {
      var last := s[|s| - 1];
      MinusMinus(s[..|s| - 1], a, b);
      MinusConcat(Minus(s[..|s| - 1], a), if last in a then [] else [last], b);
      assert last !in a ==> Minus([last], b) == Minus([], b) + if last in b then [] else [last];
    }
  }

  lemma DistinctMiddle<T(!new)>(s: seq<T>, x: T, t: seq<T>)
    requires Distinct(s + [x] + t)
    ensures x !in s && x !in t
  {
    var u := s + [x] + t;
    assert u[|s|] == x;
    forall k | 0 <= k < |s| ensures s[k] != x {
      assert u[k] == s[k];
    }
    forall k | 0 <= k < |t| ensures t[k] != x {
      assert u[|s| + 1 + k] == t[k];
    }
  }

  lemma SplitDistinct<T(!new)>(s: seq<T>, n: nat)
    requires Distinct(s) && n <= |s|
    ensures Distinct(s[..n])
    ensures forall x :: x in s <==> x in s[..n] || x in s[n..]
    ensures forall x :: !(x in s[..n] && x in s[n..])
  {
    assert s == s[..n] + s[n..];
    forall x | x in s[..n] ensures x !in s[n..] {
      var a :| 0 <= a < n && s[a] == x;
      forall b | 0 <= b < |s[n..]| ensures s[n..][b] != x {
        assert s[n..][b] == s[n + b];
      }
    }
  }

  lemma DistinctCons<T(!new)>(x: T, s: seq<T>)
    ensures Distinct([x] + s) <==> Distinct(s) && x !in s
    ensures Elems([x] + s) == Elems(s) + {x}
  {
    var u := [x] + s;
    assert forall k :: 0 <= k < |s| ==> u[k + 1] == s[k];
    if Distinct(u) {
      assert Distinct(s) by {
        forall a, b | 0 <= a < b < |s| ensures s[a] != s[b] {
          assert u[a + 1] != u[b + 1];
        }
      }
      assert x !in s by {
        forall k | 0 <= k < |s| ensures s[k] != x {
          assert u[0] != u[k + 1];
        }
      }
    }
  }
}
