/**
 Texts with macro references: as tokens, as what a search finds in them, and what
 replacing a reference does to them.
 */
module MacroTexts {
  import opened Basics

  type Variables = map<string, string>

  /** A character, or a reference to a macro. */
  datatype Token = Lit(c: char) | Ref(name: string)

  /** Each '$' of the text begins a reference of the form ${name}. */
  ghost predicate WellFormed(ts: seq<Token>) {
    forall t :: t in ts ==> if t.Lit? then t.c != '$' else '$' !in t.name && '}' !in t.name
  }

  function Text(t: Token): string {
    if t.Lit? then [t.c] else "${" + t.name + "}"
  }

  function Render(ts: seq<Token>): string {
    if ts == [] then "" else Text(ts[0]) + Render(ts[1..])
  }

  function Lits(s: string): seq<Token> {
    seq(|s|, i requires 0 <= i < |s| => Lit(s[i]))
  }

  predicate Defined(vars: Variables, t: Token) {
    t.Ref? && Text(t) in vars
  }

  /** All defined references replaced at once, the others left alone. */
  function Expand(vars: Variables, ts: seq<Token>): string {
    if ts == [] then "" else (if Defined(vars, ts[0]) then vars[Text(ts[0])] else Text(ts[0])) + Expand(vars, ts[1..])
  }

  /** The number of defined references. */
  function Count(vars: Variables, ts: seq<Token>): nat {
    if ts == [] then 0 else (if Defined(vars, ts[0]) then 1 else 0) + Count(vars, ts[1..])
  }

  /** No definition contains a '$'. */
  ghost predicate Plain(vars: Variables) {
    forall m :: m in vars ==> '$' !in vars[m]
  }

  lemma {:induction false} RenderConcat(a: seq<Token>, b: seq<Token>)
    ensures Render(a + b) == Render(a) + Render(b)
  {
    hide Text, Defined;
    if a == [] {
      assert a + b == b;
    } else {
      assert (a + b)[1..] == a[1..] + b;
      RenderConcat(a[1..], b);
    }
  }

  lemma {:induction false} ExpandConcat(vars: Variables, a: seq<Token>, b: seq<Token>)
    ensures Expand(vars, a + b) == Expand(vars, a) + Expand(vars, b)
  {
    hide Text, Defined;
    if a == [] {
      assert a + b == b;
    } else {
      assert (a + b)[1..] == a[1..] + b;
      ExpandConcat(vars, a[1..], b);
    }
  }

  lemma {:induction false} CountConcat(vars: Variables, a: seq<Token>, b: seq<Token>)
    ensures Count(vars, a + b) == Count(vars, a) + Count(vars, b)
  {
    hide Text, Defined;
    if a == [] {
      assert a + b == b;
    } else {
      assert (a + b)[1..] == a[1..] + b;
      CountConcat(vars, a[1..], b);
    }
  }

  lemma Concat(vars: Variables, a: seq<Token>, b: seq<Token>)
    ensures Render(a + b) == Render(a) + Render(b)
    ensures Expand(vars, a + b) == Expand(vars, a) + Expand(vars, b)
    ensures Count(vars, a + b) == Count(vars, a) + Count(vars, b)
  {
    RenderConcat(a, b);
    ExpandConcat(vars, a, b);
    CountConcat(vars, a, b);
  }

  lemma {:induction false} OfLits(vars: Variables, s: string)
    ensures Render(Lits(s)) == s && Expand(vars, Lits(s)) == s && Count(vars, Lits(s)) == 0
    ensures '$' !in s ==> WellFormed(Lits(s))
  {
    if s != "" {
      assert Lits(s)[1..] == Lits(s[1..]);
      OfLits(vars, s[1..]);
      assert s == [s[0]] + s[1..];
    }
  }

  lemma OfOne(vars: Variables, t: Token)
    ensures Render([t]) == Text(t) && Count(vars, [t]) == (if Defined(vars, t) then 1 else 0)
    ensures Expand(vars, [t]) == if Defined(vars, t) then vars[Text(t)] else Text(t)
  {
  }

  /** A '$' in a well-formed text is where a reference starts. */
  lemma {:induction false} DollarStartsRef(ts: seq<Token>, p: nat) returns (k: nat)
    requires WellFormed(ts) && p < |Render(ts)| && Render(ts)[p] == '$'
    ensures k < |ts| && ts[k].Ref? && |Render(ts[..k])| == p
  {
    var text := Text(ts[0]);
    assert ts[0] in ts;
    if p < |text| {
      k := 0;
      assert text[p] == '$';
    } else {
      assert WellFormed(ts[1..]);
      k := DollarStartsRef(ts[1..], p - |text|);
      assert ts[..k + 1][1..] == ts[1..][..k];
      k := k + 1;
    }
  }

  lemma RefHasDollar(t: Token)
    ensures t.Ref? ==> '$' in Text(t)
  {
    if t.Ref? {
      assert Text(t)[0] == '$';
    }
  }

  lemma OnlyRefsDefined(vars: Variables, t: Token)
    ensures Defined(vars, t) ==> t.Ref?
  {
  }

  lemma {:induction false} NoDollarNoRef(vars: Variables, ts: seq<Token>)
    requires '$' !in Render(ts)
    ensures Count(vars, ts) == 0 && Expand(vars, ts) == Render(ts)
  {
    if ts != [] {
      hide Text, Defined;
      assert forall c :: c in Render(ts[1..]) ==> c in Render(ts);
      assert forall c :: c in Text(ts[0]) ==> c in Render(ts);
      RefHasDollar(ts[0]);
      OnlyRefsDefined(vars, ts[0]);
      NoDollarNoRef(vars, ts[1..]);
    }
  }

  // ----- searching

  predicate RefAt(str: string, p: nat) {
    p + 1 < |str| && str[p] == '$' && str[p + 1] == '{'
  }

  /** The first "${" from a position on. */
  function FindRef(str: string, from: nat): (r: Option<nat>)
    ensures r.Some? ==> from <= r.value && RefAt(str, r.value)
    ensures forall p :: from <= p < (if r.Some? then r.value else |str|) ==> !RefAt(str, p)
    decreases |str| - from
  {
    if from >= |str| then None else if RefAt(str, from) then Some(from) else FindRef(str, from + 1)
  }

  /** The first '}' from a position on. */
  function FindClose(str: string, from: nat): (r: Option<nat>)
    ensures r.Some? ==> from <= r.value < |str| && str[r.value] == '}'
    ensures forall p :: from <= p < (if r.Some? then r.value else |str|) ==> str[p] != '}'
    decreases |str| - from
  {
    if from >= |str| then None else if str[from] == '}' then Some(from) else FindClose(str, from + 1)
  }

  /** In a well-formed text a search from any position finds a reference, whole. */
  lemma FoundRef(vars: Variables, ts: seq<Token>, str: string, from: nat) returns (k: nat)
    requires WellFormed(ts) && str == Render(ts) && FindRef(str, from).Some?
    ensures k < |ts| && ts[k].Ref?
    ensures var p := FindRef(str, from).value;
            && p == |Render(ts[..k])| && FindClose(str, p) == Some(p + |Text(ts[k])| - 1)
            && str == Render(ts[..k]) + Text(ts[k]) + Render(ts[k + 1..])
  {
    hide Render, Expand, Count, FindClose;
    var p := FindRef(str, from).value;
    k := DollarStartsRef(ts, p);
    Around(vars, ts, k);
    RefName(ts, k);
    CloseOfRef(str, Render(ts[..k]), ts[k].name, Render(ts[k + 1..]));
  }

  lemma RefName(ts: seq<Token>, k: nat)
    requires WellFormed(ts) && k < |ts| && ts[k].Ref?
    ensures '}' !in ts[k].name
  {
    assert ts[k] in ts;
  }

  lemma CloseOfRef(str: string, before: string, name: string, after: string)
    requires str == before + ("${" + name + "}") + after && '}' !in name
    ensures FindClose(str, |before|) == Some(|before| + 2 + |name|)
  {
    var p, q := |before|, |before| + 2 + |name|;
    assert str[q] == '}';
    forall i | p <= i < q ensures str[i] != '}' {
      assert i >= p + 2 ==> str[i] == name[i - p - 2];
    }
  }

  lemma Around(vars: Variables, ts: seq<Token>, k: nat)
    requires k < |ts|
    ensures Render(ts) == Render(ts[..k]) + Text(ts[k]) + Render(ts[k + 1..])
    ensures Count(vars, ts) == Count(vars, ts[..k]) + (if Defined(vars, ts[k]) then 1 else 0) + Count(vars, ts[k + 1..])
    ensures Expand(vars, ts) == Expand(vars, ts[..k])
                                + (if Defined(vars, ts[k]) then vars[Text(ts[k])] else Text(ts[k]))
                                + Expand(vars, ts[k + 1..])
  {
    assert ts == ts[..k] + [ts[k]] + ts[k + 1..];
    Concat(vars, ts[..k] + [ts[k]], ts[k + 1..]);
    Concat(vars, ts[..k], [ts[k]]);
    OfOne(vars, ts[k]);
  }

  // ----- definitions as tokens

  /** The tokens of the definitions. */
  type Tokens = map<string, seq<Token>>

  ghost predicate Tokenized(vars: Variables, ds: Tokens) {
    forall m :: m in vars ==> m in ds && WellFormed(ds[m]) && Render(ds[m]) == vars[m]
  }

  lemma TokenizedAt(vars: Variables, ds: Tokens, m: string)
    requires Tokenized(vars, ds) && m in vars
    ensures m in ds && WellFormed(ds[m]) && Render(ds[m]) == vars[m]
  {
  }

  lemma {:induction false} NothingDefined(vars: Variables, ts: seq<Token>)
    requires Count(vars, ts) == 0
    ensures Expand(vars, ts) == Render(ts)
  {
    if ts != [] {
      NothingDefined(vars, ts[1..]);
    }
  }

  lemma {:induction false} CountZero(vars: Variables, ts: seq<Token>)
    ensures Count(vars, ts) == 0 <==> forall t :: t in ts ==> !Defined(vars, t)
  {
    hide Defined, Text;
    if ts != [] {
      CountZero(vars, ts[1..]);
      assert forall t :: t in ts <==> t == ts[0] || t in ts[1..];
    }
  }

  lemma WellFormedConcat(a: seq<Token>, b: seq<Token>)
    ensures WellFormed(a + b) <==> WellFormed(a) && WellFormed(b)
  {
    if WellFormed(a + b) {
      assert forall t :: t in a ==> t in a + b;
      assert forall t :: t in b ==> t in a + b;
    }
  }

  // ----- definitions that refer to each other without a cycle

  /** The defined references of a text have ranks below r. */
  ghost predicate Below(vars: Variables, rank: map<string, nat>, ts: seq<Token>, r: nat) {
    forall t :: t in ts && Defined(vars, t) ==> Text(t) in rank && rank[Text(t)] < r
  }

  /** Each definition of a macro with a rank refers to macros of lower rank only. */
  ghost predicate Ranked(vars: Variables, ds: Tokens, rank: map<string, nat>) {
    forall m :: m in vars && m in rank ==> m in ds && Below(vars, rank, ds[m], rank[m])
  }

  lemma RankedAt(vars: Variables, ds: Tokens, rank: map<string, nat>, ts: seq<Token>, r: nat, t: Token)
    requires Ranked(vars, ds, rank) && Below(vars, rank, ts, r) && t in ts && Defined(vars, t)
    ensures Text(t) in vars && Text(t) in ds && Text(t) in rank && rank[Text(t)] < r
    ensures Below(vars, rank, ds[Text(t)], rank[Text(t)])
  {
  }

  lemma BelowParts(vars: Variables, rank: map<string, nat>, a: seq<Token>, b: seq<Token>, r: nat)
    ensures Below(vars, rank, a + b, r) <==> Below(vars, rank, a, r) && Below(vars, rank, b, r)
  {
    hide Defined, Text;
    assert forall t :: t in a + b <==> t in a || t in b;
  }

  lemma BelowMore(vars: Variables, rank: map<string, nat>, ts: seq<Token>, q: nat, r: nat)
    requires Below(vars, rank, ts, q) && q <= r
    ensures Below(vars, rank, ts, r)
  {
  }

  lemma BelowTail(vars: Variables, rank: map<string, nat>, ts: seq<Token>, r: nat)
    requires Below(vars, rank, ts, r) && ts != []
    ensures Below(vars, rank, ts[1..], r) && ts[0] in ts
  {
    assert forall t :: t in ts[1..] ==> t in ts;
  }

  /** All defined references replaced, and those in their definitions, and so on. */
  ghost function Full(vars: Variables, ds: Tokens, rank: map<string, nat>, ts: seq<Token>, r: nat): string
    requires Ranked(vars, ds, rank) && Below(vars, rank, ts, r)
    decreases r, |ts|
  {
    if ts == [] then ""
    else
      BelowTail(vars, rank, ts, r);
      (if Defined(vars, ts[0]) then
         RankedAt(vars, ds, rank, ts, r, ts[0]);
         Full(vars, ds, rank, ds[Text(ts[0])], rank[Text(ts[0])])
       else Text(ts[0]))
      + Full(vars, ds, rank, ts[1..], r)
  }

  /** The number of replacements that takes. */
  ghost function Total(vars: Variables, ds: Tokens, rank: map<string, nat>, ts: seq<Token>, r: nat): nat
    requires Ranked(vars, ds, rank) && Below(vars, rank, ts, r)
    decreases r, |ts|
  {
    if ts == [] then 0
    else
      BelowTail(vars, rank, ts, r);
      (if Defined(vars, ts[0]) then
         RankedAt(vars, ds, rank, ts, r, ts[0]);
         1 + Total(vars, ds, rank, ds[Text(ts[0])], rank[Text(ts[0])])
       else 0)
      + Total(vars, ds, rank, ts[1..], r)
  }

  lemma {:induction false} FullConcat(vars: Variables, ds: Tokens, rank: map<string, nat>, a: seq<Token>,
                                      b: seq<Token>, r: nat)
    requires Ranked(vars, ds, rank) && Below(vars, rank, a, r) && Below(vars, rank, b, r)
    ensures Below(vars, rank, a + b, r)
    ensures Full(vars, ds, rank, a + b, r) == Full(vars, ds, rank, a, r) + Full(vars, ds, rank, b, r)
    decreases |a|
  {
    hide Defined, Text, Ranked, Below;
    BelowParts(vars, rank, a, b, r);
    if a == [] {
      assert a + b == b;
    } else {
      assert (a + b)[1..] == a[1..] + b && (a + b)[0] == a[0];
      BelowTail(vars, rank, a, r);
      FullConcat(vars, ds, rank, a[1..], b, r);
    }
  }

  lemma {:induction false} TotalConcat(vars: Variables, ds: Tokens, rank: map<string, nat>, a: seq<Token>,
                                       b: seq<Token>, r: nat)
    requires Ranked(vars, ds, rank) && Below(vars, rank, a, r) && Below(vars, rank, b, r)
    ensures Below(vars, rank, a + b, r)
    ensures Total(vars, ds, rank, a + b, r) == Total(vars, ds, rank, a, r) + Total(vars, ds, rank, b, r)
    decreases |a|
  {
    hide Defined, Text, Ranked, Below;
    BelowParts(vars, rank, a, b, r);
    if a == [] {
      assert a + b == b;
    } else {
      assert (a + b)[1..] == a[1..] + b && (a + b)[0] == a[0];
      BelowTail(vars, rank, a, r);
      TotalConcat(vars, ds, rank, a[1..], b, r);
    }
  }

  /** The bound on the ranks does not matter. */
  lemma {:induction false} AnyBound(vars: Variables, ds: Tokens, rank: map<string, nat>, ts: seq<Token>, q: nat, r: nat)
    requires Ranked(vars, ds, rank) && Below(vars, rank, ts, q) && Below(vars, rank, ts, r)
    ensures Full(vars, ds, rank, ts, q) == Full(vars, ds, rank, ts, r)
    ensures Total(vars, ds, rank, ts, q) == Total(vars, ds, rank, ts, r)
    decreases |ts|
  {
    hide Defined, Text, Ranked, Below;
    if ts != [] {
      BelowTail(vars, rank, ts, q);
      BelowTail(vars, rank, ts, r);
      AnyBound(vars, ds, rank, ts[1..], q, r);
    }
  }

  lemma {:induction false} NothingLeft(vars: Variables, ds: Tokens, rank: map<string, nat>, ts: seq<Token>, r: nat)
    requires Ranked(vars, ds, rank) && Below(vars, rank, ts, r) && Count(vars, ts) == 0
    ensures Full(vars, ds, rank, ts, r) == Render(ts) && Total(vars, ds, rank, ts, r) == 0
    decreases |ts|
  {
    hide Defined, Text, Ranked, Below;
    if ts != [] {
      BelowTail(vars, rank, ts, r);
      NothingLeft(vars, ds, rank, ts[1..], r);
    }
  }

  lemma FullOfOne(vars: Variables, ds: Tokens, rank: map<string, nat>, t: Token, r: nat)
    requires Ranked(vars, ds, rank) && Below(vars, rank, [t], r) && Defined(vars, t)
    ensures Text(t) in ds && Text(t) in rank && rank[Text(t)] < r && Below(vars, rank, ds[Text(t)], rank[Text(t)])
    ensures Full(vars, ds, rank, [t], r) == Full(vars, ds, rank, ds[Text(t)], rank[Text(t)])
    ensures Total(vars, ds, rank, [t], r) == 1 + Total(vars, ds, rank, ds[Text(t)], rank[Text(t)])
  {
    hide Defined, Text, Ranked, Below;
    RankedAt(vars, ds, rank, [t], r, t);
    assert [t][1..] == [];
  }

  // ----- replacing

  function Replaced(ds: Tokens, ts: seq<Token>, k: nat): seq<Token>
    requires k < |ts| && Text(ts[k]) in ds
  {
    ts[..k] + ds[Text(ts[k])] + ts[k + 1..]
  }

  lemma ReplaceRenders(vars: Variables, ds: Tokens, ts: seq<Token>, k: nat)
    requires Tokenized(vars, ds) && WellFormed(ts) && k < |ts| && Defined(vars, ts[k])
    ensures Text(ts[k]) in vars && Text(ts[k]) in ds
    ensures var us := Replaced(ds, ts, k);
      WellFormed(us) && Render(us) == Render(ts[..k]) + vars[Text(ts[k])] + Render(ts[k + 1..])
  {
    hide Text, WellFormed, Tokenized, Render;
    var m := Text(ts[k]);
    TokenizedAt(vars, ds, m);
    RenderConcat(ts[..k] + ds[m], ts[k + 1..]);
    RenderConcat(ts[..k], ds[m]);
    assert ts == (ts[..k] + [ts[k]]) + ts[k + 1..];
    WellFormedConcat(ts[..k] + [ts[k]], ts[k + 1..]);
    WellFormedConcat(ts[..k], [ts[k]]);
    WellFormedConcat(ts[..k] + ds[m], ts[k + 1..]);
    WellFormedConcat(ts[..k], ds[m]);
  }

  /** Replacing one defined reference does not change what all of them come to, and leaves
      one replacement less to make. */
  lemma ReplaceKeeps(vars: Variables, ds: Tokens, rank: map<string, nat>, ts: seq<Token>, k: nat, r: nat)
    requires Ranked(vars, ds, rank) && Below(vars, rank, ts, r) && k < |ts| && Defined(vars, ts[k])
    ensures Text(ts[k]) in ds
    ensures var us := Replaced(ds, ts, k);
      && Below(vars, rank, us, r) && Full(vars, ds, rank, us, r) == Full(vars, ds, rank, ts, r)
      && Total(vars, ds, rank, us, r) + 1 == Total(vars, ds, rank, ts, r)
  {
    hide Defined, Text, Ranked, Below, Full, Total;
    var a, t, b := ts[..k], ts[k], ts[k + 1..];
    assert ts == (a + [t]) + b;
    BelowParts(vars, rank, a + [t], b, r);
    BelowParts(vars, rank, a, [t], r);
    FullOfOne(vars, ds, rank, t, r);
    var d := ds[Text(t)];
    BelowMore(vars, rank, d, rank[Text(t)], r);
    AnyBound(vars, ds, rank, d, rank[Text(t)], r);
    BelowParts(vars, rank, a, d, r);
    FullConcat(vars, ds, rank, a + [t], b, r);
    FullConcat(vars, ds, rank, a, [t], r);
    FullConcat(vars, ds, rank, a + d, b, r);
    FullConcat(vars, ds, rank, a, d, r);
    TotalConcat(vars, ds, rank, a + [t], b, r);
    TotalConcat(vars, ds, rank, a, [t], r);
    TotalConcat(vars, ds, rank, a + d, b, r);
    TotalConcat(vars, ds, rank, a, d, r);
  }

  // ----- definitions that refer to no defined macro

  /** No definition has a reference that is defined. */
  ghost predicate Settled(vars: Variables, ds: Tokens) {
    Tokenized(vars, ds) && forall m :: m in vars ==> m in ds && Count(vars, ds[m]) == 0
  }

  lemma SettledAt(vars: Variables, ds: Tokens, m: string)
    requires Settled(vars, ds) && m in vars
    ensures m in ds && WellFormed(ds[m]) && Render(ds[m]) == vars[m] && Count(vars, ds[m]) == 0
    ensures Expand(vars, ds[m]) == vars[m]
  {
    NothingDefined(vars, ds[m]);
  }

  /** All ranks 0. */
  function Flat(vars: Variables): map<string, nat> {
    map m | m in vars :: 0
  }

  lemma SettledRanks(vars: Variables, ds: Tokens, ts: seq<Token>)
    requires Settled(vars, ds)
    ensures Ranked(vars, ds, Flat(vars)) && Below(vars, Flat(vars), ts, 1)
  {
    hide Text, Render, WellFormed;
    forall m | m in vars ensures Below(vars, Flat(vars), ds[m], 0) {
      CountZero(vars, ds[m]);
    }
  }

  /** Then one pass is all. */
  lemma {:induction false} OnePass(vars: Variables, ds: Tokens, ts: seq<Token>)
    requires Settled(vars, ds) && Ranked(vars, ds, Flat(vars)) && Below(vars, Flat(vars), ts, 1)
    ensures Full(vars, ds, Flat(vars), ts, 1) == Expand(vars, ts)
    ensures Total(vars, ds, Flat(vars), ts, 1) == Count(vars, ts)
  {
    hide Text, Ranked, Below, Settled, Flat;
    if ts != [] {
      BelowTail(vars, Flat(vars), ts, 1);
      OnePass(vars, ds, ts[1..]);
      if Defined(vars, ts[0]) {
        var m := Text(ts[0]);
        RankedAt(vars, ds, Flat(vars), ts, 1, ts[0]);
        SettledAt(vars, ds, m);
        NothingLeft(vars, ds, Flat(vars), ds[m], Flat(vars)[m]);
      }
    }
  }

  /** Whether a round has passed over nothing that it should have replaced. */
  ghost predicate PassedNone(vars: Variables, ts: seq<Token>, pos: nat) {
    exists k :: 0 <= k <= |ts| && |Render(ts[..k])| == pos && Count(vars, ts[..k]) == 0
  }

  lemma DollarIsRef(ts: seq<Token>, i: nat)
    requires WellFormed(ts) && i < |Render(ts)| && Render(ts)[i] == '$'
    ensures RefAt(Render(ts), i)
  {
    var k := DollarStartsRef(ts, i);
    Around(map[], ts, k);
  }

  /** Between two token boundaries without a reference nothing is defined. */
  lemma GapNoRefs(vars: Variables, ts: seq<Token>, j: nat, k: nat)
    requires WellFormed(ts) && j <= k <= |ts|
    requires forall p :: |Render(ts[..j])| <= p < |Render(ts[..k])| ==> !RefAt(Render(ts), p)
    ensures Count(vars, ts[..k]) == Count(vars, ts[..j])
  {
    hide RefAt, WellFormed, Render, Count, Expand;
    var gap, before, after := ts[j..k], Render(ts[..j]), Render(ts[k..]);
    assert ts[..k] == ts[..j] + gap && ts == ts[..k] + ts[k..];
    Concat(vars, ts[..j], gap);
    Concat(vars, ts[..k], ts[k..]);
    assert Render(ts) == before + Render(gap) + after;
    forall i | 0 <= i < |Render(gap)| ensures Render(gap)[i] != '$' {
      assert Render(ts)[|before| + i] == Render(gap)[i];
      if Render(gap)[i] == '$' {
        DollarIsRef(ts, |before| + i);
      }
    }
    NoDollarNoRef(vars, gap);
  }

  lemma {:induction false} Longer(ts: seq<Token>, j: nat, k: nat)
    requires j < k <= |ts|
    ensures |Render(ts[..j])| < |Render(ts[..k])|
  {
    assert ts[..k] == ts[..j] + ([ts[j]] + ts[j + 1..k]);
    Concat(map[], ts[..j], [ts[j]] + ts[j + 1..k]);
    Concat(map[], [ts[j]], ts[j + 1..k]);
    OfOne(map[], ts[j]);
  }

  /** Passing over an undefined reference. */
  lemma PassedOne(vars: Variables, ts: seq<Token>, str: string, pos: nat, k: nat)
    requires WellFormed(ts) && str == Render(ts) && PassedNone(vars, ts, pos) && k < |ts| && !Defined(vars, ts[k])
    requires FindRef(str, pos) == Some(|Render(ts[..k])|)
    ensures PassedNone(vars, ts, |Render(ts[..k])| + |Text(ts[k])|)
  {
    hide RefAt, WellFormed, Defined, Text, FindRef, Count, Render;
    var j :| 0 <= j <= |ts| && |Render(ts[..j])| == pos && Count(vars, ts[..j]) == 0;
    BoundaryBefore(ts, str, j, k);
    FoundFirst(str, pos);
    GapNoRefs(vars, ts, j, k);
    assert ts[..k + 1] == ts[..k] + [ts[k]];
    Concat(vars, ts[..k], [ts[k]]);
    OfOne(vars, ts[k]);
  }

  lemma FoundFirst(str: string, from: nat)
    ensures forall p :: from <= p < (if FindRef(str, from).Some? then FindRef(str, from).value else |str|) ==>
              !RefAt(str, p)
    ensures FindRef(str, from).Some? ==> from <= FindRef(str, from).value
  {
  }

  lemma BoundaryBefore(ts: seq<Token>, str: string, j: nat, k: nat)
    requires j <= |ts| && k < |ts| && FindRef(str, |Render(ts[..j])|) == Some(|Render(ts[..k])|)
    ensures j <= k
  {
    if k < j {
      Longer(ts, k, j);
    }
  }

  lemma PassedAll(vars: Variables, ts: seq<Token>, str: string, pos: nat)
    requires WellFormed(ts) && str == Render(ts) && PassedNone(vars, ts, pos) && FindRef(str, pos) == None
    ensures Count(vars, ts) == 0
  {
    hide RefAt, WellFormed;
    var j :| 0 <= j <= |ts| && |Render(ts[..j])| == pos && Count(vars, ts[..j]) == 0;
    assert ts[..|ts|] == ts;
    GapNoRefs(vars, ts, j, |ts|);
  }

  // ----- termination, for any text

  function Dollars(s: string): nat {
    if s == "" then 0 else (if s[0] == '$' then 1 else 0) + Dollars(s[1..])
  }

  lemma {:induction false} DollarsConcat(s: string, t: string)
    ensures Dollars(s + t) == Dollars(s) + Dollars(t)
  {
    if s == "" {
      assert s + t == t;
    } else {
      assert (s + t)[1..] == s[1..] + t;
      DollarsConcat(s[1..], t);
    }
  }

  lemma {:induction false} NoDollars(s: string)
    requires '$' !in s
    ensures Dollars(s) == 0
  {
    if s != "" {
      NoDollars(s[1..]);
    }
  }

  lemma FewerDollars(str: string, p: nat, q: nat, def: string)
    requires p <= q < |str| && str[p] == '$' && '$' !in def
    ensures Dollars(str[..p] + def + str[q + 1..]) < Dollars(str)
  {
    hide Dollars;
    NoDollars(def);
    DollarsConcat(str[..p] + def, str[q + 1..]);
    DollarsConcat(str[..p], def);
    assert str == str[..p] + (str[p..q + 1] + str[q + 1..]);
    DollarsConcat(str[..p], str[p..q + 1] + str[q + 1..]);
    DollarsConcat(str[p..q + 1], str[q + 1..]);
    HasDollar(str[p..q + 1]);
  }

  lemma HasDollar(s: string)
    requires s != "" && s[0] == '$'
    ensures Dollars(s) > 0
  {
  }
}
