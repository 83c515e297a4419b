/**
 Macro substitution in place, in rounds that resume at positions of the text as it was
 before a replacement, against the one-pass substitution of all references at once.
 */
module Preprocessor {
  import opened Basics
  import opened MacroTexts

  const NESTING_LIMIT: nat := 256

  datatype Definition = Associated | BadName | Raised

  datatype Outcome = Resolved(text: string) | NestedTooMuch

  // ----- what the loops do, in a number of turns

  /** One turn of a round's loop: nothing more to find, or the text and the position to go
      on from. */
  datatype Turned = Done | Again(text: string, pos: nat, replaced: bool)

  function Turn(vars: Variables, str: string, pos: nat): Turned {
    var begin := FindRef(str, pos);
    if begin.None? then Done
    else
      var close := FindClose(str, begin.value);
      if close.None? then Done
      else
        var macro := str[begin.value..close.value + 1];
        if macro in vars then Again(str[..begin.value] + vars[macro] + str[close.value + 1..], close.value + 1, true)
        else Again(str, close.value + 1, false)
  }

  /** A round from a position on, with n replacements so far: its text and their number,
      unless it takes as many turns as `turns` or more. */
  function RoundFrom(vars: Variables, str: string, pos: nat, n: nat, turns: nat): Option<(string, nat)>
    decreases turns
  {
    if turns == 0 then None
    else
      match Turn(vars, str, pos)
      case Done => Some((str, n))
      case Again(str', pos', replaced) => RoundFrom(vars, str', pos', if replaced then n + 1 else n, turns - 1)
  }

  /** The rounds from a text on, of less than `turns` turns each, with `resolved`
      replacements so far; None if there are too many turns or rounds. */
  function RoundsFrom(vars: Variables, str: string, resolved: nat, turns: nat, rounds: nat): Option<Outcome>
    decreases rounds
  {
    if resolved > NESTING_LIMIT then Some(NestedTooMuch)
    else if rounds == 0 then None
    else
      match RoundFrom(vars, str, 0, 0, turns)
      case None => None
      case Some((str', n)) =>
        if n == 0 then Some(Resolved(str')) else RoundsFrom(vars, str', resolved + n, turns, rounds - 1)
  }

  /** What fixup comes to, if it ends. */
  ghost predicate Ends(vars: Variables, text: string, r: Outcome) {
    exists turns: nat, rounds: nat :: RoundsFrom(vars, text, 0, turns, rounds) == Some(r)
  }

  lemma RoundStep(vars: Variables, str: string, pos: nat, n: nat, turns: nat)
    requires RoundFrom(vars, str, pos, n, turns).Some?
    ensures turns > 0
    ensures Turn(vars, str, pos).Done? ==> RoundFrom(vars, str, pos, n, turns) == Some((str, n))
    ensures var t := Turn(vars, str, pos);
            t.Again? ==> RoundFrom(vars, str, pos, n, turns)
                           == RoundFrom(vars, t.text, t.pos, if t.replaced then n + 1 else n, turns - 1)
  {
    hide Turn;
  }

  lemma {:induction false} MoreTurns(vars: Variables, str: string, pos: nat, n: nat, turns: nat, more: nat)
    requires RoundFrom(vars, str, pos, n, turns).Some? && turns <= more
    ensures RoundFrom(vars, str, pos, n, more) == RoundFrom(vars, str, pos, n, turns)
    decreases turns
  {
    hide Turn;
    var t := Turn(vars, str, pos);
    if t.Again? {
      MoreTurns(vars, t.text, t.pos, if t.replaced then n + 1 else n, turns - 1, more - 1);
    }
  }

  lemma {:induction false} MoreRounds(vars: Variables, str: string, resolved: nat, turns: nat, rounds: nat,
                                      more: nat, moreRounds: nat)
    requires RoundsFrom(vars, str, resolved, turns, rounds).Some? && turns <= more && rounds <= moreRounds
    ensures RoundsFrom(vars, str, resolved, more, moreRounds) == RoundsFrom(vars, str, resolved, turns, rounds)
    decreases rounds
  {
    hide RoundFrom;
    if resolved <= NESTING_LIMIT {
      MoreTurns(vars, str, 0, 0, turns, more);
      var r := RoundFrom(vars, str, 0, 0, turns);
      if r.value.1 > 0 {
        MoreRounds(vars, r.value.0, resolved + r.value.1, turns, rounds - 1, more, moreRounds - 1);
      }
    }
  }

  /** It comes to one thing only. */
  lemma EndsOnce(vars: Variables, text: string, r: Outcome, q: Outcome)
    requires Ends(vars, text, r) && Ends(vars, text, q)
    ensures r == q
  {
    hide RoundsFrom;
    var t: nat, k: nat :| RoundsFrom(vars, text, 0, t, k) == Some(r);
    var u: nat, l: nat :| RoundsFrom(vars, text, 0, u, l) == Some(q);
    MoreRounds(vars, text, 0, t, k, t + u, k + l);
    MoreRounds(vars, text, 0, u, l, t + u, k + l);
  }

  // ----- the code

  class Preprocessor {
    var variables: Variables

    constructor ()
      ensures variables == map[]
    {
      variables := map[];
    }

    /** One round over the text. */
    method Round(text: string, ghost turns: nat) returns (str: string, n: nat)
      requires RoundFrom(variables, text, 0, 0, turns).Some?
      ensures RoundFrom(variables, text, 0, 0, turns) == Some((str, n))
    {
      hide FindRef, FindClose, RoundFrom;
      str, n := text, 0;
      var pos: nat := 0;
      ghost var left: nat := turns;
      while FindRef(str, pos).Some?
        invariant RoundFrom(variables, str, pos, n, left).Some?
        invariant RoundFrom(variables, str, pos, n, left) == RoundFrom(variables, text, 0, 0, turns)
        decreases left
      {
        RoundStep(variables, str, pos, n, left);
        var begin := FindRef(str, pos).value;
        var close := FindClose(str, begin);
        if close == None {
          return;
        }
        var macro := str[begin..close.value + 1];
        if macro in variables {
          str := str[..begin] + variables[macro] + str[close.value + 1..];
          n := n + 1;
        }
        pos := close.value + 1;
        left := left - 1;
      }
      RoundStep(variables, str, pos, n, left);
    }

    /** Resolve all references of a text. */
    method Fixup(text: string, ghost r0: Outcome) returns (r: Outcome)
      requires Ends(variables, text, r0)
      ensures r == r0
    {
      hide RoundFrom;
      ghost var turns: nat, rounds: nat :| RoundsFrom(variables, text, 0, turns, rounds) == Some(r0);
      var str := text;
      var nResolved: nat, nResolvedOfRound: nat := 0, 0;
      while true
        invariant RoundsFrom(variables, str, nResolved + nResolvedOfRound, turns, rounds) == Some(r0)
        decreases rounds
      {
        nResolved := nResolved + nResolvedOfRound;
        if nResolved > NESTING_LIMIT {
          return NestedTooMuch;
        }
        str, nResolvedOfRound := Round(str, turns);
        if nResolvedOfRound == 0 {
          break;
        }
        rounds := rounds - 1;
      }
      r := Resolved(str);
    }

    /** Associate a macro with a definition, resolved by what is known so far. */
    method Define(name: string, def: string, ghost r0: Outcome) returns (r: Definition)
      requires name != "" && FindRef(name, 0).None? ==> Ends(variables, def, r0)
      modifies this
      ensures name == "" || FindRef(name, 0).Some? <==> r == BadName
      ensures r != BadName ==> (r == Associated <==> r0.Resolved?)
      ensures variables == if r == Associated then old(variables)["${" + name + "}" := r0.text] else old(variables)
    {
      hide FindRef, Ends;
      if name == "" || FindRef(name, 0).Some? {
        return BadName;
      }
      var macro := "${" + name + "}";
      var macroValue := Fixup(def, r0);
      if macroValue.NestedTooMuch? {
        return Raised;
      }
      variables := variables[macro := macroValue.text];
      r := Associated;
    }
  }

  // ----- well-formed texts

  lemma MiddleOf(str: string, a: string, m: string, b: string)
    requires str == a + m + b
    ensures str[|a|..|a| + |m|] == m && str[..|a|] == a && str[|a| + |m|..] == b
  {
  }

  lemma DefinedIs(vars: Variables, t: Token)
    ensures t.Ref? ==> (Defined(vars, t) <==> Text(t) in vars) && |Text(t)| > 0
  {
  }

  /** One turn on a well-formed text finds a whole reference, and replaces or passes over it. */
  lemma TurnOnTokens(vars: Variables, ds: Tokens, us: seq<Token>, str: string, pos: nat) returns (k: nat)
    requires Tokenized(vars, ds) && WellFormed(us) && Render(us) == str && Turn(vars, str, pos).Again?
    ensures var t := Turn(vars, str, pos);
      && k < |us| && us[k].Ref? && (t.replaced <==> Defined(vars, us[k]))
      && t.pos > pos && (Text(us[k]) in ds || !t.replaced)
      && (t.replaced ==> WellFormed(Replaced(ds, us, k)) && Render(Replaced(ds, us, k)) == t.text)
      && (!t.replaced ==> t.text == str && t.pos <= |str|)
      && (!t.replaced && PassedNone(vars, us, pos) ==> PassedNone(vars, us, t.pos))
  {
    hide Render, WellFormed, PassedNone, Tokenized, FindRef, FindClose, Text, Defined, Replaced;
    k := FoundRef(vars, us, str, pos);
    MiddleOf(str, Render(us[..k]), Text(us[k]), Render(us[k + 1..]));
    DefinedIs(vars, us[k]);
    FoundFirst(str, pos);
    if Text(us[k]) in vars {
      ReplaceRenders(vars, ds, us, k);
    } else if PassedNone(vars, us, pos) {
      PassedOne(vars, us, str, pos, k);
    }
  }

  /** In a well-formed text the loop of a round stops only where nothing is left to find. */
  lemma StopsAtEnd(vars: Variables, us: seq<Token>, str: string, pos: nat)
    requires WellFormed(us) && Render(us) == str && Turn(vars, str, pos).Done?
    ensures PassedNone(vars, us, pos) ==> Count(vars, us) == 0
  {
    hide Render, Count, WellFormed, PassedNone, FindRef, FindClose;
    if FindRef(str, pos).Some? {
      var k := FoundRef(vars, us, str, pos);
    } else if PassedNone(vars, us, pos) {
      PassedAll(vars, us, str, pos);
    }
  }

  // ----- without cycles

  /** The tokens us of a text after n replacements, from the tokens ts. */
  ghost predicate Progress(vars: Variables, ds: Tokens, rank: map<string, nat>, r: nat,
                           ts: seq<Token>, us: seq<Token>, str: string, n: nat)
    requires Ranked(vars, ds, rank) && Below(vars, rank, ts, r)
  {
    && WellFormed(us) && Render(us) == str && Below(vars, rank, us, r)
    && Full(vars, ds, rank, us, r) == Full(vars, ds, rank, ts, r)
    && Total(vars, ds, rank, us, r) + n == Total(vars, ds, rank, ts, r)
  }

  lemma RoundStart(vars: Variables, ds: Tokens, rank: map<string, nat>, r: nat, ts: seq<Token>)
    requires Ranked(vars, ds, rank) && Below(vars, rank, ts, r) && WellFormed(ts)
    ensures Progress(vars, ds, rank, r, ts, ts, Render(ts), 0) && PassedNone(vars, ts, 0)
  {
    assert ts[..0] == [];
  }

  /** A turn keeps what all references come to. */
  lemma TurnKeeps(vars: Variables, ds: Tokens, rank: map<string, nat>, r: nat,
                  ts: seq<Token>, us: seq<Token>, str: string, pos: nat, n: nat) returns (vs: seq<Token>)
    requires Tokenized(vars, ds) && Ranked(vars, ds, rank) && Below(vars, rank, ts, r)
    requires Progress(vars, ds, rank, r, ts, us, str, n) && Turn(vars, str, pos).Again?
    ensures var t := Turn(vars, str, pos);
      && Progress(vars, ds, rank, r, ts, vs, t.text, if t.replaced then n + 1 else n)
      && (!t.replaced ==> vs == us && (PassedNone(vars, us, pos) ==> PassedNone(vars, us, t.pos)))
      && t.pos > pos && (!t.replaced ==> t.pos <= |str|)
  {
    hide Render, WellFormed, PassedNone, Tokenized, Turn, Text, Defined, Replaced, Full, Total, Ranked, Below;
    var k := TurnOnTokens(vars, ds, us, str, pos);
    vs := us;
    if Turn(vars, str, pos).replaced {
      ReplaceKeeps(vars, ds, rank, us, k, r);
      vs := Replaced(ds, us, k);
    }
  }

  lemma TotalLeft(vars: Variables, ds: Tokens, rank: map<string, nat>, r: nat, ts: seq<Token>, us: seq<Token>,
                  str: string, n: nat)
    requires Ranked(vars, ds, rank) && Below(vars, rank, ts, r) && Progress(vars, ds, rank, r, ts, us, str, n)
    ensures n <= Total(vars, ds, rank, ts, r) && Render(us) == str && WellFormed(us)
  {
  }

  /** A round on a well-formed text ends, keeps what all references come to, and if it
      replaces nothing has left nothing to replace. */
  lemma {:induction false} RoundEnds(vars: Variables, ds: Tokens, rank: map<string, nat>, r: nat,
                                     ts: seq<Token>, us: seq<Token>, str: string, pos: nat, n: nat)
      returns (turns: nat, vs: seq<Token>, k: nat)
    requires Tokenized(vars, ds) && Ranked(vars, ds, rank) && Below(vars, rank, ts, r)
    requires Progress(vars, ds, rank, r, ts, us, str, n) && (n == 0 ==> PassedNone(vars, us, pos))
    ensures k >= n && RoundFrom(vars, str, pos, n, turns) == Some((Render(vs), k))
    ensures Progress(vars, ds, rank, r, ts, vs, Render(vs), k) && (k == 0 ==> Count(vars, vs) == 0)
    decreases Total(vars, ds, rank, ts, r) - n, if pos < |str| then |str| - pos else 0
  {
    hide Render, WellFormed, PassedNone, Tokenized, Turn, Progress, Ranked, Below, Total, Full, Count;
    var t := Turn(vars, str, pos);
    TotalLeft(vars, ds, rank, r, ts, us, str, n);
    if t.Done? {
      StopsAtEnd(vars, us, str, pos);
      turns, vs, k := 1, us, n;
    } else {
      vs := TurnKeeps(vars, ds, rank, r, ts, us, str, pos, n);
      TotalLeft(vars, ds, rank, r, ts, vs, t.text, if t.replaced then n + 1 else n);
      turns, vs, k := RoundEnds(vars, ds, rank, r, ts, vs, t.text, t.pos, if t.replaced then n + 1 else n);
      turns := turns + 1;
    }
  }

  /** On a well-formed text, with definitions that refer to each other without a cycle,
      fixup comes to the full expansion if that takes at most 256 replacements, and to the
      nesting error otherwise. */
  lemma FixupExpands(vars: Variables, ds: Tokens, rank: map<string, nat>, ts: seq<Token>, r: nat)
    requires Tokenized(vars, ds) && Ranked(vars, ds, rank) && WellFormed(ts) && Below(vars, rank, ts, r)
    ensures Ends(vars, Render(ts),
                 if Total(vars, ds, rank, ts, r) <= 256 then Resolved(Full(vars, ds, rank, ts, r))
                 else NestedTooMuch)
  {
    hide RoundsFrom, Render, Full, Total, Ranked, Tokenized, Below, WellFormed;
    var turns, rounds := RoundsEnd(vars, ds, rank, r, ts, ts, 0);
  }

  lemma {:induction false} RoundsEnd(vars: Variables, ds: Tokens, rank: map<string, nat>, r: nat,
                                     ts: seq<Token>, us: seq<Token>, resolved: nat)
      returns (turns: nat, rounds: nat)
    requires Tokenized(vars, ds) && Ranked(vars, ds, rank) && Below(vars, rank, ts, r)
    requires WellFormed(us) && Below(vars, rank, us, r) && Full(vars, ds, rank, us, r) == Full(vars, ds, rank, ts, r)
    requires Total(vars, ds, rank, us, r) + resolved == Total(vars, ds, rank, ts, r)
    ensures RoundsFrom(vars, Render(us), resolved, turns, rounds) ==
              Some(if Total(vars, ds, rank, ts, r) <= NESTING_LIMIT then Resolved(Full(vars, ds, rank, ts, r))
                   else NestedTooMuch)
    decreases Total(vars, ds, rank, us, r)
  {
    hide RoundFrom, Full, Render, Tokenized, Ranked, Below, WellFormed, Total, PassedNone;
    turns, rounds := 0, 0;
    if resolved <= NESTING_LIMIT {
      RoundStart(vars, ds, rank, r, us);
      var vs, n;
      turns, vs, n := RoundEnds(vars, ds, rank, r, us, us, Render(us), 0, 0);
      rounds := 1;
      if n == 0 {
        NothingLeft(vars, ds, rank, vs, r);
      } else {
        var moreTurns, moreRounds := RoundsEnd(vars, ds, rank, r, ts, vs, resolved + n);
        MoreTurns(vars, Render(us), 0, 0, turns, turns + moreTurns);
        MoreRounds(vars, Render(vs), resolved + n, moreTurns, moreRounds, turns + moreTurns, moreRounds);
        turns, rounds := turns + moreTurns, moreRounds + 1;
      }
    }
  }

  /** With no definition that refers to a defined macro, fixup comes to the one-pass
      substitution if at most 256 references are defined, and to the nesting error
      otherwise. */
  lemma FixupSubstitutes(vars: Variables, ds: Tokens, ts: seq<Token>)
    requires Settled(vars, ds) && WellFormed(ts)
    ensures Ends(vars, Render(ts),
                 if Count(vars, ts) <= 256 then Resolved(Expand(vars, ts)) else NestedTooMuch)
  {
    hide Ends, Expand, Render, Count, WellFormed, Ranked, Below, Full, Total, Flat, Tokenized;
    SettledRanks(vars, ds, ts);
    OnePass(vars, ds, ts);
    FixupExpands(vars, ds, Flat(vars), ts, 1);
  }

  // ----- with a cycle

  /** A text has a reference to one of the macros. */
  predicate RefersInto(ts: seq<Token>, macros: set<string>) {
    exists t :: t in ts && t.Ref? && Text(t) in macros
  }

  /** Every one of the macros has a definition that refers to one of them. */
  ghost predicate Cyclic(vars: Variables, ds: Tokens, macros: set<string>) {
    forall m :: m in macros ==> m in vars && m in ds && RefersInto(ds[m], macros)
  }

  lemma ReplaceRefersInto(vars: Variables, ds: Tokens, macros: set<string>, us: seq<Token>, k: nat)
    requires Cyclic(vars, ds, macros) && RefersInto(us, macros) && k < |us| && us[k].Ref? && Text(us[k]) in ds
    ensures RefersInto(Replaced(ds, us, k), macros)
  {
    hide Text, Defined;
    var a, d, b := us[..k], ds[Text(us[k])], us[k + 1..];
    var vs := Replaced(ds, us, k);
    assert vs == a + d + b && us == a + [us[k]] + b;
    if Text(us[k]) in macros {
      var t :| t in d && t.Ref? && Text(t) in macros;
      assert t in vs;
    } else {
      var t :| t in us && t.Ref? && Text(t) in macros;
      assert t in a || t in b;
      assert t in vs;
    }
  }

  lemma RefersToDefined(vars: Variables, ds: Tokens, macros: set<string>, us: seq<Token>)
    requires Cyclic(vars, ds, macros) && RefersInto(us, macros)
    ensures Count(vars, us) > 0
  {
    hide Text;
    CountZero(vars, us);
    var t :| t in us && t.Ref? && Text(t) in macros;
    assert Defined(vars, t);
  }

  /** A round on a text that refers into a cycle leaves one that does, and replaces something. */
  lemma {:induction false} CycleRound(vars: Variables, ds: Tokens, macros: set<string>, us: seq<Token>, str: string,
                                      pos: nat, n: nat, turns: nat) returns (vs: seq<Token>)
    requires Tokenized(vars, ds) && Cyclic(vars, ds, macros) && WellFormed(us) && Render(us) == str
    requires RefersInto(us, macros)
    requires n == 0 ==> PassedNone(vars, us, pos)
    requires RoundFrom(vars, str, pos, n, turns).Some?
    ensures WellFormed(vs) && Render(vs) == RoundFrom(vars, str, pos, n, turns).value.0 && RefersInto(vs, macros)
    ensures RoundFrom(vars, str, pos, n, turns).value.1 > 0
    decreases turns
  {
    hide Render, WellFormed, PassedNone, Tokenized, Turn, Cyclic, RefersInto, RoundFrom, Replaced, Count, Defined, Text;
    RoundStep(vars, str, pos, n, turns);
    var t := Turn(vars, str, pos);
    vs := us;
    if t.Done? {
      StopsAtEnd(vars, us, str, pos);
      RefersToDefined(vars, ds, macros, us);
    } else {
      var k := TurnOnTokens(vars, ds, us, str, pos);
      if t.replaced {
        ReplaceRefersInto(vars, ds, macros, us, k);
        vs := Replaced(ds, us, k);
      }
      vs := CycleRound(vars, ds, macros, vs, t.text, t.pos, if t.replaced then n + 1 else n, turns - 1);
    }
  }

  /** On a well-formed text that refers into a cycle of definitions fixup never comes to a
      text: it raises the nesting error or goes on for ever. */
  lemma CycleNeverResolves(vars: Variables, ds: Tokens, macros: set<string>, ts: seq<Token>, text: string)
    requires Tokenized(vars, ds) && Cyclic(vars, ds, macros) && WellFormed(ts) && RefersInto(ts, macros)
    ensures !Ends(vars, Render(ts), Resolved(text))
  {
    hide RoundsFrom, Render, Tokenized, Cyclic, WellFormed, RefersInto;
    forall turns: nat, rounds: nat ensures RoundsFrom(vars, Render(ts), 0, turns, rounds) != Some(Resolved(text)) {
      CycleRounds(vars, ds, macros, ts, 0, turns, rounds, text);
    }
  }

  lemma {:induction false} CycleRounds(vars: Variables, ds: Tokens, macros: set<string>, us: seq<Token>, resolved: nat,
                                       turns: nat, rounds: nat, text: string)
    requires Tokenized(vars, ds) && Cyclic(vars, ds, macros) && WellFormed(us) && RefersInto(us, macros)
    ensures RoundsFrom(vars, Render(us), resolved, turns, rounds) != Some(Resolved(text))
    decreases rounds
  {
    hide RoundFrom, Render, Tokenized, Cyclic, WellFormed, RefersInto, PassedNone;
    if resolved <= NESTING_LIMIT && rounds > 0 && RoundFrom(vars, Render(us), 0, 0, turns).Some? {
      StartsPassed(vars, us);
      var vs := CycleRound(vars, ds, macros, us, Render(us), 0, 0, turns);
      var n := RoundFrom(vars, Render(us), 0, 0, turns).value.1;
      CycleRounds(vars, ds, macros, vs, resolved + n, turns, rounds - 1, text);
    }
  }

  lemma StartsPassed(vars: Variables, ts: seq<Token>)
    ensures PassedNone(vars, ts, 0)
  {
    assert ts[..0] == [];
  }

  // ----- with or without: exactly

  /** A text all of whose defined references have ranks has them below some bound. */
  lemma {:induction false} Bound(vars: Variables, rank: map<string, nat>, ts: seq<Token>) returns (r: nat)
    requires forall t :: t in ts && Defined(vars, t) ==> Text(t) in rank
    ensures Below(vars, rank, ts, r)
  {
    hide Defined, Text;
    r := 0;
    if ts != [] {
      var t, rest := ts[0], ts[1..];
      assert ts == [t] + rest;
      r := Bound(vars, rank, rest);
      if Defined(vars, t) && rank[Text(t)] >= r {
        BelowMore(vars, rank, rest, r, rank[Text(t)] + 1);
        r := rank[Text(t)] + 1;
      }
      BelowParts(vars, rank, [t], rest, r);
    }
  }

  /** All the references of a definition have ranks: then it can have one, too. */
  lemma RankOneMore(vars: Variables, ds: Tokens, rank: map<string, nat>, macro: string, r: nat)
    requires Ranked(vars, ds, rank) && macro !in rank && macro in ds && Below(vars, rank, ds[macro], r)
    ensures Ranked(vars, ds, rank[macro := r])
  {
    hide Defined, Text;
    forall ts: seq<Token>, q: nat | Below(vars, rank, ts, q) ensures Below(vars, rank[macro := r], ts, q) {
    }
  }

  /** Ranks for as many macros as can have one; the others all refer to each other. */
  lemma {:induction false} RankAll(vars: Variables, ds: Tokens, rank: map<string, nat>) returns (full: map<string, nat>)
    requires Tokenized(vars, ds) && Ranked(vars, ds, rank)
    ensures Ranked(vars, ds, full) && Cyclic(vars, ds, vars.Keys - full.Keys)
    decreases |vars.Keys - rank.Keys|
  {
    hide Defined, Text, Tokenized, Below, Ranked, RefersInto;
    var others := vars.Keys - rank.Keys;
    full := rank;
    InTable(vars, ds);
    if m :| m in others && !RefersInto(ds[m], others) {
      RankedReferences(vars, rank, ds[m]);
      var r := Bound(vars, rank, ds[m]);
      RankOneMore(vars, ds, rank, m, r);
      assert vars.Keys - rank[m := r].Keys == others - {m};
      full := RankAll(vars, ds, rank[m := r]);
    }
  }

  lemma InTable(vars: Variables, ds: Tokens)
    requires Tokenized(vars, ds)
    ensures vars.Keys <= ds.Keys
  {
  }

  /** A text that refers to none of the macros without a rank has ranks for all. */
  lemma RankedReferences(vars: Variables, rank: map<string, nat>, ts: seq<Token>)
    requires !RefersInto(ts, vars.Keys - rank.Keys)
    ensures forall t :: t in ts && Defined(vars, t) ==> Text(t) in rank
  {
    hide Defined, Text;
    forall t | t in ts && Defined(vars, t) ensures Text(t) in rank {
      DefinedIn(vars, t);
      OnlyRefsDefined(vars, t);
    }
  }

  /** A text either has ranks for all it comes to, or refers into a cycle. */
  lemma RanksOrCycle(vars: Variables, ds: Tokens, ts: seq<Token>)
      returns (rank: map<string, nat>, r: nat, macros: set<string>)
    requires Tokenized(vars, ds)
    ensures Ranked(vars, ds, rank) && Cyclic(vars, ds, macros)
    ensures Below(vars, rank, ts, r) || RefersInto(ts, macros)
  {
    hide Defined, Text, Below, Cyclic, Tokenized, Ranked, RefersInto;
    NoRanks(vars, ds);
    rank := RankAll(vars, ds, map[]);
    macros := vars.Keys - rank.Keys;
    r := 0;
    if !RefersInto(ts, macros) {
      RankedReferences(vars, rank, ts);
      r := Bound(vars, rank, ts);
    }
  }

  lemma NoRanks(vars: Variables, ds: Tokens)
    ensures Ranked(vars, ds, map[])
  {
  }

  /** The macros that a text reaches have ranks, and take few enough replacements. */
  ghost predicate Resolvable(vars: Variables, ds: Tokens, ts: seq<Token>, rank: map<string, nat>, r: nat) {
    Ranked(vars, ds, rank) && Below(vars, rank, ts, r) && Total(vars, ds, rank, ts, r) <= 256
  }

  /** On every well-formed text and table, fixup comes to a text if and only if the macros
      that the text reaches are without a cycle and take at most 256 replacements. */
  lemma ResolvesExactly(vars: Variables, ds: Tokens, ts: seq<Token>)
    requires Tokenized(vars, ds) && WellFormed(ts)
    ensures (exists text :: Ends(vars, Render(ts), Resolved(text)))
            <==> (exists rank, r :: Resolvable(vars, ds, ts, rank, r))
  {
    hide Ends, Tokenized, WellFormed, Render, Ranked, Below, Total, Full, Cyclic, RefersInto;
    if rank, r :| Resolvable(vars, ds, ts, rank, r) {
      FixupExpands(vars, ds, rank, ts, r);
    } else {
      var rank, r, macros := RanksOrCycle(vars, ds, ts);
      forall text ensures !Ends(vars, Render(ts), Resolved(text)) {
        if RefersInto(ts, macros) {
          CycleNeverResolves(vars, ds, macros, ts, text);
        } else {
          assert !Resolvable(vars, ds, ts, rank, r);
          FixupExpands(vars, ds, rank, ts, r);
          NestsOrResolves(vars, Render(ts), text);
        }
      }
    }
  }

  lemma NestsOrResolves(vars: Variables, str: string, text: string)
    ensures !(Ends(vars, str, NestedTooMuch) && Ends(vars, str, Resolved(text)))
  {
    if Ends(vars, str, NestedTooMuch) && Ends(vars, str, Resolved(text)) {
      EndsOnce(vars, str, NestedTooMuch, Resolved(text));
    }
  }

  // ----- tables that stay settled

  /** The tokens that the defined references of a text come to. */
  function ExpandTokens(vars: Variables, ds: Tokens, ts: seq<Token>): seq<Token> {
    if ts == [] then []
    else (if Defined(vars, ts[0]) && Text(ts[0]) in ds then ds[Text(ts[0])] else [ts[0]])
         + ExpandTokens(vars, ds, ts[1..])
  }

  lemma {:induction false} ExpandedTokens(vars: Variables, ds: Tokens, ts: seq<Token>)
    requires Settled(vars, ds) && WellFormed(ts)
    ensures var us := ExpandTokens(vars, ds, ts);
            WellFormed(us) && Render(us) == Expand(vars, ts) && Count(vars, us) == 0
  {
    hide Text, Defined, WellFormed, Settled;
    if ts != [] {
      var t, rest := ts[0], ts[1..];
      assert ts == [t] + rest;
      WellFormedConcat([t], rest);
      ExpandedTokens(vars, ds, rest);
      DefinedIn(vars, t);
      if Defined(vars, t) {
        SettledAt(vars, ds, Text(t));
      }
      var first := if Defined(vars, t) then ds[Text(t)] else [t];
      OfOne(vars, t);
      Concat(vars, first, ExpandTokens(vars, ds, rest));
      WellFormedConcat(first, ExpandTokens(vars, ds, rest));
    }
  }

  lemma DefinedIn(vars: Variables, t: Token)
    ensures Defined(vars, t) ==> Text(t) in vars
  {
  }

  /** Whether a text has a reference that a macro stands for. */
  predicate RefersTo(ts: seq<Token>, macro: string) {
    exists t :: t in ts && t.Ref? && Text(t) == macro
  }

  lemma CountMore(vars: Variables, macro: string, v: string, ts: seq<Token>)
    requires Count(vars, ts) == 0
    ensures Count(vars[macro := v], ts) == 0 <==> !RefersTo(ts, macro)
  {
    hide Text, Count;
    CountZero(vars, ts);
    CountZero(vars[macro := v], ts);
    assert forall t :: t in ts ==> (Defined(vars[macro := v], t) <==> t.Ref? && (Text(t) in vars || Text(t) == macro));
  }

  /** Defining a macro keeps a settled table settled if and only if neither its own
      definition nor another one refers to it. */
  lemma DefineSettles(vars: Variables, ds: Tokens, macro: string, ts: seq<Token>)
    requires Settled(vars, ds) && WellFormed(ts)
    ensures var vars', ds' := vars[macro := Expand(vars, ts)], ds[macro := ExpandTokens(vars, ds, ts)];
            Settled(vars', ds') <==> forall m :: m in vars' ==> m in ds' && !RefersTo(ds'[m], macro)
  {
    hide Expand, ExpandTokens, Render, Count, WellFormed, RefersTo;
    var vars', ds' := vars[macro := Expand(vars, ts)], ds[macro := ExpandTokens(vars, ds, ts)];
    ExpandedTokens(vars, ds, ts);
    forall m | m in vars'
      ensures m in ds' && WellFormed(ds'[m]) && Render(ds'[m]) == vars'[m]
      ensures Count(vars', ds'[m]) == 0 <==> !RefersTo(ds'[m], macro)
    {
      CountMore(vars, macro, Expand(vars, ts), ds'[m]);
    }
  }

  lemma {:induction false} DollarLeft(vars: Variables, ts: seq<Token>)
    requires Plain(vars) && WellFormed(ts)
    ensures '$' !in Expand(vars, ts) <==> forall t :: t in ts && t.Ref? ==> Defined(vars, t)
  {
    if ts != [] {
      hide Text, Defined;
      assert ts == [ts[0]] + ts[1..];
      WellFormedConcat([ts[0]], ts[1..]);
      DollarLeft(vars, ts[1..]);
      DollarOfOne(vars, ts[0]) by { assert ts[0] in ts; }
      assert forall t :: t in ts <==> t == ts[0] || t in ts[1..];
    }
  }

  lemma DollarOfOne(vars: Variables, t: Token)
    requires Plain(vars) && WellFormed([t])
    ensures '$' !in (if Defined(vars, t) then vars[Text(t)] else Text(t)) <==> (t.Ref? ==> Defined(vars, t))
  {
    RefHasDollar(t);
    assert t in [t];
  }

  /** Without any '$' in the definitions a table is settled; a new definition leaves it so
      if and only if all references of its text are defined. */
  lemma DefineStaysPlain(vars: Variables, macro: string, ts: seq<Token>)
    requires Plain(vars) && WellFormed(ts)
    ensures Settled(vars, map m | m in vars :: Lits(vars[m]))
    ensures Plain(vars[macro := Expand(vars, ts)]) <==> forall t :: t in ts && t.Ref? ==> Defined(vars, t)
  {
    hide Expand, Render, Count, WellFormed, Defined;
    forall m | m in vars
      ensures WellFormed(Lits(vars[m])) && Render(Lits(vars[m])) == vars[m] && Count(vars, Lits(vars[m])) == 0
    {
      OfLits(vars, vars[m]);
    }
    DollarLeft(vars, ts);
    var more := vars[macro := Expand(vars, ts)];
    assert more[macro] == Expand(vars, ts);
  }

  // ----- any text, with no '$' in the definitions

  lemma {:induction false} PlainRoundEnds(vars: Variables, str: string, pos: nat, n: nat)
      returns (turns: nat, str': string, n': nat)
    requires Plain(vars)
    ensures RoundFrom(vars, str, pos, n, turns) == Some((str', n')) && n' >= n
    ensures Dollars(str') <= Dollars(str) && (n' > n ==> Dollars(str') < Dollars(str))
    decreases Dollars(str), if pos < |str| then |str| - pos else 0
  {
    hide FindRef, FindClose, Dollars, Turn;
    var t := Turn(vars, str, pos);
    if t.Done? {
      turns, str', n' := 1, str, n;
    } else {
      PlainTurn(vars, str, pos);
      turns, str', n' := PlainRoundEnds(vars, t.text, t.pos, if t.replaced then n + 1 else n);
      turns := turns + 1;
    }
  }

  lemma PlainTurn(vars: Variables, str: string, pos: nat)
    requires Plain(vars) && Turn(vars, str, pos).Again?
    ensures var t := Turn(vars, str, pos);
      if t.replaced then Dollars(t.text) < Dollars(str) else t.text == str && pos < t.pos <= |str|
  {
    hide FindRef, FindClose, Dollars, Plain;
    FoundFirst(str, pos);
    var begin := FindRef(str, pos).value;
    var close := FindClose(str, begin).value;
    var macro := str[begin..close + 1];
    if macro in vars {
      PlainAt(vars, macro);
      FewerDollars(str, begin, close, vars[macro]);
    }
  }

  lemma PlainAt(vars: Variables, macro: string)
    requires Plain(vars) && macro in vars
    ensures '$' !in vars[macro]
  {
  }

  /** With no '$' in the definitions fixup ends on every text, well-formed or not. */
  lemma PlainEnds(vars: Variables, text: string) returns (r: Outcome)
    requires Plain(vars)
    ensures Ends(vars, text, r)
  {
    var turns, rounds;
    turns, rounds, r := PlainRoundsEnd(vars, text, 0);
  }

  lemma {:induction false} PlainRoundsEnd(vars: Variables, str: string, resolved: nat)
      returns (turns: nat, rounds: nat, r: Outcome)
    requires Plain(vars)
    ensures RoundsFrom(vars, str, resolved, turns, rounds) == Some(r)
    decreases Dollars(str)
  {
    hide RoundFrom, Dollars, Plain;
    if resolved > NESTING_LIMIT {
      turns, rounds, r := 0, 0, NestedTooMuch;
    } else {
      var str', n;
      turns, str', n := PlainRoundEnds(vars, str, 0, 0);
      if n == 0 {
        rounds, r := 1, Resolved(str');
      } else {
        var moreTurns, moreRounds;
        moreTurns, moreRounds, r := PlainRoundsEnd(vars, str', resolved + n);
        MoreTurns(vars, str, 0, 0, turns, turns + moreTurns);
        MoreRounds(vars, str', resolved + n, moreTurns, moreRounds, turns + moreTurns, moreRounds);
        turns, rounds := turns + moreTurns, moreRounds + 1;
      }
    }
  }

  // ----- a definition that contains its own reference

  function MacroOf(name: string): string {
    "${" + name + "}"
  }

  /** The table with one macro, whose definition is its own reference between two texts. */
  function SelfReferring(name: string, pre: string, post: string): Variables {
    map[MacroOf(name) := pre + MacroOf(name) + post]
  }

  /** In a text with one reference, a turn from a position up to it replaces it, and goes on
      where it ended; a turn from a later position finds nothing. */
  lemma SelfTurn(name: string, pre: string, post: string, a: string, b: string, pos: nat)
    requires '$' !in name && '}' !in name && '$' !in a && '$' !in b
    ensures var m := MacroOf(name);
            Turn(SelfReferring(name, pre, post), a + m + b, pos) ==
              if pos <= |a| then Again((a + pre) + m + (post + b), |a| + |m|, true) else Done
  {
    var m := MacroOf(name);
    var str := a + m + b;
    OnlyDollar(name, a, b);
    hide MacroOf;
    if pos <= |a| {
      assert FindRef(str, pos) == Some(|a|) by { FindsAt(str, pos, |a|); }
      CloseOfMacro(name, a, b);
      MiddleOf(str, a, m, b);
      assert a + (pre + m + post) + b == (a + pre) + m + (post + b);
    } else {
      assert FindRef(str, pos) == None by { FindsNone(str, pos); }
    }
  }

  lemma OnlyDollar(name: string, a: string, b: string)
    requires '$' !in name && '$' !in a && '$' !in b
    ensures var str := a + MacroOf(name) + b;
            && |MacroOf(name)| == |name| + 3 && RefAt(str, |a|)
            && forall p :: 0 <= p < |str| && p != |a| ==> !RefAt(str, p)
  {
    var str := a + MacroOf(name) + b;
    forall p | 0 <= p < |str| && p != |a| ensures str[p] != '$' {
      if p < |a| {
        assert str[p] == a[p];
      } else if p < |a| + 2 {
        assert str[p] == '{';
      } else if p < |a| + 2 + |name| {
        assert str[p] == name[p - |a| - 2];
      } else if p == |a| + 2 + |name| {
        assert str[p] == '}';
      } else {
        assert str[p] == b[p - |a| - 3 - |name|];
      }
    }
  }

  lemma CloseOfMacro(name: string, a: string, b: string)
    requires '}' !in name
    ensures FindClose(a + MacroOf(name) + b, |a|) == Some(|a| + |MacroOf(name)| - 1)
  {
    CloseOfRef(a + MacroOf(name) + b, a, name, b);
  }

  lemma FindsAt(str: string, from: nat, p: nat)
    requires from <= p && RefAt(str, p) && forall q :: from <= q < p ==> !RefAt(str, q)
    ensures FindRef(str, from) == Some(p)
  {
    FoundFirst(str, from);
  }

  lemma FindsNone(str: string, from: nat)
    requires forall q :: from <= q < |str| ==> !RefAt(str, q)
    ensures FindRef(str, from) == None
  {
    FoundFirst(str, from);
  }

  /** If the reference starts no earlier in the definition than its own length, the search
      goes on right before it each time, and no round of the loop is the last. */
  lemma {:induction false} SelfReferenceNeverEnds(name: string, pre: string, post: string, a: string, b: string,
                                                  pos: nat, n: nat, turns: nat)
    requires '$' !in name && '}' !in name && '$' !in a && '$' !in b && '$' !in pre && '$' !in post
    requires |pre| >= |MacroOf(name)| && pos <= |a|
    ensures RoundFrom(SelfReferring(name, pre, post), a + MacroOf(name) + b, pos, n, turns) == None
    decreases turns
  {
    hide Turn, MacroOf, SelfReferring;
    if turns > 0 {
      SelfTurn(name, pre, post, a, b, pos);
      SelfReferenceNeverEnds(name, pre, post, a + pre, post + b, |a| + |MacroOf(name)|, n + 1, turns - 1);
    }
  }

  /** Otherwise each round replaces it once, and the rounds end in the nesting error. */
  lemma {:induction false} SelfReferenceNests(name: string, pre: string, post: string, a: string, b: string,
                                              resolved: nat)
    requires '$' !in name && '}' !in name && '$' !in a && '$' !in b && '$' !in pre && '$' !in post
    requires |pre| < |MacroOf(name)| && resolved <= NESTING_LIMIT + 1
    ensures RoundsFrom(SelfReferring(name, pre, post), a + MacroOf(name) + b, resolved, 2, NESTING_LIMIT + 1 - resolved)
              == Some(NestedTooMuch)
    decreases NESTING_LIMIT + 1 - resolved
  {
    hide Turn, MacroOf, SelfReferring;
    if resolved <= NESTING_LIMIT {
      var m := MacroOf(name);
      SelfTurn(name, pre, post, a, b, 0);
      SelfTurn(name, pre, post, a + pre, post + b, |a| + |m|);
      SelfRound(SelfReferring(name, pre, post), a + m + b, (a + pre) + m + (post + b), |a| + |m|);
      SelfReferenceNests(name, pre, post, a + pre, post + b, resolved + 1);
    }
  }

  lemma SelfRound(vars: Variables, str: string, str': string, pos: nat)
    requires Turn(vars, str, 0) == Again(str', pos, true) && Turn(vars, str', pos) == Done
    ensures RoundFrom(vars, str, 0, 0, 2) == Some((str', 1))
  {
    hide Turn;
    assert RoundFrom(vars, str', pos, 1, 1) == Some((str', 1));
  }

  /** Such a definition can be made: it resolves to itself while the macro is unknown.  From
      then on fixup ends on a text with the reference if and only if the reference starts
      earlier in the definition than its own length, and then with the nesting error. */
  lemma SelfReference(name: string, pre: string, post: string, a: string, b: string)
    requires '$' !in name && '}' !in name && '$' !in a && '$' !in b && '$' !in pre && '$' !in post
    ensures Ends(map[], pre + MacroOf(name) + post, Resolved(pre + MacroOf(name) + post))
    ensures var vars, text := SelfReferring(name, pre, post), a + MacroOf(name) + b;
      && ((exists r :: Ends(vars, text, r)) <==> |pre| < |MacroOf(name)|)
      && (|pre| < |MacroOf(name)| ==> Ends(vars, text, NestedTooMuch))
  {
    hide *;
    SelfDefinable(name, pre, post);
    if |pre| < |MacroOf(name)| {
      SelfReferenceEnds(name, pre, post, a, b);
    } else {
      forall r: Outcome ensures !Ends(SelfReferring(name, pre, post), a + MacroOf(name) + b, r) {
        SelfReferenceHasNoEnd(name, pre, post, a, b, r);
      }
    }
  }

  lemma SelfReferenceEnds(name: string, pre: string, post: string, a: string, b: string)
    requires '$' !in name && '}' !in name && '$' !in a && '$' !in b && '$' !in pre && '$' !in post
    requires |pre| < |MacroOf(name)|
    ensures Ends(SelfReferring(name, pre, post), a + MacroOf(name) + b, NestedTooMuch)
  {
    hide RoundsFrom, MacroOf, SelfReferring;
    SelfReferenceNests(name, pre, post, a, b, 0);
  }

  lemma SelfReferenceHasNoEnd(name: string, pre: string, post: string, a: string, b: string, r: Outcome)
    requires '$' !in name && '}' !in name && '$' !in a && '$' !in b && '$' !in pre && '$' !in post
    requires |pre| >= |MacroOf(name)|
    ensures !Ends(SelfReferring(name, pre, post), a + MacroOf(name) + b, r)
  {
    hide RoundFrom, MacroOf, SelfReferring;
    forall turns: nat, rounds: nat
      ensures RoundsFrom(SelfReferring(name, pre, post), a + MacroOf(name) + b, 0, turns, rounds) == None
    {
      SelfReferenceNeverEnds(name, pre, post, a, b, 0, 0, turns);
    }
  }

  lemma SelfDefinable(name: string, pre: string, post: string)
    requires '$' !in name && '}' !in name && '$' !in pre && '$' !in post
    ensures Ends(map[], pre + MacroOf(name) + post, Resolved(pre + MacroOf(name) + post))
  {
    hide Ends, Render, Count, Expand;
    var ts := Lits(pre) + [Ref(name)] + Lits(post);
    OfLits(map[], pre);
    OfLits(map[], post);
    OfOne(map[], Ref(name));
    Concat(map[], Lits(pre) + [Ref(name)], Lits(post));
    Concat(map[], Lits(pre), [Ref(name)]);
    FixupSubstitutes(map[], map[], ts);
  }
}
