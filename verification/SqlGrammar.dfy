/** Search conditions as SQL groups them: NOT binds tighter than AND, AND tighter than OR, and the AND
    of a BETWEEN belongs to its predicate. A derivation tree is a value of these types, its yield the
    token list it derives. */
module SqlGrammar {
  import opened Text
  import opened SqlLexer

  type Column = seq<string>

  datatype SqlPredicate =
    | NullTest(column: Column)
    | Range(column: Column, low: nat, high: nat)
    | Member(column: Column, negated: bool, params: seq<nat>)
    | Pattern(column: Column, param: nat, escape: string)
    | Compare(column: Column, comparison: Comparison, param: nat)

  datatype Disjunction = Disjunction(first: Conjunction, rest: Option<Disjunction>)
  datatype Conjunction = Conjunction(first: Factor, rest: Option<Conjunction>)
  datatype Factor = Negation(factor: Factor) | Group(condition: Disjunction) | Test(test: SqlPredicate)

  predicate WellFormedTest(p: SqlPredicate) {
    p.column != [] && (p.Member? ==> p.params != [])
  }

  // ---------------------------------------------------------------- yields

  function ColumnYield(c: Column): seq<Token> {
    if c == [] then [] else if |c| == 1 then [Quoted(c[0])] else [Quoted(c[0]), Dot] + ColumnYield(c[1..])
  }

  function ParamsYield(ps: seq<nat>): seq<Token> {
    if ps == [] then [] else if |ps| == 1 then [Param(ps[0])] else [Param(ps[0]), Comma] + ParamsYield(ps[1..])
  }

  /** What follows the column. */
  function TailYield(p: SqlPredicate): (ts: seq<Token>)
    ensures !At(ts, 0, Dot) && ts != []
  {
    match p
    case NullTest(_) => [Word(KwIs), Word(KwNull)]
    case Range(_, low, high) => [Word(KwBetween), Param(low), Word(KwAnd), Param(high)]
    case Member(_, negated, params) =>
      (if negated then [Word(KwNot)] else []) + [Word(KwIn), LParen] + ParamsYield(params) + [RParen]
    case Pattern(_, param, escape) => [Word(KwLike), Param(param), Word(KwEscape), Literal(escape)]
    case Compare(_, comparison, param) => [Cmp(comparison), Param(param)]
  }

  function TestYield(p: SqlPredicate): seq<Token> { ColumnYield(p.column) + TailYield(p) }

  function Yield(d: Disjunction): seq<Token> {
    ConjunctionYield(d.first) + if d.rest.None? then [] else [Word(KwOr)] + Yield(d.rest.value)
  }

  function ConjunctionYield(c: Conjunction): seq<Token> {
    FactorYield(c.first) + if c.rest.None? then [] else [Word(KwAnd)] + ConjunctionYield(c.rest.value)
  }

  function FactorYield(f: Factor): seq<Token> {
    match f
    case Negation(g) => [Word(KwNot)] + FactorYield(g)
    case Group(d) => [LParen] + Yield(d) + [RParen]
    case Test(p) => TestYield(p)
  }

  predicate WellFormed(d: Disjunction) {
    WellFormedConjunction(d.first) && (d.rest.Some? ==> WellFormed(d.rest.value))
  }

  predicate WellFormedConjunction(c: Conjunction) {
    WellFormedFactor(c.first) && (c.rest.Some? ==> WellFormedConjunction(c.rest.value))
  }

  predicate WellFormedFactor(f: Factor) {
    match f
    case Negation(g) => WellFormedFactor(g)
    case Group(d) => WellFormed(d)
    case Test(p) => WellFormedTest(p)
  }

  // ---------------------------------------------------------------- parsing

  datatype Parsed<+T> = Fail | Done(value: T, rest: seq<Token>)

  function ParseColumn(ts: seq<Token>): (r: Parsed<Column>)
    ensures r.Done? ==> |r.rest| < |ts| && r.value != []
    decreases |ts|
  {
    if ts == [] || !ts[0].Quoted? then Fail
    else if |ts| == 1 || !ts[1].Dot? then Done([ts[0].name], ts[1..])
    else
      match ParseColumn(ts[2..])
      case Fail => Fail
      case Done(c, rest) => Done([ts[0].name] + c, rest)
  }

  function ParseParams(ts: seq<Token>): (r: Parsed<seq<nat>>)
    ensures r.Done? ==> |r.rest| < |ts| && r.value != []
    decreases |ts|
  {
    if ts == [] || !ts[0].Param? then Fail
    else if |ts| == 1 || !ts[1].Comma? then Done([ts[0].number], ts[1..])
    else
      match ParseParams(ts[2..])
      case Fail => Fail
      case Done(ps, rest) => Done([ts[0].number] + ps, rest)
  }

  predicate At(ts: seq<Token>, i: nat, t: Token) { i < |ts| && ts[i] == t }

  predicate ParamAt(ts: seq<Token>, i: nat) { i < |ts| && ts[i].Param? }

  function ParseMembers(c: Column, negated: bool, ts: seq<Token>): (r: Parsed<SqlPredicate>)
    ensures r.Done? ==>
      |r.rest| < |ts| && r.value.Member? && r.value.column == c && WellFormedTest(r.value) == (c != [])
  {
    match ParseParams(ts)
    case Fail => Fail
    case Done(ps, rest) => if At(rest, 0, RParen) then Done(Member(c, negated, ps), rest[1..]) else Fail
  }

  function ParseTail(c: Column, ts: seq<Token>): (r: Parsed<SqlPredicate>)
    requires c != []
    ensures r.Done? ==> |r.rest| < |ts| && WellFormedTest(r.value)
  {
    if At(ts, 0, Word(KwIs)) && At(ts, 1, Word(KwNull)) then Done(NullTest(c), ts[2..])
    else if At(ts, 0, Word(KwBetween)) && ParamAt(ts, 1) && At(ts, 2, Word(KwAnd)) && ParamAt(ts, 3) then
      Done(Range(c, ts[1].number, ts[3].number), ts[4..])
    else if At(ts, 0, Word(KwIn)) && At(ts, 1, LParen) then ParseMembers(c, false, ts[2..])
    else if At(ts, 0, Word(KwNot)) && At(ts, 1, Word(KwIn)) && At(ts, 2, LParen) then ParseMembers(c, true, ts[3..])
    else if At(ts, 0, Word(KwLike)) && ParamAt(ts, 1) && At(ts, 2, Word(KwEscape)) && |ts| > 3 && ts[3].Literal? then
      Done(Pattern(c, ts[1].number, ts[3].text), ts[4..])
    else if |ts| > 1 && ts[0].Cmp? && ParamAt(ts, 1) then Done(Compare(c, ts[0].comparison, ts[1].number), ts[2..])
    else Fail
  }

  function ParseTest(ts: seq<Token>): (r: Parsed<SqlPredicate>)
    ensures r.Done? ==> |r.rest| < |ts| && WellFormedTest(r.value)
  {
    match ParseColumn(ts)
    case Fail => Fail
    case Done(c, rest) => ParseTail(c, rest)
  }

  function ParseFactor(ts: seq<Token>): (r: Parsed<Factor>)
    ensures r.Done? ==> |r.rest| < |ts|
    decreases |ts|, 0
  {
    if At(ts, 0, Word(KwNot)) then
      match ParseFactor(ts[1..])
      case Fail => Fail
      case Done(f, rest) => Done(Negation(f), rest)
    else if At(ts, 0, LParen) then
      match ParseDisjunction(ts[1..])
      case Fail => Fail
      case Done(d, rest) => if At(rest, 0, RParen) then Done(Group(d), rest[1..]) else Fail
    else
      match ParseTest(ts)
      case Fail => Fail
      case Done(p, rest) => Done(Test(p), rest)
  }

  function ParseConjunction(ts: seq<Token>): (r: Parsed<Conjunction>)
    ensures r.Done? ==> |r.rest| < |ts|
    decreases |ts|, 1
  {
    match ParseFactor(ts)
    case Fail => Fail
    case Done(f, rest) =>
      if !At(rest, 0, Word(KwAnd)) then Done(Conjunction(f, None), rest)
      else
        match ParseConjunction(rest[1..])
        case Fail => Fail
        case Done(c, more) => Done(Conjunction(f, Some(c)), more)
  }

  function ParseDisjunction(ts: seq<Token>): (r: Parsed<Disjunction>)
    ensures r.Done? ==> |r.rest| < |ts|
    decreases |ts|, 2
  {
    match ParseConjunction(ts)
    case Fail => Fail
    case Done(c, rest) =>
      if !At(rest, 0, Word(KwOr)) then Done(Disjunction(c, None), rest)
      else
        match ParseDisjunction(rest[1..])
        case Fail => Fail
        case Done(d, more) => Done(Disjunction(c, Some(d)), more)
  }

  // ---------------------------------------------------------------- the parser finds every derivation

  lemma {:induction false} ColumnParses(c: Column, rest: seq<Token>)
    requires c != [] && !At(rest, 0, Dot)
    ensures ParseColumn(ColumnYield(c) + rest) == Done(c, rest)
  {
    var ts := ColumnYield(c) + rest;
    if |c| == 1 {
      assert c == [c[0]] && ts[1..] == rest;
    } else {
      ColumnParses(c[1..], rest);
      ConcatAssociates([Quoted(c[0]), Dot], ColumnYield(c[1..]), rest);
      assert ts[2..] == ColumnYield(c[1..]) + rest;
      assert [c[0]] + c[1..] == c;
    }
  }

  lemma {:induction false} ParamsParse(ps: seq<nat>, rest: seq<Token>)
    requires ps != [] && !At(rest, 0, Comma)
    ensures ParseParams(ParamsYield(ps) + rest) == Done(ps, rest)
  {
    var ts := ParamsYield(ps) + rest;
    if |ps| == 1 {
      assert ps == [ps[0]] && ts[1..] == rest;
    } else {
      ParamsParse(ps[1..], rest);
      ConcatAssociates([Param(ps[0]), Comma], ParamsYield(ps[1..]), rest);
      assert ts[2..] == ParamsYield(ps[1..]) + rest;
      assert [ps[0]] + ps[1..] == ps;
    }
  }

  lemma MembersParse(c: Column, negated: bool, ps: seq<nat>, rest: seq<Token>)
    requires ps != []
    ensures ParseMembers(c, negated, ParamsYield(ps) + [RParen] + rest) == Done(Member(c, negated, ps), rest)
  {
    assert ParamsYield(ps) + [RParen] + rest == ParamsYield(ps) + ([RParen] + rest);
    ParamsParse(ps, [RParen] + rest);
    assert ([RParen] + rest)[1..] == rest;
  }

  lemma {:induction false} MemberTailParses(c: Column, negated: bool, params: seq<nat>, rest: seq<Token>)
    requires c != [] && params != []
    ensures ParseTail(c, TailYield(Member(c, negated, params)) + rest) == Done(Member(c, negated, params), rest)
  {
    hide ParamsYield, ParseMembers;
    var ts := TailYield(Member(c, negated, params)) + rest;
    MembersParse(c, negated, params, rest);
    if negated {
      assert ts[3..] == ParamsYield(params) + [RParen] + rest;
    } else {
      assert ts[2..] == ParamsYield(params) + [RParen] + rest;
    }
  }

  lemma {:induction false} TailParses(p: SqlPredicate, rest: seq<Token>)
    requires WellFormedTest(p)
    ensures ParseTail(p.column, TailYield(p) + rest) == Done(p, rest)
  {
    if p.Member? {
      hide ParseTail, TailYield;
      MemberTailParses(p.column, p.negated, p.params, rest);
    } else {
      hide ParamsYield, ParseMembers;
      var ts := TailYield(p) + rest;
      assert ts[|TailYield(p)|..] == rest;
    }
  }

  lemma {:induction false} TestParses(p: SqlPredicate, rest: seq<Token>)
    requires WellFormedTest(p)
    ensures ParseTest(TestYield(p) + rest) == Done(p, rest)
    ensures TestYield(p) != [] && TestYield(p)[0].Quoted?
  {
    hide TailYield;
    ConcatAssociates(ColumnYield(p.column), TailYield(p), rest);
    assert !At(TailYield(p) + rest, 0, Dot);
    ColumnParses(p.column, TailYield(p) + rest);
    TailParses(p, rest);
  }

  lemma {:induction false} FactorParses(f: Factor, rest: seq<Token>)
    requires WellFormedFactor(f)
    ensures ParseFactor(FactorYield(f) + rest) == Done(f, rest)
    decreases f
  {
    hide ParseTest, TestYield, WellFormedTest;
    var ts := FactorYield(f) + rest;
    match f {
      case Negation(g) =>
        FactorParses(g, rest);
        assert ts[1..] == FactorYield(g) + rest;
      case Group(d) =>
        DisjunctionParses(d, [RParen] + rest);
        assert ts[1..] == Yield(d) + ([RParen] + rest);
        assert ([RParen] + rest)[1..] == rest;
      case Test(p) =>
        TestParses(p, rest);
        assert ts[0] == TestYield(p)[0];
    }
  }

  lemma {:induction false} ConjunctionParses(c: Conjunction, rest: seq<Token>)
    requires WellFormedConjunction(c) && !At(rest, 0, Word(KwAnd))
    ensures ParseConjunction(ConjunctionYield(c) + rest) == Done(c, rest)
    decreases c
  {
    if c.rest.None? {
      assert ConjunctionYield(c) == FactorYield(c.first);
      FactorParses(c.first, rest);
    } else {
      var tail := ConjunctionYield(c.rest.value) + rest;
      ConjunctionParses(c.rest.value, rest);
      FactorParses(c.first, [Word(KwAnd)] + tail);
      assert ConjunctionYield(c) + rest == FactorYield(c.first) + ([Word(KwAnd)] + tail);
      assert ([Word(KwAnd)] + tail)[1..] == tail;
    }
  }

  lemma {:induction false} DisjunctionParses(d: Disjunction, rest: seq<Token>)
    requires WellFormed(d) && !At(rest, 0, Word(KwOr)) && !At(rest, 0, Word(KwAnd))
    ensures ParseDisjunction(Yield(d) + rest) == Done(d, rest)
    decreases d
  {
    if d.rest.None? {
      assert Yield(d) == ConjunctionYield(d.first);
      ConjunctionParses(d.first, rest);
    } else {
      var tail := Yield(d.rest.value) + rest;
      DisjunctionParses(d.rest.value, rest);
      ConjunctionParses(d.first, [Word(KwOr)] + tail);
      assert Yield(d) + rest == ConjunctionYield(d.first) + ([Word(KwOr)] + tail);
      assert ([Word(KwOr)] + tail)[1..] == tail;
    }
  }

  // ---------------------------------------------------------------- and nothing else

  lemma {:induction false} ColumnSound(ts: seq<Token>)
    ensures var r := ParseColumn(ts); r.Done? ==> ColumnYield(r.value) + r.rest == ts
    decreases |ts|
  {
    if ts != [] && ts[0].Quoted? && |ts| > 1 && ts[1].Dot? {
      ColumnSound(ts[2..]);
      assert ts == [ts[0], ts[1]] + ts[2..];
    }
  }

  lemma {:induction false} ParamsSound(ts: seq<Token>)
    ensures var r := ParseParams(ts); r.Done? ==> ParamsYield(r.value) + r.rest == ts
    decreases |ts|
  {
    if ts != [] && ts[0].Param? && |ts| > 1 && ts[1].Comma? {
      ParamsSound(ts[2..]);
      assert ts == [ts[0], ts[1]] + ts[2..];
    }
  }

  lemma MembersSound(c: Column, negated: bool, ts: seq<Token>)
    ensures var r := ParseMembers(c, negated, ts);
      r.Done? ==> r.value.Member? && r.value.negated == negated && ParamsYield(r.value.params) + [RParen] + r.rest == ts
  {
    ParamsSound(ts);
    var r := ParseParams(ts);
    if r.Done? && At(r.rest, 0, RParen) {
      assert r.rest == [RParen] + r.rest[1..];
    }
  }

  lemma MemberTailSound(c: Column, negated: bool, ts: seq<Token>, n: nat)
    requires n <= |ts| && ts[..n] == (if negated then [Word(KwNot)] else []) + [Word(KwIn), LParen]
    ensures var r := ParseMembers(c, negated, ts[n..]);
      r.Done? ==> r.value.column == c && TailYield(r.value) + r.rest == ts
  {
    hide ParamsYield, ParseMembers;
    MembersSound(c, negated, ts[n..]);
    var r := ParseMembers(c, negated, ts[n..]);
    if r.Done? {
      assert ts == ts[..n] + ts[n..];
      ConcatAssociates(ts[..n], ParamsYield(r.value.params) + [RParen], r.rest);
      ConcatAssociates(ts[..n], ParamsYield(r.value.params), [RParen]);
    }
  }

  lemma TailSound(c: Column, ts: seq<Token>)
    requires c != []
    ensures var r := ParseTail(c, ts); r.Done? ==> r.value.column == c && TailYield(r.value) + r.rest == ts
  {
    hide ParamsYield, ParseMembers;
    if At(ts, 0, Word(KwIn)) && At(ts, 1, LParen) {
      assert ts[..2] == [Word(KwIn), LParen] == [] + [Word(KwIn), LParen];
      MemberTailSound(c, false, ts, 2);
    } else if At(ts, 0, Word(KwNot)) && At(ts, 1, Word(KwIn)) && At(ts, 2, LParen) {
      assert ts[..3] == [Word(KwNot)] + [Word(KwIn), LParen];
      MemberTailSound(c, true, ts, 3);
    } else if ParseTail(c, ts).Done? {
      assert !ParseTail(c, ts).value.Member?;
      PlainTailSound(c, ts);
    }
  }

  lemma PlainTailSound(c: Column, ts: seq<Token>)
    requires c != [] && ParseTail(c, ts).Done? && !ParseTail(c, ts).value.Member?
    ensures var r := ParseTail(c, ts); r.value.column == c && TailYield(r.value) + r.rest == ts
  {
    hide ParamsYield, ParseMembers;
    var r := ParseTail(c, ts);
    var n := |ts| - |r.rest|;
    assert n in {2, 4} && r.rest == ts[n..];
    assert ts[..n] == TailYield(r.value);
    assert ts == ts[..n] + ts[n..];
  }

  lemma TestSound(ts: seq<Token>)
    ensures var r := ParseTest(ts); r.Done? ==> TestYield(r.value) + r.rest == ts
  {
    hide ParseTail, TailYield, ColumnYield, ParseColumn;
    ColumnSound(ts);
    var c := ParseColumn(ts);
    if c.Done? {
      TailSound(c.value, c.rest);
      var r := ParseTail(c.value, c.rest);
      if r.Done? {
        ConcatAssociates(ColumnYield(c.value), TailYield(r.value), r.rest);
      }
    }
  }

  lemma {:induction false} FactorSound(ts: seq<Token>)
    ensures var r := ParseFactor(ts); r.Done? ==> WellFormedFactor(r.value) && FactorYield(r.value) + r.rest == ts
    decreases |ts|, 0
  {
    hide ParseTest, TestYield, WellFormedTest, ParseConjunction, ConjunctionYield;
    if At(ts, 0, Word(KwNot)) {
      FactorSound(ts[1..]);
      assert ts == [ts[0]] + ts[1..];
    } else if At(ts, 0, LParen) {
      DisjunctionSound(ts[1..]);
      assert ts == [ts[0]] + ts[1..];
      var r := ParseDisjunction(ts[1..]);
      if r.Done? && At(r.rest, 0, RParen) {
        assert r.rest == [RParen] + r.rest[1..];
      }
    } else {
      TestSound(ts);
    }
  }

  lemma ConjunctionYieldMore(f: Factor, c: Conjunction, rest: seq<Token>)
    ensures ConjunctionYield(Conjunction(f, Some(c))) + rest == FactorYield(f)
      + ([Word(KwAnd)] + (ConjunctionYield(c) + rest))
  {
    ConcatAssociates(FactorYield(f), [Word(KwAnd)] + ConjunctionYield(c), rest);
    ConcatAssociates([Word(KwAnd)], ConjunctionYield(c), rest);
  }

  lemma {:induction false} ConjunctionSound(ts: seq<Token>)
    ensures var r := ParseConjunction(ts);
      r.Done? ==> WellFormedConjunction(r.value) && ConjunctionYield(r.value) + r.rest == ts
    decreases |ts|, 1
  {
    FactorSound(ts);
    hide FactorYield, ParseFactor, WellFormedFactor;
    var f := ParseFactor(ts);
    if f.Done? && At(f.rest, 0, Word(KwAnd)) {
      ConjunctionSound(f.rest[1..]);
      assert f.rest == [Word(KwAnd)] + f.rest[1..];
      var more := ParseConjunction(f.rest[1..]);
      if more.Done? {
        ConjunctionYieldMore(f.value, more.value, more.rest);
      }
    }
  }

  lemma YieldMore(c: Conjunction, d: Disjunction, rest: seq<Token>)
    ensures Yield(Disjunction(c, Some(d))) + rest == ConjunctionYield(c) + ([Word(KwOr)] + (Yield(d) + rest))
  {
    ConcatAssociates(ConjunctionYield(c), [Word(KwOr)] + Yield(d), rest);
    ConcatAssociates([Word(KwOr)], Yield(d), rest);
  }

  lemma {:induction false} DisjunctionSound(ts: seq<Token>)
    ensures var r := ParseDisjunction(ts); r.Done? ==> WellFormed(r.value) && Yield(r.value) + r.rest == ts
    decreases |ts|, 2
  {
    ConjunctionSound(ts);
    hide ConjunctionYield, ParseConjunction, WellFormedConjunction;
    var c := ParseConjunction(ts);
    if c.Done? && At(c.rest, 0, Word(KwOr)) {
      DisjunctionSound(c.rest[1..]);
      assert c.rest == [Word(KwOr)] + c.rest[1..];
      var more := ParseDisjunction(c.rest[1..]);
      if more.Done? {
        YieldMore(c.value, more.value, more.rest);
      }
    }
  }

  /** Reading a whole token list as a search condition. */
  function Parse(ts: seq<Token>): Option<Disjunction> {
    match ParseDisjunction(ts)
    case Fail => None
    case Done(d, rest) => if rest == [] then Some(d) else None
  }

  /** The parser returns the one derivation of a token list when there is one, and nothing otherwise;
      so the grammar is unambiguous. */
  lemma {:induction false} ParseIsDerivation(ts: seq<Token>, d: Disjunction)
    ensures Parse(ts) == Some(d) <==> WellFormed(d) && Yield(d) == ts
  {
    DisjunctionSound(ts);
    assert Yield(d) + [] == Yield(d);
    if WellFormed(d) {
      DisjunctionParses(d, []);
    }
    var r := ParseDisjunction(ts);
    if r.Done? && r.rest == [] {
      assert Yield(r.value) + [] == Yield(r.value);
    }
    hide Yield, ParseDisjunction, WellFormed;
  }
}
