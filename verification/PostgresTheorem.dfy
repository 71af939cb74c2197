/** The whole WHERE fragment of a compiled plan: when it exists, how it parses, what it means and
    which placeholders it numbers. */
module PostgresTheorem {
  import opened Text
  import opened Types
  import opened Schemas
  import opened FieldPhase
  import opened FilterSpec
  import opened Compile
  import opened Admission
  import opened SqlLexer
  import opened SqlGrammar
  import opened SqlMeaning
  import opened Postgres
  import opened PostgresProofs
  import opened PostgresReadable
  import opened PostgresCompiler

  // ---------------------------------------------------------------- what an accepted plan guarantees

  /** What the printer needs to know about a plan. */
  ghost predicate PlanCompilable(plan: PlanData) {
    && (plan.filter.Some? ==> Compilable(plan.filter.value) && Printable(plan.filter.value))
    && forall c <- plan.constraints :: ValidType(c.value.kind)
  }

  lemma LeafIsCompilable(schema: Schema, options: CompileOptions, p: Predicate)
    requires ValidSchema(schema) && LeafOk(schema, options, p)
    ensures LeafCompilable(p)
  {
    var definition := schema.filters[schema.filterIndex[p.name]];
    assert FilterDeclared(definition, schema.bounds.maxCost);
    assert OperatorSupportsType(p.operator, definition.kind, definition.nullable);
    hide ValidSchema, KnownSpelling;
    forall v | v in p.values ensures ValidType(v.kind) {
      assert ValueOk(schema, definition, v);
    }
  }

  lemma {:induction false} AcceptedIsCompilable(schema: Schema, options: CompileOptions, e: FilterExpr, depth: int)
    requires ValidSchema(schema) && FilterOk(schema, options, e, depth)
    ensures Compilable(e)
    decreases e
  {
    if e.leaf.Some? {
      LeafIsCompilable(schema, options, e.leaf.value);
    } else {
      assert !e.logic.LogicUnknown?;
      hide ValidSchema;
      forall i | 0 <= i < |e.children| ensures Compilable(e.children[i]) {
        AcceptedIsCompilable(schema, options, e.children[i], depth + 1);
      }
    }
  }

  /** Every plan the compiler returns can be printed: no operand is missing and no group is empty. */
  lemma CompiledPlanPrints(schema: Schema, request: Request, options: CompileOptions)
    requires ValidSchema(schema) && CompileRun(schema, request, options).trail.violations == []
    ensures PlanCompilable(CompileRun(schema, request, options).plan)
  {
    Accepted(schema, request, options);
    var plan := CompileRun(schema, request, options).plan;
    hide CompileRun, ValidSchema, FieldsOk, FilterOk;
    if plan.filter.Some? {
      AcceptedIsCompilable(schema, options, plan.filter.value, 1);
      CompilableIsPrintable(plan.filter.value);
    }
  }

  // ---------------------------------------------------------------- which mappings suffice

  lemma {:induction false} UnmappedFails(m: Mapping, e: FilterExpr, n: nat)
    requires Compilable(e) && Printable(e) && !FiltersMapped(m, e)
    ensures FilterPieces(m, e, n).None?
    decreases e
  {
    if e.leaf.None? {
      var i :| 0 <= i < |e.children| && !FiltersMapped(m, e.children[i]);
      UnmappedFails(m, e.children[i], n + |ChildArguments(e, i)|);
      NoChildNoMore(m, e, i + 1, n);
    }
  }

  lemma {:induction false} ConstraintsMap(m: Mapping, cs: seq<Constraint>, k: nat)
    requires k <= |cs|
    ensures ConstraintPieces(m, cs, k).Some? <==> forall i :: 0 <= i < k ==> cs[i].name in m.constraints
  {
    if k > 0 {
      ConstraintsMap(m, cs, k - 1);
      hide ColumnPieces;
    }
  }

  /** Every name the plan uses has a mapping. */
  ghost predicate NamesMapped(m: Mapping, plan: PlanData) {
    && (forall f <- plan.executionFields :: f in m.fields)
    && (forall i :: 0 <= i < |plan.constraints| ==> plan.constraints[i].name in m.constraints)
    && (plan.filter.Some? ==> FiltersMapped(m, plan.filter.value))
    && (forall term <- plan.sorts :: term.name in m.sorts)
  }

  /** Printing a compiled plan fails exactly when some field, constraint, filter or sort name lacks a
      mapping. */
  lemma PrintsExactlyWhenMapped(m: Mapping, plan: PlanData)
    requires PlanCompilable(plan)
    ensures Mapped(m, plan) <==> NamesMapped(m, plan)
  {
    ConstraintsMap(m, plan.constraints, |plan.constraints|);
    if plan.filter.Some? {
      if FiltersMapped(m, plan.filter.value) {
        FilterDerives(m, plan.filter.value, |plan.constraints|);
      } else {
        UnmappedFails(m, plan.filter.value, |plan.constraints|);
      }
    }
    hide ConstraintPieces, FilterPieces, FilterTree, JoinPieces, Compilable, Printable, FiltersMapped;
  }

  // ---------------------------------------------------------------- the tree of the fragment

  function ConstraintFactors(m: Mapping, cs: seq<Constraint>): (fs: seq<Factor>)
    requires forall i :: 0 <= i < |cs| ==> cs[i].name in m.constraints
    ensures |fs| == |cs|
  {
    seq(|cs|, i requires 0 <= i < |cs| => Test(Compare(ColumnOf(m.constraints[cs[i].name]), CmpEqual, i + 1)))
  }

  lemma ConstraintTokens(column: Column, n: nat)
    requires column != []
    ensures Tokens(ColumnPieces(column) + [Gap, Lexeme(Cmp(CmpEqual)), Gap] + ParamPiece(n))
         == FactorYield(Test(Compare(column, CmpEqual, n)))
    ensures WellFormedFactor(Test(Compare(column, CmpEqual, n)))
  {
    ColumnTokens(column);
    ComparisonTokens(CmpEqual, n);
    hide Tokens, ColumnPieces, ColumnYield;
    TokensConcat(ColumnPieces(column), [Gap, Lexeme(Cmp(CmpEqual)), Gap] + ParamPiece(n));
    ConcatAssociates(ColumnPieces(column), [Gap, Lexeme(Cmp(CmpEqual)), Gap], ParamPiece(n));
  }

  lemma {:induction false} ConstraintsDerive(m: Mapping, cs: seq<Constraint>, k: nat)
    requires k <= |cs| && (forall i :: 0 <= i < |cs| ==> cs[i].name in m.constraints)
    ensures ConstraintPieces(m, cs, k).Some?
    ensures TokensOf(ConstraintPieces(m, cs, k).value) == Yields(ConstraintFactors(m, cs))[..k]
    ensures forall i :: 0 <= i < k ==> WellFormedFactor(ConstraintFactors(m, cs)[i])
  {
    if k > 0 {
      ConstraintsDerive(m, cs, k - 1);
      var column := ColumnOf(m.constraints[cs[k - 1].name]);
      ConstraintTokens(column, k);
      hide Tokens, ColumnPieces, FactorYield, WellFormedFactor;
      var before := ConstraintPieces(m, cs, k - 1).value;
      var last := ColumnPieces(column) + [Gap, Lexeme(Cmp(CmpEqual)), Gap] + ParamPiece(k);
      assert ConstraintPieces(m, cs, k).value == before + [last];
      assert TokensOf(before + [last]) == TokensOf(before) + [Tokens(last)];
      assert Yields(ConstraintFactors(m, cs))[..k] == Yields(ConstraintFactors(m, cs))[..k - 1]
        + [FactorYield(ConstraintFactors(m, cs)[k - 1])];
    }
  }

  /** The groups of the fragment: the constraints, then the filter. */
  function WhereFactors(m: Mapping, plan: PlanData): seq<Factor>
    requires plan.filter.Some? ==>
      Compilable(plan.filter.value) && Printable(plan.filter.value) && FiltersMapped(m, plan.filter.value)
    requires forall i :: 0 <= i < |plan.constraints| ==> plan.constraints[i].name in m.constraints
  {
    (if plan.constraints == [] then []
     else [Group(Disjunction(AndTree(ConstraintFactors(m, plan.constraints)), None))])
    + (if plan.filter.None? then [] else [Group(FilterTree(m, plan.filter.value, |plan.constraints|))])
  }

  lemma GroupDerives(ps: seq<Piece>, d: Disjunction)
    requires Tokens(ps) == Yield(d) && WellFormed(d)
    ensures Tokens(Parenthesised(ps)) == FactorYield(Group(d)) && WellFormedFactor(Group(d))
  {
    ParenthesisedTokens(ps);
    hide Tokens, Yield, WellFormed;
  }

  lemma {:induction false} ConstraintsGroup(m: Mapping, cs: seq<Constraint>)
    requires cs != [] && (forall i :: 0 <= i < |cs| ==> cs[i].name in m.constraints)
    ensures ConstraintPieces(m, cs, |cs|).Some?
    ensures var d := Disjunction(AndTree(ConstraintFactors(m, cs)), None);
      && Tokens(Parenthesised(JoinPieces(ConstraintPieces(m, cs, |cs|).value, Spaced(KwAnd)))) == FactorYield(Group(d))
      && WellFormedFactor(Group(d))
  {
    ConstraintsDerive(m, cs, |cs|);
    var fs := ConstraintFactors(m, cs);
    hide ConstraintPieces, ConstraintFactors, Tokens, Yield, WellFormed, FactorYield, WellFormedFactor, JoinPieces,
      Parenthesised, AndTree;
    assert Yields(fs)[..|cs|] == Yields(fs);
    AndDerives(ConstraintPieces(m, cs, |cs|).value, fs);
    GroupDerives(JoinPieces(ConstraintPieces(m, cs, |cs|).value, Spaced(KwAnd)), Disjunction(AndTree(fs), None));
  }

  /** The parts of the fragment are its groups, printed. */
  lemma PartsDerive(m: Mapping, plan: PlanData) returns (parts: seq<seq<Piece>>)
    requires PlanCompilable(plan) && NamesMapped(m, plan)
    ensures WherePieces(m, plan) == Some(JoinPieces(parts, Spaced(KwAnd)))
    ensures TokensOf(parts) == Yields(WhereFactors(m, plan))
    ensures forall f <- WhereFactors(m, plan) :: WellFormedFactor(f)
  {
    var constraints: seq<seq<Piece>> := [];
    var filter: Option<seq<Piece>> := None;
    ConstraintsMap(m, plan.constraints, |plan.constraints|);
    if plan.constraints != [] {
      ConstraintsGroup(m, plan.constraints);
      constraints := ConstraintPieces(m, plan.constraints, |plan.constraints|).value;
    }
    assert constraints == ConstraintPieces(m, plan.constraints, |plan.constraints|).value;
    hide ConstraintPieces, ConstraintFactors, FilterPieces, FilterTree, Tokens, Yield, WellFormed, FactorYield,
         WellFormedFactor, JoinPieces, Parenthesised, AndTree, Compilable, Printable, FiltersMapped;
    if plan.filter.Some? {
      FilterDerives(m, plan.filter.value, |plan.constraints|);
      filter := FilterPieces(m, plan.filter.value, |plan.constraints|);
      GroupDerives(filter.value, FilterTree(m, plan.filter.value, |plan.constraints|));
    }
    parts := WhereParts(constraints, filter);
  }

  lemma WhereDerives(m: Mapping, plan: PlanData)
    requires PlanCompilable(plan) && NamesMapped(m, plan)
    ensures WherePieces(m, plan).Some?
    ensures var fs := WhereFactors(m, plan);
      if fs == [] then WherePieces(m, plan).value == []
      else var d := Disjunction(AndTree(fs), None);
           Tokens(WherePieces(m, plan).value) == Yield(d) && WellFormed(d)
  {
    var parts := PartsDerive(m, plan);
    hide WherePieces, WhereFactors, PlanCompilable, NamesMapped, Tokens, Yield, WellFormed, FactorYield,
         WellFormedFactor, JoinPieces, AndTree;
    if WhereFactors(m, plan) == [] {
      NoParts(Spaced(KwAnd));
    } else {
      AndDerives(parts, WhereFactors(m, plan));
    }
  }

  lemma NoParts(separator: seq<Piece>)
    ensures JoinPieces([], separator) == []
  {
  }

  // ---------------------------------------------------------------- what it means

  /** A mandatory constraint holds when its column equals its value; a null column is unknown. */
  ghost function ConstraintMeaning(db: Database, m: Mapping, c: Constraint): Truth
    requires c.name in m.constraints
  {
    var cell := db.cell(ColumnNamed(m.constraints[c.name]));
    if cell.None? then Unknown else Known(db.order(cell.value, c.value) == Equal)
  }

  ghost function ConstraintMeanings(db: Database, m: Mapping, cs: seq<Constraint>): (truths: seq<Truth>)
    requires forall i :: 0 <= i < |cs| ==> cs[i].name in m.constraints
    ensures |truths| == |cs|
  {
    seq(|cs|, i requires 0 <= i < |cs| => ConstraintMeaning(db, m, cs[i]))
  }

  /** All constraints and the filter, without SQL. */
  ghost function PlanMeaning(db: Database, m: Mapping, plan: PlanData): Truth
    requires PlanCompilable(plan) && NamesMapped(m, plan)
  {
    And3(All3(ConstraintMeanings(db, m, plan.constraints)),
         if plan.filter.Some? then Meaning(db, m, plan.filter.value) else True)
  }

  lemma ConstraintsMean(db: Database, arguments: seq<Value>, m: Mapping, cs: seq<Constraint>)
    requires cs != [] && (forall c <- cs :: ValidType(c.value.kind))
    requires forall i :: 0 <= i < |cs| ==> cs[i].name in m.constraints
    requires BindsAt(arguments, 0, ConstraintValues(cs))
    ensures Evaluate(db, arguments, Disjunction(AndTree(ConstraintFactors(m, cs)), None))
         == All3(ConstraintMeanings(db, m, cs))
  {
    var fs := ConstraintFactors(m, cs);
    TreesEvaluate(db, arguments, fs);
    GroupEvaluates(db, arguments, fs);
    var truths := ConstraintMeanings(db, m, cs);
    forall i | 0 <= i < |cs| ensures FactorTruths(db, arguments, fs)[i] == truths[i] {
      ColumnIsNamed(m.constraints[cs[i].name]);
      BoundAt(arguments, 0, ConstraintValues(cs), i);
    }
    assert FactorTruths(db, arguments, fs) == truths;
  }

  lemma AllOfTwo(db: Database, arguments: seq<Value>, fs: seq<Factor>)
    requires fs != []
    ensures Evaluate(db, arguments, Disjunction(AndTree(fs), None)) == All3(FactorTruths(db, arguments, fs))
    ensures |fs| == 1 ==> All3(FactorTruths(db, arguments, fs)) == EvaluateFactor(db, arguments, fs[0])
    ensures |fs| == 2 ==>
              All3(FactorTruths(db, arguments, fs))
                == And3(EvaluateFactor(db, arguments, fs[0]), EvaluateFactor(db, arguments, fs[1]))
  {
    TreesEvaluate(db, arguments, fs);
    GroupEvaluates(db, arguments, fs);
    var ts := FactorTruths(db, arguments, fs);
    AllOfMore(ts[0], ts[1..]);
    hide EvaluateFactor, Evaluate, EvaluateConjunction, All3;
    if |fs| == 1 {
      assert ts == [ts[0]];
    } else if |fs| == 2 {
      AllOfMore(ts[1], []);
      assert ts == [ts[0]] + ts[1..] && ts[1..] == [ts[1]];
    }
  }

  lemma GroupsMean(db: Database, m: Mapping, plan: PlanData)
    requires PlanCompilable(plan) && NamesMapped(m, plan)
    ensures var cs := plan.constraints;
      cs != [] ==> EvaluateFactor(db, PlanArguments(plan), Group(Disjunction(AndTree(ConstraintFactors(m, cs)), None)))
                     == All3(ConstraintMeanings(db, m, cs))
    ensures plan.filter.Some? ==>
      EvaluateFactor(db, PlanArguments(plan), Group(FilterTree(m, plan.filter.value, |plan.constraints|)))
        == Meaning(db, m, plan.filter.value)
  {
    var arguments, cs := PlanArguments(plan), plan.constraints;
    hide Compilable, Printable, FiltersMapped, FilterTree, Meaning, ConstraintMeanings, FilterArguments, AndTree,
      ConstraintFactors;
    var own := ConstraintValues(cs);
    assert arguments[0..|own|] == own;
    if cs != [] {
      ConstraintsMean(db, arguments, m, cs);
    }
    if plan.filter.Some? {
      assert arguments[|cs|..|cs| + |FilterArguments(plan.filter.value)|] == FilterArguments(plan.filter.value);
      FilterMeans(db, arguments, m, plan.filter.value, |cs|);
    }
  }

  lemma WhereMeans(db: Database, m: Mapping, plan: PlanData)
    requires PlanCompilable(plan) && NamesMapped(m, plan)
    ensures var fs := WhereFactors(m, plan);
      if fs == [] then PlanMeaning(db, m, plan) == True
      else Evaluate(db, PlanArguments(plan), Disjunction(AndTree(fs), None)) == PlanMeaning(db, m, plan)
  {
    var cs, fs := plan.constraints, WhereFactors(m, plan);
    GroupsMean(db, m, plan);
    hide Compilable, Printable, FiltersMapped, FilterTree, Meaning, ConstraintMeanings, FilterArguments, AndTree,
         ConstraintFactors, Evaluate, EvaluateFactor, PlanArguments;
    if fs != [] {
      AllOfTwo(db, PlanArguments(plan), fs);
    }
  }

  // ---------------------------------------------------------------- placeholders

  /** The placeholder numbers of a token list, left to right. */
  function Params(ts: seq<Token>): seq<nat> {
    if ts == [] then [] else (if ts[0].Param? then [ts[0].number] else []) + Params(ts[1..])
  }

  lemma {:induction false} ParamsConcat(a: seq<Token>, b: seq<Token>)
    ensures Params(a + b) == Params(a) + Params(b)
  {
    if a == [] {
      assert a + b == b && [] + Params(b) == Params(b);
    } else {
      ParamsConcat(a[1..], b);
      assert (a + b)[1..] == a[1..] + b && (a + b)[0] == a[0];
      ConcatAssociates(if a[0].Param? then [a[0].number] else [], Params(a[1..]), Params(b));
    }
  }

  lemma NoParams(ts: seq<Token>)
    requires forall t <- ts :: !t.Param?
    ensures Params(ts) == []
  {
  }

  lemma OneParam(n: nat)
    ensures Params([Param(n)]) == [n]
  {
    assert [Param(n)][1..] == [];
  }

  lemma NumbersConcat(n: nat, j: nat, k: nat)
    ensures Numbers(n, j) + Numbers(n + j, k) == Numbers(n, j + k)
    ensures Numbers(n, 0) == [] && Numbers(n, 1) == [n + 1]
  {
  }

  lemma {:induction false} ListParams(ps: seq<nat>)
    ensures Params(ParamsYield(ps)) == ps
  {
    if |ps| == 1 {
      OneParam(ps[0]);
    } else if |ps| > 1 {
      ListParams(ps[1..]);
      OneParam(ps[0]);
      NoParams([Comma]);
      hide Params;
      assert [Param(ps[0])] + [Comma] == [Param(ps[0]), Comma];
      ParamsConcat([Param(ps[0])], [Comma]);
      ParamsConcat([Param(ps[0]), Comma], ParamsYield(ps[1..]));
    }
  }

  lemma {:induction false} ColumnHasNone(c: Column)
    ensures forall t <- ColumnYield(c) :: !t.Param?
  {
    if |c| > 1 {
      ColumnHasNone(c[1..]);
    }
  }

  lemma MemberParams(c: Column, negated: bool, params: seq<nat>)
    ensures Params(TailYield(Member(c, negated, params))) == params
  {
    var head := (if negated then [Word(KwNot)] else []) + [Word(KwIn), LParen];
    ListParams(params);
    NoParams(head);
    NoParams([RParen]);
    hide Params, ParamsYield;
    ParamsConcat(head, ParamsYield(params));
    ParamsConcat(head + ParamsYield(params), [RParen]);
  }

  lemma RangeParams(c: Column, a: nat, b: nat)
    ensures Params(TailYield(Range(c, a, b))) == [a, b]
  {
    OneParam(a);
    OneParam(b);
    NoParams([Word(KwBetween)]);
    NoParams([Word(KwAnd)]);
    hide Params;
    assert TailYield(Range(c, a, b)) == ([Word(KwBetween)] + [Param(a)]) + ([Word(KwAnd)] + [Param(b)]);
    ParamsConcat([Word(KwBetween)] + [Param(a)], [Word(KwAnd)] + [Param(b)]);
    ParamsConcat([Word(KwBetween)], [Param(a)]);
    ParamsConcat([Word(KwAnd)], [Param(b)]);
  }

  lemma SingleParams(c: Column, comparison: Comparison, escape: string, n: nat)
    ensures Params(TailYield(Compare(c, comparison, n))) == [n]
    ensures Params(TailYield(Pattern(c, n, escape))) == [n]
    ensures Params(TailYield(NullTest(c))) == []
  {
    assert TailYield(NullTest(c)) == [Word(KwIs), Word(KwNull)];
    assert TailYield(Compare(c, comparison, n)) == [Cmp(comparison)] + [Param(n)] + [];
    assert TailYield(Pattern(c, n, escape)) == [Word(KwLike)] + [Param(n)] + [Word(KwEscape), Literal(escape)];
    hide Params, TailYield;
    NoParams([Word(KwIs), Word(KwNull)]);
    OneParamAmong([Cmp(comparison)], n, []);
    OneParamAmong([Word(KwLike)], n, [Word(KwEscape), Literal(escape)]);
  }

  lemma OneParamAmong(a: seq<Token>, n: nat, b: seq<Token>)
    requires forall t <- a + b :: !t.Param?
    ensures Params(a + [Param(n)] + b) == [n]
  {
    OneParam(n);
    NoParams(a);
    NoParams(b);
    hide Params;
    ParamsConcat(a, [Param(n)]);
    ParamsConcat(a + [Param(n)], b);
  }

  function TestNumbers(test: SqlPredicate): seq<nat> {
    match test
    case NullTest(_) => []
    case Range(_, low, high) => [low, high]
    case Member(_, _, params) => params
    case Pattern(_, param, _) => [param]
    case Compare(_, _, param) => [param]
  }

  lemma TailParams(test: SqlPredicate)
    ensures Params(TailYield(test)) == TestNumbers(test)
  {
    hide Params, TailYield;
    match test {
      case NullTest(c) => SingleParams(c, CmpEqual, "", 0);
      case Range(c, low, high) => RangeParams(c, low, high);
      case Member(c, negated, params) => MemberParams(c, negated, params);
      case Pattern(c, n, escape) => SingleParams(c, CmpEqual, escape, n);
      case Compare(c, comparison, n) => SingleParams(c, comparison, "", n);
    }
  }

  lemma TestParams(test: SqlPredicate)
    ensures Params(FactorYield(Test(test))) == TestNumbers(test)
  {
    assert FactorYield(Test(test)) == TestYield(test);
    ColumnHasNone(test.column);
    NoParams(ColumnYield(test.column));
    TailParams(test);
    hide Params, FactorYield, TailYield, TestYield, TestNumbers;
    ParamsConcat(ColumnYield(test.column), TailYield(test));
  }

  lemma LeafNumbers(column: Column, p: Predicate, n: nat)
    requires LeafCompilable(p) && LeafPrintable(p)
    ensures TestNumbers(LeafTest(column, p, n)) == Numbers(n, |LeafArguments(p)|)
  {
    hide KnownSpelling, LikePattern;
    assert |LeafArguments(p)| == |p.values|;
    assert Numbers(n, 0) == [] && Numbers(n, 1) == [n + 1] && Numbers(n, 2) == [n + 1, n + 2];
  }

  lemma LeafParams(column: Column, p: Predicate, n: nat)
    requires LeafCompilable(p) && LeafPrintable(p)
    ensures Params(FactorYield(Test(LeafTest(column, p, n)))) == Numbers(n, |LeafArguments(p)|)
  {
    TestParams(LeafTest(column, p, n));
    LeafNumbers(column, p, n);
    hide LeafTest, LeafArguments, LeafCompilable;
  }

  lemma {:induction false} JoinTokensSnoc(parts: seq<seq<Token>>, last: seq<Token>, separator: Token)
    requires parts != []
    ensures JoinTokens(parts + [last], separator) == JoinTokens(parts, separator) + [separator] + last
  {
    assert (parts + [last])[1..] == parts[1..] + [last];
    if |parts| > 1 {
      JoinTokensSnoc(parts[1..], last, separator);
      var middle := JoinTokens(parts[1..], separator);
      ConcatAssociates(parts[0] + [separator], middle, [separator]);
      ConcatAssociates(parts[0] + [separator], middle + [separator], last);
    }
  }

  /** Placeholders of a joined list whose parts continue the numbering. */
  lemma ParamsOfJoin(parts: seq<seq<Token>>, last: seq<Token>, separator: Token, n: nat, j: nat, k: nat)
    requires !separator.Param?
    requires Params(JoinTokens(parts, separator)) == Numbers(n, j) && Params(last) == Numbers(n + j, k)
    ensures Params(JoinTokens(parts + [last], separator)) == Numbers(n, j + k)
  {
    hide Params, Numbers;
    NumbersConcat(n, j, k);
    if parts == [] {
      assert parts + [last] == [last];
      NoFactors(n, separator);
      assert Yields([]) == [];
      assert [] + Numbers(n + j, k) == Numbers(n + j, k);
    } else {
      NoParams([separator]);
      JoinTokensSnoc(parts, last, separator);
      hide JoinTokens;
      var before := JoinTokens(parts, separator);
      ParamsConcat(before + [separator], last);
      ParamsConcat(before, [separator]);
      assert Params(before) + [] == Params(before);
    }
  }

  lemma GroupParams(d: Disjunction)
    ensures Params(FactorYield(Group(d))) == Params(Yield(d))
  {
    NoParams([LParen]);
    NoParams([RParen]);
    hide Params, Yield;
    ParamsConcat([LParen], Yield(d));
    ParamsConcat([LParen] + Yield(d), [RParen]);
  }

  lemma NegationParams(f: Factor)
    ensures Params(FactorYield(Negation(f))) == Params(FactorYield(f))
  {
    NoParams([Word(KwNot)]);
    assert FactorYield(Negation(f)) == [Word(KwNot)] + FactorYield(f);
    hide Params, FactorYield;
    ParamsConcat([Word(KwNot)], FactorYield(f));
  }

  lemma {:induction false} FilterParams(m: Mapping, e: FilterExpr, n: nat)
    requires Compilable(e) && Printable(e) && FiltersMapped(m, e)
    ensures Params(Yield(FilterTree(m, e, n))) == Numbers(n, |FilterArguments(e)|)
    decreases e, |e.children| + 1
  {
    hide Yield, FactorYield, Params, Numbers;
    if e.leaf.Some? {
      var column := ColumnOf(m.filters[e.leaf.value.name]);
      LeafParams(column, e.leaf.value, n);
      OneYield(Test(LeafTest(column, e.leaf.value, n)));
      hide LeafTest, LeafArguments;
    } else {
      var fs := ChildFactors(m, e, |e.children|, n);
      match e.logic {
        case LogicAnd =>
          ChildParams(m, e, |e.children|, n, Word(KwAnd));
          AndTreeYield(fs);
          OnlyConjunction(AndTree(fs));
        case LogicOr =>
          ChildParams(m, e, |e.children|, n, Word(KwOr));
          OrTreeYield(fs);
        case LogicNot =>
          ChildParams(m, e, |e.children|, n, Word(KwAnd));
          OneYield(Negation(fs[0]));
          NegationParams(fs[0]);
          SingleJoin(fs);
        case LogicUnknown(_) =>
      }
    }
  }

  lemma SingleJoin(fs: seq<Factor>)
    requires |fs| == 1
    ensures JoinTokens(Yields(fs), Word(KwAnd)) == FactorYield(fs[0])
  {
    hide FactorYield;
  }

  lemma {:induction false} ChildParams(m: Mapping, e: FilterExpr, k: nat, n: nat, separator: Token)
    requires e.leaf.None? && Compilable(e) && Printable(e) && FiltersMapped(m, e) && k <= |e.children|
    requires !separator.Param?
    ensures Params(JoinTokens(Yields(ChildFactors(m, e, k, n)), separator)) == Numbers(n, |ChildArguments(e, k)|)
    decreases e, k
  {
    hide Yield, FactorYield, Params, Numbers, FilterTree, FilterArguments;
    if k == 0 {
      NoFactors(n, separator);
    } else {
      var offset, fs := n + |ChildArguments(e, k - 1)|, ChildFactors(m, e, k - 1, n);
      var last := Group(FilterTree(m, e.children[k - 1], offset));
      ChildParams(m, e, k - 1, n, separator);
      FilterParams(m, e.children[k - 1], offset);
      GroupParams(FilterTree(m, e.children[k - 1], offset));
      assert ChildFactors(m, e, k, n) == fs + [last];
      hide ChildFactors, JoinTokens, Compilable, Printable, FiltersMapped;
      NextParams(fs, last, separator, n, |ChildArguments(e, k - 1)|, |FilterArguments(e.children[k - 1])|);
    }
  }

  lemma NoFactors(n: nat, separator: Token)
    ensures Params(JoinTokens(Yields([]), separator)) == Numbers(n, 0)
  {
    NumbersConcat(n, 0, 0);
    assert Yields([]) == [];
  }

  lemma {:induction false} NextParams(fs: seq<Factor>, last: Factor, separator: Token, n: nat, j: nat, k: nat)
    requires !separator.Param?
    requires Params(JoinTokens(Yields(fs), separator)) == Numbers(n, j)
      && Params(FactorYield(last)) == Numbers(n + j, k)
    ensures Params(JoinTokens(Yields(fs + [last]), separator)) == Numbers(n, j + k)
  {
    hide Params, JoinTokens, FactorYield, Numbers;
    ParamsOfJoin(Yields(fs), FactorYield(last), separator, n, j, k);
    assert Yields(fs + [last]) == Yields(fs) + [FactorYield(last)];
  }

  lemma ConstraintParam(column: Column, n: nat)
    ensures Params(FactorYield(Test(Compare(column, CmpEqual, n + 1)))) == Numbers(n, 1)
  {
    TestParams(Compare(column, CmpEqual, n + 1));
    NumbersConcat(n, 0, 1);
  }

  lemma {:induction false} ConstraintParams(m: Mapping, cs: seq<Constraint>, k: nat)
    requires k <= |cs| && forall i :: 0 <= i < |cs| ==> cs[i].name in m.constraints
    ensures Params(JoinTokens(Yields(ConstraintFactors(m, cs)[..k]), Word(KwAnd))) == Numbers(0, k)
  {
    hide Params, JoinTokens, FactorYield, Numbers;
    var fs := ConstraintFactors(m, cs);
    if k == 0 {
      NoFactors(0, Word(KwAnd));
      assert fs[..0] == [];
    } else {
      ConstraintParams(m, cs, k - 1);
      ConstraintParam(ColumnOf(m.constraints[cs[k - 1].name]), k - 1);
      NextParams(fs[..k - 1], fs[k - 1], Word(KwAnd), 0, k - 1, 1);
      assert fs[..k] == fs[..k - 1] + [fs[k - 1]];
    }
  }

  lemma ConstraintGroupParams(m: Mapping, cs: seq<Constraint>)
    requires cs != [] && forall i :: 0 <= i < |cs| ==> cs[i].name in m.constraints
    ensures Params(FactorYield(Group(Disjunction(AndTree(ConstraintFactors(m, cs)), None)))) == Numbers(0, |cs|)
  {
    var fs := ConstraintFactors(m, cs);
    ConstraintParams(m, cs, |cs|);
    assert fs[..|cs|] == fs;
    hide Params, JoinTokens, FactorYield, Yield, ConstraintFactors, Numbers;
    GroupParams(Disjunction(AndTree(fs), None));
    OnlyConjunction(AndTree(fs));
    AndTreeYield(fs);
  }

  /** The constraints as the factor they are printed as, or nothing. */
  function Ahead(m: Mapping, cs: seq<Constraint>): seq<Factor>
    requires forall i :: 0 <= i < |cs| ==> cs[i].name in m.constraints
  {
    if cs == [] then [] else [Group(Disjunction(AndTree(ConstraintFactors(m, cs)), None))]
  }

  lemma AheadParams(m: Mapping, cs: seq<Constraint>)
    requires forall i :: 0 <= i < |cs| ==> cs[i].name in m.constraints
    ensures Params(JoinTokens(Yields(Ahead(m, cs)), Word(KwAnd))) == Numbers(0, |cs|)
  {
    hide Params, FactorYield, Yield, ConstraintFactors, AndTree, Numbers, JoinTokens;
    NoFactors(0, Word(KwAnd));
    if cs != [] {
      ConstraintGroupParams(m, cs);
      SingleJoin(Ahead(m, cs));
    }
  }

  lemma WhereParams(m: Mapping, plan: PlanData)
    requires PlanCompilable(plan) && NamesMapped(m, plan) && WhereFactors(m, plan) != []
    ensures Params(Yield(Disjunction(AndTree(WhereFactors(m, plan)), None))) == Numbers(0, |PlanArguments(plan)|)
  {
    var fs, cs := WhereFactors(m, plan), plan.constraints;
    hide Params, FactorYield, Yield, Compilable, Printable, FiltersMapped, FilterTree, FilterArguments,
         ConstraintFactors, AndTree, Numbers, JoinTokens;
    AndTreeYield(fs);
    OnlyConjunction(AndTree(fs));
    AheadParams(m, cs);
    if plan.filter.Some? {
      var last := Group(FilterTree(m, plan.filter.value, |cs|));
      assert fs == Ahead(m, cs) + [last];
      hide Ahead, WhereFactors;
      FilterParams(m, plan.filter.value, |cs|);
      GroupParams(FilterTree(m, plan.filter.value, |cs|));
      NextParams(Ahead(m, cs), last, Word(KwAnd), 0, |cs|, |FilterArguments(plan.filter.value)|);
    } else {
      assert fs == Ahead(m, cs);
    }
  }

  // ---------------------------------------------------------------- arguments

  /** The operands of a list of predicates, in order; a pattern operand is escaped and wrapped. */
  function Operands(leaves: seq<Predicate>): seq<Value>
    requires forall p <- leaves :: LeafPrintable(p)
  {
    if leaves == [] then [] else LeafArguments(leaves[0]) + Operands(leaves[1..])
  }

  lemma {:induction false} OperandsConcat(a: seq<Predicate>, b: seq<Predicate>)
    requires forall p <- a + b :: LeafPrintable(p)
    ensures (forall p <- a :: LeafPrintable(p)) && (forall p <- b :: LeafPrintable(p))
    ensures Operands(a + b) == Operands(a) + Operands(b)
  {
    hide LeafPrintable, LeafArguments;
    assert forall p <- a :: p in a + b;
    assert forall p <- b :: p in a + b;
    if a == [] {
      assert a + b == b;
    } else {
      assert (a + b)[1..] == a[1..] + b && (a + b)[0] == a[0];
      OperandsConcat(a[1..], b);
    }
  }

  /** A filter binds the operands of its predicates from left to right. */
  lemma {:induction false} ArgumentsFollowLeaves(e: FilterExpr)
    requires Printable(e)
    ensures forall p <- Leaves(e) :: LeafPrintable(p)
    ensures FilterArguments(e) == Operands(Leaves(e))
    decreases e, |e.children| + 1
  {
    if e.leaf.Some? {
      var p := e.leaf.value;
      hide LeafPrintable, LeafArguments;
      assert Leaves(e) == [p] && LeafPrintable(p);
      assert LeafArguments(p) + [] == LeafArguments(p);
    } else {
      ArgumentsFollowLeavesFrom(e, 0);
      assert ChildArguments(e, 0) == [];
    }
  }

  lemma {:induction false} ArgumentsFollowLeavesFrom(e: FilterExpr, i: nat)
    requires e.leaf.None? && Printable(e) && i <= |e.children|
    ensures forall p <- LeavesFrom(e, i) :: LeafPrintable(p)
    ensures ChildArguments(e, |e.children|) == ChildArguments(e, i) + Operands(LeavesFrom(e, i))
    decreases e, |e.children| - i
  {
    hide LeafPrintable, LeafArguments, Leaves, FilterArguments;
    if i < |e.children| {
      ArgumentsFollowLeavesFrom(e, i + 1);
      ArgumentsFollowLeaves(e.children[i]);
      OperandsConcat(Leaves(e.children[i]), LeavesFrom(e, i + 1));
      hide Operands, Printable;
      ConcatAssociates(ChildArguments(e, i), Operands(Leaves(e.children[i])), Operands(LeavesFrom(e, i + 1)));
    } else {
      assert ChildArguments(e, i) + [] == ChildArguments(e, i);
    }
  }

  // ---------------------------------------------------------------- the theorem

  /** The text is read as tokens with exactly one derivation, d; its value on every row is that of the
      plan; and its placeholders number the arguments 1 to n from left to right. */
  ghost predicate ReadsAs(m: Mapping, plan: PlanData, text: string, d: Disjunction)
    requires PlanCompilable(plan) && NamesMapped(m, plan)
  {
    && Lex(text).Some?
    && (forall other :: WellFormed(other) && Yield(other) == Lex(text).value <==> other == d)
    && (forall db :: Evaluate(db, PlanArguments(plan), d) == PlanMeaning(db, m, plan))
    && Params(Lex(text).value) == Numbers(0, |PlanArguments(plan)|)
  }

  /** A plan without constraints and filter has no fragment and no arguments; any other reads as one
      search condition. */
  ghost predicate Faithful(m: Mapping, plan: PlanData, text: string)
    requires PlanCompilable(plan) && NamesMapped(m, plan)
  {
    if plan.constraints == [] && plan.filter.None? then text == "" && PlanArguments(plan) == []
    else exists d :: ReadsAs(m, plan, text, d)
  }

  lemma PlanIsFaithful(m: Mapping, plan: PlanData)
    requires QuotableMapping(m) && PlanCompilable(plan) && NamesMapped(m, plan)
    ensures WherePieces(m, plan).Some? && Faithful(m, plan, Render(WherePieces(m, plan).value))
  {
    var fs := WhereFactors(m, plan);
    assert fs == [] <==> plan.constraints == [] && plan.filter.None?;
    hide QuotableMapping, NamesMapped, WherePieces, WhereFactors, PlanMeaning, Lex, Render, Tokens, Compilable,
         Printable, Yield, WellFormed, AndTree, Evaluate, Params, Numbers, FiltersMapped;
    WhereDerives(m, plan);
    WhereReadsBack(m, plan);
    if fs == [] {
      RenderNil();
    } else {
      hide PlanArguments;
      WhereParams(m, plan);
      var d, ts := Disjunction(AndTree(fs), None), Tokens(WherePieces(m, plan).value);
      forall other ensures WellFormed(other) && Yield(other) == ts <==> other == d {
        ParseIsDerivation(ts, other);
        ParseIsDerivation(ts, d);
      }
      forall db ensures Evaluate(db, PlanArguments(plan), d) == PlanMeaning(db, m, plan) {
        WhereMeans(db, m, plan);
      }
      assert ReadsAs(m, plan, Render(WherePieces(m, plan).value), d);
    }
  }

  /** For every plan Compile returns and every mapping a compiler can hold: printing succeeds exactly
      when every name is mapped, and the fragment then means the plan. */
  lemma CompiledFragment(schema: Schema, request: Request, options: CompileOptions, m: Mapping)
    requires ValidSchema(schema) && CompileRun(schema, request, options).trail.violations == []
    requires QuotableMapping(m)
    ensures var plan := CompileRun(schema, request, options).plan;
      && PlanCompilable(plan)
      && (Mapped(m, plan) <==> NamesMapped(m, plan))
      && (Mapped(m, plan) ==> Faithful(m, plan, Render(WherePieces(m, plan).value)))
  {
    var plan := CompileRun(schema, request, options).plan;
    CompiledPlanPrints(schema, request, options);
    hide CompileRun, PlanCompilable, NamesMapped, QuotableMapping, Render, WherePieces, Faithful, ValidSchema;
    PrintsExactlyWhenMapped(m, plan);
    if NamesMapped(m, plan) {
      PlanIsFaithful(m, plan);
    }
  }
}
