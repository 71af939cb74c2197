/** The WHERE fragment of a plan means what the plan means. */
module PostgresProofs {
  import opened Text
  import opened Types
  import opened SqlLexer
  import opened SqlGrammar
  import opened SqlMeaning
  import opened Postgres
  import Like

  // ---------------------------------------------------------------- the derivation of what is printed

  function One(f: Factor): Disjunction { Disjunction(Conjunction(f, None), None) }

  function AndTree(fs: seq<Factor>): Conjunction
    requires fs != []
  {
    Conjunction(fs[0], if |fs| == 1 then None else Some(AndTree(fs[1..])))
  }

  function OrTree(fs: seq<Factor>): Disjunction
    requires fs != []
  {
    Disjunction(Conjunction(fs[0], None), if |fs| == 1 then None else Some(OrTree(fs[1..])))
  }

  /** The placeholder numbers n+1 to n+k. */
  function Numbers(n: nat, k: nat): (ns: seq<nat>)
    ensures |ns| == k && forall i :: 0 <= i < k ==> ns[i] == n + 1 + i
  {
    seq(k, i => n + 1 + i)
  }

  function LeafTest(column: Column, p: Predicate, n: nat): SqlPredicate {
    match p.operator
    case OpIsNull | OpUnknown(_) => NullTest(column)
    case OpBetween => Range(column, n + 1, n + 2)
    case OpIn => Member(column, false, Numbers(n, |p.values|))
    case OpNotIn => Member(column, true, Numbers(n, |p.values|))
    case OpContains | OpStartsWith | OpEndsWith => Pattern(column, n + 1, "\\")
    case _ => Compare(column, ComparisonOperator(p.operator).value, n + 1)
  }

  /** A filter the plan compiler could have accepted, as far as printing it is concerned. */
  predicate Compilable(e: FilterExpr)
    decreases e
  {
    if e.leaf.Some? then LeafCompilable(e.leaf.value)
    else
      && e.children != [] && !e.logic.LogicUnknown? && (e.logic == LogicNot ==> |e.children| == 1)
      && forall i :: 0 <= i < |e.children| ==> Compilable(e.children[i])
  }

  predicate LeafCompilable(p: Predicate) {
    && (forall v <- p.values :: ValidType(v.kind))
    && match p.operator
       case OpIsNull => |p.values| == 0
       case OpBetween => |p.values| == 2
       case OpIn | OpNotIn => |p.values| > 0
       case OpUnknown(_) => false
       case _ => |p.values| == 1
  }

  lemma {:induction false} CompilableIsPrintable(e: FilterExpr)
    requires Compilable(e)
    ensures Printable(e)
    decreases e
  {
    if e.leaf.None? {
      forall i | 0 <= i < |e.children| ensures Printable(e.children[i]) {
        CompilableIsPrintable(e.children[i]);
      }
    }
  }

  predicate FiltersMapped(m: Mapping, e: FilterExpr)
    decreases e
  {
    if e.leaf.Some? then e.leaf.value.name in m.filters
    else forall i :: 0 <= i < |e.children| ==> FiltersMapped(m, e.children[i])
  }

  function FilterTree(m: Mapping, e: FilterExpr, n: nat): Disjunction
    requires Compilable(e) && Printable(e) && FiltersMapped(m, e)
    decreases e, |e.children| + 1
  {
    if e.leaf.Some? then One(Test(LeafTest(ColumnOf(m.filters[e.leaf.value.name]), e.leaf.value, n)))
    else
      var children := ChildFactors(m, e, |e.children|, n);
      match e.logic
      case LogicAnd => Disjunction(AndTree(children), None)
      case LogicOr => OrTree(children)
      case _ => One(Negation(children[0]))
  }

  function ChildFactors(m: Mapping, e: FilterExpr, k: nat, n: nat): (fs: seq<Factor>)
    requires e.leaf.None? && Compilable(e) && Printable(e) && FiltersMapped(m, e) && k <= |e.children|
    ensures |fs| == k
    decreases e, k
  {
    if k == 0 then []
    else ChildFactors(m, e, k - 1, n) + [Group(FilterTree(m, e.children[k - 1], n + |ChildArguments(e, k - 1)|))]
  }

  // ---------------------------------------------------------------- the printed tokens are its yield

  lemma {:induction false} ColumnTokens(c: Column)
    ensures Tokens(ColumnPieces(c)) == ColumnYield(c)
  {
    if |c| > 1 {
      ColumnTokens(c[1..]);
      TokensConcat([Lexeme(Quoted(c[0])), Lexeme(Dot)], ColumnPieces(c[1..]));
      assert Tokens([Lexeme(Quoted(c[0])), Lexeme(Dot)]) == [Quoted(c[0]), Dot] by {
        assert [Lexeme(Quoted(c[0])), Lexeme(Dot)][1..] == [Lexeme(Dot)] && [Lexeme(Dot)][1..] == [];
      }
    } else if |c| == 1 {
      assert [Lexeme(Quoted(c[0]))][1..] == [];
    }
  }

  lemma BetweenGaps(t: Token)
    ensures Tokens([Gap, Lexeme(t), Gap]) == [t]
  {
    assert [Gap, Lexeme(t), Gap] == [Gap] + [Lexeme(t)] + [Gap];
    TokensConcat([Gap] + [Lexeme(t)], [Gap]);
    TokensConcat([Gap], [Lexeme(t)]);
    OneToken(t);
    assert Tokens([Gap]) == [] by { assert [Gap][1..] == []; }
  }

  lemma SpacedTokens(k: Keyword)
    ensures Tokens(Spaced(k)) == [Word(k)]
  {
    BetweenGaps(Word(k));
  }

  lemma OneToken(t: Token)
    ensures Tokens([Lexeme(t)]) == [t]
  {
    assert [Lexeme(t)][1..] == [];
  }

  lemma ParenthesisedTokens(ps: seq<Piece>)
    ensures Tokens(Parenthesised(ps)) == [LParen] + Tokens(ps) + [RParen]
  {
    OneToken(LParen);
    OneToken(RParen);
    hide Tokens;
    TokensConcat([Lexeme(LParen)] + ps, [Lexeme(RParen)]);
    TokensConcat([Lexeme(LParen)], ps);
  }

  /** Token lists with a separator token between them. */
  function JoinTokens(parts: seq<seq<Token>>, separator: Token): seq<Token> {
    if parts == [] then []
    else if |parts| == 1 then parts[0]
    else parts[0] + [separator] + JoinTokens(parts[1..], separator)
  }

  function TokensOf(parts: seq<seq<Piece>>): (ts: seq<seq<Token>>)
    ensures |ts| == |parts|
  {
    seq(|parts|, i requires 0 <= i < |parts| => Tokens(parts[i]))
  }

  lemma {:induction false} JoinedTokens(parts: seq<seq<Piece>>, separator: seq<Piece>, t: Token)
    requires Tokens(separator) == [t]
    ensures Tokens(JoinPieces(parts, separator)) == JoinTokens(TokensOf(parts), t)
  {
    if parts != [] {
      hide Tokens;
      if |parts| > 1 {
        var rest := JoinPieces(parts[1..], separator);
        JoinedTokens(parts[1..], separator, t);
        TokensConcat(parts[0] + separator, rest);
        TokensConcat(parts[0], separator);
        assert TokensOf(parts)[1..] == TokensOf(parts[1..]);
      }
    }
  }

  function Yields(fs: seq<Factor>): (ys: seq<seq<Token>>)
    ensures |ys| == |fs|
  {
    seq(|fs|, i requires 0 <= i < |fs| => FactorYield(fs[i]))
  }

  lemma {:induction false} AndTreeYield(fs: seq<Factor>)
    requires fs != []
    ensures ConjunctionYield(AndTree(fs)) == JoinTokens(Yields(fs), Word(KwAnd))
  {
    hide FactorYield;
    if |fs| > 1 {
      AndTreeYield(fs[1..]);
      assert Yields(fs)[1..] == Yields(fs[1..]);
      ConcatAssociates(FactorYield(fs[0]), [Word(KwAnd)], ConjunctionYield(AndTree(fs[1..])));
    }
  }

  lemma {:induction false} OrTreeYield(fs: seq<Factor>)
    requires fs != []
    ensures Yield(OrTree(fs)) == JoinTokens(Yields(fs), Word(KwOr))
  {
    hide FactorYield;
    assert ConjunctionYield(Conjunction(fs[0], None)) == FactorYield(fs[0]);
    if |fs| > 1 {
      OrTreeYield(fs[1..]);
      assert Yields(fs)[1..] == Yields(fs[1..]);
      ConcatAssociates(FactorYield(fs[0]), [Word(KwOr)], Yield(OrTree(fs[1..])));
    }
  }

  lemma {:induction false} PlaceholderTokens(n: nat, k: nat)
    ensures JoinTokens(TokensOf(Placeholders(n, k)), Comma) == ParamsYield(Numbers(n, k))
    decreases k
  {
    if k > 0 {
      OneToken(Param(n + 1));
      hide Tokens;
      assert TokensOf(Placeholders(n, k))[0] == [Param(n + 1)] && Numbers(n, k)[0] == n + 1;
      if k > 1 {
        PlaceholderTokens(n + 1, k - 1);
        assert Placeholders(n, k)[1..] == Placeholders(n + 1, k - 1);
        assert TokensOf(Placeholders(n, k))[1..] == TokensOf(Placeholders(n + 1, k - 1));
        assert Numbers(n, k)[1..] == Numbers(n + 1, k - 1);
        assert [Param(n + 1)] + [Comma] == [Param(n + 1), Comma];
      }
    }
  }

  lemma ListTokens(n: nat, k: nat)
    ensures Tokens(Parenthesised(JoinPieces(Placeholders(n, k), [Lexeme(Comma), Gap])))
         == [LParen] + ParamsYield(Numbers(n, k)) + [RParen]
  {
    assert Tokens([Lexeme(Comma), Gap]) == [Comma] by {
      assert [Lexeme(Comma), Gap][1..] == [Gap] && [Gap][1..] == [];
    }
    hide Tokens, JoinPieces, JoinTokens, ParamsYield, Numbers, Placeholders, Parenthesised;
    JoinedTokens(Placeholders(n, k), [Lexeme(Comma), Gap], Comma);
    PlaceholderTokens(n, k);
    ParenthesisedTokens(JoinPieces(Placeholders(n, k), [Lexeme(Comma), Gap]));
  }

  lemma InTokens(list: seq<Piece>, inner: seq<Token>)
    requires Tokens(list) == [LParen] + inner + [RParen]
    ensures Tokens(Spaced(KwIn) + list) == [] + [Word(KwIn), LParen] + inner + [RParen]
  {
    SpacedTokens(KwIn);
    hide Tokens, Spaced;
    TokensConcat(Spaced(KwIn), list);
  }

  lemma NotInTokens(list: seq<Piece>, inner: seq<Token>)
    requires Tokens(list) == [LParen] + inner + [RParen]
    ensures Tokens([Gap, Lexeme(Word(KwNot))] + Spaced(KwIn) + list) == [Word(KwNot)] + [Word(KwIn), LParen] + inner
      + [RParen]
  {
    SpacedTokens(KwIn);
    NotTokens();
    hide Tokens, Spaced;
    TokensConcat([Gap, Lexeme(Word(KwNot))] + Spaced(KwIn), list);
    TokensConcat([Gap, Lexeme(Word(KwNot))], Spaced(KwIn));
  }

  lemma MemberTokens(column: Column, p: Predicate, n: nat)
    requires p.operator == OpIn || p.operator == OpNotIn
    ensures Tokens(TestPieces(p, n).value) == TailYield(LeafTest(column, p, n))
  {
    var list := Parenthesised(JoinPieces(Placeholders(n, |p.values|), [Lexeme(Comma), Gap]));
    var inner := ParamsYield(Numbers(n, |p.values|));
    ListTokens(n, |p.values|);
    hide Tokens, ParamsYield, Numbers, Placeholders, Parenthesised, JoinPieces, Spaced;
    InTokens(list, inner);
    NotInTokens(list, inner);
  }

  lemma NotTokens()
    ensures Tokens([Gap, Lexeme(Word(KwNot))]) == [Word(KwNot)]
    ensures Tokens([Lexeme(Word(KwNot)), Gap]) == [Word(KwNot)]
  {
    assert [Gap, Lexeme(Word(KwNot))][1..] == [Lexeme(Word(KwNot))] && [Lexeme(Word(KwNot))][1..] == [];
    assert [Lexeme(Word(KwNot)), Gap][1..] == [Gap] && [Gap][1..] == [];
  }

  lemma NullTokens()
    ensures Tokens([Gap, Lexeme(Word(KwIs)), Gap, Lexeme(Word(KwNull))]) == [Word(KwIs), Word(KwNull)]
  {
    SpacedTokens(KwIs);
    OneToken(Word(KwNull));
    hide Tokens;
    TokensConcat(Spaced(KwIs), [Lexeme(Word(KwNull))]);
    assert [Gap, Lexeme(Word(KwIs)), Gap, Lexeme(Word(KwNull))] == Spaced(KwIs) + [Lexeme(Word(KwNull))];
  }

  lemma RangeTokens(n: nat)
    ensures Tokens(Spaced(KwBetween) + ParamPiece(n + 1) + Spaced(KwAnd) + ParamPiece(n + 2))
         == [Word(KwBetween), Param(n + 1), Word(KwAnd), Param(n + 2)]
  {
    SpacedTokens(KwBetween);
    SpacedTokens(KwAnd);
    OneToken(Param(n + 1));
    OneToken(Param(n + 2));
    hide Tokens, Spaced;
    TokensConcat(Spaced(KwBetween) + ParamPiece(n + 1) + Spaced(KwAnd), ParamPiece(n + 2));
    TokensConcat(Spaced(KwBetween) + ParamPiece(n + 1), Spaced(KwAnd));
    TokensConcat(Spaced(KwBetween), ParamPiece(n + 1));
  }

  lemma PatternTokens(n: nat)
    ensures Tokens(Spaced(KwLike) + ParamPiece(n + 1) + Spaced(KwEscape) + [Lexeme(Literal("\\"))])
         == [Word(KwLike), Param(n + 1), Word(KwEscape), Literal("\\")]
  {
    SpacedTokens(KwLike);
    SpacedTokens(KwEscape);
    OneToken(Param(n + 1));
    OneToken(Literal("\\"));
    hide Tokens, Spaced;
    TokensConcat(Spaced(KwLike) + ParamPiece(n + 1) + Spaced(KwEscape), [Lexeme(Literal("\\"))]);
    TokensConcat(Spaced(KwLike) + ParamPiece(n + 1), Spaced(KwEscape));
    TokensConcat(Spaced(KwLike), ParamPiece(n + 1));
  }

  lemma ComparisonTokens(c: Comparison, n: nat)
    ensures Tokens([Gap, Lexeme(Cmp(c)), Gap] + ParamPiece(n)) == [Cmp(c), Param(n)]
  {
    BetweenGaps(Cmp(c));
    OneToken(Param(n));
    hide Tokens;
    TokensConcat([Gap, Lexeme(Cmp(c)), Gap], ParamPiece(n));
  }

  lemma TestTokens(column: Column, p: Predicate, n: nat)
    requires !p.operator.OpUnknown?
    ensures Tokens(TestPieces(p, n).value) == TailYield(LeafTest(column, p, n))
  {
    hide KnownSpelling, Tokens, Spaced;
    match p.operator {
      case OpIsNull => NullTokens();
      case OpBetween => RangeTokens(n);
      case OpIn | OpNotIn => MemberTokens(column, p, n);
      case OpContains | OpStartsWith | OpEndsWith => PatternTokens(n);
      case OpEqual => ComparisonTokens(CmpEqual, n + 1);
      case OpNotEqual => ComparisonTokens(CmpNotEqual, n + 1);
      case OpLess => ComparisonTokens(CmpLess, n + 1);
      case OpLessOrEqual => ComparisonTokens(CmpLessOrEqual, n + 1);
      case OpGreater => ComparisonTokens(CmpGreater, n + 1);
      case OpGreaterOrEqual => ComparisonTokens(CmpGreaterOrEqual, n + 1);
    }
  }

  lemma OneYield(f: Factor)
    ensures Yield(One(f)) == FactorYield(f)
  {
    hide FactorYield;
    assert FactorYield(f) + [] == FactorYield(f);
    assert ConjunctionYield(Conjunction(f, None)) == FactorYield(f);
  }

  lemma OnlyConjunction(c: Conjunction)
    ensures Yield(Disjunction(c, None)) == ConjunctionYield(c)
  {
    hide ConjunctionYield;
    assert ConjunctionYield(c) + [] == ConjunctionYield(c);
  }

  lemma LeafDerives(m: Mapping, p: Predicate, n: nat)
    requires LeafCompilable(p) && p.name in m.filters
    ensures var column := ColumnOf(m.filters[p.name]); var test := LeafTest(column, p, n);
      && TestPieces(p, n).Some?
      && Tokens(ColumnPieces(column) + TestPieces(p, n).value) == Yield(One(Test(test)))
      && WellFormed(One(Test(test)))
  {
    var column := ColumnOf(m.filters[p.name]);
    assert WellFormedConjunction(Conjunction(Test(LeafTest(column, p, n)), None));
    ColumnTokens(column);
    TestTokens(column, p, n);
    OneYield(Test(LeafTest(column, p, n)));
    hide Tokens, ColumnPieces, ColumnYield, TestYield, TailYield, Yield, KnownSpelling;
    TokensConcat(ColumnPieces(column), TestPieces(p, n).value);
    hide TestPieces;
  }

  lemma {:induction false} FilterDerives(m: Mapping, e: FilterExpr, n: nat)
    requires Compilable(e) && Printable(e) && FiltersMapped(m, e)
    ensures FilterPieces(m, e, n).Some?
    ensures Tokens(FilterPieces(m, e, n).value) == Yield(FilterTree(m, e, n))
    ensures WellFormed(FilterTree(m, e, n))
    decreases e, |e.children| + 1
  {
    hide Tokens, JoinPieces, JoinTokens, Yield, TestPieces, ColumnPieces;
    if e.leaf.Some? {
      LeafDerives(m, e.leaf.value, n);
      hide LeafTest;
    } else {
      ChildrenDerive(m, e, |e.children|, n);
      hide Compilable, Printable, FiltersMapped, ChildPieces, ChildFactors, Spaced;
      var parts, factors := ChildPieces(m, e, |e.children|, n).value, ChildFactors(m, e, |e.children|, n);
      match e.logic {
        case LogicAnd => AndDerives(parts, factors);
        case LogicOr => OrDerives(parts, factors);
        case _ => NotDerives(parts, factors);
      }
    }
  }

  /** Joining the parts of a group derives the tree of its factors. */
  lemma AndDerives(parts: seq<seq<Piece>>, factors: seq<Factor>)
    requires factors != [] && TokensOf(parts) == Yields(factors) && forall f <- factors :: WellFormedFactor(f)
    ensures Tokens(JoinPieces(parts, Spaced(KwAnd))) == Yield(Disjunction(AndTree(factors), None))
    ensures WellFormed(Disjunction(AndTree(factors), None))
  {
    SpacedTokens(KwAnd);
    TreesWellFormed(factors);
    OnlyConjunction(AndTree(factors));
    hide Tokens, JoinPieces, JoinTokens, Spaced, Yield, ConjunctionYield, AndTree, WellFormedConjunction;
    JoinedTokens(parts, Spaced(KwAnd), Word(KwAnd));
    AndTreeYield(factors);
  }

  lemma OrDerives(parts: seq<seq<Piece>>, factors: seq<Factor>)
    requires factors != [] && TokensOf(parts) == Yields(factors) && forall f <- factors :: WellFormedFactor(f)
    ensures Tokens(JoinPieces(parts, Spaced(KwOr))) == Yield(OrTree(factors))
    ensures WellFormed(OrTree(factors))
  {
    SpacedTokens(KwOr);
    TreesWellFormed(factors);
    hide Tokens, JoinPieces, JoinTokens, Spaced, Yield, ConjunctionYield, OrTree, WellFormed;
    JoinedTokens(parts, Spaced(KwOr), Word(KwOr));
    OrTreeYield(factors);
  }

  lemma NotDerives(parts: seq<seq<Piece>>, factors: seq<Factor>)
    requires factors != [] && TokensOf(parts) == Yields(factors) && WellFormedFactor(factors[0])
    ensures Tokens([Lexeme(Word(KwNot)), Gap] + parts[0]) == Yield(One(Negation(factors[0])))
    ensures WellFormed(One(Negation(factors[0])))
  {
    NotTokens();
    OneYield(Negation(factors[0]));
    assert TokensOf(parts)[0] == Yields(factors)[0];
    assert WellFormedConjunction(Conjunction(Negation(factors[0]), None));
    hide Tokens, Yield, ConjunctionYield;
    TokensConcat([Lexeme(Word(KwNot)), Gap], parts[0]);
  }

  lemma {:induction false} TreesWellFormed(fs: seq<Factor>)
    requires fs != [] && forall f <- fs :: WellFormedFactor(f)
    ensures WellFormedConjunction(AndTree(fs)) && WellFormed(OrTree(fs))
  {
    if |fs| > 1 {
      TreesWellFormed(fs[1..]);
    }
  }

  lemma {:induction false} ChildrenDerive(m: Mapping, e: FilterExpr, k: nat, n: nat)
    requires e.leaf.None? && Compilable(e) && Printable(e) && FiltersMapped(m, e) && k <= |e.children|
    ensures ChildPieces(m, e, k, n).Some?
    ensures TokensOf(ChildPieces(m, e, k, n).value) == Yields(ChildFactors(m, e, k, n))
    ensures forall f <- ChildFactors(m, e, k, n) :: WellFormedFactor(f)
    decreases e, k
  {
    hide Tokens, FilterPieces, FilterTree;
    if k > 0 {
      var offset := n + |ChildArguments(e, k - 1)|;
      ChildrenDerive(m, e, k - 1, n);
      FilterDerives(m, e.children[k - 1], offset);
      var child, tree := FilterPieces(m, e.children[k - 1], offset).value, FilterTree(m, e.children[k - 1], offset);
      ParenthesisedTokens(child);
      var parts, factors := ChildPieces(m, e, k - 1, n).value, ChildFactors(m, e, k - 1, n);
      assert TokensOf(parts + [Parenthesised(child)]) == TokensOf(parts) + [Tokens(Parenthesised(child))];
      assert Yields(factors + [Group(tree)]) == Yields(factors) + [FactorYield(Group(tree))];
      assert FactorYield(Group(tree)) == [LParen] + Yield(tree) + [RParen];
      assert WellFormedFactor(Group(tree));
      hide Parenthesised, ChildArguments, Compilable, Printable, FiltersMapped, Yield, FactorYield, WellFormedFactor;
    }
  }

  // ---------------------------------------------------------------- what the filter means

  /** The truth of one predicate, said without SQL: a null cell makes everything but the null test
      unknown; pattern operands are plain text. */
  ghost function LeafMeaning(db: Database, cell: Option<Value>, p: Predicate): Truth
    requires LeafCompilable(p)
  {
    if p.operator == OpIsNull then Known(cell.None?)
    else if cell.None? then Unknown
    else
      var v := cell.value;
      match p.operator
      case OpEqual => Known(db.order(v, p.values[0]) == Equal)
      case OpNotEqual => Known(db.order(v, p.values[0]) != Equal)
      case OpLess => Known(db.order(v, p.values[0]) == Less)
      case OpLessOrEqual => Known(db.order(v, p.values[0]) != Greater)
      case OpGreater => Known(db.order(v, p.values[0]) == Greater)
      case OpGreaterOrEqual => Known(db.order(v, p.values[0]) != Less)
      case OpBetween => Known(db.order(v, p.values[0]) != Less && db.order(v, p.values[1]) != Greater)
      case OpIn => Known(exists i :: 0 <= i < |p.values| && db.order(v, p.values[i]) == Equal)
      case OpNotIn => Known(forall i :: 0 <= i < |p.values| ==> db.order(v, p.values[i]) != Equal)
      case OpContains => Known(Like.Contains(v.text, p.values[0].text))
      case OpStartsWith => Known(p.values[0].text <= v.text)
      case OpEndsWith => Known(Like.EndsWith(v.text, p.values[0].text))
  }

  ghost function Meaning(db: Database, m: Mapping, e: FilterExpr): Truth
    requires Compilable(e) && FiltersMapped(m, e)
    decreases e
  {
    if e.leaf.Some? then LeafMeaning(db, db.cell(ColumnNamed(m.filters[e.leaf.value.name])), e.leaf.value)
    else
      var children := seq(|e.children|, i requires 0 <= i < |e.children| => Meaning(db, m, e.children[i]));
      match e.logic
      case LogicAnd => All3(children)
      case LogicOr => Any3(children)
      case _ => Not3(children[0])
  }

  // ---------------------------------------------------------------- the fragment means the same

  /** From position n on, the bound arguments are these. */
  ghost predicate BindsAt(arguments: seq<Value>, n: nat, own: seq<Value>) {
    n + |own| <= |arguments| && arguments[n..n + |own|] == own
  }

  lemma BoundAt(arguments: seq<Value>, n: nat, own: seq<Value>, i: nat)
    requires BindsAt(arguments, n, own) && i < |own| && own[i].kind != TypeNull
    ensures Bound(arguments, n + 1 + i) == Some(own[i])
  {
    assert arguments[n..n + |own|][i] == arguments[n + i];
  }

  lemma {:induction false} MembersMean(db: Database, arguments: seq<Value>, n: nat, values: seq<Value>, cell: Value)
    requires BindsAt(arguments, n, values) && forall v <- values :: v.kind != TypeNull
    ensures AnyEqual(db, Some(cell), arguments, Numbers(n, |values|))
         == Known(exists i :: 0 <= i < |values| && db.order(cell, values[i]) == Equal)
    decreases |values|
  {
    if values != [] {
      BoundAt(arguments, n, values, 0);
      assert arguments[n..n + |values|][1..] == arguments[n + 1..n + 1 + |values[1..]|];
      MembersMean(db, arguments, n + 1, values[1..], cell);
      assert Numbers(n, |values|)[1..] == Numbers(n + 1, |values[1..]|);
      forall i | 0 < i < |values| ensures values[i] == values[1..][i - 1] {}
      if exists i :: 0 <= i < |values| && db.order(cell, values[i]) == Equal {
        var i :| 0 <= i < |values| && db.order(cell, values[i]) == Equal;
        assert i > 0 ==> db.order(cell, values[1..][i - 1]) == Equal;
      }
    }
  }

  lemma {:induction false} NullMembers(db: Database, arguments: seq<Value>, params: seq<nat>)
    requires params != []
    ensures AnyEqual(db, None, arguments, params) == Unknown
    decreases |params|
  {
    if |params| > 1 {
      NullMembers(db, arguments, params[1..]);
    }
  }

  lemma LeafMeans(db: Database, arguments: seq<Value>, column: Column, p: Predicate, n: nat)
    requires LeafCompilable(p) && LeafPrintable(p) && BindsAt(arguments, n, LeafArguments(p))
    ensures TestTruth(db, arguments, LeafTest(column, p, n)) == LeafMeaning(db, db.cell(column), p)
  {
    hide KnownSpelling;
    var own, cell := LeafArguments(p), db.cell(column);
    if p.operator in {OpIn, OpNotIn} {
      if cell.Some? {
        MembersMean(db, arguments, n, p.values, cell.value);
      } else {
        NullMembers(db, arguments, Numbers(n, |p.values|));
      }
    } else if p.operator in {OpContains, OpStartsWith, OpEndsWith} {
      PatternMeans(db, arguments, column, p, n);
    } else if p.operator == OpBetween {
      BoundAt(arguments, n, own, 0);
      BoundAt(arguments, n, own, 1);
    } else if p.operator != OpIsNull {
      BoundAt(arguments, n, own, 0);
    }
  }

  lemma PatternMeans(db: Database, arguments: seq<Value>, column: Column, p: Predicate, n: nat)
    requires p.operator in {OpContains, OpStartsWith, OpEndsWith} && |p.values| == 1
    requires LeafCompilable(p) && BindsAt(arguments, n, LeafArguments(p))
    ensures TestTruth(db, arguments, LeafTest(column, p, n)) == LeafMeaning(db, db.cell(column), p)
  {
    BoundAt(arguments, n, LeafArguments(p), 0);
    var cell, t := db.cell(column), p.values[0].text;
    hide Like.EscapeLike, Like.SqlLike, Like.Contains, Like.EndsWith, KnownSpelling;
    if cell.Some? {
      Like.ContainsPattern(cell.value.text, t);
      Like.StartsWithPattern(cell.value.text, t);
      Like.EndsWithPattern(cell.value.text, t);
      assert "" + Like.EscapeLike(t) + "%" == Like.EscapeLike(t) + "%";
      assert "%" + Like.EscapeLike(t) + "" == "%" + Like.EscapeLike(t);
    }
  }

  ghost function FactorTruths(db: Database, arguments: seq<Value>, fs: seq<Factor>): (ts: seq<Truth>)
    ensures |ts| == |fs|
  {
    seq(|fs|, i requires 0 <= i < |fs| => EvaluateFactor(db, arguments, fs[i]))
  }

  lemma {:induction false} TreesEvaluate(db: Database, arguments: seq<Value>, fs: seq<Factor>)
    requires fs != []
    ensures EvaluateConjunction(db, arguments, AndTree(fs)) == All3(FactorTruths(db, arguments, fs))
    ensures Evaluate(db, arguments, OrTree(fs)) == Any3(FactorTruths(db, arguments, fs))
  {
    hide EvaluateFactor, All3, Any3;
    var ts := FactorTruths(db, arguments, fs);
    AllOfMore(ts[0], FactorTruths(db, arguments, fs[1..]));
    assert EvaluateConjunction(db, arguments, Conjunction(fs[0], None)) == ts[0];
    if |fs| == 1 {
      assert ts == [ts[0]];
    } else {
      TreesEvaluate(db, arguments, fs[1..]);
      assert ts == [ts[0]] + FactorTruths(db, arguments, fs[1..]);
    }
  }

  lemma {:induction false} FilterMeans(db: Database, arguments: seq<Value>, m: Mapping, e: FilterExpr, n: nat)
    requires Compilable(e) && Printable(e) && FiltersMapped(m, e)
    requires BindsAt(arguments, n, FilterArguments(e))
    ensures Evaluate(db, arguments, FilterTree(m, e, n)) == Meaning(db, m, e)
    decreases e, |e.children| + 1
  {
    if e.leaf.Some? {
      ColumnIsNamed(m.filters[e.leaf.value.name]);
      OneEvaluates(db, arguments, Test(LeafTest(ColumnOf(m.filters[e.leaf.value.name]), e.leaf.value, n)));
      hide TestTruth, LeafMeaning, LeafTest, LeafArguments;
      LeafMeans(db, arguments, ColumnOf(m.filters[e.leaf.value.name]), e.leaf.value, n);
    } else {
      var fs := ChildFactors(m, e, |e.children|, n);
      ChildrenMean(db, arguments, m, e, |e.children|, n);
      TreesEvaluate(db, arguments, fs);
      var children := seq(|e.children|, i requires 0 <= i < |e.children| => Meaning(db, m, e.children[i]));
      assert FactorTruths(db, arguments, fs) == children;
      GroupEvaluates(db, arguments, fs);
      hide Evaluate, EvaluateConjunction, EvaluateFactor, All3, Any3, ChildFactors, FactorTruths;
    }
  }

  lemma OneEvaluates(db: Database, arguments: seq<Value>, f: Factor)
    ensures Evaluate(db, arguments, One(f)) == EvaluateFactor(db, arguments, f)
  {
    assert EvaluateConjunction(db, arguments, Conjunction(f, None)) == EvaluateFactor(db, arguments, f);
  }

  lemma GroupEvaluates(db: Database, arguments: seq<Value>, fs: seq<Factor>)
    requires fs != []
    ensures Evaluate(db, arguments, Disjunction(AndTree(fs), None)) == EvaluateConjunction(db, arguments, AndTree(fs))
    ensures Evaluate(db, arguments, One(Negation(fs[0]))) == Not3(FactorTruths(db, arguments, fs)[0])
  {
    OneEvaluates(db, arguments, Negation(fs[0]));
  }

  lemma {:induction false} ChildrenMean(db: Database, arguments: seq<Value>, m: Mapping, e: FilterExpr, k: nat, n: nat)
    requires e.leaf.None? && Compilable(e) && Printable(e) && FiltersMapped(m, e) && k <= |e.children|
    requires BindsAt(arguments, n, ChildArguments(e, k))
    ensures forall i :: 0 <= i < k ==>
              EvaluateFactor(db, arguments, ChildFactors(m, e, k, n)[i]) == Meaning(db, m, e.children[i])
    decreases e, k
  {
    if k > 0 {
      var before, own := ChildArguments(e, k - 1), FilterArguments(e.children[k - 1]);
      BindsParts(arguments, n, before, own);
      ChildrenMean(db, arguments, m, e, k - 1, n);
      FilterMeans(db, arguments, m, e.children[k - 1], n + |before|);
      hide FilterTree, Meaning, FilterArguments;
    }
  }

  lemma BindsParts(arguments: seq<Value>, n: nat, a: seq<Value>, b: seq<Value>)
    requires BindsAt(arguments, n, a + b)
    ensures BindsAt(arguments, n, a) && BindsAt(arguments, n + |a|, b)
  {
    var slice := arguments[n..n + |a + b|];
    assert slice[..|a|] == a && slice[|a|..] == b;
    assert arguments[n..n + |a|] == slice[..|a|];
    assert arguments[n + |a|..n + |a| + |b|] == slice[|a|..];
  }
}
