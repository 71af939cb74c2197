/** The printed fragment can be read back: no token runs into the next one. */
module PostgresReadable {
  import opened Text
  import opened Types
  import opened SqlLexer
  import opened SqlGrammar
  import opened Postgres
  import opened PostgresProofs

  /** Anything may stand next to it. */
  predicate Open(p: Piece) { p.Gap? || Standalone(p.token) }

  predicate OpenStart(ps: seq<Piece>) { ps == [] || Open(ps[0]) }

  predicate OpenEnd(ps: seq<Piece>) { ps == [] || Open(ps[|ps| - 1]) }

  lemma ReadableConcat(a: seq<Piece>, b: seq<Piece>)
    requires Readable(a) && Readable(b) && (OpenEnd(a) || OpenStart(b))
    ensures Readable(a + b)
  {
    var c := a + b;
    forall i | 0 <= i < |c| && c[i].Lexeme? ensures Writable(c[i].token) {
      if i < |a| { assert c[i] == a[i]; } else { assert c[i] == b[i - |a|]; }
    }
    forall i | 0 <= i < |c| - 1 ensures Separates(c[i], c[i + 1]) {
      if i + 1 < |a| {
        assert c[i] == a[i] && c[i + 1] == a[i + 1];
      } else if i >= |a| {
        assert c[i] == b[i - |a|] && c[i + 1] == b[i - |a| + 1];
      } else {
        assert c[i] == a[|a| - 1] && c[i + 1] == b[0];
      }
    }
  }

  lemma ParenthesisedReadable(ps: seq<Piece>)
    requires Readable(ps)
    ensures Readable(Parenthesised(ps)) && OpenStart(Parenthesised(ps)) && OpenEnd(Parenthesised(ps))
  {
    ReadableConcat([Lexeme(LParen)], ps);
    ReadableConcat([Lexeme(LParen)] + ps, [Lexeme(RParen)]);
  }

  lemma {:induction false} JoinReadable(parts: seq<seq<Piece>>, separator: seq<Piece>)
    requires (forall p <- parts :: Readable(p)) && Readable(separator)
    requires separator != [] && OpenStart(separator) && OpenEnd(separator)
    ensures Readable(JoinPieces(parts, separator))
  {
    if |parts| > 1 {
      hide Readable;
      JoinReadable(parts[1..], separator);
      ReadableConcat(parts[0], separator);
      ReadableConcat(parts[0] + separator, JoinPieces(parts[1..], separator));
    } else if |parts| == 1 {
      assert parts[0] in parts;
    }
  }

  /** Splitting brings in no new characters. */
  lemma {:induction false} SplitWithout(s: string, separator: char, c: char)
    requires c !in s
    ensures forall p <- Split(s, separator) :: c !in p
    decreases |s|
  {
    if separator !in s {
      SplitWhole(s, separator);
    } else {
      var n := SplitStep(s, separator);
      SplitWithout(s[n + 1..], separator, c);
      hide Split;
    }
  }

  lemma {:induction false} ColumnReadable(c: Column)
    requires forall p <- c :: '"' !in p
    ensures Readable(ColumnPieces(c))
  {
    if |c| > 1 {
      ColumnReadable(c[1..]);
      ReadableConcat([Lexeme(Quoted(c[0])), Lexeme(Dot)], ColumnPieces(c[1..]));
    }
  }

  lemma ListReadable(n: nat, k: nat)
    ensures Readable(Parenthesised(JoinPieces(Placeholders(n, k), [Lexeme(Comma), Gap])))
  {
    JoinReadable(Placeholders(n, k), [Lexeme(Comma), Gap]);
    hide JoinPieces;
    ParenthesisedReadable(JoinPieces(Placeholders(n, k), [Lexeme(Comma), Gap]));
  }

  lemma MembershipReadable(n: nat, k: nat)
    ensures var list := Parenthesised(JoinPieces(Placeholders(n, k), [Lexeme(Comma), Gap]));
      Readable(Spaced(KwIn) + list) && Readable([Gap, Lexeme(Word(KwNot))] + Spaced(KwIn) + list)
  {
    ListReadable(n, k);
    var list := Parenthesised(JoinPieces(Placeholders(n, k), [Lexeme(Comma), Gap]));
    SpacedReadable(KwIn);
    assert Readable([Gap, Lexeme(Word(KwNot))] + Spaced(KwIn)) && OpenEnd([Gap, Lexeme(Word(KwNot))] + Spaced(KwIn));
    hide JoinPieces, Parenthesised, Placeholders, Readable, Spaced;
    ReadableConcat(Spaced(KwIn), list);
    ReadableConcat([Gap, Lexeme(Word(KwNot))] + Spaced(KwIn), list);
  }

  lemma RangeReadable(n: nat)
    ensures Readable(Spaced(KwBetween) + ParamPiece(n + 1) + Spaced(KwAnd) + ParamPiece(n + 2))
    ensures Readable(Spaced(KwLike) + ParamPiece(n + 1) + Spaced(KwEscape) + [Lexeme(Literal("\\"))])
  {
  }

  lemma TestReadable(p: Predicate, n: nat)
    requires !p.operator.OpUnknown?
    ensures Readable(TestPieces(p, n).value) && OpenStart(TestPieces(p, n).value)
  {
    MembershipReadable(n, |p.values|);
    RangeReadable(n);
    var nullTest := [Gap, Lexeme(Word(KwIs)), Gap, Lexeme(Word(KwNull))];
    assert Readable(nullTest);
    forall c: Comparison ensures Readable([Gap, Lexeme(Cmp(c)), Gap] + ParamPiece(n + 1)) {}
    hide KnownSpelling, JoinPieces, Parenthesised, Placeholders, Readable;
  }

  lemma ComparedReadable(identifier: string, test: seq<Piece>)
    requires Quotable(identifier) && Readable(test) && OpenStart(test)
    ensures Readable(ColumnPieces(ColumnOf(identifier)) + test)
  {
    SplitWithout(identifier, '.', '"');
    ColumnReadable(ColumnOf(identifier));
    hide ColumnPieces, Readable;
    ReadableConcat(ColumnPieces(ColumnOf(identifier)), test);
  }

  /** A quoted identifier is read back as quoted names with dots between them; none of the names holds a
      dot, and joined with dots they are the identifier. */
  lemma IdentifierReadsBack(identifier: string)
    requires Quotable(identifier)
    ensures Lex(QuoteIdentifier(identifier)) == Some(ColumnYield(ColumnNamed(identifier)))
    ensures Names(ColumnNamed(identifier), identifier)
  {
    var c := ColumnOf(identifier);
    SplitWithout(identifier, '.', '"');
    ColumnReadable(c);
    LexReadsBack(ColumnPieces(c));
    RenderIdentifier(identifier);
    ColumnTokens(c);
    ColumnIsNamed(identifier);
  }

  lemma SpacedReadable(k: Keyword)
    ensures Readable(Spaced(k)) && OpenStart(Spaced(k)) && OpenEnd(Spaced(k))
  {
  }

  lemma {:induction false} FilterReadable(m: Mapping, e: FilterExpr, n: nat)
    requires QuotableMapping(m) && Compilable(e) && Printable(e) && FilterPieces(m, e, n).Some?
    ensures Readable(FilterPieces(m, e, n).value)
    decreases e, |e.children| + 1
  {
    if e.leaf.Some? {
      TestReadable(e.leaf.value, n);
      hide TestPieces, Readable, KnownSpelling;
      ComparedReadable(m.filters[e.leaf.value.name], TestPieces(e.leaf.value, n).value);
    } else {
      ChildrenReadable(m, e, |e.children|, n);
      var parts := ChildPieces(m, e, |e.children|, n).value;
      SpacedReadable(KwAnd);
      SpacedReadable(KwOr);
      assert Readable([Lexeme(Word(KwNot)), Gap]) && OpenEnd([Lexeme(Word(KwNot)), Gap]);
      hide Readable, ChildPieces, JoinPieces, Spaced, Compilable, Printable;
      JoinReadable(parts, Spaced(KwAnd));
      JoinReadable(parts, Spaced(KwOr));
      ReadableConcat([Lexeme(Word(KwNot)), Gap], parts[0]);
    }
  }

  lemma {:induction false} ChildrenReadable(m: Mapping, e: FilterExpr, k: nat, n: nat)
    requires QuotableMapping(m) && e.leaf.None? && Compilable(e) && Printable(e) && k <= |e.children|
    requires ChildPieces(m, e, k, n).Some?
    ensures forall p <- ChildPieces(m, e, k, n).value :: Readable(p)
    decreases e, k
  {
    if k > 0 {
      hide Readable, FilterPieces;
      var offset := n + |ChildArguments(e, k - 1)|;
      ChildrenReadable(m, e, k - 1, n);
      FilterReadable(m, e.children[k - 1], offset);
      hide QuotableMapping;
      ParenthesisedReadable(FilterPieces(m, e.children[k - 1], offset).value);
      hide Parenthesised;
    }
  }

  lemma {:induction false} ConstraintsReadable(m: Mapping, cs: seq<Constraint>, k: nat)
    requires QuotableMapping(m) && k <= |cs| && ConstraintPieces(m, cs, k).Some?
    ensures forall p <- ConstraintPieces(m, cs, k).value :: Readable(p)
  {
    if k > 0 {
      ConstraintsReadable(m, cs, k - 1);
      assert Readable([Gap, Lexeme(Cmp(CmpEqual)), Gap] + ParamPiece(k));
      hide Readable;
      ComparedReadable(m.constraints[cs[k - 1].name], [Gap, Lexeme(Cmp(CmpEqual)), Gap] + ParamPiece(k));
      ConcatAssociates(ColumnPieces(ColumnOf(m.constraints[cs[k - 1].name])), [Gap, Lexeme(Cmp(CmpEqual)), Gap],
                       ParamPiece(k));
    }
  }

  /** The text of the WHERE fragment is read back as exactly its tokens. */
  lemma WhereReadsBack(m: Mapping, plan: PlanData)
    requires QuotableMapping(m)
    requires plan.filter.Some? ==> Compilable(plan.filter.value) && Printable(plan.filter.value)
    requires WherePieces(m, plan).Some?
    ensures Lex(Render(WherePieces(m, plan).value)) == Some(Tokens(WherePieces(m, plan).value))
  {
    var constraints := ConstraintPieces(m, plan.constraints, |plan.constraints|).value;
    ConstraintsReadable(m, plan.constraints, |plan.constraints|);
    SpacedReadable(KwAnd);
    hide Readable, QuotableMapping, ConstraintPieces, FilterPieces, Compilable, Printable, Spaced, JoinPieces, Lex,
      Render, Tokens;
    JoinReadable(constraints, Spaced(KwAnd));
    ParenthesisedReadable(JoinPieces(constraints, Spaced(KwAnd)));
    var filter: Option<seq<Piece>> := None;
    if plan.filter.Some? {
      filter := FilterPieces(m, plan.filter.value, |plan.constraints|);
      FilterReadable(m, plan.filter.value, |plan.constraints|);
      ParenthesisedReadable(filter.value);
    }
    hide Parenthesised;
    JoinReadable(WhereParts(constraints, filter), Spaced(KwAnd));
    LexReadsBack(WherePieces(m, plan).value);
  }
}
