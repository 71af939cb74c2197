/** Compiler.Compile: strings are assembled in loops while arguments are appended to one shared list. */
module PostgresCompiler {
  import opened Text
  import opened Types
  import opened SqlLexer
  import opened Postgres
  import Like

  datatype QueryParts = QueryParts(projection: string, filtering: string, ordering: string, arguments: seq<Value>)

  /** The argument list every part of one compilation appends to. */
  class ArgumentList {
    var values: seq<Value>

    constructor ()
      ensures values == []
    {
      values := [];
    }

    /** The position of the new argument, counted from one. */
    method Add(value: Value) returns (position: nat)
      modifies this
      ensures values == old(values) + [value] && position == |values|
    {
      values := values + [value];
      position := |values|;
    }
  }

  method CompileMembers(operands: seq<Value>, arguments: ArgumentList) returns (text: string)
    modifies arguments
    ensures arguments.values == old(arguments.values) + operands
    ensures text == Render(JoinPieces(Placeholders(|old(arguments.values)|, |operands|), [Lexeme(Comma), Gap]))
  {
    var start := |arguments.values|;
    ghost var parts := Placeholders(start, |operands|);
    var placeholders: seq<string> := [];
    for i := 0 to |operands|
      invariant arguments.values == old(arguments.values) + operands[..i]
      invariant |placeholders| == i
      invariant forall j :: 0 <= j < i ==> placeholders[j] == Placeholder(start + 1 + j)
    {
      var position := arguments.Add(operands[i]);
      assert operands[..i + 1] == operands[..i] + [operands[i]];
      placeholders := placeholders + [Placeholder(position)];
    }
    assert operands[..|operands|] == operands;
    forall j | 0 <= j < |parts| ensures Texts(parts)[j] == placeholders[j] {
      RenderParam(start + 1 + j);
    }
    assert Texts(parts) == placeholders;
    CommaText();
    RenderJoin(parts, [Lexeme(Comma), Gap]);
    text := Join(placeholders, ", ");
  }

  /** The operand of a pattern test: the text escaped, with a wildcard where more may stand. */
  method MakePattern(operator: Operator, text: string) returns (pattern: string)
    ensures pattern == LikePattern(operator, text)
  {
    pattern := Like.EscapeLike(text);
    if operator != OpStartsWith {
      pattern := "%" + pattern;
    }
    if operator != OpEndsWith {
      pattern := pattern + "%";
    }
  }

  /** What follows the column: the test itself, and its operands appended. */
  method CompileTest(p: Predicate, arguments: ArgumentList) returns (text: Option<string>)
    requires LeafPrintable(p)
    modifies arguments
    ensures text.Some? <==> TestPieces(p, |old(arguments.values)|).Some?
    ensures text.Some? ==>
      && text.value == Render(TestPieces(p, |old(arguments.values)|).value)
      && arguments.values == old(arguments.values) + LeafArguments(p)
  {
    hide Render, KnownSpelling, JoinPieces;
    var n := |arguments.values|;
    match p.operator {
      case OpIsNull =>
        NullTestText();
        text := Some(" IS NULL");
      case OpBetween =>
        var first := arguments.Add(p.values[0]);
        var second := arguments.Add(p.values[1]);
        RangeText(n);
        text := Some(" BETWEEN " + Placeholder(first) + " AND " + Placeholder(second));
      case OpIn | OpNotIn =>
        var list := CompileMembers(p.values, arguments);
        MembershipText(p.operator == OpNotIn, JoinPieces(Placeholders(n, |p.values|), [Lexeme(Comma), Gap]));
        text := Some((if p.operator == OpNotIn then " NOT IN " else " IN ") + "(" + list + ")");
      case OpContains | OpStartsWith | OpEndsWith =>
        var pattern := MakePattern(p.operator, p.values[0].text);
        var position := arguments.Add(Value(TypeString, pattern));
        PatternText(n);
        text := Some(" LIKE " + Placeholder(position) + " ESCAPE " + "'\\'");
      case OpUnknown(_) =>
        text := None;
      case _ =>
        var comparison := ComparisonOperator(p.operator).value;
        var position := arguments.Add(p.values[0]);
        ComparisonTextOf(comparison, n + 1);
        text := Some(" " + ComparisonText(comparison) + " " + Placeholder(position));
    }
  }

  method CompileFilter(m: Mapping, e: FilterExpr, arguments: ArgumentList) returns (sql: Option<string>)
    requires Printable(e)
    modifies arguments
    ensures sql.Some? <==> FilterPieces(m, e, |old(arguments.values)|).Some?
    ensures sql.Some? ==>
      && sql.value == Render(FilterPieces(m, e, |old(arguments.values)|).value)
      && arguments.values == old(arguments.values) + FilterArguments(e)
    decreases e, |e.children| + 1
  {
    hide Render;
    ghost var n := |arguments.values|;
    if e.leaf.Some? {
      var p := e.leaf.value;
      if p.name !in m.filters {
        return None;
      }
      var column := QuoteIdentifier(m.filters[p.name]);
      var test := CompileTest(p, arguments);
      if test.None? {
        return None;
      }
      RenderIdentifier(m.filters[p.name]);
      RenderConcat(ColumnPieces(ColumnOf(m.filters[p.name])), TestPieces(p, n).value);
      return Some(column + test.value);
    }
    var children, ok := CompileChildren(m, e, arguments);
    if !ok {
      return None;
    }
    ghost var parts := ChildPieces(m, e, |e.children|, n).value;
    match e.logic {
      case LogicOr =>
        RenderSpaced(KwOr);
        RenderJoin(parts, Spaced(KwOr));
        assert " " + KeywordText(KwOr) + " " == " OR ";
        sql := Some(Join(children, " OR "));
      case LogicNot =>
        NegationText();
        RenderConcat([Lexeme(Word(KwNot)), Gap], parts[0]);
        sql := Some("NOT " + children[0]);
      case LogicAnd =>
        RenderSpaced(KwAnd);
        RenderJoin(parts, Spaced(KwAnd));
        assert " " + KeywordText(KwAnd) + " " == " AND ";
        sql := Some(Join(children, " AND "));
      case LogicUnknown(_) =>
        sql := None;
    }
  }

  lemma NegationText()
    ensures Render([Lexeme(Word(KwNot)), Gap]) == "NOT "
  {
    RenderNil();
    RenderCons(Gap, []);
    RenderCons(Lexeme(Word(KwNot)), [Gap]);
    assert [Gap] + [] == [Gap] && [Lexeme(Word(KwNot))] + [Gap] == [Lexeme(Word(KwNot)), Gap];
  }

  method CompileChildren(m: Mapping, e: FilterExpr, arguments: ArgumentList) returns (children: seq<string>, ok: bool)
    requires e.leaf.None? && Printable(e)
    modifies arguments
    ensures ok <==> ChildPieces(m, e, |e.children|, |old(arguments.values)|).Some?
    ensures ok ==>
      && children == Texts(ChildPieces(m, e, |e.children|, |old(arguments.values)|).value)
      && arguments.values == old(arguments.values) + ChildArguments(e, |e.children|)
    decreases e, |e.children|
  {
    hide Render, FilterPieces, FilterArguments, Parenthesised;
    ghost var n := |arguments.values|;
    children := [];
    for i := 0 to |e.children|
      invariant ChildPieces(m, e, i, n).Some?
      invariant children == Texts(ChildPieces(m, e, i, n).value)
      invariant arguments.values == old(arguments.values) + ChildArguments(e, i)
    {
      var child := CompileFilter(m, e.children[i], arguments);
      if child.None? {
        NoChildNoMore(m, e, i + 1, n);
        return children, false;
      }
      RenderParenthesised(FilterPieces(m, e.children[i], n + |ChildArguments(e, i)|).value);
      children := children + ["(" + child.value + ")"];
      assert children == Texts(ChildPieces(m, e, i + 1, n).value);
    }
    ok := true;
  }

  lemma {:induction false} NoChildNoMore(m: Mapping, e: FilterExpr, k: nat, n: nat)
    requires e.leaf.None? && Printable(e) && k <= |e.children| && ChildPieces(m, e, k, n).None?
    ensures ChildPieces(m, e, |e.children|, n).None?
    decreases |e.children| - k
  {
    if k < |e.children| {
      NoChildNoMore(m, e, k + 1, n);
    }
  }

  method CompileConstraints(m: Mapping, cs: seq<Constraint>, arguments: ArgumentList)
    returns (texts: seq<string>, ok: bool)
    requires arguments.values == []
    modifies arguments
    ensures ok <==> ConstraintPieces(m, cs, |cs|).Some?
    ensures ok ==> texts == Texts(ConstraintPieces(m, cs, |cs|).value) && arguments.values == ConstraintValues(cs)
  {
    hide Render;
    texts := [];
    for i := 0 to |cs|
      invariant ConstraintPieces(m, cs, i).Some?
      invariant texts == Texts(ConstraintPieces(m, cs, i).value)
      invariant arguments.values == ConstraintValues(cs)[..i]
    {
      if cs[i].name !in m.constraints {
        NoConstraintNoMore(m, cs, i + 1);
        return texts, false;
      }
      var identifier := m.constraints[cs[i].name];
      var position := arguments.Add(cs[i].value);
      RenderIdentifier(identifier);
      ComparisonTextOf(CmpEqual, i + 1);
      RenderConcat(ColumnPieces(ColumnOf(identifier)), [Gap, Lexeme(Cmp(CmpEqual)), Gap] + ParamPiece(i + 1));
      ConcatAssociates(ColumnPieces(ColumnOf(identifier)), [Gap, Lexeme(Cmp(CmpEqual)), Gap], ParamPiece(i + 1));
      texts := texts + [QuoteIdentifier(identifier) + (" " + ComparisonText(CmpEqual) + " " + Placeholder(position))];
      assert texts == Texts(ConstraintPieces(m, cs, i + 1).value);
    }
    ok := true;
  }

  lemma {:induction false} NoConstraintNoMore(m: Mapping, cs: seq<Constraint>, k: nat)
    requires k <= |cs| && ConstraintPieces(m, cs, k).None?
    ensures ConstraintPieces(m, cs, |cs|).None?
    decreases |cs| - k
  {
    if k < |cs| {
      NoConstraintNoMore(m, cs, k + 1);
    }
  }

  method CompileWhere(m: Mapping, plan: PlanData, arguments: ArgumentList) returns (text: Option<string>)
    requires (plan.filter.Some? ==> Printable(plan.filter.value)) && arguments.values == []
    modifies arguments
    ensures text.Some? <==> WherePieces(m, plan).Some?
    ensures text.Some? ==> text.value == Render(WherePieces(m, plan).value) && arguments.values == PlanArguments(plan)
  {
    hide Render, FilterPieces, ConstraintPieces, Printable, FilterArguments;
    var filtering: seq<string> := [];
    var constraints, ok := CompileConstraints(m, plan.constraints, arguments);
    if !ok {
      return None;
    }
    ghost var pieces := ConstraintPieces(m, plan.constraints, |plan.constraints|).value;
    RenderSpaced(KwAnd);
    assert " " + KeywordText(KwAnd) + " " == " AND ";
    if |constraints| > 0 {
      RenderJoin(pieces, Spaced(KwAnd));
      RenderParenthesised(JoinPieces(pieces, Spaced(KwAnd)));
      filtering := ["(" + Join(constraints, " AND ") + ")"];
    }
    ghost var filterPieces: Option<seq<Piece>> := None;
    if plan.filter.Some? {
      var sql := CompileFilter(m, plan.filter.value, arguments);
      if sql.None? {
        return None;
      }
      filterPieces := FilterPieces(m, plan.filter.value, |plan.constraints|);
      RenderParenthesised(filterPieces.value);
      filtering := filtering + ["(" + sql.value + ")"];
    }
    assert filtering == Texts(WhereParts(pieces, filterPieces));
    RenderJoin(WhereParts(pieces, filterPieces), Spaced(KwAnd));
    text := Some(Join(filtering, " AND "));
  }

  method CompileProjection(m: Mapping, fields: seq<string>) returns (texts: seq<string>, ok: bool)
    ensures ok <==> forall f <- fields :: f in m.fields
    ensures ok ==> |texts| == |fields| && forall i :: 0 <= i < |fields| ==> texts[i] == FieldText(m, fields[i])
  {
    texts := [];
    for i := 0 to |fields|
      invariant |texts| == i
      invariant forall j :: 0 <= j < i ==> fields[j] in m.fields && texts[j] == FieldText(m, fields[j])
    {
      if fields[i] !in m.fields {
        return texts, false;
      }
      texts := texts + [QuoteIdentifier(m.fields[fields[i]])];
    }
    ok := true;
  }

  method CompileOrder(m: Mapping, sorts: seq<SortTerm>) returns (texts: seq<string>, ok: bool)
    ensures ok <==> forall term <- sorts :: term.name in m.sorts
    ensures ok ==> |texts| == |sorts| && forall i :: 0 <= i < |sorts| ==> texts[i] == SortText(m, sorts[i])
  {
    texts := [];
    for i := 0 to |sorts|
      invariant |texts| == i
      invariant forall j :: 0 <= j < i ==> sorts[j].name in m.sorts && texts[j] == SortText(m, sorts[j])
    {
      var sort := sorts[i];
      if sort.name !in m.sorts {
        return texts, false;
      }
      var term := QuoteIdentifier(m.sorts[sort.name]) + " " + DirectionText(sort.direction);
      if sort.nulls != NullsUnset {
        term := term + NullsText(sort.nulls);
      }
      texts := texts + [term];
    }
    ok := true;
  }

  function FieldTexts(m: Mapping, fields: seq<string>): (texts: seq<string>)
    ensures |texts| == |fields|
  {
    seq(|fields|, i requires 0 <= i < |fields| => FieldText(m, fields[i]))
  }

  function SortTexts(m: Mapping, sorts: seq<SortTerm>): (texts: seq<string>)
    ensures |texts| == |sorts|
  {
    seq(|sorts|, i requires 0 <= i < |sorts| => SortText(m, sorts[i]))
  }

  ghost predicate Mapped(m: Mapping, plan: PlanData)
    requires plan.filter.Some? ==> Printable(plan.filter.value)
  {
    && (forall f <- plan.executionFields :: f in m.fields)
    && WherePieces(m, plan).Some?
    && (forall term <- plan.sorts :: term.name in m.sorts)
  }

  /** All fragments or none: the text is that of the specified pieces and the arguments are the
      constraint values followed by the filter's. */
  method CompilePlan(m: Mapping, plan: PlanData) returns (parts: Option<QueryParts>)
    requires plan.filter.Some? ==> Printable(plan.filter.value)
    ensures parts.Some? <==> Mapped(m, plan)
    ensures parts.Some? ==>
      && parts.value.projection == Join(FieldTexts(m, plan.executionFields), ", ")
      && parts.value.filtering == Render(WherePieces(m, plan).value)
      && parts.value.ordering == Join(SortTexts(m, plan.sorts), ", ")
      && parts.value.arguments == PlanArguments(plan)
  {
    hide Render, WherePieces, PlanArguments, FieldText, SortText;
    var projection, ok := CompileProjection(m, plan.executionFields);
    if !ok {
      return None;
    }
    var arguments := new ArgumentList();
    var filtering := CompileWhere(m, plan, arguments);
    if filtering.None? {
      return None;
    }
    var order, sorted := CompileOrder(m, plan.sorts);
    if !sorted {
      return None;
    }
    assert projection == FieldTexts(m, plan.executionFields) && order == SortTexts(m, plan.sorts);
    parts := Some(QueryParts(Join(projection, ", "), filtering.value, Join(order, ", "), arguments.values));
  }
}
